/** The manual movement separation: the acceleration magnitude of every row,
    its standard deviation over a centred rolling window of 50 rows, and a
    state per row, "movimento" when that deviation is defined and above the
    threshold, "parado" otherwise; and the run over participants 11..38 with
    success and error counters. The square root and the standard deviation
    of a window are given as functions. */
module MotionThreshold {
  import opened Text
  import opened Runs

  /** `threshold_variacao`'s default. */
  const DEFAULT_THRESHOLD: real := 1.0

  /** `window_size` of the rolling deviation. */
  const ROLLING_WINDOW: nat := 50

  /** The two values of the `estado` column. */
  datatype Estado = Parado | Movimento

  /** `'movimento' if x > threshold_variacao else 'parado'`; an undefined
      deviation (`NaN`, here `None`) compares false. */
  function Classify(variacao: Option<real>, threshold: real): Estado
  {
    if variacao.Some? && variacao.value > threshold then Movimento else Parado
  }

  /** Raising the threshold never turns a row to movement, and an undefined
      deviation is rest whatever the threshold. */
  lemma ClassifyMonotone(variacao: Option<real>, low: real, high: real)
    requires low <= high
    ensures Classify(variacao, high) == Movimento ==> Classify(variacao, low) == Movimento
    ensures variacao.None? ==> Classify(variacao, low) == Parado
  {
  }

  /** `rolling(window=50, center=True).std()`: row `i` takes the rows
      `i - 25 .. i + 24`, and is undefined unless all of them exist. */
  function RollingStd(m: seq<real>, std: seq<real> -> real): (r: seq<Option<real>>)
    ensures |r| == |m|
  {
    var h := ROLLING_WINDOW / 2;
    seq(|m|, i requires 0 <= i < |m| =>
      if h <= i && i + ROLLING_WINDOW - h <= |m| then Some(std(m[i - h .. i + ROLLING_WINDOW - h])) else None)
  }

  /** The `estado` column for magnitudes `m`. */
  function Estados(m: seq<real>, std: seq<real> -> real, threshold: real): (e: seq<Estado>)
    ensures |e| == |m|
  {
    var v := RollingStd(m, std);
    seq(|m|, i requires 0 <= i < |m| => Classify(v[i], threshold))
  }

  /** A row is movement only when a full window of 50 rows is centred on it
      and its deviation exceeds the threshold; so the first 25 and the last
      24 rows, and every row of a table shorter than 50, are rest. */
  lemma EstadosSpec(m: seq<real>, std: seq<real> -> real, threshold: real)
    ensures forall i :: 0 <= i < |m| ==>
              (Estados(m, std, threshold)[i] == Movimento <==>
                 25 <= i && i + 25 <= |m| && std(m[i - 25 .. i + 25]) > threshold)
    ensures |m| < ROLLING_WINDOW ==> forall i :: 0 <= i < |m| ==> Estados(m, std, threshold)[i] == Parado
  {
  }

  /** Every row has exactly one of the two states. */
  lemma {:induction false} StatesPartition(e: seq<Estado>)
    ensures CountOf(e, Parado) + CountOf(e, Movimento) == |e|
    decreases |e|
  {
    if |e| > 0 {
      var n := |e| - 1;
      StatesPartition(e[..n]);
      assert CountOf(e, Parado) == CountOf(e[..n], Parado) + (if e[n] == Parado then 1 else 0);
      assert CountOf(e, Movimento) == CountOf(e[..n], Movimento) + (if e[n] == Movimento then 1 else 0);
    }
  }

  /** The `magnitude` column: the norm of each row's (x, y, z). */
  function Magnitudes(x: seq<real>, y: seq<real>, z: seq<real>, norm: (real, real, real) -> real): (m: seq<real>)
    requires |x| == |y| == |z|
    ensures |m| == |x|
  {
    seq(|x|, i requires 0 <= i < |x| => norm(x[i], y[i], z[i]))
  }

  /** The synchronised frame of one participant: the accelerometer axes, and
      the columns the separation adds. */
  class Frame {
    var x: seq<real>
    var y: seq<real>
    var z: seq<real>
    var magnitude: seq<real>
    var variacao: seq<Option<real>>
    var estado: seq<Estado>

    /** A frame as loaded, before the separation adds its columns. */
    constructor(x: seq<real>, y: seq<real>, z: seq<real>)
      requires |x| == |y| == |z|
      ensures this.x == x && this.y == y && this.z == z
      ensures magnitude == [] && variacao == [] && estado == []
    {
      this.x, this.y, this.z := x, y, z;
      magnitude, variacao, estado := [], [], [];
    }

    /** `separar_manual_movimento`: the three columns are added to this frame,
        whose rows stay as they are, and the statistics counted. */
    method SepararManualMovimento(threshold: real, norm: (real, real, real) -> real, std: seq<real> -> real)
      returns (totalPontos: nat, parado: nat, movimento: nat)
      requires |x| == |y| == |z|
      modifies this
      ensures x == old(x) && y == old(y) && z == old(z)
      ensures magnitude == Magnitudes(x, y, z, norm)
      ensures variacao == RollingStd(magnitude, std)
      ensures estado == Estados(magnitude, std, threshold)
      ensures forall i :: 0 <= i < |estado| ==>
                (estado[i] == Movimento <==> variacao[i].Some? && variacao[i].value > threshold)
      ensures totalPontos == |x| == |estado|
      ensures parado == CountOf(estado, Parado) && movimento == CountOf(estado, Movimento)
      ensures parado + movimento == totalPontos
    {
      var m := Magnitudes(x, y, z, norm);
      var v := RollingStd(m, std);
      var e := seq(|v|, i requires 0 <= i < |v| => Classify(v[i], threshold));
      assert e == Estados(m, std, threshold);
      magnitude, variacao, estado := m, v, e;
      totalPontos := |x|;
      parado := CountOf(e, Parado);
      movimento := CountOf(e, Movimento);
      StatesPartition(e);
    }
  }

  /** `main`: `analisar_pessoa` for participants 11..38 in turn (`analyze`
      is its `True`/`False`), counting successes and errors. */
  method RunAll(analyze: int -> bool) returns (sucessos: nat, erros: nat)
    ensures sucessos == CountPassing(DownsampledIds(), analyze)
    ensures sucessos + erros == 28
  {
    sucessos, erros := CountOutcomes(DownsampledIds(), analyze);
  }
}
