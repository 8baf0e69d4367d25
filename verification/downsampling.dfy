/** Stride downsampling of sensor tables: `iloc[::f]` keeps rows 0, f, 2f, …
    in order. Two scripts use it: the preprocessing script halves every
    recording of participants 11..38 and counts what it produced; the
    visualisation script keeps one row in ten of the already halved
    recordings. Reading and writing the CSV files are given: a table read
    is `Some(rows)`, or `None` when reading or writing raised. */
module Downsampling {
  import opened Text
  import opened Runs
  import opened Windowing

  // ---------------------------------------------------------------------
  // The stride slice
  // ---------------------------------------------------------------------

  /** `s[::f]`: the first row, then the stride slice of what follows the
      next `f - 1` rows. The index is renumbered from 0, as
      `reset_index(drop=True)` does. */
  function Stride<T>(s: seq<T>, f: nat): seq<T>
    requires f >= 1
    decreases |s|
  {
    if |s| == 0 then []
    else if |s| <= f then [s[0]]
    else [s[0]] + Stride(s[f..], f)
  }

  /** The slice holds `ceil(n / f)` rows, and row `k` is input row `k * f`. */
  lemma StrideSpec<T>(s: seq<T>, f: nat)
    requires f >= 1
    ensures |Stride(s, f)| == (|s| + f - 1) / f
    ensures forall k :: 0 <= k < |Stride(s, f)| ==> k * f < |s| && Stride(s, f)[k] == s[k * f]
  {
    StrideLength(s, f);
    StrideRows(s, f);
  }

  lemma {:induction false} StrideLength<T>(s: seq<T>, f: nat)
    requires f >= 1
    ensures |Stride(s, f)| == (|s| + f - 1) / f
    decreases |s|
  {
    if |s| == 0 {
      DivFromBounds(f - 1, f, 0);
    } else if |s| <= f {
      DivFromBounds(|s| + f - 1, f, 1);
    } else {
      var rest := s[f..];
      StrideLength(rest, f);
      var c := |Stride(rest, f)|;
      DivBounds(|rest| + f - 1, f);
      NextMultiple(c, f);
      DivFromBounds(|s| + f - 1, f, c + 1);
    }
  }

  lemma {:induction false} StrideRows<T>(s: seq<T>, f: nat)
    requires f >= 1
    ensures forall k :: 0 <= k < |Stride(s, f)| ==> k * f < |s| && Stride(s, f)[k] == s[k * f]
    decreases |s|
  {
    if |s| > f {
      var rest := s[f..];
      StrideRows(rest, f);
      forall k | 0 < k < |Stride(s, f)| ensures k * f < |s| && Stride(s, f)[k] == s[k * f] {
        assert Stride(s, f)[k] == Stride(rest, f)[k - 1];
        NextMultiple(k - 1, f);
        assert rest[(k - 1) * f] == s[k * f];
      }
    }
  }

  lemma DivBounds(n: nat, w: nat)
    requires w >= 1
    ensures (n / w) * w <= n < (n / w) * w + w
  {
  }

  /** A larger count of strides reaches further. */
  lemma {:induction false} MulMono(a: nat, b: nat, f: nat)
    requires a < b && f >= 1
    ensures a * f < b * f
    decreases b
  {
    NextMultiple(b - 1, f);
    if b - 1 > a {
      MulMono(a, b - 1, f);
    }
  }

  /** `fator = 1` keeps every row. */
  lemma {:induction false} StrideOne<T>(s: seq<T>)
    ensures Stride(s, 1) == s
    decreases |s|
  {
    if |s| > 1 {
      StrideOne(s[1..]);
    }
  }

  /** A non-empty table always keeps its first row. */
  lemma StrideKeepsFirst<T>(s: seq<T>, f: nat)
    requires f >= 1 && |s| > 0
    ensures |Stride(s, f)| >= 1 && Stride(s, f)[0] == s[0]
  {
  }

  /** Kept rows keep their relative order: output rows `i < j` come from
      input rows `i * f < j * f`. */
  lemma StrideOrder<T>(s: seq<T>, f: nat, i: nat, j: nat)
    requires f >= 1 && i < j < |Stride(s, f)|
    ensures i * f < j * f < |s|
    ensures Stride(s, f)[i] == s[i * f] && Stride(s, f)[j] == s[j * f]
  {
    StrideSpec(s, f);
    MulMono(i, j, f);
  }

  // ---------------------------------------------------------------------
  // scripts/preprocessing/downsampling_script.py
  // ---------------------------------------------------------------------

  const DOWNSAMPLE_RATE: nat := 2

  /** What `fazer_downsampling` returns: original and final row counts and
      whether it succeeded. */
  datatype Outcome = Outcome(orig: nat, final: nat, ok: bool)

  /** `fazer_downsampling`: on success the half table is written and
      `(len(df), len(df_downsampled), True)` returned; a missing file or any
      other exception gives `(0, 0, False)`. */
  function FazerDownsampling<T>(read: Option<seq<T>>): (o: Outcome)
    ensures o.ok <==> read.Some?
    ensures !o.ok ==> o.orig == 0 && o.final == 0
    ensures o.ok ==> o.orig == |read.value| && o.final == (o.orig + 1) / 2
  {
    match read
    case None => Outcome(0, 0, false)
    case Some(t) =>
      StrideSpec(t, DOWNSAMPLE_RATE);
      Outcome(|t|, |Stride(t, DOWNSAMPLE_RATE)|, true)
  }

  /** On success exactly rows 0, 2, 4, … are written. */
  lemma HalfKeepsEvenRows<T>(t: seq<T>)
    ensures |Stride(t, DOWNSAMPLE_RATE)| == (|t| + 1) / 2
    ensures forall k :: 0 <= k < |Stride(t, DOWNSAMPLE_RATE)| ==> Stride(t, DOWNSAMPLE_RATE)[k] == t[2 * k]
  {
    StrideSpec(t, DOWNSAMPLE_RATE);
  }

  /** The dictionary `processar_pessoa` returns. */
  datatype Flags = Flags(acelerometro: bool, giroscopio: bool)

  /** `processar_pessoa` as written: after a success it prints the reduction
      `1 - pontos_final / pontos_orig`, which raises `ZeroDivisionError` when
      a table was read with no rows; the exception is not caught. */
  function ProcessarPessoaAsWritten(accel: Outcome, gyro: Outcome): Result<Flags, string>
  {
    if accel.ok && accel.orig == 0 then Failure("ZeroDivisionError")
    else if gyro.ok && gyro.orig == 0 then Failure("ZeroDivisionError")
    else Success(Flags(accel.ok, gyro.ok))
  }

  /** A CSV file with a header and no rows is read without error, so the
      person's processing raises instead of returning its flags. */
  lemma HeaderOnlyFileRaises<T>(gyro: Outcome)
    ensures FazerDownsampling<T>(Some([])) == Outcome(0, 0, true)
    ensures ProcessarPessoaAsWritten(FazerDownsampling<T>(Some([])), gyro).Failure?
  {
  }

  /** The reduction shown, when it is defined. */
  function Reducao(orig: nat, final: nat): (r: Option<real>)
    ensures r.Some? <==> orig > 0
  {
    if orig > 0 then Some(1.0 - (final as real) / (orig as real)) else None
  }

  /** `processar_pessoa` with the reduction shown only for a non-empty
      table: a sensor's flag is set exactly when its downsampling
      succeeded. */
  function ProcessarPessoa(accel: Outcome, gyro: Outcome): (f: Flags)
    ensures f.acelerometro <==> accel.ok
    ensures f.giroscopio <==> gyro.ok
  {
    Flags(accel.ok, gyro.ok)
  }

  /** Both versions agree whenever no successful read was empty. */
  lemma AsWrittenAgreesOnNonEmpty(accel: Outcome, gyro: Outcome)
    requires accel.ok ==> accel.orig > 0
    requires gyro.ok ==> gyro.orig > 0
    ensures ProcessarPessoaAsWritten(accel, gyro) == Success(ProcessarPessoa(accel, gyro))
  {
  }

  /** How many flag pairs satisfy each counter's test. */
  function CountAny(fs: seq<Flags>): (n: nat)
    ensures n <= |fs|
    decreases |fs|
  {
    if |fs| == 0 then 0
    else CountAny(fs[..|fs| - 1]) + (if fs[|fs| - 1].acelerometro || fs[|fs| - 1].giroscopio then 1 else 0)
  }

  function CountAccel(fs: seq<Flags>): nat
    decreases |fs|
  {
    if |fs| == 0 then 0 else CountAccel(fs[..|fs| - 1]) + (if fs[|fs| - 1].acelerometro then 1 else 0)
  }

  function CountGyro(fs: seq<Flags>): nat
    decreases |fs|
  {
    if |fs| == 0 then 0 else CountGyro(fs[..|fs| - 1]) + (if fs[|fs| - 1].giroscopio then 1 else 0)
  }

  /** A person is processed when at least one sensor succeeded: at least
      as many as either sensor's successes, at most their sum. */
  lemma {:induction false} CountersBounds(fs: seq<Flags>)
    ensures CountAccel(fs) <= CountAny(fs) && CountGyro(fs) <= CountAny(fs)
    ensures CountAny(fs) <= CountAccel(fs) + CountGyro(fs)
    decreases |fs|
  {
    if |fs| > 0 {
      CountersBounds(fs[..|fs| - 1]);
    }
  }

  lemma CountersStep(fs: seq<Flags>, i: nat)
    requires i < |fs|
    ensures CountAny(fs[..i + 1]) == CountAny(fs[..i]) + (if fs[i].acelerometro || fs[i].giroscopio then 1 else 0)
    ensures CountAccel(fs[..i + 1]) == CountAccel(fs[..i]) + (if fs[i].acelerometro then 1 else 0)
    ensures CountGyro(fs[..i + 1]) == CountGyro(fs[..i]) + (if fs[i].giroscopio then 1 else 0)
  {
    assert fs[..i + 1][..i] == fs[..i];
  }

  /** The flags of every person of 11..38, in order. */
  function AllFlags<T>(accelRead: int -> Option<seq<T>>, gyroRead: int -> Option<seq<T>>): (fs: seq<Flags>)
    ensures |fs| == 28
  {
    seq(28, k requires 0 <= k < 28 =>
      ProcessarPessoa(FazerDownsampling(accelRead(DownsampledIds()[k])),
                      FazerDownsampling(gyroRead(DownsampledIds()[k]))))
  }

  /** `main`'s loop over the 28 people with its three counters. */
  method MainCounters<T>(accelRead: int -> Option<seq<T>>, gyroRead: int -> Option<seq<T>>)
    returns (pessoasProcessadas: nat, acelerometrosOk: nat, giroscopiosOk: nat)
    ensures pessoasProcessadas == CountAny(AllFlags(accelRead, gyroRead))
    ensures acelerometrosOk == CountAccel(AllFlags(accelRead, gyroRead))
    ensures giroscopiosOk == CountGyro(AllFlags(accelRead, gyroRead))
    ensures acelerometrosOk <= pessoasProcessadas && giroscopiosOk <= pessoasProcessadas
    ensures pessoasProcessadas <= acelerometrosOk + giroscopiosOk && pessoasProcessadas <= 28
  {
    var pessoas := DownsampledIds();
    ghost var fs := AllFlags(accelRead, gyroRead);
    pessoasProcessadas, acelerometrosOk, giroscopiosOk := 0, 0, 0;
    var i := 0;
    while i < |pessoas|
      invariant 0 <= i <= 28
      invariant pessoasProcessadas == CountAny(fs[..i])
      invariant acelerometrosOk == CountAccel(fs[..i])
      invariant giroscopiosOk == CountGyro(fs[..i])
    {
      CountersStep(fs, i);
      var resultados := ProcessarPessoa(FazerDownsampling(accelRead(pessoas[i])),
                                        FazerDownsampling(gyroRead(pessoas[i])));
      assert resultados == fs[i];
      if resultados.acelerometro || resultados.giroscopio {
        pessoasProcessadas := pessoasProcessadas + 1;
      }
      if resultados.acelerometro {
        acelerometrosOk := acelerometrosOk + 1;
      }
      if resultados.giroscopio {
        giroscopiosOk := giroscopiosOk + 1;
      }
      i := i + 1;
    }
    assert fs[..i] == fs;
    CountersBounds(fs);
  }

  /** A person whose processing as written raises: one of the two tables
      was read with no rows. */
  predicate HeaderOnly<T>(accelRead: int -> Option<seq<T>>, gyroRead: int -> Option<seq<T>>, id: int)
  {
    accelRead(id) == Some([]) || gyroRead(id) == Some([])
  }

  /** The person's processing as written raises exactly on a table read with
      no rows, and otherwise returns the corrected flags. */
  lemma AsWrittenRaisesIff<T>(a: Option<seq<T>>, g: Option<seq<T>>)
    ensures ProcessarPessoaAsWritten(FazerDownsampling(a), FazerDownsampling(g)).Failure?
            <==> a == Some([]) || g == Some([])
    ensures ProcessarPessoaAsWritten(FazerDownsampling(a), FazerDownsampling(g)).Success? ==>
            ProcessarPessoaAsWritten(FazerDownsampling(a), FazerDownsampling(g)).value
              == ProcessarPessoa(FazerDownsampling(a), FazerDownsampling(g))
  {
  }

  /** `main` as written: the loop has no `try`, so the first person whose
      processing raises ends the run with that exception (`Failure(id)`) and
      no counters are printed; when nobody raises, the counters are those of
      the corrected run. */
  method MainAsWritten<T>(accelRead: int -> Option<seq<T>>, gyroRead: int -> Option<seq<T>>)
    returns (r: Result<(nat, nat, nat), int>)
    ensures r.Failure? <==> exists k :: 0 <= k < 28 && HeaderOnly(accelRead, gyroRead, DownsampledIds()[k])
    ensures r.Failure? ==>
              exists k :: && 0 <= k < 28 && r.error == DownsampledIds()[k]
                          && HeaderOnly(accelRead, gyroRead, DownsampledIds()[k])
                          && forall j :: 0 <= j < k ==> !HeaderOnly(accelRead, gyroRead, DownsampledIds()[j])
    ensures r.Success? ==> r.value == (CountAny(AllFlags(accelRead, gyroRead)),
                                       CountAccel(AllFlags(accelRead, gyroRead)),
                                       CountGyro(AllFlags(accelRead, gyroRead)))
  {
    var pessoas := DownsampledIds();
    ghost var fs := AllFlags(accelRead, gyroRead);
    var pessoasProcessadas, acelerometrosOk, giroscopiosOk := 0, 0, 0;
    var i := 0;
    while i < |pessoas|
      invariant 0 <= i <= 28
      invariant forall j :: 0 <= j < i ==> !HeaderOnly(accelRead, gyroRead, pessoas[j])
      invariant pessoasProcessadas == CountAny(fs[..i])
      invariant acelerometrosOk == CountAccel(fs[..i])
      invariant giroscopiosOk == CountGyro(fs[..i])
    {
      var a, g := accelRead(pessoas[i]), gyroRead(pessoas[i]);
      AsWrittenRaisesIff(a, g);
      var outcome := ProcessarPessoaAsWritten(FazerDownsampling(a), FazerDownsampling(g));
      if outcome.Failure? {
        return Failure(pessoas[i]);
      }
      CountersStep(fs, i);
      var resultados := outcome.value;
      assert resultados == fs[i];
      if resultados.acelerometro || resultados.giroscopio {
        pessoasProcessadas := pessoasProcessadas + 1;
      }
      if resultados.acelerometro {
        acelerometrosOk := acelerometrosOk + 1;
      }
      if resultados.giroscopio {
        giroscopiosOk := giroscopiosOk + 1;
      }
      i := i + 1;
    }
    assert fs[..i] == fs;
    r := Success((pessoasProcessadas, acelerometrosOk, giroscopiosOk));
  }

  // ---------------------------------------------------------------------
  // scripts/downsample_visualizacao/downsample_e_visualizar.py
  // ---------------------------------------------------------------------

  const FATOR: nat := 10

  /** `main`: for every person 11..38 the accelerometer table and then the
      gyroscope table are reduced ten times and written; both sit in one
      `try`, so a failing accelerometer skips that person's gyroscope, and
      any failure moves on to the next person. */
  method SuperDownsampleAll<T>(accelRead: int -> Option<seq<T>>, gyroRead: int -> Option<seq<T>>)
    returns (attempted: seq<int>, accelWritten: map<int, seq<T>>, gyroWritten: map<int, seq<T>>)
    ensures attempted == DownsampledIds()
    ensures forall pid :: pid in accelWritten <==> pid in attempted && accelRead(pid).Some?
    ensures forall pid :: pid in accelWritten ==> accelWritten[pid] == Stride(accelRead(pid).value, FATOR)
    ensures forall pid :: pid in gyroWritten <==>
              pid in attempted && accelRead(pid).Some? && gyroRead(pid).Some?
    ensures forall pid :: pid in gyroWritten ==> gyroWritten[pid] == Stride(gyroRead(pid).value, FATOR)
  {
    var ids := DownsampledIds();
    attempted, accelWritten, gyroWritten := [], map[], map[];
    var i := 0;
    while i < |ids|
      invariant 0 <= i <= |ids| && attempted == ids[..i]
      invariant forall pid :: pid in accelWritten <==> pid in attempted && accelRead(pid).Some?
      invariant forall pid :: pid in accelWritten ==> accelWritten[pid] == Stride(accelRead(pid).value, FATOR)
      invariant forall pid :: pid in gyroWritten <==>
                  pid in attempted && accelRead(pid).Some? && gyroRead(pid).Some?
      invariant forall pid :: pid in gyroWritten ==> gyroWritten[pid] == Stride(gyroRead(pid).value, FATOR)
    {
      var pid := ids[i];
      assert ids[..i + 1] == attempted + [pid];
      var accel := accelRead(pid);
      if accel.Some? {
        accelWritten := accelWritten[pid := Stride(accel.value, FATOR)];
        var gyro := gyroRead(pid);
        if gyro.Some? {
          gyroWritten := gyroWritten[pid := Stride(gyro.value, FATOR)];
        }
      }
      attempted := attempted + [pid];
      i := i + 1;
    }
    assert ids[..i] == ids;
  }
}
