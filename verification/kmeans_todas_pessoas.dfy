/** The comparison script over all listed participants: two clusters over
    windows of two rows, one summary per participant whose analysis
    returned, a grid of four plots per row, and a bar per participant that
    is red when cluster 1 holds more than half of the windows. Loading and
    joining a participant's data is given as `load` (`None` when it raises)
    and clustering as `cluster` (labels and inertia, `None` when it raises).
    Clustering fewer windows than clusters always raises (the scaler
    rejects an empty array and `KMeans(n_clusters=2)` rejects a single
    sample), so that case is decided here and not left to `cluster`. */
module KmeansTodasPessoas {
  import opened Text
  import opened Windowing
  import opened Runs

  const N_CLUSTERS: int := 2
  const WINDOW_SIZE: nat := 2

  /** The dictionary `processar_pessoa` returns, less the id (kept beside
      it). */
  datatype Resumo = Resumo(nPontos: nat, labels: seq<int>, inercia: real, cluster0: nat, cluster1: nat)

  /** What `processar_pessoa(id)` returns. `aplicar_kmeans` raises on
      fewer than `N_CLUSTERS` windows, which the `try` turns into `None`. */
  function Resumir(id: int, load: int -> Option<seq<Row>>,
                   cluster: seq<seq<real>> -> Option<(seq<int>, real)>): Option<Resumo>
  {
    match load(id)
    case None => None
    case Some(rows) =>
      if |rows| / WINDOW_SIZE < N_CLUSTERS then None
      else
      match cluster(ConcatWindows(rows, WINDOW_SIZE))
      case None => None
      case Some(c) => Some(Resumo(|rows| / WINDOW_SIZE, c.0, c.1, CountOf(c.0, 0), CountOf(c.0, 1)))
  }

  /** `processar_pessoa`: load, build the windows, cluster, count the two
      labels; any exception gives `None`. */
  method ProcessarPessoa(id: int, load: int -> Option<seq<Row>>,
                         cluster: seq<seq<real>> -> Option<(seq<int>, real)>)
    returns (r: Option<Resumo>)
    ensures r == Resumir(id, load, cluster)
  {
    var loaded := load(id);
    if loaded.None? {
      return None;
    }
    var features := WindowFeatures(loaded.value, WINDOW_SIZE);
    if |features| < N_CLUSTERS {
      return None;
    }
    var c := cluster(features);
    if c.None? {
      return None;
    }
    var labels := c.value.0;
    r := Some(Resumo(|features|, labels, c.value.1, CountOf(labels, 0), CountOf(labels, 1)));
  }

  /** A summary counts one point per window, and its two cluster counts
      add up to the number of labels when every label is 0 or 1. */
  lemma ResumoCounts(id: int, load: int -> Option<seq<Row>>,
                     cluster: seq<seq<real>> -> Option<(seq<int>, real)>)
    requires Resumir(id, load, cluster).Some?
    requires forall j :: 0 <= j < |Resumir(id, load, cluster).value.labels| ==>
               Resumir(id, load, cluster).value.labels[j] in {0, 1}
    ensures load(id).Some? && Resumir(id, load, cluster).value.nPontos == |load(id).value| / WINDOW_SIZE
    ensures Resumir(id, load, cluster).value.cluster0 + Resumir(id, load, cluster).value.cluster1
            == |Resumir(id, load, cluster).value.labels|
  {
    TwoLabelCounts(Resumir(id, load, cluster).value.labels);
  }

  /** Labels drawn from {0, 1} are counted exactly once between the two
      counts. */
  lemma {:induction false} TwoLabelCounts(labels: seq<int>)
    requires forall j :: 0 <= j < |labels| ==> labels[j] in {0, 1}
    ensures CountOf(labels, 0) + CountOf(labels, 1) == |labels|
    decreases |labels|
  {
    if |labels| > 0 {
      var n := |labels| - 1;
      assert forall j :: 0 <= j < n ==> labels[..n][j] == labels[j];
      TwoLabelCounts(labels[..n]);
    }
  }

  /** `(n_pessoas + n_cols - 1) // n_cols` with four columns: enough rows
      for every plot and no empty row. */
  function GridRows(n: nat): (rows: nat)
    ensures 4 * rows >= n && 4 * rows < n + 4
  {
    (n + 4 - 1) / 4
  }

  /** `plotar_todas_pessoas` up to the grid: the listed participants in
      turn, keeping every summary returned, in list order. */
  method PlotarTodasPessoas(load: int -> Option<seq<Row>>,
                            cluster: seq<seq<real>> -> Option<(seq<int>, real)>)
    returns (resultados: seq<(int, Resumo)>, nRows: nat)
    ensures resultados == Successes(ListedIds(), id => Resumir(id, load, cluster))
    ensures 4 * nRows >= |resultados| && 4 * nRows < |resultados| + 4
  {
    var pessoas := ListedIds();
    var summarize := id => Resumir(id, load, cluster);
    resultados := [];
    var i := 0;
    while i < |pessoas|
      invariant 0 <= i <= |pessoas|
      invariant resultados == Successes(pessoas[..i], summarize)
    {
      SuccessesSnoc(pessoas, i, summarize);
      var resultado := ProcessarPessoa(pessoas[i], load, cluster);
      assert resultado == summarize(pessoas[i]);
      if resultado.Some? {
        resultados := resultados + [(pessoas[i], resultado.value)];
      }
      i := i + 1;
    }
    assert pessoas[..i] == pessoas;
    nRows := GridRows(|resultados|);
  }

  /** Every summary of `resultados` has at least `N_CLUSTERS` points. */
  predicate AllHavePoints(resultados: seq<(int, Resumo)>)
  {
    forall k :: 0 <= k < |resultados| ==> resultados[k].1.nPontos >= N_CLUSTERS
  }

  /** Every summary the run keeps has at least `N_CLUSTERS` points, so the
      percentage of each one is defined. */
  lemma KeptSummariesHavePoints(load: int -> Option<seq<Row>>,
                                cluster: seq<seq<real>> -> Option<(seq<int>, real)>)
    ensures AllHavePoints(Successes(ListedIds(), id => Resumir(id, load, cluster)))
  {
    var summarize := id => Resumir(id, load, cluster);
    SuccessesSound(ListedIds(), summarize);
    forall k | 0 <= k < |Successes(ListedIds(), summarize)|
      ensures Successes(ListedIds(), summarize)[k].1.nPontos >= N_CLUSTERS
    {
      var kept := Successes(ListedIds(), summarize)[k];
      assert summarize(kept.0) == Some(kept.1);
    }
  }

  /** `(cluster_1 / n_pontos) * 100`, the share of windows in cluster 1 as
      a percentage. Only summaries with points reach it (see
      `KeptSummariesHavePoints`). */
  function Percentual(c1: nat, n: nat): (p: real)
    requires n >= 1
    ensures p >= 0.0
    ensures c1 <= n ==> p <= 100.0
    ensures c1 == 0 <==> p == 0.0
  {
    PercentBounds(c1 as real, n as real);
    (c1 as real) / (n as real) * 100.0
  }

  lemma PercentBounds(a: real, b: real)
    requires a >= 0.0 && b >= 1.0
    ensures a / b * 100.0 >= 0.0
    ensures a <= b ==> a / b * 100.0 <= 100.0
    ensures a == 0.0 <==> a / b * 100.0 == 0.0
  {
    QuotientTimes(a, b);
  }

  /** `'red' if p > 50 else 'blue'`. */
  predicate IsRed(p: real)
  {
    p > 50.0
  }

  /** A bar is red exactly when cluster 1 holds more than half of the
      windows. */
  lemma RedIffMajority(c1: nat, n: nat)
    requires n > 0
    ensures IsRed(Percentual(c1, n)) <==> 2 * c1 > n
  {
    var a, b := c1 as real, n as real;
    assert Percentual(c1, n) == a / b * 100.0;
    ShareAboveHalf(a, b);
    HalfCompare(c1, n);
  }

  lemma ShareAboveHalf(a: real, b: real)
    requires b > 0.0
    ensures a / b * 100.0 > 50.0 <==> a > 0.5 * b
  {
    ScaleCompare(a / b, b, 0.5);
    QuotientTimes(a, b);
  }

  lemma QuotientTimes(a: real, b: real)
    requires b > 0.0
    ensures (a / b) * b == a
  {
  }

  lemma HalfCompare(c: nat, n: nat)
    ensures (c as real) > 0.5 * (n as real) <==> 2 * c > n
  {
    assert (2 * c) as real == 2.0 * (c as real);
  }

  lemma ScaleCompare(q: real, b: real, t: real)
    requires b > 0.0
    ensures q > t <==> q * b > t * b
  {
    assert q * b - t * b == (q - t) * b;
  }
}
