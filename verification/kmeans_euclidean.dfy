/** The variation-based K-means script of the downsampled recordings: four
    summary slots per window of ten rows, clusters named by the mean
    accelerometer spread (slot 0), every participant 11..38 analysed with
    success and error counters, and the overall share of the three movement
    names among all windows. */
module KmeansEuclidean {
  import opened Text
  import opened Windowing
  import opened ClusterNaming
  import opened Runs

  /** Slot 0 (accelerometer spread) of every feature vector:
      `features[:, 0]`. */
  function SpreadColumn(features: seq<seq<real>>): (keys: seq<real>)
    requires forall k :: 0 <= k < |features| ==> |features[k]| >= 1
    ensures |keys| == |features|
  {
    seq(|features|, k requires 0 <= k < |features| => features[k][0])
  }

  /** `map_clusters_to_movement(labels, features)`: clusters ranked by the
      mean of slot 0 over their windows. */
  method MapClustersToMovement(labels: seq<int>, features: seq<seq<real>>)
    returns (ordered: seq<int>, named: map<int, string>, labelsMovement: seq<string>)
    requires |features| == |labels|
    requires forall k :: 0 <= k < |features| ==> |features[k]| >= 1
    ensures NamingSound(SpreadColumn(features), labels, ordered, named, labelsMovement)
    ensures forall k :: 0 <= k < |features| ==> SpreadColumn(features)[k] == features[k][0]
  {
    ordered, named, labelsMovement := ClusterNaming.MapClustersToMovement(labels, SpreadColumn(features));
  }

  // ---------------------------------------------------------------------
  // The overall distribution of movement names
  // ---------------------------------------------------------------------

  /** How many windows of all participants carry `name`. */
  function TotalCount(movements: seq<seq<string>>, name: string): nat
    decreases |movements|
  {
    if |movements| == 0 then 0
    else
      var n := |movements| - 1;
      TotalCount(movements[..n], name) + CountOf(movements[n], name)
  }

  /** How many windows all participants have. */
  function TotalLength(movements: seq<seq<string>>): nat
    decreases |movements|
  {
    if |movements| == 0 then 0
    else
      var n := |movements| - 1;
      TotalLength(movements[..n]) + |movements[n]|
  }

  /** The tally loop: `dist_geral[mov] += count` only for the three
      movement names, `total_janelas += count` for every name. */
  method DistribuicaoGeral(movements: seq<seq<string>>)
    returns (parado: nat, baixo: nat, alto: nat, total: nat)
    ensures parado == TotalCount(movements, PARADO)
    ensures baixo == TotalCount(movements, BAIXO)
    ensures alto == TotalCount(movements, ALTO)
    ensures total == TotalLength(movements)
  {
    parado, baixo, alto, total := 0, 0, 0, 0;
    var i := 0;
    while i < |movements|
      invariant 0 <= i <= |movements|
      invariant parado == TotalCount(movements[..i], PARADO)
      invariant baixo == TotalCount(movements[..i], BAIXO)
      invariant alto == TotalCount(movements[..i], ALTO)
      invariant total == TotalLength(movements[..i])
    {
      assert movements[..i + 1][..i] == movements[..i];
      var m := movements[i];
      parado := parado + CountOf(m, PARADO);
      baixo := baixo + CountOf(m, BAIXO);
      alto := alto + CountOf(m, ALTO);
      total := total + |m|;
      i := i + 1;
    }
    assert movements[..i] == movements;
  }

  /** Within one participant the three names together never outnumber the
      windows. */
  lemma {:induction false} ThreeNamesWithin(s: seq<string>)
    ensures CountOf(s, PARADO) + CountOf(s, BAIXO) + CountOf(s, ALTO) <= |s|
    decreases |s|
  {
    if |s| > 0 {
      ThreeNamesWithin(s[..|s| - 1]);
      assert |PARADO| != |BAIXO| && |PARADO| != |ALTO| && |BAIXO| != |ALTO|;
    }
  }

  /** Over all participants the three tallies together never exceed the
      window total. */
  lemma {:induction false} TalliesWithinTotal(movements: seq<seq<string>>)
    ensures TotalCount(movements, PARADO) + TotalCount(movements, BAIXO) + TotalCount(movements, ALTO)
            <= TotalLength(movements)
    decreases |movements|
  {
    if |movements| > 0 {
      var n := |movements| - 1;
      TalliesWithinTotal(movements[..n]);
      ThreeNamesWithin(movements[n]);
    }
  }

  /** `dist_geral[k] / total_janelas if total_janelas > 0 else 0`. */
  function Fraction(count: nat, total: nat): real
  {
    if total > 0 then (count as real) / (total as real) else 0.0
  }

  /** The three shares are fractions whose sum is at most one, and all are
      zero when there are no windows. */
  lemma SharesBounded(parado: nat, baixo: nat, alto: nat, total: nat)
    requires parado + baixo + alto <= total
    ensures 0.0 <= Fraction(parado, total) && 0.0 <= Fraction(baixo, total) && 0.0 <= Fraction(alto, total)
    ensures Fraction(parado, total) + Fraction(baixo, total) + Fraction(alto, total) <= 1.0
    ensures total == 0 ==> Fraction(parado, total) == Fraction(baixo, total) == Fraction(alto, total) == 0.0
  {
    if total > 0 {
      var t, a, b, c := total as real, parado as real, baixo as real, alto as real;
      assert a / t + b / t + c / t == (a + b + c) / t;
      FractionAtMostOne(a + b + c, t);
    }
  }

  lemma FractionAtMostOne(s: real, t: real)
    requires 0.0 <= s <= t && t > 0.0
    ensures 0.0 <= s / t <= 1.0
  {
    assert s / t * t == s;
  }

  /** The movement labels of each kept participant, in order. */
  function MovementsOf(resultados: seq<(int, seq<string>)>): (ms: seq<seq<string>>)
    ensures |ms| == |resultados|
  {
    seq(|resultados|, k requires 0 <= k < |resultados| => resultados[k].1)
  }

  /** `analisar_todas_pessoas`: every participant 11..38 is analysed (the
      analysis is given and returns the per-window movement names, or
      raises); the successes are kept in order with their counters, and
      when there is at least one the shares of the three names are
      computed. */
  method AnalisarTodasPessoas(analyze: int -> Option<seq<string>>)
    returns (resultados: seq<(int, seq<string>)>, sucessos: nat, erros: nat,
             dist: Option<(real, real, real)>)
    ensures resultados == Successes(DownsampledIds(), analyze)
    ensures sucessos == |resultados| && sucessos + erros == 28
    ensures dist.Some? <==> |resultados| > 0
    ensures dist.Some? ==>
              var ms := MovementsOf(resultados);
              var t := TotalLength(ms);
              dist.value == (Fraction(TotalCount(ms, PARADO), t),
                             Fraction(TotalCount(ms, BAIXO), t),
                             Fraction(TotalCount(ms, ALTO), t))
  {
    resultados, sucessos, erros := CollectResults(DownsampledIds(), analyze);
    if |resultados| > 0 {
      var parado, baixo, alto, total := DistribuicaoGeral(MovementsOf(resultados));
      dist := Some((Fraction(parado, total), Fraction(baixo, total), Fraction(alto, total)));
    } else {
      dist := None;
    }
  }

  /** The reported shares are proper fractions summing to at most one. */
  lemma DistributionBounded(resultados: seq<(int, seq<string>)>)
    ensures var ms := MovementsOf(resultados);
            var t := TotalLength(ms);
            var a, b, c := Fraction(TotalCount(ms, PARADO), t), Fraction(TotalCount(ms, BAIXO), t),
                           Fraction(TotalCount(ms, ALTO), t);
            0.0 <= a && 0.0 <= b && 0.0 <= c && a + b + c <= 1.0
  {
    var ms := MovementsOf(resultados);
    TalliesWithinTotal(ms);
    SharesBounded(TotalCount(ms, PARADO), TotalCount(ms, BAIXO), TotalCount(ms, ALTO), TotalLength(ms));
  }
}
