/** The exploratory K-means script: an elbow sweep over the number of
    clusters and a sweep over window sizes. Clustering itself is given: for
    the elbow sweep `fit(k)` is the inertia of the k-cluster model, `None`
    when the fit raises, and `score(k)` its silhouette; for the window sweep
    `inertia(w)` and `score(w)` belong to the model on windows of `w` rows.
    The scaler's error on an empty feature array is part of `fit` failing:
    K-means over fewer windows than clusters raises as well. A cluster
    count below 1 never arises, because the script runs the elbow sweep
    from k = 2 to `max_k = 8` and the window sweep with `k = 2`. */
module KmeansExploratorio {
  import opened Text
  import opened Windowing

  // ---------------------------------------------------------------------
  // metodo_cotovelo
  // ---------------------------------------------------------------------

  /** The silhouette rule: the score is computed only when `2 <= k < n`
      for `k` clusters over `n` windows, otherwise 0 is recorded. */
  function SilhouetteOrZero(k: int, n: nat, score: real): real
  {
    if 2 <= k < n then score else 0.0
  }

  /** Whether every fit for `k` in `lo..hi` returns. */
  predicate AllFit(lo: int, hi: int, fit: int -> Option<real>)
  {
    forall k :: lo <= k <= hi ==> fit(k).Some?
  }

  /** `metodo_cotovelo` over `n` windows: `k` runs over `2..max_k`; one
      inertia and one silhouette are recorded per `k`; a fit that raises
      ends the sweep with that exception (`None`). */
  method MetodoCotovelo(n: nat, maxK: int, fit: int -> Option<real>, score: int -> real)
    returns (outcome: Option<(seq<real>, seq<real>)>)
    ensures outcome.Some? <==> AllFit(2, maxK, fit)
    ensures outcome.Some? ==>
              var (inercias, silhouettes) := outcome.value;
              && |inercias| == |silhouettes| == (if maxK >= 2 then maxK - 1 else 0)
              && (forall i :: 0 <= i < |inercias| ==> Some(inercias[i]) == fit(i + 2))
              && (forall i :: 0 <= i < |silhouettes| ==> silhouettes[i] == SilhouetteOrZero(i + 2, n, score(i + 2)))
  {
    var inercias: seq<real> := [];
    var silhouettes: seq<real> := [];
    var k := 2;
    while k <= maxK
      invariant 2 <= k && (k <= maxK + 1 || k == 2)
      invariant AllFit(2, k - 1, fit)
      invariant |inercias| == |silhouettes| == k - 2
      invariant forall i :: 0 <= i < |inercias| ==> Some(inercias[i]) == fit(i + 2)
      invariant forall i :: 0 <= i < |silhouettes| ==> silhouettes[i] == SilhouetteOrZero(i + 2, n, score(i + 2))
    {
      var f := fit(k);
      if f.None? {
        assert !AllFit(2, maxK, fit);
        return None;
      }
      inercias := inercias + [f.value];
      if k >= 2 && k < n {
        silhouettes := silhouettes + [score(k)];
      } else {
        silhouettes := silhouettes + [0.0];
      }
      k := k + 1;
    }
    outcome := Some((inercias, silhouettes));
  }

  // ---------------------------------------------------------------------
  // comparar_tamanhos_janela
  // ---------------------------------------------------------------------

  /** One record of the window sweep. */
  datatype WindowResult = WindowResult(windowSize: int, nConjuntos: nat, inercia: real, silhouette: real)

  /** The record of window size `w` on a table of `n` rows, if it is kept. */
  function Record(n: nat, k: int, w: nat, inertia: int -> real, score: int -> real): seq<WindowResult>
    requires w >= 1
  {
    if n / w < k then []
    else [WindowResult(w, n / w, inertia(w), SilhouetteOrZero(k, n / w, score(w)))]
  }

  /** The records for window sizes `2..hi`, in ascending window size. */
  function Sweep(n: nat, k: int, hi: int, inertia: int -> real, score: int -> real): seq<WindowResult>
    decreases hi
  {
    if hi < 2 then [] else Sweep(n, k, hi - 1, inertia, score) + Record(n, k, hi, inertia, score)
  }

  /** `comparar_tamanhos_janela`: window sizes `2..max_window` in turn; a
      size with fewer than `k` windows is skipped; every other size records
      its window count, inertia and silhouette. */
  method CompararTamanhosJanela(rows: seq<Row>, k: int, maxWindow: int,
                                inertia: int -> real, score: int -> real)
    returns (resultados: seq<WindowResult>)
    ensures resultados == Sweep(|rows|, k, maxWindow, inertia, score)
  {
    resultados := [];
    var w := 2;
    while w <= maxWindow
      invariant 2 <= w && (w <= maxWindow + 1 || w == 2)
      invariant resultados == Sweep(|rows|, k, w - 1, inertia, score)
    {
      var features := WindowFeatures(rows, w);
      SweepStep(|rows|, k, w, inertia, score);
      if |features| >= k {
        var silhouette := if k >= 2 && k < |features| then score(w) else 0.0;
        var r := WindowResult(w, |features|, inertia(w), silhouette);
        assert [r] == Record(|rows|, k, w, inertia, score);
        resultados := resultados + [r];
      } else {
        assert Record(|rows|, k, w, inertia, score) == [];
      }
      w := w + 1;
    }
  }

  lemma SweepStep(n: nat, k: int, w: int, inertia: int -> real, score: int -> real)
    requires w >= 2
    ensures Sweep(n, k, w, inertia, score) == Sweep(n, k, w - 1, inertia, score) + Record(n, k, w, inertia, score)
  {
  }

  /** Every kept record has at least `k` windows, the window count of its
      size, a size in `2..hi`, and a zero silhouette when `k < 2` or when
      there are exactly `k` windows. */
  lemma {:induction false} SweepRecordsSound(n: nat, k: int, hi: int, inertia: int -> real, score: int -> real)
    ensures forall i :: 0 <= i < |Sweep(n, k, hi, inertia, score)| ==>
              var r := Sweep(n, k, hi, inertia, score)[i];
              && 2 <= r.windowSize <= hi
              && r.nConjuntos == n / r.windowSize && r.nConjuntos >= k
              && r.inercia == inertia(r.windowSize)
              && (k < 2 || k == r.nConjuntos ==> r.silhouette == 0.0)
    decreases hi
  {
    if hi >= 2 {
      SweepRecordsSound(n, k, hi - 1, inertia, score);
    }
  }

  /** Window sizes of the records strictly increase. */
  lemma {:induction false} SweepAscending(n: nat, k: int, hi: int, inertia: int -> real, score: int -> real)
    ensures forall i, j :: 0 <= i < j < |Sweep(n, k, hi, inertia, score)| ==>
              Sweep(n, k, hi, inertia, score)[i].windowSize < Sweep(n, k, hi, inertia, score)[j].windowSize
    decreases hi
  {
    if hi >= 2 {
      SweepAscending(n, k, hi - 1, inertia, score);
      SweepRecordsSound(n, k, hi - 1, inertia, score);
    }
  }

  /** A window size in `2..hi` that gives at least `k` windows is kept. */
  lemma {:induction false} SweepKeeps(n: nat, k: int, hi: int, inertia: int -> real, score: int -> real, w: int)
    requires 2 <= w <= hi && n / w >= k
    ensures exists i :: 0 <= i < |Sweep(n, k, hi, inertia, score)| && Sweep(n, k, hi, inertia, score)[i].windowSize == w
    decreases hi
  {
    var s := Sweep(n, k, hi, inertia, score);
    var s0 := Sweep(n, k, hi - 1, inertia, score);
    var r := Record(n, k, hi, inertia, score);
    SweepStep(n, k, hi, inertia, score);
    if w == hi {
      assert |r| == 1 && r[0].windowSize == hi;
      assert s[|s0|] == r[0];
    } else {
      SweepKeeps(n, k, hi - 1, inertia, score, w);
      var i :| 0 <= i < |s0| && s0[i].windowSize == w;
      assert s[i] == s0[i];
    }
  }

  /** A window size is kept exactly when it lies in `2..hi` and gives at
      least `k` windows. */
  lemma SweepComplete(n: nat, k: int, hi: int, inertia: int -> real, score: int -> real, w: int)
    requires 2 <= w <= hi
    ensures (exists i :: 0 <= i < |Sweep(n, k, hi, inertia, score)| && Sweep(n, k, hi, inertia, score)[i].windowSize == w)
            <==> n / w >= k
  {
    SweepRecordsSound(n, k, hi, inertia, score);
    if n / w >= k {
      SweepKeeps(n, k, hi, inertia, score, w);
    }
  }
}
