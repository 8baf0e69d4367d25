/** The run bookkeeping shared by the batch scripts: a fixed list of
    participant ids is walked in order, each analysis either returns a
    result or raises (the exception is caught, reported and the loop goes
    on), and the successes are kept in a list or a dictionary together with
    success and error counters. The analysis itself is a parameter:
    `analyze(id)` is `None` exactly when it raises. */
module Runs {
  import opened Text

  /** `range(lo, hi)`. */
  function Range(lo: int, hi: int): (r: seq<int>)
    ensures |r| == if lo < hi then hi - lo else 0
    ensures forall k :: 0 <= k < |r| ==> r[k] == lo + k
  {
    seq(if lo < hi then hi - lo else 0, k => lo + k)
  }

  /** The 28 participants of the downsampled recordings, 11 to 38. */
  function DownsampledIds(): (ids: seq<int>)
    ensures |ids| == 28 && ids[0] == 11 && ids[27] == 38
    ensures StrictlyIncreasing(ids)
  {
    Range(11, 39)
  }

  /** The fixed list of 13 participants of the first recordings. */
  function ListedIds(): (ids: seq<int>)
    ensures |ids| == 13 && StrictlyIncreasing(ids)
  {
    [3, 4, 5, 6, 11, 12, 14, 15, 16, 18, 23, 32, 35]
  }

  // ---------------------------------------------------------------------
  // Results kept in a list, in id order
  // ---------------------------------------------------------------------

  /** The (id, result) pairs of the analyses that returned, in list order. */
  function Successes<R>(ids: seq<int>, analyze: int -> Option<R>): (r: seq<(int, R)>)
    ensures |r| <= |ids|
    decreases |ids|
  {
    if |ids| == 0 then []
    else
      var n := |ids| - 1;
      Successes(ids[..n], analyze) + Kept(ids[n], analyze)
  }

  /** One more id extends the list by what that id adds. */
  lemma SuccessesSnoc<R>(ids: seq<int>, i: nat, analyze: int -> Option<R>)
    requires i < |ids|
    ensures Successes(ids[..i + 1], analyze) == Successes(ids[..i], analyze) + Kept(ids[i], analyze)
  {
    assert ids[..i + 1][..i] == ids[..i];
  }

  /** What one id adds to the list. */
  function Kept<R>(id: int, analyze: int -> Option<R>): seq<(int, R)>
  {
    match analyze(id)
    case Some(v) => [(id, v)]
    case None => []
  }

  /** A kept pair is an id of the list with the result its analysis
      returned. */
  lemma {:induction false} SuccessesSound<R>(ids: seq<int>, analyze: int -> Option<R>)
    ensures forall k :: 0 <= k < |Successes(ids, analyze)| ==>
              Successes(ids, analyze)[k].0 in ids &&
              analyze(Successes(ids, analyze)[k].0) == Some(Successes(ids, analyze)[k].1)
    decreases |ids|
  {
    if |ids| > 0 {
      var n := |ids| - 1;
      SuccessesSound(ids[..n], analyze);
      var r0, r := Successes(ids[..n], analyze), Successes(ids, analyze);
      assert r == r0 + Kept(ids[n], analyze);
      forall k | 0 <= k < |r| ensures r[k].0 in ids && analyze(r[k].0) == Some(r[k].1) {
        if k < |r0| {
          assert r[k] == r0[k];
          assert r0[k].0 in ids[..n];
          assert ids[..n] <= ids;
        }
      }
    }
  }

  /** Every id whose analysis returned is kept. */
  lemma {:induction false} SuccessesComplete<R>(ids: seq<int>, analyze: int -> Option<R>, id: int)
    requires id in ids && analyze(id).Some?
    ensures exists k :: 0 <= k < |Successes(ids, analyze)| && Successes(ids, analyze)[k].0 == id
    decreases |ids|
  {
    var n := |ids| - 1;
    var r0, r := Successes(ids[..n], analyze), Successes(ids, analyze);
    assert r == r0 + Kept(ids[n], analyze);
    if id == ids[n] {
      assert r[|r| - 1].0 == id;
    } else {
      assert ids == ids[..n] + [ids[n]];
      SuccessesComplete(ids[..n], analyze, id);
      var k :| 0 <= k < |r0| && r0[k].0 == id;
      assert r[k] == r0[k];
    }
  }

  /** On an ascending id list the kept ids stay ascending. */
  lemma {:induction false} SuccessesOrdered<R>(ids: seq<int>, analyze: int -> Option<R>)
    requires StrictlyIncreasing(ids)
    ensures forall i, j :: 0 <= i < j < |Successes(ids, analyze)| ==>
              Successes(ids, analyze)[i].0 < Successes(ids, analyze)[j].0
    decreases |ids|
  {
    if |ids| > 0 {
      var n := |ids| - 1;
      SuccessesOrdered(ids[..n], analyze);
      SuccessesSound(ids[..n], analyze);
      var r0, r := Successes(ids[..n], analyze), Successes(ids, analyze);
      assert r == r0 + Kept(ids[n], analyze);
      forall k | 0 <= k < |r0| ensures r0[k].0 < ids[n] {
        assert r0[k].0 in ids[..n];
        var p :| 0 <= p < n && ids[..n][p] == r0[k].0;
        assert ids[p] == r0[k].0;
      }
      forall i, j | 0 <= i < j < |r| ensures r[i].0 < r[j].0 {
        assert r[i] == r0[i];
        if j < |r0| { assert r[j] == r0[j]; }
      }
    }
  }

  /** The loop over the ids with `sucessos`/`erros` counters and the result
      list. */
  method CollectResults<R>(ids: seq<int>, analyze: int -> Option<R>)
    returns (results: seq<(int, R)>, sucessos: nat, erros: nat)
    ensures results == Successes(ids, analyze)
    ensures sucessos == |results| && sucessos + erros == |ids|
  {
    results := [];
    sucessos, erros := 0, 0;
    var i := 0;
    while i < |ids|
      invariant 0 <= i <= |ids|
      invariant results == Successes(ids[..i], analyze)
      invariant sucessos == |results| && sucessos + erros == i
    {
      assert ids[..i + 1][..i] == ids[..i];
      match analyze(ids[i]) {
        case Some(v) =>
          results := results + [(ids[i], v)];
          sucessos := sucessos + 1;
        case None =>
          erros := erros + 1;
      }
      i := i + 1;
    }
    assert ids[..i] == ids;
  }

  // ---------------------------------------------------------------------
  // Runs whose step only reports success or failure
  // ---------------------------------------------------------------------

  /** How many of `ids` succeed. */
  function CountPassing(ids: seq<int>, ok: int -> bool): (n: nat)
    ensures n <= |ids|
    decreases |ids|
  {
    if |ids| == 0 then 0
    else CountPassing(ids[..|ids| - 1], ok) + (if ok(ids[|ids| - 1]) then 1 else 0)
  }

  /** Every id succeeds exactly when the count is the whole list, and none
      does exactly when it is zero. */
  lemma {:induction false} CountPassingExtremes(ids: seq<int>, ok: int -> bool)
    ensures CountPassing(ids, ok) == |ids| <==> forall k :: 0 <= k < |ids| ==> ok(ids[k])
    ensures CountPassing(ids, ok) == 0 <==> forall k :: 0 <= k < |ids| ==> !ok(ids[k])
    decreases |ids|
  {
    if |ids| > 0 {
      var n := |ids| - 1;
      CountPassingExtremes(ids[..n], ok);
      assert forall k :: 0 <= k < n ==> ids[..n][k] == ids[k];
    }
  }

  /** The loop with `sucessos`/`erros` counters over a step returning
      `True`/`False`. */
  method CountOutcomes(ids: seq<int>, ok: int -> bool) returns (sucessos: nat, erros: nat)
    ensures sucessos == CountPassing(ids, ok)
    ensures sucessos + erros == |ids|
  {
    sucessos, erros := 0, 0;
    var i := 0;
    while i < |ids|
      invariant 0 <= i <= |ids|
      invariant sucessos == CountPassing(ids[..i], ok) && sucessos + erros == i
    {
      assert ids[..i + 1][..i] == ids[..i];
      if ok(ids[i]) {
        sucessos := sucessos + 1;
      } else {
        erros := erros + 1;
      }
      i := i + 1;
    }
    assert ids[..i] == ids;
  }

  /** How a run ends when a step can raise outside any `try`: with its
      counters, or with the exception of the first id whose step raised. */
  datatype RunEnd = Completed(sucessos: nat, erros: nat) | Raised(id: int)

  /** The position of the first element passing `p`, or `|xs|`: the first
      column a detection test accepts, or the first id whose step raises. */
  function FirstIndex<T>(xs: seq<T>, p: T -> bool): (i: nat)
    ensures i <= |xs|
    ensures forall j :: 0 <= j < i ==> !p(xs[j])
    ensures i < |xs| ==> p(xs[i])
    decreases |xs|
  {
    if |xs| == 0 then 0
    else if p(xs[0]) then 0
    else 1 + FirstIndex(xs[1..], p)
  }

  /** The loop with success/failure counters over a step that returns
      `True`/`False` (`ok`) unless it raises (`raises`): the first raise
      ends the run, and otherwise the counters are those of the whole list. */
  method CountOutcomesOrRaise(ids: seq<int>, ok: int -> bool, raises: int -> bool) returns (end: RunEnd)
    ensures FirstIndex(ids, raises) < |ids| ==> end == Raised(ids[FirstIndex(ids, raises)])
    ensures FirstIndex(ids, raises) == |ids| ==>
              end == Completed(CountPassing(ids, ok), |ids| - CountPassing(ids, ok))
  {
    var sucessos, erros := 0, 0;
    var i := 0;
    while i < |ids|
      invariant 0 <= i <= |ids|
      invariant forall j :: 0 <= j < i ==> !raises(ids[j])
      invariant sucessos == CountPassing(ids[..i], ok) && sucessos + erros == i
    {
      if raises(ids[i]) {
        return Raised(ids[i]);
      }
      assert ids[..i + 1][..i] == ids[..i];
      if ok(ids[i]) {
        sucessos := sucessos + 1;
      } else {
        erros := erros + 1;
      }
      i := i + 1;
    }
    assert ids[..i] == ids;
    end := Completed(sucessos, erros);
  }

  // ---------------------------------------------------------------------
  // Results kept in a dictionary keyed by id
  // ---------------------------------------------------------------------

  /** The loop filling `resultados[pessoa_id]` for every analysis that
      returned. */
  method CollectIntoMap<R>(ids: seq<int>, analyze: int -> Option<R>) returns (m: map<int, R>)
    ensures forall id :: id in m <==> id in ids && analyze(id).Some?
    ensures forall id :: id in m ==> analyze(id) == Some(m[id])
  {
    m := map[];
    var i := 0;
    while i < |ids|
      invariant 0 <= i <= |ids|
      invariant forall id :: id in m <==> id in ids[..i] && analyze(id).Some?
      invariant forall id :: id in m ==> analyze(id) == Some(m[id])
    {
      assert ids[..i + 1] == ids[..i] + [ids[i]];
      var outcome := analyze(ids[i]);
      if outcome.Some? {
        m := m[ids[i] := outcome.value];
      }
      i := i + 1;
    }
    assert ids[..i] == ids;
  }

  /** A dictionary keyed by ids of a list has at most as many entries as the
      list. */
  lemma KeysFromList<R>(ids: seq<int>, m: map<int, R>)
    requires forall id :: id in m ==> id in ids
    ensures |m| <= |ids|
  {
    var all := set id | id in ids;
    forall id | id in m.Keys ensures id in all {
      assert id in ids;
    }
    ElementsCard(ids);
    assert |m.Keys| <= |all| by {
      assert all == m.Keys + (all - m.Keys);
    }
  }

  lemma {:induction false} ElementsCard(ids: seq<int>)
    ensures |set id | id in ids| <= |ids|
    decreases |ids|
  {
    if |ids| > 0 {
      var n := |ids| - 1;
      ElementsCard(ids[..n]);
      assert (set id | id in ids) == (set id | id in ids[..n]) + {ids[n]} by {
        assert ids == ids[..n] + [ids[n]];
      }
    }
  }
}
