/** `map_clusters_to_movement` of the K-means scripts: the distinct cluster
    ids (`np.unique`, ascending) each get the mean of a per-window key over
    their windows; the ids are ranked by ascending mean with a stable sort
    (so equal means keep ascending id order); with exactly three clusters the
    ranks are named from still to intense movement, otherwise rank `r` is
    named `movimento_r`; every window then carries its cluster's name. */
module ClusterNaming {
  import opened Text
  import opened Windowing

  // ---------------------------------------------------------------------
  // np.unique: the distinct ids in ascending order
  // ---------------------------------------------------------------------

  /** Inserting one id into an ascending list of distinct ids. */
  function InsertUnique(s: seq<int>, x: int): seq<int>
    decreases |s|
  {
    if |s| == 0 then [x]
    else if x < s[0] then [x] + s
    else if x == s[0] then s
    else [s[0]] + InsertUnique(s[1..], x)
  }

  lemma {:induction false} InsertUniqueSpec(s: seq<int>, x: int)
    requires StrictlyIncreasing(s)
    ensures StrictlyIncreasing(InsertUnique(s, x))
    ensures forall c :: c in InsertUnique(s, x) <==> c in s || c == x
    decreases |s|
  {
    if |s| > 0 && x > s[0] {
      InsertUniqueSpec(s[1..], x);
      var r := InsertUnique(s, x);
      assert r == [s[0]] + InsertUnique(s[1..], x);
      forall i, j | 0 <= i < j < |r| ensures r[i] < r[j] {
        if i == 0 {
          assert r[j] in InsertUnique(s[1..], x);
        }
      }
      assert forall c :: c in s <==> c == s[0] || c in s[1..] by {
        assert s == [s[0]] + s[1..];
      }
    }
  }

  /** `np.unique(labels)`. */
  function Unique(labels: seq<int>): seq<int>
    decreases |labels|
  {
    if |labels| == 0 then []
    else InsertUnique(Unique(labels[..|labels| - 1]), labels[|labels| - 1])
  }

  /** The distinct ids come out ascending, each once, and they are exactly
      the ids occurring in `labels`. */
  lemma {:induction false} UniqueSpec(labels: seq<int>)
    ensures StrictlyIncreasing(Unique(labels))
    ensures forall c :: c in Unique(labels) <==> c in labels
    decreases |labels|
  {
    if |labels| > 0 {
      var n := |labels| - 1;
      UniqueSpec(labels[..n]);
      InsertUniqueSpec(Unique(labels[..n]), labels[n]);
      assert labels == labels[..n] + [labels[n]];
    }
  }

  // ---------------------------------------------------------------------
  // The per-cluster key
  // ---------------------------------------------------------------------

  /** `keys[labels == c]`: the keys of the windows of cluster `c`, in
      window order. */
  function Masked(keys: seq<real>, labels: seq<int>, c: int): (m: seq<real>)
    requires |keys| == |labels|
    ensures c in labels ==> |m| > 0
    decreases |labels|
  {
    if |labels| == 0 then []
    else
      var n := |labels| - 1;
      assert labels == labels[..n] + [labels[n]];
      Masked(keys[..n], labels[..n], c) + (if labels[n] == c then [keys[n]] else [])
  }

  /** The mean key of cluster `c` (it has at least one window). */
  function MeanKey(keys: seq<real>, labels: seq<int>, c: int): real
    requires |keys| == |labels| && c in labels
  {
    Mean(Masked(keys, labels, c))
  }

  /** The loop filling the per-cluster mean dictionary. */
  method ClusterMeans(labels: seq<int>, keys: seq<real>, unique: seq<int>)
    returns (means: map<int, real>)
    requires |keys| == |labels|
    requires forall c :: c in unique ==> c in labels
    ensures forall c :: c in means <==> c in unique
    ensures forall c :: c in means ==> means[c] == MeanKey(keys, labels, c)
  {
    means := map[];
    var i := 0;
    while i < |unique|
      invariant 0 <= i <= |unique|
      invariant forall c :: c in means <==> c in unique[..i]
      invariant forall c :: c in means ==> c in labels && means[c] == MeanKey(keys, labels, c)
    {
      var c := unique[i];
      means := means[c := MeanKey(keys, labels, c)];
      assert unique[..i + 1] == unique[..i] + [c];
      i := i + 1;
    }
    assert unique[..i] == unique;
  }

  // ---------------------------------------------------------------------
  // Stable sort by key
  // ---------------------------------------------------------------------

  /** Every id of `s` has a key. */
  predicate Keyed(key: map<int, real>, s: seq<int>)
  {
    forall i :: 0 <= i < |s| ==> s[i] in key
  }

  /** `a` is ranked before `b`: smaller key, or equal key and smaller id. */
  predicate Before(key: map<int, real>, a: int, b: int)
    requires a in key && b in key
  {
    key[a] < key[b] || (key[a] == key[b] && a < b)
  }

  predicate KeyOrdered(key: map<int, real>, s: seq<int>)
    requires Keyed(key, s)
  {
    forall i, j :: 0 <= i < j < |s| ==> Before(key, s[i], s[j])
  }

  /** Stable insertion of `x` after every element whose key is not larger. */
  function InsertByKey(key: map<int, real>, s: seq<int>, x: int): (r: seq<int>)
    requires x in key && Keyed(key, s)
    ensures multiset(r) == multiset(s) + multiset{x}
    ensures forall c :: c in r <==> c in s || c == x
    ensures Keyed(key, r)
    decreases |s|
  {
    if |s| == 0 then [x]
    else
      assert s == [s[0]] + s[1..];
      if key[x] < key[s[0]] then [x] + s
      else [s[0]] + InsertByKey(key, s[1..], x)
  }

  /** `sorted(..., key=lambda x: x[1])` on the ids taken in order. */
  function SortByKey(key: map<int, real>, ids: seq<int>): (r: seq<int>)
    requires Keyed(key, ids)
    ensures multiset(r) == multiset(ids)
    ensures forall c :: c in r <==> c in ids
    ensures Keyed(key, r)
    decreases |ids|
  {
    if |ids| == 0 then []
    else
      var n := |ids| - 1;
      assert ids == ids[..n] + [ids[n]];
      InsertByKey(key, SortByKey(key, ids[..n]), ids[n])
  }

  lemma {:induction false} InsertByKeyOrdered(key: map<int, real>, s: seq<int>, x: int)
    requires x in key && Keyed(key, s)
    requires KeyOrdered(key, s)
    requires forall c :: c in s ==> c < x
    ensures KeyOrdered(key, InsertByKey(key, s, x))
    decreases |s|
  {
    var r := InsertByKey(key, s, x);
    if |s| > 0 {
      if key[x] < key[s[0]] {
        forall j | 0 < j < |r| ensures Before(key, x, r[j]) {
          assert r[j] == s[j - 1];
          assert j - 1 == 0 || Before(key, s[0], s[j - 1]);
        }
      } else {
        var t := InsertByKey(key, s[1..], x);
        assert forall c :: c in s[1..] ==> c in s;
        InsertByKeyOrdered(key, s[1..], x);
        assert r == [s[0]] + t;
        assert s[0] in s;
        forall j | 0 < j < |r| ensures Before(key, s[0], r[j]) {
          assert r[j] == t[j - 1];
          assert r[j] in s[1..] || r[j] == x;
          if r[j] in s[1..] {
            var k :| 0 <= k < |s[1..]| && s[1..][k] == r[j];
            assert Before(key, s[0], s[k + 1]);
          }
        }
      }
    }
  }

  /** Ranking ascending distinct ids by key leaves them ordered by key,
      ties broken by ascending id; it neither loses nor adds an id. */
  lemma {:induction false} SortByKeyOrdered(key: map<int, real>, ids: seq<int>)
    requires Keyed(key, ids)
    requires StrictlyIncreasing(ids)
    ensures KeyOrdered(key, SortByKey(key, ids))
    decreases |ids|
  {
    if |ids| > 0 {
      var n := |ids| - 1;
      var s := SortByKey(key, ids[..n]);
      assert forall c :: c in ids[..n] ==> c in ids;
      SortByKeyOrdered(key, ids[..n]);
      forall c | c in s ensures c < ids[n] {
        assert c in multiset(ids[..n]);
        var k :| 0 <= k < n && ids[..n][k] == c;
      }
      InsertByKeyOrdered(key, s, ids[n]);
    }
  }

  // ---------------------------------------------------------------------
  // Names
  // ---------------------------------------------------------------------

  const PARADO: string := "muito baixo movimento (parado)"
  const BAIXO: string := "baixo movimento"
  const ALTO: string := "alto movimento"

  /** The name of rank `rank` among `count` clusters. */
  function MovementName(rank: nat, count: nat): string
    requires rank < count
  {
    if count == 3 then [PARADO, BAIXO, ALTO][rank]
    else "movimento_" + NatToString(rank)
  }

  /** Different ranks get different names. */
  lemma MovementNamesDistinct(r1: nat, r2: nat, count: nat)
    requires r1 < count && r2 < count && r1 != r2
    ensures MovementName(r1, count) != MovementName(r2, count)
  {
    if count != 3 {
      var p := "movimento_";
      var a, b := p + NatToString(r1), p + NatToString(r2);
      assert a[|p|..] == NatToString(r1) && b[|p|..] == NatToString(r2);
      NatToStringInjective(r1, r2);
    }
  }

  /** The position of `c` in a list holding it once. */
  function RankOf(s: seq<int>, c: int): (r: nat)
    requires c in s
    ensures r < |s| && s[r] == c && c !in s[..r]
  {
    if s[0] == c then 0
    else
      assert s == [s[0]] + s[1..];
      var r := 1 + RankOf(s[1..], c);
      assert s[..r] == [s[0]] + s[1..][..r - 1];
      r
  }

  lemma {:induction false} RankOfDistinct(s: seq<int>, r: nat)
    requires NoDuplicates(s) && r < |s|
    ensures RankOf(s, s[r]) == r
    decreases r
  {
    if r > 0 {
      assert s[0] != s[r];
      assert s[1..][r - 1] == s[r];
      RankOfDistinct(s[1..], r - 1);
    }
  }

  /** The `assigned` dictionary comprehension over `enumerate(ordered_ids)`. */
  function Assign(ordered: seq<int>): map<int, string>
  {
    map c | c in ordered :: MovementName(RankOf(ordered, c), |ordered|)
  }

  predicate NoDuplicates(s: seq<int>)
  {
    forall i, j :: 0 <= i < j < |s| ==> s[i] != s[j]
  }

  /** Every ranked id gets the name of its rank, and no two ids share a
      name. */
  lemma AssignSpec(ordered: seq<int>)
    requires NoDuplicates(ordered)
    ensures forall c :: c in Assign(ordered) <==> c in ordered
    ensures forall r :: 0 <= r < |ordered| ==>
              ordered[r] in Assign(ordered) && Assign(ordered)[ordered[r]] == MovementName(r, |ordered|)
    ensures forall c1, c2 :: c1 in Assign(ordered) && c2 in Assign(ordered) && c1 != c2 ==>
              Assign(ordered)[c1] != Assign(ordered)[c2]
  {
    var m := Assign(ordered);
    forall r | 0 <= r < |ordered| ensures m[ordered[r]] == MovementName(r, |ordered|) {
      RankOfDistinct(ordered, r);
    }
    forall c1, c2 | c1 in m && c2 in m && c1 != c2 ensures m[c1] != m[c2] {
      MovementNamesDistinct(RankOf(ordered, c1), RankOf(ordered, c2), |ordered|);
    }
  }

  /** What `map_clusters_to_movement` promises for per-window keys `keys`:
      `ordered` holds each cluster id of `labels` once, ranked by ascending
      mean key with equal means in ascending id order; `named` maps exactly
      those ids, gives rank `r` the name of rank `r`, and gives different ids
      different names; window `j` carries the name of its cluster. */
  ghost predicate NamingSound(keys: seq<real>, labels: seq<int>, ordered: seq<int>,
                        named: map<int, string>, labelsMovement: seq<string>)
    requires |keys| == |labels|
  {
    && (forall c :: c in ordered <==> c in labels)
    && NoDuplicates(ordered)
    && RankedByMeanKey(keys, labels, ordered)
    && (forall c :: c in named <==> c in labels)
    && (forall r :: 0 <= r < |ordered| ==>
          ordered[r] in named && named[ordered[r]] == MovementName(r, |ordered|))
    && (forall c1, c2 :: c1 in named && c2 in named && c1 != c2 ==> named[c1] != named[c2])
    && |labelsMovement| == |labels|
    && (forall j :: 0 <= j < |labels| ==> labels[j] in named && labelsMovement[j] == named[labels[j]])
  }

  /** `map_clusters_to_movement`, with the per-window key given: the
      ranked ids, the name of each id, and the name of each window. */
  method MapClustersToMovement(labels: seq<int>, keys: seq<real>)
    returns (ordered: seq<int>, named: map<int, string>, labelsMovement: seq<string>)
    requires |keys| == |labels|
    ensures NamingSound(keys, labels, ordered, named, labelsMovement)
  {
    var unique := Unique(labels);
    UniqueSpec(labels);
    var means := ClusterMeans(labels, keys, unique);
    ordered := SortByKey(means, unique);
    SortByKeyOrdered(means, unique);
    OrderedFacts(unique, ordered);
    MeansRanked(keys, labels, means, ordered);
    named := Assign(ordered);
    AssignSpec(ordered);
    labelsMovement := seq(|labels|, j requires 0 <= j < |labels| => named[labels[j]]);
  }

  /** Ids in ascending order of their cluster's mean key, equal means in
      ascending id order. */
  predicate RankedByMeanKey(keys: seq<real>, labels: seq<int>, ordered: seq<int>)
    requires |keys| == |labels| && forall c :: c in ordered ==> c in labels
  {
    forall i, j :: 0 <= i < j < |ordered| ==>
      var a, b := MeanKey(keys, labels, ordered[i]), MeanKey(keys, labels, ordered[j]);
      a < b || (a == b && ordered[i] < ordered[j])
  }

  lemma MeansRanked(keys: seq<real>, labels: seq<int>, means: map<int, real>, ordered: seq<int>)
    requires |keys| == |labels|
    requires forall c :: c in ordered ==> c in labels
    requires Keyed(means, ordered)
    requires forall c :: c in means ==> c in labels && means[c] == MeanKey(keys, labels, c)
    requires KeyOrdered(means, ordered)
    ensures RankedByMeanKey(keys, labels, ordered)
  {
    forall i, j | 0 <= i < j < |ordered|
      ensures var a, b := MeanKey(keys, labels, ordered[i]), MeanKey(keys, labels, ordered[j]);
              a < b || (a == b && ordered[i] < ordered[j])
    {
      assert Before(means, ordered[i], ordered[j]);
    }
  }

  /** A permutation of distinct ids holds the same ids, each once. */
  lemma OrderedFacts(unique: seq<int>, ordered: seq<int>)
    requires StrictlyIncreasing(unique) && multiset(ordered) == multiset(unique)
    ensures NoDuplicates(ordered)
    ensures forall c :: c in ordered <==> c in unique
  {
    forall c ensures c in ordered <==> c in unique {
      assert c in ordered <==> c in multiset(ordered);
    }
    forall i, j | 0 <= i < j < |ordered| ensures ordered[i] != ordered[j] {
      var c := ordered[j];
      assert ordered == ordered[..j] + [c] + ordered[j + 1..];
      assert multiset(ordered)[c] == multiset(ordered[..j])[c] + 1 + multiset(ordered[j + 1..])[c];
      assert ordered[i] in multiset(ordered[..j]);
      UniqueCountOne(unique, c);
    }
  }

  lemma {:induction false} UniqueCountOne(s: seq<int>, c: int)
    requires StrictlyIncreasing(s)
    ensures multiset(s)[c] <= 1
    decreases |s|
  {
    if |s| > 0 {
      assert s == [s[0]] + s[1..];
      UniqueCountOne(s[1..], c);
      assert c == s[0] ==> c !in s[1..];
    }
  }
}
