/** The first K-means script over raw readings: windows of two rows whose
    six values per row are concatenated, the mean timestamp of each window,
    clusters named by the mean accelerometer magnitude of their windows, and
    the analysis of the 13 listed participants into a dictionary. */
module KmeansOriginal {
  import opened Text
  import opened Windowing
  import opened ClusterNaming
  import opened Runs

  /** The timestamps of a window's rows, as reals. */
  function TimestampsOf(win: seq<Row>): (ts: seq<real>)
    ensures |ts| == |win|
  {
    seq(|win|, j requires 0 <= j < |win| => win[j].timestamp as real)
  }

  /** `criar_features_janela`: one concatenated vector and one mean
      timestamp per whole window, in window order. */
  method CriarFeaturesJanela(rows: seq<Row>, w: nat)
    returns (features: seq<seq<real>>, timestamps: seq<real>)
    requires w >= 1
    ensures |features| == |timestamps| == |rows| / w
    ensures forall k :: 0 <= k < |features| ==>
              && k * w + w <= |rows|
              && features[k] == Flatten(rows[k * w .. k * w + w])
              && timestamps[k] == Mean(TimestampsOf(rows[k * w .. k * w + w]))
  {
    features := [];
    timestamps := [];
    var i := 0;
    while i < |rows| - w + 1
      invariant i == |features| * w && i <= |rows|
      invariant |timestamps| == |features|
      invariant forall k :: 0 <= k < |features| ==>
                  && k * w + w <= |rows|
                  && features[k] == Flatten(rows[k * w .. k * w + w])
                  && timestamps[k] == Mean(TimestampsOf(rows[k * w .. k * w + w]))
    {
      var window := rows[i .. i + w];
      var v := ConcatRows(window);
      NextMultiple(|features|, w);
      features := features + [v];
      timestamps := timestamps + [Mean(TimestampsOf(window))];
      i := i + w;
    }
    DivFromBounds(|rows|, w, |features|);
  }

  /** On a table in time order, a window's mean timestamp lies between the
      timestamps of its first and its last row. */
  lemma MeanTimestampWithinWindow(rows: seq<Row>, w: nat, k: nat)
    requires w >= 1 && k * w + w <= |rows|
    requires forall a, b :: 0 <= a <= b < |rows| ==> rows[a].timestamp <= rows[b].timestamp
    ensures rows[k * w].timestamp as real <= Mean(TimestampsOf(rows[k * w .. k * w + w]))
            <= rows[k * w + w - 1].timestamp as real
  {
    var win := rows[k * w .. k * w + w];
    var ts := TimestampsOf(win);
    forall j | 0 <= j < |ts|
      ensures rows[k * w].timestamp as real <= ts[j] <= rows[k * w + w - 1].timestamp as real
    {
      assert win[j] == rows[k * w + j];
    }
    MeanBounds(ts, rows[k * w].timestamp as real, rows[k * w + w - 1].timestamp as real);
  }

  // ---------------------------------------------------------------------
  // Mean accelerometer magnitude per window
  // ---------------------------------------------------------------------

  /** The accelerometer magnitude of each of the `w` points of a vector in
      the concatenated layout: slots `6 * j`, `6 * j + 1`, `6 * j + 2`. The
      square root is given as `norm`. */
  function AccelNorms(row: seq<real>, w: nat, norm: (real, real, real) -> real): (ms: seq<real>)
    requires |row| >= 6 * w
    ensures |ms| == w
  {
    seq(w, j requires 0 <= j < w => norm(row[6 * j], row[6 * j + 1], row[6 * j + 2]))
  }

  /** Whether every vector holds the `6 * w` slots read. */
  predicate LongEnough(features: seq<seq<real>>, w: nat)
  {
    forall k :: 0 <= k < |features| ==> |features[k]| >= 6 * w
  }

  /** One mean accelerometer magnitude per vector. */
  function WindowMagnitudes(features: seq<seq<real>>, w: nat, norm: (real, real, real) -> real)
    : (mags: seq<real>)
    requires w >= 1 && LongEnough(features, w)
    ensures |mags| == |features|
  {
    seq(|features|, k requires 0 <= k < |features| => Mean(AccelNorms(features[k], w, norm)))
  }

  /** `_mean_accel_magnitude_per_window`: the nested loops over vectors and
      over the `w` accelerometer triples of each. */
  method MeanAccelMagnitudePerWindow(features: seq<seq<real>>, w: nat, norm: (real, real, real) -> real)
    returns (mags: seq<real>)
    requires w >= 1 && LongEnough(features, w)
    ensures |mags| == |features|
    ensures forall k :: 0 <= k < |features| ==> mags[k] == Mean(AccelNorms(features[k], w, norm))
  {
    mags := [];
    var r := 0;
    while r < |features|
      invariant 0 <= r <= |features| && |mags| == r
      invariant forall k :: 0 <= k < r ==> mags[k] == Mean(AccelNorms(features[k], w, norm))
    {
      var row := features[r];
      var accelVals := [];
      var i := 0;
      while i < w * 6
        invariant i % 6 == 0 && i <= w * 6 && |accelVals| == i / 6
        invariant accelVals == AccelNorms(row, w, norm)[..i / 6]
      {
        var j := i / 6;
        assert i == 6 * j;
        accelVals := accelVals + [norm(row[i], row[i + 1], row[i + 2])];
        i := i + 6;
      }
      assert accelVals == AccelNorms(row, w, norm);
      mags := mags + [Mean(accelVals)];
      r := r + 1;
    }
  }

  /** On a concatenated window, the magnitudes read are exactly those of the
      rows' accelerometer axes: the gyroscope slots are never read. */
  lemma AccelNormsOfWindow(win: seq<Row>, norm: (real, real, real) -> real, j: nat)
    requires j < |win|
    ensures AccelNorms(Flatten(win), |win|, norm)[j] == norm(win[j].x, win[j].y, win[j].z)
  {
    FlattenSlot(win, j, 0);
    FlattenSlot(win, j, 1);
    FlattenSlot(win, j, 2);
  }

  /** Two vectors that agree on the accelerometer slots get the same mean
      magnitude, whatever their other slots hold. */
  lemma MagnitudeReadsAccelOnly(a: seq<real>, b: seq<real>, w: nat, norm: (real, real, real) -> real)
    requires w >= 1 && |a| >= 6 * w && |b| >= 6 * w
    requires forall i :: 0 <= i < 6 * w && i % 6 < 3 ==> a[i] == b[i]
    ensures Mean(AccelNorms(a, w, norm)) == Mean(AccelNorms(b, w, norm))
  {
    forall j | 0 <= j < w ensures AccelNorms(a, w, norm)[j] == AccelNorms(b, w, norm)[j] {
      assert (6 * j) % 6 == 0 && (6 * j + 1) % 6 == 1 && (6 * j + 2) % 6 == 2;
      assert a[6 * j] == b[6 * j] && a[6 * j + 1] == b[6 * j + 1] && a[6 * j + 2] == b[6 * j + 2];
    }
    assert AccelNorms(a, w, norm) == AccelNorms(b, w, norm);
  }

  /** `map_clusters_to_movement(labels, features, window_size)`: clusters
      ranked by the mean of their windows' accelerometer magnitudes. */
  method MapClustersToMovement(labels: seq<int>, features: seq<seq<real>>, w: nat,
                               norm: (real, real, real) -> real)
    returns (ordered: seq<int>, named: map<int, string>, labelsMovement: seq<string>)
    requires |features| == |labels|
    requires w >= 1 && LongEnough(features, w)
    ensures NamingSound(WindowMagnitudes(features, w, norm), labels, ordered, named, labelsMovement)
  {
    var mags := MeanAccelMagnitudePerWindow(features, w, norm);
    assert mags == WindowMagnitudes(features, w, norm);
    ordered, named, labelsMovement := ClusterNaming.MapClustersToMovement(labels, mags);
  }

  /** `analisar_todas_pessoas`: the 13 listed participants are analysed in
      turn (the analysis is given, `None` when it raises) and the results
      of those that returned are stored under their id. */
  method AnalisarTodasPessoas<R>(analyze: int -> Option<R>) returns (resultados: map<int, R>)
    ensures forall id :: id in resultados <==> id in ListedIds() && analyze(id).Some?
    ensures forall id :: id in resultados ==> analyze(id) == Some(resultados[id])
    ensures |resultados| <= 13
  {
    resultados := CollectIntoMap(ListedIds(), analyze);
    KeysFromList(ListedIds(), resultados);
  }
}
