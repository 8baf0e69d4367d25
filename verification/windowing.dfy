/** The non-overlapping window partition shared by the K-means scripts:
    `for i in range(0, len(df) - window_size + 1, window_size)` visits the
    rows in consecutive blocks `df.iloc[i:i+window_size]`, and each block
    becomes one feature vector. Two layouts exist: the six sensor values of
    every row concatenated in row order, and four summary slots (spread and
    mean of the accelerometer and gyroscope magnitudes). */
module Windowing {

  /** One row of the synchronised table: timestamp, accelerometer axes,
      gyroscope axes. */
  datatype Row = Row(timestamp: int, x: real, y: real, z: real, gx: real, gy: real, gz: real)

  // ---------------------------------------------------------------------
  // Window arithmetic
  // ---------------------------------------------------------------------

  /** When a count `c` of whole windows fits and one more does not, it is
      the number of windows `n / w`. */
  lemma DivFromBounds(n: nat, w: nat, c: nat)
    requires w > 0 && c * w <= n < c * w + w
    ensures n / w == c
  {
    var q := n / w;
    NextMultiple(q, w);
    NextMultiple(c, w);
    LessFromProducts(q, c + 1, w);
    LessFromProducts(c, q + 1, w);
  }

  /** Every one of the `n / w` windows lies inside the table. */
  lemma WindowFits(n: nat, w: nat, k: nat)
    requires w > 0 && k < n / w
    ensures k * w + w <= (n / w) * w <= n
  {
    assert (k + 1) * w <= (n / w) * w;
  }

  /** Row `r` lies in window `k` exactly when it is among the first
      `(n / w) * w` rows and `k == r / w`: windows are disjoint, cover those
      rows, and the last `n % w` rows belong to none. */
  lemma {:induction false} WindowMembership(n: nat, w: nat, r: nat, k: nat)
    requires w > 0
    ensures (k < n / w && k * w <= r < k * w + w) <==> (r < (n / w) * w && k == r / w)
  {
    if k < n / w && k * w <= r < k * w + w {
      DivFromBounds(r, w, k);
      WindowFits(n, w, k);
    }
    if r < (n / w) * w && k == r / w {
      assert k * w <= r < k * w + w;
      LessFromProducts(k, n / w, w);
    }
  }

  lemma LessFromProducts(a: nat, b: nat, w: nat)
    requires w > 0 && a * w < b * w
    ensures a < b
  {
  }

  lemma NextMultiple(c: nat, w: nat)
    ensures (c + 1) * w == c * w + w
  {
  }

  /** The dropped tail is exactly `n % w` rows long. */
  lemma DroppedTail(n: nat, w: nat)
    requires w > 0
    ensures n - (n / w) * w == n % w < w
  {
  }

  // ---------------------------------------------------------------------
  // Arithmetic mean over reals (numpy's mean on a non-empty array)
  // ---------------------------------------------------------------------

  function Sum(s: seq<real>): real
    decreases |s|
  {
    if |s| == 0 then 0.0 else Sum(s[..|s| - 1]) + s[|s| - 1]
  }

  function Mean(s: seq<real>): real
    requires |s| > 0
  {
    Sum(s) / (|s| as real)
  }

  lemma {:induction false} SumBounds(s: seq<real>, lo: real, hi: real)
    requires forall i :: 0 <= i < |s| ==> lo <= s[i] <= hi
    ensures (|s| as real) * lo <= Sum(s) <= (|s| as real) * hi
    decreases |s|
  {
    if |s| > 0 {
      var n := |s| - 1;
      assert forall i :: 0 <= i < n ==> s[..n][i] == s[i];
      SumBounds(s[..n], lo, hi);
      assert (|s| as real) * lo == (n as real) * lo + lo;
      assert (|s| as real) * hi == (n as real) * hi + hi;
    }
  }

  /** A mean lies between any lower and upper bound of its values. */
  lemma MeanBounds(s: seq<real>, lo: real, hi: real)
    requires |s| > 0
    requires forall i :: 0 <= i < |s| ==> lo <= s[i] <= hi
    ensures lo <= Mean(s) <= hi
  {
    SumBounds(s, lo, hi);
    var n := |s| as real;
    assert Mean(s) * n == Sum(s);
  }

  // ---------------------------------------------------------------------
  // Layout 1: six values per row, concatenated in row order
  // ---------------------------------------------------------------------

  /** `[x, y, z]` then `[gx, gy, gz]`, as one row extends the vector. */
  function RowValues(r: Row): seq<real>
  {
    [r.x, r.y, r.z, r.gx, r.gy, r.gz]
  }

  /** The values of a window's rows, concatenated in row order. */
  function Flatten(win: seq<Row>): (v: seq<real>)
    ensures |v| == 6 * |win|
    decreases |win|
  {
    if |win| == 0 then [] else Flatten(win[..|win| - 1]) + RowValues(win[|win| - 1])
  }

  /** Slot `6 * j + c` of a flattened window is value `c` of row `j`. */
  lemma {:induction false} FlattenSlot(win: seq<Row>, j: nat, c: nat)
    requires j < |win| && c < 6
    ensures Flatten(win)[6 * j + c] == RowValues(win[j])[c]
    decreases |win|
  {
    var n := |win| - 1;
    if j < n {
      FlattenSlot(win[..n], j, c);
      assert Flatten(win)[6 * j + c] == Flatten(win[..n])[6 * j + c];
    }
  }

  /** The inner `for _, row in window.iterrows()` loop extending the
      feature vector. */
  method ConcatRows(win: seq<Row>) returns (v: seq<real>)
    ensures v == Flatten(win)
  {
    v := [];
    var j := 0;
    while j < |win|
      invariant 0 <= j <= |win|
      invariant v == Flatten(win[..j])
    {
      assert win[..j + 1][..j] == win[..j];
      v := v + [win[j].x, win[j].y, win[j].z];
      v := v + [win[j].gx, win[j].gy, win[j].gz];
      j := j + 1;
    }
    assert win[..j] == win;
  }

  /** The concatenated vectors of all whole windows, in window order. */
  function ConcatWindows(rows: seq<Row>, w: nat): (fs: seq<seq<real>>)
    requires w >= 1
    ensures |fs| == |rows| / w
  {
    seq(|rows| / w, k requires 0 <= k < |rows| / w => WindowFits(|rows|, w, k); Flatten(rows[k * w .. k * w + w]))
  }

  /** `features` are the concatenated vectors of the first `|features|`
      windows. */
  predicate FlattenedPrefix(rows: seq<Row>, w: nat, features: seq<seq<real>>)
  {
    forall k :: 0 <= k < |features| ==>
      k * w + w <= |rows| && features[k] == Flatten(rows[k * w .. k * w + w])
  }

  /** The vector of the next window extends the prefix. */
  lemma FlattenedPrefixSnoc(rows: seq<Row>, w: nat, features: seq<seq<real>>)
    requires FlattenedPrefix(rows, w, features) && |features| * w + w <= |rows|
    ensures var i := |features| * w;
            FlattenedPrefix(rows, w, features + [Flatten(rows[i .. i + w])])
  {
  }

  /** `criar_features_janela` without timestamps: one concatenated vector
      per whole window, in window order. */
  method WindowFeatures(rows: seq<Row>, w: nat) returns (features: seq<seq<real>>)
    requires w >= 1
    ensures |features| == |rows| / w
    ensures forall k :: 0 <= k < |features| ==>
              k * w + w <= |rows| && features[k] == Flatten(rows[k * w .. k * w + w])
    ensures features == ConcatWindows(rows, w)
  {
    features := [];
    var i := 0;
    while i < |rows| - w + 1
      invariant i == |features| * w && i <= |rows|
      invariant FlattenedPrefix(rows, w, features)
    {
      var v := ConcatRows(rows[i .. i + w]);
      FlattenedPrefixSnoc(rows, w, features);
      NextMultiple(|features|, w);
      features := features + [v];
      i := i + w;
    }
    DivFromBounds(|rows|, w, |features|);
    AllWindowsFlattened(rows, w, features);
  }

  /** A prefix that has a vector for every whole window is all of them. */
  lemma AllWindowsFlattened(rows: seq<Row>, w: nat, features: seq<seq<real>>)
    requires w >= 1 && |features| == |rows| / w && FlattenedPrefix(rows, w, features)
    ensures features == ConcatWindows(rows, w)
  {
  }

  /** Each concatenated vector holds `6 * w` values, and its slot
      `6 * j + c` is value `c` of row `k * w + j` of the table. */
  lemma FeatureSlot(rows: seq<Row>, w: nat, k: nat, j: nat, c: nat)
    requires w >= 1 && k * w + w <= |rows| && j < w && c < 6
    ensures |Flatten(rows[k * w .. k * w + w])| == 6 * w
    ensures Flatten(rows[k * w .. k * w + w])[6 * j + c] == RowValues(rows[k * w + j])[c]
  {
    FlattenSlot(rows[k * w .. k * w + w], j, c);
  }

  // ---------------------------------------------------------------------
  // Layout 2: four summary slots per window
  // ---------------------------------------------------------------------

  /** A per-row magnitude (the square root of the sum of squares, given). */
  function Magnitudes(win: seq<Row>, mag: Row -> real): (m: seq<real>)
    ensures |m| == |win|
  {
    seq(|win|, j requires 0 <= j < |win| => mag(win[j]))
  }

  /** Spread and mean of the accelerometer magnitudes, then of the
      gyroscope magnitudes. The standard deviation is a library call and is
      given as `std`. */
  function SummarySlots(win: seq<Row>, accelMag: Row -> real, gyroMag: Row -> real,
                        std: seq<real> -> real): (f: seq<real>)
    requires |win| > 0
    ensures |f| == 4
  {
    var a := Magnitudes(win, accelMag);
    var g := Magnitudes(win, gyroMag);
    [std(a), Mean(a), std(g), Mean(g)]
  }

  /** `features` and `timestamps` are the summaries and middle timestamps
      of the first `|features|` windows. */
  predicate SummarisedPrefix(rows: seq<Row>, w: nat, accelMag: Row -> real, gyroMag: Row -> real,
                             std: seq<real> -> real, features: seq<seq<real>>, timestamps: seq<int>)
  {
    && |timestamps| == |features|
    && forall k :: 0 <= k < |features| ==>
         && k * w + w <= |rows| && w >= 1
         && features[k] == SummarySlots(rows[k * w .. k * w + w], accelMag, gyroMag, std)
         && timestamps[k] == rows[k * w + w / 2].timestamp
  }

  /** The summary and timestamp of the next window extend the prefix. */
  lemma SummarisedPrefixSnoc(rows: seq<Row>, w: nat, accelMag: Row -> real, gyroMag: Row -> real,
                             std: seq<real> -> real, features: seq<seq<real>>, timestamps: seq<int>)
    requires w >= 1 && |features| * w + w <= |rows|
    requires SummarisedPrefix(rows, w, accelMag, gyroMag, std, features, timestamps)
    ensures var i := |features| * w;
            SummarisedPrefix(rows, w, accelMag, gyroMag, std,
                             features + [SummarySlots(rows[i .. i + w], accelMag, gyroMag, std)],
                             timestamps + [rows[i + w / 2].timestamp])
  {
  }

  /** `calcular_features_janela`: one four-slot vector and one timestamp
      per whole window; the timestamp is the row at offset `w // 2` inside
      the window. */
  method SummaryFeatures(rows: seq<Row>, w: nat, accelMag: Row -> real, gyroMag: Row -> real,
                         std: seq<real> -> real)
    returns (features: seq<seq<real>>, timestamps: seq<int>)
    requires w >= 1
    ensures |features| == |timestamps| == |rows| / w
    ensures forall k :: 0 <= k < |features| ==>
              && k * w + w <= |rows|
              && features[k] == SummarySlots(rows[k * w .. k * w + w], accelMag, gyroMag, std)
              && timestamps[k] == rows[k * w + w / 2].timestamp
  {
    features := [];
    timestamps := [];
    var i := 0;
    while i < |rows| - w + 1
      invariant i == |features| * w && i <= |rows|
      invariant SummarisedPrefix(rows, w, accelMag, gyroMag, std, features, timestamps)
    {
      var window := rows[i .. i + w];
      var accel := Magnitudes(window, accelMag);
      var gyro := Magnitudes(window, gyroMag);
      var v := [std(accel), Mean(accel), std(gyro), Mean(gyro)];
      assert v == SummarySlots(window, accelMag, gyroMag, std);
      assert window[w / 2] == rows[i + w / 2];
      SummarisedPrefixSnoc(rows, w, accelMag, gyroMag, std, features, timestamps);
      NextMultiple(|features|, w);
      features := features + [v];
      timestamps := timestamps + [window[w / 2].timestamp];
      i := i + w;
    }
    DivFromBounds(|rows|, w, |features|);
  }

  /** The chosen timestamp belongs to its own window. */
  lemma MiddleRowInWindow(w: nat, k: nat)
    requires w >= 1
    ensures k * w <= k * w + w / 2 < k * w + w
  {
  }
}
