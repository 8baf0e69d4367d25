/** `separar_dados` of the interactive separation script: both sensor
    tables get an auxiliary state column, every sample whose timestamp
    falls inside a sleep period (both ends included) is marked asleep, and
    each table is then split, in its original order, into the asleep rows
    and the awake rows, without the auxiliary column. */
module SleepSplit {
  import opened SleepPeriods

  datatype Estado = Dormindo | Acordado

  /** One row of a sensor table: timestamp (seconds) and the three axes. */
  datatype Sample = Sample(timestamp: int, x: real, y: real, z: real)

  /** The closed-interval test of the mask `inicio <= t <= fim`. */
  predicate Covers(p: Period, t: int)
  {
    p.start <= t <= p.end
  }

  /** The meaning of the marking: `t` lies in at least one period. */
  predicate AsleepAt(ps: seq<Period>, t: int)
  {
    exists j :: 0 <= j < |ps| && Covers(ps[j], t)
  }

  /** One masked assignment `df.loc[mask, 'estado'] = 'DORMINDO'`. */
  function MarkPeriod(rows: seq<Sample>, labels: seq<Estado>, p: Period): (r: seq<Estado>)
    requires |labels| == |rows|
    ensures |r| == |rows|
  {
    seq(|rows|, k requires 0 <= k < |rows| =>
      if Covers(p, rows[k].timestamp) then Dormindo else labels[k])
  }

  /** The state column after marking the periods one after the other,
      starting from all awake. */
  function Marked(rows: seq<Sample>, ps: seq<Period>): (r: seq<Estado>)
    ensures |r| == |rows|
    decreases |ps|
  {
    if |ps| == 0 then seq(|rows|, _ => Acordado)
    else MarkPeriod(rows, Marked(rows, ps[..|ps| - 1]), ps[|ps| - 1])
  }

  /** A row ends up asleep exactly when its timestamp lies in some period,
      whatever the order of the periods. */
  lemma {:induction false} MarkedMeaning(rows: seq<Sample>, ps: seq<Period>)
    ensures forall k :: 0 <= k < |rows| ==>
              (Marked(rows, ps)[k] == Dormindo <==> AsleepAt(ps, rows[k].timestamp))
    decreases |ps|
  {
    if |ps| > 0 {
      var init := ps[..|ps| - 1];
      MarkedMeaning(rows, init);
      forall k | 0 <= k < |rows|
        ensures Marked(rows, ps)[k] == Dormindo <==> AsleepAt(ps, rows[k].timestamp)
      {
        var t := rows[k].timestamp;
        if AsleepAt(init, t) {
          var j :| 0 <= j < |init| && Covers(init[j], t);
          assert ps[j] == init[j];
        }
        if AsleepAt(ps, t) && !Covers(ps[|ps| - 1], t) {
          var j :| 0 <= j < |ps| && Covers(ps[j], t);
          assert j < |ps| - 1 && init[j] == ps[j];
        }
      }
    }
  }

  /** The rows whose state is `st`, in table order (`df[df['estado'] == st]`
      with the state column dropped). */
  function Select(rows: seq<Sample>, labels: seq<Estado>, st: Estado): (r: seq<Sample>)
    requires |labels| == |rows|
    ensures |r| <= |rows|
    decreases |rows|
  {
    if |rows| == 0 then []
    else
      var n := |rows| - 1;
      Select(rows[..n], labels[..n], st) + (if labels[n] == st then [rows[n]] else [])
  }

  /** The row positions whose state is `st`, ascending. */
  function Positions(labels: seq<Estado>, st: Estado): (r: seq<nat>)
    ensures forall i :: 0 <= i < |r| ==> r[i] < |labels|
    decreases |labels|
  {
    if |labels| == 0 then []
    else
      var n := |labels| - 1;
      Positions(labels[..n], st) + (if labels[n] == st then [n] else [])
  }

  /** The positions labelled `st` are ascending and are exactly those
      labelled `st`. */
  lemma {:induction false} PositionsExact(labels: seq<Estado>, st: Estado)
    ensures var ps := Positions(labels, st);
            && (forall i, j :: 0 <= i < j < |ps| ==> ps[i] < ps[j])
            && (forall k :: 0 <= k < |labels| ==> (k in ps <==> labels[k] == st))
    decreases |labels|
  {
    if |labels| > 0 {
      var n := |labels| - 1;
      var init := labels[..n];
      PositionsExact(init, st);
      var ps0 := Positions(init, st);
      var ps := Positions(labels, st);
      assert ps == ps0 + (if labels[n] == st then [n] else []);
      forall k | 0 <= k < n ensures (k in ps <==> labels[k] == st) {
        assert init[k] == labels[k];
        assert k in ps <==> k in ps0;
      }
    }
  }

  /** The selection keeps the rows at exactly the positions labelled `st`,
      in increasing position order. */
  lemma {:induction false} SelectAtPositions(rows: seq<Sample>, labels: seq<Estado>, st: Estado)
    requires |labels| == |rows|
    ensures var ps := Positions(labels, st);
            && |Select(rows, labels, st)| == |ps|
            && (forall i :: 0 <= i < |ps| ==> Select(rows, labels, st)[i] == rows[ps[i]])
    decreases |rows|
  {
    if |rows| > 0 {
      var n := |rows| - 1;
      SelectAtPositions(rows[..n], labels[..n], st);
      var s0, ps0 := Select(rows[..n], labels[..n], st), Positions(labels[..n], st);
      var s, ps := Select(rows, labels, st), Positions(labels, st);
      if labels[n] == st {
        assert s == s0 + [rows[n]] && ps == ps0 + [n];
        forall i | 0 <= i < |ps| ensures s[i] == rows[ps[i]] {
          if i < |ps0| {
            assert s[i] == s0[i] == rows[..n][ps0[i]];
          }
        }
      } else {
        assert s == s0 && ps == ps0;
        forall i | 0 <= i < |ps| ensures s[i] == rows[ps[i]] {
          assert s0[i] == rows[..n][ps0[i]];
        }
      }
    }
  }

  /** The two selections split the table: together they hold every row
      exactly once. */
  lemma SplitPartition(rows: seq<Sample>, labels: seq<Estado>)
    requires |labels| == |rows|
    ensures |Select(rows, labels, Dormindo)| + |Select(rows, labels, Acordado)| == |rows|
    ensures multiset(Select(rows, labels, Dormindo)) + multiset(Select(rows, labels, Acordado))
            == multiset(rows)
  {
    SplitSizes(rows, labels);
    SplitMultisets(rows, labels);
  }

  lemma {:induction false} SplitSizes(rows: seq<Sample>, labels: seq<Estado>)
    requires |labels| == |rows|
    ensures |Select(rows, labels, Dormindo)| + |Select(rows, labels, Acordado)| == |rows|
    decreases |rows|
  {
    if |rows| > 0 {
      var n := |rows| - 1;
      SplitSizes(rows[..n], labels[..n]);
    }
  }

  lemma {:induction false} SplitMultisets(rows: seq<Sample>, labels: seq<Estado>)
    requires |labels| == |rows|
    ensures multiset(Select(rows, labels, Dormindo)) + multiset(Select(rows, labels, Acordado))
            == multiset(rows)
    decreases |rows|
  {
    if |rows| > 0 {
      var n := |rows| - 1;
      SplitMultisets(rows[..n], labels[..n]);
      SplitMultisetsStep(rows, labels);
    }
  }

  lemma SplitMultisetsStep(rows: seq<Sample>, labels: seq<Estado>)
    requires |labels| == |rows| > 0
    requires var n := |rows| - 1;
             multiset(Select(rows[..n], labels[..n], Dormindo)) + multiset(Select(rows[..n], labels[..n], Acordado))
             == multiset(rows[..n])
    ensures multiset(Select(rows, labels, Dormindo)) + multiset(Select(rows, labels, Acordado))
            == multiset(rows)
  {
    var n := |rows| - 1;
    SelectLastBoth(rows, labels);
    MultisetStep(Select(rows, labels, Dormindo), Select(rows, labels, Acordado),
                 Select(rows[..n], labels[..n], Dormindo), Select(rows[..n], labels[..n], Acordado),
                 rows, rows[..n], rows[n], labels[n] == Dormindo);
  }

  /** The last row goes to the selection of its state and not to the other. */
  lemma SelectLastBoth(rows: seq<Sample>, labels: seq<Estado>)
    requires |labels| == |rows| > 0
    ensures var n := |rows| - 1;
            && Select(rows, labels, Dormindo)
               == Select(rows[..n], labels[..n], Dormindo) + (if labels[n] == Dormindo then [rows[n]] else [])
            && Select(rows, labels, Acordado)
               == Select(rows[..n], labels[..n], Acordado) + (if labels[n] == Dormindo then [] else [rows[n]])
  {
  }

  /** One row added to the table goes to exactly one of the two selections. */
  lemma MultisetStep<T>(d: seq<T>, a: seq<T>, d0: seq<T>, a0: seq<T>, r: seq<T>, r0: seq<T>, x: T, toD: bool)
    requires |r| > 0 && r0 == r[..|r| - 1] && x == r[|r| - 1]
    requires d == d0 + (if toD then [x] else []) && a == a0 + (if toD then [] else [x])
    requires multiset(d0) + multiset(a0) == multiset(r0)
    ensures multiset(d) + multiset(a) == multiset(r)
  {
    assert r == r0 + [x];
    if toD {
      assert d == d0 + [x] && a == a0 + [];
      assert a == a0;
    } else {
      assert d == d0 + [];
      assert d == d0;
    }
  }

  /** A sample is selected exactly when some row holding it has state `st`. */
  lemma {:induction false} SelectMembership(rows: seq<Sample>, labels: seq<Estado>, st: Estado)
    requires |labels| == |rows|
    ensures forall s :: s in Select(rows, labels, st) <==>
              exists k :: 0 <= k < |rows| && rows[k] == s && labels[k] == st
    decreases |rows|
  {
    if |rows| > 0 {
      var n := |rows| - 1;
      SelectMembership(rows[..n], labels[..n], st);
      forall s | (exists k :: 0 <= k < |rows| && rows[k] == s && labels[k] == st)
        ensures s in Select(rows, labels, st)
      {
        var k :| 0 <= k < |rows| && rows[k] == s && labels[k] == st;
        if k < n {
          assert rows[..n][k] == s && labels[..n][k] == st;
        }
      }
    }
  }

  /** After marking, the asleep table holds exactly the rows inside some
      period and the awake table exactly the others. */
  lemma SplitMeaning(rows: seq<Sample>, ps: seq<Period>)
    ensures var labels := Marked(rows, ps);
            && (forall s :: s in Select(rows, labels, Dormindo) <==> s in rows && AsleepAt(ps, s.timestamp))
            && (forall s :: s in Select(rows, labels, Acordado) <==> s in rows && !AsleepAt(ps, s.timestamp))
  {
    var labels := Marked(rows, ps);
    MarkedMeaning(rows, ps);
    SelectMembership(rows, labels, Dormindo);
    SelectMembership(rows, labels, Acordado);
  }

  /** A sensor table that gains the auxiliary state column in place. */
  class SensorFrame {
    var rows: seq<Sample>
    /** The `estado` column; empty until the table is marked. */
    var estado: seq<Estado>

    constructor (rows: seq<Sample>)
      ensures this.rows == rows && estado == []
    {
      this.rows := rows;
      estado := [];
    }
  }

  /** `separar_dados`: marks both tables in place, then returns the asleep
      and awake parts of each. */
  method SepararDados(accel: SensorFrame, gyro: SensorFrame, periods: seq<Period>)
    returns (accelDormindo: seq<Sample>, accelAcordado: seq<Sample>,
             gyroDormindo: seq<Sample>, gyroAcordado: seq<Sample>)
    requires accel != gyro
    modifies accel, gyro
    ensures accel.rows == old(accel.rows) && gyro.rows == old(gyro.rows)
    ensures accel.estado == Marked(accel.rows, periods)
    ensures gyro.estado == Marked(gyro.rows, periods)
    ensures accelDormindo == Select(accel.rows, accel.estado, Dormindo)
    ensures accelAcordado == Select(accel.rows, accel.estado, Acordado)
    ensures gyroDormindo == Select(gyro.rows, gyro.estado, Dormindo)
    ensures gyroAcordado == Select(gyro.rows, gyro.estado, Acordado)
  {
    accel.estado := seq(|accel.rows|, _ => Acordado);
    gyro.estado := seq(|gyro.rows|, _ => Acordado);
    var j := 0;
    while j < |periods|
      invariant 0 <= j <= |periods|
      invariant accel.rows == old(accel.rows) && gyro.rows == old(gyro.rows)
      invariant accel.estado == Marked(accel.rows, periods[..j])
      invariant gyro.estado == Marked(gyro.rows, periods[..j])
    {
      assert periods[..j + 1][..j] == periods[..j];
      accel.estado := MarkPeriod(accel.rows, accel.estado, periods[j]);
      gyro.estado := MarkPeriod(gyro.rows, gyro.estado, periods[j]);
      j := j + 1;
    }
    assert periods[..j] == periods;
    accelDormindo := Select(accel.rows, accel.estado, Dormindo);
    accelAcordado := Select(accel.rows, accel.estado, Acordado);
    gyroDormindo := Select(gyro.rows, gyro.estado, Dormindo);
    gyroAcordado := Select(gyro.rows, gyro.estado, Acordado);
  }
}
