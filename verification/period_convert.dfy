/** `converter_periodos_para_timestamps` of the visualiser: each pair of
    "H:MM" texts read from the periods file becomes an absolute interval.
    The start is placed on the recording's first day, or on the next day when
    that would put it before the recording starts; the end is placed on the
    start's day, or the day after when it would not come after the start.
    Pairs whose texts do not read as two integers are skipped; an hour or
    minute out of range makes the whole conversion fail, because that error
    is raised outside the `try`. */
module PeriodConvert {
  import opened Text
  import opened SleepPeriods
  import opened PeriodsFile

  const HOUR: int := 3600

  /** Python's `int(text)` on an ASCII decimal literal: surrounding
      whitespace, an optional sign, then ASCII digits. The `_` separators
      and non-ASCII digits that `int` also accepts are rejected here; the
      clock texts this converts come from `\d{1,2}:\d{2}` matches or from
      the normalised clock input, so they hold neither. */
  function PyInt(text: string): (r: Option<int>)
  {
    var t := Strip(text);
    if |t| > 0 && (t[0] == '+' || t[0] == '-') then
      if IsDigits(t[1..]) then
        Some(if t[0] == '-' then -(DigitsValue(t[1..]) as int) else DigitsValue(t[1..]))
      else None
    else if IsDigits(t) then Some(DigitsValue(t))
    else None
  }

  /** `h, m = map(int, text.split(':'))`: exactly two fields, each an
      integer. */
  function ReadClock(text: string): (r: Option<(int, int)>)
  {
    var parts := SplitOn(text, ':');
    if |parts| != 2 then None
    else
      var h := PyInt(parts[0]);
      var m := PyInt(parts[1]);
      if h.Some? && m.Some? then Some((h.value, m.value)) else None
  }

  /** What `datetime.replace(hour=h, minute=m)` accepts. */
  predicate InRange(h: int, m: int)
  {
    0 <= h <= 23 && 0 <= m <= 59
  }

  datatype ConvertError = ClockFieldOutOfRange

  datatype Step = Skipped | Converted(period: Period) | Raised

  /** The start hour and minute on the recording's first day, moved one day
      on when that is before `ref`; then the end on the start's day, moved one
      day on when not after the start. */
  function Place(ref: int, hi: int, mi: int, hf: int, mf: int): (r: Step)
  {
    if !InRange(hi, mi) then Raised
    else
      var s0 := DayStart(ref) + hi * HOUR + mi * MINUTE;
      var start := if s0 < ref then s0 + DAY else s0;
      if !InRange(hf, mf) then Raised
      else
        var e0 := DayStart(start) + hf * HOUR + mf * MINUTE;
        Converted(Period(start, if e0 <= start then e0 + DAY else e0))
  }

  /** One pair, converted against the first recorded instant `ref`. */
  function ConvertPair(ref: int, startText: string, endText: string): (r: Step)
  {
    var s := ReadClock(startText);
    var e := ReadClock(endText);
    if s.None? || e.None? then Skipped
    else Place(ref, s.value.0, s.value.1, e.value.0, e.value.1)
  }

  /** The whole conversion: the converted pairs in order, or the error of
      the first pair whose clock fields are out of range. */
  function ConvertAll(ref: int, pairs: seq<(string, string)>): Result<seq<Period>, ConvertError>
    decreases |pairs|
  {
    if |pairs| == 0 then Success([])
    else match ConvertPair(ref, pairs[0].0, pairs[0].1)
      case Raised => Failure(ClockFieldOutOfRange)
      case Skipped => ConvertAll(ref, pairs[1..])
      case Converted(p) => Prefixed([p], ConvertAll(ref, pairs[1..]))
  }

  /** `converter_periodos_para_timestamps`. */
  method ConverterPeriodosParaTimestamps(pairs: seq<(string, string)>, ref: int)
    returns (r: Result<seq<Period>, ConvertError>)
    ensures r == ConvertAll(ref, pairs)
  {
    var periods: seq<Period> := [];
    var i := 0;
    assert pairs[i..] == pairs;
    PrefixedEmpty(ConvertAll(ref, pairs));
    while i < |pairs|
      invariant 0 <= i <= |pairs|
      invariant ConvertAll(ref, pairs) == Prefixed(periods, ConvertAll(ref, pairs[i..]))
    {
      var step := ConvertPair(ref, pairs[i].0, pairs[i].1);
      ConvertAdvance(ref, pairs, i, periods);
      if step.Raised? {
        return Failure(ClockFieldOutOfRange);
      }
      if step.Converted? {
        periods := periods + [step.period];
      }
      i := i + 1;
    }
    assert pairs[i..] == [];
    assert periods + [] == periods;
    r := Success(periods);
  }

  lemma ConvertAdvance(ref: int, pairs: seq<(string, string)>, i: nat, acc: seq<Period>)
    requires i < |pairs|
    ensures var step := ConvertPair(ref, pairs[i].0, pairs[i].1);
            var rest := ConvertAll(ref, pairs[i + 1..]);
            Prefixed(acc, ConvertAll(ref, pairs[i..])) ==
              match step
              case Raised => Failure(ClockFieldOutOfRange)
              case Skipped => Prefixed(acc, rest)
              case Converted(p) => Prefixed(acc + [p], rest)
  {
    assert pairs[i..][0] == pairs[i] && pairs[i..][1..] == pairs[i + 1..];
    var rest := ConvertAll(ref, pairs[i + 1..]);
    match ConvertPair(ref, pairs[i].0, pairs[i].1)
    case Converted(p) => PrefixedAppend(acc, [p], rest);
    case _ =>
  }

  // ---------------------------------------------------------------------
  // Properties
  // ---------------------------------------------------------------------

  lemma DivModDay(q: int, c: int)
    requires 0 <= c < DAY
    ensures (q * DAY + c) / DAY == q && (q * DAY + c) % DAY == c
  {
  }

  /** The start lands within one day from `ref` at clock offset `c`. */
  lemma StartPlacement(ref: int, c: int)
    requires 0 <= c < DAY
    ensures var s0 := DayStart(ref) + c;
            var start := if s0 < ref then s0 + DAY else s0;
            ref <= start < ref + DAY && start % DAY == c
  {
    var q := ref / DAY;
    assert DayStart(ref) == q * DAY;
    DivModDay(q, c);
    DivModDay(q + 1, c);
    assert (q + 1) * DAY + c == q * DAY + c + DAY;
  }

  /** The end lands after the start, at most a day later, at clock offset
      `c`. */
  lemma EndPlacement(start: int, c: int)
    requires 0 <= c < DAY
    ensures var e0 := DayStart(start) + c;
            var end := if e0 <= start then e0 + DAY else e0;
            start < end <= start + DAY && end % DAY == c
  {
    var q := start / DAY;
    assert DayStart(start) == q * DAY;
    DivModDay(q, c);
    DivModDay(q + 1, c);
    assert (q + 1) * DAY + c == q * DAY + c + DAY;
  }

  /** A placed period starts within one day from the recording's first
      instant, ends after it starts, lasts at most one day and shows the
      given clock times; it is refused exactly when a field is out of
      range. */
  lemma PlaceSound(ref: int, hi: int, mi: int, hf: int, mf: int)
    ensures Place(ref, hi, mi, hf, mf).Raised? <==> !InRange(hi, mi) || !InRange(hf, mf)
    ensures Place(ref, hi, mi, hf, mf).Converted? ==>
              var p := Place(ref, hi, mi, hf, mf).period;
              && ref <= p.start < ref + DAY
              && p.start < p.end <= p.start + DAY
              && p.start % DAY == hi * HOUR + mi * MINUTE
              && p.end % DAY == hf * HOUR + mf * MINUTE
  {
    if InRange(hi, mi) && InRange(hf, mf) {
      StartPlacement(ref, hi * HOUR + mi * MINUTE);
      var s0 := DayStart(ref) + hi * HOUR + mi * MINUTE;
      var start := if s0 < ref then s0 + DAY else s0;
      EndPlacement(start, hf * HOUR + mf * MINUTE);
    }
  }

  /** A conversion fails exactly when some pair reads as two clocks with a
      field out of range. */
  lemma {:induction false} ConvertAllFails(ref: int, pairs: seq<(string, string)>)
    ensures ConvertAll(ref, pairs).Failure? <==>
              exists i :: 0 <= i < |pairs| && ConvertPair(ref, pairs[i].0, pairs[i].1).Raised?
    decreases |pairs|
  {
    if |pairs| > 0 {
      var tail := pairs[1..];
      ConvertAllFails(ref, tail);
      var head := ConvertPair(ref, pairs[0].0, pairs[0].1);
      assert ConvertAll(ref, pairs).Failure? <==> head.Raised? || ConvertAll(ref, tail).Failure?;
      if exists i :: 0 <= i < |tail| && ConvertPair(ref, tail[i].0, tail[i].1).Raised? {
        var i :| 0 <= i < |tail| && ConvertPair(ref, tail[i].0, tail[i].1).Raised?;
        assert pairs[i + 1] == tail[i];
      }
      if exists i :: 0 <= i < |pairs| && ConvertPair(ref, pairs[i].0, pairs[i].1).Raised? {
        var i :| 0 <= i < |pairs| && ConvertPair(ref, pairs[i].0, pairs[i].1).Raised?;
        if i > 0 {
          assert tail[i - 1] == pairs[i];
        }
      }
    }
  }

  /** Every converted period starts within one day from the recording's
      first instant, ends after it starts and lasts at most one day. */
  lemma {:induction false} ConvertAllSound(ref: int, pairs: seq<(string, string)>)
    requires ConvertAll(ref, pairs).Success?
    ensures |ConvertAll(ref, pairs).value| <= |pairs|
    ensures forall p :: p in ConvertAll(ref, pairs).value ==>
              ref <= p.start < ref + DAY && p.start < p.end <= p.start + DAY
    decreases |pairs|
  {
    if |pairs| > 0 {
      ConvertAllSound(ref, pairs[1..]);
      var s := ReadClock(pairs[0].0);
      var e := ReadClock(pairs[0].1);
      if s.Some? && e.Some? {
        PlaceSound(ref, s.value.0, s.value.1, e.value.0, e.value.1);
      }
    }
  }

  // ---------------------------------------------------------------------
  // Written, read back, converted
  // ---------------------------------------------------------------------

  /** `int()` of plain decimal digits is their value. */
  lemma PyIntOfDigits(t: string)
    requires IsDigits(t)
    ensures PyInt(t) == Some(DigitsValue(t) as int)
  {
    assert !IsSpace(t[0]) && !IsSpace(t[|t| - 1]);
    StripNoSpace(t);
  }

  lemma TwoDigitValue(a: char, b: char)
    requires IsDigit(a) && IsDigit(b)
    ensures PyInt([a, b]) == Some(DigitValue(a) * 10 + DigitValue(b))
  {
    PyIntOfDigits([a, b]);
    TwoDigitsValue(a, b);
  }

  lemma SplitClockText(c: string)
    requires |c| == 5 && c[2] == ':'
    requires IsDigit(c[0]) && IsDigit(c[1]) && IsDigit(c[3]) && IsDigit(c[4])
    ensures SplitOn(c, ':') == [[c[0], c[1]], [c[3], c[4]]]
  {
    var h, m := [c[0], c[1]], [c[3], c[4]];
    assert Join([h, m], ':') == c;
    SplitJoin([h, m], ':');
  }

  /** The minute of the day shown by an instant's clock text. */
  function MinuteOfDay(t: int): (m: nat)
    ensures m < 24 * 60
  {
    (t % DAY) / MINUTE
  }

  lemma ReadClockOf(text: string, hs: string, ms: string, h: int, m: int)
    requires SplitOn(text, ':') == [hs, ms]
    requires PyInt(hs) == Some(h) && PyInt(ms) == Some(m)
    ensures ReadClock(text) == Some((h, m))
  {
  }

  /** "DD:DD" reads as its two two-digit numbers. */
  lemma ReadClockDigits(c: string)
    requires |c| == 5 && c[2] == ':'
    requires IsDigit(c[0]) && IsDigit(c[1]) && IsDigit(c[3]) && IsDigit(c[4])
    ensures ReadClock(c) == Some((DigitValue(c[0]) * 10 + DigitValue(c[1]),
                                  DigitValue(c[3]) * 10 + DigitValue(c[4])))
  {
    SplitClockText(c);
    TwoDigitValue(c[0], c[1]);
    TwoDigitValue(c[3], c[4]);
    ReadClockOf(c, [c[0], c[1]], [c[3], c[4]],
                DigitValue(c[0]) * 10 + DigitValue(c[1]), DigitValue(c[3]) * 10 + DigitValue(c[4]));
  }

  /** A written clock text reads back as its hour and minute. */
  lemma ReadClockText(t: int)
    ensures ReadClock(ClockText(t)) == Some((MinuteOfDay(t) / 60, MinuteOfDay(t) % 60))
  {
    var c := ClockText(t);
    var m := MinuteOfDay(t);
    var h, mm := m / 60, m % 60;
    ReadClockDigits(c);
    assert c == [DigitChar(h / 10), DigitChar(h % 10), ':', DigitChar(mm / 10), DigitChar(mm % 10)];
    assert DigitValue(c[0]) == h / 10 && DigitValue(c[1]) == h % 10;
    assert DigitValue(c[3]) == mm / 10 && DigitValue(c[4]) == mm % 10;
  }

  /** The hour and minute of a minute of the day are in range and give
      back that minute. */
  lemma ClockFieldsInRange(m: int)
    requires 0 <= m < 24 * 60
    ensures InRange(m / 60, m % 60)
    ensures m / 60 * HOUR + m % 60 * MINUTE == m * MINUTE
  {
  }

  /** `qs` are `ps` converted one for one, each keeping the minutes of the
      day at which its period started and ended. */
  predicate KeepsMinutes(ps: seq<Period>, qs: seq<Period>)
  {
    && |qs| == |ps|
    && forall i :: 0 <= i < |ps| ==>
         && qs[i].start % DAY == MinuteOfDay(ps[i].start) * MINUTE
         && qs[i].end % DAY == MinuteOfDay(ps[i].end) * MINUTE
  }

  /** Converting the clock texts of some periods succeeds, one for one, and
      each result shows the minute of the day of the period it came from. */
  lemma {:induction false} ConvertClockPairs(ps: seq<Period>, ref: int)
    ensures var r := ConvertAll(ref, ClockPairs(ps));
            r.Success? && KeepsMinutes(ps, r.value)
    decreases |ps|
  {
    if |ps| > 0 {
      var pairs := ClockPairs(ps);
      ConvertClockPairs(ps[1..], ref);
      ClockPairsCons(ps);
      var q := ConvertClockText(ps[0], ref);
      var rest := ConvertAll(ref, ClockPairs(ps[1..])).value;
      ConvertAllCons(ref, pairs, q, rest);
      KeepsMinutesCons(ps, q, rest);
    }
  }

  /** A first pair that converts is put in front of the rest. */
  lemma ConvertAllCons(ref: int, pairs: seq<(string, string)>, q: Period, rest: seq<Period>)
    requires |pairs| > 0 && ConvertPair(ref, pairs[0].0, pairs[0].1) == Converted(q)
    requires ConvertAll(ref, pairs[1..]) == Success(rest)
    ensures ConvertAll(ref, pairs) == Success([q] + rest)
  {
  }

  lemma KeepsMinutesCons(ps: seq<Period>, q: Period, qs: seq<Period>)
    requires |ps| > 0 && KeepsMinutes(ps[1..], qs)
    requires q.start % DAY == MinuteOfDay(ps[0].start) * MINUTE
    requires q.end % DAY == MinuteOfDay(ps[0].end) * MINUTE
    ensures KeepsMinutes(ps, [q] + qs)
  {
    var r := [q] + qs;
    forall i | 0 < i < |ps|
      ensures r[i].start % DAY == MinuteOfDay(ps[i].start) * MINUTE
      ensures r[i].end % DAY == MinuteOfDay(ps[i].end) * MINUTE
    {
      assert r[i] == qs[i - 1] && ps[i] == ps[1..][i - 1];
    }
  }

  /** The clock texts of one period convert, and the result keeps the
      minutes of the day of its start and end. */
  lemma ConvertClockText(p: Period, ref: int) returns (q: Period)
    ensures ConvertPair(ref, ClockText(p.start), ClockText(p.end)) == Converted(q)
    ensures q.start % DAY == MinuteOfDay(p.start) * MINUTE
    ensures q.end % DAY == MinuteOfDay(p.end) * MINUTE
  {
    ReadClockText(p.start);
    ReadClockText(p.end);
    var ms, me := MinuteOfDay(p.start), MinuteOfDay(p.end);
    ClockFieldsInRange(ms);
    ClockFieldsInRange(me);
    PlaceSound(ref, ms / 60, ms % 60, me / 60, me % 60);
    q := Place(ref, ms / 60, ms % 60, me / 60, me % 60).period;
  }

  /** Periods written to the periods file, read back and converted against
      any reference instant convert without error, one for one, and each
      keeps the minute of the day at which the written period started and
      ended. */
  lemma WrittenPeriodsConvert(pessoaId: nat, ps: seq<Period>, ref: int)
    ensures var r := ConvertAll(ref, PairsOf(ReadLines(PeriodsFileText(pessoaId, ps))));
            && r.Success? && |r.value| == |ps|
            && (forall i :: 0 <= i < |ps| ==>
                  && r.value[i].start % DAY == MinuteOfDay(ps[i].start) * MINUTE
                  && r.value[i].end % DAY == MinuteOfDay(ps[i].end) * MINUTE)
  {
    ReadBackWritten(pessoaId, ps);
    assert PairsOf(ReadLines(PeriodsFileText(pessoaId, ps))) == ClockPairs(ps);
    ConvertClockPairs(ps, ref);
  }
}
