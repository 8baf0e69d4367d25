/** The period-collection loop of the interactive separation script: the
    user types start/end clock times until an empty start; each accepted
    pair becomes an absolute (start, end) interval on the date of the first
    recorded sample, rolled over to the next day when the end is not after
    the start. Time is integer seconds; a date is the second at which its
    day begins. */
module SleepPeriods {
  import opened Text
  import opened ClockInput

  const MINUTE: int := 60
  const DAY: int := 86400

  /** The instant at which the day holding `t` begins (`t.date()`). */
  function DayStart(t: int): (d: int)
    ensures d <= t < d + DAY && d % DAY == 0
  {
    (t / DAY) * DAY
  }

  datatype Period = Period(start: int, end: int)

  /** A period as the interactive script stores it: on the base day,
      ending after it starts and at most one day later. */
  predicate WellFormed(p: Period, base: int)
  {
    && base <= p.start < base + DAY
    && p.start < p.end <= p.start + DAY
  }

  /** input() reached the end of its stream (EOFError is not caught). */
  datatype PromptError = EndOfInput

  /** One typed entry: both times must normalise and read as %H:%M on the
      base date; an end not after the start moves one day later. */
  function MakePeriod(base: int, startText: string, endText: string): (r: Option<Period>)
  {
    var s := NormalizeTimeInput(startText);
    var e := NormalizeTimeInput(endText);
    if s.Failure? || e.Failure? then None
    else
      var sm := ParseHourMinute(s.value);
      var em := ParseHourMinute(e.value);
      if sm.None? || em.None? then None
      else
        var start := base + sm.value * MINUTE;
        var end0 := base + em.value * MINUTE;
        Some(Period(start, if end0 <= start then end0 + DAY else end0))
  }

  /** A typed entry is kept exactly when both times normalise and read as
      clock times, and the kept period is well formed. */
  lemma MakePeriodSound(base: int, startText: string, endText: string)
    requires base % DAY == 0
    ensures var s := NormalizeTimeInput(startText);
            var e := NormalizeTimeInput(endText);
            MakePeriod(base, startText, endText).Some? <==>
              (&& s.Success? && e.Success?
               && ParseHourMinute(s.value).Some? && ParseHourMinute(e.value).Some?)
    ensures MakePeriod(base, startText, endText).Some? ==>
              WellFormed(MakePeriod(base, startText, endText).value, base)
  {
  }

  /** What one start/end pair of typed lines contributes: nothing when the
      end is left empty or the pair is refused, else its period. */
  function Entry(base: int, startLine: string, endLine: string): seq<Period>
  {
    if Strip(endLine) == [] then []
    else match MakePeriod(base, Strip(startLine), Strip(endLine))
      case None => []
      case Some(p) => [p]
  }

  /** What the prompt loop of `obter_periodos_sono` returns for the given
      stream of typed lines. */
  function CollectPeriods(lines: seq<string>, base: int): Result<seq<Period>, PromptError>
    decreases |lines|
  {
    if |lines| == 0 then Failure(EndOfInput)
    else if Strip(lines[0]) == [] then Success([])
    else if |lines| == 1 then Failure(EndOfInput)
    else
      Prefixed(Entry(base, lines[0], lines[1]), CollectPeriods(lines[2..], base))
  }

  lemma CollectStep(ls: seq<string>, base: int)
    requires |ls| >= 2 && Strip(ls[0]) != []
    ensures CollectPeriods(ls, base) == Prefixed(Entry(base, ls[0], ls[1]), CollectPeriods(ls[2..], base))
  {
  }

  /** An empty start line ends the collection with what was gathered. */
  lemma CollectStops(lines: seq<string>, base: int, i: nat, acc: seq<Period>)
    requires i < |lines| && Strip(lines[i]) == []
    ensures Prefixed(acc, CollectPeriods(lines[i..], base)) == Success(acc)
  {
    assert lines[i..][0] == lines[i];
    assert acc + [] == acc;
  }

  /** One start/end pair moves the collection two lines on. */
  lemma CollectAdvance(lines: seq<string>, base: int, i: nat, acc: seq<Period>)
    requires i + 1 < |lines| && Strip(lines[i]) != []
    ensures var rest := CollectPeriods(lines[i + 2..], base);
            var p := MakePeriod(base, Strip(lines[i]), Strip(lines[i + 1]));
            Prefixed(acc, CollectPeriods(lines[i..], base)) ==
              if Strip(lines[i + 1]) == [] || p.None? then Prefixed(acc, rest)
              else Prefixed(acc + [p.value], rest)
  {
    var rest := CollectPeriods(lines[i + 2..], base);
    var entry := Entry(base, lines[i], lines[i + 1]);
    assert lines[i..][0] == lines[i] && lines[i..][1] == lines[i + 1];
    assert lines[i..][2..] == lines[i + 2..];
    CollectStep(lines[i..], base);
    PrefixedAppend(acc, entry, rest);
    assert acc + [] == acc;
  }

  /** `obter_periodos_sono`: the prompt loop over the typed lines, with the
      period counter shown in the prompts. */
  method ObterPeriodosSono(firstSample: int, lines: seq<string>)
    returns (r: Result<seq<Period>, PromptError>, periodNumber: nat)
    ensures r == CollectPeriods(lines, DayStart(firstSample))
    ensures r.Success? ==> periodNumber == |r.value| + 1
  {
    var base := DayStart(firstSample);
    var periods: seq<Period> := [];
    periodNumber := 1;
    var i := 0;
    assert lines[i..] == lines;
    PrefixedEmpty(CollectPeriods(lines, base));
    while true
      invariant 0 <= i <= |lines|
      invariant periodNumber == |periods| + 1
      invariant CollectPeriods(lines, base) == Prefixed(periods, CollectPeriods(lines[i..], base))
      decreases |lines| - i
    {
      if i == |lines| {
        r := Failure(EndOfInput);
        return;
      }
      var startText := Strip(lines[i]);
      if startText == [] {
        CollectStops(lines, base, i, periods);
        break;
      }
      if i + 1 == |lines| {
        r := Failure(EndOfInput);
        return;
      }
      var endText := Strip(lines[i + 1]);
      CollectAdvance(lines, base, i, periods);
      i := i + 2;
      if endText == [] {
        continue;
      }
      var p := MakePeriod(base, startText, endText);
      if p.Some? {
        periods := periods + [p.value];
        periodNumber := periodNumber + 1;
      }
    }
    r := Success(periods);
  }

  /** Every stored period lies on the base day, ends after it starts and
      lasts at most one day. */
  lemma {:induction false} CollectedPeriodsWellFormed(lines: seq<string>, base: int)
    requires base % DAY == 0
    requires CollectPeriods(lines, base).Success?
    ensures forall p :: p in CollectPeriods(lines, base).value ==> WellFormed(p, base)
    decreases |lines|
  {
    if |lines| >= 2 && Strip(lines[0]) != [] {
      CollectedPeriodsWellFormed(lines[2..], base);
      MakePeriodSound(base, Strip(lines[0]), Strip(lines[1]));
    }
  }

  /** Each stored period comes from one typed entry: there are never more
      periods than half the typed lines. */
  lemma {:induction false} CollectedPeriodsCount(lines: seq<string>, base: int)
    requires CollectPeriods(lines, base).Success?
    ensures 2 * |CollectPeriods(lines, base).value| < |lines|
    decreases |lines|
  {
    if |lines| >= 2 && Strip(lines[0]) != [] {
      CollectedPeriodsCount(lines[2..], base);
    }
  }
}
