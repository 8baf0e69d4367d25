/** Normalisation of a typed clock time ("2230", "930", "22:3") to "HH:MM",
    and the strict `%H:%M` reading that follows it, as done for each sleep
    period typed in by the user in the interactive separation script. */
module ClockInput {
  import opened Text

  datatype TimeInputError =
    | EmptyInput      // nothing left after stripping
    | BadFields       // has ':' but not two non-empty digit fields
    | BadDigitCount   // no ':' and neither 3 nor 4 digits

  /** Python's `str.zfill(width)` on a string that carries no sign: left-pad
      with '0' up to `width`, never truncate. */
  function ZFill(s: string, width: nat): (r: string)
    ensures |r| == if |s| < width then width else |s|
    ensures EndsWith(r, s)
    ensures forall i :: 0 <= i < |r| - |s| ==> r[i] == '0'
  {
    var pad := if |s| < width then width - |s| else 0;
    var r := seq(pad, _ => '0') + s;
    assert r[|r| - |s|..] == s;
    r
  }

  /** The digits of `s`, in order (the join comprehension over `isdigit`). */
  function KeepDigits(s: string): (r: string)
    ensures |r| <= |s|
    ensures forall i :: 0 <= i < |r| ==> IsDigit(r[i])
    decreases |s|
  {
    if |s| == 0 then []
    else KeepDigits(s[..|s| - 1]) + (if IsDigit(s[|s| - 1]) then [s[|s| - 1]] else [])
  }

  /** Exactly the digits of `s` are kept. */
  lemma {:induction false} KeepDigitsMembers(s: string)
    ensures forall c :: c in KeepDigits(s) <==> c in s && IsDigit(c)
    decreases |s|
  {
    if |s| > 0 {
      var n := |s| - 1;
      var init, last := s[..n], if IsDigit(s[n]) then [s[n]] else [];
      KeepDigitsMembers(init);
      KeepDigitsLast(s);
      assert s == init + [s[n]];
      forall c ensures c in KeepDigits(s) <==> c in s && IsDigit(c) {
        assert c in KeepDigits(init) + last <==> c in KeepDigits(init) || c in last;
        assert c in s <==> c in init || c == s[n];
      }
    }
  }

  /** Text made only of digits is kept whole. */
  lemma {:induction false} KeepDigitsAllDigits(s: string)
    requires forall i :: 0 <= i < |s| ==> IsDigit(s[i])
    ensures KeepDigits(s) == s
    decreases |s|
  {
    if |s| > 0 {
      var n := |s| - 1;
      KeepDigitsAllDigits(s[..n]);
      KeepDigitsLast(s);
      assert s == s[..n] + [s[n]];
    }
  }

  /** The digits of two texts side by side are those of the first followed
      by those of the second: the digits keep their order. */
  lemma {:induction false} KeepDigitsAppend(a: string, b: string)
    ensures KeepDigits(a + b) == KeepDigits(a) + KeepDigits(b)
    decreases |b|
  {
    if |b| == 0 {
      assert a + b == a;
    } else {
      var n := |b| - 1;
      var ab := a + b;
      var last := if IsDigit(b[n]) then [b[n]] else [];
      assert ab[..|ab| - 1] == a + b[..n] && ab[|ab| - 1] == b[n];
      KeepDigitsLast(ab);
      KeepDigitsLast(b);
      KeepDigitsAppend(a, b[..n]);
      var x, y := KeepDigits(a), KeepDigits(b[..n]);
      assert (x + y) + last == x + (y + last);
    }
  }

  /** One step of the definition, the last character of `s`. */
  lemma KeepDigitsLast(s: string)
    requires |s| > 0
    ensures KeepDigits(s) == KeepDigits(s[..|s| - 1]) + (if IsDigit(s[|s| - 1]) then [s[|s| - 1]] else [])
  {
  }

  /** `_normalize_time_input`. */
  function NormalizeTimeInput(raw: string): Result<string, TimeInputError>
  {
    var s := Strip(raw);
    if s == [] then Failure(EmptyInput)
    else if ':' in s then
      var parts := SplitOn(s, ':');
      if |parts| != 2 || !IsDigits(parts[0]) || !IsDigits(parts[1]) then Failure(BadFields)
      else Success(ZFill(parts[0], 2) + ":" + ZFill(parts[1], 2))
    else
      var digits := KeepDigits(s);
      if |digits| == 4 then Success(digits[..2] + ":" + digits[2..])
      else if |digits| == 3 then
        var padded := ZFill(digits, 4);
        Success(padded[..2] + ":" + padded[2..])
      else Failure(BadDigitCount)
  }

  /** A normalised clock time: digits, one ':', digits, each side at least
      two characters long. */
  predicate IsClockShape(r: string)
  {
    exists k :: 2 <= k <= |r| - 3 && HasColonAt(r, k)
  }

  predicate HasColonAt(r: string, k: nat)
  {
    k < |r| && r[k] == ':' && IsDigits(r[..k]) && IsDigits(r[k + 1..])
  }

  // ---------------------------------------------------------------------
  // Properties of the normalisation
  // ---------------------------------------------------------------------

  /** Input that is empty after stripping is refused, and nothing else is
      refused as empty. */
  lemma NormalizeEmpty(raw: string)
    ensures NormalizeTimeInput(raw) == Failure(EmptyInput)
            <==> forall k :: 0 <= k < |raw| ==> IsSpace(raw[k])
  {
    StripEmptyIff(raw);
  }

  /** With a ':' the input is accepted exactly when it splits into two
      non-empty digit fields; each field is zero-padded to two characters and
      kept whole. */
  lemma NormalizeWithColon(raw: string)
    requires ':' in Strip(raw)
    ensures var parts := SplitOn(Strip(raw), ':');
            var ok := |parts| == 2 && IsDigits(parts[0]) && IsDigits(parts[1]);
            && (NormalizeTimeInput(raw).Success? <==> ok)
            && (ok ==> exists h, m ::
                  && NormalizeTimeInput(raw).value == h + ":" + m
                  && |h| == (if |parts[0]| < 2 then 2 else |parts[0]|)
                  && |m| == (if |parts[1]| < 2 then 2 else |parts[1]|)
                  && EndsWith(h, parts[0]) && EndsWith(m, parts[1]))
  {
    var parts := SplitOn(Strip(raw), ':');
    if |parts| == 2 && IsDigits(parts[0]) && IsDigits(parts[1]) {
      var h, m := ZFill(parts[0], 2), ZFill(parts[1], 2);
      assert NormalizeTimeInput(raw).value == h + ":" + m;
    }
  }

  /** Without a ':' only the digits count: four give "DD:DD", three are
      padded to four first ("930" -> "09:30"), any other count is refused. */
  lemma NormalizeWithoutColon(raw: string)
    requires Strip(raw) != [] && ':' !in Strip(raw)
    ensures var d := KeepDigits(Strip(raw));
            && (NormalizeTimeInput(raw).Success? <==> |d| == 3 || |d| == 4)
            && (|d| == 4 ==> NormalizeTimeInput(raw).value == [d[0], d[1], ':', d[2], d[3]])
            && (|d| == 3 ==> NormalizeTimeInput(raw).value == ['0', d[0], ':', d[1], d[2]])
  {
    var d := KeepDigits(Strip(raw));
    if |d| == 3 {
      var p := ZFill(d, 4);
      assert p[1..] == d;
      assert p == ['0', d[0], d[1], d[2]];
    }
  }

  /** Every accepted input normalises to digits ':' digits with at least two
      characters on each side. */
  lemma NormalizeShape(raw: string)
    requires NormalizeTimeInput(raw).Success?
    ensures IsClockShape(NormalizeTimeInput(raw).value)
  {
    var s := Strip(raw);
    var r := NormalizeTimeInput(raw).value;
    if ':' in s {
      var parts := SplitOn(s, ':');
      ZFillDigits(parts[0], 2);
      ZFillDigits(parts[1], 2);
      JoinedShape(ZFill(parts[0], 2), ZFill(parts[1], 2));
    } else {
      var d := KeepDigits(s);
      var p := if |d| == 4 then d else ZFill(d, 4);
      if |d| == 3 { ZFillDigits(d, 4); }
      assert p[..2] + p[2..] == p;
      JoinedShape(p[..2], p[2..]);
    }
  }

  lemma JoinedShape(h: string, m: string)
    requires IsDigits(h) && IsDigits(m) && |h| >= 2 && |m| >= 2
    ensures IsClockShape(h + ":" + m)
  {
    var r := h + ":" + m;
    assert r[..|h|] == h && r[|h| + 1..] == m;
    assert HasColonAt(r, |h|);
  }

  lemma ZFillDigits(s: string, width: nat)
    requires IsDigits(s)
    ensures IsDigits(ZFill(s, width))
  {
    var r := ZFill(s, width);
    forall i | 0 <= i < |r| ensures IsDigit(r[i]) {
      if i >= |r| - |s| {
        assert r[i] == r[|r| - |s|..][i - (|r| - |s|)];
      }
    }
  }

  /** A well-shaped clock time is its own normal form. */
  lemma ClockShapeIsNormal(r: string)
    requires IsClockShape(r)
    ensures NormalizeTimeInput(r) == Success(r)
  {
    var k :| 2 <= k <= |r| - 3 && HasColonAt(r, k);
    var h, m := r[..k], r[k + 1..];
    ClockFields(r, k);
    ColonCase(r, h, m);
    ZFillLongEnough(h, 2);
    ZFillLongEnough(m, 2);
  }

  /** The ':' branch taken on a stripped text that splits into two digit
      fields. */
  lemma ColonCase(s: string, h: string, m: string)
    requires Strip(s) == s && ':' in s && SplitOn(s, ':') == [h, m]
    requires IsDigits(h) && IsDigits(m)
    ensures NormalizeTimeInput(s) == Success(ZFill(h, 2) + ":" + ZFill(m, 2))
  {
  }

  /** A clock-shaped text strips to itself and splits at its colon into
      its two digit fields. */
  lemma ClockFields(r: string, k: nat)
    requires 2 <= k <= |r| - 3 && HasColonAt(r, k)
    ensures Strip(r) == r && ':' in r
    ensures SplitOn(r, ':') == [r[..k], r[k + 1..]]
    ensures IsDigits(r[..k]) && IsDigits(r[k + 1..]) && r == r[..k] + ":" + r[k + 1..]
  {
    var h, m := r[..k], r[k + 1..];
    assert r == h + ":" + m;
    assert !IsSpace(r[0]) && !IsSpace(r[|r| - 1]) by {
      assert r[0] == h[0];
      assert r[|r| - 1] == m[|m| - 1];
    }
    StripNoSpace(r);
    assert ':' !in h by { forall i | 0 <= i < |h| ensures h[i] != ':' { assert IsDigit(h[i]); } }
    assert ':' !in m by { forall i | 0 <= i < |m| ensures m[i] != ':' { assert IsDigit(m[i]); } }
    assert r[k] == ':';
    assert Join([h, m], ':') == r;
    SplitJoin([h, m], ':');
  }

  /** `zfill` leaves a string already as long as the width unchanged. */
  lemma ZFillLongEnough(s: string, width: nat)
    requires |s| >= width
    ensures ZFill(s, width) == s
  {
    assert seq(0, _ => '0') + s == s;
  }

  /** Normalising is idempotent: a normalised time normalises to itself. */
  lemma NormalizeIdempotent(raw: string)
    requires NormalizeTimeInput(raw).Success?
    ensures NormalizeTimeInput(NormalizeTimeInput(raw).value) == NormalizeTimeInput(raw)
  {
    NormalizeShape(raw);
    ClockShapeIsNormal(NormalizeTimeInput(raw).value);
  }

  // ---------------------------------------------------------------------
  // The strict "%H:%M" reading of a normalised time
  // ---------------------------------------------------------------------

  /** Minutes after midnight denoted by a normalised time under the format
      "%H:%M": the hour field must read as 00..23 and the minute field as
      00..59, each exactly two digits (a field padded past two characters
      leaves unconverted text and is refused). */
  function ParseHourMinute(norm: string): (r: Option<nat>)
    ensures r.Some? ==> r.value < 24 * 60
  {
    if |norm| == 5 && IsDigit(norm[0]) && IsDigit(norm[1]) && norm[2] == ':'
       && IsDigit(norm[3]) && IsDigit(norm[4])
    then
      var h := DigitValue(norm[0]) * 10 + DigitValue(norm[1]);
      var m := DigitValue(norm[3]) * 10 + DigitValue(norm[4]);
      if h <= 23 && m <= 59 then Some(h * 60 + m) else None
    else None
  }

  /** Rendering minutes-after-midnight as "HH:MM" (what `strftime('%H:%M')`
      prints). */
  function FormatHourMinute(minutes: nat): (r: string)
    requires minutes < 24 * 60
    ensures |r| == 5
  {
    var h, m := minutes / 60, minutes % 60;
    [DigitChar(h / 10), DigitChar(h % 10), ':', DigitChar(m / 10), DigitChar(m % 10)]
  }

  /** Reading back a rendered clock time gives the same minute of the day. */
  lemma ParseFormatRoundTrip(minutes: nat)
    requires minutes < 24 * 60
    ensures ParseHourMinute(FormatHourMinute(minutes)) == Some(minutes)
  {
  }

  /** A rendered clock time is already in normal form. */
  lemma FormatIsNormal(minutes: nat)
    requires minutes < 24 * 60
    ensures NormalizeTimeInput(FormatHourMinute(minutes)) == Success(FormatHourMinute(minutes))
  {
    var r := FormatHourMinute(minutes);
    assert HasColonAt(r, 2);
    ClockShapeIsNormal(r);
  }
}
