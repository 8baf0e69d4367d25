/** The sleep-periods text file: written by the interactive separation
    script (a title line, a rule of '=' and one "Período i: HH:MM até HH:MM"
    line per period) and read back by the visualiser, which keeps the first
    two clock times found on each remaining line. The file's contents are a
    string; a missing file is `None`. */
module PeriodsFile {
  import opened Text
  import opened ClockInput
  import opened SleepPeriods

  // ---------------------------------------------------------------------
  // Writing
  // ---------------------------------------------------------------------

  /** `strftime('%H:%M')` of an instant. */
  function ClockText(t: int): (r: string)
    ensures |r| == 5 && r[2] == ':'
    ensures IsDigit(r[0]) && IsDigit(r[1]) && IsDigit(r[3]) && IsDigit(r[4])
  {
    FormatHourMinute((t % DAY) / MINUTE)
  }

  function HeaderLine(pessoaId: nat): string
  {
    "Períodos de sono - Pessoa " + NatToString(pessoaId)
  }

  /** `"=" * 50`. */
  function RuleLine(): string
  {
    seq(50, _ => '=')
  }

  /** The line for the `number`-th period (numbering starts at 1). */
  function PeriodLine(number: nat, p: Period): string
  {
    "Período " + NatToString(number) + ": " + ClockText(p.start) + " até " + ClockText(p.end)
  }

  /** Lines each written with a trailing newline. */
  function Terminated(ls: seq<string>): string
    decreases |ls|
  {
    if |ls| == 0 then [] else ls[0] + "\n" + Terminated(ls[1..])
  }

  function PeriodLines(ps: seq<Period>): (r: seq<string>)
    ensures |r| == |ps|
  {
    seq(|ps|, i requires 0 <= i < |ps| => PeriodLine(i + 1, ps[i]))
  }

  /** The whole file as `salvar_dados_separados` writes it. */
  function PeriodsFileText(pessoaId: nat, ps: seq<Period>): string
  {
    Terminated([HeaderLine(pessoaId), RuleLine()] + PeriodLines(ps))
  }

  lemma {:induction false} TerminatedSnoc(ls: seq<string>, l: string)
    ensures Terminated(ls + [l]) == Terminated(ls) + l + "\n"
    decreases |ls|
  {
    if |ls| == 0 {
      assert [] + [l] == [l];
    } else {
      var x := ls + [l];
      assert x[0] == ls[0] && x[1..] == ls[1..] + [l];
      TerminatedSnoc(ls[1..], l);
      var rest := Terminated(ls[1..]);
      assert Terminated(x) == ls[0] + "\n" + (rest + l + "\n");
      assert Terminated(ls) == ls[0] + "\n" + rest;
    }
  }

  /** The writing loop of `salvar_dados_separados` (the text it writes). */
  method WritePeriodsFile(pessoaId: nat, ps: seq<Period>) returns (content: string)
    ensures content == PeriodsFileText(pessoaId, ps)
  {
    ghost var head := [HeaderLine(pessoaId), RuleLine()];
    content := HeaderLine(pessoaId) + "\n";
    content := content + RuleLine() + "\n";
    assert content == Terminated(head) by {
      assert head[1..] == [RuleLine()] && head[1..][1..] == [];
      assert Terminated(head[1..]) == RuleLine() + "\n";
    }
    var i := 0;
    assert head + PeriodLines(ps[..0]) == head;
    while i < |ps|
      invariant 0 <= i <= |ps|
      invariant content == Terminated(head + PeriodLines(ps[..i]))
    {
      assert head + PeriodLines(ps[..i + 1]) == (head + PeriodLines(ps[..i])) + [PeriodLine(i + 1, ps[i])];
      TerminatedSnoc(head + PeriodLines(ps[..i]), PeriodLine(i + 1, ps[i]));
      content := content + PeriodLine(i + 1, ps[i]) + "\n";
      i := i + 1;
    }
    assert ps[..i] == ps;
  }

  // ---------------------------------------------------------------------
  // Reading
  // ---------------------------------------------------------------------

  /** Iterating over a text file: each line keeps its '\n'; the last line
      has none when the file does not end with one. */
  function Lines(s: string): seq<string>
    decreases |s|
  {
    if |s| == 0 then []
    else if '\n' in s then
      var i := IndexOf(s, '\n');
      [s[..i + 1]] + Lines(s[i + 1..])
    else [s]
  }

  /** Python's universal newlines when a file is opened for reading in text
      mode: "\r\n" and a '\r' on its own each become '\n'. */
  function UniversalNewlines(s: string): (r: string)
    decreases |s|
  {
    if |s| == 0 then []
    else if s[0] == '\r' then "\n" + UniversalNewlines(if |s| > 1 && s[1] == '\n' then s[2..] else s[1..])
    else [s[0]] + UniversalNewlines(s[1..])
  }

  /** No '\r' is left, text without '\r' is read as it is, and so reading
      twice is reading once. */
  lemma {:induction false} UniversalNewlinesSpec(s: string)
    ensures '\r' !in UniversalNewlines(s)
    ensures '\r' !in s ==> UniversalNewlines(s) == s
    ensures UniversalNewlines(UniversalNewlines(s)) == UniversalNewlines(s)
    decreases |s|
  {
    if |s| > 0 {
      var rest := if s[0] == '\r' && |s| > 1 && s[1] == '\n' then s[2..] else s[1..];
      UniversalNewlinesSpec(rest);
    }
    if '\r' !in s {
      NoCarriageReturnRead(s);
    }
    NoCarriageReturnRead(UniversalNewlines(s));
  }

  /** Text without '\r' is read as it is. */
  lemma {:induction false} NoCarriageReturnRead(s: string)
    requires '\r' !in s
    ensures UniversalNewlines(s) == s
    decreases |s|
  {
    if |s| > 0 {
      assert '\r' !in s[1..] by {
        forall k | 0 <= k < |s| - 1 ensures s[1..][k] != '\r' { assert s[1..][k] == s[k + 1]; }
      }
      NoCarriageReturnRead(s[1..]);
    }
  }

  /** `for linha in f` over a file opened in text mode. */
  function ReadLines(text: string): seq<string>
  {
    Lines(UniversalNewlines(text))
  }

  function Concat(ls: seq<string>): string
    decreases |ls|
  {
    if |ls| == 0 then [] else ls[0] + Concat(ls[1..])
  }

  /** The lines put back together are the file, and no line holds a '\n'
      anywhere but at its end. */
  lemma {:induction false} LinesCoverFile(s: string)
    ensures Concat(Lines(s)) == s
    ensures forall i :: 0 <= i < |Lines(s)| ==>
              |Lines(s)[i]| > 0 && '\n' !in Lines(s)[i][..|Lines(s)[i]| - 1]
    decreases |s|
  {
    if |s| > 0 && '\n' in s {
      var i := IndexOf(s, '\n');
      LinesCoverFile(s[i + 1..]);
      assert s == s[..i + 1] + s[i + 1..];
      assert s[..i + 1][..i] == s[..i];
    }
  }

  /** Each line with its '\n'. */
  function Newlined(ls: seq<string>): (r: seq<string>)
    ensures |r| == |ls|
  {
    seq(|ls|, i requires 0 <= i < |ls| => ls[i] + "\n")
  }

  lemma NewlinedCons(ls: seq<string>)
    requires |ls| > 0
    ensures Newlined(ls) == [ls[0] + "\n"] + Newlined(ls[1..])
  {
  }

  /** Lines written with a trailing newline each are read back one by one. */
  lemma {:induction false} LinesOfTerminated(ls: seq<string>)
    requires forall i :: 0 <= i < |ls| ==> '\n' !in ls[i]
    ensures Lines(Terminated(ls)) == Newlined(ls)
    decreases |ls|
  {
    if |ls| > 0 {
      var rest := Terminated(ls[1..]);
      assert Terminated(ls) == ls[0] + "\n" + rest;
      LinesHead(ls[0], rest);
      LinesOfTerminated(ls[1..]);
      NewlinedCons(ls);
    }
  }

  /** Lines without '\r' give a file without '\r'. */
  lemma {:induction false} TerminatedNoCarriageReturn(ls: seq<string>)
    requires forall i :: 0 <= i < |ls| ==> '\r' !in ls[i]
    ensures '\r' !in Terminated(ls)
    decreases |ls|
  {
    if |ls| > 0 {
      TerminatedNoCarriageReturn(ls[1..]);
      assert Terminated(ls) == ls[0] + "\n" + Terminated(ls[1..]);
    }
  }

  /** A line without '\n' followed by '\n' is read as the first line. */
  lemma LinesHead(x: string, rest: string)
    requires '\n' !in x
    ensures Lines(x + "\n" + rest) == [x + "\n"] + Lines(rest)
  {
    var s := x + "\n" + rest;
    assert s[|x|] == '\n';
    var i := IndexOf(s, '\n');
    assert i == |x| by {
      assert s[..|x|] == x;
    }
    assert s[..i + 1] == x + "\n";
    assert s[i + 1..] == rest;
  }

  /** Length of the match of `(\d{1,2}:\d{2})` starting at `p`, 0 when the
      pattern does not match there; two leading digits are tried before
      one. */
  function MatchLength(s: string, p: nat): (n: nat)
    ensures n == 0 || n == 4 || n == 5
    ensures n > 0 ==> p + n <= |s|
  {
    if p + 5 <= |s| && IsDigit(s[p]) && IsDigit(s[p + 1]) && s[p + 2] == ':'
       && IsDigit(s[p + 3]) && IsDigit(s[p + 4]) then 5
    else if p + 4 <= |s| && IsDigit(s[p]) && s[p + 1] == ':'
       && IsDigit(s[p + 2]) && IsDigit(s[p + 3]) then 4
    else 0
  }

  /** A text the pattern matches whole: one or two digits, ':', two digits. */
  predicate IsClockToken(m: string)
  {
    && (|m| == 4 || |m| == 5)
    && m[|m| - 3] == ':'
    && (forall i :: 0 <= i < |m| && i != |m| - 3 ==> IsDigit(m[i]))
  }

  /** `re.findall(r"(\d{1,2}:\d{2})", s[p..])`: leftmost matches, not
      overlapping, the scan moving one character on after a failure. */
  function FindClockTimes(s: string, p: nat): seq<string>
    requires p <= |s|
    decreases |s| - p
  {
    if p == |s| then []
    else
      var n := MatchLength(s, p);
      if n > 0 then [s[p..p + n]] + FindClockTimes(s, p + n)
      else FindClockTimes(s, p + 1)
  }

  /** What one line of the file contributes: lines that are empty, start
      with '=' or contain "Períodos" are skipped; otherwise the first two
      clock times, when there are two. */
  function LinePair(line: string): Option<(string, string)>
  {
    var texto := Strip(line);
    if |texto| == 0 || StartsWith(texto, "=") || Contains(texto, "Períodos") then None
    else
      var times := FindClockTimes(texto, 0);
      if |times| >= 2 then Some((times[0], times[1])) else None
  }

  function PairsOf(lines: seq<string>): seq<(string, string)>
    decreases |lines|
  {
    if |lines| == 0 then []
    else Found(lines[0]) + PairsOf(lines[1..])
  }

  /** Every pair read holds two clock-shaped texts. */
  lemma {:induction false} PairsAreClockTokens(lines: seq<string>)
    ensures forall i :: 0 <= i < |PairsOf(lines)| ==>
              IsClockToken(PairsOf(lines)[i].0) && IsClockToken(PairsOf(lines)[i].1)
    decreases |lines|
  {
    if |lines| > 0 {
      PairsAreClockTokens(lines[1..]);
      var texto := Strip(lines[0]);
      FoundAreClockTokens(texto, 0);
    }
  }

  /** Everything the scan finds is a whole match of the pattern. */
  lemma {:induction false} FoundAreClockTokens(s: string, p: nat)
    requires p <= |s|
    ensures forall i :: 0 <= i < |FindClockTimes(s, p)| ==> IsClockToken(FindClockTimes(s, p)[i])
    decreases |s| - p
  {
    if p < |s| {
      var n := MatchLength(s, p);
      if n > 0 {
        FoundAreClockTokens(s, p + n);
        var m := s[p..p + n];
        assert forall i :: 0 <= i < |m| ==> m[i] == s[p + i];
      } else {
        FoundAreClockTokens(s, p + 1);
      }
    }
  }

  /** What one line adds to the pairs read. */
  function Found(line: string): seq<(string, string)>
  {
    match LinePair(line)
    case None => []
    case Some(pair) => [pair]
  }

  lemma PairsOfStep(lines: seq<string>, i: nat)
    requires i < |lines|
    ensures PairsOf(lines[i..]) == Found(lines[i]) + PairsOf(lines[i + 1..])
  {
    SuffixStep(lines, i);
  }

  lemma SuffixStep<T>(s: seq<T>, i: nat)
    requires i < |s|
    ensures s[i..][0] == s[i] && s[i..][1..] == s[i + 1..]
  {
  }

  lemma AppendAssoc<T>(a: seq<T>, b: seq<T>, c: seq<T>)
    ensures (a + b) + c == a + (b + c)
  {
  }

  /** The reading loop over the lines of an existing file. */
  method ReadPairs(lines: seq<string>) returns (periodos: seq<(string, string)>)
    ensures periodos == PairsOf(lines)
  {
    periodos := [];
    var i := 0;
    assert lines[i..] == lines;
    while i < |lines|
      invariant 0 <= i <= |lines|
      invariant periodos + PairsOf(lines[i..]) == PairsOf(lines)
    {
      var pair := LinePair(lines[i]);
      PairsOfStep(lines, i);
      AppendAssoc(periodos, Found(lines[i]), PairsOf(lines[i + 1..]));
      if pair.Some? {
        periodos := periodos + [pair.value];
      } else {
        assert periodos + Found(lines[i]) == periodos;
      }
      i := i + 1;
    }
    assert lines[i..] == [];
  }

  /** `carregar_periodos_sono`: no file gives no periods; otherwise the
      pairs of the file's lines, in order. */
  method CarregarPeriodosSono(file: Option<string>) returns (periodos: seq<(string, string)>)
    ensures file.None? ==> periodos == []
    ensures file.Some? ==> periodos == PairsOf(ReadLines(file.value))
  {
    if file.None? {
      return [];
    }
    periodos := ReadPairs(ReadLines(file.value));
  }

  // ---------------------------------------------------------------------
  // Writing then reading
  // ---------------------------------------------------------------------

  lemma {:induction false} PairsOfAppend(a: seq<string>, b: seq<string>)
    ensures PairsOf(a + b) == PairsOf(a) + PairsOf(b)
    decreases |a|
  {
    if |a| == 0 {
      assert a + b == b;
    } else {
      assert (a + b)[1..] == a[1..] + b;
      PairsOfAppend(a[1..], b);
    }
  }

  /** Stripping a line written with its newline gives the line back when it
      has no surrounding whitespace. */
  lemma StripTerminatedLine(l: string)
    requires |l| > 0 && !IsSpace(l[0]) && !IsSpace(l[|l| - 1])
    ensures Strip(l + "\n") == l
  {
    var s := l + "\n";
    assert TrimLeft(s) == s;
    assert s[..|s| - 1] == l;
    assert TrimRight(s) == TrimRight(l);
    StripNoSpace(l);
  }

  lemma HeaderSkipped(pessoaId: nat)
    ensures LinePair(HeaderLine(pessoaId) + "\n") == None
  {
    var h := HeaderLine(pessoaId);
    var d := NatToString(pessoaId);
    assert h[|h| - 1] == d[|d| - 1];
    StripTerminatedLine(h);
    assert InfixAt("Períodos", h, 0);
  }

  lemma RuleSkipped()
    ensures LinePair(RuleLine() + "\n") == None
  {
    StripTerminatedLine(RuleLine());
  }

  /** `HH:MM` as `ClockText` writes it. */
  predicate IsClockText(c: string)
  {
    |c| == 5 && c[2] == ':' && IsDigit(c[0]) && IsDigit(c[1]) && IsDigit(c[3]) && IsDigit(c[4])
  }

  /** Where each piece of a period line `l` sits, for a number of `n`
      digits and clock texts `a` and `b`. */
  predicate LineShape(l: string, n: nat, a: string, b: string)
  {
    && |l| == 25 + n && |a| == 5 && |b| == 5
    && l[0] == 'P' && l[7] == ' '
    && (forall k :: 0 <= k < 8 ==> !IsDigit(l[k]))
    && (forall k :: 8 <= k < 8 + n ==> IsDigit(l[k]))
    && l[8 + n] == ':' && l[9 + n] == ' '
    && l[10 + n..15 + n] == a
    && (forall k :: 15 + n <= k < 20 + n ==> !IsDigit(l[k]))
    && l[20 + n..] == b
    && (forall k :: 0 < k < |l| ==> l[k] != 'P')
    && (forall k :: 0 <= k < |l| ==> l[k] != '\n' && l[k] != '\r')
  }

  /** The layout of every period line. */
  lemma PeriodLineLayout(number: nat, p: Period)
    ensures LineShape(PeriodLine(number, p), |NatToString(number)|, ClockText(p.start), ClockText(p.end))
  {
    var d, a, b := NatToString(number), ClockText(p.start), ClockText(p.end);
    assert PeriodLine(number, p) == "Período " + d + ": " + a + " até " + b;
    LayoutOf(d, a, b);
  }

  lemma LayoutOf(d: string, a: string, b: string)
    requires forall k :: 0 <= k < |d| ==> IsDigit(d[k])
    requires IsClockText(a) && IsClockText(b)
    ensures LineShape("Período " + d + ": " + a + " até " + b, |d|, a, b)
  {
    LayoutLabel(d, a, b);
    LayoutClocks(d, a, b);
    ShapeFromPieces("Período " + d + ": " + a + " até " + b, d, a, b);
  }

  lemma ShapeFromPieces(l: string, d: string, a: string, b: string)
    requires forall k :: 0 <= k < |d| ==> IsDigit(d[k])
    requires IsClockText(a) && IsClockText(b)
    requires var n := |d|;
             && |l| == 25 + n
             && (forall k :: 0 <= k < 8 ==> l[k] == "Período "[k])
             && (forall k :: 8 <= k < 8 + n ==> l[k] == d[k - 8])
             && l[8 + n] == ':' && l[9 + n] == ' '
             && l[10 + n..15 + n] == a
             && (forall k :: 15 + n <= k < 20 + n ==> l[k] == " até "[k - 15 - n])
             && l[20 + n..] == b
    ensures LineShape(l, |d|, a, b)
  {
    var n := |d|;
    forall k | 0 <= k < |l| ensures l[k] != '\n' && l[k] != '\r' && (k > 0 ==> l[k] != 'P') {
      if 10 + n <= k < 15 + n {
        assert l[k] == l[10 + n..15 + n][k - 10 - n];
      } else if 20 + n <= k {
        assert l[k] == l[20 + n..][k - 20 - n];
      }
    }
  }

  /** "Período N: " at the head of a period line. */
  lemma LayoutLabel(d: string, a: string, b: string)
    requires |a| == 5 && |b| == 5
    ensures var l := "Período " + d + ": " + a + " até " + b;
            var n := |d|;
            && |l| == 25 + n
            && (forall k :: 0 <= k < 8 ==> l[k] == "Período "[k])
            && (forall k :: 8 <= k < 8 + n ==> l[k] == d[k - 8])
            && l[8 + n] == ':' && l[9 + n] == ' '
  {
    var w := "Período " + d + ": ";
    var l := "Período " + d + ": " + a + " até " + b;
    assert l == w + (a + " até " + b);
    assert forall k :: 0 <= k < |w| ==> l[k] == w[k];
  }

  /** The two clock texts and " até " between them. */
  lemma LayoutClocks(d: string, a: string, b: string)
    requires |a| == 5 && |b| == 5
    ensures var l := "Período " + d + ": " + a + " até " + b;
            var n := |d|;
            && |l| == 25 + n
            && l[10 + n..15 + n] == a
            && (forall k :: 15 + n <= k < 20 + n ==> l[k] == " até "[k - 15 - n])
            && l[20 + n..] == b
  {
    var n := |d|;
    var w := "Período " + d + ": ";
    var l := "Período " + d + ": " + a + " até " + b;
    assert |w| == 10 + n;
    assert l == (w + a) + (" até " + b);
    assert l[10 + n..15 + n] == (w + a)[10 + n..];
    assert l[15 + n..] == " até " + b;
  }

  /** The scan moves over positions where nothing matches. */
  lemma {:induction false} SkipNoMatch(s: string, p: nat, q: nat)
    requires p <= q <= |s|
    requires forall k :: p <= k < q ==> MatchLength(s, k) == 0
    ensures FindClockTimes(s, p) == FindClockTimes(s, q)
    decreases q - p
  {
    if p < q {
      SkipNoMatch(s, p + 1, q);
    }
  }

  lemma PeriodLineTimes(number: nat, p: Period)
    ensures FindClockTimes(PeriodLine(number, p), 0) == [ClockText(p.start), ClockText(p.end)]
  {
    PeriodLineLayout(number, p);
    LineTimes(PeriodLine(number, p), |NatToString(number)|, ClockText(p.start), ClockText(p.end));
  }

  /** The scan of a period line finds its two clock texts and nothing else. */
  lemma LineTimes(l: string, n: nat, a: string, b: string)
    requires LineShape(l, n, a, b) && IsClockText(a) && IsClockText(b)
    ensures FindClockTimes(l, 0) == [a, b]
  {
    LabelNoMatch(l, n, a, b);
    SkipNoMatch(l, 0, 10 + n);
    ClockTextFound(l, 10 + n, a);
    forall k | 15 + n <= k < 20 + n ensures MatchLength(l, k) == 0 { }
    SkipNoMatch(l, 15 + n, 20 + n);
    ClockTextFound(l, 20 + n, b);
    assert FindClockTimes(l, 25 + n) == [];
  }

  /** A clock text at `p` is taken whole by the scan. */
  lemma ClockTextFound(l: string, p: nat, c: string)
    requires p + 5 <= |l| && l[p..p + 5] == c && IsClockText(c)
    ensures FindClockTimes(l, p) == [c] + FindClockTimes(l, p + 5)
  {
    assert forall k :: 0 <= k < 5 ==> l[p + k] == c[k];
    assert MatchLength(l, p) == 5;
  }

  /** Nothing matches in "Período N: ". */
  lemma LabelNoMatch(l: string, n: nat, a: string, b: string)
    requires LineShape(l, n, a, b)
    ensures forall k :: 0 <= k < 10 + n ==> MatchLength(l, k) == 0
  {
    forall k | 0 <= k < 10 + n ensures MatchLength(l, k) == 0 {
      if 8 <= k < 8 + n {
        if k + 1 < 8 + n {
          assert l[k + 1] != ':';
          assert k + 2 == 8 + n ==> !IsDigit(l[k + 3]);
          assert k + 2 < 8 + n ==> l[k + 2] != ':';
        } else {
          assert !IsDigit(l[k + 2]);
        }
      }
    }
  }

  /** A needle whose first character occurs in `hay` only at position 0,
      and does not occur there, does not occur at all. */
  lemma NotInfix(needle: string, hay: string)
    requires |needle| > 0
    requires forall k :: 0 < k < |hay| ==> hay[k] != needle[0]
    requires !InfixAt(needle, hay, 0)
    ensures !IsInfix(needle, hay)
  {
    forall i: nat ensures !InfixAt(needle, hay, i) {
      if 0 < i && i + |needle| <= |hay| {
        assert hay[i..i + |needle|][0] == hay[i];
      }
    }
  }

  lemma PeriodLineRead(number: nat, p: Period)
    ensures LinePair(PeriodLine(number, p) + "\n") == Some((ClockText(p.start), ClockText(p.end)))
  {
    var l := PeriodLine(number, p);
    PeriodLineLayout(number, p);
    StripTerminatedLine(l);
    assert !InfixAt("Períodos", l, 0) by {
      assert l[..8][7] == ' ';
    }
    NotInfix("Períodos", l);
    PeriodLineTimes(number, p);
  }

  lemma WrittenLinesHaveNoNewline(pessoaId: nat, ps: seq<Period>)
    ensures var ls := [HeaderLine(pessoaId), RuleLine()] + PeriodLines(ps);
            forall i :: 0 <= i < |ls| ==> '\n' !in ls[i] && '\r' !in ls[i]
  {
    var ls := [HeaderLine(pessoaId), RuleLine()] + PeriodLines(ps);
    forall i | 0 <= i < |ls| ensures '\n' !in ls[i] && '\r' !in ls[i] {
      if i >= 2 {
        assert ls[i] == PeriodLine(i - 1, ps[i - 2]);
        PeriodLineNoNewline(i - 1, ps[i - 2]);
      } else if i == 0 {
        HeaderNoNewline(pessoaId);
      }
    }
  }

  lemma HeaderNoNewline(pessoaId: nat)
    ensures '\n' !in HeaderLine(pessoaId) && '\r' !in HeaderLine(pessoaId)
  {
    var h := HeaderLine(pessoaId);
    var d := NatToString(pessoaId);
    assert forall k :: 26 <= k < |h| ==> h[k] == d[k - 26];
  }

  lemma PeriodLineNoNewline(number: nat, p: Period)
    ensures '\n' !in PeriodLine(number, p) && '\r' !in PeriodLine(number, p)
  {
    PeriodLineLayout(number, p);
  }

  /** Reading back a written periods file gives, for every period in order,
      its start and end clock times. */
  lemma ReadBackWritten(pessoaId: nat, ps: seq<Period>)
    ensures PairsOf(ReadLines(PeriodsFileText(pessoaId, ps))) == ClockPairs(ps)
  {
    var ls := [HeaderLine(pessoaId), RuleLine()] + PeriodLines(ps);
    WrittenLinesHaveNoNewline(pessoaId, ps);
    TerminatedNoCarriageReturn(ls);
    NoCarriageReturnRead(PeriodsFileText(pessoaId, ps));
    LinesOfTerminated(ls);
    var lines := Newlined(ls);
    WrittenBody(pessoaId, ps);
    BodyRead(ps, lines[2..], 1);
    WrittenHead(pessoaId, ps);
    SkipTwo(lines, ClockPairs(ps));
  }

  /** The title and the rule are the first two lines read back, and neither
      holds a pair. */
  lemma WrittenHead(pessoaId: nat, ps: seq<Period>)
    ensures var lines := Newlined([HeaderLine(pessoaId), RuleLine()] + PeriodLines(ps));
            |lines| >= 2 && LinePair(lines[0]).None? && LinePair(lines[1]).None?
  {
    var lines := Newlined([HeaderLine(pessoaId), RuleLine()] + PeriodLines(ps));
    assert lines[0] == HeaderLine(pessoaId) + "\n" && lines[1] == RuleLine() + "\n";
    HeaderSkipped(pessoaId);
    RuleSkipped();
  }

  /** Two leading lines without a pair add nothing to what is read. */
  lemma SkipTwo(lines: seq<string>, pairs: seq<(string, string)>)
    requires |lines| >= 2 && LinePair(lines[0]).None? && LinePair(lines[1]).None?
    requires PairsOf(lines[2..]) == pairs
    ensures PairsOf(lines) == pairs
  {
    assert lines[1..][0] == lines[1] && lines[1..][1..] == lines[2..];
  }

  /** After the title and the rule come the numbered period lines. */
  lemma WrittenBody(pessoaId: nat, ps: seq<Period>)
    ensures var lines := Newlined([HeaderLine(pessoaId), RuleLine()] + PeriodLines(ps));
            |lines| >= 2 && NumberedLines(lines[2..], ps, 1)
  {
    var ls := [HeaderLine(pessoaId), RuleLine()] + PeriodLines(ps);
    var lines := Newlined(ls);
    forall i | 0 <= i < |ps| ensures lines[2..][i] == PeriodLine(1 + i, ps[i]) + "\n" {
      assert lines[2..][i] == ls[i + 2] + "\n";
      assert ls[i + 2] == PeriodLines(ps)[i];
    }
  }

  /** `body` holds the period lines of `ps`, numbered from `first`, each
      ended by a newline. */
  predicate NumberedLines(body: seq<string>, ps: seq<Period>, first: nat)
  {
    |body| == |ps| && forall i :: 0 <= i < |ps| ==> body[i] == PeriodLine(first + i, ps[i]) + "\n"
  }

  /** The (start, end) clock texts of each period, in order. */
  function ClockPairs(ps: seq<Period>): (pairs: seq<(string, string)>)
    ensures |pairs| == |ps|
  {
    seq(|ps|, i requires 0 <= i < |ps| => (ClockText(ps[i].start), ClockText(ps[i].end)))
  }

  lemma ClockPairsCons(ps: seq<Period>)
    requires |ps| > 0
    ensures ClockPairs(ps)[0] == (ClockText(ps[0].start), ClockText(ps[0].end))
    ensures ClockPairs(ps)[1..] == ClockPairs(ps[1..])
  {
  }

  /** Numbered period lines read back as the clock texts of their periods. */
  lemma {:induction false} BodyRead(ps: seq<Period>, body: seq<string>, first: nat)
    requires NumberedLines(body, ps, first)
    ensures PairsOf(body) == ClockPairs(ps)
    decreases |ps|
  {
    if |ps| > 0 {
      PeriodLineRead(first, ps[0]);
      assert NumberedLines(body[1..], ps[1..], first + 1) by {
        forall i | 0 <= i < |ps| - 1
          ensures body[1..][i] == PeriodLine(first + 1 + i, ps[1..][i]) + "\n"
        {
          assert body[1..][i] == body[i + 1];
        }
      }
      BodyRead(ps[1..], body[1..], first + 1);
      ClockPairsCons(ps);
      assert PairsOf(body) == Found(body[0]) + PairsOf(body[1..]);
      assert ClockPairs(ps) == [ClockPairs(ps)[0]] + ClockPairs(ps)[1..];
    }
  }
}
