/** Locating the time and axis columns of a downsampled accelerometer CSV by
    their names, case-insensitively, and exporting a clean table with the
    columns time, x, y, z: once for one participant (exiting with status 1
    when it cannot), and in a batch over participants 11..38 with success
    and failure counters. A CSV's header is given as its list of column
    names; whether the input file exists is given as a flag. */
module ColumnDetection {
  import opened Text
  import opened Runs

  // ---------------------------------------------------------------------
  // First match of a test over the columns
  // ---------------------------------------------------------------------

  // The first column passing a test is `Runs.FirstIndex`.

  /** `for c in cols: if p(c): return c`, falling through with `None`. */
  function Scan(cols: seq<string>, p: string -> bool): (r: Option<string>)
    ensures r.None? <==> forall j :: 0 <= j < |cols| ==> !p(cols[j])
    ensures r.Some? ==> exists i :: 0 <= i < |cols| && cols[i] == r.value && p(cols[i]) &&
                                    forall j :: 0 <= j < i ==> !p(cols[j])
  {
    var i := FirstIndex(cols, p);
    if i < |cols| then Some(cols[i]) else None
  }

  // ---------------------------------------------------------------------
  // find_time_column
  // ---------------------------------------------------------------------

  /** `'time' in c.lower() or 'timestamp' in c.lower()`. */
  predicate IsTimeName(c: string)
  {
    Contains(Lower(c), "time") || Contains(Lower(c), "timestamp")
  }

  /** The second test never adds anything: a name holding "timestamp" holds
      "time". */
  lemma TimestampHoldsTime(s: string)
    ensures Contains(s, "timestamp") ==> Contains(s, "time")
  {
    if Contains(s, "timestamp") {
      var i: nat :| InfixAt("timestamp", s, i);
      assert s[i..i + 4] == s[i..i + 9][..4];
      assert InfixAt("time", s, i);
    }
  }

  /** `find_time_column`: the first column whose name holds "time" in any
      case, else the first column. A CSV header always has a column. */
  function FindTimeColumn(cols: seq<string>): (c: string)
    requires |cols| > 0
    ensures exists i :: 0 <= i < |cols| && cols[i] == c &&
              (forall j :: 0 <= j < i ==> !Contains(Lower(cols[j]), "time")) &&
              (Contains(Lower(c), "time") || (i == 0 && forall j :: 0 <= j < |cols| ==> !Contains(Lower(cols[j]), "time")))
  {
    forall c | true ensures IsTimeName(c) <==> Contains(Lower(c), "time") {
      TimestampHoldsTime(Lower(c));
    }
    var i := FirstIndex(cols, IsTimeName);
    if i < |cols| then cols[i] else cols[0]
  }

  // ---------------------------------------------------------------------
  // find_axis_column
  // ---------------------------------------------------------------------

  /** Pass 1: the lower-cased name is the axis. */
  predicate Exact(a: string, c: string) { Lower(c) == a }

  /** Pass 2: the lower-cased name ends with `_axis` or starts with `axis_`. */
  predicate Affix(a: string, c: string) { EndsWith(Lower(c), "_" + a) || StartsWith(Lower(c), a + "_") }

  /** Pass 3: the axis is a whole space-delimited word of the name. */
  predicate Token(a: string, c: string) { Contains(" " + Lower(c) + " ", " " + a + " ") }

  /** Pass 4: a one-letter name equal to the axis. */
  predicate Single(a: string, c: string) { |c| == 1 && Lower(c) == a }

  /** `find_axis_column`: the four passes in order, each returning the
      earliest column it accepts. */
  function FindAxisColumn(cols: seq<string>, axis: string): (r: Option<string>)
    ensures r.Some? ==> r.value in cols
  {
    var a := Lower(axis);
    var exact := Scan(cols, c => Exact(a, c));
    if exact.Some? then exact
    else
      var affix := Scan(cols, c => Affix(a, c));
      if affix.Some? then affix
      else
        var token := Scan(cols, c => Token(a, c));
        if token.Some? then token
        else Scan(cols, c => Single(a, c))
  }

  /** An exact case-insensitive match wins over every other rule: the
      earliest such column is returned. */
  lemma ExactMatchWins(cols: seq<string>, axis: string, i: nat)
    requires i < |cols| && Lower(cols[i]) == Lower(axis)
    requires forall j :: 0 <= j < i ==> Lower(cols[j]) != Lower(axis)
    ensures FindAxisColumn(cols, axis) == Some(cols[i])
  {
    var a := Lower(axis);
    var k := FirstIndex(cols, c => Exact(a, c));
    assert k == i;
  }

  /** The fourth pass never decides anything: a one-letter name equal to the
      axis was already taken by the first pass, so the result is that of the
      first three passes alone. */
  lemma FourthPassRedundant(cols: seq<string>, axis: string)
    ensures var a := Lower(axis);
            FindAxisColumn(cols, axis) ==
              if Scan(cols, c => Exact(a, c)).Some? then Scan(cols, c => Exact(a, c))
              else if Scan(cols, c => Affix(a, c)).Some? then Scan(cols, c => Affix(a, c))
              else Scan(cols, c => Token(a, c))
  {
    var a := Lower(axis);
    if Scan(cols, c => Exact(a, c)).None? {
      forall j | 0 <= j < |cols| ensures !Single(a, cols[j]) {
        assert !Exact(a, cols[j]);
      }
    }
  }

  /** With a non-empty axis, a column found is never the empty name, so
      Python's truth test on it is the test for `None`. */
  lemma FoundNameNonEmpty(cols: seq<string>, axis: string)
    requires |axis| > 0
    ensures FindAxisColumn(cols, axis).Some? ==> |FindAxisColumn(cols, axis).value| > 0
  {
    var a := Lower(axis);
    var r := FindAxisColumn(cols, axis);
    if r.Some? {
      var v := r.value;
      PassNeedsName(a, v);
      FourthPassRedundant(cols, axis);
      if Scan(cols, c => Exact(a, c)).Some? {
        var i :| 0 <= i < |cols| && cols[i] == v && Exact(a, cols[i]);
      } else if Scan(cols, c => Affix(a, c)).Some? {
        var i :| 0 <= i < |cols| && cols[i] == v && Affix(a, cols[i]);
      } else {
        var i :| 0 <= i < |cols| && cols[i] == v && Token(a, cols[i]);
      }
    }
  }

  /** The empty name passes none of the four tests. */
  lemma PassNeedsName(a: string, c: string)
    requires |a| > 0
    ensures (Exact(a, c) || Affix(a, c) || Token(a, c) || Single(a, c)) ==> |c| > 0
  {
    if |c| == 0 {
      var e := Lower(c);
      assert |e| == 0;
      forall k: nat ensures !InfixAt(" " + a + " ", " " + e + " ", k) {
      }
    }
  }

  // ---------------------------------------------------------------------
  // The clean export
  // ---------------------------------------------------------------------

  /** Python's truth value of a found column name. */
  predicate Truthy(o: Option<string>)
  {
    o.Some? && |o.value| > 0
  }

  /** `not (x_col and y_col and z_col)` fails, so the four source columns
      `[time_col, x_col, y_col, z_col]` are selected. */
  function SelectColumns(cols: seq<string>): (r: Option<seq<string>>)
    requires |cols| > 0
    ensures r.Some? ==> |r.value| == 4 && forall k :: 0 <= k < 4 ==> r.value[k] in cols
    ensures r.Some? ==> FindAxisColumn(cols, "x").Some? && FindAxisColumn(cols, "y").Some? &&
                        FindAxisColumn(cols, "z").Some? &&
                        r.value == [FindTimeColumn(cols), FindAxisColumn(cols, "x").value,
                                    FindAxisColumn(cols, "y").value, FindAxisColumn(cols, "z").value]
  {
    var t := FindTimeColumn(cols);
    var x, y, z := FindAxisColumn(cols, "x"), FindAxisColumn(cols, "y"), FindAxisColumn(cols, "z");
    if !(Truthy(x) && Truthy(y) && Truthy(z)) then None
    else Some([t, x.value, y.value, z.value])
  }

  /** The export goes ahead exactly when all three axes are found. */
  lemma SelectColumnsIffAxes(cols: seq<string>)
    requires |cols| > 0
    ensures SelectColumns(cols).Some? <==>
              FindAxisColumn(cols, "x").Some? && FindAxisColumn(cols, "y").Some? && FindAxisColumn(cols, "z").Some?
  {
    FoundNameNonEmpty(cols, "x");
    FoundNameNonEmpty(cols, "y");
    FoundNameNonEmpty(cols, "z");
  }

  /** The header of every clean table. */
  function CleanHeader(): seq<string> { ["time", "x", "y", "z"] }

  /** What the single-participant export ends in. */
  datatype Export = Exit(code: int) | Written(source: seq<string>, header: seq<string>)

  /** `main` of the single-participant export. It exits with status 1 when
      the input is missing or an axis is not found, and also when the input
      has no header line: `pd.read_csv` then raises outside any `try`, and
      the uncaught exception ends the interpreter with status 1. Otherwise
      the detected time column and x, y, z columns are written under the
      header time, x, y, z. `cols` is the input's header, empty when the
      file has none. */
  function ViewMain(inputExists: bool, cols: seq<string>): (e: Export)
    ensures e.Exit? ==> e.code == 1
    ensures e.Exit? <==> (!inputExists || |cols| == 0 ||
              FindAxisColumn(cols, "x").None? || FindAxisColumn(cols, "y").None? || FindAxisColumn(cols, "z").None?)
    ensures e.Written? ==>
              && |cols| > 0 && e.header == CleanHeader()
              && FindAxisColumn(cols, "x").Some? && FindAxisColumn(cols, "y").Some? && FindAxisColumn(cols, "z").Some?
              && e.source == [FindTimeColumn(cols), FindAxisColumn(cols, "x").value,
                              FindAxisColumn(cols, "y").value, FindAxisColumn(cols, "z").value]
  {
    if !inputExists || |cols| == 0 then Exit(1)
    else
      SelectColumnsIffAxes(cols);
      match SelectColumns(cols)
      case None => Exit(1)
      case Some(source) => Written(source, CleanHeader())
  }

  /** `process_id` of the batch export: `False` when the input is missing or
      an axis is not found, `True` once the clean table is written, and
      `None` when the input has no header line, on which `pd.read_csv`
      raises out of `process_id`. */
  function ProcessId(inputExists: bool, cols: seq<string>): (r: Option<bool>)
    ensures r.None? <==> inputExists && |cols| == 0
    ensures r == Some(true) <==> (inputExists && |cols| > 0 &&
              FindAxisColumn(cols, "x").Some? && FindAxisColumn(cols, "y").Some? && FindAxisColumn(cols, "z").Some?)
  {
    if !inputExists then Some(false)
    else if |cols| == 0 then None
    else
      SelectColumnsIffAxes(cols);
      Some(SelectColumns(cols).Some?)
  }

  /** `process_id` returns `True`, given the header of the participant's
      input (`None` when the file is missing). */
  predicate Exported(header: Option<seq<string>>)
  {
    ProcessId(header.Some?, if header.Some? then header.value else []) == Some(true)
  }

  /** `process_id` raises: the participant's input exists but has no header
      line. */
  predicate Unreadable(header: Option<seq<string>>)
  {
    ProcessId(header.Some?, if header.Some? then header.value else []).None?
  }

  /** `main` of the batch export: participants 11..38 are tried in order.
      The loop has no `try`, so the first participant whose input has no
      header line ends the run with `pd.read_csv`'s exception; otherwise
      the successes count the participants whose clean table was written. */
  method ExportAllMain(headers: int -> Option<seq<string>>) returns (end: RunEnd)
    ensures var ids, k := DownsampledIds(), FirstIndex(DownsampledIds(), id => Unreadable(headers(id)));
            && (k < 28 ==> end == Raised(ids[k]) && headers(ids[k]) == Some([]))
            && (k == 28 ==>
                  && end.Completed? && end.sucessos + end.erros == 28
                  && end.sucessos == CountPassing(ids, id => Exported(headers(id))))
  {
    end := CountOutcomesOrRaise(DownsampledIds(), id => Exported(headers(id)), id => Unreadable(headers(id)));
  }
}
