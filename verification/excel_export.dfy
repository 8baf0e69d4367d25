/** The Excel-friendly rewrite of the clean tables: the columns time, x, y, z
    that are present are kept in that order, each x/y/z value is formatted
    with six decimals and its '.' turned into ',', and the time column is
    turned into text. The batch run takes the clean files in sorted order and
    names each output after the person id at the end of the file name.
    Number formatting (`'{:.6f}'`) and `astype(str)` are given as functions. */
module ExcelExport {
  import opened Text

  // ---------------------------------------------------------------------
  // Column selection
  // ---------------------------------------------------------------------

  /** The output columns, in output order. */
  const EXPECTED: seq<string> := ["time", "x", "y", "z"]

  /** The columns of `wanted` that `cols` has, in the order of `wanted`. */
  function Present(wanted: seq<string>, cols: seq<string>): (r: seq<string>)
    ensures forall c :: c in r <==> c in wanted && c in cols
    ensures |r| <= |wanted|
  {
    if |wanted| == 0 then []
    else (if wanted[0] in cols then [wanted[0]] else []) + Present(wanted[1..], cols)
  }

  /** `[c for c in expected if c in cols]`. */
  function SelectExpected(cols: seq<string>): (r: seq<string>)
    ensures forall c :: c in r <==> c in EXPECTED && c in cols
  {
    Present(EXPECTED, cols)
  }

  /** `r` is `s` with some elements left out and the others kept in order. */
  predicate SubsequenceOf(r: seq<string>, s: seq<string>)
    decreases |s|
  {
    |r| == 0 ||
    (|s| > 0 && if r[0] == s[0] then SubsequenceOf(r[1..], s[1..]) else SubsequenceOf(r, s[1..]))
  }

  /** No name occurs twice. */
  predicate Distinct(s: seq<string>)
  {
    forall i, j :: 0 <= i < j < |s| ==> s[i] != s[j]
  }

  /** Kept columns appear in the order of `wanted`. */
  lemma {:induction false} PresentOrdered(wanted: seq<string>, cols: seq<string>)
    ensures SubsequenceOf(Present(wanted, cols), wanted)
    decreases |wanted|
  {
    if |wanted| > 0 {
      var r, rt := Present(wanted, cols), Present(wanted[1..], cols);
      PresentOrdered(wanted[1..], cols);
      if wanted[0] in cols {
        assert r[0] == wanted[0] && r[1..] == rt;
      } else {
        assert r == rt;
        if |r| > 0 {
          assert r[0] in r;
          assert r[0] != wanted[0];
        }
      }
    }
  }

  /** Kept columns of a list without repetitions are kept once each. */
  lemma {:induction false} PresentDistinct(wanted: seq<string>, cols: seq<string>)
    requires Distinct(wanted)
    ensures Distinct(Present(wanted, cols))
    decreases |wanted|
  {
    if |wanted| > 0 {
      var tail := wanted[1..];
      var r, rt := Present(wanted, cols), Present(tail, cols);
      assert Distinct(tail) by {
        forall i, j | 0 <= i < j < |tail| ensures tail[i] != tail[j] {
          assert tail[i] == wanted[i + 1] && tail[j] == wanted[j + 1];
        }
      }
      PresentDistinct(tail, cols);
      if wanted[0] in cols {
        assert wanted[0] !in tail by {
          forall k | 0 <= k < |tail| ensures tail[k] != wanted[0] { assert tail[k] == wanted[k + 1]; }
        }
        DistinctCons(wanted[0], rt);
        assert r == [wanted[0]] + rt;
      } else {
        assert r == rt;
      }
    }
  }

  /** A name put in front of a list without it and without repetitions. */
  lemma DistinctCons(c: string, s: seq<string>)
    requires Distinct(s) && c !in s
    ensures Distinct([c] + s)
  {
    var r := [c] + s;
    forall i, j | 0 <= i < j < |r| ensures r[i] != r[j] {
      assert r[j] == s[j - 1];
      if i > 0 { assert r[i] == s[i - 1]; }
    }
  }

  /** The selected columns appear in the order time, x, y, z, each once. */
  lemma SelectExpectedOrdered(cols: seq<string>)
    ensures SubsequenceOf(SelectExpected(cols), EXPECTED)
    ensures Distinct(SelectExpected(cols))
  {
    assert Distinct(EXPECTED) by {
      assert EXPECTED[0] == "time" && EXPECTED[1] == "x" && EXPECTED[2] == "y" && EXPECTED[3] == "z";
    }
    PresentOrdered(EXPECTED, cols);
    PresentDistinct(EXPECTED, cols);
  }

  // ---------------------------------------------------------------------
  // The decimal-comma rewrite
  // ---------------------------------------------------------------------

  /** `s.replace('.', ',')`. */
  function DecimalComma(s: string): (r: string)
    decreases |s|
  {
    if |s| == 0 then [] else [if s[0] == '.' then ',' else s[0]] + DecimalComma(s[1..])
  }

  /** Every '.' becomes ',' and every other character is kept in place, so
      the length is unchanged and no '.' remains. */
  lemma {:induction false} DecimalCommaSpec(s: string)
    ensures |DecimalComma(s)| == |s|
    ensures forall i :: 0 <= i < |s| ==> DecimalComma(s)[i] == (if s[i] == '.' then ',' else s[i])
    ensures '.' !in DecimalComma(s)
    decreases |s|
  {
    if |s| > 0 {
      DecimalCommaSpec(s[1..]);
    }
  }

  /** `s.replace(',', '.')`: the reading back of a decimal comma. */
  function DecimalPoint(s: string): (r: string)
    decreases |s|
  {
    if |s| == 0 then [] else [if s[0] == ',' then '.' else s[0]] + DecimalPoint(s[1..])
  }

  /** Formatted numbers hold no ',', so the rewrite loses nothing: turning
      the commas back into points restores the formatted text. */
  lemma {:induction false} DecimalCommaRoundTrip(s: string)
    requires ',' !in s
    ensures DecimalPoint(DecimalComma(s)) == s
    decreases |s|
  {
    if |s| > 0 {
      assert ',' !in s[1..] by {
        forall k | 0 <= k < |s| - 1 ensures s[1..][k] != ',' { assert s[1..][k] == s[k + 1]; }
      }
      DecimalCommaRoundTrip(s[1..]);
    }
  }

  // ---------------------------------------------------------------------
  // Cells and columns
  // ---------------------------------------------------------------------

  /** A cell as read from a clean CSV: a number, or text. */
  datatype Cell = Num(v: real) | Str(s: string)

  /** One formatted x/y/z value; `'{:.6f}'.format` raises on text. */
  function FormatCell(c: Cell, fmt: real -> string): Option<Cell>
  {
    match c
    case Num(v) => Some(Str(DecimalComma(fmt(v))))
    case Str(_) => None
  }

  /** `df[c].map(...)` for an x/y/z column: `None` when some cell raises. */
  function RewriteCells(cells: seq<Cell>, fmt: real -> string): (r: Option<seq<Cell>>)
    decreases |cells|
  {
    if |cells| == 0 then Some([])
    else
      match FormatCell(cells[0], fmt)
      case None => None
      case Some(h) =>
        match RewriteCells(cells[1..], fmt)
        case None => None
        case Some(t) => Some([h] + t)
  }

  /** A column is rewritten exactly when all its cells are numbers; then it
      keeps its length and holds, at each row, the formatted number of that
      row with a decimal comma. */
  lemma {:induction false} RewriteCellsSpec(cells: seq<Cell>, fmt: real -> string)
    ensures RewriteCells(cells, fmt).Some? <==> forall i :: 0 <= i < |cells| ==> cells[i].Num?
    ensures RewriteCells(cells, fmt).Some? ==>
              var r := RewriteCells(cells, fmt).value;
              |r| == |cells| &&
              forall i :: 0 <= i < |cells| ==> r[i] == Str(DecimalComma(fmt(cells[i].v)))
    decreases |cells|
  {
    if |cells| > 0 {
      RewriteCellsSpec(cells[1..], fmt);
      assert forall i :: 1 <= i < |cells| ==> cells[1..][i - 1] == cells[i];
    }
  }

  /** `df['time'].astype(str)`. */
  function TimeCells(cells: seq<Cell>, show: Cell -> string): (r: seq<Cell>)
    ensures |r| == |cells|
  {
    seq(|cells|, i requires 0 <= i < |cells| => Str(show(cells[i])))
  }

  /** A table's columns all have a cell sequence. */
  predicate Complete(cols: seq<string>, data: map<string, seq<Cell>>)
  {
    forall c :: c in cols ==> c in data
  }

  /** The rewrite of axis `a` when the table has it. */
  function RewriteAxis(data: map<string, seq<Cell>>, a: string, fmt: real -> string): Option<map<string, seq<Cell>>>
  {
    if a !in data then Some(data)
    else
      match RewriteCells(data[a], fmt)
      case None => None
      case Some(cells) => Some(data[a := cells])
  }

  /** The x, y and z columns rewritten in turn: `None` as soon as one
      rewrite raises. */
  function RewriteXYZ(d: map<string, seq<Cell>>, fmt: real -> string): Option<map<string, seq<Cell>>>
  {
    match RewriteAxis(d, "x", fmt)
    case None => None
    case Some(dx) =>
      match RewriteAxis(dx, "y", fmt)
      case None => None
      case Some(dy) => RewriteAxis(dy, "z", fmt)
  }

  /** What `convert_file` writes for a table with columns `cols`: `None`
      when a formatting raises. */
  function Converted(cols: seq<string>, data: map<string, seq<Cell>>, fmt: real -> string, show: Cell -> string)
    : Option<map<string, seq<Cell>>>
    requires Complete(cols, data)
  {
    var kept := map c | c in SelectExpected(cols) :: data[c];
    match RewriteXYZ(kept, fmt)
    case None => None
    case Some(dz) => Some(if "time" in dz then dz["time" := TimeCells(dz["time"], show)] else dz)
  }

  /** Whether every cell of the present axis `a` is a number. */
  predicate AxisNumeric(cols: seq<string>, data: map<string, seq<Cell>>, a: string)
    requires Complete(cols, data)
  {
    a in cols ==> forall i :: 0 <= i < |data[a]| ==> data[a][i].Num?
  }

  /** Rewriting one axis keeps the keys and every column's length, and
      leaves the other columns alone; it fails exactly when the axis is
      present and not numeric. */
  lemma RewriteAxisSpec(d: map<string, seq<Cell>>, a: string, fmt: real -> string)
    ensures RewriteAxis(d, a, fmt).Some? <==> (a in d ==> forall i :: 0 <= i < |d[a]| ==> d[a][i].Num?)
    ensures RewriteAxis(d, a, fmt).Some? ==>
              var r := RewriteAxis(d, a, fmt).value;
              && (forall c :: c in r <==> c in d)
              && (forall c :: c in d ==> |r[c]| == |d[c]|)
              && (forall c :: c in d && c != a ==> r[c] == d[c])
  {
    if a in d {
      RewriteCellsSpec(d[a], fmt);
    }
  }

  /** The conversion succeeds exactly when the x, y and z columns present are
      numeric. */
  lemma ConvertedIffNumeric(cols: seq<string>, data: map<string, seq<Cell>>, fmt: real -> string, show: Cell -> string)
    requires Complete(cols, data)
    ensures Converted(cols, data, fmt, show).Some? <==>
              AxisNumeric(cols, data, "x") && AxisNumeric(cols, data, "y") && AxisNumeric(cols, data, "z")
  {
    var kept := map c | c in SelectExpected(cols) :: data[c];
    KeptAxis(cols, data, kept, "x");
    KeptAxis(cols, data, kept, "y");
    KeptAxis(cols, data, kept, "z");
    RewriteXYZIff(kept, fmt);
  }

  /** Every cell of axis `a`, when the table has it, is a number. */
  predicate NumericIn(d: map<string, seq<Cell>>, a: string)
  {
    a in d ==> forall i :: 0 <= i < |d[a]| ==> d[a][i].Num?
  }

  /** An axis is numeric among the kept columns exactly when it is numeric
      in the table. */
  lemma KeptAxis(cols: seq<string>, data: map<string, seq<Cell>>, kept: map<string, seq<Cell>>, a: string)
    requires Complete(cols, data) && a in EXPECTED
    requires kept == map c | c in SelectExpected(cols) :: data[c]
    ensures NumericIn(kept, a) <==> AxisNumeric(cols, data, a)
  {
    assert a in kept <==> a in cols;
  }

  /** The three rewrites succeed exactly when the x, y and z columns present
      are numeric. */
  lemma RewriteXYZIff(d: map<string, seq<Cell>>, fmt: real -> string)
    ensures RewriteXYZ(d, fmt).Some? <==> NumericIn(d, "x") && NumericIn(d, "y") && NumericIn(d, "z")
  {
    RewriteAxisSpec(d, "x", fmt);
    if RewriteAxis(d, "x", fmt).Some? {
      var dx := RewriteAxis(d, "x", fmt).value;
      RewriteAxisSpec(dx, "y", fmt);
      assert NumericIn(dx, "y") <==> NumericIn(d, "y");
      assert NumericIn(dx, "z") <==> NumericIn(d, "z");
      if RewriteAxis(dx, "y", fmt).Some? {
        var dy := RewriteAxis(dx, "y", fmt).value;
        RewriteAxisSpec(dy, "z", fmt);
        assert NumericIn(dy, "z") <==> NumericIn(dx, "z");
      }
    }
  }

  /** A converted table keeps exactly the selected columns, each with its
      row count, and its time cells are the text of the original cells. */
  lemma ConvertedShape(cols: seq<string>, data: map<string, seq<Cell>>, fmt: real -> string, show: Cell -> string)
    requires Complete(cols, data)
    requires Converted(cols, data, fmt, show).Some?
    ensures var m := Converted(cols, data, fmt, show).value;
            && (forall c :: c in m <==> c in SelectExpected(cols))
            && (forall c :: c in m ==> |m[c]| == |data[c]|)
            && ("time" in m ==> m["time"] == TimeCells(data["time"], show))
  {
    var kept := map c | c in SelectExpected(cols) :: data[c];
    RewriteXYZShape(kept, fmt);
  }

  /** The three rewrites keep the keys and every column's length, and leave
      the time column alone. */
  lemma RewriteXYZShape(d: map<string, seq<Cell>>, fmt: real -> string)
    requires RewriteXYZ(d, fmt).Some?
    ensures var r := RewriteXYZ(d, fmt).value;
            && (forall c :: c in r <==> c in d)
            && (forall c :: c in d ==> |r[c]| == |d[c]|)
            && ("time" in d ==> r["time"] == d["time"])
  {
    RewriteAxisSpec(d, "x", fmt);
    var dx := RewriteAxis(d, "x", fmt).value;
    RewriteAxisSpec(dx, "y", fmt);
    var dy := RewriteAxis(dx, "y", fmt).value;
    RewriteAxisSpec(dy, "z", fmt);
  }

  /** In a converted table, each cell of a present axis is the formatted
      number of that row with a decimal comma. */
  lemma ConvertedAxis(cols: seq<string>, data: map<string, seq<Cell>>, fmt: real -> string, show: Cell -> string,
                      a: string)
    requires Complete(cols, data)
    requires a == "x" || a == "y" || a == "z"
    requires a in cols && Converted(cols, data, fmt, show).Some?
    ensures var m := Converted(cols, data, fmt, show).value;
            a in m && |m[a]| == |data[a]| &&
            forall i :: 0 <= i < |m[a]| ==> data[a][i].Num? && m[a][i] == Str(DecimalComma(fmt(data[a][i].v)))
  {
    var kept := map c | c in SelectExpected(cols) :: data[c];
    assert a in kept && kept[a] == data[a];
    RewriteXYZAxis(kept, fmt, a);
    RewriteCellsSpec(data[a], fmt);
  }

  /** After the three rewrites, a present axis holds its rewritten cells. */
  lemma RewriteXYZAxis(d: map<string, seq<Cell>>, fmt: real -> string, a: string)
    requires a == "x" || a == "y" || a == "z"
    requires a in d && RewriteXYZ(d, fmt).Some?
    ensures RewriteCells(d[a], fmt).Some?
    ensures a in RewriteXYZ(d, fmt).value && RewriteXYZ(d, fmt).value[a] == RewriteCells(d[a], fmt).value
  {
    RewriteAxisSpec(d, "x", fmt);
    var dx := RewriteAxis(d, "x", fmt).value;
    RewriteAxisSpec(dx, "y", fmt);
    var dy := RewriteAxis(dx, "y", fmt).value;
    RewriteAxisSpec(dy, "z", fmt);
    var dz := RewriteAxis(dy, "z", fmt).value;
    if a == "x" {
      assert dx[a] == RewriteCells(d[a], fmt).value;
    } else if a == "y" {
      assert dx[a] == d[a];
    } else {
      assert dy[a] == d[a];
    }
  }

  /** A clean CSV loaded as a frame: its column names in order and the cells
      of each column. */
  class Frame {
    var columns: seq<string>
    var data: map<string, seq<Cell>>

    constructor(columns: seq<string>, data: map<string, seq<Cell>>)
      ensures this.columns == columns && this.data == data
    {
      this.columns := columns;
      this.data := data;
    }

    /** `df = df[[c for c in expected if c in cols]]`. */
    method Select()
      requires Complete(columns, data)
      modifies this
      ensures columns == SelectExpected(old(columns))
      ensures data == map c | c in columns :: old(data)[c]
      ensures Complete(columns, data)
    {
      var sel := SelectExpected(columns);
      data := map c | c in sel :: data[c];
      columns := sel;
    }

    /** `if a in df.columns: df[a] = df[a].map(...)`; `false` when a
        formatting raises, leaving the frame as it was. */
    method FormatAxis(a: string, fmt: real -> string) returns (ok: bool)
      modifies this
      ensures ok <==> RewriteAxis(old(data), a, fmt).Some?
      ensures data == (if ok then RewriteAxis(old(data), a, fmt).value else old(data))
      ensures columns == old(columns)
    {
      if a in data {
        var cells := RewriteCells(data[a], fmt);
        if cells.None? {
          return false;
        }
        data := data[a := cells.value];
      }
      ok := true;
    }

    /** `if 'time' in df.columns: df['time'] = df['time'].astype(str)`. */
    method TimeAsText(show: Cell -> string)
      modifies this
      ensures data == if "time" in old(data) then old(data)["time" := TimeCells(old(data)["time"], show)] else old(data)
      ensures columns == old(columns)
    {
      if "time" in data {
        data := data["time" := TimeCells(data["time"], show)];
      }
    }
  }

  /** `convert_file` on a loaded frame, up to the write: `true` with the
      frame holding the Excel table, `false` when a formatting raised. */
  method ConvertFile(f: Frame, fmt: real -> string, show: Cell -> string) returns (ok: bool)
    requires Complete(f.columns, f.data)
    modifies f
    ensures ok <==> Converted(old(f.columns), old(f.data), fmt, show).Some?
    ensures f.columns == SelectExpected(old(f.columns))
    ensures ok ==> f.data == Converted(old(f.columns), old(f.data), fmt, show).value
  {
    f.Select();
    ok := f.FormatAxis("x", fmt);
    if !ok { return; }
    ok := f.FormatAxis("y", fmt);
    if !ok { return; }
    ok := f.FormatAxis("z", fmt);
    if !ok { return; }
    f.TimeAsText(show);
  }

  // ---------------------------------------------------------------------
  // File names and the batch run
  // ---------------------------------------------------------------------

  /** `stem.split('_')[-1]`. */
  function PersonId(stem: string): (pid: string)
  {
    var parts := SplitOn(stem, '_');
    parts[|parts| - 1]
  }

  /** The id holds no '_'; a stem without '_' is its own id, and the stem
      `acelerometro_<id>` gives back any id free of '_'. */
  lemma PersonIdSpec(stem: string, id: string)
    ensures '_' !in PersonId(stem)
    ensures '_' !in stem ==> PersonId(stem) == stem
    ensures '_' !in id ==> PersonId("acelerometro_" + id) == id
  {
    SplitOnJoin(stem, '_');
    if '_' !in id {
      var parts := ["acelerometro", id];
      assert Join(parts[1..], '_') == id;
      assert Join(parts, '_') == "acelerometro_" + id;
      SplitJoin(parts, '_');
    }
  }

  /** `f"acelerometro_{pid}_excel.csv"`. */
  function OutputName(pid: string): string
  {
    "acelerometro_" + pid + "_excel.csv"
  }

  /** Distinct ids give distinct output files. */
  lemma OutputNameInjective(p: string, q: string)
    requires OutputName(p) == OutputName(q)
    ensures p == q
  {
    var n := |"acelerometro_"|;
    assert |p| == |q|;
    assert p == OutputName(p)[n .. n + |p|];
    assert q == OutputName(q)[n .. n + |q|];
  }

  /** The output file of each input stem, in input order. */
  function OutputNames(stems: seq<string>): (names: seq<string>)
    ensures |names| == |stems|
  {
    seq(|stems|, i requires 0 <= i < |stems| => OutputName(PersonId(stems[i])))
  }

  /** Whether the first `k` conversions all returned. */
  predicate AllConverted(stems: seq<string>, k: nat, convert: string -> bool)
    requires k <= |stems|
  {
    forall i :: 0 <= i < k ==> convert(stems[i])
  }

  /** `main` over the sorted clean files, given by their stems: each is
      converted in turn (`convert` is `false` when it raises, which ends the
      run) and its output named after its id. With no files nothing is
      written. */
  method ExportMain(stems: seq<string>, convert: string -> bool) returns (written: seq<string>, completed: bool)
    ensures completed <==> AllConverted(stems, |stems|, convert)
    ensures completed ==> written == OutputNames(stems)
    ensures !completed ==> exists k :: 0 <= k < |stems| && AllConverted(stems, k, convert) && !convert(stems[k]) &&
                                       written == OutputNames(stems[..k])
    ensures |stems| == 0 ==> written == [] && completed
  {
    written := [];
    var i := 0;
    while i < |stems|
      invariant 0 <= i <= |stems|
      invariant AllConverted(stems, i, convert)
      invariant written == OutputNames(stems[..i])
    {
      var out := OutputName(PersonId(stems[i]));
      if !convert(stems[i]) {
        return written, false;
      }
      written := written + [out];
      i := i + 1;
    }
    assert stems[..i] == stems;
    completed := true;
  }
}
