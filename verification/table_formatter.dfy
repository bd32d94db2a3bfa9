/**
 * TableFormatter: a box-drawn text table. The constructor takes the header
 * row; addLine appends a data row and widens columns as needed; display
 * renders a top rule, the header, a middle rule, the data rows and a bottom
 * rule. Cells arrive already converted by toString.
 */
module TableFormatter {
  import opened Text
  import opened Failures
  import opened Seqs

  /** The RuntimeException that addLine throws for a row of the wrong arity. */
  datatype TableError = LengthNotColumnCount

  datatype Table = Table(lines: seq<seq<string>>, maxColumnSize: seq<nat>, columnCount: nat)

  /** w is the length of the longest cell i over all lines. */
  ghost predicate IsColumnMax(lines: seq<seq<string>>, i: nat, w: nat)
    requires forall l :: 0 <= l < |lines| ==> i < |lines[l]|
  {
    && (forall l :: 0 <= l < |lines| ==> |lines[l][i]| <= w)
    && (exists l :: 0 <= l < |lines| && |lines[l][i]| == w)
  }

  /** The header is stored, every line has columnCount cells and every width is
      its column's maximum cell length, header included. */
  ghost predicate Valid(t: Table)
  {
    && WellShaped(t)
    && (forall i :: 0 <= i < t.columnCount ==> IsColumnMax(t.lines, i, t.maxColumnSize[i]))
  }

  /** The header is stored and every line has one cell per width. */
  ghost predicate WellShaped(t: Table)
  {
    && |t.lines| >= 1
    && |t.maxColumnSize| == t.columnCount
    && (forall l :: 0 <= l < |t.lines| ==> |t.lines[l]| == t.columnCount)
  }

  /** The constructor: one column per header cell, as wide as that cell. */
  function NewTable(header: seq<string>): (t: Table)
    ensures Valid(t)
    ensures t.lines == [header] && t.columnCount == |header|
    ensures forall i :: 0 <= i < |header| ==> t.maxColumnSize[i] == |header[i]|
  {
    var t := Table([header], seq(|header|, i requires 0 <= i < |header| => |header[i]|), |header|);
    assert forall i :: 0 <= i < |header| ==> |t.lines[0][i]| == t.maxColumnSize[i];
    t
  }

  /** addLine: a row of the wrong arity is refused before any change; otherwise the
      row is appended and each width grows to cover the new cell. */
  function AddLine(t: Table, row: seq<string>): (r: Result<Table, TableError>)
    requires Valid(t)
    ensures r.Err? <==> |row| != t.columnCount
    ensures r.Err? ==> r.error == LengthNotColumnCount
    ensures r.Ok? ==> Valid(r.value)
    ensures r.Ok? ==> r.value.lines == t.lines + [row] && r.value.columnCount == t.columnCount
    ensures r.Ok? ==> forall i :: 0 <= i < t.columnCount ==> t.maxColumnSize[i] <= r.value.maxColumnSize[i]
  {
    if |row| != t.columnCount then Err(LengthNotColumnCount)
    else
      var ws := seq(t.columnCount, i requires 0 <= i < t.columnCount =>
                      if |row[i]| > t.maxColumnSize[i] then |row[i]| else t.maxColumnSize[i]);
      var t' := Table(t.lines + [row], ws, t.columnCount);
      assert forall l :: 0 <= l < |t.lines| ==> t'.lines[l] == t.lines[l];
      assert t'.lines[|t.lines|] == row;
      Ok(t')
  }

  // ------------------------------------------------------------- rendering

  /** parts joined by sep: sep is printed before every part but the first. */
  function Join(parts: seq<string>, sep: char): string
  {
    if |parts| == 0 then ""
    else if |parts| == 1 then parts[0]
    else parts[0] + [sep] + Join(parts[1..], sep)
  }

  /** Cut s at every occurrence of sep. */
  function Split(s: string, sep: char): (r: seq<string>)
    ensures |r| >= 1
    decreases |s|
  {
    if sep !in s then [s]
    else
      var i := FirstIndex(s, sep);
      [s[..i]] + Split(s[i + 1..], sep)
  }

  /** Cutting at the first separator peels off the text before it. */
  lemma SplitStep(a: string, rest: string, sep: char)
    requires sep !in a
    ensures Split(a + [sep] + rest, sep) == [a] + Split(rest, sep)
  {
    var s := a + [sep] + rest;
    assert s[|a|] == sep;
    assert s[..|a|] == a;
    assert FirstIndex(s, sep) == |a|;
    assert s[|a| + 1..] == rest;
  }

  /** Joining parts free of the separator and cutting at the separator gives the
      parts back. */
  lemma {:induction false} SplitJoin(parts: seq<string>, sep: char)
    requires |parts| >= 1
    requires forall i :: 0 <= i < |parts| ==> sep !in parts[i]
    ensures Split(Join(parts, sep), sep) == parts
    decreases |parts|
  {
    if |parts| > 1 {
      SplitStep(parts[0], Join(parts[1..], sep), sep);
      SplitJoin(parts[1..], sep);
    }
  }

  /** Joins of parts of pairwise equal lengths have equal lengths. */
  lemma {:induction false} JoinSameWidth(p: seq<string>, q: seq<string>, s1: char, s2: char)
    requires |p| == |q| && forall i :: 0 <= i < |p| ==> |p[i]| == |q[i]|
    ensures |Join(p, s1)| == |Join(q, s2)|
    decreases |p|
  {
    if |p| > 1 {
      JoinSameWidth(p[1..], q[1..], s1, s2);
    }
  }

  /** A separator line: width+2 '─' for each column, joined by sep. */
  function SepCells(ws: seq<nat>): (r: seq<string>)
    ensures |r| == |ws|
    ensures forall i :: 0 <= i < |ws| ==> |r[i]| == ws[i] + 2 && forall k :: 0 <= k < |r[i]| ==> r[i][k] == '─'
  {
    seq(|ws|, i requires 0 <= i < |ws| => Repeat('─', ws[i] + 2))
  }

  function SepLine(ws: seq<nat>, sep: char): string
  {
    Join(SepCells(ws), sep)
  }

  /** Cutting a separator line at its separator gives width+2 dashes per column. */
  lemma SepLineSplits(ws: seq<nat>, sep: char)
    requires sep != '─' && |ws| >= 1
    ensures Split(SepLine(ws, sep), sep) == SepCells(ws)
  {
    var cells := SepCells(ws);
    forall i | 0 <= i < |cells| ensures sep !in cells[i] {
      assert forall k :: 0 <= k < |cells[i]| ==> cells[i][k] != sep;
    }
    SplitJoin(cells, sep);
  }

  /** A data cell: a space, the text, then width+1-length spaces, so that a cell no
      longer than the width fills exactly width+2 characters. */
  function DataCell(cell: string, w: nat): (r: string)
    ensures |cell| <= w ==> |r| == w + 2
    ensures |cell| > w ==> |r| == |cell| + 1
    ensures r[0] == ' ' && r[1..|cell| + 1] == cell
    ensures forall k :: |cell| + 1 <= k < |r| ==> r[k] == ' '
  {
    var r := " " + cell + Repeat(' ', w + 1 - |cell|);
    assert r[1..|cell| + 1] == cell;
    r
  }

  function DataCells(row: seq<string>, ws: seq<nat>): (r: seq<string>)
    requires |row| == |ws|
    ensures |r| == |ws| && forall i :: 0 <= i < |ws| ==> r[i] == DataCell(row[i], ws[i])
  {
    seq(|ws|, i requires 0 <= i < |ws| => DataCell(row[i], ws[i]))
  }

  /** A data line: the padded cells joined by '│'. */
  function DataLine(row: seq<string>, ws: seq<nat>): string
    requires |row| == |ws|
  {
    Join(DataCells(row, ws), '│')
  }

  /** Cutting a data line at '│' recovers the padded cells, and from each the cell
      text, when no cell contains '│'. */
  lemma DataLineSplits(row: seq<string>, ws: seq<nat>)
    requires |row| == |ws| && |ws| >= 1
    requires forall i :: 0 <= i < |row| ==> '│' !in row[i]
    ensures Split(DataLine(row, ws), '│') == DataCells(row, ws)
    ensures forall i :: 0 <= i < |row| ==> Split(DataLine(row, ws), '│')[i][1..|row[i]| + 1] == row[i]
  {
    var cells := DataCells(row, ws);
    forall i | 0 <= i < |cells| ensures '│' !in cells[i] {
      var c := cells[i];
      forall k | 0 <= k < |c| ensures c[k] != '│' {
        if 1 <= k < |row[i]| + 1 {
          assert c[k] == c[1..|row[i]| + 1][k - 1];
        }
      }
    }
    SplitJoin(cells, '│');
  }

  /** Every rule and every row of a valid table has the same printed width. */
  lemma LinesAlign(t: Table, l: nat, sep: char)
    requires Valid(t) && l < |t.lines|
    ensures |DataLine(t.lines[l], t.maxColumnSize)| == |SepLine(t.maxColumnSize, sep)|
  {
    var ws := t.maxColumnSize;
    var d, s := DataCells(t.lines[l], ws), SepCells(ws);
    forall i | 0 <= i < |ws| ensures |d[i]| == |s[i]| {
      assert IsColumnMax(t.lines, i, ws[i]);
    }
    JoinSameWidth(d, s, '│', sep);
  }

  /** The data rows after the header, in insertion order. */
  function Rows(lines: seq<seq<string>>, ws: seq<nat>): (r: seq<string>)
    requires forall l :: 0 <= l < |lines| ==> |lines[l]| == |ws|
    ensures |r| == |lines| && forall l :: 0 <= l < |lines| ==> r[l] == DataLine(lines[l], ws)
  {
    seq(|lines|, l requires 0 <= l < |lines| => DataLine(lines[l], ws))
  }

  /** The rendering of a header and the data rows below it: top rule, header,
      middle rule, one line per row in order, bottom rule. */
  function Layout(ws: seq<nat>, header: seq<string>, body: seq<seq<string>>): (r: seq<string>)
    requires |header| == |ws| && forall l :: 0 <= l < |body| ==> |body[l]| == |ws|
    ensures |r| == |body| + 4
    ensures r[0] == SepLine(ws, '┬') && r[1] == DataLine(header, ws) && r[2] == SepLine(ws, '┼')
    ensures r[3..|r| - 1] == Rows(body, ws) && r[|r| - 1] == SepLine(ws, '┴')
  {
    var r := [SepLine(ws, '┬'), DataLine(header, ws), SepLine(ws, '┼')] + Rows(body, ws) + [SepLine(ws, '┴')];
    assert r[3..|r| - 1] == Rows(body, ws);
    r
  }

  /** The lines display prints, in order: top rule, header, middle rule, data rows,
      bottom rule. */
  function DisplayLines(t: Table): (r: seq<string>)
    requires WellShaped(t)
    ensures |r| == |t.lines| + 3
    ensures r[0] == SepLine(t.maxColumnSize, '┬') && r[1] == DataLine(t.lines[0], t.maxColumnSize)
    ensures r[2] == SepLine(t.maxColumnSize, '┼') && r[|r| - 1] == SepLine(t.maxColumnSize, '┴')
    ensures forall l :: 1 <= l < |t.lines| ==> r[l + 2] == DataLine(t.lines[l], t.maxColumnSize)
  {
    var ws := t.maxColumnSize;
    var body := t.lines[1..];
    assert forall l :: 0 <= l < |body| ==> body[l] == t.lines[l + 1];
    var r := Layout(ws, t.lines[0], body);
    forall l | 1 <= l < |t.lines| ensures r[l + 2] == DataLine(t.lines[l], ws) {
      assert r[l + 2] == r[3..|r| - 1][l - 1];
    }
    r
  }

  /** Every row of a valid table prints as wide as the top rule. */
  lemma RowsAlign(t: Table)
    requires Valid(t)
    ensures forall l :: 0 <= l < |t.lines| ==>
              |DataLine(t.lines[l], t.maxColumnSize)| == |SepLine(t.maxColumnSize, '┬')|
  {
    forall l | 0 <= l < |t.lines|
      ensures |DataLine(t.lines[l], t.maxColumnSize)| == |SepLine(t.maxColumnSize, '┬')|
    {
      LinesAlign(t, l, '┬');
    }
  }

  /** When every row is as wide as the top rule, so is every displayed line. */
  lemma LayoutIsRectangular(t: Table)
    requires WellShaped(t)
    requires forall l :: 0 <= l < |t.lines| ==>
               |DataLine(t.lines[l], t.maxColumnSize)| == |SepLine(t.maxColumnSize, '┬')|
    ensures forall k :: 0 <= k < |DisplayLines(t)| ==> |DisplayLines(t)[k]| == |DisplayLines(t)[0]|
  {
    var ls := DisplayLines(t);
    var ws := t.maxColumnSize;
    JoinSameWidth(SepCells(ws), SepCells(ws), '┬', '┼');
    JoinSameWidth(SepCells(ws), SepCells(ws), '┬', '┴');
    forall k | 0 <= k < |ls| ensures |ls[k]| == |ls[0]| {
      if 3 <= k < |ls| - 1 {
        assert ls[k] == DataLine(t.lines[k - 2], ws);
      }
    }
  }

  /** A valid table renders as a rectangle. */
  lemma DisplayIsRectangular(t: Table)
    requires Valid(t)
    ensures forall k :: 0 <= k < |DisplayLines(t)| ==> |DisplayLines(t)[k]| == |DisplayLines(t)[0]|
  {
    RowsAlign(t);
    LayoutIsRectangular(t);
  }

  // ------------------------------------------------- where the output goes

  /** The stream passed to display, or System.out. */
  datatype Sink = Stream | Stdout

  datatype Write = Write(sink: Sink, text: string)

  /** The text that reaches one sink, in order. */
  function TextTo(ws: seq<Write>, sink: Sink): string
  {
    if |ws| == 0 then ""
    else (if ws[0].sink == sink then ws[0].text else "") + TextTo(ws[1..], sink)
  }

  /** Everything written, in order, as seen when both sinks are the same stream. */
  function AllText(ws: seq<Write>): string
  {
    if |ws| == 0 then "" else ws[0].text + AllText(ws[1..])
  }

  /** displaySepLine and displayDataLine as written: the line goes to the stream,
      the line break goes to System.out. */
  function LineWrites(line: string): seq<Write>
  {
    [Write(Stream, line), Write(Stdout, "\n")]
  }

  function LinesWrites(ls: seq<string>): seq<Write>
  {
    if |ls| == 0 then [] else LineWrites(ls[0]) + LinesWrites(ls[1..])
  }

  /** display as written: the calls in order, each writing its line to the stream
      and its line break to System.out. */
  function DisplayWrites(t: Table): (r: seq<Write>)
    requires Valid(t)
    ensures r == LinesWrites(DisplayLines(t))
  {
    var ws := t.maxColumnSize;
    var r := LineWrites(SepLine(ws, '┬')) + LineWrites(DataLine(t.lines[0], ws)) + LineWrites(SepLine(ws, '┼'))
             + LinesWrites(Rows(t.lines[1..], ws)) + LineWrites(SepLine(ws, '┴'));
    var a, b, c, rows, z := SepLine(ws, '┬'), DataLine(t.lines[0], ws), SepLine(ws, '┼'),
                            Rows(t.lines[1..], ws), SepLine(ws, '┴');
    var head := [a, b, c];
    assert LinesWrites(head) == LineWrites(a) + LineWrites(b) + LineWrites(c) by {
      assert [c][1..] == [];
      assert LinesWrites([c]) == LineWrites(c);
      assert [b, c][1..] == [c];
      assert LinesWrites([b, c]) == LineWrites(b) + LineWrites(c);
      assert head[1..] == [b, c];
    }
    assert LinesWrites([z]) == LineWrites(z) by { assert [z][1..] == []; }
    assert DisplayLines(t) == head + rows + [z];
    LinesWritesAppend(head, rows);
    LinesWritesAppend(head + rows, [z]);
    r
  }

  lemma {:induction false} LinesWritesAppend(a: seq<string>, b: seq<string>)
    ensures LinesWrites(a + b) == LinesWrites(a) + LinesWrites(b)
    decreases |a|
  {
    if |a| == 0 {
      assert a + b == b;
    } else {
      assert (a + b)[1..] == a[1..] + b;
      LinesWritesAppend(a[1..], b);
    }
  }

  /** The concatenation of the lines, with nothing between them. */
  function Concat(ls: seq<string>): string
  {
    if |ls| == 0 then "" else ls[0] + Concat(ls[1..])
  }

  /** The lines, each followed by a line break. */
  function Unlines(ls: seq<string>): string
  {
    if |ls| == 0 then "" else ls[0] + "\n" + Unlines(ls[1..])
  }

  /** One line's writes, then the rest. */
  lemma LinesWritesCons(ls: seq<string>)
    requires |ls| > 0
    ensures LinesWrites(ls)[0] == Write(Stream, ls[0]) && LinesWrites(ls)[1] == Write(Stdout, "\n")
    ensures LinesWrites(ls)[1..][1..] == LinesWrites(ls[1..])
  {
  }

  lemma {:induction false} LinesWritesStream(ls: seq<string>)
    ensures TextTo(LinesWrites(ls), Stream) == Concat(ls)
    decreases |ls|
  {
    if |ls| > 0 {
      LinesWritesCons(ls);
      LinesWritesStream(ls[1..]);
    }
  }

  lemma {:induction false} LinesWritesStdout(ls: seq<string>)
    ensures TextTo(LinesWrites(ls), Stdout) == Repeat('\n', |ls|)
    decreases |ls|
  {
    if |ls| > 0 {
      LinesWritesCons(ls);
      LinesWritesStdout(ls[1..]);
      assert Repeat('\n', |ls|) == "\n" + Repeat('\n', |ls| - 1);
    }
  }

  lemma {:induction false} LinesWritesAll(ls: seq<string>)
    ensures AllText(LinesWrites(ls)) == Unlines(ls)
    decreases |ls|
  {
    if |ls| > 0 {
      LinesWritesCons(ls);
      LinesWritesAll(ls[1..]);
    }
  }

  /** As written, the stream receives the lines run together, System.out receives
      only the line breaks, and the two interleaved give the lines each followed by
      a break. */
  lemma LinesWritesSplit(ls: seq<string>)
    ensures TextTo(LinesWrites(ls), Stream) == Concat(ls)
    ensures TextTo(LinesWrites(ls), Stdout) == Repeat('\n', |ls|)
    ensures AllText(LinesWrites(ls)) == Unlines(ls)
  {
    LinesWritesStream(ls);
    LinesWritesStdout(ls);
    LinesWritesAll(ls);
  }

  /** A table none of whose cells contains a line break. */
  ghost predicate SingleLineCells(t: Table)
  {
    forall l, i :: 0 <= l < |t.lines| && 0 <= i < |t.lines[l]| ==> '\n' !in t.lines[l][i]
  }

  lemma {:induction false} JoinNoNewline(parts: seq<string>, sep: char)
    requires sep != '\n' && forall i :: 0 <= i < |parts| ==> '\n' !in parts[i]
    ensures '\n' !in Join(parts, sep)
    decreases |parts|
  {
    if |parts| > 1 {
      JoinNoNewline(parts[1..], sep);
    }
  }

  lemma {:induction false} ConcatNoNewline(ls: seq<string>)
    requires forall k :: 0 <= k < |ls| ==> '\n' !in ls[k]
    ensures '\n' !in Concat(ls)
    decreases |ls|
  {
    if |ls| > 0 {
      ConcatNoNewline(ls[1..]);
    }
  }

  lemma {:induction false} UnlinesCount(ls: seq<string>)
    requires forall k :: 0 <= k < |ls| ==> '\n' !in ls[k]
    ensures Count(Unlines(ls), '\n') == |ls|
    decreases |ls|
  {
    if |ls| > 0 {
      UnlinesCount(ls[1..]);
      CountAbsent(ls[0], '\n');
      CountAppend(ls[0], "\n" + Unlines(ls[1..]), '\n');
      CountAppend("\n", Unlines(ls[1..]), '\n');
      assert ls[0] + "\n" + Unlines(ls[1..]) == ls[0] + ("\n" + Unlines(ls[1..]));
    }
  }

  /** A rule line holds no line break. */
  lemma SepLineSingle(ws: seq<nat>, sep: char)
    requires sep != '\n'
    ensures '\n' !in SepLine(ws, sep)
  {
    var cells := SepCells(ws);
    forall i | 0 <= i < |cells| ensures '\n' !in cells[i] {
      assert forall k :: 0 <= k < |cells[i]| ==> cells[i][k] != '\n';
    }
    JoinNoNewline(cells, sep);
  }

  /** A data line of single-line cells holds no line break. */
  lemma DataLineSingle(row: seq<string>, ws: seq<nat>)
    requires |row| == |ws| && forall i :: 0 <= i < |row| ==> '\n' !in row[i]
    ensures '\n' !in DataLine(row, ws)
  {
    var cells := DataCells(row, ws);
    forall i | 0 <= i < |cells| ensures '\n' !in cells[i] {
      var c := cells[i];
      forall k | 0 <= k < |c| ensures c[k] != '\n' {
        if 1 <= k < |row[i]| + 1 {
          assert c[k] == c[1..|row[i]| + 1][k - 1];
        }
      }
    }
    JoinNoNewline(cells, '│');
  }

  /** No rendered line of a table with single-line cells contains a line break. */
  lemma DisplayLinesSingle(t: Table)
    requires Valid(t) && SingleLineCells(t)
    ensures forall k :: 0 <= k < |DisplayLines(t)| ==> '\n' !in DisplayLines(t)[k]
  {
    var ws := t.maxColumnSize;
    var ls := DisplayLines(t);
    SepLineSingle(ws, '┬');
    SepLineSingle(ws, '┼');
    SepLineSingle(ws, '┴');
    forall k | 0 <= k < |ls| ensures '\n' !in ls[k] {
      if k == 1 {
        DataLineSingle(t.lines[0], ws);
      } else if 3 <= k < |ls| - 1 {
        DataLineSingle(t.lines[k - 2], ws);
      }
    }
  }

  /** display as written: whatever stream it is given receives no line break at all
      (System.out receives them instead), so a table printed anywhere but
      System.out comes out on one line. */
  lemma DisplayStreamHasNoLineBreak(t: Table)
    requires Valid(t) && SingleLineCells(t)
    ensures '\n' !in TextTo(DisplayWrites(t), Stream)
    ensures TextTo(DisplayWrites(t), Stdout) == Repeat('\n', |t.lines| + 3)
  {
    DisplayLinesSingle(t);
    LinesWritesSplit(DisplayLines(t));
    ConcatNoNewline(DisplayLines(t));
  }

  /** A one-column rule of width 1 is three dashes, whatever the separator. */
  lemma OneColumnRule(sep: char)
    ensures SepLine([1], sep) == "───"
  {
    assert Repeat('─', 3) == "───";
    assert SepCells([1]) == ["───"];
  }

  /** The cell "a" in a column of width 1 prints as " a ". */
  lemma OneColumnData()
    ensures DataLine(["a"], [1]) == " a "
  {
    assert Repeat(' ', 1) == " ";
    assert DataCell("a", 1) == " a ";
    assert DataCells(["a"], [1]) == [" a "];
  }

  /** For a table whose only line is the header "a" (as NewTable(["a"]) builds), the
      stream given to display receives the four lines glued into one. */
  lemma DisplayToStreamExample(t: Table)
    requires Valid(t) && t.lines == [["a"]]
    ensures TextTo(DisplayWrites(t), Stream) == "───" + " a " + "───" + "───"
  {
    assert IsColumnMax(t.lines, 0, t.maxColumnSize[0]);
    assert t.maxColumnSize == [1];
    OneColumnRule('┬');
    OneColumnRule('┼');
    OneColumnRule('┴');
    OneColumnData();
    var ls := DisplayLines(t);
    LinesWritesSplit(ls);
    assert Concat(ls[3..]) == ls[3];
    assert Concat(ls[2..]) == ls[2] + ls[3];
    assert Concat(ls[1..]) == ls[1] + ls[2] + ls[3];
  }

  /** display as intended: every line, followed by its line break, on the given
      stream. */
  function Display(t: Table): (r: string)
    requires Valid(t)
    ensures r == AllText(DisplayWrites(t))
  {
    LinesWritesSplit(DisplayLines(t));
    Unlines(DisplayLines(t))
  }

  /** The intended output has one line break per rendered line: the three rules,
      the header and every data row. */
  lemma DisplayLineCount(t: Table)
    requires Valid(t) && SingleLineCells(t)
    ensures Count(Display(t), '\n') == |t.lines| + 3
  {
    DisplayLinesSingle(t);
    UnlinesCount(DisplayLines(t));
  }
}
