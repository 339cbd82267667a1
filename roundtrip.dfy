/** The layout text that build_layout_and_count writes is read back by
    save_layout_to_excel into a worksheet that shows the same grid: column
    numbers in row 1, row numbers in column 1 and every cell in its place. */
module RoundTrip {
  import opened Text
  import opened Colors
  import opened Faces
  import opened Layout
  import opened Sheet

  predicate Rectangular(faces: seq<seq<string>>, cols: nat) {
    forall i :: 0 <= i < |faces| ==> |faces[i]| == cols
  }

  predicate CleanRow(row: seq<string>) {
    forall j :: 0 <= j < |row| ==> CleanCell(row[j])
  }

  predicate CleanGrid(faces: seq<seq<string>>) {
    forall i, j :: 0 <= i < |faces| && 0 <= j < |faces[i]| ==> CleanCell(faces[i][j])
  }

  /** The worksheet cells of a grid of rows x cols: row 1 and column 1 without their
      shared corner, and the body. */
  predicate InGrid(k: (nat, nat), cols: nat, rows: nat) {
    1 <= k.0 <= rows + 1 && 1 <= k.1 <= cols + 1 && k != (1, 1)
  }

  /** The worksheet shows the grid: column numbers in row 1, row numbers in
      column 1, cell (r, c) of the faces at row r + 2 and column c + 2, and nothing else. */
  ghost predicate Shows(cells: Cells, cols: nat, faces: seq<seq<string>>)
    requires Rectangular(faces, cols)
  {
    HasCells(cells, cols, |faces|) && HeaderRow(cells, cols) && NumberColumn(cells, |faces|)
    && Body(cells, cols, faces)
  }

  ghost predicate HasCells(cells: Cells, cols: nat, rows: nat) {
    forall k :: k in cells <==> InGrid(k, cols, rows)
  }

  /** Row 1 holds the column numbers from column 2 on. */
  ghost predicate HeaderRow(cells: Cells, cols: nat) {
    forall c :: 2 <= c <= cols + 1 ==> (1, c) in cells && cells[(1, c)] == Decimal(c - 1)
  }

  /** Column 1 holds the row numbers from row 2 on. */
  ghost predicate NumberColumn(cells: Cells, rows: nat) {
    forall r :: 2 <= r <= rows + 1 ==> (r, 1) in cells && cells[(r, 1)] == Decimal(r - 1)
  }

  ghost predicate Body(cells: Cells, cols: nat, faces: seq<seq<string>>)
    requires Rectangular(faces, cols)
  {
    forall r, c :: 2 <= r <= |faces| + 1 && 2 <= c <= cols + 1 ==>
      (r, c) in cells && cells[(r, c)] == faces[r - 2][c - 2]
  }

  // ---------------------------------------------------------------- characters

  /** Neither a space nor a digit is a bar or a line break. */
  predicate Plain(s: string) {
    forall i :: 0 <= i < |s| ==> s[i] == ' ' || IsDigit(s[i])
  }

  lemma PlainClean(s: string)
    requires Plain(s)
    ensures Lacks(s, '|') && NoLineBreak(s)
  {
    forall i | 0 <= i < |s| ensures s[i] != '|' && !IsLineBreak(s[i]) {
      assert s[i] == ' ' || IsDigit(s[i]);
    }
  }

  lemma PadDecimalPlain(n: nat, w: nat)
    ensures Plain(PadLeft(Decimal(n), w))
  {
    var d := Decimal(n);
    var r := PadLeft(d, w);
    forall i | 0 <= i < |r| ensures r[i] == ' ' || IsDigit(r[i]) {
      if i >= |r| - |d| {
        assert r[i] == r[|r| - |d|..][i - (|r| - |d|)];
      }
    }
  }

  lemma DecimalTrimmed(n: nat)
    ensures Trimmed(Decimal(n))
  {
    var d := Decimal(n);
    assert IsDigit(d[0]) && IsDigit(d[|d| - 1]);
  }

  lemma PadCellClean(s: string, w: nat)
    requires Lacks(s, '|') && NoLineBreak(s)
    ensures Lacks(PadLeft(s, w), '|') && NoLineBreak(PadLeft(s, w))
  {
    var r := PadLeft(s, w);
    forall i | 0 <= i < |r| ensures r[i] != '|' && !IsLineBreak(r[i]) {
      PadLeftChars(s, w, r[i]);
    }
  }

  lemma NoBreakConcat(a: string, b: string)
    requires NoLineBreak(a) && NoLineBreak(b)
    ensures NoLineBreak(a + b)
  {
    forall i | 0 <= i < |a + b| ensures !IsLineBreak((a + b)[i]) {
      if i >= |a| {
        assert (a + b)[i] == b[i - |a|];
      }
    }
  }

  lemma {:induction false} RepeatNoBreak(s: string, n: nat)
    requires NoLineBreak(s)
    ensures NoLineBreak(Repeat(s, n))
  {
    if n > 0 {
      RepeatNoBreak(s, n - 1);
      NoBreakConcat(Repeat(s, n - 1), s);
    }
  }

  /** A join of parts without line breaks, by a separator without one, has none. */
  lemma JoinNoBreak(parts: seq<string>, sep: string)
    requires forall i :: 0 <= i < |parts| ==> NoLineBreak(parts[i])
    requires NoLineBreak(sep)
    ensures NoLineBreak(Join(parts, sep))
  {
    var j := Join(parts, sep);
    forall k | 0 <= k < |j| ensures !IsLineBreak(j[k]) {
      JoinChars(parts, sep, j[k]);
      if j[k] !in sep {
        var i :| 0 <= i < |parts| && j[k] in parts[i];
        var m :| 0 <= m < |parts[i]| && parts[i][m] == j[k];
      }
    }
  }

  // ---------------------------------------------------------------- prefixes

  lemma PrefixStarts(p: string, rest: string)
    ensures StartsWith(p + rest, p)
  {
    assert (p + rest)[..|p|] == p;
  }

  /** A string that differs from p at index i does not start with p. */
  lemma DiffersAt(s: string, p: string, i: nat)
    requires i < |p| && i < |s| && s[i] != p[i]
    ensures !StartsWith(s, p)
  {
    if |p| <= |s| {
      assert s[..|p|][i] == s[i];
    }
  }

  // ---------------------------------------------------------------- splitting at bars

  lemma SplitAfterBar(a: string, rest: string, line: string)
    requires Lacks(a, '|') && line == a + "|" + rest
    ensures Split(line, '|') == [a] + Split(rest, '|')
  {
    SplitAfter(a, '|', rest);
  }

  lemma SplitClosingBar(parts: seq<string>, rest: string)
    requires |parts| >= 1 && forall i :: 0 <= i < |parts| ==> Lacks(parts[i], '|')
    requires rest == Join(parts, "|") + "|"
    ensures Split(rest, '|') == parts + [""]
  {
    SplitJoinThen(parts, '|', "");
    SplitWhole("", '|');
    assert rest == Join(parts, "|") + "|" + "";
  }

  /** Splitting "a|p1|...|pn|" at the bars gives a, the parts, and an empty tail. */
  lemma SplitBars(a: string, parts: seq<string>, line: string)
    requires Lacks(a, '|') && |parts| >= 1
    requires forall i :: 0 <= i < |parts| ==> Lacks(parts[i], '|')
    requires line == a + "|" + Join(parts, "|") + "|"
    ensures Split(line, '|') == [a] + parts + [""]
    ensures Inner(Split(line, '|')) == parts
  {
    var rest := Join(parts, "|") + "|";
    SplitAfterBar(a, rest, line);
    SplitClosingBar(parts, rest);
    assert [a] + (parts + [""]) == [a] + parts + [""];
  }

  // ---------------------------------------------------------------- the header line

  lemma ColumnLabelsClean(cols: nat)
    ensures forall i :: 0 <= i < cols ==> Lacks(ColumnLabels(cols)[i], '|') && NoLineBreak(ColumnLabels(cols)[i])
  {
    forall i | 0 <= i < cols ensures Lacks(ColumnLabels(cols)[i], '|') && NoLineBreak(ColumnLabels(cols)[i]) {
      PadDecimalPlain(i + 1, 5);
      PlainClean(ColumnLabels(cols)[i]);
    }
  }

  lemma HeaderSplit(cols: nat)
    requires cols >= 1
    ensures Inner(Split(Header(cols), '|')) == ColumnLabels(cols)
  {
    ColumnLabelsClean(cols);
    SplitBars("    ", ColumnLabels(cols), Header(cols));
  }

  lemma HeaderNoBreak(cols: nat)
    ensures NoLineBreak(Header(cols))
  {
    var labels := ColumnLabels(cols);
    ColumnLabelsClean(cols);
    JoinNoBreak(labels, "|");
    NoBreakConcat("    |", Join(labels, "|"));
    NoBreakConcat("    |" + Join(labels, "|"), "|");
  }

  /** The header is recognised as the header: it starts with four spaces and a bar. */
  lemma HeaderStart(cols: nat)
    ensures StartsWith(Header(cols), "    |") && !StartsWith(Header(cols), "----")
    ensures !StartsWith(Header(cols), "Legend:") && Strip(Header(cols)) != []
  {
    var h := Header(cols);
    var rest := Join(ColumnLabels(cols), "|") + "|";
    assert h == "    |" + rest;
    PrefixStarts("    |", rest);
    DiffersAt(h, "----", 0);
    DiffersAt(h, "Legend:", 0);
    StripEmpty(h);
    assert !IsSpace(h[4]);
  }

  // ---------------------------------------------------------------- separators

  lemma SeparatorFacts(cols: nat)
    ensures NoLineBreak(Separator(cols))
    ensures StartsWith(Separator(cols), "----") && !StartsWith(Separator(cols), "Legend:")
  {
    var s := Separator(cols);
    var rest := Repeat("+-----", cols) + "+";
    RepeatNoBreak("+-----", cols);
    NoBreakConcat("----", Repeat("+-----", cols));
    NoBreakConcat("----" + Repeat("+-----", cols), "+");
    assert s == "----" + rest;
    PrefixStarts("----", rest);
    DiffersAt(s, "Legend:", 0);
  }

  // ---------------------------------------------------------------- row lines

  /** The row number right-aligned in three characters ends in a digit at index 2,
      and strips back to the number. */
  lemma RowNumberFacts(n: nat, a: string)
    requires a == PadLeft(Decimal(n), 3) + " "
    ensures |a| >= 4 && IsDigit(a[2]) && Plain(a)
    ensures Strip(a) == Decimal(n)
  {
    var d := Decimal(n);
    var p := PadLeft(d, 3);
    var pad := |p| - |d|;
    assert p[2] == p[pad..][2 - pad];
    PadDecimalPlain(n, 3);
    assert Plain(a) by {
      forall i | 0 <= i < |a| ensures a[i] == ' ' || IsDigit(a[i]) {
        if i < |p| {
          assert a[i] == p[i];
        }
      }
    }
    assert a == Spaces(pad) + d + Spaces(1);
    DecimalTrimmed(n);
    StripPadded(pad, d, 1);
  }

  lemma PaddedClean(row: seq<string>)
    requires CleanRow(row)
    ensures forall j :: 0 <= j < |row| ==> Lacks(Padded(row)[j], '|') && NoLineBreak(Padded(row)[j])
  {
    forall j | 0 <= j < |row| ensures Lacks(Padded(row)[j], '|') && NoLineBreak(Padded(row)[j]) {
      PadCellClean(row[j], 5);
    }
  }

  lemma BodySplit(idx: nat, row: seq<string>)
    requires |row| >= 1 && CleanRow(row)
    ensures Strip(Split(BodyLine(idx, row), '|')[0]) == Decimal(idx + 1)
    ensures Inner(Split(BodyLine(idx, row), '|')) == Padded(row)
  {
    var a := PadLeft(Decimal(idx + 1), 3) + " ";
    var line := BodyLine(idx, row);
    BodyShape(idx, row, a, Join(Padded(row), "|"));
    RowNumberFacts(idx + 1, a);
    PlainClean(a);
    PaddedClean(row);
    SplitBars(a, Padded(row), line);
  }

  /** A row line is its right-aligned number and a space, then the cells between bars. */
  lemma BodyShape(idx: nat, row: seq<string>, a: string, j: string)
    requires a == PadLeft(Decimal(idx + 1), 3) + " " && j == Join(Padded(row), "|")
    ensures BodyLine(idx, row) == a + "|" + j + "|"
    ensures |a| >= 3 && BodyLine(idx, row)[2] == a[2]
  {
    var p := PadLeft(Decimal(idx + 1), 3);
    assert p + " |" == (p + " ") + "|";
  }

  lemma BodyNoBreak(idx: nat, row: seq<string>)
    requires CleanRow(row)
    ensures NoLineBreak(BodyLine(idx, row))
  {
    var a := PadLeft(Decimal(idx + 1), 3) + " ";
    var j := Join(Padded(row), "|");
    BodyShape(idx, row, a, j);
    RowNumberFacts(idx + 1, a);
    PlainClean(a);
    PaddedClean(row);
    JoinNoBreak(Padded(row), "|");
    NoBreakConcat(a, "|");
    NoBreakConcat(a + "|", j);
    NoBreakConcat(a + "|" + j, "|");
  }

  /** A row line is neither a separator nor a header nor blank: its third character is a digit. */
  lemma BodyStart(idx: nat, row: seq<string>)
    ensures !StartsWith(BodyLine(idx, row), "----") && !StartsWith(BodyLine(idx, row), "    |")
    ensures !StartsWith(BodyLine(idx, row), "Legend:") && Strip(BodyLine(idx, row)) != []
  {
    var a := PadLeft(Decimal(idx + 1), 3) + " ";
    BodyShape(idx, row, a, Join(Padded(row), "|"));
    RowNumberFacts(idx + 1, a);
    DigitAtTwo(BodyLine(idx, row));
  }

  /** A line whose third character is a digit is no separator, header, blank line or legend title. */
  lemma DigitAtTwo(b: string)
    requires |b| >= 3 && IsDigit(b[2])
    ensures !StartsWith(b, "----") && !StartsWith(b, "    |")
    ensures !StartsWith(b, "Legend:") && Strip(b) != []
  {
    DiffersAt(b, "----", 2);
    DiffersAt(b, "    |", 2);
    DiffersAt(b, "Legend:", 2);
    StripEmpty(b);
  }

  // ---------------------------------------------------------------- one line of the parser

  lemma ParseSkip(p: Progress, line: string)
    requires StartsWith(line, "----")
    ensures ParseLine(p, line) == p
  {
  }

  lemma ParseHeaderLine(p: Progress, line: string, labels: seq<string>)
    requires StartsWith(line, "    |") && !StartsWith(line, "----") && Strip(line) != []
    requires Inner(Split(line, '|')) == labels
    ensures ParseLine(p, line) == Progress(p.next + 1, WriteCells(p.cells, p.next, 2, labels))
  {
  }

  lemma ParseBodyLine(p: Progress, line: string, number: string, cells: seq<string>)
    requires !StartsWith(line, "----") && !StartsWith(line, "    |") && Strip(line) != []
    requires Strip(Split(line, '|')[0]) == number && number != []
    requires Inner(Split(line, '|')) == cells
    ensures ParseLine(p, line) == Progress(p.next + 1, WriteCells(p.cells[(p.next, 1) := number], p.next, 2, cells))
  {
  }

  lemma ParseLinesSnoc(a: seq<string>, b: string, c: string)
    ensures ParseLines(a + [b, c]) == ParseLine(ParseLine(ParseLines(a), b), c)
  {
    assert (a + [b, c])[..|a| + 1] == a + [b];
    assert (a + [b])[..|a|] == a;
  }

  // ---------------------------------------------------------------- parsing the grid

  /** The header line yields the column numbers in row 1. */
  lemma ParseHeader(cols: nat)
    requires cols >= 1
    ensures ParseLines(GridLines(cols, [])).next == 2
    ensures Shows(ParseLines(GridLines(cols, [])).cells, cols, [])
  {
    var labels := ColumnLabels(cols);
    HeaderStart(cols);
    HeaderSplit(cols);
    SeparatorFacts(cols);
    ParseLinesSnoc([], Header(cols), Separator(cols));
    assert [] + [Header(cols), Separator(cols)] == GridLines(cols, []);
    ParseHeaderLine(Start, Header(cols), labels);
    ParseSkip(Progress(2, WriteCells(map[], 1, 2, labels)), Separator(cols));
    HeaderCells(cols);
  }

  lemma HeaderCells(cols: nat)
    ensures Shows(WriteCells(map[], 1, 2, ColumnLabels(cols)), cols, [])
  {
    var labels := ColumnLabels(cols);
    HeaderKeys(cols, labels, WriteCells(map[], 1, 2, labels));
    HeaderValues(cols);
  }

  lemma HeaderKeys(cols: nat, labels: seq<string>, cells: Cells)
    requires |labels| == cols && cells == WriteCells(map[], 1, 2, labels)
    ensures HasCells(cells, cols, 0)
  {
    forall k ensures k in cells <==> InGrid(k, cols, 0) {
      WriteCellsKeys(map[], 1, 2, labels, k);
    }
  }

  lemma HeaderValues(cols: nat)
    ensures HeaderRow(WriteCells(map[], 1, 2, ColumnLabels(cols)), cols)
  {
    var labels := ColumnLabels(cols);
    var cells := WriteCells(map[], 1, 2, labels);
    forall c | 2 <= c <= cols + 1 ensures (1, c) in cells && cells[(1, c)] == Decimal(c - 1) {
      WriteCellsValue(map[], 1, 2, labels, (1, c));
      LabelStrips(cols, c - 2);
    }
  }

  /** A column label strips to its column number. */
  lemma LabelStrips(cols: nat, j: nat)
    requires j < cols
    ensures Strip(ColumnLabels(cols)[j]) == Decimal(j + 1)
  {
    DecimalTrimmed(j + 1);
    StripPadLeft(Decimal(j + 1), 5);
  }

  /** Adding a row's line and separator adds its row number and its cells. */
  lemma ParseRow(cols: nat, init: seq<seq<string>>, row: seq<string>)
    requires cols >= 1 && Rectangular(init, cols) && |row| == cols
    requires CleanRow(row)
    requires ParseLines(GridLines(cols, init)).next == |init| + 2
    requires Shows(ParseLines(GridLines(cols, init)).cells, cols, init)
    ensures Rectangular(init + [row], cols)
    ensures ParseLines(GridLines(cols, init + [row])).next == |init| + 3
    ensures Shows(ParseLines(GridLines(cols, init + [row])).cells, cols, init + [row])
  {
    var p0 := ParseLines(GridLines(cols, init));
    ParseRowLines(cols, init, row, p0);
    RowCells(cols, init, row, p0.cells);
  }

  /** The parser reads a row's line and the separator below it. */
  lemma ParseRowLines(cols: nat, init: seq<seq<string>>, row: seq<string>, p0: Progress)
    requires |row| >= 1 && CleanRow(row)
    requires p0 == ParseLines(GridLines(cols, init)) && p0.next == |init| + 2
    ensures ParseLines(GridLines(cols, init + [row])) ==
      Progress(|init| + 3, WriteCells(p0.cells[(|init| + 2, 1) := Decimal(|init| + 1)], |init| + 2, 2, Padded(row)))
  {
    var n := |init|;
    var faces := init + [row];
    assert faces[..n] == init && faces[n] == row;
    var line := BodyLine(n, row);
    BodySplit(n, row);
    BodyStart(n, row);
    SeparatorFacts(cols);
    ParseLinesSnoc(GridLines(cols, init), line, Separator(cols));
    ParseBodyLine(p0, line, Decimal(n + 1), Padded(row));
    var cells := WriteCells(p0.cells[(n + 2, 1) := Decimal(n + 1)], n + 2, 2, Padded(row));
    ParseSkip(Progress(n + 3, cells), Separator(cols));
  }

  /** The cells of one more row, written below a worksheet that shows the rows above. */
  lemma RowCells(cols: nat, init: seq<seq<string>>, row: seq<string>, above: Cells)
    requires Rectangular(init, cols) && |row| == cols && CleanRow(row)
    requires Shows(above, cols, init)
    ensures Rectangular(init + [row], cols)
    ensures Shows(WriteCells(above[(|init| + 2, 1) := Decimal(|init| + 1)], |init| + 2, 2, Padded(row)), cols, init + [row])
  {
    var r := |init| + 2;
    var base := above[(r, 1) := Decimal(|init| + 1)];
    var cells := WriteCells(base, r, 2, Padded(row));
    RectangularSnoc(init, row, cols);
    RowFrame(cols, |init|, above, Padded(row), base, cells);
    RowBody(cols, init, row, above, base, cells);
  }

  /** The new row keeps the header row and extends the keys and the number column by one row. */
  lemma RowFrame(cols: nat, rows: nat, above: Cells, values: seq<string>, base: Cells, cells: Cells)
    requires |values| == cols && HasCells(above, cols, rows) && HeaderRow(above, cols) && NumberColumn(above, rows)
    requires base == above[(rows + 2, 1) := Decimal(rows + 1)] && cells == WriteCells(base, rows + 2, 2, values)
    ensures HasCells(cells, cols, rows + 1) && HeaderRow(cells, cols) && NumberColumn(cells, rows + 1)
  {
    RowKeys(cols, rows, above, values, base, cells);
    RowHeader(cols, rows, above, values, base, cells);
    RowNumbers(cols, rows, above, values, base, cells);
  }

  lemma RectangularSnoc(init: seq<seq<string>>, row: seq<string>, cols: nat)
    requires Rectangular(init, cols) && |row| == cols
    ensures Rectangular(init + [row], cols)
  {
    var faces := init + [row];
    forall i | 0 <= i < |faces| ensures |faces[i]| == cols {
      if i < |init| {
        assert faces[i] == init[i];
      }
    }
  }

  /** Each padded cell of a clean row strips back to the cell. */
  lemma PaddedStrips(row: seq<string>)
    requires CleanRow(row)
    ensures forall j :: 0 <= j < |row| ==> Strip(Padded(row)[j]) == row[j]
  {
    forall j | 0 <= j < |row| ensures Strip(Padded(row)[j]) == row[j] {
      StripPadLeft(row[j], 5);
    }
  }

  lemma RowKeys(cols: nat, rows: nat, above: Cells, values: seq<string>, base: Cells, cells: Cells)
    requires |values| == cols && HasCells(above, cols, rows)
    requires base == above[(rows + 2, 1) := Decimal(rows + 1)] && cells == WriteCells(base, rows + 2, 2, values)
    ensures HasCells(cells, cols, rows + 1)
  {
    forall k ensures k in cells <==> InGrid(k, cols, rows + 1) {
      WriteCellsKeys(base, rows + 2, 2, values, k);
    }
  }

  lemma RowHeader(cols: nat, rows: nat, above: Cells, values: seq<string>, base: Cells, cells: Cells)
    requires HeaderRow(above, cols)
    requires base == above[(rows + 2, 1) := Decimal(rows + 1)] && cells == WriteCells(base, rows + 2, 2, values)
    ensures HeaderRow(cells, cols)
  {
    forall c | 2 <= c <= cols + 1 ensures (1, c) in cells && cells[(1, c)] == Decimal(c - 1) {
      WriteCellsValue(base, rows + 2, 2, values, (1, c));
    }
  }

  lemma RowNumbers(cols: nat, rows: nat, above: Cells, values: seq<string>, base: Cells, cells: Cells)
    requires NumberColumn(above, rows)
    requires base == above[(rows + 2, 1) := Decimal(rows + 1)] && cells == WriteCells(base, rows + 2, 2, values)
    ensures NumberColumn(cells, rows + 1)
  {
    forall i | 2 <= i <= rows + 2 ensures (i, 1) in cells && cells[(i, 1)] == Decimal(i - 1) {
      WriteCellsValue(base, rows + 2, 2, values, (i, 1));
    }
  }

  lemma RowBody(cols: nat, init: seq<seq<string>>, row: seq<string>, above: Cells, base: Cells, cells: Cells)
    requires Rectangular(init, cols) && |row| == cols && CleanRow(row)
    requires Body(above, cols, init)
    requires base == above[(|init| + 2, 1) := Decimal(|init| + 1)] && cells == WriteCells(base, |init| + 2, 2, Padded(row))
    ensures Rectangular(init + [row], cols) && Body(cells, cols, init + [row])
  {
    var faces := init + [row];
    var values := Padded(row);
    var r := |init| + 2;
    RectangularSnoc(init, row, cols);
    PaddedStrips(row);
    forall i, c | 2 <= i <= |faces| + 1 && 2 <= c <= cols + 1
      ensures (i, c) in cells && cells[(i, c)] == faces[i - 2][c - 2]
    {
      if i == r {
        NewCell(base, r, values, row, c);
        assert faces[i - 2] == row;
      } else {
        OldCell(cols, init, above, base, r, values, i, c);
        assert faces[i - 2] == init[i - 2];
      }
    }
  }

  lemma NewCell(base: Cells, r: nat, values: seq<string>, row: seq<string>, c: nat)
    requires |values| == |row| && 2 <= c < |row| + 2 && Strip(values[c - 2]) == row[c - 2]
    ensures (r, c) in WriteCells(base, r, 2, values) && WriteCells(base, r, 2, values)[(r, c)] == row[c - 2]
  {
    WriteCellsValue(base, r, 2, values, (r, c));
  }

  lemma OldCell(cols: nat, init: seq<seq<string>>, above: Cells, base: Cells, r: nat, values: seq<string>, i: nat, c: nat)
    requires Rectangular(init, cols) && r == |init| + 2 && base == above[(r, 1) := Decimal(|init| + 1)]
    requires Body(above, cols, init) && 2 <= i < r && 2 <= c <= cols + 1
    ensures (i, c) in WriteCells(base, r, 2, values) && WriteCells(base, r, 2, values)[(i, c)] == init[i - 2][c - 2]
  {
    WriteCellsValue(base, r, 2, values, (i, c));
  }

  lemma {:induction false} ParseGrid(cols: nat, faces: seq<seq<string>>)
    requires cols >= 1 && Rectangular(faces, cols) && CleanGrid(faces)
    ensures ParseLines(GridLines(cols, faces)).next == |faces| + 2
    ensures Shows(ParseLines(GridLines(cols, faces)).cells, cols, faces)
  {
    if faces == [] {
      ParseHeader(cols);
    } else {
      var n := |faces| - 1;
      LastRow(faces, cols);
      ParseGrid(cols, faces[..n]);
      ParseRow(cols, faces[..n], faces[n]);
    }
  }

  /** A grid is the grid of its rows but the last, followed by the last row. */
  lemma LastRow(faces: seq<seq<string>>, cols: nat)
    requires |faces| >= 1 && CleanGrid(faces)
    ensures CleanGrid(faces[..|faces| - 1])
    ensures CleanRow(faces[|faces| - 1])
    ensures Rectangular(faces, cols) ==> Rectangular(faces[..|faces| - 1], cols) && |faces[|faces| - 1]| == cols
    ensures faces[..|faces| - 1] + [faces[|faces| - 1]] == faces
  {
    var n := |faces| - 1;
    var init := faces[..n];
    forall i, j | 0 <= i < n && 0 <= j < |init[i]| ensures CleanCell(init[i][j]) {
      assert init[i] == faces[i];
    }
    if Rectangular(faces, cols) {
      forall i | 0 <= i < n ensures |init[i]| == cols {
        assert init[i] == faces[i];
      }
    }
  }

  // ---------------------------------------------------------------- the whole text

  /** No grid line holds a line break or starts like the legend title. */
  lemma {:induction false} GridLinesPlain(cols: nat, faces: seq<seq<string>>)
    requires cols >= 1 && CleanGrid(faces)
    ensures forall k :: 0 <= k < |GridLines(cols, faces)| ==>
      NoLineBreak(GridLines(cols, faces)[k]) && !StartsWith(GridLines(cols, faces)[k], "Legend:")
  {
    if faces == [] {
      HeaderNoBreak(cols);
      HeaderStart(cols);
      SeparatorFacts(cols);
    } else {
      var n := |faces| - 1;
      LastRow(faces, cols);
      GridLinesPlain(cols, faces[..n]);
      SeparatorFacts(cols);
      BodyNoBreak(n, faces[n]);
      BodyStart(n, faces[n]);
      PlainSnoc(GridLines(cols, faces[..n]), BodyLine(n, faces[n]), Separator(cols));
    }
  }

  lemma PlainSnoc(g: seq<string>, b: string, s: string)
    requires forall k :: 0 <= k < |g| ==> NoLineBreak(g[k]) && !StartsWith(g[k], "Legend:")
    requires NoLineBreak(b) && !StartsWith(b, "Legend:") && NoLineBreak(s) && !StartsWith(s, "Legend:")
    ensures forall k :: 0 <= k < |g + [b, s]| ==> NoLineBreak((g + [b, s])[k]) && !StartsWith((g + [b, s])[k], "Legend:")
  {
    var h := g + [b, s];
    forall k | 0 <= k < |h| ensures NoLineBreak(h[k]) && !StartsWith(h[k], "Legend:") {
      if k < |g| {
        assert h[k] == g[k];
      }
    }
  }

  /** The lines of the layout text are the grid lines, the "Legend:" line and the
      lines of the legend. */
  lemma LayoutSplit(grid: seq<string>, legend: string, text: string)
    requires |grid| >= 1 && forall k :: 0 <= k < |grid| ==> NoLineBreak(grid[k])
    requires text == Join(grid, "\n") + LegendHead + legend
    ensures SplitLines(text) == grid + (["Legend:"] + SplitLines(legend))
  {
    LegendHeadLines(Join(grid, "\n"), legend);
    SplitLinesJoin(grid, "Legend:" + "\n" + legend);
    TitlePlain();
    SplitLinesAfter("Legend:", legend);
  }

  lemma TitlePlain()
    ensures NoLineBreak("Legend:")
  {
  }

  lemma LegendHeadLines(g: string, legend: string)
    ensures g + LegendHead + legend == g + "\n" + ("Legend:" + "\n" + legend)
  {
  }

  /** The parser stops at the "Legend:" line that follows the grid. */
  lemma LegendAfter(grid: seq<string>, lines: seq<string>, tail: seq<string>)
    requires forall k :: 0 <= k < |grid| ==> !StartsWith(grid[k], "Legend:")
    requires lines == grid + (["Legend:"] + tail)
    ensures lines[..LegendStart(lines)] == grid
  {
    assert lines[|grid|] == "Legend:";
    PrefixStarts("Legend:", []);
    assert forall j :: 0 <= j < |grid| ==> lines[j] == grid[j];
    assert LegendStart(lines) == |grid|;
    assert lines[..|grid|] == grid;
  }

  lemma LayoutLines(cols: nat, faces: seq<seq<string>>, t: DiceType, o: DiceOption, selected: seq<Color>)
    requires cols >= 1 && Rectangular(faces, cols) && CleanGrid(faces)
    ensures var lines := SplitLines(LayoutText(cols, faces, t, o, selected));
      lines[..LegendStart(lines)] == GridLines(cols, faces)
  {
    var grid := GridLines(cols, faces);
    var legend := Concat(LegendLines(t, o, selected));
    GridLinesPlain(cols, faces);
    LayoutSplit(grid, legend, LayoutText(cols, faces, t, o, selected));
    LegendAfter(grid, SplitLines(LayoutText(cols, faces, t, o, selected)), SplitLines(legend));
  }

  /** Saving a layout to a worksheet shows its grid: with at least one column,
      row 1 holds the column numbers, column 1 the row numbers and every cell code
      stands in its place. */
  lemma SheetShowsLayout(cols: nat, faces: seq<seq<string>>, t: DiceType, o: DiceOption, selected: seq<Color>)
    requires cols >= 1 && Rectangular(faces, cols) && CleanGrid(faces)
    ensures Shows(Parse(LayoutText(cols, faces, t, o, selected)), cols, faces)
  {
    LayoutLines(cols, faces, t, o, selected);
    ParseGrid(cols, faces);
  }
}
