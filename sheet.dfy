/** Reading the layout text back into a worksheet (dice_image_generator.py,
    save_layout_to_excel). The worksheet is a map from (row, column), both
    counted from 1, to the text of the cell. */
module Sheet {
  import opened Wrappers
  import opened Text
  import opened Colors
  import opened Faces
  import opened Layout

  type Cells = map<(nat, nat), string>

  /** A worksheet whose cells are written one at a time. */
  class Worksheet {
    var cells: Cells

    constructor ()
      ensures cells == map[]
    {
      cells := map[];
    }

    /** ws.cell(row=row, column=col, value=value) */
    method SetCell(row: nat, col: nat, value: string)
      modifies this
      ensures cells == old(cells)[(row, col) := value]
    {
      cells := cells[(row, col) := value];
    }
  }

  /** parts[1:-1]: the parts between the first and the last. */
  function Inner(parts: seq<string>): (r: seq<string>)
    ensures |parts| >= 2 ==> r == parts[1..|parts| - 1]
    ensures |parts| < 2 ==> r == []
  {
    if |parts| < 2 then [] else parts[1..|parts| - 1]
  }

  /** Writes the stripped values into one row, from column col on, left to right. */
  function WriteCells(cells: Cells, row: nat, col: nat, values: seq<string>): Cells {
    if values == [] then cells
    else
      var n := |values| - 1;
      WriteCells(cells, row, col, values[..n])[(row, col + n) := Strip(values[n])]
  }

  /** The cells written are exactly the |values| cells of the row from column col on. */
  lemma {:induction false} WriteCellsKeys(cells: Cells, row: nat, col: nat, values: seq<string>, k: (nat, nat))
    ensures k in WriteCells(cells, row, col, values) <==> k in cells || (k.0 == row && col <= k.1 < col + |values|)
  {
    if values != [] {
      WriteCellsKeys(cells, row, col, values[..|values| - 1], k);
    }
  }

  /** Column col + j holds the stripped value j; every other cell keeps its value. */
  lemma {:induction false} WriteCellsValue(cells: Cells, row: nat, col: nat, values: seq<string>, k: (nat, nat))
    requires k in cells || (k.0 == row && col <= k.1 < col + |values|)
    ensures k in WriteCells(cells, row, col, values)
    ensures k.0 == row && col <= k.1 < col + |values| ==> WriteCells(cells, row, col, values)[k] == Strip(values[k.1 - col])
    ensures !(k.0 == row && col <= k.1 < col + |values|) ==> WriteCells(cells, row, col, values)[k] == cells[k]
  {
    WriteCellsKeys(cells, row, col, values, k);
    if values != [] {
      var n := |values| - 1;
      if k != (row, col + n) {
        WriteCellsValue(cells, row, col, values[..n], k);
      }
    }
  }

  /** Where the parser stands: the next worksheet row and the cells written so far. */
  datatype Progress = Progress(next: nat, cells: Cells)

  const Start := Progress(1, map[])

  /** One line of the grid: separators and blank lines are skipped; the header
      gives the column numbers; any other line with a row number gives the number
      in column 1 and its cells from column 2 on. */
  function ParseLine(p: Progress, line: string): (r: Progress)
    ensures r.next == p.next || r.next == p.next + 1
  {
    if StartsWith(line, "----") || Strip(line) == [] then p
    else if StartsWith(line, "    |") then
      Progress(p.next + 1, WriteCells(p.cells, p.next, 2, Inner(Split(line, '|'))))
    else
      var parts := Split(line, '|');
      var rowNum := Strip(parts[0]);
      if rowNum == [] then p
      else Progress(p.next + 1, WriteCells(p.cells[(p.next, 1) := rowNum], p.next, 2, Inner(parts)))
  }

  function ParseLines(lines: seq<string>): Progress {
    if lines == [] then Start else ParseLine(ParseLines(lines[..|lines| - 1]), lines[|lines| - 1])
  }

  /** The index of the first line that starts with "Legend:", or the number of lines. */
  function LegendStart(lines: seq<string>): (i: nat)
    ensures i <= |lines|
    ensures i < |lines| ==> StartsWith(lines[i], "Legend:")
    ensures forall j :: 0 <= j < i ==> !StartsWith(lines[j], "Legend:")
  {
    if lines == [] || StartsWith(lines[0], "Legend:") then 0
    else
      var i := LegendStart(lines[1..]);
      assert forall j :: 1 <= j < i + 1 ==> lines[j] == lines[1..][j - 1];
      i + 1
  }

  /** The worksheet save_layout_to_excel fills from a layout text. */
  function Parse(text: string): Cells {
    var lines := SplitLines(text);
    ParseLines(lines[..LegendStart(lines)]).cells
  }

  datatype SaveError = NoLayout

  /** save_layout_to_excel: the parsed worksheet, or an error when there is no layout. */
  method SaveLayoutToExcel(text: string) returns (r: Result<Worksheet, SaveError>)
    ensures r.Failure? <==> text == []
    ensures r.Success? ==> r.value.cells == Parse(text)
  {
    if text == [] {
      return Failure(NoLayout);
    }
    var ws := new Worksheet();
    var lines := SplitLines(text);

    var legendStart := 0;
    while legendStart < |lines| && !StartsWith(lines[legendStart], "Legend:")
      invariant 0 <= legendStart <= |lines|
      invariant forall j :: 0 <= j < legendStart ==> !StartsWith(lines[j], "Legend:")
    {
      legendStart := legendStart + 1;
    }
    assert legendStart == LegendStart(lines);
    var gridLines := lines[..legendStart];

    var rowCounter := 1;
    var k := 0;
    assert gridLines[..0] == [];
    while k < |gridLines|
      invariant 0 <= k <= |gridLines|
      invariant Progress(rowCounter, ws.cells) == ParseLines(gridLines[..k])
    {
      rowCounter := ParseLineInto(ws, rowCounter, gridLines[k]);
      assert gridLines[..k + 1][..k] == gridLines[..k];
      k := k + 1;
    }
    assert gridLines[..k] == gridLines;
    return Success(ws);
  }

  /** The body of the parsing loop for one line. */
  method ParseLineInto(ws: Worksheet, rowCounter: nat, line: string) returns (next: nat)
    modifies ws
    ensures Progress(next, ws.cells) == ParseLine(Progress(rowCounter, old(ws.cells)), line)
  {
    next := rowCounter;
    if StartsWith(line, "----") || Strip(line) == [] {
      return;
    }
    if StartsWith(line, "    |") {
      var columns := Inner(Split(line, '|'));
      WriteRow(ws, rowCounter, columns);
      next := rowCounter + 1;
    } else {
      var parts := Split(line, '|');
      var rowNum := Strip(parts[0]);
      if rowNum == [] {
        return;
      }
      ws.SetCell(rowCounter, 1, rowNum);
      WriteRow(ws, rowCounter, Inner(parts));
      next := rowCounter + 1;
    }
  }

  /** Writes the stripped values into a row of the worksheet, from column 2 on. */
  method WriteRow(ws: Worksheet, row: nat, values: seq<string>)
    modifies ws
    ensures ws.cells == WriteCells(old(ws.cells), row, 2, values)
  {
    ghost var base := ws.cells;
    var j := 0;
    while j < |values|
      invariant 0 <= j <= |values|
      invariant ws.cells == WriteCells(base, row, 2, values[..j])
    {
      assert values[..j + 1][..j] == values[..j];
      ws.SetCell(row, j + 2, Strip(values[j]));
      j := j + 1;
    }
    assert values[..j] == values;
  }
}
