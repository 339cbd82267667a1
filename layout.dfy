/** The layout text and the dice count per colour (dice_image_generator.py,
    build_layout_and_count). */
module Layout {
  import opened Text
  import opened Dither
  import opened Colors
  import opened Faces

  // ---------------------------------------------------------------- the grid

  /** s * n. */
  function Repeat(s: string, n: nat): (r: string)
    ensures |r| == n * |s|
  {
    if n == 0 then "" else Repeat(s, n - 1) + s
  }

  /** The column numbers 1..cols, each right-aligned in five characters. */
  function ColumnLabels(cols: nat): (r: seq<string>)
    ensures |r| == cols
  {
    seq(cols, c requires 0 <= c < cols => PadLeft(Decimal(c + 1), 5))
  }

  /** The cells of a row, each right-aligned in five characters. */
  function Padded(row: seq<string>): (r: seq<string>)
    ensures |r| == |row|
  {
    seq(|row|, j requires 0 <= j < |row| => PadLeft(row[j], 5))
  }

  function Header(cols: nat): string {
    "    |" + Join(ColumnLabels(cols), "|") + "|"
  }

  function Separator(cols: nat): string {
    "----" + Repeat("+-----", cols) + "+"
  }

  /** The line of row idx (counted from 0): its number right-aligned in three
      characters, then the cells between bars. */
  function BodyLine(idx: nat, row: seq<string>): string {
    PadLeft(Decimal(idx + 1), 3) + " |" + Join(Padded(row), "|") + "|"
  }

  /** The lines of the grid: the header, a separator, and a line and a separator
      for every row of faces. */
  function GridLines(cols: nat, faces: seq<seq<string>>): (r: seq<string>)
    ensures |r| == 2 * |faces| + 2
    ensures r[0] == Header(cols)
  {
    if faces == [] then [Header(cols), Separator(cols)]
    else
      var n := |faces| - 1;
      GridLines(cols, faces[..n]) + [BodyLine(n, faces[n]), Separator(cols)]
  }

  /** Every other line, from the second on, is a separator. */
  lemma {:induction false} GridSeparatorAt(cols: nat, faces: seq<seq<string>>, k: nat)
    requires k <= |faces|
    ensures GridLines(cols, faces)[2 * k + 1] == Separator(cols)
  {
    if k < |faces| {
      var n := |faces| - 1;
      GridSeparatorAt(cols, faces[..n], k);
    }
  }

  /** Line 2k + 2 is the line of row k. */
  lemma {:induction false} GridRowAt(cols: nat, faces: seq<seq<string>>, k: nat)
    requires k < |faces|
    ensures GridLines(cols, faces)[2 * k + 2] == BodyLine(k, faces[k])
  {
    var n := |faces| - 1;
    var prev := GridLines(cols, faces[..n]);
    var line := BodyLine(n, faces[n]);
    assert GridLines(cols, faces) == prev + [line, Separator(cols)];
    if k < n {
      GridRowAt(cols, faces[..n], k);
      assert faces[..n][k] == faces[k];
      assert prev[2 * k + 2] == BodyLine(k, faces[k]);
    } else {
      assert 2 * k + 2 == |prev|;
    }
  }

  // ---------------------------------------------------------------- the legend

  /** The legend line of a colour: its code prefix and its name. */
  function Entry(c: Color): (s: string)
    ensures StartsWith(s, Prefix(c))
  {
    Prefix(c) + " - " + Capitalize(Name(c)) + " Dice\n"
  }

  /** The text between the grid and the legend lines. */
  const LegendHead := "\nLegend:\n"

  /** The fixed lines of the monochrome legends. */
  const BlackLine := "Bla - Black Dice\n"
  const WhiteLine := "Whi - White Dice\n"
  const SolidLine := "S - Solid Face\n"
  const NumberLine := "1 to 6 - Dice Face with that Number\n"

  /** The single-colour legend line, built from a word of the option label. */
  function WordEntry(word: string): string {
    Take(word, 3) + " - " + word + " Dice\n"
  }

  /** Proof steps of CombinedEntries: the capitalised names and the fixed lines, piece by piece. */
  lemma CapitalizedWhite()
    ensures Capitalize(Name(White)) == "White"
  {
    assert Capitalize(Name(White)) == ['W', 'h', 'i', 't', 'e'];
  }

  lemma CapitalizedBlack()
    ensures Capitalize(Name(Black)) == "Black"
  {
    assert Capitalize(Name(Black)) == ['B', 'l', 'a', 'c', 'k'];
  }

  lemma WhiteLineParts()
    ensures WhiteLine == "Whi" + " - " + "White" + " Dice\n"
  {
  }

  lemma BlackLineParts()
    ensures BlackLine == "Bla" + " - " + "Black" + " Dice\n"
  {
  }

  /** The fixed lines of the combined legend are the legend lines of black and white. */
  lemma CombinedEntries()
    ensures Entry(Black) == BlackLine
    ensures Entry(White) == WhiteLine
  {
    PrefixTable();
    CapitalizedWhite();
    CapitalizedBlack();
    WhiteLineParts();
    BlackLineParts();
  }

  /** The single-colour legend line is the legend line of the option's colour. */
  lemma SingleEntryIsEntry(o: DiceOption)
    requires o != CombinedDice
    ensures WordEntry(FirstWord(OptionLabel(o))) == Entry(SingleColor(o))
  {
    FirstWordOfOption(o);
    CombinedEntries();
    if o == WhiteDice {
      WordEntryWhite();
    } else {
      WordEntryBlack();
    }
  }

  lemma WordEntryWhite()
    ensures WordEntry("White") == WhiteLine
  {
    assert Take("White", 3) == "Whi";
    WhiteLineParts();
  }

  lemma WordEntryBlack()
    ensures WordEntry("Black") == BlackLine
  {
    assert Take("Black", 3) == "Bla";
    BlackLineParts();
  }

  /** The legend lines of coloured dice: one per selected colour, in order. */
  function Entries(selected: seq<Color>): (r: seq<string>)
    ensures |r| == |selected|
    ensures forall i :: 0 <= i < |selected| ==> r[i] == Entry(selected[i])
  {
    seq(|selected|, i requires 0 <= i < |selected| => Entry(selected[i]))
  }

  /** The legend lines of each dice mode. */
  function LegendLines(t: DiceType, o: DiceOption, selected: seq<Color>): (r: seq<string>)
  {
    if t == Colored then Entries(selected)
    else if o == CombinedDice then [BlackLine, WhiteLine, SolidLine, NumberLine]
    else [WordEntry(FirstWord(OptionLabel(o))), SolidLine, NumberLine]
  }

  /** Every colour a cell can get has its line in the legend, and the monochrome
      legends explain the solid face and the pips. */
  lemma LegendCovers(t: DiceType, o: DiceOption, selected: seq<Color>, v: Level)
    requires t == Colored ==> selected != []
    ensures Entry(CellColor(t, o, selected, v)) in LegendLines(t, o, selected)
    ensures t == Monochrome ==> SolidLine in LegendLines(t, o, selected) && NumberLine in LegendLines(t, o, selected)
  {
    var c := CellColor(t, o, selected, v);
    var r := LegendLines(t, o, selected);
    if t == Colored {
      var i :| 0 <= i < |selected| && selected[i] == c;
      assert r[i] == Entry(c);
    } else if o == CombinedDice {
      CombinedEntries();
    } else {
      SingleEntryIsEntry(o);
      assert r[0] == Entry(c);
    }
  }

  /** Different colours have different legend lines. */
  lemma EntryInjective(c: Color, d: Color)
    requires Entry(c) == Entry(d)
    ensures c == d
  {
    assert Entry(c)[..3] == Prefix(c);
    assert Entry(d)[..3] == Prefix(d);
    PrefixInjective(c, d);
  }

  /** No legend line is written twice when no colour is selected twice. */
  lemma LegendDistinct(t: DiceType, o: DiceOption, selected: seq<Color>)
    requires NoDuplicates(selected)
    ensures forall i, j :: 0 <= i < j < |LegendLines(t, o, selected)| ==> LegendLines(t, o, selected)[i] != LegendLines(t, o, selected)[j]
  {
    var r := LegendLines(t, o, selected);
    if t == Colored {
      forall i, j | 0 <= i < j < |r| ensures r[i] != r[j] {
        if r[i] == r[j] {
          EntryInjective(selected[i], selected[j]);
        }
      }
    } else if o == CombinedDice {
      assert BlackLine[0] == 'B' && WhiteLine[0] == 'W' && SolidLine[0] == 'S' && NumberLine[0] == '1';
    } else {
      SingleEntryIsEntry(o);
      PrefixTable();
      var e := Entry(SingleColor(o));
      assert e[..3] == Prefix(SingleColor(o));
      assert e[0] == 'W' || e[0] == 'B';
      assert SolidLine[0] == 'S' && NumberLine[0] == '1';
    }
  }

  /** The concatenation of lines. */
  function Concat(lines: seq<string>): string {
    if lines == [] then "" else Concat(lines[..|lines| - 1]) + lines[|lines| - 1]
  }

  /** Proof step: regrouping a concatenation, kept apart so the loop of BuildLegend stays cheap. */
  lemma Associative(a: string, b: string, c: string)
    ensures (a + b) + c == a + (b + c)
  {
  }

  lemma Concat3(a: string, b: string, c: string)
    ensures Concat([a, b, c]) == a + b + c
  {
    assert [a, b, c][..2] == [a, b];
    assert [a, b][..1] == [a];
    assert [a][..0] == [];
    assert Concat([a]) == a;
    assert Concat([a, b]) == a + b;
  }

  lemma Concat4(a: string, b: string, c: string, d: string)
    ensures Concat([a, b, c, d]) == a + b + c + d
  {
    assert [a, b, c, d][..3] == [a, b, c];
    Concat3(a, b, c);
  }

  /** The whole layout text: the grid lines joined by line breaks, then the legend. */
  function LayoutText(cols: nat, faces: seq<seq<string>>, t: DiceType, o: DiceOption, selected: seq<Color>): string {
    Join(GridLines(cols, faces), "\n") + LegendHead + Concat(LegendLines(t, o, selected))
  }

  // ---------------------------------------------------------------- counts

  /** The colours in the order np.unique returns them: by name. */
  const Alphabetical: seq<Color> := [Black, Blue, Red, White, Yellow]

  lemma AlphabeticalOrder()
    ensures forall c :: c in Alphabetical
    ensures forall i, j :: 0 <= i < j < |Alphabetical| ==> Below(Name(Alphabetical[i]), Name(Alphabetical[j]))
  {
    forall c ensures c in Alphabetical {
      match c
      case Black => assert Alphabetical[0] == c;
      case Blue => assert Alphabetical[1] == c;
      case Red => assert Alphabetical[2] == c;
      case White => assert Alphabetical[3] == c;
      case Yellow => assert Alphabetical[4] == c;
    }
    assert Below(Name(Black), Name(Blue));
    assert Below(Name(Blue), Name(Red));
    assert Below(Name(Red), Name(White));
    assert Below(Name(White), Name(Yellow));
    BelowTransitive(Name(Black), Name(Blue), Name(Red));
    BelowTransitive(Name(Black), Name(Red), Name(White));
    BelowTransitive(Name(Black), Name(White), Name(Yellow));
    BelowTransitive(Name(Blue), Name(Red), Name(White));
    BelowTransitive(Name(Blue), Name(White), Name(Yellow));
    BelowTransitive(Name(Red), Name(White), Name(Yellow));
  }

  lemma {:induction false} BelowTransitive(a: string, b: string, c: string)
    requires Below(a, b) && Below(b, c)
    ensures Below(a, c)
  {
    if |a| > 0 && a[0] == b[0] && b[0] == c[0] {
      BelowTransitive(a[1..], b[1..], c[1..]);
    }
  }

  /** The number of cells of colour c. */
  function CountIn(grid: seq<seq<Color>>, c: Color): nat {
    if grid == [] then 0 else CountIn(grid[..|grid| - 1], c) + multiset(grid[|grid| - 1])[c]
  }

  /** The number of cells. */
  function CellCount(grid: seq<seq<Color>>): nat {
    if grid == [] then 0 else CellCount(grid[..|grid| - 1]) + |grid[|grid| - 1]|
  }

  /** The colours of cs that occur in the grid, in the order of cs, with their counts. */
  function TallyOver(cs: seq<Color>, grid: seq<seq<Color>>): seq<(Color, nat)> {
    if cs == [] then []
    else
      var n := CountIn(grid, cs[0]);
      (if n > 0 then [(cs[0], n)] else []) + TallyOver(cs[1..], grid)
  }

  /** np.unique(colors, return_counts=True): every colour that occurs, by name, with its count. */
  function Tally(grid: seq<seq<Color>>): seq<(Color, nat)> {
    TallyOver(Alphabetical, grid)
  }

  lemma {:induction false} TallyOverEntries(cs: seq<Color>, grid: seq<seq<Color>>)
    ensures forall p :: p in TallyOver(cs, grid) ==> p.0 in cs && p.1 == CountIn(grid, p.0) && p.1 > 0
  {
    if cs != [] {
      TallyOverEntries(cs[1..], grid);
    }
  }

  lemma {:induction false} TallyOverComplete(cs: seq<Color>, grid: seq<seq<Color>>, c: Color)
    requires c in cs && CountIn(grid, c) > 0
    ensures (c, CountIn(grid, c)) in TallyOver(cs, grid)
  {
    if cs[0] != c {
      TallyOverComplete(cs[1..], grid, c);
    }
  }

  /** The entries are in the alphabetical order of their colour names. */
  predicate NamesOrdered(r: seq<(Color, nat)>) {
    forall i, j :: 0 <= i < j < |r| ==> Below(Name(r[i].0), Name(r[j].0))
  }

  /** The entries of Tally follow the alphabetical order of the colour names. */
  lemma {:induction false} TallyOrdered(cs: seq<Color>, grid: seq<seq<Color>>)
    requires forall i, j :: 0 <= i < j < |cs| ==> Below(Name(cs[i]), Name(cs[j]))
    ensures NamesOrdered(TallyOver(cs, grid))
  {
    if cs != [] {
      var rest := TallyOver(cs[1..], grid);
      TallyOrdered(cs[1..], grid);
      TallyFirstBelow(cs, grid);
      var n := CountIn(grid, cs[0]);
      if n > 0 {
        OrderedCons((cs[0], n), rest);
      } else {
        assert TallyOver(cs, grid) == rest;
      }
    }
  }

  /** The first colour of cs comes before every colour of the rest of the tally. */
  lemma TallyFirstBelow(cs: seq<Color>, grid: seq<seq<Color>>)
    requires cs != []
    requires forall i, j :: 0 <= i < j < |cs| ==> Below(Name(cs[i]), Name(cs[j]))
    ensures forall p :: p in TallyOver(cs[1..], grid) ==> Below(Name(cs[0]), Name(p.0))
  {
    TallyOverEntries(cs[1..], grid);
    forall p | p in TallyOver(cs[1..], grid) ensures Below(Name(cs[0]), Name(p.0)) {
      var m :| 0 <= m < |cs[1..]| && cs[1..][m] == p.0;
      assert cs[m + 1] == p.0;
    }
  }

  lemma OrderedCons(e: (Color, nat), rest: seq<(Color, nat)>)
    requires NamesOrdered(rest)
    requires forall p :: p in rest ==> Below(Name(e.0), Name(p.0))
    ensures NamesOrdered([e] + rest)
  {
    var r := [e] + rest;
    forall i, j | 0 <= i < j < |r| ensures Below(Name(r[i].0), Name(r[j].0)) {
      assert r[j] == rest[j - 1];
      if i > 0 {
        assert r[i] == rest[i - 1];
      } else {
        assert rest[j - 1] in rest;
      }
    }
  }

  /** The dice counts of each mode: np.unique over the colour grid for coloured and
      combined dice, all the dice in the option's colour otherwise. */
  function Counts(t: DiceType, o: DiceOption, grid: seq<seq<Color>>, cols: nat, rows: nat): seq<(Color, nat)> {
    if t == Colored || o == CombinedDice then Tally(grid) else [(SingleColor(o), cols * rows)]
  }

  function Sum(counts: seq<(Color, nat)>): nat {
    if counts == [] then 0 else counts[0].1 + Sum(counts[1..])
  }

  function SumOf(cs: seq<Color>, grid: seq<seq<Color>>): nat {
    if cs == [] then 0 else CountIn(grid, cs[0]) + SumOf(cs[1..], grid)
  }

  lemma {:induction false} TallySum(cs: seq<Color>, grid: seq<seq<Color>>)
    ensures Sum(TallyOver(cs, grid)) == SumOf(cs, grid)
  {
    if cs != [] {
      TallySum(cs[1..], grid);
      var n := CountIn(grid, cs[0]);
      var rest := TallyOver(cs[1..], grid);
      if n > 0 {
        assert ([(cs[0], n)] + rest)[1..] == rest;
      } else {
        assert [] + rest == rest;
      }
    }
  }

  lemma SumOfAlphabetical(grid: seq<seq<Color>>)
    ensures SumOf(Alphabetical, grid) == CountIn(grid, Black) + CountIn(grid, Blue) + CountIn(grid, Red)
      + CountIn(grid, White) + CountIn(grid, Yellow)
  {
    var a := Alphabetical;
    assert a[1..] == [Blue, Red, White, Yellow];
    assert SumOf([White, Yellow], grid) == CountIn(grid, White) + CountIn(grid, Yellow) by {
      assert [White, Yellow][1..] == [Yellow];
      assert [Yellow][1..] == [];
      assert SumOf([], grid) == 0;
      assert SumOf([Yellow], grid) == CountIn(grid, Yellow) + SumOf([], grid);
      assert SumOf([White, Yellow], grid) == CountIn(grid, White) + SumOf([Yellow], grid);
    }
    assert SumOf([Blue, Red, White, Yellow], grid) == CountIn(grid, Blue) + CountIn(grid, Red)
      + SumOf([White, Yellow], grid) by {
      assert [Blue, Red, White, Yellow][1..] == [Red, White, Yellow];
      assert [Red, White, Yellow][1..] == [White, Yellow];
      assert SumOf([Red, White, Yellow], grid) == CountIn(grid, Red) + SumOf([White, Yellow], grid);
    }
  }

  lemma {:induction false} RowColours(row: seq<Color>)
    ensures multiset(row)[Black] + multiset(row)[Blue] + multiset(row)[Red]
      + multiset(row)[White] + multiset(row)[Yellow] == |row|
  {
    if row != [] {
      var init := row[..|row| - 1];
      RowColours(init);
      assert row == init + [row[|row| - 1]];
      var x := row[|row| - 1];
      assert multiset(row) == multiset(init) + multiset{x};
      forall c ensures multiset(row)[c] == multiset(init)[c] + (if c == x then 1 else 0) {
      }
    }
  }

  lemma {:induction false} GridColours(grid: seq<seq<Color>>)
    ensures CountIn(grid, Black) + CountIn(grid, Blue) + CountIn(grid, Red)
      + CountIn(grid, White) + CountIn(grid, Yellow) == CellCount(grid)
  {
    if grid != [] {
      GridColours(grid[..|grid| - 1]);
      RowColours(grid[|grid| - 1]);
    }
  }

  lemma {:induction false} CellCountRect(grid: seq<seq<Color>>, cols: nat)
    requires forall i :: 0 <= i < |grid| ==> |grid[i]| == cols
    ensures CellCount(grid) == |grid| * cols
  {
    if grid != [] {
      CellCountRect(grid[..|grid| - 1], cols);
    }
  }

  /** The counts add up to the number of dice, cols * rows. */
  lemma CountsTotal(t: DiceType, o: DiceOption, grid: seq<seq<Color>>, cols: nat, rows: nat)
    requires |grid| == rows && forall i :: 0 <= i < rows ==> |grid[i]| == cols
    ensures Sum(Counts(t, o, grid, cols, rows)) == cols * rows
  {
    if t == Colored || o == CombinedDice {
      TallySum(Alphabetical, grid);
      SumOfAlphabetical(grid);
      GridColours(grid);
      CellCountRect(grid, cols);
      assert |grid| * cols == cols * rows;
    }
  }

  /** np.unique's counts: exactly the colours that occur, each with the number of
      its cells, in the order of their names. */
  lemma TallyExact(grid: seq<seq<Color>>, c: Color)
    ensures CountIn(grid, c) > 0 <==> (c, CountIn(grid, c)) in Tally(grid)
    ensures forall p :: p in Tally(grid) ==> p.1 == CountIn(grid, p.0) && p.1 > 0
    ensures forall i, j :: 0 <= i < j < |Tally(grid)| ==> Below(Name(Tally(grid)[i].0), Name(Tally(grid)[j].0))
  {
    AlphabeticalOrder();
    TallyOverEntries(Alphabetical, grid);
    if CountIn(grid, c) > 0 {
      TallyOverComplete(Alphabetical, grid, c);
    }
    TallyOrdered(Alphabetical, grid);
  }

  // ---------------------------------------------------------------- building the text

  lemma EntriesStep(selected: seq<Color>, i: nat)
    requires i < |selected|
    ensures Concat(Entries(selected[..i + 1])) == Concat(Entries(selected[..i])) + Entry(selected[i])
  {
    assert Entries(selected[..i + 1])[..i] == Entries(selected[..i]);
  }

  /** Proof step of BuildLegend: the single-colour legend, appended piece by piece. */
  lemma WordLegend(word: string)
    ensures LegendHead + Take(word, 3) + " - " + word + " Dice\n" + SolidLine + NumberLine
         == LegendHead + Concat([WordEntry(word), SolidLine, NumberLine])
  {
    Concat3(WordEntry(word), SolidLine, NumberLine);
    assert LegendHead + Take(word, 3) + " - " + word + " Dice\n" == LegendHead + WordEntry(word);
  }

  /** Builds the layout text and the counts the way build_layout_and_count does. */
  method BuildLayoutAndCount(colors: seq<seq<Color>>, faces: array2<string>, cols: nat, rows: nat,
                             t: DiceType, o: DiceOption, selected: seq<Color>)
    returns (text: string, counts: seq<(Color, nat)>)
    ensures counts == Counts(t, o, colors, cols, rows)
    ensures text == LayoutText(cols, Rows(faces), t, o, selected)
  {
    var total := cols * rows;
    if t == Colored {
      counts := Tally(colors);
    } else if o == CombinedDice {
      counts := Tally(colors);
    } else {
      counts := [(SingleColor(o), total)];
    }

    var lines := BuildGridLines(cols, faces);
    text := Join(lines, "\n");

    var legend := BuildLegend(t, o, selected);
    assert text + legend == Join(GridLines(cols, Rows(faces)), "\n") + LegendHead + Concat(LegendLines(t, o, selected));
    text := text + legend;
  }

  /** The grid part of build_layout_and_count: header, separator, then a line and
      a separator per row of faces. */
  method BuildGridLines(cols: nat, faces: array2<string>) returns (lines: seq<string>)
    ensures lines == GridLines(cols, Rows(faces))
  {
    var header := "    |" + Join(ColumnLabels(cols), "|") + "|";
    var separator := "----" + Repeat("+-----", cols) + "+";
    assert header == Header(cols) && separator == Separator(cols);
    lines := [header, separator];
    ghost var grid := Rows(faces);
    assert grid[..0] == [];
    var idx := 0;
    while idx < faces.Length0
      invariant 0 <= idx <= faces.Length0
      invariant lines == GridLines(cols, grid[..idx])
    {
      var row := seq(faces.Length1, j requires 0 <= j < faces.Length1 reads faces => faces[idx, j]);
      ghost var done := grid[..idx + 1];
      assert done[..idx] == grid[..idx] && done[idx] == row by {
        assert row == grid[idx];
      }
      assert GridLines(cols, done) == GridLines(cols, grid[..idx]) + [BodyLine(idx, row), separator];
      lines := lines + [BodyLine(idx, row), separator];
      idx := idx + 1;
    }
    assert grid[..idx] == grid;
  }

  /** The legend part of build_layout_and_count: the heading, then the lines of
      the dice mode. */
  method BuildLegend(t: DiceType, o: DiceOption, selected: seq<Color>) returns (legend: string)
    ensures legend == LegendHead + Concat(LegendLines(t, o, selected))
  {
    legend := LegendHead;
    ghost var lines0 := LegendLines(t, o, selected);
    if t == Colored {
      var i := 0;
      while i < |selected|
        invariant 0 <= i <= |selected|
        invariant legend == LegendHead + Concat(Entries(selected[..i]))
      {
        EntriesStep(selected, i);
        var entry := Entry(selected[i]);
        Associative(LegendHead, Concat(Entries(selected[..i])), entry);
        legend := legend + entry;
        i := i + 1;
      }
      assert selected[..i] == selected;
      assert legend == LegendHead + Concat(lines0);
    } else if o == CombinedDice {
      legend := legend + BlackLine;
      legend := legend + WhiteLine;
      legend := legend + SolidLine;
      legend := legend + NumberLine;
      Concat4(BlackLine, WhiteLine, SolidLine, NumberLine);
      assert legend == LegendHead + Concat(lines0);
    } else {
      var color := FirstWord(OptionLabel(o));
      legend := legend + Take(color, 3) + " - " + color + " Dice\n";
      legend := legend + SolidLine;
      legend := legend + NumberLine;
      WordLegend(color);
      assert lines0 == [WordEntry(color), SolidLine, NumberLine];
    }
  }
}
