/** The die face and the face code of every cell (dice_image_generator.py,
    the cell loop of create_dice_image). */
module Faces {
  import opened Wrappers
  import opened Text
  import opened Dither
  import opened Colors

  /** A die face: the solid face or the face with n pips. */
  datatype Face = Solid | Pips(n: nat)

  predicate IsDieFace(f: Face) {
    f.Solid? || 1 <= f.n <= 6
  }

  /** Coloured dice: level v shows v % 6 + 1 pips. */
  function ColoredFace(v: Level): (f: Face)
    ensures f.Pips? && IsDieFace(f)
    ensures v <= 5 ==> f.n == v + 1
    ensures v >= 6 ==> f.n == v - 5
  {
    Pips(v % 6 + 1)
  }

  /** Monochrome dice: the two extreme levels show the solid face, the others
      show as many pips as the level. */
  function MonoFace(v: Level): (f: Face)
    ensures IsDieFace(f)
    ensures f.Solid? <==> v == 0 || v == 7
    ensures f.Pips? ==> f.n == v
  {
    if v == 0 || v == 7 then Solid else Pips(v)
  }

  /** How a face is written in a code: "S" for the solid face, else the pip count. */
  function Token(f: Face): (s: string)
    ensures 1 <= |s|
  {
    match f
    case Solid => "S"
    case Pips(n) => Decimal(n)
  }

  /** color[:3].capitalize(): the three-letter colour prefix of a code. */
  function Prefix(c: Color): (p: string)
    ensures |p| == 3
  {
    Capitalize(Name(c)[..3])
  }

  /** The prefixes spelled out. */
  lemma PrefixTable()
    ensures Prefix(White) == "Whi" && Prefix(Black) == "Bla" && Prefix(Red) == "Red"
    ensures Prefix(Blue) == "Blu" && Prefix(Yellow) == "Yel"
  {
    assert Prefix(White) == ['W', 'h', 'i'];
    assert Prefix(Black) == ['B', 'l', 'a'];
    assert Prefix(Red) == ['R', 'e', 'd'];
    assert Prefix(Blue) == ['B', 'l', 'u'];
    assert Prefix(Yellow) == ['Y', 'e', 'l'];
  }

  /** The code written into the layout for a die of colour c showing face f. */
  function Code(c: Color, f: Face): (s: string)
    ensures |s| == 3 + |Token(f)|
  {
    Prefix(c) + Token(f)
  }

  /** The face code of one cell in each dice mode: coloured dice use the cell's
      colour and ColoredFace, combined dice the cell's colour and MonoFace,
      single-colour dice the option's colour and MonoFace. */
  function CellFace(t: DiceType, v: Level): (f: Face)
    ensures IsDieFace(f)
    ensures t == Colored ==> f == ColoredFace(v)
    ensures t == Monochrome ==> f == MonoFace(v)
  {
    if t == Colored then ColoredFace(v) else MonoFace(v)
  }

  function CellCode(t: DiceType, o: DiceOption, color: Color, v: Level): (s: string)
    ensures t == Colored ==> s == Code(color, ColoredFace(v))
    ensures t == Monochrome && o == CombinedDice ==> s == Code(color, MonoFace(v))
    ensures t == Monochrome && o != CombinedDice ==> s == Code(SingleColor(o), MonoFace(v))
  {
    if t == Monochrome && o != CombinedDice then Code(SingleColor(o), CellFace(t, v))
    else Code(color, CellFace(t, v))
  }

  // ---------------------------------------------------------------- reading a code back

  function PrefixColor(p: string): (r: Option<Color>)
    ensures r.Some? ==> Prefix(r.value) == p
  {
    if p == Prefix(White) then Some(White)
    else if p == Prefix(Black) then Some(Black)
    else if p == Prefix(Red) then Some(Red)
    else if p == Prefix(Blue) then Some(Blue)
    else if p == Prefix(Yellow) then Some(Yellow)
    else None
  }

  /** The colour and face a code denotes, if it is a code at all. */
  function ParseCode(s: string): (r: Option<(Color, Face)>)
    ensures r.Some? ==> IsDieFace(r.value.1) && Code(r.value.0, r.value.1) == s
  {
    if |s| != 4 then None
    else match PrefixColor(s[..3])
      case None => None
      case Some(c) =>
        if s[3] == 'S' then
          assert s == Prefix(c) + "S";
          Some((c, Solid))
        else if '1' <= s[3] <= '6' then
          var n := s[3] as int - '0' as int;
          assert Token(Pips(n)) == [DigitChar(n)] == [s[3]];
          assert s == Prefix(c) + [s[3]];
          Some((c, Pips(n)))
        else None
  }

  /** Different colours have different prefixes. */
  lemma PrefixInjective(c: Color, d: Color)
    requires Prefix(c) == Prefix(d)
    ensures c == d
  {
    PrefixTable();
  }

  /** Every code of a die face reads back as that colour and face. */
  lemma CodeRoundTrip(c: Color, f: Face)
    requires IsDieFace(f)
    ensures ParseCode(Code(c, f)) == Some((c, f))
  {
    var s := Code(c, f);
    var ch := TokenChar(f);
    assert s[..3] == Prefix(c) && s[3] == ch;
    PrefixColorOf(c);
  }

  /** The one character of a die face's token. */
  function TokenChar(f: Face): (ch: char)
    requires IsDieFace(f)
    ensures Token(f) == [ch]
    ensures f.Solid? ==> ch == 'S'
    ensures f.Pips? ==> '1' <= ch <= '6' && ch as int - '0' as int == f.n
  {
    if f.Solid? then 'S' else DigitChar(f.n)
  }

  /** A colour's prefix reads back as that colour. */
  lemma PrefixColorOf(c: Color)
    ensures PrefixColor(Prefix(c)) == Some(c)
  {
    PrefixTable();
  }

  /** Two cells with the same code hold dice of the same colour showing the same face. */
  lemma CodeInjective(c1: Color, f1: Face, c2: Color, f2: Face)
    requires IsDieFace(f1) && IsDieFace(f2)
    requires Code(c1, f1) == Code(c2, f2)
    ensures c1 == c2 && f1 == f2
  {
    CodeRoundTrip(c1, f1);
    CodeRoundTrip(c2, f2);
  }

  /** A cell code has no surrounding spaces, no '|' and no line break, and fits the
      five-character column of the layout. */
  predicate CleanCell(s: string) {
    Trimmed(s) && Lacks(s, '|') && NoLineBreak(s) && |s| <= 5
  }

  lemma CodeClean(c: Color, f: Face)
    requires IsDieFace(f)
    ensures CleanCell(Code(c, f))
    ensures |Code(c, f)| == 4
  {
    var s := Code(c, f);
    var ch := TokenChar(f);
    PrefixLetters(c);
    assert s == Prefix(c) + [ch];
    assert forall i :: 0 <= i < 4 ==> s[i] != ' ' && s[i] != '|' && s[i] != '\n' && s[i] != '\r';
  }

  /** A prefix is made of three letters. */
  lemma PrefixLetters(c: Color)
    ensures forall i :: 0 <= i < 3 ==> 'A' <= Prefix(c)[i] <= 'z'
  {
    PrefixTable();
  }

  // ---------------------------------------------------------------- the cell loop

  /** The rows of a two-dimensional array, top to bottom. */
  function Rows<T>(a: array2<T>): (g: seq<seq<T>>)
    reads a
    ensures |g| == a.Length0
    ensures forall i :: 0 <= i < |g| ==> |g[i]| == a.Length1
    ensures forall i, j :: 0 <= i < a.Length0 && 0 <= j < a.Length1 ==> g[i][j] == a[i, j]
  {
    seq(a.Length0, i requires 0 <= i < a.Length0 reads a =>
      seq(a.Length1, j requires 0 <= j < a.Length1 reads a => a[i, j]))
  }

  /** Fills the code of every cell, row by row. */
  method AssignFaces(levels: array2<Level>, colors: seq<seq<Color>>, t: DiceType, o: DiceOption)
    returns (faces: array2<string>)
    requires |colors| == levels.Length0
    requires forall i :: 0 <= i < |colors| ==> |colors[i]| == levels.Length1
    ensures faces.Length0 == levels.Length0 && faces.Length1 == levels.Length1
    ensures forall i, j :: 0 <= i < faces.Length0 && 0 <= j < faces.Length1 ==>
      faces[i, j] == CellCode(t, o, colors[i][j], levels[i, j])
  {
    var height, width := levels.Length0, levels.Length1;
    faces := new string[height, width];
    var y := 0;
    while y < height
      invariant 0 <= y <= height
      invariant forall i, j :: 0 <= i < y && 0 <= j < width ==>
        faces[i, j] == CellCode(t, o, colors[i][j], levels[i, j])
    {
      AssignRow(faces, y, levels, colors[y], t, o, RowCodes(levels, y, colors[y], t, o));
      y := y + 1;
    }
  }

  /** The codes of row y. */
  ghost function RowCodes(levels: array2<Level>, y: nat, colors: seq<Color>, t: DiceType, o: DiceOption): (r: seq<string>)
    requires y < levels.Length0 && |colors| == levels.Length1
    reads levels
    ensures |r| == |colors|
    ensures forall j :: 0 <= j < |r| ==> r[j] == CellCode(t, o, colors[j], levels[y, j])
  {
    seq(|colors|, j requires 0 <= j < |colors| reads levels => CellCode(t, o, colors[j], levels[y, j]))
  }

  /** The inner loop: fills the codes of row y, left to right. */
  method AssignRow(faces: array2<string>, y: nat, levels: array2<Level>, colors: seq<Color>, t: DiceType, o: DiceOption,
                   ghost want: seq<string>)
    requires y < faces.Length0 == levels.Length0 && faces.Length1 == levels.Length1 == |colors| == |want|
    requires forall j :: 0 <= j < |want| ==> want[j] == CellCode(t, o, colors[j], levels[y, j])
    modifies faces
    ensures forall j :: 0 <= j < |want| ==> faces[y, j] == want[j]
    ensures forall i, j :: 0 <= i < faces.Length0 && i != y && 0 <= j < faces.Length1 ==> faces[i, j] == old(faces[i, j])
  {
    var x := 0;
    while x < faces.Length1
      invariant 0 <= x <= faces.Length1
      invariant forall j :: 0 <= j < x ==> faces[y, j] == want[j]
      invariant forall i, j :: 0 <= i < faces.Length0 && i != y && 0 <= j < faces.Length1 ==> faces[i, j] == old(faces[i, j])
    {
      var code := FaceCode(t, o, colors[x], levels[y, x]);
      faces[y, x] := code;
      x := x + 1;
    }
  }

  /** The code of one cell, by the branches of the loop body. */
  method FaceCode(t: DiceType, o: DiceOption, color: Color, value: Level) returns (code: string)
    ensures code == CellCode(t, o, color, value)
  {
    if t == Colored {
      code := Code(color, Pips(value % 6 + 1));
    } else if o == CombinedDice {
      if value == 0 || value == 7 {
        code := Code(color, Solid);
      } else {
        code := Code(color, Pips(value));
      }
    } else {
      var diceColor := SingleColor(o);
      if value == 0 || value == 7 {
        code := Code(diceColor, Solid);
      } else {
        code := Code(diceColor, Pips(value));
      }
    }
  }
}
