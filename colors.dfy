/** Colour mapping (dice_image_generator.py, map_grayscale_to_colors and the
    mode dispatch in generate_dice_image): which die colour each level gets. */
module Colors {
  import opened Rounding
  import opened Text
  import opened Dither

  /** The five die colours the colour check boxes offer. */
  datatype Color = White | Black | Red | Blue | Yellow

  /** Monochrome dice (one colour, or black and white combined) or coloured dice. */
  datatype DiceType = Monochrome | Colored

  /** The monochrome options. */
  datatype DiceOption = WhiteDice | BlackDice | CombinedDice

  /** The colour name the generator uses as a key and in file names. */
  function Name(c: Color): string {
    match c
    case White => "white"
    case Black => "black"
    case Red => "red"
    case Blue => "blue"
    case Yellow => "yellow"
  }

  /** The label of a monochrome option as the option menu shows it. */
  function OptionLabel(o: DiceOption): string {
    match o
    case WhiteDice => "White Dice"
    case BlackDice => "Black Dice"
    case CombinedDice => "Combined Dice"
  }

  /** The colour of a single-colour option: the first word of its label, lower-cased. */
  function SingleColor(o: DiceOption): Color
    requires o != CombinedDice
  {
    if o == WhiteDice then White else Black
  }

  /** The first word of a single-colour option label. */
  lemma FirstWordOfOption(o: DiceOption)
    requires o != CombinedDice
    ensures FirstWord(OptionLabel(o)) == if o == WhiteDice then "White" else "Black"
  {
    var word := if o == WhiteDice then "White" else "Black";
    assert OptionLabel(o) == word + [' '] + "Dice";
    SplitAfter(word, ' ', "Dice");
  }

  /** The option's colour is named by the first word of its label, lower-cased. */
  lemma SingleColorName(o: DiceOption)
    requires o != CombinedDice
    ensures Name(SingleColor(o)) == Lowered(FirstWord(OptionLabel(o)))
  {
    FirstWordOfOption(o);
  }

  /** The fixed perceived-brightness table used to order the selected colours. */
  function Brightness(c: Color): nat {
    match c
    case Black => 0
    case Red => 76
    case Blue => 29
    case Yellow => 225
    case White => 255
  }

  predicate NoDuplicates(s: seq<Color>) {
    forall i, j :: 0 <= i < j < |s| ==> s[i] != s[j]
  }

  predicate SortedByBrightness(s: seq<Color>) {
    forall i, j :: 0 <= i < j < |s| ==> Brightness(s[i]) <= Brightness(s[j])
  }

  // ---------------------------------------------------------------- ordering the selection

  /** The keys of {color: brightness for color in selected}: each selected colour
      once, in the order of its first occurrence. */
  function Keys(selected: seq<Color>): (r: seq<Color>)
    ensures forall c :: c in r <==> c in selected
    ensures NoDuplicates(r)
  {
    if selected == [] then []
    else
      var k := Keys(selected[..|selected| - 1]);
      var c := selected[|selected| - 1];
      if c in k then k else k + [c]
  }

  /** Inserts c after every element of s that is not brighter than c. */
  function Insert(c: Color, s: seq<Color>): (r: seq<Color>)
    ensures multiset(r) == multiset(s) + multiset{c}
  {
    if s == [] || Brightness(c) < Brightness(s[0]) then [c] + s
    else
      assert s == [s[0]] + s[1..];
      [s[0]] + Insert(c, s[1..])
  }

  lemma {:induction false} InsertSorted(c: Color, s: seq<Color>)
    requires SortedByBrightness(s)
    ensures SortedByBrightness(Insert(c, s))
  {
    if s == [] || Brightness(c) < Brightness(s[0]) {
      forall x | x in s ensures Brightness(c) <= Brightness(x) {
        var k :| 0 <= k < |s| && s[k] == x;
        assert Brightness(s[0]) <= Brightness(s[k]);
      }
      SortedCons(c, s);
    } else {
      var t := Insert(c, s[1..]);
      assert Insert(c, s) == [s[0]] + t;
      InsertSorted(c, s[1..]);
      forall x | x in t ensures Brightness(s[0]) <= Brightness(x) {
        assert x in multiset(t);
        if x != c {
          var k :| 0 <= k < |s[1..]| && s[1..][k] == x;
          assert s[k + 1] == x;
        }
      }
      SortedCons(s[0], t);
    }
  }

  lemma SortedCons(x: Color, t: seq<Color>)
    requires SortedByBrightness(t)
    requires forall y :: y in t ==> Brightness(x) <= Brightness(y)
    ensures SortedByBrightness([x] + t)
  {
    var r := [x] + t;
    forall i, j | 0 <= i < j < |r| ensures Brightness(r[i]) <= Brightness(r[j]) {
      assert r[j] == t[j - 1];
      if i > 0 {
        assert r[i] == t[i - 1];
      } else {
        assert t[j - 1] in t;
      }
    }
  }

  /** A sequence has no duplicates exactly when each element occurs once in its multiset. */
  lemma {:induction false} NoDuplicatesCount(s: seq<Color>)
    ensures NoDuplicates(s) <==> forall x :: multiset(s)[x] <= 1
  {
    if s != [] {
      var t := s[1..];
      assert s == [s[0]] + t;
      NoDuplicatesCount(t);
      if NoDuplicates(s) {
        assert s[0] !in t by {
          forall k | 0 <= k < |t| ensures t[k] != s[0] {
            assert t[k] == s[k + 1];
          }
        }
        assert NoDuplicates(t) by {
          forall i, j | 0 <= i < j < |t| ensures t[i] != t[j] {
            assert t[i] == s[i + 1] && t[j] == s[j + 1];
          }
        }
        forall x ensures multiset(s)[x] <= 1 {
          if x == s[0] {
            assert multiset(t)[x] == 0;
          }
        }
      } else {
        var i, j :| 0 <= i < j < |s| && s[i] == s[j];
        if i == 0 {
          assert t[j - 1] == s[j];
          assert s[0] in multiset(t);
          assert multiset(s)[s[0]] == multiset(t)[s[0]] + 1;
        } else {
          assert t[i - 1] == t[j - 1];
          assert !NoDuplicates(t);
          var x :| multiset(t)[x] > 1;
          assert multiset(s)[x] >= multiset(t)[x];
        }
      }
    }
  }

  /** sorted(colors, key=brightness): a stable insertion sort. */
  function SortByBrightness(s: seq<Color>): (r: seq<Color>)
    ensures multiset(r) == multiset(s)
  {
    if s == [] then []
    else
      assert s == s[..|s| - 1] + [s[|s| - 1]];
      Insert(s[|s| - 1], SortByBrightness(s[..|s| - 1]))
  }

  lemma {:induction false} SortSorted(s: seq<Color>)
    ensures SortedByBrightness(SortByBrightness(s))
  {
    if s != [] {
      SortSorted(s[..|s| - 1]);
      InsertSorted(s[|s| - 1], SortByBrightness(s[..|s| - 1]));
    }
  }

  /** The selected colours, darkest first, each once. */
  function Ranked(selected: seq<Color>): (r: seq<Color>)
    ensures forall c :: c in r <==> c in selected
    ensures forall i, j :: 0 <= i < j < |r| ==> Brightness(r[i]) < Brightness(r[j])
  {
    var k := Keys(selected);
    SortSameMembers(k);
    SortStrict(k);
    SortByBrightness(k)
  }

  lemma SortSameMembers(s: seq<Color>)
    ensures forall c :: c in SortByBrightness(s) <==> c in s
  {
    var r := SortByBrightness(s);
    forall c ensures c in r <==> c in s {
      assert c in r <==> c in multiset(r);
      assert c in s <==> c in multiset(s);
    }
  }

  /** Sorting colours that occur once each gives strictly increasing brightness:
      no two colours share a brightness. */
  lemma SortStrict(s: seq<Color>)
    requires NoDuplicates(s)
    ensures forall i, j :: 0 <= i < j < |SortByBrightness(s)| ==>
      Brightness(SortByBrightness(s)[i]) < Brightness(SortByBrightness(s)[j])
  {
    var r := SortByBrightness(s);
    SortSorted(s);
    NoDuplicatesCount(s);
    NoDuplicatesCount(r);
    forall i, j | 0 <= i < j < |r| ensures Brightness(r[i]) < Brightness(r[j]) {
      assert Brightness(r[i]) <= Brightness(r[j]);
      assert r[i] != r[j];
    }
  }

  // ---------------------------------------------------------------- bins

  /** (v / 7 * (n - 1)).astype(int), clipped to 0..n-1: the bin of level v among
      n colours. In exact arithmetic the truncated product is v * (n - 1) divided
      by 7, rounded down (BinIndexExact). */
  function BinIndex(v: Level, n: nat): (k: nat)
    requires n >= 1
    ensures k < n
  {
    Clip(v * (n - 1) / 7, 0, n - 1)
  }

  /** The bin is the truncated real product the generator computes. */
  lemma BinIndexExact(v: Level, n: nat)
    requires n >= 1
    ensures BinIndex(v, n) == Clip(Trunc(v as real / 7.0 * (n - 1) as real), 0, n - 1)
  {
    var a := v * (n - 1);
    var x := v as real / 7.0 * (n - 1) as real;
    assert x == a as real / 7.0;
    var q, r := a / 7, a % 7;
    assert a == 7 * q + r && 0 <= r < 7;
    assert x == q as real + r as real / 7.0;
    assert x.Floor == q;
  }

  /** A brighter level never falls into a lower bin. */
  lemma BinMonotone(v1: Level, v2: Level, n: nat)
    requires n >= 1 && v1 <= v2
    ensures BinIndex(v1, n) <= BinIndex(v2, n)
  {
    MulMonotone(v1, v2, n - 1);
  }

  /** Proof step of BinMonotone: the one nonlinear fact, kept out of its context. */
  lemma MulMonotone(a: nat, b: nat, c: nat)
    requires a <= b
    ensures a * c <= b * c
  {
  }

  /** Level 0 takes the first bin and level 7 the last. */
  lemma BinEnds(n: nat)
    requires n >= 1
    ensures BinIndex(0, n) == 0
    ensures BinIndex(7, n) == n - 1
  {
  }

  // ---------------------------------------------------------------- colour of a cell

  /** map_grayscale_to_colors for one cell: the colour of the level's bin among the
      selected colours ordered by brightness. */
  function ColoredColor(v: Level, selected: seq<Color>): (c: Color)
    requires selected != []
    ensures c in selected
  {
    var ranked := Ranked(selected);
    assert selected[0] in ranked;
    ranked[BinIndex(v, |ranked|)]
  }

  /** Brighter levels never get a darker colour. */
  lemma ColoredMonotone(v1: Level, v2: Level, selected: seq<Color>)
    requires selected != [] && v1 <= v2
    ensures Brightness(ColoredColor(v1, selected)) <= Brightness(ColoredColor(v2, selected))
  {
    var ranked := Ranked(selected);
    assert selected[0] in ranked;
    BinMonotone(v1, v2, |ranked|);
  }

  /** With one colour selected, every level gets that colour. */
  lemma ColoredSingle(v: Level, c: Color)
    ensures ColoredColor(v, [c]) == c
  {
  }

  /** Level 0 gets the darkest selected colour and level 7 the brightest. */
  lemma ColoredEnds(selected: seq<Color>, c: Color)
    requires selected != [] && c in selected
    ensures Brightness(ColoredColor(0, selected)) <= Brightness(c)
    ensures Brightness(c) <= Brightness(ColoredColor(7, selected))
  {
    var ranked := Ranked(selected);
    BinEndsOf(ranked, c);
  }

  /** In a list of strictly increasing brightness, the bin of level 0 is no brighter
      and the bin of level 7 no darker than any member. */
  lemma BinEndsOf(ranked: seq<Color>, c: Color)
    requires forall i, j :: 0 <= i < j < |ranked| ==> Brightness(ranked[i]) < Brightness(ranked[j])
    requires c in ranked
    ensures Brightness(ranked[BinIndex(0, |ranked|)]) <= Brightness(c)
    ensures Brightness(c) <= Brightness(ranked[BinIndex(7, |ranked|)])
  {
    BinEnds(|ranked|);
    IncreasingEnds(ranked, c);
  }

  lemma IncreasingEnds(r: seq<Color>, c: Color)
    requires forall i, j :: 0 <= i < j < |r| ==> Brightness(r[i]) < Brightness(r[j])
    requires c in r
    ensures Brightness(r[0]) <= Brightness(c) <= Brightness(r[|r| - 1])
  {
    var k :| 0 <= k < |r| && r[k] == c;
    if 0 < k {
      assert Brightness(r[0]) < Brightness(r[k]);
    }
    if k < |r| - 1 {
      assert Brightness(r[k]) < Brightness(r[|r| - 1]);
    }
  }

  /** The colour of one cell under each dice mode: the selected colours in coloured
      mode, black up to level 3 and white above in combined mode, and the option's
      own colour otherwise. */
  function CellColor(t: DiceType, o: DiceOption, selected: seq<Color>, v: Level): (c: Color)
    requires t == Colored ==> selected != []
    ensures t == Colored ==> c in selected
    ensures t == Monochrome && o == CombinedDice ==> (c == Black <==> v <= 3) && (c == White <==> v > 3)
    ensures t == Monochrome && o != CombinedDice ==> c == SingleColor(o)
  {
    if t == Colored then ColoredColor(v, selected)
    else if o == CombinedDice then (if v <= 3 then Black else White)
    else SingleColor(o)
  }

  /** The colour grid: CellColor applied to every level. */
  function MapColors(levels: seq<seq<Level>>, t: DiceType, o: DiceOption, selected: seq<Color>): (r: seq<seq<Color>>)
    requires t == Colored ==> selected != []
    ensures |r| == |levels|
    ensures forall i :: 0 <= i < |r| ==> |r[i]| == |levels[i]|
    ensures forall i, j :: 0 <= i < |r| && 0 <= j < |r[i]| ==> r[i][j] == CellColor(t, o, selected, levels[i][j])
  {
    seq(|levels|, i requires 0 <= i < |levels| =>
      seq(|levels[i]|, j requires 0 <= j < |levels[i]| => CellColor(t, o, selected, levels[i][j])))
  }
}
