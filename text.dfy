/** Models of the Python string operations that the layout text and its
    spreadsheet parser use: str(n), f"{s:>w}", str.join, str.split(sep),
    str.strip(), str.splitlines(), str.startswith() and str.capitalize(). */
module Text {

  /** The characters for which Python's str.isspace() holds. */
  predicate IsSpace(c: char) {
    c == ' ' || ('\t' <= c <= '\r') || ('\U{1C}' <= c <= '\U{1F}') || c == '\U{85}' || c == '\U{A0}'
    || c == '\U{1680}' || ('\U{2000}' <= c <= '\U{200A}') || c == '\U{2028}' || c == '\U{2029}'
    || c == '\U{202F}' || c == '\U{205F}' || c == '\U{3000}'
  }

  /** The characters at which Python's str.splitlines() ends a line. */
  predicate IsLineBreak(c: char) {
    ('\n' <= c <= '\r') || ('\U{1C}' <= c <= '\U{1E}') || c == '\U{85}' || c == '\U{2028}' || c == '\U{2029}'
  }

  predicate IsDigit(c: char) {
    '0' <= c <= '9'
  }

  predicate NoLineBreak(s: string) {
    forall i :: 0 <= i < |s| ==> !IsLineBreak(s[i])
  }

  /** No white space at either end: what str.strip() leaves unchanged. */
  predicate Trimmed(s: string) {
    s == [] || (!IsSpace(s[0]) && !IsSpace(s[|s| - 1]))
  }

  /** The string does not contain the character. */
  predicate Lacks(s: string, c: char) {
    c !in s
  }

  function StartsWith(s: string, prefix: string): bool {
    |prefix| <= |s| && s[..|prefix|] == prefix
  }

  // ---------------------------------------------------------------- numbers

  function DigitChar(d: nat): (c: char)
    requires d < 10
    ensures IsDigit(c)
  {
    ('0' as int + d) as char
  }

  /** str(n) for a non-negative integer: its decimal digits, most significant first. */
  function Decimal(n: nat): (s: string)
    ensures 1 <= |s|
    ensures forall i :: 0 <= i < |s| ==> IsDigit(s[i])
    decreases n
  {
    if n < 10 then [DigitChar(n)] else Decimal(n / 10) + [DigitChar(n % 10)]
  }

  /** The number a string of decimal digits denotes (int(s)). */
  function DigitsValue(s: string): nat
    requires forall i :: 0 <= i < |s| ==> IsDigit(s[i])
  {
    if s == [] then 0 else DigitsValue(s[..|s| - 1]) * 10 + DigitValue(s[|s| - 1])
  }

  function DigitValue(c: char): (d: nat)
    requires IsDigit(c)
    ensures d < 10
  {
    c as int - '0' as int
  }

  /** Reading back what str(n) wrote gives n. */
  lemma {:induction false} DecimalValue(n: nat)
    ensures DigitsValue(Decimal(n)) == n
  {
    if n >= 10 {
      DecimalValue(n / 10);
      var s := Decimal(n);
      assert s[..|s| - 1] == Decimal(n / 10);
    }
  }

  /** Distinct numbers have distinct decimal renderings. */
  lemma DecimalInjective(m: nat, n: nat)
    requires Decimal(m) == Decimal(n)
    ensures m == n
  {
    DecimalValue(m);
    DecimalValue(n);
  }

  // ---------------------------------------------------------------- padding

  function Spaces(n: nat): (s: string)
    ensures |s| == n
    ensures forall i :: 0 <= i < n ==> s[i] == ' '
  {
    seq(n, _ => ' ')
  }

  /** f"{s:>w}": s right-aligned in a field of width w; a longer s is kept whole. */
  function PadLeft(s: string, w: nat): (r: string)
    ensures |r| == if |s| < w then w else |s|
    ensures r[|r| - |s|..] == s
    ensures forall i :: 0 <= i < |r| - |s| ==> r[i] == ' '
  {
    if |s| < w then Spaces(w - |s|) + s else s
  }

  // ---------------------------------------------------------------- join and split

  /** sep.join(parts). */
  function Join(parts: seq<string>, sep: string): string
  {
    if |parts| == 0 then "" else if |parts| == 1 then parts[0] else parts[0] + sep + Join(parts[1..], sep)
  }

  lemma JoinCons(p: string, ps: seq<string>, sep: string)
    requires |ps| >= 1
    ensures Join([p] + ps, sep) == p + sep + Join(ps, sep)
  {
    assert ([p] + ps)[1..] == ps;
  }

  /** Every character of a join comes from a part or from the separator. */
  lemma {:induction false} JoinChars(parts: seq<string>, sep: string, x: char)
    requires x in Join(parts, sep)
    ensures x in sep || exists i :: 0 <= i < |parts| && x in parts[i]
  {
    if |parts| > 1 {
      var rest := Join(parts[1..], sep);
      assert Join(parts, sep) == parts[0] + sep + rest;
      if x !in parts[0] && x !in sep {
        assert x in rest;
        JoinChars(parts[1..], sep, x);
        var i :| 0 <= i < |parts[1..]| && x in parts[1..][i];
        assert parts[i + 1] == parts[1..][i];
      }
    }
  }

  /** s.split(sep) for a one-character separator. */
  function Split(s: string, sep: char): (r: seq<string>)
    ensures |r| >= 1
    ensures forall i :: 0 <= i < |r| ==> Lacks(r[i], sep)
    ensures Join(r, [sep]) == s
  {
    if s == [] then [""]
    else if s[0] == sep then
      var t := Split(s[1..], sep);
      JoinCons("", t, [sep]);
      assert s == [sep] + s[1..];
      [""] + t
    else
      var t := Split(s[1..], sep);
      var r := [[s[0]] + t[0]] + t[1..];
      assert Join(r, [sep]) == [s[0]] + Join(t, [sep]) by {
        if |t| >= 2 {
          JoinCons([s[0]] + t[0], t[1..], [sep]);
          JoinCons(t[0], t[1..], [sep]);
          assert [t[0]] + t[1..] == t;
        }
      }
      assert s == [s[0]] + s[1..];
      r
  }

  /** A piece without the separator is a piece of its own. */
  lemma {:induction false} SplitAfter(a: string, sep: char, b: string)
    requires Lacks(a, sep)
    ensures Split(a + [sep] + b, sep) == [a] + Split(b, sep)
  {
    if a == [] {
      assert a + [sep] + b == [sep] + b;
      assert ([sep] + b)[1..] == b;
    } else {
      var s := a + [sep] + b;
      assert s[1..] == a[1..] + [sep] + b;
      assert Lacks(a[1..], sep) by {
        forall i | 0 <= i < |a[1..]| ensures a[1..][i] != sep {
          assert a[1..][i] == a[i + 1];
        }
      }
      SplitAfter(a[1..], sep, b);
      assert [a[0]] + a[1..] == a;
    }
  }

  /** A piece without the separator, split on its own, is itself. */
  lemma {:induction false} SplitWhole(a: string, sep: char)
    requires Lacks(a, sep)
    ensures Split(a, sep) == [a]
  {
    if a != [] {
      assert Lacks(a[1..], sep) by {
        forall i | 0 <= i < |a[1..]| ensures a[1..][i] != sep {
          assert a[1..][i] == a[i + 1];
        }
      }
      SplitWhole(a[1..], sep);
      assert [a[0]] + a[1..] == a;
    }
  }

  /** Proof step: regrouping a list built from a first element, kept apart so the
      split proofs stay cheap. */
  lemma ConsAssoc<T>(x: T, a: seq<T>, b: seq<T>)
    ensures [x] + (a + b) == ([x] + a) + b
  {
  }

  /** Unfolds one piece of a join that is followed by more text. */
  lemma JoinThen(parts: seq<string>, sep: string, rest: string)
    requires |parts| >= 2
    ensures Join(parts, sep) + sep + rest == parts[0] + sep + (Join(parts[1..], sep) + sep + rest)
  {
    assert Join(parts, sep) == parts[0] + sep + Join(parts[1..], sep);
  }

  /** Joining pieces that do not contain the separator and splitting the result
      again gives the pieces back, followed by whatever the text after them splits into. */
  lemma {:induction false} SplitJoinThen(parts: seq<string>, sep: char, rest: string)
    requires |parts| >= 1
    requires forall i :: 0 <= i < |parts| ==> Lacks(parts[i], sep)
    ensures Split(Join(parts, [sep]) + [sep] + rest, sep) == parts + Split(rest, sep)
  {
    if |parts| == 1 {
      SplitAfter(parts[0], sep, rest);
    } else {
      var ps := parts[1..];
      var tail := Join(ps, [sep]) + [sep] + rest;
      assert Split(tail, sep) == ps + Split(rest, sep) by {
        assert forall i :: 0 <= i < |ps| ==> Lacks(ps[i], sep);
        SplitJoinThen(ps, sep, rest);
      }
      assert Split(Join(parts, [sep]) + [sep] + rest, sep) == [parts[0]] + Split(tail, sep) by {
        JoinThen(parts, [sep], rest);
        SplitAfter(parts[0], sep, tail);
      }
      ConsAssoc(parts[0], ps, Split(rest, sep));
      assert [parts[0]] + ps == parts;
    }
  }

  /** Split undoes Join when no piece holds the separator. */
  lemma {:induction false} SplitJoin(parts: seq<string>, sep: char)
    requires |parts| >= 1
    requires forall i :: 0 <= i < |parts| ==> Lacks(parts[i], sep)
    ensures Split(Join(parts, [sep]), sep) == parts
  {
    if |parts| == 1 {
      SplitWhole(parts[0], sep);
    } else {
      var tail := Join(parts[1..], [sep]);
      assert Join(parts, [sep]) == parts[0] + [sep] + tail;
      SplitAfter(parts[0], sep, tail);
      SplitJoin(parts[1..], sep);
      assert [parts[0]] + parts[1..] == parts;
    }
  }

  // ---------------------------------------------------------------- strip

  /** s.lstrip(). */
  function StripLeft(s: string): string {
    if s != [] && IsSpace(s[0]) then StripLeft(s[1..]) else s
  }

  /** s.rstrip(). */
  function StripRight(s: string): string {
    if s != [] && IsSpace(s[|s| - 1]) then StripRight(s[..|s| - 1]) else s
  }

  /** lstrip() removes exactly the leading white space. */
  lemma {:induction false} StripLeftSpec(s: string)
    ensures |StripLeft(s)| <= |s| && StripLeft(s) == s[|s| - |StripLeft(s)|..]
    ensures StripLeft(s) == [] || !IsSpace(StripLeft(s)[0])
    ensures forall i :: 0 <= i < |s| - |StripLeft(s)| ==> IsSpace(s[i])
  {
    if s != [] && IsSpace(s[0]) {
      StripLeftSpec(s[1..]);
      forall i | 1 <= i < |s| - |StripLeft(s)| ensures IsSpace(s[i]) {
        assert s[i] == s[1..][i - 1];
      }
    }
  }

  /** rstrip() removes exactly the trailing white space. */
  lemma {:induction false} StripRightSpec(s: string)
    ensures |StripRight(s)| <= |s| && StripRight(s) == s[..|StripRight(s)|]
    ensures StripRight(s) == [] || !IsSpace(StripRight(s)[|StripRight(s)| - 1])
    ensures forall i :: |StripRight(s)| <= i < |s| ==> IsSpace(s[i])
  {
    if s != [] && IsSpace(s[|s| - 1]) {
      StripRightSpec(s[..|s| - 1]);
      forall i | |StripRight(s)| <= i < |s| - 1 ensures IsSpace(s[i]) {
        assert s[i] == s[..|s| - 1][i];
      }
    }
  }

  /** s.strip(): s without its leading and trailing white space. */
  function Strip(s: string): string {
    StripRight(StripLeft(s))
  }

  /** strip() leaves the part of s between its leading and its trailing white space. */
  lemma StripSpec(s: string)
    ensures Trimmed(Strip(s))
    ensures var i, j := |s| - |StripLeft(s)|, |s| - |StripLeft(s)| + |Strip(s)|;
      0 <= i <= j <= |s| && Strip(s) == s[i..j]
      && (forall k :: 0 <= k < i ==> IsSpace(s[k]))
      && (forall k :: j <= k < |s| ==> IsSpace(s[k]))
  {
    StripTrimmed(s);
    StripInner(s);
  }

  lemma StripTrimmed(s: string)
    ensures Trimmed(Strip(s))
  {
    var l := StripLeft(s);
    var r := StripRight(l);
    StripLeftSpec(s);
    StripRightSpec(l);
    if r != [] {
      assert r[0] == l[0];
    }
  }

  lemma StripInner(s: string)
    ensures var i, j := |s| - |StripLeft(s)|, |s| - |StripLeft(s)| + |Strip(s)|;
      0 <= i <= j <= |s| && Strip(s) == s[i..j]
      && (forall k :: 0 <= k < i ==> IsSpace(s[k]))
      && (forall k :: j <= k < |s| ==> IsSpace(s[k]))
  {
    var l := StripLeft(s);
    var r := StripRight(l);
    StripLeftSpec(s);
    StripRightSpec(l);
    var i := |s| - |l|;
    forall k | i + |r| <= k < |s| ensures IsSpace(s[k]) {
      assert s[k] == l[k - i];
    }
  }

  /** A string that is all white space strips to nothing, and nothing else does. */
  lemma StripEmpty(s: string)
    ensures Strip(s) == [] <==> forall k :: 0 <= k < |s| ==> IsSpace(s[k])
  {
    var l := StripLeft(s);
    StripLeftSpec(s);
    StripRightSpec(l);
  }

  lemma {:induction false} StripLeftSpaces(n: nat, s: string)
    requires s == [] || !IsSpace(s[0])
    ensures StripLeft(Spaces(n) + s) == s
  {
    if n > 0 {
      assert (Spaces(n) + s)[1..] == Spaces(n - 1) + s;
      StripLeftSpaces(n - 1, s);
    } else {
      assert Spaces(n) + s == s;
    }
  }

  lemma {:induction false} StripRightSpaces(s: string, n: nat)
    requires s == [] || !IsSpace(s[|s| - 1])
    ensures StripRight(s + Spaces(n)) == s
  {
    if n > 0 {
      assert (s + Spaces(n))[..|s + Spaces(n)| - 1] == s + Spaces(n - 1);
      StripRightSpaces(s, n - 1);
    } else {
      assert s + Spaces(n) == s;
    }
  }

  /** Padding with spaces is undone by strip() when the padded text is itself trimmed. */
  lemma StripPadded(a: nat, s: string, b: nat)
    requires Trimmed(s)
    ensures Strip(Spaces(a) + s + Spaces(b)) == s
  {
    assert Spaces(a) + s + Spaces(b) == Spaces(a) + (s + Spaces(b));
    if s == [] {
      assert s + Spaces(b) == Spaces(b);
      assert Spaces(a) + Spaces(b) == Spaces(a + b);
      StripLeftSpaces(a + b, []);
      assert Spaces(a + b) == Spaces(a + b) + [];
    } else {
      StripLeftSpaces(a, s + Spaces(b));
      StripRightSpaces(s, b);
    }
  }

  /** strip() undoes right alignment of a trimmed text. */
  lemma StripPadLeft(s: string, w: nat)
    requires Trimmed(s)
    ensures Strip(PadLeft(s, w)) == s
  {
    var r := PadLeft(s, w);
    assert r == Spaces(|r| - |s|) + s + Spaces(0);
    StripPadded(|r| - |s|, s, 0);
  }

  /** Every character of a padded text is a space or a character of the text. */
  lemma PadLeftChars(s: string, w: nat, x: char)
    requires x in PadLeft(s, w)
    ensures x == ' ' || x in s
  {
    var r := PadLeft(s, w);
    var k :| 0 <= k < |r| && r[k] == x;
    if k >= |r| - |s| {
      assert r[k] == r[|r| - |s|..][k - (|r| - |s|)];
    }
  }

  // ---------------------------------------------------------------- splitlines

  function FirstBreak(s: string): (i: nat)
    ensures i <= |s|
    ensures i < |s| ==> IsLineBreak(s[i])
    ensures forall j :: 0 <= j < i ==> !IsLineBreak(s[j])
  {
    if s == [] then 0 else if IsLineBreak(s[0]) then 0 else 1 + FirstBreak(s[1..])
  }

  /** s.splitlines(): the lines of s without their ends; "\r\n" ends one line,
      and a final line end does not start an empty line. */
  function SplitLines(s: string): (r: seq<string>)
    ensures forall i :: 0 <= i < |r| ==> NoLineBreak(r[i])
    decreases |s|
  {
    if s == [] then []
    else
      var i := FirstBreak(s);
      if i == |s| then [s]
      else
        var next := if s[i] == '\r' && i + 1 < |s| && s[i + 1] == '\n' then i + 2 else i + 1;
        [s[..i]] + SplitLines(s[next..])
  }

  /** A line without breaks followed by "\n" is split off on its own. */
  lemma SplitLinesAfter(a: string, rest: string)
    requires NoLineBreak(a)
    ensures SplitLines(a + "\n" + rest) == [a] + SplitLines(rest)
  {
    var s := a + "\n" + rest;
    assert FirstBreak(s) == |a| by {
      FirstBreakAt(a, '\n', rest);
    }
    assert s[..|a|] == a;
    assert s[|a| + 1..] == rest;
  }

  lemma {:induction false} FirstBreakAt(a: string, c: char, rest: string)
    requires NoLineBreak(a) && IsLineBreak(c)
    ensures FirstBreak(a + [c] + rest) == |a|
  {
    if a != [] {
      assert (a + [c] + rest)[1..] == a[1..] + [c] + rest;
      FirstBreakAt(a[1..], c, rest);
    }
  }

  /** Lines joined by "\n" and followed by a further "\n" come back out of splitlines(). */
  lemma {:induction false} SplitLinesJoin(lines: seq<string>, rest: string)
    requires |lines| >= 1
    requires forall i :: 0 <= i < |lines| ==> NoLineBreak(lines[i])
    ensures SplitLines(Join(lines, "\n") + "\n" + rest) == lines + SplitLines(rest)
  {
    if |lines| == 1 {
      SplitLinesAfter(lines[0], rest);
    } else {
      var ls := lines[1..];
      SplitLinesJoin(ls, rest);
      SplitLinesCons(lines[0], ls, rest);
      assert [lines[0]] + ls == lines;
    }
  }

  /** One more line in front of the joined lines comes out in front. */
  lemma SplitLinesCons(first: string, ls: seq<string>, rest: string)
    requires |ls| >= 1 && NoLineBreak(first)
    requires SplitLines(Join(ls, "\n") + "\n" + rest) == ls + SplitLines(rest)
    ensures SplitLines(Join([first] + ls, "\n") + "\n" + rest) == [first] + ls + SplitLines(rest)
  {
    var tail := Join(ls, "\n") + "\n" + rest;
    JoinThen([first] + ls, "\n", rest);
    assert ([first] + ls)[1..] == ls;
    SplitLinesAfter(first, tail);
    ConsAssoc(first, ls, SplitLines(rest));
  }

  // ---------------------------------------------------------------- case

  function Upper(c: char): char {
    if 'a' <= c <= 'z' then (c as int - 32) as char else c
  }

  function Lower(c: char): char {
    if 'A' <= c <= 'Z' then (c as int + 32) as char else c
  }

  /** s.lower() on ASCII text. */
  function Lowered(s: string): (r: string)
    ensures |r| == |s|
    ensures forall i :: 0 <= i < |s| ==> r[i] == Lower(s[i])
  {
    seq(|s|, i requires 0 <= i < |s| => Lower(s[i]))
  }

  /** s[:n]: at most the first n characters. */
  function Take(s: string, n: nat): (r: string)
    ensures |r| <= n && StartsWith(s, r)
    ensures |s| >= n ==> |r| == n
    ensures |s| < n ==> r == s
  {
    if |s| <= n then s else s[..n]
  }

  /** s.split()[0] for a string that starts with a word: the text before the first space. */
  function FirstWord(s: string): (r: string)
    ensures StartsWith(s, r) && Lacks(r, ' ')
    ensures |r| == |s| || s[|r|] == ' '
  {
    var parts := Split(s, ' ');
    JoinFirst(parts, " ");
    parts[0]
  }

  lemma {:induction false} JoinFirst(parts: seq<string>, sep: string)
    requires |parts| >= 1
    ensures StartsWith(Join(parts, sep), parts[0])
    ensures |parts| >= 2 ==> StartsWith(Join(parts, sep)[|parts[0]|..], sep)
  {
    if |parts| > 1 {
      JoinCons(parts[0], parts[1..], sep);
      assert [parts[0]] + parts[1..] == parts;
      var rest := Join(parts[1..], sep);
      assert Join(parts, sep)[|parts[0]|..] == sep + rest;
    }
  }

  /** Python's string order a < b: code point by code point, a proper prefix first. */
  predicate Below(a: string, b: string) {
    |b| > 0 && (|a| == 0 || a[0] < b[0] || (a[0] == b[0] && Below(a[1..], b[1..])))
  }

  /** s.capitalize() on ASCII text: first letter upper case, the rest lower case. */
  function Capitalize(s: string): (r: string)
    ensures |r| == |s|
    ensures |s| > 0 ==> r[0] == Upper(s[0])
    ensures forall i :: 0 < i < |s| ==> r[i] == Lower(s[i])
  {
    if s == [] then [] else [Upper(s[0])] + seq(|s| - 1, i requires 0 <= i < |s| - 1 => Lower(s[i + 1]))
  }
}
