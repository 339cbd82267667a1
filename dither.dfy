/** Floyd–Steinberg error diffusion (dice_image_generator.py, floyd_steinberg_dithering).
    The intensity grid is copied into a working buffer that is walked in row-major
    order; each cell is replaced by the nearest multiple of 32 and the residual is
    pushed to the four not-yet-visited neighbours with weights 7/16, 3/16, 5/16 and
    1/16. The buffer is then turned into dice levels 0..7.

    The functional part (Diffuse, ScanRow, Scan) states the pass cell by cell on
    sequences; FloydSteinberg runs it in place on a two-dimensional array and is
    proved to compute exactly that. Intensities are exact reals. */
module Dither {
  import opened Rounding

  /** A dice level: the brightness class of one cell. */
  type Level = v: int | 0 <= v <= 7

  /** Intensities, row by row. */
  type Grid = seq<seq<real>>

  ghost predicate IsGrid(g: Grid, h: nat, w: nat) {
    |g| == h && forall i :: 0 <= i < h ==> |g[i]| == w
  }

  /** v is a multiple of 32, one of the quantisation targets. */
  predicate OnLattice(v: real) {
    (v / 32.0).Floor as real * 32.0 == v
  }

  /** np.round(v / 32) * 32: the multiple of 32 nearest to v, a tie going to the
      even multiple of 32. */
  function Quantize(v: real): (q: real)
    ensures OnLattice(q)
    ensures Abs(v - q) <= 16.0
    ensures Abs(v - q) == 16.0 ==> (q / 32.0).Floor % 2 == 0
  {
    var k := RoundHalfEven(v / 32.0);
    assert (k as real * 32.0) / 32.0 == k as real;
    assert v - k as real * 32.0 == 32.0 * (v / 32.0 - k as real);
    k as real * 32.0
  }

  /** No multiple of 32 is closer to v than Quantize(v). */
  lemma QuantizeNearest(v: real, k: int)
    ensures Abs(v - Quantize(v)) <= Abs(v - k as real * 32.0)
  {
    var x := v / 32.0;
    RoundHalfEvenNearest(x, k);
    var r := RoundHalfEven(x);
    assert v - Quantize(v) == 32.0 * (x - r as real);
    assert v - k as real * 32.0 == 32.0 * (x - k as real);
  }

  /** A value already on the lattice is left where it is. */
  lemma QuantizeFixed(v: real)
    requires OnLattice(v)
    ensures Quantize(v) == v
  {
    var k := (v / 32.0).Floor;
    assert v / 32.0 == k as real;
    RoundHalfEvenUnique(v / 32.0, k);
  }

  /** The level of a quantised value: np.clip(np.floor(q / 32), 0, 7). */
  function LevelOf(q: real): Level
  {
    Clip((q / 32.0).Floor, 0, 7)
  }

  // ---------------------------------------------------------------- one step

  /** (i, j) comes before (y, x) in row-major order. */
  predicate Before(i: int, j: int, y: int, x: int) {
    i < y || (i == y && j < x)
  }

  /** The cells one diffusion step at (y, x) may write. */
  predicate InStencil(i: int, j: int, y: int, x: int) {
    (i == y && (j == x || j == x + 1)) || (i == y + 1 && x - 1 <= j <= x + 1)
  }

  /** The share of the residual at (y, x) that cell (i, j) receives:
      7/16 to the right, 3/16 below-left, 5/16 below and 1/16 below-right. */
  function Share(i: int, j: int, y: int, x: int): real
  {
    if i == y && j == x + 1 then 7.0 / 16.0
    else if i == y + 1 && j == x - 1 then 3.0 / 16.0
    else if i == y + 1 && j == x then 5.0 / 16.0
    else if i == y + 1 && j == x + 1 then 1.0 / 16.0
    else 0.0
  }

  /** Visiting cell (y, x): the cell takes the multiple of 32 nearest to the value
      read, and each neighbour among (y, x+1), (y+1, x-1), (y+1, x), (y+1, x+1) that
      lies inside the grid receives its share of the residual. A neighbour outside
      the grid is skipped: its share is lost, not wrapped round or handed to others. */
  function Diffuse(g: Grid, h: nat, w: nat, y: nat, x: nat): (r: Grid)
    requires IsGrid(g, h, w) && y < h && x < w
    ensures IsGrid(r, h, w)
  {
    var q := Quantize(g[y][x]);
    var err := g[y][x] - q;
    seq(h, i requires 0 <= i < h =>
      seq(w, j requires 0 <= j < w =>
        if i == y && j == x then q
        else if InStencil(i, j, y, x) then g[i][j] + err * Share(i, j, y, x)
        else g[i][j]))
  }

  /** A step never touches a cell visited before it: all writes go forward. */
  lemma DiffuseKeepsPast(g: Grid, h: nat, w: nat, y: nat, x: nat, i: nat, j: nat)
    requires IsGrid(g, h, w) && y < h && x < w && i < h && j < w
    requires Before(i, j, y, x)
    ensures Diffuse(g, h, w, y, x)[i][j] == g[i][j]
  {
  }

  // ---------------------------------------------------------------- the pass

  /** The grid after visiting (y, 0), ..., (y, n - 1) in turn. */
  function ScanRow(g: Grid, h: nat, w: nat, y: nat, n: nat): (r: Grid)
    requires IsGrid(g, h, w) && y < h && n <= w
    ensures IsGrid(r, h, w)
  {
    if n == 0 then g else Diffuse(ScanRow(g, h, w, y, n - 1), h, w, y, n - 1)
  }

  /** The grid after visiting rows 0, ..., m - 1 in turn. */
  function Scan(g: Grid, h: nat, w: nat, m: nat): (r: Grid)
    requires IsGrid(g, h, w) && m <= h
    ensures IsGrid(r, h, w)
  {
    if m == 0 then g else ScanRow(Scan(g, h, w, m - 1), h, w, m - 1, w)
  }

  /** The grid as it stands when cell (i, j) is about to be visited. */
  function Visit(g: Grid, h: nat, w: nat, i: nat, j: nat): (r: Grid)
    requires IsGrid(g, h, w) && i < h && j < w
    ensures IsGrid(r, h, w)
  {
    ScanRow(Scan(g, h, w, i), h, w, i, j)
  }

  /** floyd_steinberg_dithering: the levels of the fully diffused grid. */
  function DitherLevels(g: Grid, h: nat, w: nat): (r: seq<seq<Level>>)
    requires IsGrid(g, h, w)
    ensures |r| == h && forall i :: 0 <= i < h ==> |r[i]| == w
  {
    var f := Scan(g, h, w, h);
    seq(h, i requires 0 <= i < h => seq(w, j requires 0 <= j < w => LevelOf(f[i][j])))
  }

  /** Walking a row leaves the rows above it alone. */
  lemma {:induction false} ScanRowKeepsRowsAbove(g: Grid, h: nat, w: nat, y: nat, n: nat, i: nat, j: nat)
    requires IsGrid(g, h, w) && y < h && n <= w && i < y && j < w
    ensures ScanRow(g, h, w, y, n)[i][j] == g[i][j]
  {
    if n > 0 {
      ScanRowKeepsRowsAbove(g, h, w, y, n - 1, i, j);
      DiffuseKeepsPast(ScanRow(g, h, w, y, n - 1), h, w, y, n - 1, i, j);
    }
  }

  /** Once cell (y, j) is visited, the rest of the row leaves it alone. */
  lemma {:induction false} ScanRowFrozen(g: Grid, h: nat, w: nat, y: nat, n: nat, j: nat)
    requires IsGrid(g, h, w) && y < h && j < n <= w
    ensures ScanRow(g, h, w, y, n)[y][j] == ScanRow(g, h, w, y, j + 1)[y][j]
  {
    if n > j + 1 {
      ScanRowFrozen(g, h, w, y, n - 1, j);
      DiffuseKeepsPast(ScanRow(g, h, w, y, n - 1), h, w, y, n - 1, y, j);
    }
  }

  /** Once row i is finished, later rows leave it alone. */
  lemma {:induction false} ScanFrozen(g: Grid, h: nat, w: nat, m: nat, i: nat, j: nat)
    requires IsGrid(g, h, w) && i < m <= h && j < w
    ensures Scan(g, h, w, m)[i][j] == Scan(g, h, w, i + 1)[i][j]
  {
    if m > i + 1 {
      ScanFrozen(g, h, w, m - 1, i, j);
      ScanRowKeepsRowsAbove(Scan(g, h, w, m - 1), h, w, m - 1, w, i, j);
    }
  }

  /** The central property of the pass: every cell ends up holding the quantised
      value of what it held when it was visited, and is never modified afterwards. */
  lemma DitherFrozen(g: Grid, h: nat, w: nat, i: nat, j: nat)
    requires IsGrid(g, h, w) && i < h && j < w
    ensures Scan(g, h, w, h)[i][j] == Quantize(Visit(g, h, w, i, j)[i][j])
  {
    ScanFrozen(g, h, w, h, i, j);
    ScanRowFrozen(Scan(g, h, w, i), h, w, i, w, j);
  }

  /** After the full pass every cell holds a multiple of 32. */
  lemma DitherOnLattice(g: Grid, h: nat, w: nat, i: nat, j: nat)
    requires IsGrid(g, h, w) && i < h && j < w
    ensures OnLattice(Scan(g, h, w, h)[i][j])
  {
    DitherFrozen(g, h, w, i, j);
  }

  /** Each level is the rounded index v / 32 of the value v read at the cell's
      visit, clipped to 0..7 (an input of 255 reaches index 8 and is clipped). */
  lemma DitherLevelsSpec(g: Grid, h: nat, w: nat, i: nat, j: nat)
    requires IsGrid(g, h, w) && i < h && j < w
    ensures DitherLevels(g, h, w)[i][j] == Clip(RoundHalfEven(Visit(g, h, w, i, j)[i][j] / 32.0), 0, 7)
  {
    var f := Scan(g, h, w, h);
    assert DitherLevels(g, h, w)[i][j] == LevelOf(f[i][j]);
    var v := Visit(g, h, w, i, j)[i][j];
    assert f[i][j] == Quantize(v) by {
      DitherFrozen(g, h, w, i, j);
    }
    QuantizeIndex(v);
  }

  /** The level of Quantize(v) is the rounded index of v before clipping. */
  lemma QuantizeIndex(v: real)
    ensures (Quantize(v) / 32.0).Floor == RoundHalfEven(v / 32.0)
  {
    var k := RoundHalfEven(v / 32.0);
    assert Quantize(v) / 32.0 == k as real;
  }

  // ---------------------------------------------------------------- in place

  /** The array holds exactly the grid g. */
  ghost predicate Mirrors(a: array2<real>, g: Grid)
    reads a
  {
    IsGrid(g, a.Length0, a.Length1)
    && forall i, j :: 0 <= i < a.Length0 && 0 <= j < a.Length1 ==> a[i, j] == g[i][j]
  }

  ghost function Snapshot(a: array2<real>): (g: Grid)
    reads a
    ensures Mirrors(a, g)
  {
    seq(a.Length0, i requires 0 <= i < a.Length0 reads a =>
      seq(a.Length1, j requires 0 <= j < a.Length1 reads a => a[i, j]))
  }

  /** The body of the nested loop: visit (y, x) in the working buffer. */
  method DiffuseAt(buf: array2<real>, y: int, x: int, ghost g: Grid)
    requires 0 <= y < buf.Length0 && 0 <= x < buf.Length1
    requires Mirrors(buf, g)
    modifies buf
    ensures Mirrors(buf, Diffuse(g, buf.Length0, buf.Length1, y, x))
  {
    var height, width := buf.Length0, buf.Length1;
    var old_pixel := buf[y, x];
    var new_pixel := Quantize(old_pixel);
    var quant_error := old_pixel - new_pixel;
    buf[y, x] := new_pixel;

    if x + 1 < width {
      buf[y, x + 1] := buf[y, x + 1] + quant_error * 7.0 / 16.0;
    }
    if x - 1 >= 0 && y + 1 < height {
      buf[y + 1, x - 1] := buf[y + 1, x - 1] + quant_error * 3.0 / 16.0;
    }
    if y + 1 < height {
      buf[y + 1, x] := buf[y + 1, x] + quant_error * 5.0 / 16.0;
    }
    if x + 1 < width && y + 1 < height {
      buf[y + 1, x + 1] := buf[y + 1, x + 1] + quant_error * 1.0 / 16.0;
    }
    forall i, j | 0 <= i < height && 0 <= j < width
      ensures buf[i, j] == Diffuse(g, height, width, y, x)[i][j]
    {
      DiffuseCell(g, height, width, y, x, i, j);
    }
  }

  /** The value Diffuse gives one cell. */
  lemma DiffuseCell(g: Grid, h: nat, w: nat, y: nat, x: nat, i: nat, j: nat)
    requires IsGrid(g, h, w) && y < h && x < w && i < h && j < w
    ensures Diffuse(g, h, w, y, x)[i][j] ==
      if i == y && j == x then Quantize(g[y][x])
      else if InStencil(i, j, y, x) then g[i][j] + (g[y][x] - Quantize(g[y][x])) * Share(i, j, y, x)
      else g[i][j]
  {
  }

  /** floyd_steinberg_dithering: the dice levels of an intensity grid. The input
      is not modified; the pass runs on a fresh copy. */
  method FloydSteinberg(img: array2<real>) returns (levels: array2<Level>)
    ensures levels.Length0 == img.Length0 && levels.Length1 == img.Length1
    ensures forall i, j :: 0 <= i < img.Length0 && 0 <= j < img.Length1 ==>
              levels[i, j] == DitherLevels(Snapshot(img), img.Length0, img.Length1)[i][j]
  {
    var height, width := img.Length0, img.Length1;
    ghost var g := Snapshot(img);
    var buf := new real[height, width]((i, j) requires 0 <= i < height && 0 <= j < width reads img => img[i, j]);
    assert Mirrors(buf, g);

    var y := 0;
    while y < height
      invariant 0 <= y <= height
      invariant Mirrors(buf, Scan(g, height, width, y))
    {
      DiffuseRow(buf, y, g);
      y := y + 1;
    }
    levels := ToLevels(buf);
    ghost var f := Scan(g, height, width, height);
    forall i, j | 0 <= i < height && 0 <= j < width
      ensures levels[i, j] == DitherLevels(g, height, width)[i][j]
    {
      assert levels[i, j] == LevelOf(f[i][j]);
    }
  }

  /** One pass of the inner loop: visits the cells of row y from left to right. */
  method DiffuseRow(buf: array2<real>, y: int, ghost g: Grid)
    requires 0 <= y < buf.Length0 && IsGrid(g, buf.Length0, buf.Length1)
    requires Mirrors(buf, Scan(g, buf.Length0, buf.Length1, y))
    modifies buf
    ensures Mirrors(buf, Scan(g, buf.Length0, buf.Length1, y + 1))
  {
    var height, width := buf.Length0, buf.Length1;
    ghost var s := Scan(g, height, width, y);
    var x := 0;
    while x < width
      invariant 0 <= x <= width
      invariant Mirrors(buf, ScanRow(s, height, width, y, x))
    {
      DiffuseAt(buf, y, x, ScanRow(s, height, width, y, x));
      x := x + 1;
    }
  }

  /** np.clip(np.floor(buf / 32), 0, 7) on the whole buffer. */
  method ToLevels(buf: array2<real>) returns (levels: array2<Level>)
    ensures levels.Length0 == buf.Length0 && levels.Length1 == buf.Length1
    ensures forall i, j :: 0 <= i < buf.Length0 && 0 <= j < buf.Length1 ==> levels[i, j] == LevelOf(buf[i, j])
  {
    levels := new Level[buf.Length0, buf.Length1]((i, j) requires 0 <= i < buf.Length0 && 0 <= j < buf.Length1 reads buf => LevelOf(buf[i, j]));
  }

  // ---------------------------------------------------------------- examples

  /** A single white pixel: 255 rounds up to 256, whose level 8 is clipped to 7. */
  lemma WhitePixel()
    ensures DitherLevels([[255.0]], 1, 1) == [[7]]
  {
    var g := [[255.0]];
    assert Quantize(255.0) == 256.0 by {
      assert RoundHalfEven(255.0 / 32.0) == 8;
    }
    assert Scan(g, 1, 1, 1) == ScanRow(g, 1, 1, 0, 1);
    assert Scan(g, 1, 1, 1)[0][0] == 256.0;
    assert LevelOf(256.0) == 7;
    var r := DitherLevels(g, 1, 1);
    assert |r| == 1 && |r[0]| == 1 && r[0][0] == 7;
    assert r[0] == [7];
  }

  /** A 2 x 2 grid worked through by hand: the residual -1 of the 255 pixel
      reaches the row below, and the levels come out as [[0, 7], [4, 2]]. */
  lemma SmallGrid()
    ensures DitherLevels([[0.0, 255.0], [128.0, 64.0]], 2, 2) == [[0, 7], [4, 2]]
  {
    var g0 := [[0.0, 255.0], [128.0, 64.0]];
    assert RoundHalfEven(0.0 / 32.0) == 0;
    assert RoundHalfEven(255.0 / 32.0) == 8;
    assert RoundHalfEven(127.8125 / 32.0) == 4;
    assert RoundHalfEven(63.60546875 / 32.0) == 2;
    var g1 := Diffuse(g0, 2, 2, 0, 0);
    SameSquare(g1, 0.0, 255.0, 128.0, 64.0);
    var g2 := Diffuse(g1, 2, 2, 0, 1);
    SameSquare(g2, 0.0, 256.0, 127.8125, 63.6875);
    var g3 := Diffuse(g2, 2, 2, 1, 0);
    SameSquare(g3, 0.0, 256.0, 128.0, 63.60546875);
    var g4 := Diffuse(g3, 2, 2, 1, 1);
    SameSquare(g4, 0.0, 256.0, 128.0, 64.0);
    assert Scan(g0, 2, 2, 1) == g2;
    assert Scan(g0, 2, 2, 2) == g4;
    var r := DitherLevels(g0, 2, 2);
    assert r[0] == [0, 7];
    assert r[1] == [4, 2];
  }

  lemma SameSquare(g: Grid, a: real, b: real, c: real, d: real)
    requires IsGrid(g, 2, 2)
    requires g[0][0] == a && g[0][1] == b && g[1][0] == c && g[1][1] == d
    ensures g == [[a, b], [c, d]]
  {
    assert g[0] == [a, b];
    assert g[1] == [c, d];
  }
}
