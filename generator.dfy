/** The generate button (dice_image_generator.py, generate_dice_image): input
    checks, the number of dice across and down, the aspect-ratio question, and the
    pipeline from the resized grey image to the layout text and the counts. */
module Generator {
  import opened Wrappers
  import opened Rounding
  import opened Dither
  import opened Colors
  import opened Faces
  import opened Layout
  import opened Sheet
  import opened RoundTrip

  const InchesPerFoot: real := 12.0

  /** The largest difference between the image's and the wall's width/height ratio
      that passes without asking. */
  const Tolerance: real := 0.1

  const StandardLabel := "Standard Dice (0.625\")"
  const MiniLabel := "Mini Dice (0.27\")"
  const MicroLabel := "Micro Dice (0.19685\")"

  /** What the form holds when the button is pressed. The colour check boxes are
      the set of ticked colours; the die size is the option menu's text. */
  datatype Request = Request(
    imagePath: string,
    widthFt: real,
    heightFt: real,
    diceType: DiceType,
    option: DiceOption,
    sizeLabel: string,
    ticked: set<Color>)

  datatype GenError =
    | NoImage         // no image file chosen
    | BadDimensions   // a physical dimension is not positive
    | NoColors        // coloured dice with no colour ticked
    | BadDiceSize     // a die-size text the menu does not offer
    | ImageError      // the image could not be opened or resized
    | Declined        // the user would not proceed after the aspect-ratio warning

  /** The check boxes in the order the form lists them. */
  const FormOrder: seq<Color> := [White, Black, Red, Blue, Yellow]

  /** The ticked colours, in the form's order. */
  function Selected(ticked: set<Color>): (r: seq<Color>)
    ensures forall c :: c in r <==> c in ticked
    ensures NoDuplicates(r)
    ensures r == [] <==> ticked == {}
  {
    KeepFormOrder(ticked);
    Keep(FormOrder, ticked)
  }

  /** Every colour has a check box, and no colour has two. */
  lemma KeepFormOrder(ticked: set<Color>)
    ensures forall c :: c in Keep(FormOrder, ticked) <==> c in ticked
    ensures NoDuplicates(Keep(FormOrder, ticked))
    ensures Keep(FormOrder, ticked) == [] <==> ticked == {}
  {
    forall c: Color
      ensures c in FormOrder
    {
      match c
      case White => assert FormOrder[0] == c;
      case Black => assert FormOrder[1] == c;
      case Red => assert FormOrder[2] == c;
      case Blue => assert FormOrder[3] == c;
      case Yellow => assert FormOrder[4] == c;
    }
    var r := Keep(FormOrder, ticked);
    if r == [] {
      assert forall c :: c !in ticked;
    } else {
      assert r[0] in ticked;
    }
    assert NoDuplicates(FormOrder);
  }

  /** The elements of s that are in t, in order. */
  function Keep(s: seq<Color>, t: set<Color>): (r: seq<Color>)
    ensures forall c :: c in r <==> c in s && c in t
    ensures NoDuplicates(s) ==> NoDuplicates(r)
  {
    if s == [] then []
    else if s[0] in t then [s[0]] + Keep(s[1..], t)
    else Keep(s[1..], t)
  }

  /** The edge of one die in inches, for each die-size text the menu offers. */
  function DiceSize(menuText: string): (r: Option<real>)
    ensures r.Some? <==> menuText == StandardLabel || menuText == MiniLabel || menuText == MicroLabel
    ensures menuText == StandardLabel ==> r == Some(0.625)
    ensures menuText == MiniLabel ==> r == Some(0.27)
    ensures menuText == MicroLabel ==> r == Some(0.19685)
  {
    if menuText == StandardLabel then Some(0.625)
    else if menuText == MiniLabel then Some(0.27)
    else if menuText == MicroLabel then Some(0.19685)
    else None
  }

  /** The number of dice across and down, and the die edge they were computed with. */
  datatype Plan = Plan(cols: nat, rows: nat, pitch: real)

  /** int(round(feet * 12 / pitch)) for a positive length. */
  function DiceAlong(feet: real, pitch: real): (n: nat)
    requires feet > 0.0 && pitch > 0.0
    ensures Abs(feet * InchesPerFoot / pitch - n as real) <= 0.5
    ensures Abs(feet * InchesPerFoot / pitch - n as real) == 0.5 ==> n % 2 == 0
  {
    var q := feet * InchesPerFoot / pitch;
    assert q > 0.0;
    RoundHalfEven(q)
  }

  /** The input checks of generate_dice_image, in the order it makes them, and the
      dice counts when they all pass. */
  function Validate(req: Request): (r: Result<Plan, GenError>)
    ensures req.imagePath == [] ==> r == Failure(NoImage)
    ensures req.imagePath != [] && (req.widthFt <= 0.0 || req.heightFt <= 0.0) ==> r == Failure(BadDimensions)
    ensures r.Success? <==>
      req.imagePath != [] && req.widthFt > 0.0 && req.heightFt > 0.0
      && (req.diceType == Colored ==> req.ticked != {})
      && DiceSize(req.sizeLabel).Some?
    ensures r.Failure? && r.error == NoColors <==>
      req.imagePath != [] && req.widthFt > 0.0 && req.heightFt > 0.0
      && req.diceType == Colored && req.ticked == {}
    ensures r.Success? ==>
      && r.value.pitch == DiceSize(req.sizeLabel).value
      && r.value.cols == DiceAlong(req.widthFt, r.value.pitch)
      && r.value.rows == DiceAlong(req.heightFt, r.value.pitch)
  {
    if req.imagePath == [] then Failure(NoImage)
    else if req.widthFt <= 0.0 || req.heightFt <= 0.0 then Failure(BadDimensions)
    else if req.diceType == Colored && Selected(req.ticked) == [] then Failure(NoColors)
    else match DiceSize(req.sizeLabel)
      case None => Failure(BadDiceSize)
      case Some(pitch) => Success(Plan(DiceAlong(req.widthFt, pitch), DiceAlong(req.heightFt, pitch), pitch))
  }

  /** The only error left once the image is chosen, the dimensions are positive
      and a colour is ticked for coloured dice is an unknown die size. */
  lemma ValidateSizeError(req: Request)
    requires req.imagePath != [] && req.widthFt > 0.0 && req.heightFt > 0.0
    requires req.diceType == Colored ==> req.ticked != {}
    ensures Validate(req).Failure? <==> DiceSize(req.sizeLabel).None?
    ensures Validate(req).Failure? ==> Validate(req).error == BadDiceSize
  {
  }

  /** A wider wall takes at least as many dice across. */
  lemma WiderWallMoreDice(feet1: real, feet2: real, pitch: real)
    requires 0.0 < feet1 <= feet2 && pitch > 0.0
    ensures DiceAlong(feet1, pitch) <= DiceAlong(feet2, pitch)
  {
    DivMonotone(feet1 * InchesPerFoot, feet2 * InchesPerFoot, pitch);
    RoundHalfEvenMonotone(feet1 * InchesPerFoot / pitch, feet2 * InchesPerFoot / pitch);
  }

  /** Smaller dice: at least as many dice cover the same length. */
  lemma SmallerDiceMoreDice(feet: real, pitch1: real, pitch2: real)
    requires feet > 0.0 && 0.0 < pitch1 <= pitch2
    ensures DiceAlong(feet, pitch2) <= DiceAlong(feet, pitch1)
  {
    var len := feet * InchesPerFoot;
    DivAntitone(len, pitch1, pitch2);
    RoundHalfEvenMonotone(len / pitch2, len / pitch1);
  }

  lemma DivMonotone(a: real, b: real, c: real)
    requires a <= b && c > 0.0
    ensures a / c <= b / c
  {
    assert b / c - a / c == (b - a) / c;
  }

  lemma DivAntitone(a: real, p: real, q: real)
    requires a >= 0.0 && 0.0 < p <= q
    ensures a / q <= a / p
  {
    var x, y := a / p, a / q;
    assert x * p == a && y * q == a;
    if y > x {
      MulStrict(x, y, p, q);
    }
  }

  lemma MulStrict(a: real, b: real, c: real, d: real)
    requires 0.0 <= a < b && 0.0 < c <= d
    ensures a * c < b * d
  {
    assert a * c <= a * d;
    assert a * d < b * d;
  }

  /** The standard size, the mini and the micro die, from largest to smallest:
      the same wall takes at least as many mini dice as standard dice, and at
      least as many micro dice as mini dice. */
  lemma DiceSizesOrdered(feet: real)
    requires feet > 0.0
    ensures DiceAlong(feet, 0.625) <= DiceAlong(feet, 0.27) <= DiceAlong(feet, 0.19685)
  {
    SmallerDiceMoreDice(feet, 0.27, 0.625);
    SmallerDiceMoreDice(feet, 0.19685, 0.27);
  }

  /** The chosen image as the loader delivers it: its size in pixels, and its grey
      levels already resized to the plan's dice counts. */
  datatype Photo = Photo(width: nat, height: nat, gray: array2<real>)

  /** The image's width/height ratio differs from the wall's by more than the
      tolerance. */
  predicate AspectMismatch(photo: Photo, req: Request)
    requires photo.height > 0 && req.heightFt > 0.0
  {
    Abs(photo.width as real / photo.height as real - req.widthFt / req.heightFt) > Tolerance
  }

  /** Everything one press of the button produces. */
  datatype Output = Output(
    levels: array2<Level>,
    colors: seq<seq<Color>>,
    faces: array2<string>,
    text: string,
    counts: seq<(Color, nat)>)

  /** generate_dice_image. The image file is a parameter: photo is None when it
      cannot be opened, and its grey levels are those of the resized image. The
      user's answer to the aspect-ratio question is the parameter proceed. */
  method Generate(req: Request, photo: Option<Photo>, proceed: bool) returns (r: Result<Output, GenError>)
    requires photo.Some? ==> photo.value.height > 0
    requires photo.Some? && Validate(req).Success? ==>
      photo.value.gray.Length0 == Validate(req).value.rows && photo.value.gray.Length1 == Validate(req).value.cols
    ensures Validate(req).Failure? ==> r == Failure(Validate(req).error)
    ensures Validate(req).Success? && photo.None? ==> r == Failure(ImageError)
    ensures Validate(req).Success? && photo.Some? && AspectMismatch(photo.value, req) && !proceed ==>
      r == Failure(Declined)
    ensures Validate(req).Success? && photo.Some? && (!AspectMismatch(photo.value, req) || proceed) ==>
      var plan := Validate(req).value;
      (plan.cols == 0 || plan.rows == 0 ==> r == Failure(ImageError))
      && (plan.cols > 0 && plan.rows > 0 ==> r.Success? && GoodOutput(req, plan, photo.value, r.value))
  {
    var checked := Validate(req);
    if checked.Failure? {
      return Failure(checked.error);
    }
    var plan := checked.value;
    if photo.None? {
      return Failure(ImageError);
    }
    var img := photo.value;
    if Abs(img.width as real / img.height as real - req.widthFt / req.heightFt) > Tolerance && !proceed {
      return Failure(Declined);
    }
    if plan.cols == 0 || plan.rows == 0 {
      return Failure(ImageError);
    }
    var out := Render(req, plan, img);
    return Success(out);
  }

  /** The work after the checks: dithering, colour mapping, face codes, layout. */
  method Render(req: Request, plan: Plan, photo: Photo) returns (out: Output)
    requires req.diceType == Colored ==> req.ticked != {}
    requires photo.gray.Length0 == plan.rows && photo.gray.Length1 == plan.cols
    ensures GoodOutput(req, plan, photo, out)
  {
    var selected := Selected(req.ticked);
    var levels := FloydSteinberg(photo.gray);
    var colors := MapColors(Rows(levels), req.diceType, req.option, selected);
    var faces := AssignFaces(levels, colors, req.diceType, req.option);
    var text, counts := BuildLayoutAndCount(colors, faces, plan.cols, plan.rows, req.diceType, req.option, selected);
    out := Output(levels, colors, faces, text, counts);
  }

  /** What a successful run delivers: the dithered levels of the grey image, a
      colour per level under the chosen mode, the face code of every cell, and the
      layout text and the counts built from them. */
  ghost predicate GoodOutput(req: Request, plan: Plan, photo: Photo, out: Output)
    requires req.diceType == Colored ==> req.ticked != {}
    reads photo.gray, out.levels, out.faces
  {
    var rows, cols := plan.rows, plan.cols;
    var selected := Selected(req.ticked);
    && out.levels.Length0 == rows && out.levels.Length1 == cols
    && photo.gray.Length0 == rows && photo.gray.Length1 == cols
    && (forall i, j :: 0 <= i < rows && 0 <= j < cols ==>
          out.levels[i, j] == DitherLevels(Snapshot(photo.gray), rows, cols)[i][j])
    && out.colors == MapColors(Rows(out.levels), req.diceType, req.option, selected)
    && out.faces.Length0 == rows && out.faces.Length1 == cols
    && (forall i, j :: 0 <= i < rows && 0 <= j < cols ==>
          out.faces[i, j] == CellCode(req.diceType, req.option, out.colors[i][j], out.levels[i, j]))
    && out.counts == Counts(req.diceType, req.option, out.colors, cols, rows)
    && out.text == LayoutText(cols, Rows(out.faces), req.diceType, req.option, selected)
  }

  /** The counts of a successful run add up to the number of dice. */
  lemma OutputCounts(req: Request, plan: Plan, photo: Photo, out: Output)
    requires req.diceType == Colored ==> req.ticked != {}
    requires GoodOutput(req, plan, photo, out)
    ensures Sum(out.counts) == plan.cols * plan.rows
  {
    CountsTotal(req.diceType, req.option, out.colors, plan.cols, plan.rows);
  }

  /** Every face code fits in a worksheet cell unchanged. */
  lemma CellCodeClean(t: DiceType, o: DiceOption, color: Color, v: Level)
    ensures CleanCell(CellCode(t, o, color, v))
  {
    CodeClean(if t == Monochrome && o != CombinedDice then SingleColor(o) else color, CellFace(t, v));
  }

  /** Saving the layout text of a successful run to a worksheet puts every face
      code in its own cell, under the column numbers and beside the row numbers. */
  lemma OutputSheet(req: Request, plan: Plan, photo: Photo, out: Output)
    requires req.diceType == Colored ==> req.ticked != {}
    requires GoodOutput(req, plan, photo, out)
    requires plan.cols >= 1
    ensures Rectangular(Rows(out.faces), plan.cols)
    ensures Shows(Parse(out.text), plan.cols, Rows(out.faces))
  {
    var grid := Rows(out.faces);
    forall i, j | 0 <= i < |grid| && 0 <= j < |grid[i]|
      ensures CleanCell(grid[i][j])
    {
      CellCodeClean(req.diceType, req.option, out.colors[i][j], out.levels[i, j]);
    }
    SheetShowsLayout(plan.cols, grid, req.diceType, req.option, Selected(req.ticked));
  }
}
