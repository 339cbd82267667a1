# Dice image generator — a verified model of its core

The dice image generator turns a photograph into a mosaic of dice. The user gives
the wall's width and height in feet, a die size (standard, mini or micro), and a
dice mode:

- monochrome white dice;
- monochrome black dice;
- combined black and white dice;
- coloured dice drawn from a fixed palette of five colours.

The program first checks the input and works out how many dice go across and
down. It resizes the grey image to that many pixels and dithers it with
Floyd–Steinberg error diffusion to levels 0..7. Each level then gets a die colour
and a die face, and the program writes a text layout. The layout is a numbered
grid of face codes such as `Whi3`, `BlaS` or `Yel5`, followed by a legend, and the
program also counts the dice of each colour. Finally the layout text can be read
back into a worksheet.

This project models that pipeline in Dafny and proves what it promises. All the
modelled code is in `dice_image_generator.py`.

| file | module | models |
|---|---|---|
| `wrappers.dfy` | `Wrappers` | `Option` and `Result` |
| `text.dfy` | `Text` | the Python string operations the layout and its parser use: `str(n)`, `f"{s:>w}"`, `join`, `split`, `strip`, `splitlines`, `capitalize`, `lower`, string order |
| `rounding.dfy` | `Rounding` | `round` (half to even), truncation toward zero, `np.clip` |
| `dither.dfy` | `Dither` | `floyd_steinberg_dithering`: a functional specification of the pass over `seq<seq<real>>`, and the in-place loop over an `array2<real>` proved against it |
| `colors.dfy` | `Colors` | `map_grayscale_to_colors` and the colour dispatch of the three dice modes |
| `faces.dfy` | `Faces` | the cell loop of `create_dice_image`: the face and the code of each cell, filled into an `array2<string>` |
| `layout.dfy` | `Layout` | `build_layout_and_count`: the grid text, the legend and the count per colour |
| `sheet.dfy` | `Sheet` | the parser of `save_layout_to_excel`, writing into a worksheet object |
| `roundtrip.dfy` | `RoundTrip` | the proof that the parser recovers every face code of the layout text |
| `generator.dfy` | `Generator` | `generate_dice_image`: input checks, dice counts, the aspect-ratio question, and the whole pipeline |

Floating-point pixel values are modelled as exact reals. The dither pass,
`np.round(v / 32)` and the level `floor(q / 32)` clipped to 0..7 are modelled
exactly over those reals. The colour bin `(v / 7 * (n - 1)).astype(int)` is
computed on integers and proved equal to the truncated real product
(`Colors.BinIndexExact`).

Two details of the code shape the model:

- A wall small enough that `round()` gives 0 dice across or down passes the input
  checks. The code then fails when it resizes the image to that size, so
  `Generator.Generate` reports `ImageError` in that case.
- `build_layout_and_count` reads the monochrome option from the form's variable,
  not from its arguments. The model passes the option in. The generator passes the
  same value, so nothing changes.

## Model

| member | source | states |
|---|---|---|
| `Rounding.RoundHalfEven` | dice_image_generator.py:150-151 | `round(x)` is within 1/2 of x, and an exact tie goes to the even integer |
| `Rounding.RoundHalfEvenUnique` | dice_image_generator.py:150-151 | those two properties determine `round(x)`: any integer with both is `RoundHalfEven(x)` |
| `Rounding.RoundHalfEvenNearest` | dice_image_generator.py:61 | no integer is closer to x than `round(x)` |
| `Rounding.RoundHalfEvenMonotone` | dice_image_generator.py:150-151 | rounding never decreases: x <= y gives round(x) <= round(y) |
| `Rounding.Trunc` | dice_image_generator.py:98 | `astype(int)` moves toward zero by less than 1 and keeps the sign |
| `Rounding.Clip` | dice_image_generator.py:99 | `np.clip` lies in [lo, hi], keeps values already inside, and sends values outside to the nearer bound |
| `Dither.Quantize` | dice_image_generator.py:61 | `np.round(v/32)*32` is a multiple of 32 within 16 of v, and a tie goes to the even multiple |
| `Dither.QuantizeNearest` | dice_image_generator.py:61 | no multiple of 32 is closer to v than the quantised value |
| `Dither.QuantizeFixed` | dice_image_generator.py:61 | a value that is already a multiple of 32 is left unchanged |
| `Dither.Diffuse` | dice_image_generator.py:60-72 | one visit of cell (y, x) keeps the grid's shape; what it does to each cell is `DiffuseCell`, and that it leaves earlier cells alone is `DiffuseKeepsPast` |
| `Dither.ScanRow` | dice_image_generator.py:59-72 | the visits of the first n cells of row y keep the grid's shape; `ScanRowKeepsRowsAbove` and `ScanRowFrozen` state what they leave unchanged |
| `Dither.Scan` | dice_image_generator.py:58-72 | the visits of the first m rows, in row-major order, keep the grid's shape; `ScanFrozen` and `DitherFrozen` state what each cell ends as |
| `Dither.DitherLevels` | dice_image_generator.py:53-77 | the levels of the whole pass have the grid's shape; `DitherLevelsSpec` states each level |
| `Dither.DiffuseKeepsPast` | dice_image_generator.py:63-72 | a visit writes only its own cell and cells after it in row-major order; every earlier cell keeps its value |
| `Dither.DiffuseCell` | dice_image_generator.py:60-72 | after visiting (y, x): that cell holds its quantised value, each in-bounds neighbour gains error × 7/16, 3/16, 5/16 or 1/16, and every other cell is unchanged |
| `Dither.DiffuseAt` | dice_image_generator.py:60-72 | the in-place loop body, with its four bounds checks, leaves the buffer equal to the one-step specification `Diffuse` |
| `Dither.DiffuseRow` | dice_image_generator.py:59-72 | the inner loop turns the grid before row y into the grid after row y |
| `Dither.ScanRowKeepsRowsAbove` | dice_image_generator.py:58-72 | walking row y leaves every row above it unchanged |
| `Dither.ScanRowFrozen` | dice_image_generator.py:59-72 | once cell (y, j) is visited, the rest of its row leaves it unchanged |
| `Dither.ScanFrozen` | dice_image_generator.py:58-72 | once row i is finished, later rows leave it unchanged |
| `Dither.DitherFrozen` | dice_image_generator.py:58-72 | every cell ends as the quantised value of what it held when visited, and is never changed afterwards |
| `Dither.DitherOnLattice` | dice_image_generator.py:58-72 | after the full pass every cell holds a multiple of 32 |
| `Dither.QuantizeIndex` | dice_image_generator.py:61-75 | `floor(Quantize(v) / 32)` is `round(v / 32)` |
| `Dither.DitherLevelsSpec` | dice_image_generator.py:53-77 | each level is round(v / 32), clipped to 0..7, where v is the value the cell held at its visit |
| `Dither.ToLevels` | dice_image_generator.py:75-76 | each level is `floor(q / 32)` of the final buffer, clipped to 0..7 |
| `Dither.FloydSteinberg` | dice_image_generator.py:53-77 | the in-place pass over a fresh copy of the image returns, for every cell, the level of the functional specification `DitherLevels` |
| `Dither.WhitePixel` | dice_image_generator.py:53-77 | a white pixel (255) rounds up to 256, whose level 8 is clipped to 7 |
| `Dither.SmallGrid` | dice_image_generator.py:53-77 | a 2×2 example worked through by hand: [[0, 255], [128, 64]] dithers to [[0, 7], [4, 2]] |
| `Colors.SingleColor` | dice_image_generator.py:190 | the colour of a single-colour option; `SingleColorName` shows it is named by the first word of the option's label |
| `Colors.Brightness` | dice_image_generator.py:83-89 | the fixed brightness table; its values order the colours black, blue, red, yellow, white, which `SortStrict` and `Ranked` use |
| `Colors.FirstWordOfOption` | dice_image_generator.py:190 | the first word of "White Dice" is "White", and of "Black Dice" is "Black" |
| `Colors.SingleColorName` | dice_image_generator.py:190 | a single-colour option's colour is named by the lower-cased first word of its label |
| `Colors.Keys` | dice_image_generator.py:92 | the dictionary's keys are exactly the selected colours, each once |
| `Colors.Insert` | dice_image_generator.py:94 | insertion adds exactly the one element (as a multiset) |
| `Colors.InsertSorted` | dice_image_generator.py:94 | inserting into a brightness-sorted list keeps it sorted |
| `Colors.SortByBrightness` | dice_image_generator.py:94 | `sorted` returns a permutation of its input |
| `Colors.SortSorted` | dice_image_generator.py:94 | `sorted` returns a list sorted by brightness |
| `Colors.SortSameMembers` | dice_image_generator.py:94 | sorting keeps exactly the same members |
| `Colors.SortStrict` | dice_image_generator.py:94 | sorting distinct colours gives strictly increasing brightness |
| `Colors.Ranked` | dice_image_generator.py:92-95 | the ranked colours are exactly the selected ones, in strictly increasing brightness |
| `Colors.BinIndex` | dice_image_generator.py:98-99 | the bin of a level is one of the n colours; `BinIndexExact`, `BinMonotone` and `BinEnds` state which |
| `Colors.BinIndexExact` | dice_image_generator.py:98-99 | the integer bin equals `clip(trunc(v / 7 * (n - 1)), 0, n - 1)` over the reals |
| `Colors.BinMonotone` | dice_image_generator.py:98-99 | a higher level never falls into a lower bin |
| `Colors.BinEnds` | dice_image_generator.py:98-99 | level 0 falls into the first bin and level 7 into the last |
| `Colors.BinEndsOf` | dice_image_generator.py:98-104 | in a list of strictly increasing brightness, level 0's bin is no brighter and level 7's no darker than any member |
| `Colors.ColoredColor` | dice_image_generator.py:80-105 | every level gets one of the selected colours |
| `Colors.ColoredMonotone` | dice_image_generator.py:80-105 | a brighter level never gets a darker colour |
| `Colors.ColoredSingle` | dice_image_generator.py:80-105 | with one colour selected, every level gets that colour |
| `Colors.ColoredEnds` | dice_image_generator.py:80-105 | level 0 gets the darkest selected colour and level 7 the brightest |
| `Colors.CellColor` | dice_image_generator.py:183-190 | coloured dice take a selected colour; combined dice are black up to level 3 and white above; single-colour dice take the option's colour |
| `Colors.MapColors` | dice_image_generator.py:183-190 | the colour grid has the shape of the levels, and each cell's colour is `CellColor` of its level |
| `Faces.ColoredFace` | dice_image_generator.py:289 | coloured dice show v % 6 + 1 pips: levels 0..5 show 1..6 pips and levels 6, 7 show 1, 2 |
| `Faces.MonoFace` | dice_image_generator.py:295-309 | monochrome dice show the solid face exactly at levels 0 and 7, and v pips otherwise |
| `Faces.Prefix` | dice_image_generator.py:291 | `color[:3].capitalize()` has three characters; `PrefixTable` lists them and `PrefixInjective` shows they differ |
| `Faces.Token` | dice_image_generator.py:291-309 | a face token is not empty; `TokenChar` shows it is one character |
| `Faces.Code` | dice_image_generator.py:291-309 | a code is the prefix followed by the token; `CodeRoundTrip` reads it back and `CodeInjective` shows different faces get different codes |
| `Faces.PrefixTable` | dice_image_generator.py:291 | the prefixes `color[:3].capitalize()` are Whi, Bla, Red, Blu and Yel |
| `Faces.CellFace` | dice_image_generator.py:286-309 | coloured dice use the pip mapping and monochrome dice the solid/pip mapping; both give a die face |
| `Faces.CellCode` | dice_image_generator.py:286-309 | the code is the prefix of the cell's colour (of the option's colour for single-colour dice) followed by the face token |
| `Faces.ParseCode` | dice_image_generator.py:291-309 | a string read as a code denotes a die face, and writing that colour and face gives the string back |
| `Faces.PrefixInjective` | dice_image_generator.py:291 | different colours have different prefixes |
| `Faces.CodeRoundTrip` | dice_image_generator.py:291-309 | every code reads back as its colour and face |
| `Faces.CodeInjective` | dice_image_generator.py:291-309 | equal codes mean equal colour and equal face |
| `Faces.TokenChar` | dice_image_generator.py:302-309 | a face token is one character: 'S' for the solid face, or the digit of the pip count |
| `Faces.PrefixColorOf` | dice_image_generator.py:291 | every prefix reads back as its colour |
| `Faces.CodeClean` | dice_image_generator.py:291-309 | a code has four characters, with no surrounding space, no bar and no line break |
| `Faces.FaceCode` | dice_image_generator.py:286-309 | the loop body's branches compute `CellCode` |
| `Faces.AssignRow` | dice_image_generator.py:285-309 | the inner loop fills row y with its codes and leaves the other rows unchanged |
| `Faces.AssignFaces` | dice_image_generator.py:284-309 | every cell of the new face array holds the code of its colour and level |
| `Layout.Header` | dice_image_generator.py:388 | the header line; `RoundTrip.HeaderStart` shows it starts with four spaces and a bar, and `RoundTrip.HeaderSplit` that it splits back into the column numbers |
| `Layout.Separator` | dice_image_generator.py:389 | the separator line; `RoundTrip.SeparatorFacts` shows it starts with four dashes and has no line break |
| `Layout.BodyLine` | dice_image_generator.py:393-396 | the line of one row; `RoundTrip.BodySplit` shows it splits back into its row number and its padded cells |
| `Layout.GridLines` | dice_image_generator.py:385-397 | the grid has 2 × rows + 2 lines and starts with the header |
| `Layout.GridSeparatorAt` | dice_image_generator.py:389-397 | every other line, from the second on, is the separator |
| `Layout.GridRowAt` | dice_image_generator.py:393-397 | line 2k + 2 is the line of row k |
| `Layout.CombinedEntries` | dice_image_generator.py:407-409 | the combined legend's fixed lines are the legend lines of black and white |
| `Layout.SingleEntryIsEntry` | dice_image_generator.py:412-414 | the single-colour legend line, built from the label's first word, is the legend line of the option's colour |
| `Layout.Entries` | dice_image_generator.py:403-405 | the coloured legend has one line per selected colour, in order |
| `Layout.LegendCovers` | dice_image_generator.py:402-416 | every colour a cell can get has its line in the legend; monochrome legends explain the solid face and the pips |
| `Layout.LegendLines` | dice_image_generator.py:402-416 | the legend lines of each dice mode; `LegendCovers` and `LegendDistinct` state what they contain |
| `Layout.EntryInjective` | dice_image_generator.py:403-405 | different colours have different legend lines |
| `Layout.LegendDistinct` | dice_image_generator.py:402-416 | when no colour is selected twice, no legend line is written twice, in every dice mode |
| `Layout.LayoutText` | dice_image_generator.py:399-418 | the grid lines joined by line breaks, then "\nLegend:\n" and the legend lines; `RoundTrip.SheetShowsLayout` shows the parser reads its face codes back |
| `Layout.AlphabeticalOrder` | dice_image_generator.py:365 | the five colours in np.unique's order are all the colours, sorted by name |
| `Layout.TallyOverEntries` | dice_image_generator.py:365-367 | each counted entry is a colour that occurs, with its exact number of cells |
| `Layout.TallyOverComplete` | dice_image_generator.py:365-367 | every colour that occurs is counted |
| `Layout.TallyOrdered` | dice_image_generator.py:365-367 | the counted entries come in the order of the colour names |
| `Layout.TallySum` | dice_image_generator.py:365-373 | the counts add up to the number of cells of the colours counted |
| `Layout.Tally` | dice_image_generator.py:365-367 | np.unique's counts; `TallyExact` states which colours they hold and in what order |
| `Layout.Counts` | dice_image_generator.py:360-376 | the count per colour in each dice mode; `CountsTotal` shows they add up to cols × rows |
| `Layout.CountsTotal` | dice_image_generator.py:360-376 | in every mode the counts add up to cols × rows |
| `Layout.TallyExact` | dice_image_generator.py:365-373 | np.unique's counts hold exactly the colours that occur, each with its number of cells, ordered by name |
| `Layout.BuildGridLines` | dice_image_generator.py:385-397 | the header, separator and row-loop build the lines `GridLines` specifies |
| `Layout.BuildLegend` | dice_image_generator.py:402-416 | the legend is "\nLegend:\n" followed by the lines of the dice mode |
| `Layout.BuildLayoutAndCount` | dice_image_generator.py:354-423 | returns the counts of the mode and the grid lines joined by line breaks, followed by the legend |
| `Sheet.Worksheet.constructor` | dice_image_generator.py:448-449 | a new worksheet has no cells |
| `Sheet.Worksheet.SetCell` | dice_image_generator.py:477 | writing a cell changes that cell only |
| `Sheet.Inner` | dice_image_generator.py:475 | `parts[1:-1]` drops the first and the last part |
| `Sheet.WriteCellsKeys` | dice_image_generator.py:476-477 | writing a row of values fills exactly one cell per value from the start column on |
| `Sheet.WriteCellsValue` | dice_image_generator.py:487-488 | column col + j gets the stripped value j; every other cell keeps its value |
| `Sheet.ParseLine` | dice_image_generator.py:470-489 | a line advances the row counter by at most one |
| `Sheet.LegendStart` | dice_image_generator.py:456-461 | the index of the first line starting with "Legend:", or the number of lines if there is none |
| `Sheet.WriteRow` | dice_image_generator.py:486-488 | the loop writes the stripped values from column 2 on |
| `Sheet.ParseLineInto` | dice_image_generator.py:470-489 | the loop body does to the worksheet what `ParseLine` specifies |
| `Sheet.ParseLines` | dice_image_generator.py:466-489 | the parser's state after a run of lines; `RoundTrip.ParseGrid` states what it holds after the grid lines |
| `Sheet.Parse` | dice_image_generator.py:452-489 | the cells the parser reads from the lines before the legend; `RoundTrip.SheetShowsLayout` states them for every layout text |
| `Sheet.SaveLayoutToExcel` | dice_image_generator.py:439-489 | an empty layout is refused; otherwise the worksheet holds what the parser reads from the lines before the legend |
| `Text.Decimal` | dice_image_generator.py:388 | `str(n)` is a non-empty string of digits |
| `Text.DecimalValue` | dice_image_generator.py:388 | reading back `str(n)` gives n |
| `Text.DecimalInjective` | dice_image_generator.py:388 | different numbers are written differently |
| `Text.PadLeft` | dice_image_generator.py:388 | `f"{s:>w}"` keeps s at the right end and pads with spaces on the left up to width w |
| `Text.Join` | dice_image_generator.py:388-399 | `sep.join(parts)`; `SplitJoin` shows splitting gives the parts back when they lack the separator |
| `Text.Strip` | dice_image_generator.py:470-488 | `strip()`; `StripSpec` states what it returns |
| `Text.Split` | dice_image_generator.py:475 | `split(sep)` gives at least one part, none containing sep, and joining them with sep gives s back |
| `Text.SplitJoin` | dice_image_generator.py:395 | splitting a join of parts that lack the separator gives the parts back |
| `Text.SplitAfter` | dice_image_generator.py:190 | a word followed by the separator splits off as the first part |
| `Text.StripSpec` | dice_image_generator.py:470 | `strip()` returns the slice of s between its leading and its trailing white space, and that slice has none at either end |
| `Text.StripEmpty` | dice_image_generator.py:470 | a line strips to '' exactly when it is all white space |
| `Text.StripPadLeft` | dice_image_generator.py:477 | `strip()` undoes right-alignment of a trimmed text |
| `Text.SplitLines` | dice_image_generator.py:452 | no line that `splitlines()` returns contains a line break |
| `Text.SplitLinesJoin` | dice_image_generator.py:452 | lines without breaks, joined by "\n" and followed by "\n", come back out of `splitlines()` |
| `Text.Lowered` | dice_image_generator.py:190 | `lower()` lower-cases each character |
| `Text.Take` | dice_image_generator.py:291 | `s[:n]` is a prefix of s: of length n when s has at least n characters, and all of s when it is shorter |
| `Text.FirstWord` | dice_image_generator.py:190 | the first word is a prefix without a space that ends at the first space, or is all of s when s has none |
| `Text.Capitalize` | dice_image_generator.py:291 | `capitalize()` keeps the length, upper-cases the first character and lower-cases every other one |
| `RoundTrip.ParseSkip` | dice_image_generator.py:470-471 | the parser skips separator lines |
| `RoundTrip.HeaderSplit` | dice_image_generator.py:475 | the header line splits back into its padded column numbers |
| `RoundTrip.BodySplit` | dice_image_generator.py:481-486 | a row line splits back into its row number and its padded cells |
| `RoundTrip.ParseHeaderLine` | dice_image_generator.py:473-478 | a header line writes its labels into the current row from column 2 on |
| `RoundTrip.ParseBodyLine` | dice_image_generator.py:479-489 | a row line writes its number into column 1 and its cells from column 2 on |
| `RoundTrip.LayoutSplit` | dice_image_generator.py:399-452 | splitting the layout text gives the grid lines, the "Legend:" line, then the legend's lines |
| `RoundTrip.LegendAfter` | dice_image_generator.py:456-464 | the lines before the first "Legend:" line are exactly the grid lines |
| `RoundTrip.LayoutLines` | dice_image_generator.py:385-464 | the lines the parser keeps from a layout text are exactly its grid lines |
| `RoundTrip.HeaderCells` | dice_image_generator.py:475-477 | the header puts the column numbers into row 1 |
| `RoundTrip.ParseHeader` | dice_image_generator.py:466-478 | parsing the header and its separator gives the header row and moves to row 2 |
| `RoundTrip.RowCells` | dice_image_generator.py:481-488 | a row line adds its row number and its cells and nothing else |
| `RoundTrip.ParseRow` | dice_image_generator.py:479-489 | parsing one more row line and its separator adds that row to the worksheet |
| `RoundTrip.ParseGrid` | dice_image_generator.py:466-489 | parsing the grid lines fills exactly the header row, the number column and every face code in its cell |
| `RoundTrip.SheetShowsLayout` | dice_image_generator.py:385-489 | the worksheet read from a layout text shows every face code at row r + 2 and column c + 2, under the column numbers and beside the row numbers, and holds nothing else |
| `Generator.Selected` | dice_image_generator.py:119 | the selected colours are exactly the ticked ones, each once, and the list is empty exactly when nothing is ticked |
| `Generator.DiceSize` | dice_image_generator.py:134-143 | the three menu texts give 0.625, 0.27 and 0.19685 inches; any other text gives none |
| `Generator.DiceAlong` | dice_image_generator.py:145-151 | the number of dice is within 1/2 of the length in inches divided by the die size, and a tie goes to the even count |
| `Generator.Validate` | dice_image_generator.py:122-151 | checks the input in the source's order: image, dimensions, colours, die size; on success gives the die size and the dice counts |
| `Generator.ValidateSizeError` | dice_image_generator.py:134-143 | once the first three checks pass, the only possible error is an unknown die size |
| `Generator.WiderWallMoreDice` | dice_image_generator.py:145-151 | a wider wall never takes fewer dice across |
| `Generator.SmallerDiceMoreDice` | dice_image_generator.py:134-151 | a smaller die never gives fewer dice across the same length |
| `Generator.DiceSizesOrdered` | dice_image_generator.py:134-151 | the same wall takes at least as many mini dice as standard dice, and at least as many micro dice as mini dice |
| `Generator.AspectMismatch` | dice_image_generator.py:158-163 | the image's width/height ratio and the wall's differ by more than 0.1; `Generate` ends with `Declined` on a negative answer exactly then |
| `Generator.Render` | dice_image_generator.py:174-209 | dithering, colour mapping, face codes and layout, each as its own specification describes |
| `Generator.Generate` | dice_image_generator.py:108-213 | input errors as `Validate` reports them; an image that cannot be opened or resized is an error; declining the aspect warning ends the run; otherwise the outputs of `Render` |
| `Generator.OutputCounts` | dice_image_generator.py:360-377 | the counts of a successful run add up to the number of dice |
| `Generator.CellCodeClean` | dice_image_generator.py:286-309 | every face code fits a worksheet cell unchanged |
| `Generator.OutputSheet` | dice_image_generator.py:439-489 | saving a run's layout to a worksheet puts every face code in its own cell |

## Left out

- Everything that draws or asks: the window, the file dialogs, the preview, message boxes, and the label that shows the total. An error is returned as a `GenError` value. The user's answer to the aspect-ratio question is the parameter `proceed`. Declining is returned as `Declined`; the program shows no message in that case.
- Image decoding, grey conversion and Lanczos resizing. The loader is a parameter of `Generator.Generate`: `None` when the file cannot be opened, otherwise the image size and the resized grey levels. A plan with 0 dice across or down is reported as `ImageError`, which is what the resize does with such a size.
- The die-face images that `create_dice_image` pastes, the output picture, and saving files (text, workbook, picture). A missing asset image is not modelled.
- `create_dice_face.py` (drawing the face images) is not part of this model.
- Floating point: pixel values, the dimensions and the die sizes are exact reals. The model therefore does not reproduce float64 rounding in the error diffusion or in `width * 12 / size`.
- `Colors.BinIndexExact`: the bin is computed on integers and proved equal to the truncated real product. It also equals the float64 evaluation on every input the program can reach (v in 0..7, n at most 5): the product v / 7 × (n − 1) is an integer only when v = 0, v = 7 or n = 1, and float64 computes those exactly; otherwise 7 does not divide v × (n − 1), so the product lies at least 1/7 away from every integer, far beyond float64's rounding error.
- The dice type, the monochrome option and the colours are enumerations. The branches `create_dice_image` takes for an option text outside the menu cannot be reached from the form and are not modelled. Only the die-size menu text is a string, because its unknown value has its own error.
- A dimension field holding text that is not a number (which makes the form raise an error) is not modelled; the dimensions are reals.
- `str.lower()` and `str.capitalize()` are modelled for ASCII only; `Text.IsSpace` models the full set of characters `str.isspace()` accepts. `split()` on white space is modelled only for the option labels, whose words are separated by one space.
- `Sheet.SaveLayoutToExcel` models the parsing; the workbook file itself is not written.
- `RoundTrip.SheetShowsLayout` requires at least one column. With no columns, `"|".join([])` leaves one empty cell that the parser reads back, so the layout of a 0-column grid does not read back as an empty grid.
