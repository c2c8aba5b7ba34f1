# grbl-gui core, modelled in Dafny

grbl-gui is a desktop front end for the grbl CNC controller. This project
models the parts of it that compute rather than display.

- **G-code tools** (`lib/gcodetools.py`). These functions rewrite G-code
  programs, given as lists of lines:
  - moving a program (`translate`) and scaling it (`scale_factor`);
  - measuring its bounding box (`bbox`) and moving it to the origin
    (`to_origin`);
  - fitting it into a given size (`scale_into`);
  - tracing its box as rapid moves with pauses (`bbox_draw`);
  - rotating it in the plane (`rotate2D`);
  - following a probed height map (`bumpify`);
  - rendering text in a Hershey stroke font (`hersheyToGcode`).

  Every tool finds axis words with the pattern `.*L([-.\d]+)`. It rewrites
  them with `re.sub("L[-.\d]+", ...)` to `"{:0.3f}"` text with trailing
  zeros and a bare point stripped. Modules `AxisWords` and `Numbers` model
  these patterns and that rendering once, and every tool uses them.
- **Raster to laser** (`lib/pixel2laser.py`). `find_row_ranges` finds the
  inked span of every pixel row, scanning the rows boustrophedon. `do`
  emits the burn program: a preamble, one burn line per pixel (only the
  words whose value changed), a bleed move between inked rows, and a
  closing move. Module `RasterMachine` replays the emitted lines on a model
  of the controller's modal state. It proves that the program burns exactly
  the image's pixels, each with its own power.
- **Main window utilities** (`classes/window.py`):
  - the running-time label (`_secs_to_timestring`);
  - writing the settings table to a file (`settings_table_to_str`);
  - loading such a file back into a dictionary (the loop of
    `settings_load_from_file`);
  - reading the variables table into the dictionary used for `#name`
    substitution (`_var_table_to_dict`).

Python's failure modes are modelled as values. `Outcomes.Outcome` is either
`Ok(value)`, `Rejected` (the function logs an error and returns `None`), or
`Raised(e)` for the exception `e` the code would raise. No error path is
excluded by a precondition.

Floats are exact reals. Tables, bitmaps and probed surfaces are parameters.

Modules follow the source files:

| source | modules |
|---|---|
| `lib/gcodetools.py` | `Translate`, `Scale`, `Bounds`, `Fitting`, `BoxDrawing`, `Rotate`, `Bumping`, `Hershey` and `HersheyLaser` |
| `lib/pixel2laser.py` | `RowRanges`, `Raster` and `RasterMachine` |
| `classes/window.py` | `Timestring`, `SettingsFile` and `VariableTable` |
| shared | `Text`, `Numbers`, `AxisWords`, `Outcomes` and `Dicts` |

Code that loops and updates variables is a `method` with loop invariants.
Each method is proved equal to the function that specifies it. Where the
source mutates a list in place (`bumpify`), the list is an `array`. The
properties are lemmas about those functions.

Two edge cases of `do` in `lib/pixel2laser.py` follow the code exactly.
An image with no inked pixel leaves the first inked column at `None`, so
the preamble computes `None * unit_length` (line 131) and raises
`TypeError`; `Raster.RasterFails` states that. The closing move uses the
direction of the last row table entry, which may be a white row, because
the loop variable `direction` keeps the last entry's value (lines 141
and 255).

## Model

| member | source | states |
|---|---|---|
| Outcomes.Prepend | lib/gcodetools.py:110-140 | Lines already done go in front of a successful rest, and a failure of the rest is the failure of the whole. |
| Outcomes.MapLinesOk | lib/gcodetools.py:120-140 | A per-line loop completes exactly when every line does. The result has the same number of lines, in order, each replaced by its image. |
| Outcomes.MapLinesFailure | lib/gcodetools.py:120-140 | A failed per-line loop fails as its first failing line does, and every line before it succeeded. |
| Text.FirstLine | lib/gcodetools.py:117 | The text before the first newline, which is all that a `.*` pattern can cross: a prefix with no newline, followed by a newline when shorter. |
| Text.StripCommentsOneLine | lib/gcodetools.py:147 | On one line, `re.sub(";.*", "")` leaves a prefix with no `;` that stops exactly at the first `;`. |
| Text.StripRight | lib/gcodetools.py:136 | `rstrip(c)` gives a prefix that does not end in `c`, and everything it drops is `c`. |
| Text.Strip | classes/window.py:1425 | `strip()` gives a text that neither starts nor ends with whitespace. |
| Text.StripTrims | classes/window.py:1425 | `strip()` keeps a slice of the text and drops only whitespace before and after it. |
| Text.RemoveAll | classes/window.py:1426 | `replace(c, "")` leaves no `c` behind. |
| Text.RemoveAllConcat | classes/window.py:1426 | `replace(c, "")` works piece by piece, so it keeps the order of the characters it keeps. |
| Text.RemoveAllKeeps | classes/window.py:1426 | A text with no `c` comes back unchanged. |
| Text.RemoveAllCount | classes/window.py:1426 | Every character other than `c` is kept as often as it occurs, and `c` no longer occurs. |
| Text.ZeroPad | classes/window.py:1380 | `{:02d}` pads to at least the width and keeps a digit string all digits. |
| Text.ZeroPadKeeps | classes/window.py:1380 | The padded text ends with the text unchanged, and only `0` comes before it. |
| Text.NatDigitsValue | classes/window.py:1380 | Reading back the decimal digits of `n` gives `n`. |
| Numbers.ParseUnsignedDecimal | lib/gcodetools.py:133 | `float()` of digits, a point and digits is their decimal value. |
| Numbers.FixedReadsBack | lib/gcodetools.py:135 | `"{:0.Nf}"` writes sign, integer digits, point and N digits, and the text reads back as the value rounded to N decimals. |
| Numbers.RoundedClose | lib/gcodetools.py:135 | Rounding to N decimals moves a value by at most half a unit of the last place. |
| Numbers.RoundedMonotone | lib/gcodetools.py:135 | Rounding never reverses the order of two values. |
| Numbers.Word | lib/gcodetools.py:135-136 | A rewritten word is its letter followed by the trimmed number. |
| Numbers.WordTrims | lib/gcodetools.py:135-136 | `rstrip("0").rstrip(".")` of the letter plus the fixed text is exactly the letter plus the trimmed number. |
| Numbers.TrimmedReadsBack | lib/gcodetools.py:135-136 | The trimmed number is non-empty, made only of `[-.\d]`, does not start with a point, and reads back as the value rounded to 3 decimals. |
| Numbers.IntDigitsReads | lib/gcodetools.py:401 | `str(i)` is a number that a word pattern takes whole and that `float()` reads back as `i`. |
| AxisWords.NumRun | lib/gcodetools.py:117 | `[-.\d]+` is greedy: the run is made of number characters and cannot be extended. |
| AxisWords.Words | lib/gcodetools.py:118 | The numbers of the `L` words of a text are each a non-empty run of number characters. |
| AxisWords.Read | lib/gcodetools.py:131-133 | Nothing is read exactly when the pattern does not match. A value that is read is `float()` of the captured group. |
| AxisWords.CaptureIsLastWord | lib/gcodetools.py:117 | `re.match(".*L([-.\d]+)")` fails exactly when no `L` word starts in the first line segment; otherwise it captures the number of the last word, because `.*` is greedy. |
| AxisWords.LastOfWords | lib/gcodetools.py:117-118 | The last number `re.sub` meets is the number of the last word. |
| AxisWords.RewriteReadsBack | lib/gcodetools.py:135-137 | After the rewrite, the letter captures the trimmed number and reads the value rounded to 3 decimals. |
| AxisWords.RewriteKeepsOthers | lib/gcodetools.py:137 | Rewriting the words of one letter changes neither the capture nor the reading of any other letter. |
| AxisWords.RewriteKeepsWords | lib/gcodetools.py:137 | Rewriting the words of one letter keeps the text of every word of every other letter. |
| AxisWords.SubSameWords | lib/gcodetools.py:137 | `re.sub` with a whole word keeps the number of words of the letter and gives every one of them the new number. |
| AxisWords.SubOtherWords | lib/gcodetools.py:137 | `re.sub` on one letter leaves the words of every other letter as they were. |
| AxisWords.FirstLineSub | lib/gcodetools.py:137 | A substitution whose replacement has no newline happens line by line. |
| AxisWords.SubContains | lib/gcodetools.py:215 | A rewrite never creates foreign text such as the `_zclear` marker. |
| AxisWords.RewriteKeepsMarker | lib/gcodetools.py:215 | A rewritten line holds `_zclear` only if the original did. |
| AxisWords.SubNoWords | lib/gcodetools.py:137 | A text without words of the letter is left as it is. |
| AxisWords.AppendWordReads | lib/gcodetools.py:182-185 | Appending a word `L<v>` to a line without one makes it read `v` rounded, and changes no other letter's words or reading. |
| AxisWords.RewriteKeepsOut | lib/gcodetools.py:179-180 | A rewrite introduces no other character, so a line stays one line and a comment-free line stays comment-free. |
| Translate.Axis | lib/gcodetools.py:112 | The axes X, Y, Z are axis letters. |
| Translate.TranslateLines | lib/gcodetools.py:120-140 | The loop of `translate` over the lines computes `TranslateAll`: the first line with `G91` gives `None`, a malformed number raises, and every other line is shifted. |
| Translate.ShiftLine | lib/gcodetools.py:125-137 | The loop over the three axes of one line computes `ShiftFrom`. |
| Translate.ShiftFromStep | lib/gcodetools.py:131-137 | An axis moves only when the pattern matches and the offset is not 0. A malformed number then raises `ValueError`. |
| Translate.ShiftFromReads | lib/gcodetools.py:125-137 | After the axis loop, every axis reads its old value plus its offset, rounded as written. |
| Translate.TranslateRejects | lib/gcodetools.py:121-123 | `translate` returns `None` exactly when some line holds `G91` and every line before it was translated. |
| Translate.TranslateG91 | lib/gcodetools.py:121-123 | A program holding `G91` is never translated. |
| Translate.TranslateResult | lib/gcodetools.py:107-140 | A translated program has as many lines and no `G91`. Every axis of every line reads its shifted value, and the words of an axis that does not move keep their text. |
| Translate.TranslateByZero | lib/gcodetools.py:132 | Translating by zero offsets gives the program back unchanged, unless it holds `G91`. |
| Translate.TranslateBack | lib/gcodetools.py:133-137 | Translating back by the negated offsets restores every value read, within the two roundings to 3 decimals. |
| Translate.ShiftFromNotRejected | lib/gcodetools.py:125-137 | Moving words never returns `None`, and it raises only `ValueError`. |
| Translate.ShiftFromUnchanged | lib/gcodetools.py:132 | A line with nothing to move comes out as it went in. |
| Translate.TranslateKeepsMarker | lib/gcodetools.py:137 | A translated line holds `_zclear` only if its original did. |
| Scale.Letter | lib/gcodetools.py:199 | The seven letters X Y Z I J K R are axis letters. |
| Scale.AxisFactor | lib/gcodetools.py:212 | Letter `i` takes factor `facts[i % 3]`: X, Y and Z each take their own. |
| Scale.ScaleLines | lib/gcodetools.py:207-223 | The loop of `scale_factor` over the lines computes `ScaleAll`. |
| Scale.ScaleLine | lib/gcodetools.py:208-220 | The loop over the seven letters of one line computes `ScaleFrom`. |
| Scale.ScaleFromStep | lib/gcodetools.py:214-220 | A letter is scaled only when it matches, its factor is not 0 and the line is not a protected `_zclear` line. A malformed number then raises. |
| Scale.ScaleNeverRejects | lib/gcodetools.py:191-223 | `scale_factor` never returns `None` (it has no `G91` check) and raises only `ValueError`. |
| Scale.ProtectedUnchanged | lib/gcodetools.py:215 | A `_zclear` line is left exactly as it was unless `scale_zclear` is set. |
| Scale.NothingToScale | lib/gcodetools.py:215 | A line with no letter to scale comes out as it went in. |
| Scale.ScaleFromReads | lib/gcodetools.py:208-220 | On an unprotected line, every letter reads its old value times its factor, rounded as written. |
| Scale.ScaleResult | lib/gcodetools.py:191-223 | A scaled program has as many lines. Protected lines are unchanged, and every letter of every other line reads its value times its factor. |
| Scale.ScaleFromKeepsWords | lib/gcodetools.py:215-220 | The words of a letter with factor 0, or with nothing to read, keep their text. |
| Bounds.BBox | lib/gcodetools.py:226-250 | The loop of `bbox` computes `BoxAll`. |
| Bounds.WidenLine | lib/gcodetools.py:238-249 | The loop over the axes of one line widens each range by the value the line reads. |
| Bounds.BoxFromOk | lib/gcodetools.py:241-243 | `bbox` fails exactly when some X, Y or Z word does not parse, and then with `ValueError`. |
| Bounds.BoxAllRanges | lib/gcodetools.py:226-250 | Every value a line reads lies within its axis's range. Each end of a range is a value some line reads or the sentinel 9999 / -9999. An axis no line reads keeps `[9999, -9999]`. |
| Bounds.BoxFromHolds | lib/gcodetools.py:244-249 | The value any line reads for an axis lies within the range computed. |
| Bounds.BoxFromAttained | lib/gcodetools.py:244-249 | Each end of a range is where it started or a value some line reads. |
| Bounds.BoxOfImage | lib/gcodetools.py:226-250 | When every value of a program is mapped by a monotone function, the new box is the image of the old one. |
| Fitting.ToOriginMoves | lib/gcodetools.py:40-45 | `to_origin` is `translate` by minus the minimum X and Y, with Z unmoved. |
| Fitting.ToOriginBox | lib/gcodetools.py:40-45 | After `to_origin`, X and Y each start at 0 and end at their former extent, within rounding to 3 decimals. |
| Fitting.TranslateBox | lib/gcodetools.py:107-140 | The box of a translated program is the old box shifted by the offsets. |
| Fitting.MovedToOrigin | lib/gcodetools.py:44 | Moving by `-lo` takes `lo` to 0 and `hi` to its distance from `lo`, within rounding. |
| Fitting.ScaleIntoFails | lib/gcodetools.py:58-75 | `scale_into` never returns `None`. With a width that is not positive it always raises: `fac_x` is never bound. |
| Fitting.ScaleIntoSteps | lib/gcodetools.py:48-77 | `scale_into` is `bbox`, then `translate` to the origin, then `scale_factor` by the fitted factors. |
| Fitting.FitMovedOk | lib/gcodetools.py:58-75 | The fitting succeeds only with a positive width, a non-zero X extent, a non-zero extent for every positive height or depth, and a successful move. |
| Fitting.FactorPositive | lib/gcodetools.py:58-70 | Every factor is positive once the width and the extents it divides by are. |
| Fitting.ScaleIntoBox | lib/gcodetools.py:48-77 | The box of a fitted program is the original box moved to the origin and scaled by each axis's factor, as read back from the text. |
| Fitting.ScaleIntoFits | lib/gcodetools.py:48-77 | What `scale_into` is for. X, and Y, start at 0 and end at the target size of their axis: the width, the positive height, or the extent scaled as X is. This holds to within two roundings to 3 decimals. Z keeps its place, and its extent becomes the positive depth, or the extent scaled as X is, to within a thousandth. |
| Fitting.FactorFits | lib/gcodetools.py:58-70 | Each axis's factor times its extent is that axis's target size. |
| Fitting.FittedRange | lib/gcodetools.py:56-75 | Fitting an axis by a positive factor gives `[0, extent * factor]` for X and Y, and an extent of `extent * factor` for Z, within rounding. |
| Fitting.FitSpans | lib/gcodetools.py:56-75 | Moving a range by minus its low end and scaling it by a positive factor gives 0 and the scaled extent, off by at most half a thousandth per rounding, the first magnified by the factor. |
| Fitting.FitStretches | lib/gcodetools.py:71-75 | Scaling a range in place changes its extent to the scaled extent, within a thousandth. |
| Fitting.FittedReads | lib/gcodetools.py:56-75 | After moving then scaling, every axis of every line reads its moved and scaled value, and no new malformed word appears. |
| Fitting.FitMonotone | lib/gcodetools.py:56-75 | Moving then scaling by a non-negative factor keeps the order of values. |
| BoxDrawing.DrawVisitsCorners | lib/gcodetools.py:80-104 | `bbox_draw` succeeds exactly when `bbox` does, and otherwise fails in the same way. Split into lines, it makes five rapid `G0` moves. They visit the lower-left, lower-right, upper-right and upper-left corners and return to the lower-left one, each followed by a pause. |
| BoxDrawing.SplitJoined | lib/gcodetools.py:89-104 | Splitting the drawing at its newlines gives back its ten lines and a final empty segment. |
| BoxDrawing.OneCoordMove | lib/gcodetools.py:92 | A rapid move to one coordinate reads that coordinate to one decimal and nothing for the other axis. |
| BoxDrawing.TwoCoordMove | lib/gcodetools.py:89 | The first move reads both coordinates to one decimal. |
| Rotate.Rotate2D | lib/gcodetools.py:143-188 | The loop of `rotate2D` computes `RotateFrom`, with the tool starting at `(0, 0)`. |
| Rotate.RotateOne | lib/gcodetools.py:160-187 | The loop body rotates one line and tracks the tool, and fails only with `ValueError`. |
| Rotate.PlaceWords | lib/gcodetools.py:173-185 | The X and Y words are rewritten where the line has them and appended where it has none. |
| Rotate.RotateFromOk | lib/gcodetools.py:159-188 | `rotate2D` never returns `None`. It fails, with `ValueError`, exactly when an X or Y word of some line does not parse. |
| Rotate.RotateFromReads | lib/gcodetools.py:159-188 | Line `k` of the result reads, for X and Y, where the tool is after line `k` of the input, turned about the anchor and rounded to 3 decimals. |
| Rotate.RotateLineReads | lib/gcodetools.py:160-185 | A rotated line has no comment and no newline. It reads the turned position, and a coordinate the line lacks is the one held from before. |
| Rotate.AnchorFixed | lib/gcodetools.py:170-171 | The anchor stays where it is. |
| Rotate.RotationKeepsDistance | lib/gcodetools.py:170-171 | With `cos² + sin² = 1`, every point keeps its distance to the anchor. |
| Rotate.ZeroAngleKeepsPositions | lib/gcodetools.py:143-188 | Rotating by the angle 0 sets every X and Y word to where the tool is after that line, rounded to 3 decimals. |
| Bumping.Bump | lib/gcodetools.py:253-332 | `bumpify` returns `Bumpify` of the list as it was, and leaves the list as `BumpState` says: rewritten on success, untouched when refused, rewritten up to the failing line when pass two raises. |
| Bumping.FollowXY | lib/gcodetools.py:272-293 | Pass one computes `Coords`: it refuses `G91` and a change of coordinate system, raises on a malformed X or Y, and otherwise records the XY position after every line. |
| Bumping.RaiseZ | lib/gcodetools.py:309-330 | Pass two computes `BumpFrom` and writes every finished line back into the list as it goes. |
| Bumping.RaisedZ | lib/gcodetools.py:317-328 | One line fails exactly when its Z word is malformed, and then with `ValueError`. |
| Bumping.CoordsRefuses | lib/gcodetools.py:277-283 | Pass one returns `None` exactly when some line is refused and every line before it parses. |
| Bumping.BumpifyRefuses | lib/gcodetools.py:277-283 | `bumpify` returns `None` exactly when a line is refused before any malformed X or Y word. The list is then left untouched. |
| Bumping.CoordsTracked | lib/gcodetools.py:285-293 | Pass one records, for every line, where the tool is after it. |
| Bumping.BumpLineReads | lib/gcodetools.py:317-328 | A line's comment goes. A Z word is raised by the height there minus the height at the origin. A line with X or Y but no Z word gets the last Z read, raised by the same amount, appended. X and Y read as before. Any other line is left as it was. |
| Bumping.BumpifyLines | lib/gcodetools.py:253-332 | Line `k` of the result is line `k` bumped by the surface at the position after it, relative to the origin, starting from the Z of `cwpos`. |
| Bumping.BumpStateAgrees | lib/gcodetools.py:330-332 | The list left behind keeps its length. It is what `bumpify` returns on success, and unchanged when the program is refused. |
| Bumping.BumpFromNotRejected | lib/gcodetools.py:309-330 | Pass two never returns `None`. |
| Hershey.FontEntry | lib/gcodetools.py:378 | `fontdata[i]`: a negative index counts from the end, and any other index outside the list raises. |
| Hershey.Codes | lib/gcodetools.py:372 | One glyph index per character. |
| Hershey.NumberPairShape | lib/gcodetools.py:380 | The size match captures two runs of number characters, one space apart, at the head of the path, and the second cannot be extended. |
| Hershey.Floats | lib/gcodetools.py:381-382 | `float()` of both groups. It raises `ValueError` exactly when one of them is not a number. |
| Hershey.GlyphSize | lib/gcodetools.py:380-382 | The glyph's bounds, or the error of the missing match. It never returns `None`. |
| Hershey.PartsShape | lib/gcodetools.py:387 | Every command `findall` yields has the shape `[ML][-0-9. ]+`. |
| Hershey.PartsOfJoined | lib/gcodetools.py:387 | `findall` on a path written out from its commands gives back those commands. |
| Hershey.ParseStrokeKinds | lib/gcodetools.py:392-398 | A command parses or raises, and it draws exactly when it is an `L`. |
| Hershey.HersheyToGcode | lib/gcodetools.py:372-428 | The glyph loop computes `Render`. |
| Hershey.GlyphGcode | lib/gcodetools.py:378-426 | One glyph is its size match, its command loop drawn `size1` to the left of the pen, and the advance by `size2`. |
| Hershey.CommandsGcode | lib/gcodetools.py:388-424 | The command loop, with the motion mode starting unset, computes `StrokesFrom`. |
| Hershey.CommandGcode | lib/gcodetools.py:390-424 | One command writes `StrokeLines` and leaves the mode of its kind. |
| Hershey.GlyphSizeFails | lib/gcodetools.py:380-382 | A glyph whose size does not parse fails as the size match does. |
| Hershey.GlyphOpens | lib/gcodetools.py:398-414 | The first command of a glyph always switches mode. With a non-zero depth, a `z_safe` or `plunge` line comes first. |
| Hershey.FlatCount | lib/gcodetools.py:400-411 | With depth 0, no Z line is written: one line per command. |
| Hershey.CommandShape | lib/gcodetools.py:398-424 | A command ends with its target, after the motion words when the mode changes. It takes two lines only when the mode changes and the depth is not 0. |
| HersheyLaser.CommandMoves | lib/gcodetools.py:398-424 | Executed by the controller from the state its mode stands for, a command's lines make exactly the move the command asks for and leave the state of its kind. |
| HersheyLaser.StrokesMoves | lib/gcodetools.py:389-424 | The lines of a glyph's commands make exactly the moves those commands ask for, each in the state its kind needs. |
| HersheyLaser.GlyphMoves | lib/gcodetools.py:378-426 | A rendered glyph makes the moves of its commands, shifted to its left edge. |
| HersheyLaser.RenderMoves | lib/gcodetools.py:377-426 | The lines of a run of glyphs make the moves the glyphs ask for, with the pen advancing by each glyph's width. |
| HersheyLaser.TextLaser | lib/gcodetools.py:335-428 | The program for a text burns exactly the `L` strokes of its glyphs and moves with the laser off along the `M` commands, from whatever state the controller is in. |
| HersheyLaser.SwitchedTarget | lib/gcodetools.py:404-418 | A line with motion words sets the state of the command's kind and moves to the target. |
| HersheyLaser.ZLineStill | lib/gcodetools.py:400-411 | The `z_safe` and `plunge` lines make no move in the plane. |
| HersheyLaser.MovesConcat | lib/gcodetools.py:424 | The moves of two runs of lines are those of the first, then those of the second from where the first left the controller. |
| RowRanges.ScanFromLeft | lib/pixel2laser.py:62-65 | The scan from the left edge finds `FirstInk`. |
| RowRanges.ScanFromRight | lib/pixel2laser.py:68-71 | The scan from the right edge finds `LastInk`. |
| RowRanges.FindRowRanges | lib/pixel2laser.py:25-92 | `find_row_ranges` returns one span per row, bottom row first, as `Spans` defines them. |
| RowRanges.FirstInkFound | lib/pixel2laser.py:62-65 | The left scan stops at the first inked column, and finds none only in a white row. |
| RowRanges.LastInkFound | lib/pixel2laser.py:68-71 | The right scan stops at the first inked column from the right, and finds none only in a white row. |
| RowRanges.SpanEmpty | lib/pixel2laser.py:40-90 | Directions alternate, starting left to right. A row has no span exactly when it is white, and then its entry is `[None, None, dir]`. |
| RowRanges.SpanBounds | lib/pixel2laser.py:73-84 | An inked span covers every inked pixel of its row. It is moved one pixel outwards and clamped to the bitmap, and its ends are one column from ink or at an edge. |
| Raster.NextInked | lib/pixel2laser.py:202-209 | The look-ahead finds an inked row table entry at or after `j`. |
| Raster.FirstStart | lib/pixel2laser.py:124-128 | The search for the first row finds an entry with a start column. |
| Raster.EmitRow | lib/pixel2laser.py:156-190 | The pixel loop of one row writes `RowLines` and leaves the values last written. |
| Raster.FirstRow | lib/pixel2laser.py:124-128 | The search finds the first entry with a start column, with its start and direction, and nothing exactly when there is none. |
| Raster.LookAhead | lib/pixel2laser.py:197-213 | The look-ahead finds the next inked row and its start, and nothing exactly when none follows. |
| Raster.BurnRow | lib/pixel2laser.py:156-251 | The loop body for an inked row is `InkedRow`: its pixels, then the bleed when an inked row follows. |
| Raster.RowLoop | lib/pixel2laser.py:140-256 | The row loop and the closing move compute `Rows` after the preamble. |
| Raster.Do | lib/pixel2laser.py:97-258 | `do`, once the image is loaded, computes `Program`. |
| Raster.ScanSkip | lib/pixel2laser.py:162-166 | A pixel that the next pixel's move covers writes nothing. |
| Raster.ScanBurn | lib/pixel2laser.py:168-190 | Any other pixel writes one burn line and becomes the last written. |
| Raster.FirstIsNext | lib/pixel2laser.py:124-128 | The row searched for the preamble is the first inked row. |
| Raster.InkedIffNotBlank | lib/pixel2laser.py:202-213 | Some row table entry is inked exactly when the image is not blank. |
| Raster.RasterFails | lib/pixel2laser.py:104-133 | `dpmm = 0` raises `ZeroDivisionError` and a blank image raises `TypeError`. Every other image gives a program. |
| Raster.RowsOk | lib/pixel2laser.py:140-256 | The rows and the closing move cannot fail once X is known or an inked row is still ahead. |
| Raster.RowsLast | lib/pixel2laser.py:255-256 | A program ends with the closing move. |
| Raster.InkedRowBurns | lib/pixel2laser.py:156-190 | Every inked row writes at least one burn line, after which X is known and Y is the row. |
| Raster.BleedShape | lib/pixel2laser.py:215-251 | Between inked rows: the bleed comment, the overshoot past the furthest column at the middle Y, the entry of the next row, the closing comment and `G1`. X and S are then forgotten. |
| Raster.RowBurns | lib/pixel2laser.py:168-190 | Every line of a row scan is a burn line, and none writes Z. |
| Raster.CorrectionAddsCutMode | lib/pixel2laser.py:130-133 | The corrected program is the program with one `G1` after the preamble. It fails exactly when the program does. |
| RasterMachine.PixelReplay | lib/pixel2laser.py:176-190 | A burn line that leaves out the unchanged words still moves the controller to the pixel's spot with the pixel's power. |
| RasterMachine.RowReplay | lib/pixel2laser.py:156-190 | A row's burn lines reach exactly that row's spots, in order. |
| RasterMachine.BleedReplay | lib/pixel2laser.py:242-251 | The bleed burns nothing and leaves cutting mode on. |
| RasterMachine.PreambleReplay | lib/pixel2laser.py:130-133 | The preamble leaves the laser off, in rapid mode, at the start of the first inked row. |
| RasterMachine.RowsReplay | lib/pixel2laser.py:140-256 | The rows and the closing move burn exactly the spots of the inked rows. |
| RasterMachine.RasterReplay | lib/pixel2laser.py:97-258 | A program burns exactly the image's spots, every pixel at its place with its power. Leaving out unchanged words loses nothing. |
| RasterMachine.SkipKeepsPower | lib/pixel2laser.py:162-166 | A skipped pixel is covered by a later pixel's move that has the same gray value, so it burns with its own power. |
| RasterMachine.FirstRowRapid | lib/pixel2laser.py:130-133 | As written, the first burn line runs in rapid mode (`G0`). |
| RasterMachine.CorrectedCuts | lib/pixel2laser.py:130-133 | With the correction, every burn line runs in cutting mode, and the program still burns every spot of the image. |
| RasterMachine.RowsModes | lib/pixel2laser.py:140-251 | Once the controller cuts whenever an inked row is ahead, every burn line of the rows runs in cutting mode. |
| Timestring.SecsToTimestring | classes/window.py:1373-1381 | The result is empty exactly when the duration is negative. |
| Timestring.ClockArithmetic | classes/window.py:1375-1379 | Hours, minutes and seconds split the whole seconds as a clock does: minutes and seconds are below 60. |
| Timestring.TimestringReadsBack | classes/window.py:1373-1381 | For a non-negative duration, the label is three colon-separated digit fields. Minutes and seconds are two digits below 60, and hours are at least two digits. They add up to the whole seconds of the duration. |
| SettingsFile.SettingLine | classes/window.py:1467-1471 | A row's line exists exactly when all three cells hold items; otherwise reading the missing item raises. |
| SettingsFile.SettingsTableToStr | classes/window.py:1463-1472 | The loop of `settings_table_to_str` computes `SettingsText`. |
| SettingsFile.SettingsTextOk | classes/window.py:1463-1472 | The table is written exactly when every cell holds an item, as one `$key=val (cmt)` line per row in table order. Otherwise it raises. |
| SettingsFile.LineTextBody | classes/window.py:1468-1471 | The written line is `$`, the key without `$` signs and stripped, `=`, the stripped value, ` (`, the stripped comment, `)` and a newline. |
| SettingsFile.Greedy | classes/window.py:1101 | The split the pattern settles on is a match. |
| SettingsFile.GreedyIsFirst | classes/window.py:1101 | Of all ways to match `\$(.*)=(.*) \((.*)\)`, the one with the latest `=`, then the latest ` (`, then the latest `)` is chosen, as greedy backtracking does. |
| SettingsFile.MatchLine | classes/window.py:1101-1105 | The groups are the key, value and comment between the chosen `=`, ` (` and `)`, and there are none exactly when the pattern fails. |
| SettingsFile.PyIntDigits | classes/window.py:1103 | `int()` of decimal digits is their value. |
| SettingsFile.LoadSettings | classes/window.py:1098-1109 | The loop over the file's lines computes `Load`. |
| SettingsFile.LineEntryFails | classes/window.py:1101-1109 | A line assigns its key exactly when the pattern matches. A key `int` refuses raises `ValueError`, and a non-matching line is skipped. |
| SettingsFile.LoadFails | classes/window.py:1098-1109 | Loading fails exactly when some matching line's key is not a number, and then with `ValueError`. |
| SettingsFile.LoadKeepsLast | classes/window.py:1106-1109 | Every matching line's key is in the dictionary. A later line with the same key overwrites it; otherwise it keeps that line's value and comment. |
| SettingsFile.LoadOnlyLines | classes/window.py:1106-1109 | Nothing but the keys of the file's lines is loaded. |
| SettingsFile.BodyMatches | classes/window.py:1101 | A written line whose value holds no `=` and whose comment holds no ` (` matches with exactly its key, value and comment as the groups. |
| SettingsFile.JoinLines | classes/window.py:1100 | Reading the joined lines of a file line by line gives those lines back. |
| SettingsFile.SaveThenLoad | classes/window.py:1093-1109 | Saving a table of readable rows (written by `settings_table_to_str`, lines 1463-1472) and loading the file gives every row's number with its stripped value and comment, later rows winning. |
| Dicts.FillOk | classes/window.py:1100-1109 | A dictionary-filling loop completes exactly when no row raises. Otherwise it fails as the first raising row does. |
| Dicts.LastValue | classes/window.py:1106-1109 | The value of the last row that assigns a key, and none exactly when no row does. |
| Dicts.FillKeepsLast | classes/window.py:1106-1109 | A completed loop holds exactly the keys some row assigns, each with the value of the last row that assigns it. |
| Dicts.FillAlike | classes/window.py:1106-1109 | Two loops whose rows do the same, row by row, fill the same dictionary. |
| VariableTable.VarName | classes/window.py:1425-1426 | A name holds no `#`. |
| VariableTable.VarValue | classes/window.py:1428-1434 | A value exists exactly when the cell holds an item whose stripped text is not empty, and it is that stripped text. |
| VariableTable.VarsComplete | classes/window.py:1416-1438 | Reading the variables table never fails. |
| VariableTable.VarTableToDict | classes/window.py:1416-1438 | The loop of `_var_table_to_dict` computes `Vars`, skipping rows without a name item. |
| VariableTable.VarsKeepLast | classes/window.py:1419-1436 | Every row with a name item puts its name in the dictionary, and the last row of a name decides its value. |
| VariableTable.VarsOnlyNames | classes/window.py:1419-1436 | Every key is the name of some row and holds no `#`. |

## Left out

- `read` and `write` in `lib/gcodetools.py` are file I/O and are not modelled.
- Logging, the `print` calls and the warning `scale_factor` logs for unequal factors change nothing that is returned, and are left out.
- Floats are exact reals, so the model has neither binary rounding of float arithmetic nor a signed zero. `"{:0.3f}"` and `"{:0.1f}"` are modelled as rounding half away from zero. Python rounds the binary value, so a decimal tie can round the other way.
- Numbers.Fixed: a real has no negative zero. Python writes the float `-0.0` as `-0.000` (and as `-0.0` with `{:0.1f}`), where the model writes `0.000`. A value strictly between -0.0005 and 0 is not affected: both write `-0.000`. A `-0.0` arises in the source when a coordinate of 0 is negated or multiplied by a negative factor. It also arises when `float()` reads a written `-0` word back: `scale_factor`'s `val *= factor` (`lib/gcodetools.py:216-217`) keeps it for a positive factor, and `bbox` passes it to `bbox_draw`. The model reads `-0` as 0.
- Numbers.Word: for the same reason, an axis word whose Python value is `-0.0` reads `X-0` (or `Y-0`, `Z-0`) in the source and `X0` in the model. One case is `scale_factor` of an `X0` word by a negative factor. Another is `scale_factor`, as `scale_into` calls it, of a `Z-0` word such as the one `bumpify` writes for a height just below 0: the source writes `Z-0` again, the model `Z0`.
- Hershey.Target: a glyph point with y equal to 0 is flipped to `-0.0` by the source, which writes `Y-0`; the model writes `Y0`. For example, the path `-5 5 M -3 0 L 3 0` at `lib/gcodetools.py:420` gives `Y-0` in the source.
- BoxDrawing.DrawLines: a box edge read from a word such as `X-0` is the float `-0.0`, which the source writes `G0X-0.0` and the model writes `G0X0.0`.
- Hershey.SafeLine, Hershey.PlungeLine, Hershey.HersheyToGcode: `z_safe` and `z_depth` are integers, as their defaults 3 and 0 are. The source formats any number with `"{}"`, so a float depth such as -0.5 writes `G1Z-0.5; plunge` and a float 3.0 writes `G0S0Z3.0; z_safe`. Float values are not modelled.
- `float()` is modelled for `[-.\d]` text only, which is all the patterns capture. Exponents, `inf` and `nan` never reach it.
- `\d` is restricted to ASCII digits, in the patterns and in `int()`. `int()` also drops underscores between digits, which the model does not.
- `math.radians`, `math.cos` and `math.sin` are not modelled. Rotate takes the cosine and sine as parameters.
- `griddata` is not modelled. Bumping takes the interpolated surface as a function parameter, evaluated at each position and at `(0, 0)`.
- Bumping.Bumpify, Bumping.Bump: the surface is a total function to reals. Cubic `griddata` gives NaN at a point outside the convex hull of the probe points. The source then writes `Znan` into the line (`lib/gcodetools.py:321-328`), and every line does so when `(0, 0)` is outside. NaN is not modelled.
- The `eval('hersheydata.' + font)` lookup is not modelled, and the Hershey font data is not part of this model. Hershey takes the font as its list of glyph paths.
- `Image.open(...).convert('L')` and `im.load()` are not modelled. RowRanges and Raster take the image as a gray-value function and its size.
- In `do`, the text rendering of numbers with `{:g}` and `{:f}` is not modelled. The emitted lines are a datatype holding the values they write.
- `do` ends with `result.split('\n')`. Its final empty segment is not modelled.
- `do` computes arc radii (`lib/pixel2laser.py:227-238`) that are never used, so they are left out.
- `settings_load_from_file` and `settings_save_to_file` open a file dialog and read or write the file. The model starts from the lines of the file, as `for line in f` yields them. Universal-newline translation of `\r` is not modelled.
- `dict_into_settings_table` and all other Qt table updates are not modelled.
- VariableTable.VarTableToDict: a value cell counts whenever it holds an item. Qt item truthiness is not modelled.
- Timestring.SecsToTimestring: `int()` of an infinite or NaN float is not modelled. The division `secs / 3600` is exact rather than float division.
- Bumping.Bump: the list is an `array` updated in place, but the aliasing of `gcode_list` with the caller's list is not modelled.

## Findings

| source | as written | input that shows it | evidently intended | confidence | as-written member | corrected member |
|---|---|---|---|---|---|---|
| lib/pixel2laser.py:130-133 | The preamble selects `G0` and nothing selects `G1` before the first row's burn lines, so the first inked row is burned with rapid moves. Every later row gets `G1` after its bleed (line 251). | a 1x1 black image | a `G1` after the preamble, so that every row burns at the cutting feed | medium, not executed | RasterMachine.FirstRowRapid | RasterMachine.CorrectedCuts |
