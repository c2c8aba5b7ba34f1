/** The emission pass of the raster-to-laser converter: the row table is walked
    bottom row first, every inked row is burned pixel by pixel in its scan
    direction, and between inked rows the head overshoots by the bleed
    distance and is positioned at the start of the next inked row. */
module Raster {
  import opened Outcomes
  import opened RowRanges

  /** The numbers the conversion works with: millimetres per pixel
      (`1 / dpmm`), the bleed distance and the horizontal correction. */
  datatype Settings = Settings(unit: real, bleed: real, xcorr: real)

  /** One line of the produced program. The numbers are the values the line
      writes; their decimal rendering is not modelled. */
  datatype Line =
    | SetPower(s: int)            // `S0`
    | Rapid(x: real, y: real)     // `G0 X.. Y..`, the first positioning move
    | RapidMode                   // `G0`
    | MoveX(x: real)              // `X..`, the move to the first row's start
    | Burn(xWord: Option<real>, yWord: Option<real>, zWord: Option<real>, sWord: Option<int>)
                                  // one pixel: only the words whose value changed
    | Comment(text: string)       // the `;_gerbil bleed` markers
    | RapidOff(x: real, y: real)  // `G0 X.. Y.. S0`, a bleed move
    | CutMode                     // `G1`
    | EaseOut(x: real)            // `G0 X.. S0`, the closing move

  const BleedBegin := ";_gerbil bleed begin"
  const BleedEnd := ";_gerbil bleed end"

  /** The values last written for X (a pixel column), Y (a row), Z and S;
      `None` stands for a value forgotten after a bleed. */
  datatype Last = Last(x: Option<int>, y: int, z: int, s: Option<int>)

  /** The lines of one row and the values last written after it. */
  datatype Emitted = Emitted(lines: seq<Line>, last: Last)

  /** Machine X of pixel column `x` scanned in direction `dir`. */
  function XAt(x: int, dir: int, c: Settings): real {
    x as real * c.unit + dir as real * c.xcorr
  }

  /** Machine Y of row table entry `cy`. */
  function YAt(cy: int, c: Settings): real {
    cy as real * c.unit
  }

  /** Machine Z of pixel height `z`. */
  function ZAt(z: int, c: Settings): real {
    z as real * c.unit
  }

  /** The column a burn move ends at: right-to-left moves end on the pixel's
      own column, left-to-right ones one column further. */
  function Shift(dir: int): int {
    if dir == 1 then 1 else 0
  }

  /** Laser power of a pixel: black (0) burns at full power 255. */
  function Power(pix: Pixels, cx: int, y: int): int {
    255 - pix(cx, y)
  }

  /** A pixel strictly inside the row whose gray value the next pixel in the
      scan direction repeats: the move that burns that next pixel covers it. */
  predicate Skipped(pix: Pixels, width: int, cx: int, y: int, dir: int) {
    0 < cx && cx < width - 1 && pix(cx, y) == pix(cx + dir, y)
  }

  /** How many columns a scan at `cx` has left before `end`. */
  function Remaining(cx: int, end: int, dir: int): int {
    if dir == 1 then end - cx else cx - end
  }

  /** The burn line of a pixel that ends at column `x` of row `cy` with power
      `s`, given the values written last. */
  function PixelLine(last: Last, x: int, cy: int, s: int, dir: int, c: Settings): Line {
    Burn(if last.x != Some(x) then Some(XAt(x, dir, c)) else None,
         if last.y != cy then Some(YAt(cy, c)) else None,
         if last.z != 0 then Some(ZAt(0, c)) else None,
         if last.s != Some(s) then Some(s) else None)
  }

  /** The values written by a pixel's burn line. */
  function Written(x: int, cy: int, s: int): Last {
    Last(Some(x), cy, 0, Some(s))
  }

  /** The lines of the scan of columns `cx` up to (excluding) `end` of bitmap
      row `y`, which is row table entry `cy`. */
  function RowLines(pix: Pixels, width: int, y: int, cy: int, cx: int, end: int, dir: int,
                    last: Last, c: Settings): Emitted
    requires dir == 1 || dir == -1
    decreases Remaining(cx, end, dir)
  {
    if Remaining(cx, end, dir) <= 0 then Emitted([], last)
    else if Skipped(pix, width, cx, y, dir) then RowLines(pix, width, y, cy, cx + dir, end, dir, last, c)
    else
      var x := cx + Shift(dir);
      var s := Power(pix, cx, y);
      var rest := RowLines(pix, width, y, cy, cx + dir, end, dir, Written(x, cy, s), c);
      Emitted([PixelLine(last, x, cy, s, dir, c)] + rest.lines, rest.last)
  }

  /** The first inked entry of the row table from entry `j` on. */
  function NextInked(pix: Pixels, width: nat, height: nat, j: nat): (r: Option<nat>)
    ensures r.Some? ==> j <= r.value < height && RowSpan(pix, width, height, r.value).Inked()
    decreases height - j
  {
    if j >= height then None
    else if RowSpan(pix, width, height, j).Inked() then Some(j)
    else NextInked(pix, width, height, j + 1)
  }

  /** The first entry of the row table from entry `j` on with a start column. */
  function FirstStart(pix: Pixels, width: nat, height: nat, j: nat): (r: Option<nat>)
    ensures r.Some? ==> j <= r.value < height && RowSpan(pix, width, height, r.value).start.Some?
    decreases height - j
  {
    if j >= height then None
    else if RowSpan(pix, width, height, j).start.Some? then Some(j)
    else FirstStart(pix, width, height, j + 1)
  }

  /** The column further along the scan direction: the current row's last
      burn or the next inked row's start. */
  function Furthest(nextStart: int, lastX: int, dir: int): int {
    if dir == 1 then (if nextStart > lastX then nextStart else lastX)
    else (if nextStart < lastX then nextStart else lastX)
  }

  /** Machine X of the overshoot: the bleed distance past the furthest column. */
  function ClearX(furthest: int, dir: int, c: Settings): real {
    c.unit * furthest as real + dir as real * c.bleed
  }

  /** Machine Y halfway between the current row and the next inked one. */
  function MiddleY(lastY: int, ny: int, c: Settings): real {
    (lastY as real + (ny - lastY) as real / 2.0) * c.unit
  }

  /** Machine X the next inked row is entered at: its start column, with
      the shift and the X correction of the current row's direction, as the
      bleed computes it (the next row's direction is not used). */
  function EntryX(nextStart: int, dir: int, c: Settings): real {
    XAt(nextStart + Shift(dir), dir, c)
  }

  /** The bleed between an inked row and the next inked row `ny`, which
      starts at column `nextStart`; then cutting mode for that row. */
  function BleedLines(lastX: int, lastY: int, dir: int, nextStart: int, ny: int, c: Settings): seq<Line> {
    [Comment(BleedBegin),
     RapidOff(ClearX(Furthest(nextStart, lastX, dir), dir, c), MiddleY(lastY, ny, c)),
     RapidOff(EntryX(nextStart, dir, c), YAt(ny, c)),
     Comment(BleedEnd),
     CutMode]
  }

  /** Machine X of the closing move: the bleed distance past the last burn,
      in direction `dir`. */
  function OutX(lastX: int, dir: int, c: Settings): real {
    c.unit * lastX as real + dir as real * c.bleed
  }

  /** The closing move; `dir` is the direction of the last row table entry. */
  function Postamble(last: Last, dir: int, c: Settings): Outcome<seq<Line>> {
    if last.x.None? then Raised(TypeError)
    else Ok([EaseOut(OutX(last.x.value, dir, c))])
  }

  /** An inked row table entry `cy`: its burn lines, then the bleed when an
      inked row follows, and the values written last after them. */
  function InkedRow(pix: Pixels, width: nat, height: nat, cy: nat, last: Last, c: Settings): Outcome<Emitted>
    requires RowSpan(pix, width, height, cy).Inked()
  {
    var sp := RowSpan(pix, width, height, cy);
    var row := RowLines(pix, width, BitmapRow(height, cy), cy, sp.start.value, sp.end.value, sp.dir, last, c);
    match NextInked(pix, width, height, cy + 1)
    case None => Ok(row)
    case Some(ny) =>
      if row.last.x.None? then Raised(TypeError)
      else
        var bleed := BleedLines(row.last.x.value, row.last.y, sp.dir,
                                RowSpan(pix, width, height, ny).start.value, ny, c);
        Ok(Emitted(row.lines + bleed, Last(None, row.last.y, row.last.z, None)))
  }

  /** The lines of row table entries `cy` onwards and the closing move, given
      the values written last and the direction of the entry before `cy`. */
  function Rows(pix: Pixels, width: nat, height: nat, cy: nat, last: Last, dir: int, c: Settings): Outcome<seq<Line>>
    decreases height - cy
  {
    if cy >= height then Postamble(last, dir, c)
    else
      var sp := RowSpan(pix, width, height, cy);
      if sp.start.None? && sp.end.None? then Rows(pix, width, height, cy + 1, last, sp.dir, c)
      else if sp.start.None? || sp.end.None? then Raised(TypeError)
      else
        var row := InkedRow(pix, width, height, cy, last, c);
        if !row.Ok? then PassOn(row)
        else Prepend(row.value.lines, Rows(pix, width, height, cy + 1, row.value.last, sp.dir, c))
  }

  /** Machine X of the first positioning move: the bleed distance before the
      first inked row's start. */
  function StartX(fx: int, dir: int, c: Settings): real {
    fx as real * c.unit - dir as real * c.bleed
  }

  /** Laser off, position before the first inked row `fy`, which starts at
      column `fx` in direction `dir`. */
  function Preamble(fx: int, fy: int, dir: int, c: Settings): seq<Line> {
    [SetPower(0), Rapid(StartX(fx, dir, c), YAt(fy, c)), RapidMode, MoveX(XAt(fx, dir, c))]
  }

  /** The program for a `width` x `height` image. */
  function Program(pix: Pixels, width: nat, height: nat, dpmm: real, bleed: real, xcorr: real): Outcome<seq<Line>> {
    if dpmm == 0.0 then Raised(ZeroDivisionError)
    else
      var c := Settings(1.0 / dpmm, bleed, xcorr);
      match FirstStart(pix, width, height, 0)
      case None => Raised(TypeError)
      case Some(j) =>
        var sp := RowSpan(pix, width, height, j);
        // the direction handed on is unused: there is a row, so entry 0 overwrites it
        Prepend(Preamble(sp.start.value, j, sp.dir, c),
                Rows(pix, width, height, 0, Last(sp.start, j, 0, Some(0)), 1, c))
  }

  /** The program with cutting mode selected before the first row is burned,
      as it is before every later row. */
  function CorrectedProgram(pix: Pixels, width: nat, height: nat, dpmm: real, bleed: real, xcorr: real)
    : Outcome<seq<Line>>
  {
    if dpmm == 0.0 then Raised(ZeroDivisionError)
    else
      var c := Settings(1.0 / dpmm, bleed, xcorr);
      match FirstStart(pix, width, height, 0)
      case None => Raised(TypeError)
      case Some(j) =>
        var sp := RowSpan(pix, width, height, j);
        Prepend(Preamble(sp.start.value, j, sp.dir, c) + [CutMode],
                Rows(pix, width, height, 0, Last(sp.start, j, 0, Some(0)), 1, c))
  }

  /** The correction only adds the `G1` line after the preamble. */
  lemma CorrectionAddsCutMode(pix: Pixels, width: nat, height: nat, dpmm: real, bleed: real, xcorr: real)
    ensures Program(pix, width, height, dpmm, bleed, xcorr).Ok? <==>
            CorrectedProgram(pix, width, height, dpmm, bleed, xcorr).Ok?
    ensures Program(pix, width, height, dpmm, bleed, xcorr).Ok? ==>
      var out := Program(pix, width, height, dpmm, bleed, xcorr).value;
      |out| > 4 && CorrectedProgram(pix, width, height, dpmm, bleed, xcorr).value == out[..4] + [CutMode] + out[4..]
    ensures !Program(pix, width, height, dpmm, bleed, xcorr).Ok? ==>
            Program(pix, width, height, dpmm, bleed, xcorr) == CorrectedProgram(pix, width, height, dpmm, bleed, xcorr)
  {
    if dpmm != 0.0 && FirstStart(pix, width, height, 0).Some? {
      var c := Settings(1.0 / dpmm, bleed, xcorr);
      var j := FirstStart(pix, width, height, 0).value;
      var sp := RowSpan(pix, width, height, j);
      var pre := Preamble(sp.start.value, j, sp.dir, c);
      var rows := Rows(pix, width, height, 0, Last(sp.start, j, 0, Some(0)), 1, c);
      if rows.Ok? {
        RowsLast(pix, width, height, 0, Last(sp.start, j, 0, Some(0)), 1, c);
        var out := pre + rows.value;
        assert out[..4] == pre && out[4..] == rows.value;
        assert (pre + [CutMode]) + rows.value == out[..4] + [CutMode] + out[4..];
      }
    }
  }

  /** A successful row loop ends with the closing move. */
  lemma {:induction false} RowsLast(pix: Pixels, width: nat, height: nat, cy: nat, last: Last, dir: int, c: Settings)
    requires Rows(pix, width, height, cy, last, dir, c).Ok?
    ensures var out := Rows(pix, width, height, cy, last, dir, c).value;
      out != [] && out[|out| - 1].EaseOut?
    decreases height - cy
  {
    if cy < height {
      var sp := RowSpan(pix, width, height, cy);
      if sp.start.None? && sp.end.None? {
        RowsLast(pix, width, height, cy + 1, last, sp.dir, c);
      } else {
        var row := InkedRow(pix, width, height, cy, last, c).value;
        RowsLast(pix, width, height, cy + 1, row.last, sp.dir, c);
      }
    }
  }

  /** The pixel loop of one row. */
  method EmitRow(pix: Pixels, width: int, y: int, cy: int, start: int, end: int, dir: int,
                 last0: Last, c: Settings) returns (lines: seq<Line>, last: Last)
    requires dir == 1 || dir == -1
    ensures Emitted(lines, last) == RowLines(pix, width, y, cy, start, end, dir, last0, c)
  {
    ghost var whole := RowLines(pix, width, y, cy, start, end, dir, last0, c);
    lines, last := [], last0;
    var cx := start;
    ghost var todo := whole;
    while Remaining(cx, end, dir) > 0
      invariant todo == RowLines(pix, width, y, cy, cx, end, dir, last, c)
      invariant lines + todo.lines == whole.lines && todo.last == whole.last
      decreases Remaining(cx, end, dir)
    {
      var s := pix(cx, y);
      s := 255 - s;
      if 0 < cx && cx < width - 1 && pix(cx, y) == pix(cx + dir, y) {
        ScanSkip(pix, width, y, cy, cx, end, dir, last, c);
        cx := cx + dir;
        todo := RowLines(pix, width, y, cy, cx, end, dir, last, c);
        continue;
      }
      var x := cx + Shift(dir);
      var wx: Option<real> := None;
      var wy: Option<real> := None;
      var wz: Option<real> := None;
      var ws: Option<int> := None;
      if last.x != Some(x) { wx := Some(XAt(x, dir, c)); }
      if last.y != cy { wy := Some(YAt(cy, c)); }
      if last.z != 0 { wz := Some(ZAt(0, c)); }
      if last.s != Some(s) { ws := Some(s); }
      var line := Burn(wx, wy, wz, ws);
      assert line == PixelLine(last, x, cy, s, dir, c);
      ScanBurn(pix, width, y, cy, cx, end, dir, last, c);
      ghost var done, before := lines, todo;
      lines := lines + [line];
      last := Written(x, cy, s);
      cx := cx + dir;
      todo := RowLines(pix, width, y, cy, cx, end, dir, last, c);
      assert before.lines == [line] + todo.lines && before.last == todo.last;
      AppendOne(done, line, todo.lines);
    }
    assert lines + [] == lines;
  }

  lemma AppendOne<T>(a: seq<T>, l: T, b: seq<T>)
    ensures a + ([l] + b) == (a + [l]) + b
  {
  }

  /** A skipped column writes nothing. */
  lemma ScanSkip(pix: Pixels, width: int, y: int, cy: int, cx: int, end: int, dir: int, last: Last, c: Settings)
    requires dir == 1 || dir == -1
    requires Remaining(cx, end, dir) > 0 && Skipped(pix, width, cx, y, dir)
    ensures RowLines(pix, width, y, cy, cx, end, dir, last, c) == RowLines(pix, width, y, cy, cx + dir, end, dir, last, c)
  {
  }

  /** A burned column writes its line and is then the last written. */
  lemma ScanBurn(pix: Pixels, width: int, y: int, cy: int, cx: int, end: int, dir: int, last: Last, c: Settings)
    requires dir == 1 || dir == -1
    requires Remaining(cx, end, dir) > 0 && !Skipped(pix, width, cx, y, dir)
    ensures var x := cx + Shift(dir);
      var s := Power(pix, cx, y);
      var row := RowLines(pix, width, y, cy, cx, end, dir, last, c);
      var rest := RowLines(pix, width, y, cy, cx + dir, end, dir, Written(x, cy, s), c);
      && row.lines == [PixelLine(last, x, cy, s, dir, c)] + rest.lines
      && row.lines[1..] == rest.lines
      && row.last == rest.last
  {
    var x := cx + Shift(dir);
    var s := Power(pix, cx, y);
    var rest := RowLines(pix, width, y, cy, cx + dir, end, dir, Written(x, cy, s), c);
    assert ([PixelLine(last, x, cy, s, dir, c)] + rest.lines)[1..] == rest.lines;
  }

  /** The search for the first row with a start column. */
  method FirstRow(rowRanges: seq<Span>, ghost pix: Pixels, ghost width: nat, ghost height: nat)
    returns (firstX: Option<int>, firstY: int, firstDir: int)
    requires rowRanges == Spans(pix, width, height)
    ensures firstX.None? <==> FirstStart(pix, width, height, 0).None?
    ensures firstX.Some? ==>
      FirstStart(pix, width, height, 0) == Some(firstY) &&
      firstX == rowRanges[firstY].start && firstDir == rowRanges[firstY].dir
  {
    firstX, firstY, firstDir := None, 0, 0;
    var j := 0;
    while j < |rowRanges|
      invariant 0 <= j <= height && firstX.None?
      invariant FirstStart(pix, width, height, j) == FirstStart(pix, width, height, 0)
    {
      firstX, firstY, firstDir := rowRanges[j].start, j, rowRanges[j].dir;
      if firstX.Some? {
        return;
      }
      j := j + 1;
    }
  }

  /** The search for the next inked row from entry `from` on. */
  method LookAhead(rowRanges: seq<Span>, from: nat, ghost pix: Pixels, ghost width: nat, ghost height: nat)
    returns (nxs: Option<int>, nxe: Option<int>, ny: int)
    requires rowRanges == Spans(pix, width, height)
    ensures nxs.None? && nxe.None? <==> NextInked(pix, width, height, from).None?
    ensures NextInked(pix, width, height, from).Some? ==>
      ny == NextInked(pix, width, height, from).value && nxs == rowRanges[ny].start
  {
    nxs, nxe, ny := None, None, 0;
    var k := from;
    while k < |rowRanges|
      invariant from <= k && (from <= height ==> k <= height) && nxs.None? && nxe.None?
      invariant NextInked(pix, width, height, k) == NextInked(pix, width, height, from)
    {
      nxs, nxe := rowRanges[k].start, rowRanges[k].end;
      if nxs.Some? && nxe.Some? {
        ny := k;
        return;
      }
      SpanEmpty(pix, width, height, k);
      k := k + 1;
    }
  }

  /** The body of the row loop for an inked row: its pixels, the look-ahead
      and the bleed. */
  method BurnRow(rowRanges: seq<Span>, cy: nat, last0: Last, pix: Pixels, width: nat, ghost height: nat,
                 c: Settings) returns (o: Outcome<Emitted>)
    requires rowRanges == Spans(pix, width, height)
    requires cy < |rowRanges| && rowRanges[cy].Inked()
    ensures o == InkedRow(pix, width, height, cy, last0, c)
  {
    assert rowRanges[cy] == RowSpan(pix, width, height, cy);
    var start, end, direction := rowRanges[cy].start.value, rowRanges[cy].end.value, rowRanges[cy].dir;
    var y := |rowRanges| - cy - 1;
    var lines, last := EmitRow(pix, width, y, cy, start, end, direction, last0, c);

    // look ahead for the next inked row
    var nxs, nxe, ny := LookAhead(rowRanges, cy + 1, pix, width, height);
    if nxs.None? && nxe.None? {
      return Ok(Emitted(lines, last));
    }
    if last.x.None? {
      return Raised(TypeError);
    }
    ghost var lines0last := last;
    var furthest := Furthest(nxs.value, last.x.value, direction);
    var bleedLines := [Comment(BleedBegin),
                       RapidOff(ClearX(furthest, direction, c), MiddleY(last.y, ny, c)),
                       RapidOff(EntryX(nxs.value, direction, c), YAt(ny, c)),
                       Comment(BleedEnd)];
    last := Last(None, last.y, last.z, None);
    bleedLines := bleedLines + [CutMode];
    assert rowRanges[ny] == RowSpan(pix, width, height, ny);
    assert bleedLines == BleedLines(lines0last.x.value, lines0last.y, direction, nxs.value, ny, c) by {
      var b := BleedLines(lines0last.x.value, lines0last.y, direction, nxs.value, ny, c);
      assert |bleedLines| == |b| == 5;
      assert forall i :: 0 <= i < 5 ==> bleedLines[i] == b[i];
    }
    return Ok(Emitted(lines + bleedLines, last));
  }

  /** `do` after the image is loaded: the row table, the preamble, every row
      with its bleed, and the closing move. */
  method Do(pix: Pixels, width: nat, height: nat, dpmm: real, bleed: real, xcorr: real)
    returns (r: Outcome<seq<Line>>)
    ensures r == Program(pix, width, height, dpmm, bleed, xcorr)
  {
    if dpmm == 0.0 {
      return Raised(ZeroDivisionError);
    }
    var c := Settings(1.0 / dpmm, bleed, xcorr);
    var rowRanges := FindRowRanges(pix, width, height);

    var firstX, firstY, firstDir := FirstRow(rowRanges, pix, width, height);
    if firstX.None? {
      return Raised(TypeError);
    }

    var result := Preamble(firstX.value, firstY, firstDir, c);
    var last := Last(firstX, firstY, 0, Some(0));
    r := RowLoop(rowRanges, result, last, pix, width, height, c);
  }

  /** The row loop of `do` and the closing move, after the preamble `result`. */
  method RowLoop(rowRanges: seq<Span>, result0: seq<Line>, last0: Last, pix: Pixels, width: nat, ghost height: nat,
                 c: Settings) returns (r: Outcome<seq<Line>>)
    requires rowRanges == Spans(pix, width, height)
    ensures r == Prepend(result0, Rows(pix, width, height, 0, last0, 1, c))
  {
    var result, last := result0, last0;
    var direction := 1;
    for cy := 0 to |rowRanges|
      invariant Prepend(result, Rows(pix, width, height, cy, last, direction, c)) ==
                Prepend(result0, Rows(pix, width, height, 0, last0, 1, c))
    {
      var sp := rowRanges[cy];
      assert sp == RowSpan(pix, width, height, cy);
      RowsUnfold(pix, width, height, cy, last, direction, c);
      direction := sp.dir;
      if sp.start.None? && sp.end.None? {
        continue;
      }
      if sp.start.None? || sp.end.None? {
        return Raised(TypeError);
      }
      var row := BurnRow(rowRanges, cy, last, pix, width, height, c);
      if !row.Ok? {
        return PassOn(row);
      }
      PrependPrepend(result, row.value.lines, Rows(pix, width, height, cy + 1, row.value.last, direction, c));
      result := result + row.value.lines;
      last := row.value.last;
    }
    r := Prepend(result, Postamble(last, direction, c));
  }

  /** One step of `Rows`. */
  lemma RowsUnfold(pix: Pixels, width: nat, height: nat, cy: nat, last: Last, dir: int, c: Settings)
    requires cy < height
    ensures var sp := RowSpan(pix, width, height, cy);
      Rows(pix, width, height, cy, last, dir, c) ==
        if sp.start.None? && sp.end.None? then Rows(pix, width, height, cy + 1, last, sp.dir, c)
        else if sp.start.None? || sp.end.None? then Raised(TypeError)
        else
          var row := InkedRow(pix, width, height, cy, last, c);
          if !row.Ok? then PassOn(row)
          else Prepend(row.value.lines, Rows(pix, width, height, cy + 1, row.value.last, sp.dir, c))
  {
  }

  /** No pixel of the image is inked. */
  predicate Blank(pix: Pixels, width: nat, height: nat) {
    forall x, y :: 0 <= x < width && 0 <= y < height ==> !Ink(pix, x, y)
  }

  /** The row searched for the preamble is the first inked row: a row has a
      start column exactly when it is inked. */
  lemma {:induction false} FirstIsNext(pix: Pixels, width: nat, height: nat, j: nat)
    ensures FirstStart(pix, width, height, j) == NextInked(pix, width, height, j)
    decreases height - j
  {
    if j < height {
      SpanEmpty(pix, width, height, j);
      FirstIsNext(pix, width, height, j + 1);
    }
  }

  /** No inked row is left from entry `j` on exactly when the bitmap rows
      those entries scan are white. */
  lemma {:induction false} NoneInked(pix: Pixels, width: nat, height: nat, j: nat)
    ensures NextInked(pix, width, height, j).None? <==>
      forall k, x :: j <= k < height && 0 <= x < width ==> !Ink(pix, x, BitmapRow(height, k))
    decreases height - j
  {
    if j < height {
      SpanEmpty(pix, width, height, j);
      NoneInked(pix, width, height, j + 1);
    }
  }

  /** Some row table entry is inked exactly when the image is not blank. */
  lemma InkedIffNotBlank(pix: Pixels, width: nat, height: nat)
    ensures NextInked(pix, width, height, 0).None? <==> Blank(pix, width, height)
  {
    NoneInked(pix, width, height, 0);
    if NextInked(pix, width, height, 0).None? {
      forall x, y | 0 <= x < width && 0 <= y < height
        ensures !Ink(pix, x, y)
      {
        assert BitmapRow(height, height - y - 1) == y;
      }
    }
  }

  /** A scan whose final column is burned writes at least one line and ends
      with a known X. */
  lemma {:induction false} FinalColumnBurned(pix: Pixels, width: int, y: int, cy: int, cx: int, end: int, dir: int,
                                             last: Last, c: Settings)
    requires dir == 1 || dir == -1
    requires Remaining(cx, end, dir) > 0 && !Skipped(pix, width, end - dir, y, dir)
    ensures RowLines(pix, width, y, cy, cx, end, dir, last, c).lines != []
    ensures RowLines(pix, width, y, cy, cx, end, dir, last, c).last.x.Some?
    ensures RowLines(pix, width, y, cy, cx, end, dir, last, c).last.y == cy
    decreases Remaining(cx, end, dir)
  {
    if cx != end - dir {
      FinalColumnBurned(pix, width, y, cy, cx + dir, end, dir,
                        Written(cx + Shift(dir), cy, Power(pix, cx, y)), c);
      FinalColumnBurned(pix, width, y, cy, cx + dir, end, dir, last, c);
    }
  }

  /** The scan of an inked row covers at least one column and its final
      column is never skipped: it is the bitmap's edge or an inked pixel next
      to a white one. */
  lemma InkedRowEnd(pix: Pixels, width: nat, height: nat, cy: int)
    requires RowSpan(pix, width, height, cy).Inked()
    ensures var sp := RowSpan(pix, width, height, cy);
      && (sp.dir == 1 || sp.dir == -1)
      && Remaining(sp.start.value, sp.end.value, sp.dir) > 0
      && !Skipped(pix, width, sp.end.value - sp.dir, BitmapRow(height, cy), sp.dir)
  {
    SpanBounds(pix, width, height, cy);
    var sp := RowSpan(pix, width, height, cy);
    var y := BitmapRow(height, cy);
    if sp.dir == 1 {
      if sp.end.value < width {
        assert !Ink(pix, sp.end.value, y);
      }
    } else {
      if sp.end.value >= 0 {
        assert !Ink(pix, sp.end.value, y);
      }
    }
  }

  /** Every inked row writes at least one line, after which X is known and Y
      is the row. */
  lemma InkedRowBurns(pix: Pixels, width: nat, height: nat, cy: nat, last: Last, c: Settings)
    requires RowSpan(pix, width, height, cy).Inked()
    ensures var sp := RowSpan(pix, width, height, cy);
      var row := RowLines(pix, width, BitmapRow(height, cy), cy, sp.start.value, sp.end.value, sp.dir, last, c);
      row.lines != [] && row.last.x.Some? && row.last.y == cy
  {
    InkedRowEnd(pix, width, height, cy);
    var sp := RowSpan(pix, width, height, cy);
    FinalColumnBurned(pix, width, BitmapRow(height, cy), cy, sp.start.value, sp.end.value, sp.dir, last, c);
  }

  /** The row loop and the closing move cannot fail once X is known or an
      inked row is still ahead. */
  lemma {:induction false} RowsOk(pix: Pixels, width: nat, height: nat, cy: nat, last: Last, dir: int, c: Settings)
    requires last.x.Some? || NextInked(pix, width, height, cy).Some?
    ensures Rows(pix, width, height, cy, last, dir, c).Ok?
    decreases height - cy
  {
    if cy < height {
      var sp := RowSpan(pix, width, height, cy);
      SpanEmpty(pix, width, height, cy);
      if sp.Inked() {
        InkedRowBurns(pix, width, height, cy, last, c);
        var row := InkedRow(pix, width, height, cy, last, c);
        assert row.Ok?;
        RowsOk(pix, width, height, cy + 1, row.value.last, sp.dir, c);
      } else {
        RowsOk(pix, width, height, cy + 1, last, sp.dir, c);
      }
    }
  }

  /** The conversion fails exactly when `dpmm` is 0 (division) or the image
      has no inked pixel (arithmetic on the missing first column); it never
      fails later on. */
  lemma RasterFails(pix: Pixels, width: nat, height: nat, dpmm: real, bleed: real, xcorr: real)
    ensures dpmm == 0.0 ==> Program(pix, width, height, dpmm, bleed, xcorr) == Raised(ZeroDivisionError)
    ensures dpmm != 0.0 && Blank(pix, width, height) ==>
      Program(pix, width, height, dpmm, bleed, xcorr) == Raised(TypeError)
    ensures Program(pix, width, height, dpmm, bleed, xcorr).Ok? <==> dpmm != 0.0 && !Blank(pix, width, height)
  {
    FirstIsNext(pix, width, height, 0);
    InkedIffNotBlank(pix, width, height);
    if dpmm != 0.0 && !Blank(pix, width, height) {
      var j := FirstStart(pix, width, height, 0).value;
      var c := Settings(1.0 / dpmm, bleed, xcorr);
      RowsOk(pix, width, height, 0, Last(RowSpan(pix, width, height, j).start, j, 0, Some(0)), 1, c);
    }
  }

  /** Between an inked row and the next inked row `ny` come the row's burn
      lines, then the bleed: a zero-power rapid move the bleed distance past
      both the row's last burn and the next row's start, at mid height, a
      zero-power rapid move to where the next row's first column is entered,
      and cutting mode. X and S are then forgotten. */
  lemma BleedShape(pix: Pixels, width: nat, height: nat, cy: nat, ny: nat, last: Last, c: Settings, e: Emitted)
    requires RowSpan(pix, width, height, cy).Inked()
    requires NextInked(pix, width, height, cy + 1) == Some(ny)
    requires InkedRow(pix, width, height, cy, last, c) == Ok(e)
    ensures var sp := RowSpan(pix, width, height, cy);
      var row := RowLines(pix, width, BitmapRow(height, cy), cy, sp.start.value, sp.end.value, sp.dir, last, c);
      var next := RowSpan(pix, width, height, ny).start.value;
      && row.lines != [] && row.last.x.Some?
      && (forall i :: 0 <= i < |row.lines| ==> row.lines[i].Burn?)
      && exists far: int ::
        && (far == row.last.x.value || far == next)
        && (if sp.dir == 1 then far >= row.last.x.value && far >= next
            else far <= row.last.x.value && far <= next)
        && e.lines ==
           row.lines + [Comment(BleedBegin), RapidOff(ClearX(far, sp.dir, c), MiddleY(cy, ny, c)),
                        RapidOff(EntryX(next, sp.dir, c), YAt(ny, c)), Comment(BleedEnd), CutMode]
    ensures e.last.x.None? && e.last.s.None? && e.last.y == cy
  {
    var sp := RowSpan(pix, width, height, cy);
    var row := RowLines(pix, width, BitmapRow(height, cy), cy, sp.start.value, sp.end.value, sp.dir, last, c);
    InkedRowBurns(pix, width, height, cy, last, c);
    RowBurns(pix, width, BitmapRow(height, cy), cy, sp.start.value, sp.end.value, sp.dir, last, c);
    var next := RowSpan(pix, width, height, ny).start.value;
    var lastX := row.last.x.value;
    var far := Furthest(next, lastX, sp.dir);
    assert e.lines == row.lines + BleedLines(lastX, cy, sp.dir, next, ny, c);
  }

  /** Every line of a row scan is a burn line, and none of them writes Z: the
      head never leaves height 0. */
  lemma {:induction false} RowBurns(pix: Pixels, width: int, y: int, cy: int, cx: int, end: int, dir: int,
                                    last: Last, c: Settings)
    requires dir == 1 || dir == -1
    ensures var row := RowLines(pix, width, y, cy, cx, end, dir, last, c);
      forall i :: 0 <= i < |row.lines| ==> row.lines[i].Burn? && (last.z == 0 ==> row.lines[i].zWord.None?)
    ensures last.z == 0 ==> RowLines(pix, width, y, cy, cx, end, dir, last, c).last.z == 0
    decreases Remaining(cx, end, dir)
  {
    if Remaining(cx, end, dir) > 0 {
      if Skipped(pix, width, cx, y, dir) {
        RowBurns(pix, width, y, cy, cx + dir, end, dir, last, c);
      } else {
        var x := cx + Shift(dir);
        var s := Power(pix, cx, y);
        RowBurns(pix, width, y, cy, cx + dir, end, dir, Written(x, cy, s), c);
      }
    }
  }
}
