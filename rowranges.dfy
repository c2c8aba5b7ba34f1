/** The serpentine row scan of the raster-to-laser converter: for every pixel
    row, bottom row first, the columns a scan in that row's direction has to
    visit, one pixel of margin past the outermost non-white pixels. */
module RowRanges {
  import opened Outcomes

  /** A grayscale image as the image library loads it: the gray value of the
      pixel in column `x` of bitmap row `y` (row 0 at the top), 255 for white. */
  type Pixels = (int, int) -> int

  /** One entry of the row table: the column the scan starts at, the column it
      stops before, and the scan direction (1 left to right, -1 right to left).
      Both columns are `None` for a row without ink. */
  datatype Span = Span(start: Option<int>, end: Option<int>, dir: int)
  {
    predicate Inked() { start.Some? && end.Some? }
  }

  predicate Ink(pix: Pixels, x: int, y: int) { pix(x, y) != 255 }

  /** The first inked column met scanning `i, i + 1, ..., width - 1`. */
  function FirstInk(pix: Pixels, y: int, i: int, width: int): Option<int>
    decreases width - i
  {
    if i >= width then None
    else if Ink(pix, i, y) then Some(i)
    else FirstInk(pix, y, i + 1, width)
  }

  /** The first inked column met scanning `i, i - 1, ..., 0`. */
  function LastInk(pix: Pixels, y: int, i: int): Option<int>
    decreases i + 1
  {
    if i < 0 then None
    else if Ink(pix, i, y) then Some(i)
    else LastInk(pix, y, i - 1)
  }

  /** The scan direction of row table entry `cy`: left to right on the first
      row and alternating from there on, whatever the rows hold. */
  function Direction(cy: int): int {
    if cy % 2 == 0 then 1 else -1
  }

  /** Bitmap row scanned as table entry `cy`: the bitmap's origin is its top
      left corner, the machine's the bottom left one. */
  function BitmapRow(height: int, cy: int): int {
    height - cy - 1
  }

  /** Table entry `cy`: the inked columns found from the two ends of the row,
      moved one pixel outwards and kept inside the bitmap. */
  function RowSpan(pix: Pixels, width: nat, height: nat, cy: int): Span {
    var y := BitmapRow(height, cy);
    var dir := Direction(cy);
    var left := FirstInk(pix, y, 0, width);
    var right := LastInk(pix, y, width - 1);
    var start := if dir == 1 then left else right;
    var end := if dir == 1 then right else left;
    if start.Some? && end.Some? then
      if dir == 1 then
        Span(Some(if start.value - 1 < 0 then 0 else start.value - 1),
             Some(if end.value + 1 > width then width else end.value + 1), dir)
      else
        Span(Some(if start.value + 1 > width - 1 then width - 1 else start.value + 1),
             Some(if end.value - 1 < -1 then -1 else end.value - 1), dir)
    else
      Span(start, end, dir)
  }

  /** The whole row table. */
  function Spans(pix: Pixels, width: nat, height: nat): seq<Span> {
    seq(height, cy => RowSpan(pix, width, height, cy))
  }

  /** The scan from the left edge of bitmap row `y`. */
  method ScanFromLeft(pix: Pixels, y: int, width: nat) returns (found: Option<int>)
    ensures found == FirstInk(pix, y, 0, width)
  {
    found := None;
    var i := 0;
    while i < width
      invariant 0 <= i <= width
      invariant FirstInk(pix, y, 0, width) == FirstInk(pix, y, i, width)
    {
      if pix(i, y) != 255 {
        found := Some(i);
        return;
      }
      i := i + 1;
    }
  }

  /** The scan from the right edge of bitmap row `y`. */
  method ScanFromRight(pix: Pixels, y: int, width: nat) returns (found: Option<int>)
    ensures found == LastInk(pix, y, width - 1)
  {
    found := None;
    var i := width - 1;
    while i >= 0
      invariant -1 <= i <= width - 1
      invariant LastInk(pix, y, width - 1) == LastInk(pix, y, i)
    {
      if pix(i, y) != 255 {
        found := Some(i);
        return;
      }
      i := i - 1;
    }
  }

  /** `find_row_ranges`: one entry per pixel row, bottom row first. */
  method FindRowRanges(pix: Pixels, width: nat, height: nat) returns (result: seq<Span>)
    ensures result == Spans(pix, width, height)
  {
    result := [];
    var direction := 1;
    for cy := 0 to height
      invariant direction == Direction(cy)
      invariant |result| == cy
      invariant forall k :: 0 <= k < cy ==> result[k] == RowSpan(pix, width, height, k)
    {
      var y := height - cy - 1;
      var startX: Option<int>;
      var endX: Option<int>;
      if direction == 1 {
        startX := ScanFromLeft(pix, y, width);
        endX := ScanFromRight(pix, y, width);
      } else {
        startX := ScanFromRight(pix, y, width);
        endX := ScanFromLeft(pix, y, width);
      }
      if startX.Some? && endX.Some? {
        var s := startX.value - direction;
        var e := endX.value + direction;
        if direction == 1 {
          s := if s < 0 then 0 else s;
          e := if e > width then width else e;
        } else {
          s := if s > width - 1 then width - 1 else s;
          e := if e < -1 then -1 else e;
        }
        startX, endX := Some(s), Some(e);
      }
      direction := -direction;
      result := result + [Span(startX, endX, -direction)];
    }
  }

  /** The left scan stops at the first inked column it meets, and finds none
      only in a white stretch. */
  lemma {:induction false} FirstInkFound(pix: Pixels, y: int, i: int, width: int)
    ensures FirstInk(pix, y, i, width).Some? ==>
      var k := FirstInk(pix, y, i, width).value;
      i <= k < width && Ink(pix, k, y) && forall j :: i <= j < k ==> !Ink(pix, j, y)
    ensures FirstInk(pix, y, i, width).None? ==> forall j :: i <= j < width ==> !Ink(pix, j, y)
    decreases width - i
  {
    if i < width && !Ink(pix, i, y) {
      FirstInkFound(pix, y, i + 1, width);
    }
  }

  /** The right scan stops at the first inked column it meets, and finds none
      only in a white stretch. */
  lemma {:induction false} LastInkFound(pix: Pixels, y: int, i: int)
    ensures LastInk(pix, y, i).Some? ==>
      var k := LastInk(pix, y, i).value;
      0 <= k <= i && Ink(pix, k, y) && forall j :: k < j <= i ==> !Ink(pix, j, y)
    ensures LastInk(pix, y, i).None? ==> forall j :: 0 <= j <= i ==> !Ink(pix, j, y)
    decreases i + 1
  {
    if i >= 0 && !Ink(pix, i, y) {
      LastInkFound(pix, y, i - 1);
    }
  }

  /** Entries alternate in direction from left to right on, and a row is
      empty exactly when all of its pixels are white; both of its columns are
      then `None`. */
  lemma SpanEmpty(pix: Pixels, width: nat, height: nat, cy: int)
    ensures RowSpan(pix, width, height, cy).dir == Direction(cy)
    ensures Direction(0) == 1 && Direction(cy + 1) == -Direction(cy)
    ensures !RowSpan(pix, width, height, cy).Inked() <==>
      forall x :: 0 <= x < width ==> !Ink(pix, x, BitmapRow(height, cy))
    ensures !RowSpan(pix, width, height, cy).Inked() ==>
      RowSpan(pix, width, height, cy) == Span(None, None, Direction(cy))
  {
    var y := BitmapRow(height, cy);
    FirstInkFound(pix, y, 0, width);
    LastInkFound(pix, y, width - 1);
  }

  /** An inked row's scan runs the row's way over a non-empty stretch of
      columns inside the bitmap (column -1 is the stop of a right-to-left
      scan), visits every inked column, and starts and stops at most one
      column away from ink. */
  lemma SpanBounds(pix: Pixels, width: nat, height: nat, cy: int)
    requires RowSpan(pix, width, height, cy).Inked()
    ensures var sp := RowSpan(pix, width, height, cy);
      var y := BitmapRow(height, cy);
      if sp.dir == 1 then
        && 0 <= sp.start.value < sp.end.value <= width
        && (forall x :: 0 <= x < width && Ink(pix, x, y) ==> sp.start.value <= x < sp.end.value)
        && (sp.start.value == 0 || Ink(pix, sp.start.value + 1, y))
        && (sp.end.value == width || Ink(pix, sp.end.value - 1, y))
      else
        && -1 <= sp.end.value < sp.start.value <= width - 1
        && (forall x :: 0 <= x < width && Ink(pix, x, y) ==> sp.end.value < x <= sp.start.value)
        && (sp.start.value == width - 1 || Ink(pix, sp.start.value - 1, y))
        && Ink(pix, sp.end.value + 1, y)
  {
    var y := BitmapRow(height, cy);
    FirstInkFound(pix, y, 0, width);
    LastInkFound(pix, y, width - 1);
  }
}
