/** What the converter's program does on a controller that keeps the words a
    line leaves out (modal position, power and motion mode): the program burns
    every non-skipped pixel of every inked row, in scan order, at that pixel's
    place and power. */
module RasterMachine {
  import opened Outcomes
  import opened RowRanges
  import opened Raster

  /** The controller state the program drives: position, laser power, and the
      modal motion (`cut` for G1, otherwise G0). */
  datatype Machine = Machine(x: real, y: real, s: int, cut: bool)

  /** One line executed. A burn line leaves out the words whose value did not
      change, and the controller keeps the old values for them. */
  function Step(m: Machine, l: Line): Machine {
    match l
    case SetPower(s) => m.(s := s)
    case Rapid(x, y) => m.(x := x, y := y, cut := false)
    case RapidMode => m.(cut := false)
    case MoveX(x) => m.(x := x)
    case Burn(wx, wy, _, ws) =>
      m.(x := if wx.Some? then wx.value else m.x,
         y := if wy.Some? then wy.value else m.y,
         s := if ws.Some? then ws.value else m.s)
    case Comment(_) => m
    case RapidOff(x, y) => m.(x := x, y := y, s := 0, cut := false)
    case CutMode => m.(cut := true)
    case EaseOut(x) => m.(x := x, s := 0, cut := false)
  }

  /** The state after a run of lines. */
  function Run(lines: seq<Line>, m: Machine): Machine
    decreases |lines|
  {
    if lines == [] then m else Run(lines[1..], Step(m, lines[0]))
  }

  /** Where and how strongly the laser burns at the end of a burn move. */
  datatype Spot = Spot(x: real, y: real, s: int)

  /** The spot reached by every burn line of a run, in order. */
  function Burns(lines: seq<Line>, m: Machine): seq<Spot>
    decreases |lines|
  {
    if lines == [] then []
    else
      var next := Step(m, lines[0]);
      (if lines[0].Burn? then [Spot(next.x, next.y, next.s)] else []) + Burns(lines[1..], next)
  }

  /** The motion mode every burn line of a run executes in, in order. */
  function Modes(lines: seq<Line>, m: Machine): seq<bool>
    decreases |lines|
  {
    if lines == [] then []
    else (if lines[0].Burn? then [m.cut] else []) + Modes(lines[1..], Step(m, lines[0]))
  }

  /** The spots a scan from column `cx` should burn: one per pixel that is not
      skipped, at the column its move ends at, in the row's height, with the
      pixel's power. */
  function RowSpots(pix: Pixels, width: int, y: int, cy: int, cx: int, end: int, dir: int, c: Settings): seq<Spot>
    requires dir == 1 || dir == -1
    decreases Remaining(cx, end, dir)
  {
    if Remaining(cx, end, dir) <= 0 then []
    else if Skipped(pix, width, cx, y, dir) then RowSpots(pix, width, y, cy, cx + dir, end, dir, c)
    else [Spot(XAt(cx + Shift(dir), dir, c), YAt(cy, c), Power(pix, cx, y))] +
         RowSpots(pix, width, y, cy, cx + dir, end, dir, c)
  }

  /** The spots of row table entries `cy` onwards, inked rows only. */
  function ImageSpots(pix: Pixels, width: nat, height: nat, cy: nat, c: Settings): seq<Spot>
    decreases height - cy
  {
    if cy >= height then []
    else
      var sp := RowSpan(pix, width, height, cy);
      (if sp.Inked() then RowSpots(pix, width, BitmapRow(height, cy), cy, sp.start.value, sp.end.value, sp.dir, c)
       else []) + ImageSpots(pix, width, height, cy + 1, c)
  }

  /** The values last written agree with the controller as far as a scan of
      row `cy` in direction `dir` relies on them. */
  predicate Synced(m: Machine, last: Last, cy: int, dir: int, c: Settings) {
    && (last.x.Some? ==> m.x == XAt(last.x.value, dir, c))
    && (last.y == cy ==> m.y == YAt(cy, c))
    && (last.s.Some? ==> m.s == last.s.value)
  }

  /** Synced for the next inked row from entry `cy` on, if any. */
  predicate RowsSynced(m: Machine, last: Last, pix: Pixels, width: nat, height: nat, cy: nat, c: Settings) {
    var next := NextInked(pix, width, height, cy);
    next.Some? ==> Synced(m, last, next.value, RowSpan(pix, width, height, next.value).dir, c)
  }

  lemma {:induction false} RunConcat(a: seq<Line>, b: seq<Line>, m: Machine)
    ensures Run(a + b, m) == Run(b, Run(a, m))
    ensures Burns(a + b, m) == Burns(a, m) + Burns(b, Run(a, m))
    ensures Modes(a + b, m) == Modes(a, m) + Modes(b, Run(a, m))
    decreases |a|
  {
    if a == [] {
      assert a + b == b;
    } else {
      assert (a + b)[1..] == a[1..] + b;
      RunConcat(a[1..], b, Step(m, a[0]));
    }
  }

  /** A run of lines none of which burns. */
  lemma {:induction false} NoBurns(lines: seq<Line>, m: Machine)
    requires forall i :: 0 <= i < |lines| ==> !lines[i].Burn?
    ensures Burns(lines, m) == [] && Modes(lines, m) == []
    decreases |lines|
  {
    if lines != [] {
      NoBurns(lines[1..], Step(m, lines[0]));
    }
  }

  /** Burn lines keep the motion mode. */
  lemma {:induction false} BurnsKeepMode(lines: seq<Line>, m: Machine)
    requires forall i :: 0 <= i < |lines| ==> lines[i].Burn?
    ensures Run(lines, m).cut == m.cut
    ensures |Modes(lines, m)| == |lines| && forall i :: 0 <= i < |lines| ==> Modes(lines, m)[i] == m.cut
    decreases |lines|
  {
    if lines != [] {
      BurnsKeepMode(lines[1..], Step(m, lines[0]));
    }
  }

  /** One pixel's burn line moves the controller to that pixel's spot, however
      many of its words were left out. */
  lemma PixelReplay(m: Machine, last: Last, x: int, cy: int, s: int, dir: int, c: Settings)
    requires Synced(m, last, cy, dir, c)
    ensures var next := Step(m, PixelLine(last, x, cy, s, dir, c));
      && Spot(next.x, next.y, next.s) == Spot(XAt(x, dir, c), YAt(cy, c), s)
      && Synced(next, Written(x, cy, s), cy, dir, c)
  {
  }

  /** A row's burn lines reach exactly the row's spots, and leave the values
      last written in agreement with the controller. */
  lemma {:induction false} RowReplay(pix: Pixels, width: int, y: int, cy: int, cx: int, end: int, dir: int,
                                     last: Last, c: Settings, m: Machine)
    requires dir == 1 || dir == -1
    requires Synced(m, last, cy, dir, c)
    ensures var row := RowLines(pix, width, y, cy, cx, end, dir, last, c);
      && Burns(row.lines, m) == RowSpots(pix, width, y, cy, cx, end, dir, c)
      && Synced(Run(row.lines, m), row.last, cy, dir, c)
    decreases Remaining(cx, end, dir)
  {
    if Remaining(cx, end, dir) > 0 {
      if Skipped(pix, width, cx, y, dir) {
        RowReplay(pix, width, y, cy, cx + dir, end, dir, last, c, m);
      } else {
        var x := cx + Shift(dir);
        var s := Power(pix, cx, y);
        var line := PixelLine(last, x, cy, s, dir, c);
        PixelReplay(m, last, x, cy, s, dir, c);
        var next := Step(m, line);
        RowReplay(pix, width, y, cy, cx + dir, end, dir, Written(x, cy, s), c, next);
        ScanBurn(pix, width, y, cy, cx, end, dir, last, c);
        var rest := RowLines(pix, width, y, cy, cx + dir, end, dir, Written(x, cy, s), c);
        RunConcat([line], rest.lines, m);
      }
    }
  }

  /** The bleed burns nothing, leaves the laser off and selects cutting mode. */
  lemma BleedReplay(lastX: int, lastY: int, dir: int, nextStart: int, ny: int, c: Settings, m: Machine)
    ensures Burns(BleedLines(lastX, lastY, dir, nextStart, ny, c), m) == []
    ensures Modes(BleedLines(lastX, lastY, dir, nextStart, ny, c), m) == []
    ensures Run(BleedLines(lastX, lastY, dir, nextStart, ny, c), m).cut
  {
    var b := BleedLines(lastX, lastY, dir, nextStart, ny, c);
    NoBurns(b, m);
    assert b == b[..4] + [CutMode];
    RunConcat(b[..4], [CutMode], m);
    RunOne(CutMode, Run(b[..4], m));
  }

  lemma RunOne(l: Line, m: Machine)
    ensures Run([l], m) == Step(m, l)
  {
    assert [l][1..] == [];
  }

  /** The preamble leaves the laser off in rapid mode at the start of the
      first inked row `fy`, entered at column `fx` in direction `dir`. */
  lemma PreambleReplay(fx: int, fy: int, dir: int, c: Settings, m: Machine)
    ensures Run(Preamble(fx, fy, dir, c), m) == Machine(XAt(fx, dir, c), YAt(fy, c), 0, false)
  {
    var p := Preamble(fx, fy, dir, c);
    assert p == [p[0], p[1]] + [p[2], p[3]];
    RunConcat([p[0], p[1]], [p[2], p[3]], m);
    assert [p[0], p[1]] == [p[0]] + [p[1]];
    RunConcat([p[0]], [p[1]], m);
    RunOne(p[0], m);
    RunOne(p[1], Step(m, p[0]));
    var m2 := Run([p[0], p[1]], m);
    assert [p[2], p[3]] == [p[2]] + [p[3]];
    RunConcat([p[2]], [p[3]], m2);
    RunOne(p[2], m2);
    RunOne(p[3], Step(m2, p[2]));
  }

  /** An inked row with its bleed burns the row's spots. */
  lemma InkedReplay(pix: Pixels, width: nat, height: nat, cy: nat, last: Last, c: Settings, m: Machine, e: Emitted)
    requires RowSpan(pix, width, height, cy).Inked()
    requires Synced(m, last, cy, RowSpan(pix, width, height, cy).dir, c)
    requires InkedRow(pix, width, height, cy, last, c) == Ok(e)
    ensures var sp := RowSpan(pix, width, height, cy);
      Burns(e.lines, m) == RowSpots(pix, width, BitmapRow(height, cy), cy, sp.start.value, sp.end.value, sp.dir, c)
    ensures RowsSynced(Run(e.lines, m), e.last, pix, width, height, cy + 1, c)
  {
    var sp := RowSpan(pix, width, height, cy);
    var y := BitmapRow(height, cy);
    var row := RowLines(pix, width, y, cy, sp.start.value, sp.end.value, sp.dir, last, c);
    RowReplay(pix, width, y, cy, sp.start.value, sp.end.value, sp.dir, last, c, m);
    match NextInked(pix, width, height, cy + 1)
    case None =>
    case Some(ny) =>
      var next := RowSpan(pix, width, height, ny);
      assert next.Inked() && row.last.x.Some?;
      var bleed := BleedLines(row.last.x.value, row.last.y, sp.dir, next.start.value, ny, c);
      assert e.lines == row.lines + bleed;
      RunConcat(row.lines, bleed, m);
      BleedReplay(row.last.x.value, row.last.y, sp.dir, next.start.value, ny, c, Run(row.lines, m));
      InkedRowBurns(pix, width, height, cy, last, c);
  }

  /** The rows from entry `cy` on and the closing move burn the spots of
      those rows. */
  lemma {:induction false} RowsReplay(pix: Pixels, width: nat, height: nat, cy: nat, last: Last, dir: int,
                                      c: Settings, m: Machine, out: seq<Line>)
    requires RowsSynced(m, last, pix, width, height, cy, c)
    requires Rows(pix, width, height, cy, last, dir, c) == Ok(out)
    ensures Burns(out, m) == ImageSpots(pix, width, height, cy, c)
    decreases height - cy
  {
    if cy >= height {
      NoBurns(out, m);
    } else {
      var sp := RowSpan(pix, width, height, cy);
      SpanEmpty(pix, width, height, cy);
      if sp.Inked() {
        var e := InkedRow(pix, width, height, cy, last, c).value;
        InkedReplay(pix, width, height, cy, last, c, m, e);
        var rest := Rows(pix, width, height, cy + 1, e.last, sp.dir, c).value;
        RowsReplay(pix, width, height, cy + 1, e.last, sp.dir, c, Run(e.lines, m), rest);
        RunConcat(e.lines, rest, m);
      } else {
        RowsReplay(pix, width, height, cy + 1, last, sp.dir, c, m, out);
      }
    }
  }

  /** Wherever the controller starts, the program burns every non-skipped
      pixel of every inked row, bottom row first and in each row's scan
      direction, at the pixel's place and with power 255 minus its gray value:
      leaving out unchanged words loses nothing. */
  lemma RasterReplay(pix: Pixels, width: nat, height: nat, dpmm: real, bleed: real, xcorr: real,
                     out: seq<Line>, m: Machine)
    requires Program(pix, width, height, dpmm, bleed, xcorr) == Ok(out)
    ensures Burns(out, m) == ImageSpots(pix, width, height, 0, Settings(1.0 / dpmm, bleed, xcorr))
  {
    var c := Settings(1.0 / dpmm, bleed, xcorr);
    var j := FirstStart(pix, width, height, 0).value;
    var sp := RowSpan(pix, width, height, j);
    FirstIsNext(pix, width, height, 0);
    var pre := Preamble(sp.start.value, j, sp.dir, c);
    var rest := Rows(pix, width, height, 0, Last(sp.start, j, 0, Some(0)), 1, c).value;
    assert out == pre + rest;
    NoBurns(pre, m);
    PreambleReplay(sp.start.value, j, sp.dir, c, m);
    RunConcat(pre, rest, m);
    RowsReplay(pix, width, height, 0, Last(sp.start, j, 0, Some(0)), 1, c, Run(pre, m), rest);
  }

  /** The burn lines of an inked row run in the mode the row starts in; a
      bleed towards a next inked row leaves cutting mode on. */
  lemma InkedModes(pix: Pixels, width: nat, height: nat, cy: nat, last: Last, c: Settings, m: Machine, e: Emitted)
    requires RowSpan(pix, width, height, cy).Inked()
    requires InkedRow(pix, width, height, cy, last, c) == Ok(e)
    ensures Modes(e.lines, m) != [] && forall i :: 0 <= i < |Modes(e.lines, m)| ==> Modes(e.lines, m)[i] == m.cut
    ensures NextInked(pix, width, height, cy + 1).Some? ==> Run(e.lines, m).cut
  {
    var sp := RowSpan(pix, width, height, cy);
    var y := BitmapRow(height, cy);
    var row := RowLines(pix, width, y, cy, sp.start.value, sp.end.value, sp.dir, last, c);
    InkedRowBurns(pix, width, height, cy, last, c);
    RowBurns(pix, width, y, cy, sp.start.value, sp.end.value, sp.dir, last, c);
    BurnsKeepMode(row.lines, m);
    match NextInked(pix, width, height, cy + 1)
    case None =>
    case Some(ny) =>
      var next := RowSpan(pix, width, height, ny);
      assert next.Inked() && row.last.x.Some?;
      var bleed := BleedLines(row.last.x.value, row.last.y, sp.dir, next.start.value, ny, c);
      assert e.lines == row.lines + bleed;
      RunConcat(row.lines, bleed, m);
      BleedReplay(row.last.x.value, row.last.y, sp.dir, next.start.value, ny, c, Run(row.lines, m));
      assert Modes(e.lines, m) == Modes(row.lines, m) + [];
  }

  /** When the controller is in cutting mode whenever an inked row is still
      ahead, every burn line of the rows runs in cutting mode. */
  lemma {:induction false} RowsModes(pix: Pixels, width: nat, height: nat, cy: nat, last: Last, dir: int,
                                     c: Settings, m: Machine, out: seq<Line>)
    requires NextInked(pix, width, height, cy).Some? ==> m.cut
    requires Rows(pix, width, height, cy, last, dir, c) == Ok(out)
    ensures forall i :: 0 <= i < |Modes(out, m)| ==> Modes(out, m)[i]
    decreases height - cy
  {
    if cy >= height {
      NoBurns(out, m);
    } else {
      var sp := RowSpan(pix, width, height, cy);
      SpanEmpty(pix, width, height, cy);
      if sp.Inked() {
        var e := InkedRow(pix, width, height, cy, last, c).value;
        InkedModes(pix, width, height, cy, last, c, m, e);
        var rest := Rows(pix, width, height, cy + 1, e.last, sp.dir, c).value;
        RowsModes(pix, width, height, cy + 1, e.last, sp.dir, c, Run(e.lines, m), rest);
        RunConcat(e.lines, rest, m);
      } else {
        RowsModes(pix, width, height, cy + 1, last, sp.dir, c, m, out);
      }
    }
  }

  /** The first burn line of the rows runs in the mode the controller is in
      before them. */
  lemma {:induction false} FirstBurnMode(pix: Pixels, width: nat, height: nat, cy: nat, last: Last, dir: int,
                                         c: Settings, m: Machine, out: seq<Line>)
    requires NextInked(pix, width, height, cy).Some?
    requires Rows(pix, width, height, cy, last, dir, c) == Ok(out)
    ensures Modes(out, m) != [] && Modes(out, m)[0] == m.cut
    decreases height - cy
  {
    var sp := RowSpan(pix, width, height, cy);
    SpanEmpty(pix, width, height, cy);
    if sp.Inked() {
      var e := InkedRow(pix, width, height, cy, last, c).value;
      InkedModes(pix, width, height, cy, last, c, m, e);
      var rest := Rows(pix, width, height, cy + 1, e.last, sp.dir, c).value;
      RunConcat(e.lines, rest, m);
    } else {
      FirstBurnMode(pix, width, height, cy + 1, last, sp.dir, c, m, out);
    }
  }

  /** As written, the first inked row is burned in rapid mode: the preamble
      selects G0 and nothing selects G1 before that row's burn lines. */
  lemma FirstRowRapid(pix: Pixels, width: nat, height: nat, dpmm: real, bleed: real, xcorr: real,
                      out: seq<Line>, m: Machine)
    requires Program(pix, width, height, dpmm, bleed, xcorr) == Ok(out)
    ensures Modes(out, m) != [] && !Modes(out, m)[0]
  {
    var c := Settings(1.0 / dpmm, bleed, xcorr);
    var j := FirstStart(pix, width, height, 0).value;
    var sp := RowSpan(pix, width, height, j);
    FirstIsNext(pix, width, height, 0);
    var pre := Preamble(sp.start.value, j, sp.dir, c);
    var rest := Rows(pix, width, height, 0, Last(sp.start, j, 0, Some(0)), 1, c).value;
    assert out == pre + rest;
    NoBurns(pre, m);
    PreambleReplay(sp.start.value, j, sp.dir, c, m);
    RunConcat(pre, rest, m);
    FirstBurnMode(pix, width, height, 0, Last(sp.start, j, 0, Some(0)), 1, c, Run(pre, m), rest);
  }

  /** With the correction every burn line runs in cutting mode, and the
      program still burns every spot of the image. */
  lemma CorrectedCuts(pix: Pixels, width: nat, height: nat, dpmm: real, bleed: real, xcorr: real,
                      out: seq<Line>, m: Machine)
    requires CorrectedProgram(pix, width, height, dpmm, bleed, xcorr) == Ok(out)
    ensures forall i :: 0 <= i < |Modes(out, m)| ==> Modes(out, m)[i]
    ensures Burns(out, m) == ImageSpots(pix, width, height, 0, Settings(1.0 / dpmm, bleed, xcorr))
  {
    var c := Settings(1.0 / dpmm, bleed, xcorr);
    var j := FirstStart(pix, width, height, 0).value;
    var sp := RowSpan(pix, width, height, j);
    FirstIsNext(pix, width, height, 0);
    var pre := Preamble(sp.start.value, j, sp.dir, c) + [CutMode];
    var last := Last(sp.start, j, 0, Some(0));
    var rest := Rows(pix, width, height, 0, last, 1, c).value;
    assert out == pre + rest;
    NoBurns(pre, m);
    PreambleReplay(sp.start.value, j, sp.dir, c, m);
    RunConcat(Preamble(sp.start.value, j, sp.dir, c), [CutMode], m);
    RunOne(CutMode, Run(Preamble(sp.start.value, j, sp.dir, c), m));
    RunConcat(pre, rest, m);
    RowsReplay(pix, width, height, 0, last, 1, c, Run(pre, m), rest);
    RowsModes(pix, width, height, 0, last, 1, c, Run(pre, m), rest);
  }

  /** The column whose burn move covers column `cx`: the first column from
      `cx` on in the scan direction that is not skipped. */
  function Cover(pix: Pixels, width: int, y: int, cx: int, end: int, dir: int): int
    requires dir == 1 || dir == -1
    decreases Remaining(cx, end, dir)
  {
    if Remaining(cx, end, dir) <= 0 || !Skipped(pix, width, cx, y, dir) then cx
    else Cover(pix, width, y, cx + dir, end, dir)
  }

  /** Skipping loses no gray level: in a scan whose final column is burned,
      every column is covered by a burned column at or after it with the same
      gray value, so the move ending there burns it with its own power. */
  lemma {:induction false} SkipKeepsPower(pix: Pixels, width: int, y: int, cx: int, end: int, dir: int)
    requires dir == 1 || dir == -1
    requires Remaining(cx, end, dir) > 0 && !Skipped(pix, width, end - dir, y, dir)
    ensures var k := Cover(pix, width, y, cx, end, dir);
      && 0 < Remaining(k, end, dir) <= Remaining(cx, end, dir)
      && !Skipped(pix, width, k, y, dir)
      && pix(k, y) == pix(cx, y)
    decreases Remaining(cx, end, dir)
  {
    if Skipped(pix, width, cx, y, dir) {
      SkipKeepsPower(pix, width, y, cx + dir, end, dir);
    }
  }
}
