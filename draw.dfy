/** `bbox_draw` of lib/gcodetools.py: a program that traces the XY bounding
    box of another program with rapid moves, pausing with `M0` at every
    corner so that the operator can check the placement of the work. */
module BoxDrawing {
  import opened Text
  import opened Numbers
  import opened Outcomes
  import opened AxisWords
  import opened Bounds
  import opened Rotate

  /** `"L{:0.1f}".format(v)`: a coordinate word with one decimal. */
  function Coord(L: char, v: real): string
  {
    [L] + Fixed(v, 1)
  }

  /** `"G0" + words`: a rapid move. */
  function Rapid(words: string): string
  {
    "G0" + words
  }

  /** `"M0"`: a pause until the operator resumes. */
  const Pause: string := "M0"

  /** The ten lines of the drawing, each without its newline: the lower-left
      corner, then the lower-right, upper-right, upper-left and lower-left
      corners again, each move followed by a pause. */
  function DrawLines(bb: seq<Range>): (ls: seq<string>)
    requires |bb| == 3
  {
    var xmin, xmax, ymin, ymax := bb[0].lo, bb[0].hi, bb[1].lo, bb[1].hi;
    [ Rapid(Coord('X', xmin) + Coord('Y', ymin)), Pause,
      Rapid(Coord('X', xmax)), Pause,
      Rapid(Coord('Y', ymax)), Pause,
      Rapid(Coord('X', xmin)), Pause,
      Rapid(Coord('Y', ymin)), Pause ]
  }

  /** The lines, each followed by a newline, as `result += "...\n"` builds them. */
  function Joined(ls: seq<string>): string
  {
    if ls == [] then [] else ls[0] + "\n" + Joined(ls[1..])
  }

  /** `bbox_draw(gcode)`: a failure of `bbox` passes through. */
  function BBoxDraw(gcode: seq<string>): Outcome<string>
  {
    match BoxAll(gcode)
    case Ok(bb) => Ok(Joined(DrawLines(bb)))
    case Rejected => Rejected
    case Raised(e) => Raised(e)
  }

  /** `s.split("\n")`: the segments between newlines, the last one possibly
      empty. */
  function Split(s: string): (parts: seq<string>)
    ensures |parts| >= 1
    decreases |s|
  {
    var h := FirstLine(s);
    if |h| == |s| then [s] else [h] + Split(s[|h| + 1..])
  }

  /** The corners the drawing visits, in order, as the one-decimal text
      of their coordinates reads back. */
  function Corners(bb: seq<Range>): seq<Point>
    requires |bb| == 3
  {
    var xmin, xmax := Rounded(bb[0].lo, 1), Rounded(bb[0].hi, 1);
    var ymin, ymax := Rounded(bb[1].lo, 1), Rounded(bb[1].hi, 1);
    [Point(xmin, ymin), Point(xmax, ymin), Point(xmax, ymax), Point(xmin, ymax), Point(xmin, ymin)]
  }

  // ---------------------------------------------------------------- properties

  /** Splitting at the newlines takes the joined lines apart again; the text
      after the last newline is empty. */
  lemma {:induction false} SplitJoined(ls: seq<string>)
    requires forall i :: 0 <= i < |ls| ==> '\n' !in ls[i]
    ensures Split(Joined(ls)) == ls + [[]]
  {
    if ls != [] {
      var rest := Joined(ls[1..]);
      SplitLine(ls[0], rest);
      assert forall i :: 0 <= i < |ls[1..]| ==> ls[1..][i] == ls[i + 1];
      SplitJoined(ls[1..]);
      HeadTail(ls, [[]]);
    }
  }

  lemma HeadTail(ls: seq<string>, tail: seq<string>)
    requires ls != []
    ensures ls + tail == [ls[0]] + (ls[1..] + tail)
  {
    assert ls == [ls[0]] + ls[1..];
  }

  lemma SplitLine(h: string, rest: string)
    requires '\n' !in h
    ensures Split(h + "\n" + rest) == [h] + Split(rest)
  {
    var s := h + "\n" + rest;
    assert s == h + ("\n" + rest);
    FirstLineAppend(h, "\n" + rest);
    assert s[|h| + 1..] == rest;
  }

  lemma CoordWords(L: char, v: real, M: char)
    requires AxisLetter(L) && AxisLetter(M)
    ensures Words(Coord(L, v), M) == if M == L then [Fixed(v, 1)] else []
    ensures '\n' !in Coord(L, v) && ';' !in Coord(L, v) && !IsNumChar(Coord(L, v)[0])
  {
    FixedChars(v, 1);
    WordsOfWord(L, Fixed(v, 1), M);
    var w := Coord(L, v);
    forall i | 1 <= i < |w|
      ensures w[i] != '\n' && w[i] != ';'
    {
      assert w[i] == Fixed(v, 1)[i - 1];
    }
  }

  /** The `G0` in front adds no axis word and no comment. */
  lemma RapidReads(words: string, M: char)
    requires M in {'X', 'Y'} && '\n' !in words && ';' !in words
    requires words == [] || !IsNumChar(words[0])
    ensures '\n' !in Rapid(words) && ';' !in Rapid(words)
    ensures StripComments(Rapid(words)) == Rapid(words)
    ensures Words(Rapid(words), M) == Words(words, M)
  {
    RapidPrefix(M);
    WordsConcat("G0", words, M);
    RapidChars(words);
    StripCommentsNone(Rapid(words));
  }

  /** `"G0"` holds no word of `X` or `Y`. */
  lemma RapidPrefix(M: char)
    requires M in {'X', 'Y'}
    ensures Words("G0", M) == []
  {
    assert !WordAtHead("G0", M);
    assert "G0"[1..] == "0";
    assert !WordAtHead("0", M);
    assert "0"[1..] == [];
  }

  /** `"G0"` brings in no newline and no comment. */
  lemma RapidChars(words: string)
    requires '\n' !in words && ';' !in words
    ensures '\n' !in Rapid(words) && ';' !in Rapid(words)
  {
  }

  /** A rapid move to one coordinate reads that coordinate, rounded to one
      decimal, and nothing for the other axis. */
  lemma OneCoordMove(L: char, v: real, M: char)
    requires L in {'X', 'Y'} && M in {'X', 'Y'}
    ensures '\n' !in Rapid(Coord(L, v))
    ensures StripComments(Rapid(Coord(L, v))) == Rapid(Coord(L, v))
    ensures Read(Rapid(Coord(L, v)), M) == if M == L then Value(Rounded(v, 1)) else Absent
  {
    var c := Coord(L, v);
    CoordWords(L, v, M);
    RapidReads(c, M);
    FixedReadsBack(v, 1);
    ReadFromWords(Rapid(c), M, Words(c, M));
  }

  /** The first move reads both coordinates. */
  lemma TwoCoordMove(x: real, y: real, M: char)
    requires M in {'X', 'Y'}
    ensures '\n' !in Rapid(Coord('X', x) + Coord('Y', y))
    ensures StripComments(Rapid(Coord('X', x) + Coord('Y', y))) == Rapid(Coord('X', x) + Coord('Y', y))
    ensures Read(Rapid(Coord('X', x) + Coord('Y', y)), M) == Value(Rounded(if M == 'X' then x else y, 1))
  {
    var cx, cy := Coord('X', x), Coord('Y', y);
    CoordWords('X', x, M);
    CoordWords('Y', y, M);
    WordsConcat(cx, cy, M);
    assert (cx + cy)[0] == cx[0];
    RapidReads(cx + cy, M);
    FixedReadsBack(x, 1);
    FixedReadsBack(y, 1);
    ReadFromWords(Rapid(cx + cy), M, Words(cx + cy, M));
  }

  lemma PauseReads(M: char)
    requires M in {'X', 'Y'}
    ensures '\n' !in Pause && StripComments(Pause) == Pause && Read(Pause, M) == Absent
  {
    assert Pause == ['M', '0'];
    assert !WordAtHead(Pause, M);
    assert Pause[1..] == "0";
    assert !WordAtHead("0", M);
    assert "0"[1..] == [];
    StripCommentsNone(Pause);
    ReadFromWords(Pause, M, []);
  }

  /** The position after one more line. */
  lemma {:induction false} PositionAfterStep(p: Point, ls: seq<string>, n: nat)
    requires n < |ls|
    ensures PositionAfter(p, ls[..n + 1]) == Tracked(PositionAfter(p, ls[..n]), StripComments(ls[n]))
    decreases n
  {
    if n == 0 {
      assert ls[..1] == [ls[0]] && ls[..1][1..] == [];
    } else {
      var q := Tracked(p, StripComments(ls[0]));
      PositionAfterStep(q, ls[1..], n - 1);
      assert ls[..n + 1][1..] == ls[1..][..n];
      assert ls[..n][1..] == ls[1..][..n - 1];
    }
  }

  lemma MoveStep(p: Point, ls: seq<string>, n: nat, L: char, v: real, q: Point)
    requires n < |ls| && L in {'X', 'Y'} && ls[n] == Rapid(Coord(L, v))
    requires var before := PositionAfter(p, ls[..n]);
      q == if L == 'X' then Point(Rounded(v, 1), before.y) else Point(before.x, Rounded(v, 1))
    ensures PositionAfter(p, ls[..n + 1]) == q
  {
    PositionAfterStep(p, ls, n);
    OneCoordMove(L, v, 'X');
    OneCoordMove(L, v, 'Y');
  }

  lemma FirstStep(p: Point, ls: seq<string>, x: real, y: real)
    requires |ls| >= 1 && ls[0] == Rapid(Coord('X', x) + Coord('Y', y))
    ensures PositionAfter(p, ls[..1]) == Point(Rounded(x, 1), Rounded(y, 1))
  {
    PositionAfterStep(p, ls, 0);
    TwoCoordMove(x, y, 'X');
    TwoCoordMove(x, y, 'Y');
  }

  lemma PauseStep(p: Point, ls: seq<string>, n: nat)
    requires n < |ls| && ls[n] == Pause
    ensures PositionAfter(p, ls[..n + 1]) == PositionAfter(p, ls[..n])
  {
    PositionAfterStep(p, ls, n);
    PauseReads('X');
    PauseReads('Y');
  }

  /** Where the tool is after each line of the drawing, wherever it was
      before: every move lands on the next corner and every pause keeps it
      there. */
  /** The positions along ten lines shaped as the drawing is. */
  lemma Trace(p: Point, ls: seq<string>, xmin: real, xmax: real, ymin: real, ymax: real)
    requires |ls| >= 10 && ls[1] == ls[3] == ls[5] == ls[7] == ls[9] == Pause
    requires ls[0] == Rapid(Coord('X', xmin) + Coord('Y', ymin))
    requires ls[2] == Rapid(Coord('X', xmax)) && ls[4] == Rapid(Coord('Y', ymax))
    requires ls[6] == Rapid(Coord('X', xmin)) && ls[8] == Rapid(Coord('Y', ymin))
    ensures var x0, x1, y0, y1 := Rounded(xmin, 1), Rounded(xmax, 1), Rounded(ymin, 1), Rounded(ymax, 1);
      && PositionAfter(p, ls[..1]) == PositionAfter(p, ls[..2]) == Point(x0, y0)
      && PositionAfter(p, ls[..3]) == PositionAfter(p, ls[..4]) == Point(x1, y0)
      && PositionAfter(p, ls[..5]) == PositionAfter(p, ls[..6]) == Point(x1, y1)
      && PositionAfter(p, ls[..7]) == PositionAfter(p, ls[..8]) == Point(x0, y1)
      && PositionAfter(p, ls[..9]) == PositionAfter(p, ls[..10]) == Point(x0, y0)
  {
    var x0, x1, y0, y1 := Rounded(xmin, 1), Rounded(xmax, 1), Rounded(ymin, 1), Rounded(ymax, 1);
    FirstStep(p, ls, xmin, ymin);
    PauseStep(p, ls, 1);
    MoveStep(p, ls, 2, 'X', xmax, Point(x1, y0));
    PauseStep(p, ls, 3);
    MoveStep(p, ls, 4, 'Y', ymax, Point(x1, y1));
    PauseStep(p, ls, 5);
    MoveStep(p, ls, 6, 'X', xmin, Point(x0, y1));
    PauseStep(p, ls, 7);
    MoveStep(p, ls, 8, 'Y', ymin, Point(x0, y0));
    PauseStep(p, ls, 9);
  }

  /** No line of the drawing holds a newline. */
  lemma DrawLinesOneLine(bb: seq<Range>)
    requires |bb| == 3
    ensures forall i :: 0 <= i < |DrawLines(bb)| ==> '\n' !in DrawLines(bb)[i]
  {
    var d := DrawLines(bb);
    forall i | 0 <= i < |d|
      ensures '\n' !in d[i]
    {
      if i % 2 == 1 {
        assert d[i] == Pause;
        PauseReads('X');
      } else if i == 0 {
        TwoCoordMove(bb[0].lo, bb[1].lo, 'X');
      } else if i == 2 {
        OneCoordMove('X', bb[0].hi, 'X');
      } else if i == 4 {
        OneCoordMove('Y', bb[1].hi, 'X');
      } else if i == 6 {
        OneCoordMove('X', bb[0].lo, 'X');
      } else {
        OneCoordMove('Y', bb[1].lo, 'X');
      }
    }
  }

  /** `bbox_draw` fails exactly as `bbox` does. Its text splits into ten
      lines and an empty tail: five rapid moves, each followed by an `M0`
      pause, that take the tool, from wherever it is, to the lower-left,
      lower-right, upper-right and upper-left corners of the XY box and
      back to the lower-left one. */
  lemma DrawVisitsCorners(gcode: seq<string>, p: Point)
    ensures BBoxDraw(gcode).Ok? <==> BoxAll(gcode).Ok?
    ensures !BoxAll(gcode).Ok? ==> SameFailure(BBoxDraw(gcode), BoxAll(gcode))
    ensures BBoxDraw(gcode).Ok? ==>
      var ls, c := Split(BBoxDraw(gcode).value), Corners(BoxAll(gcode).value);
      && |ls| == 11 && ls[10] == []
      && ls[1] == ls[3] == ls[5] == ls[7] == ls[9] == Pause
      && (forall k | k in {0, 2, 4, 6, 8} :: |ls[k]| >= 2 && ls[k][..2] == "G0")
      && PositionAfter(p, ls[..1]) == c[0] && PositionAfter(p, ls[..3]) == c[1]
      && PositionAfter(p, ls[..5]) == c[2] && PositionAfter(p, ls[..7]) == c[3]
      && PositionAfter(p, ls[..9]) == c[4] == c[0]
  {
    if BoxAll(gcode).Ok? {
      var bb := BoxAll(gcode).value;
      assert BBoxDraw(gcode) == Ok(Joined(DrawLines(bb)));
      DrawnCorners(bb, p);
    }
  }

  /** The corner visits of the drawing of one box. */
  lemma DrawnCorners(bb: seq<Range>, p: Point)
    requires |bb| == 3
    ensures var ls, c := Split(Joined(DrawLines(bb))), Corners(bb);
      && |ls| == 11 && ls[10] == []
      && ls[1] == ls[3] == ls[5] == ls[7] == ls[9] == Pause
      && (forall k | k in {0, 2, 4, 6, 8} :: |ls[k]| >= 2 && ls[k][..2] == "G0")
      && PositionAfter(p, ls[..1]) == c[0] && PositionAfter(p, ls[..3]) == c[1]
      && PositionAfter(p, ls[..5]) == c[2] && PositionAfter(p, ls[..7]) == c[3]
      && PositionAfter(p, ls[..9]) == c[4] == c[0]
  {
    DrawLinesOneLine(bb);
    CornersOf(DrawLines(bb), p, bb[0].lo, bb[0].hi, bb[1].lo, bb[1].hi);
  }

  /** The corner visits of ten lines shaped as the drawing is, once joined
      and split again. */
  lemma CornersOf(d: seq<string>, p: Point, xmin: real, xmax: real, ymin: real, ymax: real)
    requires |d| == 10 && d[1] == d[3] == d[5] == d[7] == d[9] == Pause
    requires d[0] == Rapid(Coord('X', xmin) + Coord('Y', ymin))
    requires d[2] == Rapid(Coord('X', xmax)) && d[4] == Rapid(Coord('Y', ymax))
    requires d[6] == Rapid(Coord('X', xmin)) && d[8] == Rapid(Coord('Y', ymin))
    requires forall i :: 0 <= i < |d| ==> '\n' !in d[i]
    ensures var ls := Split(Joined(d));
      var x0, x1, y0, y1 := Rounded(xmin, 1), Rounded(xmax, 1), Rounded(ymin, 1), Rounded(ymax, 1);
      && |ls| == 11 && ls[10] == []
      && ls[1] == ls[3] == ls[5] == ls[7] == ls[9] == Pause
      && (forall k | k in {0, 2, 4, 6, 8} :: |ls[k]| >= 2 && ls[k][..2] == "G0")
      && PositionAfter(p, ls[..1]) == Point(x0, y0) && PositionAfter(p, ls[..3]) == Point(x1, y0)
      && PositionAfter(p, ls[..5]) == Point(x1, y1) && PositionAfter(p, ls[..7]) == Point(x0, y1)
      && PositionAfter(p, ls[..9]) == Point(x0, y0)
  {
    var ls := Split(Joined(d));
    assert ls == d + [[]] by {
      SplitJoined(d);
    }
    Trace(p, ls, xmin, xmax, ymin, ymax);
  }
}
