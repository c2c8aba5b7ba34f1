/** `rotate2D` of lib/gcodetools.py: every line of a program is moved to the
    point where the tool would be after the line, turned about an anchor in
    the XY plane. Comments are dropped; a line without an X or a Y word gets
    one appended, since after rotation both coordinates change. */
module Rotate {
  import opened Text
  import opened Numbers
  import opened Outcomes
  import opened AxisWords

  datatype Point = Point(x: real, y: real)

  /** A rotation about `anchor`. `c` and `s` are the cosine and the sine of
      the angle, which the tool computes with `math.cos` and `math.sin`. */
  datatype Turn = Turn(anchor: Point, c: real, s: real)

  /** `rot_x`, `rot_y`: `p` turned about the anchor. */
  function Rotated(p: Point, t: Turn): Point
  {
    var dx, dy := p.x - t.anchor.x, p.y - t.anchor.y;
    Point(Mul(t.c, dx) - Mul(t.s, dy) + t.anchor.x, Mul(t.s, dx) + Mul(t.c, dy) + t.anchor.y)
  }

  /** The squared distance of two points. */
  function Distance2(p: Point, q: Point): real
  {
    Mul(p.x - q.x, p.x - q.x) + Mul(p.y - q.y, p.y - q.y)
  }

  /** The coordinate a reading leaves the tool at: the number read, or the
      coordinate before when the line has no word for it. */
  function Moved(r: Reading, before: real): real
  {
    if r.Value? then r.v else before
  }

  /** Where the tool is after a comment-free line, when it was at `p`. */
  function Tracked(p: Point, line: string): Point
  {
    Point(Moved(Read(line, 'X'), p.x), Moved(Read(line, 'Y'), p.y))
  }

  /** The X and Y words of a comment-free line parse with `float()`. */
  predicate Parses(line: string)
  {
    !Read(line, 'X').Malformed? && !Read(line, 'Y').Malformed?
  }

  /** One line of `rotate2D`, with the tool at `p` before it: the rotated
      line and where the tool is after it. */
  function RotateLine(line: string, p: Point, t: Turn): Outcome<(string, Point)>
  {
    var l := StripComments(line);
    if !Parses(l) then Raised(ValueError)
    else
      var q := Tracked(p, l);
      Ok((Placed(l, Rotated(q, t)), q))
  }

  /** A comment-free line with its X and Y words set to `r`: the words are
      rewritten where the line has them and appended where it has none. */
  function Placed(l: string, r: Point): string
  {
    var subbed := Rewrite(Rewrite(l, 'X', r.x), 'Y', r.y);
    var withX := if Read(l, 'X').Absent? then subbed + Word('X', r.x) else subbed;
    if Read(l, 'Y').Absent? then withX + Word('Y', r.y) else withX
  }

  /** The lines from the first on, with the tool at `p` before them. */
  function RotateFrom(lines: seq<string>, p: Point, t: Turn): Outcome<seq<string>>
    decreases |lines|
  {
    if lines == [] then Ok([])
    else match RotateLine(lines[0], p, t)
      case Ok(step) => Prepend([step.0], RotateFrom(lines[1..], step.1, t))
      case Rejected => Rejected
      case Raised(e) => Raised(e)
  }

  /** Where the tool is after `lines`, when it was at `p` before them. */
  function PositionAfter(p: Point, lines: seq<string>): Point
    decreases |lines|
  {
    if lines == [] then p else PositionAfter(Tracked(p, StripComments(lines[0])), lines[1..])
  }

  /** `rotate2D(lines, anchor, angle)`: the tool starts at `(0, 0)`. */
  method Rotate2D(lines: seq<string>, t: Turn) returns (r: Outcome<seq<string>>)
    ensures r == RotateFrom(lines, Point(0.0, 0.0), t)
  {
    var result: seq<string> := [];
    var x, y := 0.0, 0.0;
    var n := 0;
    PrependNothing(RotateFrom(lines, Point(x, y), t));
    while n < |lines|
      invariant 0 <= n <= |lines|
      invariant Prepend(result, RotateFrom(lines[n..], Point(x, y), t)) == RotateFrom(lines, Point(0.0, 0.0), t)
    {
      var p := Point(x, y);
      RotateFromStep(lines, n, p, t);
      var step := RotateOne(lines[n], p, t);
      if !step.Ok? {
        return Raised(ValueError);
      }
      var line := step.value.0;
      x, y := step.value.1.x, step.value.1.y;
      PrependPrepend(result, [line], RotateFrom(lines[n + 1..], Point(x, y), t));
      result := result + [line];
      n := n + 1;
    }
    assert lines[n..] == [];
    assert result + [] == result;
    return Ok(result);
  }

  /** The loop body of `rotate2D` for one line, with the tool at `p`:
      the line rotated and where the tool is after it. */
  method RotateOne(raw: string, p: Point, t: Turn) returns (r: Outcome<(string, Point)>)
    ensures r == RotateLine(raw, p, t)
    ensures !r.Ok? ==> r == Raised(ValueError)
  {
    var x, y := p.x, p.y;
    var line := StripComments(raw);
    var matchX := Read(line, 'X');
    if matchX.Malformed? {
      RotateLineFails(raw, p, t);
      return Raised(ValueError);
    }
    if matchX.Value? {
      x := matchX.v;
    }
    var matchY := Read(line, 'Y');
    if matchY.Malformed? {
      RotateLineFails(raw, p, t);
      return Raised(ValueError);
    }
    if matchY.Value? {
      y := matchY.v;
    }
    var l := line;
    line := PlaceWords(l, Rotated(Point(x, y), t));
    RotateLineOk(raw, p, t, l, Point(x, y), line);
    return Ok((line, Point(x, y)));
  }

  /** The rewriting part of the loop body: the X and Y words of the
      comment-free line `l` are set to the rotated position `r`. */
  method PlaceWords(l: string, r: Point) returns (line: string)
    ensures line == Placed(l, r)
  {
    var repX, repY := Word('X', r.x), Word('Y', r.y);
    line := Sub(l, 'X', repX);
    line := Sub(line, 'Y', repY);
    if Read(l, 'X').Absent? {
      line := line + repX;
    }
    if Read(l, 'Y').Absent? {
      line := line + repY;
    }
  }

  /** A line whose X or Y word does not parse stops `rotate2D` with
      `ValueError`. */
  lemma RotateLineFails(raw: string, p: Point, t: Turn)
    requires !Parses(StripComments(raw))
    ensures RotateLine(raw, p, t) == Raised(ValueError)
  {
  }

  /** The line and the position the loop body computes are those of
      `RotateLine`. */
  lemma RotateLineOk(raw: string, p: Point, t: Turn, l: string, q: Point, out: string)
    requires l == StripComments(raw) && Parses(l) && q == Tracked(p, l)
    requires out == Placed(l, Rotated(q, t))
    ensures RotateLine(raw, p, t) == Ok((out, q))
  {
  }

  /** One line of `RotateFrom`, as the loop performs it. */
  lemma RotateFromStep(lines: seq<string>, n: nat, p: Point, t: Turn)
    requires n < |lines|
    ensures RotateFrom(lines[n..], p, t) ==
      match RotateLine(lines[n], p, t)
      case Ok(step) => Prepend([step.0], RotateFrom(lines[n + 1..], step.1, t))
      case Rejected => Rejected
      case Raised(e) => Raised(e)
  {
    assert lines[n..][1..] == lines[n + 1..];
  }

  // ---------------------------------------------------------------- geometry

  /** The anchor stays where it is. */
  lemma AnchorFixed(t: Turn)
    ensures Rotated(t.anchor, t) == t.anchor
  {
    assert Mul(t.c, 0.0) == 0.0 && Mul(t.s, 0.0) == 0.0;
  }

  /** A rotation (cosine and sine with `c^2 + s^2 = 1`) keeps the distance
      of every point to the anchor. */
  lemma RotationKeepsDistance(p: Point, t: Turn)
    requires Mul(t.c, t.c) + Mul(t.s, t.s) == 1.0
    ensures Distance2(Rotated(p, t), t.anchor) == Distance2(p, t.anchor)
  {
    var dx, dy := p.x - t.anchor.x, p.y - t.anchor.y;
    var c, s := t.c, t.s;
    calc {
      Distance2(Rotated(p, t), t.anchor);
      (c * dx - s * dy) * (c * dx - s * dy) + (s * dx + c * dy) * (s * dx + c * dy);
      (c * c + s * s) * (dx * dx) + (c * c + s * s) * (dy * dy);
      Distance2(p, t.anchor);
    }
  }

  /** The angle 0 (`c = 1`, `s = 0`) moves nothing. */
  lemma ZeroAngle(p: Point, anchor: Point)
    ensures Rotated(p, Turn(anchor, 1.0, 0.0)) == p
  {
  }

  // ---------------------------------------------------------------- lines

  /** A rotated line holds no comment, stays one line, and reads for X and
      for Y the rotated position of the tool, rounded to 3 decimals as
      written; the tool position takes the X and Y words of the line and
      keeps the old coordinate where the line has none. */
  lemma RotateLineReads(line: string, p: Point, t: Turn)
    requires '\n' !in line && RotateLine(line, p, t).Ok?
    ensures var step := RotateLine(line, p, t).value;
      && step.1 == Tracked(p, StripComments(line))
      && ';' !in step.0 && '\n' !in step.0
      && Read(step.0, 'X') == Value(Rounded(Rotated(step.1, t).x, 3))
      && Read(step.0, 'Y') == Value(Rounded(Rotated(step.1, t).y, 3))
  {
    var l := StripComments(line);
    StripCommentsOneLine(line);
    forall i | 0 <= i < |l|
      ensures l[i] != '\n'
    {
      assert l[i] == line[i];
    }
    var r := Rotated(Tracked(p, l), t);
    PlacedChars(l, r);
    PlacedReads(l, r);
  }

  /** Setting the words brings in no comment and no line break. */
  lemma PlacedChars(l: string, r: Point)
    requires '\n' !in l && ';' !in l
    ensures '\n' !in Placed(l, r) && ';' !in Placed(l, r)
  {
    var a1 := Rewrite(l, 'X', r.x);
    RewriteKeepsOut(l, 'X', r.x, '\n');
    RewriteKeepsOut(a1, 'Y', r.y, '\n');
    RewriteKeepsOut(l, 'X', r.x, ';');
    RewriteKeepsOut(a1, 'Y', r.y, ';');
    WordLacks('X', r.x, ';');
    WordLacks('Y', r.y, ';');
    WordLacks('X', r.x, '\n');
    WordLacks('Y', r.y, '\n');
  }

  /** After its words are set, a line reads `r` for X and Y, rounded to 3
      decimals as written. */
  lemma PlacedReads(l: string, r: Point)
    requires '\n' !in l
    ensures Read(Placed(l, r), 'X') == Value(Rounded(r.x, 3))
    ensures Read(Placed(l, r), 'Y') == Value(Rounded(r.y, 3))
  {
    var a1 := Rewrite(l, 'X', r.x);
    var a2 := Rewrite(a1, 'Y', r.y);
    RewriteKeepsOut(l, 'X', r.x, '\n');
    RewriteKeepsOut(a1, 'Y', r.y, '\n');
    SetWord(l, 'X', r.x);
    RewriteKeepsOthers(a1, 'Y', r.y, 'X');
    RewriteKeepsOthers(l, 'X', r.x, 'Y');
    SetWord(a1, 'Y', r.y);
    var withX := if Read(l, 'X').Absent? then a2 + Word('X', r.x) else a2;
    if Read(l, 'X').Absent? {
      AppendWordReads(a2, 'X', r.x, 'Y');
    }
    if Read(l, 'Y').Absent? {
      AppendWordReads(withX, 'Y', r.y, 'X');
    }
  }

  /** Rewriting a letter of one line: it reads the new value when it had a
      word, and nothing as before when it had none. */
  lemma SetWord(l: string, L: char, v: real)
    requires AxisLetter(L) && '\n' !in l
    ensures Read(l, L).Absent? ==> Rewrite(l, L, v) == l
    ensures !Read(l, L).Absent? ==> Read(Rewrite(l, L, v), L) == Value(Rounded(v, 3))
  {
    FirstLineNoNewline(l);
    if Read(l, L).Absent? {
      SubNoWords(l, L, Word(L, v));
    } else {
      RewriteReadsBack(l, L, v);
    }
  }

  // ---------------------------------------------------------------- programs

  /** `rotate2D` never gives `None`; it fails, with `ValueError`, exactly
      when the X or Y word of some line does not parse. */
  lemma {:induction false} RotateFromOk(lines: seq<string>, p: Point, t: Turn)
    ensures RotateFrom(lines, p, t).Ok? <==> forall k :: 0 <= k < |lines| ==> Parses(StripComments(lines[k]))
    ensures !RotateFrom(lines, p, t).Ok? ==> RotateFrom(lines, p, t) == Raised(ValueError)
    decreases |lines|
  {
    if lines != [] {
      var first := RotateLine(lines[0], p, t);
      RotateLineKinds(lines[0], p, t);
      AllParseFirst(lines);
      if first.Ok? {
        var rest := RotateFrom(lines[1..], first.value.1, t);
        assert RotateFrom(lines, p, t) == Prepend([first.value.0], rest);
        RotateFromOk(lines[1..], first.value.1, t);
      } else {
        assert RotateFrom(lines, p, t) == Raised(ValueError);
      }
    }
  }

  /** Every line parses exactly when the first does and every later one
      does. */
  lemma AllParseFirst(lines: seq<string>)
    requires lines != []
    ensures (forall k :: 0 <= k < |lines| ==> Parses(StripComments(lines[k])))
      <==> (Parses(StripComments(lines[0]))
        && forall k :: 0 <= k < |lines[1..]| ==> Parses(StripComments(lines[1..][k])))
  {
    assert forall k :: 1 <= k < |lines| ==> lines[k] == lines[1..][k - 1];
  }

  /** One line is rotated exactly when its X and Y words parse, and fails
      with `ValueError` otherwise. */
  lemma RotateLineKinds(line: string, p: Point, t: Turn)
    ensures RotateLine(line, p, t).Ok? <==> Parses(StripComments(line))
    ensures !RotateLine(line, p, t).Ok? ==> RotateLine(line, p, t) == Raised(ValueError)
  {
  }

  /** A comment-free line that reads the point `q` turned by `t`, rounded
      to 3 decimals as written, for X and for Y. */
  predicate Shows(line: string, q: Point, t: Turn)
  {
    && ';' !in line
    && Read(line, 'X') == Value(Rounded(Rotated(q, t).x, 3))
    && Read(line, 'Y') == Value(Rounded(Rotated(q, t).y, 3))
  }

  /** Every line of a rotated program (whose lines are single lines) holds
      no comment and reads for X and Y the position of the tool after the
      same line of the input, turned about the anchor and rounded to 3
      decimals as written. */
  lemma RotateFromReads(lines: seq<string>, p: Point, t: Turn, out: seq<string>)
    requires RotateFrom(lines, p, t) == Ok(out)
    requires forall k :: 0 <= k < |lines| ==> '\n' !in lines[k]
    ensures |out| == |lines|
    ensures forall k :: 0 <= k < |lines| ==> Shows(out[k], PositionAfter(p, lines[..k + 1]), t)
  {
    RotateFromOkLength(lines, p, t, out);
    forall k | 0 <= k < |lines|
      ensures Shows(out[k], PositionAfter(p, lines[..k + 1]), t)
    {
      RotateFromReadsAt(lines, p, t, out, k);
    }
  }

  /** `RotateFrom` keeps the number of lines. */
  lemma {:induction false} RotateFromOkLength(lines: seq<string>, p: Point, t: Turn, out: seq<string>)
    requires RotateFrom(lines, p, t) == Ok(out)
    ensures |out| == |lines|
    decreases |lines|
  {
    if lines != [] {
      var step := RotateLine(lines[0], p, t).value;
      var rest := RotateFrom(lines[1..], step.1, t).value;
      assert out == [step.0] + rest;
      RotateFromOkLength(lines[1..], step.1, t, rest);
    }
  }

  /** Line `k` of a rotated program reads the position of the tool after
      line `k` of the input, turned. */
  lemma {:induction false} RotateFromReadsAt(lines: seq<string>, p: Point, t: Turn, out: seq<string>, k: nat)
    requires RotateFrom(lines, p, t) == Ok(out)
    requires forall j :: 0 <= j < |lines| ==> '\n' !in lines[j]
    requires k < |lines|
    ensures k < |out| && Shows(out[k], PositionAfter(p, lines[..k + 1]), t)
    decreases k
  {
    var q := Tracked(p, StripComments(lines[0]));
    RotateFromFirst(lines, p, t, out);
    PositionAfterFirst(p, lines, k);
    if k > 0 {
      NoNewlineTail(lines);
      RotateFromReadsAt(lines[1..], q, t, out[1..], k - 1);
      var r := PositionAfter(q, lines[1..][..k]);
      assert out[k] == out[1..][k - 1] && Shows(out[1..][k - 1], r, t);
      assert PositionAfter(p, lines[..k + 1]) == r;
    }
  }

  /** The position after the first `k + 1` lines is the position after
      `k` lines counted from where the first line leaves the tool. */
  lemma PositionAfterFirst(p: Point, lines: seq<string>, k: nat)
    requires k < |lines|
    ensures PositionAfter(p, lines[..k + 1])
      == PositionAfter(Tracked(p, StripComments(lines[0])), lines[1..][..k])
    ensures k == 0 ==> PositionAfter(p, lines[..k + 1]) == Tracked(p, StripComments(lines[0]))
  {
    assert lines[..k + 1][0] == lines[0];
    assert lines[..k + 1][1..] == lines[1..][..k];
    if k == 0 {
      assert lines[1..][..0] == [];
    }
  }

  /** Dropping the first line keeps every line a single line. */
  lemma NoNewlineTail(lines: seq<string>)
    requires lines != [] && forall j :: 0 <= j < |lines| ==> '\n' !in lines[j]
    ensures forall j :: 0 <= j < |lines[1..]| ==> '\n' !in lines[1..][j]
  {
    assert forall j :: 0 <= j < |lines[1..]| ==> lines[1..][j] == lines[j + 1];
  }

  /** A successful `RotateFrom`: the first line shows where it leaves the
      tool, and the rest is rotated from there. */
  lemma RotateFromFirst(lines: seq<string>, p: Point, t: Turn, out: seq<string>)
    requires RotateFrom(lines, p, t) == Ok(out) && lines != [] && '\n' !in lines[0]
    ensures out != [] && Shows(out[0], Tracked(p, StripComments(lines[0])), t)
    ensures RotateFrom(lines[1..], Tracked(p, StripComments(lines[0])), t) == Ok(out[1..])
  {
    var step := RotateLine(lines[0], p, t).value;
    var rest := RotateFrom(lines[1..], step.1, t).value;
    assert out == [step.0] + rest;
    assert out[1..] == rest;
    RotateLineReads(lines[0], p, t);
  }

  /** `rotate2D` by the angle 0 sets every X and Y word of a program to
      where the tool is after that line, rounded to 3 decimals. */
  lemma ZeroAngleKeepsPositions(lines: seq<string>, anchor: Point, out: seq<string>)
    requires RotateFrom(lines, Point(0.0, 0.0), Turn(anchor, 1.0, 0.0)) == Ok(out)
    requires forall k :: 0 <= k < |lines| ==> '\n' !in lines[k]
    ensures |out| == |lines|
    ensures forall k :: 0 <= k < |lines| ==>
      && ';' !in out[k]
      && Read(out[k], 'X') == Value(Rounded(PositionAfter(Point(0.0, 0.0), lines[..k + 1]).x, 3))
      && Read(out[k], 'Y') == Value(Rounded(PositionAfter(Point(0.0, 0.0), lines[..k + 1]).y, 3))
  {
    var t := Turn(anchor, 1.0, 0.0);
    RotateFromReads(lines, Point(0.0, 0.0), t, out);
    forall k | 0 <= k < |lines|
      ensures ';' !in out[k]
      ensures Read(out[k], 'X') == Value(Rounded(PositionAfter(Point(0.0, 0.0), lines[..k + 1]).x, 3))
      ensures Read(out[k], 'Y') == Value(Rounded(PositionAfter(Point(0.0, 0.0), lines[..k + 1]).y, 3))
    {
      var q := PositionAfter(Point(0.0, 0.0), lines[..k + 1]);
      assert Shows(out[k], q, t);
      ZeroAngle(q, anchor);
    }
  }
}
