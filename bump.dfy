/** `bumpify` of lib/gcodetools.py: a program is made to follow a probed,
    uneven work surface. Pass one follows the XY position of the tool line
    by line; the probed heights are interpolated at those positions; pass
    two raises every Z word by the height under its line less the height
    at the origin, and gives a raised Z to every line that moves in X or Y
    without one. The list of lines is rewritten in place. */
module Bumping {
  import opened Text
  import opened Numbers
  import opened Outcomes
  import opened AxisWords
  import opened Translate
  import opened Rotate

  /** `re.match("G(5[4-9]).*", line)`: the line starts by selecting one of
      the work coordinate systems `G54` to `G59`. */
  predicate SwitchesSystem(line: string)
  {
    |line| >= 3 && line[0] == 'G' && line[1] == '5' && '4' <= line[2] <= '9'
  }

  /** A comment-free line that `bumpify` refuses: incremental distance mode
      anywhere in it, or a change of coordinate system at its start. */
  predicate Refused(l: string)
  {
    Contains(l, "G91") || SwitchesSystem(l)
  }

  /** Pass one: the XY position after each line, with the tool at `p`
      before the lines. */
  function Coords(lines: seq<string>, p: Point): (r: Outcome<seq<Point>>)
    ensures r.Ok? ==> |r.value| == |lines|
    decreases |lines|
  {
    if lines == [] then Ok([])
    else
      var l := StripComments(lines[0]);
      if Refused(l) then Rejected
      else if !Parses(l) then Raised(ValueError)
      else
        var q := Tracked(p, l);
        Prepend([q], Coords(lines[1..], q))
  }

  /** The Z handling of pass two on a comment-free line `l`, with `z` the
      last Z read so far, `h` the height interpolated under the line and
      `z0` the height at the origin: the new line, and the last Z read
      after it. */
  function RaisedZ(l: string, z: real, h: real, z0: real): (r: Outcome<(string, real)>)
    ensures r.Ok? <==> !Read(l, 'Z').Malformed?
    ensures !r.Ok? ==> r == Raised(ValueError)
  {
    var m := Read(l, 'Z');
    if m.Malformed? then Raised(ValueError)
    else if m.Value? then Ok((Rewrite(l, 'Z', m.v + h - z0), m.v))
    else if 'X' in l || 'Y' in l then Ok((l + "Z" + Fixed(z + h - z0, 3), z))
    else Ok((l, z))
  }

  /** One line of pass two: its comment goes first. */
  function BumpLine(line: string, z: real, h: real, z0: real): Outcome<(string, real)>
  {
    RaisedZ(StripComments(line), z, h, z0)
  }

  /** Pass two from the first line on, with `z` the last Z read so far. */
  function BumpFrom(lines: seq<string>, heights: seq<real>, z0: real, z: real): Outcome<seq<string>>
    requires |heights| == |lines|
    decreases |lines|
  {
    if lines == [] then Ok([])
    else match BumpLine(lines[0], z, heights[0], z0)
      case Ok(step) => Prepend([step.0], BumpFrom(lines[1..], heights[1..], z0, step.1))
      case Rejected => Rejected
      case Raised(e) => Raised(e)
  }

  /** The list as pass two leaves it: rewritten up to the line it fails on,
      as it was from that line on. */
  function Progress(lines: seq<string>, heights: seq<real>, z0: real, z: real): (r: seq<string>)
    requires |heights| == |lines|
    ensures |r| == |lines|
    decreases |lines|
  {
    if lines == [] then []
    else match BumpLine(lines[0], z, heights[0], z0)
      case Ok(step) => [step.0] + Progress(lines[1..], heights[1..], z0, step.1)
      case _ => lines
  }

  /** `griddata(probe_points, probe_values, coords_xy)`: the probed surface
      interpolated at every position. */
  function Heights(coords: seq<Point>, surface: Point -> real): (h: seq<real>)
    ensures |h| == |coords|
  {
    seq(|coords|, i requires 0 <= i < |coords| => surface(coords[i]))
  }

  /** `bumpify(gcode_list, cwpos, probe_points, probe_values)`, with the
      interpolation of the probed values as `surface`. `Rejected` is its
      `None`. */
  function Bumpify(lines: seq<string>, cwpos: Vec3, surface: Point -> real): Outcome<seq<string>>
  {
    match Coords(lines, Point(cwpos.x, cwpos.y))
    case Ok(coords) => BumpFrom(lines, Heights(coords, surface), surface(Point(0.0, 0.0)), cwpos.z)
    case Rejected => Rejected
    case Raised(e) => Raised(e)
  }

  /** What the list holds once `bumpify` has returned or raised. */
  function BumpState(lines: seq<string>, cwpos: Vec3, surface: Point -> real): seq<string>
  {
    match Coords(lines, Point(cwpos.x, cwpos.y))
    case Ok(coords) => Progress(lines, Heights(coords, surface), surface(Point(0.0, 0.0)), cwpos.z)
    case _ => lines
  }

  /** The two passes of `bumpify` over the list `gcode`. */
  method Bump(gcode: array<string>, cwpos: Vec3, surface: Point -> real) returns (r: Outcome<seq<string>>)
    modifies gcode
    ensures r == Bumpify(old(gcode[..]), cwpos, surface)
    ensures gcode[..] == BumpState(old(gcode[..]), cwpos, surface)
  {
    var coords := FollowXY(gcode, Point(cwpos.x, cwpos.y));
    if !coords.Ok? {
      return match coords case Rejected => Rejected case Raised(e) => Raised(e) case Ok(_) => Rejected;
    }
    var heights := Heights(coords.value, surface);
    var z0 := surface(Point(0.0, 0.0));
    r := RaiseZ(gcode, heights, z0, cwpos.z);
  }

  /** Pass one: the position after every line; the list is only read. */
  method FollowXY(gcode: array<string>, start: Point) returns (r: Outcome<seq<Point>>)
    ensures r == Coords(gcode[..], start)
  {
    var lines := gcode[..];
    var coords: seq<Point> := [];
    var position := start;
    var nr := 0;
    PrependNothing(Coords(lines, start));
    while nr < gcode.Length
      invariant 0 <= nr <= gcode.Length
      invariant Prepend(coords, Coords(lines[nr..], position)) == Coords(lines, start)
    {
      CoordsStep(lines, nr, position);
      var line := StripComments(gcode[nr]);
      if Contains(line, "G91") {
        return Rejected;
      }
      if SwitchesSystem(line) {
        return Rejected;
      }
      var mx := Read(line, 'X');
      if mx.Malformed? {
        return Raised(ValueError);
      }
      var my := Read(line, 'Y');
      if my.Malformed? {
        return Raised(ValueError);
      }
      var x := if mx.Value? then mx.v else position.x;
      var y := if my.Value? then my.v else position.y;
      position := Point(x, y);
      PrependPrepend(coords, [position], Coords(lines[nr + 1..], position));
      coords := coords + [position];
      nr := nr + 1;
    }
    assert lines[nr..] == [] && coords + [] == coords;
    return Ok(coords);
  }

  /** Pass two: every line is replaced in the list as soon as it is done. */
  method RaiseZ(gcode: array<string>, heights: seq<real>, z0: real, cwz: real) returns (r: Outcome<seq<string>>)
    requires |heights| == gcode.Length
    modifies gcode
    ensures r == BumpFrom(old(gcode[..]), heights, z0, cwz)
    ensures gcode[..] == Progress(old(gcode[..]), heights, z0, cwz)
  {
    ghost var lines := gcode[..];
    ghost var done: seq<string> := [];
    var z := cwz;
    var nr := 0;
    BumpStart(lines, heights, z0, cwz);
    while nr < gcode.Length
      invariant 0 <= nr <= gcode.Length && |done| == nr
      invariant gcode[..] == done + lines[nr..]
      invariant Prepend(done, BumpFrom(lines[nr..], heights[nr..], z0, z)) == BumpFrom(lines, heights, z0, cwz)
      invariant done + Progress(lines[nr..], heights[nr..], z0, z) == Progress(lines, heights, z0, cwz)
    {
      Pending(done, lines[nr..]);
      var line := StripComments(gcode[nr]);
      var step := RaisedZ(line, z, heights[nr], z0);
      if !step.Ok? {
        BumpFails(lines, heights, nr, z0, z, done);
        return Raised(ValueError);
      }
      line := step.value.0;
      BumpNext(lines, heights, nr, z0, z, done, line, step.value.1);
      z := step.value.1;
      gcode[nr] := line;
      Replaced(done, lines[nr..], line);
      done := done + [line];
      nr := nr + 1;
    }
    BumpEnd(lines, heights, z0, z, done);
    return Ok(gcode[..]);
  }

  // ---------------------------------------------------------------- steps

  lemma CoordsStep(lines: seq<string>, n: nat, p: Point)
    requires n < |lines|
    ensures var l := StripComments(lines[n]);
      Coords(lines[n..], p) ==
        if Refused(l) then Rejected
        else if !Parses(l) then Raised(ValueError)
        else Prepend([Tracked(p, l)], Coords(lines[n + 1..], Tracked(p, l)))
  {
    assert lines[n..][1..] == lines[n + 1..];
  }

  lemma BumpFromStep(lines: seq<string>, heights: seq<real>, n: nat, z0: real, z: real)
    requires |heights| == |lines| && n < |lines|
    ensures BumpFrom(lines[n..], heights[n..], z0, z) ==
      match BumpLine(lines[n], z, heights[n], z0)
      case Ok(step) => Prepend([step.0], BumpFrom(lines[n + 1..], heights[n + 1..], z0, step.1))
      case Rejected => Rejected
      case Raised(e) => Raised(e)
    ensures Progress(lines[n..], heights[n..], z0, z) ==
      match BumpLine(lines[n], z, heights[n], z0)
      case Ok(step) => [step.0] + Progress(lines[n + 1..], heights[n + 1..], z0, step.1)
      case _ => lines[n..]
  {
    assert lines[n..][1..] == lines[n + 1..];
    assert heights[n..][1..] == heights[n + 1..];
  }

  lemma BumpStart(lines: seq<string>, heights: seq<real>, z0: real, z: real)
    requires |heights| == |lines|
    ensures Prepend([], BumpFrom(lines[0..], heights[0..], z0, z)) == BumpFrom(lines, heights, z0, z)
    ensures [] + Progress(lines[0..], heights[0..], z0, z) == Progress(lines, heights, z0, z)
  {
    assert lines[0..] == lines && heights[0..] == heights;
    PrependNothing(BumpFrom(lines, heights, z0, z));
  }

  lemma BumpEnd(lines: seq<string>, heights: seq<real>, z0: real, z: real, done: seq<string>)
    requires |heights| == |lines| == |done|
    ensures Prepend(done, BumpFrom(lines[|lines|..], heights[|lines|..], z0, z)) == Ok(done)
    ensures done + Progress(lines[|lines|..], heights[|lines|..], z0, z) == done
    ensures done + lines[|lines|..] == done
  {
    assert lines[|lines|..] == [] && heights[|lines|..] == [];
    assert done + [] == done;
  }

  /** The line pass two fails on ends it, and is left as it was. */
  lemma BumpFails(lines: seq<string>, heights: seq<real>, n: nat, z0: real, z: real, done: seq<string>)
    requires |heights| == |lines| && n < |lines|
    requires Read(StripComments(lines[n]), 'Z').Malformed?
    ensures Prepend(done, BumpFrom(lines[n..], heights[n..], z0, z)) == Raised(ValueError)
    ensures done + Progress(lines[n..], heights[n..], z0, z) == done + lines[n..]
  {
    BumpFromStep(lines, heights, n, z0, z);
  }

  /** A line that pass two completes joins the lines done. */
  lemma BumpNext(lines: seq<string>, heights: seq<real>, n: nat, z0: real, z: real, done: seq<string>, line: string, z': real)
    requires |heights| == |lines| && n < |lines|
    requires BumpLine(lines[n], z, heights[n], z0) == Ok((line, z'))
    ensures Prepend(done, BumpFrom(lines[n..], heights[n..], z0, z)) ==
      Prepend(done + [line], BumpFrom(lines[n + 1..], heights[n + 1..], z0, z'))
    ensures done + Progress(lines[n..], heights[n..], z0, z) ==
      (done + [line]) + Progress(lines[n + 1..], heights[n + 1..], z0, z')
  {
    BumpFromStep(lines, heights, n, z0, z);
    PrependPrepend(done, [line], BumpFrom(lines[n + 1..], heights[n + 1..], z0, z'));
  }

  lemma Pending(done: seq<string>, rest: seq<string>)
    requires rest != []
    ensures (done + rest)[|done|] == rest[0]
  {
  }

  /** Replacing the first line not yet done. */
  lemma Replaced(done: seq<string>, rest: seq<string>, line: string)
    requires rest != []
    ensures (done + rest)[|done| := line] == (done + [line]) + rest[1..]
  {
  }

  // ---------------------------------------------------------------- properties

  /** The last Z read after `lines`, `z` before them. */
  function ZAfter(z: real, lines: seq<string>): real
    decreases |lines|
  {
    if lines == [] then z else ZAfter(Moved(Read(StripComments(lines[0]), 'Z'), z), lines[1..])
  }

  /** The unstripped word `Z{:0.3f}`, as pass two appends it. */
  lemma FixedWord(v: real, M: char)
    requires AxisLetter(M)
    ensures var w := "Z" + Fixed(v, 3);
      && '\n' !in w && !IsNumChar(w[0])
      && Words(w, M) == if M == 'Z' then [Fixed(v, 3)] else []
  {
    var f := Fixed(v, 3);
    var w := ['Z'] + f;
    FixedChars(v, 3);
    assert w[1..] == f;
    NoNewline(w);
    WordsOfWord('Z', f, M);
  }

  /** Appending the unstripped word `Z{:0.3f}` to a line without a Z word
      makes Z read the value rounded to 3 decimals and changes no other
      letter's reading. */
  lemma AppendFixedReads(l: string, v: real, M: char)
    requires '\n' !in l && Read(l, 'Z').Absent? && AxisLetter(M)
    ensures '\n' !in l + "Z" + Fixed(v, 3)
    ensures Read(l + "Z" + Fixed(v, 3), 'Z') == Value(Rounded(v, 3))
    ensures M != 'Z' ==> Read(l + "Z" + Fixed(v, 3), M) == Read(l, M)
  {
    var w := "Z" + Fixed(v, 3);
    assert l + "Z" + Fixed(v, 3) == l + w;
    FixedWord(v, 'Z');
    AppendZ(l, w, Fixed(v, 3));
    FixedReadsBack(v, 3);
    if M != 'Z' {
      FixedWord(v, M);
      AppendOther(l, w, M);
    }
  }

  lemma AppendZ(l: string, w: string, f: string)
    requires '\n' !in l && '\n' !in w && w != [] && !IsNumChar(w[0]) && Read(l, 'Z').Absent?
    requires Words(w, 'Z') == [f]
    ensures '\n' !in l + w && Capture(l + w, 'Z') == Some(f)
  {
    FirstLineNoNewline(l);
    FirstLineNoNewline(l + w);
    WordsConcat(l, w, 'Z');
  }

  lemma AppendOther(l: string, w: string, M: char)
    requires '\n' !in l && '\n' !in w && w != [] && !IsNumChar(w[0])
    requires Words(w, M) == []
    ensures Read(l + w, M) == Read(l, M)
  {
    FirstLineNoNewline(l);
    FirstLineNoNewline(l + w);
    WordsConcat(l, w, M);
    assert Words(l + w, M) == Words(l, M);
  }

  /** What pass two makes of one line `l` of a program, cleared of its
      comment: no comment is left; X and Y read as before, so the path in
      the plane is unchanged; a Z word is raised by `h - z0`; a line that
      moves in X or Y without a Z word gets the last Z read, `z`, raised by
      the same amount; any other line is left as it was. */
  predicate BumpedAs(l: string, out: string, z: real, h: real, z0: real)
  {
    && ';' !in out && '\n' !in out
    && Read(out, 'X') == Read(l, 'X') && Read(out, 'Y') == Read(l, 'Y')
    && (Read(l, 'Z').Value? ==> Read(out, 'Z') == Value(Rounded(Read(l, 'Z').v + h - z0, 3)))
    && (Read(l, 'Z').Absent? && ('X' in l || 'Y' in l) ==> Read(out, 'Z') == Value(Rounded(z + h - z0, 3)))
    && (Read(l, 'Z').Absent? && 'X' !in l && 'Y' !in l ==> out == l)
  }

  /** One line of pass two, on a line of a program (no newline in it). */
  lemma BumpLineReads(raw: string, z: real, h: real, z0: real)
    requires '\n' !in raw && BumpLine(raw, z, h, z0).Ok?
    ensures BumpedAs(StripComments(raw), BumpLine(raw, z, h, z0).value.0, z, h, z0)
  {
    StripCommentsOneLine(raw);
    RaisedZReads(StripComments(raw), z, h, z0);
  }

  lemma RaisedZReads(l: string, z: real, h: real, z0: real)
    requires ';' !in l && '\n' !in l && RaisedZ(l, z, h, z0).Ok?
    ensures BumpedAs(l, RaisedZ(l, z, h, z0).value.0, z, h, z0)
  {
    var m := Read(l, 'Z');
    if m.Value? {
      RaisedWord(l, m.v + h - z0);
    } else if 'X' in l || 'Y' in l {
      AddedWord(l, z + h - z0);
    }
  }

  /** A line whose Z word is raised. */
  lemma RaisedWord(l: string, a: real)
    requires ';' !in l && '\n' !in l && Capture(l, 'Z').Some?
    ensures var out := Rewrite(l, 'Z', a);
      && ';' !in out && '\n' !in out
      && Read(out, 'X') == Read(l, 'X') && Read(out, 'Y') == Read(l, 'Y')
      && Read(out, 'Z') == Value(Rounded(a, 3))
  {
    RewriteReadsBack(l, 'Z', a);
    RewriteKeepsOthers(l, 'Z', a, 'X');
    RewriteKeepsOthers(l, 'Z', a, 'Y');
    RewriteKeepsOut(l, 'Z', a, ';');
    RewriteKeepsOut(l, 'Z', a, '\n');
  }

  /** A line that gets a Z word appended. */
  lemma AddedWord(l: string, a: real)
    requires ';' !in l && '\n' !in l && Read(l, 'Z').Absent?
    ensures var out := l + "Z" + Fixed(a, 3);
      && ';' !in out && '\n' !in out
      && Read(out, 'X') == Read(l, 'X') && Read(out, 'Y') == Read(l, 'Y')
      && Read(out, 'Z') == Value(Rounded(a, 3))
  {
    AppendFixedReads(l, a, 'X');
    AppendFixedReads(l, a, 'Y');
    AppendFixedLacks(l, a, ';');
  }

  /** The appended word brings no character but its letter and number
      characters. */
  lemma AppendFixedLacks(l: string, a: real, c: char)
    requires c !in l && c != 'Z' && !IsNumChar(c)
    ensures c !in l + "Z" + Fixed(a, 3)
  {
    var w := "Z" + Fixed(a, 3);
    FixedChars(a, 3);
    forall i | 0 <= i < |w|
      ensures w[i] != c
    {
      if i > 0 {
        assert w[i] == Fixed(a, 3)[i - 1];
      }
    }
    assert l + "Z" + Fixed(a, 3) == l + w;
  }

  /** The last Z read after a line that pass two completes. */
  lemma BumpLineZ(raw: string, z: real, h: real, z0: real)
    requires BumpLine(raw, z, h, z0).Ok?
    ensures BumpLine(raw, z, h, z0).value.1 == Moved(Read(StripComments(raw), 'Z'), z)
  {
    RaisedZMoves(StripComments(raw), z, h, z0);
  }

  lemma RaisedZMoves(l: string, z: real, h: real, z0: real)
    requires RaisedZ(l, z, h, z0).Ok?
    ensures RaisedZ(l, z, h, z0).value.1 == Moved(Read(l, 'Z'), z)
  {
  }

  lemma ZAfterFirst(z: real, lines: seq<string>, k: nat)
    requires 0 < k <= |lines|
    ensures ZAfter(z, lines[..k]) == ZAfter(Moved(Read(StripComments(lines[0]), 'Z'), z), lines[1..][..k - 1])
  {
    assert lines[..k][1..] == lines[1..][..k - 1];
  }

  /** Pass two, line by line: line `k` is done with the last Z read before
      it, and its result is the `k`-th line returned. */
  lemma {:induction false} BumpFromLines(lines: seq<string>, heights: seq<real>, z0: real, z: real, out: seq<string>)
    requires |heights| == |lines| && BumpFrom(lines, heights, z0, z) == Ok(out)
    ensures |out| == |lines|
    ensures forall k :: 0 <= k < |lines| ==>
      BumpLine(lines[k], ZAfter(z, lines[..k]), heights[k], z0) == Ok((out[k], ZAfter(z, lines[..k + 1])))
    decreases |lines|
  {
    if lines != [] {
      var step := BumpLine(lines[0], z, heights[0], z0);
      assert step.Ok?;
      BumpLineZ(lines[0], z, heights[0], z0);
      var z' := step.value.1;
      var rest := BumpFrom(lines[1..], heights[1..], z0, z');
      assert rest.Ok? && out == [step.value.0] + rest.value;
      BumpFromLines(lines[1..], heights[1..], z0, z', rest.value);
      forall k | 0 <= k < |lines|
        ensures BumpLine(lines[k], ZAfter(z, lines[..k]), heights[k], z0) == Ok((out[k], ZAfter(z, lines[..k + 1])))
      {
        ZAfterFirst(z, lines, k + 1);
        if k > 0 {
          ZAfterFirst(z, lines, k);
          assert lines[k] == lines[1..][k - 1] && heights[k] == heights[1..][k - 1];
          assert out[k] == rest.value[k - 1];
        }
      }
    }
  }

  lemma PositionAfterFirst(p: Point, lines: seq<string>, k: nat)
    requires 0 < k <= |lines|
    ensures PositionAfter(p, lines[..k]) == PositionAfter(Tracked(p, StripComments(lines[0])), lines[1..][..k - 1])
  {
    assert lines[..k][1..] == lines[1..][..k - 1];
  }

  /** Pass one records, for every line, where the tool is after it. */
  lemma {:induction false} CoordsTracked(lines: seq<string>, p: Point, coords: seq<Point>)
    requires Coords(lines, p) == Ok(coords)
    ensures |coords| == |lines|
    ensures forall k :: 0 <= k < |lines| ==> coords[k] == PositionAfter(p, lines[..k + 1])
    decreases |lines|
  {
    if lines != [] {
      var q := Tracked(p, StripComments(lines[0]));
      var rest := Coords(lines[1..], q);
      assert rest.Ok? && coords == [q] + rest.value;
      CoordsTracked(lines[1..], q, rest.value);
      forall k | 0 <= k < |lines|
        ensures coords[k] == PositionAfter(p, lines[..k + 1])
      {
        PositionAfterFirst(p, lines, k + 1);
        if k > 0 {
          assert coords[k] == rest.value[k - 1];
        }
      }
    }
  }

  /** `bumpify`, line by line: line `k` is raised by the surface height
      under the position the tool has after it, less the height at the
      origin, starting from the Z of `cwpos`. */
  lemma BumpifyLines(lines: seq<string>, cwpos: Vec3, surface: Point -> real, out: seq<string>)
    requires Bumpify(lines, cwpos, surface) == Ok(out)
    ensures |out| == |lines|
    ensures forall k :: 0 <= k < |lines| ==>
      var at := PositionAfter(Point(cwpos.x, cwpos.y), lines[..k + 1]);
      BumpLine(lines[k], ZAfter(cwpos.z, lines[..k]), surface(at), surface(Point(0.0, 0.0))) ==
        Ok((out[k], ZAfter(cwpos.z, lines[..k + 1])))
  {
    var coords := Coords(lines, Point(cwpos.x, cwpos.y));
    assert coords.Ok?;
    CoordsTracked(lines, Point(cwpos.x, cwpos.y), coords.value);
    var heights := Heights(coords.value, surface);
    BumpFromLines(lines, heights, surface(Point(0.0, 0.0)), cwpos.z, out);
  }

  /** Pass two never refuses. */
  lemma {:induction false} BumpFromNotRejected(lines: seq<string>, heights: seq<real>, z0: real, z: real)
    requires |heights| == |lines|
    ensures !BumpFrom(lines, heights, z0, z).Rejected?
    decreases |lines|
  {
    if lines != [] {
      var step := BumpLine(lines[0], z, heights[0], z0);
      if step.Ok? {
        BumpFromNotRejected(lines[1..], heights[1..], z0, step.value.1);
      }
    }
  }

  /** A pass two that completes leaves the list holding what it returns. */
  lemma {:induction false} ProgressComplete(lines: seq<string>, heights: seq<real>, z0: real, z: real)
    requires |heights| == |lines| && BumpFrom(lines, heights, z0, z).Ok?
    ensures Progress(lines, heights, z0, z) == BumpFrom(lines, heights, z0, z).value
    decreases |lines|
  {
    if lines != [] {
      var step := BumpLine(lines[0], z, heights[0], z0);
      assert step.Ok?;
      ProgressComplete(lines[1..], heights[1..], z0, step.value.1);
    }
  }

  /** The list `bumpify` leaves behind: what it returns when it succeeds,
      the list as it was when it refuses the program. */
  lemma BumpStateAgrees(lines: seq<string>, cwpos: Vec3, surface: Point -> real)
    ensures |BumpState(lines, cwpos, surface)| == |lines|
    ensures Bumpify(lines, cwpos, surface).Ok? ==> BumpState(lines, cwpos, surface) == Bumpify(lines, cwpos, surface).value
    ensures Bumpify(lines, cwpos, surface).Rejected? ==> BumpState(lines, cwpos, surface) == lines
  {
    var coords := Coords(lines, Point(cwpos.x, cwpos.y));
    if coords.Ok? {
      var heights := Heights(coords.value, surface);
      var z0 := surface(Point(0.0, 0.0));
      BumpFromNotRejected(lines, heights, z0, cwpos.z);
      if BumpFrom(lines, heights, z0, cwpos.z).Ok? {
        ProgressComplete(lines, heights, z0, cwpos.z);
      }
    }
  }

  /** Line `k` is the first refused line, and every line before it parses. */
  predicate RefusedAt(lines: seq<string>, k: int)
  {
    && 0 <= k < |lines| && Refused(StripComments(lines[k]))
    && forall j :: 0 <= j < k ==> !Refused(StripComments(lines[j])) && Parses(StripComments(lines[j]))
  }

  lemma RefusedAtShift(lines: seq<string>, k: int)
    requires 1 <= k && lines != []
    requires !Refused(StripComments(lines[0])) && Parses(StripComments(lines[0]))
    ensures RefusedAt(lines, k) <==> RefusedAt(lines[1..], k - 1)
  {
    if RefusedAt(lines[1..], k - 1) {
      forall j | 0 <= j < k
        ensures !Refused(StripComments(lines[j])) && Parses(StripComments(lines[j]))
      {
        if j > 0 {
          assert lines[j] == lines[1..][j - 1];
        }
      }
    }
    if RefusedAt(lines, k) {
      forall j | 0 <= j < k - 1
        ensures !Refused(StripComments(lines[1..][j])) && Parses(StripComments(lines[1..][j]))
      {
        assert lines[1..][j] == lines[j + 1];
      }
    }
  }

  /** Pass one refuses exactly when some line is in incremental distance
      mode or switches coordinate systems, and no line before it has a
      malformed X or Y word. */
  lemma {:induction false} CoordsRefuses(lines: seq<string>, p: Point)
    ensures Coords(lines, p).Rejected? <==> exists k :: RefusedAt(lines, k)
    decreases |lines|
  {
    if lines != [] {
      var l := StripComments(lines[0]);
      if Refused(l) {
        assert RefusedAt(lines, 0);
      } else if !Parses(l) {
        forall k | RefusedAt(lines, k)
          ensures false
        {
        }
      } else {
        var q := Tracked(p, l);
        CoordsRefuses(lines[1..], q);
        if Coords(lines, p).Rejected? {
          var k :| RefusedAt(lines[1..], k);
          RefusedAtShift(lines, k + 1);
        } else {
          forall k | RefusedAt(lines, k)
            ensures false
          {
            RefusedAtShift(lines, k);
          }
        }
      }
    }
  }

  /** `bumpify` refuses a program, and leaves the list as it was, exactly
      when a line is in incremental distance mode (`G91`) or starts by
      switching to a work coordinate system `G54` to `G59`, with no
      malformed X or Y word before it. */
  lemma BumpifyRefuses(lines: seq<string>, cwpos: Vec3, surface: Point -> real)
    ensures Bumpify(lines, cwpos, surface).Rejected? <==> exists k :: RefusedAt(lines, k)
    ensures Bumpify(lines, cwpos, surface).Rejected? ==> BumpState(lines, cwpos, surface) == lines
  {
    var coords := Coords(lines, Point(cwpos.x, cwpos.y));
    CoordsRefuses(lines, Point(cwpos.x, cwpos.y));
    BumpStateAgrees(lines, cwpos, surface);
    if coords.Ok? {
      BumpFromNotRejected(lines, Heights(coords.value, surface), surface(Point(0.0, 0.0)), cwpos.z);
    }
  }
}
