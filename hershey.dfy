/** `hersheyToGcode`: text rendered in a Hershey stroke font as laser
    G-code. Every glyph of a font is a path string such as
    `"-5 5 M 0 -12 L 0 2 M 0 7 L -1 8 L 0 9"`: the left and right bounds of
    the glyph, then pen moves `M x y` and pen strokes `L x y`. A move becomes
    a rapid `G0` with the laser off (`S0`), a stroke a cut `G1` with the
    laser at full power (`S255`); the motion words are written only when the
    kind of motion changes, and glyphs are placed side by side. */
module Hershey {
  import opened Text
  import opened Numbers
  import opened Outcomes
  import opened AxisWords
  import opened Rotate

  // ---------------------------------------------------------------- font data

  /** `current_motion_mode`: `None` at the start of every glyph, `0` after a
      move, `1` after a stroke. */
  datatype Mode = Unset | Travel | Cut

  /** One command of a glyph path: a pen move (`M`) or a stroke (`L`) to
      `(x, y)`, in font units with y pointing down. */
  datatype Stroke = Stroke(draw: bool, x: real, y: real)

  /** The mode a command leaves behind. */
  function After(s: Stroke): Mode { if s.draw then Cut else Travel }

  /** `fontdata[i]` on a list of glyph paths: a negative index counts from
      the end, any other index outside the list raises `IndexError`. */
  function FontEntry(font: seq<string>, i: int): (r: Option<string>)
    ensures r.Some? <==> -|font| <= i < |font|
    ensures r.Some? ==> r.value == font[(i + |font|) % |font|]
  {
    if 0 <= i < |font| then Some(font[i])
    else if -|font| <= i < 0 then Some(font[|font| + i])
    else None
  }

  /** `[ord(q) - 32 for q in string]`: the glyph index of every character,
      the font starting at the space character. */
  function Codes(text: string): (codes: seq<int>)
    ensures |codes| == |text|
  {
    seq(|text|, i requires 0 <= i < |text| => text[i] as int - 32)
  }

  /** The two groups of `re.match('^([-0-9.]+) ([-0-9.]+)', s)`: two runs
      of number characters at the start of `s`, one space apart. A class
      that cannot hold the space makes the first run the whole leading run,
      and greed makes the second one as long as possible. */
  function NumberPair(s: string): Option<(string, string)>
  {
    var k := NumRun(s);
    if k == 0 || k == |s| || s[k] != ' ' then None
    else
      var m := NumRun(s[k + 1..]);
      if m == 0 then None else Some((s[..k], s[k + 1..][..m]))
  }

  /** The groups found are runs of number characters, one space apart, at
      the head of `s`, and the second cannot be extended. */
  lemma NumberPairShape(s: string)
    ensures var r := NumberPair(s);
      r.Some? ==>
        && |r.value.0| >= 1 && AllNumChars(r.value.0)
        && |r.value.1| >= 1 && AllNumChars(r.value.1)
        && StartsWith(s, r.value.0 + " " + r.value.1)
        && var n := |r.value.0| + 1 + |r.value.1|; (n == |s| || !IsNumChar(s[n]))
  {
    var k := NumRun(s);
    if NumberPair(s).Some? {
      var t := s[k + 1..];
      var m := NumRun(t);
      assert s[..k + 1 + m] == s[..k] + " " + t[..m];
    }
  }

  /** Two numbers read from one match: the glyph bounds `size1` and
      `size2`, or the `x` and `y` of a command. */
  datatype Pair = Pair(first: real, second: real)

  /** `float()` of two captured numbers, `ValueError` when either is not a
      number. */
  function Floats(p: (string, string)): (r: Outcome<Pair>)
    ensures !r.Rejected?
    ensures r.Ok? <==> ParseNumber(p.0).Some? && ParseNumber(p.1).Some?
    ensures r.Ok? ==> r.value == Pair(ParseNumber(p.0).value, ParseNumber(p.1).value)
  {
    if ParseNumber(p.0).None? || ParseNumber(p.1).None? then Raised(ValueError)
    else Ok(Pair(ParseNumber(p.0).value, ParseNumber(p.1).value))
  }

  /** The bounds `size1` and `size2` at the head of a glyph path; a path
      without them fails with `AttributeError` on the missing match. */
  function GlyphSize(path: string): (r: Outcome<Pair>)
    ensures !r.Rejected?
  {
    match NumberPair(path)
    case None => Raised(AttributeError)
    case Some(p) => Floats(p)
  }

  /** `[-0-9. ]`. */
  predicate IsPathChar(c: char) { IsNumChar(c) || c == ' ' }

  /** Length of the leading run of `[-0-9. ]`, as long as possible. */
  function PathRun(s: string): (k: nat)
    ensures k <= |s|
  {
    if s != [] && IsPathChar(s[0]) then 1 + PathRun(s[1..]) else 0
  }

  /** The run holds only `[-0-9. ]` and cannot be extended. */
  lemma {:induction false} PathRunShape(s: string)
    ensures forall i :: 0 <= i < PathRun(s) ==> IsPathChar(s[i])
    ensures PathRun(s) < |s| ==> !IsPathChar(s[PathRun(s)])
  {
    if s != [] && IsPathChar(s[0]) {
      PathRunShape(s[1..]);
      assert forall i :: 1 <= i < PathRun(s) ==> s[i] == s[1..][i - 1];
    }
  }

  /** A command as `re.findall('[ML][-0-9. ]+', path)` finds it. */
  predicate IsPart(p: string)
  {
    |p| >= 2 && (p[0] == 'M' || p[0] == 'L') && forall i :: 1 <= i < |p| ==> IsPathChar(p[i])
  }

  /** A command starts at the head of `path`. */
  predicate PartAtHead(path: string)
  {
    path != [] && (path[0] == 'M' || path[0] == 'L') && PathRun(path[1..]) >= 1
  }

  /** `re.findall('[ML][-0-9. ]+', path)`: the commands, left to right,
      each as long as possible. */
  function Parts(path: string): seq<string>
    decreases |path|
  {
    if path == [] then []
    else if PartAtHead(path) then
      var k := 1 + PathRun(path[1..]);
      [path[..k]] + Parts(path[k..])
    else Parts(path[1..])
  }

  /** Every command found has the shape of the pattern. */
  lemma {:induction false} PartsShape(path: string)
    ensures forall i :: 0 <= i < |Parts(path)| ==> IsPart(Parts(path)[i])
    decreases |path|
  {
    if path == [] {
    } else if PartAtHead(path) {
      var k := 1 + PathRun(path[1..]);
      PathRunShape(path[1..]);
      assert forall i :: 1 <= i < k ==> path[..k][i] == path[1..][i - 1];
      assert IsPart(path[..k]);
      PartsShape(path[k..]);
    } else {
      PartsShape(path[1..]);
    }
  }

  /** The run of `[-0-9. ]` stops where the text stops being made of them. */
  lemma {:induction false} PathRunConcat(t: string, b: string)
    requires forall i :: 0 <= i < |t| ==> IsPathChar(t[i])
    requires b == [] || !IsPathChar(b[0])
    ensures PathRun(t + b) == |t|
    decreases |t|
  {
    if t == [] {
      assert t + b == b;
    } else {
      assert (t + b)[0] == t[0] && (t + b)[1..] == t[1..] + b;
      PathRunConcat(t[1..], b);
    }
  }

  /** Text in which no command can start is skipped by `findall`. */
  lemma {:induction false} PartsSkip(a: string, b: string)
    requires 'M' !in a && 'L' !in a
    ensures Parts(a + b) == Parts(b)
    decreases |a|
  {
    if a == [] {
      assert a + b == b;
    } else {
      assert (a + b)[0] == a[0] && (a + b)[1..] == a[1..] + b;
      PartsSkip(a[1..], b);
    }
  }

  /** `findall` finds a command at the head of a text, taken whole when
      the next command follows it directly. */
  lemma PartsHead(p: string, rest: string)
    requires IsPart(p) && (rest == [] || rest[0] == 'M' || rest[0] == 'L')
    ensures Parts(p + rest) == [p] + Parts(rest)
  {
    var s := p + rest;
    assert s[0] == p[0] && s[1..] == p[1..] + rest;
    assert forall i :: 0 <= i < |p[1..]| ==> p[1..][i] == p[i + 1];
    PathRunConcat(p[1..], rest);
    assert PartAtHead(s);
    assert s[..|p|] == p && s[|p|..] == rest;
  }

  /** A glyph path written out from its commands. */
  function Joined(ps: seq<string>): string
    decreases |ps|
  {
    if ps == [] then "" else ps[0] + Joined(ps[1..])
  }

  /** `findall` takes a glyph path apart into exactly the commands it was
      written from, whatever text without commands comes before them (the
      glyph's bounds, say). */
  lemma {:induction false} PartsOfJoined(head: string, ps: seq<string>)
    requires 'M' !in head && 'L' !in head
    requires forall i :: 0 <= i < |ps| ==> IsPart(ps[i])
    ensures Parts(head + Joined(ps)) == ps
    decreases |ps|
  {
    PartsSkip(head, Joined(ps));
    if ps != [] {
      PartsOfJoined("", ps[1..]);
      assert "" + Joined(ps[1..]) == Joined(ps[1..]);
      var rest := Joined(ps[1..]);
      if ps[1..] != [] {
        assert rest == ps[1] + Joined(ps[2..]) by {
          assert ps[1..][0] == ps[1] && ps[1..][1..] == ps[2..];
        }
        assert rest[0] == ps[1][0];
      }
      PartsHead(ps[0], rest);
    }
  }

  /** The two numbers of a glyph's bounds, or of a command, are found
      again in the text they are written to, whatever follows that is not
      part of a number. */
  lemma NumberPairOf(a: string, b: string, rest: string)
    requires |a| >= 1 && AllNumChars(a) && |b| >= 1 && AllNumChars(b)
    requires rest == [] || !IsNumChar(rest[0])
    ensures NumberPair(a + " " + b + rest) == Some((a, b))
  {
    var s := a + " " + b + rest;
    assert s == a + (" " + b + rest);
    NumRunPrefix(a, " " + b + rest);
    var t := s[|a| + 1..];
    assert t == b + rest;
    NumRunPrefix(b, rest);
    assert s[..|a|] == a && t[..|b|] == b;
  }

  /** `re.match('([ML]) ([-0-9.]+) ([-0-9.]+)', cmd)` and the two `float()`
      calls: `AttributeError` when the command does not match,
      `ValueError` when a number does not parse. */
  function ParseStroke(cmd: string): Outcome<Stroke>
  {
    if |cmd| < 2 || !(cmd[0] == 'M' || cmd[0] == 'L') || cmd[1] != ' ' then Raised(AttributeError)
    else match NumberPair(cmd[2..])
      case None => Raised(AttributeError)
      case Some(p) =>
        match Floats(p)
        case Ok(xy) => Ok(Stroke(cmd[0] != 'M', xy.first, xy.second))
        case Rejected => Rejected
        case Raised(e) => Raised(e)
  }

  /** A command never logs and returns: it parses or raises, and it draws
      exactly when it is an `L`. */
  lemma ParseStrokeKinds(cmd: string)
    ensures !ParseStroke(cmd).Rejected?
    ensures ParseStroke(cmd).Ok? ==> (ParseStroke(cmd).value.draw <==> cmd[0] == 'L')
  {
  }

  /** A command written as its letter and two numbers parses back to the
      point it was written from, or raises `ValueError` on a number that
      `float()` refuses. */
  lemma ParseStrokeOf(kind: char, a: string, b: string)
    requires kind == 'M' || kind == 'L'
    requires |a| >= 1 && AllNumChars(a) && |b| >= 1 && AllNumChars(b)
    ensures ParseStroke([kind] + " " + a + " " + b) ==
      if ParseNumber(a).Some? && ParseNumber(b).Some? then Ok(Stroke(kind == 'L', ParseNumber(a).value, ParseNumber(b).value))
      else Raised(ValueError)
  {
    var cmd := [kind] + " " + a + " " + b;
    assert cmd[2..] == a + " " + b + "";
    NumberPairOf(a, b, "");
  }

  // ---------------------------------------------------------------- G-code

  /** `"G0S0Z{}; z_safe".format(z_safe)`: the tool is lifted before a move. */
  function SafeLine(zSafe: int): string { "G0S0Z" + IntDigits(zSafe) + "; z_safe" }

  /** `"G1Z{}; plunge".format(z_depth)`: the tool goes down before a stroke. */
  function PlungeLine(zDepth: int): string { "G1Z" + IntDigits(zDepth) + "; plunge" }

  /** The motion words written when the kind of motion changes. */
  function Switch(s: Stroke): string { if s.draw then "G1S255" else "G0S0" }

  /** Where a command moves the pen: the glyph's x shifted right by
      `offset`, and its y flipped so that y points up. */
  function PenX(s: Stroke, offset: real): real
  {
    s.x + offset
  }

  function PenY(s: Stroke): real
  {
    -s.y
  }

  /** The X and Y words of a command, the glyph shifted right by `offset`
      and flipped so that y points up. */
  function Target(s: Stroke, offset: real): string
  {
    Word('X', PenX(s, offset)) + Word('Y', PenY(s))
  }

  /** The Z line a change of motion brings first when the depth is not 0:
      the tool is lifted before a move and lowered before a stroke. */
  function ZLines(s: Stroke, mode: Mode, zDepth: int, zSafe: int): seq<string>
  {
    if mode == After(s) || zDepth == 0 then []
    else if s.draw then [PlungeLine(zDepth)]
    else [SafeLine(zSafe)]
  }

  /** The motion words a change of motion puts in front of the target. */
  function Prefix(s: Stroke, mode: Mode): string
  {
    if mode == After(s) then "" else Switch(s)
  }

  /** The lines one command appends, in mode `mode`. */
  function StrokeLines(s: Stroke, mode: Mode, offset: real, zDepth: int, zSafe: int): seq<string>
  {
    ZLines(s, mode, zDepth, zSafe) + [Prefix(s, mode) + Target(s, offset)]
  }

  /** The inner loop over the commands of one glyph, from mode `mode` on. */
  function StrokesFrom(parts: seq<string>, mode: Mode, offset: real, zDepth: int, zSafe: int): Outcome<seq<string>>
    decreases |parts|
  {
    if parts == [] then Ok([])
    else match ParseStroke(parts[0])
      case Ok(s) => Prepend(StrokeLines(s, mode, offset, zDepth, zSafe), StrokesFrom(parts[1..], After(s), offset, zDepth, zSafe))
      case Rejected => Rejected
      case Raised(e) => Raised(e)
  }

  /** The lines of one glyph and where the pen is after it. */
  datatype Glyph = Glyph(lines: seq<string>, pen: real)

  /** Where a glyph is drawn from: `size1` to the left of the pen. */
  function LeftEdge(pen: real, size: Pair): real { pen - size.first }

  /** Where the pen is after a glyph: `size2` to the right of its left edge. */
  function Advance(pen: real, size: Pair): real { LeftEdge(pen, size) + size.second }

  /** One glyph, with the pen at `offset`: its lines, drawn `size1` to the
      left of the pen, and where the pen is after it, `size2 - size1`
      further right. */
  function GlyphLines(path: string, offset: real, zDepth: int, zSafe: int): Outcome<Glyph>
  {
    match GlyphSize(path)
    case Ok(size) =>
      (match StrokesFrom(Parts(path), Unset, LeftEdge(offset, size), zDepth, zSafe)
       case Ok(lines) => Ok(Glyph(lines, Advance(offset, size)))
       case Rejected => Rejected
       case Raised(e) => Raised(e))
    case Rejected => Rejected
    case Raised(e) => Raised(e)
  }

  /** The outer loop over the glyphs, with the pen at `offset`. */
  function RenderFrom(codes: seq<int>, font: seq<string>, offset: real, zDepth: int, zSafe: int): Outcome<seq<string>>
    decreases |codes|
  {
    if codes == [] then Ok([])
    else match FontEntry(font, codes[0])
      case None => Raised(IndexError)
      case Some(path) =>
        match GlyphLines(path, offset, zDepth, zSafe)
        case Ok(g) => Prepend(g.lines, RenderFrom(codes[1..], font, g.pen, zDepth, zSafe))
        case Rejected => Rejected
        case Raised(e) => Raised(e)
  }

  /** `hersheyToGcode(string, font, z_depth, z_safe)` with the font given
      as its list of glyph paths. */
  function Render(text: string, font: seq<string>, zDepth: int, zSafe: int): Outcome<seq<string>>
  {
    RenderFrom(Codes(text), font, 0.0, zDepth, zSafe)
  }

  // ---------------------------------------------------------------- the loops

  /** The glyph loop of `hersheyToGcode`. */
  method HersheyToGcode(text: string, font: seq<string>, zDepth: int, zSafe: int) returns (r: Outcome<seq<string>>)
    ensures r == Render(text, font, zDepth, zSafe)
  {
    var codes := Codes(text);
    var gcodelist: seq<string> := [];
    var offset := 0.0;
    var n := 0;
    PrependNothing(RenderFrom(codes, font, 0.0, zDepth, zSafe));
    while n < |codes|
      invariant n <= |codes|
      invariant Prepend(gcodelist, RenderFrom(codes[n..], font, offset, zDepth, zSafe)) == RenderFrom(codes, font, 0.0, zDepth, zSafe)
    {
      RenderStep(codes, n, font, offset, zDepth, zSafe);
      var path := FontEntry(font, codes[n]);
      if path.None? {
        return Raised(IndexError);
      }
      var glyph := GlyphGcode(path.value, offset, zDepth, zSafe);
      if !glyph.Ok? {
        return PassOn(glyph);
      }
      PrependPrepend(gcodelist, glyph.value.lines, RenderFrom(codes[n + 1..], font, glyph.value.pen, zDepth, zSafe));
      gcodelist := gcodelist + glyph.value.lines;
      offset := glyph.value.pen;
      n := n + 1;
    }
    assert codes[n..] == [] && gcodelist + [] == gcodelist;
    return Ok(gcodelist);
  }

  /** The body of the glyph loop: the size match, the shift of the pen by
      `size1`, the command loop and the advance by `size2`. */
  method GlyphGcode(path: string, offset0: real, zDepth: int, zSafe: int) returns (r: Outcome<Glyph>)
    ensures r == GlyphLines(path, offset0, zDepth, zSafe)
  {
    var size := GlyphSize(path);
    if !size.Ok? {
      GlyphSizeFails(path, offset0, zDepth, zSafe);
      return Raised(size.exc);
    }
    GlyphSizeOk(path, offset0, zDepth, zSafe);
    var offset := offset0 - size.value.first;
    assert offset == LeftEdge(offset0, size.value);
    var lines := CommandsGcode(Parts(path), offset, zDepth, zSafe);
    if !lines.Ok? {
      return PassOn(lines);
    }
    offset := offset + size.value.second;
    assert offset == Advance(offset0, size.value);
    return Ok(Glyph(lines.value, offset));
  }

  /** A glyph whose size does not parse fails as the size match does. */
  lemma GlyphSizeFails(path: string, offset: real, zDepth: int, zSafe: int)
    requires !GlyphSize(path).Ok?
    ensures GlyphLines(path, offset, zDepth, zSafe) == Raised(GlyphSize(path).exc)
  {
  }

  /** A glyph whose size parses is its command loop, drawn `size1` to the
      left of the pen, followed by the advance by `size2`. */
  lemma GlyphSizeOk(path: string, offset: real, zDepth: int, zSafe: int)
    requires GlyphSize(path).Ok?
    ensures var size := GlyphSize(path).value;
      var g := StrokesFrom(Parts(path), Unset, LeftEdge(offset, size), zDepth, zSafe);
      GlyphLines(path, offset, zDepth, zSafe) == if g.Ok? then Ok(Glyph(g.value, Advance(offset, size))) else PassOn(g)
  {
  }

  /** The command loop for one glyph, drawn with the pen at `offset`; the
      mode starts unset. */
  method CommandsGcode(parts: seq<string>, offset: real, zDepth: int, zSafe: int) returns (r: Outcome<seq<string>>)
    ensures r == StrokesFrom(parts, Unset, offset, zDepth, zSafe)
  {
    var out: seq<string> := [];
    var mode := Unset;
    var j := 0;
    PrependNothing(StrokesFrom(parts, Unset, offset, zDepth, zSafe));
    while j < |parts|
      invariant j <= |parts|
      invariant Prepend(out, StrokesFrom(parts[j..], mode, offset, zDepth, zSafe)) == StrokesFrom(parts, Unset, offset, zDepth, zSafe)
    {
      StrokesStep(parts, j, mode, offset, zDepth, zSafe);
      var stroke := ParseStroke(parts[j]);
      if !stroke.Ok? {
        return PassOn(stroke);
      }
      var lines;
      lines, mode := CommandGcode(stroke.value, mode, offset, zDepth, zSafe);
      PrependPrepend(out, lines, StrokesFrom(parts[j + 1..], mode, offset, zDepth, zSafe));
      out := out + lines;
      j := j + 1;
    }
    assert parts[j..] == [] && out + [] == out;
    return Ok(out);
  }

  /** The body of the command loop: the lines `s` appends in mode `mode`,
      and the mode it leaves. */
  method CommandGcode(s: Stroke, mode: Mode, offset: real, zDepth: int, zSafe: int) returns (lines: seq<string>, next: Mode)
    ensures lines == StrokeLines(s, mode, offset, zDepth, zSafe) && next == After(s)
  {
    lines := [];
    var gcode := "";
    if !s.draw {
      if mode != Travel {
        if zDepth != 0 {
          lines := lines + [SafeLine(zSafe)];
        }
        gcode := gcode + "G0S0";
      }
      next := Travel;
    } else {
      if mode != Cut {
        if zDepth != 0 {
          lines := lines + [PlungeLine(zDepth)];
        }
        gcode := gcode + "G1S255";
      }
      next := Cut;
    }
    assert lines == ZLines(s, mode, zDepth, zSafe) && gcode == Prefix(s, mode);
    var mvX := Word('X', PenX(s, offset));
    var mvY := Word('Y', PenY(s));
    ConcatAssoc(gcode, mvX, mvY);
    gcode := gcode + mvX;
    gcode := gcode + mvY;
    lines := lines + [gcode];
  }

  /** One pass of the command loop. */
  lemma StrokesStep(parts: seq<string>, j: nat, mode: Mode, offset: real, zDepth: int, zSafe: int)
    requires j < |parts|
    ensures var c := ParseStroke(parts[j]);
      !c.Ok? ==> StrokesFrom(parts[j..], mode, offset, zDepth, zSafe) == PassOn(c)
    ensures var c := ParseStroke(parts[j]);
      c.Ok? ==> (StrokesFrom(parts[j..], mode, offset, zDepth, zSafe) ==
        Prepend(StrokeLines(c.value, mode, offset, zDepth, zSafe), StrokesFrom(parts[j + 1..], After(c.value), offset, zDepth, zSafe)))
  {
    assert parts[j..][0] == parts[j] && parts[j..][1..] == parts[j + 1..];
  }

  /** One pass of the glyph loop. */
  lemma RenderStep(codes: seq<int>, n: nat, font: seq<string>, offset: real, zDepth: int, zSafe: int)
    requires n < |codes|
    ensures FontEntry(font, codes[n]).None? ==> RenderFrom(codes[n..], font, offset, zDepth, zSafe) == Raised(IndexError)
    ensures var e := FontEntry(font, codes[n]);
      e.Some? ==> var g := GlyphLines(e.value, offset, zDepth, zSafe);
        RenderFrom(codes[n..], font, offset, zDepth, zSafe) ==
          if g.Ok? then Prepend(g.value.lines, RenderFrom(codes[n + 1..], font, g.value.pen, zDepth, zSafe)) else PassOn(g)
  {
    assert codes[n..][0] == codes[n] && codes[n..][1..] == codes[n + 1..];
  }

  // ---------------------------------------------------------------- properties

  /** Every glyph opens with the motion words of its first command, since
      the mode starts unset; with a depth other than 0 the Z line of that
      command comes before them. */
  lemma GlyphOpens(parts: seq<string>, offset: real, zDepth: int, zSafe: int, out: seq<string>)
    requires StrokesFrom(parts, Unset, offset, zDepth, zSafe) == Ok(out) && parts != []
    ensures ParseStroke(parts[0]).Ok?
    ensures var s := ParseStroke(parts[0]).value;
      var first := Switch(s) + Target(s, offset);
      if zDepth == 0 then |out| >= 1 && out[0] == first
      else |out| >= 2 && out[0] == (if s.draw then PlungeLine(zDepth) else SafeLine(zSafe)) && out[1] == first
  {
    var s := ParseStroke(parts[0]).value;
    var first := Switch(s) + Target(s, offset);
    var here := StrokeLines(s, Unset, offset, zDepth, zSafe);
    var rest := StrokesFrom(parts[1..], After(s), offset, zDepth, zSafe).value;
    assert out == here + rest;
    if zDepth == 0 {
      assert here == [first];
      assert out[0] == here[0];
    } else {
      assert here == [if s.draw then PlungeLine(zDepth) else SafeLine(zSafe), first];
      assert out[0] == here[0] && out[1] == here[1];
    }
  }

  /** With depth 0 no Z line is written: one line per command. */
  lemma {:induction false} FlatCount(parts: seq<string>, mode: Mode, offset: real, zSafe: int, out: seq<string>)
    requires StrokesFrom(parts, mode, offset, 0, zSafe) == Ok(out)
    ensures |out| == |parts|
    decreases |parts|
  {
    if parts != [] {
      var s := ParseStroke(parts[0]).value;
      var rest := StrokesFrom(parts[1..], After(s), offset, 0, zSafe).value;
      assert |StrokeLines(s, mode, offset, 0, zSafe)| == 1;
      FlatCount(parts[1..], After(s), offset, zSafe, rest);
    }
  }

  /** A command of the same kind as the one before is its target alone;
      a change of kind brings the motion words and, with a depth other
      than 0, the Z line that lifts or lowers the tool. */
  lemma CommandShape(s: Stroke, mode: Mode, offset: real, zDepth: int, zSafe: int)
    ensures var ls := StrokeLines(s, mode, offset, zDepth, zSafe);
      && ls[|ls| - 1] == (if mode == After(s) then "" else Switch(s)) + Target(s, offset)
      && |ls| == (if mode == After(s) || zDepth == 0 then 1 else 2)
  {
  }
}
