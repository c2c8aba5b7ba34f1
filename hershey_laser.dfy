/** What a controller makes of the lines `hersheyToGcode` writes. The
    controller keeps the motion mode (`G`) and the laser power (`S`) from
    one line to the next, drops `;` comments, and moves in the plane on
    every line with an `X` or a `Y` word. Whatever state it was left in,
    every command of a glyph is carried out at its place on the page, a
    stroke with the laser cutting (`G1`, `S255`) and a pen move with the
    laser off (`G0`, `S0`). */
module HersheyLaser {
  import opened Text
  import opened Numbers
  import opened Outcomes
  import opened AxisWords
  import opened Hershey

  // ---------------------------------------------------------------- words of the lines

  /** The motion words of a mode change. */
  lemma SwitchWords(draw: bool, L: char)
    requires L in {'G', 'S', 'X', 'Y'}
    ensures var w := if draw then "G1S255" else "G0S0";
      Words(w, L) ==
        if L == 'G' then [if draw then "1" else "0"]
        else if L == 'S' then [if draw then "255" else "0"]
        else []
  {
    var w := if draw then "G1S255" else "G0S0";
    var g := if draw then "1" else "0";
    var t := if draw then "S255" else "S0";
    assert w == ['G'] + g + t;
    assert t == ['S'] + t[1..];
    assert AllNumChars(t[1..]) && |t[1..]| >= 1;
    WordsConcat(['G'] + g, t, L);
    WordsOfWord('G', g, L);
    WordsOfWord('S', t[1..], L);
  }

  /** The target of a command holds one `X` and one `Y` word, the pen's
      place to 3 decimals, and nothing else. */
  lemma TargetWords(s: Stroke, offset: real, L: char)
    requires AxisLetter(L)
    ensures Words(Target(s, offset), L) ==
      if L == 'X' then [Trimmed(PenX(s, offset))]
      else if L == 'Y' then [Trimmed(PenY(s))]
      else []
  {
    var a := Word('X', PenX(s, offset));
    var b := Word('Y', PenY(s));
    TrimmedReadsBack(PenX(s, offset));
    TrimmedReadsBack(PenY(s));
    WordsConcat(a, b, L);
    WordsOfWord('X', Trimmed(PenX(s, offset)), L);
    WordsOfWord('Y', Trimmed(PenY(s)), L);
  }

  /** The target brings in no newline and no comment, and starts with its
      `X` word. */
  lemma TargetChars(s: Stroke, offset: real)
    ensures '\n' !in Target(s, offset) && ';' !in Target(s, offset)
    ensures Target(s, offset)[0] == 'X'
  {
    WordLacks('X', PenX(s, offset), '\n');
    WordLacks('Y', PenY(s), '\n');
    WordLacks('X', PenX(s, offset), ';');
    WordLacks('Y', PenY(s), ';');
  }

  /** The Z line of a mode change, once its comment is dropped, holds no
      `X` and no `Y` word. */
  lemma ZLineWords(z: int, draw: bool, M: char)
    requires M in {'X', 'Y'}
    ensures var head := if draw then "G1Z" + IntDigits(z) else "G0S0Z" + IntDigits(z);
      Words(head, M) == []
  {
    var d := IntDigits(z);
    IntDigitsReads(z);
    var pre := if draw then "G1" else "G0S0";
    var head := if draw then "G1Z" + d else "G0S0Z" + d;
    assert head == pre + (['Z'] + d);
    WordsConcat(pre, ['Z'] + d, M);
    WordsOfWord('Z', d, M);
    if draw {
      assert !WordAtHead("G1", M) && "G1"[1..] == "1" && !WordAtHead("1", M) && "1"[1..] == [];
    } else {
      SwitchWords(false, M);
    }
  }

  // ---------------------------------------------------------------- the controller

  /** The modal state: the motion mode `G` and the laser power `S`. */
  datatype Laser = Laser(motion: real, power: real)

  /** A move in the plane: the state it is made in, and what the line gives
      for `X` and for `Y`. */
  datatype Move = Move(laser: Laser, x: Reading, y: Reading)

  /** A modal value: a word on the line sets it, otherwise it is held. */
  function Modal(held: real, r: Reading): real
  {
    if r.Value? then r.v else held
  }

  /** The state after one line. */
  function Exec(st: Laser, line: string): Laser
  {
    var l := StripComments(line);
    Laser(Modal(st.motion, Read(l, 'G')), Modal(st.power, Read(l, 'S')))
  }

  /** The move a line makes in the plane, if it makes one. */
  function MoveIn(st: Laser, line: string): seq<Move>
  {
    var l := StripComments(line);
    if Read(l, 'X').Present() || Read(l, 'Y').Present() then [Move(Exec(st, line), Read(l, 'X'), Read(l, 'Y'))]
    else []
  }

  /** The moves of a run of lines, the controller starting in `st`. */
  function Moves(lines: seq<string>, st: Laser): seq<Move>
    decreases |lines|
  {
    if lines == [] then [] else MoveIn(st, lines[0]) + Moves(lines[1..], Exec(st, lines[0]))
  }

  /** The state after a run of lines. */
  function Final(lines: seq<string>, st: Laser): Laser
    decreases |lines|
  {
    if lines == [] then st else Final(lines[1..], Exec(st, lines[0]))
  }

  /** The state a command must be carried out in: `G1 S255` for a stroke,
      `G0 S0` for a pen move. */
  function Beam(draw: bool): Laser
  {
    if draw then Laser(1.0, 255.0) else Laser(0.0, 0.0)
  }

  /** The state a mode stands for. */
  predicate InMode(st: Laser, mode: Mode)
  {
    mode == Unset || st == Beam(mode == Cut)
  }

  /** What a command asks for: its kind of move to its place, shifted by
      `offset`, with y flipped and both rounded to 3 decimals. */
  function Intended(s: Stroke, offset: real): Move
  {
    Move(Beam(s.draw), Value(Rounded(PenX(s, offset), 3)), Value(Rounded(PenY(s), 3)))
  }

  /** What the commands of a glyph ask for, up to the first that does not
      parse. */
  function IntendedMoves(parts: seq<string>, offset: real): seq<Move>
    decreases |parts|
  {
    if parts == [] then []
    else match ParseStroke(parts[0])
      case Ok(s) => [Intended(s, offset)] + IntendedMoves(parts[1..], offset)
      case _ => []
  }

  // ---------------------------------------------------------------- one line

  /** A line without comment: what its words set and where it moves. */
  lemma LineEffect(st: Laser, l: string, g: Reading, p: Reading, x: Reading, y: Reading)
    requires ';' !in l
    requires Read(l, 'G') == g && Read(l, 'S') == p && Read(l, 'X') == x && Read(l, 'Y') == y
    ensures Exec(st, l) == Laser(Modal(st.motion, g), Modal(st.power, p))
    ensures MoveIn(st, l) == if x.Present() || y.Present() then [Move(Exec(st, l), x, y)] else []
  {
    StripCommentsNone(l);
  }

  /** A line made of a command's target alone moves there and leaves the
      state as it was. */
  lemma PlainTarget(s: Stroke, offset: real, st: Laser, l: string)
    requires l == Target(s, offset)
    ensures Exec(st, l) == st
    ensures MoveIn(st, l) == [Move(st, Intended(s, offset).x, Intended(s, offset).y)]
  {
    TargetChars(s, offset);
    TargetReads(s, offset, l, "");
    TargetWords(s, offset, 'G');
    TargetWords(s, offset, 'S');
    ReadFromWords(l, 'G', []);
    ReadFromWords(l, 'S', []);
    LineEffect(st, l, Absent, Absent, Intended(s, offset).x, Intended(s, offset).y);
  }

  /** A line with the motion words of a mode change sets the state of the
      command's kind, whatever it was, and moves there. */
  lemma SwitchedTarget(s: Stroke, offset: real, st: Laser, l: string)
    requires l == Switch(s) + Target(s, offset)
    ensures Exec(st, l) == Beam(s.draw)
    ensures MoveIn(st, l) == [Intended(s, offset)]
  {
    var t := Target(s, offset);
    TargetChars(s, offset);
    NotInJoin(Switch(s), t, '\n');
    NotInJoin(Switch(s), t, ';');
    TargetReads(s, offset, l, Switch(s));
    TargetWords(s, offset, 'G');
    TargetWords(s, offset, 'S');
    SwitchReads(s, t, 'G');
    SwitchReads(s, t, 'S');
    var b := Beam(s.draw);
    LineEffect(st, l, Value(b.motion), Value(b.power), Intended(s, offset).x, Intended(s, offset).y);
  }

  /** A character in neither part is not in the whole. */
  lemma NotInJoin(a: string, b: string, c: char)
    requires c !in a && c !in b
    ensures c !in a + b
  {
  }

  /** What the X and Y words of a line ending in a target read. */
  lemma TargetReads(s: Stroke, offset: real, l: string, pre: string)
    requires l == pre + Target(s, offset) && (pre == "" || pre == "G0S0" || pre == "G1S255")
    requires '\n' !in l
    ensures Read(l, 'X') == Intended(s, offset).x && Read(l, 'Y') == Intended(s, offset).y
  {
    TargetRead(s, offset, l, pre, 'X');
    TargetRead(s, offset, l, pre, 'Y');
  }

  /** `TargetReads` for one letter. */
  lemma TargetRead(s: Stroke, offset: real, l: string, pre: string, L: char)
    requires l == pre + Target(s, offset) && (pre == "" || pre == "G0S0" || pre == "G1S255")
    requires '\n' !in l && (L == 'X' || L == 'Y')
    ensures Read(l, L) == if L == 'X' then Intended(s, offset).x else Intended(s, offset).y
  {
    var t := Target(s, offset);
    TargetChars(s, offset);
    TargetWords(s, offset, L);
    if pre != "" {
      SwitchWords(pre == "G1S255", L);
    }
    if L == 'X' {
      TrimmedReadsBack(PenX(s, offset));
      ReadInTail(pre, t, L, Trimmed(PenX(s, offset)));
    } else {
      TrimmedReadsBack(PenY(s));
      ReadInTail(pre, t, L, Trimmed(PenY(s)));
    }
  }

  /** A line whose only word of `L` is in its tail reads that word. */
  lemma ReadInTail(pre: string, t: string, L: char, n: string)
    requires t != [] && !IsNumChar(t[0]) && '\n' !in pre + t
    requires Words(pre, L) == [] && Words(t, L) == [n] && ParseNumber(n).Some?
    ensures Read(pre + t, L) == Value(ParseNumber(n).value)
  {
    WordsConcat(pre, t, L);
    ReadFromWords(pre + t, L, [n]);
  }

  /** What the G and S words of a line with a mode change read. */
  lemma SwitchReads(s: Stroke, t: string, L: char)
    requires L in {'G', 'S'} && t != [] && t[0] == 'X' && '\n' !in t
    requires Words(t, L) == []
    ensures var r := Read(Switch(s) + t, L);
      r.Value? && r.v == if L == 'G' then Beam(s.draw).motion else Beam(s.draw).power
  {
    SwitchWords(s.draw, L);
    SwitchNumbers();
    if L == 'G' {
      ReadAfterPrefix(Switch(s), t, L, if s.draw then "1" else "0");
    } else {
      ReadAfterPrefix(Switch(s), t, L, if s.draw then "255" else "0");
    }
  }

  /** A line whose only word of `L` is in its head reads that word. */
  lemma ReadAfterPrefix(pre: string, t: string, L: char, n: string)
    requires t != [] && !IsNumChar(t[0]) && '\n' !in pre && '\n' !in t
    requires Words(pre, L) == [n] && Words(t, L) == [] && ParseNumber(n).Some?
    ensures Read(pre + t, L) == Value(ParseNumber(n).value)
  {
    WordsConcat(pre, t, L);
    ReadFromWords(pre + t, L, [n]);
  }

  /** The numbers of the motion words. */
  lemma SwitchNumbers()
    ensures ParseNumber("0") == Some(0.0) && ParseNumber("1") == Some(1.0) && ParseNumber("255") == Some(255.0)
  {
    ParseUnsignedInteger("0");
    ParseUnsignedInteger("1");
    ParseUnsignedInteger("255");
    assert "0"[..0] == [] && "1"[..0] == [];
    assert "255"[..2] == "25" && "25"[..1] == "2" && "2"[..0] == [];
  }

  /** The Z line of a mode change moves the tool up or down but not in the
      plane. */
  lemma ZLineStill(z: int, draw: bool, st: Laser, line: string)
    requires line == if draw then PlungeLine(z) else SafeLine(z)
    ensures MoveIn(st, line) == []
  {
    var head := ZLineHead(z, draw, line);
    ZLineWords(z, draw, 'X');
    ZLineWords(z, draw, 'Y');
    ReadFromWords(head, 'X', []);
    ReadFromWords(head, 'Y', []);
  }

  /** The Z line without its comment. */
  lemma ZLineHead(z: int, draw: bool, line: string) returns (head: string)
    requires line == if draw then PlungeLine(z) else SafeLine(z)
    ensures head == if draw then "G1Z" + IntDigits(z) else "G0S0Z" + IntDigits(z)
    ensures StripComments(line) == head && '\n' !in head
  {
    var d := IntDigits(z);
    IntDigitsReads(z);
    head := if draw then "G1Z" + d else "G0S0Z" + d;
    var tail := if draw then " plunge" else " z_safe";
    assert line == head + ";" + tail;
    assert ';' !in head && '\n' !in head by {
      assert forall i :: 0 <= i < |d| ==> IsNumChar(d[i]);
    }
    StripCommentsTail(head, tail);
  }

  // ---------------------------------------------------------------- runs of lines

  /** The moves of two runs of lines, the second starting where the first
      left the controller. */
  lemma {:induction false} MovesConcat(a: seq<string>, b: seq<string>, st: Laser)
    ensures Moves(a + b, st) == Moves(a, st) + Moves(b, Final(a, st))
    ensures Final(a + b, st) == Final(b, Final(a, st))
    decreases |a|
  {
    if a != [] {
      assert (a + b)[0] == a[0] && (a + b)[1..] == a[1..] + b;
      MovesConcat(a[1..], b, Exec(st, a[0]));
    } else {
      assert a + b == b;
    }
  }

  /** The lines of one command move the pen where the command asks, in the
      state its kind needs, and leave that state, provided the controller
      is in the state of the mode the loop believes it is in. */
  lemma CommandMoves(s: Stroke, mode: Mode, offset: real, zDepth: int, zSafe: int, st: Laser)
    requires InMode(st, mode)
    ensures Moves(StrokeLines(s, mode, offset, zDepth, zSafe), st) == [Intended(s, offset)]
    ensures Final(StrokeLines(s, mode, offset, zDepth, zSafe), st) == Beam(s.draw)
  {
    var ls := StrokeLines(s, mode, offset, zDepth, zSafe);
    if mode == After(s) {
      var t := Target(s, offset);
      assert ZLines(s, mode, zDepth, zSafe) == [] && Prefix(s, mode) == "";
      Unprefixed([], t);
      KeptMode(s, offset, st, ls);
    } else {
      var zl := ZLines(s, mode, zDepth, zSafe);
      assert ls == zl + [Switch(s) + Target(s, offset)];
      NewMode(s, offset, if s.draw then zDepth else zSafe, st, zl, ls);
    }
  }

  /** Nothing in front of a line leaves it alone. */
  lemma Unprefixed(zl: seq<string>, t: string)
    requires zl == []
    ensures zl + ["" + t] == [t]
  {
    assert "" + t == t;
  }

  /** A command of the kind of the one before: its target alone. */
  lemma KeptMode(s: Stroke, offset: real, st: Laser, ls: seq<string>)
    requires st == Beam(s.draw) && ls == [Target(s, offset)]
    ensures Moves(ls, st) == [Intended(s, offset)] && Final(ls, st) == st
  {
    PlainTarget(s, offset, st, ls[0]);
    MovesOne(ls[0], st);
  }

  /** A command of a new kind: maybe a Z line, then the motion words and
      the target. */
  lemma NewMode(s: Stroke, offset: real, z: int, st: Laser, zl: seq<string>, ls: seq<string>)
    requires zl == [] || zl == [if s.draw then PlungeLine(z) else SafeLine(z)]
    requires ls == zl + [Switch(s) + Target(s, offset)]
    ensures Moves(ls, st) == [Intended(s, offset)] && Final(ls, st) == Beam(s.draw)
  {
    var line := ls[|ls| - 1];
    if zl == [] {
      SwitchedTarget(s, offset, st, line);
      MovesOne(line, st);
    } else {
      ZLineStill(z, s.draw, st, ls[0]);
      SwitchedTarget(s, offset, Exec(st, ls[0]), line);
      MovesTwo(ls[0], line, st);
    }
  }

  /** The moves of a single line. */
  lemma MovesOne(l: string, st: Laser)
    ensures Moves([l], st) == MoveIn(st, l) && Final([l], st) == Exec(st, l)
  {
    assert [l][1..] == [];
  }

  /** The moves of two lines. */
  lemma MovesTwo(a: string, b: string, st: Laser)
    ensures Moves([a, b], st) == MoveIn(st, a) + MoveIn(Exec(st, a), b)
    ensures Final([a, b], st) == Exec(Exec(st, a), b)
  {
    assert [a, b][1..] == [b];
    MovesOne(b, Exec(st, a));
  }

  /** The lines of the commands of a glyph make exactly the moves the
      commands ask for, each in the state its kind needs. */
  lemma {:induction false} StrokesMoves(parts: seq<string>, mode: Mode, offset: real, zDepth: int, zSafe: int, out: seq<string>, st: Laser)
    requires StrokesFrom(parts, mode, offset, zDepth, zSafe) == Ok(out)
    requires InMode(st, mode)
    ensures Moves(out, st) == IntendedMoves(parts, offset)
    decreases |parts|
  {
    if parts != [] {
      var s := ParseStroke(parts[0]).value;
      var here := StrokeLines(s, mode, offset, zDepth, zSafe);
      var rest := StrokesFrom(parts[1..], After(s), offset, zDepth, zSafe).value;
      assert out == here + rest;
      CommandMoves(s, mode, offset, zDepth, zSafe, st);
      MovesConcat(here, rest, st);
      StrokesMoves(parts[1..], After(s), offset, zDepth, zSafe, rest, Beam(s.draw));
    }
  }

  /** The lines of one glyph make the moves its commands ask for, drawn
      `size1` to the left of the pen, whatever state the controller was
      left in: the mode starts unset, so the first command always states
      its motion words. */
  lemma GlyphMoves(path: string, offset: real, zDepth: int, zSafe: int, g: Glyph, st: Laser)
    requires GlyphLines(path, offset, zDepth, zSafe) == Ok(g)
    ensures GlyphSize(path).Ok?
    ensures Moves(g.lines, st) == IntendedMoves(Parts(path), LeftEdge(offset, GlyphSize(path).value))
  {
    if !GlyphSize(path).Ok? {
      GlyphSizeFails(path, offset, zDepth, zSafe);
    } else {
      GlyphSizeOk(path, offset, zDepth, zSafe);
      StrokesMoves(Parts(path), Unset, LeftEdge(offset, GlyphSize(path).value), zDepth, zSafe, g.lines, st);
    }
  }

  /** What the characters of a text ask for: the commands of each glyph,
      the pen advancing by each glyph's width. */
  function TextMoves(codes: seq<int>, font: seq<string>, pen: real): seq<Move>
    decreases |codes|
  {
    if codes == [] then []
    else match FontEntry(font, codes[0])
      case None => []
      case Some(path) =>
        match GlyphSize(path)
        case Ok(size) => IntendedMoves(Parts(path), LeftEdge(pen, size)) + TextMoves(codes[1..], font, Advance(pen, size))
        case _ => []
  }

  /** The glyph loop: the lines of a text make exactly the moves its
      characters ask for. */
  lemma {:induction false} RenderMoves(codes: seq<int>, font: seq<string>, offset: real, zDepth: int, zSafe: int, out: seq<string>, st: Laser)
    requires RenderFrom(codes, font, offset, zDepth, zSafe) == Ok(out)
    ensures Moves(out, st) == TextMoves(codes, font, offset)
    decreases |codes|
  {
    if codes != [] {
      var path := FontEntry(font, codes[0]).value;
      var g := GlyphLines(path, offset, zDepth, zSafe).value;
      var rest := RenderFrom(codes[1..], font, g.pen, zDepth, zSafe).value;
      assert out == g.lines + rest;
      GlyphMoves(path, offset, zDepth, zSafe, g, st);
      GlyphSizeOk(path, offset, zDepth, zSafe);
      MovesConcat(g.lines, rest, st);
      RenderMoves(codes[1..], font, g.pen, zDepth, zSafe, rest, Final(g.lines, st));
    }
  }

  /** `hersheyToGcode`: whatever state the controller starts in, the
      G-code moves the laser through the strokes of the text, glyph after
      glyph, cutting exactly along the `L` commands and travelling with
      the laser off along the `M` commands. */
  lemma TextLaser(text: string, font: seq<string>, zDepth: int, zSafe: int, out: seq<string>, st: Laser)
    requires Render(text, font, zDepth, zSafe) == Ok(out)
    ensures Moves(out, st) == TextMoves(Codes(text), font, 0.0)
  {
    RenderMoves(Codes(text), font, 0.0, zDepth, zSafe, out, st);
  }
}
