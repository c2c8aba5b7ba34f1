/** `bbox` of lib/gcodetools.py: the smallest and the largest value of the
    X, Y and Z words of a program, starting from the sentinels 9999 and
    -9999, which an axis without words keeps. */
module Bounds {
  import opened Numbers
  import opened Outcomes
  import opened AxisWords
  import opened Translate

  /** One pair `[min, max]` of the result. */
  datatype Range = Range(lo: real, hi: real)

  /** `[[9999, -9999], [9999, -9999], [9999, -9999]]`. */
  const Start: seq<Range> := [Range(9999.0, -9999.0), Range(9999.0, -9999.0), Range(9999.0, -9999.0)]

  /** `r` stretched to hold the value a line reads, if it reads one. */
  function WidenBy(r: Range, m: Reading): Range
  {
    if m.Value? then Range(if m.v < r.lo then m.v else r.lo, if m.v > r.hi then m.v else r.hi) else r
  }

  /** The X, Y and Z words of a line all parse with `float()`. */
  predicate AxesParse(line: string)
  {
    !Read(line, 'X').Malformed? && !Read(line, 'Y').Malformed? && !Read(line, 'Z').Malformed?
  }

  /** One line of `bbox`: every axis it reads widens that axis's range. */
  function LineBox(bb: seq<Range>, line: string): (r: Outcome<seq<Range>>)
    requires |bb| == 3
    ensures r.Ok? ==> |r.value| == 3
  {
    if !AxesParse(line) then Raised(ValueError)
    else Ok([WidenBy(bb[0], Read(line, 'X')), WidenBy(bb[1], Read(line, 'Y')), WidenBy(bb[2], Read(line, 'Z'))])
  }

  /** The lines from the first on, with the ranges `bb` so far. */
  function BoxFrom(bb: seq<Range>, lines: seq<string>): (r: Outcome<seq<Range>>)
    requires |bb| == 3
    ensures r.Ok? ==> |r.value| == 3
    decreases |lines|
  {
    if lines == [] then Ok(bb)
    else match LineBox(bb, lines[0])
      case Ok(next) => BoxFrom(next, lines[1..])
      case Rejected => Rejected
      case Raised(e) => Raised(e)
  }

  /** `bbox(gcode)`. */
  function BoxAll(gcode: seq<string>): (r: Outcome<seq<Range>>)
    ensures r.Ok? ==> |r.value| == 3
  {
    BoxFrom(Start, gcode)
  }

  /** The loop of `bbox` over the lines. */
  method BBox(gcode: seq<string>) returns (r: Outcome<seq<Range>>)
    ensures r == BoxAll(gcode)
  {
    var bb := Start;
    var n := 0;
    while n < |gcode|
      invariant 0 <= n <= |gcode| && |bb| == 3
      invariant BoxFrom(bb, gcode[n..]) == BoxAll(gcode)
    {
      assert gcode[n..][1..] == gcode[n + 1..];
      var next := WidenLine(bb, gcode[n]);
      if !next.Ok? {
        return next;
      }
      bb := next.value;
      n := n + 1;
    }
    assert gcode[n..] == [];
    return Ok(bb);
  }

  /** The loop of `bbox` over the three axes of one line, updating the
      pairs in place. */
  method WidenLine(bb0: seq<Range>, line: string) returns (r: Outcome<seq<Range>>)
    requires |bb0| == 3
    ensures r == LineBox(bb0, line)
  {
    var bb := bb0;
    var i := 0;
    while i < 3
      invariant 0 <= i <= 3 && |bb| == 3
      invariant forall j :: 0 <= j < i ==> !Read(line, Axis(j)).Malformed? && bb[j] == WidenBy(bb0[j], Read(line, Axis(j)))
      invariant forall j :: i <= j < 3 ==> bb[j] == bb0[j]
    {
      var m := Read(line, Axis(i));
      if m.Malformed? {
        assert !AxesParse(line);
        return Raised(ValueError);
      }
      if m.Value? {
        var a := m.v;
        var lo, hi := bb[i].lo, bb[i].hi;
        lo := if a < lo then a else lo;
        hi := if a > hi then a else hi;
        bb := bb[i := Range(lo, hi)];
      }
      i := i + 1;
    }
    assert Axis(0) == 'X' && Axis(1) == 'Y' && Axis(2) == 'Z';
    assert AxesParse(line);
    assert bb == [bb[0], bb[1], bb[2]];
    return Ok(bb);
  }

  // ---------------------------------------------------------------- properties

  /** Some line of `lines` reads `a` for `L`. */
  predicate Seen(lines: seq<string>, L: char, a: real)
  {
    exists k :: 0 <= k < |lines| && Read(lines[k], L) == Value(a)
  }

  /** `bbox` fails, with `ValueError`, exactly when some X, Y or Z word of
      some line does not parse. */
  lemma {:induction false} BoxFromOk(bb: seq<Range>, lines: seq<string>)
    requires |bb| == 3
    ensures BoxFrom(bb, lines).Ok? <==> forall k :: 0 <= k < |lines| ==> AxesParse(lines[k])
    ensures !BoxFrom(bb, lines).Ok? ==> BoxFrom(bb, lines) == Raised(ValueError)
    decreases |lines|
  {
    if lines != [] && AxesParse(lines[0]) {
      BoxFromOk(LineBox(bb, lines[0]).value, lines[1..]);
      assert forall k :: 1 <= k < |lines| ==> lines[k] == lines[1..][k - 1];
    }
  }

  /** Every value a line reads for an axis lies within that axis's range,
      and the ranges only grow. */
  lemma BoxFromBounds(bb: seq<Range>, lines: seq<string>, i: nat)
    requires |bb| == 3 && i < 3 && BoxFrom(bb, lines).Ok?
    ensures var r := BoxFrom(bb, lines).value[i];
      && r.lo <= bb[i].lo && r.hi >= bb[i].hi
      && forall k :: 0 <= k < |lines| && Read(lines[k], Axis(i)).Value? ==>
        r.lo <= Read(lines[k], Axis(i)).v <= r.hi
  {
    BoxFromGrows(bb, lines, i);
    forall k | 0 <= k < |lines| && Read(lines[k], Axis(i)).Value?
      ensures BoxFrom(bb, lines).value[i].lo <= Read(lines[k], Axis(i)).v <= BoxFrom(bb, lines).value[i].hi
    {
      BoxFromHolds(bb, lines, i, k);
    }
  }

  /** The first line of a successful `BoxFrom` widens every axis by what
      it reads, and the rest goes on from there. */
  lemma BoxFromStep(bb: seq<Range>, lines: seq<string>, i: nat)
    requires |bb| == 3 && i < 3 && lines != [] && BoxFrom(bb, lines).Ok?
    ensures LineBox(bb, lines[0]).Ok?
    ensures BoxFrom(bb, lines) == BoxFrom(LineBox(bb, lines[0]).value, lines[1..])
    ensures LineBox(bb, lines[0]).value[i] == WidenBy(bb[i], Read(lines[0], Axis(i)))
  {
    assert Axis(0) == 'X' && Axis(1) == 'Y' && Axis(2) == 'Z';
  }

  /** The ranges only grow. */
  lemma {:induction false} BoxFromGrows(bb: seq<Range>, lines: seq<string>, i: nat)
    requires |bb| == 3 && i < 3 && BoxFrom(bb, lines).Ok?
    ensures BoxFrom(bb, lines).value[i].lo <= bb[i].lo && BoxFrom(bb, lines).value[i].hi >= bb[i].hi
    decreases |lines|
  {
    if lines != [] {
      BoxFromStep(bb, lines, i);
      BoxFromGrows(LineBox(bb, lines[0]).value, lines[1..], i);
    }
  }

  /** The value line `k` reads for an axis lies within that axis's range. */
  lemma {:induction false} BoxFromHolds(bb: seq<Range>, lines: seq<string>, i: nat, k: nat)
    requires |bb| == 3 && i < 3 && BoxFrom(bb, lines).Ok?
    requires k < |lines| && Read(lines[k], Axis(i)).Value?
    ensures BoxFrom(bb, lines).value[i].lo <= Read(lines[k], Axis(i)).v <= BoxFrom(bb, lines).value[i].hi
    decreases k
  {
    BoxFromStep(bb, lines, i);
    var next := LineBox(bb, lines[0]).value;
    if k == 0 {
      BoxFromGrows(next, lines[1..], i);
    } else {
      assert lines[1..][k - 1] == lines[k];
      BoxFromHolds(next, lines[1..], i, k - 1);
      assert BoxFrom(bb, lines).value[i] == BoxFrom(next, lines[1..]).value[i];
    }
  }

  /** Each end of a range is where it started or a value some line reads. */
  lemma {:induction false} BoxFromAttained(bb: seq<Range>, lines: seq<string>, i: nat)
    requires |bb| == 3 && i < 3 && BoxFrom(bb, lines).Ok?
    ensures var r := BoxFrom(bb, lines).value[i];
      && (r.lo == bb[i].lo || Seen(lines, Axis(i), r.lo))
      && (r.hi == bb[i].hi || Seen(lines, Axis(i), r.hi))
    decreases |lines|
  {
    if lines != [] {
      BoxFromStep(bb, lines, i);
      var next := LineBox(bb, lines[0]).value;
      var r := BoxFrom(bb, lines).value[i];
      BoxFromAttained(next, lines[1..], i);
      SeenTail(lines, Axis(i), r.lo);
      SeenTail(lines, Axis(i), r.hi);
    }
  }

  /** A value a later line reads is a value some line reads. */
  lemma SeenTail(lines: seq<string>, L: char, a: real)
    requires lines != []
    ensures Seen(lines[1..], L, a) ==> Seen(lines, L, a)
  {
    if Seen(lines[1..], L, a) {
      var k :| 0 <= k < |lines[1..]| && Read(lines[1..][k], L) == Value(a);
      assert lines[1..][k] == lines[k + 1];
    }
  }

  /** `bbox(gcode)`: the range of an axis holds every value read for it;
      its minimum is 9999 or a value some line reads, its maximum -9999 or
      a value some line reads. An axis no line reads keeps `[9999, -9999]`. */
  lemma BoxAllRanges(gcode: seq<string>, i: nat)
    requires i < 3 && BoxAll(gcode).Ok?
    ensures var r := BoxAll(gcode).value[i];
      && r.lo <= 9999.0 && r.hi >= -9999.0
      && (forall k :: 0 <= k < |gcode| && Read(gcode[k], Axis(i)).Value? ==>
        r.lo <= Read(gcode[k], Axis(i)).v <= r.hi)
      && (r.lo == 9999.0 || Seen(gcode, Axis(i), r.lo))
      && (r.hi == -9999.0 || Seen(gcode, Axis(i), r.hi))
      && ((forall k :: 0 <= k < |gcode| ==> !Read(gcode[k], Axis(i)).Value?) ==> r == Range(9999.0, -9999.0))
  {
    BoxFromBounds(Start, gcode, i);
    BoxFromAttained(Start, gcode, i);
  }

  // ---------------------------------------------------------------- images

  /** What a line reads once the map `g` was applied to its value. */
  function Image(m: Reading, g: real -> real): Reading
  {
    if m.Value? then Value(g(m.v)) else m
  }

  /** A program whose every X, Y and Z word that does not parse comes from
      one in `lines` has a bounding box as soon as `lines` has one. */
  lemma BoxOfParsing(lines: seq<string>, out: seq<string>)
    requires |out| == |lines| && BoxAll(lines).Ok?
    requires forall k, j :: 0 <= k < |lines| && 0 <= j < 3 && Read(out[k], Axis(j)).Malformed? ==>
      Read(lines[k], Axis(j)).Malformed?
    ensures BoxAll(out).Ok?
  {
    BoxFromOk(Start, lines);
    BoxFromOk(Start, out);
    assert Axis(0) == 'X' && Axis(1) == 'Y' && Axis(2) == 'Z';
    forall k | 0 <= k < |out|
      ensures AxesParse(out[k])
    {
      assert AxesParse(lines[k]);
    }
  }

  /** When every value of an axis goes through the same order-keeping map,
      so do the ends of its range: the box of the image is the image of
      the box, as long as the ends of the range are values some line reads
      and the image does not pass the sentinels. */
  lemma BoxOfImage(lines: seq<string>, out: seq<string>, i: nat, g: real -> real)
    requires i < 3 && |out| == |lines| && BoxAll(lines).Ok? && BoxAll(out).Ok?
    requires forall k :: 0 <= k < |lines| ==> Read(out[k], Axis(i)) == Image(Read(lines[k], Axis(i)), g)
    requires forall a, b :: a <= b ==> g(a) <= g(b)
    requires var r := BoxAll(lines).value[i];
      && Seen(lines, Axis(i), r.lo) && Seen(lines, Axis(i), r.hi)
      && g(r.lo) <= 9999.0 && g(r.hi) >= -9999.0
    ensures var r := BoxAll(lines).value[i];
      BoxAll(out).value[i] == Range(g(r.lo), g(r.hi))
  {
    ImageLo(lines, out, i, g);
    ImageHi(lines, out, i, g);
  }

  /** The minimum of the image is the image of the minimum. */
  lemma ImageLo(lines: seq<string>, out: seq<string>, i: nat, g: real -> real)
    requires i < 3 && |out| == |lines| && BoxAll(lines).Ok? && BoxAll(out).Ok?
    requires forall k :: 0 <= k < |lines| ==> Read(out[k], Axis(i)) == Image(Read(lines[k], Axis(i)), g)
    requires forall a, b :: a <= b ==> g(a) <= g(b)
    requires var r := BoxAll(lines).value[i];
      Seen(lines, Axis(i), r.lo) && g(r.lo) <= 9999.0
    ensures BoxAll(out).value[i].lo == g(BoxAll(lines).value[i].lo)
  {
    var r := BoxAll(lines).value[i];
    var r' := BoxAll(out).value[i];
    BoxAllRanges(lines, i);
    BoxAllRanges(out, i);
    var k0 :| 0 <= k0 < |lines| && Read(lines[k0], Axis(i)) == Value(r.lo);
    assert r'.lo <= g(r.lo) by {
      assert Read(out[k0], Axis(i)) == Value(g(r.lo));
    }
    if r'.lo != 9999.0 {
      var k :| 0 <= k < |out| && Read(out[k], Axis(i)) == Value(r'.lo);
      var m := Read(lines[k], Axis(i));
      assert m.Value? && r'.lo == g(m.v);
      assert r.lo <= m.v;
    }
  }

  /** The maximum of the image is the image of the maximum. */
  lemma ImageHi(lines: seq<string>, out: seq<string>, i: nat, g: real -> real)
    requires i < 3 && |out| == |lines| && BoxAll(lines).Ok? && BoxAll(out).Ok?
    requires forall k :: 0 <= k < |lines| ==> Read(out[k], Axis(i)) == Image(Read(lines[k], Axis(i)), g)
    requires forall a, b :: a <= b ==> g(a) <= g(b)
    requires var r := BoxAll(lines).value[i];
      Seen(lines, Axis(i), r.hi) && g(r.hi) >= -9999.0
    ensures BoxAll(out).value[i].hi == g(BoxAll(lines).value[i].hi)
  {
    var r := BoxAll(lines).value[i];
    var r' := BoxAll(out).value[i];
    BoxAllRanges(lines, i);
    BoxAllRanges(out, i);
    var k1 :| 0 <= k1 < |lines| && Read(lines[k1], Axis(i)) == Value(r.hi);
    assert r'.hi >= g(r.hi) by {
      assert Read(out[k1], Axis(i)) == Value(g(r.hi));
    }
    if r'.hi != -9999.0 {
      var k :| 0 <= k < |out| && Read(out[k], Axis(i)) == Value(r'.hi);
      var m := Read(lines[k], Axis(i));
      assert m.Value? && r'.hi == g(m.v);
      assert m.v <= r.hi;
    }
  }
}
