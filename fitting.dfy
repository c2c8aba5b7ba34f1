/** `to_origin`, `scale_into` and `bbox_draw` of lib/gcodetools.py: tools
    built from `bbox`, `translate` and `scale_factor`. */
module Fitting {
  import opened Text
  import opened Numbers
  import opened Outcomes
  import opened AxisWords
  import opened Translate
  import opened Scale
  import opened Bounds

  // ---------------------------------------------------------------- values

  /** What is read back for a value `a` once `translate` moved it by `o`. */
  function ShiftedValue(a: real, o: real): real
  {
    if o == 0.0 then a else Rounded(a + o, 3)
  }

  /** What is read back for a value `a` once `scale_factor` scaled it by `f`. */
  function ScaledValue(a: real, f: real): real
  {
    if f == 0.0 then a else Rounded(Mul(a, f), 3)
  }

  /** What is read back for a value `a` moved by `o`, then scaled by `f`. */
  function Fit(a: real, o: real, f: real): real
  {
    ScaledValue(ShiftedValue(a, o), f)
  }

  /** Moving a value keeps what kind of reading it is. */
  lemma ShiftedKind(m: Reading, o: real)
    ensures Shifted(m, o).Malformed? <==> m.Malformed?
    ensures Shifted(m, o).Absent? <==> m.Absent?
  {
  }

  /** Moving and then scaling a value keeps what kind of reading it is. */
  lemma FittedKind(m: Reading, o: real, f: real)
    ensures Scaled(Shifted(m, o), f).Malformed? <==> m.Malformed?
  {
  }

  lemma ShiftedValueMonotone(o: real)
    ensures forall a, b :: a <= b ==> ShiftedValue(a, o) <= ShiftedValue(b, o)
  {
    forall a, b | a <= b
      ensures ShiftedValue(a, o) <= ShiftedValue(b, o)
    {
      if o != 0.0 {
        RoundedMonotone(a + o, b + o, 3);
      }
    }
  }

  lemma ScaledValueMonotone(f: real)
    requires f >= 0.0
    ensures forall a, b :: a <= b ==> ScaledValue(a, f) <= ScaledValue(b, f)
  {
    forall a, b | a <= b
      ensures ScaledValue(a, f) <= ScaledValue(b, f)
    {
      if f != 0.0 {
        assert Mul(b, f) - Mul(a, f) == (b - a) * f;
        RoundedMonotone(Mul(a, f), Mul(b, f), 3);
      }
    }
  }

  lemma FitMonotone(o: real, f: real)
    requires f >= 0.0
    ensures forall a, b :: a <= b ==> Fit(a, o, f) <= Fit(b, o, f)
  {
    ShiftedValueMonotone(o);
    ScaledValueMonotone(f);
  }

  // ---------------------------------------------------------------- translate

  /** `bbox` of a translated program is the box of the program moved by the
      offsets (each end rounded to 3 decimals as written), for an axis whose
      ends are values some line reads and whose moved ends stay within the
      sentinels. */
  lemma TranslateBox(lines: seq<string>, off: Vec3, out: seq<string>, i: nat)
    requires i < 3 && TranslateAll(lines, off) == Ok(out) && BoxAll(lines).Ok?
    requires var r := BoxAll(lines).value[i];
      && Seen(lines, Axis(i), r.lo) && Seen(lines, Axis(i), r.hi)
      && ShiftedValue(r.lo, off.At(i)) <= 9999.0 && ShiftedValue(r.hi, off.At(i)) >= -9999.0
    ensures var r := BoxAll(lines).value[i];
      && BoxAll(out).Ok?
      && BoxAll(out).value[i] == Range(ShiftedValue(r.lo, off.At(i)), ShiftedValue(r.hi, off.At(i)))
  {
    TranslateResult(lines, off, out);
    forall k, j | 0 <= k < |lines| && 0 <= j < 3
      ensures Read(out[k], Axis(j)).Malformed? ==> Read(lines[k], Axis(j)).Malformed?
    {
      ShiftedKind(Read(lines[k], Axis(j)), off.At(j));
    }
    BoxOfParsing(lines, out);
    var o := off.At(i);
    var g := (a: real) => ShiftedValue(a, o);
    ShiftedValueMonotone(o);
    forall k | 0 <= k < |lines|
      ensures Read(out[k], Axis(i)) == Image(Read(lines[k], Axis(i)), g)
    {
      ShiftedImage(Read(lines[k], Axis(i)), o, g);
    }
    BoxOfImage(lines, out, i, g);
  }

  /** Moving a reading is the image of its value under `ShiftedValue`. */
  lemma ShiftedImage(m: Reading, o: real, g: real -> real)
    requires forall a :: g(a) == ShiftedValue(a, o)
    ensures Shifted(m, o) == Image(m, g)
  {
  }

  /** Moving and then scaling a reading is the image of its value under
      `Fit`. */
  lemma FittedImage(m: Reading, o: real, f: real, g: real -> real)
    requires forall a :: g(a) == Fit(a, o, f)
    ensures Scaled(Shifted(m, o), f) == Image(m, g)
  {
  }

  // ---------------------------------------------------------------- to_origin

  /** `to_origin(gcode)`: the program moved by `(-xmin, -ymin, 0)`; `bbox`
      fails only with `ValueError` (`BoxFromOk`). */
  function ToOrigin(gcode: seq<string>): Outcome<seq<string>>
  {
    var box := BoxAll(gcode);
    if box.Ok? then TranslateAll(gcode, Origin(box.value))
    else Raised(ValueError)
  }

  /** `[-xmin, -ymin, 0]`: the offsets that take the box to the origin. */
  function Origin(bb: seq<Range>): (off: Vec3)
    requires |bb| == 3
  {
    Vec3(-bb[0].lo, -bb[1].lo, 0.0)
  }

  /** After `to_origin` the smallest X and the smallest Y are 0, and the
      largest is the extent of the axis, within rounding to 3 decimals (for
      an axis whose ends are values some line reads). */
  lemma ToOriginBox(gcode: seq<string>, out: seq<string>, i: nat)
    requires i < 2 && BoxAll(gcode).Ok? && ToOrigin(gcode) == Ok(out)
    requires var r := BoxAll(gcode).value[i];
      Seen(gcode, Axis(i), r.lo) && Seen(gcode, Axis(i), r.hi)
    ensures var r := BoxAll(gcode).value[i];
      && BoxAll(out).Ok?
      && BoxAll(out).value[i].lo == 0.0
      && BoxAll(out).value[i].hi >= 0.0
      && Abs(BoxAll(out).value[i].hi - (r.hi - r.lo)) * 1000.0 <= 0.5
  {
    var off := ToOriginMoves(gcode);
    MovedBox(gcode, off, out, i);
  }

  /** What `to_origin` gives is `translate` by minus the minimum X and Y. */
  lemma ToOriginMoves(gcode: seq<string>) returns (off: Vec3)
    requires BoxAll(gcode).Ok?
    ensures off.x == -BoxAll(gcode).value[0].lo && off.y == -BoxAll(gcode).value[1].lo && off.z == 0.0
    ensures ToOrigin(gcode) == TranslateAll(gcode, off)
  {
    off := Origin(BoxAll(gcode).value);
  }

  /** The ends of an axis moved by minus its minimum: 0, and the extent. */
  lemma MovedBox(gcode: seq<string>, off: Vec3, out: seq<string>, i: nat)
    requires i < 2 && BoxAll(gcode).Ok? && TranslateAll(gcode, off) == Ok(out)
    requires var r := BoxAll(gcode).value[i];
      && off.At(i) == -r.lo
      && Seen(gcode, Axis(i), r.lo) && Seen(gcode, Axis(i), r.hi)
    ensures var r := BoxAll(gcode).value[i];
      && BoxAll(out).Ok?
      && BoxAll(out).value[i].lo == 0.0
      && BoxAll(out).value[i].hi >= 0.0
      && Abs(BoxAll(out).value[i].hi - (r.hi - r.lo)) * 1000.0 <= 0.5
  {
    var r := BoxAll(gcode).value[i];
    BoxAllRanges(gcode, i);
    MovedToOrigin(r.lo, r.hi, off.At(i));
    TranslateBox(gcode, off, out, i);
  }

  /** Moving by `-lo` takes `lo` to 0 and `hi` to its distance from `lo`,
      within rounding to 3 decimals. */
  lemma MovedToOrigin(lo: real, hi: real, o: real)
    requires lo <= hi && o == -lo
    ensures ShiftedValue(lo, o) == 0.0
    ensures ShiftedValue(hi, o) >= 0.0
    ensures Abs(ShiftedValue(hi, o) - (hi - lo)) * 1000.0 <= 0.5
  {
    RoundedZero(3);
    ShiftedValueMonotone(o);
    RoundedClose(hi + o, 3);
    assert Pow10(3) == 1000;
  }

  // ---------------------------------------------------------------- scale_into

  /** `xmax - xmin` and the like. */
  function Extent(bb: seq<Range>, i: nat): real
    requires |bb| == 3 && i < 3
  {
    bb[i].hi - bb[i].lo
  }

  /** `[fac_x, fac_y, fac_z]`: the X factor fits the width; a positive height
      or depth gets its own factor, any other takes the X factor. */
  function Factors(bb: seq<Range>, width: real, height: real, depth: real): Vec3
    requires |bb| == 3 && Extent(bb, 0) != 0.0
    requires height > 0.0 ==> Extent(bb, 1) != 0.0
    requires depth > 0.0 ==> Extent(bb, 2) != 0.0
  {
    var fx := Ratio(width, Extent(bb, 0));
    Vec3(fx, if height > 0.0 then Ratio(height, Extent(bb, 1)) else fx, if depth > 0.0 then Ratio(depth, Extent(bb, 2)) else fx)
  }

  /** `scale_into(gcode, width, height, depth, scale_zclear)`: `bbox`, then
      `translate` to the origin, then the fitting by `FitMoved`. */
  function ScaleInto(gcode: seq<string>, width: real, height: real, depth: real, scaleZclear: bool): Outcome<seq<string>>
  {
    var box := BoxAll(gcode);
    if !box.Ok? then Raised(ValueError)
    else
      FitMoved(box.value, TranslateAll(gcode, Origin(box.value)), width, height, depth, scaleZclear)
  }

  /** The rest of `scale_into`, given the box `bb` and what `translate` gave,
      failing as the source does: the failure of `translate`, then a
      division by a zero extent, then `fac_x` unbound when the width is not
      positive, then `scale_factor` iterating over the `None` that
      `translate` gave for a `G91` program, then `scale_factor` itself. */
  function FitMoved(bb: seq<Range>, moved: Outcome<seq<string>>, width: real, height: real, depth: real, scaleZclear: bool): Outcome<seq<string>>
    requires |bb| == 3
  {
    if moved.Raised? then Raised(moved.exc)
    else if width > 0.0 && Extent(bb, 0) == 0.0 then Raised(ZeroDivisionError)
    else if height > 0.0 && Extent(bb, 1) == 0.0 then Raised(ZeroDivisionError)
    else if depth > 0.0 && Extent(bb, 2) == 0.0 then Raised(ZeroDivisionError)
    else if width <= 0.0 then Raised(UnboundLocalError)
    else if moved.Rejected? then Raised(TypeError)
    else ScaleAll(moved.value, Factors(bb, width, height, depth), scaleZclear)
  }

  /** `scale_into` never gives `None`, and it always fails when the width is
      not positive, whatever the height and depth. */
  lemma ScaleIntoFails(gcode: seq<string>, width: real, height: real, depth: real, scaleZclear: bool)
    ensures !ScaleInto(gcode, width, height, depth, scaleZclear).Rejected?
    ensures width <= 0.0 ==> ScaleInto(gcode, width, height, depth, scaleZclear).Raised?
  {
    if BoxAll(gcode).Ok? {
      var bb, off := ScaleIntoSteps(gcode, width, height, depth, scaleZclear);
      FitMovedFails(bb, TranslateAll(gcode, off), width, height, depth, scaleZclear);
    }
  }

  lemma FitMovedFails(bb: seq<Range>, moved: Outcome<seq<string>>, width: real, height: real, depth: real, scaleZclear: bool)
    requires |bb| == 3
    ensures !FitMoved(bb, moved, width, height, depth, scaleZclear).Rejected?
    ensures width <= 0.0 ==> FitMoved(bb, moved, width, height, depth, scaleZclear).Raised?
  {
    if moved.Ok? && width > 0.0 && Extent(bb, 0) != 0.0
      && (height > 0.0 ==> Extent(bb, 1) != 0.0) && (depth > 0.0 ==> Extent(bb, 2) != 0.0) {
      ScaleNeverRejects(moved.value, Factors(bb, width, height, depth), scaleZclear);
    }
  }

  /** The offset `scale_into` moves an axis by: X and Y to the origin, Z not. */
  function OffsetOf(bb: seq<Range>, i: nat): real
    requires |bb| == 3 && i < 3
  {
    if i == 2 then 0.0 else -bb[i].lo
  }

  lemma OffsetIsMove(bb: seq<Range>, off: Vec3, i: nat)
    requires |bb| == 3 && i < 3 && off.x == -bb[0].lo && off.y == -bb[1].lo && off.z == 0.0
    ensures OffsetOf(bb, i) == off.At(i)
  {
  }

  /** `scale_into` once `bbox` succeeded: the rest of it, given the box and
      what `translate` to the origin gave. */
  lemma ScaleIntoSteps(gcode: seq<string>, width: real, height: real, depth: real, scaleZclear: bool)
    returns (bb: seq<Range>, off: Vec3)
    requires BoxAll(gcode).Ok?
    ensures BoxAll(gcode) == Ok(bb) && |bb| == 3
    ensures off.x == -bb[0].lo && off.y == -bb[1].lo && off.z == 0.0
    ensures ScaleInto(gcode, width, height, depth, scaleZclear) == FitMoved(bb, TranslateAll(gcode, off), width, height, depth, scaleZclear)
  {
    bb := BoxAll(gcode).value;
    off := Origin(bb);
  }

  /** The rest of `scale_into` succeeds only past every failure it checks. */
  lemma FitMovedOk(bb: seq<Range>, moved: Outcome<seq<string>>, width: real, height: real, depth: real, scaleZclear: bool)
    requires |bb| == 3 && FitMoved(bb, moved, width, height, depth, scaleZclear).Ok?
    ensures moved.Ok? && width > 0.0 && Extent(bb, 0) != 0.0
    ensures (height > 0.0 ==> Extent(bb, 1) != 0.0) && (depth > 0.0 ==> Extent(bb, 2) != 0.0)
    ensures ScaleAll(moved.value, Factors(bb, width, height, depth), scaleZclear) == FitMoved(bb, moved, width, height, depth, scaleZclear)
  {
  }

  /** The factor of an axis is positive once the width is, and every extent
      it divides by is. */
  lemma FactorPositive(bb: seq<Range>, width: real, height: real, depth: real, i: nat)
    requires |bb| == 3 && i < 3 && width > 0.0 && Extent(bb, 0) > 0.0
    requires height > 0.0 ==> Extent(bb, 1) != 0.0
    requires depth > 0.0 ==> Extent(bb, 2) != 0.0
    requires i == 1 && height > 0.0 ==> Extent(bb, 1) > 0.0
    requires i == 2 && depth > 0.0 ==> Extent(bb, 2) > 0.0
    ensures Factors(bb, width, height, depth).At(i) > 0.0
  {
  }

  /** An axis whose minimum some line reads has its minimum below its
      maximum. */
  lemma SeenOrdered(gcode: seq<string>, i: nat)
    requires i < 3 && BoxAll(gcode).Ok? && Seen(gcode, Axis(i), BoxAll(gcode).value[i].lo)
    ensures BoxAll(gcode).value[i].lo <= BoxAll(gcode).value[i].hi
  {
    BoxAllRanges(gcode, i);
  }

  /** Moving by `-lo` then scaling by a positive factor takes `lo` to 0 and
      keeps `hi` at 0 or above. */
  lemma FitAtOrigin(lo: real, hi: real, o: real, f: real)
    requires lo <= hi && o == -lo && f > 0.0
    ensures Fit(lo, o, f) == 0.0 && Fit(hi, o, f) >= 0.0
  {
    MovedToOrigin(lo, hi, o);
    RoundedZero(3);
    assert Mul(0.0, f) == 0.0;
    FitMonotone(o, f);
  }

  /** The box of a program that `scale_into` fitted, when no line is kept
      back by the `_zclear` marker: each end of an axis is the end of the
      original box moved (X and Y to the origin) and scaled by the axis's
      factor, as read back from the text. This needs the ends of the axis,
      and the smallest X, to be values some line reads; for Z the scaled
      ends must stay within the sentinels. */
  lemma ScaleIntoBox(gcode: seq<string>, width: real, height: real, depth: real, scaleZclear: bool, out: seq<string>, i: nat)
    requires i < 3 && BoxAll(gcode).Ok? && ScaleInto(gcode, width, height, depth, scaleZclear) == Ok(out)
    requires forall k :: 0 <= k < |gcode| ==> !Protected(gcode[k], scaleZclear)
    requires var bb := BoxAll(gcode).value;
      && Seen(gcode, 'X', bb[0].lo)
      && Seen(gcode, Axis(i), bb[i].lo) && Seen(gcode, Axis(i), bb[i].hi)
    requires var bb := BoxAll(gcode).value;
      i == 2 && Extent(bb, 0) != 0.0 && (height > 0.0 ==> Extent(bb, 1) != 0.0) && (depth > 0.0 ==> Extent(bb, 2) != 0.0) ==>
        && Fit(bb[2].lo, 0.0, Factors(bb, width, height, depth).z) <= 9999.0
        && Fit(bb[2].hi, 0.0, Factors(bb, width, height, depth).z) >= -9999.0
    ensures var bb := BoxAll(gcode).value;
      && Extent(bb, 0) != 0.0 && (height > 0.0 ==> Extent(bb, 1) != 0.0) && (depth > 0.0 ==> Extent(bb, 2) != 0.0)
      && var f := Factors(bb, width, height, depth).At(i);
      && f > 0.0
      && BoxAll(out).Ok?
      && BoxAll(out).value[i] == Range(Fit(bb[i].lo, OffsetOf(bb, i), f), Fit(bb[i].hi, OffsetOf(bb, i), f))
  {
    var bb, off := ScaleIntoSteps(gcode, width, height, depth, scaleZclear);
    var t := TranslateAll(gcode, off);
    FitMovedOk(bb, t, width, height, depth, scaleZclear);
    var moved := t.value;
    var facts := Factors(bb, width, height, depth);
    assert Axis(0) == 'X';
    SeenOrdered(gcode, 0);
    SeenOrdered(gcode, i);
    FactorPositive(bb, width, height, depth, i);
    var o, f := OffsetOf(bb, i), facts.At(i);
    OffsetIsMove(bb, off, i);
    if i < 2 {
      FitAtOrigin(bb[i].lo, bb[i].hi, o, f);
    }
    FittedBox(gcode, bb, off, moved, facts, scaleZclear, out, i, o, f);
  }

  /** The size `scale_into` aims axis `i` at: the width for X, a positive
      height for Y and a positive depth for Z; any other height or depth
      scales that axis as X is scaled, which keeps the proportions. */
  function TargetSize(bb: seq<Range>, width: real, height: real, depth: real, i: nat): real
    requires |bb| == 3 && i < 3 && Extent(bb, 0) != 0.0
  {
    var asX := Ratio(width, Extent(bb, 0));
    if i == 0 then width
    else if i == 1 then (if height > 0.0 then height else Mul(Extent(bb, 1), asX))
    else if depth > 0.0 then depth else Mul(Extent(bb, 2), asX)
  }

  /** What `scale_into` is for: X, and Y, start at 0 and end at their target
      size, to within two roundings to 3 decimals (half a thousandth each,
      the first one magnified by the factor); Z keeps its place and its
      extent becomes its target size to within a thousandth. */
  lemma ScaleIntoFits(gcode: seq<string>, width: real, height: real, depth: real, scaleZclear: bool, out: seq<string>, i: nat)
    requires i < 3 && BoxAll(gcode).Ok? && ScaleInto(gcode, width, height, depth, scaleZclear) == Ok(out)
    requires forall k :: 0 <= k < |gcode| ==> !Protected(gcode[k], scaleZclear)
    requires var bb := BoxAll(gcode).value;
      && Seen(gcode, 'X', bb[0].lo)
      && Seen(gcode, Axis(i), bb[i].lo) && Seen(gcode, Axis(i), bb[i].hi)
    requires var bb := BoxAll(gcode).value;
      i == 2 && Extent(bb, 0) != 0.0 && (height > 0.0 ==> Extent(bb, 1) != 0.0) && (depth > 0.0 ==> Extent(bb, 2) != 0.0) ==>
        && Fit(bb[2].lo, 0.0, Factors(bb, width, height, depth).z) <= 9999.0
        && Fit(bb[2].hi, 0.0, Factors(bb, width, height, depth).z) >= -9999.0
    ensures BoxAll(out).Ok?
    ensures var bb, r := BoxAll(gcode).value, BoxAll(out).value[i];
      && Extent(bb, 0) != 0.0 && (height > 0.0 ==> Extent(bb, 1) != 0.0) && (depth > 0.0 ==> Extent(bb, 2) != 0.0)
      && var f, size := Factors(bb, width, height, depth).At(i), TargetSize(bb, width, height, depth, i);
      && (i < 2 ==> r.lo == 0.0 && Abs(r.hi - size) * 1000.0 <= 0.5 * (1.0 + f))
      && (i == 2 ==> Abs((r.hi - r.lo) - size) * 1000.0 <= 1.0)
  {
    ScaleIntoBox(gcode, width, height, depth, scaleZclear, out, i);
    SeenOrdered(gcode, i);
    var bb := BoxAll(gcode).value;
    FactorFits(bb, width, height, depth, i);
    FittedRange(bb, BoxAll(out).value[i], i, Factors(bb, width, height, depth).At(i));
  }

  /** The factor of axis `i` scales its extent to the target size. */
  lemma FactorFits(bb: seq<Range>, width: real, height: real, depth: real, i: nat)
    requires |bb| == 3 && i < 3
    requires Extent(bb, 0) != 0.0 && (height > 0.0 ==> Extent(bb, 1) != 0.0) && (depth > 0.0 ==> Extent(bb, 2) != 0.0)
    ensures Mul(Extent(bb, i), Factors(bb, width, height, depth).At(i)) == TargetSize(bb, width, height, depth, i)
  {
    if i == 0 {
      RatioTimes(width, Extent(bb, 0));
    } else if i == 1 && height > 0.0 {
      RatioTimes(height, Extent(bb, 1));
    } else if i == 2 && depth > 0.0 {
      RatioTimes(depth, Extent(bb, 2));
    }
  }

  /** The range axis `i` of `bb` is fitted to by a positive factor `f`: X
      and Y start at 0 and end near their extent times `f`; Z keeps its
      place and its extent becomes near the extent times `f`. */
  lemma FittedRange(bb: seq<Range>, r: Range, i: nat, f: real)
    requires |bb| == 3 && i < 3 && bb[i].lo <= bb[i].hi && f > 0.0
    requires r == Range(Fit(bb[i].lo, OffsetOf(bb, i), f), Fit(bb[i].hi, OffsetOf(bb, i), f))
    ensures i < 2 ==> r.lo == 0.0 && Abs(r.hi - Mul(Extent(bb, i), f)) * 1000.0 <= 0.5 * (1.0 + f)
    ensures i == 2 ==> Abs((r.hi - r.lo) - Mul(Extent(bb, 2), f)) * 1000.0 <= 1.0
  {
    var lo, hi, o, e := bb[i].lo, bb[i].hi, OffsetOf(bb, i), Extent(bb, i);
    if i < 2 {
      FitSpans(lo, hi, o, e, f);
    } else {
      FitStretches(lo, hi, o, e, f);
    }
  }

  /** Moving `[lo, hi]` by `-lo` and scaling it by `f` gives `[0, w]`,
      where `w` is the extent `e` times `f` but for two roundings to 3
      decimals. */
  lemma FitSpans(lo: real, hi: real, o: real, e: real, f: real)
    requires lo <= hi && o == -lo && e == hi - lo && f > 0.0
    ensures Fit(lo, o, f) == 0.0
    ensures Abs(Fit(hi, o, f) - Mul(e, f)) * 1000.0 <= 0.5 * (1.0 + f)
  {
    FitAtOrigin(lo, hi, o, f);
    MovedToOrigin(lo, hi, o);
    var s := ShiftedValue(hi, o);
    ScaledClose(s, f);
    assert Fit(hi, o, f) == ScaledValue(s, f);
    TwoRoundings(ScaledValue(s, f), s, e, f);
  }

  /** A value off by half a thousandth, scaled by `f` and rounded off by
      half a thousandth again. */
  lemma TwoRoundings(g: real, s: real, e: real, f: real)
    requires f > 0.0 && Abs(s - e) * 1000.0 <= 0.5 && Abs(g - s * f) * 1000.0 <= 0.5
    ensures Abs(g - Mul(e, f)) * 1000.0 <= 0.5 * (1.0 + f)
  {
    ScaledError(s, e, f);
    AddErrors(g, s * f, e * f, 0.5, 0.5 * f);
  }

  /** Scaling by a factor other than 0 rounds the product to 3 decimals. */
  lemma ScaledClose(s: real, f: real)
    requires f != 0.0
    ensures Abs(ScaledValue(s, f) - s * f) * 1000.0 <= 0.5
  {
    RoundedClose(Mul(s, f), 3);
    assert Pow10(3) == 1000;
  }

  /** A target over an extent, times the extent, is the target. */
  lemma RatioTimes(a: real, b: real)
    requires b != 0.0
    ensures Mul(b, Ratio(a, b)) == a
  {
  }

  /** Two errors, measured in thousandths, add up at most. */
  lemma AddErrors(a: real, b: real, c: real, x: real, y: real)
    requires Abs(a - b) * 1000.0 <= x && Abs(b - c) * 1000.0 <= y
    ensures Abs(a - c) * 1000.0 <= x + y
  {
  }

  /** Scaling a value that is off by `e` multiplies the error by `f`. */
  lemma ScaledError(s: real, e: real, f: real)
    requires f > 0.0 && Abs(s - e) * 1000.0 <= 0.5
    ensures Abs(s * f - e * f) * 1000.0 <= 0.5 * f
  {
    assert s * f - e * f == (s - e) * f;
    assert Abs((s - e) * f) == Abs(s - e) * f;
  }

  /** Scaling `[lo, hi]` in place by `f` gives a range whose extent is the
      extent `e` times `f` to within one thousandth, a half per end. */
  lemma FitStretches(lo: real, hi: real, o: real, e: real, f: real)
    requires lo <= hi && o == 0.0 && e == hi - lo && f > 0.0
    ensures Abs((Fit(hi, o, f) - Fit(lo, o, f)) - Mul(e, f)) * 1000.0 <= 1.0
  {
    ScaledClose(lo, f);
    ScaledClose(hi, f);
    assert Fit(lo, o, f) == ScaledValue(lo, f) && Fit(hi, o, f) == ScaledValue(hi, f);
    EndsRounded(ScaledValue(lo, f), ScaledValue(hi, f), lo, hi, e, f);
  }

  /** Both ends of a scaled range off by half a thousandth. */
  lemma EndsRounded(a: real, b: real, lo: real, hi: real, e: real, f: real)
    requires e == hi - lo && Abs(a - lo * f) * 1000.0 <= 0.5 && Abs(b - hi * f) * 1000.0 <= 0.5
    ensures Abs((b - a) - Mul(e, f)) * 1000.0 <= 1.0
  {
    assert (b - a) - e * f == (b - hi * f) - (a - lo * f) by {
      assert e * f == hi * f - lo * f;
    }
    AddErrors(b - hi * f, 0.0, a - lo * f, 0.5, 0.5);
  }

  /** What each line reads once moved by `off` and then scaled by `facts`:
      a word that does not parse comes from one in the original, and the
      value of axis `i` went through `Fit`. */
  lemma FittedReads(gcode: seq<string>, off: Vec3, moved: seq<string>, facts: Vec3, scaleZclear: bool,
                    out: seq<string>, i: nat)
    requires TranslateAll(gcode, off) == Ok(moved) && ScaleAll(moved, facts, scaleZclear) == Ok(out)
    requires i < 3 && forall k :: 0 <= k < |gcode| ==> !Protected(gcode[k], scaleZclear)
    ensures |out| == |gcode|
    ensures forall k, j :: 0 <= k < |gcode| && 0 <= j < 3 && Read(out[k], Axis(j)).Malformed? ==>
      Read(gcode[k], Axis(j)).Malformed?
    ensures forall k :: 0 <= k < |gcode| ==>
      Read(out[k], Axis(i)) == Scaled(Shifted(Read(gcode[k], Axis(i)), off.At(i)), facts.At(i))
  {
    TranslateResult(gcode, off, moved);
    TranslateKeepsMarker(gcode, off, moved);
    ScaleResult(moved, facts, scaleZclear, out);
    forall k | 0 <= k < |gcode|
      ensures forall j :: 0 <= j < 3 ==>
        && Read(out[k], Axis(j)) == Scaled(Shifted(Read(gcode[k], Axis(j)), off.At(j)), facts.At(j))
        && (Read(out[k], Axis(j)).Malformed? ==> Read(gcode[k], Axis(j)).Malformed?)
    {
      FittedLine(gcode[k], moved[k], out[k], off, facts, scaleZclear);
    }
  }

  /** One line moved by `off` into `mid`, then scaled by `facts` into `o`. */
  lemma FittedLine(line: string, mid: string, o: string, off: Vec3, facts: Vec3, scaleZclear: bool)
    requires !Protected(line, scaleZclear)
    requires Contains(mid, "_zclear") ==> Contains(line, "_zclear")
    requires forall j :: 0 <= j < 3 ==> Read(mid, Axis(j)) == Shifted(Read(line, Axis(j)), off.At(j))
    requires !Protected(mid, scaleZclear) ==>
      forall j :: 0 <= j < 7 ==> Read(o, Letter(j)) == Scaled(Read(mid, Letter(j)), FactorOf(facts, j))
    ensures forall j :: 0 <= j < 3 ==>
      && Read(o, Axis(j)) == Scaled(Shifted(Read(line, Axis(j)), off.At(j)), facts.At(j))
      && (Read(o, Axis(j)).Malformed? ==> Read(line, Axis(j)).Malformed?)
  {
    assert !Protected(mid, scaleZclear);
    forall j | 0 <= j < 3
      ensures Read(o, Axis(j)) == Scaled(Shifted(Read(line, Axis(j)), off.At(j)), facts.At(j))
      ensures Read(o, Axis(j)).Malformed? ==> Read(line, Axis(j)).Malformed?
    {
      AxisFactor(facts, j);
      FittedKind(Read(line, Axis(j)), off.At(j), facts.At(j));
    }
  }

  /** The box of a program moved by `off` and then scaled by `facts`. */
  lemma FittedBox(gcode: seq<string>, bb: seq<Range>, off: Vec3, moved: seq<string>, facts: Vec3, scaleZclear: bool,
                  out: seq<string>, i: nat, o: real, f: real)
    requires BoxAll(gcode) == Ok(bb) && TranslateAll(gcode, off) == Ok(moved)
    requires ScaleAll(moved, facts, scaleZclear) == Ok(out)
    requires i < 3 && o == off.At(i) && f == facts.At(i) && f > 0.0
    requires forall k :: 0 <= k < |gcode| ==> !Protected(gcode[k], scaleZclear)
    requires Seen(gcode, Axis(i), bb[i].lo) && Seen(gcode, Axis(i), bb[i].hi)
    requires Fit(bb[i].lo, o, f) <= 9999.0 && Fit(bb[i].hi, o, f) >= -9999.0
    ensures BoxAll(out).Ok? && BoxAll(out).value[i] == Range(Fit(bb[i].lo, o, f), Fit(bb[i].hi, o, f))
  {
    FittedReads(gcode, off, moved, facts, scaleZclear, out, i);
    BoxOfParsing(gcode, out);
    var g := (a: real) => Fit(a, o, f);
    FitMonotone(o, f);
    forall k | 0 <= k < |gcode|
      ensures Read(out[k], Axis(i)) == Image(Read(gcode[k], Axis(i)), g)
    {
      FittedImage(Read(gcode[k], Axis(i)), o, f, g);
    }
    BoxOfImage(gcode, out, i, g);
  }
}
