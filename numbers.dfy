/** Number text as the G-code tools read and write it: `float()` applied to
    text captured by `[-.\d]+`, and the `{:0.Nf}` rendering, also with the
    trailing `0`s and `.` stripped as every rewritten axis word is. */
module Numbers {
  import opened Text
  import opened Outcomes

  /** The character class `[-.\d]` (ASCII digits) of the axis patterns. */
  predicate IsNumChar(c: char) { c == '-' || c == '.' || IsDigit(c) }

  predicate AllNumChars(s: string) { forall i :: 0 <= i < |s| ==> IsNumChar(s[i]) }

  /** Number of leading decimal digits. */
  function DigitRun(s: string): (k: nat)
    ensures k <= |s| && AllDigits(s[..k])
    ensures k < |s| ==> !IsDigit(s[k])
  {
    if s != [] && IsDigit(s[0]) then
      var k := 1 + DigitRun(s[1..]);
      assert s[..k] == [s[0]] + s[1..][..k - 1];
      k
    else 0
  }

  lemma {:induction false} DigitRunPrefix(d: string, t: string)
    requires AllDigits(d) && (t == [] || !IsDigit(t[0]))
    ensures DigitRun(d + t) == |d|
  {
    if d != [] {
      assert (d + t)[1..] == d[1..] + t;
      DigitRunPrefix(d[1..], t);
    }
  }

  /** The value of the digits after a decimal point. */
  function FracValue(f: string): real
    requires AllDigits(f)
  {
    DigitsValue(f) as real / Pow10(|f|) as real
  }

  /** `float(s)` for text without sign: digits, a point, digits, with at least
      one digit in all; `None` where Python raises `ValueError`. */
  function ParseUnsigned(s: string): Option<real>
  {
    var k := DigitRun(s);
    if k == |s| then
      if k == 0 then None else Some(DigitsValue(s) as real)
    else if s[k] != '.' || !AllDigits(s[k + 1..]) || (k == 0 && k + 1 == |s|) then None
    else Some(DigitsValue(s[..k]) as real + FracValue(s[k + 1..]))
  }

  /** `float(s)` for text made of `-`, `.` and digits, which is all that the
      patterns of the G-code tools ever capture: an optional minus sign and an
      unsigned decimal. `None` where Python raises `ValueError`. */
  function ParseNumber(s: string): Option<real>
  {
    if s != [] && s[0] == '-' then
      match ParseUnsigned(s[1..])
      case Some(v) => Some(-v)
      case None => None
    else ParseUnsigned(s)
  }

  /** Quotient and remainder of natural numbers, kept apart so that the
      solver meets the non-linear division only where a proof asks for it. */
  function Div(m: nat, d: nat): nat
    requires d >= 1
  {
    m / d
  }

  function Mod(m: nat, d: nat): (r: nat)
    requires d >= 1
    ensures r < d
  {
    m % d
  }

  lemma DivMod(m: nat, d: nat)
    requires d >= 1
    ensures m == Div(m, d) * d + Mod(m, d)
  {
  }

  /** `float(s)` succeeds and gives `v`. */
  predicate ReadsAs(s: string, v: real)
  {
    ParseNumber(s).Some? && ParseNumber(s).value == v
  }

  function Abs(v: real): real { if v < 0.0 then -v else v }

  /** A product of two values that the tools compute (a factor times a
      coordinate, a cosine times a distance). */
  function Mul(a: real, b: real): real { a * b }

  /** A ratio the tools compute (a target size over an extent). */
  function Ratio(a: real, b: real): real
    requires b != 0.0
  {
    a / b
  }

  /** `|v| * 10^p` rounded to the nearest integer, halves away from zero. */
  function Magnitude(v: real, p: nat): (m: nat)
  {
    var x := Abs(v) * Pow10(p) as real + 0.5;
    assert x >= 0.0;
    x.Floor
  }

  function Sign(v: real): string { if v < 0.0 then "-" else "" }

  /** `"{:0.<p>f}".format(v)`: sign, integer digits and exactly `p` decimals. */
  function Fixed(v: real, p: nat): string
  {
    var m := Magnitude(v, p);
    Sign(v) + NatDigits(Div(m, Pow10(p)))
      + (if p == 0 then "" else "." + ZeroPad(NatDigits(Mod(m, Pow10(p))), p))
  }

  /** The value that the text `Fixed(v, p)` stands for. */
  function Rounded(v: real, p: nat): real
  {
    Signed(Sign(v), Magnitude(v, p) as real / Pow10(p) as real)
  }

  /** The magnitude is `|v| * 10^p` to within one half. */
  lemma MagnitudeBounds(v: real, p: nat)
    ensures Abs(v) * Pow10(p) as real - 0.5 < Magnitude(v, p) as real <= Abs(v) * Pow10(p) as real + 0.5
  {
  }

  lemma SignedClose(v: real, P: real, m: real)
    requires P > 0.0 && Abs(v) * P - 0.5 < m <= Abs(v) * P + 0.5
    ensures Abs(Signed(Sign(v), m / P) - v) * P <= 0.5
  {
    var a := Abs(v);
    var d := m / P - a;
    assert d * P == m - a * P;
    assert -0.5 <= d * P <= 0.5;
    assert Abs(d) * P <= 0.5 by {
      if d < 0.0 { assert Abs(d) * P == -(d * P); }
    }
    if v < 0.0 {
      assert Signed(Sign(v), m / P) - v == -d;
    } else {
      assert Signed(Sign(v), m / P) - v == d;
    }
  }

  /** Rounding to `p` decimals moves a value by at most half a unit of the last place. */
  lemma RoundedClose(v: real, p: nat)
    ensures Abs(Rounded(v, p) - v) * Pow10(p) as real <= 0.5
  {
    MagnitudeBounds(v, p);
    SignedClose(v, Pow10(p) as real, Magnitude(v, p) as real);
  }

  /** A larger magnitude rounds to a magnitude at least as large. */
  lemma MagnitudeMonotone(a: real, b: real, p: nat)
    requires Abs(a) <= Abs(b)
    ensures Magnitude(a, p) <= Magnitude(b, p)
  {
    var P := Pow10(p) as real;
    assert Abs(a) * P <= Abs(b) * P by {
      assert (Abs(b) - Abs(a)) * P >= 0.0;
    }
  }

  /** Rounding never reverses the order of two values. */
  lemma RoundedMonotone(v: real, w: real, p: nat)
    requires v <= w
    ensures Rounded(v, p) <= Rounded(w, p)
  {
    var P := Pow10(p) as real;
    if 0.0 <= v {
      MagnitudeMonotone(v, w, p);
      assert Magnitude(v, p) as real / P <= Magnitude(w, p) as real / P;
    } else if w < 0.0 {
      MagnitudeMonotone(w, v, p);
      assert Magnitude(w, p) as real / P <= Magnitude(v, p) as real / P;
    } else {
      assert Rounded(v, p) <= 0.0 <= Rounded(w, p);
    }
  }

  /** 0 is written, and read back, as 0. */
  lemma RoundedZero(p: nat)
    ensures Rounded(0.0, p) == 0.0
  {
    assert Magnitude(0.0, p) == 0;
  }


  function IntPart(v: real, p: nat): string { NatDigits(Div(Magnitude(v, p), Pow10(p))) }

  function FracPart(v: real, p: nat): (f: string)
    requires p >= 1
    ensures |f| == p && AllDigits(f)
  {
    var r := Mod(Magnitude(v, p), Pow10(p));
    NatDigitsLength(r, p);
    ZeroPad(NatDigits(r), p)
  }

  lemma PartsValue(v: real, p: nat)
    requires p >= 1
    ensures DigitsValue(IntPart(v, p)) as real + FracValue(FracPart(v, p))
      == Magnitude(v, p) as real / Pow10(p) as real
  {
    var m, P := Magnitude(v, p), Pow10(p);
    var q, r := Div(m, P), Mod(m, P);
    NatDigitsValue(q);
    NatDigitsValue(r);
    ZeroPadValue(NatDigits(r), p);
    DivMod(m, P);
    QuotArith(m, q, r, P);
  }

  lemma QuotArith(m: nat, q: nat, r: nat, P: nat)
    requires P >= 1 && m == q * P + r
    ensures (m as real) / (P as real) == (q as real) + (r as real) / (P as real)
  {
    assert (m as real) == (q as real) * (P as real) + (r as real);
  }

  /** `-x` when the text carries a minus sign. */
  function Signed(sign: string, x: real): real { if sign == "-" then -x else x }

  /** Reading the digits `i` and `.f` back. */
  lemma ParseUnsignedDecimal(i: string, f: string)
    requires AllDigits(i) && |i| >= 1 && AllDigits(f)
    ensures ParseUnsigned(i + "." + f).Some?
    ensures ParseUnsigned(i + "." + f).value == DigitsValue(i) as real + FracValue(f)
  {
    DecimalShape(i, f);
    ParseUnsignedAt(i + "." + f, |i|);
  }

  lemma DecimalShape(i: string, f: string)
    requires AllDigits(i) && AllDigits(f)
    ensures DigitRun(i + "." + f) == |i|
    ensures (i + "." + f)[|i|] == '.'
    ensures (i + "." + f)[|i| + 1..] == f && (i + "." + f)[..|i|] == i
  {
    var t := "." + f;
    ConcatAssoc(i, ".", f);
    DigitRunPrefix(i, t);
    ConcatSplit(i, t);
    ConcatSplit(".", f);
    assert t[1..] == f;
    assert (i + t)[|i| + 1..] == t[1..];
  }

  /** `float` of digits, a point at index `k` and digits. */
  lemma ParseUnsignedAt(s: string, k: nat)
    requires DigitRun(s) == k < |s| && s[k] == '.' && AllDigits(s[k + 1..]) && k >= 1
    ensures ParseUnsigned(s).Some?
    ensures ParseUnsigned(s).value == DigitsValue(s[..k]) as real + FracValue(s[k + 1..])
  {
  }

  lemma ParseUnsignedInteger(i: string)
    requires AllDigits(i) && |i| >= 1
    ensures ParseUnsigned(i).Some? && ParseUnsigned(i).value == DigitsValue(i) as real
  {
    DigitRunPrefix(i, "");
    assert i + "" == i;
  }

  /** A leading minus sign negates what the rest reads as. */
  lemma ParseSigned(sign: string, u: string)
    requires sign == "" || sign == "-"
    requires ParseUnsigned(u).Some? && (u == [] || u[0] != '-')
    ensures ReadsAs(sign + u, Signed(sign, ParseUnsigned(u).value))
  {
    if sign == "-" {
      assert (sign + u)[1..] == u;
    } else {
      assert sign + u == u;
    }
  }

  lemma ParseSignedDecimal(sign: string, i: string, f: string)
    requires sign == "" || sign == "-"
    requires AllDigits(i) && |i| >= 1 && AllDigits(f)
    ensures ReadsAs(sign + i + "." + f, Signed(sign, DigitsValue(i) as real + FracValue(f)))
    ensures ReadsAs(sign + i, Signed(sign, DigitsValue(i) as real))
  {
    var d := i + "." + f;
    assert ReadsAs(sign + d, Signed(sign, DigitsValue(i) as real + FracValue(f))) by {
      ParseUnsignedDecimal(i, f);
      assert d[0] == i[0];
      ParseSigned(sign, d);
    }
    assert ReadsAs(sign + i, Signed(sign, DigitsValue(i) as real)) by {
      ParseUnsignedInteger(i);
      ParseSigned(sign, i);
    }
    ConcatAssoc(sign, i, ".");
    ConcatAssoc(sign, i + ".", f);
  }

  /** `Fixed` renders a value that reads back as the rounded value. */
  lemma FixedReadsBack(v: real, p: nat)
    requires p >= 1
    ensures Fixed(v, p) == Sign(v) + IntPart(v, p) + "." + FracPart(v, p)
    ensures ReadsAs(Fixed(v, p), Rounded(v, p))
  {
    PartsValue(v, p);
    ParseSignedDecimal(Sign(v), IntPart(v, p), FracPart(v, p));
  }

  /** `Fixed(v, p)` is a number that a word pattern captures whole. */
  lemma FixedChars(v: real, p: nat)
    requires p >= 1
    ensures |Fixed(v, p)| >= 1 && AllNumChars(Fixed(v, p))
  {
    FixedReadsBack(v, p);
    var f := FracPart(v, p);
    var tail := "." + f;
    forall i | 0 <= i < |tail|
      ensures IsNumChar(tail[i])
    {
      if i > 0 {
        assert tail[i] == f[i - 1];
      }
    }
    NumberChars(Sign(v), IntPart(v, p), tail);
    assert Sign(v) + IntPart(v, p) + "." + f == Sign(v) + IntPart(v, p) + tail;
  }

  /** Trailing zeros after the point do not change the fraction's value. */
  lemma {:induction false} FracValueStripZeros(f: string)
    requires AllDigits(f)
    ensures AllDigits(StripRight(f, '0'))
    ensures FracValue(StripRight(f, '0')) == FracValue(f)
  {
    if f != [] && f[|f| - 1] == '0' {
      var g := f[..|f| - 1];
      assert StripRight(f, '0') == StripRight(g, '0');
      FracValueStripZeros(g);
      assert FracValue(f) == FracValue(g) by {
        assert f == g + ['0'];
        DigitsValueSnoc(g, '0');
        assert DigitsValue(f) == 10 * DigitsValue(g);
        assert Pow10(|f|) == 10 * Pow10(|g|);
        TenthsCancel(DigitsValue(g), Pow10(|g|));
      }
    }
  }

  lemma TenthsCancel(a: nat, b: nat)
    requires b >= 1
    ensures (10 * a) as real / (10 * b) as real == a as real / b as real
  {
  }

  /** The number part of a rewritten axis word: `Fixed(v, 3)` without its
      trailing zeros, and without the point when no decimal is left. */
  function Trimmed(v: real): string
  {
    var f := StripRight(FracPart(v, 3), '0');
    Sign(v) + IntPart(v, 3) + (if f == [] then "" else "." + f)
  }

  /** `"{}{:0.3f}".format(letter, v).rstrip("0").rstrip(".")`, the text every
      rewritten axis word gets. */
  function Word(letter: char, v: real): (w: string)
    requires !IsNumChar(letter)
    ensures w == [letter] + Trimmed(v)
  {
    var raw := [letter] + Fixed(v, 3);
    WordTrims(letter, v);
    StripRight(StripRight(raw, '0'), '.')
  }

  lemma WordTrims(letter: char, v: real)
    requires !IsNumChar(letter)
    ensures StripRight(StripRight([letter] + Fixed(v, 3), '0'), '.') == [letter] + Trimmed(v)
  {
    FixedReadsBack(v, 3);
    WordTrimsParts(letter, Sign(v), IntPart(v, 3), FracPart(v, 3));
  }

  lemma WordTrimsParts(letter: char, sign: string, i: string, f: string)
    requires |i| >= 1 && AllDigits(i) && AllDigits(f)
    ensures var g := StripRight(f, '0');
      StripRight(StripRight([letter] + (sign + i + "." + f), '0'), '.')
        == [letter] + (sign + i + (if g == [] then "" else "." + g))
  {
    var q := [letter] + sign + i;
    ConcatAssoc([letter], sign, i);
    ConcatAssoc([letter], sign + i, ".");
    ConcatAssoc([letter], sign + i + ".", f);
    assert q[|q| - 1] == i[|i| - 1];
    TrimTail(q, f);
  }

  /** Dropping the trailing zeros and then a bare point from `q.f`, where `q`
      ends in a digit. */
  lemma TrimTail(q: string, f: string)
    requires q != [] && IsDigit(q[|q| - 1]) && AllDigits(f)
    ensures var g := StripRight(f, '0');
      StripRight(StripRight(q + "." + f, '0'), '.') == q + (if g == [] then "" else "." + g)
  {
    var g := StripRight(f, '0');
    StripRightAfter(q + ".", f, '0');
    if g == [] {
      PointDropped(q);
    } else {
      PointKept(q, g);
    }
  }

  lemma PointDropped(q: string)
    requires q != [] && IsDigit(q[|q| - 1])
    ensures StripRight((q + ".") + [], '.') == q
  {
    assert (q + ".") + [] == q + ".";
    assert (q + ".")[..|q|] == q;
  }

  lemma PointKept(q: string, g: string)
    requires g != [] && IsDigit(g[|g| - 1])
    ensures StripRight((q + ".") + g, '.') == q + ("." + g)
  {
    var s := (q + ".") + g;
    assert s[|s| - 1] != '.' by {
      assert s[|s| - 1] == g[|g| - 1];
    }
    StripRightNothing(s, '.');
    ConcatAssoc(q, ".", g);
  }

  /** The number part of a rewritten word is non-empty, made of number
      characters only, and reads back as the value rounded to 3 decimals. */
  lemma TrimmedReadsBack(v: real)
    ensures |Trimmed(v)| >= 1 && AllNumChars(Trimmed(v))
    ensures Trimmed(v)[0] != '.'
    ensures ReadsAs(Trimmed(v), Rounded(v, 3))
  {
    PartsValue(v, 3);
    TrimmedParts(Sign(v), IntPart(v, 3), FracPart(v, 3));
  }

  lemma TrimmedParts(sign: string, i: string, f: string)
    requires sign == "" || sign == "-"
    requires |i| >= 1 && AllDigits(i) && AllDigits(f)
    ensures var g := StripRight(f, '0');
      var t := sign + i + (if g == [] then "" else "." + g);
      && |t| >= 1 && AllNumChars(t) && t[0] != '.'
      && ReadsAs(t, Signed(sign, DigitsValue(i) as real + FracValue(f)))
  {
    var g := StripRight(f, '0');
    FracValueStripZeros(f);
    NumberChars(sign, i, if g == [] then "" else "." + g);
    ParseSignedDecimal(sign, i, g);
    if g == [] {
      assert FracValue(f) == 0.0;
      assert sign + i + "" == sign + i;
    } else {
      assert sign + i + ("." + g) == sign + i + "." + g;
    }
  }

  lemma NumberChars(sign: string, i: string, tail: string)
    requires sign == "" || sign == "-"
    requires |i| >= 1 && AllDigits(i) && AllNumChars(tail)
    ensures |sign + i + tail| >= 1 && AllNumChars(sign + i + tail) && (sign + i + tail)[0] != '.'
  {
    var t := sign + i + tail;
    assert t[0] != '.' by {
      if sign == "" { assert t[0] == i[0]; }
    }
    forall k | 0 <= k < |t|
      ensures IsNumChar(t[k])
    {
      if k < |sign| {
        assert t[k] == '-';
      } else if k < |sign| + |i| {
        assert t[k] == i[k - |sign|];
      } else {
        assert t[k] == tail[k - |sign| - |i|];
      }
    }
  }

  /** `str(i)` is a number that a word pattern takes whole and that
      `float()` reads back as `i`. */
  lemma IntDigitsReads(i: int)
    ensures |IntDigits(i)| >= 1 && AllNumChars(IntDigits(i))
    ensures ParseNumber(IntDigits(i)) == Some(i as real)
  {
    var sign := if i < 0 then "-" else "";
    var n: nat := if i < 0 then -i else i;
    var d := NatDigits(n);
    NatDigitsValue(n);
    ParseUnsignedInteger(d);
    ParseSigned(sign, d);
    NumberChars(sign, d, "");
    assert IntDigits(i) == sign + d + "";
  }
}
