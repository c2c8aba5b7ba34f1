/** The Python string operations that the modelled code relies on: decimal
    digits, `in`, `rstrip`, `strip`, `replace`, and the comment-removing
    substitution `re.sub(";.*", "", line)`. */
module Text {

  // ---------------------------------------------------------------- digits

  predicate IsDigit(c: char) { '0' <= c <= '9' }

  predicate AllDigits(s: string) { forall i :: 0 <= i < |s| ==> IsDigit(s[i]) }

  function DigitChar(d: nat): (c: char)
    requires d < 10
    ensures IsDigit(c)
  {
    ('0' as int + d) as char
  }

  function DigitValue(c: char): (d: nat)
    requires IsDigit(c)
    ensures d < 10 && DigitChar(d) == c
  {
    c as int - '0' as int
  }

  function Pow10(p: nat): (r: nat)
    ensures r >= 1
  {
    if p == 0 then 1 else 10 * Pow10(p - 1)
  }

  /** The number that a string of decimal digits denotes (`int(d)`). */
  function DigitsValue(d: string): nat
    requires AllDigits(d)
  {
    if d == [] then 0 else 10 * DigitsValue(d[..|d| - 1]) + DigitValue(d[|d| - 1])
  }

  /** `str(n)` for a natural number. */
  function NatDigits(n: nat): (s: string)
    ensures |s| >= 1 && AllDigits(s)
  {
    if n < 10 then [DigitChar(n)] else NatDigits(n / 10) + [DigitChar(n % 10)]
  }

  /** `str(i)` for an integer. */
  function IntDigits(i: int): string
  {
    if i < 0 then "-" + NatDigits(-i) else NatDigits(i)
  }

  lemma DigitsValueSnoc(d: string, c: char)
    requires AllDigits(d) && IsDigit(c)
    ensures AllDigits(d + [c]) && DigitsValue(d + [c]) == 10 * DigitsValue(d) + DigitValue(c)
  {
    assert (d + [c])[..|d|] == d;
  }

  /** Reading back `str(n)` gives `n`. */
  lemma {:induction false} NatDigitsValue(n: nat)
    ensures DigitsValue(NatDigits(n)) == n
  {
    if n >= 10 {
      NatDigitsValue(n / 10);
      DigitsValueSnoc(NatDigits(n / 10), DigitChar(n % 10));
    }
  }

  /** A number below 10^p takes at most p digits. */
  lemma {:induction false} NatDigitsLength(n: nat, p: nat)
    requires n < Pow10(p) && p >= 1
    ensures |NatDigits(n)| <= p
  {
    if n >= 10 {
      NatDigitsLength(n / 10, p - 1);
    }
  }

  function Repeat(c: char, n: nat): (s: string)
    ensures |s| == n && forall i :: 0 <= i < n ==> s[i] == c
  {
    if n == 0 then [] else [c] + Repeat(c, n - 1)
  }

  /** Left-pads with `0` to at least `width` characters, as `{:0<width>d}` does. */
  function ZeroPad(s: string, width: nat): (r: string)
    ensures |r| == if |s| >= width then |s| else width
    ensures AllDigits(s) ==> AllDigits(r)
  {
    if |s| >= width then s else Repeat('0', width - |s|) + s
  }

  /** Padding ends with the text unchanged and puts only `0` before it. */
  lemma ZeroPadKeeps(s: string, width: nat)
    ensures |s| <= |ZeroPad(s, width)|
    ensures ZeroPad(s, width)[|ZeroPad(s, width)| - |s|..] == s
    ensures forall i :: 0 <= i < |ZeroPad(s, width)| - |s| ==> ZeroPad(s, width)[i] == '0'
  {
    if |s| < width {
      var z := Repeat('0', width - |s|);
      assert ZeroPad(s, width) == z + s;
      assert (z + s)[|z|..] == s;
    }
  }

  /** Leading zeros do not change the value of a digit string. */
  lemma {:induction false} LeadingZeros(z: nat, d: string)
    requires AllDigits(d)
    ensures AllDigits(Repeat('0', z) + d) && DigitsValue(Repeat('0', z) + d) == DigitsValue(d)
  {
    if d != [] {
      var w := Repeat('0', z) + d;
      assert w[..|w| - 1] == Repeat('0', z) + d[..|d| - 1];
      LeadingZeros(z, d[..|d| - 1]);
    } else {
      assert Repeat('0', z) + d == Repeat('0', z);
      AllZeros(z);
    }
  }

  lemma {:induction false} AllZeros(z: nat)
    ensures AllDigits(Repeat('0', z)) && DigitsValue(Repeat('0', z)) == 0
  {
    if z > 0 {
      var w := Repeat('0', z);
      assert w[..z - 1] == Repeat('0', z - 1);
      AllZeros(z - 1);
    }
  }

  lemma ZeroPadValue(s: string, width: nat)
    requires AllDigits(s)
    ensures DigitsValue(ZeroPad(s, width)) == DigitsValue(s)
  {
    if |s| < width { LeadingZeros(width - |s|, s); }
  }

  // --------------------------------------------------------- substrings

  predicate StartsWith(s: string, p: string) { |p| <= |s| && s[..|p|] == p }

  /** Python's `p in s`. */
  predicate Contains(s: string, p: string)
    decreases |s|
  {
    StartsWith(s, p) || (|s| > 0 && Contains(s[1..], p))
  }

  /** An occurrence of `p` at index `i` is what `p in s` looks for. */
  lemma {:induction false} ContainsAt(s: string, p: string, i: nat)
    requires i + |p| <= |s| && s[i..i + |p|] == p
    ensures Contains(s, p)
  {
    if i > 0 {
      assert s[1..][i - 1..i - 1 + |p|] == s[i..i + |p|];
      ContainsAt(s[1..], p, i - 1);
    }
  }

  /** `p in s` is only true at an occurrence of `p`. */
  lemma {:induction false} ContainsWitness(s: string, p: string) returns (i: nat)
    requires Contains(s, p)
    ensures i + |p| <= |s| && s[i..i + |p|] == p
  {
    if StartsWith(s, p) {
      i := 0;
    } else {
      var j := ContainsWitness(s[1..], p);
      assert s[1..][j..j + |p|] == s[j + 1..j + 1 + |p|];
      i := j + 1;
    }
  }

  // ------------------------------------------------------ line segments

  /** The text before the first newline: the only part of a line that the
      pattern `.*` can cross, since `.` does not match a newline. */
  function FirstLine(s: string): (h: string)
    ensures |h| <= |s| && h == s[..|h|] && '\n' !in h
    ensures |h| < |s| ==> s[|h|] == '\n'
    ensures s != [] && s[0] != '\n' ==> |h| >= 1
  {
    if s == [] || s[0] == '\n' then [] else [s[0]] + FirstLine(s[1..])
  }

  lemma FirstLineNoNewline(s: string)
    requires '\n' !in s
    ensures FirstLine(s) == s
  {
  }

  lemma {:induction false} FirstLineAppend(h: string, t: string)
    requires '\n' !in h && (t == [] || t[0] == '\n')
    ensures FirstLine(h + t) == h
  {
    if h != [] {
      assert (h + t)[1..] == h[1..] + t;
      FirstLineAppend(h[1..], t);
    }
  }

  /** `re.sub(";.*", "", s)`: every `;` and the rest of its line segment go. */
  function StripComments(s: string): (r: string)
    ensures |r| <= |s|
  {
    if s == [] then []
    else if s[0] == ';' then StripComments(s[|FirstLine(s)|..])
    else [s[0]] + StripComments(s[1..])
  }

  /** On a line without newline the comment is everything from the first `;`. */
  lemma {:induction false} StripCommentsOneLine(s: string)
    requires '\n' !in s
    ensures ';' !in StripComments(s)
    ensures StripComments(s) <= s
    ensures |StripComments(s)| < |s| ==> s[|StripComments(s)|] == ';'
  {
    if s != [] {
      if s[0] == ';' {
        FirstLineNoNewline(s);
        assert s[|FirstLine(s)|..] == [];
      } else {
        var t := s[1..];
        StripCommentsOneLine(t);
        var r := StripComments(t);
        assert StripComments(s) == [s[0]] + r;
        assert ';' !in [s[0]] + r;
        assert [s[0]] + r <= s by {
          assert s == [s[0]] + t;
        }
      }
    }
  }

  /** No `;` is left before the first newline. */
  lemma {:induction false} StripCommentsFirstLine(s: string)
    ensures ';' !in FirstLine(StripComments(s))
  {
    if s != [] {
      if s[0] == ';' {
        StripCommentsFirstLine(s[|FirstLine(s)|..]);
      } else {
        StripCommentsFirstLine(s[1..]);
      }
    }
  }

  /** A line without `;` has no comment to remove. */
  lemma {:induction false} StripCommentsNone(s: string)
    requires ';' !in s
    ensures StripComments(s) == s
  {
    if s != [] {
      StripCommentsNone(s[1..]);
      assert s == [s[0]] + s[1..];
    }
  }

  /** On a line without newline, a `;` and everything after it go. */
  lemma {:induction false} StripCommentsTail(a: string, b: string)
    requires ';' !in a && '\n' !in b
    ensures StripComments(a + ";" + b) == a
    decreases |a|
  {
    var s := a + ";" + b;
    if a == [] {
      assert s == ";" + b;
      FirstLineNoNewline(s);
      assert s[|FirstLine(s)|..] == [];
    } else {
      assert s[0] == a[0] && s[1..] == a[1..] + ";" + b;
      StripCommentsTail(a[1..], b);
      assert a == [a[0]] + a[1..];
    }
  }

  // ------------------------------------------------ strip, rstrip, replace

  /** `s.rstrip(c)` for a single character `c`. */
  function StripRight(s: string, c: char): (r: string)
    ensures |r| <= |s| && r == s[..|r|]
    ensures r == [] || r[|r| - 1] != c
    ensures forall i :: |r| <= i < |s| ==> s[i] == c
  {
    if s != [] && s[|s| - 1] == c then StripRight(s[..|s| - 1], c) else s
  }

  lemma ConcatAssoc(a: string, b: string, c: string)
    ensures (a + b) + c == a + (b + c)
  {
  }

  lemma ConcatSplit(a: string, b: string)
    ensures (a + b)[..|a|] == a && (a + b)[|a|..] == b
    ensures forall i :: 0 <= i < |b| ==> (a + b)[|a| + i] == b[i]
  {
  }

  /** Nothing to strip when the last character differs. */
  lemma StripRightNothing(s: string, c: char)
    requires s == [] || s[|s| - 1] != c
    ensures StripRight(s, c) == s
  {
  }

  /** Stripping stops at the first character from the right that differs. */
  lemma {:induction false} StripRightAfter(p: string, f: string, c: char)
    requires p != [] && p[|p| - 1] != c
    ensures StripRight(p + f, c) == p + StripRight(f, c)
  {
    if f != [] {
      assert (p + f)[..|p + f| - 1] == p + f[..|f| - 1];
      if f[|f| - 1] == c {
        StripRightAfter(p, f[..|f| - 1], c);
      }
    }
  }

  /** The characters Python's `str.isspace()` accepts, which `strip()` removes. */
  predicate IsSpace(c: char)
  {
    || c == ' ' || c == '\t' || c == '\n' || c == '\r' || c == '\U{0B}' || c == '\U{0C}'
    || '\U{1C}' <= c <= '\U{1F}' || c == '\U{85}' || c == '\U{A0}' || c == '\U{1680}'
    || '\U{2000}' <= c <= '\U{200A}' || c == '\U{2028}' || c == '\U{2029}'
    || c == '\U{202F}' || c == '\U{205F}' || c == '\U{3000}'
  }

  function StripSpaceRight(s: string): (r: string)
    ensures |r| <= |s| && r == s[..|r|]
    ensures r == [] || !IsSpace(r[|r| - 1])
  {
    if s != [] && IsSpace(s[|s| - 1]) then StripSpaceRight(s[..|s| - 1]) else s
  }

  function StripSpaceLeft(s: string): (r: string)
    ensures |r| <= |s| && r == s[|s| - |r|..]
    ensures r == [] || !IsSpace(r[0])
  {
    if s != [] && IsSpace(s[0]) then StripSpaceLeft(s[1..]) else s
  }

  /** `s.strip()`. */
  function Strip(s: string): (r: string)
    ensures |r| <= |s|
    ensures r == [] || (!IsSpace(r[0]) && !IsSpace(r[|r| - 1]))
  {
    StripSpaceLeft(StripSpaceRight(s))
  }

  /** `s.replace(c, "")` for a single character `c`. */
  function RemoveAll(s: string, c: char): (r: string)
    ensures c !in r
    ensures |r| <= |s|
  {
    if s == [] then []
    else if s[0] == c then RemoveAll(s[1..], c)
    else [s[0]] + RemoveAll(s[1..], c)
  }

  /** What `rstrip()` drops is all white space. */
  lemma {:induction false} StripSpaceRightDrops(s: string)
    ensures forall k :: |StripSpaceRight(s)| <= k < |s| ==> IsSpace(s[k])
  {
    if s != [] && IsSpace(s[|s| - 1]) {
      var front := s[..|s| - 1];
      StripSpaceRightDrops(front);
      assert forall k :: 0 <= k < |front| ==> front[k] == s[k];
    }
  }

  /** What `lstrip()` drops is all white space. */
  lemma {:induction false} StripSpaceLeftDrops(s: string)
    ensures forall k :: 0 <= k < |s| - |StripSpaceLeft(s)| ==> IsSpace(s[k])
  {
    if s != [] && IsSpace(s[0]) {
      var rest := s[1..];
      StripSpaceLeftDrops(rest);
      assert forall k :: 1 <= k < |s| ==> rest[k - 1] == s[k];
    }
  }

  /** `strip()` keeps a middle slice of `s` and drops only white space on
      either side of it; with the ends of the result not white space (the
      ensures of `Strip`), this is the longest such slice. */
  lemma StripTrims(s: string)
    ensures exists i :: (
      && 0 <= i <= |s| - |Strip(s)|
      && Strip(s) == s[i..][..|Strip(s)|]
      && (forall k :: 0 <= k < i ==> IsSpace(s[k]))
      && (forall k :: i + |Strip(s)| <= k < |s| ==> IsSpace(s[k])))
  {
    var right := StripSpaceRight(s);
    StripSpaceRightDrops(s);
    StripSpaceLeftDrops(right);
    var i := |right| - |Strip(s)|;
    assert Strip(s) == right[i..];
    assert right[i..] == s[i..][..|Strip(s)|];
    assert forall k :: 0 <= k < i ==> right[k] == s[k];
  }

  /** `replace` works piece by piece: it keeps the order of what it keeps. */
  lemma {:induction false} RemoveAllConcat(a: string, b: string, c: char)
    ensures RemoveAll(a + b, c) == RemoveAll(a, c) + RemoveAll(b, c)
  {
    if a == [] {
      assert a + b == b;
    } else {
      assert (a + b)[0] == a[0] && (a + b)[1..] == a[1..] + b;
      RemoveAllConcat(a[1..], b, c);
    }
  }

  /** A string without `c` comes back unchanged. */
  lemma {:induction false} RemoveAllKeeps(s: string, c: char)
    requires c !in s
    ensures RemoveAll(s, c) == s
  {
    if s != [] {
      assert s[1..] == s[1..] && c !in s[1..];
      RemoveAllKeeps(s[1..], c);
    }
  }

  /** Every character other than `c` is kept as many times as it occurs. */
  lemma {:induction false} RemoveAllCount(s: string, c: char)
    ensures multiset(RemoveAll(s, c)) == multiset(s)[c := 0]
  {
    if s != [] {
      RemoveAllCount(s[1..], c);
      assert s == [s[0]] + s[1..];
      RemoveCountStep(s[0], s[1..], RemoveAll(s[1..], c), c);
    }
  }

  /** One character in front of a string and of what is left of it. */
  lemma RemoveCountStep(x: char, rest: string, r: string, c: char)
    requires multiset(r) == multiset(rest)[c := 0]
    ensures multiset(if x == c then r else [x] + r) == multiset([x] + rest)[c := 0]
  {
    var m := multiset(rest);
    assert multiset([x] + rest) == multiset{x} + m;
    if x == c {
      assert (multiset{c} + m)[c := 0] == m[c := 0];
    } else {
      assert multiset([x] + r) == multiset{x} + m[c := 0];
      assert (multiset{x} + m)[c := 0] == multiset{x} + m[c := 0];
    }
  }
}
