/** Axis words in a line of G-code, as the G-code tools find and rewrite them
    with two regular expressions per letter `L`:

    - `re.match(".*L([-.\d]+)", line)` captures the number of the LAST word
      `L<number>` before the first newline (`.` stops at a newline and `.*`
      is greedy), and
    - `re.sub("L[-.\d]+", rep, line)` replaces EVERY word `L<number>` of the
      whole text, left to right, each number taken as long as possible.

    Both are modelled on one left-to-right scan, `Words` and `Sub`. */
module AxisWords {
  import opened Text
  import opened Numbers
  import opened Outcomes

  /** The axis and parameter letters (`X`, `Y`, `Z`, `I`, `J`, `K`, `R`, ...). */
  predicate AxisLetter(c: char) { 'A' <= c <= 'Z' }

  /** Length of the leading run of `[-.\d]`, as long as possible. */
  function NumRun(s: string): (k: nat)
    ensures k <= |s| && AllNumChars(s[..k])
    ensures k < |s| ==> !IsNumChar(s[k])
  {
    if s != [] && IsNumChar(s[0]) then
      var k := 1 + NumRun(s[1..]);
      assert s[..k] == [s[0]] + s[1..][..k - 1];
      k
    else 0
  }

  /** A word `L<number>` starts at the head of `s`. */
  predicate WordAtHead(s: string, L: char)
  {
    s != [] && s[0] == L && NumRun(s[1..]) >= 1
  }

  /** The numbers of the words `L<number>` of `s`, left to right. */
  function Words(s: string, L: char): (w: seq<string>)
    ensures forall i :: 0 <= i < |w| ==> |w[i]| >= 1 && AllNumChars(w[i])
    decreases |s|
  {
    if s == [] then []
    else if WordAtHead(s, L) then
      var k := NumRun(s[1..]);
      assert s[1..][..k] == s[1..1 + k];
      [s[1..1 + k]] + Words(s[1 + k..], L)
    else Words(s[1..], L)
  }

  /** `re.sub("L[-.\d]+", r, s)`: every word `L<number>` becomes `r`. */
  function Sub(s: string, L: char, r: string): string
    decreases |s|
  {
    if s == [] then []
    else if WordAtHead(s, L) then r + Sub(s[1 + NumRun(s[1..])..], L, r)
    else [s[0]] + Sub(s[1..], L, r)
  }

  /** The group captured by `re.match(".*L([-.\d]+)", s)`, if it matches. */
  function Capture(s: string, L: char): (g: Option<string>)
    ensures g.Some? ==> |g.value| >= 1 && AllNumChars(g.value)
  {
    var w := Words(FirstLine(s), L);
    if w == [] then None else Some(w[|w| - 1])
  }

  /** What a tool reads for letter `L`: no word, the number, or text that
      `float()` refuses with `ValueError` (such as `-` or `1.2.3`). */
  datatype Reading = Absent | Value(v: real) | Malformed
  {
    /** The pattern matched, whatever `float()` makes of the number. */
    predicate Present() { !Absent? }
  }

  function Read(s: string, L: char): (r: Reading)
    ensures r.Absent? <==> Capture(s, L).None?
    ensures r.Value? ==> ReadsAs(Capture(s, L).value, r.v)
  {
    match Capture(s, L)
    case None => Absent
    case Some(g) => if ParseNumber(g).Some? then Value(ParseNumber(g).value) else Malformed
  }

  /** Replaces every word `L<number>` by `L` and `v` rendered to at most 3
      decimals, the rewrite that every tool applies to a word it changes. */
  function Rewrite(s: string, L: char, v: real): string
    requires AxisLetter(L)
  {
    Sub(s, L, Word(L, v))
  }

  // ---------------------------------------------------------------- scanning

  lemma {:induction false} NumRunPrefix(t: string, x: string)
    requires AllNumChars(t) && (x == [] || !IsNumChar(x[0]))
    ensures NumRun(t + x) == |t|
  {
    if t != [] {
      assert (t + x)[1..] == t[1..] + x;
      NumRunPrefix(t[1..], x);
    }
  }

  /** A word splits the text into its letter, its number and the rest, which
      does not start with a number character. */
  lemma WordSplit(s: string, L: char)
    requires WordAtHead(s, L)
    ensures var k := NumRun(s[1..]);
      && s == [L] + s[1..1 + k] + s[1 + k..]
      && (s[1 + k..] == [] || !IsNumChar(s[1 + k..][0]))
  {
    var k := NumRun(s[1..]);
    assert s[1..][..k] == s[1..1 + k];
  }

  /** The text `M<run>x`, where `x` does not go on with the number, starts
      with the word `M<run>` and resumes with `x`. */
  lemma WordHead(M: char, run: string, x: string)
    requires |run| >= 1 && AllNumChars(run) && (x == [] || !IsNumChar(x[0]))
    ensures var w := [M] + run + x;
      && WordAtHead(w, M) && NumRun(w[1..]) == |run|
      && w[1..1 + |run|] == run && w[1 + |run|..] == x
  {
    var w := [M] + run + x;
    ConcatAssoc([M], run, x);
    ConcatSplit([M], run + x);
    NumRunPrefix(run, x);
    ConcatSplit(run, x);
    assert w[1..1 + |run|] == (run + x)[..|run|];
    assert w[1 + |run|..] == (run + x)[|run|..];
  }

  /** Number characters are never taken for a letter `M`. */
  lemma {:induction false} WordsSkipRun(t: string, x: string, M: char)
    requires AllNumChars(t) && AxisLetter(M)
    ensures Words(t + x, M) == Words(x, M)
  {
    if t != [] {
      assert IsNumChar(t[0]) && (t + x)[0] == t[0];
      assert (t + x)[1..] == t[1..] + x;
      assert !WordAtHead(t + x, M);
      WordsSkipRun(t[1..], x, M);
    } else {
      assert t + x == x;
    }
  }

  /** Number characters are kept as they are by a substitution. */
  lemma {:induction false} SubSkipRun(t: string, x: string, L: char, r: string)
    requires AllNumChars(t) && AxisLetter(L)
    ensures Sub(t + x, L, r) == t + Sub(x, L, r)
  {
    if t != [] {
      var c, u := t[0], t[1..];
      assert t == [c] + u;
      ConcatAssoc([c], u, x);
      ConcatSplit([c], u + x);
      assert !WordAtHead(t + x, L) by { assert IsNumChar(c) && (t + x)[0] == c; }
      assert Sub(t + x, L, r) == [c] + Sub(u + x, L, r);
      SubSkipRun(u, x, L, r);
      ConcatAssoc([c], u, Sub(x, L, r));
    } else {
      assert t + x == x;
    }
  }

  /** A text that does not start with a number character keeps a head that
      is not one when the replacement does not start with one. */
  lemma SubHead(y: string, L: char, r: string)
    requires r != [] && !IsNumChar(r[0])
    requires y != [] && !IsNumChar(y[0])
    ensures Sub(y, L, r) != [] && !IsNumChar(Sub(y, L, r)[0])
  {
  }

  /** A word's number ends where a substituted text resumes. */
  lemma SubAfterRun(t: string, x: string, L: char, r: string)
    requires AllNumChars(t) && AxisLetter(L) && (x == [] || !IsNumChar(x[0]))
    requires r != [] && !IsNumChar(r[0])
    ensures Sub(t + x, L, r) == t + Sub(x, L, r)
    ensures NumRun(Sub(t + x, L, r)) == |t|
  {
    SubSkipRun(t, x, L, r);
    if x != [] {
      SubHead(x, L, r);
    }
    NumRunPrefix(t, Sub(x, L, r));
  }

  // ---------------------------------------------- rewriting one letter's words

  /** Rewriting the words of `L` leaves the words of every other letter as
      they were. */
  lemma {:induction false} SubOtherWords(s: string, L: char, t: string, M: char)
    requires AxisLetter(L) && AxisLetter(M) && L != M
    requires |t| >= 1 && AllNumChars(t)
    ensures Words(Sub(s, L, [L] + t), M) == Words(s, M)
    decreases |s|
  {
    if s == [] {
    } else if WordAtHead(s, L) {
      SubOtherWords(s[1 + NumRun(s[1..])..], L, t, M);
      OtherAtReplaced(s, L, t, M);
    } else if s[0] == M && NumRun(s[1..]) >= 1 {
      SubOtherWords(s[1 + NumRun(s[1..])..], L, t, M);
      OtherAtKept(s, L, t, M);
    } else {
      SubOtherWords(s[1..], L, t, M);
      OtherAtChar(s, L, t, M);
    }
  }

  /** The step of `SubOtherWords` at a word of `L`. */
  lemma OtherAtReplaced(s: string, L: char, t: string, M: char)
    requires AxisLetter(L) && AxisLetter(M) && L != M
    requires |t| >= 1 && AllNumChars(t)
    requires WordAtHead(s, L)
    requires var rest := s[1 + NumRun(s[1..])..];
      Words(Sub(rest, L, [L] + t), M) == Words(rest, M)
    ensures Words(Sub(s, L, [L] + t), M) == Words(s, M)
  {
    OtherSkipWord(s, L, M);
    OtherSkipReplaced(s, L, t, M);
  }

  /** The words of `M` after a word of another letter `L` at the head. */
  lemma OtherSkipWord(s: string, L: char, M: char)
    requires AxisLetter(M) && L != M && WordAtHead(s, L)
    ensures Words(s, M) == Words(s[1 + NumRun(s[1..])..], M)
  {
    var k := NumRun(s[1..]);
    var run, rest := s[1..1 + k], s[1 + k..];
    WordSplit(s, L);
    assert s[1..][..k] == run;
    assert s[1..] == run + rest;
    WordsSkipRun(run, rest, M);
  }

  /** The same, once the head word is rewritten to `L<t>`. */
  lemma OtherSkipReplaced(s: string, L: char, t: string, M: char)
    requires AxisLetter(L) && AxisLetter(M) && L != M
    requires |t| >= 1 && AllNumChars(t) && WordAtHead(s, L)
    ensures Words(Sub(s, L, [L] + t), M) == Words(Sub(s[1 + NumRun(s[1..])..], L, [L] + t), M)
  {
    var u := Sub(s[1 + NumRun(s[1..])..], L, [L] + t);
    assert Sub(s, L, [L] + t) == [L] + t + u;
    WordsAfterOther(L, t, u, M);
  }

  /** A word of another letter hides no word of `M`. */
  lemma WordsAfterOther(L: char, t: string, u: string, M: char)
    requires AxisLetter(M) && L != M && AllNumChars(t)
    ensures Words([L] + t + u, M) == Words(u, M)
  {
    var x := [L] + t + u;
    assert x != [] && x[0] == L && x[1..] == t + u;
    WordsSkipRun(t, u, M);
  }

  /** The step of `SubOtherWords` at a word of `M`. */
  lemma OtherAtKept(s: string, L: char, t: string, M: char)
    requires AxisLetter(L) && AxisLetter(M) && L != M
    requires |t| >= 1 && AllNumChars(t)
    requires s != [] && s[0] == M && NumRun(s[1..]) >= 1
    requires var rest := s[1 + NumRun(s[1..])..];
      Words(Sub(rest, L, [L] + t), M) == Words(rest, M)
    ensures Words(Sub(s, L, [L] + t), M) == Words(s, M)
  {
    var r := [L] + t;
    var k := NumRun(s[1..]);
    var run, rest := s[1..1 + k], s[1 + k..];
    var v := Sub(rest, L, r);
    assert r != [] && !IsNumChar(r[0]) by {
      assert r[0] == L;
    }
    assert s == [M] + run + rest && (rest == [] || !IsNumChar(rest[0])) by {
      WordSplit(s, M);
    }
    assert |run| >= 1 && AllNumChars(run) by {
      assert s[1..][..k] == run;
    }
    assert Sub(s, L, r) == [M] + run + v by {
      ConcatAssoc([M], run, rest);
      ConcatSplit([M], run + rest);
      SubAfterRun(run, rest, L, r);
      ConcatAssoc([M], run, v);
    }
    assert Words(s, M) == [run] + Words(rest, M) by {
      WordHead(M, run, rest);
    }
    assert Words([M] + run + v, M) == [run] + Words(v, M) by {
      if rest != [] {
        SubHead(rest, L, r);
      }
      WordHead(M, run, v);
    }
  }

  /** The step of `SubOtherWords` at any other character. */
  lemma OtherAtChar(s: string, L: char, t: string, M: char)
    requires AxisLetter(L) && AxisLetter(M) && L != M
    requires |t| >= 1 && AllNumChars(t)
    requires s != [] && !WordAtHead(s, L) && !(s[0] == M && NumRun(s[1..]) >= 1)
    requires Words(Sub(s[1..], L, [L] + t), M) == Words(s[1..], M)
    ensures Words(Sub(s, L, [L] + t), M) == Words(s, M)
  {
    var r := [L] + t;
    var u := Sub(s, L, r);
    assert u == [s[0]] + Sub(s[1..], L, r);
    assert u[1..] == Sub(s[1..], L, r);
    if s[0] == M {
      assert s[1..] == [] + s[1..];
      SubAfterRun([], s[1..], L, r);
    }
  }

  /** After rewriting, every word of `L` carries the new number `t`, and
      there are as many words as before. */
  lemma {:induction false} SubSameWords(s: string, L: char, t: string)
    requires AxisLetter(L) && |t| >= 1 && AllNumChars(t)
    ensures |Words(Sub(s, L, [L] + t), L)| == |Words(s, L)|
    ensures forall i :: 0 <= i < |Words(Sub(s, L, [L] + t), L)| ==> Words(Sub(s, L, [L] + t), L)[i] == t
    decreases |s|, 1
  {
    if s == [] {
    } else if WordAtHead(s, L) {
      SubSameWordsHead(s, L, t);
    } else {
      SubSameWordsSkip(s, L, t);
    }
  }

  /** `SubSameWords` when `s` starts with a word. */
  lemma {:induction false} SubSameWordsHead(s: string, L: char, t: string)
    requires AxisLetter(L) && |t| >= 1 && AllNumChars(t) && WordAtHead(s, L)
    ensures |Words(Sub(s, L, [L] + t), L)| == |Words(s, L)|
    ensures forall i :: 0 <= i < |Words(Sub(s, L, [L] + t), L)| ==> Words(Sub(s, L, [L] + t), L)[i] == t
    decreases |s|, 0
  {
    var r := [L] + t;
    var rest := s[1 + NumRun(s[1..])..];
    var u := Sub(rest, L, r);
    assert Sub(s, L, r) == [L] + t + u;
    assert Words(Sub(s, L, r), L) == [t] + Words(u, L) by {
      WordSplit(s, L);
      WordsOfSubHead(L, t, rest);
    }
    WordsAtHead(s, L);
    SubSameWords(rest, L, t);
    var w := Words(u, L);
    forall i | 0 <= i < |[t] + w|
      ensures ([t] + w)[i] == t
    {
      if i > 0 {
        assert ([t] + w)[i] == w[i - 1];
      }
    }
  }

  /** A word `L<t>` put in front of a rewritten text is its first word. */
  lemma WordsOfSubHead(L: char, t: string, rest: string)
    requires AxisLetter(L) && |t| >= 1 && AllNumChars(t) && (rest == [] || !IsNumChar(rest[0]))
    ensures Words([L] + t + Sub(rest, L, [L] + t), L) == [t] + Words(Sub(rest, L, [L] + t), L)
  {
    var r := [L] + t;
    var u := Sub(rest, L, r);
    if rest != [] {
      assert r[0] == L;
      SubHead(rest, L, r);
    }
    WordHead(L, t, u);
  }

  /** `SubSameWords` when `s` does not start with a word. */
  lemma {:induction false} SubSameWordsSkip(s: string, L: char, t: string)
    requires AxisLetter(L) && |t| >= 1 && AllNumChars(t) && s != [] && !WordAtHead(s, L)
    ensures |Words(Sub(s, L, [L] + t), L)| == |Words(s, L)|
    ensures forall i :: 0 <= i < |Words(Sub(s, L, [L] + t), L)| ==> Words(Sub(s, L, [L] + t), L)[i] == t
    decreases |s|, 0
  {
    var r := [L] + t;
    var u := Sub(s[1..], L, r);
    assert Sub(s, L, r) == [s[0]] + u;
    ConcatSplit([s[0]], u);
    if s[0] == L && s[1..] != [] {
      SubHead(s[1..], L, r);
    }
    assert !WordAtHead([s[0]] + u, L);
    SubSameWords(s[1..], L, t);
  }


  /** A substitution whose replacement has no newline happens line by line. */
  lemma {:induction false} FirstLineSub(s: string, L: char, r: string)
    requires AxisLetter(L) && r != [] && !IsNumChar(r[0]) && '\n' !in r
    ensures FirstLine(Sub(s, L, r)) == Sub(FirstLine(s), L, r)
    decreases |s|
  {
    if s == [] {
    } else if WordAtHead(s, L) {
      var rest := s[1 + NumRun(s[1..])..];
      FirstLineSub(rest, L, r);
      FirstLineSubHead(s, L, r);
    } else if s[0] == '\n' {
    } else {
      FirstLineSub(s[1..], L, r);
      FirstLineSubSkip(s, L, r);
    }
  }

  /** `FirstLineSub` past a leading word, given it for the text after it. */
  lemma FirstLineSubHead(s: string, L: char, r: string)
    requires AxisLetter(L) && r != [] && !IsNumChar(r[0]) && '\n' !in r && WordAtHead(s, L)
    requires var rest := s[1 + NumRun(s[1..])..];
      FirstLine(Sub(rest, L, r)) == Sub(FirstLine(rest), L, r)
    ensures FirstLine(Sub(s, L, r)) == Sub(FirstLine(s), L, r)
  {
    var k := NumRun(s[1..]);
    var run, rest := s[1..1 + k], s[1 + k..];
    WordSplit(s, L);
    assert s[1..][..k] == run;
    NoNewline([L] + run);
    FirstLineConcat([L] + run, rest);
    FirstLineConcat(r, Sub(rest, L, r));
    var h := FirstLine(rest);
    assert h == [] || !IsNumChar(h[0]);
    WordHead(L, run, h);
  }

  /** `FirstLineSub` past a leading character that starts no word and is no
      newline, given it for the text after it. */
  lemma FirstLineSubSkip(s: string, L: char, r: string)
    requires AxisLetter(L) && s != [] && !WordAtHead(s, L) && s[0] != '\n'
    requires FirstLine(Sub(s[1..], L, r)) == Sub(FirstLine(s[1..]), L, r)
    ensures FirstLine(Sub(s, L, r)) == Sub(FirstLine(s), L, r)
  {
    var c, h := s[0], FirstLine(s[1..]);
    assert FirstLine(s) == [c] + h;
    assert h != [] ==> h[0] == s[1..][0];
    ConcatSplit([c], h);
    assert !WordAtHead([c] + h, L);
    assert Sub([c] + h, L, r) == [c] + Sub(h, L, r);
  }

  /** The first line of `a + b` when `a` holds no newline. */
  lemma {:induction false} FirstLineConcat(a: string, b: string)
    requires '\n' !in a
    ensures FirstLine(a + b) == a + FirstLine(b)
  {
    if a != [] {
      assert a[0] in a;
      assert forall c :: c in a[1..] ==> c in a;
      assert (a + b)[1..] == a[1..] + b;
      FirstLineConcat(a[1..], b);
      assert (a + b)[0] == a[0];
      assert FirstLine(a + b) == [a[0]] + FirstLine(a[1..] + b);
      assert a == [a[0]] + a[1..];
    } else {
      assert a + b == b && a + FirstLine(b) == FirstLine(b);
    }
  }

  // ------------------------------------------------------- what a tool reads

  /** After `Rewrite(s, L, v)` a tool reads `v` rounded to 3 decimals for
      `L`, as long as it read a word of `L` before. */
  lemma RewriteReadsBack(s: string, L: char, v: real)
    requires AxisLetter(L) && Capture(s, L).Some?
    ensures Capture(Rewrite(s, L, v), L) == Some(Trimmed(v))
    ensures Read(Rewrite(s, L, v), L) == Value(Rounded(v, 3))
  {
    var t := Trimmed(v);
    TrimmedReadsBack(v);
    NoNewline([L] + t);
    FirstLineSub(s, L, [L] + t);
    SubSameWords(FirstLine(s), L, t);
  }

  /** Rewriting the words of `L` does not change what is read for any
      other letter. */
  lemma RewriteKeepsOthers(s: string, L: char, v: real, M: char)
    requires AxisLetter(L) && AxisLetter(M) && L != M
    ensures Capture(Rewrite(s, L, v), M) == Capture(s, M)
    ensures Read(Rewrite(s, L, v), M) == Read(s, M)
  {
    var t := Trimmed(v);
    var r := [L] + t;
    assert Rewrite(s, L, v) == Sub(s, L, r);
    assert |t| >= 1 && AllNumChars(t) by {
      TrimmedReadsBack(v);
    }
    assert r != [] && !IsNumChar(r[0]) && '\n' !in r by {
      assert r[0] == L && r[1..] == t;
      NoNewline(r);
    }
    assert Words(FirstLine(Sub(s, L, r)), M) == Words(FirstLine(s), M) by {
      FirstLineSub(s, L, r);
      SubOtherWords(FirstLine(s), L, t, M);
    }
  }

  /** Rewriting the words of `L` keeps the text of every word of any
      other letter, on every line. */
  lemma RewriteKeepsWords(s: string, L: char, v: real, M: char)
    requires AxisLetter(L) && AxisLetter(M) && L != M
    ensures Words(Rewrite(s, L, v), M) == Words(s, M)
  {
    TrimmedReadsBack(v);
    SubOtherWords(s, L, Trimmed(v), M);
  }

  lemma NoNewline(w: string)
    requires w != [] && AxisLetter(w[0]) && AllNumChars(w[1..])
    ensures w[0] != '\n' && '\n' !in w
  {
    forall i | 1 <= i < |w|
      ensures w[i] != '\n'
    {
      assert w[i] == w[1..][i - 1];
    }
  }

  /** A text without any word of `L` is left as it is. */
  lemma {:induction false} SubNoWords(s: string, L: char, r: string)
    requires Words(s, L) == []
    ensures Sub(s, L, r) == s
    decreases |s|
  {
    if s != [] {
      SubNoWords(s[1..], L, r);
    }
  }

  // ------------------------------------------------- other text is kept

  /** Text made of characters that no rewritten word holds (lower-case
      letters, `_`, `;`, blanks, ...). */
  predicate Foreign(p: string)
  {
    forall i :: 0 <= i < |p| ==> !AxisLetter(p[i]) && !IsNumChar(p[i])
  }

  /** Characters that a rewritten word is made of. */
  predicate WordChars(a: string)
  {
    forall i :: 0 <= i < |a| ==> AxisLetter(a[i]) || IsNumChar(a[i])
  }

  lemma {:induction false} SubPrefix(x: string, L: char, t: string, p: string)
    requires AxisLetter(L) && Foreign(p) && StartsWith(Sub(x, L, [L] + t), p)
    ensures StartsWith(x, p)
    decreases |x|
  {
    assert WordAtHead(x, L) ==> Sub(x, L, [L] + t)[0] == L;
    assert p != [] ==> !AxisLetter(p[0]);
    assert p == [] ==> x[..0] == p;
    if p != [] && x != [] && !WordAtHead(x, L) {
      var u := Sub(x[1..], L, [L] + t);
      assert Sub(x, L, [L] + t) == [x[0]] + u;
      assert u[..|p| - 1] == p[1..];
      SubPrefix(x[1..], L, t, p[1..]);
      assert x[..|p|] == [x[0]] + x[1..][..|p| - 1];
    }
  }

  lemma {:induction false} ContainsAfterWordChars(a: string, y: string, p: string)
    requires WordChars(a) && Foreign(p) && p != [] && Contains(a + y, p)
    ensures Contains(y, p)
    decreases |a|
  {
    if a != [] {
      assert (a + y)[0] == a[0];
      assert (a + y)[1..] == a[1..] + y;
      ContainsAfterWordChars(a[1..], y, p);
    } else {
      assert a + y == y;
    }
  }

  lemma ContainsSuffix(s: string, k: nat, p: string)
    requires k <= |s| && Contains(s[k..], p)
    ensures Contains(s, p)
  {
    var i := ContainsWitness(s[k..], p);
    assert s[k + i..k + i + |p|] == s[k..][i..i + |p|];
    ContainsAt(s, p, k + i);
  }

  /** A rewrite never makes up foreign text such as `_zclear`: what the
      result holds of it, the input held already. */
  lemma {:induction false} SubContains(s: string, L: char, t: string, p: string)
    requires AxisLetter(L) && AllNumChars(t) && Foreign(p) && p != []
    requires Contains(Sub(s, L, [L] + t), p)
    ensures Contains(s, p)
    decreases |s|
  {
    var r := [L] + t;
    if StartsWith(Sub(s, L, r), p) {
      SubPrefix(s, L, t, p);
    } else if WordAtHead(s, L) {
      var k := NumRun(s[1..]);
      var u := Sub(s[1 + k..], L, r);
      assert Sub(s, L, r) == r + u;
      assert WordChars(r) by {
        forall i | 0 <= i < |r|
          ensures AxisLetter(r[i]) || IsNumChar(r[i])
        {
          if i > 0 { assert r[i] == t[i - 1]; }
        }
      }
      ContainsAfterWordChars(r, u, p);
      SubContains(s[1 + k..], L, t, p);
      ContainsSuffix(s, 1 + k, p);
    } else {
      assert Sub(s, L, r)[1..] == Sub(s[1..], L, r);
      SubContains(s[1..], L, t, p);
      ContainsSuffix(s, 1, p);
    }
  }

  /** The marker `_zclear` holds no letter and no number character. */
  lemma MarkerForeign()
    ensures Foreign("_zclear")
  {
  }

  /** `Rewrite` never makes up a `_zclear` marker. */
  lemma RewriteKeepsMarker(s: string, L: char, v: real)
    requires AxisLetter(L)
    ensures Contains(Rewrite(s, L, v), "_zclear") ==> Contains(s, "_zclear")
  {
    var t := Trimmed(v);
    assert Rewrite(s, L, v) == Sub(s, L, [L] + t);
    assert AllNumChars(t) by { TrimmedReadsBack(v); }
    MarkerForeign();
    if Contains(Sub(s, L, [L] + t), "_zclear") {
      SubContains(s, L, t, "_zclear");
    }
  }

  // ------------------------------------- the regular expression's own reading

  /** A word `L<number>` starts at index `i` of `x`. */
  predicate WordAt(x: string, L: char, i: int)
  {
    0 <= i < |x| && WordAtHead(x[i..], L)
  }

  /** The number of the word that starts at index `i`, as long as possible. */
  function NumberAt(x: string, i: nat): string
    requires i < |x|
  {
    x[i + 1..i + 1 + NumRun(x[i + 1..])]
  }

  /** `.*L([-.\d]+)` matches at the LAST index where a word starts, because
      `.*` takes as much as it can. */
  predicate IsLastWord(x: string, L: char, i: int)
  {
    WordAt(x, L, i) && forall j :: i < j < |x| ==> !WordAt(x, L, j)
  }

  lemma ShiftAt(x: string, d: nat, j: nat)
    requires d <= j < |x|
    ensures x[j..] == x[d..][j - d..]
    ensures x[j + 1..] == x[d..][j - d + 1..]
  {
  }

  /** `Words` finds nothing exactly when no word starts anywhere. */
  lemma {:induction false} NoWords(x: string, L: char)
    requires AxisLetter(L)
    ensures Words(x, L) == [] <==> forall i :: 0 <= i < |x| ==> !WordAt(x, L, i)
    decreases |x|
  {
    if x == [] {
    } else if WordAtHead(x, L) {
      assert x[0..] == x;
      assert WordAt(x, L, 0);
    } else {
      NoWords(x[1..], L);
      assert x[0..] == x;
      forall j | 1 <= j < |x|
        ensures WordAt(x, L, j) <==> WordAt(x[1..], L, j - 1)
      {
        ShiftAt(x, 1, j);
      }
      if Words(x[1..], L) != [] {
        var i :| 0 <= i < |x[1..]| && WordAt(x[1..], L, i);
        assert WordAt(x, L, i + 1);
      }
    }
  }

  /** Inside the number of a word no other word starts. */
  lemma InsideNumber(x: string, L: char, j: nat)
    requires AxisLetter(L) && WordAtHead(x, L) && 1 <= j <= NumRun(x[1..])
    ensures !WordAt(x, L, j)
  {
    var k := NumRun(x[1..]);
    assert x[1..][..k][j - 1] == x[j];
    assert x[j..][0] == x[j];
  }

  /** The last number `Words` collects is the number of the word at `i`. */
  predicate LastNumberAt(x: string, L: char, i: int)
  {
    0 <= i < |x| && Words(x, L) != [] && Words(x, L)[|Words(x, L)| - 1] == NumberAt(x, i)
  }

  /** The last number `Words` collects is the number of the last word. */
  lemma {:induction false} LastWord(x: string, L: char) returns (i: nat)
    requires AxisLetter(L) && Words(x, L) != []
    ensures IsLastWord(x, L, i) && LastNumberAt(x, L, i)
    decreases |x|, 1
  {
    if WordAtHead(x, L) {
      i := LastWordFromHead(x, L);
    } else {
      assert x != [] && Words(x, L) == Words(x[1..], L);
      var i' := LastWord(x[1..], L);
      i := i' + 1;
      LastAfterSkip(x, L, i');
    }
  }

  /** `LastWord` when `x` starts with a word. */
  lemma {:induction false} LastWordFromHead(x: string, L: char) returns (i: nat)
    requires AxisLetter(L) && WordAtHead(x, L)
    ensures IsLastWord(x, L, i) && LastNumberAt(x, L, i)
    decreases |x|, 0
  {
    var k := NumRun(x[1..]);
    if Words(x[1 + k..], L) == [] {
      i := 0;
      LastIsHead(x, L);
    } else {
      var i' := LastWord(x[1 + k..], L);
      i := i' + (1 + k);
      LastAfterHead(x, L, k, i');
    }
  }

  /** A word with no word after it is the last word. */
  lemma LastIsHead(x: string, L: char)
    requires AxisLetter(L) && WordAtHead(x, L) && Words(x[1 + NumRun(x[1..])..], L) == []
    ensures IsLastWord(x, L, 0) && LastNumberAt(x, L, 0)
  {
    var k := NumRun(x[1..]);
    assert Words(x, L) == [x[1..1 + k]];
    NoWords(x[1 + k..], L);
    OnlyWord(x, L);
  }

  /** The last word after a leading word is the last word. */
  lemma LastAfterHead(x: string, L: char, k: nat, i': nat)
    requires AxisLetter(L) && WordAtHead(x, L) && k == NumRun(x[1..])
    requires IsLastWord(x[1 + k..], L, i') && LastNumberAt(x[1 + k..], L, i')
    ensures IsLastWord(x, L, i' + (1 + k)) && LastNumberAt(x, L, i' + (1 + k))
  {
    ShiftLast(x, L, 1 + k, i');
    LastNumberAfterHead(x, L, k, i');
  }

  /** The last number after a leading word is the last number. */
  lemma LastNumberAfterHead(x: string, L: char, k: nat, i': nat)
    requires AxisLetter(L) && WordAtHead(x, L) && k == NumRun(x[1..])
    requires LastNumberAt(x[1 + k..], L, i')
    requires i' + (1 + k) < |x| && NumberAt(x, i' + (1 + k)) == NumberAt(x[1 + k..], i')
    ensures LastNumberAt(x, L, i' + (1 + k))
  {
    WordsAtHead(x, L);
    var w, wr := Words(x, L), Words(x[1 + k..], L);
    LastOfConcat([x[1..1 + k]], wr);
    assert w[|w| - 1] == wr[|wr| - 1];
  }

  /** A leading word contributes its number first. */
  lemma WordsAtHead(x: string, L: char)
    requires WordAtHead(x, L)
    ensures Words(x, L) == [x[1..1 + NumRun(x[1..])]] + Words(x[1 + NumRun(x[1..])..], L)
  {
  }

  /** Past a character that starts no word, the last word stays the last. */
  lemma LastAfterSkip(x: string, L: char, i': nat)
    requires AxisLetter(L) && x != [] && !WordAtHead(x, L)
    requires IsLastWord(x[1..], L, i') && LastNumberAt(x[1..], L, i')
    ensures IsLastWord(x, L, i' + 1) && LastNumberAt(x, L, i' + 1)
  {
    assert Words(x, L) == Words(x[1..], L);
    ShiftLast(x, L, 1, i');
  }

  lemma LastOfConcat(a: seq<string>, b: seq<string>)
    requires b != []
    ensures (a + b)[|a + b| - 1] == b[|b| - 1]
  {
  }

  /** A word with no word after its number is the last word. */
  lemma OnlyWord(x: string, L: char)
    requires AxisLetter(L) && WordAtHead(x, L)
    requires var rest := x[1 + NumRun(x[1..])..];
      forall i :: 0 <= i < |rest| ==> !WordAt(rest, L, i)
    ensures IsLastWord(x, L, 0) && NumberAt(x, 0) == x[1..1 + NumRun(x[1..])]
  {
    var k := NumRun(x[1..]);
    var rest := x[1 + k..];
    assert x[0..] == x;
    forall j | 1 <= j < |x|
      ensures !WordAt(x, L, j)
    {
      if j <= k {
        InsideNumber(x, L, j);
      } else {
        ShiftAt(x, 1 + k, j);
        assert !WordAt(rest, L, j - 1 - k);
      }
    }
  }

  /** The last word of a suffix `x[d..]` is the last word of `x`. */
  lemma ShiftLast(x: string, L: char, d: nat, i': nat)
    requires 1 <= d <= |x| && i' < |x| - d && IsLastWord(x[d..], L, i')
    ensures IsLastWord(x, L, i' + d) && NumberAt(x, i' + d) == NumberAt(x[d..], i')
  {
    ShiftAt(x, d, i' + d);
    forall j | i' + d < j < |x|
      ensures !WordAt(x, L, j)
    {
      ShiftAt(x, d, j);
      assert !WordAt(x[d..], L, j - d);
    }
  }

  /** `Capture` is what `re.match(".*L([-.\d]+)", s)` captures: nothing when
      no word starts before the first newline, and otherwise the number of
      the last word that does. */
  lemma CaptureIsLastWord(s: string, L: char)
    requires AxisLetter(L)
    ensures Capture(s, L).None? <==> forall i :: 0 <= i < |FirstLine(s)| ==> !WordAt(FirstLine(s), L, i)
    ensures Capture(s, L).Some? ==>
      exists i :: 0 <= i < |FirstLine(s)| && IsLastWord(FirstLine(s), L, i)
        && Capture(s, L).value == NumberAt(FirstLine(s), i)
  {
    var x := FirstLine(s);
    LastOfWords(x, L);
    CaptureOfWords(s, L);
  }

  /** The capture is the last number of the first line, if there is one. */
  lemma CaptureOfWords(s: string, L: char)
    ensures Capture(s, L).None? <==> Words(FirstLine(s), L) == []
    ensures Capture(s, L).Some? ==>
      Capture(s, L).value == Words(FirstLine(s), L)[|Words(FirstLine(s), L)| - 1]
  {
  }

  /** No word anywhere when `Words` finds none; otherwise the last number it
      finds is the number of the last word. */
  lemma LastOfWords(x: string, L: char)
    requires AxisLetter(L)
    ensures Words(x, L) == [] <==> forall i :: 0 <= i < |x| ==> !WordAt(x, L, i)
    ensures Words(x, L) != [] ==>
      exists i :: 0 <= i < |x| && IsLastWord(x, L, i) && Words(x, L)[|Words(x, L)| - 1] == NumberAt(x, i)
  {
    NoWords(x, L);
    if Words(x, L) != [] {
      var i := LastWord(x, L);
      assert LastNumberAt(x, L, i);
    }
  }

  // ---------------------------------------------------------------- appending

  /** A run of number characters does not reach into text that starts
      with something else. */
  lemma {:induction false} NumRunConcat(t: string, b: string)
    requires b == [] || !IsNumChar(b[0])
    ensures NumRun(t + b) == NumRun(t)
    decreases |t|
  {
    if t == [] {
      assert t + b == b;
    } else {
      assert (t + b)[0] == t[0];
      if IsNumChar(t[0]) {
        assert (t + b)[1..] == t[1..] + b;
        NumRunConcat(t[1..], b);
      }
    }
  }

  /** The words of two texts joined where no number is cut in two are the
      words of the first followed by those of the second. */
  lemma {:induction false} WordsConcat(a: string, b: string, L: char)
    requires b == [] || !IsNumChar(b[0])
    ensures Words(a + b, L) == Words(a, L) + Words(b, L)
    decreases |a|, 1
  {
    if a == [] {
      assert a + b == b;
    } else if WordAtHead(a, L) {
      WordsConcatHead(a, b, L);
    } else {
      WordsConcatSkip(a, b, L);
    }
  }

  /** `WordsConcat` when `a` starts with a word. */
  lemma {:induction false} WordsConcatHead(a: string, b: string, L: char)
    requires (b == [] || !IsNumChar(b[0])) && WordAtHead(a, L)
    ensures Words(a + b, L) == Words(a, L) + Words(b, L)
    decreases |a|, 0
  {
    var k := NumRun(a[1..]);
    HeadOfConcat(a, b, L);
    WordsAtHead(a, L);
    WordsAtHead(a + b, L);
    WordsConcat(a[1 + k..], b, L);
    ConsConcat(a[1..1 + k], Words(a[1 + k..], L), Words(b, L));
  }

  lemma ConsConcat(x: string, p: seq<string>, q: seq<string>)
    ensures [x] + (p + q) == ([x] + p) + q
  {
  }

  /** A word at the head of `a` is the word at the head of `a + b`, and
      `a + b` goes on with the rest of `a`, then `b`. */
  lemma HeadOfConcat(a: string, b: string, L: char)
    requires (b == [] || !IsNumChar(b[0])) && WordAtHead(a, L)
    ensures var k := NumRun(a[1..]);
      && WordAtHead(a + b, L) && NumRun((a + b)[1..]) == k
      && (a + b)[1..1 + k] == a[1..1 + k] && (a + b)[1 + k..] == a[1 + k..] + b
  {
    var k := NumRun(a[1..]);
    var ab := a + b;
    assert ab[0] == a[0] && ab[1..] == a[1..] + b;
    NumRunConcat(a[1..], b);
    assert ab[1..1 + k] == a[1..1 + k];
    assert ab[1 + k..] == a[1 + k..] + b;
  }

  /** `WordsConcat` when `a` does not start with a word. */
  lemma {:induction false} WordsConcatSkip(a: string, b: string, L: char)
    requires (b == [] || !IsNumChar(b[0])) && a != [] && !WordAtHead(a, L)
    ensures Words(a + b, L) == Words(a, L) + Words(b, L)
    decreases |a|, 0
  {
    var ab := a + b;
    assert ab[0] == a[0] && ab[1..] == a[1..] + b;
    NumRunConcat(a[1..], b);
    assert !WordAtHead(ab, L);
    WordsConcat(a[1..], b, L);
  }

  /** The words found in a single word `L<t>`. */
  lemma WordsOfWord(L: char, t: string, M: char)
    requires AxisLetter(L) && AxisLetter(M) && |t| >= 1 && AllNumChars(t)
    ensures Words([L] + t, M) == if M == L then [t] else []
  {
    var w := [L] + t;
    assert w[1..] == t && t + [] == t;
    NumRunPrefix(t, []);
    if M == L {
      assert w[1..1 + |t|] == t && w[1 + |t|..] == [];
    } else {
      WordsSkipRun(t, [], M);
    }
  }

  /** Appending the word `L<v>` to one line makes `L` read `v` rounded to 3
      decimals, whatever the line held before, and changes neither the
      words nor the reading of any other letter. */
  lemma AppendWordReads(a: string, L: char, v: real, M: char)
    requires AxisLetter(L) && AxisLetter(M) && '\n' !in a
    ensures '\n' !in a + Word(L, v)
    ensures Read(a + Word(L, v), L) == Value(Rounded(v, 3))
    ensures M != L ==> Words(a + Word(L, v), M) == Words(a, M)
    ensures M != L ==> Read(a + Word(L, v), M) == Read(a, M)
  {
    var w := Word(L, v);
    TrimmedReadsBack(v);
    assert w[1..] == Trimmed(v);
    NoNewline(w);
    AppendWordLast(a, L, v);
    ReadOfLast(a + w, L, Trimmed(v), Rounded(v, 3));
    if M != L {
      AppendWordOthers(a, L, v, M);
      ReadSameWords(a + w, a, M);
    }
  }

  /** A single line reads `v` for `M` when the number of its last `M` word
      reads as `v`. */
  lemma ReadOfLast(l: string, M: char, g: string, v: real)
    requires '\n' !in l && Words(l, M) != [] && Words(l, M)[|Words(l, M)| - 1] == g
    requires ReadsAs(g, v)
    ensures Read(l, M) == Value(v)
  {
    FirstLineNoNewline(l);
  }

  /** Two single lines with the same `M` words read the same for `M`. */
  lemma ReadSameWords(l: string, l': string, M: char)
    requires '\n' !in l && '\n' !in l' && Words(l, M) == Words(l', M)
    ensures Read(l, M) == Read(l', M)
  {
    FirstLineNoNewline(l);
    FirstLineNoNewline(l');
  }

  /** The appended word is the last word of its letter. */
  lemma AppendWordLast(a: string, L: char, v: real)
    requires AxisLetter(L)
    ensures Words(a + Word(L, v), L) == Words(a, L) + [Trimmed(v)]
  {
    TrimmedReadsBack(v);
    WordsConcat(a, Word(L, v), L);
    WordsOfWord(L, Trimmed(v), L);
  }

  /** The appended word adds no word of another letter. */
  lemma AppendWordOthers(a: string, L: char, v: real, M: char)
    requires AxisLetter(L) && AxisLetter(M) && M != L
    ensures Words(a + Word(L, v), M) == Words(a, M)
  {
    TrimmedReadsBack(v);
    WordsConcat(a, Word(L, v), M);
    WordsOfWord(L, Trimmed(v), M);
    assert Words(a, M) + [] == Words(a, M);
  }

  /** `re.sub` keeps a character out of a text when neither the text nor
      the replacement holds it. */
  lemma {:induction false} SubKeepsOut(s: string, L: char, r: string, c: char)
    requires c !in s && c !in r
    ensures c !in Sub(s, L, r)
    decreases |s|
  {
    if s != [] {
      if WordAtHead(s, L) {
        SubKeepsOut(s[1 + NumRun(s[1..])..], L, r, c);
      } else {
        SubKeepsOut(s[1..], L, r, c);
      }
    }
  }

  /** A word holds no character other than its letter and number
      characters. */
  lemma WordLacks(L: char, v: real, c: char)
    requires !IsNumChar(L) && c != L && !IsNumChar(c)
    ensures c !in Word(L, v)
  {
    TrimmedReadsBack(v);
    var w := Word(L, v);
    forall i | 0 <= i < |w|
      ensures w[i] != c
    {
      if i > 0 {
        assert w[i] == Trimmed(v)[i - 1];
      }
    }
  }

  /** Rewriting a letter's words brings in no other character: a line stays
      one line, a line without comments stays without. */
  lemma RewriteKeepsOut(s: string, L: char, v: real, c: char)
    requires AxisLetter(L) && c != L && !IsNumChar(c) && c !in s
    ensures c !in Rewrite(s, L, v)
  {
    WordLacks(L, v, c);
    SubKeepsOut(s, L, Word(L, v), c);
  }

  /** What a line reads, once its words are known. */
  lemma ReadFromWords(l: string, M: char, w: seq<string>)
    requires '\n' !in l && Words(l, M) == w && |w| <= 1
    ensures w == [] ==> Read(l, M) == Absent
    ensures w != [] && ParseNumber(w[0]).Some? ==> Read(l, M) == Value(ParseNumber(w[0]).value)
  {
    FirstLineNoNewline(l);
  }
}
