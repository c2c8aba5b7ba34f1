/** `scale_factor` of lib/gcodetools.py: the X, Y, Z words of every line and
    the arc words I, J, K, R are multiplied by per-axis factors; a line with
    the `_zclear` marker keeps its words unless `scale_zclear` is set. */
module Scale {
  import opened Text
  import opened Numbers
  import opened Outcomes
  import opened AxisWords
  import opened Translate

  /** The letters `X Y Z I J K R` in the order the tool visits them. */
  function Letter(i: nat): (L: char)
    requires i < 7
    ensures AxisLetter(L)
  {
    if i == 0 then 'X' else if i == 1 then 'Y' else if i == 2 then 'Z'
    else if i == 3 then 'I' else if i == 4 then 'J' else if i == 5 then 'K' else 'R'
  }

  /** Different positions name different letters. */
  lemma LetterInjective(i: nat, j: nat)
    requires i < 7 && j < 7 && i != j
    ensures Letter(i) != Letter(j)
  {
  }

  /** The factor of the `i`-th letter is `facts[i % 3]`: I goes with X, J
      with Y, K with Z, and R with X. */
  function FactorOf(facts: Vec3, i: nat): real
    requires i < 7
  {
    facts.At(i % 3)
  }

  /** The first three letters are the axes, each with its own factor. */
  lemma AxisFactor(facts: Vec3, j: nat)
    requires j < 3
    ensures Letter(j) == Axis(j) && FactorOf(facts, j) == facts.At(j)
  {
  }

  /** A line the tool leaves alone: it holds `_zclear` and zclear lines are
      not to be scaled. */
  predicate Protected(line: string, scaleZclear: bool)
  {
    Contains(line, "_zclear") && !scaleZclear
  }

  /** What is read for a letter after its words were scaled by `f`: nothing
      changes when `f` is 0; otherwise the product, rounded as written. */
  function Scaled(r: Reading, f: real): Reading
  {
    if f == 0.0 then r
    else match r
      case Value(a) => Value(Rounded(Mul(a, f), 3))
      case _ => r
  }

  /** One letter of one line. */
  function ScaleWord(line: string, L: char, f: real, scaleZclear: bool): Outcome<string>
    requires AxisLetter(L)
  {
    match Read(line, L)
    case Absent => Ok(line)
    case Malformed =>
      if f != 0.0 && !Protected(line, scaleZclear) then Raised(ValueError) else Ok(line)
    case Value(a) =>
      if f != 0.0 && !Protected(line, scaleZclear) then Ok(Rewrite(line, L, Mul(a, f))) else Ok(line)
  }

  /** The letters from the `i`-th on, each on the line the previous one left. */
  function ScaleFrom(line: string, facts: Vec3, scaleZclear: bool, i: nat): Outcome<string>
    requires i <= 7
    decreases 7 - i
  {
    if i == 7 then Ok(line)
    else match ScaleWord(line, Letter(i), FactorOf(facts, i), scaleZclear)
      case Ok(l) => ScaleFrom(l, facts, scaleZclear, i + 1)
      case Rejected => Rejected
      case Raised(e) => Raised(e)
  }

  function ScaleStep(facts: Vec3, scaleZclear: bool): string -> Outcome<string>
  {
    line => ScaleFrom(line, facts, scaleZclear, 0)
  }

  /** `scale_factor(lines, facts, scale_zclear)`. The warning it logs for
      unequal factors changes nothing. */
  function ScaleAll(lines: seq<string>, facts: Vec3, scaleZclear: bool): Outcome<seq<string>>
  {
    MapLines(lines, ScaleStep(facts, scaleZclear))
  }

  /** The loop of `scale_factor` over the lines. */
  method ScaleLines(lines: seq<string>, facts: Vec3, scaleZclear: bool) returns (r: Outcome<seq<string>>)
    ensures r == ScaleAll(lines, facts, scaleZclear)
  {
    var f := ScaleStep(facts, scaleZclear);
    var result: seq<string> := [];
    var n := 0;
    assert lines[0..] == lines;
    PrependNothing(MapLines(lines, f));
    while n < |lines|
      invariant 0 <= n <= |lines|
      invariant Prepend(result, MapLines(lines[n..], f)) == MapLines(lines, f)
    {
      MapLinesStep(lines, n, f);
      var scaled := ScaleLine(lines[n], facts, scaleZclear);
      assert f(lines[n]) == scaled;
      if scaled.Raised? {
        return Raised(scaled.exc);
      }
      ScaleFromNotRejected(lines[n], facts, scaleZclear, 0);
      PrependPrepend(result, [scaled.value], MapLines(lines[n + 1..], f));
      result := result + [scaled.value];
      n := n + 1;
    }
    assert lines[n..] == [];
    assert result + [] == result;
    return Ok(result);
  }

  /** The loop of `scale_factor` over the seven letters of one line. */
  method ScaleLine(line0: string, facts: Vec3, scaleZclear: bool) returns (r: Outcome<string>)
    ensures r == ScaleFrom(line0, facts, scaleZclear, 0)
  {
    var line := line0;
    var i := 0;
    while i < 7
      invariant 0 <= i <= 7
      invariant ScaleFrom(line, facts, scaleZclear, i) == ScaleFrom(line0, facts, scaleZclear, 0)
    {
      var L, f := Letter(i), FactorOf(facts, i);
      var m := Read(line, L);
      ScaleFromStep(line, facts, scaleZclear, i);
      if m.Present() && f != 0.0 && !Protected(line, scaleZclear) {
        if m.Malformed? {
          return Raised(ValueError);
        }
        line := Rewrite(line, L, Mul(m.v, f));
      }
      i := i + 1;
    }
    return Ok(line);
  }

  /** One letter step of `ScaleFrom`. */
  lemma ScaleFromStep(line: string, facts: Vec3, scaleZclear: bool, i: nat)
    requires i < 7
    ensures var m, f := Read(line, Letter(i)), FactorOf(facts, i);
      ScaleFrom(line, facts, scaleZclear, i) ==
        if m.Present() && f != 0.0 && !Protected(line, scaleZclear) then
          if m.Malformed? then Raised(ValueError)
          else ScaleFrom(Rewrite(line, Letter(i), Mul(m.v, f)), facts, scaleZclear, i + 1)
        else ScaleFrom(line, facts, scaleZclear, i + 1)
  {
  }

  // ---------------------------------------------------------------- properties

  /** Scaling never gives `None`; it fails only when `float()` raises. */
  lemma {:induction false} ScaleFromNotRejected(line: string, facts: Vec3, scaleZclear: bool, i: nat)
    requires i <= 7
    ensures !ScaleFrom(line, facts, scaleZclear, i).Rejected?
    ensures ScaleFrom(line, facts, scaleZclear, i).Raised? ==> ScaleFrom(line, facts, scaleZclear, i).exc == ValueError
    decreases 7 - i
  {
    if i < 7 {
      var w := ScaleWord(line, Letter(i), FactorOf(facts, i), scaleZclear);
      ScaleWordFails(line, Letter(i), FactorOf(facts, i), scaleZclear);
      if w.Ok? {
        ScaleFromNotRejected(w.value, facts, scaleZclear, i + 1);
      }
    }
  }

  /** One letter step never gives `None` and fails only with `ValueError`. */
  lemma ScaleWordFails(line: string, L: char, f: real, scaleZclear: bool)
    requires AxisLetter(L)
    ensures !ScaleWord(line, L, f, scaleZclear).Rejected?
    ensures ScaleWord(line, L, f, scaleZclear).Raised? ==> ScaleWord(line, L, f, scaleZclear).exc == ValueError
  {
  }

  /** A letter with factor 0, or one the line reads nothing for, leaves the
      line as it is. */
  lemma ScaleWordIdle(line: string, L: char, f: real, scaleZclear: bool)
    requires AxisLetter(L) && (f == 0.0 || Read(line, L).Absent?)
    ensures ScaleWord(line, L, f, scaleZclear) == Ok(line)
  {
  }

  /** `scale_factor` has no `G91` check: it never gives `None`, and it fails
      only with `ValueError`. */
  lemma ScaleNeverRejects(lines: seq<string>, facts: Vec3, scaleZclear: bool)
    ensures !ScaleAll(lines, facts, scaleZclear).Rejected?
    ensures ScaleAll(lines, facts, scaleZclear).Raised? ==> ScaleAll(lines, facts, scaleZclear).exc == ValueError
  {
    var f := ScaleStep(facts, scaleZclear);
    if !MapLines(lines, f).Ok? {
      MapLinesFailure(lines, f);
      var k :| 0 <= k < |lines| && SameFailure(f(lines[k]), MapLines(lines, f));
      ScaleFromNotRejected(lines[k], facts, scaleZclear, 0);
    }
  }

  /** A protected line comes out exactly as it went in. */
  lemma {:induction false} ProtectedUnchanged(line: string, facts: Vec3, scaleZclear: bool, i: nat)
    requires i <= 7 && Protected(line, scaleZclear)
    ensures ScaleFrom(line, facts, scaleZclear, i) == Ok(line)
    decreases 7 - i
  {
    if i < 7 {
      ProtectedUnchanged(line, facts, scaleZclear, i + 1);
    }
  }

  /** A line with nothing to scale comes out exactly as it went in. */
  lemma {:induction false} NothingToScale(line: string, facts: Vec3, scaleZclear: bool, i: nat)
    requires i <= 7
    requires forall j :: i <= j < 7 ==> FactorOf(facts, j) == 0.0 || Read(line, Letter(j)).Absent?
    ensures ScaleFrom(line, facts, scaleZclear, i) == Ok(line)
    decreases 7 - i
  {
    if i < 7 {
      NothingToScale(line, facts, scaleZclear, i + 1);
    }
  }

  /** One letter step on a line that is not protected: the letter reads its
      scaled value, the others read as before, and the line stays unprotected. */
  lemma ScaleWordReads(line: string, facts: Vec3, scaleZclear: bool, i: nat, j: nat)
    requires i < 7 && j < 7 && !Protected(line, scaleZclear)
    ensures var w := ScaleWord(line, Letter(i), FactorOf(facts, i), scaleZclear);
      w.Ok? ==>
        && !Protected(w.value, scaleZclear)
        && Read(w.value, Letter(j)) == if j == i then Scaled(Read(line, Letter(i)), FactorOf(facts, i)) else Read(line, Letter(j))
  {
    var L, f := Letter(i), FactorOf(facts, i);
    var m := Read(line, L);
    if m.Value? && f != 0.0 {
      var v := Mul(m.v, f);
      assert ScaleWord(line, L, f, scaleZclear) == Ok(Rewrite(line, L, v));
      RewriteKeepsMarker(line, L, v);
      if j == i {
        RewriteReadsBack(line, L, v);
      } else {
        LetterInjective(i, j);
        RewriteKeepsOthers(line, L, v, Letter(j));
      }
    }
  }

  /** What the letters read after one unprotected line was scaled: each
      letter with a non-zero factor reads its old value times the factor,
      rounded to 3 decimals as written; the others read as before. */
  lemma {:induction false} ScaleFromReads(line: string, facts: Vec3, scaleZclear: bool, i: nat, out: string)
    requires i <= 7 && !Protected(line, scaleZclear) && ScaleFrom(line, facts, scaleZclear, i) == Ok(out)
    ensures forall j :: 0 <= j < 7 ==>
      Read(out, Letter(j)) == if j < i then Read(line, Letter(j)) else Scaled(Read(line, Letter(j)), FactorOf(facts, j))
    decreases 7 - i
  {
    if i < 7 {
      var l := ScaleWord(line, Letter(i), FactorOf(facts, i), scaleZclear).value;
      forall j | 0 <= j < 7
        ensures !Protected(l, scaleZclear)
        ensures Read(l, Letter(j)) == if j == i then Scaled(Read(line, Letter(i)), FactorOf(facts, i)) else Read(line, Letter(j))
      {
        ScaleWordReads(line, facts, scaleZclear, i, j);
      }
      ScaleWordReads(line, facts, scaleZclear, i, i);
      ScaleFromReads(l, facts, scaleZclear, i + 1, out);
    }
  }

  /** The words of a letter with factor 0, or that the line reads nothing
      for, keep their text. */
  lemma {:induction false} ScaleFromKeepsWords(line: string, facts: Vec3, scaleZclear: bool, i: nat, out: string, j: nat)
    requires i <= 7 && ScaleFrom(line, facts, scaleZclear, i) == Ok(out)
    requires j < 7 && (FactorOf(facts, j) == 0.0 || Read(line, Letter(j)).Absent? || j < i)
    ensures Words(out, Letter(j)) == Words(line, Letter(j))
    decreases 7 - i
  {
    if i < 7 {
      var w := ScaleWord(line, Letter(i), FactorOf(facts, i), scaleZclear);
      assert w.Ok? && ScaleFrom(w.value, facts, scaleZclear, i + 1) == Ok(out);
      if j != i {
        ScaleWordKeepsWords(line, facts, scaleZclear, i, j);
      } else {
        ScaleWordIdle(line, Letter(i), FactorOf(facts, i), scaleZclear);
      }
      ScaleFromKeepsWords(w.value, facts, scaleZclear, i + 1, out, j);
    }
  }

  /** One letter step leaves the words of every other letter as they were,
      and the reading of a later letter too. */
  lemma ScaleWordKeepsWords(line: string, facts: Vec3, scaleZclear: bool, i: nat, j: nat)
    requires i < 7 && j < 7 && j != i
    requires ScaleWord(line, Letter(i), FactorOf(facts, i), scaleZclear).Ok?
    ensures var l := ScaleWord(line, Letter(i), FactorOf(facts, i), scaleZclear).value;
      && Words(l, Letter(j)) == Words(line, Letter(j))
      && Read(l, Letter(j)) == Read(line, Letter(j))
  {
    LetterInjective(i, j);
    ScaleWordKeepsOther(line, Letter(i), FactorOf(facts, i), scaleZclear, Letter(j));
  }

  lemma ScaleWordKeepsOther(line: string, L: char, f: real, scaleZclear: bool, M: char)
    requires AxisLetter(L) && AxisLetter(M) && L != M
    requires ScaleWord(line, L, f, scaleZclear).Ok?
    ensures var l := ScaleWord(line, L, f, scaleZclear).value;
      && Words(l, M) == Words(line, M)
      && Read(l, M) == Read(line, M)
  {
    var m := Read(line, L);
    if m.Value? && f != 0.0 && !Protected(line, scaleZclear) {
      var v := Mul(m.v, f);
      RewriteKeepsWords(line, L, v, M);
      RewriteKeepsOthers(line, L, v, M);
    }
  }

  /** A scaled program has the lines of the input in order; a protected
      line is unchanged, and in any other line every letter reads its old
      value times its factor, rounded to 3 decimals as written. */
  lemma ScaleResult(lines: seq<string>, facts: Vec3, scaleZclear: bool, out: seq<string>)
    requires ScaleAll(lines, facts, scaleZclear) == Ok(out)
    ensures |out| == |lines|
    ensures forall k :: 0 <= k < |lines| && Protected(lines[k], scaleZclear) ==> out[k] == lines[k]
    ensures forall k, j :: 0 <= k < |lines| && 0 <= j < 7 && !Protected(lines[k], scaleZclear) ==>
        Read(out[k], Letter(j)) == Scaled(Read(lines[k], Letter(j)), FactorOf(facts, j))
  {
    var f := ScaleStep(facts, scaleZclear);
    MapLinesOk(lines, f);
    forall k | 0 <= k < |lines|
      ensures Protected(lines[k], scaleZclear) ==> out[k] == lines[k]
      ensures !Protected(lines[k], scaleZclear) ==> forall j :: 0 <= j < 7 ==>
        Read(out[k], Letter(j)) == Scaled(Read(lines[k], Letter(j)), FactorOf(facts, j))
    {
      assert f(lines[k]) == Ok(out[k]);
      if Protected(lines[k], scaleZclear) {
        ProtectedUnchanged(lines[k], facts, scaleZclear, 0);
      } else {
        ScaleFromReads(lines[k], facts, scaleZclear, 0, out[k]);
      }
    }
  }
}
