/** `translate` of lib/gcodetools.py: every line of a program has its X, Y
    and Z words moved by a per-axis offset, and a program in incremental
    distance mode (`G91`) is refused. */
module Translate {
  import opened Text
  import opened Numbers
  import opened Outcomes
  import opened AxisWords

  /** A per-axis triple, as the three-element lists `[x, y, z]` the tools take. */
  datatype Vec3 = Vec3(x: real, y: real, z: real)
  {
    function At(i: nat): real
      requires i < 3
    {
      if i == 0 then x else if i == 1 then y else z
    }
  }

  /** The axes `X`, `Y`, `Z`, in the order the tools visit them. */
  function Axis(i: nat): (L: char)
    requires i < 3
    ensures AxisLetter(L)
  {
    if i == 0 then 'X' else if i == 1 then 'Y' else 'Z'
  }

  /** What is read for an axis after its words were moved by `o`: nothing
      changes when `o` is 0; otherwise the moved value, rounded as written. */
  function Shifted(r: Reading, o: real): Reading
  {
    if o == 0.0 then r
    else match r
      case Value(a) => Value(Rounded(a + o, 3))
      case _ => r
  }

  /** One axis of one line: the words of the axis move when the line has
      one and the offset is not 0; `float()` of a malformed number raises. */
  function ShiftWord(line: string, L: char, o: real): Outcome<string>
    requires AxisLetter(L)
  {
    match Read(line, L)
    case Absent => Ok(line)
    case Malformed => if o != 0.0 then Raised(ValueError) else Ok(line)
    case Value(a) => if o != 0.0 then Ok(Rewrite(line, L, a + o)) else Ok(line)
  }

  /** The axes from the `i`-th on, in order, each on the line the previous
      one left. */
  function ShiftFrom(line: string, off: Vec3, i: nat): Outcome<string>
    requires i <= 3
    decreases 3 - i
  {
    if i == 3 then Ok(line)
    else match ShiftWord(line, Axis(i), off.At(i))
      case Ok(l) => ShiftFrom(l, off, i + 1)
      case Rejected => Rejected
      case Raised(e) => Raised(e)
  }

  /** One line of `translate`: refused when it holds `G91` anywhere. */
  function TranslateLine(line: string, off: Vec3): Outcome<string>
  {
    if Contains(line, "G91") then Rejected else ShiftFrom(line, off, 0)
  }

  function TranslateStep(off: Vec3): string -> Outcome<string>
  {
    line => TranslateLine(line, off)
  }

  /** `translate(lines, offsets)`: `Rejected` is its `None`. */
  function TranslateAll(lines: seq<string>, off: Vec3): Outcome<seq<string>>
  {
    MapLines(lines, TranslateStep(off))
  }

  /** The loop of `translate` over the lines. */
  method TranslateLines(lines: seq<string>, off: Vec3) returns (r: Outcome<seq<string>>)
    ensures r == TranslateAll(lines, off)
  {
    var f := TranslateStep(off);
    var result: seq<string> := [];
    var n := 0;
    assert lines[0..] == lines;
    PrependNothing(MapLines(lines, f));
    while n < |lines|
      invariant 0 <= n <= |lines|
      invariant Prepend(result, MapLines(lines[n..], f)) == MapLines(lines, f)
    {
      MapLinesStep(lines, n, f);
      if Contains(lines[n], "G91") {
        return Rejected;
      }
      var moved := ShiftLine(lines[n], off);
      assert f(lines[n]) == moved;
      if moved.Raised? {
        return Raised(moved.exc);
      }
      ShiftFromNotRejected(lines[n], off, 0);
      PrependPrepend(result, [moved.value], MapLines(lines[n + 1..], f));
      result := result + [moved.value];
      n := n + 1;
    }
    assert lines[n..] == [];
    assert result + [] == result;
    return Ok(result);
  }

  /** The loop of `translate` over the axes of one line. */
  method ShiftLine(line0: string, off: Vec3) returns (r: Outcome<string>)
    ensures r == ShiftFrom(line0, off, 0)
  {
    var line := line0;
    var i := 0;
    while i < 3
      invariant 0 <= i <= 3
      invariant ShiftFrom(line, off, i) == ShiftFrom(line0, off, 0)
    {
      var L, o := Axis(i), off.At(i);
      var m := Read(line, L);
      ShiftFromStep(line, off, i);
      if m.Malformed? && o != 0.0 {
        return Raised(ValueError);
      }
      if m.Value? && o != 0.0 {
        line := Rewrite(line, L, m.v + o);
      }
      i := i + 1;
    }
    return Ok(line);
  }

  /** One axis step of `ShiftFrom`. */
  lemma ShiftFromStep(line: string, off: Vec3, i: nat)
    requires i < 3
    ensures var m, o := Read(line, Axis(i)), off.At(i);
      ShiftFrom(line, off, i) ==
        if m.Malformed? && o != 0.0 then Raised(ValueError)
        else if m.Value? && o != 0.0 then ShiftFrom(Rewrite(line, Axis(i), m.v + o), off, i + 1)
        else ShiftFrom(line, off, i + 1)
  {
  }

  // ---------------------------------------------------------------- properties

  /** What the axes read after one line was translated: an axis with offset 0
      or without a word reads as before, any other axis reads its old value
      plus the offset, rounded to 3 decimals as written. */
  lemma {:induction false} ShiftFromReads(line: string, off: Vec3, i: nat, out: string)
    requires i <= 3 && ShiftFrom(line, off, i) == Ok(out)
    ensures forall j :: 0 <= j < 3 ==>
      Read(out, Axis(j)) == if j < i then Read(line, Axis(j)) else Shifted(Read(line, Axis(j)), off.At(j))
    decreases 3 - i
  {
    if i < 3 {
      var l := ShiftWord(line, Axis(i), off.At(i)).value;
      ShiftWordReads(line, off, i);
      ShiftFromReads(l, off, i + 1, out);
    }
  }

  /** One axis step: the axis moved reads its shifted value, the others as before. */
  lemma ShiftWordReads(line: string, off: Vec3, i: nat)
    requires i < 3
    ensures var w := ShiftWord(line, Axis(i), off.At(i));
      w.Ok? ==> forall j :: 0 <= j < 3 ==>
        Read(w.value, Axis(j)) == if j == i then Shifted(Read(line, Axis(i)), off.At(i)) else Read(line, Axis(j))
  {
    var w := ShiftWord(line, Axis(i), off.At(i));
    if w.Ok? {
      forall j | 0 <= j < 3
        ensures Read(w.value, Axis(j)) == if j == i then Shifted(Read(line, Axis(i)), off.At(i)) else Read(line, Axis(j))
      {
        ShiftWordRead(line, off, i, j);
      }
    }
  }

  lemma ShiftWordRead(line: string, off: Vec3, i: nat, j: nat)
    requires i < 3 && j < 3
    ensures var w := ShiftWord(line, Axis(i), off.At(i));
      w.Ok? ==> Read(w.value, Axis(j)) == if j == i then Shifted(Read(line, Axis(i)), off.At(i)) else Read(line, Axis(j))
  {
    var L, o := Axis(i), off.At(i);
    var m := Read(line, L);
    if m.Value? && o != 0.0 {
      var v := m.v + o;
      assert ShiftWord(line, L, o) == Ok(Rewrite(line, L, v));
      if j == i {
        assert Shifted(m, o) == Value(Rounded(v, 3));
        RewriteReadsBack(line, L, v);
      } else {
        AxisInjective(i, j);
        RewriteKeepsOthers(line, L, v, Axis(j));
      }
    } else {
      assert ShiftWord(line, L, o).Ok? ==> ShiftWord(line, L, o) == Ok(line);
      assert Shifted(m, o) == m;
    }
  }

  lemma AxisInjective(i: nat, j: nat)
    requires i < 3 && j < 3 && i != j
    ensures Axis(i) != Axis(j)
  {
  }

  /** The words of an axis that `translate` does not move keep their text:
      those of an axis with offset 0, and all of an axis the line reads
      nothing for. */
  lemma {:induction false} ShiftFromKeepsWords(line: string, off: Vec3, i: nat, out: string, j: nat)
    requires i <= 3 && ShiftFrom(line, off, i) == Ok(out)
    requires j < 3 && (off.At(j) == 0.0 || Read(line, Axis(j)).Absent? || j < i)
    ensures Words(out, Axis(j)) == Words(line, Axis(j))
    decreases 3 - i
  {
    if i < 3 {
      var l := ShiftWord(line, Axis(i), off.At(i)).value;
      ShiftWordKeepsWords(line, off, i, j);
      ShiftWordReads(line, off, i);
      ShiftFromKeepsWords(l, off, i + 1, out, j);
    }
  }

  lemma ShiftWordKeepsWords(line: string, off: Vec3, i: nat, j: nat)
    requires i < 3 && j < 3 && (off.At(j) == 0.0 || Read(line, Axis(j)).Absent? || j < i)
    requires ShiftWord(line, Axis(i), off.At(i)).Ok?
    ensures j != i ==> Words(ShiftWord(line, Axis(i), off.At(i)).value, Axis(j)) == Words(line, Axis(j))
    ensures j == i ==> ShiftWord(line, Axis(i), off.At(i)).value == line
  {
    var L, o := Axis(i), off.At(i);
    if Read(line, L).Value? && o != 0.0 && j != i {
      RewriteKeepsWords(line, L, Read(line, L).v + o, Axis(j));
    }
  }

  /** A line with nothing to move comes out as it went in. */
  lemma {:induction false} ShiftFromUnchanged(line: string, off: Vec3, i: nat)
    requires i <= 3
    requires forall j :: i <= j < 3 ==> off.At(j) == 0.0 || Read(line, Axis(j)).Absent?
    ensures ShiftFrom(line, off, i) == Ok(line)
    decreases 3 - i
  {
    if i < 3 {
      ShiftFromUnchanged(line, off, i + 1);
    }
  }

  /** Moving words never refuses a line: only `G91` does. */
  lemma {:induction false} ShiftFromNotRejected(line: string, off: Vec3, i: nat)
    requires i <= 3
    ensures !ShiftFrom(line, off, i).Rejected?
    ensures ShiftFrom(line, off, i).Raised? ==> ShiftFrom(line, off, i).exc == ValueError
    decreases 3 - i
  {
    if i < 3 {
      match ShiftWord(line, Axis(i), off.At(i))
      case Ok(l) => ShiftFromNotRejected(l, off, i + 1);
      case Rejected =>
      case Raised(e) =>
    }
  }

  /** `translate` gives `None` when, and only when, a line holds `G91`
      and no line before it made `float()` raise. */
  lemma TranslateRejects(lines: seq<string>, off: Vec3)
    ensures TranslateAll(lines, off).Rejected? <==>
      exists k :: 0 <= k < |lines| && Contains(lines[k], "G91")
        && forall j :: 0 <= j < k ==> TranslateLine(lines[j], off).Ok?
  {
    var f := TranslateStep(off);
    if TranslateAll(lines, off).Rejected? {
      MapLinesFailure(lines, f);
      var k :| 0 <= k < |lines| && SameFailure(f(lines[k]), MapLines(lines, f))
        && forall j :: 0 <= j < k ==> f(lines[j]).Ok?;
      ShiftFromNotRejected(lines[k], off, 0);
      assert Contains(lines[k], "G91");
    }
    if exists k :: (0 <= k < |lines| && Contains(lines[k], "G91")
      && forall j :: 0 <= j < k ==> TranslateLine(lines[j], off).Ok?)
    {
      var k :| 0 <= k < |lines| && Contains(lines[k], "G91")
        && forall j :: 0 <= j < k ==> TranslateLine(lines[j], off).Ok?;
      FirstFailure(lines, f, k);
    }
  }

  /** The first line that fails decides how a line loop fails. */
  lemma {:induction false} FirstFailure(lines: seq<string>, f: string -> Outcome<string>, k: nat)
    requires k < |lines| && !f(lines[k]).Ok? && forall j :: 0 <= j < k ==> f(lines[j]).Ok?
    ensures SameFailure(f(lines[k]), MapLines(lines, f))
  {
    if k > 0 {
      assert forall j :: 0 <= j < k - 1 ==> lines[1..][j] == lines[j + 1];
      FirstFailure(lines[1..], f, k - 1);
    }
  }

  /** A program holding `G91` is never translated. */
  lemma TranslateG91(lines: seq<string>, off: Vec3, k: nat)
    requires k < |lines| && Contains(lines[k], "G91")
    ensures !TranslateAll(lines, off).Ok?
  {
    MapLinesOk(lines, TranslateStep(off));
    assert !TranslateStep(off)(lines[k]).Ok?;
  }

  /** A translated program has the lines of the input, in order, each
      translated on its own: its axes read the old values plus the offsets,
      and the words of the axes it does not move keep their text. */
  lemma TranslateResult(lines: seq<string>, off: Vec3, out: seq<string>)
    requires TranslateAll(lines, off) == Ok(out)
    ensures |out| == |lines|
      && forall k, j :: 0 <= k < |lines| && 0 <= j < 3 ==>
        && !Contains(lines[k], "G91")
        && Read(out[k], Axis(j)) == Shifted(Read(lines[k], Axis(j)), off.At(j))
        && (off.At(j) == 0.0 || Read(lines[k], Axis(j)).Absent? ==> Words(out[k], Axis(j)) == Words(lines[k], Axis(j)))
  {
    var f := TranslateStep(off);
    MapLinesOk(lines, f);
    forall k, j | 0 <= k < |lines| && 0 <= j < 3
      ensures !Contains(lines[k], "G91")
      ensures Read(out[k], Axis(j)) == Shifted(Read(lines[k], Axis(j)), off.At(j))
      ensures off.At(j) == 0.0 || Read(lines[k], Axis(j)).Absent? ==> Words(out[k], Axis(j)) == Words(lines[k], Axis(j))
    {
      assert f(lines[k]) == Ok(out[k]);
      ShiftFromReads(lines[k], off, 0, out[k]);
      if off.At(j) == 0.0 || Read(lines[k], Axis(j)).Absent? {
        ShiftFromKeepsWords(lines[k], off, 0, out[k], j);
      }
    }
  }

  /** Translating by zero offsets gives the program back, unless it holds `G91`. */
  lemma TranslateByZero(lines: seq<string>)
    requires forall k :: 0 <= k < |lines| ==> !Contains(lines[k], "G91")
    ensures TranslateAll(lines, Vec3(0.0, 0.0, 0.0)) == Ok(lines)
  {
    var f := TranslateStep(Vec3(0.0, 0.0, 0.0));
    forall k | 0 <= k < |lines|
      ensures f(lines[k]) == Ok(lines[k])
    {
      ShiftFromUnchanged(lines[k], Vec3(0.0, 0.0, 0.0), 0);
    }
    MapLinesIdentity(lines, f);
  }

  /** A loop whose body gives every line back gives the lines back. */
  lemma {:induction false} MapLinesIdentity(lines: seq<string>, f: string -> Outcome<string>)
    requires forall k :: 0 <= k < |lines| ==> f(lines[k]) == Ok(lines[k])
    ensures MapLines(lines, f) == Ok(lines)
  {
    if lines != [] {
      assert forall k :: 0 <= k < |lines| - 1 ==> lines[1..][k] == lines[k + 1];
      MapLinesIdentity(lines[1..], f);
      assert [lines[0]] + lines[1..] == lines;
    }
  }

  /** Translating back by the negated offsets restores every value that was
      read, up to the two roundings to 3 decimals. */
  lemma TranslateBack(line: string, off: Vec3, mid: string, back: string, j: nat, a: real)
    requires j < 3
    requires TranslateLine(line, off) == Ok(mid)
    requires TranslateLine(mid, Vec3(-off.x, -off.y, -off.z)) == Ok(back)
    requires Read(line, Axis(j)) == Value(a)
    ensures Read(back, Axis(j)).Value?
    ensures Abs(Read(back, Axis(j)).v - a) * 1000.0 <= 1.0
  {
    var neg := Vec3(-off.x, -off.y, -off.z);
    TranslateLineReads(line, off, mid, j);
    TranslateLineReads(mid, neg, back, j);
    assert neg.At(j) == -off.At(j);
    ShiftBack(a, off.At(j));
  }

  /** What one axis reads after one line was translated. */
  lemma TranslateLineReads(line: string, off: Vec3, out: string, j: nat)
    requires j < 3 && TranslateLine(line, off) == Ok(out)
    ensures Read(out, Axis(j)) == Shifted(Read(line, Axis(j)), off.At(j))
  {
    ShiftFromReads(line, off, 0, out);
  }

  lemma ShiftBack(a: real, o: real)
    ensures Shifted(Shifted(Value(a), o), -o).Value?
    ensures Abs(Shifted(Shifted(Value(a), o), -o).v - a) * 1000.0 <= 1.0
  {
    if o != 0.0 {
      var b := Rounded(a + o, 3);
      RoundedClose(a + o, 3);
      RoundedClose(b - o, 3);
      assert Pow10(3) == 1000;
      TwoRoundings(a, b, Rounded(b + -o, 3), o);
    }
  }

  lemma TwoRoundings(a: real, b: real, c: real, o: real)
    requires Abs(b - (a + o)) * 1000.0 <= 0.5
    requires Abs(c - (b + -o)) * 1000.0 <= 0.5
    ensures Abs(c - a) * 1000.0 <= 1.0
  {
  }

  /** Translating brings no `_zclear` marker into a line. */
  lemma {:induction false} ShiftFromKeepsMarker(line: string, off: Vec3, i: nat, out: string)
    requires i <= 3 && ShiftFrom(line, off, i) == Ok(out)
    ensures Contains(out, "_zclear") ==> Contains(line, "_zclear")
    decreases 3 - i
  {
    if i < 3 {
      var m, o := Read(line, Axis(i)), off.At(i);
      var l := ShiftWord(line, Axis(i), o).value;
      if m.Value? && o != 0.0 {
        RewriteKeepsMarker(line, Axis(i), m.v + o);
      }
      ShiftFromKeepsMarker(l, off, i + 1, out);
    }
  }

  /** A translated line holds the `_zclear` marker only if the line it
      came from did. */
  lemma TranslateKeepsMarker(lines: seq<string>, off: Vec3, out: seq<string>)
    requires TranslateAll(lines, off) == Ok(out)
    ensures |out| == |lines|
    ensures forall k :: 0 <= k < |lines| && Contains(out[k], "_zclear") ==> Contains(lines[k], "_zclear")
  {
    var f := TranslateStep(off);
    MapLinesOk(lines, f);
    forall k | 0 <= k < |lines| && Contains(out[k], "_zclear")
      ensures Contains(lines[k], "_zclear")
    {
      assert f(lines[k]) == Ok(out[k]);
      ShiftFromKeepsMarker(lines[k], off, 0, out[k]);
    }
  }
}
