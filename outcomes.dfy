/** What a modelled Python function can do: hand back a value, log an error and
    return `None`, or raise an exception. */
module Outcomes {

  datatype Option<T> = None | Some(value: T)

  /** The Python exceptions that the modelled code can raise. */
  datatype Exception =
    | ValueError         // float() or int() applied to malformed text
    | ZeroDivisionError  // a division by a zero extent
    | UnboundLocalError  // a local variable read before any branch bound it
    | TypeError          // arithmetic on None, or iterating over None
    | IndexError         // a list index outside the list
    | AttributeError     // a method called on None (a failed regex match, an empty table cell)

  /** `Rejected` is the source's `return` without a value after `logger.error`. */
  datatype Outcome<T> = Ok(value: T) | Rejected | Raised(exc: Exception)

  /** The two outcomes failed in the same way. */
  predicate SameFailure<A, B>(a: Outcome<A>, b: Outcome<B>) {
    (a.Rejected? && b.Rejected?) || (a.Raised? && b.Raised? && a.exc == b.exc)
  }

  /** A failure handed on unchanged by a caller that returns another type. */
  function PassOn<A, B>(a: Outcome<A>): (r: Outcome<B>)
    requires !a.Ok?
    ensures SameFailure(a, r)
  {
    if a.Rejected? then Rejected else Raised(a.exc)
  }

  /** Puts `done` in front of a successful rest; a failure passes through. */
  function Prepend<T>(done: seq<T>, rest: Outcome<seq<T>>): (r: Outcome<seq<T>>)
    ensures rest.Ok? <==> r.Ok?
    ensures rest.Ok? ==> r.value == done + rest.value
    ensures !rest.Ok? ==> r == rest
  {
    match rest
    case Ok(v) => Ok(done + v)
    case Rejected => Rejected
    case Raised(e) => Raised(e)
  }

  /** A Python loop `for line in lines: ...; result.append(line)` whose body is
      `f`: the first line on which `f` fails decides the outcome of the loop. */
  function MapLines<T>(lines: seq<T>, f: T -> Outcome<T>): Outcome<seq<T>>
  {
    if lines == [] then Ok([])
    else match f(lines[0])
      case Ok(l) => Prepend([l], MapLines(lines[1..], f))
      case Rejected => Rejected
      case Raised(e) => Raised(e)
  }

  /** One step of `MapLines`, as a loop over the lines performs it. */
  lemma MapLinesStep<T>(lines: seq<T>, i: nat, f: T -> Outcome<T>)
    requires i < |lines|
    ensures MapLines(lines[i..], f) ==
      match f(lines[i])
      case Ok(l) => Prepend([l], MapLines(lines[i + 1..], f))
      case Rejected => Rejected
      case Raised(e) => Raised(e)
  {
    assert lines[i..][1..] == lines[i + 1..];
  }

  lemma PrependNothing<T>(rest: Outcome<seq<T>>)
    ensures Prepend([], rest) == rest
  {
    if rest.Ok? {
      assert [] + rest.value == rest.value;
    }
  }

  lemma PrependPrepend<T>(a: seq<T>, b: seq<T>, rest: Outcome<seq<T>>)
    ensures Prepend(a, Prepend(b, rest)) == Prepend(a + b, rest)
  {
    if rest.Ok? {
      assert a + (b + rest.value) == (a + b) + rest.value;
    }
  }

  /** The loop succeeds exactly when every line succeeds; the result then keeps
      the number and the order of the lines, each line replaced by its image. */
  lemma {:induction false} MapLinesOk<T>(lines: seq<T>, f: T -> Outcome<T>)
    ensures MapLines(lines, f).Ok? <==> forall i :: 0 <= i < |lines| ==> f(lines[i]).Ok?
    ensures MapLines(lines, f).Ok? ==>
      |MapLines(lines, f).value| == |lines| &&
      forall i :: 0 <= i < |lines| ==> f(lines[i]) == Ok(MapLines(lines, f).value[i])
  {
    if lines != [] {
      MapLinesOk(lines[1..], f);
      assert forall i :: 1 <= i < |lines| ==> lines[i] == lines[1..][i - 1];
      if f(lines[0]).Ok? && MapLines(lines[1..], f).Ok? {
        var r := MapLines(lines, f).value;
        assert r == [f(lines[0]).value] + MapLines(lines[1..], f).value;
        forall i | 0 <= i < |lines|
          ensures f(lines[i]) == Ok(r[i])
        {
          if i > 0 {
            assert r[i] == MapLines(lines[1..], f).value[i - 1];
          }
        }
      }
    }
  }

  /** A failed loop fails as the first failing line does. */
  lemma {:induction false} MapLinesFailure<T>(lines: seq<T>, f: T -> Outcome<T>)
    requires !MapLines(lines, f).Ok?
    ensures exists k ::
      && 0 <= k < |lines|
      && SameFailure(f(lines[k]), MapLines(lines, f))
      && (forall j :: 0 <= j < k ==> f(lines[j]).Ok?)
  {
    if f(lines[0]).Ok? {
      MapLinesFailure(lines[1..], f);
      var k :| 0 <= k < |lines[1..]| && SameFailure(f(lines[1..][k]), MapLines(lines[1..], f)) &&
        (forall j :: 0 <= j < k ==> f(lines[1..][j]).Ok?);
      assert SameFailure(f(lines[k + 1]), MapLines(lines, f));
      forall j | 0 <= j < k + 1
        ensures f(lines[j]).Ok?
      {
        if j > 0 { assert lines[j] == lines[1..][j - 1]; }
      }
    } else {
      assert SameFailure(f(lines[0]), MapLines(lines, f));
    }
  }
}
