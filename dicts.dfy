/** A Python dictionary filled by a loop over rows, `d[key] = value` for every
    row that names a key: later rows overwrite earlier ones, and the first row
    that raises ends the loop. */
module Dicts {
  import opened Outcomes

  /** What one row does: `Ok(None)` leaves the dictionary alone,
      `Ok(Some((k, v)))` assigns `v` to `k`, a failure ends the loop. */
  type Entry<!R, K, V> = R -> Outcome<Option<(K, V)>>

  /** The dictionary after the rows `rows`. */
  function Fill<R, K(==), V>(rows: seq<R>, entry: Entry<R, K, V>): Outcome<map<K, V>>
  {
    if rows == [] then Ok(map[])
    else match Fill(rows[..|rows| - 1], entry)
      case Ok(d) =>
        (match entry(rows[|rows| - 1])
         case Ok(None) => Ok(d)
         case Ok(Some((k, v))) => Ok(d[k := v])
         case Rejected => Rejected
         case Raised(e) => Raised(e))
      case Rejected => Rejected
      case Raised(e) => Raised(e)
  }

  /** The key row `r` assigns, if any. */
  function KeyOf<R, K, V>(entry: Entry<R, K, V>, r: R): Option<K> {
    if entry(r).Ok? && entry(r).value.Some? then Some(entry(r).value.value.0) else None
  }

  /** One more row on a dictionary filled so far, as the loop body does it. */
  lemma FillStep<R, K, V>(rows: seq<R>, i: nat, entry: Entry<R, K, V>)
    requires i < |rows|
    ensures rows[..i + 1][..i] == rows[..i]
    ensures Fill(rows[..i + 1], entry) ==
      match Fill(rows[..i], entry)
      case Ok(d) =>
        (match entry(rows[i])
         case Ok(None) => Ok(d)
         case Ok(Some((k, v))) => Ok(d[k := v])
         case Rejected => Rejected
         case Raised(e) => Raised(e))
      case Rejected => Rejected
      case Raised(e) => Raised(e)
  {
    assert rows[..i + 1][..i] == rows[..i];
  }

  /** Once a row has failed, the rows after it do not matter. */
  lemma {:induction false} FillStaysFailed<R, K, V>(rows: seq<R>, i: nat, entry: Entry<R, K, V>)
    requires i <= |rows| && !Fill(rows[..i], entry).Ok?
    ensures Fill(rows, entry) == Fill(rows[..i], entry)
    decreases |rows|
  {
    if i < |rows| {
      assert rows[..|rows| - 1][..i] == rows[..i];
      FillStaysFailed(rows[..|rows| - 1], i, entry);
    } else {
      assert rows[..i] == rows;
    }
  }

  /** The loop completes exactly when no row fails; otherwise it fails as the
      first failing row does. */
  lemma {:induction false} FillOk<R, K, V>(rows: seq<R>, entry: Entry<R, K, V>)
    ensures Fill(rows, entry).Ok? <==> forall i :: 0 <= i < |rows| ==> entry(rows[i]).Ok?
    ensures !Fill(rows, entry).Ok? ==> exists k ::
      && 0 <= k < |rows| && SameFailure(entry(rows[k]), Fill(rows, entry))
      && forall j :: 0 <= j < k ==> entry(rows[j]).Ok?
  {
    if rows != [] {
      var front := rows[..|rows| - 1];
      FillOk(front, entry);
      if !Fill(front, entry).Ok? {
        var k :| 0 <= k < |front| && SameFailure(entry(front[k]), Fill(front, entry))
          && forall j :: 0 <= j < k ==> entry(front[j]).Ok?;
        assert front[k] == rows[k];
        assert forall j :: 0 <= j < k ==> front[j] == rows[j];
      } else if entry(rows[|rows| - 1]).Ok? {
        forall i | 0 <= i < |rows|
          ensures entry(rows[i]).Ok?
        {
          if i < |front| {
            assert front[i] == rows[i];
          }
        }
      } else {
        assert forall j :: 0 <= j < |front| ==> front[j] == rows[j];
      }
    }
  }

  /** The value the last row that assigns `k` gives it, `None` when no row
      assigns `k`. */
  function LastValue<R, K(==), V>(rows: seq<R>, entry: Entry<R, K, V>, k: K): (r: Option<V>)
    ensures r.None? <==> forall i :: 0 <= i < |rows| ==> KeyOf(entry, rows[i]) != Some(k)
    ensures r.Some? ==> exists i ::
      && 0 <= i < |rows| && entry(rows[i]) == Ok(Some((k, r.value)))
      && forall j :: i < j < |rows| ==> KeyOf(entry, rows[j]) != Some(k)
  {
    if rows == [] then None
    else
      var last := rows[|rows| - 1];
      var front := rows[..|rows| - 1];
      assert forall i :: 0 <= i < |front| ==> front[i] == rows[i];
      if KeyOf(entry, last) == Some(k) then Some(entry(last).value.value.1)
      else LastValue(front, entry, k)
  }

  /** A completed loop holds exactly the keys some row assigns, each with the
      value of the last row that assigns it. */
  lemma {:induction false} FillKeepsLast<R, K, V>(rows: seq<R>, entry: Entry<R, K, V>)
    requires Fill(rows, entry).Ok?
    ensures forall k :: k in Fill(rows, entry).value <==> LastValue(rows, entry, k).Some?
    ensures forall k :: k in Fill(rows, entry).value ==>
      Fill(rows, entry).value[k] == LastValue(rows, entry, k).value
  {
    if rows != [] {
      FillKeepsLast(rows[..|rows| - 1], entry);
    }
  }

  /** Row by row: the key a row assigns is in a completed dictionary, with
      that row's value when no later row assigns the key. */
  lemma FillKeepsRow<R, K, V>(rows: seq<R>, entry: Entry<R, K, V>, i: nat)
    requires Fill(rows, entry).Ok? && i < |rows| && KeyOf(entry, rows[i]).Some?
    ensures KeyOf(entry, rows[i]).value in Fill(rows, entry).value
    ensures (forall j :: i < j < |rows| ==> KeyOf(entry, rows[j]) != KeyOf(entry, rows[i])) ==>
      Fill(rows, entry).value[KeyOf(entry, rows[i]).value] == entry(rows[i]).value.value.1
  {
    var k := KeyOf(entry, rows[i]).value;
    FillKeepsLast(rows, entry);
    var last := LastValue(rows, entry, k);
    if forall j :: i < j < |rows| ==> KeyOf(entry, rows[j]) != Some(k) {
      var w :| && 0 <= w < |rows| && entry(rows[w]) == Ok(Some((k, last.value)))
        && forall j :: w < j < |rows| ==> KeyOf(entry, rows[j]) != Some(k);
      assert KeyOf(entry, rows[w]) == Some(k);
    }
  }

  /** Every key of a completed dictionary is assigned by some row. */
  lemma FillOnlyKeys<R, K, V>(rows: seq<R>, entry: Entry<R, K, V>, k: K)
    requires Fill(rows, entry).Ok? && k in Fill(rows, entry).value
    ensures exists j :: 0 <= j < |rows| && KeyOf(entry, rows[j]) == Some(k)
  {
    FillKeepsLast(rows, entry);
  }

  /** Two loops whose rows do the same, row by row, fill the same dictionary. */
  lemma {:induction false} FillAlike<R, S, K, V>(rows: seq<R>, entry: Entry<R, K, V>,
                                                    others: seq<S>, other: Entry<S, K, V>)
    requires |rows| == |others|
    requires forall i :: 0 <= i < |rows| ==> entry(rows[i]) == other(others[i])
    ensures Fill(rows, entry) == Fill(others, other)
  {
    if rows != [] {
      var n := |rows| - 1;
      assert forall i :: 0 <= i < n ==> rows[..n][i] == rows[i] && others[..n][i] == others[i];
      FillAlike(rows[..n], entry, others[..n], other);
    }
  }
}
