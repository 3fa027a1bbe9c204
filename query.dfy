/** The two query shapes the backend uses on its tables: `.filter(...).first()`
    and `.filter(...).all()`, both in table order. */
module Query {
  import opened Wrappers

  /** No value occurs twice. */
  predicate Distinct<T(==)>(s: seq<T>) {
    forall i, j :: 0 <= i < j < |s| ==> s[i] != s[j]
  }

  /** Index of the first row satisfying `p`, or None when no row does. */
  function First<T>(rows: seq<T>, p: T -> bool): (r: Option<nat>)
    ensures r.Some? ==> r.value < |rows| && p(rows[r.value])
    ensures r.Some? ==> forall k :: 0 <= k < r.value ==> !p(rows[k])
    ensures r.None? <==> forall k :: 0 <= k < |rows| ==> !p(rows[k])
  {
    if rows == [] then None
    else if p(rows[0]) then Some(0)
    else
      match First(rows[1..], p)
      case None => None
      case Some(i) => Some(i + 1)
  }

  /** The rows satisfying `p`, in table order. */
  function Where<T(!new)>(rows: seq<T>, p: T -> bool): (r: seq<T>)
    ensures |r| <= |rows|
    ensures forall i :: 0 <= i < |r| ==> p(r[i])
  {
    if rows == [] then []
    else Where(rows[..|rows| - 1], p) + (if p(rows[|rows| - 1]) then [rows[|rows| - 1]] else [])
  }

  /** A value is kept by the filter exactly when it is a row that passes. */
  lemma {:induction false} WhereMembers<T(!new)>(rows: seq<T>, p: T -> bool)
    ensures forall x :: x in Where(rows, p) <==> x in rows && p(x)
  {
    if rows != [] {
      var init := rows[..|rows| - 1];
      WhereMembers(init, p);
      assert rows == init + [rows[|rows| - 1]];
    }
  }

  /** Replacing one row by a row that the filter judges alike does not move the first match. */
  lemma {:induction false} FirstAfterUpdate<T>(rows: seq<T>, p: T -> bool, k: nat, row: T)
    requires k < |rows|
    requires p(row) == p(rows[k])
    ensures First(rows[k := row], p) == First(rows, p)
  {
    var updated := rows[k := row];
    assert forall j :: 0 <= j < |rows| ==> p(updated[j]) == p(rows[j]);
    match First(rows, p)
    case None =>
    case Some(i) =>
      assert p(updated[i]);
  }

  /** Appending a row leaves an earlier match in place; otherwise the new row is the first match exactly when it passes. */
  lemma {:induction false} FirstAppend<T>(rows: seq<T>, p: T -> bool, row: T)
    ensures First(rows + [row], p) ==
      if First(rows, p).Some? then First(rows, p) else if p(row) then Some(|rows|) else None
  {
    var all := rows + [row];
    if rows == [] {
      assert all == [row] && all[1..] == [];
    } else {
      assert all[0] == rows[0];
      if !p(rows[0]) {
        assert all[1..] == rows[1..] + [row];
        FirstAppend(rows[1..], p, row);
      }
    }
  }

  /** Rows that all pass the filter are kept as they are. */
  lemma {:induction false} WhereAll<T(!new)>(rows: seq<T>, p: T -> bool)
    requires forall k :: 0 <= k < |rows| ==> p(rows[k])
    ensures Where(rows, p) == rows
  {
    if rows != [] {
      var init := rows[..|rows| - 1];
      var last := rows[|rows| - 1];
      forall k | 0 <= k < |init| ensures p(init[k]) {
        assert init[k] == rows[k];
      }
      WhereAll(init, p);
      calc {
        Where(rows, p);
        Where(init, p) + (if p(last) then [last] else []);
        init + [last];
        rows;
      }
    }
  }

  /** Deleting position `k` commutes with appending a last row after it. */
  lemma DeleteThenAppend<T>(rows: seq<T>, k: nat)
    requires k < |rows| - 1
    ensures var init := rows[..|rows| - 1];
      init[..k] + init[k + 1..] + [rows[|rows| - 1]] == rows[..k] + rows[k + 1..]
  {
    var init := rows[..|rows| - 1];
    assert init[..k] == rows[..k];
    assert init[k + 1..] + [rows[|rows| - 1]] == rows[k + 1..];
  }

  /** When exactly one row fails the filter, filtering deletes that row and keeps the rest in order. */
  lemma {:induction false} WhereDropsOne<T(!new)>(rows: seq<T>, p: T -> bool, k: nat)
    requires k < |rows| && !p(rows[k])
    requires forall j :: 0 <= j < |rows| && j != k ==> p(rows[j])
    ensures Where(rows, p) == rows[..k] + rows[k + 1..]
  {
    var init, last := rows[..|rows| - 1], rows[|rows| - 1];
    assert Where(rows, p) == Where(init, p) + (if p(last) then [last] else []);
    if k == |rows| - 1 {
      WhereAll(init, p);
      assert rows[k + 1..] == [];
    } else {
      assert forall j :: 0 <= j < |init| && j != k ==> p(init[j]);
      WhereDropsOne(init, p, k);
      DeleteThenAppend(rows, k);
    }
  }
}
