/**
 * The two ORM lookups the core relies on, over a table held as a sequence of rows:
 * `filter` (the positions of the matching rows, in table order) and `get` (exactly one
 * matching row, or `DoesNotExist`, or `MultipleObjectsReturned`).
 */
module Queries {

  /** No value occurs twice. */
  predicate Distinct<T(==)>(s: seq<T>) {
    forall i, j :: 0 <= i < j < |s| ==> s[i] != s[j]
  }

  /** The outcome of `Model.objects.get(...)`. */
  datatype Lookup = NotFound | Found(index: nat) | Multiple

  /** The positions of the rows satisfying `p`, in increasing order. */
  function Where<T>(rows: seq<T>, p: T -> bool): (r: seq<nat>)
    ensures forall k :: k in r <==> 0 <= k < |rows| && p(rows[k])
    ensures forall i, j :: 0 <= i < j < |r| ==> r[i] < r[j]
    ensures |r| <= |rows|
  {
    if rows == [] then []
    else
      var n := |rows| - 1;
      var front := Where(rows[..n], p);
      assert forall k :: 0 <= k < n ==> rows[..n][k] == rows[k];
      assert forall i :: 0 <= i < |front| ==> front[i] in front && front[i] < n;
      front + (if p(rows[n]) then [n] else [])
  }

  /** `get`: the single matching row, or which of the two errors Django raises. */
  function Get<T>(rows: seq<T>, p: T -> bool): (r: Lookup)
    ensures r.Found? ==> r.index < |rows| && p(rows[r.index])
    ensures r.Found? ==> forall k :: 0 <= k < |rows| && k != r.index ==> !p(rows[k])
    ensures r == NotFound <==> forall k :: 0 <= k < |rows| ==> !p(rows[k])
    ensures r == Multiple <==> exists j, k :: 0 <= j < k < |rows| && p(rows[j]) && p(rows[k])
  {
    var w := Where(rows, p);
    if |w| == 0 then
      assert forall k :: 0 <= k < |rows| ==> k !in w;
      NotFound
    else if |w| == 1 then
      assert w[0] in w;
      Found(w[0])
    else
      assert w[0] in w && w[1] in w;
      Multiple
  }

  /** A lookup that found exactly one row finds it again whenever the predicate is unchanged on every row. */
  lemma {:induction false} GetStable<T>(rows: seq<T>, rows': seq<T>, p: T -> bool)
    requires |rows| == |rows'|
    requires forall k :: 0 <= k < |rows| ==> p(rows[k]) == p(rows'[k])
    ensures Get(rows, p) == Get(rows', p)
  {
    WhereStable(rows, rows', p);
  }

  lemma {:induction false} WhereStable<T>(rows: seq<T>, rows': seq<T>, p: T -> bool)
    requires |rows| == |rows'|
    requires forall k :: 0 <= k < |rows| ==> p(rows[k]) == p(rows'[k])
    ensures Where(rows, p) == Where(rows', p)
  {
    if rows != [] {
      var n := |rows| - 1;
      WhereStable(rows[..n], rows'[..n], p);
    }
  }

  /** A row appended to the table changes a lookup only when it matches. */
  lemma GetAppend<T>(rows: seq<T>, x: T, p: T -> bool)
    ensures !p(x) ==> Get(rows + [x], p) == Get(rows, p)
    ensures p(x) && Get(rows, p) == NotFound ==> Get(rows + [x], p) == Found(|rows|)
    ensures p(x) && Get(rows, p) != NotFound ==> Get(rows + [x], p) == Multiple
  {
    var all := rows + [x];
    assert all[..|rows|] == rows;
    assert Where(all, p) == Where(rows, p) + (if p(x) then [|rows|] else []);
  }
}
