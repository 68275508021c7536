/** Shared vocabulary. */
module Basics {

  /** Row identifiers. The service's ids are lower-case uuids. */
  type Id = string

  /** A nullable column or a lookup that may find nothing. */
  datatype Option<+T> = None | Some(value: T)

  function Max(a: int, b: int): int { if a > b then a else b }

  function Min(a: int, b: int): int { if a < b then a else b }

  /** The first row that satisfies `hit`, if there is one. */
  function FindFirst<T>(rows: seq<T>, hit: T -> bool): (r: Option<nat>)
    ensures r.Some? ==> r.value < |rows| && hit(rows[r.value])
    ensures r.None? ==> forall i :: 0 <= i < |rows| ==> !hit(rows[i])
  {
    if rows == [] then None
    else if hit(rows[0]) then Some(0)
    else
      match FindFirst(rows[1..], hit)
      case Some(i) => Some(i + 1)
      case None =>
        assert forall i :: 0 < i < |rows| ==> rows[i] == rows[1..][i - 1];
        None
  }

  /** Replacing a row by one that is hit alike changes no search. */
  lemma {:induction false} FindFirstUpdate<T>(rows: seq<T>, k: nat, row: T, hit: T -> bool)
    requires k < |rows| && hit(row) == hit(rows[k])
    ensures FindFirst(rows[k := row], hit) == FindFirst(rows, hit)
  {
    if k == 0 {
      assert rows[k := row][1..] == rows[1..];
    } else {
      assert rows[k := row][1..] == rows[1..][k - 1 := row];
      FindFirstUpdate(rows[1..], k - 1, row, hit);
    }
  }

  /** Distinct ids from a list are no more than the list is long. */
  lemma {:induction false} DistinctWithin(ids: seq<Id>, pool: seq<Id>)
    requires forall i, j :: 0 <= i < j < |ids| ==> ids[i] != ids[j]
    requires forall i :: 0 <= i < |ids| ==> ids[i] in pool
    ensures |ids| <= |pool|
  {
    if ids != [] {
      var k :| 0 <= k < |pool| && pool[k] == ids[0];
      var others := pool[..k] + pool[k + 1..];
      forall i | 0 <= i < |ids[1..]| ensures ids[1..][i] in others {
        var m :| 0 <= m < |pool| && pool[m] == ids[i + 1];
        assert m != k;
        assert others[if m < k then m else m - 1] == pool[m];
      }
      DistinctWithin(ids[1..], others);
    }
  }

  lemma ScaledComparison(x: real, y: real, k: real)
    requires k > 0.0
    ensures x > y <==> x * k > y * k
    ensures x == y <==> x * k == y * k
  {
    if x > y { assert (x - y) * k > 0.0; }
    if x < y { assert (y - x) * k > 0.0; }
  }

  lemma ProductMonotone(x: real, y: real, k: real)
    requires x <= y && k >= 0.0
    ensures x * k <= y * k && k * x <= k * y
  {
    assert (y - x) * k >= 0.0;
  }
}
