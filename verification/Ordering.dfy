/**
 Sorting with a comparator, as the priority queue and the committee draw use it.

 Array.prototype.sort is modelled by a stable insertion sort. What the two callers rely
 on is proved here once: when the comparator is a strict order that separates the elements,
 the result is the one increasing arrangement of them, whatever order they arrived in.
 */
module Ordering {
  import opened Basics

  /** Order of two ids, character by character. */
  predicate IdBefore(a: Id, b: Id) {
    if b == "" then false
    else if a == "" then true
    else if a[0] != b[0] then a[0] < b[0]
    else IdBefore(a[1..], b[1..])
  }

  lemma {:induction false} IdBeforeIsTotal(a: Id, b: Id)
    ensures !IdBefore(a, a)
    ensures a != b ==> IdBefore(a, b) != IdBefore(b, a)
  {
    if a != "" {
      IdBeforeIsTotal(a[1..], if b == "" then "" else b[1..]);
    }
    if a != "" && b != "" && a[0] == b[0] && a != b {
      assert a == [a[0]] + a[1..] && b == [b[0]] + b[1..];
      assert a[1..] != b[1..];
    }
  }

  lemma {:induction false} IdBeforeIsTransitive(a: Id, b: Id, c: Id)
    requires IdBefore(a, b) && IdBefore(b, c)
    ensures IdBefore(a, c)
  {
    if a != "" && a[0] == b[0] && b[0] == c[0] {
      IdBeforeIsTransitive(a[1..], b[1..], c[1..]);
    }
  }

  /** The comparator is irreflexive and transitive. */
  ghost predicate StrictOrder<T(!new)>(before: (T, T) -> bool) {
    && (forall x :: !before(x, x))
    && (forall x, y, z :: before(x, y) && before(y, z) ==> before(x, z))
  }

  /** The comparator orders any two entries of the list. */
  ghost predicate Separates<T(!new)>(before: (T, T) -> bool, xs: seq<T>) {
    forall i, j :: 0 <= i < j < |xs| ==> before(xs[i], xs[j]) || before(xs[j], xs[i])
  }

  /** Every entry comes before all the later ones. */
  ghost predicate Increasing<T(!new)>(before: (T, T) -> bool, xs: seq<T>) {
    forall i, j :: 0 <= i < j < |xs| ==> before(xs[i], xs[j])
  }

  function Insert<T>(x: T, xs: seq<T>, before: (T, T) -> bool): (r: seq<T>)
    ensures multiset(r) == multiset([x] + xs)
  {
    if xs == [] || !before(xs[0], x) then [x] + xs
    else
      var r := [xs[0]] + Insert(x, xs[1..], before);
      assert xs == [xs[0]] + xs[1..];
      r
  }

  function Sort<T>(xs: seq<T>, before: (T, T) -> bool): (r: seq<T>)
    ensures multiset(r) == multiset(xs)
  {
    if xs == [] then []
    else
      assert xs == [xs[0]] + xs[1..];
      Insert(xs[0], Sort(xs[1..], before), before)
  }

  lemma PermutationLength<T>(xs: seq<T>, ys: seq<T>)
    requires multiset(xs) == multiset(ys)
    ensures |xs| == |ys|
  {
    assert |multiset(xs)| == |multiset(ys)|;
  }

  lemma SortMembers<T(!new)>(xs: seq<T>, before: (T, T) -> bool)
    ensures |Sort(xs, before)| == |xs|
    ensures forall x :: x in Sort(xs, before) <==> x in xs
  {
    PermutationLength(Sort(xs, before), xs);
    forall x ensures x in Sort(xs, before) <==> x in xs {
      assert x in xs <==> x in multiset(xs);
      assert x in Sort(xs, before) <==> x in multiset(Sort(xs, before));
    }
  }

  lemma {:induction false} InsertIncreasing<T(!new)>(x: T, xs: seq<T>, before: (T, T) -> bool)
    requires StrictOrder(before) && Increasing(before, xs)
    requires forall y :: y in xs ==> before(x, y) || before(y, x)
    ensures Increasing(before, Insert(x, xs, before))
  {
    if xs != [] && before(xs[0], x) {
      InsertIncreasing(x, xs[1..], before);
      var tail := Insert(x, xs[1..], before);
      forall y | y in tail ensures before(xs[0], y) {
        assert y in multiset(tail);
        assert y in [x] + xs[1..];
        if y != x {
          var j :| 0 <= j < |xs[1..]| && xs[1..][j] == y;
          assert before(xs[0], xs[1 + j]);
        }
      }
      var r := [xs[0]] + tail;
      forall i, j | 0 <= i < j < |r| ensures before(r[i], r[j]) {
        if i == 0 {
          assert r[j] == tail[j - 1] && tail[j - 1] in tail;
        }
      }
    } else if xs != [] {
      assert xs[0] in xs;
      forall j | 0 <= j < |xs| ensures before(x, xs[j]) {
        assert j > 0 ==> before(xs[0], xs[j]);
      }
    }
  }

  lemma {:induction false} SortIncreasing<T(!new)>(xs: seq<T>, before: (T, T) -> bool)
    requires StrictOrder(before) && Separates(before, xs)
    ensures Increasing(before, Sort(xs, before))
  {
    if xs != [] {
      var tail := xs[1..];
      assert forall i :: 0 <= i < |tail| ==> tail[i] == xs[i + 1];
      SortIncreasing(tail, before);
      SortMembers(tail, before);
      forall y | y in Sort(tail, before) ensures before(xs[0], y) || before(y, xs[0]) {
        var j :| 0 <= j < |tail| && tail[j] == y;
        assert xs[j + 1] == y;
      }
      InsertIncreasing(xs[0], Sort(tail, before), before);
    }
  }

  /** There is only one increasing arrangement of a collection. */
  lemma {:induction false} IncreasingIsUnique<T(!new)>(xs: seq<T>, ys: seq<T>, before: (T, T) -> bool)
    requires StrictOrder(before)
    requires Increasing(before, xs) && Increasing(before, ys)
    requires multiset(xs) == multiset(ys)
    ensures xs == ys
  {
    PermutationLength(xs, ys);
    if xs != [] {
      SameFirst(xs, ys, before);
      RestOf(xs);
      RestOf(ys);
      IncreasingIsUnique(xs[1..], ys[1..], before);
      assert xs == [xs[0]] + xs[1..] && ys == [ys[0]] + ys[1..];
    }
  }

  lemma SameFirst<T(!new)>(xs: seq<T>, ys: seq<T>, before: (T, T) -> bool)
    requires StrictOrder(before) && Increasing(before, xs) && Increasing(before, ys)
    requires xs != [] && ys != [] && multiset(xs) == multiset(ys)
    ensures xs[0] == ys[0]
  {
    assert xs[0] in multiset(ys) && ys[0] in multiset(xs);
    var j :| 0 <= j < |ys| && ys[j] == xs[0];
    var i :| 0 <= i < |xs| && xs[i] == ys[0];
    var x, y := xs[0], ys[0];
    assert x == y || before(x, y);
    assert x == y || before(y, x);
  }

  lemma RestOf<T>(xs: seq<T>)
    requires xs != []
    ensures multiset(xs[1..]) == multiset(xs) - multiset{xs[0]}
  {
    assert xs == [xs[0]] + xs[1..];
  }

  /** Comparators that agree on the entries sort them alike. */
  lemma {:induction false} SortCongruence<T(!new)>(xs: seq<T>, f: (T, T) -> bool, g: (T, T) -> bool)
    requires forall x, y :: x in xs && y in xs ==> f(x, y) == g(x, y)
    ensures Sort(xs, f) == Sort(xs, g)
  {
    if xs != [] {
      SortCongruence(xs[1..], f, g);
      SortMembers(xs[1..], f);
      InsertCongruence(xs[0], Sort(xs[1..], f), f, g);
    }
  }

  lemma {:induction false} InsertCongruence<T(!new)>(x: T, xs: seq<T>, f: (T, T) -> bool, g: (T, T) -> bool)
    requires forall y :: y in xs ==> f(y, x) == g(y, x)
    ensures Insert(x, xs, f) == Insert(x, xs, g)
  {
    if xs != [] {
      assert xs[0] in xs;
      InsertCongruence(x, xs[1..], f, g);
    }
  }

  lemma SeparatesParts<T(!new)>(head: seq<T>, rest: seq<T>, before: (T, T) -> bool)
    requires Separates(before, head + rest)
    ensures Separates(before, head) && Separates(before, rest)
  {
    var all := head + rest;
    forall i, j | 0 <= i < j < |head| ensures before(head[i], head[j]) || before(head[j], head[i]) {
      assert all[i] == head[i] && all[j] == head[j];
    }
    forall i, j | 0 <= i < j < |rest| ensures before(rest[i], rest[j]) || before(rest[j], rest[i]) {
      assert all[|head| + i] == rest[i] && all[|head| + j] == rest[j];
    }
  }

  lemma IncreasingJoin<T(!new)>(head: seq<T>, rest: seq<T>, before: (T, T) -> bool)
    requires Increasing(before, head) && Increasing(before, rest)
    requires forall h, r :: h in head && r in rest ==> before(h, r)
    ensures Increasing(before, head + rest)
  {
    var joined := head + rest;
    forall i, j | 0 <= i < j < |joined| ensures before(joined[i], joined[j]) {
      if i < |head| && |head| <= j {
        assert joined[i] in head && joined[j] in rest;
      }
    }
  }

  /** A head whose entries all come before the rest is the head of the sorted whole. */
  lemma SortSplits<T(!new)>(xs: seq<T>, head: seq<T>, rest: seq<T>, before: (T, T) -> bool)
    requires StrictOrder(before) && Separates(before, xs)
    requires multiset(xs) == multiset(head + rest)
    requires forall h, r :: h in head && r in rest ==> before(h, r)
    ensures Sort(xs, before) == Sort(head, before) + Sort(rest, before)
  {
    SeparatesPermutation(xs, head + rest, before);
    SeparatesParts(head, rest, before);
    SortIncreasing(head, before);
    SortIncreasing(rest, before);
    SortIncreasing(xs, before);
    SortMembers(head, before);
    SortMembers(rest, before);
    IncreasingJoin(Sort(head, before), Sort(rest, before), before);
    IncreasingIsUnique(Sort(xs, before), Sort(head, before) + Sort(rest, before), before);
  }

  /** Separation is a property of the collection, not of its arrangement. */
  lemma {:induction false} SeparatesPermutation<T(!new)>(xs: seq<T>, ys: seq<T>, before: (T, T) -> bool)
    requires StrictOrder(before) && Separates(before, xs)
    requires multiset(xs) == multiset(ys)
    ensures Separates(before, ys)
  {
    SortIncreasing(xs, before);
    var s := Sort(xs, before);
    forall i, j | 0 <= i < j < |ys| ensures before(ys[i], ys[j]) || before(ys[j], ys[i]) {
      TwoPlaces(s, ys, i, j);
      var a, b :| 0 <= a < |s| && 0 <= b < |s| && a != b && s[a] == ys[i] && s[b] == ys[j];
      assert a < b ==> before(s[a], s[b]);
      assert b < a ==> before(s[b], s[a]);
    }
  }

  lemma TwoPlaces<T(!new)>(s: seq<T>, ys: seq<T>, i: nat, j: nat)
    requires multiset(s) == multiset(ys) && i < j < |ys|
    ensures exists a, b :: 0 <= a < |s| && 0 <= b < |s| && a != b && s[a] == ys[i] && s[b] == ys[j]
  {
    assert ys[i] in multiset(ys) && ys[j] in multiset(ys);
    var a :| 0 <= a < |s| && s[a] == ys[i];
    if ys[i] != ys[j] {
      var b :| 0 <= b < |s| && s[b] == ys[j];
      assert a != b;
    } else {
      assert multiset(ys)[ys[j]] >= 2 by {
        assert ys == ys[..j] + ys[j..];
        assert ys[j..][0] == ys[j] && ys[..j][i] == ys[j];
        assert ys[j] in ys[j..] && ys[j] in ys[..j];
      }
      RepeatedTwice(s, ys[j]);
    }
  }

  lemma {:induction false} RepeatedTwice<T>(s: seq<T>, x: T)
    requires multiset(s)[x] >= 2
    ensures exists a, b :: 0 <= a < b < |s| && s[a] == x && s[b] == x
  {
    assert s == [s[0]] + s[1..];
    if s[0] == x {
      assert x in multiset(s[1..]);
      var c :| 0 <= c < |s[1..]| && s[1..][c] == x;
      assert s[0] == x && s[c + 1] == x;
    } else {
      RepeatedTwice(s[1..], x);
      var a, b :| 0 <= a < b < |s[1..]| && s[1..][a] == x && s[1..][b] == x;
      assert s[a + 1] == x && s[b + 1] == x;
    }
  }

  /** The sorted list does not depend on the order of the input. */
  lemma SortIsCanonical<T(!new)>(xs: seq<T>, ys: seq<T>, before: (T, T) -> bool)
    requires StrictOrder(before) && Separates(before, xs)
    requires multiset(xs) == multiset(ys)
    ensures Sort(xs, before) == Sort(ys, before)
  {
    SeparatesPermutation(xs, ys, before);
    SortIncreasing(xs, before);
    SortIncreasing(ys, before);
    IncreasingIsUnique(Sort(xs, before), Sort(ys, before), before);
  }

  function Filter<T(!new)>(xs: seq<T>, keep: T -> bool): (r: seq<T>)
    ensures forall x :: x in r <==> x in xs && keep(x)
  {
    if xs == [] then []
    else (if keep(xs[0]) then [xs[0]] else []) + Filter(xs[1..], keep)
  }

  lemma {:induction false} FilterAppend<T(!new)>(xs: seq<T>, ys: seq<T>, keep: T -> bool)
    ensures Filter(xs + ys, keep) == Filter(xs, keep) + Filter(ys, keep)
  {
    if xs == [] {
      assert xs + ys == ys;
    } else {
      assert (xs + ys)[1..] == xs[1..] + ys;
      FilterAppend(xs[1..], ys, keep);
    }
  }

  lemma {:induction false} FilterCounts<T(!new)>(xs: seq<T>, keep: T -> bool, x: T)
    ensures multiset(Filter(xs, keep))[x] == if keep(x) then multiset(xs)[x] else 0
  {
    if xs != [] {
      assert xs == [xs[0]] + xs[1..];
      FilterCounts(xs[1..], keep, x);
    }
  }

  lemma FilterPermutation<T(!new)>(xs: seq<T>, ys: seq<T>, keep: T -> bool)
    requires multiset(xs) == multiset(ys)
    ensures multiset(Filter(xs, keep)) == multiset(Filter(ys, keep))
  {
    forall x ensures multiset(Filter(xs, keep))[x] == multiset(Filter(ys, keep))[x] {
      FilterCounts(xs, keep, x);
      FilterCounts(ys, keep, x);
    }
  }

  lemma {:induction false} FilterIncreasing<T(!new)>(xs: seq<T>, keep: T -> bool, before: (T, T) -> bool)
    requires Increasing(before, xs)
    ensures Increasing(before, Filter(xs, keep))
  {
    if xs != [] {
      assert forall i :: 0 <= i < |xs[1..]| ==> xs[1..][i] == xs[i + 1];
      FilterIncreasing(xs[1..], keep, before);
      var tail := Filter(xs[1..], keep);
      forall y | y in tail ensures before(xs[0], y) {
        var j :| 0 <= j < |xs[1..]| && xs[1..][j] == y;
        assert xs[j + 1] == y;
      }
      var r := Filter(xs, keep);
      if keep(xs[0]) {
        assert r == [xs[0]] + tail;
        forall i, j | 0 <= i < j < |r| ensures before(r[i], r[j]) {
          if i == 0 {
            assert r[j] == tail[j - 1] && tail[j - 1] in tail;
          } else {
            assert r[i] == tail[i - 1] && r[j] == tail[j - 1];
          }
        }
      } else {
        assert r == tail;
      }
    }
  }

  /** Filtering the input and filtering the ranking give the same ranking. */
  lemma SortOfFilter<T(!new)>(xs: seq<T>, keep: T -> bool, before: (T, T) -> bool)
    requires StrictOrder(before) && Separates(before, xs)
    ensures Sort(Filter(xs, keep), before) == Filter(Sort(xs, before), keep)
  {
    SortIncreasing(xs, before);
    FilterIncreasing(Sort(xs, before), keep, before);
    FilterPermutation(Sort(xs, before), xs, keep);
    var ranked := Filter(Sort(xs, before), keep);
    assert Separates(before, ranked);
    SeparatesPermutation(ranked, Filter(xs, keep), before);
    SortIncreasing(Filter(xs, keep), before);
    IncreasingIsUnique(Sort(Filter(xs, keep), before), ranked, before);
  }

  /** Replacing a kept entry by a kept entry replaces it in the filtered list. */
  lemma {:induction false} FilterUpdate<T(!new)>(xs: seq<T>, k: nat, y: T, keep: T -> bool) returns (p: nat)
    requires k < |xs| && keep(xs[k]) && keep(y)
    ensures p < |Filter(xs, keep)| && Filter(xs, keep)[p] == xs[k]
    ensures Filter(xs[k := y], keep) == Filter(xs, keep)[p := y]
  {
    var ys := xs[k := y];
    if k == 0 {
      assert ys[1..] == xs[1..];
      p := 0;
    } else {
      assert ys[1..] == xs[1..][k - 1 := y] && ys[0] == xs[0];
      var q := FilterUpdate(xs[1..], k - 1, y, keep);
      p := if keep(xs[0]) then q + 1 else q;
      ConsUpdate(xs[0], Filter(xs[1..], keep), q, y);
    }
  }

  lemma ConsUpdate<T>(x: T, xs: seq<T>, p: nat, y: T)
    requires p < |xs|
    ensures ([x] + xs)[p + 1 := y] == [x] + xs[p := y]
  {
  }

  /** No two entries share a key. */
  ghost predicate DistinctBy<T>(xs: seq<T>, key: T -> Id) {
    forall i, j :: 0 <= i < j < |xs| ==> key(xs[i]) != key(xs[j])
  }

  lemma {:induction false} FilterKeepsDistinct<T(!new)>(xs: seq<T>, keep: T -> bool, key: T -> Id)
    requires DistinctBy(xs, key)
    ensures DistinctBy(Filter(xs, keep), key)
  {
    if xs != [] {
      FilterKeepsDistinct(xs[1..], keep, key);
      var tail := Filter(xs[1..], keep);
      forall y | y in tail ensures key(y) != key(xs[0]) {
        var j :| 0 <= j < |xs[1..]| && xs[1..][j] == y;
        assert xs[j + 1] == y;
      }
      if keep(xs[0]) {
        DistinctCons(xs[0], tail, key);
      }
    }
  }

  lemma DistinctCons<T>(x: T, xs: seq<T>, key: T -> Id)
    requires DistinctBy(xs, key)
    requires forall y :: y in xs ==> key(y) != key(x)
    ensures DistinctBy([x] + xs, key)
  {
    var r := [x] + xs;
    forall i, j | 0 <= i < j < |r| ensures key(r[i]) != key(r[j]) {
      assert r[j] == xs[j - 1] && xs[j - 1] in xs;
      assert i > 0 ==> r[i] == xs[i - 1];
    }
  }

  lemma DistinctPermutation<T(!new)>(xs: seq<T>, ys: seq<T>, key: T -> Id)
    requires DistinctBy(xs, key) && multiset(xs) == multiset(ys)
    ensures DistinctBy(ys, key)
  {
    forall i, j | 0 <= i < j < |ys| ensures key(ys[i]) != key(ys[j]) {
      TwoPlaces(xs, ys, i, j);
      var a, b :| 0 <= a < |xs| && 0 <= b < |xs| && a != b && xs[a] == ys[i] && xs[b] == ys[j];
    }
  }

  lemma SameKeySameEntry<T>(xs: seq<T>, a: T, b: T, key: T -> Id)
    requires DistinctBy(xs, key) && a in xs && b in xs && key(a) == key(b)
    ensures a == b
  {
  }

  /** Number of entries the comparator puts ahead of `x`. */
  function Ahead<T>(xs: seq<T>, x: T, before: (T, T) -> bool): nat {
    if xs == [] then 0
    else (if before(xs[0], x) then 1 else 0) + Ahead(xs[1..], x, before)
  }

  lemma {:induction false} AheadOfInsert<T>(y: T, xs: seq<T>, x: T, before: (T, T) -> bool)
    ensures Ahead(Insert(y, xs, before), x, before) == Ahead([y] + xs, x, before)
  {
    assert ([y] + xs)[1..] == xs;
    if xs != [] && before(xs[0], y) {
      AheadOfInsert(y, xs[1..], x, before);
      assert ([y] + xs[1..])[1..] == xs[1..];
      assert Insert(y, xs, before)[1..] == Insert(y, xs[1..], before);
    }
  }

  lemma {:induction false} AheadOfSort<T>(xs: seq<T>, x: T, before: (T, T) -> bool)
    ensures Ahead(Sort(xs, before), x, before) == Ahead(xs, x, before)
  {
    if xs != [] {
      AheadOfSort(xs[1..], x, before);
      AheadOfInsert(xs[0], Sort(xs[1..], before), x, before);
      assert ([xs[0]] + Sort(xs[1..], before))[1..] == Sort(xs[1..], before);
    }
  }

  lemma {:induction false} AheadIsRank<T(!new)>(xs: seq<T>, i: nat, before: (T, T) -> bool)
    requires StrictOrder(before) && Increasing(before, xs) && i < |xs|
    ensures Ahead(xs, xs[i], before) == i
  {
    var tail := xs[1..];
    assert forall k :: 0 <= k < |tail| ==> tail[k] == xs[k + 1];
    if i == 0 {
      NoneAhead(tail, xs[0], before);
    } else {
      AheadIsRank(tail, i - 1, before);
      assert before(xs[0], xs[i]);
    }
  }

  lemma {:induction false} NoneAhead<T(!new)>(xs: seq<T>, x: T, before: (T, T) -> bool)
    requires StrictOrder(before)
    requires forall k :: 0 <= k < |xs| ==> before(x, xs[k])
    ensures Ahead(xs, x, before) == 0
  {
    if xs != [] {
      assert before(x, xs[0]) && !before(x, x);
      NoneAhead(xs[1..], x, before);
    }
  }

  /** An entry is at place i of the sorted list exactly when i entries are ahead of it. */
  lemma RankInSort<T(!new)>(xs: seq<T>, x: T, before: (T, T) -> bool)
    requires StrictOrder(before) && Separates(before, xs) && x in xs
    ensures Ahead(xs, x, before) < |xs|
    ensures |Sort(xs, before)| == |xs| && Sort(xs, before)[Ahead(xs, x, before)] == x
  {
    SortMembers(xs, before);
    SortIncreasing(xs, before);
    var s := Sort(xs, before);
    var i :| 0 <= i < |s| && s[i] == x;
    AheadIsRank(s, i, before);
    AheadOfSort(xs, x, before);
  }

  /** Pointwise: if nobody new gets ahead, the rank does not get worse. */
  lemma {:induction false} AheadImproves<T>(xs: seq<T>, x: T, ys: seq<T>, y: T, before: (T, T) -> bool)
    requires |xs| == |ys|
    requires forall k :: 0 <= k < |xs| ==> before(ys[k], y) ==> before(xs[k], x)
    ensures Ahead(ys, y, before) <= Ahead(xs, x, before)
  {
    if xs != [] {
      AheadImproves(xs[1..], x, ys[1..], y, before);
    }
  }
}
