/**
 When the database cuts off the right jobs (src/modules/jobs/jobs.service.ts, src/modules/jobs/priority.ts): the
 exact condition under which every answer the query may give lists the head of the queue.
 */
module QueueCut {
  import opened Ordering
  import opened Priority

  /** Listing `head` is listing the first entries of the queue of all pending jobs. */
  ghost predicate ListsHead(head: seq<Job>, pending: seq<Job>, now: int, o: Options) {
    && |head| <= |OrderQueue(pending, now, o)|
    && OrderQueue(head, now, o) == OrderQueue(pending, now, o)[..|head|]
  }

  /** The query ranks each of the first `limit` jobs of the queue strictly before each later one. */
  ghost predicate CutIsSharp(pending: seq<Job>, limit: nat, now: int, o: Options)
    requires o.feeUnitWei > 0
  {
    var q := Sort(pending, QueueBefore(now, o));
    forall i, j :: 0 <= i < limit <= j < |q| ==> SqlBefore(q[i], q[j], now, o)
  }

  function Elements(xs: seq<Job>): set<Job> { set x | x in xs }

  lemma {:induction false} ElementCount(xs: seq<Job>)
    requires DistinctJobs(xs)
    ensures |Elements(xs)| == |xs|
  {
    if xs != [] {
      ElementCount(xs[1..]);
      assert Elements(xs) == Elements(xs[1..]) + {xs[0]};
      forall x | x in xs[1..] ensures x != xs[0] {
        var k :| 0 <= k < |xs[1..]| && xs[1..][k] == x;
        assert JobId(xs[k + 1]) != JobId(xs[0]);
      }
    }
  }

  lemma PartsOfDistinct(all: seq<Job>, head: seq<Job>, rest: seq<Job>)
    requires DistinctJobs(all) && multiset(head + rest) == multiset(all)
    ensures DistinctJobs(head) && DistinctJobs(rest)
    ensures forall x :: x in head ==> x !in rest
    ensures forall x :: x in all <==> x in head || x in rest
  {
    var joined := head + rest;
    DistinctPermutation(all, joined, JobId);
    forall i, j | 0 <= i < j < |head| ensures JobId(head[i]) != JobId(head[j]) {
      assert joined[i] == head[i] && joined[j] == head[j];
    }
    forall i, j | 0 <= i < j < |rest| ensures JobId(rest[i]) != JobId(rest[j]) {
      assert joined[|head| + i] == rest[i] && joined[|head| + j] == rest[j];
    }
    forall x | x in head ensures x !in rest {
      var i :| 0 <= i < |head| && head[i] == x;
      forall j | 0 <= j < |rest| ensures rest[j] != x {
        assert joined[i] == x && joined[|head| + j] == rest[j];
        assert JobId(joined[i]) != JobId(joined[|head| + j]);
      }
    }
    forall x ensures x in all <==> x in head || x in rest {
      assert x in all <==> x in multiset(all);
      assert x in joined <==> x in multiset(joined);
    }
  }

  /** If one of two equally large sets has an element the other lacks, the other has one, too. */
  lemma Exchange(a: set<Job>, b: set<Job>, x: Job) returns (y: Job)
    requires |a| == |b| && x in a && x !in b
    ensures y in b && y !in a
  {
    if b <= a {
      SubsetSize(b, a - {x});
    }
    y :| y in b && y !in a;
  }

  /** Two ways to split the same jobs after `n`: if one head has a job the other lacks, there is a swap. */
  lemma FindSwap(q: seq<Job>, head: seq<Job>, rest: seq<Job>, h: Job) returns (i: nat, j: nat)
    requires DistinctJobs(q) && multiset(head + rest) == multiset(q) && |head| <= |q|
    requires h in head && h !in q[..|head|]
    ensures i < |head| <= j < |q| && q[i] in rest && q[j] == h
  {
    var n := |head|;
    var first, later := q[..n], q[n..];
    assert first + later == q;
    PartsOfDistinct(q, head, rest);
    PartsOfDistinct(q, first, later);
    ElementCount(head);
    ElementCount(first);
    var left := Exchange(Elements(head), Elements(first), h);
    i :| 0 <= i < |first| && first[i] == left;
    var k :| 0 <= k < |later| && later[k] == h;
    j := n + k;
  }

  /** A sharp cut: whatever the query answers, its jobs are the first ones of the queue. */
  lemma SharpTakesHead(head: seq<Job>, rest: seq<Job>, pending: seq<Job>, limit: nat, now: int, o: Options, h: Job)
    requires o.feeUnitWei > 0 && QueryAnswer(head, rest, pending, limit, now, o)
    requires DistinctJobs(pending) && CutIsSharp(pending, limit, now, o) && h in head
    ensures |head| <= |Sort(pending, QueueBefore(now, o))| && h in Sort(pending, QueueBefore(now, o))[..|head|]
  {
    var q := Sort(pending, QueueBefore(now, o));
    SortMembers(pending, QueueBefore(now, o));
    DistinctPermutation(pending, q, JobId);
    if h !in q[..|head|] {
      var i, j := FindSwap(q, head, rest, h);
      NoSwap(head, rest, pending, limit, now, o, i, j);
    }
  }

  /** A sharp cut never leaves an early job for a late one. */
  lemma NoSwap(head: seq<Job>, rest: seq<Job>, pending: seq<Job>, limit: nat, now: int, o: Options, i: nat, j: nat)
    requires o.feeUnitWei > 0 && QueryAnswer(head, rest, pending, limit, now, o)
    requires CutIsSharp(pending, limit, now, o)
    requires i < limit <= j < |Sort(pending, QueueBefore(now, o))|
    ensures var q := Sort(pending, QueueBefore(now, o)); q[i] in rest ==> q[j] !in head
  {
  }

  lemma SharpListsHead(head: seq<Job>, rest: seq<Job>, pending: seq<Job>, limit: nat, now: int, o: Options)
    requires o.feeUnitWei > 0 && QueryAnswer(head, rest, pending, limit, now, o)
    requires DistinctJobs(pending) && CutIsSharp(pending, limit, now, o)
    ensures ListsHead(head, pending, now, o)
  {
    var before := QueueBefore(now, o);
    var q, n := Sort(pending, before), |head|;
    DistinctJobsSeparate(pending, now, o);
    SortIncreasing(pending, before);
    SortMembers(pending, before);
    forall h, r | h in head && r in rest ensures before(h, r) {
      SharpTakesHead(head, rest, pending, limit, now, o, h);
      RestIsLater(head, rest, pending, limit, now, o, r);
      FirstBeforeLater(q, n, before, h, r);
    }
    SortSplits(pending, head, rest, before);
    SortMembers(head, before);
    assert q[..n] == Sort(head, before);
    EntriesOfPrefix(pending, head, now, o);
  }

  lemma FirstBeforeLater(q: seq<Job>, n: nat, before: (Job, Job) -> bool, h: Job, r: Job)
    requires Increasing(before, q) && n <= |q| && h in q[..n] && exists j :: n <= j < |q| && q[j] == r
    ensures before(h, r)
  {
    var i :| 0 <= i < n && q[i] == h;
    var j :| n <= j < |q| && q[j] == r;
  }

  lemma RestIsLater(head: seq<Job>, rest: seq<Job>, pending: seq<Job>, limit: nat, now: int, o: Options, r: Job)
    requires o.feeUnitWei > 0 && QueryAnswer(head, rest, pending, limit, now, o)
    requires DistinctJobs(pending) && CutIsSharp(pending, limit, now, o) && r in rest
    ensures |head| <= |Sort(pending, QueueBefore(now, o))|
    ensures exists j :: |head| <= j < |Sort(pending, QueueBefore(now, o))| && Sort(pending, QueueBefore(now, o))[j] == r
  {
    var q, n := Sort(pending, QueueBefore(now, o)), |head|;
    SortMembers(pending, QueueBefore(now, o));
    DistinctPermutation(pending, q, JobId);
    PartsOfDistinct(q, head, rest);
    var j :| 0 <= j < |q| && q[j] == r;
    if j < n {
      var h := FindLeftOut(q, head, rest, r);
      SharpTakesHead(head, rest, pending, limit, now, o, h);
      assert false;
    }
  }

  /** A job of the one head that the other head lacks means a job the other way round. */
  lemma FindLeftOut(q: seq<Job>, head: seq<Job>, rest: seq<Job>, r: Job) returns (h: Job)
    requires DistinctJobs(q) && multiset(head + rest) == multiset(q) && |head| <= |q|
    requires r in rest && r in q[..|head|]
    ensures h in head && h !in q[..|head|]
  {
    var first, later := q[..|head|], q[|head|..];
    assert first + later == q;
    PartsOfDistinct(q, head, rest);
    PartsOfDistinct(q, first, later);
    ElementCount(head);
    ElementCount(first);
    h := Exchange(Elements(first), Elements(head), r);
  }

  // ------------------------------------------------------- a blunt cut can miss

  /** The query's order with its ties broken in favour of `star`, then by id: one of the orders the database
      may produce. */
  function Favouring(star: Job, now: int, o: Options): (Job, Job) -> bool
    requires o.feeUnitWei > 0
  {
    (x: Job, y: Job) =>
      SqlBefore(x, y, now, o)
      || (!SqlBefore(y, x, now, o)
          && if x == star then y != star else y != star && IdBefore(x.id, y.id))
  }

  lemma FavouringIsStrict(star: Job, now: int, o: Options)
    requires o.feeUnitWei > 0
    ensures StrictOrder(Favouring(star, now, o))
  {
    var before := Favouring(star, now, o);
    forall x: Job ensures !before(x, x) {
      IdBeforeIsTotal(x.id, x.id);
    }
    forall x: Job, y: Job, z: Job | before(x, y) && before(y, z) ensures before(x, z) {
      FavouringChains(star, x, y, z, now, o);
    }
  }

  lemma FavouringChains(star: Job, x: Job, y: Job, z: Job, now: int, o: Options)
    requires o.feeUnitWei > 0 && Favouring(star, now, o)(x, y) && Favouring(star, now, o)(y, z)
    ensures Favouring(star, now, o)(x, z)
  {
    if x != star && y != star && z != star && IdBefore(x.id, y.id) && IdBefore(y.id, z.id) {
      IdBeforeIsTransitive(x.id, y.id, z.id);
    }
  }

  lemma FavouringSeparates(star: Job, pending: seq<Job>, now: int, o: Options)
    requires o.feeUnitWei > 0 && DistinctJobs(pending)
    ensures Separates(Favouring(star, now, o), pending)
  {
    forall i, j | 0 <= i < j < |pending|
      ensures Favouring(star, now, o)(pending[i], pending[j]) || Favouring(star, now, o)(pending[j], pending[i])
    {
      assert JobId(pending[i]) != JobId(pending[j]);
      IdBeforeIsTotal(pending[i].id, pending[j].id);
    }
  }

  /** Cutting that order at the limit is an answer the query may give. */
  lemma FavouringAnswers(star: Job, pending: seq<Job>, limit: nat, now: int, o: Options)
    requires o.feeUnitWei > 0 && DistinctJobs(pending) && limit <= |pending|
    ensures var s := Sort(pending, Favouring(star, now, o));
            && |s| == |pending| && Increasing(Favouring(star, now, o), s)
            && QueryAnswer(s[..limit], s[limit..], pending, limit, now, o)
  {
    var before, sql := Favouring(star, now, o), SqlOrder(now, o);
    var s := Sort(pending, before);
    FavouringIsStrict(star, now, o);
    FavouringSeparates(star, pending, now, o);
    SortIncreasing(pending, before);
    SortMembers(pending, before);
    forall i, j | 0 <= i < j < |s| ensures !sql(s[j], s[i]) {
      FavouringRefines(star, s[i], s[j], now, o);
    }
    CutInOrder(s, limit, sql);
    AnswersOrder(s, pending, limit, now, o);
  }

  function SqlOrder(now: int, o: Options): (Job, Job) -> bool
    requires o.feeUnitWei > 0
  {
    (x: Job, y: Job) => SqlBefore(x, y, now, o)
  }

  lemma FavouringRefines(star: Job, x: Job, y: Job, now: int, o: Options)
    requires o.feeUnitWei > 0 && Favouring(star, now, o)(x, y)
    ensures !SqlOrder(now, o)(y, x)
  {
  }

  /** No entry after the cut comes before one ahead of it. */
  lemma CutInOrder(s: seq<Job>, limit: nat, sql: (Job, Job) -> bool)
    requires limit <= |s| && forall i, j :: 0 <= i < j < |s| ==> !sql(s[j], s[i])
    ensures s[..limit] + s[limit..] == s
    ensures forall i, j :: 0 <= i < j < limit ==> !sql(s[..limit][j], s[..limit][i])
    ensures forall h, r :: h in s[..limit] && r in s[limit..] ==> !sql(r, h)
  {
    forall h, r | h in s[..limit] && r in s[limit..] ensures !sql(r, h) {
      var i :| 0 <= i < limit && s[i] == h;
      var j :| limit <= j < |s| && s[j] == r;
    }
  }

  lemma AnswersOrder(s: seq<Job>, pending: seq<Job>, limit: nat, now: int, o: Options)
    requires o.feeUnitWei > 0 && multiset(s) == multiset(pending) && limit <= |s| == |pending|
    requires s[..limit] + s[limit..] == s
    requires forall i, j :: 0 <= i < j < limit ==> !SqlOrder(now, o)(s[..limit][j], s[..limit][i])
    requires forall h, r :: h in s[..limit] && r in s[limit..] ==> !SqlOrder(now, o)(r, h)
    ensures QueryAnswer(s[..limit], s[limit..], pending, limit, now, o)
  {
    forall h, r | h in s[..limit] && r in s[limit..] ensures !SqlBefore(r, h, now, o) {
      assert !SqlOrder(now, o)(r, h);
    }
    forall i, j | 0 <= i < j < limit ensures !SqlBefore(s[..limit][j], s[..limit][i], now, o) {
      assert !SqlOrder(now, o)(s[..limit][j], s[..limit][i]);
    }
  }

  /** Where the query does not rank `q[i]` strictly before `q[j]`, it may take `q[j]` and leave `q[i]`. */
  lemma BluntCutMisses(pending: seq<Job>, limit: nat, now: int, o: Options, i: nat, j: nat)
    returns (head: seq<Job>, rest: seq<Job>)
    requires o.feeUnitWei > 0 && DistinctJobs(pending)
    requires i < limit <= j < |Sort(pending, QueueBefore(now, o))|
    requires !SqlBefore(Sort(pending, QueueBefore(now, o))[i], Sort(pending, QueueBefore(now, o))[j], now, o)
    ensures QueryAnswer(head, rest, pending, limit, now, o) && !ListsHead(head, pending, now, o)
  {
    var q := Sort(pending, QueueBefore(now, o));
    SortMembers(pending, QueueBefore(now, o));
    var star := q[j];
    var s := Sort(pending, Favouring(star, now, o));
    FavouringAnswers(star, pending, limit, now, o);
    head, rest := s[..limit], s[limit..];
    if ListsHead(head, pending, now, o) {
      HeadIsFirst(head, pending, now, o);
      assert q[..limit][i] == q[i] && q[i] in head;
      NotAmongFirst(q, pending, limit, j, now, o);
      assert star !in head;
      StarComesFirst(star, q[i], pending, limit, now, o);
      assert false;
    }
  }

  /** A listing of the head holds the jobs at the head. */
  lemma HeadIsFirst(head: seq<Job>, pending: seq<Job>, now: int, o: Options)
    requires ListsHead(head, pending, now, o)
    ensures |head| <= |Sort(pending, QueueBefore(now, o))|
    ensures forall x :: x in head <==> x in Sort(pending, QueueBefore(now, o))[..|head|]
  {
    var before := QueueBefore(now, o);
    SortMembers(head, before);
    var first := Sort(pending, before)[..|head|];
    assert Sort(head, before) == first by {
      forall k | 0 <= k < |head| ensures Sort(head, before)[k] == first[k] {
        assert OrderQueue(head, now, o)[k] == OrderQueue(pending, now, o)[..|head|][k];
      }
    }
  }

  lemma NotAmongFirst(q: seq<Job>, pending: seq<Job>, limit: nat, j: nat, now: int, o: Options)
    requires DistinctJobs(pending) && q == Sort(pending, QueueBefore(now, o)) && limit <= j < |q|
    ensures q[j] !in q[..limit]
  {
    DistinctPermutation(pending, q, JobId);
    forall k | 0 <= k < limit ensures q[k] != q[j] {
      assert JobId(q[k]) != JobId(q[j]);
    }
  }

  lemma StarComesFirst(star: Job, other: Job, pending: seq<Job>, limit: nat, now: int, o: Options)
    requires o.feeUnitWei > 0 && DistinctJobs(pending) && limit <= |pending|
    requires star in pending && other != star && !SqlBefore(other, star, now, o)
    requires |Sort(pending, Favouring(star, now, o))| == |pending|
    requires other in Sort(pending, Favouring(star, now, o))[..limit]
    ensures star in Sort(pending, Favouring(star, now, o))[..limit]
  {
    var s := Sort(pending, Favouring(star, now, o));
    FavouringAnswers(star, pending, limit, now, o);
    SortMembers(pending, Favouring(star, now, o));
    var a :| 0 <= a < limit && s[a] == other;
    var b :| 0 <= b < |s| && s[b] == star;
    PlacesFollow(s, Favouring(star, now, o), a, b);
    assert s[..limit][b] == star;
  }

  lemma PlacesFollow(s: seq<Job>, before: (Job, Job) -> bool, a: nat, b: nat)
    requires Increasing(before, s) && a < |s| && b < |s| && s[a] != s[b] && !before(s[a], s[b])
    ensures b < a
  {
  }

  /** Every answer the query may give lists the head of the queue if and only if the query ranks each of the
      first `limit` jobs strictly before each later one. */
  lemma CutIsRightExactly(pending: seq<Job>, limit: nat, now: int, o: Options)
    requires o.feeUnitWei > 0 && DistinctJobs(pending)
    ensures (forall head, rest :: QueryAnswer(head, rest, pending, limit, now, o) ==> ListsHead(head, pending, now, o))
            <==> CutIsSharp(pending, limit, now, o)
  {
    if CutIsSharp(pending, limit, now, o) {
      forall head, rest | QueryAnswer(head, rest, pending, limit, now, o) ensures ListsHead(head, pending, now, o) {
        SharpListsHead(head, rest, pending, limit, now, o);
      }
    } else {
      var q := Sort(pending, QueueBefore(now, o));
      var i, j :| 0 <= i < limit <= j < |q| && !SqlBefore(q[i], q[j], now, o);
      var head, rest := BluntCutMisses(pending, limit, now, o, i, j);
    }
  }
}
