/**
 What the weighted draw draws (src/modules/validators/staking-tiers.ts), in terms of the hashed numbers and the
 weights alone.
 */
module WeightedDraw {
  import opened Basics
  import opened Ordering
  import opened StakingTiers

  /** The number of `a` is smaller than that of `b` by more than the weights explain; equal ratios go by id. */
  predicate Faster(a: Candidate, b: Candidate, seed: string, draw: Draw) {
    var x, y := draw(seed, a.id) * b.weight as real, draw(seed, b.id) * a.weight as real;
    x < y || (x == y && IdBefore(a.id, b.id))
  }

  lemma RatioOrder(p: real, q: real, wp: real, wq: real)
    requires wp > 0.0 && wq > 0.0
    ensures p / wp < q / wq <==> p * wq < q * wp
    ensures p / wp == q / wq <==> p * wq == q * wp
  {
    var x, y := p / wp, q / wq;
    assert x * wp == p && y * wq == q;
    var k := wp * wq;
    assert k > 0.0;
    ScaledComparison(y, x, k);
    assert x * k == p * wq by { assert x * k == x * wp * wq; }
    assert y * k == q * wp by { assert y * k == y * wq * wp; }
  }

  lemma FasterIsFirst(a: Candidate, b: Candidate, seed: string, draw: Draw)
    requires a.weight > 0 && b.weight > 0
    ensures DrawnBefore(seed, draw)(a, b) <==> Faster(a, b, seed, draw)
  {
    RatioOrder(draw(seed, a.id), draw(seed, b.id), a.weight as real, b.weight as real);
  }

  /** The faster of two weighted candidates is ahead in the ranking. */
  lemma FasterRanksFirst(cs: seq<Candidate>, a: Candidate, b: Candidate, seed: string, draw: Draw)
    returns (i: nat, j: nat)
    requires DistinctIds(cs) && a in cs && b in cs && a.weight > 0 && b.weight > 0
    requires Faster(a, b, seed, draw)
    ensures i < j < |Ranking(cs, seed, draw)| && Ranking(cs, seed, draw)[i] == a && Ranking(cs, seed, draw)[j] == b
  {
    var ranked, before := Ranking(cs, seed, draw), DrawnBefore(seed, draw);
    RankingMembers(cs, seed, draw);
    i :| 0 <= i < |ranked| && ranked[i] == a;
    j :| 0 <= j < |ranked| && ranked[j] == b;
    FasterIsFirst(a, b, seed, draw);
    DrawIsSeparated(cs, seed, draw);
    SortIncreasing(Filter(cs, HasWeight), before);
    PlacesFollow(ranked, before, i, j);
  }

  lemma PlacesFollow(s: seq<Candidate>, before: (Candidate, Candidate) -> bool, i: nat, j: nat)
    requires StrictOrder(before) && Increasing(before, s) && i < |s| && j < |s| && before(s[i], s[j])
    ensures i < j
  {
  }

  /** Whenever a candidate is drawn, so is every faster one, however many are drawn. */
  lemma FasterIsDrawnToo(cs: seq<Candidate>, a: Candidate, b: Candidate, count: int, seed: string, draw: Draw)
    requires DistinctIds(cs) && a in cs && b in cs && a.weight > 0 && b.weight > 0
    requires Faster(a, b, seed, draw) && b.id in SelectWeighted(cs, count, seed, draw)
    ensures a.id in SelectWeighted(cs, count, seed, draw)
  {
    var i, j := FasterRanksFirst(cs, a, b, seed, draw);
    RankingMembers(cs, seed, draw);
    InTheTop(Ranking(cs, seed, draw), i, count);
    InTheTop(Ranking(cs, seed, draw), j, count);
  }

  /** The weighted candidates that are faster than `c`. */
  function Rivals(cs: seq<Candidate>, c: Candidate, seed: string, draw: Draw): set<Candidate> {
    set d | d in cs && d.weight > 0 && Faster(d, c, seed, draw)
  }

  lemma {:induction false} AheadIsCount(cs: seq<Candidate>, c: Candidate, seed: string, draw: Draw)
    requires DistinctIds(cs) && c.weight > 0 && forall d :: d in cs ==> d.weight > 0
    ensures Ahead(cs, c, DrawnBefore(seed, draw)) == |Rivals(cs, c, seed, draw)|
  {
    if cs != [] {
      var first, rest := cs[0], cs[1..];
      assert DistinctIds(rest);
      AheadIsCount(rest, c, seed, draw);
      FasterIsFirst(first, c, seed, draw);
      NotAgain(cs);
      OneMoreRival(cs, c, seed, draw);
    }
  }

  lemma OneMoreRival(cs: seq<Candidate>, c: Candidate, seed: string, draw: Draw)
    requires cs != [] && cs[0] !in cs[1..] && cs[0].weight > 0
    ensures |Rivals(cs, c, seed, draw)|
         == |Rivals(cs[1..], c, seed, draw)| + if Faster(cs[0], c, seed, draw) then 1 else 0
  {
    var first, all, others := cs[0], Rivals(cs, c, seed, draw), Rivals(cs[1..], c, seed, draw);
    assert forall d :: d in cs <==> d == first || d in cs[1..] by { assert cs == [first] + cs[1..]; }
    if Faster(first, c, seed, draw) {
      assert all == others + {first};
    } else {
      assert all == others;
    }
  }

  lemma NotAgain(cs: seq<Candidate>)
    requires DistinctIds(cs) && cs != []
    ensures cs[0] !in cs[1..]
  {
    forall k | 0 <= k < |cs[1..]| ensures cs[1..][k] != cs[0] {
      assert CandidateId(cs[0]) != CandidateId(cs[k + 1]);
    }
  }

  /** A weighted candidate is drawn if and only if fewer weighted candidates are faster than there are seats. */
  lemma DrawnExactly(cs: seq<Candidate>, c: Candidate, count: int, seed: string, draw: Draw)
    requires DistinctIds(cs) && c in cs && c.weight > 0
    ensures c.id in SelectWeighted(cs, count, seed, draw) <==> |Rivals(cs, c, seed, draw)| < count
  {
    var pool := Filter(cs, HasWeight);
    SeatMeansRank(cs, c, count, seed, draw);
    FilterKeepsDistinct(cs, HasWeight, CandidateId);
    AheadIsCount(pool, c, seed, draw);
    assert Rivals(pool, c, seed, draw) == Rivals(cs, c, seed, draw);
  }

  /** Ids are compared character by character. */
  lemma {:induction false} IdBeforeExactly(a: Id, b: Id)
    ensures IdBefore(a, b) <==> a < b || exists k :: FirstDifference(a, b, k) && a[k] < b[k]
  {
    if a != "" && b != "" {
      assert a == [a[0]] + a[1..] && b == [b[0]] + b[1..];
      if a[0] != b[0] {
        assert FirstDifference(a, b, 0);
      } else {
        IdBeforeExactly(a[1..], b[1..]);
        forall k | FirstDifference(a[1..], b[1..], k) ensures FirstDifference(a, b, k + 1) {
          assert a[..k + 1] == [a[0]] + a[1..][..k] && b[..k + 1] == [b[0]] + b[1..][..k];
        }
        forall k | FirstDifference(a, b, k) ensures k > 0 && FirstDifference(a[1..], b[1..], k - 1) {
          assert a[1..][..k - 1] == a[..k][1..] && b[1..][..k - 1] == b[..k][1..];
        }
        if exists k :: FirstDifference(a[1..], b[1..], k) && a[1..][k] < b[1..][k] {
          var k :| FirstDifference(a[1..], b[1..], k) && a[1..][k] < b[1..][k];
          assert FirstDifference(a, b, k + 1) && a[k + 1] < b[k + 1];
        }
      }
    }
  }

  predicate FirstDifference(a: Id, b: Id, k: int) {
    0 <= k < |a| && k < |b| && a[..k] == b[..k] && a[k] != b[k]
  }
}
