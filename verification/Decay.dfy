/**
 Decaying averages (src/modules/reputation/decay.ts) over exact reals. The power of one half is a
 parameter; only that it lies in (0, 1] for positive exponents is ever used.
 */
module Decay {
  import opened Basics

  function MaxReal(x: real, y: real): real { if x > y then x else y }

  function MinReal(x: real, y: real): real { if x < y then x else y }

  function Clamp(x: real): real { MinReal(1.0, MaxReal(0.0, x)) }

  /** A power with base one half: a positive exponent leaves a share. */
  type Halving = h: real -> real | forall x :: x > 0.0 ==> 0.0 < h(x) <= 1.0 witness (x: real) => 1.0

  /** Fraction of the signal left; a non-positive half-life switches decay off. */
  function DecayFactor(elapsedMs: int, halfLifeMs: real, halving: Halving): (factor: real)
    ensures 0.0 < factor <= 1.0
  {
    if !(halfLifeMs > 0.0) || !(elapsedMs > 0) then 1.0
    else
      assert elapsedMs as real / halfLifeMs > 0.0;
      halving(elapsedMs as real / halfLifeMs)
  }

  function DecayToward(value: real, baseline: real, factor: real): real {
    baseline + (value - baseline) * factor
  }

  function CompositeScore(accuracy: real, uptime: real, disputeLossRate: real): real {
    Clamp(0.5 * accuracy + 0.3 * uptime + 0.2 * (1.0 - disputeLossRate))
  }

  datatype Average = Average(mean: real, weight: real)

  /** Folds one observation into a running mean whose weight is first decayed by `factor`. */
  function FoldObservation(mean: real, weight: real, observation: real, factor: real): Average
    requires 0.0 < factor <= 1.0
  {
    var decayedWeight := MaxReal(0.0, weight) * factor;
    assert decayedWeight >= 0.0;
    var nextWeight := decayedWeight + 1.0;
    Average((mean * decayedWeight + observation) / nextWeight, nextWeight)
  }

  // ------------------------------------------------- fold equals batch formula

  /** An observation and the decay factor applied just before it was folded in. */
  datatype Observation = Observation(value: real, factor: real)

  ghost predicate Proper(os: seq<Observation>) {
    forall i :: 0 <= i < |os| ==> 0.0 <= os[i].value <= 1.0 && 0.0 < os[i].factor <= 1.0
  }

  /** The state after the first `n` observations, from weight 0; the mean it starts from does not matter. */
  ghost function Folded(os: seq<Observation>, start: real, n: nat): Average
    requires Proper(os) && n <= |os|
  {
    if n == 0 then Average(start, 0.0)
    else
      var before := Folded(os, start, n - 1);
      FoldObservation(before.mean, before.weight, os[n - 1].value, os[n - 1].factor)
  }

  /** What is left of observation `i` after the first `n`: the product of the factors that came after it. */
  ghost function Remaining(os: seq<Observation>, i: nat, n: nat): real
    requires i < n <= |os|
  {
    if n == i + 1 then 1.0 else Remaining(os, i, n - 1) * os[n - 1].factor
  }

  /** Sum of what is left after `n` observations of the first `k`. */
  ghost function TotalWeight(os: seq<Observation>, k: nat, n: nat): real
    requires k <= n <= |os|
  {
    if k == 0 then 0.0 else TotalWeight(os, k - 1, n) + Remaining(os, k - 1, n)
  }

  /** Sum of the first `k` observations, each times what is left of it after `n`. */
  ghost function WeightedSum(os: seq<Observation>, k: nat, n: nat): real
    requires k <= n <= |os|
  {
    if k == 0 then 0.0 else WeightedSum(os, k - 1, n) + os[k - 1].value * Remaining(os, k - 1, n)
  }

  /** One more observation discounts everything before it by its factor. */
  lemma {:induction false} SumsDiscounted(os: seq<Observation>, k: nat, n: nat)
    requires k < n <= |os|
    ensures TotalWeight(os, k, n) == TotalWeight(os, k, n - 1) * os[n - 1].factor
    ensures WeightedSum(os, k, n) == WeightedSum(os, k, n - 1) * os[n - 1].factor
  {
    if k > 0 {
      SumsDiscounted(os, k - 1, n);
      Distribute(TotalWeight(os, k - 1, n - 1), Remaining(os, k - 1, n - 1), 1.0, os[n - 1].factor);
      Distribute(WeightedSum(os, k - 1, n - 1), Remaining(os, k - 1, n - 1), os[k - 1].value, os[n - 1].factor);
    }
  }

  lemma Distribute(sum: real, r: real, v: real, f: real)
    ensures sum * f + v * (r * f) == (sum + v * r) * f
  {
    assert v * (r * f) == v * r * f;
  }

  /** `avg` has the weight `total`, and is the mean of that weight and sum once there is any. */
  ghost predicate IsMean(avg: Average, total: real, sum: real, empty: bool) {
    if empty then avg.weight == total == 0.0 && sum == 0.0
    else avg.weight == total >= 1.0 && avg.mean * total == sum
  }

  /** After any history the fold is the weighted mean, each observation weighing what is left of it. */
  lemma {:induction false} FoldIsWeightedMean(os: seq<Observation>, start: real, n: nat)
    requires Proper(os) && n <= |os|
    ensures IsMean(Folded(os, start, n), TotalWeight(os, n, n), WeightedSum(os, n, n), n == 0)
  {
    if n > 0 {
      FoldIsWeightedMean(os, start, n - 1);
      FoldedOnce(os, start, n);
    }
  }

  lemma FoldedOnce(os: seq<Observation>, start: real, n: nat)
    requires Proper(os) && 0 < n <= |os|
    requires IsMean(Folded(os, start, n - 1), TotalWeight(os, n - 1, n - 1), WeightedSum(os, n - 1, n - 1), n == 1)
    ensures IsMean(Folded(os, start, n), TotalWeight(os, n, n), WeightedSum(os, n, n), false)
  {
    LastSums(os, n);
    NextIsMean(os, start, n, TotalWeight(os, n - 1, n - 1), WeightedSum(os, n - 1, n - 1), TotalWeight(os, n, n),
               WeightedSum(os, n, n));
  }

  lemma NextIsMean(os: seq<Observation>, start: real, n: nat, total: real, sum: real, total': real, sum': real)
    requires Proper(os) && 0 < n <= |os| && IsMean(Folded(os, start, n - 1), total, sum, n == 1)
    requires total' == total * os[n - 1].factor + 1.0 && sum' == sum * os[n - 1].factor + os[n - 1].value
    ensures IsMean(Folded(os, start, n), total', sum', false)
  {
    FoldedMean(Folded(os, start, n - 1), total, sum, n == 1, os[n - 1]);
  }

  lemma FoldedMean(was: Average, total: real, sum: real, first: bool, o: Observation)
    requires 0.0 < o.factor <= 1.0 && IsMean(was, total, sum, first)
    ensures IsMean(FoldObservation(was.mean, was.weight, o.value, o.factor), total * o.factor + 1.0,
                   sum * o.factor + o.value, false)
  {
    DecayedMean(was, total, sum, o.value, o.factor, first);
  }

  lemma LastSums(os: seq<Observation>, n: nat)
    requires 0 < n <= |os|
    ensures TotalWeight(os, n, n) == TotalWeight(os, n - 1, n - 1) * os[n - 1].factor + 1.0
    ensures WeightedSum(os, n, n) == WeightedSum(os, n - 1, n - 1) * os[n - 1].factor + os[n - 1].value
  {
    SumsDiscounted(os, n - 1, n);
  }

  lemma DecayedMean(was: Average, total: real, sum: real, value: real, factor: real, first: bool)
    requires 0.0 < factor <= 1.0 && was.weight == total >= 0.0
    requires first ==> total == 0.0 && sum == 0.0
    requires !first ==> was.mean * total == sum
    ensures var next := FoldObservation(was.mean, was.weight, value, factor);
            next.weight == total * factor + 1.0 >= 1.0 && next.mean * next.weight == sum * factor + value
  {
    var d := total * factor;
    assert d >= 0.0;
    var next := FoldObservation(was.mean, was.weight, value, factor);
    assert next.mean * next.weight == was.mean * d + value;
    if !first {
      assert was.mean * d == was.mean * total * factor;
    }
  }

  /** The mean stays a share and the weight stays between 1 and the number of observations. */
  lemma {:induction false} FoldStaysInRange(os: seq<Observation>, start: real, n: nat)
    requires Proper(os) && 0 < n <= |os|
    ensures 0.0 <= Folded(os, start, n).mean <= 1.0
    ensures 1.0 <= Folded(os, start, n).weight <= n as real
  {
    if n > 1 {
      FoldStaysInRange(os, start, n - 1);
    }
    FoldInRange(Folded(os, start, n - 1), os[n - 1].value, os[n - 1].factor, n - 1);
  }

  lemma FoldInRange(was: Average, value: real, factor: real, n: nat)
    requires 0.0 < factor <= 1.0 && 0.0 <= value <= 1.0
    requires 0.0 <= was.weight <= n as real && (was.weight == 0.0 || 0.0 <= was.mean <= 1.0)
    ensures var next := FoldObservation(was.mean, was.weight, value, factor);
            0.0 <= next.mean <= 1.0 && 1.0 <= next.weight <= n as real + 1.0
  {
    var d, sum := DecayedParts(was, factor);
    FoldMeans(was, value, factor, d, sum);
    MeanInUnit(sum, d, value);
  }

  /** The decayed weight and the sum it carries. */
  lemma DecayedParts(was: Average, factor: real) returns (d: real, sum: real)
    requires 0.0 < factor <= 1.0 && was.weight >= 0.0 && (was.weight == 0.0 || 0.0 <= was.mean <= 1.0)
    ensures d == was.weight * factor && sum == was.mean * d
    ensures 0.0 <= d <= was.weight && 0.0 <= sum <= d
  {
    d := DecayedWeight(was.weight, factor);
    sum := CarriedSum(was.mean, was.weight, d);
  }

  lemma DecayedWeight(weight: real, factor: real) returns (d: real)
    requires 0.0 < factor <= 1.0 && weight >= 0.0
    ensures 0.0 <= d <= weight && d == weight * factor
  {
    ShareOf(factor, weight);
    d := weight * factor;
  }

  lemma CarriedSum(mean: real, weight: real, d: real) returns (sum: real)
    requires 0.0 <= d <= weight && (weight == 0.0 || 0.0 <= mean <= 1.0)
    ensures 0.0 <= sum <= d && sum == mean * d
  {
    if weight == 0.0 {
      Nothing(mean, d);
    } else {
      ShareOf(mean, d);
    }
    sum := mean * d;
  }

  lemma Nothing(x: real, d: real)
    requires d == 0.0
    ensures x * d == 0.0
  {
  }

  lemma FoldMeans(was: Average, value: real, factor: real, d: real, sum: real)
    requires 0.0 < factor <= 1.0 && was.weight >= 0.0 && d == was.weight * factor >= 0.0 && sum == was.mean * d
    ensures FoldObservation(was.mean, was.weight, value, factor) == Average((sum + value) / (d + 1.0), d + 1.0)
  {
  }

  lemma MeanInUnit(sum: real, d: real, value: real)
    requires d >= 0.0 && 0.0 <= value <= 1.0 && 0.0 <= sum <= d
    ensures 0.0 <= (sum + value) / (d + 1.0) <= 1.0
  {
    QuotientInUnit(sum + value, d + 1.0);
  }

  lemma ShareOf(share: real, d: real)
    requires 0.0 <= share <= 1.0 && d >= 0.0
    ensures 0.0 <= share * d <= d && 0.0 <= d * share <= d
  {
    ProductMonotone(0.0, share, d);
    ProductMonotone(share, 1.0, d);
  }

  lemma QuotientInUnit(p: real, q: real)
    requires 0.0 <= p <= q && q > 0.0
    ensures 0.0 <= p / q <= 1.0
  {
    assert p / q * q == p;
    ScaledComparison(0.0, p / q, q);
    ScaledComparison(p / q, 1.0, q);
  }

  /** Recent evidence dominates: an observation never weighs more than a later one. */
  lemma {:induction false} LaterWeighsMore(os: seq<Observation>, i: nat, j: nat, n: nat)
    requires Proper(os) && i <= j < n <= |os|
    ensures 0.0 < Remaining(os, i, n) <= Remaining(os, j, n) <= 1.0
  {
    if n > i + 1 {
      LaterWeighsMore(os, i, if j < n - 1 then j else i, n - 1);
      var f, ri := os[n - 1].factor, Remaining(os, i, n - 1);
      DiscountedShare(f, ri);
      if j < n - 1 {
        DiscountedShare(f, Remaining(os, j, n - 1));
        ProductMonotone(ri, Remaining(os, j, n - 1), f);
      }
    }
  }

  lemma DiscountedShare(factor: real, r: real)
    requires 0.0 < factor <= 1.0 && 0.0 < r <= 1.0
    ensures 0.0 < r * factor <= r
  {
    ShareOf(factor, r);
    ScaledComparison(factor, 0.0, r);
  }

  // ---------------------------------------------------------- composing a score

  predicate IsUnit(x: real) { 0.0 <= x <= 1.0 }

  /** Between shares the score is not clamped: a gain in accuracy counts as much as the same gain in uptime and the
      same drop in lost disputes together, uptime and disputes count three to two, the best row scores one and
      the worst zero. Nothing else does so. */
  lemma ScoreIsBalanced(a: real, u: real, l: real, gain: real)
    requires IsUnit(a) && IsUnit(u) && IsUnit(l) && IsUnit(a + gain) && IsUnit(u + gain) && IsUnit(l - gain)
    ensures var base := CompositeScore(a, u, l);
            var byAccuracy, byUptime, byDisputes := CompositeScore(a + gain, u, l) - base,
                CompositeScore(a, u + gain, l) - base, CompositeScore(a, u, l - gain) - base;
            && byAccuracy == byUptime + byDisputes && 2.0 * byUptime == 3.0 * byDisputes
            && CompositeScore(a + gain, u + gain, l - gain) - base == gain
    ensures CompositeScore(1.0, 1.0, 0.0) == 1.0 && CompositeScore(0.0, 0.0, 1.0) == 0.0
  {
  }

  /** Whatever the arguments: the score never falls with accuracy or uptime, never rises with lost disputes, and
      is a share. */
  lemma ScoreIsMonotone(a: real, u: real, l: real, a': real, u': real, l': real)
    requires a <= a' && u <= u' && l >= l'
    ensures CompositeScore(a, u, l) <= CompositeScore(a', u', l') && IsUnit(CompositeScore(a, u, l))
  {
  }

  // ---------------------------------------------------------- reading a score

  predicate Between(x: real, a: real, b: real) { MinReal(a, b) <= x <= MaxReal(a, b) }

  /** An idle entity drifts to the neutral score: the longer it is idle, the nearer the score read is,
      and it never crosses. */
  lemma DecaysTowardNeutral(value: real, neutral: real, factor: real, later: real)
    requires 0.0 < later <= factor <= 1.0
    ensures Between(DecayToward(value, neutral, factor), value, neutral)
    ensures Between(DecayToward(value, neutral, later), DecayToward(value, neutral, factor), neutral)
  {
    var near, nearer := DecayToward(value, neutral, factor), DecayToward(value, neutral, later);
    if value >= neutral {
      DriftsDown(value, neutral, factor, later, value - neutral);
      assert neutral <= nearer <= near <= value;
    } else {
      DriftsUp(value, neutral, factor, later, neutral - value);
      assert value <= near <= nearer <= neutral;
    }
    InOrder(value, near, nearer, neutral);
  }

  lemma InOrder(value: real, near: real, nearer: real, neutral: real)
    requires value <= near <= nearer <= neutral || neutral <= nearer <= near <= value
    ensures Between(near, value, neutral) && Between(nearer, near, neutral)
  {
  }

  lemma DriftsDown(value: real, neutral: real, factor: real, later: real, d: real)
    requires 0.0 < later <= factor <= 1.0 && d == value - neutral >= 0.0
    ensures neutral <= DecayToward(value, neutral, later) <= DecayToward(value, neutral, factor) <= value
  {
    ScaledDistance(d, factor, later);
    FromAbove(value, neutral, factor, d);
    FromAbove(value, neutral, later, d);
  }

  lemma DriftsUp(value: real, neutral: real, factor: real, later: real, d: real)
    requires 0.0 < later <= factor <= 1.0 && d == neutral - value >= 0.0
    ensures value <= DecayToward(value, neutral, factor) <= DecayToward(value, neutral, later) <= neutral
  {
    ScaledDistance(d, factor, later);
    FromBelow(value, neutral, factor, d);
    FromBelow(value, neutral, later, d);
  }

  lemma ScaledDistance(d: real, factor: real, later: real)
    requires 0.0 < later <= factor <= 1.0 && d >= 0.0
    ensures 0.0 <= d * later <= d * factor <= d
  {
    ShareOf(factor, d);
    ShareOf(later, d);
    ProductMonotone(later, factor, d);
  }

  lemma FromAbove(value: real, neutral: real, factor: real, d: real)
    requires d == value - neutral
    ensures DecayToward(value, neutral, factor) == neutral + d * factor
  {
  }

  lemma FromBelow(value: real, neutral: real, factor: real, d: real)
    requires d == neutral - value
    ensures DecayToward(value, neutral, factor) == neutral - d * factor
  {
    assert value - neutral == -d;
    assert -d * factor == -(d * factor);
  }
}
