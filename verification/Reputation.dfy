/**
 Stored reputation (src/modules/reputation/reputation.service.ts): averages kept in decimal columns, so
 every update rounds. Shares are counted in ten-thousandths and the evidence weight in millionths.
 */
module Reputation {
  import opened Basics
  import opened Decay

  datatype Score = Score(accuracy: int, uptime: int, disputeLossRate: int, totalJobs: int, evidenceWeight: int,
                         lastActivityAt: Option<int>)

  datatype Settings = Settings(halfLifeMs: real, halving: Halving)

  /** One recorded observation about an entity. */
  datatype Observed = Observed(entityId: Id, accurate: bool, disputeLost: bool, now: int)

  const UNKNOWN := Score(10000, 10000, 0, 0, 0, None)

  /** toFixed(4) of the value clamped to a share: the nearest ten-thousandth, ties upwards. */
  function Round4(value: real): int { (Clamp(value) * 10000.0 + 0.5).Floor }

  function Round6(value: real): int { (value * 1000000.0 + 0.5).Floor }

  function FactorSince(s: Settings, reference: Option<int>, now: int): (factor: real)
    ensures 0.0 < factor <= 1.0
  {
    if reference.None? then 1.0 else DecayFactor(now - reference.value, s.halfLifeMs, s.halving)
  }

  function Fold(share: int, weight: int, hit: bool, factor: real): Average
    requires 0.0 < factor <= 1.0
  {
    FoldObservation(share as real / 10000.0, weight as real / 1000000.0, if hit then 1.0 else 0.0, factor)
  }

  function Recorded(score: Score, s: Settings, o: Observed): Score {
    var factor := FactorSince(s, score.lastActivityAt, o.now);
    var accuracy := Fold(score.accuracy, score.evidenceWeight, o.accurate, factor);
    var losses := Fold(score.disputeLossRate, score.evidenceWeight, o.disputeLost, factor);
    Score(Round4(accuracy.mean), score.uptime, Round4(losses.mean),
          if o.disputeLost then score.totalJobs else score.totalJobs + 1, Round6(accuracy.weight), Some(o.now))
  }

  function ScoreOf(scores: map<Id, Score>, id: Id): Score { if id in scores then scores[id] else UNKNOWN }

  function Record(scores: map<Id, Score>, s: Settings, o: Observed): map<Id, Score> {
    scores[o.entityId := Recorded(ScoreOf(scores, o.entityId), s, o)]
  }

  /** The same observation for the first `n` of several entities; a call that fails changes nothing. */
  function RecordAll(scores: map<Id, Score>, s: Settings, ids: seq<Id>, o: Observed, fails: nat -> bool, n: nat)
    : map<Id, Score>
    requires n <= |ids|
  {
    if n == 0 then scores
    else
      var before := RecordAll(scores, s, ids, o, fails, n - 1);
      if fails(n - 1) then before else Record(before, s, o.(entityId := ids[n - 1]))
  }

  /** One entity's failure never costs another its observation. */
  lemma {:induction false} FailuresAreIsolated(scores: map<Id, Score>, s: Settings, ids: seq<Id>, o: Observed,
                                               fails: nat -> bool, n: nat, k: nat)
    requires k < |ids| && n <= |ids|
    requires forall i, j :: 0 <= i < j < |ids| ==> ids[i] != ids[j]
    ensures var after := RecordAll(scores, s, ids, o, fails, n);
            ScoreOf(after, ids[k]) == if k < n && !fails(k) then Recorded(ScoreOf(scores, ids[k]), s, o)
                                      else ScoreOf(scores, ids[k])
    decreases n
  {
    if n > 0 {
      FailuresAreIsolated(scores, s, ids, o, fails, n - 1, k);
      RowRecorded(RecordAll(scores, s, ids, o, fails, n - 1), s, o, ids[n - 1], ids[k]);
    }
  }

  lemma RowRecorded(scores: map<Id, Score>, s: Settings, o: Observed, id: Id, other: Id)
    ensures ScoreOf(Record(scores, s, o.(entityId := id)), other)
         == if other == id then Recorded(ScoreOf(scores, id), s, o) else ScoreOf(scores, other)
  {
    RecordedIgnoresId(ScoreOf(scores, id), s, o, id);
  }

  lemma RecordedIgnoresId(score: Score, s: Settings, o: Observed, id: Id)
    ensures Recorded(score, s, o.(entityId := id)) == Recorded(score, s, o)
  {
  }

  // --------------------------------------------------------------------- runs

  function After(s: Settings, os: seq<Observed>, n: nat): map<Id, Score>
    requires n <= |os|
  {
    if n == 0 then map[] else Record(After(s, os, n - 1), s, os[n - 1])
  }

  /** How many of the first `n` observations are about `id` and satisfy `p`. */
  function Count(os: seq<Observed>, n: nat, id: Id, p: Observed -> bool): nat
    requires n <= |os|
  {
    if n == 0 then 0
    else Count(os, n - 1, id, p) + if os[n - 1].entityId == id && p(os[n - 1]) then 1 else 0
  }

  const All := (o: Observed) => true
  const Accurate := (o: Observed) => o.accurate
  const Lost := (o: Observed) => o.disputeLost
  const Kept := (o: Observed) => !o.disputeLost

  /** Ranges every row keeps, rounding and decay included. */
  predicate InRange(score: Score, n: nat) {
    && 0 <= score.accuracy <= 10000 && 0 <= score.disputeLossRate <= 10000 && score.uptime == 10000
    && score.evidenceWeight <= n * 1000000
    && (if n == 0 then score.evidenceWeight == 0 else score.evidenceWeight >= 1000000)
  }

  lemma RoundedShare(x: real)
    ensures 0 <= Round4(x) <= 10000
  {
  }

  lemma WeightStaysInRange(share: int, weight: int, hit: bool, factor: real, n: nat)
    requires 0.0 < factor <= 1.0 && 0 <= share <= 10000 && 0 <= weight <= n * 1000000
    ensures 1000000 <= Round6(Fold(share, weight, hit, factor).weight) <= (n + 1) * 1000000
  {
    FoldInRange(Average(share as real / 10000.0, weight as real / 1000000.0), if hit then 1.0 else 0.0, factor, n);
  }

  /** However observations of different entities interleave, and at whatever decay: shares stay shares
      and the evidence weight stays between one observation and all of them. */
  lemma {:induction false} RowsStayInRange(s: Settings, os: seq<Observed>, n: nat, id: Id)
    requires n <= |os|
    ensures InRange(ScoreOf(After(s, os, n), id), Count(os, n, id, All))
    ensures ScoreOf(After(s, os, n), id).totalJobs == Count(os, n, id, Kept)
    decreases n
  {
    if n > 0 {
      RowsStayInRange(s, os, n - 1, id);
      var score, o := ScoreOf(After(s, os, n - 1), id), os[n - 1];
      if o.entityId == id {
        UpdateStaysInRange(score, s, o, Count(os, n - 1, id, All));
      }
    }
  }

  lemma UpdateStaysInRange(score: Score, s: Settings, o: Observed, n: nat)
    requires InRange(score, n)
    ensures InRange(Recorded(score, s, o), n + 1)
  {
    var factor := FactorSince(s, score.lastActivityAt, o.now);
    RoundedShare(Fold(score.accuracy, score.evidenceWeight, o.accurate, factor).mean);
    RoundedShare(Fold(score.disputeLossRate, score.evidenceWeight, o.disputeLost, factor).mean);
    WeightStaysInRange(score.accuracy, score.evidenceWeight, o.accurate, factor, n);
  }

  // ------------------------------------------------------ accuracy of rounding

  /** What is left of the evidence after `elapsedMs`, in observations. */
  function Left(score: Score, s: Settings, elapsedMs: int): real {
    score.evidenceWeight as real / 1000000.0 * DecayFactor(elapsedMs, s.halfLifeMs, s.halving)
  }

  /** The mean of the old share, weighing `left`, and the new observation, weighing one. */
  function NextMean(share: int, left: real, hit: bool): real
    requires left >= 0.0
  {
    (share as real / 10000.0 * left + if hit then 1.0 else 0.0) / (left + 1.0)
  }

  /** The stored share is this mean to half a ten-thousandth. */
  predicate IsRounded(next: int, mean: real) { -0.5 <= next as real - mean * 10000.0 <= 0.5 }

  /** One update of any row in range, at any decay: accuracy and loss rate become the means just described, over what
      is left of the evidence since the row's last activity, and the weight is that plus one, to half a
      millionth. */
  lemma UpdateIsRoundedMean(score: Score, s: Settings, o: Observed, n: nat) returns (left: real)
    requires InRange(score, n)
    ensures left == (if score.lastActivityAt.None? then score.evidenceWeight as real / 1000000.0
                     else Left(score, s, o.now - score.lastActivityAt.value)) >= 0.0
    ensures var next := Recorded(score, s, o);
            && IsRounded(next.accuracy, NextMean(score.accuracy, left, o.accurate))
            && IsRounded(next.disputeLossRate, NextMean(score.disputeLossRate, left, o.disputeLost))
            && -0.5 <= next.evidenceWeight as real - (left + 1.0) * 1000000.0 <= 0.5
            && next.lastActivityAt == Some(o.now) && next.uptime == score.uptime
            && next.totalJobs == score.totalJobs + if o.disputeLost then 0 else 1
  {
    var factor := FactorSince(s, score.lastActivityAt, o.now);
    left := LeftIs(score, s, o.now, factor);
    FoldIsRounded(score.accuracy, score.evidenceWeight, o.accurate, factor, left, n);
    FoldIsRounded(score.disputeLossRate, score.evidenceWeight, o.disputeLost, factor, left, n);
  }

  lemma LeftIs(score: Score, s: Settings, now: int, factor: real) returns (left: real)
    requires factor == FactorSince(s, score.lastActivityAt, now) && score.evidenceWeight >= 0
    ensures left == if score.lastActivityAt.None? then score.evidenceWeight as real / 1000000.0
                    else Left(score, s, now - score.lastActivityAt.value)
    ensures left == score.evidenceWeight as real / 1000000.0 * factor && left >= 0.0
  {
    left := score.evidenceWeight as real / 1000000.0 * factor;
    ShareOf(factor, score.evidenceWeight as real / 1000000.0);
  }

  lemma FoldIsRounded(share: int, weight: int, hit: bool, factor: real, left: real, n: nat)
    requires 0.0 < factor <= 1.0 && 0 <= share <= 10000 && 0 <= weight <= n * 1000000
    requires left == weight as real / 1000000.0 * factor && left >= 0.0
    ensures IsRounded(Round4(Fold(share, weight, hit, factor).mean), NextMean(share, left, hit))
    ensures -0.5 <= Round6(Fold(share, weight, hit, factor).weight) as real - (left + 1.0) * 1000000.0 <= 0.5
  {
    FoldIsNextMean(share, weight, hit, factor, left, n);
    RoundsToNearest(NextMean(share, left, hit));
    NearestMillionth(left + 1.0);
  }

  lemma FoldIsNextMean(share: int, weight: int, hit: bool, factor: real, left: real, n: nat)
    requires 0.0 < factor <= 1.0 && 0 <= share <= 10000 && 0 <= weight <= n * 1000000
    requires left == weight as real / 1000000.0 * factor && left >= 0.0
    ensures Fold(share, weight, hit, factor) == Average(NextMean(share, left, hit), left + 1.0)
    ensures 0.0 <= NextMean(share, left, hit) <= 1.0
  {
    var was, o := Average(share as real / 10000.0, weight as real / 1000000.0), if hit then 1.0 else 0.0;
    FoldMeans(was, o, factor, left, was.mean * left);
    FoldInRange(was, o, factor, n);
  }

  lemma NearestMillionth(x: real)
    ensures -0.5 <= Round6(x) as real - x * 1000000.0 <= 0.5
  {
  }

  /** `share` is within (n+1)/4 ten-thousandths of `hits`/`n`, both sides multiplied by 4n. */
  predicate CloseTo(share: int, hits: int, n: nat) {
    -(n * (n + 1)) <= 4 * (n * share - 10000 * hits) <= n * (n + 1)
  }

  lemma UndecayedFold(share: int, n: nat, hit: bool)
    requires 0 <= share <= 10000
    ensures var f := Fold(share, n * 1000000, hit, 1.0);
            && 0.0 <= f.mean <= 1.0 && f.weight == n as real + 1.0
            && f.mean * 10000.0 * (n + 1) as real == (n * share + if hit then 10000 else 0) as real
  {
    var m, o := share as real / 10000.0, if hit then 1.0 else 0.0;
    FoldInRange(Average(m, n as real), o, 1.0, n);
    var mean := FoldObservation(m, n as real, o, 1.0).mean;
    assert mean == (m * n as real + o) / (n as real + 1.0);
    assert mean * (n as real + 1.0) == m * n as real + o;
    assert m * n as real * 10000.0 == (n * share) as real;
    assert Fold(share, n * 1000000, hit, 1.0).mean == mean;
  }

  lemma RoundsToNearest(x: real)
    requires 0.0 <= x <= 1.0
    ensures -0.5 <= Round4(x) as real - x * 10000.0 <= 0.5
  {
  }

  /** One rounded update is off by at most half a ten-thousandth. */
  lemma RoundedFold(share: int, n: nat, hit: bool)
    requires 0 <= share <= 10000
    ensures var next := Round4(Fold(share, n * 1000000, hit, 1.0).mean);
            -(n + 1) <= 2 * ((n + 1) * next - n * share - (if hit then 10000 else 0)) <= n + 1
    ensures Round6(Fold(share, n * 1000000, hit, 1.0).weight) == (n + 1) * 1000000
  {
    var mean := Fold(share, n * 1000000, hit, 1.0).mean;
    UndecayedFold(share, n, hit);
    RoundsToNearest(mean);
    NearInIntegers(Round4(mean), mean * 10000.0, n + 1, n * share + if hit then 10000 else 0);
  }

  lemma NearInIntegers(next: int, exact: real, n: int, total: int)
    requires -0.5 <= next as real - exact <= 0.5 && n >= 0 && exact * n as real == total as real
    ensures -n <= 2 * (n * next - total) <= n
  {
    var a, b := WithinHalf(next as real, exact, n as real);
    assert b == total as real;
    assert a == (n * next) as real by {
      ProductAsReal(next, n);
    }
  }

  lemma WithinHalf(x: real, y: real, k: real) returns (a: real, b: real)
    requires -0.5 <= x - y <= 0.5 && k >= 0.0
    ensures a == x * k && b == y * k && -k <= 2.0 * (a - b) <= k
  {
    a, b := x * k, y * k;
    var p := Scaled(y + 0.5 - x, k);
    var q := Scaled(x + 0.5 - y, k);
    assert p == b + 0.5 * k - a && q == a + 0.5 * k - b;
  }

  lemma Scaled(d: real, k: real) returns (p: real)
    requires d >= 0.0 && k >= 0.0
    ensures p == d * k && p >= 0.0
  {
    p := d * k;
  }

  lemma {:induction false} ProductAsReal(a: int, n: nat)
    ensures a as real * n as real == (n * a) as real
  {
    if n > 0 {
      ProductAsReal(a, n - 1);
      assert n * a == (n - 1) * a + a;
    }
  }

  lemma ErrorsAddUp(share: int, next: int, hits: int, hit: int, n: nat)
    requires CloseTo(share, hits, n)
    requires -(n + 1) <= 2 * ((n + 1) * next - n * share - 10000 * hit) <= n + 1
    ensures CloseTo(next, hits + hit, n + 1)
  {
    assert (n + 1) * (n + 2) == n * (n + 1) + 2 * (n + 1);
    assert 4 * ((n + 1) * next - 10000 * (hits + hit))
        == 4 * ((n + 1) * next - n * share - 10000 * hit) + 4 * (n * share - 10000 * hits);
  }

  ghost predicate CloseRow(score: Score, hits: int, losses: int, n: nat) {
    && CloseTo(score.accuracy, hits, n) && CloseTo(score.disputeLossRate, losses, n)
    && score.evidenceWeight == n * 1000000
  }

  lemma UpdateStaysClose(score: Score, s: Settings, o: Observed, hits: int, losses: int, n: nat)
    requires s.halfLifeMs <= 0.0 && InRange(score, n) && CloseRow(score, hits, losses, n)
    ensures CloseRow(Recorded(score, s, o), hits + (if o.accurate then 1 else 0),
                     losses + (if o.disputeLost then 1 else 0), n + 1)
  {
    RoundedFold(score.accuracy, n, o.accurate);
    RoundedFold(score.disputeLossRate, n, o.disputeLost);
    var next := Recorded(score, s, o);
    ErrorsAddUp(score.accuracy, next.accuracy, hits, if o.accurate then 1 else 0, n);
    ErrorsAddUp(score.disputeLossRate, next.disputeLossRate, losses, if o.disputeLost then 1 else 0, n);
  }

  /** The row of an entity after the first `n` observations, against its counts. */
  ghost predicate CloseAt(s: Settings, os: seq<Observed>, n: nat, id: Id)
    requires n <= |os|
  {
    CloseRow(ScoreOf(After(s, os, n), id), Count(os, n, id, Accurate), Count(os, n, id, Lost), Count(os, n, id, All))
  }

  lemma OwnUpdate(s: Settings, os: seq<Observed>, n: nat, id: Id)
    requires n < |os| && s.halfLifeMs <= 0.0 && os[n].entityId == id && CloseAt(s, os, n, id)
    ensures CloseAt(s, os, n + 1, id)
  {
    var score := ScoreOf(After(s, os, n), id);
    var hits, losses, count := Count(os, n, id, Accurate), Count(os, n, id, Lost), Count(os, n, id, All);
    RowsStayInRange(s, os, n, id);
    UpdateStaysClose(score, s, os[n], hits, losses, count);
    assert ScoreOf(After(s, os, n + 1), id) == Recorded(score, s, os[n]);
    assert Count(os, n + 1, id, Accurate) == hits + if os[n].accurate then 1 else 0;
    assert Count(os, n + 1, id, Lost) == losses + if os[n].disputeLost then 1 else 0;
    assert Count(os, n + 1, id, All) == count + 1;
  }

  lemma OtherUpdate(s: Settings, os: seq<Observed>, n: nat, id: Id)
    requires n < |os| && os[n].entityId != id && CloseAt(s, os, n, id)
    ensures CloseAt(s, os, n + 1, id)
  {
    assert ScoreOf(After(s, os, n + 1), id) == ScoreOf(After(s, os, n), id);
  }

  /** With decay off, after n observations of an entity its stored accuracy and loss rate are within
      (n+1)/4 ten-thousandths of the true shares, and its weight is exactly n. */
  lemma {:induction false} RoundingErrorIsBounded(s: Settings, os: seq<Observed>, n: nat, id: Id)
    requires n <= |os| && s.halfLifeMs <= 0.0
    ensures CloseAt(s, os, n, id)
    decreases n
  {
    if n > 0 {
      RoundingErrorIsBounded(s, os, n - 1, id);
      if os[n - 1].entityId == id {
        OwnUpdate(s, os, n - 1, id);
      } else {
        OtherUpdate(s, os, n - 1, id);
      }
    }
  }

  // ---------------------------------------------------------- reading a score

  function RawScore(score: Score): (raw: real)
    ensures 0.0 <= raw <= 1.0
  {
    CompositeScore(score.accuracy as real / 10000.0, score.uptime as real / 10000.0,
                   score.disputeLossRate as real / 10000.0)
  }

  /** The score after `idleMs` without activity. */
  function EffectiveScore(raw: real, neutral: real, s: Settings, idleMs: int): real {
    DecayToward(raw, neutral, DecayFactor(idleMs, s.halfLifeMs, s.halving))
  }

  /** A longer wait leaves no more. */
  ghost predicate Fades(halving: Halving) { forall x, y :: 0.0 < x <= y ==> halving(y) <= halving(x) }

  lemma QuotientOrder(a: real, b: real, h: real)
    requires h > 0.0 && 0.0 < a <= b
    ensures 0.0 < a / h <= b / h
  {
    var p, q := a / h, b / h;
    assert p * h == a && q * h == b;
    ScaledComparison(p, q, h);
    ScaledComparison(p, 0.0, h);
  }

  lemma LongerLeavesLess(elapsed: int, longer: int, halfLifeMs: real, halving: Halving)
    requires Fades(halving) && elapsed <= longer
    ensures DecayFactor(longer, halfLifeMs, halving) <= DecayFactor(elapsed, halfLifeMs, halving)
  {
    if halfLifeMs > 0.0 && elapsed > 0 {
      QuotientOrder(elapsed as real, longer as real, halfLifeMs);
    }
  }

  /** The longer an entity is idle, the nearer its score is to neutral, and it never crosses: neither a
      good record nor a stain outlives its evidence. */
  lemma IdleScoreDrifts(raw: real, neutral: real, s: Settings, idleMs: int, longer: int)
    requires Fades(s.halving) && idleMs <= longer
    ensures Between(EffectiveScore(raw, neutral, s, idleMs), raw, neutral)
    ensures Between(EffectiveScore(raw, neutral, s, longer), EffectiveScore(raw, neutral, s, idleMs), neutral)
  {
    LongerLeavesLess(idleMs, longer, s.halfLifeMs, s.halving);
    DecaysTowardNeutral(raw, neutral, DecayFactor(idleMs, s.halfLifeMs, s.halving),
                        DecayFactor(longer, s.halfLifeMs, s.halving));
  }

  /** A row with no less accuracy and uptime and no more lost disputes has no less a score; the perfect row and the
      unknown one score one, the worst row zero. */
  lemma BetterRowScoresNoLess(score: Score, better: Score)
    requires score.accuracy <= better.accuracy && score.uptime <= better.uptime
    requires score.disputeLossRate >= better.disputeLossRate
    ensures RawScore(score) <= RawScore(better)
    ensures RawScore(UNKNOWN) == 1.0
    ensures RawScore(UNKNOWN.(accuracy := 0, uptime := 0, disputeLossRate := 10000)) == 0.0
  {
    ScoreIsMonotone(score.accuracy as real / 10000.0, score.uptime as real / 10000.0,
                    score.disputeLossRate as real / 10000.0, better.accuracy as real / 10000.0,
                    better.uptime as real / 10000.0, better.disputeLossRate as real / 10000.0);
  }

  /** And it reads no less at the same idle time. */
  lemma BetterRowReadsNoLess(score: Score, better: Score, neutral: real, s: Settings, idleMs: int)
    requires score.accuracy <= better.accuracy && score.uptime <= better.uptime
    requires score.disputeLossRate >= better.disputeLossRate
    ensures EffectiveScore(RawScore(score), neutral, s, idleMs) <= EffectiveScore(RawScore(better), neutral, s, idleMs)
  {
    BetterRowScoresNoLess(score, better);
    OrderOutlastsDecay(RawScore(score), RawScore(better), neutral, DecayFactor(idleMs, s.halfLifeMs, s.halving));
  }

  lemma OrderOutlastsDecay(low: real, high: real, neutral: real, factor: real)
    requires low <= high && factor > 0.0
    ensures DecayToward(low, neutral, factor) <= DecayToward(high, neutral, factor)
  {
    ProductMonotone(low - neutral, high - neutral, factor);
  }

  /** The halving law: what is left after a while and then another is what is left after both; one unit halves. */
  ghost predicate Halves(halving: Halving) {
    halving(1.0) == 0.5 && forall x, y :: x > 0.0 && y > 0.0 ==> Composes(halving, x, y)
  }

  predicate Composes(halving: Halving, x: real, y: real) { halving(x + y) == halving(x) * halving(y) }

  function HalfTo(n: nat): real { if n == 0 then 1.0 else HalfTo(n - 1) * 0.5 }

  lemma {:induction false} HalvingPowers(halving: Halving, n: nat)
    requires Halves(halving) && n > 0
    ensures halving(n as real) == HalfTo(n)
  {
    if n > 1 {
      HalvingPowers(halving, n - 1);
      assert Composes(halving, (n - 1) as real, 1.0);
      assert n as real == (n - 1) as real + 1.0;
    } else {
      assert HalfTo(1) == HalfTo(0) * 0.5;
    }
  }

  /** After n half-lives without activity a score has 2^-n of its distance from neutral left; without a half-life,
      or without idling, all of it. */
  lemma HalfLivesHalve(raw: real, neutral: real, s: Settings, halfLife: nat, n: nat)
    requires Halves(s.halving) && s.halfLifeMs == halfLife as real
    ensures EffectiveScore(raw, neutral, s, n * halfLife) - neutral
         == (raw - neutral) * (if halfLife == 0 then 1.0 else HalfTo(n))
  {
    HalfLivesLeave(s, halfLife, n);
    DecaysFrom(raw, neutral, DecayFactor(n * halfLife, s.halfLifeMs, s.halving));
  }

  lemma DecaysFrom(raw: real, neutral: real, factor: real)
    ensures DecayToward(raw, neutral, factor) - neutral == (raw - neutral) * factor
  {
  }

  lemma HalfLivesLeave(s: Settings, halfLife: nat, n: nat)
    requires Halves(s.halving) && s.halfLifeMs == halfLife as real
    ensures DecayFactor(n * halfLife, s.halfLifeMs, s.halving) == if halfLife == 0 then 1.0 else HalfTo(n)
  {
    if halfLife > 0 && n > 0 {
      WholeQuotient(n, halfLife);
      HalvingPowers(s.halving, n);
    } else if n == 0 {
      assert n * halfLife == 0;
    }
  }

  lemma WholeQuotient(n: nat, h: nat)
    requires h > 0 && n > 0
    ensures n * h > 0 && (n * h) as real / h as real == n as real
  {
    ProductAsReal(h, n);
    var q := (n * h) as real / h as real;
    assert q * h as real == (n * h) as real;
    ScaledComparison(q, n as real, h as real);
  }

  /** An entity's row carries the time of its last observation, which later decay is counted from. */
  lemma {:induction false} LastActivityIsLast(s: Settings, os: seq<Observed>, n: nat, id: Id, k: nat)
    requires k < n <= |os| && os[k].entityId == id
    requires forall i :: k < i < n ==> os[i].entityId != id
    ensures ScoreOf(After(s, os, n), id).lastActivityAt == Some(os[k].now)
    decreases n
  {
    if n > k + 1 {
      LastActivityIsLast(s, os, n - 1, id, k);
    }
  }

  /** What is read is a share again, whatever the row holds. */
  lemma ReadScoreIsShare(score: Score, neutral: real, s: Settings, idleMs: int)
    requires 0.0 <= neutral <= 1.0
    ensures 0.0 <= EffectiveScore(RawScore(score), neutral, s, idleMs) <= 1.0
  {
    BetweenShares(RawScore(score), neutral, DecayFactor(idleMs, s.halfLifeMs, s.halving));
  }

  lemma BetweenShares(raw: real, neutral: real, factor: real)
    requires 0.0 <= raw <= 1.0 && 0.0 <= neutral <= 1.0 && 0.0 < factor <= 1.0
    ensures 0.0 <= DecayToward(raw, neutral, factor) <= 1.0
  {
    DecaysTowardNeutral(raw, neutral, factor, factor);
  }
}
