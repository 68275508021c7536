/**
 Ordering of the pending-job queue (src/modules/jobs/priority.ts) and the query that cuts
 its head off in the database (src/modules/jobs/jobs.service.ts).

 Scores are exact rationals; times are milliseconds.
 */
module Priority {
  import opened Basics
  import opened Ordering

  datatype Options = Options(feeUnitWei: int, agingSeconds: real)

  datatype Job = Job(id: Id, fee: nat, submittedAt: int)

  datatype QueueEntry = QueueEntry(job: Job, position: nat, score: real, waitedSeconds: int)

  /** Fee in thousandths of a fee unit, rounded down. */
  function MilliUnits(feeWei: nat, feeUnitWei: int): nat {
    if feeUnitWei <= 0 then 0 else feeWei * 1000 / feeUnitWei
  }

  function FeeUnits(feeWei: nat, feeUnitWei: int): real {
    MilliUnits(feeWei, feeUnitWei) as real / 1000.0
  }

  function PriorityScore(feeWei: nat, waitedMs: int, o: Options): real {
    FeeUnits(feeWei, o.feeUnitWei)
    + if o.agingSeconds > 0.0 then Max(0, waitedMs) as real / 1000.0 / o.agingSeconds else 0.0
  }

  function WaitedMs(job: Job, now: int): int { Max(0, now - job.submittedAt) }

  function Score(job: Job, now: int, o: Options): real {
    PriorityScore(job.fee, WaitedMs(job, now), o)
  }

  /** Highest score first, then the earlier submission, then the id. */
  function QueueBefore(now: int, o: Options): (Job, Job) -> bool {
    (a: Job, b: Job) =>
      if Score(a, now, o) != Score(b, now, o) then Score(a, now, o) > Score(b, now, o)
      else if a.submittedAt != b.submittedAt then a.submittedAt < b.submittedAt
      else IdBefore(a.id, b.id)
  }

  /** Three decimals, ties upwards. */
  function ToFixed3(x: real): real { (x * 1000.0 + 0.5).Floor as real / 1000.0 }

  function OrderQueue(jobs: seq<Job>, now: int, o: Options): (r: seq<QueueEntry>) {
    var sorted := Sort(jobs, QueueBefore(now, o));
    seq(|sorted|, i requires 0 <= i < |sorted| =>
      QueueEntry(sorted[i], i + 1, ToFixed3(Score(sorted[i], now, o)), WaitedMs(sorted[i], now) / 1000))
  }

  function JobsOf(entries: seq<QueueEntry>): seq<Job> {
    seq(|entries|, i requires 0 <= i < |entries| => entries[i].job)
  }

  function JobId(job: Job): Id { job.id }

  ghost predicate DistinctJobs(jobs: seq<Job>) { DistinctBy(jobs, JobId) }

  lemma QueueBeforeIsStrict(now: int, o: Options)
    ensures StrictOrder(QueueBefore(now, o))
  {
    var before := QueueBefore(now, o);
    forall x: Job ensures !before(x, x) {
      IdBeforeIsTotal(x.id, x.id);
    }
    forall x: Job, y: Job, z: Job | before(x, y) && before(y, z) ensures before(x, z) {
      if Score(x, now, o) == Score(y, now, o) == Score(z, now, o) && x.submittedAt == y.submittedAt == z.submittedAt {
        IdBeforeIsTransitive(x.id, y.id, z.id);
      }
    }
  }

  lemma DistinctJobsSeparate(jobs: seq<Job>, now: int, o: Options)
    requires DistinctJobs(jobs)
    ensures StrictOrder(QueueBefore(now, o)) && Separates(QueueBefore(now, o), jobs)
  {
    QueueBeforeIsStrict(now, o);
    forall i, j | 0 <= i < j < |jobs|
      ensures QueueBefore(now, o)(jobs[i], jobs[j]) || QueueBefore(now, o)(jobs[j], jobs[i])
    {
      assert JobId(jobs[i]) != JobId(jobs[j]);
      IdBeforeIsTotal(jobs[i].id, jobs[j].id);
    }
  }

  /** The queue is the increasing arrangement of the jobs, numbered from 1. */
  lemma QueueIsSortedPermutation(jobs: seq<Job>, now: int, o: Options)
    requires DistinctJobs(jobs)
    ensures var q := OrderQueue(jobs, now, o);
            && multiset(JobsOf(q)) == multiset(jobs)
            && Increasing(QueueBefore(now, o), JobsOf(q))
            && forall i :: 0 <= i < |q| ==> q[i].position == i + 1
  {
    DistinctJobsSeparate(jobs, now, o);
    SortIncreasing(jobs, QueueBefore(now, o));
    assert JobsOf(OrderQueue(jobs, now, o)) == Sort(jobs, QueueBefore(now, o));
  }

  /** Every node computes the same queue, whatever order its rows come in. */
  lemma QueueIsCanonical(xs: seq<Job>, ys: seq<Job>, now: int, o: Options)
    requires DistinctJobs(xs) && multiset(xs) == multiset(ys)
    ensures OrderQueue(xs, now, o) == OrderQueue(ys, now, o)
  {
    DistinctJobsSeparate(xs, now, o);
    SortIsCanonical(xs, ys, QueueBefore(now, o));
  }

  // ------------------------------------------------------- the clock cancels

  /** The score in units of 1/(1000 * aging) of a point. */
  lemma ScoreAsKey(job: Job, now: int, o: Options)
    requires o.agingSeconds > 0.0
    ensures Score(job, now, o) * (1000.0 * o.agingSeconds)
         == MilliUnits(job.fee, o.feeUnitWei) as real * o.agingSeconds + WaitedMs(job, now) as real
  {
    var a := o.agingSeconds;
    var w := WaitedMs(job, now) as real / 1000.0;
    var f := MilliUnits(job.fee, o.feeUnitWei) as real / 1000.0;
    assert w / a * a == w;
    assert Score(job, now, o) == f + w / a;
    assert (f + w / a) * (1000.0 * a) == f * 1000.0 * a + (w / a * a) * 1000.0;
  }

  /** Priority of `a` over `b` once both are submitted: only fees and submission times count. */
  lemma ScoreGap(a: Job, b: Job, now: int, o: Options)
    requires o.agingSeconds > 0.0 && a.submittedAt <= now && b.submittedAt <= now
    ensures Score(a, now, o) > Score(b, now, o) <==>
            (a.submittedAt - b.submittedAt) as real
            < (MilliUnits(a.fee, o.feeUnitWei) - MilliUnits(b.fee, o.feeUnitWei)) as real * o.agingSeconds
    ensures Score(a, now, o) == Score(b, now, o) <==>
            (a.submittedAt - b.submittedAt) as real
            == (MilliUnits(a.fee, o.feeUnitWei) - MilliUnits(b.fee, o.feeUnitWei)) as real * o.agingSeconds
  {
    ScoreAsKey(a, now, o);
    ScoreAsKey(b, now, o);
    ScaledComparison(Score(a, now, o), Score(b, now, o), 1000.0 * o.agingSeconds);
    var ma, mb, g := MilliUnits(a.fee, o.feeUnitWei) as real, MilliUnits(b.fee, o.feeUnitWei) as real, o.agingSeconds;
    assert (ma - mb) * g == ma * g - mb * g;
  }

  /** Once every job is submitted the order no longer depends on when it is computed. */
  lemma QueueIgnoresClock(jobs: seq<Job>, now: int, later: int, o: Options)
    requires forall j :: j in jobs ==> j.submittedAt <= now && j.submittedAt <= later
    ensures JobsOf(OrderQueue(jobs, now, o)) == JobsOf(OrderQueue(jobs, later, o))
  {
    forall x, y | x in jobs && y in jobs ensures QueueBefore(now, o)(x, y) == QueueBefore(later, o)(x, y) {
      if o.agingSeconds > 0.0 {
        ScoreGap(x, y, now, o);
        ScoreGap(x, y, later, o);
        ScoreGap(y, x, now, o);
        ScoreGap(y, x, later, o);
      }
    }
    SortCongruence(jobs, QueueBefore(now, o), QueueBefore(later, o));
    assert JobsOf(OrderQueue(jobs, now, o)) == Sort(jobs, QueueBefore(now, o));
    assert JobsOf(OrderQueue(jobs, later, o)) == Sort(jobs, QueueBefore(later, o));
  }

  /** A later job is ahead exactly when it arrived within the window its extra fee buys. */
  lemma OvertakingWindow(early: Job, late: Job, now: int, o: Options)
    requires o.agingSeconds > 0.0 && early.submittedAt < late.submittedAt <= now
    ensures QueueBefore(now, o)(late, early) <==>
            (late.submittedAt - early.submittedAt) as real
            < (MilliUnits(late.fee, o.feeUnitWei) - MilliUnits(early.fee, o.feeUnitWei)) as real * o.agingSeconds
  {
    ScoreGap(late, early, now, o);
  }

  // ------------------------------------------------------- the database query

  /** The expression of the query: exact fee units, unclamped waiting time. */
  function SqlScore(job: Job, now: int, o: Options): real
    requires o.feeUnitWei > 0
  {
    job.fee as real / o.feeUnitWei as real
    + if o.agingSeconds > 0.0 then (now - job.submittedAt) as real / 1000.0 / o.agingSeconds else 0.0
  }

  /** ORDER BY priority_score DESC, submittedAt ASC; ties are the database's choice. */
  predicate SqlBefore(a: Job, b: Job, now: int, o: Options)
    requires o.feeUnitWei > 0
  {
    SqlScore(a, now, o) > SqlScore(b, now, o)
    || (SqlScore(a, now, o) == SqlScore(b, now, o) && a.submittedAt < b.submittedAt)
  }

  /** `head` is an answer the query may give on the pending rows, `rest` is what LIMIT cut off. */
  ghost predicate QueryAnswer(head: seq<Job>, rest: seq<Job>, pending: seq<Job>, limit: nat, now: int, o: Options)
    requires o.feeUnitWei > 0
  {
    && multiset(head + rest) == multiset(pending)
    && |head| == (if limit < |pending| then limit else |pending|)
    && (forall i, j :: 0 <= i < j < |head| ==> !SqlBefore(head[j], head[i], now, o))
    && (forall h, r :: h in head && r in rest ==> !SqlBefore(r, h, now, o))
  }

  ghost predicate AllSubmitted(jobs: seq<Job>, now: int) {
    forall j :: j in jobs ==> j.submittedAt <= now
  }

  /** Flooring the fee loses less than a thousandth of a point, never gains, and loses nothing exactly when the
      fee is a whole number of thousandths of a unit. */
  lemma SqlScoreIsClose(job: Job, now: int, o: Options)
    requires o.feeUnitWei > 0 && job.submittedAt <= now
    ensures 0.0 <= SqlScore(job, now, o) - Score(job, now, o) < 0.001
    ensures SqlScore(job, now, o) == Score(job, now, o) <==> job.fee * 1000 % o.feeUnitWei == 0
  {
    var u := o.feeUnitWei;
    var q, r := job.fee * 1000 / u, job.fee * 1000 % u;
    assert job.fee * 1000 == q * u + r && 0 <= r < u;
    var exact := job.fee as real / u as real;
    assert exact * u as real == job.fee as real;
    assert exact * 1000.0 * u as real == q as real * u as real + r as real;
    assert (exact * 1000.0 - q as real) * u as real == r as real;
    var loss := exact * 1000.0 - q as real;
    assert loss * u as real == r as real;
    SmallQuotient(loss, u, r);
  }

  lemma SmallQuotient(loss: real, u: int, r: int)
    requires 0 <= r < u && loss * u as real == r as real
    ensures 0.0 <= loss < 1.0
    ensures r == 0 <==> loss == 0.0
  {
    ScaledComparison(0.0, loss, u as real);
    ScaledComparison(1.0, loss, u as real);
  }

  /** A job the limit cut off is never a thousandth of a point ahead of one that was taken. */
  lemma CutIsWithinAThousandth(head: seq<Job>, rest: seq<Job>, pending: seq<Job>, limit: nat, now: int, o: Options,
                               taken: Job, cut: Job)
    requires o.feeUnitWei > 0 && QueryAnswer(head, rest, pending, limit, now, o)
    requires AllSubmitted(pending, now)
    requires taken in head && cut in rest
    ensures Score(cut, now, o) < Score(taken, now, o) + 0.001
  {
    assert taken in multiset(pending) && cut in multiset(pending);
    SqlScoreIsClose(taken, now, o);
    SqlScoreIsClose(cut, now, o);
  }

  /** The bound is real: flooring can make the query cut off the job priority.ts ranks first. */
  lemma CutCanDisagree() returns (head: seq<Job>, rest: seq<Job>, pending: seq<Job>, o: Options)
    ensures o.feeUnitWei > 0 && QueryAnswer(head, rest, pending, 1, 2, o)
    ensures DistinctJobs(pending) && AllSubmitted(pending, 2)
    ensures |head| == 1 && JobsOf(OrderQueue(pending, 2, o))[..1] != head
  {
    // 1/2000 of a unit rounds down to nothing; it buys 30 ms of waiting in the query.
    o := Options(2000, 60.0);
    var paid, waiting := Job("a", 1, 2), Job("b", 0, 1);
    head, rest, pending := [paid], [waiting], [paid, waiting];
    assert head + rest == pending;
    assert SqlScore(paid, 2, o) > SqlScore(waiting, 2, o);
    assert Score(waiting, 2, o) > Score(paid, 2, o);
    var before := QueueBefore(2, o);
    assert pending[1..] == [waiting];
    assert Sort([waiting], before) == [waiting];
    assert Sort(pending, before) == Insert(paid, [waiting], before);
    assert Sort(pending, before)[0] == waiting;
  }

  /** Same score and submission time: the query leaves the order of the two open. */
  predicate Tied(a: Job, b: Job, now: int, o: Options) {
    Score(a, now, o) == Score(b, now, o) && a.submittedAt == b.submittedAt
  }

  ghost predicate NoTies(jobs: seq<Job>, now: int, o: Options) {
    forall i, j :: 0 <= i < j < |jobs| ==> !Tied(jobs[i], jobs[j], now, o)
  }

  /** With fees in whole thousandths and no ties, listing the query's answer is listing the head
      of the whole queue. */
  lemma ListIsHeadOfQueue(head: seq<Job>, rest: seq<Job>, pending: seq<Job>, limit: nat, now: int, o: Options)
    requires o.feeUnitWei > 0 && QueryAnswer(head, rest, pending, limit, now, o)
    requires DistinctJobs(pending) && AllSubmitted(pending, now)
    requires forall j :: j in pending ==> j.fee * 1000 % o.feeUnitWei == 0
    requires NoTies(pending, now, o)
    ensures |head| <= |OrderQueue(pending, now, o)|
    ensures OrderQueue(head, now, o) == OrderQueue(pending, now, o)[..|head|]
  {
    var before := QueueBefore(now, o);
    DistinctJobsSeparate(pending, now, o);
    forall h, r | h in head && r in rest ensures before(h, r) {
      HeadBeatsRest(head, rest, pending, limit, now, o, h, r);
    }
    SortSplits(pending, head, rest, before);
    SortMembers(head, before);
    var sorted, first := Sort(pending, before), Sort(head, before);
    assert |first| == |head| && sorted[..|head|] == first;
    EntriesOfPrefix(pending, head, now, o);
  }

  lemma EntriesOfPrefix(pending: seq<Job>, head: seq<Job>, now: int, o: Options)
    requires |Sort(head, QueueBefore(now, o))| == |head| <= |Sort(pending, QueueBefore(now, o))|
    requires Sort(pending, QueueBefore(now, o))[..|head|] == Sort(head, QueueBefore(now, o))
    ensures OrderQueue(head, now, o) == OrderQueue(pending, now, o)[..|head|]
  {
  }

  lemma HeadBeatsRest(head: seq<Job>, rest: seq<Job>, pending: seq<Job>, limit: nat, now: int, o: Options,
                      h: Job, r: Job)
    requires o.feeUnitWei > 0 && QueryAnswer(head, rest, pending, limit, now, o)
    requires DistinctJobs(pending) && AllSubmitted(pending, now)
    requires forall j :: j in pending ==> j.fee * 1000 % o.feeUnitWei == 0
    requires NoTies(pending, now, o)
    requires h in head && r in rest
    ensures QueueBefore(now, o)(h, r)
  {
    var a :| 0 <= a < |head| && head[a] == h;
    var b :| 0 <= b < |rest| && rest[b] == r;
    var all := head + rest;
    assert all[a] == h && all[|head| + b] == r;
    TwoPlaces(pending, all, a, |head| + b);
    var i, j :| 0 <= i < |pending| && 0 <= j < |pending| && i != j && pending[i] == h && pending[j] == r;
    assert h in pending && r in pending;
    SqlScoreIsClose(h, now, o);
    SqlScoreIsClose(r, now, o);
    assert !SqlBefore(r, h, now, o);
    assert i < j ==> !Tied(pending[i], pending[j], now, o);
    assert j < i ==> !Tied(pending[j], pending[i], now, o);
  }

  // ------------------------------------------------------------ no starvation

  /** Between two drains jobs arrive; the drain then takes the query's head off the queue. */
  datatype Round = Round(arrivals: set<Job>, now: int, batch: set<Job>)

  datatype Queue = Queue(pending: set<Job>, seen: set<Job>)

  ghost predicate RoundOk(q: Queue, r: Round, limit: nat, o: Options)
    requires o.feeUnitWei > 0
  {
    var waiting := q.pending + r.arrivals;
    && r.arrivals !! q.seen
    && (forall j :: j in waiting ==> j.submittedAt <= r.now)
    && r.batch <= waiting
    && |r.batch| == (if limit < |waiting| then limit else |waiting|)
    && (forall b, w :: b in r.batch && w in waiting - r.batch ==> !SqlBefore(w, b, r.now, o))
  }

  function AfterRound(q: Queue, r: Round): Queue {
    Queue(q.pending + r.arrivals - r.batch, q.seen + r.arrivals)
  }

  ghost predicate RunOk(q: Queue, rounds: seq<Round>, limit: nat, o: Options)
    requires o.feeUnitWei > 0
    decreases |rounds|
  {
    rounds == [] || (RoundOk(q, rounds[0], limit, o) && RunOk(AfterRound(q, rounds[0]), rounds[1..], limit, o))
  }

  function AfterRun(q: Queue, rounds: seq<Round>): Queue
    decreases |rounds|
  {
    if rounds == [] then q else AfterRun(AfterRound(q, rounds[0]), rounds[1..])
  }

  function Drained(rounds: seq<Round>): set<Job> {
    if rounds == [] then {} else rounds[0].batch + Drained(rounds[1..])
  }

  /** Jobs that could ever be taken before `j` when no fee exceeds `maxFee`: they arrived no later
      than the waiting time that fee is worth. */
  ghost predicate MayOvertake(x: Job, j: Job, maxFee: nat, o: Options)
    requires o.feeUnitWei > 0
  {
    (x.submittedAt - j.submittedAt) as real
    <= maxFee as real / o.feeUnitWei as real * 1000.0 * o.agingSeconds
  }

  lemma TakenFirstIsInWindow(x: Job, j: Job, now: int, maxFee: nat, o: Options)
    requires o.feeUnitWei > 0 && o.agingSeconds > 0.0
    requires x.fee <= maxFee && !SqlBefore(j, x, now, o)
    ensures MayOvertake(x, j, maxFee, o)
  {
    var u, g := o.feeUnitWei as real, o.agingSeconds;
    var fx, fj, fm := x.fee as real / u, j.fee as real / u, maxFee as real / u;
    QuotientMonotone(x.fee, maxFee, o.feeUnitWei);
    QuotientMonotone(0, j.fee, o.feeUnitWei);
    var wx, wj := (now - x.submittedAt) as real / 1000.0, (now - j.submittedAt) as real / 1000.0;
    assert fx + wx / g >= fj + wj / g;
    assert (fx - fj) * g >= wj - wx by {
      assert wx / g * g == wx && wj / g * g == wj;
      var d := fx + wx / g - fj - wj / g;
      assert d >= 0.0;
      assert d * g >= 0.0;
      assert d * g == (fx - fj) * g + wx / g * g - wj / g * g;
    }
    assert (fm - (fx - fj)) * g >= 0.0;
    assert fm * g >= (fx - fj) * g;
  }

  lemma QuotientMonotone(a: nat, b: nat, u: int)
    requires u > 0 && a <= b
    ensures a as real / u as real <= b as real / u as real
  {
    var qa, qb := a as real / u as real, b as real / u as real;
    assert qa * u as real == a as real && qb * u as real == b as real;
    ScaledComparison(qa, qb, u as real);
  }

  /** One drain that leaves `j` behind takes a full batch, all of it from the window of `j`. */
  lemma BatchIsFromWindow(q: Queue, r: Round, limit: nat, o: Options, j: Job, maxFee: nat)
    requires o.feeUnitWei > 0 && o.agingSeconds > 0.0
    requires RoundOk(q, r, limit, o)
    requires j in q.pending + r.arrivals - r.batch
    requires forall x :: x in r.batch ==> x.fee <= maxFee
    ensures |r.batch| == limit
    ensures forall x :: x in r.batch ==> x != j && MayOvertake(x, j, maxFee, o)
  {
    var waiting := q.pending + r.arrivals;
    var left := waiting - r.batch;
    assert waiting == r.batch + left;
    assert |waiting| == |r.batch| + |left|;
    assert left != {};
    forall x | x in r.batch ensures MayOvertake(x, j, maxFee, o) {
      TakenFirstIsInWindow(x, j, r.now, maxFee, o);
    }
  }

  /** A job still waiting after a run of drains: every drain took `limit` jobs of the window. */
  lemma {:induction false} DrainsEatTheWindow(q: Queue, rounds: seq<Round>, limit: nat, o: Options, j: Job, maxFee: nat)
    requires o.feeUnitWei > 0 && o.agingSeconds > 0.0
    requires RunOk(q, rounds, limit, o) && q.pending <= q.seen
    requires j in q.pending && j in AfterRun(q, rounds).pending
    requires forall x :: x in AfterRun(q, rounds).seen ==> x.fee <= maxFee
    ensures |Drained(rounds)| == |rounds| * limit
    ensures q.seen <= AfterRun(q, rounds).seen
    ensures Drained(rounds) <= AfterRun(q, rounds).seen
    ensures Drained(rounds) !! (q.seen - q.pending)
    ensures forall x :: x in Drained(rounds) ==> x != j && MayOvertake(x, j, maxFee, o)
    decreases |rounds|
  {
    if rounds == [] {
      assert |Drained(rounds)| == 0 == |rounds| * limit;
    } else {
      var r, q', later := rounds[0], AfterRound(q, rounds[0]), rounds[1..];
      StaysOut(q', later, limit, o, j);
      DrainsEatTheWindow(q', later, limit, o, j, maxFee);
      assert AfterRun(q, rounds) == AfterRun(q', later);
      BatchLeavesQueue(q, r, limit, o);
      BatchIsFromWindow(q, r, limit, o, j, maxFee);
      DisjointSizes(r.batch, Drained(later));
      OneMore(|later|, limit);
    }
  }

  lemma BatchLeavesQueue(q: Queue, r: Round, limit: nat, o: Options)
    requires o.feeUnitWei > 0 && RoundOk(q, r, limit, o) && q.pending <= q.seen
    ensures var after := AfterRound(q, r);
            && after.pending <= after.seen && q.seen <= after.seen
            && r.batch <= after.seen - after.pending
            && q.seen - q.pending <= after.seen - after.pending
            && r.batch !! (q.seen - q.pending)
  {
  }

  lemma DisjointSizes<T>(a: set<T>, b: set<T>)
    requires a !! b
    ensures |a + b| == |a| + |b|
  {
  }

  lemma OneMore(n: nat, k: nat)
    ensures (n + 1) * k == k + n * k
  {
  }

  /** What has been drained does not come back. */
  lemma {:induction false} StaysOut(q: Queue, rounds: seq<Round>, limit: nat, o: Options, j: Job)
    requires o.feeUnitWei > 0 && RunOk(q, rounds, limit, o) && q.pending <= q.seen
    requires j in q.seen && j in AfterRun(q, rounds).pending
    ensures j in q.pending
    decreases |rounds|
  {
    if rounds != [] {
      StaysOut(AfterRound(q, rounds[0]), rounds[1..], limit, o, j);
    }
  }

  /** No starvation: with fees of at most `maxFee`, a job waits at most as many drains as the
      jobs of one fixed arrival window fill, however many jobs keep arriving. */
  lemma NoStarvation(q: Queue, rounds: seq<Round>, limit: nat, o: Options, j: Job, maxFee: nat, window: set<Job>)
    requires o.feeUnitWei > 0 && o.agingSeconds > 0.0
    requires RunOk(q, rounds, limit, o) && q.pending <= q.seen
    requires j in q.pending && |rounds| * limit > |window|
    ensures WindowOf(AfterRun(q, rounds).seen, j, maxFee, o, window) ==>
              j in Drained(rounds) && j !in AfterRun(q, rounds).pending
  {
    if WindowOf(AfterRun(q, rounds).seen, j, maxFee, o, window) {
      if j in AfterRun(q, rounds).pending {
        DrainsEatTheWindow(q, rounds, limit, o, j, maxFee);
        SubsetSize(Drained(rounds), window);
        assert false;
      }
      LeftMeansDrained(q, rounds, j);
    }
  }

  /** No fee ever seen exceeds `maxFee`, and `window` holds every job that could be taken before `j`. */
  ghost predicate WindowOf(seen: set<Job>, j: Job, maxFee: nat, o: Options, window: set<Job>)
    requires o.feeUnitWei > 0
  {
    && (forall x :: x in seen ==> x.fee <= maxFee)
    && (forall x :: x in seen && x != j && MayOvertake(x, j, maxFee, o) ==> x in window)
  }

  lemma {:induction false} LeftMeansDrained(q: Queue, rounds: seq<Round>, j: Job)
    requires j in q.pending && j !in AfterRun(q, rounds).pending
    ensures j in Drained(rounds)
    decreases |rounds|
  {
    if rounds != [] && j !in rounds[0].batch {
      LeftMeansDrained(AfterRound(q, rounds[0]), rounds[1..], j);
    }
  }

  lemma SubsetSize<T>(a: set<T>, b: set<T>)
    requires a <= b
    ensures |a| <= |b|
  {
    assert b == a + (b - a);
    assert |b| == |a| + |b - a|;
  }
}
