/**
 Draining the job queue from several service instances at once (src/modules/jobs/job-queue.service.ts,
 src/modules/jobs/jobs.service.ts): every step below is one continuation between two awaits, and the
 steps of all instances and of everybody else who touches a job interleave freely.
 */
module JobClaims {
  import opened Basics

  datatype JobStatus = Pending | Assigned | InProgress | Completed | Failed

  /** An instance called processJob for a job. The call follows a won claim with nothing in between that
      could stop it, so the log is written with the claim. */
  datatype HandOff = HandOff(instance: nat, jobId: Id)

  /** The job table, and the log of all calls of processJob the queue made. */
  datatype Jobs = Jobs(status: map<Id, JobStatus>, handed: seq<HandOff>)

  datatype DrainResult = DrainResult(jobId: Id, outcome: string, error: Option<string>)

  /** What a call of processJob comes to. */
  datatype Processed = Finished(outcome: string) | Threw(message: string)

  function Report(jobId: Id, p: Processed): DrainResult {
    match p
    case Finished(outcome) => DrainResult(jobId, outcome, None)
    case Threw(message) => DrainResult(jobId, "failed", Some(message))
  }

  /** The conditional update of claimPending: whether a row was affected, and the table after it. */
  function Claim(jobs: Jobs, id: Id): (bool, Jobs) {
    if id in jobs.status && jobs.status[id] == Pending then (true, jobs.(status := jobs.status[id := Assigned]))
    else (false, jobs)
  }

  /** updateStatus: throws when the job does not exist. */
  function SetStatus(jobs: Jobs, id: Id, status: JobStatus): (bool, Jobs) {
    if id in jobs.status then (true, jobs.(status := jobs.status[id := status])) else (false, jobs)
  }

  function LogHandOff(jobs: Jobs, i: nat, id: Id): Jobs { jobs.(handed := jobs.handed + [HandOff(i, id)]) }

  // ------------------------------------------------------------ what is claimed

  /** The jobs of the queue whose claim won, in queue order. */
  function Picked(queue: seq<Id>, won: seq<bool>): (r: seq<Id>)
    requires |won| <= |queue|
    ensures forall id :: id in r ==> id in queue[..|won|]
  {
    if won == [] then []
    else
      var n := |won| - 1;
      Picked(queue, won[..n]) + if won[n] then [queue[n]] else []
  }

  /** The hand-offs of instance `i` since the log was `from` entries long. */
  function Mine(handed: seq<HandOff>, from: nat, i: nat): seq<Id>
    requires from <= |handed|
    decreases |handed|
  {
    if from == |handed| then []
    else
      var n := |handed| - 1;
      Mine(handed[..n], from, i) + if handed[n].instance == i then [handed[n].jobId] else []
  }

  lemma MineAfter(handed: seq<HandOff>, from: nat, i: nat, h: HandOff)
    requires from <= |handed|
    ensures Mine(handed + [h], from, i) == Mine(handed, from, i) + if h.instance == i then [h.jobId] else []
  {
    assert (handed + [h])[..|handed|] == handed;
  }

  lemma PickedAfter(queue: seq<Id>, won: seq<bool>, w: bool)
    requires |won| < |queue|
    ensures Picked(queue, won + [w]) == Picked(queue, won) + if w then [queue[|won|]] else []
  {
    assert (won + [w])[..|won|] == won;
  }

  ghost predicate Distinct(ids: seq<Id>) { forall i, j :: 0 <= i < j < |ids| ==> ids[i] != ids[j] }

  lemma {:induction false} PickedIsDistinct(queue: seq<Id>, won: seq<bool>)
    requires |won| <= |queue| && Distinct(queue)
    ensures Distinct(Picked(queue, won))
    decreases |won|
  {
    if won != [] {
      PickedIsDistinct(queue, won[..|won| - 1]);
      assert queue[|won| - 1] !in queue[..|won| - 1];
    }
  }

  function ResultIds(results: seq<DrainResult>): seq<Id> {
    seq(|results|, i requires 0 <= i < |results| => results[i].jobId)
  }

  // -------------------------------------------------------- what others may do

  /** Nobody's job is handed over twice, and a job handed over has left the queue. */
  ghost predicate Sound(jobs: Jobs) {
    && (forall a, b :: 0 <= a < b < |jobs.handed| ==> jobs.handed[a].jobId != jobs.handed[b].jobId)
    && (forall a :: 0 <= a < |jobs.handed| ==> jobs.handed[a].jobId in jobs.status
                                               && jobs.status[jobs.handed[a].jobId] != Pending)
  }

  /** Later tables: jobs do not disappear or return to pending, the log only grows and stays sound, and
      nothing is handed over in the name of `i`. */
  ghost predicate Interference(before: Jobs, after: Jobs, i: nat) {
    && Ages(before, after)
    && forall a :: |before.handed| <= a < |after.handed| ==> after.handed[a].instance != i
  }

  ghost predicate Ages(before: Jobs, after: Jobs) {
    && (forall id :: id in before.status ==> id in after.status)
    && (forall id :: id in before.status && before.status[id] != Pending ==> after.status[id] != Pending)
    && before.handed <= after.handed
    && (Sound(before) ==> Sound(after))
  }

  lemma AgesFurther(a: Jobs, b: Jobs, c: Jobs)
    requires Ages(a, b) && Ages(b, c)
    ensures Ages(a, c)
  {
  }

  /** Winning a claim and handing the job over is sound: nobody can have handed it over before. */
  lemma ClaimAges(jobs: Jobs, i: nat, id: Id)
    ensures Ages(jobs, Claim(jobs, id).1)
    ensures Claim(jobs, id).0 ==> Ages(jobs, LogHandOff(Claim(jobs, id).1, i, id))
  {
  }

  lemma SetStatusAges(jobs: Jobs, id: Id, status: JobStatus)
    requires status != Pending
    ensures Ages(jobs, SetStatus(jobs, id, status).1)
  {
  }

  lemma {:induction false} MineIgnoresOthers(before: seq<HandOff>, after: seq<HandOff>, from: nat, i: nat)
    requires from <= |before| && before <= after
    requires forall a :: |before| <= a < |after| ==> after[a].instance != i
    ensures Mine(after, from, i) == Mine(before, from, i)
    decreases |after|
  {
    if |after| == |before| {
      assert after == before;
    } else {
      MineIgnoresOthers(before, after[..|after| - 1], from, i);
    }
  }

  // ------------------------------------------------------------- the protocol

  /** Where the drain of one instance stands: `won` records the claims made so far on `queue`. */
  datatype Stage =
    | Idle
    | Listing
    | Claiming(queue: seq<Id>, won: seq<bool>, results: seq<DrainResult>)
    | Processing(queue: seq<Id>, won: seq<bool>, results: seq<DrainResult>)
    | Marking(queue: seq<Id>, won: seq<bool>, results: seq<DrainResult>, message: string)

  /** `from` is how long the log was when the drain started. */
  datatype Instance = Instance(draining: bool, stage: Stage, from: nat)

  datatype Move =
    | Call
    | List(order: seq<Id>)
    | ListThrows
    | TryClaim
    | ClaimThrows(applied: bool)  // the update threw, perhaps after it took effect
    | ProcessEnds(result: Processed)
    | MarkFailed
    | MarkThrows
    | End

  predicate AtClaim(s: Stage) { s.Claiming? && |s.won| < |s.queue| }

  predicate InProcess(s: Stage) { s.Processing? && 0 < |s.won| <= |s.queue| }

  predicate InMarking(s: Stage) { s.Marking? && 0 < |s.won| <= |s.queue| }

  ghost predicate Allowed(s: Stage, m: Move) {
    match m
    case Call => true
    case List(order) => s.Listing? && Distinct(order)
    case ListThrows => s.Listing?
    case TryClaim => AtClaim(s)
    case ClaimThrows(_) => AtClaim(s)
    case ProcessEnds(_) => InProcess(s)
    case MarkFailed => InMarking(s)
    case MarkThrows => InMarking(s)
    case End => s.Claiming? && |s.won| >= |s.queue|
  }

  /** The finally clause: whatever ends the drain, the guard is released. */
  function Released(x: Instance): Instance { x.(draining := false, stage := Idle) }

  function MoveOf(x: Instance, jobs: Jobs, i: nat, m: Move): (Instance, Jobs)
    requires Allowed(x.stage, m)
  {
    var s := x.stage;
    match m
    case Call => if x.draining then (x, jobs) else (Instance(true, Listing, |jobs.handed|), jobs)
    case List(order) => (x.(stage := Claiming(order, [], [])), jobs)
    case ListThrows => (Released(x), jobs)
    case TryClaim =>
      var id := s.queue[|s.won|];
      var (won, after) := Claim(jobs, id);
      if won then (x.(stage := Processing(s.queue, s.won + [true], s.results)), LogHandOff(after, i, id))
      else (x.(stage := Claiming(s.queue, s.won + [false], s.results)), after)
    case ClaimThrows(applied) => (Released(x), if applied then Claim(jobs, s.queue[|s.won|]).1 else jobs)
    case ProcessEnds(result) =>
      (match result
       case Finished(_) => x.(stage := Claiming(s.queue, s.won, s.results + [Report(s.queue[|s.won| - 1], result)]))
       case Threw(message) => x.(stage := Marking(s.queue, s.won, s.results, message)), jobs)
    case MarkFailed =>
      var id := s.queue[|s.won| - 1];
      var (found, after) := SetStatus(jobs, id, Failed);
      (if found then x.(stage := Claiming(s.queue, s.won, s.results + [Report(id, Threw(s.message))]))
       else Released(x), after)
    case MarkThrows => (Released(x), jobs)
    case End => (Released(x), jobs)
  }

  datatype Event =
    | JobSubmitted(id: Id)
    | StatusWritten(id: Id, status: JobStatus)  // the coordinator, a commit-reveal round
    | Moves(i: nat, move: Move)

  datatype World = World(jobs: Jobs, instances: seq<Instance>)

  ghost predicate Enabled(w: World, e: Event) {
    match e
    case JobSubmitted(id) => id !in w.jobs.status
    case StatusWritten(_, status) => status != Pending
    case Moves(i, m) => i < |w.instances| && Allowed(w.instances[i].stage, m)
  }

  function Step(w: World, e: Event): World
    requires Enabled(w, e)
  {
    match e
    case JobSubmitted(id) => w.(jobs := w.jobs.(status := w.jobs.status[id := Pending]))
    case StatusWritten(id, status) => w.(jobs := SetStatus(w.jobs, id, status).1)
    case Moves(i, m) =>
      var (x, jobs) := MoveOf(w.instances[i], w.jobs, i, m);
      World(jobs, w.instances[i := x])
  }

  /** `n` idle instances and no jobs. */
  function Fresh(n: nat): World { World(Jobs(map[], []), seq(n, _ => Instance(false, Idle, 0))) }

  ghost predicate IsRun(ws: seq<World>, es: seq<Event>, n: nat) {
    && |ws| == |es| + 1 && ws[0] == Fresh(n)
    && forall k :: 0 <= k < |es| ==> Enabled(ws[k], es[k]) && ws[k + 1] == Step(ws[k], es[k])
  }

  // ---------------------------------------------------------------- invariant

  ghost predicate StageOk(s: Stage, mine: seq<Id>) {
    match s
    case Idle => true
    case Listing => mine == []
    case Claiming(queue, won, results) =>
      Distinct(queue) && |won| <= |queue| && mine == Picked(queue, won) == ResultIds(results)
    case Processing(queue, won, results) => InHand(queue, won, results, mine)
    case Marking(queue, won, results, _) => InHand(queue, won, results, mine)
  }

  /** The last claim won and its job has no result yet. */
  ghost predicate InHand(queue: seq<Id>, won: seq<bool>, results: seq<DrainResult>, mine: seq<Id>) {
    && Distinct(queue) && 0 < |won| <= |queue| && won[|won| - 1]
    && mine == Picked(queue, won) == ResultIds(results) + [queue[|won| - 1]]
  }

  ghost predicate InstanceOk(x: Instance, jobs: Jobs, i: nat) {
    && (x.draining <==> !x.stage.Idle?)
    && x.from <= |jobs.handed|
    && StageOk(x.stage, Mine(jobs.handed, x.from, i))
  }

  ghost predicate Inv(w: World) {
    && Sound(w.jobs)
    && forall i :: 0 <= i < |w.instances| ==> InstanceOk(w.instances[i], w.jobs, i)
  }

  lemma MoveIsInterference(x: Instance, jobs: Jobs, i: nat, m: Move)
    requires Allowed(x.stage, m)
    ensures var after := MoveOf(x, jobs, i, m).1;
            && Ages(jobs, after)
            && forall a :: |jobs.handed| <= a < |after.handed| ==> after.handed[a].instance == i
  {
    if m.TryClaim? || m.ClaimThrows? {
      ClaimAges(jobs, i, x.stage.queue[|x.stage.won|]);
    } else if m.MarkFailed? {
      SetStatusAges(jobs, x.stage.queue[|x.stage.won| - 1], Failed);
    }
  }

  lemma ResultAdded(results: seq<DrainResult>, r: DrainResult)
    ensures ResultIds(results + [r]) == ResultIds(results) + [r.jobId]
  {
  }

  lemma MoveKeepsInstance(x: Instance, jobs: Jobs, i: nat, m: Move)
    requires Allowed(x.stage, m) && InstanceOk(x, jobs, i)
    ensures var (y, after) := MoveOf(x, jobs, i, m); InstanceOk(y, after, i)
  {
    var s := x.stage;
    match m
    case TryClaim => ClaimKeepsInstance(x, jobs, i);
    case ProcessEnds(result) => ResultAdded(s.results, Report(s.queue[|s.won| - 1], result));
    case MarkFailed => ResultAdded(s.results, Report(s.queue[|s.won| - 1], Threw(s.message)));
    case _ =>
  }

  lemma ClaimKeepsInstance(x: Instance, jobs: Jobs, i: nat)
    requires Allowed(x.stage, TryClaim) && InstanceOk(x, jobs, i)
    ensures var (y, after) := MoveOf(x, jobs, i, TryClaim); InstanceOk(y, after, i)
  {
    var s := x.stage;
    var id := s.queue[|s.won|];
    PickedAfter(s.queue, s.won, Claim(jobs, id).0);
    MineAfter(jobs.handed, x.from, i, HandOff(i, id));
  }

  lemma OthersKeepInstance(x: Instance, before: Jobs, after: Jobs, i: nat)
    requires InstanceOk(x, before, i) && Interference(before, after, i)
    ensures InstanceOk(x, after, i)
  {
    MineIgnoresOthers(before.handed, after.handed, x.from, i);
  }

  lemma StepAges(w: World, e: Event)
    requires Enabled(w, e)
    ensures Ages(w.jobs, Step(w, e).jobs)
  {
    match e
    case JobSubmitted(_) =>
    case StatusWritten(id, status) => SetStatusAges(w.jobs, id, status);
    case Moves(i, m) => MoveIsInterference(w.instances[i], w.jobs, i, m);
  }

  /** To instance `i`, whatever the others do is interference of the allowed kind. */
  lemma OthersInterfere(w: World, e: Event, i: nat)
    requires Enabled(w, e) && (e.Moves? ==> e.i != i)
    ensures Interference(w.jobs, Step(w, e).jobs, i)
  {
    StepAges(w, e);
    if e.Moves? {
      MoveIsInterference(w.instances[e.i], w.jobs, e.i, e.move);
    }
  }

  lemma StepKeeps(w: World, e: Event)
    requires Enabled(w, e) && Inv(w)
    ensures Inv(Step(w, e))
  {
    var after := Step(w, e);
    StepAges(w, e);
    forall i | 0 <= i < |after.instances| ensures InstanceOk(after.instances[i], after.jobs, i) {
      if e.Moves? && e.i == i {
        MoveKeepsInstance(w.instances[i], w.jobs, i, e.move);
      } else {
        OthersInterfere(w, e, i);
        OthersKeepInstance(w.instances[i], w.jobs, after.jobs, i);
      }
    }
  }

  lemma {:induction false} RunInv(ws: seq<World>, es: seq<Event>, n: nat, k: nat)
    requires IsRun(ws, es, n) && k <= |es|
    ensures Inv(ws[k])
  {
    if k > 0 {
      RunInv(ws, es, n, k - 1);
      StepKeeps(ws[k - 1], es[k - 1]);
    }
  }

  // ------------------------------------------------------------- main results

  /** For any number of instances and any interleaving: no job is handed to processJob twice, and one
      that was handed over is not pending. */
  lemma ClaimedAtMostOnce(ws: seq<World>, es: seq<Event>, n: nat, a: nat, b: nat)
    requires IsRun(ws, es, n)
    requires a < |ws[|es|].jobs.handed| && b < |ws[|es|].jobs.handed|
    requires ws[|es|].jobs.handed[a].jobId == ws[|es|].jobs.handed[b].jobId
    ensures a == b
    ensures ws[|es|].jobs.handed[a].jobId in ws[|es|].jobs.status
    ensures ws[|es|].jobs.status[ws[|es|].jobs.handed[a].jobId] != Pending
  {
    RunInv(ws, es, n, |es|);
  }

  /** A job that left the queue never comes back. */
  lemma {:induction false} NeverPendingAgain(ws: seq<World>, es: seq<Event>, n: nat, k: nat, m: nat, id: Id)
    requires IsRun(ws, es, n) && k <= m <= |es|
    requires id in ws[k].jobs.status && ws[k].jobs.status[id] != Pending
    ensures id in ws[m].jobs.status && ws[m].jobs.status[id] != Pending
    decreases m
  {
    if k < m {
      NeverPendingAgain(ws, es, n, k, m - 1, id);
      StepAges(ws[m - 1], es[m - 1]);
    }
  }

  /** When a drain ends, its results name exactly the jobs it handed over, once each and in queue order,
      also where processJob threw. */
  lemma ResultsListTheClaims(ws: seq<World>, es: seq<Event>, n: nat, k: nat, i: nat)
    requires IsRun(ws, es, n) && k < |es| && es[k] == Moves(i, End)
    ensures var x := ws[k].instances[i];
            && x.stage.Claiming? && |x.stage.won| == |x.stage.queue| && x.from <= |ws[k].jobs.handed|
            && ResultIds(x.stage.results) == Picked(x.stage.queue, x.stage.won) == Mine(ws[k].jobs.handed, x.from, i)
            && Distinct(ResultIds(x.stage.results))
    ensures !ws[k + 1].instances[i].draining
  {
    RunInv(ws, es, n, k);
    assert Enabled(ws[k], es[k]);
    PickedIsDistinct(ws[k].instances[i].stage.queue, ws[k].instances[i].stage.won);
  }

  /** Moves left to a drain that has its list, at most. */
  function Remaining(s: Stage): nat
    requires !s.Idle? && !s.Listing? ==> |s.won| <= |s.queue|
  {
    match s
    case Idle => 0
    case Listing => 0
    case Claiming(queue, won, _) => 3 * (|queue| - |won|) + 1
    case Processing(queue, won, _) => 3 * (|queue| - |won|) + 3
    case Marking(queue, won, _, _) => 3 * (|queue| - |won|) + 2
  }

  /** The guard never stays set: it is set only while a drain is under way, a drain can always move, and
      once it has its list every move of its own brings it nearer to its end. */
  lemma GuardIsReleased(ws: seq<World>, es: seq<Event>, n: nat, k: nat, i: nat)
    requires IsRun(ws, es, n) && k <= |es| && i < |ws[k].instances|
    ensures ws[k].instances[i].draining ==> exists m: Move :: m != Call && Allowed(ws[k].instances[i].stage, m)
    ensures var s := ws[k].instances[i].stage;
            k < |es| && es[k].Moves? && es[k].i == i && es[k].move != Call && !s.Listing? ==>
              && i < |ws[k + 1].instances| && !s.Idle? && |s.won| <= |s.queue|
              && var t := ws[k + 1].instances[i].stage;
                 !t.Listing? && (!t.Idle? ==> |t.won| <= |t.queue|) && Remaining(t) < Remaining(s)
  {
    RunInv(ws, es, n, k);
    var x := ws[k].instances[i];
    assert InstanceOk(x, ws[k].jobs, i);
    match x.stage
    case Idle =>
    case Listing => assert Allowed(x.stage, ListThrows);
    case Claiming(queue, won, _) =>
      if |won| < |queue| {
        assert Allowed(x.stage, TryClaim);
      } else {
        assert Allowed(x.stage, End);
      }
    case Processing(_, _, _) => assert Allowed(x.stage, ProcessEnds(Finished("")));
    case Marking(_, _, _, _) => assert Allowed(x.stage, MarkFailed);
  }
}
