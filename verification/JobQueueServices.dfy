/**
 The drain loop of one instance (src/modules/jobs/job-queue.service.ts), run against a job table that
 everybody else may change at every await.
 */
module JobQueueServices {
  import opened Basics
  import opened JobClaims

  /** What this service asked of the job table: claims with their answers, and statuses it wrote. */
  datatype Request = Claimed(id: Id, won: bool) | Wrote(id: Id, status: JobStatus)

  /** The shared rows of the job table, and the requests made here. */
  class JobTable {
    var jobs: Jobs
    ghost var requests: seq<Request>

    constructor (rows: Jobs)
      ensures jobs == rows && requests == []
    {
      jobs, requests := rows, [];
    }

    /** Conditional update; the affected-row count decides. */
    method ClaimPending(id: Id) returns (won: bool)
      modifies this
      ensures (won, jobs) == Claim(old(jobs), id)
      ensures requests == old(requests) + [Claimed(id, won)]
    {
      var affected := 0;
      if id in jobs.status && jobs.status[id] == Pending {
        jobs := jobs.(status := jobs.status[id := Assigned]);
        affected := 1;
      }
      won := affected > 0;
      requests := requests + [Claimed(id, won)];
    }

    method UpdateStatus(id: Id, status: JobStatus) returns (found: bool)
      modifies this
      ensures (found, jobs) == SetStatus(old(jobs), id, status)
      ensures requests == old(requests) + [Wrote(id, status)]
    {
      found := id in jobs.status;
      if found {
        jobs := jobs.(status := jobs.status[id := status]);
      }
      requests := requests + [Wrote(id, status)];
    }
  }

  /** What the rest of the system does: to the table between our moves, and inside processJob. */
  datatype Environment = Environment(others: (nat, Jobs) -> Jobs, process: nat -> Processed,
                                     claimThrows: nat -> bool, claimApplied: nat -> bool, markThrows: nat -> bool)

  ghost predicate Fair(env: Environment, me: nat) {
    forall k, jobs :: Interference(jobs, env.others(k, jobs), me)
  }

  datatype Drained = Returned(results: seq<DrainResult>) | Aborted

  /** The reports on the claims won, each saying what its processJob came to. */
  function Reports(queue: seq<Id>, won: seq<bool>, process: nat -> Processed): (r: seq<DrainResult>)
    requires |won| <= |queue|
    ensures ResultIds(r) == Picked(queue, won)
  {
    if won == [] then []
    else
      var n := |won| - 1;
      Reports(queue, won[..n], process) + if won[n] then [Report(queue[n], process(n))] else []
  }

  lemma ReportsAfter(queue: seq<Id>, won: seq<bool>, w: bool, process: nat -> Processed)
    requires |won| < |queue|
    ensures Reports(queue, won + [w], process)
         == Reports(queue, won, process) + if w then [Report(queue[|won|], process(|won|))] else []
  {
    assert (won + [w])[..|won|] == won;
  }

  /** The requests after a drain that found `before`: every job of the queue is claimed, in order, and one that is
      won and whose processing throws is marked as failed before the next. */
  function Asked(before: seq<Request>, queue: seq<Id>, won: seq<bool>, process: nat -> Processed): seq<Request>
    requires |won| <= |queue|
  {
    if won == [] then before
    else
      var n := |won| - 1;
      AskedOne(Asked(before, queue, won[..n], process), queue[n], won[n], process(n))
  }

  function AskedOne(before: seq<Request>, id: Id, won: bool, processed: Processed): seq<Request> {
    var claimed := before + [Claimed(id, won)];
    if won && processed.Threw? then claimed + [Wrote(id, Failed)] else claimed
  }

  lemma AskedAfter(before: seq<Request>, queue: seq<Id>, won: seq<bool>, w: bool, process: nat -> Processed)
    requires |won| < |queue|
    ensures Asked(before, queue, won + [w], process)
         == AskedOne(Asked(before, queue, won, process), queue[|won|], w, process(|won|))
  {
    assert (won + [w])[..|won|] == won;
  }

  class JobQueue {
    const me: nat
    var draining: bool

    constructor (instance: nat)
      ensures me == instance && !draining
    {
      me, draining := instance, false;
    }

    /** What the others do meanwhile leaves our own hand-offs alone. */
    method Await(table: JobTable, env: Environment, k: nat, ghost start: Jobs)
      requires Fair(env, me) && Ages(start, table.jobs)
      modifies table`jobs
      ensures Ages(start, table.jobs) && Interference(old(table.jobs), table.jobs, me)
      ensures Mine(table.jobs.handed, |start.handed|, me) == Mine(old(table.jobs).handed, |start.handed|, me)
    {
      ghost var before := table.jobs;
      table.jobs := env.others(k, table.jobs);
      AgesFurther(start, before, table.jobs);
      MineIgnoresOthers(before.handed, table.jobs.handed, |start.handed|, me);
    }

    /** Processes the queue in order. The claims actually won, `won`, are exactly the jobs handed over in
        our name, and the results report on them in queue order; whatever happens the guard is released. */
    method Drain(table: JobTable, queue: seq<Id>, env: Environment) returns (r: Drained, ghost won: seq<bool>)
      requires Fair(env, me)
      modifies this, table
      ensures Ages(old(table.jobs), table.jobs)
      ensures old(draining) ==> r == Returned([]) && draining && table.jobs == old(table.jobs)
      ensures !old(draining) ==>
                && !draining && |won| <= |queue|
                && Mine(table.jobs.handed, |old(table.jobs).handed|, me) == Picked(queue, won)
      ensures !old(draining) && r.Returned? ==>
                && |won| == |queue| && r.results == Reports(queue, won, env.process)
                && table.requests == Asked(old(table.requests), queue, won, env.process)
    {
      won := [];
      if draining {
        return Returned([]), won;
      }
      draining := true;
      ghost var start := table.jobs;
      ghost var base := table.requests;
      var results := [];
      for i := 0 to |queue|
        invariant |won| == i && Ages(start, table.jobs)
        invariant Mine(table.jobs.handed, |start.handed|, me) == Picked(queue, won)
        invariant results == Reports(queue, won, env.process)
        invariant table.requests == Asked(base, queue, won, env.process)
      {
        Await(table, env, 3 * i, start);
        var id := queue[i];
        ghost var before := table.jobs;
        ClaimAges(before, me, id);
        if env.claimThrows(i) {
          if env.claimApplied(i) {
            var _ := table.ClaimPending(id);
          }
          AgesFurther(start, before, table.jobs);
          draining := false;
          return Aborted, won;
        }
        var taken := table.ClaimPending(id);
        PickedAfter(queue, won, taken);
        ReportsAfter(queue, won, taken, env.process);
        AskedAfter(base, queue, won, taken, env.process);
        won := won + [taken];
        if !taken {
          continue;
        }
        MineAfter(table.jobs.handed, |start.handed|, me, HandOff(me, id));
        table.jobs := LogHandOff(table.jobs, me, id);
        AgesFurther(start, before, table.jobs);
        Await(table, env, 3 * i + 1, start);
        var processed := env.process(i);
        if processed.Threw? {
          if env.markThrows(i) {
            draining := false;
            return Aborted, won;
          }
          ghost var unmarked := table.jobs;
          var found := table.UpdateStatus(id, Failed);
          SetStatusAges(unmarked, id, Failed);
          AgesFurther(start, unmarked, table.jobs);
          assert found; // a claimed job does not disappear
          Await(table, env, 3 * i + 2, start);
        }
        results := results + [Report(id, processed)];
      }
      draining := false;
      r := Returned(results);
    }
  }
}
