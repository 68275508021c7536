/**
 What a drain does for each job and what it reports (src/modules/jobs/job-queue.service.ts), traced back to the
 steps of the run.
 */
module JobReports {
  import opened Basics
  import opened JobClaims

  /** The job the drain is at. */
  function JobAt(s: Stage): Id
    requires AtClaim(s) || InProcess(s) || InMarking(s)
  {
    if s.Claiming? then s.queue[|s.won|] else s.queue[|s.won| - 1]
  }

  /** A claim wins exactly when the job is pending: it is assigned and handed over, and nothing else changes. A lost
      claim changes nothing. */
  lemma ClaimWinsExactly(w: World, i: nat)
    requires Enabled(w, Moves(i, TryClaim))
    ensures var after, id := Step(w, Moves(i, TryClaim)), JobAt(w.instances[i].stage);
            if id in w.jobs.status && w.jobs.status[id] == Pending then
              && after.jobs.status == w.jobs.status[id := Assigned]
              && after.jobs.handed == w.jobs.handed + [HandOff(i, id)]
              && InProcess(after.instances[i].stage) && JobAt(after.instances[i].stage) == id
            else
              after.jobs == w.jobs && after.instances[i].stage.Claiming?
  {
  }

  /** A call while a drain is under way changes nothing. */
  lemma BusyCallIsNoOp(w: World, i: nat)
    requires i < |w.instances| && w.instances[i].draining
    ensures Step(w, Moves(i, Call)) == w
  {
  }

  /** The step handed the pending job `id` to instance `i`. */
  ghost predicate HandedAt(ws: seq<World>, es: seq<Event>, k: nat, i: nat, id: Id)
    requires k < |es| && k + 1 < |ws|
  {
    && es[k] == Moves(i, TryClaim)
    && id in ws[k].jobs.status && ws[k].jobs.status[id] == Pending
    && id in ws[k + 1].jobs.status && ws[k + 1].jobs.status[id] == Assigned
  }

  /** Every job handed over was pending when its claim won, and assigned by it. */
  lemma {:induction false} HandOffsHaveOrigin(ws: seq<World>, es: seq<Event>, n: nat, k: nat, a: nat) returns (m: nat)
    requires IsRun(ws, es, n) && k <= |es| && a < |ws[k].jobs.handed|
    ensures m < k && HandedAt(ws, es, m, ws[k].jobs.handed[a].instance, ws[k].jobs.handed[a].jobId)
    decreases k
  {
    if k == 0 {
      assert false;
    } else {
      var w, e := ws[k - 1], es[k - 1];
      assert Enabled(w, e) && ws[k] == Step(w, e);
      StepHands(w, e, a);
      if a < |w.jobs.handed| {
        m := HandOffsHaveOrigin(ws, es, n, k - 1, a);
      } else {
        m := k - 1;
      }
    }
  }

  lemma StepHands(w: World, e: Event, a: nat)
    requires Enabled(w, e) && a < |Step(w, e).jobs.handed|
    ensures var h := Step(w, e).jobs.handed[a];
            if a < |w.jobs.handed| then h == w.jobs.handed[a]
            else
              && e == Moves(h.instance, TryClaim)
              && h.jobId in w.jobs.status && w.jobs.status[h.jobId] == Pending
              && Step(w, e).jobs.status == w.jobs.status[h.jobId := Assigned]
  {
  }

  // ------------------------------------------------------------------- results

  function ResultsOf(s: Stage): seq<DrainResult> {
    match s
    case Idle => []
    case Listing => []
    case Claiming(_, _, results) => results
    case Processing(_, _, results) => results
    case Marking(_, _, results, _) => results
  }

  /** Processing this job came to `p` in this step of instance `i`. */
  ghost predicate EndedAt(ws: seq<World>, es: seq<Event>, k: nat, i: nat, id: Id, p: Processed)
    requires k < |es| && k < |ws|
  {
    && es[k] == Moves(i, ProcessEnds(p)) && i < |ws[k].instances|
    && InProcess(ws[k].instances[i].stage) && JobAt(ws[k].instances[i].stage) == id
  }

  /** The job was marked as failed in this step. */
  ghost predicate FailedAt(ws: seq<World>, es: seq<Event>, k: nat, i: nat, id: Id)
    requires k < |es| && k + 1 < |ws|
  {
    es[k] == Moves(i, MarkFailed) && id in ws[k + 1].jobs.status && ws[k + 1].jobs.status[id] == Failed
  }

  /** What a result has to say: the outcome of a finished job, "failed" and the message of one that threw. */
  predicate Tells(r: DrainResult, p: Processed) {
    match p
    case Finished(outcome) => r.outcome == outcome && r.error == None
    case Threw(message) => r.outcome == "failed" && r.error == Some(message)
  }

  lemma MovesOfOthers(w: World, e: Event, i: nat)
    requires Enabled(w, e) && i < |w.instances| && !(e.Moves? && e.i == i)
    ensures |Step(w, e).instances| == |w.instances| && Step(w, e).instances[i] == w.instances[i]
  {
  }

  /** A job that is being marked threw the message. */
  lemma {:induction false} MarkingHasOrigin(ws: seq<World>, es: seq<Event>, n: nat, k: nat, i: nat) returns (m: nat)
    requires IsRun(ws, es, n) && k <= |es| && i < |ws[k].instances| && InMarking(ws[k].instances[i].stage)
    ensures var s := ws[k].instances[i].stage;
            m < k && EndedAt(ws, es, m, i, JobAt(s), Threw(s.message))
    decreases k
  {
    if k == 0 {
      assert false;
    } else {
      var w, e := ws[k - 1], es[k - 1];
      assert Enabled(w, e) && ws[k] == Step(w, e);
      if e.Moves? && e.i == i && e.move.ProcessEnds? {
        m := k - 1;
      } else {
        StaysInMarking(w, e, i);
        m := MarkingHasOrigin(ws, es, n, k - 1, i);
      }
    }
  }

  lemma StaysInMarking(w: World, e: Event, i: nat)
    requires Enabled(w, e) && i < |Step(w, e).instances| && InMarking(Step(w, e).instances[i].stage)
    requires !(e.Moves? && e.i == i && e.move.ProcessEnds?)
    ensures i < |w.instances| && w.instances[i].stage == Step(w, e).instances[i].stage
  {
  }

  /** What a move of the instance adds to its results. */
  lemma StepReports(w: World, e: Event, i: nat, j: nat)
    requires Enabled(w, e) && i < |Step(w, e).instances| && j < |ResultsOf(Step(w, e).instances[i].stage)|
    ensures i < |w.instances|
    ensures var s, r := w.instances[i].stage, ResultsOf(Step(w, e).instances[i].stage)[j];
            if j < |ResultsOf(s)| then r == ResultsOf(s)[j]
            else
              || (e.Moves? && e.i == i && e.move.ProcessEnds? && e.move.result.Finished? && InProcess(s)
                  && r.jobId == JobAt(s) && Tells(r, e.move.result))
              || (e == Moves(i, MarkFailed) && InMarking(s) && r.jobId == JobAt(s) && Tells(r, Threw(s.message))
                  && r.jobId in Step(w, e).jobs.status && Step(w, e).jobs.status[r.jobId] == Failed)
  {
    if !(e.Moves? && e.i == i) {
      MovesOfOthers(w, e, i);
    }
  }

  /** Every result tells what processing that job came to; a job that threw was marked as failed. */
  lemma {:induction false} ResultsHaveOrigin(ws: seq<World>, es: seq<Event>, n: nat, k: nat, i: nat, j: nat)
    returns (m: nat, p: Processed, f: nat)
    requires IsRun(ws, es, n) && k <= |es| && i < |ws[k].instances|
    requires j < |ResultsOf(ws[k].instances[i].stage)|
    ensures var r := ResultsOf(ws[k].instances[i].stage)[j];
            && m < k && EndedAt(ws, es, m, i, r.jobId, p) && Tells(r, p)
            && (p.Threw? ==> f < k && FailedAt(ws, es, f, i, r.jobId))
    decreases k
  {
    f := 0;
    if k == 0 {
      assert false;
    } else {
      var w, e := ws[k - 1], es[k - 1];
      assert Enabled(w, e) && ws[k] == Step(w, e);
      StepReports(w, e, i, j);
      if j < |ResultsOf(w.instances[i].stage)| {
        m, p, f := ResultsHaveOrigin(ws, es, n, k - 1, i, j);
      } else if e.move.ProcessEnds? {
        m, p := k - 1, e.move.result;
      } else {
        m := MarkingHasOrigin(ws, es, n, k - 1, i);
        p, f := Threw(w.instances[i].stage.message), k - 1;
      }
    }
  }
}
