/**
 Operators deciding slashing proposals at the same time (src/modules/slashing/slashing.service.ts): each reads
 the row, moves it out of `proposed` with a conditional update, reads it again, and to approve it writes the
 stake and saves the row. Every one of these can fail. The steps of all operators and the withdrawals of
 appeals interleave freely.
 */
module SlashingDecisions {
  import opened Basics
  import Tables = DisputeTables

  type Status = Tables.ProposalStatus

  datatype Decider = Operator(k: nat) | Appeal

  datatype Row = Row(disputeId: Id, status: Status, decidedBy: Option<Decider>)

  datatype Stage =
    | Start
    | HasRead
    | Refused
    | Claimed               // the conditional update won; the row is to be read again
    | Applying              // in the try block, stake not written yet
    | Cut                   // stake written, row not saved yet
    | Settled
    | Catching(cut: bool)   // failed in the try block; the row is to be put back
    | Restored(cut: bool)   // it was put back
    | Stuck(cut: bool)      // failed with the row left decided

  datatype Request = Request(proposal: nat, verdict: Status, stage: Stage)

  /** The proposal rows, the requests of all operators, and the log of stake writes by proposal. */
  datatype World = World(rows: seq<Row>, requests: seq<Request>, cuts: seq<nat>)

  datatype Event =
    | Raised(disputeId: Id)
    | Requested(proposal: nat, verdict: Status)
    | Reads(k: nat)
    | Updates(k: nat)
    | Rereads(k: nat)
    | RereadFails(k: nat)
    | WritesStake(k: nat)
    | Saves(k: nat)
    | Fails(k: nat)
    | Restores(k: nat)
    | RestoreFails(k: nat)
    | Withdrawn(disputeId: Id)

  predicate At(w: World, k: nat) { k < |w.requests| && w.requests[k].proposal < |w.rows| }

  predicate Enabled(w: World, e: Event) {
    match e
    case Raised(_) => true
    case Requested(_, verdict) => verdict != Tables.Proposed
    case Reads(k) => At(w, k) && w.requests[k].stage.Start?
    case Updates(k) => At(w, k) && w.requests[k].stage.HasRead?
    case Rereads(k) => At(w, k) && w.requests[k].stage.Claimed?
    case RereadFails(k) => At(w, k) && w.requests[k].stage.Claimed?
    case WritesStake(k) => At(w, k) && w.requests[k].stage.Applying?
    case Saves(k) => At(w, k) && w.requests[k].stage.Cut?
    case Fails(k) => At(w, k) && (w.requests[k].stage.Applying? || w.requests[k].stage.Cut?)
    case Restores(k) => At(w, k) && w.requests[k].stage.Catching?
    case RestoreFails(k) => At(w, k) && w.requests[k].stage.Catching?
    case Withdrawn(_) => true
  }

  function Put(w: World, k: nat, stage: Stage): World
    requires k < |w.requests|
  {
    w.(requests := w.requests[k := w.requests[k].(stage := stage)])
  }

  function WithdrawnRow(row: Row, disputeId: Id): Row {
    if row.disputeId == disputeId && row.status == Tables.Proposed then
      row.(status := Tables.Rejected, decidedBy := Some(Appeal))
    else row
  }

  function Step(w: World, e: Event): World
    requires Enabled(w, e)
  {
    match e
    case Raised(d) => w.(rows := w.rows + [Row(d, Tables.Proposed, None)])
    case Requested(p, verdict) => w.(requests := w.requests + [Request(p, verdict, Start)])
    case Reads(k) => Put(w, k, HasRead)
    case Updates(k) =>
      var p, verdict := w.requests[k].proposal, w.requests[k].verdict;
      if w.rows[p].status == Tables.Proposed then
        Put(w, k, Claimed).(rows := w.rows[p := w.rows[p].(status := verdict, decidedBy := Some(Operator(k)))])
      else Put(w, k, Refused)
    case Rereads(k) => Put(w, k, if w.requests[k].verdict == Tables.Approved then Applying else Settled)
    case RereadFails(k) => Put(w, k, Stuck(false))
    case WritesStake(k) => Put(w, k, Cut).(cuts := w.cuts + [w.requests[k].proposal])
    case Saves(k) => Put(w, k, Settled)
    case Fails(k) => Put(w, k, Catching(w.requests[k].stage.Cut?))
    case Restores(k) =>
      var p := w.requests[k].proposal;
      Put(w, k, Restored(w.requests[k].stage.cut))
        .(rows := w.rows[p := w.rows[p].(status := Tables.Proposed, decidedBy := None)])
    case RestoreFails(k) => Put(w, k, Stuck(w.requests[k].stage.cut))
    case Withdrawn(d) =>
      w.(rows := seq(|w.rows|, i requires 0 <= i < |w.rows| => WithdrawnRow(w.rows[i], d)))
  }

  ghost predicate IsRun(ws: seq<World>, es: seq<Event>) {
    && |ws| == |es| + 1 && ws[0] == World([], [], [])
    && forall n :: 0 <= n < |es| ==> Enabled(ws[n], es[n]) && ws[n + 1] == Step(ws[n], es[n])
  }

  // ---------------------------------------------------------------- invariant

  /** The request's decision is the one in force. */
  predicate Holds(r: Request) {
    match r.stage
    case Claimed => true
    case Applying => true
    case Cut => true
    case Settled => true
    case Catching(_) => true
    case Stuck(_) => true
    case _ => false
  }

  predicate HoldsOn(w: World, k: nat, p: nat)
    requires k < |w.requests|
  {
    w.requests[k].proposal == p && Holds(w.requests[k])
  }

  /** The request has written the stake. */
  predicate HasCut(r: Request) {
    match r.stage
    case Cut => true
    case Settled => r.verdict == Tables.Approved
    case Catching(cut) => cut
    case Restored(cut) => cut
    case Stuck(cut) => cut
    case _ => false
  }

  /** Only an approval gets as far as the stake. */
  predicate VerdictOk(r: Request) {
    && r.verdict != Tables.Proposed
    && (r.stage.Applying? || r.stage.Cut? || r.stage.Catching? || r.stage.Restored? ==> r.verdict == Tables.Approved)
  }

  /** How often the stake was written for proposal `p`. */
  function CutsOf(cuts: seq<nat>, p: nat): nat {
    if cuts == [] then 0 else CutsOf(cuts[..|cuts| - 1], p) + if cuts[|cuts| - 1] == p then 1 else 0
  }

  function CutBy(w: World, p: nat): set<nat> {
    set k: nat | k < |w.requests| && w.requests[k].proposal == p && HasCut(w.requests[k])
  }

  ghost predicate RowOk(w: World, p: nat)
    requires p < |w.rows|
  {
    match w.rows[p].decidedBy
    case None => w.rows[p].status == Tables.Proposed
    case Some(Appeal) => w.rows[p].status == Tables.Rejected
    case Some(Operator(k)) =>
      && k < |w.requests| && w.requests[k].proposal == p && Holds(w.requests[k])
      && w.rows[p].status == w.requests[k].verdict
  }

  /** A row is decided exactly by the one it names, whoever holds a decision is named by its row, and the log
      counts the requests that wrote the stake. */
  ghost predicate Inv(w: World) {
    && (forall p :: 0 <= p < |w.rows| ==> RowOk(w, p))
    && (forall k :: 0 <= k < |w.requests| ==> VerdictOk(w.requests[k]))
    && (forall k :: 0 <= k < |w.requests| && Holds(w.requests[k]) ==>
          At(w, k) && w.rows[w.requests[k].proposal].decidedBy == Some(Operator(k)))
    && (forall p: nat :: CutsOf(w.cuts, p) == |CutBy(w, p)|)
  }

  /** Only a stake write lengthens the log, and it is its request's first. */
  lemma StepCounts(w: World, e: Event, p: nat)
    requires Enabled(w, e) && CutsOf(w.cuts, p) == |CutBy(w, p)|
    requires forall k :: 0 <= k < |w.requests| ==> VerdictOk(w.requests[k])
    ensures CutsOf(Step(w, e).cuts, p) == |CutBy(Step(w, e), p)|
  {
    var after := Step(w, e);
    if e.WritesStake? && w.requests[e.k].proposal == p {
      assert after.cuts[..|w.cuts|] == w.cuts;
      assert CutBy(after, p) == CutBy(w, p) + {e.k};
      assert e.k !in CutBy(w, p);
    } else {
      assert e.WritesStake? ==> after.cuts[..|w.cuts|] == w.cuts;
      SameCutters(w, e, p);
    }
  }

  lemma SameCutters(w: World, e: Event, p: nat)
    requires Enabled(w, e) && !(e.WritesStake? && w.requests[e.k].proposal == p)
    requires forall k :: 0 <= k < |w.requests| ==> VerdictOk(w.requests[k])
    ensures CutBy(Step(w, e), p) == CutBy(w, p)
  {
    var after := Step(w, e);
    forall k: nat | k < |w.requests| && w.requests[k].proposal == p
      ensures k < |after.requests| && after.requests[k].proposal == p
      ensures HasCut(after.requests[k]) == HasCut(w.requests[k])
    {
    }
  }

  lemma RowsStayOk(w: World, e: Event)
    requires Enabled(w, e) && Inv(w)
    ensures forall p :: 0 <= p < |Step(w, e).rows| ==> RowOk(Step(w, e), p)
  {
    forall p | 0 <= p < |Step(w, e).rows| ensures RowOk(Step(w, e), p) {
      if p < |w.rows| {
        assert RowOk(w, p);
      }
    }
  }

  lemma StepKeeps(w: World, e: Event)
    requires Enabled(w, e) && Inv(w)
    ensures Inv(Step(w, e))
  {
    var after := Step(w, e);
    RowsStayOk(w, e);
    forall k | 0 <= k < |after.requests| && Holds(after.requests[k])
      ensures At(after, k) && after.rows[after.requests[k].proposal].decidedBy == Some(Operator(k))
    {
      HolderStays(w, e, k);
    }
    forall p: nat ensures CutsOf(after.cuts, p) == |CutBy(after, p)| {
      StepCounts(w, e, p);
    }
  }

  lemma HolderStays(w: World, e: Event, k: nat)
    requires Enabled(w, e) && Inv(w) && k < |Step(w, e).requests| && Holds(Step(w, e).requests[k])
    ensures At(Step(w, e), k) && Step(w, e).rows[Step(w, e).requests[k].proposal].decidedBy == Some(Operator(k))
  {
    if At(w, k) {
      assert RowOk(w, w.requests[k].proposal);
    }
  }

  lemma {:induction false} RunInv(ws: seq<World>, es: seq<Event>, n: nat)
    requires IsRun(ws, es) && n <= |es|
    ensures Inv(ws[n])
  {
    if n > 0 {
      RunInv(ws, es, n - 1);
      StepKeeps(ws[n - 1], es[n - 1]);
    }
  }

  // ------------------------------------------------------------- main results

  /** Of any interleaved decisions on a proposal exactly one is in force: once it is decided, either an
      appeal withdrew it and no operator's decision holds, or exactly one operator's does, and the row
      carries that operator's verdict. While it is pending no decision holds. */
  lemma ExactlyOneTakesEffect(ws: seq<World>, es: seq<Event>, p: nat)
    requires IsRun(ws, es) && p < |ws[|es|].rows|
    ensures var w := ws[|es|];
            forall k, l :: 0 <= k < |w.requests| && 0 <= l < |w.requests| && HoldsOn(w, k, p) && HoldsOn(w, l, p)
              ==> k == l
    ensures var w := ws[|es|];
            w.rows[p].status != Tables.Proposed <==>
              (w.rows[p].decidedBy == Some(Appeal) && w.rows[p].status == Tables.Rejected)
              || exists k :: 0 <= k < |w.requests| && HoldsOn(w, k, p) && w.requests[k].verdict == w.rows[p].status
    ensures var w := ws[|es|];
            w.rows[p].status == Tables.Proposed ==>
              forall k :: 0 <= k < |w.requests| ==> !HoldsOn(w, k, p)
  {
    RunInv(ws, es, |es|);
    assert RowOk(ws[|es|], p);
  }

  /** Approvals of `p` that failed after their own stake write and were put back. */
  function LostCuts(w: World, p: nat): set<nat> {
    set k: nat | k < |w.requests| && w.requests[k].proposal == p && w.requests[k].stage == Restored(true)
  }

  /** How often a proposal costs its validator: once for every approval that failed after its own stake write
      and was put back, and once more if the decision now in force has written the stake. */
  lemma CutsExactly(ws: seq<World>, es: seq<Event>, p: nat)
    requires IsRun(ws, es) && p < |ws[|es|].rows|
    ensures var w := ws[|es|];
            CutsOf(w.cuts, p) == |LostCuts(w, p)| + match w.rows[p].decidedBy
                                                    case Some(Operator(k)) =>
                                                      if k < |w.requests| && HasCut(w.requests[k]) then 1 else 0
                                                    case _ => 0
  {
    RunInv(ws, es, |es|);
    HolderOrLost(ws[|es|], p);
  }

  lemma HolderOrLost(w: World, p: nat)
    requires Inv(w) && p < |w.rows|
    ensures var holder := w.rows[p].decidedBy;
            && (holder.Some? && holder.value.Operator? ==> holder.value.k < |w.requests|)
            && |CutBy(w, p)| == |LostCuts(w, p)|
                 + if holder.Some? && holder.value.Operator? && HasCut(w.requests[holder.value.k]) then 1 else 0
  {
    assert RowOk(w, p);
    var holder := w.rows[p].decidedBy;
    forall k | k in CutBy(w, p) ensures k in LostCuts(w, p) || holder == Some(Operator(k)) {
      if Holds(w.requests[k]) {
        assert At(w, k);
      }
    }
    if holder.Some? && holder.value.Operator? && HasCut(w.requests[holder.value.k]) {
      var k := holder.value.k;
      assert CutBy(w, p) == LostCuts(w, p) + {k} && k !in LostCuts(w, p);
    } else {
      assert CutBy(w, p) == LostCuts(w, p);
    }
  }

  /** Two operators cannot both slash the validator if and only if no approval is lost after its stake write:
      a proposal whose approval is complete was cut exactly once exactly when no earlier approval of it failed
      between its stake write and its save. */
  lemma CutOnceExactly(ws: seq<World>, es: seq<Event>, k: nat)
    requires IsRun(ws, es) && k < |ws[|es|].requests|
    requires ws[|es|].requests[k].stage.Settled? && ws[|es|].requests[k].verdict == Tables.Approved
    ensures var w := ws[|es|];
            CutsOf(w.cuts, w.requests[k].proposal) == 1 <==> LostCuts(w, w.requests[k].proposal) == {}
    ensures CutsOf(ws[|es|].cuts, ws[|es|].requests[k].proposal) >= 1
  {
    RunInv(ws, es, |es|);
    var w, p := ws[|es|], ws[|es|].requests[k].proposal;
    assert At(w, k) && w.rows[p].decidedBy == Some(Operator(k));
    CutsExactly(ws, es, p);
  }

  /** Unless an approval of it is put back, a decision stands for good. */
  lemma {:induction false} DecisionStands(ws: seq<World>, es: seq<Event>, n: nat, m: nat, p: nat)
    requires IsRun(ws, es) && n <= m <= |es|
    requires p < |ws[n].rows| && ws[n].rows[p].status != Tables.Proposed
    requires forall j :: n <= j < m ==>
               !es[j].Restores? || (At(ws[j], es[j].k) && ws[j].requests[es[j].k].proposal != p)
    ensures p < |ws[m].rows| && ws[m].rows[p] == ws[n].rows[p]
    decreases m
  {
    if n < m {
      DecisionStands(ws, es, n, m - 1, p);
      assert Enabled(ws[m - 1], es[m - 1]) && ws[m] == Step(ws[m - 1], es[m - 1]);
    }
  }

  /** An operator is turned away only because somebody else's decision was in force. */
  lemma RefusalHasCause(ws: seq<World>, es: seq<Event>, n: nat, k: nat)
    requires IsRun(ws, es) && n < |es| && es[n] == Updates(k) && k < |ws[n + 1].requests|
    requires ws[n + 1].requests[k].stage.Refused?
    ensures At(ws[n], k)
    ensures var row := ws[n].rows[ws[n].requests[k].proposal];
            row.status != Tables.Proposed && row.decidedBy.Some? && row.decidedBy != Some(Operator(k))
  {
    RunInv(ws, es, n);
    assert Enabled(ws[n], es[n]) && ws[n + 1] == Step(ws[n], es[n]);
    assert RowOk(ws[n], ws[n].requests[k].proposal);
  }
}
