/**
 Finality of decisions and the lifecycle of a dispute.
 */
module DisputeLifecycles {
  import opened Basics
  import opened AppealQuorum
  import opened DisputeTables
  import opened DisputeInvariants
  import opened DisputeFrames
  import DisputeLedger

  /** Decided proposals, decided appeals and their disputes stay as they are; rows are never lost. */
  ghost predicate KeepsDecisions(t: Tables, t': Tables) {
    && |t.proposals| <= |t'.proposals| && |t.appeals| <= |t'.appeals|
    && (forall p :: 0 <= p < |t.proposals| && t.proposals[p].status != Proposed ==> t'.proposals[p] == t.proposals[p])
    && (forall a :: 0 <= a < |t.appeals| && t.appeals[a].status == Decided ==>
          && t'.appeals[a] == t.appeals[a]
          && t.appeals[a].disputeId in t.disputes && t.appeals[a].disputeId in t'.disputes
          && t'.disputes[t.appeals[a].disputeId] == t.disputes[t.appeals[a].disputeId])
  }

  /** A decided appeal ends its dispute: no call about the dispute writes anything any more. */
  lemma DecidedEndsTheDispute(t: Tables, c: Config, call: Call, a: nat)
    requires Inv(t, c) && a < |t.appeals| && t.appeals[a].status == Decided
    requires !call.Rejecting? && t.appeals[a].disputeId == DisputeOf(call)
    ensures WritesOf(t, c, call) == []
  {
    var d := DisputeOf(call);
    assert AppealOk(t.appeals[a], t.disputes);
    assert FindAppeal(t.appeals, d) == Some(a) by {
      var b := FindAppeal(t.appeals, d);
      assert b.Some? && t.appeals[b.value].disputeId == d;
    }
  }

  lemma CallIsFinal(t: Tables, c: Config, call: Call, writes: nat)
    requires Inv(t, c)
    ensures KeepsDecisions(t, Interrupted(t, c, call, writes))
  {
    CallFrame(t, c, call, writes);
    var t' := Interrupted(t, c, call, writes);
    forall a | 0 <= a < |t.appeals| && t.appeals[a].status == Decided
      ensures t.appeals[a].disputeId in t.disputes && t.appeals[a].disputeId in t'.disputes
      ensures t'.disputes[t.appeals[a].disputeId] == t.disputes[t.appeals[a].disputeId]
    {
      assert AppealOk(t.appeals[a], t.disputes);
      if !call.Rejecting? && t.appeals[a].disputeId == DisputeOf(call) {
        DecidedEndsTheDispute(t, c, call, a);
      } else if call.Rejecting? {
        assert t'.disputes == t.disputes;
      }
    }
  }

  lemma ApproveIsFinal(t: Tables, c: Config, p: nat, operator: string, fault: Fault)
    requires Inv(t, c)
    ensures KeepsDecisions(t, Approve(t, c, p, operator, fault).0)
  {
    forall a | 0 <= a < |t.appeals| ensures AppealOk(t.appeals[a], t.disputes) {}
    if DisputeLedger.Pending(t, p) {
      var v := DisputeLedger.PendingHasValidator(t, c, p);
      DisputeLedger.ApproveShape(t, c, p, operator, fault, v);
    } else {
      DisputeLedger.NotPendingIsNoOp(t, c, p, operator, fault);
    }
  }

  /** No call, interrupted anywhere, changes a decided proposal, or a decided appeal and its dispute. */
  lemma DecisionsAreFinal(t: Tables, c: Config, e: Event)
    requires Inv(t, c)
    ensures KeepsDecisions(t, Step(t, c, e).0)
  {
    forall a | 0 <= a < |t.appeals| ensures AppealOk(t.appeals[a], t.disputes) {}
    match e
    case DoRegister(x, address, stake) =>
    case DoUpdateStake(x, stake) =>
    case DoExit(x) =>
    case DoPublish(s, signatures) =>
    case DoOpen(x, s) =>
    case DoCall(call) =>
      CallIsLastWrite(t, c, call);
      CallIsFinal(t, c, call, |WritesOf(t, c, call)|);
    case DoInterrupted(call, writes) => CallIsFinal(t, c, call, writes);
    case DoApprove(p, operator, fault) => ApproveIsFinal(t, c, p, operator, fault);
  }

  // ----------------------------------------------------------------- lifecycle

  /** Stations of a dispute: unknown, open, resolved, under appeal, resolved for good. */
  function Station(t: Tables, d: Id): nat {
    if d !in t.disputes then 0
    else
      match t.disputes[d].status
      case Open => 1
      case Escalated => 1
      case Resolved => if FindAppeal(t.appeals, d).None? then 2 else 4
      case Appealed => 3
  }

  /** From `t` to `t'` the dispute stays where it is, row and all, or moves on by at most `n` stations. */
  ghost predicate Moved(t: Tables, t': Tables, d: Id, n: nat) {
    && Station(t, d) <= Station(t', d) <= Station(t, d) + n
    && (Station(t', d) == Station(t, d) && d in t.disputes ==> d in t'.disputes && t'.disputes[d] == t.disputes[d])
  }

  ghost predicate MovesOn(t: Tables, t': Tables, d: Id) { Moved(t, t', d, 1) }

  lemma MovedFurther(t: Tables, s: Tables, t': Tables, d: Id, n: nat)
    requires Moved(t, s, d, n) && MovesOn(s, t', d)
    ensures Moved(t, t', d, n + 1)
  {
  }

  lemma SameAppealsFound(was: seq<Appeal>, now: seq<Appeal>, d: Id)
    requires |was| <= |now| && forall i :: 0 <= i < |was| ==> now[i].disputeId == was[i].disputeId
    requires forall i :: |was| <= i < |now| ==> now[i].disputeId != d
    ensures FindAppeal(now, d).Some? <==> FindAppeal(was, d).Some?
  {
    var found := FindAppeal(was, d);
    if found.Some? {
      assert now[found.value].disputeId == d;
    }
  }

  lemma OthersStay(t: Tables, t': Tables, d: Id, other: Id)
    requires Within(t, t', other) && d != other
    ensures MovesOn(t, t', d)
  {
    SameAppealsFound(t.appeals, t'.appeals, d);
  }

  lemma ResolvingMoves(t: Tables, c: Config, id: Id, outcome: Option<DisputeOutcome>, now: int, k: nat)
    requires Inv(t, c) && k < |ResolveWrites(t, c, id, outcome, now)|
    ensures MovesOn(t, ResolveWrites(t, c, id, outcome, now)[k], id)
  {
    var t' := ResolveWrites(t, c, id, outcome, now)[k];
    forall a | 0 <= a < |t.appeals| ensures AppealOk(t.appeals[a], t.disputes) {}
    assert t'.appeals == t.appeals && t'.disputes[id].status == Resolved;
  }

  lemma AppealingMoves(t: Tables, c: Config, id: Id, now: int)
    requires Inv(t, c) && OpenAppeal(t, c, id, now).1.Done?
    ensures MovesOn(t, OpenAppeal(t, c, id, now).0, id)
  {
    OpenAppealShape(t, c, id, now);
  }

  /** Once appeal and dispute are both written, the decision has moved the dispute to its last station. */
  lemma DecidingMoves(t: Tables, saved: Tables, c: Config, a: nat, decision: AppealDecision, now: int, k: nat)
    requires Inv(t, c) && ReadyToDecide(saved, c, a) && saved.disputes == t.disputes
    requires decision == AtDeadline(Choices(saved.appeals[a]), |saved.appeals[a].panel|)
    requires 1 <= k < |DecideWrites(saved, c, a, decision, now)|
    ensures MovesOn(t, DecideWrites(saved, c, a, decision, now)[k], saved.appeals[a].disputeId)
  {
    DecisionSaved(saved, c, a, decision, now);
    var w := DecideWrites(saved, c, a, decision, now);
    assert w[k].disputes == w[1].disputes && w[k].appeals == w[1].appeals;
    ResolvedForGood(t, w[k], saved.appeals[a].disputeId, a);
  }

  lemma ResolvedForGood(t: Tables, t': Tables, d: Id, a: nat)
    requires d in t.disputes && t.disputes[d].status == Appealed
    requires d in t'.disputes && t'.disputes[d].status == Resolved
    requires a < |t'.appeals| && t'.appeals[a].disputeId == d
    ensures MovesOn(t, t', d)
  {
  }

  lemma BallotingMoves(t: Tables, c: Config, id: Id, cast: Cast, k: nat)
    requires Inv(t, c) && k < |VoteWrites(t, c, id, cast)| && !TearsVote(t, id, cast, k + 1)
    ensures MovesOn(t, VoteWrites(t, c, id, cast)[k], id)
  {
    var a := FindAppeal(t.appeals, id).value;
    assert AppealOk(t.appeals[a], t.disputes);
    BallotAdded(t.appeals[a], cast);
    var voted := WithBallot(t.appeals[a], cast);
    var saved := t.(appeals := t.appeals[a := voted]);
    if k == 0 {
      BallotStays(t, a, voted, saved, id);
    } else {
      var decision := TallyOf(voted).decision.value;
      DecidingVoteWrites(t, c, id, cast, a, decision, saved);
      DecidingBallotMoves(t, c, a, voted, saved, decision, cast.now, k - 1);
    }
  }

  lemma BallotStays(t: Tables, a: nat, voted: Appeal, saved: Tables, d: Id)
    requires a < |t.appeals| && voted.disputeId == t.appeals[a].disputeId
    requires saved == t.(appeals := t.appeals[a := voted])
    ensures MovesOn(t, saved, d)
  {
    SameAppealsFound(t.appeals, saved.appeals, d);
  }

  lemma DecidingBallotMoves(t: Tables, c: Config, a: nat, voted: Appeal, saved: Tables, decision: AppealDecision,
                            now: int, k: nat)
    requires Inv(t, c) && a < |t.appeals| && saved == t.(appeals := t.appeals[a := voted])
    requires voted == t.appeals[a].(ballots := voted.ballots) && voted.status == Voting && BallotsOk(voted)
    requires TallyOf(voted).decision == Some(decision) && 1 <= k < |DecideWrites(saved, c, a, decision, now)|
    ensures MovesOn(t, DecideWrites(saved, c, a, decision, now)[k], voted.disputeId)
  {
    DecidedTallyIsDeadline(Choices(voted), |voted.panel|);
    BallotIsReady(t, c, a, voted, saved);
    DecidingMoves(t, saved, c, a, decision, now, k);
  }

  lemma ClosingMoves(t: Tables, c: Config, id: Id, now: int, k: nat)
    requires Inv(t, c) && 0 < k < |CloseWrites(t, c, id, now)|
    ensures MovesOn(t, CloseWrites(t, c, id, now)[k], id)
  {
    var a := FindAppeal(t.appeals, id).value;
    assert AppealOk(t.appeals[a], t.disputes);
    assert t.appeals[a := t.appeals[a]] == t.appeals;
    DecidingMoves(t, t, c, a, ClosingDecision(t.appeals[a]), now, k);
  }

  lemma WriteMoves(t: Tables, c: Config, call: Call, k: nat)
    requires Inv(t, c) && k < |WritesOf(t, c, call)| && !Tears(t, c, call, k + 1)
    ensures MovesOn(t, WritesOf(t, c, call)[k], DisputeOf(call))
  {
    match call
    case Resolving(id, outcome, now) => ResolvingMoves(t, c, id, outcome, now, k);
    case Appealing(id, now) => AppealingMoves(t, c, id, now);
    case Balloting(id, cast) => BallotingMoves(t, c, id, cast, k);
    case Closing(id, now) => ClosingMoves(t, c, id, now, k);
    case Rejecting(_, _) =>
  }

  lemma CallMoves(t: Tables, c: Config, call: Call, writes: nat, d: Id)
    requires Inv(t, c) && writes <= |WritesOf(t, c, call)| && !Tears(t, c, call, writes)
    ensures MovesOn(t, Interrupted(t, c, call, writes), d)
  {
    if writes > 0 {
      WriteMovesAny(t, c, call, writes - 1, d);
    }
  }

  lemma WriteMovesAny(t: Tables, c: Config, call: Call, k: nat, d: Id)
    requires Inv(t, c) && k < |WritesOf(t, c, call)| && !Tears(t, c, call, k + 1)
    ensures MovesOn(t, WritesOf(t, c, call)[k], d)
  {
    if d == DisputeOf(call) {
      WriteMoves(t, c, call, k);
    } else {
      WriteFrame(t, c, call, k);
      OthersStay(t, WritesOf(t, c, call)[k], d, DisputeOf(call));
    }
  }

  lemma WholeCallMoves(t: Tables, c: Config, call: Call, d: Id)
    requires Inv(t, c)
    ensures MovesOn(t, Called(t, c, call).0, d)
  {
    var n := |WritesOf(t, c, call)|;
    CallIsLastWrite(t, c, call);
    CallKeeps(t, c, call);
    InterruptionKeepsExactly(t, c, call, n);
    CallMoves(t, c, call, n, d);
  }

  lemma CutCallMoves(t: Tables, c: Config, call: Call, writes: nat, d: Id)
    requires Inv(t, c) && !Tears(t, c, call, writes)
    ensures MovesOn(t, Interrupted(t, c, call, writes), d)
  {
    if writes <= |WritesOf(t, c, call)| {
      CallMoves(t, c, call, writes, d);
    } else {
      CallIsLastWrite(t, c, call);
      WholeCallMoves(t, c, call, d);
    }
  }

  lemma OpeningMoves(t: Tables, c: Config, id: Id, s: string, d: Id)
    ensures MovesOn(t, OpenDispute(t, id, s).0, d)
  {
  }

  /** Every call either leaves a dispute as it is or moves it on by exactly one station: there is no way
      back and none past a station. */
  lemma StepMovesOn(t: Tables, c: Config, e: Event, d: Id)
    requires Inv(t, c) && !Torn(t, c, e)
    ensures MovesOn(t, Step(t, c, e).0, d)
  {
    match e
    case DoRegister(x, address, stake) =>
    case DoUpdateStake(x, stake) =>
    case DoExit(x) =>
    case DoPublish(s, signatures) =>
    case DoOpen(x, s) => OpeningMoves(t, c, x, s, d);
    case DoCall(call) => WholeCallMoves(t, c, call, d);
    case DoInterrupted(call, writes) => CutCallMoves(t, c, call, writes, d);
    case DoApprove(p, operator, fault) => ApproveTouchesNoDispute(t, c, p, operator, fault);
  }

  lemma ApproveTouchesNoDispute(t: Tables, c: Config, p: nat, operator: string, fault: Fault)
    ensures var t' := Approve(t, c, p, operator, fault).0; t'.disputes == t.disputes && t'.appeals == t.appeals
  {
  }

  /** Over a run a dispute is opened, resolved, appealed and resolved again, in that order, one station at a
      time; while it stays at a station its row does not change, and the last station is the end. */
  lemma {:induction false} DisputeLifecycle(c: Config, events: seq<Event>, d: Id, k: nat)
    requires Whole(c, events) && k <= |events|
    ensures Moved(Run(c, events[..k]), Run(c, events), d, |events| - k)
    decreases |events|
  {
    if k == |events| {
      assert events[..k] == events;
    } else {
      var n := |events| - 1;
      var before := events[..n];
      WholePrefix(c, events, n);
      assert before[..k] == events[..k];
      DisputeLifecycle(c, before, d, k);
      ReachableInv(c, before);
      assert !Torn(Run(c, before), c, events[n]);
      StepMovesOn(Run(c, before), c, events[n], d);
      MovedFurther(Run(c, events[..k]), Run(c, before), Run(c, events), d, n - k);
    }
  }
}
