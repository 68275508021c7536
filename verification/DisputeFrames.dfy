/**
 What a call may touch: everything it writes concerns its own dispute.
 */
module DisputeFrames {
  import opened Basics
  import opened AppealQuorum
  import opened DisputeTables
  import opened DisputeInvariants

  /** From `t` to `t'` only dispute `d`, its open appeal and pending proposals may have moved: settled rows
      stay, nothing becomes approved, and new proposals are pending. */
  ghost predicate Within(t: Tables, t': Tables, d: Id) {
    && t'.validators == t.validators && t'.verdicts == t.verdicts
    && AppealsWithin(t.appeals, t'.appeals, d)
    && (forall x :: x in t.disputes <==> x in t'.disputes)
    && (forall x :: x in t.disputes && x != d ==> t'.disputes[x] == t.disputes[x])
    && ProposalsWithin(t.proposals, t'.proposals)
  }

  ghost predicate AppealsWithin(was: seq<Appeal>, now: seq<Appeal>, d: Id) {
    && |was| <= |now|
    && (forall i :: 0 <= i < |was| ==> now[i].disputeId == was[i].disputeId)
    && (forall i :: 0 <= i < |was| && (was[i].disputeId != d || was[i].status == Decided) ==> now[i] == was[i])
    && (forall i :: |was| <= i < |now| ==> now[i].disputeId == d)
  }

  ghost predicate ProposalsWithin(was: seq<Proposal>, now: seq<Proposal>) {
    && |was| <= |now|
    && (forall p :: 0 <= p < |was| && was[p].status != Proposed ==> now[p] == was[p])
    && (forall p :: 0 <= p < |was| && was[p].status == Proposed ==> now[p].status != Approved)
    && (forall p :: |was| <= p < |now| ==> now[p].status == Proposed)
  }

  /** The dispute a call is about; a rejection is about none. */
  function DisputeOf(call: Call): Id {
    match call
    case Resolving(id, _, _) => id
    case Appealing(id, _) => id
    case Balloting(id, _) => id
    case Closing(id, _) => id
    case Rejecting(_, _) => ""
  }

  lemma DecideFrame(t: Tables, c: Config, a: nat, decision: AppealDecision, now: int, k: nat)
    requires ValidatorsOk(t.validators, c) && a < |t.appeals| && t.appeals[a].status == Voting
    requires k < |DecideWrites(t, c, a, decision, now)|
    ensures Within(t, DecideWrites(t, c, a, decision, now)[k], t.appeals[a].disputeId)
  {
    var w, d := DecideWrites(t, c, a, decision, now), t.appeals[a].disputeId;
    if k >= 2 {
      var s := w[1].disputes[d].sessionId;
      if decision == Reversed && t.appeals[a].originalOutcome == Overturned {
        WithdrawalFrame(w[1], d, "appeal");
      } else {
        RaisingFrame(w[1], c, d, s, k - 2);
        assert w[k] == ProposeWrites(w[1], c, d, s)[k - 2];
      }
    }
  }

  lemma RaisingFrame(t: Tables, c: Config, d: Id, s: string, k: nat)
    requires ValidatorsOk(t.validators, c) && k < |ProposeWrites(t, c, d, s)|
    ensures var t' := ProposeWrites(t, c, d, s)[k];
            t' == t.(proposals := t'.proposals) && ProposalsWithin(t.proposals, t'.proposals)
  {
    RaisedRows(t, c, d, s);
  }

  lemma WithdrawalFrame(t: Tables, d: Id, operator: string)
    ensures var t' := RejectPendingForDispute(t, d, operator);
            t' == t.(proposals := t'.proposals) && ProposalsWithin(t.proposals, t'.proposals)
  {
  }

  lemma VoteFrame(t: Tables, c: Config, id: Id, cast: Cast, k: nat)
    requires ValidatorsOk(t.validators, c) && k < |VoteWrites(t, c, id, cast)|
    ensures Within(t, VoteWrites(t, c, id, cast)[k], id)
  {
    var a := FindAppeal(t.appeals, id).value;
    var voted := WithBallot(t.appeals[a], cast);
    var saved := t.(appeals := t.appeals[a := voted]);
    if k > 0 {
      DecideFrame(saved, c, a, TallyOf(voted).decision.value, cast.now, k - 1);
    }
  }

  lemma CloseFrame(t: Tables, c: Config, id: Id, now: int, k: nat)
    requires ValidatorsOk(t.validators, c) && k < |CloseWrites(t, c, id, now)|
    ensures Within(t, CloseWrites(t, c, id, now)[k], id)
  {
    var a := FindAppeal(t.appeals, id).value;
    DecideFrame(t, c, a, ClosingDecision(t.appeals[a]), now, k);
  }

  lemma ResolveFrame(t: Tables, c: Config, id: Id, outcome: Option<DisputeOutcome>, now: int, k: nat)
    requires ValidatorsOk(t.validators, c) && k < |ResolveWrites(t, c, id, outcome, now)|
    ensures Within(t, ResolveWrites(t, c, id, outcome, now)[k], id)
  {
    if k > 0 {
      var saved := ResolveWrites(t, c, id, outcome, now)[0];
      RaisingFrame(saved, c, id, saved.disputes[id].sessionId, k - 1);
    }
  }

  lemma AppealFrame(t: Tables, c: Config, id: Id, now: int, k: nat)
    requires k < |OpenAppealWrites(t, c, id, now)|
    ensures Within(t, OpenAppealWrites(t, c, id, now)[k], id)
  {
    OpenAppealShape(t, c, id, now);
    AddedWithin(t, OpenAppeal(t, c, id, now).0, id);
  }

  lemma AddedWithin(t: Tables, after: Tables, id: Id)
    requires |after.appeals| == |t.appeals| + 1 && after.appeals[..|t.appeals|] == t.appeals
    requires after.appeals[|t.appeals|].disputeId == id && id in t.disputes && id in after.disputes
    requires after == t.(appeals := after.appeals, disputes := t.disputes[id := after.disputes[id]])
    ensures Within(t, t.(appeals := after.appeals), id) && Within(t, after, id)
  {
    assert forall i :: 0 <= i < |t.appeals| ==> after.appeals[i] == after.appeals[..|t.appeals|][i];
  }

  lemma RejectFrame(t: Tables, p: nat, operator: string)
    ensures Within(t, Reject(t, p, operator).0, "")
  {
  }

  lemma WriteFrame(t: Tables, c: Config, call: Call, k: nat)
    requires ValidatorsOk(t.validators, c) && k < |WritesOf(t, c, call)|
    ensures Within(t, WritesOf(t, c, call)[k], DisputeOf(call))
  {
    match call
    case Resolving(id, outcome, now) => ResolveFrame(t, c, id, outcome, now, k);
    case Appealing(id, now) => AppealFrame(t, c, id, now, k);
    case Balloting(id, cast) => VoteFrame(t, c, id, cast, k);
    case Closing(id, now) => CloseFrame(t, c, id, now, k);
    case Rejecting(p, operator) => RejectFrame(t, p, operator);
  }

  /** However far a call gets, it stays within its dispute. */
  lemma CallFrame(t: Tables, c: Config, call: Call, writes: nat)
    requires ValidatorsOk(t.validators, c)
    ensures Within(t, Interrupted(t, c, call, writes), DisputeOf(call))
    ensures Within(t, Called(t, c, call).0, DisputeOf(call))
  {
    var w := WritesOf(t, c, call);
    AllWritesAreTheCall(t, c, call);
    if w != [] {
      WriteFrame(t, c, call, |w| - 1);
      if 0 < writes <= |w| {
        WriteFrame(t, c, call, writes - 1);
      }
    }
  }

  /** A call is its own last write. */
  lemma CallIsLastWrite(t: Tables, c: Config, call: Call)
    ensures Called(t, c, call).0 == Interrupted(t, c, call, |WritesOf(t, c, call)|)
  {
    AllWritesAreTheCall(t, c, call);
  }

  /** Opening an appeal adds at most one row and marks its dispute. */
  lemma OpenAppealShape(t: Tables, c: Config, x: Id, now: int)
    ensures var (t', reply) := OpenAppeal(t, c, x, now);
            && (reply.Refused? ==> t' == t)
            && (reply.Done? ==>
                  && x in t.disputes && t.disputes[x].status == Resolved
                  && FindAppeal(t.appeals, x).None?
                  && |t'.appeals| == |t.appeals| + 1 && t'.appeals[..|t.appeals|] == t.appeals
                  && t' == t.(appeals := t'.appeals, disputes := t.disputes[x := t.disputes[x].(status := Appealed)])
                  && t'.appeals[|t.appeals|].disputeId == x
                  && t'.appeals[|t.appeals|].panel == DrawPanel(t, c, x, t.disputes[x].sessionId)
                  && |t'.appeals[|t.appeals|].panel| > CommitteeSize(t, t.disputes[x].sessionId))
  {
  }
}
