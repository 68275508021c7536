/**
 The services over the four tables, written as the statements that update them, each proved to do
 what the function of the same name in DisputeTables says. `trail` records the tables after each write of
 the calls that write more than once: where such a call can be cut off.
 */
module DisputeServices {
  import opened Basics
  import opened Ordering
  import opened AppealQuorum
  import opened StakingTiers
  import opened DisputeTables
  import opened DisputeInvariants
  import opened AppealPanels

  class DisputeStore {
    const c: Config
    const tiers: seq<TierDefinition>
    var disputes: map<Id, Dispute>
    var appeals: seq<Appeal>
    var proposals: seq<Proposal>
    var validators: seq<Validator>
    var verdicts: map<string, seq<Id>>
    ghost var trail: seq<Tables>

    ghost function Snapshot(): Tables
      reads this
    {
      Tables(disputes, appeals, proposals, validators, verdicts)
    }

    ghost predicate Configured() {
      c.minStakeWei > 0 && tiers == BuildTierTable(c.minStakeWei).rows
    }

    constructor (config: Config)
      requires config.minStakeWei > 0
      ensures c == config && Configured() && Snapshot() == EMPTY && trail == []
    {
      c := config;
      tiers := BuildTierTable(config.minStakeWei).rows;
      disputes, appeals, proposals, validators, verdicts, trail := map[], [], [], [], map[], [];
    }

    // ------------------------------------------------------------- validators

    method Register(id: Id, address: string, stake: nat) returns (reply: Reply)
      requires Configured()
      modifies this
      ensures (Snapshot(), reply) == DisputeTables.Register(old(Snapshot()), c, id, address, stake)
    {
      for i := 0 to |validators|
        invariant Snapshot() == old(Snapshot())
        invariant forall k :: 0 <= k < i ==> validators[k].id != id && validators[k].address != address
      {
        if validators[i].id == id || validators[i].address == address {
          return Refused(DuplicateKey);
        }
      }
      var definition := TierForStake(stake, tiers);
      validators := validators + [Validator(id, address, stake, definition.tier, true)];
      reply := Done;
    }

    method UpdateStake(id: Id, stake: nat) returns (reply: Reply)
      requires Configured()
      modifies this
      ensures (Snapshot(), reply) == DisputeTables.UpdateStake(old(Snapshot()), c, id, stake)
    {
      var v := FindValidator(validators, id);
      if v.None? {
        return Refused(NotFound);
      }
      var validator := validators[v.value];
      validator := validator.(stake := stake);
      var definition := TierForStake(stake, tiers);
      validator := validator.(tier := definition.tier);
      validators := validators[v.value := validator];
      reply := Done;
    }

    method Exit(id: Id) returns (reply: Reply)
      modifies this
      ensures (Snapshot(), reply) == DisputeTables.Exit(old(Snapshot()), id)
    {
      var v := FindValidator(validators, id);
      if v.None? {
        return Refused(NotFound);
      }
      validators := validators[v.value := validators[v.value].(isActive := false)];
      reply := Done;
    }

    // --------------------------------------------------------------- slashing

    /** Saving one proposal. */
    method Raise(proposal: Proposal, created: seq<Proposal>, ghost start: Tables, ghost before: seq<Tables>)
      returns (next: seq<Proposal>)
      requires Snapshot() == start.(proposals := start.proposals + created)
      requires trail == before + Appending(start, created)
      modifies this
      ensures next == created + [proposal] && Snapshot() == start.(proposals := start.proposals + next)
      ensures trail == before + Appending(start, next)
    {
      proposals := proposals + [proposal];
      trail := trail + [Snapshot()];
      AppendingNext(start, created, proposal);
      next := created + [proposal];
      assert proposals == start.proposals + next;
    }

    method ProposeForOverturnedVerdict(disputeId: Id, sessionId: string)
      modifies this
      ensures Snapshot() == DisputeTables.ProposeForOverturnedVerdict(old(Snapshot()), c, disputeId, sessionId)
      ensures trail == old(trail) + ProposeWrites(old(Snapshot()), c, disputeId, sessionId)
    {
      if sessionId !in verdicts {
        return;
      }
      var signers := Filter(validators, SignedVerdict(verdicts[sessionId]));
      if !c.slashingEnabled {
        return;
      }
      var already := AlreadyProposed(proposals, disputeId);
      var created := [];
      ghost var start := Snapshot();
      for i := 0 to |signers|
        invariant created == ProposalsFor(signers[..i], already, disputeId, sessionId, c.slashingFractionBps)
        invariant Snapshot() == start.(proposals := start.proposals + created)
        invariant trail == old(trail) + Appending(start, created)
      {
        ProposalsForNext(signers, i, already, disputeId, sessionId, c.slashingFractionBps);
        var validator := signers[i];
        if validator.id in already {
          continue;
        }
        var amount := SlashAmount(validator.stake, c.slashingFractionBps);
        if amount == 0 {
          continue;
        }
        var proposal := Proposal(validator.id, disputeId, sessionId, validator.stake, amount, Proposed, None);
        created := Raise(proposal, created, start, old(trail));
      }
      assert signers[..|signers|] == signers;
    }

    /** Conditional update out of `proposed`; the affected-row count decides. The row is read again after it. */
    method DecideProposal(id: nat, status: ProposalStatus, decidedBy: string, fault: Fault) returns (reply: Reply)
      modifies this
      ensures (Snapshot(), reply) == DecideProposalUnder(old(Snapshot()), id, status, decidedBy, fault)
      ensures trail == if Snapshot() == old(Snapshot()) then old(trail) else old(trail) + [Snapshot()]
    {
      if fault == AtUpdate {
        return Refused(StoreFailed);
      }
      if id >= |proposals| {
        return Refused(NotFound);
      }
      var affected := 0;
      if proposals[id].status == Proposed {
        proposals := proposals[id := proposals[id].(status := status, decidedBy := Some(decidedBy))];
        affected := 1;
        if Snapshot() != old(Snapshot()) {
          trail := trail + [Snapshot()];
        }
      }
      if affected == 0 {
        return Refused(NotPending);
      }
      if fault == AtReread {
        return Refused(StoreFailed);
      }
      reply := Done;
    }

    method Reject(id: nat, decidedBy: string) returns (reply: Reply)
      modifies this
      ensures (Snapshot(), reply) == DisputeTables.Reject(old(Snapshot()), id, decidedBy)
      ensures trail == old(trail) + WritesOf(old(Snapshot()), c, Rejecting(id, decidedBy))
    {
      reply := DecideProposal(id, Rejected, decidedBy, NoFault);
      if reply.Done? {
        assert old(proposals)[id].status != proposals[id].status;
      }
    }

    method Approve(id: nat, decidedBy: string, fault: Fault) returns (reply: Reply)
      requires Configured()
      modifies this
      ensures (Snapshot(), reply) == DisputeTables.Approve(old(Snapshot()), c, id, decidedBy, fault)
    {
      reply := DecideProposal(id, Approved, decidedBy, fault);
      if reply.Refused? {
        return;
      }
      var proposal := proposals[id];
      var v := FindValidator(validators, proposal.validatorId);
      if v.None? {
        reply := Refused(NotFound);
      } else if fault.BeforeStakeWrite? {
        reply := Refused(StoreFailed);
      } else {
        var stake := validators[v.value].stake;
        var slashed := if proposal.amount > stake then stake else proposal.amount;
        reply := UpdateStake(proposal.validatorId, stake - slashed);
        proposal := proposal.(amount := slashed);
        if fault.AtProposalSave? {
          reply := Refused(StoreFailed);
        } else {
          proposals := proposals[id := proposal];
        }
      }
      if reply.Refused? && !RestoreFails(fault) {
        proposals := proposals[id := proposals[id].(status := Proposed, decidedBy := None)];
      }
    }

    method RejectPendingForDispute(disputeId: Id, decidedBy: string) returns (withdrawn: nat)
      modifies this
      ensures Snapshot() == DisputeTables.RejectPendingForDispute(old(Snapshot()), disputeId, decidedBy)
      ensures trail == old(trail) + [Snapshot()]
      ensures withdrawn == PendingAmong(old(proposals), |old(proposals)|, disputeId)
    {
      withdrawn := 0;
      for i := 0 to |proposals|
        invariant |proposals| == |old(proposals)|
        invariant Snapshot() == old(Snapshot()).(proposals := proposals) && trail == old(trail)
        invariant forall k :: 0 <= k < i ==> proposals[k] == Withdrawn(old(proposals)[k], disputeId, decidedBy)
        invariant forall k :: i <= k < |proposals| ==> proposals[k] == old(proposals)[k]
        invariant withdrawn == PendingAmong(old(proposals), i, disputeId)
      {
        if proposals[i].disputeId == disputeId && proposals[i].status == Proposed {
          proposals := proposals[i := proposals[i].(status := Rejected, decidedBy := Some(decidedBy))];
          withdrawn := withdrawn + 1;
        }
      }
      trail := trail + [Snapshot()];
    }

    // --------------------------------------------------------------- disputes

    method OpenDispute(id: Id, sessionId: string) returns (reply: Reply)
      modifies this
      ensures (Snapshot(), reply) == DisputeTables.OpenDispute(old(Snapshot()), id, sessionId)
    {
      if id in disputes {
        return Refused(DuplicateKey);
      }
      disputes := disputes[id := Dispute(sessionId, Open, None, None)];
      reply := Done;
    }

    method Resolve(id: Id, outcome: Option<DisputeOutcome>, now: int) returns (reply: Reply)
      modifies this
      ensures (Snapshot(), reply) == DisputeTables.Resolve(old(Snapshot()), c, id, outcome, now)
      ensures trail == old(trail) + ResolveWrites(old(Snapshot()), c, id, outcome, now)
    {
      if id !in disputes {
        return Refused(NotFound);
      }
      var dispute := disputes[id];
      if dispute.status == Resolved {
        return Refused(AlreadyResolved);
      }
      if dispute.status == Appealed {
        return Refused(UnderAppeal);
      }
      dispute := dispute.(status := Resolved);
      dispute := dispute.(outcome := outcome);
      dispute := dispute.(resolvedAt := Some(now));
      disputes := disputes[id := dispute];
      ghost var saved := Snapshot();
      trail := trail + [saved];
      ResolutionInOneRow(old(Snapshot()), c, id, outcome, now, saved);
      if dispute.outcome == Some(Overturned) {
        ProposeForOverturnedVerdict(id, dispute.sessionId);
      }
      reply := Done;
    }

    // ---------------------------------------------------------------- appeals

    /** Draws the panel among the eligible validators that did not sign the verdict: distinct reviewers, and a
        seat is left empty only when every reviewer has one. */
    method Draw(disputeId: Id, sessionId: string) returns (panel: seq<Id>, committeeSize: nat)
      ensures panel == DrawPanel(Snapshot(), c, disputeId, sessionId)
      ensures committeeSize == CommitteeSize(Snapshot(), sessionId) >= BASELINE_COMMITTEE_SIZE
      ensures ValidatorsOk(validators, c) ==> Seated(Snapshot(), c, sessionId, panel)
    {
      var signers :=
        if sessionId in verdicts then set i | 0 <= i < |verdicts[sessionId]| :: verdicts[sessionId][i] else {};
      committeeSize := Max(|signers|, BASELINE_COMMITTEE_SIZE);
      var candidates := Filter(FindEligible(StakedRows(validators), c.minStakeWei), AllowedBy(signers));
      panel := SelectWeighted(candidates, AppealPanelSize(committeeSize, c.panelMultiplier), "appeal:" + disputeId,
                              c.draw);
      if ValidatorsOk(validators, c) {
        DrawSeatsReviewers(Snapshot(), c, disputeId, sessionId);
      }
    }

    /** Nothing is refused exactly when the dispute is resolved with an outcome, was never appealed and the
        window is open. */
    method CheckAppealable(disputeId: Id, now: int) returns (refusal: Option<Error>)
      ensures refusal == None <==> Appealable(Snapshot(), c, disputeId, now)
      ensures refusal == AppealRefusal(Snapshot(), c, disputeId, now)
    {
      AppealableExactly(Snapshot(), c, disputeId, now);
      if disputeId !in disputes {
        return Some(NotFound);
      }
      var dispute := disputes[disputeId];
      var existing := FindAppeal(appeals, disputeId);
      if existing.Some? {
        return Some(AlreadyAppealed);
      }
      if dispute.status != Resolved {
        return Some(NotResolved);
      }
      if dispute.outcome.None? {
        return Some(NoOutcome);
      }
      if dispute.resolvedAt.Some? && now > dispute.resolvedAt.value + c.appealWindowMs {
        return Some(WindowClosed);
      }
      refusal := None;
    }

    method OpenAppeal(disputeId: Id, now: int) returns (reply: Reply)
      modifies this
      ensures (Snapshot(), reply) == DisputeTables.OpenAppeal(old(Snapshot()), c, disputeId, now)
      ensures trail == old(trail) + OpenAppealWrites(old(Snapshot()), c, disputeId, now)
    {
      ghost var t := Snapshot();
      var refusal := CheckAppealable(disputeId, now);
      if refusal.Some? {
        return Refused(refusal.value);
      }
      var panel, committeeSize := Draw(disputeId, disputes[disputeId].sessionId);
      reply := SaveAppeal(disputeId, panel, committeeSize, now);
      assert DisputeTables.OpenAppeal(t, c, disputeId, now)
          == OpenAppealWith(t, c, disputeId, panel, committeeSize, now);
    }

    method SaveAppeal(disputeId: Id, panel: seq<Id>, committeeSize: nat, now: int) returns (reply: Reply)
      requires disputeId in disputes && disputes[disputeId].outcome.Some?
      modifies this
      ensures (Snapshot(), reply) == OpenAppealWith(old(Snapshot()), c, disputeId, panel, committeeSize, now)
      ensures trail == old(trail)
                       + if reply.Refused? then [] else [old(Snapshot()).(appeals := appeals), Snapshot()]
    {
      if |panel| <= committeeSize {
        return Refused(TooFewValidators);
      }
      var dispute := disputes[disputeId];
      appeals := appeals + [Appeal(disputeId, dispute.outcome.value, panel, ReversalQuorum(|panel|), Voting, None,
                                   now + c.appealVotingMs, None, [])];
      trail := trail + [Snapshot()];
      disputes := disputes[disputeId := dispute.(status := Appealed)];
      trail := trail + [Snapshot()];
      reply := Done;
    }

    method DecideAppeal(a: nat, decision: AppealDecision, now: int) returns (reply: Reply)
      requires a < |appeals|
      modifies this
      ensures (Snapshot(), reply) == DisputeTables.DecideAppeal(old(Snapshot()), c, a, decision, now)
      ensures trail == old(trail) + DecideWrites(old(Snapshot()), c, a, decision, now)
    {
      if appeals[a].disputeId !in disputes {
        return Refused(NotFound);
      }
      var disputeId := appeals[a].disputeId;
      ghost var saved := SaveDecision(a, decision, now);
      DecisionInTwoRows(old(Snapshot()), c, a, decision, now, saved);
      reply := Done;
      if decision != Reversed {
        return;
      }
      if disputes[disputeId].outcome == Some(Overturned) {
        ProposeForOverturnedVerdict(disputeId, disputes[disputeId].sessionId);
      } else {
        var _ := RejectPendingForDispute(disputeId, "appeal");
      }
    }

    /** The two rows a decision saves. */
    method SaveDecision(a: nat, decision: AppealDecision, now: int) returns (ghost saved: Tables)
      requires a < |appeals| && appeals[a].disputeId in disputes
      modifies this
      ensures saved == Snapshot() && trail == old(trail) + [old(Snapshot()).(appeals := saved.appeals), saved]
      ensures var was, d := old(appeals)[a], old(disputes)[old(appeals)[a].disputeId];
              && saved.appeals == old(appeals)[a := was.(status := Decided, decision := Some(decision),
                                                        decidedAt := Some(now))]
              && saved.disputes
                 == old(disputes)[was.disputeId :=
                      d.(status := Resolved,
                         outcome := if decision == Reversed then Some(Flip(was.originalOutcome)) else d.outcome)]
              && saved == old(Snapshot()).(appeals := saved.appeals, disputes := saved.disputes)
    {
      var appeal := appeals[a];
      var dispute := disputes[appeal.disputeId];
      appeal := appeal.(status := Decided);
      appeal := appeal.(decision := Some(decision));
      appeal := appeal.(decidedAt := Some(now));
      appeals := appeals[a := appeal];
      trail := trail + [Snapshot()];
      dispute := dispute.(status := Resolved);
      if decision == Reversed {
        dispute := dispute.(outcome := Some(if appeal.originalOutcome == Overturned then Stands else Overturned));
      }
      disputes := disputes[appeal.disputeId := dispute];
      saved := Snapshot();
      trail := trail + [saved];
    }

    method Vote(disputeId: Id, cast: Cast) returns (reply: Reply)
      modifies this
      ensures (Snapshot(), reply) == DisputeTables.Vote(old(Snapshot()), c, disputeId, cast)
      ensures trail == old(trail) + VoteWrites(old(Snapshot()), c, disputeId, cast)
    {
      var found := FindAppeal(appeals, disputeId);
      if found.None? {
        return Refused(NotFound);
      }
      var appeal := appeals[found.value];
      if appeal.status != Voting {
        return Refused(AlreadyDecided);
      }
      if cast.now > appeal.votingDeadline {
        return Refused(VotingClosed);
      }
      if cast.validatorId !in appeal.panel {
        return Refused(NotOnPanel);
      }
      var v := FindValidator(validators, cast.validatorId);
      if v.None? {
        return Refused(NotFound);
      }
      if cast.signer.None? {
        return Refused(BadSignature);
      }
      if cast.signer.value != validators[v.value].address {
        return Refused(WrongSigner);
      }
      if cast.validatorId in Voters(appeal) {
        return Refused(AlreadyVoted);
      }
      ghost var saved;
      reply, saved := SaveVote(found.value, cast);
      VoteInOneRow(old(Snapshot()), c, disputeId, cast, found.value, saved);
    }

    /** Saves an accepted ballot and decides the appeal once the count is settled. */
    method SaveVote(a: nat, cast: Cast) returns (reply: Reply, ghost saved: Tables)
      requires a < |appeals|
      modifies this
      ensures saved == old(Snapshot()).(appeals := old(appeals)[a := WithBallot(old(appeals)[a], cast)])
      ensures var decision := TallyOf(WithBallot(old(appeals)[a], cast)).decision;
              && (Snapshot(), reply) == (if decision == None then (saved, Done)
                                         else DisputeTables.DecideAppeal(saved, c, a, decision.value, cast.now))
              && trail == old(trail) + ([saved] + if decision == None then []
                                                  else DecideWrites(saved, c, a, decision.value, cast.now))
    {
      var appeal := appeals[a];
      appeal := appeal.(ballots := appeal.ballots + [Ballot(cast.validatorId, cast.choice)]);
      appeals := appeals[a := appeal];
      saved := Snapshot();
      trail := trail + [saved];
      reply := Done;
      var tally := TallyOf(appeal);
      if tally.decision.Some? {
        reply := DecideAppeal(a, tally.decision.value, cast.now);
      }
    }

    method Close(disputeId: Id, now: int) returns (reply: Reply)
      modifies this
      ensures (Snapshot(), reply) == DisputeTables.Close(old(Snapshot()), c, disputeId, now)
      ensures trail == old(trail) + CloseWrites(old(Snapshot()), c, disputeId, now)
    {
      var found := FindAppeal(appeals, disputeId);
      if found.None? {
        return Refused(NotFound);
      }
      var appeal := appeals[found.value];
      if appeal.status == Decided {
        return Done;
      }
      var tally := TallyOf(appeal);
      if tally.decision.None? && now <= appeal.votingDeadline {
        return Refused(VotingOpen);
      }
      var decision := if tally.decision.Some? then tally.decision.value else DecisionAtDeadline(tally);
      reply := DecideAppeal(found.value, decision, now);
    }
  }
}
