/**
 The joint invariant of disputes, appeals, proposals and validators, kept by every call.
 */
module DisputeInvariants {
  import opened Basics
  import opened Ordering
  import opened AppealQuorum
  import opened StakingTiers
  import opened DisputeTables

  /** Ids and addresses are unique, and the stored tier is the one the stake qualifies for. */
  ghost predicate ValidatorsOk(rows: seq<Validator>, c: Config) {
    && (forall i, j :: 0 <= i < j < |rows| ==> rows[i].id != rows[j].id && rows[i].address != rows[j].address)
    && (forall i :: 0 <= i < |rows| ==> rows[i].tier == TierOf(rows[i].stake, c.minStakeWei).tier)
  }

  /** Every panel member votes at most once, and nobody else votes. */
  ghost predicate BallotsOk(a: Appeal) {
    && (forall i, j :: 0 <= i < j < |a.ballots| ==> a.ballots[i].validatorId != a.ballots[j].validatorId)
    && (forall i :: 0 <= i < |a.ballots| ==> a.ballots[i].validatorId in a.panel)
    && |a.ballots| <= |a.panel|
  }

  /** An open appeal is undecidable so far and shares the dispute's outcome; a decided one recorded
      the plain count of its ballots, and the dispute's outcome follows from it. */
  ghost predicate AppealOk(a: Appeal, disputes: map<Id, Dispute>) {
    && a.disputeId in disputes
    && BallotsOk(a)
    && a.quorum == ReversalQuorum(|a.panel|)
    && match a.status
       case Voting =>
         && a.decision == None && a.decidedAt == None
         && TallyOf(a).decision == None
         && disputes[a.disputeId].status == Appealed
         && disputes[a.disputeId].outcome == Some(a.originalOutcome)
       case Decided =>
         && a.decision == Some(AtDeadline(Choices(a), |a.panel|)) && a.decidedAt.Some?
         && disputes[a.disputeId].status == Resolved
         && disputes[a.disputeId].outcome == Some(OutcomeAfter(a.originalOutcome, a.decision.value))
  }

  /** At most one appeal per dispute; a dispute is `appealed` exactly while its appeal is open. */
  ghost predicate AppealsOk(appeals: seq<Appeal>, disputes: map<Id, Dispute>) {
    && (forall i :: 0 <= i < |appeals| ==> AppealOk(appeals[i], disputes))
    && (forall i, j :: 0 <= i < j < |appeals| ==> appeals[i].disputeId != appeals[j].disputeId)
    && (forall d :: d in disputes && disputes[d].status == Appealed ==>
          exists i :: 0 <= i < |appeals| && appeals[i].disputeId == d && appeals[i].status == Voting)
    && (forall d :: d in disputes && disputes[d].status in {Open, Escalated} ==> disputes[d].outcome == None)
  }

  /** A pending proposal belongs to an overturned verdict and still holds the proposed share. */
  ghost predicate ProposalOk(p: Proposal, disputes: map<Id, Dispute>, c: Config) {
    && p.disputeId in disputes && disputes[p.disputeId].status in {Resolved, Appealed}
    && p.amount <= SlashAmount(p.stakeAtProposal, c.slashingFractionBps)
    && (p.status == Proposed <==> p.decidedBy == None)
    && (p.status == Proposed ==>
          && disputes[p.disputeId].outcome == Some(Overturned)
          && p.amount == SlashAmount(p.stakeAtProposal, c.slashingFractionBps) > 0)
  }

  ghost predicate OnePerSigner(proposals: seq<Proposal>) {
    forall i, j :: 0 <= i < j < |proposals| ==>
      proposals[i].disputeId != proposals[j].disputeId || proposals[i].validatorId != proposals[j].validatorId
  }

  ghost predicate KnownValidator(rows: seq<Validator>, id: Id) {
    exists v :: 0 <= v < |rows| && rows[v].id == id
  }

  ghost predicate ProposalsOk(proposals: seq<Proposal>, disputes: map<Id, Dispute>, rows: seq<Validator>, c: Config) {
    && (forall i :: 0 <= i < |proposals| ==> ProposalOk(proposals[i], disputes, c))
    && OnePerSigner(proposals)
    && (forall i :: 0 <= i < |proposals| ==> KnownValidator(rows, proposals[i].validatorId))
  }

  ghost predicate Inv(t: Tables, c: Config) {
    && ValidatorsOk(t.validators, c)
    && AppealsOk(t.appeals, t.disputes)
    && ProposalsOk(t.proposals, t.disputes, t.validators, c)
  }

  // --------------------------------------------------------------- validators

  lemma KeepsKnown(before: seq<Validator>, after: seq<Validator>, proposals: seq<Proposal>)
    requires |before| <= |after|
    requires forall i :: 0 <= i < |before| ==> after[i].id == before[i].id
    requires forall i :: 0 <= i < |proposals| ==> KnownValidator(before, proposals[i].validatorId)
    ensures forall i :: 0 <= i < |proposals| ==> KnownValidator(after, proposals[i].validatorId)
  {
    forall i | 0 <= i < |proposals| ensures KnownValidator(after, proposals[i].validatorId) {
      var v :| 0 <= v < |before| && before[v].id == proposals[i].validatorId;
      assert after[v].id == proposals[i].validatorId;
    }
  }

  lemma RegisterKeeps(t: Tables, c: Config, id: Id, address: string, stake: nat)
    requires Inv(t, c)
    ensures Inv(Register(t, c, id, address, stake).0, c)
  {
    KeepsKnown(t.validators, Register(t, c, id, address, stake).0.validators, t.proposals);
  }

  lemma UpdateStakeKeeps(t: Tables, c: Config, id: Id, stake: nat)
    requires Inv(t, c)
    ensures Inv(UpdateStake(t, c, id, stake).0, c)
  {
    KeepsKnown(t.validators, UpdateStake(t, c, id, stake).0.validators, t.proposals);
  }

  lemma ExitKeeps(t: Tables, c: Config, id: Id)
    requires Inv(t, c)
    ensures Inv(Exit(t, id).0, c)
  {
    KeepsKnown(t.validators, Exit(t, id).0.validators, t.proposals);
  }

  // ----------------------------------------------------------------- slashing

  /** What the proposal loop raises: one fresh pending row per signer, at the proposed share. */
  lemma {:induction false} RaisedProposals(signers: seq<Validator>, already: set<Id>, d: Id, s: string, bps: int)
    requires forall i, j :: 0 <= i < j < |signers| ==> signers[i].id != signers[j].id
    ensures forall i :: 0 <= i < |ProposalsFor(signers, already, d, s, bps)| ==>
              var p := ProposalsFor(signers, already, d, s, bps)[i];
              && p.disputeId == d && p.sessionId == s && p.validatorId !in already
              && p.status == Proposed && p.decidedBy == None
              && p.amount == SlashAmount(p.stakeAtProposal, bps) > 0
              && KnownValidator(signers, p.validatorId)
    ensures OnePerSigner(ProposalsFor(signers, already, d, s, bps))
  {
    if signers != [] {
      var init, last := signers[..|signers| - 1], signers[|signers| - 1];
      RaisedProposals(init, already, d, s, bps);
      var before, all := ProposalsFor(init, already, d, s, bps), ProposalsFor(signers, already, d, s, bps);
      forall i | 0 <= i < |before|
        ensures KnownValidator(signers, before[i].validatorId) && before[i].validatorId != last.id
      {
        var v :| 0 <= v < |init| && init[v].id == before[i].validatorId;
        assert signers[v].id == before[i].validatorId;
      }
      assert signers[|signers| - 1].id == last.id;
      assert forall i :: 0 <= i < |before| ==> all[i] == before[i];
    }
  }

  lemma SignersDistinct(rows: seq<Validator>, signatures: seq<Id>)
    requires forall i, j :: 0 <= i < j < |rows| ==> rows[i].id != rows[j].id
    ensures forall i, j :: 0 <= i < j < |Filter(rows, SignedVerdict(signatures))| ==>
              Filter(rows, SignedVerdict(signatures))[i].id != Filter(rows, SignedVerdict(signatures))[j].id
  {
    var key := (v: Validator) => v.id;
    assert DistinctBy(rows, key);
    FilterKeepsDistinct(rows, SignedVerdict(signatures), key);
    var r := Filter(rows, SignedVerdict(signatures));
    forall i, j | 0 <= i < j < |r| ensures r[i].id != r[j].id {
      assert key(r[i]) != key(r[j]);
    }
  }

  /** Every row to be raised is a fresh pending one, for a registered validator, at the proposed share. */
  lemma RaisedRows(t: Tables, c: Config, d: Id, s: string)
    requires ValidatorsOk(t.validators, c)
    ensures var raised := RaisedFor(t, c, d, s);
            && OnePerSigner(raised)
            && forall i :: 0 <= i < |raised| ==>
                 && raised[i].disputeId == d && raised[i].validatorId !in AlreadyProposed(t.proposals, d)
                 && raised[i].status == Proposed && raised[i].decidedBy == None
                 && raised[i].amount == SlashAmount(raised[i].stakeAtProposal, c.slashingFractionBps) > 0
                 && KnownValidator(t.validators, raised[i].validatorId)
  {
    var raised := RaisedFor(t, c, d, s);
    if s in t.verdicts && c.slashingEnabled {
      var signers := Filter(t.validators, SignedVerdict(t.verdicts[s]));
      SignersDistinct(t.validators, t.verdicts[s]);
      RaisedProposals(signers, AlreadyProposed(t.proposals, d), d, s, c.slashingFractionBps);
      forall i | 0 <= i < |raised| ensures KnownValidator(t.validators, raised[i].validatorId) {
        var v :| 0 <= v < |signers| && signers[v].id == raised[i].validatorId;
        assert signers[v] in signers;
        var w :| 0 <= w < |t.validators| && t.validators[w] == signers[v];
      }
    }
  }

  /** Raising the first `k` proposals for a dispute whose outcome is `overturned` keeps the proposal
      table in order. */
  lemma RaisingKeeps(t: Tables, c: Config, d: Id, s: string, k: nat)
    requires Inv(t, c) && k <= |RaisedFor(t, c, d, s)|
    requires d in t.disputes && t.disputes[d].status == Resolved && t.disputes[d].outcome == Some(Overturned)
    ensures Inv(t.(proposals := t.proposals + RaisedFor(t, c, d, s)[..k]), c)
  {
    RaisedRows(t, c, d, s);
    var raised := RaisedFor(t, c, d, s)[..k];
    var all := t.proposals + raised;
    forall i, j | 0 <= i < |t.proposals| && 0 <= j < |raised|
      ensures t.proposals[i].disputeId != raised[j].disputeId || t.proposals[i].validatorId != raised[j].validatorId
    {
      assert raised[j].validatorId !in AlreadyProposed(t.proposals, d);
    }
    JoinedOnePerSigner(t.proposals, raised);
    forall i | 0 <= i < |all|
      ensures ProposalOk(all[i], t.disputes, c) && KnownValidator(t.validators, all[i].validatorId)
    {
      if i >= |t.proposals| {
        assert all[i] == raised[i - |t.proposals|];
      }
    }
  }

  /** Raising all of them does. */
  lemma ProposeKeeps(t: Tables, c: Config, d: Id, s: string)
    requires Inv(t, c)
    requires d in t.disputes && t.disputes[d].status == Resolved && t.disputes[d].outcome == Some(Overturned)
    ensures Inv(ProposeForOverturnedVerdict(t, c, d, s), c)
  {
    var raised := RaisedFor(t, c, d, s);
    RaisingKeeps(t, c, d, s, |raised|);
    assert raised[..|raised|] == raised;
  }

  lemma JoinedOnePerSigner(a: seq<Proposal>, b: seq<Proposal>)
    requires OnePerSigner(a) && OnePerSigner(b)
    requires forall i, j :: 0 <= i < |a| && 0 <= j < |b| ==>
               a[i].disputeId != b[j].disputeId || a[i].validatorId != b[j].validatorId
    ensures OnePerSigner(a + b)
  {
    var all := a + b;
    forall i, j | 0 <= i < j < |all|
      ensures all[i].disputeId != all[j].disputeId || all[i].validatorId != all[j].validatorId
    {
      if i < |a| && j >= |a| {
        assert all[i] == a[i] && all[j] == b[j - |a|];
      }
    }
  }

  lemma DecideProposalKeeps(t: Tables, c: Config, id: nat, status: ProposalStatus, operator: string)
    requires Inv(t, c) && status != Proposed
    ensures Inv(DecideProposal(t, id, status, operator).0, c)
  {
  }

  /** A row in order may take the place of one for the same dispute and validator. */
  lemma RowReplaced(t: Tables, c: Config, id: nat, row: Proposal)
    requires Inv(t, c) && id < |t.proposals| && ProposalOk(row, t.disputes, c)
    requires row.disputeId == t.proposals[id].disputeId && row.validatorId == t.proposals[id].validatorId
    ensures Inv(t.(proposals := t.proposals[id := row]), c)
  {
  }

  lemma ApproveKeeps(t: Tables, c: Config, id: nat, operator: string, fault: Fault)
    requires Inv(t, c)
    ensures Inv(Approve(t, c, id, operator, fault).0, c)
  {
    var (claimed, reply) := DecideProposal(t, id, Approved, operator);
    if reply.Done? {
      assert ProposalOk(t.proposals[id], t.disputes, c);
      RowReplaced(t, c, id, t.proposals[id].(status := Approved, decidedBy := Some(operator)));
      var p := claimed.proposals[id];
      ApproveEnds(t, c, id, operator, fault, claimed, p);
      EndKeeps(t, c, id, claimed, p, Approve(t, c, id, operator, fault).0);
    }
  }

  /** How an approval that claimed the row can end. */
  ghost predicate MayEnd(t: Tables, c: Config, id: nat, claimed: Tables, p: Proposal, after: Tables)
    requires id < |claimed.proposals|
  {
    || after == t || after == claimed || after == Restore(claimed, id)
    || match FindValidator(claimed.validators, p.validatorId)
       case None => false
       case Some(v) => CutEnds(c, id, claimed, p, claimed.validators[v].stake, after)
  }

  /** Once the stake is cut: nothing more, the row restored, or the amount taken recorded. */
  ghost predicate CutEnds(c: Config, id: nat, claimed: Tables, p: Proposal, stake: nat, after: Tables)
    requires id < |claimed.proposals|
  {
    var slashed := Min(p.amount, stake);
    var cut := UpdateStake(claimed, c, p.validatorId, stake - slashed).0;
    || after == cut || after == Restore(cut, id)
    || after == cut.(proposals := cut.proposals[id := p.(amount := slashed)])
  }

  lemma ApproveEnds(t: Tables, c: Config, id: nat, operator: string, fault: Fault, claimed: Tables, p: Proposal)
    requires DecideProposal(t, id, Approved, operator) == (claimed, Done) && p == claimed.proposals[id]
    ensures MayEnd(t, c, id, claimed, p, Approve(t, c, id, operator, fault).0)
  {
  }

  lemma EndKeeps(t: Tables, c: Config, id: nat, claimed: Tables, p: Proposal, after: Tables)
    requires Inv(t, c) && Inv(claimed, c) && id < |claimed.proposals| == |t.proposals| && p == claimed.proposals[id]
    requires t.disputes == claimed.disputes && t.proposals[id].status == Proposed
    requires p == t.proposals[id].(status := Approved, decidedBy := p.decidedBy)
    requires MayEnd(t, c, id, claimed, p, after)
    ensures Inv(after, c)
  {
    assert ProposalOk(t.proposals[id], t.disputes, c);
    if after == Restore(claimed, id) {
      RestoreKeeps(t, claimed, c, id);
    } else if after != t && after != claimed {
      var v := FindValidator(claimed.validators, p.validatorId).value;
      CutKeeps(t, c, id, claimed, p, claimed.validators[v].stake, after);
    }
  }

  lemma CutKeeps(t: Tables, c: Config, id: nat, claimed: Tables, p: Proposal, stake: nat, after: Tables)
    requires Inv(claimed, c) && id < |claimed.proposals| == |t.proposals| && p == claimed.proposals[id]
    requires t.disputes == claimed.disputes && ProposalOk(t.proposals[id], t.disputes, c)
    requires t.proposals[id].status == Proposed
    requires p == t.proposals[id].(status := Approved, decidedBy := p.decidedBy)
    requires CutEnds(c, id, claimed, p, stake, after)
    ensures Inv(after, c)
  {
    var slashed := Min(p.amount, stake);
    UpdateStakeKeeps(claimed, c, p.validatorId, stake - slashed);
    AmountKeeps(t, c, id, UpdateStake(claimed, c, p.validatorId, stake - slashed).0, p, slashed, after);
  }

  lemma AmountKeeps(t: Tables, c: Config, id: nat, cut: Tables, p: Proposal, slashed: nat, after: Tables)
    requires Inv(cut, c) && id < |cut.proposals| && id < |t.proposals| && p == cut.proposals[id]
    requires t.disputes == cut.disputes && ProposalOk(t.proposals[id], t.disputes, c)
    requires t.proposals[id].status == Proposed && slashed <= p.amount
    requires p == t.proposals[id].(status := Approved, decidedBy := p.decidedBy)
    requires || after == cut || after == Restore(cut, id)
             || after == cut.(proposals := cut.proposals[id := p.(amount := slashed)])
    ensures Inv(after, c)
  {
    if after == Restore(cut, id) {
      RestoreKeeps(t, cut, c, id);
    } else if after != cut {
      RowReplaced(cut, c, id, p.(amount := slashed));
    }
  }

  lemma RestoreKeeps(t: Tables, t': Tables, c: Config, id: nat)
    requires id < |t.proposals| && id < |t'.proposals| && t'.disputes == t.disputes && Inv(t', c)
    requires t.proposals[id].status == Proposed && ProposalOk(t.proposals[id], t.disputes, c)
    requires t'.proposals[id] == t.proposals[id].(status := Approved, decidedBy := t'.proposals[id].decidedBy)
    ensures Inv(Restore(t', id), c)
  {
    assert t'.proposals[id].(status := Proposed, decidedBy := None) == t.proposals[id];
    RowReplaced(t', c, id, t.proposals[id]);
  }

  // ------------------------------------------------------- disputes and appeals

  lemma OpenDisputeKeeps(t: Tables, c: Config, id: Id, s: string)
    requires Inv(t, c)
    ensures Inv(OpenDispute(t, id, s).0, c)
  {
    var t' := OpenDispute(t, id, s).0;
    forall d | d in t'.disputes && t'.disputes[d].status == Appealed
      ensures exists i :: 0 <= i < |t'.appeals| && t'.appeals[i].disputeId == d && t'.appeals[i].status == Voting
    {
      assert d in t.disputes && t.disputes[d].status == Appealed;
    }
  }

  /** The first write of a resolution. */
  lemma ResolutionSaved(t: Tables, c: Config, id: Id, outcome: Option<DisputeOutcome>, now: int)
    requires Inv(t, c) && Resolve(t, c, id, outcome, now).1.Done?
    ensures var d := t.disputes[id].(status := Resolved, outcome := outcome, resolvedAt := Some(now));
            Inv(t.(disputes := t.disputes[id := d]), c)
  {
    var d := t.disputes[id].(status := Resolved, outcome := outcome, resolvedAt := Some(now));
    var saved := t.(disputes := t.disputes[id := d]);
    forall x | x in saved.disputes && saved.disputes[x].status == Appealed
      ensures exists i :: 0 <= i < |saved.appeals| && saved.appeals[i].disputeId == x
                          && saved.appeals[i].status == Voting
    {
      assert x in t.disputes && t.disputes[x].status == Appealed;
    }
  }

  lemma ResolveKeeps(t: Tables, c: Config, id: Id, outcome: Option<DisputeOutcome>, now: int)
    requires Inv(t, c)
    ensures Inv(Resolve(t, c, id, outcome, now).0, c)
  {
    if Resolve(t, c, id, outcome, now).1.Done? {
      ResolutionSaved(t, c, id, outcome, now);
      if outcome == Some(Overturned) {
        var d := t.disputes[id].(status := Resolved, outcome := outcome, resolvedAt := Some(now));
        ProposeKeeps(t.(disputes := t.disputes[id := d]), c, id, d.sessionId);
      }
    }
  }

  lemma OpenAppealKeeps(t: Tables, c: Config, id: Id, now: int)
    requires Inv(t, c)
    ensures Inv(OpenAppeal(t, c, id, now).0, c)
  {
    var (t', reply) := OpenAppeal(t, c, id, now);
    if reply.Done? {
      AppealAppended(t, c, t'.appeals[|t.appeals|]);
    } else {
      assert t' == t;
    }
  }

  lemma OpenAppealsNamed(t: Tables, c: Config, a: Appeal, disputes: map<Id, Dispute>)
    requires Inv(t, c) && a.disputeId in t.disputes && a.status == Voting
    requires disputes == t.disputes[a.disputeId := t.disputes[a.disputeId].(status := Appealed)]
    ensures var rows := t.appeals + [a];
            forall d :: d in disputes && disputes[d].status == Appealed ==>
              exists i :: 0 <= i < |rows| && rows[i].disputeId == d && rows[i].status == Voting
  {
    var rows := t.appeals + [a];
    forall d | d in disputes && disputes[d].status == Appealed
      ensures exists i :: 0 <= i < |rows| && rows[i].disputeId == d && rows[i].status == Voting
    {
      if d == a.disputeId {
        assert rows[|t.appeals|].disputeId == d;
      } else {
        var i :| 0 <= i < |t.appeals| && t.appeals[i].disputeId == d && t.appeals[i].status == Voting;
        assert rows[i] == t.appeals[i];
      }
    }
  }

  lemma AppealAppended(t: Tables, c: Config, a: Appeal)
    requires Inv(t, c) && FindAppeal(t.appeals, a.disputeId).None?
    requires a.disputeId in t.disputes && t.disputes[a.disputeId].status == Resolved
    requires t.disputes[a.disputeId].outcome == Some(a.originalOutcome)
    requires a.panel != [] && a.quorum == ReversalQuorum(|a.panel|)
    requires a.status == Voting && a.decision == None && a.decidedAt == None && a.ballots == []
    ensures Inv(t.(appeals := t.appeals + [a],
                   disputes := t.disputes[a.disputeId := t.disputes[a.disputeId].(status := Appealed)]), c)
  {
    var disputes := t.disputes[a.disputeId := t.disputes[a.disputeId].(status := Appealed)];
    var rows := t.appeals + [a];
    assert TallyOf(a).decision == None;
    OpenAppealsNamed(t, c, a, disputes);
    forall i | 0 <= i < |rows| ensures AppealOk(rows[i], disputes) {
      if i < |t.appeals| {
        assert AppealOk(t.appeals[i], t.disputes);
      }
    }
    assert AppealsOk(rows, disputes);
  }

  lemma BallotAdded(a: Appeal, cast: Cast)
    requires BallotsOk(a) && cast.validatorId in a.panel && cast.validatorId !in Voters(a)
    ensures BallotsOk(WithBallot(a, cast))
    ensures Choices(WithBallot(a, cast)) == Choices(a) + [cast.choice]
  {
    var a' := WithBallot(a, cast);
    forall i | 0 <= i < |a.ballots| ensures a.ballots[i].validatorId != cast.validatorId {
      assert Voters(a)[i] == a.ballots[i].validatorId;
    }
    DistinctWithin(Voters(a'), a'.panel);
  }

  /** The state an appeal may be in when it is being decided: everything but its open tally. */
  ghost predicate ReadyToDecide(t: Tables, c: Config, a: nat) {
    && a < |t.appeals| && t.appeals[a].status == Voting
    && ValidatorsOk(t.validators, c) && ProposalsOk(t.proposals, t.disputes, t.validators, c)
    && BallotsOk(t.appeals[a])
    && (exists before: Appeal :: AppealsOk(t.appeals[a := before], t.disputes)
          && before == t.appeals[a].(ballots := before.ballots))
  }

  /** Deciding one appeal leaves the appeal table in order. */
  lemma DecidedAppealsOk(was: seq<Appeal>, disputes: map<Id, Dispute>, a: nat, decided: Appeal, d': Dispute)
    requires AppealsOk(was, disputes) && a < |was| && was[a].status == Voting && BallotsOk(decided)
    requires decided == was[a].(ballots := decided.ballots, status := Decided, decision := decided.decision,
                                decidedAt := decided.decidedAt)
    requires decided.decision == Some(AtDeadline(Choices(decided), |decided.panel|)) && decided.decidedAt.Some?
    requires d'.status == Resolved && d'.outcome == Some(OutcomeAfter(decided.originalOutcome, decided.decision.value))
    ensures AppealsOk(was[a := decided], disputes[decided.disputeId := d'])
  {
    var rows, after := was[a := decided], disputes[decided.disputeId := d'];
    assert AppealOk(was[a], disputes);
    forall i | 0 <= i < |rows| ensures AppealOk(rows[i], after) {
      assert AppealOk(was[i], disputes);
      if i != a {
        assert was[i].disputeId != was[a].disputeId;
      }
    }
    forall x | x in after && after[x].status == Appealed
      ensures exists i :: 0 <= i < |rows| && rows[i].disputeId == x && rows[i].status == Voting
    {
      var i :| 0 <= i < |was| && was[i].disputeId == x && was[i].status == Voting;
      assert i != a;
      assert rows[i] == was[i];
    }
  }

  /** The second write of a decision: appeal and dispute agree again, and unless the verdict is
      reinstated the proposals are in order as well. */
  lemma DecisionSaved(t: Tables, c: Config, a: nat, decision: AppealDecision, now: int)
    requires ReadyToDecide(t, c, a)
    requires decision == AtDeadline(Choices(t.appeals[a]), |t.appeals[a].panel|)
    ensures t.appeals[a].disputeId in t.disputes && t.disputes[t.appeals[a].disputeId].status == Appealed
    ensures |DecideWrites(t, c, a, decision, now)| >= 2
    ensures var saved, d := DecideWrites(t, c, a, decision, now)[1], t.appeals[a].disputeId;
            && saved == t.(appeals := saved.appeals, disputes := saved.disputes)
            && d in saved.disputes && saved.disputes == t.disputes[d := saved.disputes[d]]
            && saved.disputes[d].status == Resolved && saved.disputes[d].sessionId == t.disputes[d].sessionId
            && saved.disputes[d].outcome == Some(OutcomeAfter(t.appeals[a].originalOutcome, decision))
            && AppealsOk(saved.appeals, saved.disputes)
            && (!Reinstates(t, a, decision) ==> Inv(saved, c))
  {
    var before: Appeal :|
      AppealsOk(t.appeals[a := before], t.disputes) && before == t.appeals[a].(ballots := before.ballots);
    var was := t.appeals[a := before];
    assert AppealOk(was[a], t.disputes);
    var appeal, saved := t.appeals[a], DecideWrites(t, c, a, decision, now)[1];
    var decided := appeal.(status := Decided, decision := Some(decision), decidedAt := Some(now));
    assert Choices(decided) == Choices(appeal);
    DecidedAppealsOk(was, t.disputes, a, decided, saved.disputes[appeal.disputeId]);
    assert saved.appeals == was[a := decided];
    if !Reinstates(t, a, decision) {
      OverturningKeeps(t, saved, c, appeal.disputeId);
    }
  }

  /** Reversing a resolution that overturned the verdict. */
  predicate Reinstates(t: Tables, a: nat, decision: AppealDecision)
    requires a < |t.appeals|
  {
    decision == Reversed && t.appeals[a].originalOutcome == Overturned
  }

  lemma DecideAppealKeeps(t: Tables, c: Config, a: nat, decision: AppealDecision, now: int)
    requires ReadyToDecide(t, c, a)
    requires decision == AtDeadline(Choices(t.appeals[a]), |t.appeals[a].panel|)
    ensures Inv(DecideAppeal(t, c, a, decision, now).0, c)
    ensures DecideAppeal(t, c, a, decision, now).1 == Done
  {
    DecisionSaved(t, c, a, decision, now);
    var saved, d := DecideWrites(t, c, a, decision, now)[1], t.appeals[a].disputeId;
    if Reinstates(t, a, decision) {
      ReinstatingKeeps(t, saved, c, d);
    } else if decision == Reversed {
      ProposeKeeps(saved, c, d, saved.disputes[d].sessionId);
    }
  }

  lemma OverturningKeeps(t: Tables, saved: Tables, c: Config, d: Id)
    requires ProposalsOk(t.proposals, t.disputes, t.validators, c)
    requires d in t.disputes && d in saved.disputes && saved.disputes[d].status == Resolved
    requires saved.disputes[d].outcome == Some(Overturned) || saved.disputes[d].outcome == t.disputes[d].outcome
    requires saved == t.(appeals := saved.appeals, disputes := t.disputes[d := saved.disputes[d]])
    ensures ProposalsOk(saved.proposals, saved.disputes, saved.validators, c)
  {
    forall i | 0 <= i < |saved.proposals| ensures ProposalOk(saved.proposals[i], saved.disputes, c) {
      assert ProposalOk(t.proposals[i], t.disputes, c);
    }
  }

  /** A withdrawal rejects exactly the pending rows of its dispute. */
  lemma WithdrawalLeavesNonePending(t: Tables, d: Id, operator: string)
    ensures var rows := RejectPendingForDispute(t, d, operator).proposals;
            && |rows| == |t.proposals|
            && (forall i :: 0 <= i < |rows| ==> !(rows[i].disputeId == d && rows[i].status == Proposed))
            && (forall i :: 0 <= i < |rows| && !(t.proposals[i].disputeId == d && t.proposals[i].status == Proposed) ==>
                  rows[i] == t.proposals[i])
            && (forall i :: 0 <= i < |rows| && t.proposals[i].disputeId == d && t.proposals[i].status == Proposed ==>
                  rows[i] == t.proposals[i].(status := Rejected, decidedBy := Some(operator)))
  {
  }

  lemma ReinstatingKeeps(t: Tables, saved: Tables, c: Config, d: Id)
    requires ValidatorsOk(t.validators, c) && ProposalsOk(t.proposals, t.disputes, t.validators, c)
    requires d in t.disputes && d in saved.disputes && saved.disputes[d].status == Resolved
    requires saved == t.(appeals := saved.appeals, disputes := t.disputes[d := saved.disputes[d]])
    ensures ProposalsOk(RejectPendingForDispute(saved, d, "appeal").proposals, saved.disputes, saved.validators, c)
  {
    var rows := RejectPendingForDispute(saved, d, "appeal").proposals;
    forall i | 0 <= i < |rows|
      ensures ProposalOk(rows[i], saved.disputes, c) && KnownValidator(saved.validators, rows[i].validatorId)
    {
      assert ProposalOk(t.proposals[i], t.disputes, c);
      assert KnownValidator(t.validators, t.proposals[i].validatorId);
    }
    forall i, j | 0 <= i < j < |rows|
      ensures rows[i].disputeId != rows[j].disputeId || rows[i].validatorId != rows[j].validatorId
    {
      var p, q := t.proposals[i], t.proposals[j];
      assert p.disputeId != q.disputeId || p.validatorId != q.validatorId;
    }
  }

  lemma DecidedTallyIsDeadline(votes: seq<AppealVoteChoice>, panelSize: nat)
    requires |votes| <= panelSize && TallyAppeal(votes, panelSize).decision.Some?
    ensures TallyAppeal(votes, panelSize).decision.value == AtDeadline(votes, panelSize)
  {
    EarlyDecisionStands(votes, [], panelSize);
    assert votes + [] == votes;
  }

  lemma VoteKeeps(t: Tables, c: Config, id: Id, cast: Cast)
    requires Inv(t, c)
    ensures Inv(Vote(t, c, id, cast).0, c)
  {
    var found := FindAppeal(t.appeals, id);
    if found.Some? && VoteRefusal(t, found.value, cast).None? {
      var a := found.value;
      var appeal := t.appeals[a];
      assert AppealOk(appeal, t.disputes);
      BallotAdded(appeal, cast);
      var voted := WithBallot(appeal, cast);
      var saved := t.(appeals := t.appeals[a := voted]);
      if TallyOf(voted).decision.None? {
        BallotSaved(t, c, a, voted);
      } else {
        assert saved.appeals[a := appeal] == t.appeals;
        DecidedTallyIsDeadline(Choices(voted), |voted.panel|);
        DecideAppealKeeps(saved, c, a, TallyOf(voted).decision.value, cast.now);
      }
    }
  }

  lemma BallotSaved(t: Tables, c: Config, a: nat, voted: Appeal)
    requires Inv(t, c) && a < |t.appeals| && t.appeals[a].status == Voting
    requires voted == t.appeals[a].(ballots := voted.ballots) && BallotsOk(voted) && TallyOf(voted).decision == None
    ensures Inv(t.(appeals := t.appeals[a := voted]), c)
  {
    var rows := t.appeals[a := voted];
    assert AppealOk(t.appeals[a], t.disputes);
    forall x | x in t.disputes && t.disputes[x].status == Appealed
      ensures exists i :: 0 <= i < |rows| && rows[i].disputeId == x && rows[i].status == Voting
    {
      var i :| 0 <= i < |t.appeals| && t.appeals[i].disputeId == x && t.appeals[i].status == Voting;
      assert rows[i].disputeId == x;
    }
  }

  lemma CloseKeeps(t: Tables, c: Config, id: Id, now: int)
    requires Inv(t, c)
    ensures Inv(Close(t, c, id, now).0, c)
  {
    var found := FindAppeal(t.appeals, id);
    if found.Some? && t.appeals[found.value].status == Voting {
      var a := found.value;
      assert AppealOk(t.appeals[a], t.disputes);
      assert t.appeals[a := t.appeals[a]] == t.appeals;
      assert TallyOf(t.appeals[a]).decision.None?;
      if now > t.appeals[a].votingDeadline {
        DecideAppealKeeps(t, c, a, AtDeadline(Choices(t.appeals[a]), |t.appeals[a].panel|), now);
      }
    }
  }

  // --------------------------------------------------------- interrupted calls

  predicate HasPending(t: Tables, d: Id) {
    exists p :: 0 <= p < |t.proposals| && t.proposals[p].disputeId == d && t.proposals[p].status == Proposed
  }

  /** Deciding appeal `a` is cut off after the appeal row, or after the dispute row with pending
      proposals still to be withdrawn. */
  predicate TearsDecision(t: Tables, a: nat, decision: AppealDecision, writes: nat)
    requires a < |t.appeals|
  {
    writes == 1 || (writes == 2 && Reinstates(t, a, decision) && HasPending(t, t.appeals[a].disputeId))
  }

  /** The store fails between two writes that belong together. */
  predicate Tears(t: Tables, c: Config, call: Call, writes: nat) {
    match call
    case Resolving(_, _, _) => false
    case Appealing(id, now) => writes == 1 && OpenAppeal(t, c, id, now).1.Done?
    case Balloting(id, cast) => TearsVote(t, id, cast, writes)
    case Closing(id, now) =>
      CloseWrites(t, c, id, now) != []
      && var a := FindAppeal(t.appeals, id).value;
         TearsDecision(t, a, ClosingDecision(t.appeals[a]), writes)
    case Rejecting(_, _) => false
  }

  predicate TearsVote(t: Tables, id: Id, cast: Cast, writes: nat) {
    match FindAppeal(t.appeals, id)
    case None => false
    case Some(a) =>
      && VoteRefusal(t, a, cast).None?
      && match TallyOf(WithBallot(t.appeals[a], cast)).decision
         case None => false
         case Some(decision) => writes == 1 || (writes > 1 && TearsDecision(t, a, decision, writes - 1))
  }

  predicate Torn(t: Tables, c: Config, e: Event) { e.DoInterrupted? && Tears(t, c, e.call, e.writes) }

  /** A decision cut off after `writes` writes leaves the tables in order exactly when it is not torn. */
  lemma CutDecisionKeepsExactly(t: Tables, c: Config, a: nat, decision: AppealDecision, now: int, writes: nat)
    requires ReadyToDecide(t, c, a) && 0 < writes <= |DecideWrites(t, c, a, decision, now)|
    requires decision == AtDeadline(Choices(t.appeals[a]), |t.appeals[a].panel|)
    ensures Inv(DecideWrites(t, c, a, decision, now)[writes - 1], c) <==> !TearsDecision(t, a, decision, writes)
  {
    if writes == 1 {
      CutAtAppealRow(t, c, a, decision, now);
    } else if writes == 2 {
      CutAtDisputeRow(t, c, a, decision, now);
    } else {
      CutAtProposals(t, c, a, decision, now, writes - 1);
    }
  }

  lemma CutAtProposals(t: Tables, c: Config, a: nat, decision: AppealDecision, now: int, k: nat)
    requires ReadyToDecide(t, c, a) && 2 <= k < |DecideWrites(t, c, a, decision, now)|
    requires decision == AtDeadline(Choices(t.appeals[a]), |t.appeals[a].panel|)
    ensures Inv(DecideWrites(t, c, a, decision, now)[k], c)
  {
    if Reinstates(t, a, decision) {
      Reinstated(t, c, a, decision, now);
    } else {
      CutAtRaising(t, c, a, decision, now, k);
    }
  }

  lemma CutAtAppealRow(t: Tables, c: Config, a: nat, decision: AppealDecision, now: int)
    requires ReadyToDecide(t, c, a) && decision == AtDeadline(Choices(t.appeals[a]), |t.appeals[a].panel|)
    ensures DecideWrites(t, c, a, decision, now) != [] && !Inv(DecideWrites(t, c, a, decision, now)[0], c)
  {
    DecisionSaved(t, c, a, decision, now);
    var w := DecideWrites(t, c, a, decision, now)[0];
    assert w.appeals[a].status == Decided && w.disputes[w.appeals[a].disputeId].status == Appealed;
    assert !AppealOk(w.appeals[a], w.disputes);
  }

  lemma CutAtDisputeRow(t: Tables, c: Config, a: nat, decision: AppealDecision, now: int)
    requires ReadyToDecide(t, c, a) && decision == AtDeadline(Choices(t.appeals[a]), |t.appeals[a].panel|)
    ensures var w := DecideWrites(t, c, a, decision, now);
            |w| >= 2 && (Inv(w[1], c) <==> !(Reinstates(t, a, decision) && HasPending(t, t.appeals[a].disputeId)))
  {
    DecisionSaved(t, c, a, decision, now);
    if Reinstates(t, a, decision) {
      HalfReinstated(t, DecideWrites(t, c, a, decision, now)[1], c, t.appeals[a].disputeId);
    }
  }

  lemma Reinstated(t: Tables, c: Config, a: nat, decision: AppealDecision, now: int)
    requires ReadyToDecide(t, c, a) && decision == AtDeadline(Choices(t.appeals[a]), |t.appeals[a].panel|)
    requires Reinstates(t, a, decision)
    ensures var w := DecideWrites(t, c, a, decision, now); |w| == 3 && Inv(w[2], c)
  {
    DecisionSaved(t, c, a, decision, now);
    LaterWrites(t, c, a, decision, now);
    var w := DecideWrites(t, c, a, decision, now);
    ReinstatingKeeps(t, w[1], c, t.appeals[a].disputeId);
    InvAt(w, c, 2);
  }

  lemma CutAtRaising(t: Tables, c: Config, a: nat, decision: AppealDecision, now: int, k: nat)
    requires ReadyToDecide(t, c, a) && decision == AtDeadline(Choices(t.appeals[a]), |t.appeals[a].panel|)
    requires !Reinstates(t, a, decision) && 2 <= k < |DecideWrites(t, c, a, decision, now)|
    ensures Inv(DecideWrites(t, c, a, decision, now)[k], c)
  {
    DecisionSaved(t, c, a, decision, now);
    LaterWrites(t, c, a, decision, now);
    var w, d := DecideWrites(t, c, a, decision, now), t.appeals[a].disputeId;
    RaisingAt(w, c, d, w[1].disputes[d].sessionId, k);
  }

  lemma RaisingAt(w: seq<Tables>, c: Config, d: Id, s: string, k: nat)
    requires 2 <= k < |w| && w[2..] == ProposeWrites(w[1], c, d, s) && Inv(w[1], c)
    requires d in w[1].disputes && w[1].disputes[d].status == Resolved
    requires w[1].disputes[d].outcome == Some(Overturned)
    ensures Inv(w[k], c)
  {
    CutWhileRaising(w[1], c, d, s, k - 2);
    InvAt(w, c, k);
  }

  lemma InvAt(w: seq<Tables>, c: Config, k: nat)
    requires 2 <= k < |w| && Inv(w[2..][k - 2], c)
    ensures Inv(w[k], c)
  {
  }

  /** What a decision writes after the two rows. */
  lemma LaterWrites(t: Tables, c: Config, a: nat, decision: AppealDecision, now: int)
    requires a < |t.appeals| && t.appeals[a].disputeId in t.disputes
    ensures var w, d := DecideWrites(t, c, a, decision, now), t.appeals[a].disputeId;
            && |w| >= 2 && d in w[1].disputes
            && (decision != Reversed ==> w[2..] == [])
            && (decision == Reversed && t.appeals[a].originalOutcome != Overturned ==>
                  w[2..] == ProposeWrites(w[1], c, d, w[1].disputes[d].sessionId))
            && (Reinstates(t, a, decision) ==> w[2..] == [RejectPendingForDispute(w[1], d, "appeal")])
  {
  }

  /** The proposals are being raised. */
  lemma CutWhileRaising(t: Tables, c: Config, d: Id, s: string, k: nat)
    requires Inv(t, c) && k < |ProposeWrites(t, c, d, s)|
    requires d in t.disputes && t.disputes[d].status == Resolved && t.disputes[d].outcome == Some(Overturned)
    ensures Inv(ProposeWrites(t, c, d, s)[k], c)
  {
    RaisingKeeps(t, c, d, s, k + 1);
  }

  /** The verdict is reinstated but its proposals are not withdrawn yet. */
  lemma HalfReinstated(t: Tables, saved: Tables, c: Config, d: Id)
    requires ValidatorsOk(t.validators, c) && ProposalsOk(t.proposals, t.disputes, t.validators, c)
    requires d in t.disputes && d in saved.disputes && AppealsOk(saved.appeals, saved.disputes)
    requires saved.disputes[d].status == Resolved && saved.disputes[d].outcome == Some(Stands)
    requires saved == t.(appeals := saved.appeals, disputes := t.disputes[d := saved.disputes[d]])
    ensures Inv(saved, c) <==> !HasPending(t, d)
  {
    forall i | 0 <= i < |t.proposals|
      ensures ProposalOk(t.proposals[i], saved.disputes, c) <==>
              !(t.proposals[i].disputeId == d && t.proposals[i].status == Proposed)
    {
      assert ProposalOk(t.proposals[i], t.disputes, c);
    }
  }

  lemma CutVoteKeepsExactly(t: Tables, c: Config, id: Id, cast: Cast, writes: nat)
    requires Inv(t, c) && 0 < writes <= |VoteWrites(t, c, id, cast)|
    ensures Inv(VoteWrites(t, c, id, cast)[writes - 1], c) <==> !TearsVote(t, id, cast, writes)
  {
    var a := FindAppeal(t.appeals, id).value;
    assert AppealOk(t.appeals[a], t.disputes);
    BallotAdded(t.appeals[a], cast);
    var voted := WithBallot(t.appeals[a], cast);
    match TallyOf(voted).decision
    case None => BallotSaved(t, c, a, voted);
    case Some(decision) => CutDecidingVote(t, c, id, cast, a, decision, writes);
  }

  lemma CutDecidingVote(t: Tables, c: Config, id: Id, cast: Cast, a: nat, decision: AppealDecision, writes: nat)
    requires Inv(t, c) && 0 < writes <= |VoteWrites(t, c, id, cast)| && FindAppeal(t.appeals, id) == Some(a)
    requires BallotsOk(WithBallot(t.appeals[a], cast)) && t.appeals[a].status == Voting
    requires TallyOf(WithBallot(t.appeals[a], cast)).decision == Some(decision)
    ensures Inv(VoteWrites(t, c, id, cast)[writes - 1], c) <==> !TearsVote(t, id, cast, writes)
  {
    var voted := WithBallot(t.appeals[a], cast);
    var saved := t.(appeals := t.appeals[a := voted]);
    DecidingVoteWrites(t, c, id, cast, a, decision, saved);
    if writes == 1 {
      CutAtBallot(t, c, a, voted, saved);
    } else {
      CutAfterBallot(t, c, a, voted, saved, decision, cast.now, writes - 1);
    }
  }

  /** The ballot is written first, then what the decision writes. */
  lemma DecidingVoteWrites(t: Tables, c: Config, id: Id, cast: Cast, a: nat, decision: AppealDecision, saved: Tables)
    requires FindAppeal(t.appeals, id) == Some(a) && VoteRefusal(t, a, cast).None?
    requires TallyOf(WithBallot(t.appeals[a], cast)).decision == Some(decision)
    requires saved == t.(appeals := t.appeals[a := WithBallot(t.appeals[a], cast)])
    ensures VoteWrites(t, c, id, cast) == [saved] + DecideWrites(saved, c, a, decision, cast.now)
  {
    VoteInOneRow(t, c, id, cast, a, saved);
  }

  /** A deciding ballot without the decision. */
  lemma CutAtBallot(t: Tables, c: Config, a: nat, voted: Appeal, saved: Tables)
    requires a < |t.appeals| && saved == t.(appeals := t.appeals[a := voted])
    requires voted.status == Voting && TallyOf(voted).decision.Some?
    ensures !Inv(saved, c)
  {
    assert !AppealOk(saved.appeals[a], saved.disputes);
  }

  lemma CutAfterBallot(t: Tables, c: Config, a: nat, voted: Appeal, saved: Tables, decision: AppealDecision, now: int,
                       writes: nat)
    requires Inv(t, c) && a < |t.appeals| && saved == t.(appeals := t.appeals[a := voted])
    requires voted == t.appeals[a].(ballots := voted.ballots) && voted.status == Voting && BallotsOk(voted)
    requires TallyOf(voted).decision == Some(decision) && 0 < writes <= |DecideWrites(saved, c, a, decision, now)|
    ensures Inv(DecideWrites(saved, c, a, decision, now)[writes - 1], c) <==> !TearsDecision(t, a, decision, writes)
  {
    DecidedTallyIsDeadline(Choices(voted), |voted.panel|);
    BallotIsReady(t, c, a, voted, saved);
    CutDecisionKeepsExactly(saved, c, a, decision, now, writes);
    assert TearsDecision(saved, a, decision, writes) == TearsDecision(t, a, decision, writes);
  }

  lemma BallotIsReady(t: Tables, c: Config, a: nat, voted: Appeal, saved: Tables)
    requires Inv(t, c) && a < |t.appeals| && saved == t.(appeals := t.appeals[a := voted])
    requires voted == t.appeals[a].(ballots := voted.ballots) && voted.status == Voting && BallotsOk(voted)
    ensures ReadyToDecide(saved, c, a)
  {
    var before := t.appeals[a];
    assert saved.appeals[a := before] == t.appeals && before == saved.appeals[a].(ballots := before.ballots);
  }

  lemma CutCloseKeepsExactly(t: Tables, c: Config, id: Id, now: int, writes: nat)
    requires Inv(t, c) && 0 < writes <= |CloseWrites(t, c, id, now)|
    ensures Inv(CloseWrites(t, c, id, now)[writes - 1], c) <==> !Tears(t, c, Closing(id, now), writes)
  {
    var a := FindAppeal(t.appeals, id).value;
    assert AppealOk(t.appeals[a], t.disputes);
    assert t.appeals[a := t.appeals[a]] == t.appeals;
    CutDecisionKeepsExactly(t, c, a, ClosingDecision(t.appeals[a]), now, writes);
  }

  lemma CutResolveKeeps(t: Tables, c: Config, id: Id, outcome: Option<DisputeOutcome>, now: int, writes: nat)
    requires Inv(t, c) && 0 < writes <= |ResolveWrites(t, c, id, outcome, now)|
    ensures Inv(ResolveWrites(t, c, id, outcome, now)[writes - 1], c)
  {
    ResolutionSaved(t, c, id, outcome, now);
    if writes > 1 {
      var saved := ResolveWrites(t, c, id, outcome, now)[0];
      CutWhileRaising(saved, c, id, saved.disputes[id].sessionId, writes - 2);
    }
  }

  lemma CutAppealKeepsExactly(t: Tables, c: Config, id: Id, now: int, writes: nat)
    requires Inv(t, c) && 0 < writes <= |OpenAppealWrites(t, c, id, now)|
    ensures Inv(OpenAppealWrites(t, c, id, now)[writes - 1], c) <==> writes == 2
  {
    var after := OpenAppeal(t, c, id, now).0;
    OpenAppealKeeps(t, c, id, now);
    CutAppealAt(t, c, after, OpenAppealWrites(t, c, id, now), writes);
  }

  lemma CutAppealAt(t: Tables, c: Config, after: Tables, w: seq<Tables>, writes: nat)
    requires w == [t.(appeals := after.appeals), after] && Inv(after, c) && 0 < writes <= 2
    requires |after.appeals| > |t.appeals| && after.appeals[|t.appeals|].status == Voting
    requires after.appeals[|t.appeals|].disputeId in t.disputes
    requires t.disputes[after.appeals[|t.appeals|].disputeId].status == Resolved
    ensures Inv(w[writes - 1], c) <==> writes == 2
  {
    CutAtAppealInsert(t, c, after);
  }

  /** An open appeal on a dispute that still reads `resolved`. */
  lemma CutAtAppealInsert(t: Tables, c: Config, after: Tables)
    requires |after.appeals| > |t.appeals| && after.appeals[|t.appeals|].status == Voting
    requires after.appeals[|t.appeals|].disputeId in t.disputes
    requires t.disputes[after.appeals[|t.appeals|].disputeId].status == Resolved
    ensures !Inv(t.(appeals := after.appeals), c)
  {
    assert !AppealOk(after.appeals[|t.appeals|], t.disputes);
  }

  lemma AllProposeWrites(t: Tables, c: Config, d: Id, s: string)
    ensures var w := ProposeWrites(t, c, d, s);
            ProposeForOverturnedVerdict(t, c, d, s) == if w == [] then t else w[|w| - 1]
  {
    var raised := RaisedFor(t, c, d, s);
    assert raised[..|raised|] == raised && t.proposals + [] == t.proposals;
  }

  lemma AllDecideWrites(t: Tables, c: Config, a: nat, decision: AppealDecision, now: int)
    requires a < |t.appeals|
    ensures var w := DecideWrites(t, c, a, decision, now);
            DecideAppeal(t, c, a, decision, now).0 == if w == [] then t else w[|w| - 1]
  {
    var w, d := DecideWrites(t, c, a, decision, now), t.appeals[a].disputeId;
    if w != [] {
      AllProposeWrites(w[1], c, d, w[1].disputes[d].sessionId);
    }
  }

  lemma AllVoteWrites(t: Tables, c: Config, id: Id, cast: Cast)
    ensures var w := VoteWrites(t, c, id, cast);
            Vote(t, c, id, cast).0 == if w == [] then t else w[|w| - 1]
  {
    if VoteWrites(t, c, id, cast) != [] {
      var a := FindAppeal(t.appeals, id).value;
      var voted := WithBallot(t.appeals[a], cast);
      var saved := t.(appeals := t.appeals[a := voted]);
      if TallyOf(voted).decision.Some? {
        AllDecideWrites(saved, c, a, TallyOf(voted).decision.value, cast.now);
      }
    }
  }

  lemma RefusedAppealIsNoOp(t: Tables, c: Config, id: Id, now: int)
    requires OpenAppeal(t, c, id, now).1.Refused?
    ensures OpenAppeal(t, c, id, now).0 == t
  {
  }

  /** All the writes of a call make the call. */
  lemma AllWritesAreTheCall(t: Tables, c: Config, call: Call)
    ensures var w := WritesOf(t, c, call);
            Called(t, c, call).0 == if w == [] then t else w[|w| - 1]
  {
    match call
    case Resolving(id, outcome, now) =>
      if Resolve(t, c, id, outcome, now).1.Done? {
        var saved := ResolveWrites(t, c, id, outcome, now)[0];
        AllProposeWrites(saved, c, id, saved.disputes[id].sessionId);
      }
    case Appealing(_, _) =>
      var (after, reply) := Called(t, c, call);
      if reply.Refused? {
        RefusedAppealIsNoOp(t, c, call.id, call.now);
      }
    case Balloting(id, cast) => AllVoteWrites(t, c, id, cast);
    case Closing(id, now) =>
      if CloseWrites(t, c, id, now) != [] {
        var a := FindAppeal(t.appeals, id).value;
        AllDecideWrites(t, c, a, ClosingDecision(t.appeals[a]), now);
      }
    case Rejecting(_, _) =>
  }

  lemma CallKeeps(t: Tables, c: Config, call: Call)
    requires Inv(t, c)
    ensures Inv(Called(t, c, call).0, c)
  {
    match call
    case Resolving(id, outcome, now) => ResolveKeeps(t, c, id, outcome, now);
    case Appealing(id, now) => OpenAppealKeeps(t, c, id, now);
    case Balloting(id, cast) => VoteKeeps(t, c, id, cast);
    case Closing(id, now) => CloseKeeps(t, c, id, now);
    case Rejecting(p, operator) => DecideProposalKeeps(t, c, p, Rejected, operator);
  }

  /** A call that the store cuts off after any number of its writes leaves the tables in order if and
      only if the cut is not between two writes that belong together. */
  lemma InterruptionKeepsExactly(t: Tables, c: Config, call: Call, writes: nat)
    requires Inv(t, c)
    ensures Inv(Interrupted(t, c, call, writes), c) <==> !Tears(t, c, call, writes)
  {
    var w := WritesOf(t, c, call);
    if writes == 0 || w == [] {
      NothingTorn(t, c, call, writes);
    } else if writes <= |w| {
      CutKeepsExactly(t, c, call, writes);
    } else {
      AllWritesAreTheCall(t, c, call);
      CallKeeps(t, c, call);
      LateIsWhole(t, c, call, writes);
    }
  }

  lemma NothingTorn(t: Tables, c: Config, call: Call, writes: nat)
    requires writes == 0 || WritesOf(t, c, call) == []
    ensures !Tears(t, c, call, writes)
  {
  }

  lemma CutKeepsExactly(t: Tables, c: Config, call: Call, writes: nat)
    requires Inv(t, c) && 0 < writes <= |WritesOf(t, c, call)|
    ensures Inv(WritesOf(t, c, call)[writes - 1], c) <==> !Tears(t, c, call, writes)
  {
    match call
    case Resolving(id, outcome, now) => CutResolveKeeps(t, c, id, outcome, now, writes);
    case Appealing(id, now) => CutAppealKeepsExactly(t, c, id, now, writes);
    case Balloting(id, cast) => CutVoteKeepsExactly(t, c, id, cast, writes);
    case Closing(id, now) => CutCloseKeepsExactly(t, c, id, now, writes);
    case Rejecting(p, operator) => DecideProposalKeeps(t, c, p, Rejected, operator);
  }

  /** After its last write a call cannot be torn any more. */
  lemma LateIsWhole(t: Tables, c: Config, call: Call, writes: nat)
    requires Inv(t, c) && WritesOf(t, c, call) != [] && writes > |WritesOf(t, c, call)|
    ensures !Tears(t, c, call, writes)
  {
    if call.Balloting? {
      var a := FindAppeal(t.appeals, call.id).value;
      assert AppealOk(t.appeals[a], t.disputes);
    } else if call.Closing? {
      var a := FindAppeal(t.appeals, call.id).value;
      assert AppealOk(t.appeals[a], t.disputes);
    }
  }

  /** Every call keeps the joint invariant, and so does every failure but the tearing ones. */
  lemma StepKeeps(t: Tables, c: Config, e: Event)
    requires Inv(t, c) && !Torn(t, c, e)
    ensures Inv(Step(t, c, e).0, c)
  {
    match e
    case DoRegister(id, address, stake) => RegisterKeeps(t, c, id, address, stake);
    case DoUpdateStake(id, stake) => UpdateStakeKeeps(t, c, id, stake);
    case DoExit(id) => ExitKeeps(t, c, id);
    case DoPublish(s, signatures) =>
    case DoOpen(id, s) => OpenDisputeKeeps(t, c, id, s);
    case DoCall(call) => CallKeeps(t, c, call);
    case DoInterrupted(call, writes) => InterruptionKeepsExactly(t, c, call, writes);
    case DoApprove(p, operator, fault) => ApproveKeeps(t, c, p, operator, fault);
  }

  /** No call of the run is torn. */
  ghost predicate Whole(c: Config, events: seq<Event>) {
    forall k {:trigger events[k]} :: 0 <= k < |events| ==> !Torn(Run(c, events[..k]), c, events[k])
  }

  lemma WholePrefix(c: Config, events: seq<Event>, n: nat)
    requires Whole(c, events) && n <= |events|
    ensures Whole(c, events[..n])
  {
    forall k | 0 <= k < n ensures !Torn(Run(c, events[..n][..k]), c, events[..n][k]) {
      assert events[..n][..k] == events[..k] && events[..n][k] == events[k];
    }
  }

  /** The joint invariant holds in every reachable state. */
  lemma {:induction false} ReachableInv(c: Config, events: seq<Event>)
    requires Whole(c, events)
    ensures Inv(Run(c, events), c)
  {
    if events != [] {
      var n := |events| - 1;
      WholePrefix(c, events, n);
      ReachableInv(c, events[..n]);
      assert !Torn(Run(c, events[..n]), c, events[n]);
      StepKeeps(Run(c, events[..n]), c, events[n]);
    }
  }
}
