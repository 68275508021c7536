/**
 What an overturned verdict costs its signers: who gets a proposal, and over which share of the stake
 (src/modules/slashing/slashing.service.ts).
 */
module SlashingShares {
  import opened Basics
  import opened Ordering
  import opened AppealQuorum
  import opened DisputeTables
  import opened DisputeInvariants
  import opened DisputeFrames

  /** `n` is `bps` ten-thousandths of the stake, rounded down to whole wei; a setting outside 0..10000 counts
      as the nearer end. */
  predicate IsShare(n: nat, stake: nat, bps: int) {
    if bps <= 0 then n == 0
    else if bps >= 10000 then n == stake
    else n * 10000 <= stake * bps < (n + 1) * 10000
  }

  lemma ShareIsFloor(stake: nat, bps: int)
    ensures IsShare(SlashAmount(stake, bps), stake, bps)
  {
    if 0 < bps < 10000 {
      var product := stake * bps;
      ShareAtMost(stake, bps);
      assert SlashAmount(stake, bps) == product / 10000;
    }
  }

  lemma ShareIsUnique(n: nat, n': nat, stake: nat, bps: int)
    requires IsShare(n, stake, bps) && IsShare(n', stake, bps)
    ensures n == n'
  {
  }

  // ------------------------------------------------------------ who is proposed

  ghost predicate Signed(t: Tables, s: string, v: Id) { s in t.verdicts && v in t.verdicts[s] }

  ghost predicate HasProposal(rows: seq<Proposal>, d: Id, v: Id) {
    exists p :: 0 <= p < |rows| && rows[p].disputeId == d && rows[p].validatorId == v
  }

  /** The validator is registered and has a positive share to lose. */
  ghost predicate HasShare(rows: seq<Validator>, c: Config, v: Id) {
    exists i, n: nat :: 0 <= i < |rows| && rows[i].id == v && n > 0 && IsShare(n, rows[i].stake, c.slashingFractionBps)
  }

  ghost predicate MustBeProposed(t: Tables, c: Config, d: Id, s: string, v: Id) {
    && c.slashingEnabled && Signed(t, s, v) && !HasProposal(t.proposals, d, v)
    && HasShare(t.validators, c, v)
  }

  /** A fresh pending row over the share of the stake the validator has now. */
  ghost predicate FreshRow(p: Proposal, t: Tables, c: Config, d: Id, s: string) {
    && p.disputeId == d && p.sessionId == s && p.status == Proposed && p.decidedBy == None
    && p.amount > 0 && IsShare(p.amount, p.stakeAtProposal, c.slashingFractionBps)
    && exists i :: 0 <= i < |t.validators| && t.validators[i].id == p.validatorId
                   && t.validators[i].stake == p.stakeAtProposal
  }

  lemma {:induction false} RowHasSigner(signers: seq<Validator>, already: set<Id>, d: Id, s: string, bps: int, p: nat)
    returns (i: nat)
    requires p < |ProposalsFor(signers, already, d, s, bps)|
    ensures i < |signers| && RowFor(ProposalsFor(signers, already, d, s, bps)[p], signers[i], d, s, bps)
  {
    var n := |signers| - 1;
    if p < |ProposalsFor(signers[..n], already, d, s, bps)| {
      i := RowHasSigner(signers[..n], already, d, s, bps, p);
    } else {
      i := n;
    }
  }

  lemma {:induction false} SignerHasRow(signers: seq<Validator>, already: set<Id>, d: Id, s: string, bps: int, i: nat)
    returns (p: nat)
    requires i < |signers| && signers[i].id !in already && SlashAmount(signers[i].stake, bps) > 0
    ensures p < |ProposalsFor(signers, already, d, s, bps)|
    ensures ProposalsFor(signers, already, d, s, bps)[p].validatorId == signers[i].id
  {
    var n := |signers| - 1;
    if i < n {
      p := SignerHasRow(signers[..n], already, d, s, bps, i);
    } else {
      p := |ProposalsFor(signers[..n], already, d, s, bps)|;
    }
  }

  predicate RowFor(p: Proposal, v: Validator, d: Id, s: string, bps: int) {
    && p == Proposal(v.id, d, s, v.stake, p.amount, Proposed, None)
    && p.amount == SlashAmount(v.stake, bps) > 0
  }

  /** The rows to raise are fresh, and there is one for a validator exactly when it is registered, signed the
      verdict, has no row yet and has a positive share. */
  lemma RaisedExactly(t: Tables, c: Config, d: Id, s: string)
    requires ValidatorsOk(t.validators, c)
    ensures var raised := RaisedFor(t, c, d, s);
            && (forall p :: 0 <= p < |raised| ==> FreshRow(raised[p], t, c, d, s))
            && (forall v :: HasProposal(raised, d, v) <==> MustBeProposed(t, c, d, s, v))
  {
    var raised := RaisedFor(t, c, d, s);
    forall p | 0 <= p < |raised| ensures FreshRow(raised[p], t, c, d, s) {
      var _ := SignerOfRow(t, c, d, s, p);
    }
    forall v ensures HasProposal(raised, d, v) <==> MustBeProposed(t, c, d, s, v) {
      if HasProposal(raised, d, v) {
        ProposedHadTo(t, c, d, s, v);
      }
      if MustBeProposed(t, c, d, s, v) {
        HadToIsProposed(t, c, d, s, v);
      }
    }
  }

  /** The registered signer a raised row is about. */
  lemma SignerOfRow(t: Tables, c: Config, d: Id, s: string, p: nat) returns (i: nat)
    requires p < |RaisedFor(t, c, d, s)|
    ensures s in t.verdicts && c.slashingEnabled && i < |t.validators| && t.validators[i].id in t.verdicts[s]
    ensures RowFor(RaisedFor(t, c, d, s)[p], t.validators[i], d, s, c.slashingFractionBps)
    ensures FreshRow(RaisedFor(t, c, d, s)[p], t, c, d, s)
  {
    var signers, raised := Filter(t.validators, SignedVerdict(t.verdicts[s])), RaisedFor(t, c, d, s);
    var k := RowHasSigner(signers, AlreadyProposed(t.proposals, d), d, s, c.slashingFractionBps, p);
    assert signers[k] in signers;
    i :| 0 <= i < |t.validators| && t.validators[i] == signers[k];
    ShareIsFloor(t.validators[i].stake, c.slashingFractionBps);
  }

  lemma ProposedHadTo(t: Tables, c: Config, d: Id, s: string, v: Id)
    requires ValidatorsOk(t.validators, c) && HasProposal(RaisedFor(t, c, d, s), d, v)
    ensures MustBeProposed(t, c, d, s, v)
  {
    var raised := RaisedFor(t, c, d, s);
    var p :| 0 <= p < |raised| && raised[p].disputeId == d && raised[p].validatorId == v;
    var i := SignerOfRow(t, c, d, s, p);
    RaisedRows(t, c, d, s);
    assert v !in AlreadyProposed(t.proposals, d);
    var n := raised[p].amount;
    assert t.validators[i].id == v && n > 0 && IsShare(n, t.validators[i].stake, c.slashingFractionBps);
  }

  lemma HadToIsProposed(t: Tables, c: Config, d: Id, s: string, v: Id)
    requires MustBeProposed(t, c, d, s, v)
    ensures HasProposal(RaisedFor(t, c, d, s), d, v)
  {
    var bps, already := c.slashingFractionBps, AlreadyProposed(t.proposals, d);
    var i, n: nat :| 0 <= i < |t.validators| && t.validators[i].id == v && n > 0
                     && IsShare(n, t.validators[i].stake, bps);
    ShareIsFloor(t.validators[i].stake, bps);
    ShareIsUnique(n, SlashAmount(t.validators[i].stake, bps), t.validators[i].stake, bps);
    var signers := Filter(t.validators, SignedVerdict(t.verdicts[s]));
    assert t.validators[i] in signers;
    var k :| 0 <= k < |signers| && signers[k] == t.validators[i];
    var p := SignerHasRow(signers, already, d, s, bps, k);
    var j := RowHasSigner(signers, already, d, s, bps, p);
    assert RaisedFor(t, c, d, s)[p].disputeId == d;
  }

  // ------------------------------------------------------- every call, every run

  /** The call added a row for `v` on dispute `d`. */
  ghost predicate Adds(t: Tables, t': Tables, d: Id, v: Id) {
    |t.proposals| <= |t'.proposals| && HasProposal(t'.proposals[|t.proposals|..], d, v)
  }

  /** The call made the outcome of `d` `overturned`. */
  predicate Overturns(t: Tables, t': Tables, d: Id) {
    && d in t.disputes && d in t'.disputes
    && t'.disputes[d].outcome == Some(Overturned) && t.disputes[d].outcome != Some(Overturned)
  }

  /** What a call adds for dispute `d`: a fresh row for each validator that must be proposed, if it overturned
      `d`, and nothing if it did not. */
  ghost predicate AddsAsItMust(t: Tables, t': Tables, c: Config, d: Id) {
    && |t.proposals| <= |t'.proposals|
    && (forall p :: |t.proposals| <= p < |t'.proposals| && t'.proposals[p].disputeId == d ==>
          d in t.disputes && FreshRow(t'.proposals[p], t, c, d, t.disputes[d].sessionId))
    && (forall v :: Adds(t, t', d, v) <==>
          Overturns(t, t', d) && MustBeProposed(t, c, d, t.disputes[d].sessionId, v))
  }

  /** All the rows it adds are about `d`. */
  ghost predicate AddsOnly(t: Tables, t': Tables, d: Id) {
    forall p :: |t.proposals| <= p < |t'.proposals| ==> t'.proposals[p].disputeId == d
  }

  /** Raising rows on `saved`, which has the same proposals, validators and verdicts as `t`. */
  lemma RaisingAdds(t: Tables, saved: Tables, c: Config, d: Id, s: string)
    requires ValidatorsOk(t.validators, c) && d in t.disputes && t.disputes[d].sessionId == s
    requires saved.proposals == t.proposals && saved.validators == t.validators && saved.verdicts == t.verdicts
    requires Overturns(t, saved, d)
    ensures AddsAsItMust(t, ProposeForOverturnedVerdict(saved, c, d, s), c, d)
    ensures AddsOnly(t, ProposeForOverturnedVerdict(saved, c, d, s), d)
  {
    RaisedExactly(t, c, d, s);
    var t' := ProposeForOverturnedVerdict(saved, c, d, s);
    var raised := RaisedFor(t, c, d, s);
    assert RaisedFor(saved, c, d, s) == raised;
    assert t'.proposals[|t.proposals|..] == raised;
    forall p | |t.proposals| <= p < |t'.proposals| ensures FreshRow(t'.proposals[p], t, c, d, s) {
      assert t'.proposals[p] == raised[p - |t.proposals|];
    }
  }

  lemma NothingAdded(t: Tables, t': Tables, c: Config, d: Id)
    requires |t'.proposals| == |t.proposals| && !Overturns(t, t', d)
    ensures AddsAsItMust(t, t', c, d) && AddsOnly(t, t', d)
  {
  }

  lemma ResolveAdds(t: Tables, c: Config, id: Id, outcome: Option<DisputeOutcome>, now: int)
    requires Inv(t, c)
    ensures AddsAsItMust(t, Resolve(t, c, id, outcome, now).0, c, id)
    ensures AddsOnly(t, Resolve(t, c, id, outcome, now).0, id)
  {
    var (t', reply) := Resolve(t, c, id, outcome, now);
    if reply.Done? {
      var d := t.disputes[id].(status := Resolved, outcome := outcome, resolvedAt := Some(now));
      var saved := t.(disputes := t.disputes[id := d]);
      ResolutionInOneRow(t, c, id, outcome, now, saved);
      if outcome == Some(Overturned) {
        RaisingAdds(t, saved, c, id, d.sessionId);
      } else {
        NothingAdded(t, t', c, id);
      }
    } else {
      NothingAdded(t, t', c, id);
    }
  }

  lemma DecideAdds(t: Tables, saved: Tables, c: Config, a: nat, decision: AppealDecision, now: int)
    requires ValidatorsOk(t.validators, c) && a < |saved.appeals| && saved == t.(appeals := saved.appeals)
    requires var d := saved.appeals[a].disputeId;
             d in t.disputes && t.disputes[d].outcome == Some(saved.appeals[a].originalOutcome)
    ensures AddsAsItMust(t, DecideAppeal(saved, c, a, decision, now).0, c, saved.appeals[a].disputeId)
    ensures AddsOnly(t, DecideAppeal(saved, c, a, decision, now).0, saved.appeals[a].disputeId)
  {
    var appeal, d := saved.appeals[a], t.disputes[saved.appeals[a].disputeId];
    var decided := appeal.(status := Decided, decision := Some(decision), decidedAt := Some(now));
    var outcome := if decision == Reversed then Some(Flip(appeal.originalOutcome)) else d.outcome;
    var two := saved.(appeals := saved.appeals[a := decided],
                      disputes := t.disputes[appeal.disputeId := d.(status := Resolved, outcome := outcome)]);
    DecisionInTwoRows(saved, c, a, decision, now, two);
    if decision == Reversed && outcome == Some(Overturned) {
      RaisingAdds(t, two, c, appeal.disputeId, d.sessionId);
    } else {
      NothingAdded(t, DecideAppeal(saved, c, a, decision, now).0, c, appeal.disputeId);
    }
  }

  lemma VoteAdds(t: Tables, c: Config, id: Id, cast: Cast)
    requires Inv(t, c)
    ensures AddsAsItMust(t, Vote(t, c, id, cast).0, c, id)
    ensures AddsOnly(t, Vote(t, c, id, cast).0, id)
  {
    var found, t' := FindAppeal(t.appeals, id), Vote(t, c, id, cast).0;
    if found.Some? && VoteRefusal(t, found.value, cast).None? {
      var a := found.value;
      assert AppealOk(t.appeals[a], t.disputes);
      var voted := WithBallot(t.appeals[a], cast);
      var saved := t.(appeals := t.appeals[a := voted]);
      VoteInOneRow(t, c, id, cast, a, saved);
      if TallyOf(voted).decision.Some? {
        DecideAdds(t, saved, c, a, TallyOf(voted).decision.value, cast.now);
      } else {
        NothingAdded(t, t', c, id);
      }
    } else {
      assert t' == t;
      NothingAdded(t, t', c, id);
    }
  }

  lemma CloseAdds(t: Tables, c: Config, id: Id, now: int)
    requires Inv(t, c)
    ensures AddsAsItMust(t, Close(t, c, id, now).0, c, id)
    ensures AddsOnly(t, Close(t, c, id, now).0, id)
  {
    var found, t' := FindAppeal(t.appeals, id), Close(t, c, id, now).0;
    if found.Some? && CloseWrites(t, c, id, now) != [] {
      assert AppealOk(t.appeals[found.value], t.disputes);
      DecideAdds(t, t, c, found.value, ClosingDecision(t.appeals[found.value]), now);
    } else {
      AllWritesAreTheCall(t, c, Closing(id, now));
      NothingAdded(t, t', c, id);
    }
  }

  lemma AppealAdds(t: Tables, c: Config, id: Id, now: int)
    ensures AddsAsItMust(t, OpenAppeal(t, c, id, now).0, c, id)
    ensures AddsOnly(t, OpenAppeal(t, c, id, now).0, id)
  {
    OpenAppealShape(t, c, id, now);
    NothingAdded(t, OpenAppeal(t, c, id, now).0, c, id);
  }

  lemma RejectAdds(t: Tables, c: Config, p: nat, operator: string, d: Id)
    ensures AddsAsItMust(t, Reject(t, p, operator).0, c, d)
    ensures AddsOnly(t, Reject(t, p, operator).0, d)
  {
    NothingAdded(t, Reject(t, p, operator).0, c, d);
  }

  /** No rows for another dispute, and another dispute is not overturned. */
  lemma OthersAdded(t: Tables, t': Tables, c: Config, x: Id, d: Id)
    requires AddsOnly(t, t', x) && Within(t, t', x) && d != x
    ensures AddsAsItMust(t, t', c, d)
  {
  }

  lemma OwnAdded(t: Tables, c: Config, call: Call)
    requires Inv(t, c)
    ensures AddsAsItMust(t, Called(t, c, call).0, c, DisputeOf(call))
    ensures AddsOnly(t, Called(t, c, call).0, DisputeOf(call))
  {
    match call
    case Resolving(id, outcome, now) => ResolveAdds(t, c, id, outcome, now);
    case Appealing(id, now) => AppealAdds(t, c, id, now);
    case Balloting(id, cast) => VoteAdds(t, c, id, cast);
    case Closing(id, now) => CloseAdds(t, c, id, now);
    case Rejecting(p, operator) => RejectAdds(t, c, p, operator, "");
  }

  /** Whether a resolution overturns the verdict or an appeal reverses one: in the call that makes a dispute's
      outcome `overturned`, and in no other, a validator gets a proposal if and only if slashing is on, it signed
      the verdict, is registered, has no row for the dispute yet and has a positive share to lose. The row holds
      that share of its stake, rounded down. */
  lemma OverturningRaisesExactly(t: Tables, c: Config, call: Call, d: Id)
    requires Inv(t, c)
    ensures AddsAsItMust(t, Called(t, c, call).0, c, d)
  {
    OwnAdded(t, c, call);
    if d != DisputeOf(call) {
      CallFrame(t, c, call, 0);
      OthersAdded(t, Called(t, c, call).0, c, DisputeOf(call), d);
    }
  }

  /** In every reachable state a pending proposal holds the share of the stake it was raised on, and no
      proposal takes more. */
  lemma ReachableShares(c: Config, events: seq<Event>, p: nat)
    requires Whole(c, events) && p < |Run(c, events).proposals|
    ensures var row := Run(c, events).proposals[p];
            && (row.status == Proposed ==>
                  row.amount > 0 && IsShare(row.amount, row.stakeAtProposal, c.slashingFractionBps))
            && exists n: nat :: row.amount <= n && IsShare(n, row.stakeAtProposal, c.slashingFractionBps)
  {
    ReachableInv(c, events);
    ShareBounds(Run(c, events), c, p);
  }

  lemma ShareBounds(t: Tables, c: Config, p: nat)
    requires Inv(t, c) && p < |t.proposals|
    ensures var row := t.proposals[p];
            && (row.status == Proposed ==>
                  row.amount > 0 && IsShare(row.amount, row.stakeAtProposal, c.slashingFractionBps))
            && exists n: nat :: row.amount <= n && IsShare(n, row.stakeAtProposal, c.slashingFractionBps)
  {
    var row := t.proposals[p];
    assert ProposalOk(row, t.disputes, c);
    ShareIsFloor(row.stakeAtProposal, c.slashingFractionBps);
    var n := SlashAmount(row.stakeAtProposal, c.slashingFractionBps);
    assert row.amount <= n && IsShare(n, row.stakeAtProposal, c.slashingFractionBps);
  }
}
