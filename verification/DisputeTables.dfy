/**
 Disputes, appeals, slashing proposals and validator stakes as four tables, and what one
 service call does to them (src/modules/disputes/disputes.service.ts,
 dispute-appeals.service.ts, src/modules/slashing/slashing.service.ts,
 src/modules/validators/validators.service.ts).

 Each function here is the specification of the method of the same name in DisputeServices.
 */
module DisputeTables {
  import opened Basics
  import opened Ordering
  import opened AppealQuorum
  import opened StakingTiers

  datatype DisputeStatus = Open | Escalated | Resolved | Appealed

  /** What a resolution means for the verdict: it stands, or it falls. */
  datatype DisputeOutcome = Stands | Overturned

  datatype Dispute = Dispute(sessionId: string, status: DisputeStatus, outcome: Option<DisputeOutcome>,
                             resolvedAt: Option<int>)

  datatype AppealStatus = Voting | Decided

  datatype Ballot = Ballot(validatorId: Id, choice: AppealVoteChoice)

  /** An appeal row with the vote rows that refer to it, in the order they were cast. */
  datatype Appeal = Appeal(disputeId: Id, originalOutcome: DisputeOutcome, panel: seq<Id>, quorum: nat,
                           status: AppealStatus, decision: Option<AppealDecision>, votingDeadline: int,
                           decidedAt: Option<int>, ballots: seq<Ballot>)

  datatype ProposalStatus = Proposed | Approved | Rejected

  datatype Proposal = Proposal(validatorId: Id, disputeId: Id, sessionId: string, stakeAtProposal: nat, amount: nat,
                               status: ProposalStatus, decidedBy: Option<string>)

  datatype Validator = Validator(id: Id, address: string, stake: nat, tier: StakingTier, isActive: bool)

  /** Appeal and proposal rows are named by their place in the table. */
  datatype Tables = Tables(disputes: map<Id, Dispute>, appeals: seq<Appeal>, proposals: seq<Proposal>,
                           validators: seq<Validator>, verdicts: map<string, seq<Id>>)

  datatype Config = Config(minStakeWei: int, slashingEnabled: bool, slashingFractionBps: int, appealWindowMs: int,
                           appealVotingMs: int, panelMultiplier: Number, draw: Draw)

  datatype Error =
    | NotFound | DuplicateKey | AlreadyResolved | UnderAppeal | AlreadyAppealed | NotResolved | NoOutcome
    | WindowClosed | TooFewValidators | AlreadyDecided | VotingClosed | VotingOpen | NotOnPanel
    | BadSignature | WrongSigner | AlreadyVoted | NotPending | StoreFailed

  datatype Reply = Done | Refused(error: Error)

  const BASELINE_COMMITTEE_SIZE := 3

  // ------------------------------------------------------------------ lookups

  function FindValidator(rows: seq<Validator>, id: Id): (r: Option<nat>)
    ensures r.Some? ==> r.value < |rows| && rows[r.value].id == id
    ensures r.None? ==> forall i :: 0 <= i < |rows| ==> rows[i].id != id
  {
    FindFirst(rows, (v: Validator) => v.id == id)
  }

  function FindAppeal(rows: seq<Appeal>, disputeId: Id): (r: Option<nat>)
    ensures r.Some? ==> r.value < |rows| && rows[r.value].disputeId == disputeId
    ensures r.None? ==> forall i :: 0 <= i < |rows| ==> rows[i].disputeId != disputeId
  {
    FindFirst(rows, (a: Appeal) => a.disputeId == disputeId)
  }

  function Voters(a: Appeal): (r: seq<Id>)
    ensures |r| == |a.ballots|
  {
    seq(|a.ballots|, i requires 0 <= i < |a.ballots| => a.ballots[i].validatorId)
  }

  function Choices(a: Appeal): (r: seq<AppealVoteChoice>)
    ensures |r| == |a.ballots|
  {
    seq(|a.ballots|, i requires 0 <= i < |a.ballots| => a.ballots[i].choice)
  }

  function TallyOf(a: Appeal): AppealTally { TallyAppeal(Choices(a), |a.panel|) }

  function StakedRows(rows: seq<Validator>): (r: seq<StakedRow>)
    ensures |r| == |rows|
  {
    seq(|rows|, i requires 0 <= i < |rows| => StakedRow(rows[i].id, rows[i].stake, rows[i].isActive))
  }

  // --------------------------------------------------------------- validators

  function Register(t: Tables, c: Config, id: Id, address: string, stake: nat): (Tables, Reply) {
    if exists i :: 0 <= i < |t.validators| && (t.validators[i].id == id || t.validators[i].address == address) then
      (t, Refused(DuplicateKey))
    else
      (t.(validators := t.validators + [Validator(id, address, stake, TierOf(stake, c.minStakeWei).tier, true)]), Done)
  }

  function UpdateStake(t: Tables, c: Config, id: Id, stake: nat): (Tables, Reply) {
    match FindValidator(t.validators, id)
    case None => (t, Refused(NotFound))
    case Some(v) =>
      var row := t.validators[v].(stake := stake, tier := TierOf(stake, c.minStakeWei).tier);
      (t.(validators := t.validators[v := row]), Done)
  }

  function Exit(t: Tables, id: Id): (Tables, Reply) {
    match FindValidator(t.validators, id)
    case None => (t, Refused(NotFound))
    case Some(v) => (t.(validators := t.validators[v := t.validators[v].(isActive := false)]), Done)
  }

  /** A verdict arrives for a session; one per session. */
  function PublishVerdict(t: Tables, sessionId: string, signatures: seq<Id>): (Tables, Reply) {
    if sessionId in t.verdicts then (t, Refused(DuplicateKey))
    else (t.(verdicts := t.verdicts[sessionId := signatures]), Done)
  }

  // ----------------------------------------------------------------- slashing

  function SlashAmount(stake: nat, fractionBps: int): (amount: nat)
    ensures amount <= stake
  {
    var bps := Max(0, Min(10000, fractionBps));
    ShareAtMost(stake, bps);
    stake * bps / 10000
  }

  lemma ShareAtMost(stake: nat, bps: nat)
    requires bps <= 10000
    ensures 0 <= stake * bps <= stake * 10000
  {
    assert 0 <= stake * (10000 - bps) == stake * 10000 - stake * bps;
  }

  function SignedVerdict(signatures: seq<Id>): Validator -> bool { (v: Validator) => v.id in signatures }

  /** Rows raised for the signers, in order, leaving out those already proposed or with nothing to take. */
  function ProposalsFor(signers: seq<Validator>, already: set<Id>, disputeId: Id, sessionId: string, bps: int)
    : seq<Proposal>
  {
    if signers == [] then []
    else
      var last := signers[|signers| - 1];
      var amount := SlashAmount(last.stake, bps);
      ProposalsFor(signers[..|signers| - 1], already, disputeId, sessionId, bps)
      + if last.id in already || amount == 0 then []
        else [Proposal(last.id, disputeId, sessionId, last.stake, amount, Proposed, None)]
  }

  lemma ProposalsForNext(signers: seq<Validator>, i: nat, already: set<Id>, disputeId: Id, sessionId: string, bps: int)
    requires i < |signers|
    ensures ProposalsFor(signers[..i + 1], already, disputeId, sessionId, bps)
         == ProposalsFor(signers[..i], already, disputeId, sessionId, bps)
            + if signers[i].id in already || SlashAmount(signers[i].stake, bps) == 0 then []
              else [Proposal(signers[i].id, disputeId, sessionId, signers[i].stake, SlashAmount(signers[i].stake, bps),
                             Proposed, None)]
  {
    assert signers[..i + 1][..i] == signers[..i];
  }

  function AlreadyProposed(rows: seq<Proposal>, disputeId: Id): set<Id> {
    set i | 0 <= i < |rows| && rows[i].disputeId == disputeId :: rows[i].validatorId
  }

  /** The rows an overturned verdict raises. */
  function RaisedFor(t: Tables, c: Config, disputeId: Id, sessionId: string): seq<Proposal> {
    if sessionId !in t.verdicts || !c.slashingEnabled then []
    else
      var signers := Filter(t.validators, SignedVerdict(t.verdicts[sessionId]));
      ProposalsFor(signers, AlreadyProposed(t.proposals, disputeId), disputeId, sessionId, c.slashingFractionBps)
  }

  function ProposeForOverturnedVerdict(t: Tables, c: Config, disputeId: Id, sessionId: string): Tables {
    t.(proposals := t.proposals + RaisedFor(t, c, disputeId, sessionId))
  }

  /** How many of the first `n` rows are pending proposals for a dispute. */
  function PendingAmong(rows: seq<Proposal>, n: nat, disputeId: Id): nat
    requires n <= |rows|
  {
    if n == 0 then 0
    else
      PendingAmong(rows, n - 1, disputeId)
      + if rows[n - 1].disputeId == disputeId && rows[n - 1].status == Proposed then 1 else 0
  }

  function Withdrawn(p: Proposal, disputeId: Id, decidedBy: string): Proposal {
    if p.disputeId == disputeId && p.status == Proposed then p.(status := Rejected, decidedBy := Some(decidedBy)) else p
  }

  function RejectPendingForDispute(t: Tables, disputeId: Id, decidedBy: string): Tables {
    t.(proposals := seq(|t.proposals|, i requires 0 <= i < |t.proposals| =>
                          Withdrawn(t.proposals[i], disputeId, decidedBy)))
  }

  /** Conditional update out of `proposed`. */
  function DecideProposal(t: Tables, id: nat, status: ProposalStatus, decidedBy: string): (Tables, Reply) {
    if id >= |t.proposals| then (t, Refused(NotFound))
    else if t.proposals[id].status != Proposed then (t, Refused(NotPending))
    else (t.(proposals := t.proposals[id := t.proposals[id].(status := status, decidedBy := Some(decidedBy))]), Done)
  }

  function Reject(t: Tables, id: nat, decidedBy: string): (Tables, Reply) {
    DecideProposal(t, id, Rejected, decidedBy)
  }

  /** Where the store fails during an approval, if it does. A store call that fails has no effect itself.
      The conditional update and the read after it are outside the try block, so nothing is put back; a
      later failure runs the catch block, whose own update may fail as well. */
  datatype Fault =
    | NoFault
    | AtUpdate
    | AtReread
    | BeforeStakeWrite(restoreFails: bool)
    | AtProposalSave(restoreFails: bool)

  function Restore(t: Tables, id: nat): Tables
    requires id < |t.proposals|
  {
    t.(proposals := t.proposals[id := t.proposals[id].(status := Proposed, decidedBy := None)])
  }

  predicate RestoreFails(fault: Fault) { (fault.BeforeStakeWrite? || fault.AtProposalSave?) && fault.restoreFails }

  /** The catch block. */
  function Caught(t: Tables, id: nat, fault: Fault): Tables
    requires id < |t.proposals|
  {
    if RestoreFails(fault) then t else Restore(t, id)
  }

  /** The decision with the store calls that can fail in it. */
  function DecideProposalUnder(t: Tables, id: nat, status: ProposalStatus, decidedBy: string, fault: Fault)
    : (Tables, Reply)
  {
    if fault == AtUpdate then (t, Refused(StoreFailed))
    else
      var (claimed, reply) := DecideProposal(t, id, status, decidedBy);
      if reply.Done? && fault == AtReread then (claimed, Refused(StoreFailed)) else (claimed, reply)
  }

  function Approve(t: Tables, c: Config, id: nat, decidedBy: string, fault: Fault): (Tables, Reply) {
    var (claimed, reply) := DecideProposalUnder(t, id, Approved, decidedBy, fault);
    if reply.Refused? then (claimed, reply)
    else
      var p := claimed.proposals[id];
      match FindValidator(claimed.validators, p.validatorId)
      case None => (Caught(claimed, id, fault), Refused(NotFound))
      case Some(v) =>
        if fault.BeforeStakeWrite? then (Caught(claimed, id, fault), Refused(StoreFailed))
        else
          var slashed := Min(p.amount, claimed.validators[v].stake);
          var (cut, _) := UpdateStake(claimed, c, p.validatorId, claimed.validators[v].stake - slashed);
          if fault.AtProposalSave? then (Caught(cut, id, fault), Refused(StoreFailed))
          else (cut.(proposals := cut.proposals[id := p.(amount := slashed)]), Done)
  }

  // ----------------------------------------------------------------- disputes

  function OpenDispute(t: Tables, id: Id, sessionId: string): (Tables, Reply) {
    if id in t.disputes then (t, Refused(DuplicateKey))
    else (t.(disputes := t.disputes[id := Dispute(sessionId, Open, None, None)]), Done)
  }

  function Resolve(t: Tables, c: Config, id: Id, outcome: Option<DisputeOutcome>, now: int): (Tables, Reply) {
    if id !in t.disputes then (t, Refused(NotFound))
    else if t.disputes[id].status == Resolved then (t, Refused(AlreadyResolved))
    else if t.disputes[id].status == Appealed then (t, Refused(UnderAppeal))
    else
      var d := t.disputes[id].(status := Resolved, outcome := outcome, resolvedAt := Some(now));
      var saved := t.(disputes := t.disputes[id := d]);
      (if outcome == Some(Overturned) then ProposeForOverturnedVerdict(saved, c, id, d.sessionId) else saved, Done)
  }

  // ------------------------------------------------------------------ appeals

  function Signers(t: Tables, sessionId: string): set<Id> {
    if sessionId in t.verdicts then set i | 0 <= i < |t.verdicts[sessionId]| :: t.verdicts[sessionId][i] else {}
  }

  function CommitteeSize(t: Tables, sessionId: string): nat {
    Max(|Signers(t, sessionId)|, BASELINE_COMMITTEE_SIZE)
  }

  function DrawPanel(t: Tables, c: Config, disputeId: Id, sessionId: string): seq<Id> {
    var candidates := Filter(FindEligible(StakedRows(t.validators), c.minStakeWei), AllowedBy(Signers(t, sessionId)));
    var size := AppealPanelSize(CommitteeSize(t, sessionId), c.panelMultiplier);
    SelectWeighted(candidates, size, "appeal:" + disputeId, c.draw)
  }

  /** Why a dispute cannot be appealed now, before looking at the panel. */
  function AppealRefusal(t: Tables, c: Config, disputeId: Id, now: int): Option<Error> {
    if disputeId !in t.disputes then Some(NotFound)
    else if FindAppeal(t.appeals, disputeId).Some? then Some(AlreadyAppealed)
    else
      var d := t.disputes[disputeId];
      if d.status != Resolved then Some(NotResolved)
      else if d.outcome.None? then Some(NoOutcome)
      else if d.resolvedAt.Some? && now > d.resolvedAt.value + c.appealWindowMs then Some(WindowClosed)
      else None
  }

  /** Opening an appeal before a panel that has been drawn. */
  function OpenAppealWith(t: Tables, c: Config, disputeId: Id, panel: seq<Id>, committeeSize: nat, now: int)
    : (Tables, Reply)
    requires disputeId in t.disputes && t.disputes[disputeId].outcome.Some?
  {
    if |panel| <= committeeSize then (t, Refused(TooFewValidators))
    else
      var d := t.disputes[disputeId];
      var a := Appeal(disputeId, d.outcome.value, panel, ReversalQuorum(|panel|), Voting, None,
                      now + c.appealVotingMs, None, []);
      (t.(appeals := t.appeals + [a], disputes := t.disputes[disputeId := d.(status := Appealed)]), Done)
  }

  function OpenAppeal(t: Tables, c: Config, disputeId: Id, now: int): (Tables, Reply) {
    match AppealRefusal(t, c, disputeId, now)
    case Some(error) => (t, Refused(error))
    case None =>
      var s := t.disputes[disputeId].sessionId;
      OpenAppealWith(t, c, disputeId, DrawPanel(t, c, disputeId, s), CommitteeSize(t, s), now)
  }

  function Flip(o: DisputeOutcome): DisputeOutcome {
    if o == Overturned then Stands else Overturned
  }

  /** Outcome of the dispute once its appeal is decided. */
  function OutcomeAfter(original: DisputeOutcome, decision: AppealDecision): DisputeOutcome {
    if decision == Reversed then Flip(original) else original
  }

  function DecideAppeal(t: Tables, c: Config, a: nat, decision: AppealDecision, now: int): (Tables, Reply)
    requires a < |t.appeals|
  {
    var appeal := t.appeals[a];
    if appeal.disputeId !in t.disputes then (t, Refused(NotFound))
    else
      var decided := appeal.(status := Decided, decision := Some(decision), decidedAt := Some(now));
      var d := t.disputes[appeal.disputeId];
      var d' := d.(status := Resolved,
                   outcome := if decision == Reversed then Some(Flip(appeal.originalOutcome)) else d.outcome);
      var saved := t.(appeals := t.appeals[a := decided], disputes := t.disputes[appeal.disputeId := d']);
      var after :=
        if decision != Reversed then saved
        else if d'.outcome == Some(Overturned) then
          ProposeForOverturnedVerdict(saved, c, appeal.disputeId, d'.sessionId)
        else RejectPendingForDispute(saved, appeal.disputeId, "appeal");
      (after, Done)
  }

  /** The address a vote signature recovers to; None when it is not a signature at all. */
  type Recovered = Option<string>

  datatype Cast = Cast(validatorId: Id, choice: AppealVoteChoice, signer: Recovered, now: int)

  /** Why a vote on appeal `a` is turned away, if it is. */
  function VoteRefusal(t: Tables, a: nat, cast: Cast): Option<Error>
    requires a < |t.appeals|
  {
    var appeal := t.appeals[a];
    var v := FindValidator(t.validators, cast.validatorId);
    if appeal.status != Voting then Some(AlreadyDecided)
    else if cast.now > appeal.votingDeadline then Some(VotingClosed)
    else if cast.validatorId !in appeal.panel then Some(NotOnPanel)
    else if v.None? then Some(NotFound)
    else if cast.signer.None? then Some(BadSignature)
    else if cast.signer.value != t.validators[v.value].address then Some(WrongSigner)
    else if cast.validatorId in Voters(appeal) then Some(AlreadyVoted)
    else None
  }

  function WithBallot(appeal: Appeal, cast: Cast): Appeal {
    appeal.(ballots := appeal.ballots + [Ballot(cast.validatorId, cast.choice)])
  }

  function Vote(t: Tables, c: Config, disputeId: Id, cast: Cast): (Tables, Reply) {
    match FindAppeal(t.appeals, disputeId)
    case None => (t, Refused(NotFound))
    case Some(a) =>
      match VoteRefusal(t, a, cast)
      case Some(error) => (t, Refused(error))
      case None =>
        var voted := WithBallot(t.appeals[a], cast);
        var saved := t.(appeals := t.appeals[a := voted]);
        match TallyOf(voted).decision
        case None => (saved, Done)
        case Some(decision) => DecideAppeal(saved, c, a, decision, cast.now)
  }

  /** What closing an appeal decides, once it may be closed. */
  function ClosingDecision(appeal: Appeal): AppealDecision {
    var tally := TallyOf(appeal);
    if tally.decision.Some? then tally.decision.value else DecisionAtDeadline(tally)
  }

  function Close(t: Tables, c: Config, disputeId: Id, now: int): (Tables, Reply) {
    match FindAppeal(t.appeals, disputeId)
    case None => (t, Refused(NotFound))
    case Some(a) =>
      var appeal := t.appeals[a];
      if appeal.status == Decided then (t, Done)
      else if TallyOf(appeal).decision.None? && now <= appeal.votingDeadline then (t, Refused(VotingOpen))
      else DecideAppeal(t, c, a, ClosingDecision(appeal), now)
  }

  // ------------------------------------------------------------ single writes

  /** A call that writes more than once and can be cut short by the store. */
  datatype Call =
    | Resolving(id: Id, outcome: Option<DisputeOutcome>, now: int)
    | Appealing(id: Id, now: int)
    | Balloting(id: Id, cast: Cast)
    | Closing(id: Id, now: int)
    | Rejecting(proposal: nat, decidedBy: string)

  /** The tables after each of these rows is appended. */
  function Appending(t: Tables, rows: seq<Proposal>): seq<Tables> {
    seq(|rows|, k requires 0 <= k < |rows| => t.(proposals := t.proposals + rows[..k + 1]))
  }

  lemma AppendingNext(t: Tables, rows: seq<Proposal>, p: Proposal)
    ensures Appending(t, rows + [p]) == Appending(t, rows) + [t.(proposals := t.proposals + rows + [p])]
  {
    var all := rows + [p];
    forall k {:trigger rows[..k + 1]} | 0 <= k < |rows| ensures all[..k + 1] == rows[..k + 1] {
    }
    assert all[..|rows| + 1] == all && t.proposals + all == t.proposals + rows + [p];
  }

  /** The tables after each write of the proposal loop. */
  function ProposeWrites(t: Tables, c: Config, disputeId: Id, sessionId: string): seq<Tables> {
    Appending(t, RaisedFor(t, c, disputeId, sessionId))
  }

  function ResolveWrites(t: Tables, c: Config, id: Id, outcome: Option<DisputeOutcome>, now: int): seq<Tables> {
    if Resolve(t, c, id, outcome, now).1.Refused? then []
    else
      var d := t.disputes[id].(status := Resolved, outcome := outcome, resolvedAt := Some(now));
      var saved := t.(disputes := t.disputes[id := d]);
      [saved] + if outcome == Some(Overturned) then ProposeWrites(saved, c, id, d.sessionId) else []
  }

  /** A resolution saves one row and then sees to the proposals. */
  lemma ResolutionInOneRow(t: Tables, c: Config, id: Id, outcome: Option<DisputeOutcome>, now: int, saved: Tables)
    requires id in t.disputes && t.disputes[id].status !in {Resolved, Appealed} && id in saved.disputes
    requires saved.disputes[id] == t.disputes[id].(status := Resolved, outcome := outcome, resolvedAt := Some(now))
    requires saved == t.(disputes := t.disputes[id := saved.disputes[id]])
    ensures var raises, s := outcome == Some(Overturned), saved.disputes[id].sessionId;
            && Resolve(t, c, id, outcome, now)
               == (if raises then ProposeForOverturnedVerdict(saved, c, id, s) else saved, Done)
            && ResolveWrites(t, c, id, outcome, now)
               == [saved] + if raises then ProposeWrites(saved, c, id, s) else []
  {
  }

  function OpenAppealWrites(t: Tables, c: Config, disputeId: Id, now: int): seq<Tables> {
    var (after, reply) := OpenAppeal(t, c, disputeId, now);
    if reply.Refused? then [] else [t.(appeals := after.appeals), after]
  }

  function DecideWrites(t: Tables, c: Config, a: nat, decision: AppealDecision, now: int): seq<Tables>
    requires a < |t.appeals|
  {
    var appeal := t.appeals[a];
    if appeal.disputeId !in t.disputes then []
    else
      var decided := t.(appeals := t.appeals[a := appeal.(status := Decided, decision := Some(decision),
                                                          decidedAt := Some(now))]);
      var d := t.disputes[appeal.disputeId];
      var d' := d.(status := Resolved,
                   outcome := if decision == Reversed then Some(Flip(appeal.originalOutcome)) else d.outcome);
      var saved := decided.(disputes := t.disputes[appeal.disputeId := d']);
      [decided, saved]
      + if decision != Reversed then []
        else if d'.outcome == Some(Overturned) then ProposeWrites(saved, c, appeal.disputeId, d'.sessionId)
        else [RejectPendingForDispute(saved, appeal.disputeId, "appeal")]
  }

  /** A decision saves two rows and then sees to the proposals. */
  lemma DecisionInTwoRows(t: Tables, c: Config, a: nat, decision: AppealDecision, now: int, saved: Tables)
    requires a < |t.appeals| && t.appeals[a].disputeId in t.disputes && t.appeals[a].disputeId in saved.disputes
    requires var appeal, d := t.appeals[a], t.disputes[t.appeals[a].disputeId];
             && saved.appeals == t.appeals[a := appeal.(status := Decided, decision := Some(decision),
                                                        decidedAt := Some(now))]
             && saved.disputes[appeal.disputeId]
                == d.(status := Resolved,
                      outcome := if decision == Reversed then Some(Flip(appeal.originalOutcome)) else d.outcome)
             && saved == t.(appeals := saved.appeals,
                            disputes := t.disputes[appeal.disputeId := saved.disputes[appeal.disputeId]])
    ensures var id := t.appeals[a].disputeId;
            var d, two := saved.disputes[id], [t.(appeals := saved.appeals), saved];
            && DecideAppeal(t, c, a, decision, now)
               == (if decision != Reversed then saved
                   else if d.outcome == Some(Overturned) then ProposeForOverturnedVerdict(saved, c, id, d.sessionId)
                   else RejectPendingForDispute(saved, id, "appeal"), Done)
            && DecideWrites(t, c, a, decision, now)
               == two + if decision != Reversed then []
                        else if d.outcome == Some(Overturned) then ProposeWrites(saved, c, id, d.sessionId)
                        else [RejectPendingForDispute(saved, id, "appeal")]
  {
  }

  function VoteWrites(t: Tables, c: Config, disputeId: Id, cast: Cast): seq<Tables> {
    match FindAppeal(t.appeals, disputeId)
    case None => []
    case Some(a) =>
      if VoteRefusal(t, a, cast).Some? then []
      else
        var voted := WithBallot(t.appeals[a], cast);
        var saved := t.(appeals := t.appeals[a := voted]);
        [saved]
        + match TallyOf(voted).decision
          case None => []
          case Some(decision) => DecideWrites(saved, c, a, decision, cast.now)
  }

  /** An accepted vote saves one row and then decides, if it settles the count. */
  lemma VoteInOneRow(t: Tables, c: Config, disputeId: Id, cast: Cast, a: nat, saved: Tables)
    requires FindAppeal(t.appeals, disputeId) == Some(a) && VoteRefusal(t, a, cast) == None
    requires saved == t.(appeals := t.appeals[a := WithBallot(t.appeals[a], cast)])
    ensures var decision := TallyOf(WithBallot(t.appeals[a], cast)).decision;
            && Vote(t, c, disputeId, cast)
               == (if decision == None then (saved, Done)
                   else DecideAppeal(saved, c, a, decision.value, cast.now))
            && VoteWrites(t, c, disputeId, cast)
               == [saved] + if decision == None then [] else DecideWrites(saved, c, a, decision.value, cast.now)
  {
  }

  function CloseWrites(t: Tables, c: Config, disputeId: Id, now: int): seq<Tables> {
    match FindAppeal(t.appeals, disputeId)
    case None => []
    case Some(a) =>
      var appeal := t.appeals[a];
      if appeal.status == Decided || (TallyOf(appeal).decision.None? && now <= appeal.votingDeadline) then []
      else DecideWrites(t, c, a, ClosingDecision(appeal), now)
  }

  /** The tables after each write of a call, in order. */
  function WritesOf(t: Tables, c: Config, call: Call): seq<Tables> {
    match call
    case Resolving(id, outcome, now) => ResolveWrites(t, c, id, outcome, now)
    case Appealing(id, now) => OpenAppealWrites(t, c, id, now)
    case Balloting(id, cast) => VoteWrites(t, c, id, cast)
    case Closing(id, now) => CloseWrites(t, c, id, now)
    case Rejecting(p, operator) =>
      var (after, reply) := Reject(t, p, operator);
      if reply.Refused? then [] else [after]
  }

  /** The tables a call leaves when the store fails after `writes` of its writes. */
  function Interrupted(t: Tables, c: Config, call: Call, writes: nat): Tables {
    var w := WritesOf(t, c, call);
    if writes == 0 || w == [] then t else if writes <= |w| then w[writes - 1] else w[|w| - 1]
  }

  /** The same call when nothing fails. */
  function Called(t: Tables, c: Config, call: Call): (Tables, Reply) {
    match call
    case Resolving(id, outcome, now) => Resolve(t, c, id, outcome, now)
    case Appealing(id, now) => OpenAppeal(t, c, id, now)
    case Balloting(id, cast) => Vote(t, c, id, cast)
    case Closing(id, now) => Close(t, c, id, now)
    case Rejecting(p, operator) => Reject(t, p, operator)
  }

  // --------------------------------------------------------------------- runs

  datatype Event =
    | DoRegister(id: Id, address: string, stake: nat)
    | DoUpdateStake(id: Id, stake: nat)
    | DoExit(id: Id)
    | DoPublish(sessionId: string, signatures: seq<Id>)
    | DoOpen(id: Id, sessionId: string)
    | DoCall(call: Call)
    | DoInterrupted(call: Call, writes: nat)
    | DoApprove(proposal: nat, decidedBy: string, fault: Fault)

  function Step(t: Tables, c: Config, e: Event): (Tables, Reply) {
    match e
    case DoRegister(id, address, stake) => Register(t, c, id, address, stake)
    case DoUpdateStake(id, stake) => UpdateStake(t, c, id, stake)
    case DoExit(id) => Exit(t, id)
    case DoPublish(sessionId, signatures) => PublishVerdict(t, sessionId, signatures)
    case DoOpen(id, sessionId) => OpenDispute(t, id, sessionId)
    case DoCall(call) => Called(t, c, call)
    case DoInterrupted(call, writes) => (Interrupted(t, c, call, writes), Refused(StoreFailed))
    case DoApprove(p, operator, fault) => Approve(t, c, p, operator, fault)
  }

  const EMPTY := Tables(map[], [], [], [], map[])

  /** The tables after a run of calls, the last event of the list being the latest. */
  function Run(c: Config, events: seq<Event>): Tables {
    if events == [] then EMPTY
    else Step(Run(c, events[..|events| - 1]), c, events[|events| - 1]).0
  }
}
