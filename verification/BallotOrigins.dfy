/**
 Where the ballots of an appeal come from (src/modules/disputes/dispute-appeals.service.ts): each was signed by
 the validator it is counted for, who sits on the panel, in time.
 */
module BallotOrigins {
  import opened Basics
  import opened AppealQuorum
  import opened DisputeTables
  import opened DisputeInvariants

  /** The signature recovers to the address of a validator registered under this id. */
  predicate SignedBy(rows: seq<Validator>, id: Id, signer: Recovered) {
    exists v :: 0 <= v < |rows| && rows[v].id == id && signer == Some(rows[v].address)
  }

  /** A vote that appeal `appeal` has to count. */
  predicate Counts(appeal: Appeal, rows: seq<Validator>, cast: Cast) {
    && appeal.status == Voting && cast.now <= appeal.votingDeadline
    && cast.validatorId in appeal.panel && SignedBy(rows, cast.validatorId, cast.signer)
    && forall b :: 0 <= b < |appeal.ballots| ==> appeal.ballots[b].validatorId != cast.validatorId
  }

  /** The terms an appeal was opened on do not change. */
  predicate SameTerms(was: Appeal, now: Appeal) {
    && now.disputeId == was.disputeId && now.panel == was.panel && now.quorum == was.quorum
    && now.votingDeadline == was.votingDeadline && now.originalOutcome == was.originalOutcome
  }

  /** From `was` to `now` appeals keep their terms and ballots, except that the appeal of `d` may have gained
      `gained`; a new appeal has no ballot. */
  ghost predicate Gained(was: seq<Appeal>, now: seq<Appeal>, a: Option<nat>, gained: seq<Ballot>) {
    && |was| <= |now|
    && (forall i :: 0 <= i < |was| ==>
          SameTerms(was[i], now[i]) && now[i].ballots == was[i].ballots + if a == Some(i) then gained else [])
    && (forall i :: |was| <= i < |now| ==> now[i].ballots == [])
  }

  /** The ballot a call adds, and where. */
  function PlaceOf(t: Tables, call: Call): Option<nat> {
    if !call.Balloting? then None
    else
      match FindAppeal(t.appeals, call.id)
      case None => None
      case Some(a) => if Counts(t.appeals[a], t.validators, call.cast) then Some(a) else None
  }

  function BallotOf(call: Call): seq<Ballot> {
    if call.Balloting? then [Ballot(call.cast.validatorId, call.cast.choice)] else []
  }

  ghost predicate DistinctValidators(rows: seq<Validator>) {
    forall i, j :: 0 <= i < j < |rows| ==> rows[i].id != rows[j].id
  }

  /** The refusals of a vote are exactly the reasons not to count it. */
  lemma CountsExactly(t: Tables, a: nat, cast: Cast)
    requires a < |t.appeals|
    requires DistinctValidators(t.validators)
    ensures VoteRefusal(t, a, cast).None? <==> Counts(t.appeals[a], t.validators, cast)
  {
    var appeal, v := t.appeals[a], FindValidator(t.validators, cast.validatorId);
    assert cast.validatorId in Voters(appeal) <==>
           exists b :: 0 <= b < |appeal.ballots| && appeal.ballots[b].validatorId == cast.validatorId by {
      VotersAre(appeal, cast.validatorId);
    }
    if SignedBy(t.validators, cast.validatorId, cast.signer) {
      var w :| 0 <= w < |t.validators| && t.validators[w].id == cast.validatorId
               && cast.signer == Some(t.validators[w].address);
      assert v.Some? && t.validators[v.value].id == t.validators[w].id;
    } else if v.Some? {
      assert t.validators[v.value].id == cast.validatorId;
    }
  }

  lemma VotersAre(appeal: Appeal, id: Id)
    ensures id in Voters(appeal) <==> exists b :: 0 <= b < |appeal.ballots| && appeal.ballots[b].validatorId == id
  {
    var voters := Voters(appeal);
    if id in voters {
      var b :| 0 <= b < |voters| && voters[b] == id;
      assert appeal.ballots[b].validatorId == id;
    }
    forall b | 0 <= b < |appeal.ballots| && appeal.ballots[b].validatorId == id ensures id in voters {
      assert voters[b] == id;
    }
  }

  // ------------------------------------------------------------- single writes

  lemma DecidingKeepsBallots(t: Tables, c: Config, a: nat, decision: AppealDecision, now: int, k: nat)
    requires a < |t.appeals| && k < |DecideWrites(t, c, a, decision, now)|
    ensures Gained(t.appeals, DecideWrites(t, c, a, decision, now)[k].appeals, None, [])
  {
    var w := DecideWrites(t, c, a, decision, now);
    assert w[k].appeals == w[0].appeals;
  }

  lemma BallotGained(was: seq<Appeal>, a: nat, voted: Appeal, ballot: Ballot)
    requires a < |was| && voted == was[a].(ballots := was[a].ballots + [ballot])
    ensures Gained(was, was[a := voted], Some(a), [ballot])
  {
  }

  lemma VoteGains(t: Tables, c: Config, id: Id, cast: Cast, a: nat, k: nat)
    requires FindAppeal(t.appeals, id) == Some(a) && VoteRefusal(t, a, cast).None?
    requires k < |VoteWrites(t, c, id, cast)|
    ensures Gained(t.appeals, VoteWrites(t, c, id, cast)[k].appeals, Some(a), [Ballot(cast.validatorId, cast.choice)])
  {
    var voted, ballot := WithBallot(t.appeals[a], cast), Ballot(cast.validatorId, cast.choice);
    var saved := t.(appeals := t.appeals[a := voted]);
    VoteInOneRow(t, c, id, cast, a, saved);
    BallotGained(t.appeals, a, voted, ballot);
    if k > 0 {
      DecidingVoteGains(t, saved, c, a, TallyOf(voted).decision.value, cast.now, k - 1, ballot);
    }
  }

  lemma DecidingVoteGains(t: Tables, saved: Tables, c: Config, a: nat, decision: AppealDecision, now: int, k: nat,
                          ballot: Ballot)
    requires a < |saved.appeals| && Gained(t.appeals, saved.appeals, Some(a), [ballot])
    requires k < |DecideWrites(saved, c, a, decision, now)|
    ensures Gained(t.appeals, DecideWrites(saved, c, a, decision, now)[k].appeals, Some(a), [ballot])
  {
    var w := DecideWrites(saved, c, a, decision, now);
    DecidingKeepsBallots(saved, c, a, decision, now, k);
    assert |w[k].appeals| == |saved.appeals|;
    GainedThen(t.appeals, saved.appeals, w[k].appeals, a, [ballot]);
  }

  lemma GainedThen(was: seq<Appeal>, saved: seq<Appeal>, now: seq<Appeal>, a: nat, gained: seq<Ballot>)
    requires Gained(was, saved, Some(a), gained) && Gained(saved, now, None, []) && |saved| == |now|
    ensures Gained(was, now, Some(a), gained)
  {
  }

  lemma AppealGains(t: Tables, c: Config, id: Id, now: int, k: nat)
    requires k < |OpenAppealWrites(t, c, id, now)|
    ensures Gained(t.appeals, OpenAppealWrites(t, c, id, now)[k].appeals, None, [])
  {
    var after := OpenAppeal(t, c, id, now).0;
    assert OpenAppealWrites(t, c, id, now)[k].appeals == after.appeals;
    NewAppealGains(t.appeals, after.appeals);
  }

  lemma NewAppealGains(was: seq<Appeal>, now: seq<Appeal>)
    requires |now| == |was| + 1 && now == was + [now[|was|]] && now[|was|].ballots == []
    ensures Gained(was, now, None, [])
  {
  }

  lemma ResolveGains(t: Tables, c: Config, id: Id, outcome: Option<DisputeOutcome>, now: int, k: nat)
    requires k < |ResolveWrites(t, c, id, outcome, now)|
    ensures Gained(t.appeals, ResolveWrites(t, c, id, outcome, now)[k].appeals, None, [])
  {
    assert ResolveWrites(t, c, id, outcome, now)[k].appeals == t.appeals;
  }

  /** Each write of a call: the ballot of an accepted vote is in from the first write on, nothing else is added. */
  lemma WriteGains(t: Tables, c: Config, call: Call, k: nat)
    requires DistinctValidators(t.validators)
    requires k < |WritesOf(t, c, call)|
    ensures Gained(t.appeals, WritesOf(t, c, call)[k].appeals, PlaceOf(t, call), BallotOf(call))
  {
    match call
    case Resolving(id, outcome, now) => ResolveGains(t, c, id, outcome, now, k);
    case Appealing(id, now) => AppealGains(t, c, id, now, k);
    case Balloting(id, cast) =>
      var a := FindAppeal(t.appeals, id).value;
      CountsExactly(t, a, cast);
      VoteGains(t, c, id, cast, a, k);
    case Closing(id, now) =>
      var a := FindAppeal(t.appeals, id).value;
      DecidingKeepsBallots(t, c, a, ClosingDecision(t.appeals[a]), now, k);
    case Rejecting(_, _) =>
  }

  // -------------------------------------------------------------- calls and runs

  /** A counted vote is written. */
  lemma CountedIsWritten(t: Tables, c: Config, call: Call)
    requires DistinctValidators(t.validators) && PlaceOf(t, call).Some?
    ensures WritesOf(t, c, call) != []
  {
    CountsExactly(t, PlaceOf(t, call).value, call.cast);
  }

  lemma CallGains(t: Tables, c: Config, call: Call)
    requires DistinctValidators(t.validators)
    ensures Gained(t.appeals, Called(t, c, call).0.appeals, PlaceOf(t, call), BallotOf(call))
  {
    AllWritesAreTheCall(t, c, call);
    var w := WritesOf(t, c, call);
    if w == [] {
      if PlaceOf(t, call).Some? {
        CountedIsWritten(t, c, call);
      }
    } else {
      WriteGains(t, c, call, |w| - 1);
    }
  }

  lemma CutCallGains(t: Tables, c: Config, call: Call, writes: nat)
    requires DistinctValidators(t.validators)
    ensures Gained(t.appeals, Interrupted(t, c, call, writes).appeals, if writes == 0 then None else PlaceOf(t, call),
                   BallotOf(call))
  {
    var w := WritesOf(t, c, call);
    if writes > 0 {
      if w == [] {
        if PlaceOf(t, call).Some? {
          CountedIsWritten(t, c, call);
        }
      } else {
        WriteGains(t, c, call, if writes <= |w| then writes - 1 else |w| - 1);
      }
    }
  }

  /** The vote an event makes, if it gets as far as the store. */
  function CallIn(e: Event): Option<Call> {
    match e
    case DoCall(call) => Some(call)
    case DoInterrupted(call, writes) => if writes == 0 then None else Some(call)
    case _ => None
  }

  /** The event is a vote that adds `ballot` to appeal `a`, and has to be counted. */
  ghost predicate Casts(t: Tables, e: Event, a: nat, ballot: Ballot) {
    && CallIn(e).Some? && CallIn(e).value.Balloting? && a < |t.appeals|
    && var cast := CallIn(e).value.cast;
       && CallIn(e).value.id == t.appeals[a].disputeId
       && ballot == Ballot(cast.validatorId, cast.choice)
       && Counts(t.appeals[a], t.validators, cast)
  }

  lemma StepGains(t: Tables, c: Config, e: Event)
    requires DistinctValidators(t.validators)
    ensures Gained(t.appeals, Step(t, c, e).0.appeals, if CallIn(e).None? then None else PlaceOf(t, CallIn(e).value),
                   if CallIn(e).None? then [] else BallotOf(CallIn(e).value))
  {
    match e
    case DoCall(call) => CallGains(t, c, call);
    case DoInterrupted(call, writes) => CutCallGains(t, c, call, writes);
    case DoApprove(p, operator, fault) => assert Approve(t, c, p, operator, fault).0.appeals == t.appeals;
    case _ => assert Step(t, c, e).0.appeals == t.appeals;
  }

  /** A call adds at most one ballot to an appeal, and only as a vote for its dispute, signed by the validator it
      is counted for, who sits on the panel and has not voted, before the deadline. Every other ballot stays, and
      so do the panel and the deadline. */
  lemma BallotsOnlyFromVotes(t: Tables, c: Config, e: Event, a: nat)
    requires DistinctValidators(t.validators) && a < |Step(t, c, e).0.appeals|
    ensures var was, now := t.appeals, Step(t, c, e).0.appeals;
            && |was| <= |now|
            && (a >= |was| ==> now[a].ballots == [])
            && (a < |was| ==>
                  && SameTerms(was[a], now[a])
                  && (now[a].ballots == was[a].ballots
                      || exists b :: now[a].ballots == was[a].ballots + [b] && Casts(t, e, a, b)))
  {
    StepGains(t, c, e);
    var was, now := t.appeals, Step(t, c, e).0.appeals;
    if a < |was| && CallIn(e).Some? && PlaceOf(t, CallIn(e).value) == Some(a) {
      var b := BallotOf(CallIn(e).value)[0];
      assert Casts(t, e, a, b) && now[a].ballots == was[a].ballots + [b];
    }
  }

  /** A vote is counted if and only if the dispute has an appeal for which it has to be counted. */
  lemma VoteCountsExactly(t: Tables, c: Config, d: Id, cast: Cast, a: nat)
    requires Inv(t, c) && a < |t.appeals| && t.appeals[a].disputeId == d
    ensures var (t', reply) := Vote(t, c, d, cast);
            && (reply == Done <==> Counts(t.appeals[a], t.validators, cast))
            && a < |t'.appeals|
            && t'.appeals[a].ballots == t.appeals[a].ballots
                 + if Counts(t.appeals[a], t.validators, cast) then [Ballot(cast.validatorId, cast.choice)] else []
  {
    var found := FindAppeal(t.appeals, d);
    assert found == Some(a);
    assert AppealOk(t.appeals[a], t.disputes);
    CountsExactly(t, a, cast);
    CallGains(t, c, Balloting(d, cast));
  }

  /** Every call keeps the ids apart. */
  lemma StepKeepsDistinct(t: Tables, c: Config, e: Event)
    requires DistinctValidators(t.validators)
    ensures DistinctValidators(Step(t, c, e).0.validators)
  {
    match e
    case DoCall(call) => CallKeepsValidators(t, c, call, |WritesOf(t, c, call)|);
    case DoInterrupted(call, writes) => CallKeepsValidators(t, c, call, writes);
    case DoApprove(p, operator, fault) => ApproveKeepsIds(t, c, p, operator, fault);
    case _ =>
  }

  lemma ApproveKeepsIds(t: Tables, c: Config, p: nat, operator: string, fault: Fault)
    ensures var rows := Approve(t, c, p, operator, fault).0.validators;
            && |rows| == |t.validators|
            && forall v :: 0 <= v < |rows| ==>
                 && rows[v].id == t.validators[v].id && rows[v].address == t.validators[v].address
                 && rows[v].isActive == t.validators[v].isActive
  {
  }

  lemma CallKeepsValidators(t: Tables, c: Config, call: Call, writes: nat)
    ensures Interrupted(t, c, call, writes).validators == t.validators
    ensures Called(t, c, call).0.validators == t.validators
  {
    WholeCallKeepsValidators(t, c, call);
    CutCallKeepsValidators(t, c, call, writes);
  }

  lemma WholeCallKeepsValidators(t: Tables, c: Config, call: Call)
    ensures Called(t, c, call).0.validators == t.validators
  {
    AllWritesAreTheCall(t, c, call);
    var w := WritesOf(t, c, call);
    if w != [] {
      WriteKeepsValidators(t, c, call, |w| - 1);
    }
  }

  lemma CutCallKeepsValidators(t: Tables, c: Config, call: Call, writes: nat)
    ensures Interrupted(t, c, call, writes).validators == t.validators
  {
    var w := WritesOf(t, c, call);
    if writes > 0 && w != [] {
      WriteKeepsValidators(t, c, call, if writes <= |w| then writes - 1 else |w| - 1);
    }
  }

  lemma WriteKeepsValidators(t: Tables, c: Config, call: Call, k: nat)
    requires k < |WritesOf(t, c, call)|
    ensures WritesOf(t, c, call)[k].validators == t.validators
  {
    match call
    case Resolving(id, outcome, now) => ResolveKeepsValidators(t, c, id, outcome, now, k);
    case Appealing(id, now) => AppealKeepsValidators(t, c, id, now, k);
    case Balloting(id, cast) => VoteKeepsValidators(t, c, id, cast, k);
    case Closing(id, now) => CloseKeepsValidators(t, c, id, now, k);
    case Rejecting(_, _) =>
  }

  lemma ResolveKeepsValidators(t: Tables, c: Config, id: Id, outcome: Option<DisputeOutcome>, now: int, k: nat)
    requires k < |ResolveWrites(t, c, id, outcome, now)|
    ensures ResolveWrites(t, c, id, outcome, now)[k].validators == t.validators
  {
  }

  lemma AppealKeepsValidators(t: Tables, c: Config, id: Id, now: int, k: nat)
    requires k < |OpenAppealWrites(t, c, id, now)|
    ensures OpenAppealWrites(t, c, id, now)[k].validators == t.validators
  {
  }

  lemma CloseKeepsValidators(t: Tables, c: Config, id: Id, now: int, k: nat)
    requires k < |CloseWrites(t, c, id, now)|
    ensures CloseWrites(t, c, id, now)[k].validators == t.validators
  {
  }

  lemma VoteKeepsValidators(t: Tables, c: Config, id: Id, cast: Cast, k: nat)
    requires k < |VoteWrites(t, c, id, cast)|
    ensures VoteWrites(t, c, id, cast)[k].validators == t.validators
  {
  }

  lemma {:induction false} RunIsDistinct(c: Config, events: seq<Event>)
    ensures DistinctValidators(Run(c, events).validators)
  {
    if events != [] {
      RunIsDistinct(c, events[..|events| - 1]);
      StepKeepsDistinct(Run(c, events[..|events| - 1]), c, events[|events| - 1]);
    }
  }

  /** In every run, torn calls included, every ballot of an appeal was cast by an event of the run: a vote signed
      by the validator it is counted for, who sat on the panel and had not voted, before the deadline. */
  lemma {:induction false} BallotsHaveOrigin(c: Config, events: seq<Event>, a: nat, b: nat) returns (k: nat)
    requires a < |Run(c, events).appeals| && b < |Run(c, events).appeals[a].ballots|
    ensures k < |events| && Casts(Run(c, events[..k]), events[k], a, Run(c, events).appeals[a].ballots[b])
    ensures SameTerms(Run(c, events[..k]).appeals[a], Run(c, events).appeals[a])
  {
    var n := |events| - 1;
    var before := events[..n];
    RunIsDistinct(c, before);
    BallotsOnlyFromVotes(Run(c, before), c, events[n], a);
    var was, now := Run(c, before).appeals, Run(c, events).appeals;
    if b < |was[a].ballots| {
      k := BallotsHaveOrigin(c, before, a, b);
      assert before[..k] == events[..k] && before[k] == events[k];
    } else {
      k := n;
    }
  }

  /** An appeal opened at `at` counts the signed votes of its panel for exactly the voting period. */
  lemma VotingPeriodExactly(t: Tables, c: Config, d: Id, at: int, cast: Cast)
    requires Inv(t, c) && OpenAppeal(t, c, d, at).1.Done?
    ensures var t' := OpenAppeal(t, c, d, at).0;
            && |t'.appeals| == |t.appeals| + 1 && t'.appeals[|t.appeals|].disputeId == d
            && (Vote(t', c, d, cast).1 == Done <==>
                  && cast.now <= at + c.appealVotingMs && cast.validatorId in t'.appeals[|t.appeals|].panel
                  && SignedBy(t.validators, cast.validatorId, cast.signer))
  {
    OpenAppealKeeps(t, c, d, at);
    var t' := OpenAppeal(t, c, d, at).0;
    FreshAppealCounts(t', c, d, t'.appeals[|t.appeals|], |t.appeals|, cast);
  }

  lemma FreshAppealCounts(t: Tables, c: Config, d: Id, appeal: Appeal, a: nat, cast: Cast)
    requires Inv(t, c) && a < |t.appeals| && t.appeals[a] == appeal && appeal.disputeId == d
    requires appeal.status == Voting && appeal.ballots == []
    ensures Vote(t, c, d, cast).1 == Done <==>
            && cast.now <= appeal.votingDeadline && cast.validatorId in appeal.panel
            && SignedBy(t.validators, cast.validatorId, cast.signer)
  {
    VoteCountsExactly(t, c, d, cast, a);
  }
}
