/**
 What becomes of disputes, validators and verdicts: when each call is carried out, what it records for good, and
 how the outcome of an appealed dispute follows from the ballots.
 */
module DisputeOutcomes {
  import opened Basics
  import opened AppealQuorum
  import opened DisputeTables
  import opened DisputeInvariants
  import opened DisputeFrames

  // ------------------------------------------------------------------ outcomes

  /** The panel members that voted to overturn, by their ballots. */
  function Against(appeal: Appeal): set<nat> {
    set b: nat | b < |appeal.ballots| && appeal.ballots[b].choice == Overturn
  }

  lemma AgainstIsCount(appeal: Appeal)
    ensures |Against(appeal)| == CountOverturn(Choices(appeal))
  {
    CountOfPlaces(Choices(appeal), |appeal.ballots|);
    var choices := Choices(appeal);
    assert choices[..|choices|] == choices;
    assert Against(appeal) == Places(choices, |choices|);
  }

  function Places(choices: seq<AppealVoteChoice>, n: nat): set<nat>
    requires n <= |choices|
  {
    set b: nat | b < n && choices[b] == Overturn
  }

  lemma {:induction false} CountOfPlaces(choices: seq<AppealVoteChoice>, n: nat)
    requires n <= |choices|
    ensures |Places(choices, n)| == CountOverturn(choices[..n])
  {
    if n > 0 {
      CountOfPlaces(choices, n - 1);
      assert choices[..n] == choices[..n - 1] + [choices[n - 1]];
      CountAppend(choices[..n - 1], [choices[n - 1]]);
      assert [choices[n - 1]][1..] == [];
      if choices[n - 1] == Overturn {
        assert Places(choices, n) == Places(choices, n - 1) + {n - 1};
      } else {
        assert Places(choices, n) == Places(choices, n - 1);
      }
    }
  }

  /** A decided appeal was reversed if and only if at least two thirds of the whole panel voted to overturn, and
      the outcome of the dispute differs from the one appealed against if and only if it was reversed. */
  lemma AppealDecidesExactly(t: Tables, c: Config, a: nat)
    requires Inv(t, c) && a < |t.appeals| && t.appeals[a].status == Decided
    ensures var appeal := t.appeals[a];
            && appeal.disputeId in t.disputes && t.disputes[appeal.disputeId].outcome.Some?
            && (appeal.decision == Some(Reversed) <==> 3 * |Against(appeal)| >= 2 * |appeal.panel|)
            && (appeal.decision == Some(Reversed) <==>
                  t.disputes[appeal.disputeId].outcome != Some(appeal.originalOutcome))
  {
    assert AppealOk(t.appeals[a], t.disputes);
    AgainstIsCount(t.appeals[a]);
  }

  /** In every reachable state. */
  lemma ReachableAppealDecidesExactly(c: Config, events: seq<Event>, a: nat)
    requires Whole(c, events)
    requires a < |Run(c, events).appeals| && Run(c, events).appeals[a].status == Decided
    ensures var t := Run(c, events);
            var appeal := t.appeals[a];
            && appeal.disputeId in t.disputes && t.disputes[appeal.disputeId].outcome.Some?
            && (t.disputes[appeal.disputeId].outcome != Some(appeal.originalOutcome) <==>
                  3 * |Against(appeal)| >= 2 * |appeal.panel|)
  {
    ReachableInv(c, events);
    AppealDecidesExactly(Run(c, events), c, a);
  }

  // ------------------------------------------------- when calls are carried out

  /** A dispute is opened exactly once; it starts open, on its session, without an outcome. */
  lemma OpensExactly(t: Tables, id: Id, s: string)
    ensures var (t', reply) := OpenDispute(t, id, s);
            && (reply == Done <==> id !in t.disputes)
            && (reply == Done ==> t' == t.(disputes := t.disputes[id := Dispute(s, Open, None, None)]))
            && (reply != Done ==> t' == t)
  {
  }

  /** A dispute is resolved exactly while it is open or escalated, with the outcome and at the time given. */
  lemma ResolvesExactly(t: Tables, c: Config, id: Id, outcome: Option<DisputeOutcome>, now: int)
    ensures var (t', reply) := Resolve(t, c, id, outcome, now);
            && (reply == Done <==> id in t.disputes && t.disputes[id].status in {Open, Escalated})
            && (reply == Done ==>
                  && t'.disputes == t.disputes[id := Dispute(t.disputes[id].sessionId, Resolved, outcome, Some(now))]
                  && t'.appeals == t.appeals && t.proposals <= t'.proposals)
            && (reply != Done ==> t' == t)
  {
  }

  /** An appeal can be closed exactly when it is decided already or its deadline has passed. */
  lemma ClosesExactly(t: Tables, c: Config, d: Id, now: int)
    requires Inv(t, c)
    ensures var (t', reply) := Close(t, c, d, now);
            && (reply == Done <==>
                  exists a :: 0 <= a < |t.appeals| && t.appeals[a].disputeId == d
                              && (t.appeals[a].status == Decided || now > t.appeals[a].votingDeadline))
            && (reply != Done ==> t' == t)
  {
    var found := FindAppeal(t.appeals, d);
    if found.Some? {
      var a := found.value;
      assert t.appeals[a].disputeId == d;
      assert AppealOk(t.appeals[a], t.disputes);
      forall b | 0 <= b < |t.appeals| && t.appeals[b].disputeId == d ensures b == a {
      }
      if t.appeals[a].status == Voting {
        assert TallyOf(t.appeals[a]).decision == None;
      }
    }
  }

  // ------------------------------------------------------------ what stays

  /** Sessions of disputes and signatures of verdicts never change. */
  ghost predicate KeepsRecords(t: Tables, t': Tables) {
    && (forall d :: d in t.disputes ==> d in t'.disputes && t'.disputes[d].sessionId == t.disputes[d].sessionId)
    && (forall s :: s in t.verdicts ==> s in t'.verdicts && t'.verdicts[s] == t.verdicts[s])
  }

  lemma DecidingKeepsRecords(t: Tables, c: Config, a: nat, decision: AppealDecision, now: int, k: nat)
    requires a < |t.appeals| && k < |DecideWrites(t, c, a, decision, now)|
    ensures KeepsRecords(t, DecideWrites(t, c, a, decision, now)[k])
  {
    var w := DecideWrites(t, c, a, decision, now);
    if k >= 2 {
      assert w[k].disputes == w[1].disputes && w[k].verdicts == w[1].verdicts;
    }
  }

  lemma VoteKeepsRecords(t: Tables, c: Config, id: Id, cast: Cast, k: nat)
    requires k < |VoteWrites(t, c, id, cast)|
    ensures KeepsRecords(t, VoteWrites(t, c, id, cast)[k])
  {
    var a := FindAppeal(t.appeals, id).value;
    var voted := WithBallot(t.appeals[a], cast);
    var saved := t.(appeals := t.appeals[a := voted]);
    VoteInOneRow(t, c, id, cast, a, saved);
    if k > 0 {
      DecidingKeepsRecords(saved, c, a, TallyOf(voted).decision.value, cast.now, k - 1);
    }
  }

  lemma ResolveKeepsRecords(t: Tables, c: Config, id: Id, outcome: Option<DisputeOutcome>, now: int, k: nat)
    requires k < |ResolveWrites(t, c, id, outcome, now)|
    ensures KeepsRecords(t, ResolveWrites(t, c, id, outcome, now)[k])
  {
    var w := ResolveWrites(t, c, id, outcome, now);
    assert w[k].disputes == w[0].disputes && w[k].verdicts == t.verdicts;
  }

  lemma AppealKeepsRecords(t: Tables, c: Config, id: Id, now: int, k: nat)
    requires k < |OpenAppealWrites(t, c, id, now)|
    ensures KeepsRecords(t, OpenAppealWrites(t, c, id, now)[k])
  {
    OpenAppealShape(t, c, id, now);
    MarkedKeepsRecords(t, OpenAppeal(t, c, id, now).0, id);
  }

  lemma MarkedKeepsRecords(t: Tables, after: Tables, id: Id)
    requires id in t.disputes && after.verdicts == t.verdicts
    requires after.disputes == t.disputes[id := t.disputes[id].(status := Appealed)]
    ensures KeepsRecords(t, t.(appeals := after.appeals)) && KeepsRecords(t, after)
  {
  }

  lemma WriteKeepsRecords(t: Tables, c: Config, call: Call, k: nat)
    requires k < |WritesOf(t, c, call)|
    ensures KeepsRecords(t, WritesOf(t, c, call)[k])
  {
    match call
    case Resolving(id, outcome, now) => ResolveKeepsRecords(t, c, id, outcome, now, k);
    case Appealing(id, now) => AppealKeepsRecords(t, c, id, now, k);
    case Balloting(id, cast) => VoteKeepsRecords(t, c, id, cast, k);
    case Closing(id, now) =>
      var a := FindAppeal(t.appeals, id).value;
      DecidingKeepsRecords(t, c, a, ClosingDecision(t.appeals[a]), now, k);
    case Rejecting(_, _) =>
  }

  lemma CallKeepsRecords(t: Tables, c: Config, call: Call, writes: nat)
    ensures KeepsRecords(t, Interrupted(t, c, call, writes)) && KeepsRecords(t, Called(t, c, call).0)
  {
    AllWritesAreTheCall(t, c, call);
    var w := WritesOf(t, c, call);
    if w != [] {
      WriteKeepsRecords(t, c, call, |w| - 1);
      if 0 < writes <= |w| {
        WriteKeepsRecords(t, c, call, writes - 1);
      }
    }
  }

  lemma StepKeepsRecords(t: Tables, c: Config, e: Event)
    ensures KeepsRecords(t, Step(t, c, e).0)
  {
    match e
    case DoCall(call) => CallKeepsRecords(t, c, call, 0);
    case DoInterrupted(call, writes) => CallKeepsRecords(t, c, call, writes);
    case DoApprove(p, operator, fault) =>
      var t' := Approve(t, c, p, operator, fault).0;
      assert t'.disputes == t.disputes && t'.verdicts == t.verdicts;
    case _ =>
  }

  /** The event that opened dispute `d`, or published the verdict of session `s`. */
  predicate OpenedBy(t: Tables, e: Event, d: Id, s: string) { e == DoOpen(d, s) && d !in t.disputes }

  predicate PublishedBy(t: Tables, e: Event, s: string, signatures: seq<Id>) {
    e == DoPublish(s, signatures) && s !in t.verdicts
  }

  /** No dispute and no verdict is new. */
  ghost predicate NothingNew(t: Tables, t': Tables) {
    t'.verdicts == t.verdicts && forall d :: d in t'.disputes ==> d in t.disputes
  }

  lemma OnlyOpeningAdds(t: Tables, c: Config, e: Event, d: Id)
    requires d !in t.disputes && d in Step(t, c, e).0.disputes
    ensures OpenedBy(t, e, d, Step(t, c, e).0.disputes[d].sessionId)
  {
    match e
    case DoCall(call) => CallAddsNothingNew(t, c, call, 0);
    case DoInterrupted(call, writes) => CallAddsNothingNew(t, c, call, writes);
    case _ =>
  }

  lemma CallAddsNothingNew(t: Tables, c: Config, call: Call, writes: nat)
    ensures NothingNew(t, Interrupted(t, c, call, writes)) && NothingNew(t, Called(t, c, call).0)
  {
    AllWritesAreTheCall(t, c, call);
    var w := WritesOf(t, c, call);
    if w != [] {
      WriteAddsNothingNew(t, c, call, |w| - 1);
      if 0 < writes <= |w| {
        WriteAddsNothingNew(t, c, call, writes - 1);
      }
    }
  }

  lemma WriteAddsNothingNew(t: Tables, c: Config, call: Call, k: nat)
    requires k < |WritesOf(t, c, call)|
    ensures NothingNew(t, WritesOf(t, c, call)[k])
  {
    match call
    case Resolving(id, outcome, now) => ResolveAddsNothingNew(t, c, id, outcome, now, k);
    case Appealing(id, now) => AppealAddsNothingNew(t, c, id, now, k);
    case Balloting(id, cast) => VoteAddsNothingNew(t, c, id, cast, k);
    case Closing(id, now) =>
      var a := FindAppeal(t.appeals, id).value;
      DecidingAddsNothingNew(t, c, a, ClosingDecision(t.appeals[a]), now, k);
    case Rejecting(_, _) =>
  }

  lemma ResolveAddsNothingNew(t: Tables, c: Config, id: Id, outcome: Option<DisputeOutcome>, now: int, k: nat)
    requires k < |ResolveWrites(t, c, id, outcome, now)|
    ensures NothingNew(t, ResolveWrites(t, c, id, outcome, now)[k])
  {
    var w := ResolveWrites(t, c, id, outcome, now);
    assert w[k].disputes == w[0].disputes && w[k].verdicts == t.verdicts;
  }

  lemma AppealAddsNothingNew(t: Tables, c: Config, id: Id, now: int, k: nat)
    requires k < |OpenAppealWrites(t, c, id, now)|
    ensures NothingNew(t, OpenAppealWrites(t, c, id, now)[k])
  {
    OpenAppealShape(t, c, id, now);
  }

  lemma DecidingAddsNothingNew(t: Tables, c: Config, a: nat, decision: AppealDecision, now: int, k: nat)
    requires a < |t.appeals| && k < |DecideWrites(t, c, a, decision, now)|
    ensures NothingNew(t, DecideWrites(t, c, a, decision, now)[k])
  {
    var w := DecideWrites(t, c, a, decision, now);
    if k >= 2 {
      assert w[k].disputes == w[1].disputes && w[k].verdicts == w[1].verdicts;
    }
  }

  lemma VoteAddsNothingNew(t: Tables, c: Config, id: Id, cast: Cast, k: nat)
    requires k < |VoteWrites(t, c, id, cast)|
    ensures NothingNew(t, VoteWrites(t, c, id, cast)[k])
  {
    var a := FindAppeal(t.appeals, id).value;
    var voted := WithBallot(t.appeals[a], cast);
    var saved := t.(appeals := t.appeals[a := voted]);
    VoteInOneRow(t, c, id, cast, a, saved);
    if k > 0 {
      DecidingAddsNothingNew(saved, c, a, TallyOf(voted).decision.value, cast.now, k - 1);
    }
  }

  /** In every run, torn calls included, each dispute is about the session it was opened for. */
  lemma {:induction false} SessionsHaveOrigin(c: Config, events: seq<Event>, d: Id) returns (k: nat)
    requires d in Run(c, events).disputes
    ensures k < |events| && OpenedBy(Run(c, events[..k]), events[k], d, Run(c, events).disputes[d].sessionId)
  {
    var n := |events| - 1;
    var before := events[..n];
    StepKeepsRecords(Run(c, before), c, events[n]);
    if d in Run(c, before).disputes {
      k := SessionsHaveOrigin(c, before, d);
      assert before[..k] == events[..k] && before[k] == events[k];
    } else {
      k := n;
      OnlyOpeningAdds(Run(c, before), c, events[n], d);
    }
  }

  lemma OnlyPublishingAdds(t: Tables, c: Config, e: Event, s: string)
    requires s !in t.verdicts && s in Step(t, c, e).0.verdicts
    ensures PublishedBy(t, e, s, Step(t, c, e).0.verdicts[s])
  {
    match e
    case DoCall(call) => CallAddsNothingNew(t, c, call, 0);
    case DoInterrupted(call, writes) => CallAddsNothingNew(t, c, call, writes);
    case _ =>
  }

  /** And each verdict carries the signatures it was published with first. */
  lemma {:induction false} VerdictsHaveOrigin(c: Config, events: seq<Event>, s: string) returns (k: nat)
    requires s in Run(c, events).verdicts
    ensures k < |events| && PublishedBy(Run(c, events[..k]), events[k], s, Run(c, events).verdicts[s])
  {
    var n := |events| - 1;
    var before := events[..n];
    StepKeepsRecords(Run(c, before), c, events[n]);
    if s in Run(c, before).verdicts {
      k := VerdictsHaveOrigin(c, before, s);
      assert before[..k] == events[..k] && before[k] == events[k];
    } else {
      k := n;
      OnlyPublishingAdds(Run(c, before), c, events[n], s);
    }
  }

  /** An operator rejects exactly a pending proposal, under its own name; a refused rejection changes nothing. */
  lemma RejectsExactly(t: Tables, p: nat, operator: string)
    ensures var (t', reply) := Reject(t, p, operator);
            && (reply == Done <==> p < |t.proposals| && t.proposals[p].status == Proposed)
            && (reply == Done ==>
                  t' == t.(proposals := t.proposals[p := t.proposals[p].(status := Rejected,
                                                                         decidedBy := Some(operator))]))
            && (reply != Done ==> t' == t)
  {
  }
}
