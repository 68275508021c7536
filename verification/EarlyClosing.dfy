/**
 Closing an appeal early records what counting every vote at the deadline would have recorded, whatever else
 happens in between.
 */
module EarlyClosing {
  import opened Basics
  import opened AppealQuorum
  import opened DisputeTables
  import opened DisputeInvariants
  import opened DisputeFrames
  import DisputeLedger

  function ChoicesOf(casts: seq<Cast>): (r: seq<AppealVoteChoice>)
    ensures |r| == |casts|
  {
    seq(|casts|, i requires 0 <= i < |casts| => casts[i].choice)
  }

  /** Votes that would each be accepted on their own: distinct panel members that have not voted
      yet, properly signed, before the deadline. */
  ghost predicate ProperVotes(t: Tables, a: nat, casts: seq<Cast>)
    requires a < |t.appeals|
  {
    var appeal := t.appeals[a];
    && (forall i, j :: 0 <= i < j < |casts| ==> casts[i].validatorId != casts[j].validatorId)
    && (forall i :: 0 <= i < |casts| ==>
          && casts[i].now <= appeal.votingDeadline
          && casts[i].validatorId in appeal.panel && casts[i].validatorId !in Voters(appeal)
          && SignedByValidator(t.validators, casts[i]))
  }

  predicate SignedByValidator(rows: seq<Validator>, cast: Cast) {
    var v := FindValidator(rows, cast.validatorId);
    v.Some? && cast.signer == Some(rows[v.value].address)
  }

  /** What happens between opening and closing: an intended vote arrives, or anything else does. */
  datatype Item = Intended(cast: Cast) | Other(event: Event)

  function IntendedIn(items: seq<Item>): seq<Cast> {
    if items == [] then []
    else
      var n := |items| - 1;
      IntendedIn(items[..n]) + if items[n].Intended? then [items[n].cast] else []
  }

  function Play(t: Tables, c: Config, d: Id, item: Item): Tables {
    match item
    case Intended(cast) => Vote(t, c, d, cast).0
    case Other(event) => Step(t, c, event).0
  }

  /** The tables after the items. */
  function Played(t: Tables, c: Config, d: Id, items: seq<Item>): Tables {
    if items == [] then t else Play(Played(t, c, d, items[..|items| - 1]), c, d, items[|items| - 1])
  }

  /** Anything else: a call that is not torn; on this dispute's appeal only votes that are turned away and
      attempts to close it before its deadline. */
  ghost predicate Harmless(t: Tables, c: Config, a: nat, d: Id, e: Event)
    requires a < |t.appeals|
  {
    && !Torn(t, c, e)
    && (e.DoInterrupted? && !e.call.Rejecting? ==> DisputeOf(e.call) != d)
    && (e.DoCall? && e.call.Balloting? && e.call.id == d ==> VoteRefusal(t, a, e.call.cast).Some?)
    && (e.DoCall? && e.call.Closing? && e.call.id == d ==> e.call.now <= t.appeals[a].votingDeadline)
  }

  ghost predicate AllHarmless(t: Tables, c: Config, a: nat, d: Id, items: seq<Item>)
    requires a < |t.appeals|
  {
    forall k {:trigger items[k]} :: 0 <= k < |items| && items[k].Other? ==>
      var s := Played(t, c, d, items[..k]); a < |s.appeals| && Harmless(s, c, a, d, items[k].event)
  }

  /** Validators keep their ids and addresses. */
  ghost predicate AddressesKept(rows: seq<Validator>, rows': seq<Validator>) {
    && |rows| <= |rows'|
    && forall i :: 0 <= i < |rows| ==> rows'[i].id == rows[i].id && rows'[i].address == rows[i].address
  }

  lemma SignaturesStayGood(rows: seq<Validator>, rows': seq<Validator>, c: Config, cast: Cast)
    requires AddressesKept(rows, rows') && ValidatorsOk(rows', c) && SignedByValidator(rows, cast)
    ensures SignedByValidator(rows', cast)
  {
    var v := FindValidator(rows, cast.validatorId).value;
    assert rows'[v].id == cast.validatorId;
  }

  lemma StepKeepsAddresses(t: Tables, c: Config, e: Event)
    requires Inv(t, c)
    ensures AddressesKept(t.validators, Step(t, c, e).0.validators)
  {
    match e
    case DoCall(call) => CallFrame(t, c, call, 0);
    case DoInterrupted(call, writes) => CallFrame(t, c, call, writes);
    case DoApprove(p, operator, fault) => ApproveKeepsAddresses(t, c, p, operator, fault);
    case _ =>
  }

  lemma ApproveKeepsAddresses(t: Tables, c: Config, p: nat, operator: string, fault: Fault)
    requires Inv(t, c)
    ensures AddressesKept(t.validators, Approve(t, c, p, operator, fault).0.validators)
  {
    if DisputeLedger.Pending(t, p) {
      var v := DisputeLedger.PendingHasValidator(t, c, p);
      DisputeLedger.ApproveShape(t, c, p, operator, fault, v);
    } else {
      DisputeLedger.NotPendingIsNoOp(t, c, p, operator, fault);
    }
  }

  /** The appeal of `d` is row `a` in both, and the row is the same. */
  ghost predicate SameAppeal(t: Tables, t': Tables, a: nat, d: Id) {
    && a < |t.appeals| && a < |t'.appeals| && t'.appeals[a] == t.appeals[a]
    && FindAppeal(t'.appeals, d) == Some(a)
  }

  lemma OnlyAppealFound(appeals: seq<Appeal>, a: nat, d: Id)
    requires a < |appeals| && appeals[a].disputeId == d
    requires forall i, j :: 0 <= i < j < |appeals| ==> appeals[i].disputeId != appeals[j].disputeId
    ensures FindAppeal(appeals, d) == Some(a)
  {
    var found := FindAppeal(appeals, d);
    assert found.Some? && appeals[found.value].disputeId == appeals[a].disputeId;
  }

  lemma HarmlessKeepsAppeal(t: Tables, c: Config, a: nat, d: Id, e: Event)
    requires Inv(t, c) && FindAppeal(t.appeals, d) == Some(a) && Harmless(t, c, a, d, e)
    ensures SameAppeal(t, Step(t, c, e).0, a, d)
  {
    StepKeeps(t, c, e);
    HarmlessKeepsRow(t, c, a, d, e);
    OnlyAppealFound(Step(t, c, e).0.appeals, a, d);
  }

  lemma HarmlessKeepsRow(t: Tables, c: Config, a: nat, d: Id, e: Event)
    requires Inv(t, c) && FindAppeal(t.appeals, d) == Some(a) && Harmless(t, c, a, d, e)
    ensures a < |Step(t, c, e).0.appeals| && Step(t, c, e).0.appeals[a] == t.appeals[a]
  {
    match e
    case DoCall(call) => HarmlessCall(t, c, a, d, call);
    case DoInterrupted(call, writes) => HarmlessCut(t, c, a, d, call, writes);
    case DoApprove(p, operator, fault) => ApproveTouchesNoAppeal(t, c, p, operator, fault);
    case _ => OthersTouchNoAppeal(t, c, e);
  }

  lemma OthersTouchNoAppeal(t: Tables, c: Config, e: Event)
    requires !e.DoCall? && !e.DoInterrupted? && !e.DoApprove?
    ensures Step(t, c, e).0.appeals == t.appeals
  {
  }

  lemma HarmlessCut(t: Tables, c: Config, a: nat, d: Id, call: Call, writes: nat)
    requires Inv(t, c) && FindAppeal(t.appeals, d) == Some(a) && (call.Rejecting? || DisputeOf(call) != d)
    ensures var t' := Interrupted(t, c, call, writes); a < |t'.appeals| && t'.appeals[a] == t.appeals[a]
  {
    if call.Rejecting? {
      RejectionTouchesNoAppeal(t, c, call, writes);
    } else {
      CallFrame(t, c, call, writes);
      OtherAppealKept(t, Interrupted(t, c, call, writes), a, DisputeOf(call));
    }
  }

  lemma RejectionTouchesNoAppeal(t: Tables, c: Config, call: Call, writes: nat)
    requires call.Rejecting?
    ensures Interrupted(t, c, call, writes).appeals == t.appeals
  {
  }

  lemma OtherAppealKept(t: Tables, t': Tables, a: nat, other: Id)
    requires a < |t.appeals| && t.appeals[a].disputeId != other && Within(t, t', other)
    ensures a < |t'.appeals| && t'.appeals[a] == t.appeals[a]
  {
  }

  lemma ApproveTouchesNoAppeal(t: Tables, c: Config, p: nat, operator: string, fault: Fault)
    ensures Approve(t, c, p, operator, fault).0.appeals == t.appeals
  {
  }

  lemma HarmlessCall(t: Tables, c: Config, a: nat, d: Id, call: Call)
    requires Inv(t, c) && FindAppeal(t.appeals, d) == Some(a) && Harmless(t, c, a, d, DoCall(call))
    ensures var t' := Called(t, c, call).0; a < |t'.appeals| && t'.appeals[a] == t.appeals[a]
  {
    CallFrame(t, c, call, 0);
    assert AppealOk(t.appeals[a], t.disputes);
  }

  /** How far the appeal got after the first votes: still open with all of them recorded, or decided
      as counting all the votes would decide it. */
  ghost predicate Progress(t0: Tables, t: Tables, a: nat, d: Id, casts: seq<Cast>, n: nat)
    requires a < |t0.appeals| && n <= |casts|
  {
    && FindAppeal(t.appeals, d) == Some(a)
    && AddressesKept(t0.validators, t.validators)
    && t.appeals[a].panel == t0.appeals[a].panel && t.appeals[a].votingDeadline == t0.appeals[a].votingDeadline
    && match t.appeals[a].status
       case Voting =>
         && Choices(t.appeals[a]) == Choices(t0.appeals[a]) + ChoicesOf(casts[..n])
         && (forall id :: id in Voters(t.appeals[a]) ==>
               id in Voters(t0.appeals[a]) || exists i :: 0 <= i < n && casts[i].validatorId == id)
       case Decided =>
         t.appeals[a].decision
         == Some(AtDeadline(Choices(t0.appeals[a]) + ChoicesOf(casts), |t0.appeals[a].panel|))
  }

  lemma AllFitThePanel(t: Tables, c: Config, a: nat, casts: seq<Cast>)
    requires Inv(t, c) && a < |t.appeals| && ProperVotes(t, a, casts)
    ensures |Choices(t.appeals[a]) + ChoicesOf(casts)| <= |t.appeals[a].panel|
  {
    assert AppealOk(t.appeals[a], t.disputes);
    var ids := Voters(t.appeals[a]) + seq(|casts|, i requires 0 <= i < |casts| => casts[i].validatorId);
    var n := |Voters(t.appeals[a])|;
    forall i, j | 0 <= i < j < |ids| ensures ids[i] != ids[j] {
      if i < n && n <= j {
        assert casts[j - n].validatorId !in Voters(t.appeals[a]);
        assert ids[i] in Voters(t.appeals[a]);
      }
    }
    DistinctWithin(ids, t.appeals[a].panel);
  }

  lemma HarmlessPrefix(t: Tables, c: Config, a: nat, d: Id, items: seq<Item>)
    requires a < |t.appeals| && items != [] && AllHarmless(t, c, a, d, items)
    ensures AllHarmless(t, c, a, d, items[..|items| - 1])
    ensures var s, last := Played(t, c, d, items[..|items| - 1]), items[|items| - 1];
            last.Other? ==> a < |s.appeals| && Harmless(s, c, a, d, last.event)
  {
    var init := items[..|items| - 1];
    forall k | 0 <= k < |init| ensures init[..k] == items[..k] && init[k] == items[k] {
    }
  }

  /** After the items the appeal is open with the intended votes among them recorded, or decided as all the
      intended votes decide it. */
  lemma {:induction false} PlayedProgress(t: Tables, c: Config, a: nat, d: Id, items: seq<Item>, casts: seq<Cast>)
    requires Inv(t, c) && FindAppeal(t.appeals, d) == Some(a) && t.appeals[a].status == Voting
    requires IntendedIn(items) <= casts && ProperVotes(t, a, casts) && AllHarmless(t, c, a, d, items)
    ensures Inv(Played(t, c, d, items), c)
    ensures Progress(t, Played(t, c, d, items), a, d, casts, |IntendedIn(items)|)
    decreases |items|
  {
    if items == [] {
      NothingCast(t, a, d, casts);
    } else {
      var init, last := items[..|items| - 1], items[|items| - 1];
      HarmlessPrefix(t, c, a, d, items);
      IntendedLast(items, casts);
      PlayedProgress(t, c, a, d, init, casts);
      PlayedNext(t, Played(t, c, d, init), c, a, d, items, casts);
    }
  }

  lemma PlayedNext(t: Tables, s: Tables, c: Config, a: nat, d: Id, items: seq<Item>, casts: seq<Cast>)
    requires Inv(t, c) && Inv(s, c) && FindAppeal(t.appeals, d) == Some(a) && t.appeals[a].status == Voting
    requires items != [] && IntendedIn(items) <= casts && ProperVotes(t, a, casts)
    requires var init, last := items[..|items| - 1], items[|items| - 1];
             && s == Played(t, c, d, init) && IntendedIn(init) <= casts
             && Progress(t, s, a, d, casts, |IntendedIn(init)|)
             && (last.Other? ==> Harmless(s, c, a, d, last.event))
    ensures Inv(Played(t, c, d, items), c)
    ensures Progress(t, Played(t, c, d, items), a, d, casts, |IntendedIn(items)|)
  {
    IntendedLast(items, casts);
    ItemStep(t, s, c, a, d, casts, |IntendedIn(items[..|items| - 1])|, items[|items| - 1]);
  }

  lemma IntendedLast(items: seq<Item>, casts: seq<Cast>)
    requires items != [] && IntendedIn(items) <= casts
    ensures var m, last := |IntendedIn(items[..|items| - 1])|, items[|items| - 1];
            && IntendedIn(items[..|items| - 1]) <= casts
            && |IntendedIn(items)| == (if last.Intended? then m + 1 else m)
            && (last.Intended? ==> m < |casts| && casts[m] == last.cast)
  {
    var m, last := |IntendedIn(items[..|items| - 1])|, items[|items| - 1];
    if last.Intended? {
      assert IntendedIn(items)[m] == last.cast;
    }
  }

  lemma ItemStep(t: Tables, s: Tables, c: Config, a: nat, d: Id, casts: seq<Cast>, m: nat, item: Item)
    requires Inv(t, c) && Inv(s, c) && FindAppeal(t.appeals, d) == Some(a) && t.appeals[a].status == Voting
    requires m <= |casts| && ProperVotes(t, a, casts) && Progress(t, s, a, d, casts, m)
    requires item.Intended? ==> m < |casts| && casts[m] == item.cast
    requires item.Other? ==> Harmless(s, c, a, d, item.event)
    ensures Inv(Play(s, c, d, item), c)
    ensures Progress(t, Play(s, c, d, item), a, d, casts, if item.Intended? then m + 1 else m)
  {
    match item
    case Intended(_) => CastNext(t, s, c, a, d, casts, m);
    case Other(event) => OtherNext(t, s, c, a, d, casts, m, event);
  }

  lemma OtherNext(t: Tables, s: Tables, c: Config, a: nat, d: Id, casts: seq<Cast>, n: nat, e: Event)
    requires a < |t.appeals| && n <= |casts| && Inv(s, c) && Progress(t, s, a, d, casts, n)
    requires Harmless(s, c, a, d, e)
    ensures Inv(Step(s, c, e).0, c) && Progress(t, Step(s, c, e).0, a, d, casts, n)
  {
    StepKeeps(s, c, e);
    StepKeepsAddresses(s, c, e);
    HarmlessKeepsAppeal(s, c, a, d, e);
    SameProgress(t, s, Step(s, c, e).0, a, d, casts, n);
  }

  lemma SameProgress(t: Tables, s: Tables, s': Tables, a: nat, d: Id, casts: seq<Cast>, n: nat)
    requires a < |t.appeals| && n <= |casts| && Progress(t, s, a, d, casts, n)
    requires SameAppeal(s, s', a, d) && AddressesKept(s.validators, s'.validators)
    ensures Progress(t, s', a, d, casts, n)
  {
  }

  lemma NothingCast(t: Tables, a: nat, d: Id, casts: seq<Cast>)
    requires a < |t.appeals| && FindAppeal(t.appeals, d) == Some(a) && t.appeals[a].status == Voting
    ensures Progress(t, t, a, d, casts, 0)
  {
    assert Choices(t.appeals[a]) + ChoicesOf(casts[..0]) == Choices(t.appeals[a]);
  }

  lemma CastNext(t: Tables, s: Tables, c: Config, a: nat, d: Id, casts: seq<Cast>, n: nat)
    requires Inv(t, c) && Inv(s, c) && FindAppeal(t.appeals, d) == Some(a) && t.appeals[a].status == Voting
    requires n < |casts| && ProperVotes(t, a, casts) && Progress(t, s, a, d, casts, n)
    ensures Inv(Vote(s, c, d, casts[n]).0, c) && Progress(t, Vote(s, c, d, casts[n]).0, a, d, casts, n + 1)
  {
    VoteKeeps(s, c, d, casts[n]);
    if s.appeals[a].status == Voting {
      CastOne(t, s, c, a, d, casts, n);
    } else {
      LateVoteRefused(t, s, c, a, d, casts, n);
    }
  }

  lemma LateVoteRefused(t: Tables, s: Tables, c: Config, a: nat, d: Id, casts: seq<Cast>, n: nat)
    requires a < |t.appeals| && n < |casts| && Progress(t, s, a, d, casts, n) && s.appeals[a].status == Decided
    ensures Vote(s, c, d, casts[n]).0 == s && Progress(t, s, a, d, casts, n + 1)
  {
  }

  /** A proper vote on an appeal that is still open is accepted. */
  lemma ProperVoteAccepted(t: Tables, s: Tables, c: Config, a: nat, d: Id, casts: seq<Cast>, n: nat)
    requires a < |t.appeals| && n < |casts| && ProperVotes(t, a, casts) && Inv(s, c)
    requires Progress(t, s, a, d, casts, n) && s.appeals[a].status == Voting
    ensures VoteRefusal(s, a, casts[n]) == None
  {
    SignaturesStayGood(t.validators, s.validators, c, casts[n]);
    assert casts[n].validatorId !in Voters(s.appeals[a]);
  }

  lemma CastOne(t: Tables, s: Tables, c: Config, a: nat, d: Id, casts: seq<Cast>, n: nat)
    requires Inv(t, c) && Inv(s, c) && FindAppeal(t.appeals, d) == Some(a) && t.appeals[a].status == Voting
    requires n < |casts| && ProperVotes(t, a, casts)
    requires Progress(t, s, a, d, casts, n) && s.appeals[a].status == Voting
    ensures Progress(t, Vote(s, c, d, casts[n]).0, a, d, casts, n + 1)
  {
    var cast := casts[n];
    ProperVoteAccepted(t, s, c, a, d, casts, n);
    var voted := WithBallot(s.appeals[a], cast);
    assert AppealOk(s.appeals[a], s.disputes);
    BallotAdded(s.appeals[a], cast);
    ChoicesGrow(Choices(t.appeals[a]), casts, n);
    VotersAdded(s.appeals[a], cast);
    var saved := s.(appeals := s.appeals[a := voted]);
    FindAppealUpdate(s.appeals, a, voted, d);
    assert saved.appeals[a] == voted;
    if TallyOf(voted).decision.Some? {
      DecidedEarly(t, c, a, casts, n + 1, voted);
      DecidedProgress(t, s, saved, c, a, d, casts, n + 1);
    } else {
      StillOpen(s, c, a, d, cast);
      OpenProgress(t, s, saved, a, d, casts, n);
    }
  }

  lemma OpenProgress(t: Tables, s: Tables, saved: Tables, a: nat, d: Id, casts: seq<Cast>, n: nat)
    requires a < |t.appeals| && n < |casts| && Progress(t, s, a, d, casts, n) && s.appeals[a].status == Voting
    requires saved == s.(appeals := s.appeals[a := WithBallot(s.appeals[a], casts[n])])
    requires FindAppeal(saved.appeals, d) == Some(a)
    requires Choices(saved.appeals[a]) == Choices(t.appeals[a]) + ChoicesOf(casts[..n + 1])
    requires Voters(saved.appeals[a]) == Voters(s.appeals[a]) + [casts[n].validatorId]
    ensures Progress(t, saved, a, d, casts, n + 1)
  {
  }

  lemma DecidedEarly(t: Tables, c: Config, a: nat, casts: seq<Cast>, n: nat, voted: Appeal)
    requires Inv(t, c) && a < |t.appeals| && ProperVotes(t, a, casts) && n <= |casts|
    requires voted.panel == t.appeals[a].panel
    requires Choices(voted) == Choices(t.appeals[a]) + ChoicesOf(casts[..n]) && TallyOf(voted).decision.Some?
    ensures TallyOf(voted).decision == Some(AtDeadline(Choices(t.appeals[a]) + ChoicesOf(casts), |t.appeals[a].panel|))
  {
    AllFitThePanel(t, c, a, casts);
    EarlyIsDeadline(Choices(t.appeals[a]), casts, n, |voted.panel|);
  }

  lemma StillOpen(s: Tables, c: Config, a: nat, d: Id, cast: Cast)
    requires FindAppeal(s.appeals, d) == Some(a) && a < |s.appeals| && VoteRefusal(s, a, cast) == None
    requires TallyOf(WithBallot(s.appeals[a], cast)).decision == None
    ensures Vote(s, c, d, cast) == (s.(appeals := s.appeals[a := WithBallot(s.appeals[a], cast)]), Done)
  {
  }

  lemma ChoicesGrow(start: seq<AppealVoteChoice>, casts: seq<Cast>, n: nat)
    requires n < |casts|
    ensures start + ChoicesOf(casts[..n + 1]) == start + ChoicesOf(casts[..n]) + [casts[n].choice]
  {
  }

  lemma EarlyIsDeadline(start: seq<AppealVoteChoice>, casts: seq<Cast>, n: nat, panelSize: nat)
    requires n <= |casts| && |start + ChoicesOf(casts)| <= panelSize
    requires TallyAppeal(start + ChoicesOf(casts[..n]), panelSize).decision.Some?
    ensures TallyAppeal(start + ChoicesOf(casts[..n]), panelSize).decision
         == Some(AtDeadline(start + ChoicesOf(casts), panelSize))
  {
    var early, more := start + ChoicesOf(casts[..n]), ChoicesOf(casts)[n..];
    assert start + ChoicesOf(casts) == early + more;
    EarlyDecisionStands(early, more, panelSize);
  }

  lemma FindAppealUpdate(rows: seq<Appeal>, k: nat, row: Appeal, d: Id)
    requires k < |rows| && row.disputeId == rows[k].disputeId
    ensures FindAppeal(rows[k := row], d) == FindAppeal(rows, d)
  {
    FindFirstUpdate(rows, k, row, (a: Appeal) => a.disputeId == d);
  }

  lemma DecidingTouchesOne(t: Tables, c: Config, a: nat, decision: AppealDecision, now: int)
    requires a < |t.appeals| && t.appeals[a].disputeId in t.disputes
    ensures var t' := DecideAppeal(t, c, a, decision, now).0;
            && |t'.appeals| == |t.appeals|
            && (forall i :: 0 <= i < |t.appeals| && i != a ==> t'.appeals[i] == t.appeals[i])
            && (forall d :: d in t.disputes && d != t.appeals[a].disputeId ==>
                  d in t'.disputes && t'.disputes[d] == t.disputes[d])
            && t'.validators == t.validators
            && t'.appeals[a] == t.appeals[a].(status := Decided, decision := Some(decision), decidedAt := Some(now))
  {
  }

  lemma DecidedProgress(t: Tables, s: Tables, saved: Tables, c: Config, a: nat, d: Id, casts: seq<Cast>, n: nat)
    requires a < |t.appeals| && a < |s.appeals| && 0 < n <= |casts|
    requires saved == s.(appeals := s.appeals[a := WithBallot(s.appeals[a], casts[n - 1])])
    requires FindAppeal(s.appeals, d) == Some(a) && FindAppeal(saved.appeals, d) == Some(a)
    requires VoteRefusal(s, a, casts[n - 1]) == None
    requires AddressesKept(t.validators, s.validators) && d in s.disputes
    requires saved.appeals[a].disputeId == d
    requires saved.appeals[a].panel == t.appeals[a].panel
    requires saved.appeals[a].votingDeadline == t.appeals[a].votingDeadline
    requires TallyOf(saved.appeals[a]).decision
          == Some(AtDeadline(Choices(t.appeals[a]) + ChoicesOf(casts), |t.appeals[a].panel|))
    ensures Progress(t, Vote(s, c, d, casts[n - 1]).0, a, d, casts, n)
  {
    var decision := TallyOf(saved.appeals[a]).decision.value;
    DecidingTouchesOne(saved, c, a, decision, casts[n - 1].now);
    var after := DecideAppeal(saved, c, a, decision, casts[n - 1].now).0;
    assert after.appeals == saved.appeals[a := after.appeals[a]];
    FindAppealUpdate(saved.appeals, a, after.appeals[a], d);
    assert Vote(s, c, d, casts[n - 1]).0 == after;
  }

  lemma VotersAdded(a: Appeal, cast: Cast)
    ensures Voters(WithBallot(a, cast)) == Voters(a) + [cast.validatorId]
  {
  }

  /** Early closing agrees with the deadline count: whatever order the intended votes arrive in, whatever else
      happens in between, and whether or not the appeal closes early, what is recorded is the count of all
      of them. */
  lemma EarlyClosingAgreesWithDeadline(t: Tables, c: Config, a: nat, d: Id, casts: seq<Cast>, items: seq<Item>,
                                       now: int)
    requires Inv(t, c) && FindAppeal(t.appeals, d) == Some(a) && t.appeals[a].status == Voting
    requires ProperVotes(t, a, IntendedIn(items)) && multiset(IntendedIn(items)) == multiset(casts)
    requires AllHarmless(t, c, a, d, items) && now > t.appeals[a].votingDeadline
    ensures var closed := Close(Played(t, c, d, items), c, d, now).0;
            && a < |closed.appeals| && closed.appeals[a].status == Decided
            && closed.appeals[a].decision
               == Some(AtDeadline(Choices(t.appeals[a]) + ChoicesOf(casts), |t.appeals[a].panel|))
  {
    var order := IntendedIn(items);
    assert order[..|order|] == order;
    PlayedProgress(t, c, a, d, items, order);
    SameChoices(casts, order);
    var first := Choices(t.appeals[a]);
    assert multiset(first + ChoicesOf(casts)) == multiset(first + ChoicesOf(order));
    DeadlineIgnoresOrder(first + ChoicesOf(casts), first + ChoicesOf(order), |t.appeals[a].panel|);
    CloseAfterDeadline(Played(t, c, d, items), c, a, d, now);
  }

  /** Closing after the deadline decides by the count at the deadline. */
  lemma CloseAfterDeadline(s: Tables, c: Config, a: nat, d: Id, now: int)
    requires Inv(s, c) && FindAppeal(s.appeals, d) == Some(a) && now > s.appeals[a].votingDeadline
    ensures var closed := Close(s, c, d, now).0;
            && a < |closed.appeals| && closed.appeals[a].status == Decided
            && closed.appeals[a].decision
               == if s.appeals[a].status == Decided then s.appeals[a].decision
                  else Some(AtDeadline(Choices(s.appeals[a]), |s.appeals[a].panel|))
  {
    assert AppealOk(s.appeals[a], s.disputes);
    if s.appeals[a].status == Voting {
      DecidingTouchesOne(s, c, a, AtDeadline(Choices(s.appeals[a]), |s.appeals[a].panel|), now);
    }
  }

  /** Reordered votes carry the same choices. */
  lemma {:induction false} SameChoices(a: seq<Cast>, b: seq<Cast>)
    requires multiset(a) == multiset(b)
    ensures multiset(ChoicesOf(a)) == multiset(ChoicesOf(b))
  {
    if a == [] {
      assert |multiset(b)| == |b|;
    } else {
      var k := PlaceOf(a, b);
      SameChoices(a[1..], b[..k] + b[k + 1..]);
      FirstChoice(a);
      ChoicesAround(b, k);
    }
  }

  lemma FirstChoice(a: seq<Cast>)
    requires a != []
    ensures multiset(ChoicesOf(a)) == multiset(ChoicesOf(a[1..])) + multiset{a[0].choice}
  {
    assert ChoicesOf(a) == [a[0].choice] + ChoicesOf(a[1..]);
  }

  lemma PlaceOf(a: seq<Cast>, b: seq<Cast>) returns (k: nat)
    requires a != [] && multiset(a) == multiset(b)
    ensures k < |b| && b[k] == a[0] && multiset(a[1..]) == multiset(b[..k] + b[k + 1..])
  {
    assert a[0] in multiset(b);
    k :| 0 <= k < |b| && b[k] == a[0];
    assert b == b[..k] + [b[k]] + b[k + 1..];
    assert a == [a[0]] + a[1..];
    assert multiset(a[1..]) == multiset(a) - multiset{a[0]};
  }

  lemma ChoicesAround(b: seq<Cast>, k: nat)
    requires k < |b|
    ensures multiset(ChoicesOf(b)) == multiset(ChoicesOf(b[..k] + b[k + 1..])) + multiset{b[k].choice}
  {
    assert ChoicesOf(b) == ChoicesOf(b[..k]) + [b[k].choice] + ChoicesOf(b[k + 1..]);
    assert ChoicesOf(b[..k] + b[k + 1..]) == ChoicesOf(b[..k]) + ChoicesOf(b[k + 1..]);
  }
}
