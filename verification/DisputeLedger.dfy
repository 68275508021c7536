/**
 The stake ledger over whole runs: what each validator brought in is what it still has plus what approved
 proposals took, up to a drift that is known exactly for every call and every failure.
 */
module DisputeLedger {
  import opened Basics
  import opened AppealQuorum
  import opened StakingTiers
  import opened DisputeTables
  import opened DisputeInvariants
  import opened DisputeFrames

  /** Stake taken from a validator by approved proposals. */
  function ApprovedSum(rows: seq<Proposal>, id: Id): nat {
    if rows == [] then 0
    else
      var last := rows[|rows| - 1];
      ApprovedSum(rows[..|rows| - 1], id) + if last.validatorId == id && last.status == Approved then last.amount else 0
  }

  function Taken(p: Proposal, id: Id): nat {
    if p.validatorId == id && p.status == Approved then p.amount else 0
  }

  lemma {:induction false} SumUpdate(rows: seq<Proposal>, k: nat, p: Proposal, id: Id)
    requires k < |rows|
    ensures ApprovedSum(rows[k := p], id) + Taken(rows[k], id) == ApprovedSum(rows, id) + Taken(p, id)
  {
    var n := |rows| - 1;
    if k < n {
      SumUpdate(rows[..n], k, p, id);
      assert rows[k := p][..n] == rows[..n][k := p];
    } else {
      assert rows[k := p][..n] == rows[..n];
    }
  }

  lemma {:induction false} SumAppend(rows: seq<Proposal>, more: seq<Proposal>, id: Id)
    requires forall i :: 0 <= i < |more| ==> more[i].status != Approved
    ensures ApprovedSum(rows + more, id) == ApprovedSum(rows, id)
  {
    if more == [] {
      assert rows + more == rows;
    } else {
      assert (rows + more)[..|rows + more| - 1] == rows + more[..|more| - 1];
      SumAppend(rows, more[..|more| - 1], id);
    }
  }

  lemma {:induction false} SumCongruence(a: seq<Proposal>, b: seq<Proposal>, id: Id)
    requires |a| == |b| && forall i :: 0 <= i < |a| ==> Taken(a[i], id) == Taken(b[i], id)
    ensures ApprovedSum(a, id) == ApprovedSum(b, id)
  {
    if a != [] {
      assert Taken(a[|a| - 1], id) == Taken(b[|b| - 1], id);
      SumCongruence(a[..|a| - 1], b[..|b| - 1], id);
    }
  }

  lemma {:induction false} SumUnknown(rows: seq<Proposal>, id: Id)
    requires forall i :: 0 <= i < |rows| ==> rows[i].validatorId != id
    ensures ApprovedSum(rows, id) == 0
  {
    if rows != [] {
      SumUnknown(rows[..|rows| - 1], id);
    }
  }

  function StakeOf(rows: seq<Validator>, id: Id): nat {
    match FindValidator(rows, id)
    case None => 0
    case Some(v) => rows[v].stake
  }

  lemma StakeAt(rows: seq<Validator>, v: nat)
    requires v < |rows| && forall i, j :: 0 <= i < j < |rows| ==> rows[i].id != rows[j].id
    ensures StakeOf(rows, rows[v].id) == rows[v].stake
    ensures FindValidator(rows, rows[v].id) == Some(v)
  {
  }

  /** A validator's current stake together with everything approved proposals took from it. */
  function Holdings(t: Tables, id: Id): nat {
    StakeOf(t.validators, id) + ApprovedSum(t.proposals, id)
  }

  lemma WithinConserves(t: Tables, t': Tables, d: Id, id: Id)
    requires Within(t, t', d)
    ensures Holdings(t', id) == Holdings(t, id)
  {
    var n := |t.proposals|;
    var head, tail := t'.proposals[..n], t'.proposals[n..];
    assert t'.proposals == head + tail;
    SumAppend(head, tail, id);
    SumCongruence(t.proposals, head, id);
  }

  // ----------------------------------------------------------------- approvals

  predicate Pending(t: Tables, p: nat) { p < |t.proposals| && t.proposals[p].status == Proposed }

  /** The stake is written before every failure but these. */
  predicate StakeWritten(fault: Fault) { fault == NoFault || fault.AtProposalSave? }

  /** The row is left reading `approved`. */
  predicate ReadsExecuted(fault: Fault) { fault == NoFault || fault == AtReread || RestoreFails(fault) }

  /** The proposal row an approval leaves. */
  function RowAfter(row: Proposal, operator: string, fault: Fault, stake: nat): Proposal {
    if fault == NoFault then row.(status := Approved, decidedBy := Some(operator), amount := Min(row.amount, stake))
    else if ReadsExecuted(fault) then row.(status := Approved, decidedBy := Some(operator))
    else row
  }

  function CutRow(row: Validator, amount: nat, c: Config): Validator {
    var left := row.stake - Min(amount, row.stake);
    row.(stake := left, tier := TierOf(left, c.minStakeWei).tier)
  }

  /** The rows an approval of a pending proposal leaves, for each way it can end. */
  lemma ApproveShape(t: Tables, c: Config, p: nat, operator: string, fault: Fault, v: nat)
    requires Inv(t, c) && Pending(t, p)
    requires FindValidator(t.validators, t.proposals[p].validatorId) == Some(v)
    ensures var row, holder := t.proposals[p], t.validators[v];
            Approve(t, c, p, operator, fault).0
            == t.(validators := if StakeWritten(fault) then t.validators[v := CutRow(holder, row.amount, c)]
                                else t.validators,
                  proposals := t.proposals[p := RowAfter(row, operator, fault, holder.stake)])
    ensures Approve(t, c, p, operator, fault).1.Done? <==> fault == NoFault
  {
    var row := t.proposals[p];
    assert ProposalOk(row, t.disputes, c);
    assert row.(status := Proposed, decidedBy := None) == row;
    assert t.proposals[p := row] == t.proposals;
  }

  lemma NotPendingIsNoOp(t: Tables, c: Config, p: nat, operator: string, fault: Fault)
    requires !Pending(t, p)
    ensures Approve(t, c, p, operator, fault).0 == t && Approve(t, c, p, operator, fault).1.Refused?
  {
  }

  lemma PendingHasValidator(t: Tables, c: Config, p: nat) returns (v: nat)
    requires Inv(t, c) && p < |t.proposals|
    ensures FindValidator(t.validators, t.proposals[p].validatorId) == Some(v) && v < |t.validators|
    ensures t.validators[v].id == t.proposals[p].validatorId
  {
    assert KnownValidator(t.validators, t.proposals[p].validatorId);
    v := FindValidator(t.validators, t.proposals[p].validatorId).value;
  }

  lemma StakeAfterCut(rows: seq<Validator>, v: nat, row: Validator, id: Id)
    requires v < |rows| && row.id == rows[v].id
    requires forall i, j :: 0 <= i < j < |rows| ==> rows[i].id != rows[j].id
    ensures StakeOf(rows[v := row], id) == if id == rows[v].id then row.stake else StakeOf(rows, id)
  {
    var rows' := rows[v := row];
    match FindValidator(rows', id)
    case None =>
      assert forall i :: 0 <= i < |rows| ==> rows'[i].id == rows[i].id;
    case Some(i) =>
      StakeAt(rows, i);
      StakeAt(rows', i);
  }

  /** How far an approval moves the holdings of its validator: what the row claims more than was taken,
      or less. */
  function ApproveDrift(amount: nat, stake: nat, fault: Fault): int {
    match fault
    case NoFault => 0
    case AtUpdate => 0
    case AtReread => amount
    case BeforeStakeWrite(lost) => if lost then amount else 0
    case AtProposalSave(lost) => (if lost then amount else 0) - Min(amount, stake)
  }

  /** Every way an approval can end moves the holdings by exactly its drift. */
  lemma ApproveConserves(t: Tables, c: Config, p: nat, operator: string, fault: Fault, id: Id)
    requires Inv(t, c)
    ensures Holdings(Approve(t, c, p, operator, fault).0, id)
         == Holdings(t, id)
            + if Pending(t, p) && t.proposals[p].validatorId == id
              then ApproveDrift(t.proposals[p].amount, StakeOf(t.validators, id), fault) else 0
  {
    if Pending(t, p) {
      var v := PendingHasValidator(t, c, p);
      ApproveShape(t, c, p, operator, fault, v);
      PendingConserves(t, Approve(t, c, p, operator, fault).0, c, p, operator, fault, v, id);
    } else {
      NotPendingIsNoOp(t, c, p, operator, fault);
    }
  }

  lemma PendingConserves(t: Tables, after: Tables, c: Config, p: nat, operator: string, fault: Fault, v: nat, id: Id)
    requires Inv(t, c) && Pending(t, p) && v < |t.validators| && t.validators[v].id == t.proposals[p].validatorId
    requires var row, holder := t.proposals[p], t.validators[v];
             && after.validators == (if StakeWritten(fault) then t.validators[v := CutRow(holder, row.amount, c)]
                                     else t.validators)
             && after.proposals == t.proposals[p := RowAfter(row, operator, fault, holder.stake)]
    ensures Holdings(after, id)
         == Holdings(t, id) + if t.proposals[p].validatorId == id
                              then ApproveDrift(t.proposals[p].amount, StakeOf(t.validators, id), fault) else 0
  {
    var row, holder := t.proposals[p], t.validators[v];
    SumUpdate(t.proposals, p, RowAfter(row, operator, fault, holder.stake), id);
    StakeAt(t.validators, v);
    StakeAfterCut(t.validators, v, CutRow(holder, row.amount, c), id);
  }

  /** The failures after which row and stake still add up. */
  predicate Tracks(amount: nat, stake: nat, fault: Fault) {
    match fault
    case NoFault => true
    case AtUpdate => true
    case AtReread => false
    case BeforeStakeWrite(lost) => !lost
    case AtProposalSave(lost) => if lost then amount <= stake else stake == 0
  }

  lemma DriftsExactly(amount: nat, stake: nat, fault: Fault)
    requires amount > 0
    ensures ApproveDrift(amount, stake, fault) == 0 <==> Tracks(amount, stake, fault)
  {
  }

  /** A failed approval leaves everything as it was if and only if it is not one of these: the claim was
      written and not put back, or there was stake to take and it was taken. */
  predicate LeavesTrace(t: Tables, p: nat, fault: Fault) {
    Pending(t, p)
    && (ReadsExecuted(fault) || (fault.AtProposalSave? && StakeOf(t.validators, t.proposals[p].validatorId) > 0))
  }

  lemma FailedApprovalIsNoOp(t: Tables, c: Config, p: nat, operator: string, fault: Fault)
    requires Inv(t, c) && fault != NoFault
    ensures Approve(t, c, p, operator, fault).1.Refused?
    ensures Approve(t, c, p, operator, fault).0 == t <==> !LeavesTrace(t, p, fault)
  {
    if Pending(t, p) {
      var v := PendingHasValidator(t, c, p);
      ApproveShape(t, c, p, operator, fault, v);
      StakeAt(t.validators, v);
      TraceShows(t, c, p, operator, fault, v);
    } else {
      NotPendingIsNoOp(t, c, p, operator, fault);
    }
  }

  lemma TraceShows(t: Tables, c: Config, p: nat, operator: string, fault: Fault, v: nat)
    requires Inv(t, c) && Pending(t, p) && fault != NoFault
    requires FindValidator(t.validators, t.proposals[p].validatorId) == Some(v)
    ensures var row, holder := t.proposals[p], t.validators[v];
            && (t.proposals[p := RowAfter(row, operator, fault, holder.stake)] == t.proposals
                <==> !ReadsExecuted(fault))
            && (t.validators[v := CutRow(holder, row.amount, c)] == t.validators <==> holder.stake == 0)
  {
    var row, holder := t.proposals[p], t.validators[v];
    assert ProposalOk(row, t.disputes, c);
    var after := RowAfter(row, operator, fault, holder.stake);
    assert t.proposals[p := after][p] == after;
    assert t.validators[v := CutRow(holder, row.amount, c)][v] == CutRow(holder, row.amount, c);
  }

  /** The stake falls and the row reads `approved` as these conditions say, so the row tells the truth about
      a validator with stake unless the claim stayed without a cut or the cut stayed without a claim. */
  lemma RowTellsTheTruthExactly(t: Tables, c: Config, p: nat, operator: string, fault: Fault)
    requires Inv(t, c) && Pending(t, p) && StakeOf(t.validators, t.proposals[p].validatorId) > 0
    ensures var id, after := t.proposals[p].validatorId, Approve(t, c, p, operator, fault).0;
            && |after.proposals| == |t.proposals|
            && (StakeOf(after.validators, id) < StakeOf(t.validators, id) <==> StakeWritten(fault))
            && (after.proposals[p].status == Approved <==> ReadsExecuted(fault))
            && ((after.proposals[p].status == Approved <==> StakeOf(after.validators, id) < StakeOf(t.validators, id))
                <==> !(fault == AtReread || fault == BeforeStakeWrite(true) || fault == AtProposalSave(false)))
  {
    var v := PendingHasValidator(t, c, p);
    assert ProposalOk(t.proposals[p], t.disputes, c);
    ApproveShape(t, c, p, operator, fault, v);
    StakeAt(t.validators, v);
    StakeAfterCut(t.validators, v, CutRow(t.validators[v], t.proposals[p].amount, c), t.proposals[p].validatorId);
  }

  /** A state with one pending proposal of 10 against a stake of 100. */
  lemma Example() returns (t: Tables, c: Config)
    ensures Inv(t, c) && Pending(t, 0) && t.proposals == [Proposal("v", "d", "s", 100, 10, Proposed, None)]
    ensures FindValidator(t.validators, "v") == Some(0) && t.validators[0].stake == 100
  {
    c := Config(1, true, 1000, 0, 0, NaN, (s: string, i: Id) => 1.0);
    var row := Validator("v", "0x0", 100, TierOf(100, 1).tier, true);
    var p := Proposal("v", "d", "s", 100, 10, Proposed, None);
    t := Tables(map["d" := Dispute("s", Resolved, Some(Overturned), Some(0))], [], [p], [row], map["s" := ["v"]]);
    assert SlashAmount(100, 1000) == 10;
    assert KnownValidator(t.validators, "v") by { assert t.validators[0].id == "v"; }
  }

  /** The last write fails: the proposal reads as pending again, the stake is gone. Approved once more, one
      proposal of 10 has cost 20. */
  lemma ProposalCanBeCutTwice() returns (t: Tables, c: Config)
    ensures Inv(t, c) && StakeOf(t.validators, "v") == 100 && Pending(t, 0) && t.proposals[0].amount == 10
    ensures var once := Approve(t, c, 0, "op", AtProposalSave(false)).0;
            && StakeOf(once.validators, "v") == 90 && once.proposals == t.proposals
            && StakeOf(Approve(once, c, 0, "op", NoFault).0.validators, "v") == 80
  {
    t, c := Example();
    var once := Approve(t, c, 0, "op", AtProposalSave(false)).0;
    ApproveShape(t, c, 0, "op", AtProposalSave(false), 0);
    ApproveKeeps(t, c, 0, "op", AtProposalSave(false));
    assert once.proposals[0] == t.proposals[0];
    StakeAfterCut(t.validators, 0, CutRow(t.validators[0], 10, c), "v");
    StakeAt(once.validators, 0);
    ApproveShape(once, c, 0, "op", NoFault, 0);
    StakeAfterCut(once.validators, 0, CutRow(once.validators[0], 10, c), "v");
  }

  /** The read after the conditional update fails: the row reads `approved` for good, no stake was taken. */
  lemma ApprovalCanTakeNothing() returns (t: Tables, c: Config)
    ensures Inv(t, c) && Pending(t, 0) && StakeOf(t.validators, "v") == 100
    ensures var after := Approve(t, c, 0, "op", AtReread).0;
            && after.validators == t.validators && after.proposals[0].status == Approved
            && Holdings(after, "v") == Holdings(t, "v") + 10
  {
    t, c := Example();
    ApproveShape(t, c, 0, "op", AtReread, 0);
    StakeAt(t.validators, 0);
    ApproveConserves(t, c, 0, "op", AtReread, "v");
  }

  // --------------------------------------------------------------- other calls

  lemma RegisterConserves(t: Tables, c: Config, x: Id, address: string, stake: nat, id: Id)
    requires Inv(t, c) && KnownValidator(t.validators, id)
    ensures Holdings(Register(t, c, x, address, stake).0, id) == Holdings(t, id)
  {
    var v :| 0 <= v < |t.validators| && t.validators[v].id == id;
    var rows := Register(t, c, x, address, stake).0.validators;
    assert rows[v] == t.validators[v];
    StakeAt(t.validators, v);
    RegisterKeeps(t, c, x, address, stake);
    StakeAt(rows, v);
  }

  lemma ExitConserves(t: Tables, c: Config, x: Id, id: Id)
    requires Inv(t, c)
    ensures Holdings(Exit(t, x).0, id) == Holdings(t, id)
  {
    var v := FindValidator(t.validators, x);
    if v.Some? {
      StakeAt(t.validators, v.value);
      StakeAfterCut(t.validators, v.value, t.validators[v.value].(isActive := false), id);
    }
  }

  lemma UpdateStakeMoves(t: Tables, c: Config, x: Id, stake: nat, id: Id)
    requires Inv(t, c) && KnownValidator(t.validators, id)
    ensures Holdings(UpdateStake(t, c, x, stake).0, id)
         == Holdings(t, id) + if x == id then stake - StakeOf(t.validators, id) else 0
  {
    var v := FindValidator(t.validators, x);
    if v.Some? {
      StakeAt(t.validators, v.value);
      StakeAfterCut(t.validators, v.value,
                    t.validators[v.value].(stake := stake, tier := TierOf(stake, c.minStakeWei).tier), id);
    }
  }

  /** How far a call moves the holdings of a registered validator: outside edits and the failures above. */
  function Drift(t: Tables, e: Event, id: Id): int {
    if FindValidator(t.validators, id).None? then 0
    else
      match e
      case DoUpdateStake(x, stake) => if x == id then stake - StakeOf(t.validators, id) else 0
      case DoApprove(p, _, fault) =>
        if Pending(t, p) && t.proposals[p].validatorId == id
        then ApproveDrift(t.proposals[p].amount, StakeOf(t.validators, id), fault) else 0
      case _ => 0
  }

  /** Every call, interrupted anywhere, moves the holdings by exactly its drift. */
  lemma StepConserves(t: Tables, c: Config, e: Event, id: Id)
    requires Inv(t, c) && KnownValidator(t.validators, id)
    ensures Holdings(Step(t, c, e).0, id) == Holdings(t, id) + Drift(t, e, id)
  {
    match e
    case DoRegister(x, address, stake) => RegisterConserves(t, c, x, address, stake, id);
    case DoUpdateStake(x, stake) => UpdateStakeMoves(t, c, x, stake, id);
    case DoExit(x) => ExitConserves(t, c, x, id);
    case DoPublish(s, signatures) =>
    case DoOpen(x, s) =>
    case DoCall(call) =>
      CallFrame(t, c, call, 0);
      WithinConserves(t, Called(t, c, call).0, DisputeOf(call), id);
    case DoInterrupted(call, writes) =>
      CallFrame(t, c, call, writes);
      WithinConserves(t, Interrupted(t, c, call, writes), DisputeOf(call), id);
    case DoApprove(p, operator, fault) => ApproveConserves(t, c, p, operator, fault, id);
  }

  // --------------------------------------------------------------------- runs

  /** What each validator brought in when it registered. */
  function Deposits(c: Config, events: seq<Event>): map<Id, nat> {
    if events == [] then map[]
    else
      var before, e := events[..|events| - 1], events[|events| - 1];
      if e.DoRegister? && Step(Run(c, before), c, e).1.Done? then Deposits(c, before)[e.id := e.stake]
      else Deposits(c, before)
  }

  /** Outside edits of a validator's stake and lost writes, added up over a run. */
  function TotalDrift(c: Config, events: seq<Event>, id: Id): int {
    if events == [] then 0
    else
      var before, e := events[..|events| - 1], events[|events| - 1];
      TotalDrift(c, before, id) + Drift(Run(c, before), e, id)
  }

  ghost predicate SameIds(rows: seq<Validator>, rows': seq<Validator>) {
    |rows'| == |rows| && forall i :: 0 <= i < |rows| ==> rows'[i].id == rows[i].id
  }

  /** Ids of the rows a call leaves: those it found, plus the one a registration adds. */
  lemma StepRows(t: Tables, c: Config, e: Event)
    requires Inv(t, c)
    ensures !(e.DoRegister? && Step(t, c, e).1.Done?) ==> SameIds(t.validators, Step(t, c, e).0.validators)
  {
    match e
    case DoRegister(x, address, stake) =>
    case DoUpdateStake(x, stake) =>
    case DoExit(x) =>
    case DoPublish(s, signatures) =>
    case DoOpen(x, s) =>
    case DoCall(call) => CallFrame(t, c, call, 0);
    case DoInterrupted(call, writes) => CallFrame(t, c, call, writes);
    case DoApprove(p, operator, fault) =>
      if Pending(t, p) {
        var v := PendingHasValidator(t, c, p);
        ApproveShape(t, c, p, operator, fault, v);
      } else {
        NotPendingIsNoOp(t, c, p, operator, fault);
      }
  }

  /** A new validator starts with exactly the stake it registered. */
  lemma RegistrationOpensLedger(t: Tables, c: Config, x: Id, address: string, stake: nat)
    requires Inv(t, c) && Register(t, c, x, address, stake).1.Done?
    ensures Holdings(Register(t, c, x, address, stake).0, x) == stake
  {
    var rows := Register(t, c, x, address, stake).0.validators;
    RegisterKeeps(t, c, x, address, stake);
    StakeAt(rows, |t.validators|);
    forall i | 0 <= i < |t.proposals| ensures t.proposals[i].validatorId != x {
      assert KnownValidator(t.validators, t.proposals[i].validatorId);
    }
    SumUnknown(t.proposals, x);
  }

  /** A validator that is not registered yet has nothing to drift. */
  lemma {:induction false} NoDriftBeforehand(c: Config, events: seq<Event>, id: Id)
    requires Whole(c, events) && FindValidator(Run(c, events).validators, id).None?
    ensures TotalDrift(c, events, id) == 0
  {
    if events != [] {
      var n := |events| - 1;
      var t := Run(c, events[..n]);
      WholePrefix(c, events, n);
      ReachableInv(c, events[..n]);
      if FindValidator(t.validators, id).Some? {
        StaysKnown(t, c, events[n], id);
      }
      NoDriftBeforehand(c, events[..n], id);
    }
  }

  lemma StaysKnown(t: Tables, c: Config, e: Event, id: Id)
    requires Inv(t, c) && FindValidator(t.validators, id).Some?
    ensures FindValidator(Step(t, c, e).0.validators, id).Some?
  {
    var v := FindValidator(t.validators, id).value;
    StepRows(t, c, e);
    assert v < |Step(t, c, e).0.validators| && Step(t, c, e).0.validators[v].id == id;
  }

  /** The ledger of every run: what a validator registered, plus the drift, is its current stake plus
      everything its approved proposals say was taken. */
  lemma {:induction false} LedgerBalances(c: Config, events: seq<Event>, v: nat)
    requires Whole(c, events) && v < |Run(c, events).validators|
    ensures var row := Run(c, events).validators[v];
            && row.id in Deposits(c, events)
            && Deposits(c, events)[row.id] + TotalDrift(c, events, row.id)
               == row.stake + ApprovedSum(Run(c, events).proposals, row.id)
  {
    var n := |events| - 1;
    var before, e := events[..n], events[n];
    var t, t' := Run(c, before), Run(c, events);
    WholePrefix(c, events, n);
    ReachableInv(c, before);
    ReachableInv(c, events);
    StepRows(t, c, e);
    StakeAt(t'.validators, v);
    var id := t'.validators[v].id;
    if v < |t.validators| {
      LedgerBalances(c, before, v);
      StakeAt(t.validators, v);
      assert KnownValidator(t.validators, t.validators[v].id);
      StepConserves(t, c, e, t.validators[v].id);
      if e.DoRegister? && Step(t, c, e).1.Done? {
        assert t.validators[v].id != e.id;
      }
    } else {
      RegistrationOpensLedger(t, c, e.id, e.address, e.stake);
      NoDriftBeforehand(c, before, e.id);
    }
  }

  /** No outside edit of a stake, and no failure that loses track of it. */
  predicate Tracked(t: Tables, e: Event) {
    && !e.DoUpdateStake?
    && (e.DoApprove? && Pending(t, e.proposal) ==>
          Tracks(t.proposals[e.proposal].amount, StakeOf(t.validators, t.proposals[e.proposal].validatorId), e.fault))
  }

  lemma TrackedDriftsNot(t: Tables, c: Config, e: Event, id: Id)
    requires Inv(t, c) && Tracked(t, e)
    ensures Drift(t, e, id) == 0
  {
    if e.DoApprove? && Pending(t, e.proposal) {
      var p := t.proposals[e.proposal];
      assert ProposalOk(p, t.disputes, c);
      DriftsExactly(p.amount, StakeOf(t.validators, p.validatorId), e.fault);
    }
  }

  /** Without those, registered stake equals current stake plus approved amounts. */
  lemma {:induction false} TrackedLedgerBalances(c: Config, events: seq<Event>, v: nat)
    requires Whole(c, events) && v < |Run(c, events).validators|
    requires forall k {:trigger events[k]} :: 0 <= k < |events| ==> Tracked(Run(c, events[..k]), events[k])
    ensures var row := Run(c, events).validators[v];
            && row.id in Deposits(c, events)
            && Deposits(c, events)[row.id] == row.stake + ApprovedSum(Run(c, events).proposals, row.id)
  {
    LedgerBalances(c, events, v);
    NoDriftWhenTracked(c, events, Run(c, events).validators[v].id);
  }

  lemma {:induction false} NoDriftWhenTracked(c: Config, events: seq<Event>, id: Id)
    requires Whole(c, events)
    requires forall k {:trigger events[k]} :: 0 <= k < |events| ==> Tracked(Run(c, events[..k]), events[k])
    ensures TotalDrift(c, events, id) == 0
  {
    if events != [] {
      var n := |events| - 1;
      WholePrefix(c, events, n);
      forall k | 0 <= k < n ensures Tracked(Run(c, events[..n][..k]), events[..n][k]) {
        assert events[..n][..k] == events[..k] && events[..n][k] == events[k];
      }
      NoDriftWhenTracked(c, events[..n], id);
      ReachableInv(c, events[..n]);
      assert Tracked(Run(c, events[..n]), events[n]);
      TrackedDriftsNot(Run(c, events[..n]), c, events[n], id);
    }
  }
}
