/**
 What the validator rows remember over a run: who registered with which address, and who has left
 (src/modules/validators/validators.service.ts).
 */
module ValidatorRecords {
  import opened Basics
  import opened DisputeTables
  import opened DisputeInvariants
  import opened AppealPanels
  import opened BallotOrigins

  /** What one call may do to row `v`: nothing but edit the stake, or end its activity when it exits; a new row is
      active and comes from a registration with its id and address. */
  lemma StepKeepsRow(t: Tables, c: Config, e: Event, v: nat)
    requires DistinctValidators(t.validators) && v < |Step(t, c, e).0.validators|
    ensures |t.validators| <= |Step(t, c, e).0.validators|
    ensures var row := Step(t, c, e).0.validators[v];
            if v < |t.validators| then
              && row.id == t.validators[v].id && row.address == t.validators[v].address
              && (row.isActive <==> t.validators[v].isActive && e != DoExit(row.id))
            else
              row.isActive && e.DoRegister? && e.id == row.id && e.address == row.address && e.stake == row.stake
  {
    match e
    case DoExit(id) => ExitEndsActivity(t, id, v);
    case DoCall(call) => CallKeepsValidators(t, c, call, 0);
    case DoInterrupted(call, writes) => CallKeepsValidators(t, c, call, writes);
    case DoApprove(p, operator, fault) => ApproveKeepsIds(t, c, p, operator, fault);
    case _ =>
  }

  lemma ExitEndsActivity(t: Tables, id: Id, v: nat)
    requires DistinctValidators(t.validators) && v < |t.validators|
    ensures var rows := Exit(t, id).0.validators;
            && |rows| == |t.validators| && rows[v].id == t.validators[v].id
            && rows[v].address == t.validators[v].address
            && (rows[v].isActive <==> t.validators[v].isActive && t.validators[v].id != id)
  {
    var found := FindValidator(t.validators, id);
    if found.Some? && t.validators[v].id == id {
      assert t.validators[found.value].id == t.validators[v].id;
    }
  }

  ghost predicate Registered(t: Tables, id: Id) { exists v :: 0 <= v < |t.validators| && t.validators[v].id == id }

  /** The event takes the validator out of service. */
  ghost predicate Leaves(t: Tables, e: Event, id: Id) { e == DoExit(id) && Registered(t, id) }

  ghost predicate LeavesAt(c: Config, events: seq<Event>, j: nat, id: Id)
    requires j < |events|
  {
    Leaves(Run(c, events[..j]), events[j], id)
  }

  ghost predicate NeverLeft(c: Config, events: seq<Event>, id: Id) {
    forall j :: 0 <= j < |events| ==> !LeavesAt(c, events, j, id)
  }

  lemma NeverLeftNext(c: Config, before: seq<Event>, events: seq<Event>, id: Id)
    requires events != [] && before == events[..|events| - 1]
    ensures NeverLeft(c, events, id) <==>
            NeverLeft(c, before, id) && !Leaves(Run(c, before), events[|events| - 1], id)
  {
    var n := |events| - 1;
    assert LeavesAt(c, events, n, id) == Leaves(Run(c, before), events[n], id);
    forall j | 0 <= j < n ensures LeavesAt(c, events, j, id) == LeavesAt(c, before, j, id) {
      assert before[..j] == events[..j] && before[j] == events[j];
    }
  }

  /** In every run each row was made by a registration with its id and address, and the validator is active if and
      only if it has not exited since. */
  lemma {:induction false} ActiveExactly(c: Config, events: seq<Event>, v: nat) returns (k: nat)
    requires v < |Run(c, events).validators|
    ensures var row := Run(c, events).validators[v];
            && k < |events| && events[k].DoRegister? && events[k].id == row.id && events[k].address == row.address
            && (row.isActive <==> NeverLeft(c, events, row.id))
  {
    var n := |events| - 1;
    var before := events[..n];
    var t, id := Run(c, before), Run(c, events).validators[v].id;
    RunIsDistinct(c, before);
    StepKeepsRow(t, c, events[n], v);
    NeverLeftNext(c, before, events, id);
    if v < |t.validators| {
      k := ActiveExactly(c, before, v);
      assert Registered(t, id) by { assert t.validators[v].id == id; }
    } else {
      k := n;
      NobodyLeftYet(c, before, id);
    }
  }

  /** Who is not registered has not left. */
  lemma {:induction false} NobodyLeftYet(c: Config, events: seq<Event>, id: Id)
    requires !Registered(Run(c, events), id)
    ensures NeverLeft(c, events, id)
  {
    if events != [] {
      var before := events[..|events| - 1];
      RunIsDistinct(c, before);
      StaysRegistered(Run(c, before), c, events[|events| - 1], id);
      NobodyLeftYet(c, before, id);
      NeverLeftNext(c, before, events, id);
    }
  }

  lemma StaysRegistered(t: Tables, c: Config, e: Event, id: Id)
    requires DistinctValidators(t.validators)
    ensures Registered(t, id) ==> Registered(Step(t, c, e).0, id)
  {
    if Registered(t, id) {
      var v :| 0 <= v < |t.validators| && t.validators[v].id == id;
      var after := Step(t, c, e).0;
      RowsStay(t, c, e);
      StepKeepsRow(t, c, e, v);
      assert after.validators[v].id == id;
    }
  }

  lemma RowsStay(t: Tables, c: Config, e: Event)
    ensures |t.validators| <= |Step(t, c, e).0.validators|
  {
    match e
    case DoCall(call) => CallKeepsValidators(t, c, call, 0);
    case DoInterrupted(call, writes) => CallKeepsValidators(t, c, call, writes);
    case _ =>
  }

  /** A validator that has exited is never drawn for a panel again. */
  lemma LeftIsNeverDrawn(c: Config, events: seq<Event>, j: nat, d: Id, s: string, id: Id)
    requires Whole(c, events) && j < |events| && LeavesAt(c, events, j, id)
    ensures id !in DrawPanel(Run(c, events), c, d, s)
  {
    var t := Run(c, events);
    ReachableInv(c, events);
    DrawnMayReview(t, c, d, s);
    var panel := DrawPanel(t, c, d, s);
    if id in panel {
      var i :| 0 <= i < |panel| && panel[i] == id;
      assert MayReview(t, c, s, id);
      var v :| 0 <= v < |t.validators| && t.validators[v].id == id && t.validators[v].isActive;
      var _ := ActiveExactly(c, events, v);
      assert false;
    }
  }

  /** A registration is taken exactly when neither id nor address is in use, an edit or an exit exactly when the
      validator is registered; what is refused changes nothing. */
  lemma RequestsTakenExactly(t: Tables, c: Config, id: Id, address: string, stake: nat)
    ensures Register(t, c, id, address, stake).1 == Done <==>
            forall v :: 0 <= v < |t.validators| ==> t.validators[v].id != id && t.validators[v].address != address
    ensures Register(t, c, id, address, stake).1 == Done ==>
              Register(t, c, id, address, stake).0.validators[..|t.validators|] == t.validators
    ensures UpdateStake(t, c, id, stake).1 == Done <==> Registered(t, id)
    ensures Exit(t, id).1 == Done <==> Registered(t, id)
    ensures Register(t, c, id, address, stake).1 != Done ==> Register(t, c, id, address, stake).0 == t
    ensures !Registered(t, id) ==> UpdateStake(t, c, id, stake).0 == t && Exit(t, id).0 == t
  {
  }
}
