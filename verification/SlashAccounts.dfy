/**
 Who can take stake from a validator (contracts/src/ValidatorRegistry.sol): only the owner, only from an active
 validator and no more than it holds, however calls nest.
 */
module SlashAccounts {
  import opened ContractLedger

  /** The call and every call made from inside it. */
  function CallsIn(c: Call): (r: seq<Call>)
    decreases c, 1
  {
    [c] + match c
          case Exit(_, payout, _) => AllCallsIn(payout)
          case Frame(calls, _) => AllCallsIn(calls)
          case _ => []
  }

  function AllCallsIn(calls: seq<Call>): seq<Call>
    decreases calls, 0
  {
    if calls == [] then [] else CallsIn(calls[0]) + AllCallsIn(calls[1..])
  }

  /** The slash can be carried out. */
  predicate MaySlash(l: Ledger, c: Call) {
    && c.Slash? && c.sender == l.owner && c.validator in l.validators
    && l.validators[c.validator].active && c.amount <= l.validators[c.validator].stake
  }

  /** The slashes inside a call that took effect: carried out when they were reached, and not undone because a call
      around them reverted. */
  function Effective(l: Ledger, c: Call): seq<Call>
    decreases c, 1
  {
    match c
    case Slash(_, _, _) => if MaySlash(l, c) then [c] else []
    case Exit(sender, payout, accepts) =>
      if accepts && InfoOf(l, sender).active && InfoOf(l, sender).stake <= l.balance then
        AllEffective(Paying(l, sender), payout)
      else []
    case Frame(calls, reverts) => if reverts then [] else AllEffective(l, calls)
    case _ => []
  }

  function AllEffective(l: Ledger, calls: seq<Call>): seq<Call>
    decreases calls, 0
  {
    if calls == [] then [] else Effective(l, calls[0]) + AllEffective(Exec(l, calls[0]).0, calls[1..])
  }

  /** What these slashes take from `v`. */
  function TakenFrom(slashes: seq<Call>, v: Address): nat {
    if slashes == [] then 0
    else (if slashes[0].Slash? && slashes[0].validator == v then slashes[0].amount else 0) + TakenFrom(slashes[1..], v)
  }

  lemma {:induction false} TakenAppend(a: seq<Call>, b: seq<Call>, v: Address)
    ensures TakenFrom(a + b, v) == TakenFrom(a, v) + TakenFrom(b, v)
  {
    if a == [] {
      assert a + b == b;
    } else {
      assert (a + b)[1..] == a[1..] + b;
      TakenAppend(a[1..], b, v);
    }
  }

  // ---------------------------------------------------- when a call is carried out

  /** A slash succeeds exactly when the owner makes it, against an active validator, for no more than its stake. */
  lemma SlashesExactly(l: Ledger, sender: Address, v: Address, amount: nat)
    ensures Exec(l, Slash(sender, v, amount)).1 == Success <==> MaySlash(l, Slash(sender, v, amount))
    ensures Exec(l, Slash(sender, v, amount)).1 == Revert ==> Exec(l, Slash(sender, v, amount)).0 == l
  {
  }

  /** Registering takes at least the minimum stake and an address that is not active. */
  lemma RegistersExactly(l: Ledger, sender: Address, value: nat)
    ensures Exec(l, Register(sender, value)).1 == Success <==>
            value >= 1000 * 1000000000000000000 && (sender in l.validators ==> !l.validators[sender].active)
    ensures Exec(l, Register(sender, value)).1 == Success ==>
              Exec(l, Register(sender, value)).0.validators == l.validators[sender := Info(value, true)]
  {
  }

  /** An exit succeeds exactly for an active validator that accepts the payment. */
  lemma ExitsExactly(l: Ledger, sender: Address, payout: seq<Call>, accepts: bool)
    requires Inv(l)
    ensures Exec(l, Exit(sender, payout, accepts)).1 == Success <==>
            accepts && sender in l.validators && l.validators[sender].active
    ensures Exec(l, Exit(sender, payout, accepts)).1 == Revert ==> Exec(l, Exit(sender, payout, accepts)).0 == l
  {
    StakeIsCovered(l, sender);
  }

  // ----------------------------------------------------------------- accounting

  lemma {:induction false} OwnerStays(l: Ledger, c: Call)
    ensures Exec(l, c).0.owner == l.owner
    decreases c, 1
  {
    match c
    case Exit(sender, payout, accepts) =>
      if InfoOf(l, sender).stake <= l.balance {
        AllOwnerStays(Paying(l, sender), payout);
      }
    case Frame(calls, reverts) => AllOwnerStays(l, calls);
    case _ =>
  }

  lemma {:induction false} AllOwnerStays(l: Ledger, calls: seq<Call>)
    ensures ExecAll(l, calls).owner == l.owner
    decreases calls, 0
  {
    if calls != [] {
      OwnerStays(l, calls[0]);
      AllOwnerStays(Exec(l, calls[0]).0, calls[1..]);
    }
  }

  /** What took effect was called somewhere in the tree, by the owner. */
  lemma {:induction false} EffectiveWasCalled(l: Ledger, c: Call, s: Call)
    requires s in Effective(l, c)
    ensures s in CallsIn(c) && s.Slash? && s.sender == l.owner
    decreases c, 1
  {
    match c
    case Exit(sender, payout, accepts) => AllEffectiveWereCalled(Paying(l, sender), payout, s);
    case Frame(calls, reverts) => AllEffectiveWereCalled(l, calls, s);
    case _ =>
  }

  lemma {:induction false} AllEffectiveWereCalled(l: Ledger, calls: seq<Call>, s: Call)
    requires s in AllEffective(l, calls)
    ensures s in AllCallsIn(calls) && s.Slash? && s.sender == l.owner
    decreases calls, 0
  {
    if s in Effective(l, calls[0]) {
      EffectiveWasCalled(l, calls[0], s);
    } else {
      OwnerStays(l, calls[0]);
      AllEffectiveWereCalled(Exec(l, calls[0]).0, calls[1..], s);
    }
  }

  /** A validator's total slashed grows by exactly the slashes that took effect against it. */
  lemma {:induction false} SlashedExactly(l: Ledger, c: Call, v: Address)
    ensures At(Exec(l, c).0.slashed, v) == At(l.slashed, v) + TakenFrom(Effective(l, c), v)
    decreases c, 1
  {
    match c
    case Register(_, _) =>
    case Transfer(_) =>
    case Slash(sender, validator, amount) => SlashTakes(l, sender, validator, amount, v);
    case Exit(sender, payout, accepts) =>
      if InfoOf(l, sender).stake <= l.balance {
        AllSlashedExactly(Paying(l, sender), payout, v);
      }
    case Frame(calls, reverts) => AllSlashedExactly(l, calls, v);
  }

  lemma SlashTakes(l: Ledger, sender: Address, validator: Address, amount: nat, v: Address)
    ensures At(DoSlash(l, sender, validator, amount).0.slashed, v)
         == At(l.slashed, v) + TakenFrom(Effective(l, Slash(sender, validator, amount)), v)
  {
    var c := Slash(sender, validator, amount);
    assert TakenFrom([c], v) == (if validator == v then amount else 0) + TakenFrom([c][1..], v);
  }

  lemma {:induction false} AllSlashedExactly(l: Ledger, calls: seq<Call>, v: Address)
    ensures At(ExecAll(l, calls).slashed, v) == At(l.slashed, v) + TakenFrom(AllEffective(l, calls), v)
    decreases calls, 0
  {
    if calls != [] {
      SlashedExactly(l, calls[0], v);
      AllSlashedExactly(Exec(l, calls[0]).0, calls[1..], v);
      TakenAppend(Effective(l, calls[0]), AllEffective(Exec(l, calls[0]).0, calls[1..]), v);
    }
  }

  /** The tree holds a slash of `v` by `owner`. */
  predicate OwnerSlashes(calls: seq<Call>, owner: Address, v: Address) {
    exists i :: 0 <= i < |calls| && calls[i].Slash? && calls[i].sender == owner && calls[i].validator == v
  }

  lemma {:induction false} NothingTaken(slashes: seq<Call>, owner: Address, v: Address)
    requires forall s :: s in slashes ==> s.Slash? && s.sender == owner
    requires !OwnerSlashes(slashes, owner, v)
    ensures TakenFrom(slashes, v) == 0
  {
    if slashes != [] {
      assert slashes[0] in slashes && slashes[0].validator != v;
      assert !OwnerSlashes(slashes[1..], owner, v) by {
        forall i | 0 <= i < |slashes[1..]| && slashes[1..][i].Slash? && slashes[1..][i].sender == owner
          ensures slashes[1..][i].validator != v
        {
          assert slashes[i + 1] == slashes[1..][i];
        }
      }
      NothingTaken(slashes[1..], owner, v);
    }
  }

  /** Without a slash of `v` sent by the owner somewhere in the tree, nothing is slashed from `v`. */
  lemma OnlyTheOwnerSlashes(l: Ledger, c: Call, v: Address)
    requires !OwnerSlashes(CallsIn(c), l.owner, v)
    ensures At(Exec(l, c).0.slashed, v) == At(l.slashed, v)
  {
    SlashedExactly(l, c, v);
    var slashes := Effective(l, c);
    forall s | s in slashes ensures s.Slash? && s.sender == l.owner && s.validator != v {
      EffectiveWasCalled(l, c, s);
      var i :| 0 <= i < |CallsIn(c)| && CallsIn(c)[i] == s;
    }
    NothingTaken(slashes, l.owner, v);
  }

  predicate Exits(calls: seq<Call>, v: Address) {
    exists i :: 0 <= i < |calls| && calls[i].Exit? && calls[i].sender == v
  }

  lemma ExitsPart(calls: seq<Call>, part: seq<Call>, v: Address)
    requires !Exits(calls, v) && forall c :: c in part ==> c in calls
    ensures !Exits(part, v)
  {
    forall i | 0 <= i < |part| && part[i].Exit? ensures part[i].sender != v {
      assert part[i] in part;
      var k :| 0 <= k < |calls| && calls[k] == part[i];
    }
  }

  /** Unless it exits itself, an active validator stays active and loses exactly what was slashed from it. (One
      that is not active has nothing to lose.) */
  lemma {:induction false} StakeFallsBySlashesOnly(l: Ledger, c: Call, v: Address)
    requires !Exits(CallsIn(c), v)
    ensures var was, now := InfoOf(l, v), InfoOf(Exec(l, c).0, v);
            was.active ==> now.active && now.stake + TakenFrom(Effective(l, c), v) == was.stake
    decreases c, 1
  {
    match c
    case Register(_, _) =>
    case Transfer(_) =>
    case Slash(sender, validator, amount) => SlashTakes(l, sender, validator, amount, v);
    case Exit(sender, payout, accepts) =>
      assert CallsIn(c)[0] == c;
      ExitsPart(CallsIn(c), AllCallsIn(payout), v);
      if InfoOf(l, sender).stake <= l.balance {
        AllStakesFallBySlashesOnly(Paying(l, sender), payout, v);
      }
    case Frame(calls, reverts) =>
      ExitsPart(CallsIn(c), AllCallsIn(calls), v);
      AllStakesFallBySlashesOnly(l, calls, v);
  }

  lemma {:induction false} AllStakesFallBySlashesOnly(l: Ledger, calls: seq<Call>, v: Address)
    requires !Exits(AllCallsIn(calls), v)
    ensures var was, now := InfoOf(l, v), InfoOf(ExecAll(l, calls), v);
            was.active ==> now.active && now.stake + TakenFrom(AllEffective(l, calls), v) == was.stake
    decreases calls, 0
  {
    if calls != [] {
      ExitsPart(AllCallsIn(calls), CallsIn(calls[0]), v);
      ExitsPart(AllCallsIn(calls), AllCallsIn(calls[1..]), v);
      StakeFallsBySlashesOnly(l, calls[0], v);
      AllStakesFallBySlashesOnly(Exec(l, calls[0]).0, calls[1..], v);
      TakenAppend(Effective(l, calls[0]), AllEffective(Exec(l, calls[0]).0, calls[1..]), v);
    }
  }

  // --------------------------------------------------------------- minimum stake

  /** Every active validator put in the minimum stake: what it lacks of it was slashed. */
  ghost predicate Funded(l: Ledger) {
    forall v: Address :: InfoOf(l, v).active ==> InfoOf(l, v).stake + At(l.slashed, v) >= MIN_STAKE
  }

  lemma SlashKeepsSum(l: Ledger, sender: Address, validator: Address, amount: nat, v: Address)
    ensures var l' := DoSlash(l, sender, validator, amount).0;
            && InfoOf(l', v).active == InfoOf(l, v).active
            && InfoOf(l', v).stake + At(l'.slashed, v) == InfoOf(l, v).stake + At(l.slashed, v)
  {
  }

  lemma {:induction false} ExecKeepsFunded(l: Ledger, c: Call)
    requires Funded(l)
    ensures Funded(Exec(l, c).0)
    decreases c, 1
  {
    match c
    case Register(sender, value) =>
    case Slash(sender, validator, amount) =>
      forall v: Address ensures var l' := Exec(l, c).0;
                                InfoOf(l', v).active ==> InfoOf(l', v).stake + At(l'.slashed, v) >= MIN_STAKE
      {
        SlashKeepsSum(l, sender, validator, amount, v);
      }
    case Transfer(value) =>
    case Exit(sender, payout, accepts) =>
      if InfoOf(l, sender).stake <= l.balance {
        assert Funded(Paying(l, sender));
        AllExecKeepFunded(Paying(l, sender), payout);
      }
    case Frame(calls, reverts) => AllExecKeepFunded(l, calls);
  }

  lemma {:induction false} AllExecKeepFunded(l: Ledger, calls: seq<Call>)
    requires Funded(l)
    ensures Funded(ExecAll(l, calls))
    decreases calls, 0
  {
    if calls != [] {
      ExecKeepsFunded(l, calls[0]);
      AllExecKeepFunded(Exec(l, calls[0]).0, calls[1..]);
    }
  }

  /** From deployment on, whatever is called: an active validator that was never slashed has 1000 ether at stake. */
  lemma ActiveIsFunded(owner: Address, calls: seq<Call>, v: Address)
    ensures var l := ExecAll(Deployed(owner), calls);
            && l.owner == owner
            && (InfoOf(l, v).active ==> InfoOf(l, v).stake + At(l.slashed, v) >= 1000 * 1000000000000000000)
  {
    AllOwnerStays(Deployed(owner), calls);
    assert Funded(Deployed(owner));
    AllExecKeepFunded(Deployed(owner), calls);
  }
}
