/**
 The validator registry contract as a ledger under re-entrancy (contracts/src/ValidatorRegistry.sol).

 `exit` hands control to the caller before it returns, so a call carries the calls that are made from
 inside its own payout, to any depth and by anybody.
 */
module ContractLedger {

  type Address = nat

  const MIN_STAKE := 1000 * 1000000000000000000

  datatype Info = Info(stake: nat, active: bool)

  /** Contract storage and balance, with the history of what each address paid in, was paid out and
      lost to slashing, and of plain transfers received. */
  datatype Ledger = Ledger(owner: Address, validators: map<Address, Info>, balance: nat,
                           deposited: map<Address, nat>, paid: map<Address, nat>, slashed: map<Address, nat>,
                           received: nat)

  /** `payout` is what the recipient of an exit does with control: the calls it makes (or has made),
      and whether it accepts the money in the end. A `Frame` is some other contract's call that makes
      calls of its own and may undo all of them by reverting. */
  datatype Call =
    | Register(sender: Address, value: nat)
    | Exit(sender: Address, payout: seq<Call>, accepts: bool)
    | Slash(sender: Address, validator: Address, amount: nat)
    | Transfer(value: nat)
    | Frame(calls: seq<Call>, reverts: bool)

  datatype Outcome = Success | Revert

  function At(m: map<Address, nat>, a: Address): nat { if a in m then m[a] else 0 }

  function InfoOf(l: Ledger, a: Address): Info { if a in l.validators then l.validators[a] else Info(0, false) }

  function Add(m: map<Address, nat>, a: Address, v: nat): map<Address, nat> { m[a := At(m, a) + v] }

  function DoRegister(l: Ledger, sender: Address, value: nat): (Ledger, Outcome) {
    if value < MIN_STAKE || InfoOf(l, sender).active then (l, Revert)
    else
      (l.(balance := l.balance + value, validators := l.validators[sender := Info(value, true)],
          deposited := Add(l.deposited, sender, value)), Success)
  }

  /** The state the recipient sees when it gets control: stake zeroed, money already moved. */
  function Paying(l: Ledger, sender: Address): Ledger
    requires InfoOf(l, sender).stake <= l.balance
  {
    var stake := InfoOf(l, sender).stake;
    l.(validators := l.validators[sender := Info(0, false)], balance := l.balance - stake,
       paid := Add(l.paid, sender, stake))
  }

  function DoSlash(l: Ledger, sender: Address, validator: Address, amount: nat): (Ledger, Outcome) {
    if sender != l.owner || !InfoOf(l, validator).active || InfoOf(l, validator).stake < amount then (l, Revert)
    else
      (l.(validators := l.validators[validator := InfoOf(l, validator).(stake := InfoOf(l, validator).stake - amount)],
          slashed := Add(l.slashed, validator, amount)), Success)
  }

  /** Runs one call to the end, including everything it triggers. A reverted call leaves no trace. */
  function Exec(l: Ledger, c: Call): (Ledger, Outcome)
    decreases c, 1
  {
    match c
    case Register(sender, value) => DoRegister(l, sender, value)
    case Slash(sender, validator, amount) => DoSlash(l, sender, validator, amount)
    case Transfer(value) => (l.(balance := l.balance + value, received := l.received + value), Success)
    case Exit(sender, payout, accepts) =>
      if !InfoOf(l, sender).active then (l, Revert)
      else if InfoOf(l, sender).stake > l.balance then (l, Revert)
      else
        var after := ExecAll(Paying(l, sender), payout);
        if accepts then (after, Success) else (l, Revert)
    case Frame(calls, reverts) => if reverts then (l, Revert) else (ExecAll(l, calls), Success)
  }

  function ExecAll(l: Ledger, calls: seq<Call>): Ledger
    decreases calls, 0
  {
    if calls == [] then l
    else ExecAll(Exec(l, calls[0]).0, calls[1..])
  }

  /** Every ledger visible at a call boundary while `c` runs: before and after each call, at any depth. */
  function Boundaries(l: Ledger, c: Call): seq<Ledger>
    decreases c, 1
  {
    [l]
    + (if c.Exit? && InfoOf(l, c.sender).active && InfoOf(l, c.sender).stake <= l.balance
       then AllBoundaries(Paying(l, c.sender), c.payout)
       else if c.Frame? then AllBoundaries(l, c.calls) else [])
    + [Exec(l, c).0]
  }

  function AllBoundaries(l: Ledger, calls: seq<Call>): seq<Ledger>
    decreases calls, 0
  {
    if calls == [] then [l]
    else Boundaries(l, calls[0]) + AllBoundaries(Exec(l, calls[0]).0, calls[1..])
  }

  // ---------------------------------------------------------------- conservation

  /** Sum over the addresses of a map. */
  ghost function Total(m: map<Address, nat>): nat
    decreases |m|
  {
    if m == map[] then 0
    else
      var a :| a in m;
      m[a] + Total(m - {a})
  }

  lemma {:induction false} TotalPick(m: map<Address, nat>, a: Address)
    requires a in m
    ensures Total(m) == m[a] + Total(m - {a})
    decreases |m|
  {
    var b :| b in m && Total(m) == m[b] + Total(m - {b});
    if a != b {
      assert |m - {b}| < |m| by { SmallerWithout(m, b); }
      assert |m - {a}| < |m| by { SmallerWithout(m, a); }
      TotalPick(m - {b}, a);
      TotalPick(m - {a}, b);
      assert m - {b} - {a} == m - {a} - {b};
    }
  }

  lemma SmallerWithout(m: map<Address, nat>, a: Address)
    requires a in m
    ensures |m - {a}| < |m|
  {
    assert (m - {a}).Keys == m.Keys - {a};
    assert |m.Keys - {a}| < |m.Keys|;
  }

  lemma TotalUpdate(m: map<Address, nat>, a: Address, v: nat)
    ensures Total(m[a := v]) + At(m, a) == Total(m) + v
  {
    TotalPick(m[a := v], a);
    assert m[a := v] - {a} == m - {a};
    if a in m {
      TotalPick(m, a);
    } else {
      assert m - {a} == m;
    }
  }

  function Stakes(l: Ledger): map<Address, nat> {
    map a | a in l.validators :: l.validators[a].stake
  }

  lemma StakesUpdate(l: Ledger, a: Address, info: Info)
    ensures Total(Stakes(l.(validators := l.validators[a := info]))) + InfoOf(l, a).stake
         == Total(Stakes(l)) + info.stake
  {
    assert Stakes(l.(validators := l.validators[a := info])) == Stakes(l)[a := info.stake];
    TotalUpdate(Stakes(l), a, info.stake);
  }

  /** Balance is every stake plus everything slashed plus plain transfers; an inactive validator has
      no stake; and every address got back, or lost, or still has exactly what it put in. */
  ghost predicate Inv(l: Ledger) {
    && l.balance == Total(Stakes(l)) + Total(l.slashed) + l.received
    && (forall a :: a in l.validators && !l.validators[a].active ==> l.validators[a].stake == 0)
    && (forall a: Address :: At(l.deposited, a) == At(l.paid, a) + At(l.slashed, a) + InfoOf(l, a).stake)
  }

  lemma RegisterKeeps(l: Ledger, sender: Address, value: nat)
    requires Inv(l)
    ensures Inv(DoRegister(l, sender, value).0)
  {
    StakesUpdate(l, sender, Info(value, true));
    var l' := DoRegister(l, sender, value).0;
    assert Stakes(l.(validators := l.validators[sender := Info(value, true)])) == Stakes(l') || l' == l;
  }

  lemma SlashKeeps(l: Ledger, sender: Address, validator: Address, amount: nat)
    requires Inv(l)
    ensures Inv(DoSlash(l, sender, validator, amount).0)
  {
    if DoSlash(l, sender, validator, amount).1 == Success {
      SlashBalances(l, sender, validator, amount);
    }
  }

  lemma SlashBalances(l: Ledger, sender: Address, validator: Address, amount: nat)
    requires DoSlash(l, sender, validator, amount).1 == Success
    ensures var l' := DoSlash(l, sender, validator, amount).0;
            Total(Stakes(l')) + Total(l'.slashed) == Total(Stakes(l)) + Total(l.slashed)
  {
    var l' := DoSlash(l, sender, validator, amount).0;
    var info := InfoOf(l, validator).(stake := InfoOf(l, validator).stake - amount);
    StakesUpdate(l, validator, info);
    TotalUpdate(l.slashed, validator, At(l.slashed, validator) + amount);
    assert Stakes(l.(validators := l.validators[validator := info])) == Stakes(l');
  }

  /** Every active stake can be paid out. */
  lemma StakeIsCovered(l: Ledger, a: Address)
    requires Inv(l)
    ensures InfoOf(l, a).stake <= l.balance
  {
    if a in l.validators {
      TotalPick(Stakes(l), a);
    }
  }

  lemma PayingKeeps(l: Ledger, sender: Address)
    requires Inv(l) && InfoOf(l, sender).stake <= l.balance
    ensures Inv(Paying(l, sender))
  {
    StakesUpdate(l, sender, Info(0, false));
    assert Stakes(l.(validators := l.validators[sender := Info(0, false)])) == Stakes(Paying(l, sender));
  }

  lemma {:induction false} ExecKeeps(l: Ledger, c: Call)
    requires Inv(l)
    ensures Inv(Exec(l, c).0)
    decreases c, 1
  {
    match c
    case Register(sender, value) => RegisterKeeps(l, sender, value);
    case Slash(sender, validator, amount) => SlashKeeps(l, sender, validator, amount);
    case Transfer(value) =>
      assert Stakes(l.(balance := l.balance + value, received := l.received + value)) == Stakes(l);
    case Exit(sender, payout, accepts) =>
      if InfoOf(l, sender).stake <= l.balance {
        PayingKeeps(l, sender);
        ExecAllKeeps(Paying(l, sender), payout);
      }
    case Frame(calls, reverts) => ExecAllKeeps(l, calls);
  }

  lemma {:induction false} ExecAllKeeps(l: Ledger, calls: seq<Call>)
    requires Inv(l)
    ensures Inv(ExecAll(l, calls))
    decreases calls, 0
  {
    if calls != [] {
      ExecKeeps(l, calls[0]);
      ExecAllKeeps(Exec(l, calls[0]).0, calls[1..]);
    }
  }

  /** The ledger balances at every call boundary, including inside every payout, however calls nest. */
  lemma {:induction false} BalancedAtEveryBoundary(l: Ledger, c: Call, k: nat)
    requires Inv(l) && k < |Boundaries(l, c)|
    ensures Inv(Boundaries(l, c)[k])
    decreases c, 1
  {
    ExecKeeps(l, c);
    if c.Exit? && InfoOf(l, c.sender).active && InfoOf(l, c.sender).stake <= l.balance {
      PayingKeeps(l, c.sender);
      var inner := AllBoundaries(Paying(l, c.sender), c.payout);
      if 1 <= k < 1 + |inner| {
        BalancedThroughout(Paying(l, c.sender), c.payout, k - 1);
      }
    } else if c.Frame? && 1 <= k < 1 + |AllBoundaries(l, c.calls)| {
      BalancedThroughout(l, c.calls, k - 1);
    }
  }

  lemma {:induction false} BalancedThroughout(l: Ledger, calls: seq<Call>, k: nat)
    requires Inv(l) && k < |AllBoundaries(l, calls)|
    ensures Inv(AllBoundaries(l, calls)[k])
    decreases calls, 0
  {
    if calls != [] {
      var first := Boundaries(l, calls[0]);
      ExecKeeps(l, calls[0]);
      if k < |first| {
        BalancedAtEveryBoundary(l, calls[0], k);
      } else {
        BalancedThroughout(Exec(l, calls[0]).0, calls[1..], k - |first|);
      }
    }
  }

  function Deployed(owner: Address): Ledger { Ledger(owner, map[], 0, map[], map[], map[], 0) }

  /** What somebody was paid stays paid, whatever is called later. */
  lemma {:induction false} PaidStaysPaid(l: Ledger, c: Call, a: Address)
    requires Inv(l)
    ensures At(Exec(l, c).0.paid, a) >= At(l.paid, a)
    decreases c, 1
  {
    match c
    case Register(_, _) =>
    case Slash(_, _, _) =>
    case Transfer(_) =>
    case Exit(sender, payout, accepts) =>
      if InfoOf(l, sender).stake <= l.balance {
        PayingKeeps(l, sender);
        AllPaidStaysPaid(Paying(l, sender), payout, a);
      }
    case Frame(calls, reverts) => AllPaidStaysPaid(l, calls, a);
  }

  lemma {:induction false} AllPaidStaysPaid(l: Ledger, calls: seq<Call>, a: Address)
    requires Inv(l)
    ensures At(ExecAll(l, calls).paid, a) >= At(l.paid, a)
    decreases calls, 0
  {
    if calls != [] {
      ExecKeeps(l, calls[0]);
      PaidStaysPaid(l, calls[0], a);
      AllPaidStaysPaid(Exec(l, calls[0]).0, calls[1..], a);
    }
  }

  /** From deployment on, an active validator that accepts its money can always leave with its whole stake,
      whatever its callback does, and nobody is ever paid more than they put in. */
  lemma ExitAlwaysPays(owner: Address, calls: seq<Call>, sender: Address, payout: seq<Call>)
    ensures var l := ExecAll(Deployed(owner), calls);
            && Inv(l)
            && At(l.paid, sender) + At(l.slashed, sender) + InfoOf(l, sender).stake == At(l.deposited, sender)
            && (InfoOf(l, sender).active ==>
                  && Exec(l, Exit(sender, payout, true)).1 == Success
                  && var after := Exec(l, Exit(sender, payout, true)).0;
                     && Inv(after) && At(after.paid, sender) >= At(l.paid, sender) + InfoOf(l, sender).stake
                     && At(after.paid, sender) <= At(after.deposited, sender))
  {
    assert Stakes(Deployed(owner)) == map[];
    assert Inv(Deployed(owner));
    ExecAllKeeps(Deployed(owner), calls);
    var l := ExecAll(Deployed(owner), calls);
    StakeIsCovered(l, sender);
    if InfoOf(l, sender).active {
      ExecKeeps(l, Exit(sender, payout, true));
      PayingKeeps(l, sender);
      AllPaidStaysPaid(Paying(l, sender), payout, sender);
    }
  }

  /** Re-entering `exit` from one's own payout reverts: there is nothing left to take. */
  lemma ReentrantExitReverts(l: Ledger, sender: Address, payout: seq<Call>, accepts: bool)
    requires Inv(l) && InfoOf(l, sender).active
    ensures InfoOf(l, sender).stake <= l.balance
    ensures Exec(Paying(l, sender), Exit(sender, payout, accepts)) == (Paying(l, sender), Revert)
  {
    StakeIsCovered(l, sender);
  }
}
