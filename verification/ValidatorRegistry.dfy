/**
 The contract's storage and its functions, statement by statement, proved to do what ContractLedger
 says about a call and everything nested in it.
 */
module ValidatorRegistry {
  import opened ContractLedger

  class Registry {
    const owner: Address
    var validators: map<Address, Info>
    var balance: nat
    var deposited: map<Address, nat>
    var paid: map<Address, nat>
    var slashed: map<Address, nat>
    var received: nat

    ghost function View(): Ledger
      reads this
    {
      Ledger(owner, validators, balance, deposited, paid, slashed, received)
    }

    constructor (sender: Address)
      ensures View() == Deployed(sender)
    {
      owner := sender;
      validators, balance, deposited, paid, slashed, received := map[], 0, map[], map[], map[], 0;
    }

    function Lookup(a: Address): Info
      reads this
    {
      if a in validators then validators[a] else Info(0, false)
    }

    method Register(sender: Address, value: nat) returns (o: Outcome)
      modifies this
      ensures (View(), o) == DoRegister(old(View()), sender, value)
    {
      if value < MIN_STAKE {
        return Revert;
      }
      if Lookup(sender).active {
        return Revert;
      }
      balance := balance + value;
      validators := validators[sender := Info(value, true)];
      deposited := Add(deposited, sender, value);
      o := Success;
    }

    method Exit(sender: Address, payout: seq<Call>, accepts: bool) returns (o: Outcome)
      modifies this
      decreases payout, 1
      ensures (View(), o) == Exec(old(View()), Call.Exit(sender, payout, accepts))
    {
      var info := Lookup(sender);
      if !info.active {
        return Revert;
      }
      var savedValidators, savedBalance, savedDeposited := validators, balance, deposited;
      var savedPaid, savedSlashed, savedReceived := paid, slashed, received;
      info := info.(active := false);
      var stakeAmount := info.stake;
      info := info.(stake := 0);
      validators := validators[sender := info];

      var sent := false;
      if stakeAmount <= balance {
        balance := balance - stakeAmount;
        paid := Add(paid, sender, stakeAmount);
        DispatchAll(payout);
        sent := accepts;
      }
      if !sent {
        validators, balance, deposited := savedValidators, savedBalance, savedDeposited;
        paid, slashed, received := savedPaid, savedSlashed, savedReceived;
        return Revert;
      }
      o := Success;
    }

    method Slash(sender: Address, validator: Address, amount: nat) returns (o: Outcome)
      modifies this
      ensures (View(), o) == DoSlash(old(View()), sender, validator, amount)
    {
      if sender != owner {
        return Revert;
      }
      var info := Lookup(validator);
      if !info.active {
        return Revert;
      }
      if info.stake < amount {
        return Revert;
      }
      info := info.(stake := info.stake - amount);
      validators := validators[validator := info];
      slashed := Add(slashed, validator, amount);
      o := Success;
    }

    method Receive(value: nat)
      modifies this
      ensures View() == Exec(old(View()), Transfer(value)).0
    {
      balance := balance + value;
      received := received + value;
    }

    method Dispatch(c: Call) returns (o: Outcome)
      modifies this
      decreases c, 2
      ensures (View(), o) == Exec(old(View()), c)
    {
      match c {
        case Register(sender, value) => o := Register(sender, value);
        case Exit(sender, payout, accepts) => o := Exit(sender, payout, accepts);
        case Slash(sender, validator, amount) => o := Slash(sender, validator, amount);
        case Transfer(value) =>
          Receive(value);
          o := Success;
        case Frame(calls, reverts) =>
          if reverts {
            o := Revert;
          } else {
            DispatchAll(calls);
            o := Success;
          }
      }
    }

    method DispatchAll(calls: seq<Call>)
      modifies this
      decreases calls, 0
      ensures View() == ExecAll(old(View()), calls)
    {
      if calls != [] {
        var _ := Dispatch(calls[0]);
        DispatchAll(calls[1..]);
      }
    }
  }
}
