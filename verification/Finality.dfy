/**
 Waiting for a transaction to be final (src/common/blockchain/confirmation-policy.ts), over a chain and a
 clock about which nothing is assumed but that every provider call takes time.
 */
module Finality {
  import opened Basics

  datatype Receipt = Receipt(blockHash: string, blockNumber: int, status: Option<int>)

  /** What the provider answered, in order. */
  datatype Observation =
    | Waited(receipt: Option<Receipt>)
    | Fetched(receipt: Option<Receipt>)
    | Head(number: int)

  datatype Outcome = Final(receipt: Receipt) | WaitTimedOut | Reverted | Reorged | ConfirmTimedOut

  /** The n-th call is answered as the functions say and takes one millisecond more than `lag(n)`. */
  class Provider {
    const waited: nat -> Option<Receipt>
    const fetched: nat -> Option<Receipt>
    const head: nat -> int
    const lag: nat -> nat
    var calls: nat
    var clock: int
    ghost var log: seq<Observation>

    constructor (waited: nat -> Option<Receipt>, fetched: nat -> Option<Receipt>, head: nat -> int, lag: nat -> nat,
                 clock: int)
      ensures this.clock == clock && log == []
    {
      this.waited, this.fetched, this.head, this.lag := waited, fetched, head, lag;
      this.clock, calls, log := clock, 0, [];
    }

    /** Date.now(): the clock may have moved since it was last read. */
    method Now() returns (t: int)
      modifies this`clock, this`calls
      ensures t == clock >= old(clock)
    {
      clock := clock + lag(calls);
      calls := calls + 1;
      t := clock;
    }

    method WaitForTransaction() returns (r: Option<Receipt>)
      modifies this
      ensures clock > old(clock) && log == old(log) + [Waited(r)]
    {
      r := waited(calls);
      log := log + [Waited(r)];
      clock := clock + lag(calls) + 1;
      calls := calls + 1;
    }

    method GetTransactionReceipt() returns (r: Option<Receipt>)
      modifies this
      ensures clock > old(clock) && log == old(log) + [Fetched(r)]
    {
      r := fetched(calls);
      log := log + [Fetched(r)];
      clock := clock + lag(calls) + 1;
      calls := calls + 1;
    }

    method GetBlockNumber() returns (r: int)
      modifies this
      ensures clock > old(clock) && log == old(log) + [Head(r)]
    {
      r := head(calls);
      log := log + [Head(r)];
      clock := clock + lag(calls) + 1;
      calls := calls + 1;
    }

    method Sleep(ms: int)
      modifies this`clock, this`calls
      ensures clock >= old(clock)
    {
      clock := clock + Max(0, ms) + lag(calls);
      calls := calls + 1;
    }
  }

  /** The wait that began at entry `a` produced a receipt that did not revert, and every receipt fetched
      since was in the same block. */
  predicate SteadySince(log: seq<Observation>, a: nat, blockHash: string) {
    && a < |log| && log[a].Waited? && log[a].receipt.Some?
    && log[a].receipt.value.status != Some(0) && log[a].receipt.value.blockHash == blockHash
    && forall j :: a < j < |log| ==>
         !log[j].Waited? && (log[j].Fetched? ==> log[j].receipt.Some? && log[j].receipt.value.blockHash == blockHash)
  }

  /** The last two answers were this receipt and a head at least `depth` blocks above it. */
  predicate SeenAtDepth(log: seq<Observation>, receipt: Receipt, depth: int) {
    && |log| >= 2
    && log[|log| - 2] == Fetched(Some(receipt))
    && log[|log| - 1].Head? && log[|log| - 1].number - receipt.blockNumber >= depth
  }

  /** Finality as promised: the receipt was last seen in the same block as the non-reverted receipt of the
      final wait, was never seen elsewhere in between, and the head was then deep enough above it. */
  ghost predicate Buried(log: seq<Observation>, receipt: Receipt, confirmations: int) {
    && (exists a :: 0 <= a < |log| && SteadySince(log, a, receipt.blockHash))
    && SeenAtDepth(log, receipt, confirmations)
  }

  /** Each outcome against the answers `log` of the call. */
  ghost predicate Justified(r: Outcome, log: seq<Observation>, confirmations: int) {
    && |log| > 0
    && var last := log[|log| - 1];
       match r
       case Final(receipt) => Buried(log, receipt, confirmations)
       case WaitTimedOut => last == Waited(None)
       case Reverted => last.Waited? && last.receipt.Some? && last.receipt.value.status == Some(0)
       case Reorged => last == Fetched(None)
       case ConfirmTimedOut => exists a, hash :: 0 <= a < |log| && SteadySince(log, a, hash)
  }

  /** What a reader of the answers knows: no receipt yet, a transaction in some block, a receipt seen there
      again, or the outcome. `Garbled` is a reading no call produces. */
  datatype Reading =
    | NoReceipt
    | InBlock(hash: string)
    | SeenAgain(receipt: Receipt)
    | Decided(outcome: Outcome)
    | Garbled

  function Next(reading: Reading, answer: Observation, confirmations: int): Reading {
    match (reading, answer)
    case (NoReceipt, Waited(None)) => Decided(WaitTimedOut)
    case (NoReceipt, Waited(Some(r))) => if r.status == Some(0) then Decided(Reverted) else InBlock(r.blockHash)
    case (InBlock(_), Fetched(None)) => Decided(Reorged)
    case (InBlock(hash), Fetched(Some(r))) => if r.blockHash == hash then SeenAgain(r) else NoReceipt
    case (SeenAgain(r), Head(n)) =>
      if n - r.blockNumber >= confirmations then Decided(Final(r)) else InBlock(r.blockHash)
    case _ => Garbled
  }

  function Read(reading: Reading, answers: seq<Observation>, confirmations: int): Reading {
    if answers == [] then reading
    else Next(Read(reading, answers[..|answers| - 1], confirmations), answers[|answers| - 1], confirmations)
  }

  /** One more answer. */
  lemma Heard(reading: Reading, before: seq<Observation>, answer: Observation, confirmations: int)
    returns (after: seq<Observation>)
    ensures after == before + [answer]
    ensures Read(reading, after, confirmations) == Next(Read(reading, before, confirmations), answer, confirmations)
  {
    after := before + [answer];
    assert after[..|before|] == before;
  }

  lemma {:induction false} ReadOn(reading: Reading, a: seq<Observation>, b: seq<Observation>, confirmations: int)
    ensures Read(reading, a + b, confirmations) == Read(Read(reading, a, confirmations), b, confirmations)
  {
    if b == [] {
      assert a + b == a;
    } else {
      ReadOn(reading, a, b[..|b| - 1], confirmations);
      assert (a + b)[..|a + b| - 1] == a + b[..|b| - 1];
    }
  }

  /** One more answer that is no new wait keeps the block. */
  lemma StaysSteady(log: seq<Observation>, a: nat, blockHash: string, answer: Observation)
    requires SteadySince(log, a, blockHash)
    requires answer.Head? || (answer.Fetched? && answer.receipt.Some? && answer.receipt.value.blockHash == blockHash)
    ensures SteadySince(log + [answer], a, blockHash)
  {
  }

  /** What a reading of all the answers says about them. */
  ghost predicate Meant(reading: Reading, log: seq<Observation>, confirmations: int) {
    match reading
    case NoReceipt => true
    case InBlock(hash) => exists a :: 0 <= a < |log| && SteadySince(log, a, hash)
    case SeenAgain(r) =>
      && (exists a :: 0 <= a < |log| && SteadySince(log, a, r.blockHash))
      && log[|log| - 1] == Fetched(Some(r))
    case Decided(outcome) => Justified(outcome, log, confirmations)
    case Garbled => true
  }

  lemma NextIsMeant(reading: Reading, log: seq<Observation>, answer: Observation, confirmations: int)
    requires Meant(reading, log, confirmations)
    ensures Meant(Next(reading, answer, confirmations), log + [answer], confirmations)
  {
    match (reading, answer)
    case (NoReceipt, Waited(Some(r))) =>
      if r.status != Some(0) {
        assert SteadySince(log + [answer], |log|, r.blockHash);
      }
    case (InBlock(hash), Fetched(Some(r))) =>
      if r.blockHash == hash {
        var a :| 0 <= a < |log| && SteadySince(log, a, hash);
        StaysSteady(log, a, hash, answer);
      }
    case (SeenAgain(r), Head(n)) =>
      var a :| 0 <= a < |log| && SteadySince(log, a, r.blockHash);
      StaysSteady(log, a, r.blockHash, answer);
    case _ =>
  }

  /** Whatever the answers decide, they justify. */
  lemma {:induction false} ReadingIsMeant(log: seq<Observation>, confirmations: int)
    ensures Meant(Read(NoReceipt, log, confirmations), log, confirmations)
  {
    if log != [] {
      var before := log[..|log| - 1];
      ReadingIsMeant(before, confirmations);
      NextIsMeant(Read(NoReceipt, before, confirmations), before, log[|log| - 1], confirmations);
      assert before + [log[|log| - 1]] == log;
    }
  }

  /** Answers that decide nothing yet but hold a block justify giving up. */
  lemma GivingUpIsJustified(log: seq<Observation>, confirmations: int)
    requires Read(NoReceipt, log, confirmations).InBlock?
    ensures Justified(ConfirmTimedOut, log, confirmations)
  {
    ReadingIsMeant(log, confirmations);
  }

  /** Nothing in these answers ends a call: every wait produced a receipt that did not revert, every receipt was still
      there, and no head was deep enough above the receipt just fetched. */
  predicate EndsNothing(log: seq<Observation>, confirmations: int) {
    && (forall k :: 0 <= k < |log| && log[k].Waited? ==>
          log[k].receipt.Some? && log[k].receipt.value.status != Some(0))
    && (forall k :: 0 <= k < |log| && log[k].Fetched? ==> log[k].receipt.Some?)
    && (forall k :: 0 < k < |log| && log[k].Head? && log[k - 1].Fetched? && log[k - 1].receipt.Some? ==>
          log[k].number - log[k - 1].receipt.value.blockNumber < confirmations)
  }

  predicate Open(reading: Reading) { reading.NoReceipt? || reading.InBlock? || reading.SeenAgain? }

  lemma NextEndsNothing(reading: Reading, log: seq<Observation>, answer: Observation, confirmations: int)
    requires Meant(reading, log, confirmations) && EndsNothing(log, confirmations)
    requires Open(Next(reading, answer, confirmations))
    ensures Open(reading) && EndsNothing(log + [answer], confirmations)
  {
  }

  /** A call goes on only as long as nothing has ended it. */
  lemma {:induction false} OpenReadingEndsNothing(log: seq<Observation>, confirmations: int)
    requires Open(Read(NoReceipt, log, confirmations))
    ensures EndsNothing(log, confirmations)
  {
    if log != [] {
      var before, last := log[..|log| - 1], log[|log| - 1];
      assert before + [last] == log;
      ReadingIsMeant(before, confirmations);
      OpenReadingEndsNothing(before, confirmations);
      NextEndsNothing(Read(NoReceipt, before, confirmations), before, last, confirmations);
    }
  }

  /** The outcome of a call is the reading of its answers; giving up is possible only while they hold a block. */
  predicate Told(r: Outcome, answers: seq<Observation>, confirmations: int) {
    var reading := Read(NoReceipt, answers, confirmations);
    if r == ConfirmTimedOut then reading.InBlock? else reading == Decided(r)
  }

  lemma ToldIsJustified(r: Outcome, answers: seq<Observation>, confirmations: int)
    requires Told(r, answers, confirmations)
    ensures Justified(r, answers, confirmations)
  {
    ReadingIsMeant(answers, confirmations);
    if r == ConfirmTimedOut {
      GivingUpIsJustified(answers, confirmations);
    }
  }

  /** An outcome comes with the first answer that ends the call: nothing before it did. */
  lemma OutcomeIsPrompt(r: Outcome, answers: seq<Observation>, confirmations: int)
    requires Told(r, answers, confirmations)
    ensures answers != []
    ensures EndsNothing(if r == ConfirmTimedOut then answers else answers[..|answers| - 1], confirmations)
  {
    if r == ConfirmTimedOut {
      OpenReadingEndsNothing(answers, confirmations);
    } else {
      OpenReadingEndsNothing(answers[..|answers| - 1], confirmations);
    }
  }

  /** Terminates, because each wait uses up time; what it returns is what the answers it got decide, it stops
      at the answer that decides, and it only gives up confirming once the time is over. */
  method WaitForFinality(p: Provider, confirmations: int, timeoutMs: int, pollIntervalMs: int)
    returns (r: Outcome, ghost answers: seq<Observation>)
    modifies p
    ensures p.log == old(p.log) + answers
    ensures Told(r, answers, confirmations)
    ensures r == ConfirmTimedOut ==> p.clock >= old(p.clock) + timeoutMs
    decreases Max(0, timeoutMs)
  {
    var now := p.Now();
    var deadline := now + timeoutMs;
    var initial := p.WaitForTransaction();
    answers := Heard(NoReceipt, [], Waited(initial), confirmations);
    if initial.None? {
      r := WaitTimedOut;
      return;
    }
    if initial.value.status == Some(0) {
      r := Reverted;
      return;
    }
    var observedBlockHash := initial.value.blockHash;
    ghost var started := p.clock;
    now := p.Now();
    while now < deadline
      invariant now == p.clock >= started && started > old(p.clock) && deadline >= old(p.clock) + timeoutMs
      invariant p.log == old(p.log) + answers
      invariant Read(NoReceipt, answers, confirmations) == InBlock(observedBlockHash)
      decreases deadline - now
    {
      var current := p.GetTransactionReceipt();
      answers := Heard(NoReceipt, answers, Fetched(current), confirmations);
      if current.None? {
        r := Reorged;
        return;
      }
      if current.value.blockHash != observedBlockHash {
        var reading := p.Now();
        ghost var later;
        r, later := WaitForFinality(p, confirmations, deadline - reading, pollIntervalMs);
        ReadOn(NoReceipt, answers, later, confirmations);
        answers := answers + later;
        return;
      }
      var head := p.GetBlockNumber();
      answers := Heard(NoReceipt, answers, Head(head), confirmations);
      if head - current.value.blockNumber >= confirmations {
        r := Final(current.value);
        return;
      }
      p.Sleep(pollIntervalMs);
      now := p.Now();
    }
    r := ConfirmTimedOut;
  }
}
