/**
 The nonce manager's fields and the code that runs on them between two awaits, proved to do the
 steps of NonceProtocol.
 */
module NonceManager {
  import opened Basics
  import opened NonceProtocol

  class Wallet {
    var tasks: seq<Task>
    var queue: Option<nat>
    var next: Option<nat>

    ghost function View(): Manager
      reads this
    {
      Manager(tasks, queue, next)
    }

    constructor ()
      ensures View() == Manager([], None, None)
    {
      tasks, queue, next := [], None, None;
    }

    /** Chains the attempt behind `queue`, which becomes the new attempt with its rejection swallowed. */
    method Submit(retries: int) returns (run: nat)
      modifies this
      ensures View() == NonceProtocol.Submit(old(View()), retries) && run == |old(tasks)|
    {
      run := |tasks|;
      tasks := tasks + [Task(queue, retries, Waiting, 0)];
      queue := Some(run);
    }

    method Reset()
      modifies this
      ensures View() == NonceProtocol.Reset(old(View()))
    {
      next := None;
    }

    /** The predecessor settled, either way: the attempt begins. */
    method Start(i: nat)
      requires CanStart(View(), i)
      modifies this
      ensures View() == NonceProtocol.Start(old(View()), i)
    {
      tasks := tasks[i := tasks[i].(stage := NeedNonce(0))];
    }

    /** reserve() up to its await: the local counter if there is one, else the node is asked. */
    method Reserve(i: nat)
      requires i < |tasks| && tasks[i].stage.NeedNonce?
      modifies this
      ensures View() == NonceProtocol.Reserve(old(View()), i)
    {
      var k := tasks[i].stage.k;
      var stage := Asking(k);
      if next != None {
        stage := Holding(k, next.value);
      }
      tasks := tasks[i := tasks[i].(stage := stage)];
    }

    /** The node's answer: stored and returned. */
    method Deliver(i: nat)
      requires i < |tasks| && tasks[i].stage.Answered?
      modifies this
      ensures View() == NonceProtocol.Deliver(old(View()), i)
    {
      next := Some(tasks[i].stage.pending);
      tasks := tasks[i := tasks[i].(stage := Holding(tasks[i].stage.k, next.value))];
    }

    method BeginSend(i: nat) returns (nonce: nat)
      requires i < |tasks| && tasks[i].stage.Holding?
      modifies this
      ensures View() == NonceProtocol.BeginSend(old(View()), i)
      ensures nonce == old(tasks[i]).stage.nonce
    {
      var t := tasks[i];
      nonce := t.stage.nonce;
      tasks := tasks[i := t.(stage := Sending(t.stage.k, nonce, false), sends := t.sends + 1)];
    }

    method SendResolved(i: nat)
      requires i < |tasks| && tasks[i].stage.Sending?
      modifies this
      ensures View() == NonceProtocol.Succeed(old(View()), i)
    {
      next := Some(tasks[i].stage.nonce + 1);
      tasks := tasks[i := tasks[i].(stage := Settled(true))];
    }

    /** The catch block of the retry loop. */
    method SendRejected(i: nat, message: string)
      requires i < |tasks| && tasks[i].stage.Sending?
      modifies this
      ensures View() == NonceProtocol.Fail(old(View()), i, message)
    {
      var attempt := tasks[i].stage.k;
      if !IsNonceError(message) || attempt >= tasks[i].retries {
        Reset();
        tasks := tasks[i := tasks[i].(stage := Settled(false))];
        return;
      }
      Reset();
      tasks := tasks[i := tasks[i].(stage := NeedNonce(attempt + 1))];
    }
  }
}
