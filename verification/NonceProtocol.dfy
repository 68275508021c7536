/**
 Serialised submission of transactions from one wallet (src/common/blockchain/nonce-manager.ts), as the
 event loop runs it: every step below is one continuation between two awaits. Any number of callers,
 outside resets and other users of the same key interleave freely with them.
 */
module NonceProtocol {
  import opened Basics

  const NONCE_ERRORS :=
    ["nonce too low", "nonce has already been used", "replacement transaction underpriced", "already known"]

  function Lower(s: string): string {
    seq(|s|, i requires 0 <= i < |s| => if 'A' <= s[i] <= 'Z' then (s[i] as int + 32) as char else s[i])
  }

  predicate Contains(s: string, needle: string) {
    |needle| <= |s| && (s[..|needle|] == needle || (s != "" && Contains(s[1..], needle)))
  }

  predicate IsNonceError(message: string) {
    exists k :: 0 <= k < |NONCE_ERRORS| && Contains(Lower(message), NONCE_ERRORS[k])
  }

  /** Where the attempt loop of one submission stands. `k` counts the failed sends before this one. */
  datatype Stage =
    | Waiting                           // chained behind the promise it found in `queue`
    | NeedNonce(k: nat)                 // at the top of the loop
    | Asking(k: nat)                    // getNonce('pending') is on its way
    | Answered(k: nat, pending: nat)    // the node answered, the continuation has not run yet
    | Holding(k: nat, nonce: nat)       // reserve() returned
    | Sending(k: nat, nonce: nat, taken: bool)  // in flight; `taken` once the node accepted it
    | Settled(ok: bool)

  datatype Task = Task(behind: Option<nat>, retries: int, stage: Stage, sends: nat)

  /** The manager's fields: the tail of the promise chain and the local counter. */
  datatype Manager = Manager(tasks: seq<Task>, queue: Option<nat>, next: Option<nat>)

  predicate Running(s: Stage) { !s.Waiting? && !s.Settled? }

  function Put(m: Manager, i: nat, stage: Stage): Manager
    requires i < |m.tasks|
  {
    m.(tasks := m.tasks[i := m.tasks[i].(stage := stage)])
  }

  /** Chains a new submission behind whatever `queue` holds. */
  function Submit(m: Manager, retries: int): Manager {
    Manager(m.tasks + [Task(m.queue, retries, Waiting, 0)], Some(|m.tasks|), m.next)
  }

  function Reset(m: Manager): Manager { m.(next := None) }

  /** Both handlers of `then` start the attempt: the predecessor only has to be settled. */
  predicate CanStart(m: Manager, i: nat) {
    && i < |m.tasks| && m.tasks[i].stage.Waiting?
    && match m.tasks[i].behind
       case None => true
       case Some(p) => p < |m.tasks| && m.tasks[p].stage.Settled?
  }

  function Start(m: Manager, i: nat): Manager
    requires CanStart(m, i)
  {
    Put(m, i, NeedNonce(0))
  }

  /** The synchronous part of reserve(): the local counter, or a question to the node. */
  function Reserve(m: Manager, i: nat): Manager
    requires i < |m.tasks| && m.tasks[i].stage.NeedNonce?
  {
    var k := m.tasks[i].stage.k;
    if m.next.Some? then Put(m, i, Holding(k, m.next.value)) else Put(m, i, Asking(k))
  }

  /** The node's answer arrives: it becomes the local counter and is returned. */
  function Deliver(m: Manager, i: nat): Manager
    requires i < |m.tasks| && m.tasks[i].stage.Answered?
  {
    var s := m.tasks[i].stage;
    Put(m, i, Holding(s.k, s.pending)).(next := Some(s.pending))
  }

  function BeginSend(m: Manager, i: nat): Manager
    requires i < |m.tasks| && m.tasks[i].stage.Holding?
  {
    var t := m.tasks[i];
    m.(tasks := m.tasks[i := t.(stage := Sending(t.stage.k, t.stage.nonce, false), sends := t.sends + 1)])
  }

  function Succeed(m: Manager, i: nat): Manager
    requires i < |m.tasks| && m.tasks[i].stage.Sending?
  {
    Put(m, i, Settled(true)).(next := Some(m.tasks[i].stage.nonce + 1))
  }

  /** The catch block: give up, or resync and try again. */
  function Fail(m: Manager, i: nat, message: string): Manager
    requires i < |m.tasks| && m.tasks[i].stage.Sending?
  {
    var t := m.tasks[i];
    var givesUp := !IsNonceError(message) || t.stage.k >= t.retries;
    Reset(Put(m, i, if givesUp then Settled(false) else NeedNonce(t.stage.k + 1)))
  }

  // ---------------------------------------------------------------- the world

  datatype Send = Send(task: nat, nonce: nat)

  /** The manager, the nonces the node has accepted from anybody, and this manager's successful sends. */
  datatype World = World(m: Manager, accepted: set<nat>, sent: seq<Send>)

  datatype Event =
    | Submitted(retries: int)
    | WasReset
    | Started(i: nat)
    | Reserved(i: nat)
    | NodeAnswers(i: nat, pending: nat)
    | Delivered(i: nat)
    | SendBegins(i: nat)
    | NodeAccepts(i: nat)
    | SendSucceeds(i: nat)
    | SendFails(i: nat, message: string)
    | OtherUserSends(nonce: nat)

  ghost predicate AboveAll(pending: nat, accepted: set<nat>) {
    forall n :: n in accepted ==> n < pending
  }

  /** An event can happen now. The node's pending nonce is above every nonce it has accepted, and a
      send only resolves after the node accepted it; nothing else is asked of the node. */
  ghost predicate Enabled(w: World, e: Event) {
    match e
    case Submitted(_) => true
    case WasReset => true
    case OtherUserSends(_) => true
    case Started(i) => CanStart(w.m, i)
    case Reserved(i) => i < |w.m.tasks| && w.m.tasks[i].stage.NeedNonce?
    case NodeAnswers(i, p) => i < |w.m.tasks| && w.m.tasks[i].stage.Asking? && AboveAll(p, w.accepted)
    case Delivered(i) => i < |w.m.tasks| && w.m.tasks[i].stage.Answered?
    case SendBegins(i) => i < |w.m.tasks| && w.m.tasks[i].stage.Holding?
    case NodeAccepts(i) => i < |w.m.tasks| && w.m.tasks[i].stage.Sending?
    case SendSucceeds(i) => i < |w.m.tasks| && w.m.tasks[i].stage.Sending? && w.m.tasks[i].stage.taken
    case SendFails(i, _) => i < |w.m.tasks| && w.m.tasks[i].stage.Sending?
  }

  ghost function Step(w: World, e: Event): World
    requires Enabled(w, e)
  {
    match e
    case Submitted(retries) => w.(m := Submit(w.m, retries))
    case WasReset => w.(m := Reset(w.m))
    case OtherUserSends(n) => w.(accepted := w.accepted + {n})
    case Started(i) => w.(m := Start(w.m, i))
    case Reserved(i) => w.(m := Reserve(w.m, i))
    case NodeAnswers(i, p) => w.(m := Put(w.m, i, Answered(w.m.tasks[i].stage.k, p)))
    case Delivered(i) => w.(m := Deliver(w.m, i))
    case SendBegins(i) => w.(m := BeginSend(w.m, i))
    case NodeAccepts(i) =>
      var s := w.m.tasks[i].stage;
      w.(m := Put(w.m, i, s.(taken := true)), accepted := w.accepted + {s.nonce})
    case SendSucceeds(i) => w.(m := Succeed(w.m, i), sent := w.sent + [Send(i, w.m.tasks[i].stage.nonce)])
    case SendFails(i, message) => w.(m := Fail(w.m, i, message))
  }

  ghost predicate StepOf(w: World, e: Event, w': World) {
    Enabled(w, e) && w' == Step(w, e)
  }

  /** A run: the manager starts idle, whatever others have sent before, and every event takes one
      world to the next. */
  ghost predicate IsRun(worlds: seq<World>, events: seq<Event>) {
    && |worlds| == |events| + 1
    && worlds[0].m == Manager([], None, None) && worlds[0].sent == []
    && forall i :: 0 <= i < |events| ==> StepOf(worlds[i], events[i], worlds[i + 1])
  }

  // --------------------------------------------------------------- invariant

  function Budget(retries: int): nat { Max(retries, 0) }

  /** The promise chain: each submission waits for the one before it. */
  ghost predicate ChainOk(m: Manager) {
    && m.queue == (if m.tasks == [] then None else Some(|m.tasks| - 1))
    && (forall i :: 0 <= i < |m.tasks| ==> m.tasks[i].behind == if i == 0 then None else Some(i - 1))
    && (forall i, j :: 0 <= j < i < |m.tasks| && !m.tasks[i].stage.Waiting? ==> m.tasks[j].stage.Settled?)
  }

  ghost predicate SendsOk(t: Task) {
    match t.stage
    case Waiting => t.sends == 0
    case Sending(k, _, _) => t.sends == k + 1 && k <= Budget(t.retries)
    case Settled(_) => 1 <= t.sends <= Budget(t.retries) + 1
    case _ => t.sends == t.stage.k <= Budget(t.retries)
  }

  /** A nonce the manager is about to use is above everything it sent successfully. */
  ghost predicate Fresh(nonce: nat, sent: seq<Send>) {
    forall i :: 0 <= i < |sent| ==> sent[i].nonce < nonce
  }

  ghost predicate StageFresh(s: Stage, sent: seq<Send>) {
    && (s.Answered? ==> Fresh(s.pending, sent))
    && (s.Holding? ==> Fresh(s.nonce, sent))
    && (s.Sending? ==> Fresh(s.nonce, sent))
  }

  ghost predicate SentOk(w: World) {
    && (forall i, j :: 0 <= i < j < |w.sent| ==> w.sent[i].nonce < w.sent[j].nonce && w.sent[i].task < w.sent[j].task)
    && (forall i :: 0 <= i < |w.sent| ==>
          && w.sent[i].nonce in w.accepted
          && w.sent[i].task < |w.m.tasks| && w.m.tasks[w.sent[i].task].stage == Settled(true))
    && (w.m.next.Some? ==> Fresh(w.m.next.value, w.sent))
    && (forall i :: 0 <= i < |w.m.tasks| ==>
          && StageFresh(w.m.tasks[i].stage, w.sent)
          && (w.m.tasks[i].stage.Sending? && w.m.tasks[i].stage.taken ==> w.m.tasks[i].stage.nonce in w.accepted))
  }

  ghost predicate Inv(w: World) {
    && ChainOk(w.m)
    && (forall i :: 0 <= i < |w.m.tasks| ==> SendsOk(w.m.tasks[i]))
    && SentOk(w)
  }

  /** Only the first unsettled submission can be past waiting. */
  lemma OnlyOneRuns(m: Manager, i: nat, j: nat)
    requires ChainOk(m) && i < |m.tasks| && j < |m.tasks| && i != j
    requires Running(m.tasks[i].stage)
    ensures !Running(m.tasks[j].stage)
  {
  }

  lemma PutKeepsChain(m: Manager, i: nat, stage: Stage)
    requires ChainOk(m) && i < |m.tasks| && !stage.Waiting?
    requires Running(m.tasks[i].stage) || CanStart(m, i)
    ensures ChainOk(Put(m, i, stage))
  {
    var m' := Put(m, i, stage);
    forall a, b | 0 <= b < a < |m'.tasks| && !m'.tasks[a].stage.Waiting? ensures m'.tasks[b].stage.Settled? {
      if a == i && CanStart(m, i) {
        assert m.tasks[i - 1].stage.Settled?;
        assert b < i - 1 ==> m.tasks[b].stage.Settled?;
      }
    }
  }

  lemma SucceedKeeps(w: World, i: nat)
    requires Inv(w) && Enabled(w, SendSucceeds(i))
    ensures Inv(Step(w, SendSucceeds(i)))
  {
    var w' := Step(w, SendSucceeds(i));
    PutKeepsChain(w.m, i, Settled(true));
    var nonce := w.m.tasks[i].stage.nonce;
    forall j | 0 <= j < |w.sent| ensures w.sent[j].task < i {
      assert w.m.tasks[w.sent[j].task].stage.Settled?;
    }
    forall j | 0 <= j < |w'.m.tasks| ensures StageFresh(w'.m.tasks[j].stage, w'.sent) {
      if j != i {
        OnlyOneRuns(w.m, i, j);
      }
    }
  }

  lemma AcceptKeeps(w: World, i: nat)
    requires Inv(w) && Enabled(w, NodeAccepts(i))
    ensures Inv(Step(w, NodeAccepts(i)))
  {
    PutKeepsChain(w.m, i, w.m.tasks[i].stage.(taken := true));
  }

  lemma AnswerKeeps(w: World, i: nat, pending: nat)
    requires Inv(w) && Enabled(w, NodeAnswers(i, pending))
    ensures Inv(Step(w, NodeAnswers(i, pending)))
  {
    PutKeepsChain(w.m, i, Answered(w.m.tasks[i].stage.k, pending));
    assert Fresh(pending, w.sent);
  }

  lemma SubmitKeeps(w: World, retries: int)
    requires Inv(w)
    ensures Inv(Step(w, Submitted(retries)))
  {
  }

  lemma StartKeeps(w: World, i: nat)
    requires Inv(w) && Enabled(w, Started(i))
    ensures Inv(Step(w, Started(i)))
  {
    PutKeepsChain(w.m, i, NeedNonce(0));
  }

  lemma ReserveKeeps(w: World, i: nat)
    requires Inv(w) && Enabled(w, Reserved(i))
    ensures Inv(Step(w, Reserved(i)))
  {
    var k := w.m.tasks[i].stage.k;
    if w.m.next.Some? {
      PutKeepsChain(w.m, i, Holding(k, w.m.next.value));
    } else {
      PutKeepsChain(w.m, i, Asking(k));
    }
  }

  lemma DeliverKeeps(w: World, i: nat)
    requires Inv(w) && Enabled(w, Delivered(i))
    ensures Inv(Step(w, Delivered(i)))
  {
    PutKeepsChain(w.m, i, Holding(w.m.tasks[i].stage.k, w.m.tasks[i].stage.pending));
  }

  lemma BeginKeeps(w: World, i: nat)
    requires Inv(w) && Enabled(w, SendBegins(i))
    ensures Inv(Step(w, SendBegins(i)))
  {
    var s := w.m.tasks[i].stage;
    PutKeepsChain(w.m, i, Sending(s.k, s.nonce, false));
  }

  lemma FailKeeps(w: World, i: nat, message: string)
    requires Inv(w) && Enabled(w, SendFails(i, message))
    ensures Inv(Step(w, SendFails(i, message)))
  {
    var t := w.m.tasks[i];
    var giveUp := !IsNonceError(message) || t.stage.k >= t.retries;
    FailedSendKeeps(w, i, if giveUp then Settled(false) else NeedNonce(t.stage.k + 1));
  }

  lemma FailedSendKeeps(w: World, i: nat, next: Stage)
    requires Inv(w) && i < |w.m.tasks| && w.m.tasks[i].stage.Sending?
    requires next == Settled(false)
             || (next == NeedNonce(w.m.tasks[i].stage.k + 1) && w.m.tasks[i].stage.k < w.m.tasks[i].retries)
    ensures Inv(w.(m := Reset(Put(w.m, i, next))))
  {
    PutKeepsChain(w.m, i, next);
  }

  lemma StepKeeps(w: World, e: Event)
    requires Inv(w) && Enabled(w, e)
    ensures Inv(Step(w, e))
  {
    match e
    case Submitted(retries) => SubmitKeeps(w, retries);
    case WasReset =>
    case OtherUserSends(n) =>
    case Started(i) => StartKeeps(w, i);
    case Reserved(i) => ReserveKeeps(w, i);
    case NodeAnswers(i, p) => AnswerKeeps(w, i, p);
    case Delivered(i) => DeliverKeeps(w, i);
    case SendBegins(i) => BeginKeeps(w, i);
    case NodeAccepts(i) => AcceptKeeps(w, i);
    case SendSucceeds(i) => SucceedKeeps(w, i);
    case SendFails(i, message) => FailKeeps(w, i, message);
  }

  lemma {:induction false} RunInv(worlds: seq<World>, events: seq<Event>, n: nat)
    requires IsRun(worlds, events) && n < |worlds|
    ensures Inv(worlds[n])
  {
    if n > 0 {
      RunInv(worlds, events, n - 1);
      assert StepOf(worlds[n - 1], events[n - 1], worlds[n - 1 + 1]);
      StepKeeps(worlds[n - 1], events[n - 1]);
    }
  }

  // ----------------------------------------------------------- the guarantees

  /** In every interleaving: successful sends use strictly increasing nonces in submission order, at
      most one send is in flight, and no submission sends more than retries + 1 times. */
  lemma NonceSafety(worlds: seq<World>, events: seq<Event>, n: nat)
    requires IsRun(worlds, events) && n < |worlds|
    ensures var w := worlds[n];
            && (forall i, j :: 0 <= i < j < |w.sent| ==>
                  w.sent[i].nonce < w.sent[j].nonce && w.sent[i].task < w.sent[j].task)
            && (forall i, j :: 0 <= i < j < |w.m.tasks| ==>
                  !(w.m.tasks[i].stage.Sending? && w.m.tasks[j].stage.Sending?))
            && (forall i :: 0 <= i < |w.m.tasks| ==> w.m.tasks[i].sends <= Budget(w.m.tasks[i].retries) + 1)
  {
    RunInv(worlds, events, n);
  }

  /** The next submission to serve. */
  ghost predicate FirstUnsettled(m: Manager, i: nat) {
    && i < |m.tasks| && !m.tasks[i].stage.Settled?
    && forall j :: 0 <= j < i ==> m.tasks[j].stage.Settled?
  }

  /** A rejection never blocks the queue: however the earlier ones ended, the first unsettled
      submission is running or can start at once. */
  lemma QueueNeverBlocks(worlds: seq<World>, events: seq<Event>, n: nat, i: nat)
    requires IsRun(worlds, events) && n < |worlds| && FirstUnsettled(worlds[n].m, i)
    ensures Running(worlds[n].m.tasks[i].stage) || CanStart(worlds[n].m, i)
  {
    RunInv(worlds, events, n);
  }

  /** Steps the manager has left for a submission once the node keeps answering. */
  function Remaining(t: Task): nat {
    var full := 6 * (Budget(t.retries) + 1);
    match t.stage
    case Waiting => full + 1
    case NeedNonce(k) => if k <= Budget(t.retries) then full - 6 * k else 0
    case Asking(k) => if k <= Budget(t.retries) then full - 6 * k - 1 else 0
    case Answered(k, _) => if k <= Budget(t.retries) then full - 6 * k - 2 else 0
    case Holding(k, _) => if k <= Budget(t.retries) then full - 6 * k - 3 else 0
    case Sending(k, _, taken) => if k <= Budget(t.retries) then full - 6 * k - (if taken then 5 else 4) else 0
    case Settled(_) => 0
  }

  function TaskOf(e: Event): Option<nat> {
    match e
    case Submitted(_) => None
    case WasReset => None
    case OtherUserSends(_) => None
    case Started(i) => Some(i)
    case Reserved(i) => Some(i)
    case NodeAnswers(i, _) => Some(i)
    case Delivered(i) => Some(i)
    case SendBegins(i) => Some(i)
    case NodeAccepts(i) => Some(i)
    case SendSucceeds(i) => Some(i)
    case SendFails(i, _) => Some(i)
  }

  /** Every step of a submission brings it closer to its end. (A second acceptance of the same send
      changes nothing.) */
  lemma StepsMakeProgress(w: World, e: Event, i: nat)
    requires Inv(w) && Enabled(w, e) && TaskOf(e) == Some(i)
    requires e.NodeAccepts? ==> !w.m.tasks[i].stage.taken
    ensures i < |w.m.tasks| && i < |Step(w, e).m.tasks|
    ensures Remaining(Step(w, e).m.tasks[i]) < Remaining(w.m.tasks[i])
  {
    assert SendsOk(w.m.tasks[i]);
  }

  /** An unsettled running submission always has a step to take, its own or the node's. */
  lemma RunningCanMove(w: World, i: nat) returns (e: Event)
    requires Inv(w) && i < |w.m.tasks| && Running(w.m.tasks[i].stage)
    ensures Enabled(w, e) && TaskOf(e) == Some(i) && (e.NodeAccepts? ==> !w.m.tasks[i].stage.taken)
  {
    match w.m.tasks[i].stage
    case NeedNonce(_) => e := Reserved(i);
    case Asking(_) =>
      var p := Above(w.accepted);
      e := NodeAnswers(i, p);
    case Answered(_, _) => e := Delivered(i);
    case Holding(_, _) => e := SendBegins(i);
    case Sending(_, _, taken) => e := if taken then SendSucceeds(i) else NodeAccepts(i);
  }

  lemma {:induction false} Above(s: set<nat>) returns (p: nat)
    ensures AboveAll(p, s)
  {
    if s == {} {
      p := 0;
    } else {
      var x :| x in s;
      var q := Above(s - {x});
      p := if q > x then q else x + 1;
      assert forall n :: n in s ==> n == x || n in s - {x};
    }
  }
}
