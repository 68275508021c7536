/**
 Which nonces the manager uses and when it retries (src/common/blockchain/nonce-manager.ts).
 */
module NonceSequence {
  import opened Basics
  import opened NonceProtocol

  // --------------------------------------------------------------------- retries

  /** `needle` stands in `s` from place `i` on. */
  predicate StandsAt(s: string, needle: string, i: nat) { i + |needle| <= |s| && s[i..i + |needle|] == needle }

  lemma {:induction false} PlaceOf(s: string, needle: string) returns (i: nat)
    requires Contains(s, needle)
    ensures StandsAt(s, needle, i)
  {
    if |needle| <= |s| && s[..|needle|] == needle {
      i := 0;
    } else {
      i := PlaceOf(s[1..], needle);
      assert s[1..][i..i + |needle|] == s[i + 1..i + 1 + |needle|];
      i := i + 1;
    }
  }

  lemma {:induction false} ContainsAt(s: string, needle: string, i: nat)
    requires StandsAt(s, needle, i)
    ensures Contains(s, needle)
  {
    if i > 0 {
      assert s[1..][i - 1..i - 1 + |needle|] == s[i..i + |needle|];
      ContainsAt(s[1..], needle, i - 1);
    }
  }

  /** The message speaks of a used nonce: in any case, one of the four phrases. */
  ghost predicate SpeaksOfNonce(message: string) {
    exists lower: string, i: nat, phrase: string ::
      && |lower| == |message|
      && (forall k :: 0 <= k < |message| ==>
            if 'A' <= message[k] <= 'Z' then lower[k] as int == message[k] as int + 32 else lower[k] == message[k])
      && phrase in {"nonce too low", "nonce has already been used", "replacement transaction underpriced",
                    "already known"}
      && StandsAt(lower, phrase, i)
  }

  lemma NonceErrorExactly(message: string)
    ensures IsNonceError(message) <==> SpeaksOfNonce(message)
  {
    if IsNonceError(message) {
      var k :| 0 <= k < |NONCE_ERRORS| && Contains(Lower(message), NONCE_ERRORS[k]);
      var i := PlaceOf(Lower(message), NONCE_ERRORS[k]);
    }
    if SpeaksOfNonce(message) {
      var lower: string, i: nat, phrase: string :|
        && |lower| == |message|
        && (forall k :: 0 <= k < |message| ==>
              if 'A' <= message[k] <= 'Z' then lower[k] as int == message[k] as int + 32 else lower[k] == message[k])
        && phrase in {"nonce too low", "nonce has already been used", "replacement transaction underpriced",
                      "already known"}
        && StandsAt(lower, phrase, i);
      assert lower == Lower(message);
      ContainsAt(lower, phrase, i);
      assert NONCE_ERRORS[0] == "nonce too low" && NONCE_ERRORS[1] == "nonce has already been used";
      assert NONCE_ERRORS[2] == "replacement transaction underpriced" && NONCE_ERRORS[3] == "already known";
    }
  }

  /** A failed send is tried again, with a nonce asked for anew, exactly when the message speaks of a used nonce
      and retries are left; otherwise the submission fails. Either way the local counter is dropped. */
  lemma RetriesExactly(w: World, i: nat, message: string)
    requires Enabled(w, SendFails(i, message))
    ensures var after, t := Step(w, SendFails(i, message)).m, w.m.tasks[i];
            && |after.tasks| == |w.m.tasks| && after.next == None
            && after.tasks[i].stage == (if SpeaksOfNonce(message) && t.stage.k < t.retries then NeedNonce(t.stage.k + 1)
                                        else Settled(false))
  {
    NonceErrorExactly(message);
  }

  // -------------------------------------------------------------------- no gaps

  /** The next send will use `n`: nobody holds another nonce and no answer is awaited. */
  ghost predicate NextIs(w: World, n: nat) {
    && w.m.next == Some(n)
    && forall i :: 0 <= i < |w.m.tasks| ==>
         var s := w.m.tasks[i].stage;
         && !s.Asking? && !s.Answered? && (s.Holding? ==> s.nonce == n) && (s.Sending? ==> s.nonce == n)
  }

  /** Nothing happened that makes the manager ask the node again or lets the next send end. */
  predicate Quiet(e: Event) { !e.WasReset? && !e.SendFails? && !e.SendSucceeds? }

  lemma SuccessSetsNext(w: World, i: nat)
    requires Inv(w) && Enabled(w, SendSucceeds(i))
    ensures NextIs(Step(w, SendSucceeds(i)), w.m.tasks[i].stage.nonce + 1)
  {
    var w' := Step(w, SendSucceeds(i));
    forall j | 0 <= j < |w'.m.tasks| && j != i ensures !Running(w'.m.tasks[j].stage) {
      OnlyOneRuns(w.m, i, j);
    }
  }

  lemma QuietKeepsNext(w: World, e: Event, n: nat)
    requires Enabled(w, e) && NextIs(w, n) && Quiet(e)
    ensures NextIs(Step(w, e), n)
  {
  }

  lemma {:induction false} NextStays(worlds: seq<World>, events: seq<Event>, p: nat, q: nat, n: nat)
    requires IsRun(worlds, events) && p <= q < |worlds| && NextIs(worlds[p], n)
    requires forall k :: p <= k < q ==> Quiet(events[k])
    ensures NextIs(worlds[q], n)
    decreases q
  {
    if p < q {
      NextStays(worlds, events, p, q - 1, n);
      assert StepOf(worlds[q - 1], events[q - 1], worlds[q]);
      QuietKeepsNext(worlds[q - 1], events[q - 1], n);
    }
  }

  /** No gaps: between two successful sends with no reset and no failed send in between, the nonce goes up by
      exactly one, whatever else happens. */
  lemma NoGaps(worlds: seq<World>, events: seq<Event>, p: nat, q: nat, i: nat, j: nat)
    requires IsRun(worlds, events) && p < q < |events|
    requires events[p] == SendSucceeds(i) && events[q] == SendSucceeds(j)
    requires forall k :: p < k < q ==> Quiet(events[k])
    ensures i < |worlds[p].m.tasks| && j < |worlds[q].m.tasks|
    ensures worlds[p].m.tasks[i].stage.Sending? && worlds[q].m.tasks[j].stage.Sending?
    ensures worlds[q].m.tasks[j].stage.nonce == worlds[p].m.tasks[i].stage.nonce + 1
    ensures worlds[q + 1].sent == worlds[q].sent + [Send(j, worlds[q].m.tasks[j].stage.nonce)]
  {
    RunInv(worlds, events, p);
    assert StepOf(worlds[p], events[p], worlds[p + 1]) && StepOf(worlds[q], events[q], worlds[q + 1]);
    SuccessSetsNext(worlds[p], i);
    NextStays(worlds, events, p + 1, q, worlds[p].m.tasks[i].stage.nonce + 1);
  }

  /** The first send after a reset or a failure uses what the node answered. */
  lemma AnswerIsUsed(w: World, i: nat)
    requires Inv(w) && Enabled(w, Delivered(i))
    ensures NextIs(Step(w, Delivered(i)), w.m.tasks[i].stage.pending)
  {
    var w' := Step(w, Delivered(i));
    forall j | 0 <= j < |w'.m.tasks| && j != i ensures !Running(w'.m.tasks[j].stage) {
      OnlyOneRuns(w.m, i, j);
    }
  }
}
