/**
 Where the rows of a commit-reveal round come from (src/modules/commit-reveal/commit-reveal.service.ts): each
 commitment was signed by the validator it stands for while commits were open, and each opening came while
 reveals were.
 */
module RoundOrigins {
  import opened Basics
  import opened Commitment
  import opened CommitRevealRounds

  predicate HasCommitted(rows: seq<Row>, id: Id) { exists i :: 0 <= i < |rows| && rows[i].validatorId == id }

  /** Somebody may still commit: the round is not settled, commitments are missing, and there is time. */
  predicate CommitsOpen(r: Round, now: int) {
    && r.job.status != Completed && r.job.status != Failed && |r.rows| < |r.job.committee|
    && (r.job.commitDeadline.None? || now <= r.job.commitDeadline.value)
  }

  /** Rows may be opened: everybody has committed or the time for it is over, and the time for revealing is not. */
  predicate RevealsOpen(r: Round, now: int) {
    && r.job.status != Completed && r.job.status != Failed
    && (|r.rows| >= |r.job.committee| || (r.job.commitDeadline.Some? && now > r.job.commitDeadline.value))
    && (r.job.revealDeadline.None? || now <= r.job.revealDeadline.value)
  }

  /** A commitment that has to be taken. */
  predicate MayCommit(r: Round, id: Id, auth: Auth, now: int) {
    && r.job.mode == CommitReveal && CommitsOpen(r, now)
    && id in r.job.committee && !HasCommitted(r.rows, id) && auth == Authentic
  }

  /** It is taken exactly then, as a sealed row at the end; otherwise nothing changes. */
  lemma CommitTakenExactly(r: Round, id: Id, hash: Hash, auth: Auth, now: int)
    ensures var (r', reply) := Commit(r, id, hash, auth, now);
            && (reply == Done <==> MayCommit(r, id, auth, now))
            && r' == if MayCommit(r, id, auth, now) then r.(rows := r.rows + [Row(id, hash, None, None, None)]) else r
  {
    var found := FindRow(r.rows, id);
    if found.Some? {
      assert r.rows[found.value].validatorId == id;
    }
  }

  /** The opening fits row `i`, which is still sealed. */
  predicate Fits(r: Round, o: Opening, i: nat) {
    && i < |r.rows| && r.rows[i].validatorId == o.validatorId && r.rows[i].revealedAt.None?
    && r.rows[i].commitHash == ComputeCommitHash(r.job.id, o.validatorId, o.outcome, o.salt)
  }

  predicate DistinctRows(rows: seq<Row>) {
    forall i, j :: 0 <= i < j < |rows| ==> rows[i].validatorId != rows[j].validatorId
  }

  /** A reveal is taken exactly while reveals are open and for a sealed row whose hash it opens. */
  lemma RevealTakenExactly(r: Round, o: Opening, now: int)
    requires DistinctRows(r.rows)
    ensures RevealRefusal(r, o, now).None? <==>
            r.job.mode == CommitReveal && RevealsOpen(r, now) && exists i: nat :: Fits(r, o, i)
    ensures forall i: nat :: Fits(r, o, i) && RevealRefusal(r, o, now).None? ==>
              Reveal(r, o, now).0.rows
              == r.rows[i := r.rows[i].(outcome := Some(o.outcome), salt := Some(o.salt), revealedAt := Some(now))]
    ensures RevealRefusal(r, o, now).Some? ==>
              Reveal(r, o, now).0 == r && Reveal(r, o, now).1 != Done
  {
    var found := FindRow(r.rows, o.validatorId);
    if found.Some? && RevealRefusal(r, o, now).None? {
      assert Fits(r, o, found.value);
    }
    forall i: nat | Fits(r, o, i) ensures found == Some(i) {
      assert found.Some? && r.rows[found.value].validatorId == r.rows[i].validatorId;
    }
    if RevealRefusal(r, o, now).None? {
      var k := found.value;
      SettlingKeepsRows(r.(rows := r.rows[k := Opened(r.rows[k], o, now)]), now);
    }
  }

  lemma SettlingKeepsRows(r: Round, at: int)
    ensures Settle(r, at).0.rows == r.rows
  {
  }

  /** `finalize` settles a round that can be settled: all rows open, or the time for revealing over. */
  lemma FinalizeSettlesExactly(r: Round, now: int)
    requires r.job.mode == CommitReveal && r.job.status != Completed && r.job.status != Failed
    ensures var all := forall i :: 0 <= i < |r.rows| ==> r.rows[i].revealedAt.Some?;
            var late := r.job.revealDeadline.Some? && now > r.job.revealDeadline.value;
            if CommitsOpen(r, now) || !(all || late) then
              Finalize(r, now).0 == r && Finalize(r, now).1.Refused?
            else
              Finalize(r, now) == Settle(r, now)
  {
  }

  // --------------------------------------------------------------------- runs

  /** The event commits this hash for this validator, signed by it, and has to be taken. */
  predicate CommittedBy(r: Round, e: Event, row: Row) {
    && e.DoCommit? && e.id == row.validatorId && e.hash == row.commitHash
    && MayCommit(r, e.id, e.auth, e.now)
  }

  /** The event opens this row as it stands. */
  predicate OpenedBy(r: Round, e: Event, row: Row) {
    && e.DoReveal? && e.opening.validatorId == row.validatorId
    && row.outcome == Some(e.opening.outcome) && row.salt == Some(e.opening.salt) && row.revealedAt == Some(e.now)
    && RevealsOpen(r, e.now)
    && row.commitHash == ComputeCommitHash(r.job.id, e.opening.validatorId, e.opening.outcome, e.opening.salt)
  }

  /** A step keeps a row, opens it, or (for a row that was not there) seals it. */
  lemma StepTouches(r: Round, e: Event, i: nat)
    requires DistinctRows(r.rows) && i < |Step(r, e).0.rows|
    ensures DistinctRows(Step(r, e).0.rows) && |r.rows| <= |Step(r, e).0.rows|
    ensures var row := Step(r, e).0.rows[i];
            if i < |r.rows| then
              || row == r.rows[i]
              || (OpenedBy(r, e, row) && row.commitHash == r.rows[i].commitHash
                  && row.validatorId == r.rows[i].validatorId)
            else
              row.revealedAt.None? && CommittedBy(r, e, row)
  {
    match e
    case DoCommit(id, hash, auth, now) => CommitTakenExactly(r, id, hash, auth, now);
    case DoReveal(o, now) => RevealTouches(r, o, now, i);
    case DoFinalize(now) => SettlingKeepsRows(r, now);
    case DoStart(now) =>
  }

  lemma RevealTouches(r: Round, o: Opening, now: int, i: nat)
    requires DistinctRows(r.rows) && i < |Reveal(r, o, now).0.rows|
    ensures DistinctRows(Reveal(r, o, now).0.rows) && |r.rows| == |Reveal(r, o, now).0.rows|
    ensures var row := Reveal(r, o, now).0.rows[i];
            || row == r.rows[i]
            || (OpenedBy(r, DoReveal(o, now), row) && row.commitHash == r.rows[i].commitHash
                && row.validatorId == r.rows[i].validatorId)
  {
    RevealTakenExactly(r, o, now);
    if RevealRefusal(r, o, now).None? {
      var k :| Fits(r, o, k);
    }
  }

  lemma {:induction false} RowsStayDistinct(start: Round, events: seq<Event>)
    requires start.rows == []
    ensures DistinctRows(Run(start, events).rows)
  {
    if events != [] {
      var before := events[..|events| - 1];
      RowsStayDistinct(start, before);
      var r, r' := Run(start, before), Run(start, events);
      if r'.rows != [] {
        StepTouches(r, events[|events| - 1], 0);
      }
    }
  }

  /** In every run from assignment, late writes of the coordinator included, each stored commitment was made by an
      event of the run that committed exactly this hash for exactly this validator, with a signature of its own,
      while commits were open. */
  lemma {:induction false} CommitmentsHaveOrigin(start: Round, events: seq<Event>, i: nat) returns (k: nat)
    requires start.rows == [] && i < |Run(start, events).rows|
    ensures k < |events| && CommittedBy(Run(start, events[..k]), events[k], Run(start, events).rows[i])
  {
    var n := |events| - 1;
    var before := events[..n];
    RowsStayDistinct(start, before);
    StepTouches(Run(start, before), events[n], i);
    if i < |Run(start, before).rows| {
      k := CommitmentsHaveOrigin(start, before, i);
      assert before[..k] == events[..k] && before[k] == events[k];
    } else {
      k := n;
    }
  }

  /** And each opened row was opened, as it stands, by a reveal of the run while reveals were open. */
  lemma {:induction false} OpeningsHaveOrigin(start: Round, events: seq<Event>, i: nat) returns (k: nat)
    requires start.rows == [] && i < |Run(start, events).rows| && Run(start, events).rows[i].revealedAt.Some?
    ensures k < |events| && OpenedBy(Run(start, events[..k]), events[k], Run(start, events).rows[i])
  {
    var n := |events| - 1;
    var before := events[..n];
    RowsStayDistinct(start, before);
    StepTouches(Run(start, before), events[n], i);
    if i < |Run(start, before).rows| && Run(start, before).rows[i] == Run(start, events).rows[i] {
      k := OpeningsHaveOrigin(start, before, i);
      assert before[..k] == events[..k] && before[k] == events[k];
    } else {
      k := n;
    }
  }

  lemma {:induction false} JobKeepsTerms(start: Round, events: seq<Event>)
    ensures var job := Run(start, events).job;
            job == start.job.(status := job.status, completedAt := job.completedAt)
  {
    if events != [] {
      JobKeepsTerms(start, events[..|events| - 1]);
      StepKeepsTerms(Run(start, events[..|events| - 1]), events[|events| - 1]);
    }
  }

  lemma StepKeepsTerms(r: Round, e: Event)
    ensures var job := Step(r, e).0.job; job == r.job.(status := job.status, completedAt := job.completedAt)
  {
    match e
    case DoCommit(id, hash, auth, now) => CommitTakenExactly(r, id, hash, auth, now);
    case _ =>
  }

  /** The two windows of a round assigned at `at`, whatever has happened in it: commits for `commitMs`, reveals for
      `revealMs` more, or from when everybody has committed. */
  lemma WindowsExactly(job: Job, committee: seq<Id>, at: int, commitMs: int, revealMs: int, verdict: Option<Verdict>,
                       events: seq<Event>, now: int)
    requires job.mode == CommitReveal
    ensures var start := Round(AssignValidators(job, committee, at, commitMs, revealMs), [], verdict, [], []);
            var r := Run(start, events);
            var settled, complete := r.job.status == Completed || r.job.status == Failed, |r.rows| >= |committee|;
            && (CommitsOpen(r, now) <==> !settled && !complete && now <= at + commitMs)
            && (RevealsOpen(r, now) <==>
                  !settled && (complete || now > at + commitMs) && now <= at + commitMs + revealMs)
  {
    JobKeepsTerms(Round(AssignValidators(job, committee, at, commitMs, revealMs), [], verdict, [], []), events);
  }

  /** A row counts for an outcome. */
  predicate RevealedFor(row: Row, id: Id, o: VerdictOutcome) {
    row.validatorId == id && row.revealedAt.Some? && row.outcome == Some(o)
  }

  lemma {:induction false} VoteHasRow(rows: seq<Row>, k: nat) returns (i: nat)
    requires k < |Votes(rows)|
    ensures i < |rows| && RevealedFor(rows[i], Votes(rows)[k].validatorId, Votes(rows)[k].outcome)
  {
    var n := |rows| - 1;
    if k < |Votes(rows[..n])| {
      i := VoteHasRow(rows[..n], k);
    } else {
      i := n;
    }
  }

  lemma {:induction false} RowHasVote(rows: seq<Row>, i: nat, o: VerdictOutcome) returns (k: nat)
    requires i < |rows| && rows[i].revealedAt.Some? && rows[i].outcome == Some(o)
    ensures k < |Votes(rows)| && Votes(rows)[k] == RevealedVote(rows[i].validatorId, o)
  {
    var n := |rows| - 1;
    if i < n {
      k := RowHasVote(rows[..n], i, o);
    } else {
      k := |Votes(rows[..n])|;
    }
  }

  lemma VotesAreOpenRows(rows: seq<Row>, id: Id, o: VerdictOutcome)
    ensures (exists i :: 0 <= i < |Votes(rows)| && Votes(rows)[i] == RevealedVote(id, o)) <==>
            exists i :: 0 <= i < |rows| && RevealedFor(rows[i], id, o)
  {
    if i :| 0 <= i < |rows| && RevealedFor(rows[i], id, o) {
      var k := RowHasVote(rows, i, o);
    }
    if k :| 0 <= k < |Votes(rows)| && Votes(rows)[k] == RevealedVote(id, o) {
      var i := VoteHasRow(rows, k);
    }
  }

  /** A row counts against an outcome. */
  predicate RevealedOther(row: Row, id: Id, o: VerdictOutcome) {
    row.validatorId == id && row.revealedAt.Some? && row.outcome != Some(o)
  }

  lemma {:induction false} DissentersAreOpenRows(rows: seq<Row>, id: Id, o: VerdictOutcome)
    ensures id in Dissenters(rows, o) <==> exists i :: 0 <= i < |rows| && RevealedOther(rows[i], id, o)
  {
    if rows != [] {
      var n := |rows| - 1;
      DissentersAreOpenRows(rows[..n], id, o);
      assert forall i :: 0 <= i < n ==> rows[..n][i] == rows[i];
    }
  }

  /** The verdict of a completed round is signed by exactly those who revealed its outcome; they, and nobody else,
      are recorded as accurate, and those who revealed another as inaccurate. */
  lemma SignersAreSupporters(start: Round, begin: int, events: seq<Event>, id: Id)
    requires TimedRun(start, begin, events) && Run(start, events).job.status == Completed
    ensures var r := Run(start, events);
            && r.verdict.Some?
            && (id in r.verdict.value.signatures <==>
                  exists i :: 0 <= i < |r.rows| && RevealedFor(r.rows[i], id, r.verdict.value.outcome))
            && r.accurate == r.verdict.value.signatures
            && (id in r.inaccurate <==>
                  exists i :: 0 <= i < |r.rows| && RevealedOther(r.rows[i], id, r.verdict.value.outcome))
  {
    ReachableInv(start, begin, events);
    SettledSigners(start, Run(start, events), EndOf(begin, events), id);
  }

  lemma SettledSigners(start: Round, r: Round, now: int, id: Id)
    requires RoundInv(start, r, now) && r.job.status == Completed
    ensures r.verdict.Some? && r.accurate == r.verdict.value.signatures
    ensures id in r.verdict.value.signatures <==>
            exists i :: 0 <= i < |r.rows| && RevealedFor(r.rows[i], id, r.verdict.value.outcome)
    ensures id in r.inaccurate <==>
            exists i :: 0 <= i < |r.rows| && RevealedOther(r.rows[i], id, r.verdict.value.outcome)
  {
    var o := SettledLists(start, r, now);
    SupportersAreOpenRows(r.rows, id, o);
    DissentersAreOpenRows(r.rows, id, o);
  }

  lemma SettledLists(start: Round, r: Round, now: int) returns (o: VerdictOutcome)
    requires RoundInv(start, r, now) && r.job.status == Completed
    ensures r.verdict.Some? && r.verdict.value.outcome == o
    ensures r.verdict.value.signatures == r.accurate == VotersFor(Votes(r.rows), o)
    ensures r.inaccurate == Dissenters(r.rows, o)
  {
    o := r.verdict.value.outcome;
  }

  lemma SupportersAreOpenRows(rows: seq<Row>, id: Id, o: VerdictOutcome)
    ensures id in VotersFor(Votes(rows), o) <==> exists i :: 0 <= i < |rows| && RevealedFor(rows[i], id, o)
  {
    SupportersAreVoters(Votes(rows), o, id);
    VotesAreOpenRows(rows, id, o);
  }

  /** A reveal that is taken ends the round when it was the last one missing, unless another verdict holds the
      session; otherwise the round stays as it was but for the row. */
  lemma RevealSettlesExactly(r: Round, o: Opening, now: int)
    requires DistinctRows(r.rows) && RevealRefusal(r, o, now).None?
    ensures var (r', reply) := Reveal(r, o, now);
            var all := forall i :: 0 <= i < |r'.rows| ==> r'.rows[i].revealedAt.Some?;
            if all then
              (r'.job.status in {Completed, Failed} && reply == Done)
              || (r.verdict.Some? && reply == Refused(VerdictExists) && r' == r.(rows := r'.rows))
            else
              reply == Done && r' == r.(rows := r'.rows)
  {
    RevealTakenExactly(r, o, now);
  }
}
