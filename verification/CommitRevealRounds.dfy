/**
 One job's commit-reveal round as a timed state machine
 (src/modules/commit-reveal/commit-reveal.service.ts; deadlines and job status from
 src/modules/jobs/jobs.service.ts). The phase is never stored: it is recomputed from the rows and
 the clock on every call.
 */
module CommitRevealRounds {
  import opened Basics
  import opened Commitment

  datatype VerdictMode = Instant | CommitReveal

  datatype JobStatus = Pending | Assigned | InProgress | Completed | Failed

  datatype Job = Job(id: Id, mode: VerdictMode, status: JobStatus, committee: seq<Id>,
                     commitDeadline: Option<int>, revealDeadline: Option<int>, completedAt: Option<int>)

  datatype Row = Row(validatorId: Id, commitHash: Hash, outcome: Option<VerdictOutcome>, salt: Option<Bytes>,
                     revealedAt: Option<int>)

  /** The verdict row of the job's session; the session id is unique in that table. */
  datatype Verdict = Verdict(jobId: Id, outcome: VerdictOutcome, signatures: seq<Id>)

  /** `accurate` and `inaccurate` are the reputation observations the round has recorded. */
  datatype Round = Round(job: Job, rows: seq<Row>, verdict: Option<Verdict>, accurate: seq<Id>, inaccurate: seq<Id>)

  datatype Phase = CommitPhase | RevealPhase | Finalized

  /** What the signature check finds: no such validator, not a signature, somebody else's, or good. */
  datatype Auth = UnknownValidator | MalformedSignature | OtherSigner | Authentic

  datatype Error =
    | NotCommitReveal | CommitClosed | NotOnCommittee | AlreadyCommitted | ValidatorNotFound | BadSignature
    | WrongSigner | AlreadyFinalized | CommitStillOpen | RevealClosed | NoCommitment | AlreadyRevealed
    | RevealMismatch | RevealStillOpen | VerdictExists

  datatype Reply = Done | Refused(error: Error)

  function Rank(p: Phase): nat {
    match p
    case CommitPhase => 0
    case RevealPhase => 1
    case Finalized => 2
  }

  predicate IsFinal(status: JobStatus) { status == Completed || status == Failed }

  /** updateStatus: a final status comes with the time it was reached. */
  function WithStatus(job: Job, status: JobStatus, at: int): Job {
    job.(status := status, completedAt := if IsFinal(status) then Some(at) else job.completedAt)
  }

  predicate Past(deadline: Option<int>, now: int) { deadline.Some? && now > deadline.value }

  function PhaseOf(r: Round, now: int): Phase {
    if IsFinal(r.job.status) then Finalized
    else if |r.rows| >= |r.job.committee| || Past(r.job.commitDeadline, now) then RevealPhase
    else CommitPhase
  }

  /** The clock starts when the committee is known. */
  function AssignValidators(job: Job, validators: seq<Id>, now: int, commitMs: int, revealMs: int): Job {
    var seated := job.(committee := validators, status := Assigned);
    if job.mode == CommitReveal then
      seated.(commitDeadline := Some(now + commitMs), revealDeadline := Some(now + commitMs + revealMs))
    else seated
  }

  function FindRow(rows: seq<Row>, id: Id): (k: Option<nat>)
    ensures k.Some? ==> k.value < |rows| && rows[k.value].validatorId == id
    ensures k.None? ==> forall i :: 0 <= i < |rows| ==> rows[i].validatorId != id
  {
    FindFirst(rows, (row: Row) => row.validatorId == id)
  }

  function CommitRefusal(r: Round, id: Id, auth: Auth, now: int): Option<Error> {
    if r.job.mode != CommitReveal then Some(NotCommitReveal)
    else if PhaseOf(r, now) != CommitPhase then Some(CommitClosed)
    else if id !in r.job.committee then Some(NotOnCommittee)
    else if FindRow(r.rows, id).Some? then Some(AlreadyCommitted)
    else match auth
      case UnknownValidator => Some(ValidatorNotFound)
      case MalformedSignature => Some(BadSignature)
      case OtherSigner => Some(WrongSigner)
      case Authentic => None
  }

  function Commit(r: Round, id: Id, hash: Hash, auth: Auth, now: int): (Round, Reply) {
    match CommitRefusal(r, id, auth, now)
    case Some(error) => (r, Refused(error))
    case None => (r.(rows := r.rows + [Row(id, hash, None, None, None)]), Done)
  }

  predicate AllRevealed(rows: seq<Row>) { forall i :: 0 <= i < |rows| ==> rows[i].revealedAt.Some? }

  /** Opened rows as votes, in order. */
  function Votes(rows: seq<Row>): (votes: seq<RevealedVote>)
    ensures |votes| <= |rows|
  {
    if rows == [] then []
    else
      var last := rows[|rows| - 1];
      Votes(rows[..|rows| - 1])
      + if last.revealedAt.Some? && last.outcome.Some? then [RevealedVote(last.validatorId, last.outcome.value)] else []
  }

  function RoundTally(r: Round): Tally { TallyOf(Votes(r.rows), |r.job.committee|) }

  /** Opened rows that did not choose `o`, in order. */
  function Dissenters(rows: seq<Row>, o: VerdictOutcome): seq<Id> {
    if rows == [] then []
    else
      var last := rows[|rows| - 1];
      Dissenters(rows[..|rows| - 1], o)
      + if last.revealedAt.Some? && last.outcome != Some(o) then [last.validatorId] else []
  }

  function Settle(r: Round, at: int): (Round, Reply) {
    var tally := RoundTally(r);
    match tally.outcome
    case None => (r.(job := WithStatus(r.job, Failed, at)), Done)
    case Some(o) =>
      if r.verdict.Some? then (r, Refused(VerdictExists))
      else
        (r.(verdict := Some(Verdict(r.job.id, o, tally.supporters)), job := WithStatus(r.job, Completed, at),
            accurate := r.accurate + tally.supporters, inaccurate := r.inaccurate + Dissenters(r.rows, o)), Done)
  }

  datatype Opening = Opening(validatorId: Id, outcome: VerdictOutcome, salt: Bytes)

  function RevealRefusal(r: Round, o: Opening, now: int): Option<Error> {
    var k := FindRow(r.rows, o.validatorId);
    if r.job.mode != CommitReveal then Some(NotCommitReveal)
    else if PhaseOf(r, now) == Finalized then Some(AlreadyFinalized)
    else if PhaseOf(r, now) == CommitPhase then Some(CommitStillOpen)
    else if Past(r.job.revealDeadline, now) then Some(RevealClosed)
    else if k.None? then Some(NoCommitment)
    else if r.rows[k.value].revealedAt.Some? then Some(AlreadyRevealed)
    else if ComputeCommitHash(r.job.id, o.validatorId, o.outcome, o.salt) != r.rows[k.value].commitHash then
      Some(RevealMismatch)
    else None
  }

  function Opened(row: Row, o: Opening, now: int): Row {
    row.(outcome := Some(o.outcome), salt := Some(o.salt), revealedAt := Some(now))
  }

  function Reveal(r: Round, o: Opening, now: int): (Round, Reply) {
    match RevealRefusal(r, o, now)
    case Some(error) => (r, Refused(error))
    case None =>
      var k := FindRow(r.rows, o.validatorId).value;
      var saved := r.(rows := r.rows[k := Opened(r.rows[k], o, now)]);
      if AllRevealed(saved.rows) then Settle(saved, now) else (saved, Done)
  }

  function Finalize(r: Round, now: int): (Round, Reply) {
    if r.job.mode != CommitReveal then (r, Refused(NotCommitReveal))
    else match PhaseOf(r, now)
      case CommitPhase => (r, Refused(CommitStillOpen))
      case RevealPhase =>
        if !AllRevealed(r.rows) && !Past(r.job.revealDeadline, now) then (r, Refused(RevealStillOpen))
        else Settle(r, now)
      case Finalized => (r, Done)
  }

  /** The coordinator marks the job in progress some time after the assignment, without looking at its status
      (src/modules/coordinator/coordinator.service.ts). */
  function StartWork(r: Round, now: int): Round { r.(job := WithStatus(r.job, InProgress, now)) }

  // --------------------------------------------------------------------- runs

  datatype Event =
    | DoCommit(id: Id, hash: Hash, auth: Auth, now: int)
    | DoReveal(opening: Opening, now: int)
    | DoFinalize(now: int)
    | DoStart(now: int)

  function Step(r: Round, e: Event): (Round, Reply) {
    match e
    case DoCommit(id, hash, auth, now) => Commit(r, id, hash, auth, now)
    case DoReveal(opening, now) => Reveal(r, opening, now)
    case DoFinalize(now) => Finalize(r, now)
    case DoStart(now) => (StartWork(r, now), Done)
  }

  /** The round after a run of calls, the last event of the list being the latest. */
  function Run(start: Round, events: seq<Event>): Round {
    if events == [] then start else Step(Run(start, events[..|events| - 1]), events[|events| - 1]).0
  }

  /** A round as it starts: assigned, in progress already or not yet, a committee, both deadlines, no
      commitment. */
  ghost predicate Started(r: Round) {
    && r.job.mode == CommitReveal && r.job.status in {Assigned, InProgress}
    && r.job.committee != [] && r.rows == [] && r.accurate == [] && r.inaccurate == []
    && r.job.commitDeadline.Some? && r.job.revealDeadline.Some?
  }

  /** Assignment of a non-empty committee starts a round. */
  lemma AssignmentStarts(job: Job, validators: seq<Id>, now: int, commitMs: int, revealMs: int,
                         verdict: Option<Verdict>)
    requires job.mode == CommitReveal && validators != []
    ensures Started(Round(AssignValidators(job, validators, now, commitMs, revealMs), [], verdict, [], []))
  {
  }

  /** A row is either sealed, or opened with a preimage of its hash. */
  ghost predicate RowOk(row: Row, jobId: Id) {
    && (row.revealedAt.None? ==> row.outcome.None? && row.salt.None?)
    && (row.revealedAt.Some? ==>
          && row.outcome.Some? && row.salt.Some?
          && row.commitHash == ComputeCommitHash(jobId, row.validatorId, row.outcome.value, row.salt.value))
  }

  /** Nobody was able to open a row while somebody could still commit. */
  ghost predicate OpenedAfterCommits(r: Round, row: Row) {
    row.revealedAt.Some? ==> |r.rows| >= |r.job.committee| || Past(r.job.commitDeadline, row.revealedAt.value)
  }

  /** What a settled round leaves behind. */
  ghost predicate SettledOk(r: Round, before: Option<Verdict>) {
    var tally := RoundTally(r);
    match r.job.status
    case Completed =>
      && before.None? && tally.outcome.Some?
      && r.verdict == Some(Verdict(r.job.id, tally.outcome.value, tally.supporters))
      && r.accurate == tally.supporters && r.inaccurate == Dissenters(r.rows, tally.outcome.value)
    case Failed => tally.outcome.None? && r.verdict == before && r.accurate == [] && r.inaccurate == []
    case _ => r.verdict == before && r.accurate == [] && r.inaccurate == []
  }

  ghost predicate RoundInv(start: Round, r: Round, now: int) {
    && r.job == start.job.(status := r.job.status, completedAt := r.job.completedAt)
    && r.job.status in {Assigned, InProgress, Completed, Failed}
    && (IsFinal(r.job.status) ==> r.job.completedAt.Some?)
    && (forall i, j :: 0 <= i < j < |r.rows| ==> r.rows[i].validatorId != r.rows[j].validatorId)
    && (forall i :: 0 <= i < |r.rows| ==>
          && r.rows[i].validatorId in r.job.committee
          && RowOk(r.rows[i], r.job.id)
          && OpenedAfterCommits(r, r.rows[i])
          && (r.rows[i].revealedAt.Some? ==> r.rows[i].revealedAt.value <= now))
    && SettledOk(r, start.verdict)
  }

  lemma SettleKeeps(start: Round, r: Round, now: int)
    requires RoundInv(start, r, now) && !IsFinal(r.job.status)
    ensures RoundInv(start, Settle(r, now).0, now)
  {
    var r' := Settle(r, now).0;
    assert r'.rows == r.rows && r'.job.committee == r.job.committee;
    forall i | 0 <= i < |r'.rows| ensures OpenedAfterCommits(r', r'.rows[i]) {
      assert OpenedAfterCommits(r, r.rows[i]);
    }
  }

  lemma CommitKeeps(start: Round, r: Round, now: int, id: Id, hash: Hash, auth: Auth, at: int)
    requires RoundInv(start, r, now) && now <= at
    ensures RoundInv(start, Commit(r, id, hash, auth, at).0, at)
  {
    if CommitRefusal(r, id, auth, at).None? {
      SealedRowAdded(start, r, now, Row(id, hash, None, None, None));
    }
  }

  lemma SealedRowAdded(start: Round, r: Round, now: int, row: Row)
    requires RoundInv(start, r, now) && !IsFinal(r.job.status)
    requires row.validatorId in r.job.committee && FindRow(r.rows, row.validatorId).None?
    requires row.revealedAt.None? && row.outcome.None? && row.salt.None?
    ensures RoundInv(start, r.(rows := r.rows + [row]), now)
  {
    var r' := r.(rows := r.rows + [row]);
    forall i | 0 <= i < |r'.rows| ensures OpenedAfterCommits(r', r'.rows[i]) && RowOk(r'.rows[i], r'.job.id) {
      if i < |r.rows| {
        assert OpenedAfterCommits(r, r.rows[i]);
      }
    }
    SealedIsNoVote(r.rows, row);
    assert r'.job == r.job && RoundTally(r') == RoundTally(r);
    assert SettledOk(r', start.verdict);
  }

  lemma SealedIsNoVote(rows: seq<Row>, row: Row)
    requires row.revealedAt.None?
    ensures Votes(rows + [row]) == Votes(rows)
  {
    assert (rows + [row])[..|rows|] == rows;
  }

  lemma OpeningKeeps(start: Round, r: Round, now: int, o: Opening, at: int)
    requires RoundInv(start, r, now) && now <= at && RevealRefusal(r, o, at).None?
    ensures var k := FindRow(r.rows, o.validatorId).value;
            RoundInv(start, r.(rows := r.rows[k := Opened(r.rows[k], o, at)]), at)
  {
    var k := FindRow(r.rows, o.validatorId).value;
    var r' := r.(rows := r.rows[k := Opened(r.rows[k], o, at)]);
    forall i | 0 <= i < |r'.rows| ensures OpenedAfterCommits(r', r'.rows[i]) {
      if i != k {
        assert OpenedAfterCommits(r, r.rows[i]);
      }
    }
  }

  /** The coordinator's write comes before the round is settled. */
  predicate InTime(r: Round, e: Event) { e.DoStart? ==> !IsFinal(r.job.status) }

  lemma StartKeeps(start: Round, r: Round, now: int, at: int)
    requires RoundInv(start, r, now) && now <= at && !IsFinal(r.job.status)
    ensures RoundInv(start, StartWork(r, at), at)
  {
    var r' := StartWork(r, at);
    assert RoundTally(r') == RoundTally(r);
    forall i | 0 <= i < |r'.rows| ensures OpenedAfterCommits(r', r'.rows[i]) {
      assert OpenedAfterCommits(r, r.rows[i]);
    }
  }

  lemma StepKeeps(start: Round, r: Round, now: int, e: Event)
    requires RoundInv(start, r, now) && now <= e.now && InTime(r, e)
    ensures RoundInv(start, Step(r, e).0, e.now)
  {
    match e
    case DoCommit(id, hash, auth, at) => CommitKeeps(start, r, now, id, hash, auth, at);
    case DoReveal(o, at) =>
      LaterInv(start, r, now, at);
      if RevealRefusal(r, o, at).None? {
        OpeningKeeps(start, r, now, o, at);
        var k := FindRow(r.rows, o.validatorId).value;
        SettleKeeps(start, r.(rows := r.rows[k := Opened(r.rows[k], o, at)]), at);
      }
    case DoFinalize(at) =>
      LaterInv(start, r, now, at);
      if PhaseOf(r, at) == RevealPhase {
        SettleKeeps(start, r, at);
      }
    case DoStart(at) => StartKeeps(start, r, now, at);
  }

  lemma LaterInv(start: Round, r: Round, now: int, later: int)
    requires RoundInv(start, r, now) && now <= later
    ensures RoundInv(start, r, later)
  {
  }

  /** The clock at the end of a run, given when it began. */
  function EndOf(begin: int, events: seq<Event>): int {
    if events == [] then begin else events[|events| - 1].now
  }

  /** A run from assignment: the clock does not go back, and the coordinator writes in time. */
  ghost predicate TimedRun(start: Round, begin: int, events: seq<Event>) {
    && Started(start)
    && (events != [] ==>
          var before, last := events[..|events| - 1], events[|events| - 1];
          TimedRun(start, begin, before) && EndOf(begin, before) <= last.now && InTime(Run(start, before), last))
  }

  lemma {:induction false} TimedPrefix(start: Round, begin: int, events: seq<Event>, n: nat)
    requires TimedRun(start, begin, events) && n <= |events|
    ensures TimedRun(start, begin, events[..n]) && EndOf(begin, events[..n]) <= EndOf(begin, events)
    decreases |events|
  {
    if n == |events| {
      assert events[..n] == events;
    } else {
      var before := events[..|events| - 1];
      assert before[..n] == events[..n];
      TimedPrefix(start, begin, before, n);
    }
  }

  lemma {:induction false} ReachableInv(start: Round, begin: int, events: seq<Event>)
    requires TimedRun(start, begin, events)
    ensures RoundInv(start, Run(start, events), EndOf(begin, events))
  {
    if events != [] {
      var before := events[..|events| - 1];
      ReachableInv(start, begin, before);
      StepKeeps(start, Run(start, before), EndOf(begin, before), events[|events| - 1]);
    }
  }

  // ----------------------------------------------------------- the guarantees

  /** Nobody can copy a revealed vote: once any row is open, every later commit is refused. */
  lemma NoCommitAfterReveal(start: Round, begin: int, events: seq<Event>, i: nat, id: Id, hash: Hash, auth: Auth,
                            now: int)
    requires TimedRun(start, begin, events) && EndOf(begin, events) <= now
    requires i < |Run(start, events).rows| && Run(start, events).rows[i].revealedAt.Some?
    ensures Commit(Run(start, events), id, hash, auth, now) == (Run(start, events), Refused(CommitClosed))
  {
    ReachableInv(start, begin, events);
    OpenRowStopsCommits(start, Run(start, events), EndOf(begin, events), i, id, hash, auth, now);
  }

  lemma OpenRowStopsCommits(start: Round, r: Round, last: int, i: nat, id: Id, hash: Hash, auth: Auth, now: int)
    requires Started(start) && RoundInv(start, r, last) && last <= now
    requires i < |r.rows| && r.rows[i].revealedAt.Some?
    ensures Commit(r, id, hash, auth, now) == (r, Refused(CommitClosed))
  {
    assert OpenedAfterCommits(r, r.rows[i]);
  }

  /** One call never moves the phase back, whatever the clock does in the meantime. */
  lemma StepMovesForward(start: Round, r: Round, now: int, e: Event, later: int)
    requires RoundInv(start, r, now) && now <= e.now <= later && InTime(r, e)
    ensures Rank(PhaseOf(r, now)) <= Rank(PhaseOf(Step(r, e).0, later))
    ensures |r.rows| <= |Step(r, e).0.rows|
  {
    match e
    case DoCommit(id, hash, auth, at) =>
    case DoReveal(o, at) => RevealMovesForward(start, r, now, o, at, later);
    case DoFinalize(at) => SettlingIsForward(r, r, at, now, later);
    case DoStart(at) =>
  }

  lemma RevealMovesForward(start: Round, r: Round, now: int, o: Opening, at: int, later: int)
    requires RoundInv(start, r, now) && now <= at <= later
    ensures Rank(PhaseOf(r, now)) <= Rank(PhaseOf(Reveal(r, o, at).0, later))
    ensures |r.rows| <= |Reveal(r, o, at).0.rows|
  {
    if RevealRefusal(r, o, at).None? {
      var k := FindRow(r.rows, o.validatorId).value;
      SettlingIsForward(r.(rows := r.rows[k := Opened(r.rows[k], o, at)]), r, at, now, later);
    }
  }

  /** The coordinator's write moves the phase back exactly when the round is settled already. */
  lemma LateStartReopens(r: Round, at: int, now: int)
    ensures Rank(PhaseOf(StartWork(r, at), now)) < Rank(PhaseOf(r, now)) <==> IsFinal(r.job.status)
    ensures !IsFinal(r.job.status) ==> PhaseOf(StartWork(r, at), now) == PhaseOf(r, now)
  {
  }

  /** That can happen, whatever the ids, the salt and the clock: a committee of one can commit and reveal between
      the assignment and that write, and its settled round is open for revealing again. */
  lemma StartCanReopen(job: Id, v: Id, salt: Bytes, at: int) returns (start: Round, events: seq<Event>)
    ensures Started(start) && |events| == 3 && events[2] == DoStart(at)
    ensures forall i :: 0 <= i < |events| ==> events[i].now == at
    ensures PhaseOf(Run(start, events[..2]), at) == Finalized && PhaseOf(Run(start, events), at) == RevealPhase
  {
    var hash := ComputeCommitHash(job, v, Accept, salt);
    var sealing, opening := DoCommit(v, hash, Authentic, at), DoReveal(Opening(v, Accept, salt), at);
    start := Alone(job, v, at, []);
    events := [sealing, opening, DoStart(at)];
    SoleCommit(job, v, hash, at);
    SoleVoteSettles(job, v, salt, at);
    Reopened(start, sealing, opening, v, at);
  }

  lemma Reopened(start: Round, e1: Event, e2: Event, v: Id, at: int)
    requires var settled := Step(Step(start, e1).0, e2).0;
             settled.job.status == Completed && |settled.rows| == 1 && settled.job.committee == [v]
    ensures PhaseOf(Run(start, [e1, e2, DoStart(at)][..2]), at) == Finalized
    ensures PhaseOf(Run(start, [e1, e2, DoStart(at)]), at) == RevealPhase
  {
    RunOfThree(start, e1, e2, DoStart(at));
    StartedAgain(Step(Step(start, e1).0, e2).0, v, at);
  }

  /** A round of one validator, assigned at `at`. */
  function Alone(job: Id, v: Id, at: int, rows: seq<Row>): Round {
    Round(Job(job, CommitReveal, Assigned, [v], Some(at + 1), Some(at + 2), None), rows, None, [], [])
  }

  lemma RunOfThree(start: Round, e1: Event, e2: Event, e3: Event)
    ensures Run(start, [e1, e2, e3][..2]) == Step(Step(start, e1).0, e2).0
    ensures Run(start, [e1, e2, e3]) == Step(Run(start, [e1, e2, e3][..2]), e3).0
  {
    assert [e1, e2, e3][..2] == [e1, e2] && [e1, e2][..1] == [e1] && [e1][..0] == [];
    assert Run(start, []) == start && Run(start, [e1]) == Step(start, e1).0;
  }

  /** The coordinator's write on a settled round whose only row is opened. */
  lemma StartedAgain(settled: Round, v: Id, at: int)
    requires settled.job.status == Completed && |settled.rows| == 1 && settled.job.committee == [v]
    ensures PhaseOf(settled, at) == Finalized
    ensures PhaseOf(Step(settled, DoStart(at)).0, at) == RevealPhase
  {
  }

  lemma SoleCommit(job: Id, v: Id, hash: Hash, at: int)
    ensures Step(Alone(job, v, at, []), DoCommit(v, hash, Authentic, at)).0
         == Alone(job, v, at, [Row(v, hash, None, None, None)])
  {
    var start := Alone(job, v, at, []);
    assert v in start.job.committee && CommitRefusal(start, v, Authentic, at) == None;
    assert start.rows + [Row(v, hash, None, None, None)] == [Row(v, hash, None, None, None)];
  }

  lemma SoleVoteWins(row: Row, v: Id)
    requires row.validatorId == v && row.outcome == Some(Accept) && row.revealedAt.Some?
    ensures TallyOf(Votes([row]), 1).outcome == Some(Accept)
  {
    var vote := RevealedVote(v, Accept);
    assert [row][..0] == [] && Votes([]) == [];
    assert Votes([row]) == [] + [vote] == [vote];
    SoleVoteCounts(vote);
    OutcomeIsStrictMajority([vote], 1, Accept);
  }

  lemma SoleVoteCounts(vote: RevealedVote)
    ensures CountFor([vote], vote.outcome) == 1
  {
    assert [vote][..0] == [] && CountFor([], vote.outcome) == 0;
  }

  lemma SoleVoteSettles(job: Id, v: Id, salt: Bytes, at: int)
    ensures var sealed := Alone(job, v, at, [Row(v, ComputeCommitHash(job, v, Accept, salt), None, None, None)]);
            var r := Step(sealed, DoReveal(Opening(v, Accept, salt), at)).0;
            r.job.status == Completed && |r.rows| == 1 && r.job.committee == [v]
  {
    var hash := ComputeCommitHash(job, v, Accept, salt);
    var sealed, o := Alone(job, v, at, [Row(v, hash, None, None, None)]), Opening(v, Accept, salt);
    var row := Opened(sealed.rows[0], o, at);
    SoleVoteWins(row, v);
    assert FindRow(sealed.rows, v) == Some(0) && sealed.rows[0 := row] == [row];
    assert RevealRefusal(sealed, o, at) == None;
    SettlesCompleted(sealed.(rows := [row]), at);
  }

  lemma SettlesCompleted(r: Round, at: int)
    requires RoundTally(r).outcome.Some? && r.verdict == None
    ensures Settle(r, at).0.rows == r.rows && Settle(r, at).0.job == WithStatus(r.job, Completed, at)
  {
  }

  lemma SettlingIsForward(saved: Round, r: Round, at: int, now: int, later: int)
    requires saved.job == r.job && |saved.rows| == |r.rows| && now <= later
    ensures Rank(PhaseOf(r, now)) <= Rank(PhaseOf(saved, later)) <= Rank(PhaseOf(Settle(saved, at).0, later))
    ensures |Settle(saved, at).0.rows| == |r.rows|
  {
  }

  /** The phase only moves commit -> reveal -> finalized over a run. */
  lemma {:induction false} PhaseMovesForward(start: Round, begin: int, events: seq<Event>, k: nat, now: int, later: int)
    requires TimedRun(start, begin, events) && k <= |events|
    requires EndOf(begin, events[..k]) <= now && (k < |events| ==> now <= events[k].now)
    requires EndOf(begin, events) <= later && now <= later
    ensures Rank(PhaseOf(Run(start, events[..k]), now)) <= Rank(PhaseOf(Run(start, events), later))
    decreases |events|
  {
    if k == |events| {
      assert events[..k] == events;
    } else {
      var n := |events| - 1;
      var before, at := events[..n], events[n].now;
      assert before[..k] == events[..k];
      if k < n {
        TimedPrefix(start, begin, before, k + 1);
        assert before[k] == events[k] && before[..k + 1][k] == events[k];
      }
      var mid := if EndOf(begin, before) <= now then now else EndOf(begin, before);
      PhaseMovesForward(start, begin, before, k, now, mid);
      NextMovesForward(start, begin, before, Run(start, before), mid, events[n], later);
    }
  }

  lemma NextMovesForward(start: Round, begin: int, before: seq<Event>, r: Round, mid: int, e: Event, later: int)
    requires TimedRun(start, begin, before) && r == Run(start, before) && EndOf(begin, before) <= mid
    requires mid <= e.now <= later && InTime(r, e)
    ensures Rank(PhaseOf(r, mid)) <= Rank(PhaseOf(Step(r, e).0, later))
  {
    ReachableInv(start, begin, before);
    LaterInv(start, r, EndOf(begin, before), mid);
    StepMovesForward(start, r, mid, e, later);
  }

  /** What a call may do to the rows: seal new ones at the end, open sealed ones; an opened row is final. */
  ghost predicate RowsExtend(before: seq<Row>, after: seq<Row>) {
    && |before| <= |after|
    && forall i :: 0 <= i < |before| ==>
         && after[i].validatorId == before[i].validatorId && after[i].commitHash == before[i].commitHash
         && (before[i].revealedAt.Some? ==> after[i] == before[i])
  }

  lemma StepExtendsRows(r: Round, e: Event)
    ensures RowsExtend(r.rows, Step(r, e).0.rows)
    ensures IsFinal(r.job.status) && InTime(r, e) ==> Step(r, e).0 == r
  {
    match e
    case DoCommit(_, _, _, _) =>
    case DoReveal(o, at) => RevealExtendsRows(r, o, at);
    case DoFinalize(_) =>
    case DoStart(_) =>
  }

  lemma RevealExtendsRows(r: Round, o: Opening, now: int)
    ensures RowsExtend(r.rows, Reveal(r, o, now).0.rows)
    ensures IsFinal(r.job.status) ==> Reveal(r, o, now).0 == r
  {
    if RevealRefusal(r, o, now).None? {
      var k := FindRow(r.rows, o.validatorId).value;
      OpeningExtends(r.rows, k, o, now);
    }
  }

  lemma OpeningExtends(rows: seq<Row>, k: nat, o: Opening, now: int)
    requires k < |rows| && rows[k].revealedAt.None?
    ensures RowsExtend(rows, rows[k := Opened(rows[k], o, now)])
  {
  }

  /** Over a run every commitment stays, is opened at most once, and an open vote never changes;
      a settled round never changes at all. */
  lemma {:induction false} OpenedOnceAndForAll(start: Round, begin: int, events: seq<Event>, k: nat)
    requires TimedRun(start, begin, events) && k <= |events|
    ensures RowsExtend(Run(start, events[..k]).rows, Run(start, events).rows)
    ensures IsFinal(Run(start, events[..k]).job.status) ==> Run(start, events) == Run(start, events[..k])
    decreases |events|
  {
    if k == |events| {
      assert events[..k] == events;
    } else {
      var n := |events| - 1;
      var before := events[..n];
      assert before[..k] == events[..k];
      OpenedOnceAndForAll(start, begin, before, k);
      StepExtendsRows(Run(start, before), events[n]);
      GoesOn(Run(start, events[..k]), Run(start, before), Run(start, events));
    }
  }

  lemma GoesOn(a: Round, b: Round, c: Round)
    requires RowsExtend(a.rows, b.rows) && RowsExtend(b.rows, c.rows)
    requires (IsFinal(a.job.status) ==> b == a) && (IsFinal(b.job.status) ==> c == b)
    ensures RowsExtend(a.rows, c.rows) && (IsFinal(a.job.status) ==> c == a)
  {
  }

  function RevealedIds(rows: seq<Row>): seq<Id> {
    if rows == [] then []
    else
      var last := rows[|rows| - 1];
      RevealedIds(rows[..|rows| - 1]) + if last.revealedAt.Some? then [last.validatorId] else []
  }

  /** Supporters and dissenters are the revealed rows, each once. */
  lemma {:induction false} SupportersAndDissenters(rows: seq<Row>, jobId: Id, o: VerdictOutcome)
    requires forall i :: 0 <= i < |rows| ==> RowOk(rows[i], jobId)
    ensures multiset(VotersFor(Votes(rows), o)) + multiset(Dissenters(rows, o)) == multiset(RevealedIds(rows))
  {
    if rows != [] {
      var init, last := rows[..|rows| - 1], rows[|rows| - 1];
      SupportersAndDissenters(init, jobId, o);
      assert RowOk(last, jobId) && rows == init + [last];
      OneMoreRow(init, last, o);
    }
  }

  lemma OneMoreRow(init: seq<Row>, last: Row, o: VerdictOutcome)
    requires last.revealedAt.Some? ==> last.outcome.Some?
    requires multiset(VotersFor(Votes(init), o)) + multiset(Dissenters(init, o)) == multiset(RevealedIds(init))
    ensures multiset(VotersFor(Votes(init + [last]), o)) + multiset(Dissenters(init + [last], o))
         == multiset(RevealedIds(init + [last]))
  {
    DissentersStep(init, last, o);
    if last.revealedAt.Some? {
      OneMoreVote(init, last, o);
      OneMoreId(VotersFor(Votes(init), o), Dissenters(init, o), RevealedIds(init), last.validatorId);
    } else {
      SealedIsNoVote(init, last);
    }
  }

  lemma OneMoreId(a: seq<Id>, b: seq<Id>, all: seq<Id>, id: Id)
    requires multiset(a) + multiset(b) == multiset(all)
    ensures multiset(a + [id]) + multiset(b) == multiset(all + [id])
    ensures multiset(a) + multiset(b + [id]) == multiset(all + [id])
    ensures a + [] == a && b + [] == b
  {
  }

  lemma DissentersStep(init: seq<Row>, last: Row, o: VerdictOutcome)
    ensures Dissenters(init + [last], o)
         == Dissenters(init, o) + if last.revealedAt.Some? && last.outcome != Some(o) then [last.validatorId] else []
    ensures RevealedIds(init + [last])
         == RevealedIds(init) + if last.revealedAt.Some? then [last.validatorId] else []
  {
    assert (init + [last])[..|init|] == init;
  }

  lemma OneMoreVote(init: seq<Row>, last: Row, o: VerdictOutcome)
    requires last.revealedAt.Some? && last.outcome.Some?
    ensures VotersFor(Votes(init + [last]), o)
         == VotersFor(Votes(init), o) + if last.outcome == Some(o) then [last.validatorId] else []
  {
    var vote := RevealedVote(last.validatorId, last.outcome.value);
    assert (init + [last])[..|init|] == init;
    assert Votes(init + [last]) == Votes(init) + [vote];
    assert (Votes(init) + [vote])[..|Votes(init)|] == Votes(init);
  }

  /** A published outcome is backed by a strict majority of the whole committee, no other outcome can
      ever be, and the reputation records split the revealed rows into its supporters and the rest. */
  lemma PublishedByMajority(start: Round, begin: int, events: seq<Event>)
    requires TimedRun(start, begin, events) && Run(start, events).job.status == Completed
    ensures var r := Run(start, events);
            && r.verdict.Some? && r.verdict.value.jobId == r.job.id
            && 2 * CountFor(Votes(r.rows), r.verdict.value.outcome) > |r.job.committee|
            && (forall o :: o != r.verdict.value.outcome ==> 2 * CountFor(Votes(r.rows), o) < |r.job.committee|)
            && r.verdict.value.signatures == VotersFor(Votes(r.rows), r.verdict.value.outcome) == r.accurate
            && multiset(r.accurate + r.inaccurate) == multiset(RevealedIds(r.rows))
  {
    ReachableInv(start, begin, events);
    var r := Run(start, events);
    RowsFit(start, r, EndOf(begin, events));
    var o := r.verdict.value.outcome;
    OutcomeIsStrictMajority(Votes(r.rows), |r.job.committee|, o);
    forall x | x != o ensures 2 * CountFor(Votes(r.rows), x) < |r.job.committee| {
      CountsAddUp(Votes(r.rows));
    }
    SupportersAndDissenters(r.rows, r.job.id, o);
  }

  lemma RowsFit(start: Round, r: Round, now: int)
    requires RoundInv(start, r, now)
    ensures |Votes(r.rows)| <= |r.rows| <= |r.job.committee|
  {
    var ids := seq(|r.rows|, i requires 0 <= i < |r.rows| => r.rows[i].validatorId);
    DistinctWithin(ids, r.job.committee);
  }

  /** After the reveal deadline, once commits are closed, `finalize` ends the round unless another verdict
      holds the session. */
  lemma FinalizeEndsTheRound(start: Round, begin: int, events: seq<Event>, now: int)
    requires TimedRun(start, begin, events) && EndOf(begin, events) <= now
    requires Past(start.job.revealDeadline, now) && PhaseOf(Run(start, events), now) != CommitPhase
    ensures var (r, reply) := Finalize(Run(start, events), now);
            && (IsFinal(r.job.status) <==> reply == Done)
            && (reply == Done <==>
                  || IsFinal(Run(start, events).job.status)
                  || start.verdict.None?
                  || RoundTally(Run(start, events)).outcome.None?)
  {
    ReachableInv(start, begin, events);
    FinalizeEnds(start, Run(start, events), EndOf(begin, events), now);
  }

  lemma FinalizeEnds(start: Round, r: Round, last: int, now: int)
    requires Started(start) && RoundInv(start, r, last) && last <= now
    requires Past(start.job.revealDeadline, now) && PhaseOf(r, now) != CommitPhase
    ensures var (after, reply) := Finalize(r, now);
            && (IsFinal(after.job.status) <==> reply == Done)
            && (reply == Done <==> IsFinal(r.job.status) || start.verdict.None? || RoundTally(r).outcome.None?)
  {
  }

  /** With a reveal phase that is not negative, commits are closed by then. */
  lemma RevealDeadlineClosesCommits(start: Round, begin: int, events: seq<Event>, now: int)
    requires TimedRun(start, begin, events) && Past(start.job.revealDeadline, now)
    requires start.job.commitDeadline.value <= start.job.revealDeadline.value
    ensures PhaseOf(Run(start, events), now) != CommitPhase
  {
    ReachableInv(start, begin, events);
    PastBoth(start, Run(start, events), EndOf(begin, events), now);
  }

  lemma PastBoth(start: Round, r: Round, last: int, now: int)
    requires Started(start) && RoundInv(start, r, last) && Past(start.job.revealDeadline, now)
    requires start.job.commitDeadline.value <= start.job.revealDeadline.value
    ensures PhaseOf(r, now) != CommitPhase
  {
  }

  lemma RowStaysFound(start: Round, r: Round, r': Round, now: int, id: Id)
    requires RoundInv(start, r', now) && RowsExtend(r.rows, r'.rows) && FindRow(r.rows, id).Some?
    ensures FindRow(r'.rows, id) == FindRow(r.rows, id)
  {
    var k := FindRow(r.rows, id).value;
    assert r'.rows[k].validatorId == id;
    var found := FindRow(r'.rows, id);
    assert found.Some? && r'.rows[found.value].validatorId == r'.rows[k].validatorId;
  }

  /** A commitment is opened by one vote only, whenever in the run it is tried. */
  lemma CommitmentHasOneOpening(start: Round, begin: int, events: seq<Event>, k: nat, o: Opening, o': Opening,
                                now: int, now': int)
    requires TimedRun(start, begin, events) && k <= |events|
    requires |start.job.id| == 36 && |o.validatorId| == 36 && |o.salt| == 32 && |o'.salt| == 32
    requires o.validatorId == o'.validatorId
    requires RevealRefusal(Run(start, events[..k]), o, now).None? && RevealRefusal(Run(start, events), o', now').None?
    ensures o == o'
  {
    var r, r' := Run(start, events[..k]), Run(start, events);
    TimedPrefix(start, begin, events, k);
    ReachableInv(start, begin, events[..k]);
    ReachableInv(start, begin, events);
    OpenedOnceAndForAll(start, begin, events, k);
    RowStaysFound(start, r, r', EndOf(begin, events), o.validatorId);
    OneHashOneOpening(r, r', o, o', now, now');
  }

  lemma OneHashOneOpening(r: Round, r': Round, o: Opening, o': Opening, now: int, now': int)
    requires r.job.id == r'.job.id && |r.job.id| == 36 && |o.validatorId| == 36 && |o.salt| == 32 && |o'.salt| == 32
    requires o.validatorId == o'.validatorId && RowsExtend(r.rows, r'.rows)
    requires FindRow(r'.rows, o.validatorId) == FindRow(r.rows, o.validatorId)
    requires RevealRefusal(r, o, now).None? && RevealRefusal(r', o', now').None?
    ensures o == o'
  {
    CommitHashIsBinding(r.job.id, o.validatorId, o.outcome, o.salt, r.job.id, o'.validatorId, o'.outcome, o'.salt);
  }

  /** A hash made for another job or by another validator can never be opened here. */
  lemma CopiedCommitmentStaysSealed(r: Round, o: Opening, now: int, job: Id, validator: Id, outcome: VerdictOutcome,
                                    salt: Bytes)
    requires WellFormed(r.job.id, o.validatorId, o.salt) && WellFormed(job, validator, salt)
    requires FindRow(r.rows, o.validatorId).Some?
    requires r.rows[FindRow(r.rows, o.validatorId).value].commitHash == ComputeCommitHash(job, validator, outcome, salt)
    requires job != r.job.id || validator != o.validatorId
    ensures RevealRefusal(r, o, now).Some?
  {
    if RevealRefusal(r, o, now).None? {
      CommitHashIsBinding(r.job.id, o.validatorId, o.outcome, o.salt, job, validator, outcome, salt);
    }
  }
}
