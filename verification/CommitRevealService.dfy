/**
 The commit-reveal service, statement by statement, proved to do what CommitRevealRounds says.
 */
module CommitRevealService {
  import opened Basics
  import opened Commitment
  import opened CommitRevealRounds

  class RoundService {
    var job: Job
    var commitments: seq<Row>
    var verdict: Option<Verdict>
    var accurate: seq<Id>
    var inaccurate: seq<Id>

    ghost function View(): Round
      reads this
    {
      Round(job, commitments, verdict, accurate, inaccurate)
    }

    /** The committee is drawn and the deadlines are set. */
    constructor (pending: Job, validators: seq<Id>, now: int, commitMs: int, revealMs: int, earlier: Option<Verdict>)
      ensures View() == Round(AssignValidators(pending, validators, now, commitMs, revealMs), [], earlier, [], [])
    {
      var assignedJob := pending.(committee := validators);
      assignedJob := assignedJob.(status := Assigned);
      if pending.mode == CommitReveal {
        assignedJob := assignedJob.(commitDeadline := Some(now + commitMs));
        assignedJob := assignedJob.(revealDeadline := Some(now + commitMs + revealMs));
      }
      job, commitments, verdict, accurate, inaccurate := assignedJob, [], earlier, [], [];
    }

    method UpdateStatus(status: JobStatus, now: int)
      modifies this
      ensures View() == old(View()).(job := WithStatus(old(job), status, now))
    {
      job := job.(status := status);
      if status == Completed || status == Failed {
        job := job.(completedAt := Some(now));
      }
    }

    /** The coordinator's write after the assignment. */
    method StartWork(now: int)
      modifies this
      ensures View() == CommitRevealRounds.StartWork(old(View()), now)
    {
      UpdateStatus(InProgress, now);
    }

    method Commit(id: Id, hash: Hash, auth: Auth, now: int) returns (reply: Reply)
      modifies this
      ensures (View(), reply) == CommitRevealRounds.Commit(old(View()), id, hash, auth, now)
    {
      if job.mode != CommitReveal {
        return Refused(NotCommitReveal);
      }
      var phase := PhaseOf(Round(job, commitments, verdict, accurate, inaccurate), now);
      if phase != CommitPhase {
        return Refused(CommitClosed);
      }
      if id !in job.committee {
        return Refused(NotOnCommittee);
      }
      var existing := FindRow(commitments, id);
      if existing.Some? {
        return Refused(AlreadyCommitted);
      }
      match auth {
        case UnknownValidator => return Refused(ValidatorNotFound);
        case MalformedSignature => return Refused(BadSignature);
        case OtherSigner => return Refused(WrongSigner);
        case Authentic =>
      }
      commitments := commitments + [Row(id, hash, None, None, None)];
      reply := Done;
    }

    method Reveal(opening: Opening, now: int) returns (reply: Reply)
      modifies this
      ensures (View(), reply) == CommitRevealRounds.Reveal(old(View()), opening, now)
    {
      if job.mode != CommitReveal {
        return Refused(NotCommitReveal);
      }
      var phase := PhaseOf(Round(job, commitments, verdict, accurate, inaccurate), now);
      if phase == Finalized {
        return Refused(AlreadyFinalized);
      }
      if phase == CommitPhase {
        return Refused(CommitStillOpen);
      }
      if job.revealDeadline.Some? && now > job.revealDeadline.value {
        return Refused(RevealClosed);
      }
      var found := FindRow(commitments, opening.validatorId);
      if found.None? {
        return Refused(NoCommitment);
      }
      var commitment := commitments[found.value];
      if commitment.revealedAt.Some? {
        return Refused(AlreadyRevealed);
      }
      var expected := ComputeCommitHash(job.id, opening.validatorId, opening.outcome, opening.salt);
      if expected != commitment.commitHash {
        return Refused(RevealMismatch);
      }
      commitment := commitment.(outcome := Some(opening.outcome));
      commitment := commitment.(salt := Some(opening.salt));
      commitment := commitment.(revealedAt := Some(now));
      commitments := commitments[found.value := commitment];
      reply := Done;
      var everyRevealed := EveryRevealed();
      if everyRevealed {
        reply := Settle(now);
      }
    }

    method EveryRevealed() returns (all: bool)
      ensures all == AllRevealed(commitments)
    {
      for i := 0 to |commitments|
        invariant AllRevealed(commitments[..i])
      {
        if commitments[i].revealedAt.None? {
          return false;
        }
        assert commitments[..i + 1][..i] == commitments[..i];
      }
      assert commitments[..|commitments|] == commitments;
      all := true;
    }

    method Finalize(now: int) returns (reply: Reply)
      modifies this
      ensures (View(), reply) == CommitRevealRounds.Finalize(old(View()), now)
    {
      if job.mode != CommitReveal {
        return Refused(NotCommitReveal);
      }
      var phase := PhaseOf(Round(job, commitments, verdict, accurate, inaccurate), now);
      if phase == CommitPhase {
        return Refused(CommitStillOpen);
      }
      reply := Done;
      if phase == RevealPhase {
        var allRevealed := EveryRevealed();
        var deadlinePassed := job.revealDeadline.Some? && now > job.revealDeadline.value;
        if !allRevealed && !deadlinePassed {
          return Refused(RevealStillOpen);
        }
        reply := Settle(now);
      }
    }

    /** Opened rows as votes. */
    method CollectVotes() returns (votes: seq<RevealedVote>)
      ensures votes == Votes(commitments)
    {
      votes := [];
      for i := 0 to |commitments|
        invariant votes == Votes(commitments[..i])
      {
        assert commitments[..i + 1][..i] == commitments[..i];
        var c := commitments[i];
        if c.revealedAt.Some? && c.outcome.Some? {
          votes := votes + [RevealedVote(c.validatorId, c.outcome.value)];
        }
      }
      assert commitments[..|commitments|] == commitments;
    }

    method Settle(now: int) returns (reply: Reply)
      modifies this
      ensures (View(), reply) == CommitRevealRounds.Settle(old(View()), now)
    {
      var votes := CollectVotes();
      var tally := TallyReveals(votes, |job.committee|);
      if tally.outcome.None? {
        UpdateStatus(Failed, now);
        return Done;
      }
      if verdict.Some? {
        return Refused(VerdictExists);
      }
      verdict := Some(Verdict(job.id, tally.outcome.value, tally.supporters));
      UpdateStatus(Completed, now);

      var dissenters := [];
      for i := 0 to |commitments|
        invariant View() == old(View()).(verdict := verdict, job := job)
        invariant job == WithStatus(old(job), Completed, now)
        invariant verdict == Some(Verdict(job.id, tally.outcome.value, tally.supporters))
        invariant dissenters == Dissenters(commitments[..i], tally.outcome.value)
      {
        assert commitments[..i + 1][..i] == commitments[..i];
        if commitments[i].revealedAt.Some? && commitments[i].outcome != tally.outcome {
          dissenters := dissenters + [commitments[i].validatorId];
        }
      }
      assert commitments[..|commitments|] == commitments;
      accurate := accurate + tally.supporters;
      inaccurate := inaccurate + dissenters;
      reply := Done;
    }
  }
}
