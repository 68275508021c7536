# Verified model of the verdict coordination service

This project models the protocols and ledgers of a verification-job service: committees of staked
validators vote on jobs by commit and reveal, disputes and appeals can overturn the verdict, a verdict
that falls gets its signers slashed, and transactions reach the chain through one wallet. It proves
what those protocols promise over all inputs, all runs and all interleavings.

`dafny verify dfyconfig.toml` checks everything (Dafny 4.11).

## How the modules fit together

A component the source writes as an object whose methods update rows is a class here, and its methods
are proved to do what a specification function of the same name says; the lemmas are about those
functions. Each pair of modules below is such a pair (specification and results / class). What the
specification functions themselves have to be is stated without naming them: each call is carried out under
conditions on the rows alone, each row traces back to the call that made it, and amounts, draws and symbols are
characterised by what they are.

| modules | source |
|---|---|
| `DisputeTables`, `DisputeInvariants` / `DisputeServices` | disputes, appeals, slashing proposals, validator stakes |
| `DisputeFrames`, `DisputeLifecycles`, `DisputeLedger`, `AppealPanels`, `EarlyClosing` | results about them: what a call may touch, stations of a dispute, stake accounting, panels, early closing |
| `SlashingShares`, `BallotOrigins`, `DisputeOutcomes`, `ValidatorRecords` | who is proposed and for how much, who cast a ballot, what appeals decide, what rows remember |
| `AppealQuorum` | panel size, quorum, early decision |
| `SlashingDecisions` | operators deciding proposals at the same time |
| `Commitment`, `CommitRevealRounds`, `RoundOrigins` / `CommitRevealService` | the commit-reveal round |
| `StakingTiers`, `WeightedDraw`, `Ordering` | tiers, weighted committee selection, and the sort both orderings use |
| `Priority`, `QueueCut` | queue order, the database cut, starvation |
| `JobClaims`, `JobReports` / `JobQueueServices` | drains of several instances sharing the job table |
| `NonceProtocol`, `NonceSequence` / `NonceManager` | serialised submission from one wallet |
| `Finality` | waiting for confirmations |
| `ContractLedger`, `SlashAccounts` / `ValidatorRegistry` | the stake contract under re-entrant calls |
| `PolicyVersions` / `PolicyRegistry` | the version probe of the policy contract |
| `Base64`, `DisputeEvidence`, `AttachmentRules` / `EvidenceServices` | strict base64 (sections 4 and 3.5 of RFC 4648) and evidence |
| `Decay`, `Reputation` / `ReputationServices` | decaying averages, as formulas and as stored and rounded |

Conventions: a table is a map by key or a sequence whose rows are named by their place; one service
call is one step, except in `NonceProtocol`, `JobClaims` and `SlashingDecisions`, where a step is one
continuation between two awaits; the clock is an argument that does not decrease along a run; amounts
are unbounded integers; numbers the source keeps as doubles are exact reals. A digest is the preimage
it was computed from (`Commitment`, `PolicyVersions`) or an arbitrary function (`DisputeEvidence`);
signatures are the address they recover to, if any. The store fails by rejecting a read or write that has no
effect: a call that writes more than once can be cut off after any of its writes (`DoInterrupted`), and an
approval, with its catch block, at any of its own (`Fault`).

## Where the code and its comments disagree

The model follows the code, and the exact truth is proved.

- `src/modules/disputes/appeal-quorum.ts:15-19` says the panel is odd. It is odd exactly when the
  committee or the factor is even (`PanelIsOddExactly`); three signers with factor three get ten
  (`PanelCanBeEven`). What holds always is that the panel is more than twice the committee.
- `src/modules/slashing/slashing.service.ts:141` says the stake was not reduced when an approval fails, so
  the proposal is put back. The stake was reduced exactly when the last write is the one that failed, and the
  row stays `approved` exactly when the read of line 198, which is outside the try block, or the restore
  fails (`RowTellsTheTruthExactly`, `ApprovalCanTakeNothing`). `FailedApprovalIsNoOp` says when a failed
  approval leaves no trace, and `LedgerBalances` by how much the accounts drift.
- `src/modules/slashing/slashing.service.ts:176-179` says two operators cannot both slash the validator. An
  approval that failed after its stake write and was put back can be approved again, and the stake is cut
  again (`ProposalCanBeCutTwice`). How often it is cut is counted in `CutsExactly`; a proposal whose approval
  is complete was cut once exactly when no approval of it was lost that way (`CutOnceExactly`).
- A store that fails between two writes of one call can leave an open appeal on a resolved dispute, a decided
  one on an appealed dispute, or pending proposals for a reinstated verdict. Which interruptions do, and that
  no other does, is `InterruptionKeepsExactly`.
- `src/modules/coordinator/coordinator.service.ts:34-47` writes `IN_PROGRESS` after the assignment without
  looking at the status. If the committee settled the round before that write, the round is reopened
  (`StartCanReopen`); the phase moves back if and only if it was settled (`LateStartReopens`). Runs in
  `CommitRevealRounds` are those where the write comes in time.
- `src/modules/jobs/jobs.service.ts:71-75` says the database orders by the same formula as
  `priority.ts`. Flooring the fee makes them differ by less than a thousandth of a point; they are equal
  exactly for fees in whole thousandths (`SqlScoreIsClose`, `CutIsWithinAThousandth`). The difference can change
  the cut (`CutCanDisagree`); every answer is right exactly when the query ranks each job before the cut ahead of
  each one after it (`CutIsRightExactly`).
- The packed commit preimage is uniquely decodable only because both ids have a fixed length
  (`CommitHashIsBinding`); without it two votes can share a hash (`UnequalIdLengthsCollide`).

## Model

| member | source | states |
|---|---|---|
| `AppealQuorum.AppealPanelSize` | src/modules/disputes/appeal-quorum.ts:20-24 | For every committee and multiplier, NaN and zero included, the panel has more than twice the committee and at least three members. |
| `AppealQuorum.PanelSizeExactly` | src/modules/disputes/appeal-quorum.ts:20-24 | A whole multiplier from two up counts as it is, everything else as two; the panel is one more than that many times the committee. |
| `AppealQuorum.PanelIsOddExactly` | src/modules/disputes/appeal-quorum.ts:15-24 | The documented oddness holds if and only if the committee or the factor is even. |
| `AppealQuorum.PanelCanBeEven` | src/modules/disputes/appeal-quorum.ts:15-24 | Concrete even panel: committee 3, multiplier 3, ten members. |
| `AppealQuorum.TallyDecidesExactly` | src/modules/disputes/appeal-quorum.ts:47-57 | The tally reports a decision exactly when every way the remaining members could vote leads to that decision at the deadline. |
| `AppealQuorum.OpenTallyExactly` | src/modules/disputes/appeal-quorum.ts:40-56 | The tally reports none exactly when both results can still be reached by votes within the panel. |
| `AppealQuorum.EarlyDecisionStands` | src/modules/disputes/appeal-quorum.ts:47-62 | A decision once reported equals the deadline count after any further votes. |
| `AppealQuorum.DeadlineIgnoresOrder` | src/modules/disputes/appeal-quorum.ts:60-62 | The deadline count depends on the collection of votes, not on their order. |
| `DisputeServices.DisputeStore.Register` | src/modules/validators/validators.service.ts:40-50 | Appends the row with the tier of its stake; duplicate key refused; nothing else changes. |
| `DisputeServices.DisputeStore.UpdateStake` | src/modules/validators/validators.service.ts:80-85 | Sets stake and matching tier of one row, or reports that it is missing. |
| `DisputeServices.DisputeStore.Exit` | src/modules/validators/validators.service.ts:73-77 | Deactivates one row and keeps its stake. |
| `ValidatorRecords.RequestsTakenExactly` | src/modules/validators/validators.service.ts:40-85 | A registration is taken if and only if neither id nor address is in use, an exit or stake edit if and only if the validator is registered; what is refused changes nothing. |
| `ValidatorRecords.ActiveExactly` | src/modules/validators/validators.service.ts:40-77 | In every run each row was made by a registration with its id and address, and it is active if and only if no exit of that validator came since. |
| `ValidatorRecords.LeftIsNeverDrawn` | src/modules/validators/validators.service.ts:73-110 | A validator that has exited is never drawn for a panel again. |
| `DisputeServices.DisputeStore.ProposeForOverturnedVerdict` | src/modules/slashing/slashing.service.ts:45-100 | The loop appends exactly one proposal per registered signer that has none yet for the dispute and whose floor share is not zero, one write each. |
| `SlashingShares.ShareIsFloor` | src/modules/slashing/slashing.service.ts:15-18 | The share is the whole number n with n times 10000 at most stake times bps, and n+1 too many; none from a setting below zero, all from one above 10000. |
| `SlashingShares.OverturningRaisesExactly` | src/modules/slashing/slashing.service.ts:45-100 | In the call that makes an outcome `overturned`, by resolution or by appeal, and in no other, a validator gets a proposal if and only if slashing is on, it signed the verdict, is registered, has no row for the dispute and has a positive share; the row holds that share of its present stake. |
| `SlashingShares.ReachableShares` | src/modules/slashing/slashing.service.ts:45-148 | In every reachable state a pending proposal holds exactly the share of the stake it was raised on, and none takes more. |
| `DisputeServices.DisputeStore.DecideProposal` | src/modules/slashing/slashing.service.ts:180-199 | Conditional update out of `proposed`, then the row is read again; otherwise a conflict and no change; either store call can fail. |
| `DisputeServices.DisputeStore.Approve` | src/modules/slashing/slashing.service.ts:125-148 | Decision, capped stake cut, recorded amount, and the restore; each store call, the read of line 198 and the restore included, can fail. |
| `DisputeServices.DisputeStore.Reject` | src/modules/slashing/slashing.service.ts:172-174 | A rejection is a decision with that status. |
| `DisputeOutcomes.RejectsExactly` | src/modules/slashing/slashing.service.ts:172-199 | A rejection is taken if and only if the proposal is pending, and is recorded under the name of its operator. |
| `DisputeServices.DisputeStore.RejectPendingForDispute` | src/modules/slashing/slashing.service.ts:155-170 | Rejects exactly the pending proposals of the dispute and returns how many they were. |
| `DisputeServices.DisputeStore.OpenDispute` | src/modules/disputes/disputes.service.ts:17-25 | Adds an open dispute without outcome. |
| `DisputeOutcomes.OpensExactly` | src/modules/disputes/disputes.service.ts:17-25 | A dispute can be opened exactly once; it starts open, without an outcome. |
| `DisputeOutcomes.SessionsHaveOrigin` | src/modules/disputes/disputes.service.ts:17-25 | In every run, interrupted calls included, each dispute is about the session it was opened for. |
| `DisputeOutcomes.VerdictsHaveOrigin` | src/modules/verdicts/entities/verdict.entity.ts:19-20 | In every run each verdict carries the signatures it was first published with. |
| `DisputeServices.DisputeStore.Resolve` | src/modules/disputes/disputes.service.ts:33-58 | Refuses resolved and appealed disputes; otherwise records the outcome and raises proposals when it overturns. |
| `DisputeOutcomes.ResolvesExactly` | src/modules/disputes/disputes.service.ts:33-58 | A dispute is resolved if and only if it is open or escalated, with the outcome and at the time given. |
| `AppealPanels.DrawSeatsReviewers` | src/modules/disputes/dispute-appeals.service.ts:80-91 | The draw gives distinct active staked validators that did not sign, no more than the panel has seats, and leaves a seat empty only when every such validator has one. |
| `AppealPanels.SeatedExactly` | src/modules/disputes/dispute-appeals.service.ts:80-91 | Who may review sits on the panel if and only if fewer such validators than there are seats are faster in the draw seeded with the dispute. |
| `AppealPanels.PanelIsLargeExactly` | src/modules/disputes/dispute-appeals.service.ts:92-97 | The panel outnumbers the committee if and only if more validators than the committee has members may review. |
| `AppealPanels.AppealableExactly` | src/modules/disputes/dispute-appeals.service.ts:65-78 | Nothing is refused if and only if the dispute is resolved with an outcome, was never appealed, and the window is open. |
| `AppealPanels.AppealOpensExactly` | src/modules/disputes/dispute-appeals.service.ts:64-122 | An appeal opens if and only if the dispute is appealable and enough validators may review. |
| `DisputeServices.DisputeStore.OpenAppeal` | src/modules/disputes/dispute-appeals.service.ts:64-122 | Opens the one appeal of a dispute with its panel, quorum and deadline and marks the dispute, or refuses and changes nothing. |
| `DisputeServices.DisputeStore.DecideAppeal` | src/modules/disputes/dispute-appeals.service.ts:180-216 | Records the decision, flips the outcome on reversal, and raises or withdraws proposals accordingly. |
| `DisputeServices.DisputeStore.Vote` | src/modules/disputes/dispute-appeals.service.ts:124-158 | The refusals in order; an accepted ballot is appended and the appeal decided as soon as the tally is. |
| `BallotOrigins.VoteCountsExactly` | src/modules/disputes/dispute-appeals.service.ts:124-158 | A vote is counted if and only if the appeal is open, the deadline has not passed, the voter sits on the panel and has not voted, and the signature recovers to the address registered for it; then exactly its ballot is added. |
| `BallotOrigins.BallotsOnlyFromVotes` | src/modules/disputes/dispute-appeals.service.ts:124-158 | Any call, interrupted anywhere, adds at most such a ballot; every other ballot, the panel and the deadline stay. |
| `BallotOrigins.BallotsHaveOrigin` | src/modules/disputes/dispute-appeals.service.ts:124-158 | In every run, torn calls included, each ballot was cast by a call of the run signed with the address of the validator it counts for, a panel member, before the deadline. |
| `BallotOrigins.VotingPeriodExactly` | src/modules/disputes/dispute-appeals.service.ts:99-158 | From its opening an appeal counts the signed votes of its panel for exactly the voting period. |
| `DisputeServices.DisputeStore.Close` | src/modules/disputes/dispute-appeals.service.ts:164-174 | Idempotent once decided; refuses while open; else decides by the tally or the deadline count. |
| `DisputeOutcomes.ClosesExactly` | src/modules/disputes/dispute-appeals.service.ts:164-174 | An appeal can be closed if and only if it is decided or its deadline has passed. |
| `DisputeOutcomes.AppealDecidesExactly` | src/modules/disputes/dispute-appeals.service.ts:180-199 | A decided appeal was reversed if and only if two thirds of its whole panel voted to overturn, and the dispute has another outcome than the one appealed against if and only if it was reversed. |
| `DisputeOutcomes.ReachableAppealDecidesExactly` | src/modules/disputes/dispute-appeals.service.ts:180-199 | The same in every reachable state. |
| `DisputeInvariants.InterruptionKeepsExactly` | src/modules/disputes/dispute-appeals.service.ts:64-216 | A resolution, appeal, vote, closing or rejection that the store cuts off after any number of its writes leaves the joint invariant of the four tables if and only if the cut is not between two writes that belong together. |
| `DisputeFrames.CallFrame` | src/modules/disputes/dispute-appeals.service.ts:64-216 | However far a call gets, it touches only its own dispute, that dispute's open appeal and pending proposals: decided rows stay, and nothing becomes approved. |
| `DisputeInvariants.StepKeeps` | src/modules/disputes/dispute-appeals.service.ts:64-216 | Every call keeps the joint invariant, also interrupted anywhere but there, and an approval whatever fails in it. |
| `DisputeInvariants.ReachableInv` | src/modules/disputes/dispute-appeals.service.ts:64-216 | In every state reached without a torn call: appealed iff an appeal is open, at most one appeal per dispute, an open appeal's original outcome is the dispute's and its tally undecided, a decided one matches the deadline count, at most one proposal per dispute and validator, pending proposals only while overturned, tiers match stakes. |
| `DisputeInvariants.OpenAppealKeeps` | src/modules/disputes/dispute-appeals.service.ts:64-122 | Opening an appeal keeps the joint invariant. |
| `DisputeInvariants.VoteKeeps` | src/modules/disputes/dispute-appeals.service.ts:124-158 | A vote keeps it, also when it closes the appeal and flips the outcome. |
| `DisputeInvariants.CloseKeeps` | src/modules/disputes/dispute-appeals.service.ts:164-174 | Closing keeps it. |
| `DisputeInvariants.ResolveKeeps` | src/modules/disputes/disputes.service.ts:33-58 | Resolving keeps it, with the proposals it raises. |
| `DisputeInvariants.ApproveKeeps` | src/modules/slashing/slashing.service.ts:125-148 | An approval keeps it, whichever of its store calls fail. |
| `DisputeInvariants.ProposeKeeps` | src/modules/slashing/slashing.service.ts:45-100 | Raising proposals never makes two for one validator and dispute, and none exceeds the configured share of the stake it was raised on. |
| `DisputeInvariants.WithdrawalLeavesNonePending` | src/modules/slashing/slashing.service.ts:155-170 | After a withdrawal no proposal of the dispute is pending. |
| `DisputeInvariants.BallotAdded` | src/modules/disputes/dispute-appeals.service.ts:147-152 | An accepted vote leaves one ballot per voter, all of panel members. |
| `DisputeLedger.StepConserves` | src/modules/slashing/slashing.service.ts:125-148 | Every call, interrupted anywhere, changes a validator's stake plus its approved amounts by exactly its drift: an outside stake edit, or what a failed approval left unaccounted. |
| `DisputeLedger.ApproveConserves` | src/modules/slashing/slashing.service.ts:125-148 | Every way an approval can end changes stake plus approved amounts by exactly its drift, which is zero when it succeeds. |
| `DisputeLedger.ApproveShape` | src/modules/slashing/slashing.service.ts:125-148 | The rows an approval leaves, for each way it can end. |
| `DisputeLedger.RegistrationOpensLedger` | src/modules/validators/validators.service.ts:40-50 | A new validator starts with its stake and nothing approved. |
| `DisputeLedger.LedgerBalances` | src/modules/slashing/slashing.service.ts:125-148 | Over any run without a torn call, current stake plus approved amounts is the registered stake plus the drift of the outside edits and failures. |
| `DisputeLedger.TrackedLedgerBalances` | src/modules/slashing/slashing.service.ts:125-148 | Without outside edits and without the failures that lose track of stake, registered stake equals current stake plus approved amounts. |
| `DisputeLedger.DriftsExactly` | src/modules/slashing/slashing.service.ts:137-147 | Which failures of an approval lose track of stake, and that no other does. |
| `DisputeLedger.FailedApprovalIsNoOp` | src/modules/slashing/slashing.service.ts:125-199 | A failed approval leaves all tables as they were if and only if neither the claim stayed in the row nor stake was taken. |
| `DisputeLedger.RowTellsTheTruthExactly` | src/modules/slashing/slashing.service.ts:140-147 | After any approval the row reads `approved`, and the stake is reduced, under exactly stated conditions; the two agree unless one of three failures happened. |
| `DisputeLedger.ProposalCanBeCutTwice` | src/modules/slashing/slashing.service.ts:176-179 | Concrete state: one proposal of 10 is approved twice and takes a stake from 100 to 80. |
| `DisputeLedger.ApprovalCanTakeNothing` | src/modules/slashing/slashing.service.ts:198-199 | Concrete state: the row stays `approved` and no stake is taken. |
| `DisputeLifecycles.DecisionsAreFinal` | src/modules/slashing/slashing.service.ts:180-199 | No call, interrupted anywhere, changes a decided proposal, or a decided appeal and its dispute. |
| `DisputeLifecycles.StepMovesOn` | src/modules/disputes/dispute-appeals.service.ts:39-46 | Of the stations unknown, open, resolved, under appeal, resolved for good, a call moves a dispute on by at most one and never back, and leaves its row as it is while the station stays. |
| `DisputeLifecycles.DisputeLifecycle` | src/modules/disputes/dispute-appeals.service.ts:39-46 | The same between any two points of a run: no station is skipped or returned to, and a dispute that stays at one has the same row. |
| `AppealPanels.PanelIsIndependent` | src/modules/disputes/dispute-appeals.service.ts:80-97 | An opened appeal's panel has distinct active staked members, none of them a signer, and outnumbers the committee. |
| `EarlyClosing.CloseAfterDeadline` | src/modules/disputes/dispute-appeals.service.ts:160-174 | Closing after the deadline always decides, by the count of the ballots cast. |
| `EarlyClosing.EarlyClosingAgreesWithDeadline` | src/modules/disputes/dispute-appeals.service.ts:154-174 | For any intended votes, in any order, with any other calls in between (refused votes and premature closings too) that are not cut off on this dispute, the decision recorded equals counting all of them at the deadline, early closing or not. |
| `SlashingDecisions.StepKeeps` | src/modules/slashing/slashing.service.ts:125-199 | Every interleaved step, failures included, keeps rows, the requests that hold them and the log of stake writes in agreement. |
| `SlashingDecisions.ExactlyOneTakesEffect` | src/modules/slashing/slashing.service.ts:176-199 | Of any interleaved decisions and withdrawals on a proposal exactly one is in force once it is decided, none while it is pending, and the row names it. |
| `SlashingDecisions.CutsExactly` | src/modules/slashing/slashing.service.ts:125-199 | In every interleaving a proposal was cut once for each approval that failed after its own stake write and was put back, and once more if the decision in force has written the stake. |
| `SlashingDecisions.CutOnceExactly` | src/modules/slashing/slashing.service.ts:176-179 | A proposal whose approval is complete was cut exactly once if and only if no approval of it was lost after its stake write. |
| `SlashingDecisions.DecisionStands` | src/modules/slashing/slashing.service.ts:180-199 | A decision is never replaced unless its own approval fails. |
| `SlashingDecisions.RefusalHasCause` | src/modules/slashing/slashing.service.ts:195-197 | An operator is turned away only when somebody else's decision is in force. |
| `Commitment.CommitHashIsBinding` | src/modules/commit-reveal/commitment.ts:11-21 | For ids of 36 characters and 32-byte salts the packed preimage determines job, validator, outcome and salt. |
| `Commitment.UnequalIdLengthsCollide` | src/modules/commit-reveal/commitment.ts:17-20 | Without the length condition two different votes share a preimage. |
| `Commitment.PreimageLayout` | src/modules/commit-reveal/commitment.ts:11-21 | The hashed bytes, place by place: job, validator, outcome in lower case, salt. |
| `Commitment.CountsAreVotes` | src/modules/commit-reveal/commitment.ts:48-60 | The count of an outcome is the number of votes for it. |
| `Commitment.SupportersAreVoters` | src/modules/commit-reveal/commitment.ts:60-69 | The supporters of an outcome are exactly those who voted for it. |
| `Commitment.TallyReveals` | src/modules/commit-reveal/commitment.ts:48-69 | The counting loops compute the tally the lemmas below are about. |
| `Commitment.OutcomeIsStrictMajority` | src/modules/commit-reveal/commitment.ts:43-69 | An outcome is reported exactly when more than half of the whole committee revealed it. |
| `Commitment.MajorityStands` | src/modules/commit-reveal/commitment.ts:43-69 | Once reported it stays the outcome whatever else is revealed within the committee. |
| `Commitment.OutcomeIgnoresOrder` | src/modules/commit-reveal/commitment.ts:48-69 | The outcome does not depend on the order of the reveals. |
| `CommitRevealService.RoundService.constructor` | src/modules/jobs/jobs.service.ts:55-69 | Assignment seats the committee and starts both clocks at that moment. |
| `CommitRevealService.RoundService.UpdateStatus` | src/modules/jobs/jobs.service.ts:46-53 | Sets the job status, with the completion time of a final one, and nothing else. |
| `CommitRevealService.RoundService.StartWork` | src/modules/coordinator/coordinator.service.ts:34-47 | The coordinator's unconditional write of the in-progress status. |
| `CommitRevealService.RoundService.Commit` | src/modules/commit-reveal/commit-reveal.service.ts:68-106 | The refusals in order; an accepted commitment is appended sealed. |
| `RoundOrigins.CommitTakenExactly` | src/modules/commit-reveal/commit-reveal.service.ts:68-106 | A commitment is taken if and only if the round is not settled, places are missing, the commit deadline has not passed, the validator is on the committee, has not committed, and signed it itself. |
| `RoundOrigins.CommitmentsHaveOrigin` | src/modules/commit-reveal/commit-reveal.service.ts:68-106 | In every run from assignment each stored commitment was made by such a call for exactly this validator and hash. |
| `CommitRevealService.RoundService.Reveal` | src/modules/commit-reveal/commit-reveal.service.ts:108-146 | The refusals in order; an accepted reveal opens one row and settles the round when it was the last. |
| `RoundOrigins.RevealTakenExactly` | src/modules/commit-reveal/commit-reveal.service.ts:108-146 | A reveal is taken if and only if reveals are open and it opens the hash of a sealed row of this validator. |
| `RoundOrigins.OpeningsHaveOrigin` | src/modules/commit-reveal/commit-reveal.service.ts:108-146 | In every run each opened row was opened, as it stands, by such a call. |
| `RoundOrigins.RevealSettlesExactly` | src/modules/commit-reveal/commit-reveal.service.ts:136-146 | The reveal that opens the last row settles the round; any other leaves the rest of it alone. |
| `CommitRevealService.RoundService.Finalize` | src/modules/commit-reveal/commit-reveal.service.ts:153-168 | Settles a round whose votes are all open or whose deadline passed, else refuses. |
| `RoundOrigins.FinalizeSettlesExactly` | src/modules/commit-reveal/commit-reveal.service.ts:153-168 | An unsettled round is settled if and only if commits are closed and all rows are open or the reveal deadline has passed. |
| `CommitRevealService.RoundService.CollectVotes` | src/modules/commit-reveal/commit-reveal.service.ts:209-214 | The opened rows as votes, in order. |
| `CommitRevealService.RoundService.Settle` | src/modules/commit-reveal/commit-reveal.service.ts:216-248 | Fails the job without a majority; else publishes, completes the job and splits the reputation records. |
| `RoundOrigins.SignersAreSupporters` | src/modules/commit-reveal/commit-reveal.service.ts:216-248 | The verdict is signed by exactly those who revealed its outcome; they are recorded as accurate, those who revealed another as inaccurate. |
| `CommitRevealRounds.AssignmentStarts` | src/modules/jobs/jobs.service.ts:55-69 | Assigning a non-empty committee, with whatever configured phases, yields a round in its starting state. |
| `RoundOrigins.WindowsExactly` | src/modules/jobs/jobs.service.ts:55-69 | Whatever happens in a round, commits are open for the first period after assignment, reveals for the second, or from when everybody has committed. |
| `CommitRevealRounds.StepKeeps` | src/modules/commit-reveal/commit-reveal.service.ts:68-248 | Every call, and the coordinator's write in time, keeps the round's invariant. |
| `CommitRevealRounds.ReachableInv` | src/modules/commit-reveal/commit-reveal.service.ts:68-248 | In every reachable round: commitments of distinct committee members, opened rows carry a preimage of their hash and were opened after commits closed, a settled job agrees with its tally. |
| `CommitRevealRounds.NoCommitAfterReveal` | src/modules/commit-reveal/commit-reveal.service.ts:47-73 | Once any vote is revealed every later commit is refused and changes nothing. |
| `CommitRevealRounds.PhaseMovesForward` | src/modules/commit-reveal/commit-reveal.service.ts:198-207 | Between any two points of a run with the coordinator's write in time the recomputed phase only moves commit, reveal, finalized. |
| `CommitRevealRounds.LateStartReopens` | src/modules/coordinator/coordinator.service.ts:34-47 | The coordinator's write moves the phase back if and only if the round is settled; otherwise it leaves it. |
| `CommitRevealRounds.StartCanReopen` | src/modules/coordinator/coordinator.service.ts:34-47 | For any ids, salt and clock: a committee of one settles its round before that write, which opens it again. |
| `CommitRevealRounds.OpenedOnceAndForAll` | src/modules/commit-reveal/commit-reveal.service.ts:127-139 | Rows are never removed or replaced, an opened row never changes, a settled round never changes. |
| `CommitRevealRounds.SupportersAndDissenters` | src/modules/commit-reveal/commit-reveal.service.ts:239-243 | Supporters and dissenters are the revealed rows, each once. |
| `CommitRevealRounds.PublishedByMajority` | src/modules/commit-reveal/commit-reveal.service.ts:216-248 | A completed job's verdict has a strict majority of the whole committee and no other outcome can ever reach it. |
| `CommitRevealRounds.FinalizeEndsTheRound` | src/modules/commit-reveal/commit-reveal.service.ts:153-168 | After the reveal deadline, once commits are closed, finalizing leaves the job completed or failed exactly when it was, no earlier verdict holds the session, or there is no majority. |
| `CommitRevealRounds.RevealDeadlineClosesCommits` | src/modules/commit-reveal/commit-reveal.service.ts:198-207 | With a reveal phase that is not negative, commits are closed once the reveal deadline has passed. |
| `CommitRevealRounds.CommitmentHasOneOpening` | src/modules/commit-reveal/commit-reveal.service.ts:131-134 | Two openings of one commitment, tried at any two points of a run and any times, are the same outcome and salt. |
| `CommitRevealRounds.CopiedCommitmentStaysSealed` | src/modules/commit-reveal/commitment.ts:4-10 | A hash copied from another validator or job can never be opened. |
| `StakingTiers.TierForStake` | src/modules/validators/staking-tiers.ts:57-63 | The loop returns the last row of the table the stake reaches. |
| `StakingTiers.TierThresholds` | src/modules/validators/staking-tiers.ts:19-63 | Which tier a stake gets, in terms of multiples of the minimum. |
| `StakingTiers.TierWeight` | src/modules/validators/staking-tiers.ts:25-32 | Weights 0, 1, 2, 4, 8 by the same thresholds. |
| `StakingTiers.WeightIsMonotone` | src/modules/validators/staking-tiers.ts:57-63 | More stake never weighs less. |
| `StakingTiers.SelectionIsCanonical` | src/modules/validators/staking-tiers.ts:87-102 | The committee does not depend on the order of the candidates. |
| `StakingTiers.RankingMembers` | src/modules/validators/staking-tiers.ts:93-99 | The ranking holds exactly the weighted candidates, each once. |
| `StakingTiers.SelectionIsFair` | src/modules/validators/staking-tiers.ts:81-102 | Nobody is drawn twice, only weighted candidates are, and seats stay empty only when candidates run out. |
| `StakingTiers.SelectionTakesAll` | src/modules/validators/staking-tiers.ts:93-102 | A draw that does not fill its seats takes every weighted candidate. |
| `StakingTiers.SelectionIsPrefix` | src/modules/validators/staking-tiers.ts:100-101 | A smaller draw is a prefix of every larger one. |
| `StakingTiers.ExcludingBeforeOrAfter` | src/modules/disputes/dispute-appeals.service.ts:84-91 | Leaving signers out before the draw equals skipping them in the full ranking. |
| `StakingTiers.HeavierKeepsSeat` | src/modules/validators/staking-tiers.ts:81-102 | Raising one candidate's weight never costs it its seat. |
| `WeightedDraw.FasterRanksFirst` | src/modules/validators/staking-tiers.ts:81-102 | Of two weighted candidates the one with the smaller ratio of hashed number to weight, compared by cross products, stands first; equal ratios go by id. |
| `WeightedDraw.FasterIsDrawnToo` | src/modules/validators/staking-tiers.ts:81-102 | Whenever a candidate is drawn, so is every one with a smaller ratio, whatever the count. |
| `WeightedDraw.DrawnExactly` | src/modules/validators/staking-tiers.ts:81-102 | A candidate is drawn if and only if fewer weighted candidates have a smaller ratio than there are seats. |
| `WeightedDraw.IdBeforeExactly` | src/modules/validators/staking-tiers.ts:99-99 | Ids are ordered by their first difference, a proper prefix first. |
| `StakingTiers.MoreStakeKeepsSeat` | src/modules/validators/validators.service.ts:102-114 | Raising a validator's stake never costs it a committee seat, through tiers, filtering and draw. |
| `Priority.QueueIsSortedPermutation` | src/modules/jobs/priority.ts:63-88 | The queue is the increasing arrangement of the jobs, numbered from one. |
| `Priority.QueueIsCanonical` | src/modules/jobs/priority.ts:58-62 | Every node computes the same queue whatever order the rows come in. |
| `Priority.ScoreGap` | src/modules/jobs/priority.ts:35-42 | Who is ahead depends only on milli-unit fee difference times aging against arrival difference. |
| `Priority.QueueIgnoresClock` | src/modules/jobs/priority.ts:63-88 | Once all jobs are submitted the order is the same at every time. |
| `Priority.OvertakingWindow` | src/modules/jobs/priority.ts:4-7 | A later job is ahead exactly when it arrived within the window its extra fee buys. |
| `Priority.SqlScoreIsClose` | src/modules/jobs/jobs.service.ts:76-88 | The database score exceeds the other by less than a thousandth, and equals it if and only if the fee is a whole number of thousandths. |
| `Priority.CutIsWithinAThousandth` | src/modules/jobs/jobs.service.ts:71-91 | A job the limit cut off is never a thousandth of a point ahead of one that was taken. |
| `Priority.CutCanDisagree` | src/modules/jobs/jobs.service.ts:71-75 | Concrete queue whose head the query cuts off. |
| `QueueCut.CutIsRightExactly` | src/modules/jobs/jobs.service.ts:71-91 | Every answer the query may give lists the head of the queue if and only if the query ranks each job before the cut strictly ahead of each one after it. |
| `QueueCut.BluntCutMisses` | src/modules/jobs/jobs.service.ts:71-91 | Where it does not rank a pair across the cut that way, there is an answer that misses the head. |
| `Priority.ListIsHeadOfQueue` | src/modules/jobs/job-queue.service.ts:60-69 | With whole-thousandth fees and no ties, listing with a limit is the head of the whole queue. |
| `Priority.DrainsEatTheWindow` | src/modules/jobs/job-queue.service.ts:76-102 | Every drain that leaves a job behind takes a full batch from that job's fixed arrival window. |
| `Priority.NoStarvation` | src/modules/jobs/priority.ts:4-7 | With bounded fees a job is drained after as many drains as its window fills, however many jobs keep arriving. |
| `JobClaims.ClaimedAtMostOnce` | src/modules/jobs/jobs.service.ts:93-103 | For any number of instances and any interleaving no job is handed to `processJob` twice. |
| `JobReports.ClaimWinsExactly` | src/modules/jobs/jobs.service.ts:93-103 | A claim wins if and only if the job is pending; it assigns that job and changes nothing else. |
| `JobReports.HandOffsHaveOrigin` | src/modules/jobs/job-queue.service.ts:76-102 | Every job handed over was pending when its claim won and was assigned by it. |
| `JobClaims.NeverPendingAgain` | src/modules/jobs/jobs.service.ts:97-103 | A job that left the queue never comes back. |
| `JobClaims.ResultsListTheClaims` | src/modules/jobs/job-queue.service.ts:80-98 | When a drain ends its results name exactly the jobs it handed over, once each, in queue order, also where `processJob` threw. |
| `JobReports.ResultsHaveOrigin` | src/modules/jobs/job-queue.service.ts:84-98 | In every run each result tells what processing that job came to, and a job that threw was marked as failed. |
| `JobClaims.GuardIsReleased` | src/modules/jobs/job-queue.service.ts:77-101 | The guard is set only while a drain is under way, which can always move and moves towards its end. |
| `JobReports.BusyCallIsNoOp` | src/modules/jobs/job-queue.service.ts:76-79 | A call while a drain is under way changes nothing. |
| `JobClaims.StepKeeps` | src/modules/jobs/job-queue.service.ts:76-102 | Every step of any instance keeps the claim log sound and every instance's results in line with it. |
| `JobQueueServices.JobTable.ClaimPending` | src/modules/jobs/jobs.service.ts:97-103 | The conditional update, its answer, and the request on record. |
| `JobQueueServices.JobTable.UpdateStatus` | src/modules/jobs/jobs.service.ts:46-53 | Sets the status of an existing job; a missing one is reported and nothing changes. |
| `JobQueueServices.JobQueue.Drain` | src/modules/jobs/job-queue.service.ts:76-102 | Against arbitrary interference at every await the loop claims every job of the queue in order, hands over exactly the claims it won, marks as failed exactly those whose processing threw, reports on each in order and releases the guard on every exit. |
| `NonceProtocol.StepKeeps` | src/common/blockchain/nonce-manager.ts:45-95 | Every continuation, reset, outside send and node answer keeps the invariant. |
| `NonceProtocol.NonceSafety` | src/common/blockchain/nonce-manager.ts:16-28 | In every run successful sends use strictly increasing nonces in submission order, at most one attempt is under way, and each submission sends at most retries plus one times. |
| `NonceSequence.NoGaps` | src/common/blockchain/nonce-manager.ts:64-95 | Between two successful sends without a reset or a failed send in between the nonce goes up by exactly one, whatever else interleaves. |
| `NonceSequence.AnswerIsUsed` | src/common/blockchain/nonce-manager.ts:88-95 | Once the node has answered, its answer is the nonce of the next send. |
| `NonceSequence.RetriesExactly` | src/common/blockchain/nonce-manager.ts:4-14 | A failed send is tried again if and only if its message holds one of the four phrases, in any case, and retries are left. |
| `NonceProtocol.QueueNeverBlocks` | src/common/blockchain/nonce-manager.ts:41-57 | A submission whose predecessors settled, resolved or rejected, can always start. |
| `NonceProtocol.StepsMakeProgress` | src/common/blockchain/nonce-manager.ts:64-86 | Every step of a running attempt lowers a measure, so it settles. |
| `NonceProtocol.RunningCanMove` | src/common/blockchain/nonce-manager.ts:64-95 | A running attempt always has a next step. |
| `NonceManager.Wallet.Submit` | src/common/blockchain/nonce-manager.ts:45-57 | Chains the attempt and makes it the new tail. |
| `NonceManager.Wallet.Reset` | src/common/blockchain/nonce-manager.ts:59-62 | Forgets the local counter. |
| `NonceManager.Wallet.Reserve` | src/common/blockchain/nonce-manager.ts:88-95 | Uses the local counter or asks the node. |
| `NonceManager.Wallet.Deliver` | src/common/blockchain/nonce-manager.ts:92-94 | Stores and returns the node's answer. |
| `NonceManager.Wallet.SendResolved` | src/common/blockchain/nonce-manager.ts:71-73 | Advances the counter past the nonce used. |
| `NonceManager.Wallet.SendRejected` | src/common/blockchain/nonce-manager.ts:74-84 | Gives up or resyncs and retries; the counter is dropped either way. |
| `Finality.ReadingIsMeant` | src/common/blockchain/confirmation-policy.ts:38-79 | Whatever a reading of the answers decides, the answers justify: the last wait steady, the receipt seen again, the head deep enough, or the cause of the error. |
| `Finality.ToldIsJustified` | src/common/blockchain/confirmation-policy.ts:19-28 | An outcome told by the answers is justified by them; giving up only while they hold a block. |
| `Finality.OutcomeIsPrompt` | src/common/blockchain/confirmation-policy.ts:38-78 | No earlier answer could have ended the call: no missing or reverted receipt, and no head deep enough above the receipt just fetched. |
| `Finality.WaitForFinality` | src/common/blockchain/confirmation-policy.ts:29-79 | Terminates; the outcome is what reading its answers decides, at the answer that first decides; it gives up confirming only when the time is over. |
| `ContractLedger.ExecKeeps` | contracts/src/ValidatorRegistry.sol:32-80 | Every call, with any nested calls, keeps balance equal to stakes plus slashed plus transfers, and inactive stakes zero. |
| `ContractLedger.BalancedAtEveryBoundary` | contracts/src/ValidatorRegistry.sol:51-63 | The same holds at every boundary inside the callback of `exit`. |
| `ContractLedger.StakeIsCovered` | contracts/src/ValidatorRegistry.sol:56-60 | The balance covers every stake. |
| `SlashAccounts.SlashesExactly` | contracts/src/ValidatorRegistry.sol:65-72 | A slash succeeds if and only if the owner sends it, the validator is active and the amount is at most its stake. |
| `SlashAccounts.SlashedExactly` | contracts/src/ValidatorRegistry.sol:65-72 | With any nested calls, a validator's total slashed grows by exactly the amounts of the slashes of it that took effect. |
| `SlashAccounts.EffectiveWasCalled` | contracts/src/ValidatorRegistry.sol:65-72 | Each of these was called somewhere in the tree, by the owner. |
| `SlashAccounts.OnlyTheOwnerSlashes` | contracts/src/ValidatorRegistry.sol:65-72 | A tree without a slash of a validator sent by the owner leaves its total slashed as it was. |
| `SlashAccounts.StakeFallsBySlashesOnly` | contracts/src/ValidatorRegistry.sol:51-72 | Unless it exits itself, an active validator stays active and its stake falls by exactly what was slashed. |
| `SlashAccounts.RegistersExactly` | contracts/src/ValidatorRegistry.sol:32-49 | A registration succeeds if and only if it brings the minimum stake and the address is not active. |
| `SlashAccounts.ExitsExactly` | contracts/src/ValidatorRegistry.sol:51-63 | An exit succeeds if and only if the sender is active and accepts the payment. |
| `SlashAccounts.ActiveIsFunded` | contracts/src/ValidatorRegistry.sol:32-72 | From deployment on, what an active validator lacks of the minimum stake was slashed from it. |
| `ContractLedger.ExitAlwaysPays` | contracts/src/ValidatorRegistry.sol:51-63 | After any calls, an active validator that accepts the payment and exits has been paid its whole stake once the call and its nested calls are done, and nobody ever gets more than it deposited. |
| `ContractLedger.PaidStaysPaid` | contracts/src/ValidatorRegistry.sol:32-80 | No call, with any nested calls, takes a payment back. |
| `ContractLedger.ReentrantExitReverts` | contracts/src/ValidatorRegistry.sol:51-63 | A second exit from inside the callback is refused. |
| `ValidatorRegistry.Registry.Register` | contracts/src/ValidatorRegistry.sol:32-49 | The new storage and balance, or a revert that changes nothing. |
| `ValidatorRegistry.Registry.Exit` | contracts/src/ValidatorRegistry.sol:51-63 | Effects, nested calls, and the roll-back when the payment is not accepted. |
| `ValidatorRegistry.Registry.Slash` | contracts/src/ValidatorRegistry.sol:65-72 | Owner only, active only, at most the stake. |
| `PolicyVersions.BigEndianIsInjective` | contracts/src/PolicyRegistry.sol:29-33 | Fixed-width encodings of different versions differ. |
| `PolicyVersions.KeyIsInjective` | contracts/src/PolicyRegistry.sol:29-33 | Packing name and version is injective. |
| `PolicyVersions.PublishingExtends` | contracts/src/PolicyRegistry.sol:36-43 | Publishing version k+1 of one name leaves the versions of every other name as they were. |
| `PolicyVersions.VersionsAreDense` | contracts/src/PolicyRegistry.sol:28-43 | In every reachable state the versions of each name are exactly 1 to the number of publications. |
| `PolicyVersions.EntriesAreKept` | contracts/src/PolicyRegistry.sol:36-43 | Every entry sits under its own key and publishing never touches an existing one. |
| `PolicyVersions.LookupFindsPublication` | contracts/src/PolicyRegistry.sol:23-52 | Each publication of a run is found, with its own text, author and time, under its name and the number of times the name had been published by then. |
| `PolicyRegistry.Registry.PublishPolicy` | contracts/src/PolicyRegistry.sol:23-46 | The probe loop ends at the first free version, or overflows when none is left. |
| `PolicyRegistry.PublishAll` | contracts/src/PolicyRegistry.sol:23-46 | A run of publications leaves exactly the specified storage. |
| `Base64.StrictIsExactInverse` | src/modules/disputes/content-hash.ts:18-27 | A string is accepted as `b` if and only if `b` is non-empty and the string is its canonical encoding. |
| `Base64.AcceptedStringsDiffer` | src/modules/disputes/content-hash.ts:18-22 | Two accepted strings with the same bytes are the same string. |
| `Base64.AcceptedExactly` | src/modules/disputes/content-hash.ts:6-27 | A string is accepted if and only if it has the shape of section 4 and zero pad bits as in section 3.5; its length gives the number of bytes. |
| `Base64.DecodeEncode` | src/modules/disputes/content-hash.ts:25-26 | Decoding an encoding gives the bytes back. |
| `Base64.EncodeDecode` | src/modules/disputes/content-hash.ts:25-26 | Re-encoding gives the string back exactly when its pad bits are zero. |
| `Base64.SymbolsAreTheTable` | src/modules/disputes/content-hash.ts:25-26 | Every symbol is that of Table 1 of RFC 4648, and no other character is one. |
| `Base64.QuadIsOneNumber` | src/modules/disputes/content-hash.ts:25-26 | Four symbols and their three bytes are the same number, read in sixes and in eights. |
| `Base64.RestIsLeadingBits` | src/modules/disputes/content-hash.ts:25-26 | A padded last quad gives the leading bits of its symbols. |
| `EvidenceServices.EvidenceService.Attach` | src/modules/disputes/dispute-evidence.service.ts:46-96 | The refusals in order; an accepted row carries the computed hash and size, verified exactly when content was given. |
| `AttachmentRules.AttachesExactly` | src/modules/disputes/dispute-evidence.service.ts:46-96 | An attachment is taken if and only if it puts a hash on record (of readable content within 64 KiB that agrees with what is declared, or declared alone) for which its unresolved dispute has room; exactly that is appended. |
| `EvidenceServices.EvidenceService.Existing` | src/modules/disputes/dispute-evidence.service.ts:73-77 | Whether the hash is attached already, and how much evidence the dispute has. |
| `EvidenceServices.EvidenceService.Verify` | src/modules/disputes/dispute-evidence.service.ts:108-121 | A match raises the flag, a mismatch changes nothing. |
| `AttachmentRules.VerifiesExactly` | src/modules/disputes/dispute-evidence.service.ts:108-121 | A verification matches if and only if the content is readable and has the recorded hash of a row of this dispute. |
| `DisputeEvidence.RowsAreKept` | src/modules/disputes/dispute-evidence.service.ts:103-121 | Along a run rows are never altered or removed and a verification is never cleared. |
| `DisputeEvidence.VerifiedExactly` | src/modules/disputes/dispute-evidence.service.ts:41-121 | A row is marked verified if and only if some call of the run showed matching content for it. |
| `DisputeEvidence.VerifiedMeansShown` | src/modules/disputes/dispute-evidence.service.ts:41-121 | For a verified row, bytes within the size limit with exactly its hash were presented for its dispute. |
| `DisputeEvidence.ReachableInv` | src/modules/disputes/dispute-evidence.service.ts:73-82 | No content is attached twice to a dispute and no dispute exceeds the limit. |
| `DisputeEvidence.ResolvedDisputesTakeNoEvidence` | src/modules/disputes/dispute-evidence.service.ts:48-51 | While a dispute is resolved its evidence does not grow. |
| `Decay.FoldIsWeightedMean` | src/modules/reputation/decay.ts:51-69 | The fold over any history is the weighted mean, each observation weighing the product of the factors after it. |
| `Decay.FoldStaysInRange` | src/modules/reputation/decay.ts:57-69 | The mean stays in [0, 1] and the weight between 1 and the number of observations. |
| `Decay.LaterWeighsMore` | src/modules/reputation/decay.ts:4-9 | An observation never weighs more than a later one. |
| `Decay.DecaysTowardNeutral` | src/modules/reputation/decay.ts:31-34 | An idle score lies between its raw value and neutral, and moves towards neutral without crossing it. |
| `Decay.ScoreIsBalanced` | src/modules/reputation/decay.ts:43-50 | A gain in accuracy counts as much as the same gain in uptime and drop in lost disputes together, those count three to two, the best row scores one and the worst zero. |
| `Decay.ScoreIsMonotone` | src/modules/reputation/decay.ts:43-50 | The score never falls with accuracy or uptime and never rises with lost disputes. |
| `Reputation.IdleScoreDrifts` | src/modules/reputation/reputation.service.ts:133-155 | The score read for an idle row lies between its raw value and neutral, and moves towards neutral without crossing it as time passes. |
| `Reputation.ReadScoreIsShare` | src/modules/reputation/decay.ts:43-50 | With a neutral value in [0, 1] the score read is in [0, 1], whatever the row holds. |
| `Reputation.BetterRowScoresNoLess` | src/modules/reputation/decay.ts:43-50 | A row at least as good in every part scores no less; the unknown row scores one, the worst zero. |
| `Reputation.BetterRowReadsNoLess` | src/modules/reputation/reputation.service.ts:133-155 | It also reads no less at the same idle time. |
| `Reputation.HalfLivesHalve` | src/modules/reputation/decay.ts:19-34 | After n half-lives without activity 2^-n of the distance from neutral is left. |
| `ReputationServices.ReputationService.RecordObservation` | src/modules/reputation/reputation.service.ts:75-106 | Folds both averages with the decay since last activity, rounds and stores them, and counts the job. |
| `ReputationServices.ReputationService.RecordForValidators` | src/modules/reputation/reputation.service.ts:113-127 | The loop records for each validator whose call does not fail. |
| `Reputation.FailuresAreIsolated` | src/modules/reputation/reputation.service.ts:108-127 | One validator's failure never costs another its observation. |
| `Reputation.RowsStayInRange` | src/modules/reputation/reputation.service.ts:75-106 | However observations interleave and at whatever decay, stored shares stay shares, the stored weight lies between one and the number of observations, and jobs are counted exactly. |
| `Reputation.UpdateIsRoundedMean` | src/modules/reputation/reputation.service.ts:75-106 | At any decay an update stores, to half a unit of its last place, the mean of the old share over what is left of the evidence since the last activity and the new observation, and that weight plus one. |
| `Reputation.LastActivityIsLast` | src/modules/reputation/reputation.service.ts:100-101 | A row carries the time of its entity's last observation. |
| `Reputation.RoundedFold` | src/modules/reputation/reputation.service.ts:32-32 | One stored update is off by at most half a ten-thousandth, and the weight is exact. |
| `Reputation.RoundingErrorIsBounded` | src/modules/reputation/reputation.service.ts:32-106 | With decay off, after n observations stored accuracy and loss rate are within (n+1)/4 ten-thousandths of the true shares. |

## Left out

- Controllers, input validation, authentication, logging, metrics, migrations, configuration parsing: no protocol in them.
- Text that no decision reads: reasons, notes, resolution text, URIs, descriptions, public keys, endpoints.
- Parsing of stake and fee strings: the model starts from the non-negative integers they denote.
- The uuid test and de-duplication of `findByIds`: signer lists are looked up by id, so placeholders match no row.
- Keccak, SHA-256, EIP-191 recovery and the logarithm of the draw: preimages, arbitrary functions, recovered addresses and arbitrary positive draws stand for them; addresses are taken in lower case.
- IEEE doubles: scores, keys and averages are exact reals, and an infinite panel multiplier is not a number of the model.
- `localeCompare`: ties between ids are broken by comparing character codes.
- `createAndPublish` beyond one verdict per session: its on-chain part swallows errors and is network I/O.
- Immediate processing of `POST /jobs` and the coordinator's instant mode: they do not go through the queue's claim; a status they write is interference in `JobClaims`.
- Interleavings inside one dispute, appeal, evidence or commit-reveal call: such a call is one step, or the part of it before an interruption. In particular an approval's read and write of the stake are not separated in `DisputeTables`, nor is its restore raced against an appeal (`SlashingDecisions` does interleave the proposal rows, with stakes as a log).
- A store call that takes effect and reports a failure (a lost acknowledgement): a failing call has no effect of its own.
- Interrupted commit-reveal, evidence and verdict calls: failures between their writes are not modelled.
- Unsigned 256-bit bounds and ether forced into the stake contract: amounts are unbounded and the balance changes only by the modelled calls. The policy version counter does overflow as in the contract.
- A provider call that rejects while waiting for finality: it ends the wait with the provider's own error.
- The administrative `upsert` of reputation rows and the rounding of displayed scores: the former writes what it is given, the latter changes no stored value.
- `withRetry`, `pollForReceipt`, `VerdictRegistry.sol`, `SlashingRewards.sol`, `PoliciesService`: they would add only easy members.
- DisputeServices.DisputeStore.ProposeForOverturnedVerdict: leaves out the lost-dispute reputation records of `src/modules/slashing/slashing.service.ts:59-62`, because the dispute tables hold no reputation rows; `ReputationServices.ReputationService.RecordForValidators` models that loop.
- JobQueueServices.JobTable.UpdateStatus: leaves out the completion time of a final status, which no claim or drain reads; `CommitRevealService.RoundService.UpdateStatus` has it.
- Reputation.RoundingErrorIsBounded: covers decay switched off; with decay the stored weight is rounded too, and only the ranges of RowsStayInRange are stated.
- JobClaims.GuardIsReleased: takes for granted that a call of `processJob` or of the store eventually answers.
