# Height sequencing and certification: a verified model

This project models how a router assigns aggregation heights to tasks, how the nodes
decide what to sign at each height, how a quorum of signatures becomes one BN254
certificate, and how the router turns that certificate into exactly one outcome for the
task. It proves properties of every run of each actor and of the whole system.

`dafny verify dfyconfig.toml` checks everything.

## How it is laid out

| module | part of the system |
|---|---|
| `Common`, `Consensus` | options, saturating subtraction, pruning of maps; the N3f1 fault bound, quorums, quorum intersection, `PRUNE_SLACK` |
| `Wire` | task directives on the wire, the skip digest |
| `TaskBook`, `TaskBookHistory` | a node's directive log; the never-pruned history it is proved against |
| `Ingest` | the node's side of the directive channel: filtering and rate-limited tip reports |
| `Automaton` | the digest a node signs: validator retries within a budget, or the skip digest |
| `NodeReporter` | a node's certificate accounting and the pruning of its task book |
| `TipReports` | node tip reports and the safe tip |
| `Sequencer`, `SequencerRuns` | the router's height allocator, and its properties over all runs |
| `CertReporter` | the router's certificate dedupe and tip |
| `Submitter` | classification of certificates, bounded retries, the operator cache |
| `Bn254` | the certificate scheme in the exponent |
| `System`, `SystemRuns` | all of it together, with a network that loses, repeats and reorders, and up to f faulty operators; what every run of it promises |
| `Certifiable`, `DriveEnds` | when an assigned height can still be certified, and when its drive can still end with a resolution, exactly |
| `SampleRuns` | runs in which an assigned height is executed, split, and superseded |

Every actor that updates fields is a class. Its methods follow the code step by step and
are proved equal to a pure step function on the actor's state; the lemmas are about runs
of that function (`After(messages)`, `StepAll(state, events)`, `Run(events)`). What an
actor sends (answers, directives, resolutions, prune floors) is kept as a sequence, so
promises about order and multiplicity can be stated.

## What the environment is assumed to do

The system steps (`System.Step`) carry these as guards, so they are visible there:

- The engine takes one digest per height from each honest node and acknowledges that one. It
  works on the heights `[tip, tip + window)` and on no others, with a window of at least 1 and
  at most `PRUNE_SLACK`. What it took below its tip stays acknowledged.
- Acknowledgements are attributed to their real signer and height; up to f = (n-1)/3
  operators acknowledge whatever they like.
- A certificate reported by the engine is backed by a quorum of acknowledgements.
- A validator either errors or returns the digest the sequencer computed for the task.
- An honest node reports no height its reporter has not seen certified or as a tip. That may be
  ahead of its engine's tip, where certificates form out of order, but at most by a window. Its
  reporter prunes its book no closer than `PRUNE_SLACK` below that height. Engine tips only
  move up; nothing else bounds how.
- Only the router's directives reach a task book (`Ingest` proves this for one node).

Throughout: heights stay below the largest `u64`, so `+ 1` does not wrap; one router life
with nodes that start with empty books and do not restart within it (a restart would empty a
node's book); SHA-256 is an ideal hash (a digest is identified with its
preimage); the address registered for a key hash does not change; locks are not poisoned.

Time is a number that each event carries. Events of the sequencer's `select!` loop come
in any order; the resolutions buffered at a drain are part of the event that drains them.
Where the sequencer asks the reporter and awaits the answer, `System` has two steps, the
answer and its later use, and anything may happen in between.

## Where the code and its comments differ

- node/src/task_book.rs:141-143 says every parked height is above `max_seen`. An external
  prune can remove the directive at `max_seen` itself, and a subscription there then parks
  at `max_seen`. What holds in every run is `TaskBookHistory.ParkedIsUndecided`; the run
  that breaks the comment is `TaskBookHistory.ExternalPruneForgets`, and
  `TaskBookHistory.StrictlyAboveIff` says exactly when the comment is right.
- router/src/sequencer.rs:7-18 says that every assigned height must resolve to a certificate.
  The code does not ensure it, in two ways. A superseded height is given up without one
  (lines 501-505): `SampleRuns.SupersededRun`, and where every engine was past it, it is lost for
  good: `SampleRuns.SupersededForGood`. And a height whose announcement reached some nodes and
  whose Skip alone reached the others can be split, with nobody faulty and nothing superseded:
  `SampleRuns.SplitRun` ends with the sequencer driving a height that no continuation certifies.
  `Certifiable.CertifiableIff` says exactly when a height the router has passed can still be
  certified, and for which digest: while a quorum is faulty, took that digest, or took nothing
  there, has its tip no higher, and (for a task) was handed it or can still record its
  announcement. `DriveEnds.DriveCanEndIff` says exactly when the drive of a height can still end
  with its task executed or skipped. `SystemRuns.EndedHeights` counts the assigned heights that
  ended without a resolution: as many as the supersessions plus the one abandoned by shutdown.
- The same comment says `next_height` only advances when the current height resolves. The
  code advances it on assignment (line 375), and the model follows the code.
- node/src/reporter.rs:171-172 says every certified height is tapped exactly once across
  journal replays. A replay further than `PRUNE_SLACK` below the tip is counted and tapped
  again: `NodeReporter.StaleReplayCountedTwice` is such a run, and
  `NodeReporter.AccountingExact` says that these replays are the only exception.

## Model

| member | source | states |
|---|---|---|
| SystemRuns.Agreement | router/src/reporter.rs:206-227 | In any run (loss, repetition, reordering, up to f faulty operators) any two quorums of acks at one height are for the same digest, and that digest is the skip digest of the height or the one the sequencer assigned there |
| System.QuorumIsLegitimate | node/src/task_book.rs:176-286 | One quorum suffices for legitimacy: an honest member of it signed only what its book, and so the router, decided, and the router has sent a directive at or above the height |
| SystemRuns.AssignedDigestUnique | router/src/sequencer.rs:366-384 | In one router life no height is assigned two digests |
| SystemRuns.LiveAssignmentMatches | router/src/submitter.rs:187-198 | A forwarded certificate whose height is currently assigned carries the assigned digest or the skip digest: the mismatch branch is dead in one router life |
| SystemRuns.NoConflictingCertificates | router/src/reporter.rs:213-227 | A quorate certificate never conflicts with the one the reporter holds for its height |
| SystemRuns.NoForeignOutcome | router/src/sequencer.rs:411-419 | No resolution waiting for the driven height is foreign, and no drive ever ended with a foreign one |
| SystemRuns.ExecutionIsCertified | router/src/sequencer.rs:401-410 | A task ends as executed only where a quorum signed exactly its digest, as skipped only where a quorum signed the skip digest, never as foreign |
| SystemRuns.NothingAheadOfRouter | node/src/task_book.rs:8-20 | The skip rules for the whole system: no engine takes a digest at a height, and no quorum forms there, before the router has sent a directive at or above it; all those heights are below the sequencer's next one |
| SystemRuns.FreshHeightsOnly | router/src/sequencer.rs:366-384 | However old the tip the reporter answered with, a newly assigned height is above every height with a quorum for any digest, so above every certificate recorded or forwarded, pruned since or not |
| SystemRuns.TipInHandMayLag | router/src/sequencer.rs:370-374 | The tip the sequencer holds is one the reporter had: it may lag behind the current one but is never ahead |
| SystemRuns.SupersededOnlyIfSeenPast | router/src/sequencer.rs:501-505 | With at most f faulty reporters, a driven height is superseded only if some honest node saw a certificate or a tip above it, and so has its engine less than a window short of it |
| SystemRuns.EndedHeights | router/src/sequencer.rs:397-435 | Every assigned height whose drive ended with a resolution has a quorum behind it and is one task done; those that ended without are exactly as many as the supersessions plus the one abandoned by shutdown |
| Certifiable.CertifiableIff | router/src/sequencer.rs:12-17 | In every reachable state, for every height the router has passed and every digest: some continuation certifies the digest there if and only if it is the skip digest or the assigned one, and a quorum is faulty, took it, or took nothing there with its tip not past it and (for a task) was handed it or can still record its announcement |
| Certifiable.CertifiableInPlace | router/src/sequencer.rs:172-175 | If moreover no engine is a window or more short of the height, a continuation certifies it in which no tip moves |
| Certifiable.ClosedHeightNeverCertifies | router/src/sequencer.rs:501-502 | If for every digest the participants that are faulty, took it at the height, or took nothing there with their tips not past it are fewer than a quorum, no continuation certifies the height and no task ever ends there |
| Certifiable.SkippableWhileRoom | router/src/sequencer.rs:506-515 | If those for the skip digest are a quorum and the router has passed the height, some continuation certifies it as skipped |
| Certifiable.RoomShrinksInRun | node/src/task_book.rs:186-223 | In no continuation does a participant come to have room for a digest it had none for: neither books nor engines go back |
| Certifiable.HearAndTake | node/src/task_book.rs:266-286 | A node that took nothing at a height of its engine's window can be brought to take the skip digest by any directive at or above it, and the task's by the announcement while its book can record it, with nothing else changed |
| DriveEnds.DriveCanEndIff | router/src/sequencer.rs:475-517 | In every reachable state that drives a height, some continuation ends the drive with the task executed or skipped if and only if the tick in hand is not about to supersede it and the skip digest or the task's still has a quorum of room |
| DriveEnds.RoomEndsDrive | router/src/submitter.rs:153-248 | With nothing else in flight, room for a digest is enough for the engine, reporter, submitter and sequencer to end the drive as that digest says |
| DriveEnds.Settle | router/src/submitter.rs:145-151 | Whatever certificates and dispositions are on their way arrive, and either end the drive or leave it going with nothing in flight |
| DriveEnds.RunDelivers | router/src/reporter.rs:243-259 | No certificate of the driven height is lost on its way: what the reporter holds it handed on, and what was read of it is at the submitter or in the channel |
| SampleRuns.SplitRun | router/src/sequencer.rs:506-515 | A run of four honest nodes, without supersession, that reaches a driven height no continuation certifies |
| SampleRuns.SupersededRun | router/src/sequencer.rs:501-505 | A run in which the only height assigned is superseded and nobody ever acknowledged anything there |
| SampleRuns.SupersededForGood | router/src/sequencer.rs:421-423 | Where every engine was past that height and nobody is faulty, no continuation of the run certifies it |
| System.RunKeepsInv | router/src/sequencer.rs:351-437 | The system invariant (books hold only broadcast directives, honest acks are legitimate, certificates and dispositions are backed by quorums) holds in every reachable state |
| SystemRuns.SequencerRunOf | router/src/sequencer.rs:337-438 | The sequencer's part of every system run is a run of its own module, so its run theorems apply |
| SystemRuns.BookRunOf | node/src/task_book.rs:163-174 | Every node's book in a system run is the book after some sequence of messages whose directives were all broadcast |
| SystemRuns.ReporterRunOf | router/src/reporter.rs:190-204 | The reporter's part of every system run is a run of its own module whose certificates were all quorate |
| SampleRuns.SomeRunExecutes | router/src/sequencer.rs:397-404 | The guards are satisfiable: in every valid configuration in which a quorum is faulty or not past the first height, any validatable task has a run that announces, signs, certifies, submits and executes it there |
| Consensus.QuorumIntersection | core/src/bn254/scheme.rs:258-262 | For every n, two quorums of n-f share a member outside any set of f |
| Consensus.HonestMember | core/src/bn254/scheme.rs:258-262 | A set of more than f participants has one outside any faulty set |
| Consensus.QuorumIffFewAbsent | core/src/bn254/scheme.rs:258-262 | For every n, a set of participants is a quorum exactly when at most f = (n-1)/3 are absent from it |
| Consensus.OthersAreQuorum | core/src/bn254/scheme.rs:258-262 | Everybody outside any set of at most f participants is a quorum |
| SystemRuns.HonestAcksSuffice | core/src/bn254/scheme.rs:227-229 | What every honest participant acknowledged has a quorum, however the faulty ones behave |
| TaskBook.TaskBook.HandleDirective | node/src/task_book.rs:176-264 | Duplicate, override, conflict, below-horizon and recording branches produce exactly the specified log, waiters and answers in order |
| TaskBook.TaskBook.HandleSubscribe | node/src/task_book.rs:266-286 | Answers from the log, answers Skip below max_seen, or parks at the end of the height's queue; nothing else changes |
| TaskBook.TaskBook.PruneBelow | node/src/task_book.rs:288-296 | Keeps exactly the directives at or above the floor |
| TaskBook.TaskBook.Run | node/src/task_book.rs:163-174 | A mailbox processed in order leaves the state the history lemmas speak about |
| TaskBookHistory.BookRefinesHistory | node/src/task_book.rs:176-296 | At every height at or above both max_seen-PRUNE_SLACK and the highest external floor, the pruned actor decides, answers and parks exactly as a never-pruned first-wins log with the Announce-to-Skip override |
| TaskBookHistory.BelowHorizonSkips | node/src/task_book.rs:216-223 | Below max_seen-PRUNE_SLACK every subscription is answered Skip and nothing is recorded or parked |
| TaskBookHistory.PruneForgetsBelow | node/src/task_book.rs:288-296 | A prune removes exactly the directives below its floor and touches neither waiters, answers nor max_seen |
| TaskBookHistory.SkippedLowestFirst | node/src/task_book.rs:240-261 | Waiters passed over by one directive are released lowest height first |
| TaskBookHistory.DirectivesRefine | node/src/task_book.rs:186-231 | At every remembered height the recorded directive is the one the whole history leaves standing |
| TaskBookHistory.PassedIffHigher | node/src/task_book.rs:240-243 | max_seen is above h exactly when a directive for a height above h ever arrived |
| TaskBookHistory.WaitersConserved | node/src/task_book.rs:234-285 | At every height of every run, those answered followed by those parked are the subscribers in subscription order: none lost, duplicated or overtaken |
| TaskBookHistory.DirectiveLosesNobody | node/src/task_book.rs:191-264 | One directive moves waiters from parked to answered without losing or reordering any |
| TaskBookHistory.ParkedIsUndecided | node/src/task_book.rs:141-143 | A parked height has no directive, is at least max_seen, strictly above it while max_seen has its directive, and no higher directive ever arrived |
| TaskBookHistory.StrictlyAboveIff | node/src/task_book.rs:141-143 | The field comment holds, whoever subscribes next, exactly while max_seen still has its directive |
| TaskBookHistory.AnnouncedOnlyIfDelivered | node/src/task_book.rs:268-271 | A task handed out for a height was announced for it by a delivered directive |
| TaskBookHistory.StepAnswersSeen | node/src/task_book.rs:8-20 | No message makes a book answer for a height above the highest directive it saw |
| TaskBookHistory.BelowHorizonForGood | node/src/task_book.rs:216-223 | A height below the prune horizon stays there, and no task is handed out for it any more |
| TaskBookHistory.CanRecordShrinks | node/src/task_book.rs:191-223 | A height recorded as something else, or below the horizon, never comes to hand out a given task, unless an external prune reaches the height |
| TaskBookHistory.HeardDecides | node/src/task_book.rs:240-243 | A directive at or above a height decides the height, whatever the book held |
| TaskBookHistory.LogIsBounded | node/src/task_book.rs:262-262 | The log never exceeds PRUNE_SLACK + 1 entries |
| TaskBookHistory.ExternalPruneForgets | node/src/task_book.rs:288-296 | A concrete run where a subscription parks at max_seen after an external prune, although the task was announced |
| Ingest.Ingest.Handle | node/src/task_book.rs:361-407 | One message: only a decodable height directive of the router is delivered; the tip report and the window warning follow their guards and rate limits |
| Ingest.Ingest.Run | node/src/task_book.rs:358-415 | The loop over a channel leaves the state the ingest lemmas speak about |
| Ingest.DeliversWhatTheRouterSent | node/src/task_book.rs:322-326 | Whatever other peers send and whatever is malformed, the task book gets exactly the router's written directives, decoded, in arrival order |
| Ingest.ReportsSpaced | node/src/task_book.rs:376-379 | Tip reports are at least the minimum interval apart |
| Ingest.StaleDirectivesAnswered | node/src/task_book.rs:328-333 | Every directive below the node's tip finds a report sent on the spot or less than the interval before |
| Ingest.ReportsAreTruthful | node/src/task_book.rs:384-385 | Every report carries the tip read when a directive below that tip arrived |
| Ingest.OutOfReachWarned | node/src/task_book.rs:335-343 | Every directive at or past the end of the window finds a warning on the spot or less than the interval before |
| Ingest.WarningsUpToNow | node/src/task_book.rs:387-391 | Warnings are at least the interval apart and never in the future |
| Ingest.WarningsAreTruthful | node/src/task_book.rs:387-391 | A warning is given only when such a directive arrives |
| Ingest.WindowSplits | node/src/task_book.rs:309-318 | A height is stale, in the window, or beyond it, and where the window's end overflows only the last height is beyond |
| Ingest.StaleIsNotBeyond | node/src/task_book.rs:316-318 | With the saturating window end, a directive below the tip is never beyond the window |
| Automaton.DigestForAnnounce | node/src/automaton.rs:184-216 | For any validator and any clock that advances by each sleep: retries exactly while the next delay ends before the deadline, returns the validator's digest or the skip digest, sleeps less than the budget, and makes at most 5 + (budget-7.5s)/5s attempts |
| Automaton.SleptClosedForm | node/src/automaton.rs:201-201 | The doubling backoff is capped at 5 s from the fifth delay on, after 7.5 s in all, with the closed form of the total slept |
| Automaton.ClockAfterSleeps | node/src/automaton.rs:193-200 | The clock has advanced by at least everything slept |
| Automaton.RetriesBounded | node/src/automaton.rs:185-193 | A budget bounds the retries that fit in it |
| Automaton.Resolve | node/src/automaton.rs:148-216 | For an announced task the digest is decided by one attempt: every earlier one failed with its delay ending in time; if that one answered it is the answer, else the skip digest and the delay would end too late; in particular a validator that answers at once has its digest signed. A skipped height gives the skip digest, a vanished task book nothing |
| Automaton.AttemptsDecide | node/src/automaton.rs:187-214 | Which attempt decides, and the digest, are determined by the validator and the clock |
| NodeReporter.NodeReporter.Advance | node/src/reporter.rs:232-247 | Raises the tip, sends the floor and prunes the dedupe set, or does nothing for a tip not above the current one |
| NodeReporter.NodeReporter.Run | node/src/reporter.rs:181-228 | Counters, tap, tip and floors after a mailbox are those the accounting lemmas speak about |
| NodeReporter.AccountingExact | node/src/reporter.rs:184-215 | Over every run the tap is the first certificate of every height in order, certified counts the distinct heights and skipped those whose first certificate carries the skip digest, if and only if no height is replayed that the tip has passed by more than PRUNE_SLACK since it last came |
| NodeReporter.NoneStaleNoneForgotten | node/src/reporter.rs:184-191 | In particular, while no certificate arrives more than PRUNE_SLACK below the tip no such replay happens |
| NodeReporter.Overcounted | node/src/reporter.rs:186-192 | Certificates are never undercounted, and one such replay leaves the counter too high for good |
| NodeReporter.StaleReplayCountedTwice | node/src/reporter.rs:184-192 | A concrete run where a stale replay is counted twice |
| NodeReporter.DedupeIsHeld | node/src/reporter.rs:186-245 | The dedupe set holds exactly the heights certified since the tip last passed them by more than PRUNE_SLACK |
| NodeReporter.DedupeAgrees | node/src/reporter.rs:186-191 | The dedupe set holds only certified heights, and all of those at or above the horizon |
| NodeReporter.ObservationsDistinct | node/src/reporter.rs:205-212 | The first observations name every certified height once |
| NodeReporter.FloorsIncrease | node/src/reporter.rs:240-246 | Prune floors strictly increase, are positive, and stay PRUNE_SLACK below the tip, which is the highest activity seen |
| NodeReporter.FloorsFollowTip | node/src/reporter.rs:237-246 | Over every run exactly one floor is sent for each message that raises the tip past 1024, that far below the new tip; so some floor was sent exactly when the tip is past 1024, and the last one is 1024 below it |
| NodeReporter.DirectivesRetained | node/src/reporter.rs:230-246 | Reporter and book together: within PRUNE_SLACK of both the tip and the highest directive, the book still holds what a never-pruned log would |
| TipReports.TipReports.Record | router/src/sequencer.rs:198-203 | Keeps the maximum per participant, touching no other |
| TipReports.TipReports.Ingest | router/src/sequencer.rs:231-253 | Only a participant's decodable tip report changes anything |
| TipReports.TipReports.SafeTip | router/src/sequencer.rs:206-213 | Collecting, sorting downwards and taking entry f computes the order statistic the lemmas characterise |
| TipReports.SafeTipReaches | router/src/sequencer.rs:205-213 | For t > 0 the safe tip is at least t exactly when f+1 participants have a recorded maximum of at least t |
| TipReports.SafeTipOfRun | router/src/sequencer.rs:197-213 | The same over any run of reports: exactly when f+1 participants ever reported t or more |
| TipReports.SafeTipIsHonest | router/src/sequencer.rs:174-177 | With at most f faulty reporters a positive safe tip is reached by an honest report |
| TipReports.SafeTipMonotone | router/src/sequencer.rs:197-213 | No report by anybody lowers the safe tip |
| TipReports.SafeTipUnique | router/src/sequencer.rs:205-213 | The characterisation determines the safe tip |
| TipReports.SortedGivesSafeTip | router/src/sequencer.rs:210-212 | Any listing of the reports, sorted downwards, has the safe tip at position f (0 if shorter) |
| Sequencer.Sequencer.Run | router/src/sequencer.rs:337-438 | The nested loops consume the events exactly as the step function says, from the starting height on |
| Sequencer.Sequencer.TaskTurn | router/src/sequencer.rs:366-435 | One pass of the inner loop: drain, assign, drive, remove the assignment, and release, drop, re-assign or stop |
| Sequencer.Sequencer.DriveHeight | router/src/sequencer.rs:459-519 | Drives one height to resolved, superseded or closed, with every announce and skip it sends |
| Sequencer.Sequencer.OnTick | router/src/sequencer.rs:492-516 | One tick: certified latches and sends nothing, superseded returns, else the skip latch and the one directive that TickSendsOne and TraceCounted judge |
| Sequencer.Sequencer.DrainResolutions | router/src/sequencer.rs:441-450 | The next height passes every buffered resolution and is otherwise unchanged |
| SequencerRuns.RunInv | router/src/sequencer.rs:351-437 | The sequencer invariant (placements, one assignment, conservation, supersessions) and the growth of its next height and safe tip hold over every run |
| SequencerRuns.TasksConserved | router/src/sequencer.rs:351-437 | The tasks pulled are, in order, those done, then the one in flight, then the one abandoned by shutdown |
| SequencerRuns.TasksEndWhereLastPlaced | router/src/sequencer.rs:401-430 | The k-th task done was executed or skipped, at the highest height it was ever placed at |
| SequencerRuns.PlacementsIncrease | router/src/sequencer.rs:370-375 | Heights are handed out strictly increasing, to tasks in pull order; a re-assigned task gets a strictly greater height |
| SequencerRuns.OneOutstandingHeight | router/src/sequencer.rs:377-400 | The assignment map holds exactly the driven height while driving, and is empty otherwise |
| SequencerRuns.SupersessionsBounded | router/src/sequencer.rs:501-505 | Between two supersessions the safe tip strictly grew, so a run has no more of them than its final safe tip |
| SequencerRuns.UnresolvedPlacements | router/src/sequencer.rs:401-435 | Of all heights ever assigned, those that ended with no resolution are exactly as many as the supersessions plus the one abandoned by shutdown; the rest are the driven one, those consumed by foreign certificates, and one per task done |
| SequencerRuns.TraceIsBlocks | router/src/sequencer.rs:459-519 | The whole directive trace is one block per assignment, strictly increasing in height: identical announcements, at least one, then skips |
| SequencerRuns.TickSendsOne | router/src/sequencer.rs:501-515 | Every tick that saw no certificate and does not supersede sends exactly one directive for the driven height: the announcement while no tick has been late, else Skip |
| SequencerRuns.TraceCounted | router/src/sequencer.rs:459-519 | The whole trace of every run, counted: per assignment one announcement plus one for each such tick before the first late one, then one Skip for each from that one on |
| SequencerRuns.TimeoutFromAssignment | router/src/sequencer.rs:466-515 | The round timeout counts from the assignment: before it only announcements are sent for the height, and a tick from it on, without certificate and supersession, sends Skip |
| SequencerRuns.AssignedHeightIsLeast | router/src/sequencer.rs:366-375 | An assigned height is the least one past what was drained and at least the next height and both tips, and the next height is one past it: no height is left out without a reason |
| SequencerRuns.NextMovesForAReason | router/src/sequencer.rs:370-490 | The next height only moves to one past an observed resolution, or, at an assignment, to one past the height assigned |
| SequencerRuns.ObservedHeightNeverAssigned | router/src/sequencer.rs:354-366 | A height whose resolution was drained, while idle or pending, or received is never assigned afterwards, in any continuation |
| SequencerRuns.StartsAtTheTips | router/src/sequencer.rs:341-345 | A run starts at the reporter tip or the safe tip, whichever is higher |
| SequencerRuns.ShutdownIsFinal | router/src/sequencer.rs:356-359 | An exhausted source, or a closed channel while driving, stops the sequencer for good |
| SequencerRuns.NothingSentAfterCertificate | router/src/sequencer.rs:493-500 | After a tick that saw the certificate nothing is ever sent for that height again, in any continuation |
| SequencerRuns.LateTickAbandons | router/src/sequencer.rs:506-515 | A tick past the deadline that neither saw a certificate nor is superseded sends Skip, and every later directive for the height is Skip |
| SequencerRuns.NoSkipBeforeDeadline | router/src/sequencer.rs:506-514 | While no tick is late only announcements are sent for the height |
| SequencerRuns.AssignedHeightIsFresh | router/src/sequencer.rs:366-375 | An assigned height is at least the reporter tip and the safe tip, past every drained resolution and every earlier placement |
| SequencerRuns.ResolvedHeightNeverAssigned | router/src/sequencer.rs:483-490 | A height whose resolution was received is never assigned afterwards, in any continuation |
| SequencerRuns.DrainedGrows | router/src/sequencer.rs:441-450 | Draining never lowers the next height and passes every drained height |
| CertReporter.CertReporter.HandleCertified | router/src/reporter.rs:206-260 | Duplicate, invalid and fresh certificates change the map, tip and forwarded stream exactly as specified |
| CertReporter.CertReporter.AdvanceTip | router/src/reporter.rs:263-272 | A higher tip is taken and entries more than PRUNE_SLACK below it dropped; any other is ignored |
| CertReporter.CertReporter.Run | router/src/reporter.rs:190-204 | A mailbox processed in order leaves the state the history lemmas speak about |
| CertReporter.ReporterAgrees | router/src/reporter.rs:206-272 | At every height the digest held is the first verified since the tip last passed height+PRUNE_SLACK; the tip is the maximum reported and is past every verified height, pruned or not |
| CertReporter.ForwardedAgrees | router/src/reporter.rs:243-259 | The forwarded stream is exactly, in order, the verified certificates whose height was not held |
| CertReporter.ForwardedAgainIffPassed | router/src/reporter.rs:210-227 | After a height was forwarded, its next verified certificate is forwarded again if and only if the tip passed height+PRUNE_SLACK in between |
| CertReporter.DedupeMapBounded | router/src/reporter.rs:262-272 | Without reports more than PRUNE_SLACK below the tip the map never exceeds PRUNE_SLACK entries |
| CertReporter.StoredWindow | router/src/reporter.rs:262-272 | Without such reports every held height lies within PRUNE_SLACK below the tip |
| Submitter.Submitter.HandleCertified | router/src/submitter.rs:153-248 | Exactly one disposition, of the certificate's height. Executed only if the height is assigned, the assigned digest is the certificate's and it is not the skip digest; Skipped for the skip digest; Foreign, with no attempt, delay or cache change, if the height is unassigned or assigned another digest. Attempts go as the chain and the cache have it, and one is enough where nothing fails |
| Submitter.Submitter.SubmitWithRetries | router/src/submitter.rs:204-247 | At most three attempts, two and four seconds apart, ending at the first that comes back; success as the last one says |
| Submitter.Submitter.Run | router/src/submitter.rs:153-248 | One disposition per certificate in receive order: Skipped exactly for the skip digest, Executed exactly if the height was assigned that very digest, Foreign exactly otherwise; success only if the chain reported it on one of three attempts with usable keys |
| Submitter.RetryBounds | router/src/submitter.rs:204-246 | The delays are a prefix of two and four seconds, and giving up takes exactly three failed attempts and both delays |
| Submitter.Submitter.ResolveOperators | router/src/submitter.rs:293-347 | Succeeds exactly when every signer is cached or its lookup comes back, and then lists each signer's registered address in participant order; the cache stays correct and gains exactly the signers before the first failed lookup |
| Submitter.Submitter.CollectMisses | router/src/submitter.rs:299-313 | Hits are filled with correct addresses, misses are exactly the other slots, in order |
| Submitter.Submitter.WriteBack | router/src/submitter.rs:335-342 | Stops at the first failed lookup with the cache correct and holding exactly the misses before it |
| Submitter.Submitter.Submit | router/src/submitter.rs:251-383 | One attempt returns the chain's outcome exactly when the key lists are usable, the block number came back and every signer resolves |
| Submitter.Submitter.AttemptFails | router/src/submitter.rs:262-347 | An attempt fails without keys or with unaligned ones, without a block number, or if an unknown signer's key has no hash or its lookup fails |
| Submitter.Submitter.LearntBeforeFailure | router/src/submitter.rs:335-342 | A failed attempt still caches a new signer exactly if no lookup up to its own failed |
| Submitter.Submitter.LookupsNotRepeated | router/src/submitter.rs:315-342 | Once an attempt learned every signer, later attempts depend on no lookup |
| Submitter.Submitter.WrittenIsFetched | router/src/submitter.rs:335-341 | The write-back loop's prefix of misses is the set of signers before the first failed lookup |
| Bn254.Scheme.AssembleThenVerify | core/src/bn254/scheme.rs:206-278 | For every n, 32-byte digest and arrival order: a quorum of valid attestations by distinct signers assembles into a certificate with exactly those bits, and it verifies |
| Bn254.Scheme.CertificateExact | core/src/bn254/scheme.rs:239-278 | A certificate verifies if and only if the bitmap has length n, a quorum of bits, the digest 32 bytes, and the signature is the sum of the set participants' signatures |
| Bn254.Scheme.AcceptedIffFewMissing | core/src/bn254/scheme.rs:251-278 | The same in terms of who is missing: a certificate is accepted if and only if at most f = (n-1)/3 bits of its full-length bitmap are clear, the digest has 32 bytes and the signature is the sum of the others' |
| Bn254.Scheme.OthersCertify | core/src/bn254/scheme.rs:206-278 | For every n and every set of at most f participants, the signatures of all the others assemble and verify: f silent ones never stop certification |
| Bn254.Scheme.AssembledIffFewMissing | core/src/bn254/scheme.rs:219-229 | Attestations of distinct signers assemble if and only if all are in range and decodable and at most f participants are missing |
| Bn254.Scheme.AttestationExact | core/src/bn254/scheme.rs:181-204 | An attestation is accepted exactly if it is its signer's own signature of a 32-byte digest |
| Bn254.Scheme.QuorumCertifies | core/src/bn254/scheme.rs:171-237 | Any quorum of distinct participants signing one digest, in any order, makes a verifying certificate of exactly them |
| Bn254.Scheme.AssembleOrderInvariant | core/src/bn254/scheme.rs:231-236 | Permuted attestations assemble to the same certificate, or to none alike |
| Bn254.Scheme.SignerListsAligned | core/src/bn254/scheme.rs:135-149 | For a verifying certificate the G1 and G2 lists have equal length and name the same participants slot by slot in participant order |
| Bn254.Scheme.CertificatesIntersect | core/src/bn254/scheme.rs:258-262 | Any two verifying certificates share a set bit of a participant outside any faulty set of f |
| Bn254.Scheme.SignedVerifies | core/src/bn254/scheme.rs:171-204 | A participant's own attestation verifies under its index, and it signs exactly 32-byte digests |
| Bn254.Scheme.VerifyDigestExact | core/src/bn254/mod.rs:385-390 | The pairing check accepts exactly the key's own signature of the digest |
| Bn254.Scheme.ValidSignatures | core/src/bn254/mod.rs:695-701 | Valid attestations sum to the signature under the summed keys |
| Bn254.Scheme.Assemble | core/src/bn254/scheme.rs:206-237 | Refuses out-of-range or malformed attestations and fewer than a quorum; else the signers' bitmap and the sum in arrival order |
| Bn254.Scheme.VerifyCertificate | core/src/bn254/scheme.rs:239-278 | Length, count and digest checks, then one pairing check under the sum of the keys in bitmap order |
| Bn254.Scheme.AggregateSignatures | core/src/bn254/mod.rs:695-701 | The loop computes the sum |
| Bn254.Scheme.AggregateVerify | core/src/bn254/mod.rs:703-723 | The loop verifies under the sum of the keys |
| Bn254.ArrivalOrder | core/src/bn254/scheme.rs:231-234 | Keys summed in arrival order equal keys summed in bitmap order, and the bitmap counts the distinct signers |
| Bn254.SumPermutation | core/src/bn254/mod.rs:695-701 | A group sum does not depend on order |
| Bn254.MulDistributes | core/src/bn254/mod.rs:703-722 | Bilinearity modulo the group order: a multiple of a sum of keys is the sum of the multiples |
| Bn254.SumLinear | core/src/bn254/mod.rs:709-722 | Multiplying a sum of keys by a point is summing the multiples: the step that makes one pairing check enough |
| Bn254.SelectAtIndices | core/src/bn254/scheme.rs:135-149 | The list selected by a bitmap is, slot by slot, the keys at its set bits |
| Wire.DirectiveRoundTrip | core/src/wire/mod.rs:75-121 | For codecs that round-trip on a prefix at the directive's own values, a written directive followed by any bytes reads back with those bytes left, and encode_size is exact |
| Wire.WireFormat | core/src/wire/mod.rs:75-93 | The bytes of each directive: tag 0, 1 or 2, the height, and for an announcement the task |
| Wire.DirectivesPrefixFree | core/src/wire/mod.rs:75-111 | Two written directives followed by anything are equal only if the directives and the rests are |
| Wire.UnknownTagRefused | core/src/wire/mod.rs:98-110 | A tag above the three known ones is refused as InvalidEnum, after the height was read |
| Wire.DecodeWritten | core/src/wire/mod.rs:95-111 | A written directive decodes as a whole message |
| Wire.WriteTo | core/src/wire/mod.rs:75-93 | Appends exactly the written form to the buffer |
| Wire.ReadFrom | core/src/wire/mod.rs:95-111 | Reads one directive off the front and leaves the rest, or the error |
| Wire.ComputeSkipDigest | core/src/wire/mod.rs:135-141 | The hasher is fed namespace, suffix and big-endian height |
| Wire.SkipPreimageLayout | core/src/wire/mod.rs:123-141 | What is hashed is the namespace, then the suffix, then eight bytes of the height, most significant first |
| Wire.BigEndianByte | core/src/wire/mod.rs:139-139 | Byte i of the big-endian form is the height divided by 256^(k-1-i), modulo 256 |
| Wire.SkipDigestInjective | core/src/wire/mod.rs:123-141 | Two skip digests are equal exactly when namespace and height are: no replay across heights or applications |
| Wire.BigEndianRoundTrip | core/src/wire/mod.rs:139-139 | The big-endian bytes of a height that fits determine it |

## Left out

- The aggregation engine, journal, p2p network, runtime and mailboxes: the environment of the model, as described above.
- A link from acknowledgements to certificates: System says "a quorum acknowledged", Bn254 says what a quorum's signatures assemble to; that a verifying certificate implies its signers signed is unforgeability, which a model in the exponent cannot state.
- Curve arithmetic, point compression and validation, SHA-256, keccak and map_to_curve: foreign; replaced by residues modulo the group order, an ideal hash and an uninterpreted function.
- Wire.DirectiveRoundTrip: the codec of varint heights and of the task payload is assumed to round-trip at the values in question; the codec of signer bitmaps is not modelled, a bitmap is a sequence of booleans.
- Wire.ReadFrom: what is left in the buffer after an error is not specified.
- Bn254.Scheme.AggregateVerify: only the path certificates take is modelled, no namespace and a 32-byte digest; with a namespace, or another length, the code hashes the message first.
- Bn254.Scheme.Assemble: duplicate signers are accepted as in the code, but nothing is promised for them (the code documents them as undefined behaviour).
- The namespaced sign and verify used for p2p identity, key parsing and string conversions: no part in certification.
- RPC and contract calls, conversion of points and of non-signer data, and handle_verification: one attempt's outcome is an oracle.
- Submitter.Submitter.ResolveOperators: the concurrency of the lookups is not modelled, only the order in which their answers are written back.
- Dispatch-time stamping, metrics, logging, configuration, the settle delay and the router's own automaton: plumbing.
- Lock poisoning, and closed channels beyond the sequencer's shutdown and a node's vanished task book.
- At-most-once on-chain execution: the code leaves a certificate racing with a supersession to the contract's replay protection.
- Liveness of the whole system: it depends on the engine and the network; what can still be certified in some continuation is proved exactly, and so is the safety side of it (no supersession livelock, stale directives answered, skip after the deadline).
- Certifiable.CertifiableIff: where an engine is a window or more short of the height, "some continuation" has it catch up first; whether it can depends on the certificates of the heights between, and how the engine moves its tip is not modelled. Certifiable.CertifiableInPlace needs no such move.
- Foreign certificates left by an earlier router life: the actors' own modules handle them in every run; System starts from fresh nodes, where they cannot occur.
