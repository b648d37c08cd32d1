# FutureDiff: a verified model of its protocols

FutureDiff stages changes of a git repository together with external effects (GitHub branches, draft
pull requests, Slack messages), has them verified and approved, and then commits them as one
transaction. This project models in Dafny the parts of it whose correctness is not evident from
reading one function, and proves what they are for.

`dafny verify dfyconfig.toml` checks everything.

## The commit protocol

A coordinator drives one transaction through a table of states. It publishes a git ref, then releases
a list of dependent effects to providers whose answers can be lost, and records receipts. The process
can die between any two calls; recovery works from the ledger and from status queries.

* `TransactionStates.dfy`: the state table and what holds of every walk through it.
* `CommitWorld.dfy`: what a coordinator can see and change. Every call on the ledger, the providers
  or git consumes one *reply* of a script: done, done but not acknowledged, not done and silent,
  refused, or moved. A crash is a script after which every reply is a refusal. A run is any sequence
  of service calls with any replies, so that a claim about all runs is a claim about every crash point,
  every lost answer and every failing write.
* `Coordinator.dfy`: what each service call does, as a function of world and script.
* `Service.dfy`: the same calls in the form the program has them, with loops, flags and early
  returns, each proved equal to its function.
* `CoordinatorSafety.dfy`, `CoordinatorRuns.dfy`, `CoordinatorGates.dfy`: the invariant that every
  call keeps, what follows for every run, and what must have come before a release.
* `CoordinatorLiveness.dfy`: where a commit and a recovery end, exactly, when every call is answered.
* `CoordinatorReplies.dfy`, `CoordinatorEndings.dfy`, `RecoveryEndings.dfy`: where every call ends when
  one reply is out of order, at whatever call, with statuses, approvals and effects given outright; and
  that a recovery may be repeated without changing its end.
* `EffectOrder.dfy`: the graph of dependencies that preparations build, and the order of the list.
* `StrandedRun.dfy`: a run that ends in manual intervention without need.

Things the proofs brought out. In each case the model does what the code does.

* The ledger lists effects by commit rank and then by identity
  (`internal/ledger/external_effects.go:106`), and identities are random. A Slack message may depend
  on another Slack message; if the two identities are in the wrong order, the release meets the
  dependent message first and stops. Such a transaction can never be committed by any sequence of
  calls, and neither message is ever posted (`CoordinatorRuns.BackwardNeverCommits`). The list is in
  order exactly when every such dependent message has the greater identity
  (`EffectOrder.ListedOrderExactly`); an order by rank and age always would be
  (`EffectOrder.AgeOrderIsTopological`).
* Any failing `git rev-parse` reads as an absent ref (`internal/staging/git.go:361-364`). One such
  failure during a recovery, started from committing or from needs_reconciliation, sends the
  transaction to manual intervention exactly if an effect was released before, with the message that
  the ref is absent, whether or not it is (`CoordinatorLiveness.FailedRevParseStrands`, and the run in
  `StrandedRun`).
* Recording a verification moves sealed or stale transactions straight to ready or
  failed_verification; no such step is in the table, though the two steps it stands for are. The move
  to needs_reconciliation is asked for, and refused by the table, at every failing effect of a recovery
  (`CoordinatorGates.VerificationSkipsAState`, `CoordinatorGates.ReconciliationRefusedExactly`).

* An abort that fails after its first write can leave the transaction in aborting, and no call leads out
  of that: the recovery and a second abort both refuse it (`CoordinatorEndings.AbortMeets`,
  `CoordinatorRuns.AbortingForGood`).
* A commit leaves a transaction in committing, with every call answered but one, exactly if the
  BeginCommit it made was not acknowledged (`CoordinatorEndings.CommitMeets`).

Assumptions about the surroundings: a status query that answers tells the truth, and comes with a
receipt when the resource is there; a provider's definite rejection means that nothing was done;
nothing lands after the call that asked for it has been answered or given up; one coordinator works
on a transaction at a time.

## The other protocols

* `Idempotency.dfy`: requests with an idempotency key are executed once and replayed.
* `DurableWrite.dfy`, `DurableWriters.dfy`: replacement of a file under injected faults, one call in
  full, and any number of calls interleaved with crashes.
* `Drain.dfy`: the manager that lets mutations finish before a shutdown.
* `HashChain.dfy`: the transparency ledger.
* `EvidenceContainer.dfy`, `EvidenceKeyring.dfy`: framing of encrypted evidence and rotation of keys.
* `Futurepack.dfy`, `FuturepackArchive.dfy`, `FuturepackExport.dfy`: content-addressed blobs, export
  and verification of archives.
* `DaemonLock.dfy`: the lock file, with locks on inodes and removals by path.
* `Authorization.dfy`, `AuthorizationGuard.dfy`: compiled policies, and capabilities that work once.
* `BackupRetention.dfy`: which backups a plan deletes, and what applying it removes.
* `Sorting.dfy`, `Text.dfy`, `Wrappers.dfy`: sorting, trimming and shared types.

Further findings: an answer of a handler beyond 1 MiB is cut without a change of its status, and kept
and replayed cut (`Idempotency.BodyIsWholeExactly`); a blob file cut by a crash blocks its payload for
good (`Futurepack.CutBlobBlocks`); an export accepts references that its own verification rejects
(`FuturepackExport.ExportVerifiesExactly`); the two parsers of the evidence container disagree on an
empty key id (`EvidenceContainer.ParsersAgreeExactly`); an append to the transparency ledger succeeds on
one whose only fault is its head, and replaces that (`HashChain.AppendMendsHeadExactly`); a wait for the
drain can be relied on exactly if the drain had started when it began (`Drain.WaitIsSafeExactly`);
applying a retention plan takes the file of a kept record if a deleted one names the same path, which
the schema allows (`BackupRetention.KeptIsSoundExactly`); a minimum age of more than 2562047 hours
overflows a 64-bit duration and no longer protects (`BackupRetention.CutoffIsOldEnoughExactly`); a
capability that is to live for less than a second may have expired when it is made
(`AuthorizationGuard.SignedIsValidExactly`); an operation that is named after a star in a role counts as
a repetition (`Authorization.CompileList`).

## Model

| member | source | states |
|---|---|---|
| TransactionStates.EntersPastVerification | internal/domain/state.go:25-37 | a walk through the table that reaches ready or beyond has taken verifying to ready |
| TransactionStates.ReleaseIsGated | internal/domain/state.go:25-37 | a walk that reaches a releasing state took ready to committing, and verifying to ready strictly before |
| TransactionStates.AbsorbingExactly | internal/domain/state.go:25-50 | committed, aborted, compensated and manual_intervention are exactly the states without an exit |
| TransactionStates.FinalStateEndsTheWalk | internal/domain/state.go:47-57 | no walk goes on from a final state |
| CoordinatorSafety.SetKeepsInv | internal/ledger/external_effects.go:235-410 | any permitted change of one effect's row keeps the whole invariant, dependencies and list order included |
| CoordinatorSafety.RecordReceiptKeeps | internal/app/external_effects.go:427-435 | recording a receipt, made or failing, keeps the invariant; the effect is then committed or reconciliation was asked for |
| CoordinatorSafety.EffectUnknownKeeps | internal/app/external_effects.go:555-559 | marking an outcome unknown, with both errors dropped, keeps the invariant and other effects |
| CoordinatorSafety.DefiniteFailureKeeps | internal/app/external_effects.go:560-564 | re-arming after a rejection keeps the invariant when nothing landed |
| CoordinatorSafety.MutateKeeps | internal/app/external_effects.go:405-409 | the provider call lands at most once, only where the resource was absent, and a rejection means that it did not |
| CoordinatorSafety.BeginAttemptKeeps | internal/ledger/external_effects.go:235-288 | an attempt is durable before the provider is called, and begins with nothing landed |
| CoordinatorSafety.QueryThenReleaseKeeps | internal/app/external_effects.go:394-424 | querying first and then releasing keeps the invariant, whatever is answered; success means a recorded receipt |
| CoordinatorSafety.CommitOneKeeps | internal/app/external_effects.go:385-536 | the release of one effect of any adapter keeps the invariant and touches no other effect |
| CoordinatorSafety.HeadIsFree | internal/app/external_effects.go:355-381 | the effect the loop is about to release has no dependency listed the wrong way round at either end |
| CoordinatorSafety.CommitFromKeeps | internal/app/external_effects.go:344-383 | the release loop keeps the invariant from any position; success means that everything from there on is committed |
| CoordinatorSafety.CommitEffectsKeeps | internal/app/external_effects.go:344-383 | the release of a list that succeeds leaves every effect committed and the status unchanged |
| CoordinatorSafety.AnsweredKeeps | internal/app/external_effects.go:603-637 | what a status answer is recorded as is exact in the tally and keeps the invariant |
| CoordinatorSafety.TallyStep | internal/app/external_effects.go:580-688 | one look-up extends an exact tally by one |
| CoordinatorSafety.ReconcileFromKeeps | internal/app/external_effects.go:576-688 | the reconciliation loop keeps the invariant; if it goes through, its flags say exactly whether all or any are committed and none is unresolved |
| CoordinatorSafety.NothingCommittedNothingAttempted | internal/app/service.go:581-598 | when nothing turned out committed, nothing is left attempted |
| CoordinatorSafety.PreflightIsSafe | internal/app/external_effects.go:271-333 | the preflight leaves the transaction ready or stale, and passes only if it is still ready under the same approval |
| CoordinatorSafety.CommitIsSafe | internal/app/service.go:464-526 | a commit, cut anywhere, keeps the invariant, undoes no mutation or receipt, and moves the status along the table |
| CoordinatorSafety.ResolveIsSafe | internal/app/service.go:558-598 | the choice that ends a recovery keeps the invariant in every branch |
| CoordinatorSafety.RecoverIsSafe | internal/app/service.go:528-600 | a recovery, cut anywhere, keeps the invariant and moves the status along the table |
| CoordinatorSafety.AbortIsSafe | internal/app/service.go:606-644 | an abort, cut anywhere, keeps the invariant and moves the status along the table |
| CoordinatorRuns.InsertKeepsOrder | internal/ledger/external_effects.go:105-107 | a prepared effect is listed in its place; the list stays strictly ordered and holds what it held and the new one |
| CoordinatorRuns.PrepareKeepsInv | internal/app/external_effects.go:43-206 | preparing an effect keeps the invariant |
| CoordinatorRuns.RefreshKeepsInv | internal/ledger/external_effects.go:137-181 | refreshing a draft pull request keeps the invariant |
| CoordinatorRuns.PerformKeepsInv | internal/app/service.go:340-644 | every call of the service keeps the invariant |
| CoordinatorRuns.RunKeepsInv | internal/app/service.go:340-644 | the invariant holds after every run, wherever crashes cut it |
| CoordinatorRuns.AtMostOnce | internal/app/external_effects.go:344-679 | in every run each effect is applied at most once, never where its resource was already, and never behind a status that denies an attempt |
| CoordinatorRuns.NothingReleasedOutsideCommit | internal/app/service.go:563-642 | outside committing, needs_reconciliation, committed and manual_intervention nothing has been applied |
| CoordinatorRuns.ReleaseOrder | internal/app/external_effects.go:349-381 | an attempted effect has all its dependencies recorded committed |
| CoordinatorRuns.RefFirst | internal/app/service.go:499-514 | nothing is attempted before the ref is recorded; the ref is then there unless removed from outside |
| CoordinatorRuns.CommittedIsComplete | internal/ledger/external_effects.go:479-516 | a committed transaction has its ref recorded and every effect at its provider with a receipt |
| CoordinatorRuns.ReleasedUnderPresentApproval | internal/ledger/repository.go:421-458 | what is released is released under an approval of exactly the present material |
| CoordinatorRuns.AbortNeverMeetsAnAttempt | internal/app/service.go:621-629 | in no state from which an abort may start is an effect attempted |
| CoordinatorRuns.AbsentRefExplained | internal/staging/git.go:359-364 | after an attempt the ref reads as absent only if it was removed or git failed |
| CoordinatorRuns.RunOnlyGrows | internal/app/service.go:340-644 | what a run has reached is kept by its continuation: effects, mutations, receipts, and statuses up to steps of the table |
| CoordinatorRuns.FinalForGood | internal/domain/state.go:25-37 | a final status never changes again |
| CoordinatorRuns.AbortedForGood | internal/app/service.go:606-644 | an aborted transaction stays so and has applied nothing before or after |
| CoordinatorRuns.AbortingIsLeftAlone | internal/app/service.go:464-620 | no call of the service leads out of aborting: a second abort, a recovery and a commit all refuse it |
| CoordinatorRuns.AbortingForGood | internal/app/service.go:617-642 | a transaction left in aborting stays there in every continuation |
| CoordinatorRuns.BackwardNeverReleased | internal/app/external_effects.go:362-366 | neither end of a dependency listed the wrong way round is ever attempted |
| CoordinatorRuns.BackwardNeverCommits | internal/app/external_effects.go:362-366 | a transaction with such a dependency is never committed |
| CoordinatorGates.CommitNeedsApproval | internal/app/service.go:469-492 | a commit begins only from ready, under the approval it names and with the source unmoved |
| CoordinatorGates.DoorsAreExact | internal/ledger/repository.go:264-458 | only a passed verification, an approval of a ready transaction and a commit naming it open the three doors to a release |
| CoordinatorGates.ReleaseNeedsApproval | internal/app/service.go:359-492 | every run that releases contains a passed verification, later an approval of a digest, later a commit naming that digest |
| CoordinatorGates.StatusFollowsTable | internal/domain/state.go:25-57 | the statuses of every run are connected by steps of the table |
| CoordinatorGates.VerificationSkipsAState | internal/ledger/repository.go:281-304 | recording a verification takes a step that is not in the table but stands for two that are |
| CoordinatorGates.ReconciliationRefusedExactly | internal/ledger/repository.go:467-473 | the move to needs_reconciliation is refused exactly outside committing and compensating |
| CoordinatorLiveness.ReconcileFromCalm | internal/app/external_effects.go:576-688 | with every call answered, reconciliation goes through and settles each unresolved effect by where it is |
| CoordinatorLiveness.ReconcileEffectsCalm | internal/app/external_effects.go:576-688 | its two flags then say exactly whether all or any effects had been released |
| CoordinatorLiveness.CommitOneCalm | internal/app/external_effects.go:385-536 | with every call answered, the release of a waiting effect succeeds and records it |
| CoordinatorLiveness.CommitFromCalm | internal/app/external_effects.go:344-383 | with every call answered, the release loop succeeds exactly if each dependency is committed or listed earlier |
| CoordinatorLiveness.CommitEffectsCalm | internal/app/external_effects.go:344-383 | the release of a list then succeeds exactly if the list is topological, and commits all of it |
| CoordinatorLiveness.OrderlyIsTopological | internal/app/external_effects.go:362-366 | the loop's own dependency check passes only on a topological list |
| CoordinatorLiveness.RecoverEnds | internal/app/service.go:528-600 | where a recovery ends with every call answered, for every state a crash can leave |
| CoordinatorLiveness.RecoverConverges | internal/app/service.go:528-600 | with the ref not removed and a topological list it ends in committed exactly if the ref exists and something was released or there is nothing to, else in ready or stale |
| CoordinatorLiveness.CommitEnds | internal/app/service.go:464-526 | with every call answered, an approved commit succeeds exactly if the list is topological |
| CoordinatorLiveness.EveryRunRecovers | internal/app/service.go:528-600 | after any run, one answered recovery ends the reconciliation |
| CoordinatorLiveness.FailedRevParseStrands | internal/staging/git.go:359-364 | one failing rev-parse in a recovery, from either status it can start in, ends in manual intervention exactly if something was released, else in ready or stale |
| CoordinatorReplies.ReleaseAnswered | internal/app/external_effects.go:385-536 | a release that is answered makes the provider call exactly where the resource was absent, and records a receipt either way; with the number of calls it takes |
| CoordinatorReplies.ReleaseInterrupted | internal/app/external_effects.go:385-564 | for each adapter, each of its calls and each reply: what becomes of the effect and of the status when that one call is answered badly |
| CoordinatorReplies.UnrecordedOutcome | internal/app/external_effects.go:555-564 | if the row of a failed effect cannot be written, reconciliation is asked for all the same |
| CoordinatorReplies.CommitFromReaches | internal/app/external_effects.go:344-383 | the release loop after the answered releases of any number of effects: where it stands and what it has sent |
| CoordinatorReplies.CommitFromStops | internal/app/external_effects.go:344-383 | one bad reply at any call of the loop: the effects before are committed, that one is as the reply leaves it, those after are untouched |
| CoordinatorReplies.LookUpInterrupted | internal/app/external_effects.go:584-679 | for each adapter, each call of a look-up and each reply: what becomes of the effect and of the status |
| CoordinatorReplies.ReconcileFromReaches | internal/app/external_effects.go:576-688 | the reconciliation loop after any number of answered look-ups: the effects before are settled |
| CoordinatorReplies.ReconcileFromStops | internal/app/external_effects.go:576-688 | one bad reply at any call of the loop: the unresolved effects before are settled, those after untouched, and only a branch in conflict goes to manual intervention |
| CoordinatorEndings.AbortEnds | internal/app/service.go:606-644 | an answered abort succeeds exactly from the statuses the table lets go to aborting; then the approval is gone and every effect aborted, otherwise nothing has changed |
| CoordinatorEndings.AbortMeets | internal/app/service.go:613-642 | an abort of which one call is answered badly: where it ends, for each of its six calls and each reply |
| CoordinatorEndings.CommitRefused | internal/app/service.go:469-492 | without a ready transaction, or without the approved digest, a commit changes nothing |
| CoordinatorEndings.MovedSourceMeansStale | internal/app/service.go:476-483 | a moved source makes the transaction stale and takes its approval away, with repository, list and effects unchanged |
| CoordinatorEndings.MovedSourceMeets | internal/app/service.go:480-483 | if that write is answered badly it was made or not, and the commit fails all the same |
| CoordinatorEndings.CommitUnreadAtFirst | internal/app/service.go:465-479 | one of the first three calls answered badly: the commit fails with nothing changed |
| CoordinatorEndings.CommitChecked | internal/app/external_effects.go:271-342 | one preflight check answered badly: a branch or pull request that changed makes the transaction stale without approval; after anything else, Slack included, it is ready and approved as before |
| CoordinatorEndings.CommitNotBegun | internal/app/service.go:491-493 | a badly answered BeginCommit changes nothing unless it was made, and then only the status |
| CoordinatorEndings.BegunUnread | internal/app/service.go:494-503 | the patch or the ref cannot be read: reconciliation is asked for and nothing else has changed |
| CoordinatorEndings.BegunMisreads | internal/staging/git.go:359-364 | a failing rev-parse in a commit is harmless if the ref is absent, and otherwise leads to reconciliation |
| CoordinatorEndings.BegunWithoutRef | internal/app/service.go:504-510 | the ref cannot be made, or is made unacknowledged: reconciliation is asked for, with the ref there exactly in the second case |
| CoordinatorEndings.BegunUnrecorded | internal/app/service.go:511-514 | the ref is made and its record is not acknowledged: reconciliation is asked for and nothing is released |
| CoordinatorEndings.BegunStopsAt | internal/app/service.go:515-520 | one bad reply at any call of the release: reconciliation is asked for, earlier effects are committed, that one is as the reply leaves it, later ones are untouched |
| CoordinatorEndings.BegunNotFinalized | internal/app/service.go:521-524 | the finalization answered badly: the commit fails though everything is released, committed exactly if the write was made |
| CoordinatorEndings.BegunCommits | internal/app/service.go:493-525 | answered as far as the finalization, the transaction is committed and every effect sent |
| CoordinatorEndings.BegunIsClosed | internal/app/service.go:493-525 | from BeginCommit on, one bad reply at whatever call ends in committed or under reconciliation, never in committing |
| CoordinatorEndings.CommitMeets | internal/app/service.go:464-526 | a commit with one bad reply at whatever call: exactly when it succeeds, when it ends committed, under reconciliation, or as it began, and that it leaves committing behind exactly if BeginCommit was made and not acknowledged |
| CoordinatorEndings.EarlyCallsEnd | internal/ledger/repository.go:226-356 | sealing, verifying and approving when answered: from which statuses they succeed and what they leave |
| CoordinatorEndings.PrepareEnds | internal/app/external_effects.go:43-206 | an answered preparation succeeds exactly by status, identity and dependencies, adds one waiting effect and drops the approval |
| CoordinatorEndings.RefreshEnds | internal/ledger/external_effects.go:137-181 | an answered refresh succeeds exactly for a listed draft pull request of an active or stale transaction |
| CoordinatorEndings.CleanRunCommits | internal/app/service.go:359-526 | after any run that left the transaction sealed or stale, verifying, approving and committing with every call answered ends committed exactly if the list is topological |
| RecoveryEndings.RecoverUnread | internal/app/service.go:530-557 | a bad reply before the ref is known ends a recovery with nothing changed but the status |
| RecoveryEndings.RecoverUnrecorded | internal/app/service.go:558-562 | the present ref cannot be recorded: the recovery fails with nothing looked up |
| RecoveryEndings.RecoverStopsAt | internal/app/service.go:563-566 | one bad reply at any call of a look-up: the recovery fails, earlier unresolved effects are settled, later ones are untouched |
| RecoveryEndings.OneBadStatusAnswer | internal/app/external_effects.go:584-679 | one bad answer to a status query: a branch in conflict ends in manual intervention with that effect as it was; any other leaves the effect unknown and the transaction under reconciliation |
| RecoveryEndings.RecoverNotFinalized | internal/app/service.go:567-572 | everything was released and the finalization is answered badly: where the recovery ends |
| RecoveryEndings.RecoverStopsReleasing | internal/app/service.go:573-580 | one bad reply at any call of the release of the rest: the effects before are committed, that one is as the reply leaves it, and reconciliation goes on |
| RecoveryEndings.RecoverNotHandedOver | internal/app/service.go:581-584 | something was released, the ref is gone and the move to manual intervention is answered badly |
| RecoveryEndings.RecoverNotRolledBack | internal/app/service.go:585-598 | nothing was released and the check of the source or the move back is answered badly; a move to ready keeps the approval, one to stale drops it |
| RecoveryEndings.LookUpsReleaseNothing | internal/app/external_effects.go:576-688 | reconciliation, whatever it is answered, does not change which effects are attempted and at their providers |
| RecoveryEndings.RecoverKeepsVerdict | internal/app/service.go:528-600 | a recovery with any replies that does not end the reconciliation changes nothing about where an answered one ends |
| RecoveryEndings.RetriesConverge | internal/app/service.go:528-600 | after any number of recoveries with any replies, an answered one ends where it would have ended before the first of them |
| EffectOrder.PrepareBuilds | internal/app/external_effects.go:60-82 | a preparation adds only dependencies on earlier preparations, none for branches, only branches for pull requests |
| EffectOrder.RunBuilds | internal/app/external_effects.go:43-206 | the graph of every run is built that way |
| EffectOrder.DependenciesAreAcyclic | internal/app/external_effects.go:60-180 | no chain of dependencies of any run returns to its start |
| EffectOrder.ListedOrderExactly | internal/ledger/external_effects.go:105-107 | the ledger's list is topological exactly if every Slack message that needs another has the greater identity |
| EffectOrder.AgeOrderIsTopological | internal/app/external_effects.go:82-204 | any list sorted by commit rank and then by creation is topological |
| EffectOrder.CommittedWasInOrder | internal/app/external_effects.go:344-383 | a committed transaction had a topological list |
| EffectOrder.OutOfOrderNeverCommits | internal/ledger/external_effects.go:105-107 | a concrete run of two Slack messages that no continuation commits or posts |
| StrandedRun.StrandedWithItsRef | internal/app/service.go:581-585 | a concrete run that ends in manual intervention for an absent ref while the ref is there |
| Service.Service.CommitExternalEffects | internal/app/external_effects.go:344-383 | the loop with its set of committed ids does what its function says |
| Service.Service.ReconcileExternalEffects | internal/app/external_effects.go:576-688 | the loop with its two flags does what its function says |
| Service.Service.PreflightExternalEffects | internal/app/external_effects.go:271-333 | the preflight loop does what its function says |
| Service.Service.CommitGitHubBranch | internal/app/external_effects.go:385-425 | the branch adapter's steps are those of the release of one effect |
| Service.Service.CommitGitHubPR | internal/app/external_effects.go:437-491 | the pull request adapter's steps are those of the release of one effect |
| Service.Service.CommitSlackMessage | internal/app/external_effects.go:493-536 | the Slack adapter's steps are those of the release of one effect |
| Service.Service.Commit | internal/app/service.go:464-526 | the commit with its early returns does what its function says |
| Service.Service.CommitBegun | internal/app/service.go:493-525 | so does its part after the beginning, where every failure asks for reconciliation |
| Service.Service.Recover | internal/app/service.go:528-600 | the recovery with its early returns does what its function says |
| Service.Service.Abort | internal/app/service.go:606-644 | the abort with its early returns does what its function says |
| Idempotency.DigestIdentifies | internal/api/idempotency.go:153-161 | method, path and digest are equal exactly for equal requests |
| Idempotency.DigestAloneConfuses | internal/api/idempotency.go:153-161 | two requests with the same hashed bytes but another path and body |
| Idempotency.CaptureIsExact | internal/api/idempotency.go:28-47 | the captured status is that of the first write; the body is at most 1 MiB |
| Idempotency.BodyIsWholeExactly | internal/api/idempotency.go:39-47 | the captured body is the whole answer exactly if that fits |
| Idempotency.CaptureWriter.WriteHeader | internal/api/idempotency.go:32-38 | only the first status counts |
| Idempotency.CaptureWriter.Write | internal/api/idempotency.go:39-47 | a chunk that does not fit is dropped whole and reported |
| Idempotency.Guard.Begin | internal/ledger/api_requests.go:50-75 | a reservation is made if the slot is free; otherwise its record is returned |
| Idempotency.Guard.Complete | internal/ledger/api_requests.go:77-90 | only an open reservation of the same digest is completed |
| Idempotency.Guard.Abort | internal/ledger/api_requests.go:92-95 | only an open reservation of the same digest is dropped |
| Idempotency.Guard.Handle | internal/api/idempotency.go:58-136 | the guard with its early returns does what its function says |
| Idempotency.UnguardedExactly | internal/api/idempotency.go:60-96 | what every request gets that does not reach the store: entered with its answer, or which refusal; the store is unchanged |
| Idempotency.AnswerExactly | internal/api/idempotency.go:28-56 | content type, status and body of the answer in terms of what the handler wrote |
| Idempotency.EnteredIsTold | internal/api/idempotency.go:119-134 | the caller of an entered visit gets its answer unless it was neither a server error nor persisted |
| Idempotency.NotEnteredIsTold | internal/api/idempotency.go:93-117 | the caller of a visit that does not enter is told of a conflict, a replay or one in progress by the stored method, path and digest |
| Idempotency.RecordsStayForGood | internal/api/idempotency.go:93-117 | a record that a visit finds is never changed again |
| Idempotency.EnteredExactly | internal/api/idempotency.go:93-134 | which visits enter the handler, and which of these leave the slot free |
| Idempotency.FreeSlotExactly | internal/api/idempotency.go:91-134 | which visits leave a free slot free, which keep an answer in it and which a reservation |
| Idempotency.EnteredAgainOnlyAfterFailure | internal/api/idempotency.go:119-134 | the handler is entered twice for a key only after a server error or a completion that was not persisted |
| Idempotency.SettledForGood | internal/api/idempotency.go:101-113 | once an answer is persisted, the same request gets it again and another one a conflict, without entering |
| Idempotency.BlockedForGood | internal/api/idempotency.go:91-116 | a reservation that is left open, by a begin that reported failure, a death in the handler or a failed drop, blocks its key for good |
| Idempotency.SlotsAreSeparate | internal/ledger/api_requests.go:56-63 | one principal and key is no other's business |
| DurableWrite.FaultMap.Set | internal/durablewrite/injector.go:23-34 | one operation's fault is set or cleared, the others stay |
| DurableWrite.OneShot.Before | internal/durablewrite/injector.go:56-64 | an entry is spent by being asked for |
| DurableWrite.ReplaceFileVia | internal/durablewrite/durablewrite.go:140-217 | dest holds the whole payload exactly if the call succeeded or failed at the directory sync; no other file changes and no temporary one is left; the boundary reported is the first that fails; exactly the boundaries consulted are spent |
| DurableWrite.Produce | internal/durablewrite/durablewrite.go:162-193 | the write and its spoiling fault, consulted before the write |
| DurableWrite.Publish | internal/durablewrite/durablewrite.go:194-216 | sync, rename and directory sync in order |
| DurableWrite.VerdictIsFirst | internal/durablewrite/durablewrite.go:140-217 | the boundary at which a call gives up is the first that fails |
| DurableWrite.SucceedsExactly | internal/durablewrite/durablewrite.go:140-217 | a call succeeds exactly if every system call does and no boundary is mapped to an error |
| DurableWrite.FailsExactly | internal/durablewrite/durablewrite.go:140-217 | which system calls and injected faults each boundary answers for |
| DurableWrite.LeftMappedExactly | internal/durablewrite/durablewrite.go:162-193 | what a call leaves in a one-shot injector: the entries after the boundary it failed at, but not the short write of a write that failed by itself |
| DurableWrite.AttemptSpendsOne | internal/durablewrite/injector.go:45-64 | a failing call spends exactly the fault it fails with |
| DurableWrite.RetriesExactly | internal/durablewrite/injector.go:45-64 | retrying succeeds after exactly as many failures as operations are mapped to an error |
| DurableWriters.DoKeepsInv | internal/durablewrite/durablewrite.go:140-217 | every step of every writer keeps the invariant of the shared directory |
| DurableWriters.NeverAPrefix | internal/durablewrite/durablewrite.go:105-122 | at every point and after every crash the destination holds the old content or one whole payload |
| DurableWriters.UndisturbedCall | internal/durablewrite/durablewrite.go:140-217 | a call that no other writer disturbs ends with its verdict and leaves in the destination what ReplaceFileVia promises for it |
| DurableWriters.FailedBeforeRename | internal/durablewrite/durablewrite.go:117-122 | a call that failed before its rename has put nothing in place |
| DurableWriters.EndedMeansRenamed | internal/durablewrite/durablewrite.go:205-216 | one that returned no error, or failed at the directory sync, did rename |
| DurableWriters.SuccessIsDurable | internal/durablewrite/durablewrite.go:208-216 | after a success no crash brings back what was in place before that call's rename |
| Drain.Manager.BeginMutation | internal/drain/drain.go:28-52 | a token is handed out exactly while no drain has begun; the manager takes the step of the interleavings |
| Drain.Manager.Release | internal/drain/drain.go:41-51 | a release counts once; the last one closes the channel, which was open; the manager takes the step of the interleavings |
| Drain.Manager.Start | internal/drain/drain.go:54-67 | only the first start records reason and time |
| Drain.ChannelIsExact | internal/drain/drain.go:26-89 | in every interleaving active is the number of unreleased tokens, the channel is closed exactly at zero, and none is closed twice |
| Drain.WaitMeansDrained | internal/drain/drain.go:76-89 | a wait that began after the start and returned means that nothing is active then and ever after |
| Drain.WaitIsSafeExactly | internal/drain/drain.go:28-89 | whatever follows, a wait that returned means that nothing is active, exactly if the drain had started when it began |
| Drain.Manager.BeginWait | internal/drain/drain.go:80-82 | a wait reads the channel of the moment |
| Drain.Manager.EndWait | internal/drain/drain.go:83-88 | it ends without error only on a closed channel, and always without one if not cancelled |
| Drain.EarlyWaitPromisesNothing | internal/drain/drain.go:76-89 | the shortest run in which a wait that began before the start returns with a mutation active |
| HashChain.Verify | tools/futurediff_promotion.py:446-487 | the pass reports no error exactly on a ledger that is chained from the zero hash and whose head fits; and each error exactly if some entry has that fault, given the hash expected so far |
| HashChain.AppendExtends | tools/futurediff_promotion.py:417-443 | a successful append adds exactly its record, its head is the hash of the new entry, its version 1.0, and its result verifies |
| HashChain.AppendFailsExactly | tools/futurediff_promotion.py:417-431 | an append fails exactly on an unsupported version, a broken chain, or a record that is not well-formed or already there |
| HashChain.AppendMendsHeadExactly | tools/futurediff_promotion.py:417-443 | an append succeeds on a ledger that does not verify exactly if nothing is wrong but its head; the result verifies |
| HashChain.AppendIgnoresHead | tools/futurediff_promotion.py:421-423 | the head that came with the ledger makes no difference |
| HashChain.BuiltIsSound | tools/futurediff_promotion.py:417-443 | ledgers built by appends verify and have distinct record digests |
| HashChain.BuiltExactly | tools/futurediff_promotion.py:417-487 | entries can be built by appends exactly if they are a chain, repeat no digest and write their times as an append does |
| HashChain.EntryHashCommits | tools/futurediff_promotion.py:463-469 | equal entry hashes mean equal positions and equal histories before them |
| HashChain.HeadCommits | tools/futurediff_promotion.py:446-487 | two verified ledgers with the same head hold the same history |
| HashChain.LongerHistoryNewHead | tools/futurediff_promotion.py:432-443 | an append changes the head |
| HashChain.DuplicateVerifies | tools/futurediff_promotion.py:446-487 | verification alone does not exclude a repeated payload |
| EvidenceContainer.Seal | internal/evidencecrypto/evidencecrypto.go:110-133 | the bytes appended are the layout; a key id of 65536 bytes or more is refused |
| EvidenceContainer.Open | internal/evidencecrypto/evidencecrypto.go:135-160 | opening succeeds exactly on containers under the cipher's key id that the cipher opens, and never reads past the end |
| EvidenceContainer.ArtifactKeyId | internal/evidencecrypto/evidencecrypto.go:235-245 | the key id is read without reading past the end |
| EvidenceContainer.ContainerExactly | internal/evidencecrypto/evidencecrypto.go:123-160 | the container byte by byte: magic, length and text of the key id, length and text of the nonce, payload |
| EvidenceContainer.NamedKeyExactly | internal/evidencecrypto/evidencecrypto.go:235-245 | it is the id of exactly the bytes that begin with a head of a non-empty id and go on |
| EvidenceContainer.LayoutIsInjective | internal/evidencecrypto/evidencecrypto.go:123-132 | the layout can be read back in one way only |
| EvidenceContainer.RoundTrip | internal/evidencecrypto/evidencecrypto.go:110-160 | what was sealed opens to the same text, for every key id that fits |
| EvidenceContainer.OneKeyOnly | internal/evidencecrypto/evidencecrypto.go:147-149 | a container opens under one key id only |
| EvidenceContainer.ParsersAgreeExactly | internal/evidencecrypto/evidencecrypto.go:235-245 | on what opens the two parsers agree exactly if the key id is not empty |
| EvidenceKeyring.Validate | internal/evidencecrypto/keyring.go:181-200 | the loop accepts exactly the rings with usable, distinct references and an enabled active key |
| EvidenceKeyring.RingIsSorted | internal/evidencecrypto/keyring.go:110 | the written ring is in order of its ids and holds the same references |
| EvidenceKeyring.LoadKeyring | internal/evidencecrypto/keyring.go:61-104 | loading succeeds exactly on a valid ring all of whose enabled keys load, and yields exactly those |
| EvidenceKeyring.LoadableExactly | internal/evidencecrypto/keyring.go:61-200 | when a keyring loads, in terms of the file and the key files themselves |
| EvidenceKeyring.KeyStore.Rotate | internal/evidencecrypto/keyring.go:149-179 | the whole new state of ring and key files, also when the rotation is refused after the key file was written |
| EvidenceKeyring.RotatedExactly | internal/evidencecrypto/keyring.go:149-179 | a rotation takes effect exactly to a new id under a path, neither blank; a refused one has replaced the file at its path and nothing else |
| EvidenceKeyring.RotationsTrack | internal/evidencecrypto/keyring.go:149-179 | after any number of rotations the ring holds exactly the keys ever made, enabled as long as none after them disabled the old ones |
| EvidenceKeyring.ReadableExactly | internal/evidencecrypto/keyring.go:45-59 | an artifact of an earlier key reads back exactly if no later rotation disabled the old keys |
| EvidenceKeyring.NewestWrites | internal/evidencecrypto/keyring.go:39-44 | the ring always loads, and writes with the newest key |
| Futurepack.DigestPathIsSafe | internal/futurepack/store.go:204-217 | the path of a digest passes the reference check and is not the manifest's |
| Futurepack.Store.PutBytes | internal/futurepack/store.go:59-108 | what a put leaves in the store, when it succeeds, and the whole reference it returns |
| Futurepack.PutKeepsAddressedExactly | internal/futurepack/store.go:71-99 | a put keeps every blob under its own digest unless the process dies in it and leaves another digest behind |
| Futurepack.PutSucceedsExactly | internal/futurepack/store.go:71-99 | if no crash has cut a put short, a put succeeds exactly if its own file operations do, whether or not the blob is there |
| Futurepack.PutAgain | internal/futurepack/store.go:88-107 | a payload that was put can be put again after anything: it succeeds exactly if the file can be read, and changes nothing |
| Futurepack.NameIsClean | internal/futurepack/store.go:233-244 | the name a reference carries: never empty, without separators and spaces, and otherwise the given name without the white space at its ends |
| Futurepack.SafeNameExactly | internal/futurepack/store.go:208-211 | a name is safe exactly if no component of it is empty, a dot or two dots, but for the two names of only dots |
| Futurepack.StoreStaysAddressed | internal/futurepack/store.go:59-108 | any sequence of puts without a crash keeps every blob under its own digest |
| Futurepack.BlobsStay | internal/futurepack/store.go:71-99 | what is at a path stays there as it is |
| Futurepack.CutBlobBlocks | internal/futurepack/store.go:88-96 | a blob cut by a crash makes every later put of its payload fail |
| Futurepack.PutThenRead | internal/futurepack/store.go:118-132 | what was put reads back through its reference, however many puts follow |
| FuturepackArchive.VerifyArchive | internal/futurepack/store.go:247-320 | the loops return a manifest exactly for the archives that are accepted |
| FuturepackArchive.ReadEntries | internal/futurepack/store.go:256-289 | the pass over the entries collects exactly the archive's content, or the archive is not acceptable |
| FuturepackArchive.CheckRefs | internal/futurepack/store.go:293-313 | the pass over the references accepts exactly distinct, valid, backed ones |
| FuturepackArchive.OneManifest | internal/futurepack/store.go:281-284 | an archive is accepted with one manifest only |
| FuturepackArchive.AcceptedIsExact | internal/futurepack/store.go:293-318 | an accepted archive holds its manifest, one matching blob for each reference, and nothing else |
| FuturepackArchive.AcceptedExactly | internal/futurepack/store.go:247-320 | what is accepted, in full: of the entries, the references and the manifest |
| FuturepackExport.Export | internal/futurepack/store.go:134-202 | the loops write the manifest and the blobs of all references in order of their paths, or fail |
| FuturepackExport.ExportSucceedsExactly | internal/futurepack/store.go:134-202 | an export succeeds exactly if version and transaction are not blank and the store has every blob under its digest |
| FuturepackExport.ArrangedIsSorted | internal/futurepack/store.go:142-144 | the written manifest holds the same references, in order of their paths |
| FuturepackExport.ExportVerifiesExactly | internal/futurepack/store.go:134-320 | what was exported is accepted exactly if digests are distinct, sizes right and entries within 64 MiB |
| FuturepackExport.StoredRefsRoundTrip | internal/futurepack/store.go:59-320 | references to stored blobs, distinct and not too large, survive export and verification |
| DaemonLock.DoKeepsInv | internal/daemonlock/lock_unix.go:187-319 | every system call of every process keeps the invariant of locks and path |
| DaemonLock.UnlinkOnlyWhatIsHeld | internal/daemonlock/lock_unix.go:303-317 | in every interleaving an unlink removes only the inode its own process has locked, never one another daemon holds |
| DaemonLock.OneHolderPerInode | internal/daemonlock/lock_unix.go:205-213 | at most one process holds whatever the path names |
| DaemonLock.OneDaemon | internal/daemonlock/lock_unix.go:187-253 | in runs without clean-up at most one process holds the lock |
| DaemonLock.DyingFrees | internal/daemonlock/lock_unix.go:205-213 | in every interleaving a process that dies gives up what it held, and nothing else changes hands |
| DaemonLock.Host.Acquire | internal/daemonlock/lock_unix.go:187-253 | undisturbed, it succeeds exactly if nobody holds the file and the writes succeed |
| DaemonLock.Host.RemoveIfUnheld | internal/daemonlock/lock_unix.go:282-319 | undisturbed, it removes the file exactly if nobody holds it, and keeps no lock |
| Authorization.CompileList | internal/authorization/policy.go:122-140 | one role's set is exactly what its list grants; the list is refused exactly on an unknown or repeated operation |
| Authorization.CompileRoles | internal/authorization/policy.go:106-143 | the role tables hold every role under its trimmed name, or the roles are refused |
| Authorization.CompileBindings | internal/authorization/policy.go:144-164 | the binding table holds every binding, sorted, or the bindings are refused |
| Authorization.Compile | internal/authorization/policy.go:88-181 | exactly the acceptable policies compile, to tables that hold them |
| Authorization.AcceptableExactly | internal/authorization/policy.go:88-181 | which policies are acceptable, in terms of their texts |
| Authorization.AllowedExactly | internal/authorization/policy.go:88-218 | who may do what, in terms of bindings, roles and listed operations |
| Authorization.Decide | internal/authorization/policy.go:190-218 | the decision, its reason in each case, and its scope, in terms of the tables |
| Authorization.TablesMeanPolicy | internal/authorization/policy.go:88-218 | the tables of an accepted policy grant exactly what the policy says, and on all resources exactly if a granting role is for all |
| Authorization.AgentsStaySafe | internal/authorization/policy.go:165-178 | a user with agent roles only may do only what is safe for agents, on its own resources |
| AuthorizationGuard.Verify | internal/capability/capability.go:79-125 | a capability is valid exactly if its scope, times, key and signature are |
| AuthorizationGuard.GenuineExactly | internal/capability/capability.go:98-122 | the key that decides is the first of its id in the ring; it must be enabled, the approver's, and confirm the signature |
| AuthorizationGuard.Sign | internal/capability/capability.go:48-77 | signing succeeds exactly for an operation, a lifetime of at most 15 minutes and a matching key; the token it makes |
| AuthorizationGuard.SignedIsValidExactly | internal/capability/capability.go:48-125 | a signed capability is valid exactly for its user, operation and resource, from two minutes before its issue to its expiry, both in whole seconds |
| AuthorizationGuard.AccessIsExact | internal/api/authorization.go:29-38 | who has access to a transaction for an operation: its owner; else, unless the operation decides about it, who was granted operating, or reading for a read |
| AuthorizationGuard.Guard.Consume | internal/ledger/authorization.go:183-198 | a capability is consumed once |
| AuthorizationGuard.Guard.Handle | internal/api/authorization.go:40-120 | the guard with its early returns does what its function says |
| AuthorizationGuard.CapabilityWorksOnce | internal/api/authorization.go:84-104 | over any run a capability lets at most one request through |
| AuthorizationGuard.CapabilityFits | internal/capability/capability.go:86-97 | it lets through only its own user, operation and resource, within 15 minutes of its issue and before it expires, under an attested signature, and only what is not safe for agents |
| AuthorizationGuard.RoleSparesCapability | internal/api/authorization.go:69-83 | a request that passes by role leaves its capability unused |
| AuthorizationGuard.JudgedExactly | internal/api/authorization.go:40-120 | under an accepted policy, for every request: it passes by role exactly if the written policy allows it and it reaches the resource, by capability exactly if none does and the capability is good, unused and recorded; and which refusal it gets otherwise |
| AuthorizationGuard.ConsumedExactly | internal/api/authorization.go:81-104 | a capability is used up exactly if it is looked at, is good, and the ledger makes the write, acknowledged or not |
| BackupRetention.SortedCatalog | internal/backupcatalog/catalog.go:210-215 | the catalog is ordered newest first and holds the same records |
| BackupRetention.PositionCounts | internal/backupcatalog/catalog.go:210-220 | a record's position is the number of newer ones |
| BackupRetention.CutoffIsOldEnoughExactly | internal/backupcatalog/catalog.go:216 | the cutoff lies as far back as asked exactly up to 2562047 hours |
| BackupRetention.Evaluate | internal/backupcatalog/catalog.go:185-239 | the candidates are exactly the sound records that are old enough and have as many newer ones as are to be kept; the bytes are their sum |
| BackupRetention.NewestAreKept | internal/backupcatalog/catalog.go:217-220 | none of the newest records to keep is selected |
| BackupRetention.YoungAreKept | internal/backupcatalog/catalog.go:216-220 | nor one that is too young, if the age fits a duration |
| BackupRetention.LongAgesFail | internal/backupcatalog/catalog.go:216-220 | beyond that there is a catalog, dated no later than now, from which a record that is too young is selected |
| BackupRetention.Catalog.Apply | internal/backupcatalog/catalog.go:241-274 | it succeeds exactly if the guards hold and every candidate goes through when it is reached; the candidates counted are gone with files and records; at the one it fails at, file and record are lost exactly as far as it got; nothing else changes |
| BackupRetention.Catalog.DeleteRecord | internal/ledger/lifecycle.go:114-123 | a record goes only with the digest it was planned with |
| BackupRetention.EnoughRemain | internal/backupcatalog/catalog.go:217-274 | however far the application of a plan gets, as many records remain as there are to keep |
| BackupRetention.KeptRecordsStay | internal/backupcatalog/catalog.go:255-273 | however far it gets, a record not selected stays, and so does its file unless a candidate has the same path |
| BackupRetention.KeptIsSoundExactly | internal/backupcatalog/catalog.go:255-273 | after a complete application a sound kept record is still sound exactly if no candidate has its path |
| BackupRetention.SharedFileIsLost | internal/ledger/migrations/0008_ledger_hardening.sql:8-14 | a sound catalog of two records for one file of which every plan takes the older, and with it the file of the newer |

## Left out

- The ledger's SQLite, the staging of git worktrees, the provider adapters, the verification engine and the OCI runtime: each of their calls is one step with a small contract; a contract's failure is a reply.
- Leases and fencing tokens: one coordinator works on a transaction; a lost lease is a refused call. Concurrent coordinators are not modelled.
- Decoding of stored documents, unsupported adapters, and effects in statuses that nothing in the program writes (superseded, compensating): their error returns cannot be reached from prepared effects.
- The view of the transaction that a call returns at its end: a further read, whose failure changes nothing.
- Conflicts between a stored receipt or ref record and a new one: receipts and refs have no identity of their own here.
- Status answers that say committed without a receipt: they are excluded by the assumption on status queries.
- Quotas, credentials' configuration and request fields of the Prepare calls: a preparation is one guarded write with the guards that concern status and dependencies.
- Removal of the ref, a move of the source branch and a resource that appears at a provider by other hands happen between service calls, not within one; the resource appears only where there was none.
- Signed approvals, quorums and the expiry of an approval: an approval is a digest, and the present digest is counted by the changes that invalidate it.
- Aborting and the local ref: a recovery may return a transaction to ready with its ref present, so no claim is made that an abort removes it.
- Idempotency: the trimming of the key header, the access log, a server without a ledger and the garbage collection of records. The hash is represented by its input.
- DurableWrite: the codes and classes of errors, and permission bits. A temporary name is not used twice.
- DurableWriters: a directory whose own creation is not durable; a failing rename leaves the old entry.
- HashChain: the hash and the canonical encoding are functions of which only freedom from collisions is used; a payload stands for its canonical encoding, numbers that compare equal are one number, and values of other kinds are not distinguished from missing ones.
- EvidenceContainer: the cipher is a pair of functions; nothing is claimed about secrecy.
- EvidenceKeyring: file modes, base64 and JSON of key files, relative paths, and white space outside ASCII. Key files are written whole.
- Futurepack: compression and the zip container, whose entries are read back as they were written; cleaning of a path is represented by the names it leaves unchanged. Texts of a manifest are valid UTF-8.
- DaemonLock: the metadata in the file, symbolic links, and mutual exclusion in runs with a clean-up, which Acquire does not check for after it has the lock.
- Authorization: files of policies and the digest of a policy; names are trimmed of ASCII white space.
- AuthorizationGuard: the signature is a function of key and token; a server without an authorizer or without a capability keyring, the matching of paths and the audit log are not modelled.
- BackupRetention: the inspection of a file is one property of it; sums of sizes are not bounded to 64 bits; applying a plan assumes that nothing else deletes records meanwhile.
- The command line programs, sockets and the other middleware, and the other Python tools.
