/**
 * What each coordinator call does to the world, as a function of the world and of the script of
 * replies it meets.
 */
module Coordinator {
  import opened Wrappers
  import opened CommitWorld
  import S = TransactionStates

  // ---- One effect ----

  /** The errors of both writes are dropped. */
  function EffectUnknown(w: World, id: EffectId): Out {
    Out(MarkNeedsReconciliation(MarkEffectUnknown(w, id).w).w, false)
  }

  function EffectDefiniteFailure(w: World, id: EffectId): Out {
    Out(MarkNeedsReconciliation(MarkEffectDefiniteFailure(w, id).w).w, false)
  }

  function RecordReceipt(w: World, id: EffectId): Out {
    var r := RecordEffectCommitted(w, id);
    if r.ok then r else Out(MarkNeedsReconciliation(r.w).w, false)
  }

  /** The provider call itself, and what its answer is recorded as. */
  function Release(w: World, id: EffectId): Out {
    var w1 := Mutate(w, id);
    match MutationReply(w)
    case GotReceipt => RecordReceipt(w1, id)
    case Ambiguous => EffectUnknown(w1, id)
    case Rejected => EffectDefiniteFailure(w1, id)
  }

  /** A status query first: an effect that is already at the provider is only recorded. */
  function QueryThenRelease(w: World, s: Spec): Out {
    match QueryStatus(w, s)
    case NoAnswer => EffectUnknown(Tick(w), s.id)
    case Found => RecordReceipt(Tick(w), s.id)
    case Conflict => EffectDefiniteFailure(Tick(w), s.id)
    case NotFound => Release(Tick(w), s.id)
  }

  /** A draft pull request is checked against its base and head first. */
  function CheckThenRelease(w: World, s: Spec): Out {
    match VerifyFresh(w)
    case StaleResource => EffectDefiniteFailure(Tick(w), s.id)
    case FreshError => EffectUnknown(Tick(w), s.id)
    case Fresh => QueryThenRelease(Tick(w), s)
  }

  /** What follows a recorded attempt; a destination that cannot be read ends the call there. */
  function AfterBegin(w: World, s: Spec): Out {
    match s.adapter
    case GitHubBranch => QueryThenRelease(w, s)
    case GitHubDraftPR => if Read(w).ok then CheckThenRelease(Tick(w), s) else Out(Tick(w), false)
    case SlackMessage => if Read(w).ok then QueryThenRelease(Tick(w), s) else Out(Tick(w), false)
  }

  function CommitOne(w: World, s: Spec): Out {
    var begun := BeginCommitAttempt(w, s.id);
    if begun.ok then AfterBegin(begun.w, s) else begun
  }

  // ---- The list of effects ----

  /** A row of the list as it was when it was read. */
  datatype Row = Row(spec: Spec, status: EffectStatus)

  function Rows(list: seq<Spec>, fx: Effects): seq<Row> {
    seq(|list|, i requires 0 <= i < |list| => Row(list[i], Get(fx, list[i].id).status))
  }

  function CommittedIds(rows: seq<Row>): set<EffectId> {
    set i | 0 <= i < |rows| && rows[i].status.Committed? :: rows[i].spec.id
  }

  function CommitFrom(w: World, rows: seq<Row>, i: nat, committed: set<EffectId>): Out
    requires i <= |rows|
    decreases |rows| - i
  {
    if i == |rows| then Out(w, true)
    else if rows[i].status.Committed? then CommitFrom(w, rows, i + 1, committed)
    else if !(rows[i].status.Verified? || rows[i].status.Prepared?) then Out(w, false)
    else if !(rows[i].spec.dependsOn <= committed) then Out(w, false)
    else
      var r := CommitOne(w, rows[i].spec);
      if !r.ok then r else CommitFrom(r.w, rows, i + 1, committed + {rows[i].spec.id})
  }

  function CommitExternalEffects(w: World): Out {
    var listed := Read(w);
    if !listed.ok then listed else
    var rows := Rows(listed.w.list, listed.w.fx);
    CommitFrom(listed.w, rows, 0, CommittedIds(rows))
  }

  /** What reconciliation reports: it went through, all effects are committed, some effect is. */
  datatype Tally = Tally(ok: bool, all: bool, any: bool)

  datatype Tallied = Tallied(w: World, t: Tally)

  /** What a status query is recorded as. */
  function Answered(w: World, s: Spec, t: Tally): Tallied {
    var w1 := Tick(w);
    match QueryStatus(w, s)
    case NoAnswer => Tallied(MarkEffectUnknown(w1, s.id).w, t.(ok := false))
    case NotFound =>
      var rearmed := RearmEffect(w1, s.id);
      Tallied(rearmed.w, t.(ok := rearmed.ok, all := false))
    case Conflict =>
      Tallied(Transition(w1, S.NeedsReconciliation, S.ManualIntervention, false).w, t.(ok := false))
    case Found =>
      var recorded := RecordReceipt(w1, s.id);
      Tallied(recorded.w, t.(ok := recorded.ok, any := t.any || recorded.ok))
  }

  function ReconcileOne(w: World, s: Spec, t: Tally): Tallied {
    var begun := BeginStatusAttempt(w, s.id);
    if !begun.ok then Tallied(begun.w, t.(ok := false))
    else if s.adapter.SlackMessage? && !Read(begun.w).ok then Tallied(Tick(begun.w), t.(ok := false))
    else Answered(if s.adapter.SlackMessage? then Tick(begun.w) else begun.w, s, t)
  }

  function ReconcileFrom(w: World, rows: seq<Row>, i: nat, t: Tally): Tallied
    requires i <= |rows|
    decreases |rows| - i
  {
    if i == |rows| then Tallied(w, t)
    else if rows[i].status.Committed? then ReconcileFrom(w, rows, i + 1, t.(any := true))
    else if rows[i].status.Verified? || rows[i].status.Prepared? then
      ReconcileFrom(w, rows, i + 1, t.(all := false))
    else if rows[i].status.Unknown? || rows[i].status.Committing? then
      var r := ReconcileOne(w, rows[i].spec, t);
      if r.t.ok then ReconcileFrom(r.w, rows, i + 1, r.t) else r
    else Tallied(w, t.(ok := false))
  }

  function ReconcileExternalEffects(w: World): Tallied {
    var listed := Read(w);
    if !listed.ok then Tallied(listed.w, Tally(false, false, false))
    else ReconcileFrom(listed.w, Rows(listed.w.list, listed.w.fx), 0, Tally(true, true, false))
  }

  /** One preflight check: it passes, or it fails and may find the transaction stale. */
  function PreflightOne(w: World, s: Spec): Out {
    var destination := if s.adapter.GitHubBranch? then Out(w, true) else Read(w);
    if !destination.ok then destination else
    var w1 := Tick(destination.w);
    match VerifyFresh(destination.w)
    case Fresh => Out(w1, true)
    case FreshError => Out(w1, false)
    case StaleResource =>
      Out(if s.adapter.SlackMessage? then w1 else Transition(w1, S.Ready, S.Stale, true).w, false)
  }

  function PreflightFrom(w: World, rows: seq<Row>, i: nat): Out
    requires i <= |rows|
    decreases |rows| - i
  {
    if i == |rows| then Out(w, true)
    else if rows[i].status.Committed? then PreflightFrom(w, rows, i + 1)
    else
      var r := PreflightOne(w, rows[i].spec);
      if !r.ok then r else PreflightFrom(r.w, rows, i + 1)
  }

  function PreflightExternalEffects(w: World): Out {
    var listed := Read(w);
    if !listed.ok then listed else PreflightFrom(listed.w, Rows(listed.w.list, listed.w.fx), 0)
  }

  // ---- The calls of the service ----

  function GiveUp(w: World): Out {
    Out(MarkNeedsReconciliation(w).w, false)
  }

  /** A commit once its ref is recorded. */
  function ReleaseAndFinalize(w: World): Out {
    var released := CommitExternalEffects(w);
    if !released.ok then
      var current := Read(released.w);
      if current.ok && current.w.tx.Committing? then GiveUp(current.w) else Out(current.w, false)
    else
      var done := FinalizeTransactionCommit(released.w);
      if done.ok then done else GiveUp(done.w)
  }

  /** A commit once its ref is there, or could not be made. */
  function RefMade(made: Out): Out {
    if !made.ok then GiveUp(made.w) else
    var recorded := RecordMaterializedRef(made.w);
    if recorded.ok then ReleaseAndFinalize(recorded.w) else GiveUp(recorded.w)
  }

  /** The part of a commit that follows BeginCommit. */
  function CommitBegun(w: World): Out {
    var patch := Read(w);
    if !patch.ok then GiveUp(patch.w) else
    match InspectRef(patch.w)
    case RefError => GiveUp(Tick(patch.w))
    case RefPresent => RefMade(Out(Tick(patch.w), true))
    case RefAbsent => RefMade(Materialize(Tick(patch.w)))
  }

  /** The part of a commit that follows the check of the source branch. */
  function CommitPinned(w: World, digest: nat): Out {
    var passed := PreflightExternalEffects(w);
    if !passed.ok then passed else
    var lease := Read(passed.w);
    if !lease.ok then lease else
    var begun := BeginCommit(lease.w, digest);
    if !begun.ok then begun else CommitBegun(begun.w)
  }

  function Commit(w: World, digest: nat): Out {
    var got := Read(w);
    if !got.ok || !got.w.tx.Ready? then Out(got.w, false) else
    var workspace := Read(got.w);
    if !workspace.ok then workspace else
    match SourcePinned(workspace.w)
    case PinError => Out(Tick(workspace.w), false)
    case HasMoved => Out(Transition(Tick(workspace.w), S.Ready, S.Stale, true).w, false)
    case IsPinned => CommitPinned(Tick(workspace.w), digest)
  }

  /** The end of a recovery in which nothing turned out to be committed. */
  function RollBack(w: World): Out {
    match SourcePinned(w)
    case PinError => Out(Tick(w), false)
    case IsPinned => Transition(Tick(w), S.NeedsReconciliation, S.Ready, false)
    case HasMoved => Transition(Tick(w), S.NeedsReconciliation, S.Stale, true)
  }

  /** The choice a recovery makes once every unresolved effect has been looked up. */
  function Resolve(w: World, present: bool, all: bool, any: bool): Out {
    if present && all then FinalizeTransactionCommit(w)
    else if present && any && !all then
      var released := CommitExternalEffects(w);
      if !released.ok then released else FinalizeTransactionCommit(released.w)
    else if any && !present then
      Out(Transition(w, S.NeedsReconciliation, S.ManualIntervention, false).w, false)
    else RollBack(w)
  }

  /** A recovery once the ref has been looked up. */
  function ReconcileAndResolve(w: World, present: bool): Out {
    var recorded := if present then RecordMaterializedRef(w) else Out(w, true);
    if !recorded.ok then recorded else
    var r := ReconcileExternalEffects(recorded.w);
    if !r.t.ok then Out(r.w, false) else Resolve(r.w, present, r.t.all, r.t.any)
  }

  /** The part of a recovery that follows the move to needs_reconciliation. */
  function Reconcile(w: World): Out {
    var lease := Read(w);
    if !lease.ok then lease else
    var workspace := Read(lease.w);
    if !workspace.ok then workspace else
    var patch := Read(workspace.w);
    if !patch.ok then patch else
    var answer := InspectRef(patch.w);
    if answer.RefError? then Out(Tick(patch.w), false)
    else ReconcileAndResolve(Tick(patch.w), answer.RefPresent?)
  }

  function Recover(w: World): Out {
    var got := Read(w);
    if !got.ok || !InCommit(got.w) then Out(got.w, false)
    else if got.w.tx.Committing? then
      var marked := MarkNeedsReconciliation(got.w);
      if !marked.ok then marked else Reconcile(marked.w)
    else Reconcile(got.w)
  }

  predicate Abortable(s: S.State) {
    s.Created? || s.Active? || s.Sealed? || s.FailedVerification? || s.Ready? || s.Stale?
  }

  predicate SomeAttempted(fx: Effects) {
    exists id :: id in fx && fx[id].Attempted()
  }

  function Abort(w: World): Out {
    var got := Read(w);
    if !got.ok || !Abortable(got.w.tx) then Out(got.w, false) else
    var listed := Read(got.w);
    if !listed.ok || SomeAttempted(listed.w.fx) then Out(listed.w, false) else
    var aborting := Transition(listed.w, listed.w.tx, S.Aborting, true);
    if !aborting.ok then aborting else
    var dropped := AbortPreparedEffects(aborting.w);
    if !dropped.ok then dropped else Transition(Read(dropped.w).w, S.Aborting, S.Aborted, true)
  }

  // ---- The calls that lead up to a commit ----

  /** A change of what is to be approved drops the approval. */
  function Changed(a: Approval): Approval {
    Approval(a.epoch + 1, None)
  }

  /** The dependencies a prepared effect may name: effects of this transaction, and for a PR one branch. */
  predicate DependenciesAllowed(w: World, adapter: Adapter, dependsOn: set<EffectId>) {
    && dependsOn <= w.fx.Keys
    && (adapter.GitHubBranch? ==> dependsOn == {})
    && (adapter.GitHubDraftPR? ==>
          |dependsOn| <= 1 && forall s :: s in w.list && s.id in dependsOn ==> s.adapter.GitHubBranch?)
  }

  function Prepare(w: World, id: EffectId, adapter: Adapter, dependsOn: set<EffectId>): Out {
    Write(w,
          && (w.tx.Sealed? || (w.tx.Active? && !adapter.GitHubBranch?))
          && id !in w.fx
          && DependenciesAllowed(w, adapter, dependsOn),
          w.(list := Insert(w.list, Spec(id, adapter, dependsOn, |w.list|)),
             fx := w.fx[id := Effect(Verified, false, 0, false)],
             approval := Changed(w.approval)))
  }

  predicate IsDraftPR(list: seq<Spec>, id: EffectId) {
    exists s :: s in list && s.id == id && s.adapter.GitHubDraftPR?
  }

  /** Preparing a draft pull request anew while the transaction is active or stale. */
  function Refresh(w: World, id: EffectId): Out {
    Write(w,
          && (w.tx.Active? || w.tx.Stale?)
          && IsDraftPR(w.list, id)
          && id in w.fx && (w.fx[id].Waiting() || w.fx[id].status.Unknown?),
          SetEffect(w, id, Get(w.fx, id).(status := Verified)).(approval := Changed(w.approval)))
  }

  function Seal(w: World): Out {
    Write(w, w.tx.Active?, w.(tx := S.Sealed, approval := Changed(w.approval)))
  }

  function RecordVerification(w: World, passed: bool): Out {
    Write(w, w.tx.Sealed? || w.tx.Stale?,
          w.(tx := if passed then S.Ready else S.FailedVerification, approval := Changed(w.approval)))
  }

  function Approve(w: World, digest: nat): Out {
    Write(w, w.tx.Ready? && digest == w.approval.epoch && AllCommitReady(w.fx),
          w.(approval := w.approval.(digest := Some(digest))))
  }

  // ---- Runs ----

  /** The calls of the service, and what can happen around it. */
  datatype Call =
    | CallPrepare(id: EffectId, adapter: Adapter, dependsOn: set<EffectId>)
    | CallRefresh(id: EffectId)
    | CallSeal
    | CallVerify(passed: bool)
    | CallApprove(digest: nat)
    | CallCommit(digest: nat)
    | CallRecover
    | CallAbort
    | SourceMoves(pinned: bool)
    | RefRemovedOutside
    | AppearsElsewhere(id: EffectId)

  function Perform(w: World, call: Call): World {
    match call
    case CallPrepare(id, adapter, dependsOn) => Prepare(w, id, adapter, dependsOn).w
    case CallRefresh(id) => Refresh(w, id).w
    case CallSeal => Seal(w).w
    case CallVerify(passed) => RecordVerification(w, passed).w
    case CallApprove(digest) => Approve(w, digest).w
    case CallCommit(digest) => Commit(w, digest).w
    case CallRecover => Recover(w).w
    case CallAbort => Abort(w).w
    case SourceMoves(p) => w.(repo := w.repo.(pinned := p))
    case RefRemovedOutside => w.(repo := w.repo.(ref := false, removed := true))
    case AppearsElsewhere(id) =>
      if id in w.fx && w.fx[id].landed == 0 then SetEffect(w, id, w.fx[id].(elsewhere := true)) else w
  }

  /** A call and all the replies it meets. A call cut short by a crash is one whose rest is Refused. */
  datatype Step = Step(call: Call, wire: Wire)

  function Do(w: World, step: Step): World {
    Perform(w.(wire := step.wire), step.call)
  }

  /** A transaction as it is created: active, with nothing prepared. */
  const NEW_TRANSACTION: World :=
    World(Wire([], Refused), S.Active, Approval(0, None), Repository(true, false, false, false), [], map[])

  function Run(steps: seq<Step>): World {
    if steps == [] then NEW_TRANSACTION else Do(Run(steps[..|steps| - 1]), steps[|steps| - 1])
  }
}
