/** What every run of coordinator calls keeps, wherever a crash cuts it. */
module CoordinatorSafety {
  import opened Wrappers
  import opened CommitWorld
  import opened Coordinator
  import S = TransactionStates

  // ---- The invariant ----

  /** The statuses of a run in which something may be released; nothing here ever compensates. */
  predicate InRelease(s: S.State) {
    s.Committing? || s.NeedsReconciliation? || s.Committed? || s.ManualIntervention?
  }

  predicate BeforeRelease(s: S.State) {
    s.Active? || s.Sealed? || s.FailedVerification? || s.Ready? || s.Stale? || s.Aborting? || s.Aborted?
  }

  ghost function Ids(list: seq<Spec>): set<EffectId> {
    set s | s in list :: s.id
  }

  ghost predicate WellListed(list: seq<Spec>, ids: set<EffectId>) {
    && (forall i, j :: 0 <= i < j < |list| ==> Before(list[i], list[j]) && list[i].id != list[j].id)
    && (forall s :: s in list ==> s.dependsOn <= ids)
    && ids == Ids(list)
  }

  /** At most one mutation, none where the resource was already, and none behind a status that denies it. */
  predicate EffectOk(e: Effect) {
    && e.landed <= 1
    && !(e.landed == 1 && e.elsewhere)
    && (e.landed == 1 ==> e.Attempted())
    && (e.status.Committed? <==> e.receipt)
    && (e.status.Committed? ==> e.Present())
    && !e.status.Prepared? && !e.status.Failed?
  }

  ghost predicate EffectsOk(fx: Effects) {
    forall id :: id in fx ==> EffectOk(fx[id])
  }

  ghost predicate DependenciesCommitted(s: Spec, fx: Effects) {
    forall d :: d in s.dependsOn ==> Get(fx, d).status.Committed?
  }

  ghost predicate ReleaseOrdered(list: seq<Spec>, fx: Effects) {
    forall s :: s in list && Get(fx, s.id).Attempted() ==> DependenciesCommitted(s, fx)
  }

  /** s depends on t, and the list does not put t before s. */
  ghost predicate Backward(list: seq<Spec>, s: Spec, t: Spec) {
    s in list && t in list && t.id in s.dependsOn && !Before(t, s)
  }

  /** A dependency that the list puts the wrong way round keeps both of its ends from being attempted. */
  ghost predicate BackwardIdle(list: seq<Spec>, fx: Effects) {
    forall s, t :: Backward(list, s, t) ==> !Get(fx, s.id).Attempted() && !Get(fx, t.id).Attempted()
  }

  /** No backward dependency begins or ends at the effect. */
  ghost predicate Free(list: seq<Spec>, id: EffectId) {
    forall s, t :: Backward(list, s, t) ==> s.id != id && t.id != id
  }

  ghost predicate NothingAttempted(fx: Effects) {
    forall id :: id in fx ==> !fx[id].Attempted()
  }

  ghost predicate NothingAborted(fx: Effects) {
    forall id :: id in fx ==> !fx[id].status.Aborted?
  }

  ghost predicate PhaseOk(w: World) {
    && (InRelease(w.tx) || BeforeRelease(w.tx))
    && (BeforeRelease(w.tx) ==> NothingAttempted(w.fx))
    && (!w.tx.Aborting? && !w.tx.Aborted? ==> NothingAborted(w.fx))
    && (w.repo.recorded || NothingAttempted(w.fx))
    && (w.repo.recorded ==> w.repo.ref || w.repo.removed)
    && (w.tx.Committed? ==> w.repo.recorded && AllCommitted(w.fx))
    && (w.approval.digest.Some? ==> w.approval.digest.value == w.approval.epoch)
    && (InRelease(w.tx) ==> w.approval.digest.Some?)
  }

  ghost predicate Inv(w: World) {
    && WellListed(w.list, w.fx.Keys) && EffectsOk(w.fx) && PhaseOk(w)
    && ReleaseOrdered(w.list, w.fx) && BackwardIdle(w.list, w.fx)
  }

  // ---- One effect changes ----

  /** The change that a call in progress may make to an effect. */
  ghost predicate MayBecome(w: World, id: EffectId, e: Effect) {
    && id in w.fx
    && EffectOk(e)
    && !e.status.Aborted?
    && (w.fx[id].status.Committed? ==> e.status.Committed?)
    && (e.Attempted() && !w.fx[id].Attempted() ==>
          && w.repo.recorded && Free(w.list, id)
          && forall s :: s in w.list && s.id == id ==> DependenciesCommitted(s, w.fx))
  }

  lemma SetKeepsOrder(w: World, id: EffectId, e: Effect)
    requires Inv(w) && MayBecome(w, id, e)
    ensures ReleaseOrdered(w.list, w.fx[id := e]) && BackwardIdle(w.list, w.fx[id := e])
  {
    hide WellListed, EffectsOk, PhaseOk, Before;
    var fx' := w.fx[id := e];
    forall s | s in w.list && Get(fx', s.id).Attempted()
      ensures DependenciesCommitted(s, fx')
    {
      assert s.id == id || Get(w.fx, s.id).Attempted();
      assert DependenciesCommitted(s, w.fx);
    }
    forall s, t | Backward(w.list, s, t)
      ensures !Get(fx', s.id).Attempted() && !Get(fx', t.id).Attempted()
    {
      assert !Get(w.fx, s.id).Attempted() && !Get(w.fx, t.id).Attempted();
    }
  }

  lemma SetKeepsInv(w: World, id: EffectId, e: Effect)
    requires Inv(w) && InCommit(w) && MayBecome(w, id, e)
    ensures Inv(SetEffect(w, id, e))
  {
    hide WellListed, ReleaseOrdered, BackwardIdle, Free;
    var fx' := w.fx[id := e];
    assert fx'.Keys == w.fx.Keys;
    SetKeepsOrder(w, id, e);
  }

  /** What every call on behalf of a commit leaves alone, and what it only lets grow. */
  ghost predicate FxGrown(fx: Effects, fx': Effects) {
    && fx'.Keys == fx.Keys
    && forall id :: id in fx ==>
         && fx'[id].elsewhere == fx[id].elsewhere
         && fx[id].landed <= fx'[id].landed
         && (fx[id].status.Committed? ==> fx'[id].status.Committed?)
  }

  ghost predicate Kept(w: World, w': World) {
    && w'.list == w.list && w'.repo == w.repo && w'.approval == w.approval && w'.wire.rest == w.wire.rest
    && w'.fx.Keys == w.fx.Keys && FxGrown(w.fx, w'.fx)
  }

  ghost predicate Grown(w: World, w': World) {
    && Kept(w, w')
    && (w'.tx == w.tx || (w.tx.Committing? && w'.tx.NeedsReconciliation?))
  }

  ghost predicate SameBut(fx: Effects, fx': Effects, id: EffectId) {
    forall other :: other in fx && other != id ==> other in fx' && fx'[other] == fx[other]
  }

  /** A call for one effect keeps the invariant and touches no other effect. */
  ghost predicate Local(w: World, r: Out, id: EffectId) {
    && Inv(r.w) && InCommit(r.w) && Grown(w, r.w) && SameBut(w.fx, r.w.fx, id)
    && (r.ok ==> Get(r.w.fx, id).status.Committed? && r.w.tx == w.tx)
  }

  lemma MarkReconciliationKeeps(w: World)
    requires Inv(w)
    ensures var w' := MarkNeedsReconciliation(w).w;
            Inv(w') && (InCommit(w) ==> InCommit(w')) && Grown(w, w') && w'.fx == w.fx
  {
  }

  /** A ledger write to one effect's row, made or not. */
  lemma RowWriteKeeps(w: World, check: bool, id: EffectId, e: Effect)
    requires Inv(w) && InCommit(w) && MayBecome(w, id, e)
    requires e.elsewhere == w.fx[id].elsewhere && e.landed == w.fx[id].landed
    ensures var r := Write(w, check, SetEffect(w, id, e));
            && Inv(r.w) && Grown(w, r.w) && SameBut(w.fx, r.w.fx, id) && r.w.tx == w.tx
            && (r.ok ==> r.w.fx[id] == e)
  {
    SetKeepsInv(w, id, e);
  }

  lemma EffectUnknownKeeps(w: World, id: EffectId)
    requires Inv(w) && InCommit(w) && id in w.fx && w.fx[id].Unresolved()
    ensures Local(w, EffectUnknown(w, id), id)
  {
    RowWriteKeeps(w, true, id, w.fx[id].(status := Unknown));
    MarkReconciliationKeeps(MarkEffectUnknown(w, id).w);
  }

  lemma DefiniteFailureKeeps(w: World, id: EffectId)
    requires Inv(w) && InCommit(w) && id in w.fx && w.fx[id].Unresolved() && w.fx[id].landed == 0
    ensures Local(w, EffectDefiniteFailure(w, id), id)
  {
    RowWriteKeeps(w, true, id, w.fx[id].(status := Verified));
    MarkReconciliationKeeps(MarkEffectDefiniteFailure(w, id).w);
  }

  lemma RecordReceiptKeeps(w: World, id: EffectId)
    requires Inv(w) && InCommit(w) && id in w.fx && w.fx[id].Unresolved() && w.fx[id].Present()
    ensures Local(w, RecordReceipt(w, id), id)
  {
    RowWriteKeeps(w, true, id, w.fx[id].(status := Committed, receipt := true));
    var r := RecordEffectCommitted(w, id);
    if !r.ok { MarkReconciliationKeeps(r.w); }
  }

  lemma TickKeeps(w: World)
    ensures Kept(w, Tick(w)) && (Inv(w) <==> Inv(Tick(w)))
  {
  }

  lemma SameButSelf(fx: Effects, id: EffectId)
    ensures SameBut(fx, fx, id)
  {
  }

  /** A first part that stays with the effect, then a local rest. */
  lemma LocalOnward(w: World, w1: World, r: Out, id: EffectId)
    requires Grown(w, w1) && SameBut(w.fx, w1.fx, id) && w1.tx == w.tx && Local(w1, r, id)
    ensures Local(w, r, id)
  {
  }

  lemma LandedMayBecome(w: World, id: EffectId)
    requires Inv(w) && id in w.fx && w.fx[id].status.Committing? && !w.fx[id].Present()
    ensures MayBecome(w, id, w.fx[id].(landed := 1))
  {
  }

  lemma OneLanded(fx: Effects, id: EffectId)
    requires id in fx
    ensures var fx' := fx[id := fx[id].(landed := fx[id].landed + 1)];
            FxGrown(fx, fx') && SameBut(fx, fx', id) && fx'.Keys == fx.Keys
  {
  }

  lemma MutateKeeps(w: World, id: EffectId)
    requires Inv(w) && InCommit(w) && id in w.fx && w.fx[id].status.Committing? && !w.fx[id].Present()
    ensures var w1 := Mutate(w, id);
            && Inv(w1) && Grown(w, w1) && SameBut(w.fx, w1.fx, id) && w1.tx == w.tx
            && w1.fx[id].status.Committing?
            && (MutationReply(w).GotReceipt? ==> w1.fx[id].Present())
            && (MutationReply(w).Rejected? ==> w1.fx[id].landed == 0)
  {
    hide Inv, FxGrown, SameBut;
    var e := w.fx[id].(landed := w.fx[id].landed + 1);
    TickKeeps(w);
    SameButSelf(w.fx, id);
    if w.wire.Next().Done? || w.wire.Next().Unseen? {
      LandedMayBecome(Tick(w), id);
      SetKeepsInv(Tick(w), id, e);
      OneLanded(w.fx, id);
      assert Mutate(w, id) == SetEffect(Tick(w), id, e);
    }
  }

  lemma ReleaseKeeps(w: World, id: EffectId)
    requires Inv(w) && InCommit(w) && id in w.fx && w.fx[id].status.Committing? && !w.fx[id].Present()
    ensures Local(w, Release(w, id), id)
  {
    var w1 := Mutate(w, id);
    MutateKeeps(w, id);
    match MutationReply(w) {
      case GotReceipt => RecordReceiptKeeps(w1, id);
      case Ambiguous => EffectUnknownKeeps(w1, id);
      case Rejected => DefiniteFailureKeeps(w1, id);
    }
    LocalOnward(w, w1, Release(w, id), id);
  }

  lemma QueryThenReleaseKeeps(w: World, s: Spec)
    requires Inv(w) && InCommit(w) && s.id in w.fx
    requires w.fx[s.id].status.Committing? && w.fx[s.id].landed == 0
    ensures Local(w, QueryThenRelease(w, s), s.id)
  {
    match QueryStatus(w, s)
    case NoAnswer => EffectUnknownKeeps(Tick(w), s.id);
    case Found => RecordReceiptKeeps(Tick(w), s.id);
    case Conflict => DefiniteFailureKeeps(Tick(w), s.id);
    case NotFound => ReleaseKeeps(Tick(w), s.id);
  }

  lemma BeginAttemptKeeps(w: World, s: Spec)
    requires Inv(w) && InCommit(w) && w.repo.recorded && s in w.list
    requires DependenciesCommitted(s, w.fx) && Free(w.list, s.id)
    ensures var r := BeginCommitAttempt(w, s.id);
            && Inv(r.w) && r.w.tx == w.tx && Grown(w, r.w) && SameBut(w.fx, r.w.fx, s.id)
            && (r.ok ==> s.id in r.w.fx && r.w.fx[s.id].status.Committing? && r.w.fx[s.id].landed == 0)
  {
    assert s.id in Ids(w.list);
    if w.fx[s.id].Waiting() {
      RowWriteKeeps(w, true, s.id, w.fx[s.id].(status := Committing));
    }
  }

  lemma CheckThenReleaseKeeps(w: World, s: Spec)
    requires Inv(w) && InCommit(w) && s.id in w.fx
    requires w.fx[s.id].status.Committing? && w.fx[s.id].landed == 0
    ensures Local(w, CheckThenRelease(w, s), s.id)
  {
    match VerifyFresh(w)
    case StaleResource => DefiniteFailureKeeps(Tick(w), s.id);
    case FreshError => EffectUnknownKeeps(Tick(w), s.id);
    case Fresh => QueryThenReleaseKeeps(Tick(w), s);
  }

  lemma AfterBeginKeeps(w: World, s: Spec)
    requires Inv(w) && InCommit(w) && s.id in w.fx
    requires w.fx[s.id].status.Committing? && w.fx[s.id].landed == 0
    ensures Local(w, AfterBegin(w, s), s.id)
  {
    hide Inv, FxGrown, SameBut, QueryThenRelease, CheckThenRelease;
    TickKeeps(w);
    SameButSelf(w.fx, s.id);
    match s.adapter
    case GitHubBranch => QueryThenReleaseKeeps(w, s);
    case GitHubDraftPR => CheckThenReleaseKeeps(Tick(w), s);
    case SlackMessage => QueryThenReleaseKeeps(Tick(w), s);
  }

  lemma CommitOneKeeps(w: World, s: Spec)
    requires Inv(w) && InCommit(w) && w.repo.recorded && s in w.list
    requires DependenciesCommitted(s, w.fx) && Free(w.list, s.id)
    ensures Local(w, CommitOne(w, s), s.id)
  {
    BeginAttemptKeeps(w, s);
    var begun := BeginCommitAttempt(w, s.id);
    if begun.ok {
      AfterBeginKeeps(begun.w, s);
      LocalOnward(w, begun.w, AfterBegin(begun.w, s), s.id);
    }
  }

  // ---- The list of effects ----

  /** The rows name the listed effects, and one that they show as committed still is. */
  ghost predicate RowsOf(rows: seq<Row>, list: seq<Spec>, fx: Effects) {
    && |rows| == |list|
    && forall k :: 0 <= k < |rows| ==>
         rows[k].spec == list[k] && (rows[k].status.Committed? ==> Get(fx, list[k].id).status.Committed?)
  }

  ghost predicate AllAreCommitted(ids: set<EffectId>, fx: Effects) {
    forall id :: id in ids ==> Get(fx, id).status.Committed?
  }

  ghost predicate CommittedFrom(list: seq<Spec>, i: nat, fx: Effects) {
    forall k :: i <= k < |list| ==> Get(fx, list[k].id).status.Committed?
  }

  /** A call on behalf of a commit keeps the invariant; with ok it also keeps the status. */
  ghost predicate Onward(w: World, w': World) {
    Inv(w') && InCommit(w') && Grown(w, w')
  }

  lemma OnwardTransitive(w: World, w1: World, w2: World)
    requires Onward(w, w1) && Onward(w1, w2)
    ensures Onward(w, w2)
  {
  }

  lemma GrownKeepsRows(rows: seq<Row>, list: seq<Spec>, committed: set<EffectId>, fx: Effects, fx': Effects)
    requires FxGrown(fx, fx') && RowsOf(rows, list, fx) && AllAreCommitted(committed, fx)
    ensures RowsOf(rows, list, fx') && AllAreCommitted(committed, fx')
  {
  }

  ghost predicate CommittedBefore(list: seq<Spec>, i: nat, fx: Effects) {
    forall k :: 0 <= k < i && k < |list| ==> Get(fx, list[k].id).status.Committed?
  }

  /** The effect at the head of the work is free: what it needs and what came before it is committed. */
  lemma HeadIsFree(w: World, i: nat)
    requires Inv(w) && i < |w.list| && CommittedBefore(w.list, i, w.fx) && DependenciesCommitted(w.list[i], w.fx)
    ensures Free(w.list, w.list[i].id)
  {
    hide EffectsOk, ReleaseOrdered, PhaseOk;
    forall s, t | Backward(w.list, s, t) ensures s.id != w.list[i].id && t.id != w.list[i].id {
      var k :| 0 <= k < |w.list| && w.list[k] == s;
      var j :| 0 <= j < |w.list| && w.list[j] == t;
      assert j < k ==> Before(t, s);
      assert k < i ==> Get(w.fx, s.id).Attempted();
      assert k == i ==> Get(w.fx, t.id).Attempted();
    }
  }

  lemma GrownKeepsBefore(list: seq<Spec>, i: nat, fx: Effects, fx': Effects)
    requires FxGrown(fx, fx') && CommittedBefore(list, i, fx) && i < |list| && Get(fx', list[i].id).status.Committed?
    ensures CommittedBefore(list, i + 1, fx')
  {
  }

  lemma CommittedStays(fx: Effects, fx': Effects, id: EffectId)
    requires FxGrown(fx, fx') && Get(fx, id).status.Committed?
    ensures Get(fx', id).status.Committed?
  {
  }

  lemma {:induction false} CommitFromKeeps(w: World, rows: seq<Row>, i: nat, committed: set<EffectId>)
    requires Inv(w) && InCommit(w) && w.repo.recorded && i <= |rows|
    requires RowsOf(rows, w.list, w.fx) && AllAreCommitted(committed, w.fx) && CommittedBefore(w.list, i, w.fx)
    ensures var r := CommitFrom(w, rows, i, committed);
            Onward(w, r.w) && (r.ok ==> r.w.tx == w.tx && CommittedFrom(w.list, i, r.w.fx))
    decreases |rows| - i
  {
    hide CommitOne, Inv, FxGrown, Free;
    KeptSelf(w);
    if i < |rows| {
      var s := rows[i].spec;
      assert s in w.list;
      if rows[i].status.Committed? {
        CommitFromKeeps(w, rows, i + 1, committed);
        var r := CommitFrom(w, rows, i + 1, committed);
        CommittedStays(w.fx, r.w.fx, s.id);
      } else if (rows[i].status.Verified? || rows[i].status.Prepared?) && s.dependsOn <= committed {
        HeadIsFree(w, i);
        CommitOneKeeps(w, s);
        var one := CommitOne(w, s);
        if one.ok {
          GrownKeepsBefore(w.list, i, w.fx, one.w.fx);
          GrownKeepsRows(rows, w.list, committed, w.fx, one.w.fx);
          CommitFromKeeps(one.w, rows, i + 1, committed + {s.id});
          var r := CommitFrom(one.w, rows, i + 1, committed + {s.id});
          OnwardTransitive(w, one.w, r.w);
          CommittedStays(one.w.fx, r.w.fx, s.id);
        }
      }
    }
  }

  lemma FreshRows(w: World)
    ensures RowsOf(Rows(w.list, w.fx), w.list, w.fx)
    ensures AllAreCommitted(CommittedIds(Rows(w.list, w.fx)), w.fx)
  {
  }

  /** Everything listed is everything there is. */
  lemma CommittedFromZero(w: World)
    requires WellListed(w.list, w.fx.Keys) && CommittedFrom(w.list, 0, w.fx)
    ensures AllCommitted(w.fx)
  {
    forall id | id in w.fx ensures w.fx[id].status.Committed? {
      assert id in Ids(w.list);
      var s :| s in w.list && s.id == id;
    }
  }

  lemma CommitEffectsKeeps(w: World)
    requires Inv(w) && InCommit(w) && w.repo.recorded
    ensures var r := CommitExternalEffects(w);
            Onward(w, r.w) && (r.ok ==> r.w.tx == w.tx && AllCommitted(r.w.fx))
  {
    var w1 := Tick(w);
    var rows := Rows(w1.list, w1.fx);
    FreshRows(w1);
    CommitFromKeeps(w1, rows, 0, CommittedIds(rows));
    var r := CommitExternalEffects(w);
    if r.ok { CommittedFromZero(r.w); }
  }

  // ---- Reconciliation ----

  /** One look-up: if it goes through, the effect is committed or waits again, and the tally says which. */
  ghost predicate LookedUp(w: World, r: Tallied, s: Spec, t: Tally) {
    && Inv(r.w) && Kept(w, r.w) && SameBut(w.fx, r.w.fx, s.id)
    && (r.w.tx == w.tx || (!r.t.ok && r.w.tx.ManualIntervention?))
    && (r.t.ok ==>
          && !Get(r.w.fx, s.id).Unresolved()
          && (r.t.all <==> t.all && Get(r.w.fx, s.id).status.Committed?)
          && (r.t.any <==> t.any || Get(r.w.fx, s.id).status.Committed?))
  }

  /** An unresolved effect that is not at the provider may be marked unknown or armed again. */
  lemma UnresolvedMayBecome(w: World, id: EffectId, status: EffectStatus)
    requires Inv(w) && id in w.fx && w.fx[id].Unresolved()
    requires status.Unknown? || (status.Verified? && !w.fx[id].Present())
    ensures MayBecome(w, id, w.fx[id].(status := status))
  {
  }

  /** A branch conflict sends the transaction to manual intervention, or leaves it. */
  lemma ConflictKeeps(w: World)
    requires Inv(w) && w.tx.NeedsReconciliation?
    ensures var w' := Transition(w, S.NeedsReconciliation, S.ManualIntervention, false).w;
            Inv(w') && Kept(w, w') && w'.fx == w.fx && (w'.tx == w.tx || w'.tx.ManualIntervention?)
  {
  }

  lemma AnsweredKeeps(w: World, s: Spec, t: Tally)
    requires Inv(w) && w.tx.NeedsReconciliation? && s.id in w.fx && w.fx[s.id].Unresolved()
    ensures LookedUp(w, Answered(w, s, t), s, t)
  {
    hide Inv, FxGrown, SameBut, RecordReceipt, Transition;
    var w1 := Tick(w);
    TickKeeps(w);
    match QueryStatus(w, s)
    case NoAnswer =>
      UnresolvedMayBecome(w1, s.id, Unknown);
      RowWriteKeeps(w1, true, s.id, w.fx[s.id].(status := Unknown));
    case NotFound =>
      UnresolvedMayBecome(w1, s.id, Verified);
      RowWriteKeeps(w1, true, s.id, w.fx[s.id].(status := Verified));
    case Conflict => ConflictKeeps(w1); SameButSelf(w.fx, s.id);
    case Found => RecordReceiptKeeps(w1, s.id);
  }

  lemma InvIgnoresWire(w: World, w': World)
    requires w' == w.(wire := w'.wire)
    ensures Inv(w) <==> Inv(w')
  {
  }

  lemma ReconcileOneKeeps(w: World, s: Spec, t: Tally)
    requires Inv(w) && w.tx.NeedsReconciliation? && s.id in w.fx && w.fx[s.id].Unresolved()
    ensures LookedUp(w, ReconcileOne(w, s, t), s, t)
  {
    hide Answered, Inv, FxGrown, SameBut;
    var begun := BeginStatusAttempt(w, s.id);
    KeptSelf(w);
    SameButSelf(w.fx, s.id);
    if begun.ok {
      var w1 := if s.adapter.SlackMessage? then Tick(begun.w) else begun.w;
      InvIgnoresWire(w, w1);
      AnsweredKeeps(w1, s, t);
    }
    InvIgnoresWire(w, begun.w);
    InvIgnoresWire(w, Tick(begun.w));
  }

  /** From position i on, the rows show the present statuses. */
  ghost predicate RowsExact(rows: seq<Row>, list: seq<Spec>, fx: Effects, i: nat) {
    && |rows| == |list|
    && forall k :: i <= k < |rows| ==> rows[k] == Row(list[k], Get(fx, list[k].id).status)
  }

  /** The tally over the first i listed effects is exact, and none of them is left unresolved. */
  ghost predicate TallyExact(t: Tally, list: seq<Spec>, i: nat, fx: Effects)
    requires i <= |list|
  {
    && (forall k :: 0 <= k < i ==> !Get(fx, list[k].id).Unresolved())
    && (t.all <==> forall k :: 0 <= k < i ==> Get(fx, list[k].id).status.Committed?)
    && (t.any <==> exists k :: 0 <= k < i && Get(fx, list[k].id).status.Committed?)
  }

  lemma OthersSame(list: seq<Spec>, ids: set<EffectId>, i: nat, fx: Effects, fx': Effects)
    requires WellListed(list, ids) && i < |list| && (fx == fx' || SameBut(fx, fx', list[i].id))
    requires fx.Keys == fx'.Keys == ids
    ensures forall k :: 0 <= k < |list| && k != i ==> Get(fx', list[k].id) == Get(fx, list[k].id)
  {
    forall k | 0 <= k < |list| && k != i ensures Get(fx', list[k].id) == Get(fx, list[k].id) {
      assert list[k].id != list[i].id;
      assert list[k].id in Ids(list);
    }
  }

  /** A look-up at position i: what was tallied before it stays so. */
  lemma TallyStep(list: seq<Spec>, rows: seq<Row>, ids: set<EffectId>, i: nat, fx: Effects, fx': Effects, t: Tally,
      t': Tally)
    requires WellListed(list, ids) && i < |list| && (fx == fx' || SameBut(fx, fx', list[i].id))
    requires fx.Keys == fx'.Keys == ids
    requires RowsExact(rows, list, fx, i)
    requires TallyExact(t, list, i, fx)
    requires !Get(fx', list[i].id).Unresolved()
    requires t'.all <==> t.all && Get(fx', list[i].id).status.Committed?
    requires t'.any <==> t.any || Get(fx', list[i].id).status.Committed?
    ensures TallyExact(t', list, i + 1, fx') && RowsExact(rows, list, fx', i + 1)
  {
    hide WellListed, SameBut;
    OthersSame(list, ids, i, fx, fx');
    if t.any {
      var k :| 0 <= k < i && Get(fx, list[k].id).status.Committed?;
      assert Get(fx', list[k].id).status.Committed?;
    }
  }

  /** Reconciliation as a whole. */
  ghost predicate TalliedOk(w: World, r: Tallied) {
    && Inv(r.w) && Kept(w, r.w)
    && (r.w.tx == w.tx || (!r.t.ok && r.w.tx.ManualIntervention?))
    && (r.t.ok ==> TallyExact(r.t, w.list, |w.list|, r.w.fx))
  }

  lemma RowAt(w: World, rows: seq<Row>, i: nat)
    requires Inv(w) && RowsExact(rows, w.list, w.fx, i) && i < |rows|
    ensures i < |w.list| && rows[i].spec == w.list[i] && w.list[i].id in w.fx && w.list[i] in w.list
    ensures rows[i].status == w.fx[w.list[i].id].status
    ensures WellListed(w.list, w.fx.Keys)
  {
    assert w.list[i].id in Ids(w.list);
  }

  lemma TalliedOnward(w: World, w1: World, r: Tallied)
    requires Kept(w, w1) && w1.tx == w.tx && TalliedOk(w1, r)
    ensures TalliedOk(w, r)
  {
    hide Inv, TallyExact;
  }

  lemma KeptSelf(w: World)
    ensures Kept(w, w)
  {
  }

  lemma {:induction false} ReconcileFromKeeps(w: World, rows: seq<Row>, i: nat, t: Tally)
    requires Inv(w) && w.tx.NeedsReconciliation? && i <= |rows| == |w.list| && t.ok
    requires RowsExact(rows, w.list, w.fx, i) && TallyExact(t, w.list, i, w.fx)
    ensures TalliedOk(w, ReconcileFrom(w, rows, i, t))
    decreases |rows| - i
  {
    hide ReconcileOne, Inv, RowsExact, TallyExact, WellListed, FxGrown, SameBut;
    KeptSelf(w);
    if i < |rows| {
      var s := rows[i].spec;
      RowAt(w, rows, i);
      if rows[i].status.Committed? {
        TallyStep(w.list, rows, w.fx.Keys, i, w.fx, w.fx, t, t.(any := true));
        ReconcileFromKeeps(w, rows, i + 1, t.(any := true));
      } else if rows[i].status.Verified? || rows[i].status.Prepared? {
        TallyStep(w.list, rows, w.fx.Keys, i, w.fx, w.fx, t, t.(all := false));
        ReconcileFromKeeps(w, rows, i + 1, t.(all := false));
      } else if rows[i].status.Unknown? || rows[i].status.Committing? {
        ReconcileOneKeeps(w, s, t);
        var r := ReconcileOne(w, s, t);
        if r.t.ok {
          TallyStep(w.list, rows, w.fx.Keys, i, w.fx, r.w.fx, t, r.t);
          ReconcileFromKeeps(r.w, rows, i + 1, r.t);
          TalliedOnward(w, r.w, ReconcileFrom(r.w, rows, i + 1, r.t));
        }
      }
    }
  }

  lemma FreshRowsExact(w: World)
    ensures RowsExact(Rows(w.list, w.fx), w.list, w.fx, 0)
    ensures TallyExact(Tally(true, true, false), w.list, 0, w.fx)
  {
  }

  lemma ReconcileEffectsKeeps(w: World)
    requires Inv(w) && w.tx.NeedsReconciliation?
    ensures TalliedOk(w, ReconcileExternalEffects(w))
  {
    hide Inv, FxGrown, TallyExact, RowsExact;
    var w1 := Tick(w);
    InvIgnoresWire(w, w1);
    KeptSelf(w);
    FreshRowsExact(w1);
    ReconcileFromKeeps(w1, Rows(w1.list, w1.fx), 0, Tally(true, true, false));
    TalliedOnward(w, w1, ReconcileFrom(w1, Rows(w1.list, w1.fx), 0, Tally(true, true, false)));
  }

  // ---- The calls ----

  /**
   * What any call leaves: the invariant, the same effects, no mutation or commit undone, an approval
   * that is kept or dropped, and a status that the table allows.
   */
  ghost predicate Safe(w: World, w': World) {
    && Inv(w') && w'.list == w.list && FxGrown(w.fx, w'.fx)
    && (w'.approval == w.approval || w'.approval == Approval(w.approval.epoch, None))
    && S.Reaches(w.tx, w'.tx)
  }

  lemma SafeOnward(w: World, w1: World, w2: World)
    requires Safe(w, w1) && Safe(w1, w2)
    ensures Safe(w, w2)
  {
    hide Inv, S.Reaches;
    S.ReachesTransitive(w.tx, w1.tx, w2.tx);
  }

  /** A part of a commit that goes on with it. */
  lemma OnwardIsSafe(w: World, w': World)
    requires Inv(w') && Kept(w, w')
    requires w'.tx == w.tx || S.CanTransition(w.tx, w'.tx)
    ensures Safe(w, w')
  {
    hide Inv, FxGrown, S.Reaches;
    S.ReachesItself(w.tx);
    if w'.tx != w.tx { S.ReachesInOne(w.tx, w'.tx); }
  }

  lemma TickIsSafe(w: World)
    requires Inv(w)
    ensures Safe(w, Tick(w)) && Inv(Tick(w))
  {
    hide S.Reaches;
    S.ReachesItself(w.tx);
  }

  lemma SafeSelf(w: World)
    requires Inv(w)
    ensures Safe(w, w)
  {
    hide S.Reaches;
    S.ReachesItself(w.tx);
  }

  lemma GiveUpIsSafe(w: World)
    requires Inv(w)
    ensures Safe(w, GiveUp(w).w)
  {
    MarkReconciliationKeeps(w);
    OnwardIsSafe(w, GiveUp(w).w);
  }

  lemma FinalizeIsSafe(w: World)
    requires Inv(w)
    ensures Safe(w, FinalizeTransactionCommit(w).w)
  {
    KeptSelf(w);
    OnwardIsSafe(w, FinalizeTransactionCommit(w).w);
  }

  lemma ReleaseAndFinalizeIsSafe(w: World)
    requires Inv(w) && InCommit(w) && w.repo.recorded
    ensures Safe(w, ReleaseAndFinalize(w).w)
  {
    hide CommitExternalEffects, Inv, FxGrown, GiveUp, FinalizeTransactionCommit;
    CommitEffectsKeeps(w);
    var released := CommitExternalEffects(w);
    OnwardIsSafe(w, released.w);
    if released.ok {
      var done := FinalizeTransactionCommit(released.w);
      FinalizeIsSafe(released.w);
      SafeOnward(w, released.w, done.w);
      GiveUpIsSafe(done.w);
      SafeOnward(w, done.w, GiveUp(done.w).w);
    } else {
      TickIsSafe(released.w);
      SafeOnward(w, released.w, Tick(released.w));
      GiveUpIsSafe(Tick(released.w));
      SafeOnward(w, Tick(released.w), GiveUp(Tick(released.w)).w);
    }
  }

  lemma RefStepsAreSafe(w: World)
    requires Inv(w)
    ensures Safe(w, Materialize(w).w) && Materialize(w).w.tx == w.tx
    ensures Materialize(w).ok ==> Materialize(w).w.repo.ref
    ensures w.repo.ref ==> Safe(w, RecordMaterializedRef(w).w) && RecordMaterializedRef(w).w.tx == w.tx
    ensures RecordMaterializedRef(w).ok ==> RecordMaterializedRef(w).w.repo.recorded
  {
    hide S.Reaches;
    S.ReachesItself(w.tx);
  }

  lemma RefRecordedIsSafe(w: World, made: Out)
    requires Inv(w) && Safe(w, made.w) && InCommit(made.w) && (made.ok ==> made.w.repo.ref)
    ensures Safe(w, RefMade(made).w)
  {
    hide Inv, FxGrown, GiveUp, ReleaseAndFinalize, RecordMaterializedRef;
    var recorded := RecordMaterializedRef(made.w);
    GiveUpIsSafe(made.w);
    SafeOnward(w, made.w, GiveUp(made.w).w);
    if made.ok {
      RefStepsAreSafe(made.w);
      SafeOnward(w, made.w, recorded.w);
      GiveUpIsSafe(recorded.w);
      SafeOnward(w, recorded.w, GiveUp(recorded.w).w);
      if recorded.ok {
        ReleaseAndFinalizeIsSafe(recorded.w);
        SafeOnward(w, recorded.w, ReleaseAndFinalize(recorded.w).w);
      }
    }
  }

  lemma CommitBegunIsSafe(w: World)
    requires Inv(w) && InCommit(w)
    ensures Safe(w, CommitBegun(w).w)
  {
    hide Inv, FxGrown, GiveUp, Materialize, RefMade;
    var w1, w2 := Tick(w), Tick(Tick(w));
    TickIsSafe(w);
    TickIsSafe(w1);
    SafeOnward(w, w1, w2);
    GiveUpIsSafe(w1);
    SafeOnward(w, w1, GiveUp(w1).w);
    GiveUpIsSafe(w2);
    SafeOnward(w, w2, GiveUp(w2).w);
    RefStepsAreSafe(w2);
    if InspectRef(w1).RefPresent? {
      RefRecordedIsSafe(w, Out(w2, true));
    }
    RefRecordedIsSafe(w2, Materialize(w2));
    SafeOnward(w, w2, RefMade(Materialize(w2)).w);
  }

  lemma TransitionIsSafe(w: World, to: S.State, invalidate: bool)
    requires Inv(w) && BeforeRelease(w.tx) && BeforeRelease(to) && !w.tx.Aborting?
    ensures var r := Transition(w, w.tx, to, invalidate);
            Safe(w, r.w) && r.w.fx == w.fx && (r.ok ==> r.w.tx == to) && (r.w.tx == w.tx || r.w.tx == to)
  {
    hide S.Reaches;
    S.ReachesItself(w.tx);
    if S.CanTransition(w.tx, to) { S.ReachesInOne(w.tx, to); }
  }

  lemma PreflightOneIsSafe(w: World, s: Spec)
    requires Inv(w) && w.tx.Ready?
    ensures var r := PreflightOne(w, s);
            && Safe(w, r.w) && (r.w.tx.Ready? || r.w.tx.Stale?)
            && (r.ok ==> r.w.tx.Ready? && r.w.approval == w.approval)
  {
    hide Inv, FxGrown, Transition;
    TickIsSafe(w);
    TickIsSafe(Tick(w));
    SafeOnward(w, Tick(w), Tick(Tick(w)));
    TransitionIsSafe(Tick(w), S.Stale, true);
    SafeOnward(w, Tick(w), Transition(Tick(w), S.Ready, S.Stale, true).w);
    TransitionIsSafe(Tick(Tick(w)), S.Stale, true);
    SafeOnward(w, Tick(Tick(w)), Transition(Tick(Tick(w)), S.Ready, S.Stale, true).w);
  }

  lemma {:induction false} PreflightIsSafe(w: World, rows: seq<Row>, i: nat)
    requires Inv(w) && w.tx.Ready? && i <= |rows|
    ensures var r := PreflightFrom(w, rows, i);
            && Safe(w, r.w) && (r.w.tx.Ready? || r.w.tx.Stale?)
            && (r.ok ==> r.w.tx.Ready? && r.w.approval == w.approval)
    decreases |rows| - i
  {
    hide Inv, FxGrown, PreflightOne;
    if i == |rows| {
      SafeSelf(w);
    } else if rows[i].status.Committed? {
      PreflightIsSafe(w, rows, i + 1);
    } else {
      PreflightOneIsSafe(w, rows[i].spec);
      var r := PreflightOne(w, rows[i].spec);
      if r.ok {
        PreflightIsSafe(r.w, rows, i + 1);
        SafeOnward(w, r.w, PreflightFrom(r.w, rows, i + 1).w);
      }
    }
  }

  lemma BeginCommitIsSafe(w: World, digest: nat)
    requires Inv(w)
    ensures var r := BeginCommit(w, digest); Safe(w, r.w) && (r.ok ==> r.w.tx.Committing?)
  {
    KeptSelf(w);
    OnwardIsSafe(w, BeginCommit(w, digest).w);
  }

  lemma CommitPinnedIsSafe(w: World, digest: nat)
    requires Inv(w) && w.tx.Ready?
    ensures Safe(w, CommitPinned(w, digest).w)
  {
    hide Inv, FxGrown, PreflightFrom, BeginCommit, CommitBegun;
    var w1 := Tick(w);
    TickIsSafe(w);
    var passed := PreflightFrom(w1, Rows(w1.list, w1.fx), 0);
    PreflightIsSafe(w1, Rows(w1.list, w1.fx), 0);
    SafeOnward(w, w1, passed.w);
    TickIsSafe(passed.w);
    SafeOnward(w, passed.w, Tick(passed.w));
    var begun := BeginCommit(Tick(passed.w), digest);
    BeginCommitIsSafe(Tick(passed.w), digest);
    SafeOnward(w, Tick(passed.w), begun.w);
    if begun.ok {
      CommitBegunIsSafe(begun.w);
      SafeOnward(w, begun.w, CommitBegun(begun.w).w);
    }
  }

  lemma CommitIsSafe(w: World, digest: nat)
    requires Inv(w)
    ensures Safe(w, Commit(w, digest).w)
  {
    hide Inv, FxGrown, CommitPinned, Transition;
    var w1 := Tick(w);
    var w2 := Tick(w1);
    var w3 := Tick(w2);
    TickIsSafe(w);
    TickIsSafe(w1);
    TickIsSafe(w2);
    SafeOnward(w, w1, w2);
    SafeOnward(w, w2, w3);
    if w.tx.Ready? {
      CommitPinnedIsSafe(w3, digest);
      SafeOnward(w, w3, CommitPinned(w3, digest).w);
      TransitionIsSafe(w3, S.Stale, true);
      SafeOnward(w, w3, Transition(w3, S.Ready, S.Stale, true).w);
    }
  }

  /** A complete tally with nothing committed: every effect waits. */
  lemma NothingCommittedNothingAttempted(w: World, t: Tally)
    requires Inv(w) && TallyExact(t, w.list, |w.list|, w.fx) && !t.any
    ensures NothingAttempted(w.fx)
  {
    forall id | id in w.fx ensures !w.fx[id].Attempted() {
      assert id in Ids(w.list);
      var s :| s in w.list && s.id == id;
      var k :| 0 <= k < |w.list| && w.list[k] == s;
      assert !Get(w.fx, w.list[k].id).Unresolved() && !Get(w.fx, w.list[k].id).status.Committed?;
    }
  }

  lemma LeaveIsSafe(w: World, to: S.State, invalidate: bool)
    requires Inv(w) && w.tx.NeedsReconciliation? && NothingAttempted(w.fx) && (to.Ready? || to.Stale?)
    ensures Safe(w, Transition(w, S.NeedsReconciliation, to, invalidate).w)
  {
    hide S.Reaches;
    S.ReachesItself(w.tx);
    S.ReachesInOne(w.tx, to);
  }

  lemma RollBackIsSafe(w: World)
    requires Inv(w) && w.tx.NeedsReconciliation? && NothingAttempted(w.fx)
    ensures Safe(w, RollBack(w).w)
  {
    hide Inv, Transition, FxGrown;
    TickIsSafe(w);
    LeaveIsSafe(Tick(w), S.Ready, false);
    LeaveIsSafe(Tick(w), S.Stale, true);
    SafeOnward(w, Tick(w), Transition(Tick(w), S.NeedsReconciliation, S.Ready, false).w);
    SafeOnward(w, Tick(w), Transition(Tick(w), S.NeedsReconciliation, S.Stale, true).w);
  }

  lemma ManualIsSafe(w: World)
    requires Inv(w)
    ensures Safe(w, Transition(w, S.NeedsReconciliation, S.ManualIntervention, false).w)
  {
    KeptSelf(w);
    OnwardIsSafe(w, Transition(w, S.NeedsReconciliation, S.ManualIntervention, false).w);
  }

  lemma ResolveIsSafe(w: World, present: bool, t: Tally)
    requires Inv(w) && w.tx.NeedsReconciliation? && TallyExact(t, w.list, |w.list|, w.fx)
    requires present ==> w.repo.recorded
    ensures Safe(w, Resolve(w, present, t.all, t.any).w)
  {
    hide Inv, FxGrown, RollBack, CommitExternalEffects, FinalizeTransactionCommit, Transition, TallyExact;
    FinalizeIsSafe(w);
    ManualIsSafe(w);
    if present {
      CommitEffectsKeeps(w);
      var released := CommitExternalEffects(w);
      OnwardIsSafe(w, released.w);
      FinalizeIsSafe(released.w);
      SafeOnward(w, released.w, FinalizeTransactionCommit(released.w).w);
    }
    if !t.any {
      NothingCommittedNothingAttempted(w, t);
      RollBackIsSafe(w);
    }
  }

  lemma ReconcileAndResolveIsSafe(w: World, present: bool)
    requires Inv(w) && w.tx.NeedsReconciliation? && (present ==> w.repo.ref)
    ensures Safe(w, ReconcileAndResolve(w, present).w)
  {
    hide Inv, FxGrown, RecordMaterializedRef, ReconcileExternalEffects, Resolve, TallyExact;
    var recorded := if present then RecordMaterializedRef(w) else Out(w, true);
    SafeSelf(w);
    RefStepsAreSafe(w);
    if recorded.ok {
      ReconcileEffectsKeeps(recorded.w);
      var r := ReconcileExternalEffects(recorded.w);
      OnwardIsSafe(recorded.w, r.w);
      SafeOnward(w, recorded.w, r.w);
      if r.t.ok {
        ResolveIsSafe(r.w, present, r.t);
        SafeOnward(w, r.w, Resolve(r.w, present, r.t.all, r.t.any).w);
      }
    }
  }

  lemma ReconcileIsSafe(w: World)
    requires Inv(w) && w.tx.NeedsReconciliation?
    ensures Safe(w, Reconcile(w).w)
  {
    hide Inv, FxGrown, ReconcileAndResolve;
    var w1 := Tick(w);
    var w2 := Tick(w1);
    var w3 := Tick(w2);
    var w4 := Tick(w3);
    TickIsSafe(w);
    TickIsSafe(w1);
    TickIsSafe(w2);
    TickIsSafe(w3);
    SafeOnward(w, w1, w2);
    SafeOnward(w, w2, w3);
    SafeOnward(w, w3, w4);
    var present := InspectRef(w3).RefPresent?;
    ReconcileAndResolveIsSafe(w4, present);
    SafeOnward(w, w4, ReconcileAndResolve(w4, present).w);
  }

  lemma RecoverIsSafe(w: World)
    requires Inv(w)
    ensures Safe(w, Recover(w).w)
  {
    hide Inv, FxGrown, Reconcile, MarkNeedsReconciliation;
    var w1 := Tick(w);
    TickIsSafe(w);
    GiveUpIsSafe(w1);
    var marked := MarkNeedsReconciliation(w1);
    SafeOnward(w, w1, marked.w);
    if w.tx.Committing? && marked.ok {
      MarkedMeansMarked(w1);
      ReconcileIsSafe(marked.w);
      SafeOnward(w, marked.w, Reconcile(marked.w).w);
    } else if w.tx.NeedsReconciliation? {
      ReconcileIsSafe(w1);
      SafeOnward(w, w1, Reconcile(w1).w);
    }
  }

  lemma MarkedMeansMarked(w: World)
    ensures MarkNeedsReconciliation(w).ok ==> MarkNeedsReconciliation(w).w.tx.NeedsReconciliation?
  {
  }

  lemma DroppedIsFine(list: seq<Spec>, fx: Effects)
    requires NothingAttempted(fx) && EffectsOk(fx)
    ensures Dropped(fx).Keys == fx.Keys && NothingAttempted(Dropped(fx)) && EffectsOk(Dropped(fx))
    ensures ReleaseOrdered(list, Dropped(fx)) && FxGrown(fx, Dropped(fx))
  {
    assert forall s :: s in list ==> !Get(Dropped(fx), s.id).Attempted();
  }

  lemma DropIsSafe(w: World)
    requires Inv(w)
    ensures var r := AbortPreparedEffects(w); Safe(w, r.w) && r.w.tx == w.tx
  {
    hide S.Reaches, EffectsOk, ReleaseOrdered, FxGrown, Dropped, WellListed;
    S.ReachesItself(w.tx);
    KeptSelf(w);
    if w.tx.Aborting? { DroppedIsFine(w.list, w.fx); }
  }

  lemma LastAbortStepIsSafe(w: World)
    requires Inv(w)
    ensures Safe(w, Transition(w, S.Aborting, S.Aborted, true).w)
  {
    hide S.Reaches;
    S.ReachesItself(w.tx);
    if w.tx.Aborting? { S.ReachesInOne(w.tx, S.Aborted); }
  }

  lemma AbortIsSafe(w: World)
    requires Inv(w)
    ensures Safe(w, Abort(w).w)
  {
    hide Inv, FxGrown, Transition, AbortPreparedEffects;
    var w1 := Tick(w);
    var w2 := Tick(w1);
    TickIsSafe(w);
    TickIsSafe(w1);
    SafeOnward(w, w1, w2);
    if BeforeRelease(w.tx) && Abortable(w.tx) {
      var aborting := Transition(w2, w2.tx, S.Aborting, true);
      TransitionIsSafe(w2, S.Aborting, true);
      SafeOnward(w, w2, aborting.w);
      var dropped := AbortPreparedEffects(aborting.w);
      DropIsSafe(aborting.w);
      SafeOnward(w, aborting.w, dropped.w);
      TickIsSafe(dropped.w);
      SafeOnward(w, dropped.w, Tick(dropped.w));
      LastAbortStepIsSafe(Tick(dropped.w));
      SafeOnward(w, Tick(dropped.w), Transition(Tick(dropped.w), S.Aborting, S.Aborted, true).w);
    } else {
      assert InRelease(w.tx) || BeforeRelease(w.tx) by { InvPhase(w); }
    }
  }

  lemma InvPhase(w: World)
    requires Inv(w)
    ensures PhaseOk(w)
  {
  }
}
