/**
 * Where a recovery ends when all is answered but one call, and why it may be repeated: whatever replies
 * it meets, a recovery that has to be repeated ends where the first one would have.
 */
module RecoveryEndings {
  import opened Wrappers
  import opened CommitWorld
  import opened Coordinator
  import opened CoordinatorSafety
  import opened CoordinatorLiveness
  import opened CoordinatorReplies
  import S = TransactionStates

  // ---- Up to the list of effects ----

  /** The number of calls in a recovery before the one that looks for the ref. */
  function CallsToInspect(tx: S.State): nat {
    if tx.Committing? then 5 else 4
  }

  /** The number of calls in a recovery before the one that lists the effects. */
  function CallsToList(w: World): nat {
    CallsToInspect(w.tx) + if w.repo.ref then 2 else 1
  }

  function UnderReconciliation(w: World, wire: Wire): World {
    w.(wire := wire, tx := S.NeedsReconciliation)
  }

  lemma ReconcileUnread(w: World, n: nat, r: Reply)
    requires !r.Done? && (n < 3 || (n == 3 && !r.Silent?)) && w.wire == Fails(n, r)
    ensures Reconcile(w) == Out(w.(wire := CALM), false)
  {
    hide ReconcileAndResolve, Fails;
    FailsStep(w, n, r);
    if n > 0 { FailsStep(w.(wire := Fails(n - 1, r)), n - 1, r); }
    if n > 1 { FailsStep(w.(wire := Fails(n - 2, r)), n - 2, r); }
    if n > 2 { FailsStep(w.(wire := Fails(n - 3, r)), n - 3, r); }
  }

  lemma ReconcileReaches(w: World, n: nat, r: Reply)
    requires n > 3 && w.wire == Fails(n, r)
    ensures Reconcile(w) == ReconcileAndResolve(w.(wire := Fails(n - 4, r)), w.repo.ref)
  {
    hide ReconcileAndResolve, Fails;
    FailsStep(w, n, r);
    FailsStep(w.(wire := Fails(n - 1, r)), n - 1, r);
    FailsStep(w.(wire := Fails(n - 2, r)), n - 2, r);
    FailsStep(w.(wire := Fails(n - 3, r)), n - 3, r);
  }

  lemma RecoverReconciles(w: World, n: nat, r: Reply)
    requires InCommit(w) && n > CallsToInspect(w.tx) - 4 && w.wire == Fails(n, r)
    ensures Recover(w) == Reconcile(UnderReconciliation(w, Fails(n + 3 - CallsToInspect(w.tx), r)))
  {
    hide Reconcile, Fails;
    FailsStep(w, n, r);
    if w.tx.Committing? { FailsStep(w.(wire := Fails(n - 1, r)), n - 1, r); }
  }

  /** Without a commit that has begun and not ended, a recovery changes nothing. */
  lemma RecoverRefused(w: World)
    requires Calm(w) && !w.tx.Committing? && !w.tx.NeedsReconciliation?
    ensures Recover(w) == Out(w, false)
  {
    hide Reconcile;
  }

  /** Before the ref is known, a bad reply ends the recovery with nothing changed but the status. */
  lemma RecoverUnread(w: World, n: nat, r: Reply)
    requires InCommit(w) && !r.Done? && w.wire == Fails(n, r)
    requires n < CallsToInspect(w.tx) || (n == CallsToInspect(w.tx) && !r.Silent?)
    ensures Recover(w) ==
              Out(w.(wire := CALM, tx := if w.tx.Committing? && (n == 0 || (n == 1 && !r.Unseen?)) then S.Committing
                                         else S.NeedsReconciliation), false)
  {
    hide Reconcile, Fails;
    if n == 0 || (n == 1 && w.tx.Committing?) {
      FailsStep(w, n, r);
      if n == 1 { FailsStep(w.(wire := Fails(0, r)), 0, r); }
    } else {
      RecoverReconciles(w, n, r);
      ReconcileUnread(UnderReconciliation(w, Fails(n + 3 - CallsToInspect(w.tx), r)), n + 3 - CallsToInspect(w.tx), r);
    }
  }

  lemma RecoverReaches(w: World, n: nat, r: Reply)
    requires InCommit(w) && n > CallsToInspect(w.tx) && w.wire == Fails(n, r)
    ensures Recover(w) ==
              ReconcileAndResolve(UnderReconciliation(w, Fails(n - 1 - CallsToInspect(w.tx), r)), w.repo.ref)
  {
    hide Recover, Reconcile, ReconcileAndResolve, Fails;
    RecoverReconciles(w, n, r);
    var m := n + 3 - CallsToInspect(w.tx);
    ReconcileReaches(UnderReconciliation(w, Fails(m, r)), m, r);
  }

  /** The ref is there and cannot be recorded, or is recorded without an acknowledgement. */
  lemma RecoverUnrecorded(w: World, r: Reply)
    requires InCommit(w) && w.repo.ref && !r.Done? && w.wire == Fails(CallsToInspect(w.tx) + 1, r)
    ensures Recover(w) ==
              Out(UnderReconciliation(w, CALM).(repo := w.repo.(recorded := w.repo.recorded || r.Unseen?)), false)
  {
    hide Recover, ReconcileExternalEffects, Resolve, Fails;
    RecoverReaches(w, CallsToInspect(w.tx) + 1, r);
    FailsStep(UnderReconciliation(w, Fails(0, r)), 0, r);
  }

  /** The ref is recorded if it is there. */
  function LookingUp(w: World, wire: Wire): World {
    UnderReconciliation(w, wire).(repo := w.repo.(recorded := w.repo.recorded || w.repo.ref))
  }

  lemma RecoverLists(w: World, n: nat, r: Reply)
    requires InCommit(w) && n >= CallsToList(w) && w.wire == Fails(n, r)
    ensures var x := ReconcileExternalEffects(LookingUp(w, Fails(n - CallsToList(w), r)));
            Recover(w) == if !x.t.ok then Out(x.w, false) else Resolve(x.w, w.repo.ref, x.t.all, x.t.any)
  {
    hide Recover, ReconcileExternalEffects, Resolve, Fails;
    RecoverReaches(w, n, r);
    var m := n - 1 - CallsToInspect(w.tx);
    FailsStep(UnderReconciliation(w, Fails(m, r)), m, r);
    assert w.repo.(recorded := w.repo.recorded || false) == w.repo;
  }

  /** The effects cannot be listed. */
  lemma RecoverUnlisted(w: World, r: Reply)
    requires InCommit(w) && !r.Done? && w.wire == Fails(CallsToList(w), r)
    ensures Recover(w) == Out(LookingUp(w, CALM), false)
  {
    hide Recover, ReconcileFrom, Resolve, Fails;
    RecoverLists(w, CallsToList(w), r);
    FailsStep(LookingUp(w, Fails(0, r)), 0, r);
  }

  /** A failing rev-parse for a ref that is absent anyhow does no harm. */
  lemma RecoverMisreadsAbsence(w: World)
    requires InCommit(w) && !w.repo.ref && w.wire == Fails(CallsToInspect(w.tx), Silent)
    ensures Recover(w) == Recover(w.(wire := CALM))
  {
    hide ReconcileAndResolve, Fails;
    RecoverReconciles(w, CallsToInspect(w.tx), Silent);
    var w1 := UnderReconciliation(w, Fails(3, Silent));
    FailsStep(w1, 3, Silent);
    FailsStep(w1.(wire := Fails(2, Silent)), 2, Silent);
    FailsStep(w1.(wire := Fails(1, Silent)), 1, Silent);
    FailsStep(w1.(wire := Fails(0, Silent)), 0, Silent);
  }

  // ---- The look-ups ----

  lemma LookingUpRows(w: World, wire: Wire)
    requires Inv(w) && InCommit(w)
    ensures var w1 := LookingUp(w, wire);
            var rows := Rows(w1.list, w1.fx);
            && |rows| == |w1.list| && RowsExact(rows, w1.list, w1.fx, 0) && InDoubtOrNot(w1.list, 0, w1.fx)
            && WellListed(w1.list, w1.fx.Keys)
  {
    hide Inv, WellListed;
    FreshRowsExact(w);
    forall k | 0 <= k < |w.list|
      ensures var e := Get(w.fx, w.list[k].id); e.status.Verified? || e.status.Committed? || e.Unresolved()
    {
      StatusesInCommit(w, k);
    }
    InvListed(w);
  }

  /**
   * A recovery that meets one reply out of order, at call o of the look-up of the unresolved effect at k:
   * it fails, what comes before that effect is settled, the rest is untouched. Only a branch found in
   * conflict sends the transaction to manual intervention; otherwise it stays under reconciliation.
   */
  lemma RecoverStopsAt(w: World, k: nat, o: nat, r: Reply)
    requires Inv(w) && InCommit(w) && k < |w.list| && Get(w.fx, w.list[k].id).Unresolved()
    requires !r.Done? && o < LookAt(w.list[k].adapter) + 2
    requires w.wire == Fails(CallsToList(w) + 1 + LookUpsBetween(w.list, w.fx, 0, k) + o, r)
    ensures var x := Recover(w);
            && !x.ok
            && x.w == LookingUp(w, CALM).(fx := x.w.fx, tx := StatusAfterLookUp(w.list[k], o, r))
            && LeftAt(w.list, 0, k, LookedUpBadly(w.list[k], Get(w.fx, w.list[k].id), o, r), w.fx, x.w.fx)
  {
    hide Inv, Recover, ReconcileFrom, Resolve, Fails, StatusAfterLookUp, LookedUpBadly, LeftAt, InDoubtOrNot, RowsExact,
        WellListed, CallsToList, InCommit;
    var n := LookUpsBetween(w.list, w.fx, 0, k) + o;
    RecoverLists(w, CallsToList(w) + 1 + n, r);
    var w1 := LookingUp(w, Fails(n + 1, r));
    FailsStep(w1, n + 1, r);
    var w2 := LookingUp(w, Fails(n, r));
    LookingUpRows(w, Fails(n, r));
    ReconcileFromStops(w2, Rows(w2.list, w2.fx), 0, Tally(true, true, false), k, o, r);
  }

  /**
   * In particular one bad answer to a status query. A branch in conflict: manual intervention, that
   * effect as it was. Any other: that effect is unknown, and the transaction stays under reconciliation.
   */
  lemma OneBadStatusAnswer(w: World, k: nat, r: Reply)
    requires Inv(w) && InCommit(w) && k < |w.list|
    requires var e := Get(w.fx, w.list[k].id); e.status.Committing? || e.status.Unknown?
    requires var q := if w.list[k].adapter.SlackMessage? then 2 else 1;
             !r.Done? && w.wire == Fails(CallsToList(w) + 1 + LookUpsBetween(w.list, w.fx, 0, k) + q, r)
    ensures var x := Recover(w);
            var conflict := r.Moved? && w.list[k].adapter.GitHubBranch?;
            && !x.ok && (x.w.tx.ManualIntervention? <==> conflict) && (x.w.tx.NeedsReconciliation? <==> !conflict)
            && (forall j :: 0 <= j < k ==> Get(x.w.fx, w.list[j].id) == Settled(Get(w.fx, w.list[j].id)))
            && (forall j :: k < j < |w.list| ==> Get(x.w.fx, w.list[j].id) == Get(w.fx, w.list[j].id))
            && Get(x.w.fx, w.list[k].id) ==
               (if conflict then Get(w.fx, w.list[k].id) else Get(w.fx, w.list[k].id).(status := Unknown))
  {
    hide Inv, Recover, Fails, CallsToList, LookUpsBetween, Settled;
    RecoverStopsAt(w, k, LookAt(w.list[k].adapter), r);
  }

  // ---- After the look-ups ----

  /** The number of calls in a recovery before the first one that resolves it. */
  ghost function CallsToResolve(w: World): nat {
    CallsToList(w) + 1 + LookUpsBetween(w.list, w.fx, 0, |w.list|)
  }

  /** Every effect is settled and the tally says what had been released. */
  ghost predicate AllLookedUp(w: World, w': World, t: Tally) {
    && Inv(w') && w' == LookingUp(w, w'.wire).(fx := w'.fx) && SettledFrom(w.list, 0, w.fx, w'.fx)
    && (t.all <==> AllReleased(w.fx)) && (t.any <==> Released(w.fx)) && (t.all <==> AllCommitted(w'.fx))
  }

  lemma LookingUpIsSound(w: World, wire: Wire)
    requires Inv(w) && InCommit(w)
    ensures Inv(LookingUp(w, wire))
  {
    hide WellListed, EffectsOk, ReleaseOrdered, BackwardIdle;
  }

  lemma SettledAll(list: seq<Spec>, ids: set<EffectId>, fx: Effects)
    requires WellListed(list, ids)
    ensures SettledFrom(list, 0, fx, SettledBetween(list, fx, 0, |list|))
  {
    hide WellListed, Settled;
    forall j | 0 <= j < |list|
      ensures Get(SettledBetween(list, fx, 0, |list|), list[j].id) == Settled(Get(fx, list[j].id))
    {
      SettledBetweenAt(list, ids, fx, 0, |list|, j);
    }
  }

  lemma RecoverResolves(w: World, n: nat, r: Reply) returns (w': World, t: Tally)
    requires Inv(w) && InCommit(w) && n >= CallsToResolve(w) && w.wire == Fails(n, r)
    ensures AllLookedUp(w, w', t) && w'.wire == Fails(n - CallsToResolve(w), r)
    ensures w'.fx == SettledBetween(w.list, w.fx, 0, |w.list|)
    ensures Recover(w) == Resolve(w', w.repo.ref, t.all, t.any)
  {
    hide Inv, Recover, ReconcileFrom, Resolve, Fails, InDoubtOrNot, RowsExact, WellListed, CallsToList, InCommit,
        Released, AllReleased, AllCommitted, SettledFrom, TallyExact, FxGrown, Rows;
    RecoverLists(w, n, r);
    var m := n - CallsToList(w);
    var w1 := LookingUp(w, Fails(m, r));
    FailsStep(w1, m, r);
    var w2 := LookingUp(w, Fails(m - 1, r));
    LookingUpRows(w, Fails(m - 1, r));
    t := ReconcileFromReaches(w2, Rows(w2.list, w2.fx), 0, Tally(true, true, false), |w.list|, m - 1, r);
    w' := w2.(wire := Fails(n - CallsToResolve(w), r), fx := SettledBetween(w.list, w.fx, 0, |w.list|));
    AllLookedAt(w', Rows(w2.list, w2.fx), t);
    assert ReconcileExternalEffects(w1) == Tallied(w', t);
    LookingUpIsSound(w, Fails(m, r));
    ReconcileEffectsKeeps(w1);
    SettledAll(w.list, w.fx.Keys, w.fx);
    assert AllLookedUp(w, w', t) by { LookedUpTells(w, w1, w', t); }
  }

  lemma AllLookedAt(w: World, rows: seq<Row>, t: Tally)
    ensures ReconcileFrom(w, rows, |rows|, t) == Tallied(w, t)
  {
  }

  lemma LookedUpTells(w: World, w1: World, w': World, t: Tally)
    requires Inv(w) && w1.fx == w.fx && w1.list == w.list && TalliedOk(w1, Tallied(w', t)) && t.ok
    requires w' == LookingUp(w, w'.wire).(fx := w'.fx) && SettledFrom(w.list, 0, w.fx, w'.fx)
    ensures AllLookedUp(w, w', t)
  {
    hide Inv, Released, AllReleased, AllCommitted, SettledFrom, TallyExact;
    TallyTells(w, t, w'.fx);
  }

  /** Every effect had been released, and the ref is there: the finalization meets a bad reply. */
  lemma RecoverNotFinalized(w: World, r: Reply)
    requires Inv(w) && InCommit(w) && w.repo.ref && AllReleased(w.fx) && !r.Done?
    requires w.wire == Fails(CallsToResolve(w), r)
    ensures var x := Recover(w);
            && !x.ok && SettledFrom(w.list, 0, w.fx, x.w.fx)
            && x.w == LookingUp(w, CALM).(fx := x.w.fx, tx := if r.Unseen? then S.Committed else S.NeedsReconciliation)
  {
    hide Inv, Recover, Fails, Released, AllReleased, AllCommitted, SettledFrom, CallsToResolve;
    var w', t := RecoverResolves(w, CallsToResolve(w), r);
    FailsStep(w', 0, r);
  }

  /** An effect had been released, and the ref is gone: the move to manual intervention meets a bad reply. */
  lemma RecoverNotHandedOver(w: World, r: Reply)
    requires Inv(w) && InCommit(w) && !w.repo.ref && Released(w.fx) && !r.Done?
    requires w.wire == Fails(CallsToResolve(w), r)
    ensures var x := Recover(w);
            && !x.ok && SettledFrom(w.list, 0, w.fx, x.w.fx)
            && x.w == LookingUp(w, CALM).(fx := x.w.fx, tx := if r.Unseen? then S.ManualIntervention
                                                              else S.NeedsReconciliation)
  {
    hide Inv, Recover, Fails, Released, AllReleased, AllCommitted, SettledFrom, CallsToResolve;
    var w', t := RecoverResolves(w, CallsToResolve(w), r);
    FailsStep(w', 0, r);
  }

  /**
   * Nothing had been released: the check of the source, or the move back, meets a bad reply. The move
   * to ready keeps the approval, the one to stale drops it.
   */
  lemma RecoverNotRolledBack(w: World, o: nat, r: Reply)
    requires Inv(w) && InCommit(w) && !Released(w.fx) && (w.repo.ref ==> !AllReleased(w.fx)) && !r.Done? && o < 2
    requires w.wire == Fails(CallsToResolve(w) + o, r)
    ensures var x := Recover(w);
            var back := LookingUp(w, CALM).(fx := x.w.fx);
            && !x.ok && SettledFrom(w.list, 0, w.fx, x.w.fx)
            && x.w == (if o == 0 || !r.Unseen? then back
                       else if w.repo.pinned then back.(tx := S.Ready)
                       else back.(tx := S.Stale, approval := w.approval.(digest := None)))
  {
    hide Inv, Recover, Fails, Released, AllReleased, AllCommitted, SettledFrom, CallsToResolve, CommitExternalEffects;
    var w', t := RecoverResolves(w, CallsToResolve(w) + o, r);
    FailsStep(w', o, r);
    if o == 1 { FailsStep(w'.(wire := Fails(0, r)), 0, r); }
  }

  lemma SettledCanGo(w: World, w': World, t: Tally)
    requires Inv(w) && InCommit(w) && AllLookedUp(w, w', t) && Topological(w.list) && w.list == w'.list
    ensures var rows := Rows(w'.list, w'.fx);
            && |rows| == |w'.list| && RowsExact(rows, w'.list, w'.fx, 0) && RowsCanGo(rows, 0)
            && CommittedRowsIn(rows, CommittedIds(rows)) && Orderly(rows, 0, CommittedIds(rows))
            && WellListed(w'.list, w'.fx.Keys)
  {
    hide Topological, Inv, Orderly, WellListed, Released, AllReleased, AllCommitted;
    var rows := Rows(w'.list, w'.fx);
    assert InCommit(w');
    forall k | 0 <= k < |rows| ensures rows[k].status.Verified? || rows[k].status.Committed? {
      StatusesInCommit(w', k);
      SettledResolves(w.list, w.fx, w'.fx);
    }
    InvListed(w');
    TopologicalIsOrderly(w'.list, w'.fx.Keys, rows, CommittedIds(rows));
  }

  /**
   * Some but not all effects had been released, and the ref is there: the release of the rest meets one
   * reply out of order, at call o for the effect at k. All effects had been settled; then those before it
   * are committed, it is as that reply leaves it, and the transaction stays under reconciliation.
   */
  lemma RecoverStopsReleasing(w: World, k: nat, o: nat, r: Reply)
    requires Inv(w) && InCommit(w) && w.repo.ref && Released(w.fx) && !AllReleased(w.fx) && Topological(w.list)
    requires k < |w.list| && !r.Done?
    requires var fx := SettledBetween(w.list, w.fx, 0, |w.list|);
             var e := Get(fx, w.list[k].id);
             && !e.status.Committed? && o < CallsToSend(w.list[k], e)
             && w.wire == Fails(CallsToResolve(w) + 1 + CallsBetween(w.list, fx, 0, k) + o, r)
    ensures var fx := SettledBetween(w.list, w.fx, 0, |w.list|);
            var x := Recover(w);
            && !x.ok && SettledFrom(w.list, 0, w.fx, fx)
            && x.w == LookingUp(w, CALM).(fx := x.w.fx)
            && StoppedAt(w.list, 0, k, Interrupted(w.list[k], Get(fx, w.list[k].id), o, r), fx, x.w.fx)
  {
    hide Inv, Recover, Fails, Released, AllReleased, AllCommitted, SettledFrom, CallsToResolve, CommitFrom, StoppedAt,
        Interrupted, CallsToSend, Rows, CommittedIds, WellListed, Orderly, RowsExact, RowsCanGo, CommittedRowsIn,
        Topological;
    var fx := SettledBetween(w.list, w.fx, 0, |w.list|);
    var n := CallsBetween(w.list, fx, 0, k) + o;
    var w', t := RecoverResolves(w, CallsToResolve(w) + 1 + n, r);
    FailsStep(w', n + 1, r);
    SettledCanGo(w, w', t);
    var rows := Rows(w'.list, w'.fx);
    CommitFromStops(w'.(wire := Fails(n, r)), rows, 0, CommittedIds(rows), k, o, r);
  }

  // ---- Recoveries that are repeated ----

  /** The same effects are attempted and at their providers. */
  ghost predicate SameReleased(fx: Effects, fx': Effects) {
    && fx'.Keys == fx.Keys
    && forall id :: id in fx ==> (fx[id].Attempted() && fx[id].Present() <==> fx'[id].Attempted() && fx'[id].Present())
  }

  lemma SameReleasedTells(fx: Effects, fx': Effects)
    requires SameReleased(fx, fx')
    ensures (Released(fx') <==> Released(fx)) && (AllReleased(fx') <==> AllReleased(fx))
  {
    if Released(fx) {
      var id :| id in fx && fx[id].Attempted() && fx[id].Present();
      assert fx'[id].Attempted() && fx'[id].Present();
    }
  }

  lemma SameReleasedOnward(fx: Effects, fx1: Effects, fx2: Effects)
    requires SameReleased(fx, fx1) && SameReleased(fx1, fx2)
    ensures SameReleased(fx, fx2)
  {
  }

  lemma RowWriteReleasesNothing(w: World, id: EffectId, e: Effect)
    requires id in w.fx && (e.Attempted() && e.Present() <==> w.fx[id].Attempted() && w.fx[id].Present())
    ensures SameReleased(w.fx, Write(w, true, SetEffect(w, id, e)).w.fx)
  {
  }

  lemma ReceiptReleasesNothing(w: World, id: EffectId)
    requires id in w.fx && w.fx[id].Unresolved() && w.fx[id].Present()
    ensures SameReleased(w.fx, RecordReceipt(w, id).w.fx)
  {
    hide SameReleased;
    RowWriteReleasesNothing(w, id, w.fx[id].(status := Committed, receipt := true));
  }

  lemma NothingReleasesNothing(fx: Effects)
    ensures SameReleased(fx, fx)
  {
  }

  lemma AnswerReleasesNothing(w: World, s: Spec, t: Tally)
    requires w.tx.NeedsReconciliation? && s.id in w.fx && w.fx[s.id].Unresolved()
    ensures SameReleased(w.fx, Answered(w, s, t).w.fx)
  {
    hide SameReleased, RecordReceipt;
    var w1 := Tick(w);
    NothingReleasesNothing(w.fx);
    match QueryStatus(w, s)
    case NoAnswer => RowWriteReleasesNothing(w1, s.id, w.fx[s.id].(status := Unknown));
    case NotFound => RowWriteReleasesNothing(w1, s.id, w.fx[s.id].(status := Verified));
    case Conflict =>
    case Found => ReceiptReleasesNothing(w1, s.id);
  }

  /** A look-up, whatever it is answered, does not change what has been released. */
  lemma LookUpReleasesNothing(w: World, s: Spec, t: Tally)
    requires w.tx.NeedsReconciliation? && s.id in w.fx && w.fx[s.id].Unresolved()
    ensures SameReleased(w.fx, ReconcileOne(w, s, t).w.fx)
  {
    hide SameReleased, Answered;
    NothingReleasesNothing(w.fx);
    var begun := BeginStatusAttempt(w, s.id);
    AnswerReleasesNothing(if s.adapter.SlackMessage? then Tick(begun.w) else begun.w, s, t);
  }

  lemma ExactAfter(list: seq<Spec>, ids: set<EffectId>, rows: seq<Row>, i: nat, fx: Effects, fx': Effects)
    requires WellListed(list, ids) && i < |list| && RowsExact(rows, list, fx, i)
    requires fx.Keys == fx'.Keys == ids && SameBut(fx, fx', list[i].id)
    ensures RowsExact(rows, list, fx', i + 1)
  {
    hide WellListed, SameBut;
    OthersSame(list, ids, i, fx, fx');
  }

  lemma {:induction false} LookUpsReleaseNothing(w: World, rows: seq<Row>, i: nat, t: Tally)
    requires Inv(w) && w.tx.NeedsReconciliation? && i <= |rows| == |w.list| && RowsExact(rows, w.list, w.fx, i)
    ensures SameReleased(w.fx, ReconcileFrom(w, rows, i, t).w.fx)
    decreases |rows| - i
  {
    hide SameReleased, ReconcileOne, Inv, RowsExact, WellListed, FxGrown, SameBut;
    NothingReleasesNothing(w.fx);
    if i < |rows| {
      var s := rows[i].spec;
      RowAt(w, rows, i);
      ExactOnward(w.list, w.fx.Keys, rows, i, w.fx, w.fx[s.id]);
      if rows[i].status.Committed? {
        LookUpsReleaseNothing(w, rows, i + 1, t.(any := true));
      } else if rows[i].status.Verified? || rows[i].status.Prepared? {
        LookUpsReleaseNothing(w, rows, i + 1, t.(all := false));
      } else if rows[i].status.Unknown? || rows[i].status.Committing? {
        ReconcileOneKeeps(w, s, t);
        LookUpReleasesNothing(w, s, t);
        var r := ReconcileOne(w, s, t);
        if r.t.ok {
          ExactAfter(w.list, w.fx.Keys, rows, i, w.fx, r.w.fx);
          LookUpsReleaseNothing(r.w, rows, i + 1, r.t);
          SameReleasedOnward(w.fx, r.w.fx, ReconcileFrom(r.w, rows, i + 1, r.t).w.fx);
        }
      }
    }
  }

  /** An answered recovery decides the same after as before. */
  ghost predicate SameVerdict(w: World, w': World) {
    w'.list == w.list && w'.repo.ref == w.repo.ref && Verdict(w', w'.repo.ref) == Verdict(w, w.repo.ref)
  }

  lemma SameReleasedSameVerdict(w: World, w': World)
    requires w'.list == w.list && w'.repo.ref == w.repo.ref && w'.repo.pinned == w.repo.pinned
    requires SameReleased(w.fx, w'.fx)
    ensures SameVerdict(w, w')
  {
    hide SameReleased, Released, AllReleased, Topological;
    SameReleasedTells(w.fx, w'.fx);
  }

  lemma AllReleasedIsTopological(w: World)
    requires Inv(w) && AllReleased(w.fx)
    ensures Topological(w.list)
  {
    hide EffectsOk, PhaseOk, ReleaseOrdered;
    forall s, t | s in w.list && t in w.list && t.id in s.dependsOn ensures !Backward(w.list, s, t) {
      assert s.id in Ids(w.list);
      assert Get(w.fx, s.id).Attempted();
    }
  }

  lemma CommittedIsReleased(fx: Effects, fx': Effects)
    requires EffectsOk(fx') && FxGrown(fx, fx') && exists id :: id in fx && fx[id].status.Committed?
    ensures Released(fx')
  {
    var id :| id in fx && fx[id].status.Committed?;
    assert fx'[id].status.Committed? && EffectOk(fx'[id]);
  }

  lemma ReleaseKeepsVerdict(w: World)
    requires Inv(w) && InCommit(w) && w.repo.recorded && w.repo.ref
    requires exists id :: id in w.fx && w.fx[id].status.Committed?
    ensures SameVerdict(w, CommitExternalEffects(w).w)
  {
    hide Inv, FxGrown, CommitExternalEffects, Released, AllReleased, Topological;
    var w' := CommitExternalEffects(w).w;
    CommitEffectsKeeps(w);
    assert EffectsOk(w.fx) && EffectsOk(w'.fx) by { InvEffects(w); InvEffects(w'); }
    assert FxGrown(w.fx, w.fx) by { GrownSelf(w.fx); }
    CommittedIsReleased(w.fx, w.fx);
    CommittedIsReleased(w.fx, w'.fx);
    if AllReleased(w.fx) { AllReleasedIsTopological(w); }
    if AllReleased(w'.fx) { AllReleasedIsTopological(w'); }
  }

  lemma InvEffects(w: World)
    requires Inv(w)
    ensures EffectsOk(w.fx)
  {
  }

  lemma GrownSelf(fx: Effects)
    ensures FxGrown(fx, fx)
  {
  }

  lemma SomeCommitted(w: World, t: Tally)
    requires Inv(w) && TallyExact(t, w.list, |w.list|, w.fx) && t.any
    ensures exists id :: id in w.fx && w.fx[id].status.Committed?
  {
    hide WellListed, EffectsOk, PhaseOk, ReleaseOrdered, BackwardIdle;
    var k :| 0 <= k < |w.list| && Get(w.fx, w.list[k].id).status.Committed?;
    assert w.list[k].id in w.fx;
  }

  /** A last call that leaves the effects and the repository alone. */
  lemma SameEffectsSameVerdict(w: World, w': World)
    requires w'.list == w.list && w'.repo.ref == w.repo.ref && w'.repo.pinned == w.repo.pinned && w'.fx == w.fx
    ensures SameVerdict(w, w')
  {
    hide SameReleased, Released, AllReleased, Topological;
    NothingReleasesNothing(w.fx);
  }

  lemma ResolveKeepsVerdict(w: World, present: bool, t: Tally)
    requires Inv(w) && w.tx.NeedsReconciliation? && TallyExact(t, w.list, |w.list|, w.fx)
    requires present ==> w.repo.recorded && w.repo.ref
    ensures var x := Resolve(w, present, t.all, t.any); InCommit(x.w) ==> SameVerdict(w, x.w)
  {
    hide Inv, CommitExternalEffects, TallyExact, SameVerdict, AllCommitted, S.CanTransition;
    var x := Resolve(w, present, t.all, t.any);
    if present && t.any && !t.all {
      SomeCommitted(w, t);
      ReleaseKeepsVerdict(w);
      var released := CommitExternalEffects(w);
      if released.ok && InCommit(x.w) {
        SameEffectsSameVerdict(released.w, x.w);
        SameVerdictOnward(w, released.w, x.w);
      }
    } else if InCommit(x.w) {
      SameEffectsSameVerdict(w, x.w);
    }
  }

  lemma SameVerdictOnward(w: World, w1: World, w2: World)
    requires SameVerdict(w, w1) && SameVerdict(w1, w2)
    ensures SameVerdict(w, w2)
  {
    hide Verdict;
  }

  lemma ReconcileEffectsKeepsVerdict(w: World)
    requires Inv(w) && w.tx.NeedsReconciliation?
    ensures SameVerdict(w, ReconcileExternalEffects(w).w)
  {
    hide Inv, ReconcileFrom, RowsExact, SameVerdict, SameReleased, TallyExact, FxGrown;
    var w1 := Tick(w);
    InvIgnoresWire(w, w1);
    FreshRowsExact(w1);
    ReconcileEffectsKeeps(w);
    LookUpsReleaseNothing(w1, Rows(w1.list, w1.fx), 0, Tally(true, true, false));
    NothingReleasesNothing(w.fx);
    SameReleasedSameVerdict(w, ReconcileExternalEffects(w).w);
  }

  lemma ReconcileAndResolveKeepsVerdict(w: World, present: bool)
    requires Inv(w) && w.tx.NeedsReconciliation? && (present ==> w.repo.ref)
    ensures var x := ReconcileAndResolve(w, present); InCommit(x.w) ==> SameVerdict(w, x.w)
  {
    hide Inv, ReconcileExternalEffects, Resolve, SameVerdict, TallyExact, FxGrown, S.Reaches;
    var recorded := if present then RecordMaterializedRef(w) else Out(w, true);
    SameEffectsSameVerdict(w, recorded.w);
    RefStepsAreSafe(w);
    if recorded.ok {
      ReconcileEffectsKeeps(recorded.w);
      ReconcileEffectsKeepsVerdict(recorded.w);
      var r := ReconcileExternalEffects(recorded.w);
      SameVerdictOnward(w, recorded.w, r.w);
      if r.t.ok {
        ResolveKeepsVerdict(r.w, present, r.t);
        var x := Resolve(r.w, present, r.t.all, r.t.any);
        if InCommit(x.w) { SameVerdictOnward(w, r.w, x.w); }
      }
    }
  }

  lemma ReconcileKeepsVerdict(w: World)
    requires Inv(w) && w.tx.NeedsReconciliation?
    ensures var x := Reconcile(w); InCommit(x.w) ==> SameVerdict(w, x.w)
  {
    hide Inv, ReconcileAndResolve, SameVerdict;
    var w1 := Tick(w);
    var w2 := Tick(w1);
    var w3 := Tick(w2);
    var w4 := Tick(w3);
    SameEffectsSameVerdict(w, w1);
    SameEffectsSameVerdict(w, w2);
    SameEffectsSameVerdict(w, w3);
    SameEffectsSameVerdict(w, w4);
    InvIgnoresWire(w, w4);
    var answer := InspectRef(w3);
    ReconcileAndResolveKeepsVerdict(w4, answer.RefPresent?);
    var x := ReconcileAndResolve(w4, answer.RefPresent?);
    if InCommit(x.w) { SameVerdictOnward(w, w4, x.w); }
  }

  /**
   * A recovery that meets any replies at all and does not end the reconciliation changes nothing about
   * where an answered one ends.
   */
  lemma RecoverKeepsVerdict(w: World)
    requires Inv(w) && InCommit(w)
    ensures var x := Recover(w); InCommit(x.w) ==> SameVerdict(w, x.w)
  {
    hide Inv, Reconcile, SameVerdict;
    var w1 := Tick(w);
    SameEffectsSameVerdict(w, w1);
    InvIgnoresWire(w, w1);
    var marked := MarkNeedsReconciliation(w1);
    SameEffectsSameVerdict(w, marked.w);
    MarkReconciliationKeeps(w1);
    var w2 := if w.tx.Committing? then marked.w else w1;
    if w2.tx.NeedsReconciliation? {
      ReconcileKeepsVerdict(w2);
      if InCommit(Reconcile(w2).w) { SameVerdictOnward(w, w2, Reconcile(w2).w); }
    }
  }

  /** One recovery after another, each with its own replies. */
  function Retried(w: World, wires: seq<Wire>): World {
    if wires == [] then w else Recover(Retried(w, wires[..|wires| - 1]).(wire := wires[|wires| - 1])).w
  }

  lemma {:induction false} RetriesKeepVerdict(w: World, wires: seq<Wire>)
    requires Inv(w) && InCommit(w)
    ensures var x := Retried(w, wires); Inv(x) && (InCommit(x) ==> SameVerdict(w, x))
  {
    hide Inv, SameVerdict, Recover;
    if wires == [] {
      SameEffectsSameVerdict(w, w);
    } else {
      var before := Retried(w, wires[..|wires| - 1]);
      var again := before.(wire := wires[|wires| - 1]);
      RetriesKeepVerdict(w, wires[..|wires| - 1]);
      InvIgnoresWire(before, again);
      RecoverIsSafe(again);
      assert Inv(Recover(again).w) by { SafeKeepsInv(again, Recover(again).w); }
      SameEffectsSameVerdict(before, again);
      if InCommit(before) && InCommit(Recover(again).w) {
        RecoverKeepsVerdict(again);
        SameVerdictOnward(w, before, again);
        SameVerdictOnward(w, again, Recover(again).w);
      }
      NoWayBack(again);
    }
  }

  lemma SafeKeepsInv(w: World, w': World)
    requires Safe(w, w')
    ensures Inv(w')
  {
    hide Inv, FxGrown, S.Reaches;
  }

  lemma NoWayBack(w: World)
    ensures InCommit(Recover(w).w) ==> InCommit(w)
  {
    hide Reconcile;
  }

  /**
   * Recovery may be repeated: after any number of recoveries with any replies, if the reconciliation has
   * not ended, one that is answered ends where it would have ended before the first of them.
   */
  lemma RetriesConverge(w: World, wires: seq<Wire>)
    requires Inv(w) && InCommit(w) && InCommit(Retried(w, wires))
    ensures Recover(Retried(w, wires).(wire := CALM)).w.tx == Verdict(w, w.repo.ref)
  {
    hide Inv, Recover, Verdict, Retried;
    var x := Retried(w, wires);
    RetriesKeepVerdict(w, wires);
    InvIgnoresWire(x, x.(wire := CALM));
    RecoverEnds(x.(wire := CALM));
    SameEffectsSameVerdict(x, x.(wire := CALM));
    SameVerdictOnward(w, x, x.(wire := CALM));
  }
}
