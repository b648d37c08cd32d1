/** Safety over whole runs: any sequence of calls, each met by any replies and cut by any crash. */
module CoordinatorRuns {
  import opened Wrappers
  import opened CommitWorld
  import opened Coordinator
  import opened CoordinatorSafety
  import S = TransactionStates

  // ---- Preparing effects ----

  ghost predicate Sorted(list: seq<Spec>) {
    forall i, j :: 0 <= i < j < |list| ==> Before(list[i], list[j]) && list[i].id != list[j].id
  }

  /** The list stays in order, and holds what it held and the new effect. */
  lemma {:induction false} InsertKeepsOrder(list: seq<Spec>, s: Spec)
    requires Sorted(list) && s.id !in Ids(list)
    ensures Sorted(Insert(list, s))
    ensures forall x :: x in Insert(list, s) <==> x == s || x in list
  {
    if list != [] && !Before(s, list[0]) {
      var rest := list[1..];
      assert list == [list[0]] + rest;
      assert list[0].id in Ids(list);
      forall x | x in rest ensures x.id in Ids(list) { assert x in list; }
      InsertKeepsOrder(rest, s);
      forall x | x in Insert(rest, s) ensures Before(list[0], x) && list[0].id != x.id {
        if x != s {
          var j :| 0 <= j < |rest| && rest[j] == x;
          assert x == list[j + 1];
        }
      }
      InFront(list[0], Insert(rest, s));
    } else {
      assert Insert(list, s) == [s] + list;
      forall x | x in list ensures Before(s, x) && s.id != x.id {
        assert x.id in Ids(list);
        if x != list[0] {
          var j :| 0 <= j < |list| && list[j] == x;
          assert Before(list[0], list[j]);
        }
      }
      InFront(s, list);
    }
  }

  lemma InFront(s: Spec, list: seq<Spec>)
    requires Sorted(list) && forall x :: x in list ==> Before(s, x) && s.id != x.id
    ensures Sorted([s] + list)
  {
    var all := [s] + list;
    forall i, j | 0 <= i < j < |all| ensures Before(all[i], all[j]) && all[i].id != all[j].id {
      assert all[j] == list[j - 1];
      if i > 0 { assert all[i] == list[i - 1]; }
    }
  }

  lemma InsertKeepsListed(list: seq<Spec>, ids: set<EffectId>, s: Spec)
    requires WellListed(list, ids) && s.id !in ids && s.dependsOn <= ids
    ensures WellListed(Insert(list, s), ids + {s.id})
  {
    hide Before;
    InsertKeepsOrder(list, s);
    var after := Insert(list, s);
    assert Sorted(after);
    forall id | id in ids + {s.id} ensures id in Ids(after) {
      if id == s.id {
        assert s in after;
      } else {
        assert id in Ids(list);
        var x :| x in list && x.id == id;
        assert x in after;
      }
    }
  }

  lemma NewEffectKeepsEffects(list: seq<Spec>, fx: Effects, s: Spec)
    requires WellListed(list, fx.Keys) && s.id !in fx && EffectsOk(fx) && ReleaseOrdered(list, fx)
    requires NothingAttempted(fx) && NothingAborted(fx)
    ensures var fx' := fx[s.id := Effect(Verified, false, 0, false)];
            && EffectsOk(fx') && ReleaseOrdered(Insert(list, s), fx') && BackwardIdle(Insert(list, s), fx')
            && NothingAttempted(fx') && NothingAborted(fx')
  {
  }

  lemma PrepareKeepsInv(w: World, id: EffectId, adapter: Adapter, dependsOn: set<EffectId>)
    requires Inv(w)
    ensures Inv(Prepare(w, id, adapter, dependsOn).w)
  {
    hide WellListed, EffectsOk, ReleaseOrdered, BackwardIdle, NothingAttempted, NothingAborted, Insert;
    var s := Spec(id, adapter, dependsOn, |w.list|);
    if BeforeRelease(w.tx) && !w.tx.Aborting? && !w.tx.Aborted? && id !in w.fx && dependsOn <= w.fx.Keys {
      InsertKeepsListed(w.list, w.fx.Keys, s);
      NewEffectKeepsEffects(w.list, w.fx, s);
      assert w.fx[id := Effect(Verified, false, 0, false)].Keys == w.fx.Keys + {id};
    }
  }

  // ---- Every call keeps the invariant ----

  lemma RefreshKeepsInv(w: World, id: EffectId)
    requires Inv(w)
    ensures Inv(Refresh(w, id).w)
  {
    hide WellListed;
    if (w.tx.Active? || w.tx.Stale?) && id in w.fx && w.fx[id].Waiting() {
      assert !w.fx[id].Attempted();
      var fx' := w.fx[id := w.fx[id].(status := Verified)];
      assert w.fx[id].(status := Verified) == w.fx[id];
      assert fx' == w.fx;
    }
  }

  lemma EarlyCallsKeepInv(w: World, passed: bool, digest: nat)
    requires Inv(w)
    ensures Inv(Seal(w).w) && Inv(RecordVerification(w, passed).w) && Inv(Approve(w, digest).w)
  {
    hide WellListed, EffectsOk, ReleaseOrdered, BackwardIdle, NothingAttempted, NothingAborted;
  }

  lemma AppearsKeeps(list: seq<Spec>, fx: Effects, id: EffectId)
    requires id in fx && fx[id].landed == 0
    ensures var fx' := fx[id := fx[id].(elsewhere := true)];
            && fx'.Keys == fx.Keys
            && (EffectsOk(fx) ==> EffectsOk(fx')) && (ReleaseOrdered(list, fx) ==> ReleaseOrdered(list, fx'))
            && (BackwardIdle(list, fx) ==> BackwardIdle(list, fx'))
            && (NothingAttempted(fx) ==> NothingAttempted(fx')) && (NothingAborted(fx) ==> NothingAborted(fx'))
            && (AllCommitted(fx) ==> AllCommitted(fx'))
  {
    var fx' := fx[id := fx[id].(elsewhere := true)];
    assert forall k :: Get(fx', k).status == Get(fx, k).status;
    if ReleaseOrdered(list, fx) {
      forall s | s in list && Get(fx', s.id).Attempted() ensures DependenciesCommitted(s, fx') {
        assert DependenciesCommitted(s, fx);
      }
    }
  }

  lemma SurroundingsKeepInv(w: World, pinned: bool, id: EffectId)
    requires Inv(w)
    ensures Inv(Perform(w, SourceMoves(pinned))) && Inv(Perform(w, RefRemovedOutside))
    ensures Inv(Perform(w, AppearsElsewhere(id)))
  {
    hide Prepare, Refresh, Seal, RecordVerification, Approve, Commit, Recover, Abort;
    hide WellListed, EffectsOk, ReleaseOrdered, BackwardIdle, NothingAttempted, NothingAborted, AllCommitted;
    if id in w.fx && w.fx[id].landed == 0 { AppearsKeeps(w.list, w.fx, id); }
  }

  lemma PerformKeepsInv(w: World, call: Call)
    requires Inv(w)
    ensures Inv(Perform(w, call))
  {
    hide Inv, Prepare, Refresh, Seal, RecordVerification, Approve, Commit, Recover, Abort;
    match call
    case CallPrepare(id, adapter, dependsOn) => PrepareKeepsInv(w, id, adapter, dependsOn);
    case CallRefresh(id) => RefreshKeepsInv(w, id);
    case CallSeal => EarlyCallsKeepInv(w, true, 0);
    case CallVerify(passed) => EarlyCallsKeepInv(w, passed, 0);
    case CallApprove(digest) => EarlyCallsKeepInv(w, true, digest);
    case CallCommit(digest) => CommitIsSafe(w, digest);
    case CallRecover => RecoverIsSafe(w);
    case CallAbort => AbortIsSafe(w);
    case SourceMoves(p) => SurroundingsKeepInv(w, p, 0);
    case RefRemovedOutside => SurroundingsKeepInv(w, true, 0);
    case AppearsElsewhere(id) => SurroundingsKeepInv(w, true, id);
  }

  /** The invariant holds after every run, and so, a crash being a run that goes no further, during it. */
  lemma {:induction false} RunKeepsInv(steps: seq<Step>)
    ensures Inv(Run(steps))
  {
    if steps == [] {
      NewTransactionIsSound();
    } else {
      hide Inv, Perform;
      var before := Run(steps[..|steps| - 1]);
      var step := steps[|steps| - 1];
      RunKeepsInv(steps[..|steps| - 1]);
      InvIgnoresWire(before, before.(wire := step.wire));
      PerformKeepsInv(before.(wire := step.wire), step.call);
    }
  }

  lemma NewTransactionIsSound()
    ensures Inv(NEW_TRANSACTION)
  {
  }

  // ---- What follows for every run ----

  /**
   * Each effect is applied at its provider at most once, never where its resource was there already,
   * and never behind a status that denies it.
   */
  lemma AtMostOnce(steps: seq<Step>, id: EffectId)
    ensures var e := Get(Run(steps).fx, id);
            e.landed <= 1 && (e.landed == 1 ==> e.Attempted() && !e.elsewhere)
                && (e.status.Committed? ==> e.Present() && e.receipt)
  {
    hide Run;
    RunKeepsInv(steps);
  }

  /** Outside the four releasing statuses nothing has been applied anywhere. */
  lemma NothingReleasedOutsideCommit(steps: seq<Step>)
    ensures var w := Run(steps); !InRelease(w.tx) ==> forall id :: id in w.fx ==> w.fx[id].landed == 0
  {
    hide Run;
    RunKeepsInv(steps);
    var w := Run(steps);
    if !InRelease(w.tx) {
      assert NothingAttempted(w.fx);
    }
  }

  /** An effect that was attempted has all its dependencies recorded committed. */
  lemma ReleaseOrder(steps: seq<Step>, s: Spec, d: EffectId)
    requires var w := Run(steps); s in w.list && d in s.dependsOn && Get(w.fx, s.id).Attempted()
    ensures Get(Run(steps).fx, d).status.Committed?
  {
    hide Run;
    RunKeepsInv(steps);
    assert DependenciesCommitted(s, Run(steps).fx);
  }

  /** The ref is recorded before anything is attempted, and is there unless someone removed it. */
  lemma RefFirst(steps: seq<Step>, id: EffectId)
    requires Get(Run(steps).fx, id).Attempted()
    ensures var r := Run(steps).repo; r.recorded && (r.ref || r.removed)
  {
    hide Run;
    RunKeepsInv(steps);
  }

  /** Committed means complete: the ref is recorded, every effect is at its provider and has a receipt. */
  lemma CommittedIsComplete(steps: seq<Step>)
    requires Run(steps).tx.Committed?
    ensures var w := Run(steps);
            && w.repo.recorded
            && forall id :: id in w.fx ==> w.fx[id].status.Committed? && w.fx[id].receipt && w.fx[id].Present()
  {
    hide Run;
    RunKeepsInv(steps);
  }

  /** Whatever is released is released under an approval of exactly the present material. */
  lemma ReleasedUnderPresentApproval(steps: seq<Step>)
    requires InRelease(Run(steps).tx)
    ensures var a := Run(steps).approval; a.digest == Some(a.epoch)
  {
    hide Run;
    RunKeepsInv(steps);
  }

  /** The guard against aborting a released effect is never needed. */
  lemma AbortNeverMeetsAnAttempt(steps: seq<Step>)
    requires Abortable(Run(steps).tx)
    ensures !SomeAttempted(Run(steps).fx)
  {
    hide Run;
    RunKeepsInv(steps);
    assert NothingAttempted(Run(steps).fx);
  }

  /**
   * Once an effect was attempted, the ref reads as absent only because it was removed from outside
   * or because git could not answer.
   */
  lemma AbsentRefExplained(steps: seq<Step>, id: EffectId, wire: Wire)
    requires Get(Run(steps).fx, id).Attempted()
    ensures InspectRef(Run(steps).(wire := wire)).RefAbsent? ==>
              Run(steps).repo.removed || wire.Next().Silent?
  {
    hide Run;
    RunKeepsInv(steps);
  }

  // ---- Histories ----

  /** Effects stay, mutations and commits are not undone, and the status moves by steps of the table. */
  ghost predicate Later(w: World, w': World) {
    && (forall id :: id in w.fx ==>
          && id in w'.fx && w.fx[id].landed <= w'.fx[id].landed
          && (w.fx[id].status.Committed? ==> w'.fx[id].status.Committed?))
    && (forall s :: s in w.list ==> s in w'.list)
    && S.Reaches(w.tx, w'.tx)
  }

  lemma {:induction false} InsertKeeps(list: seq<Spec>, s: Spec, x: Spec)
    requires x == s || x in list
    ensures x in Insert(list, s)
  {
    if list != [] && !Before(s, list[0]) && x != list[0] {
      assert list == [list[0]] + list[1..];
      InsertKeeps(list[1..], s, x);
    }
  }

  lemma PrepareMeansLater(w: World, id: EffectId, adapter: Adapter, dependsOn: set<EffectId>)
    ensures Later(w, Prepare(w, id, adapter, dependsOn).w)
  {
    hide S.Reaches, Insert;
    S.ReachesItself(w.tx);
    forall x | x in w.list ensures x in Insert(w.list, Spec(id, adapter, dependsOn, |w.list|)) {
      InsertKeeps(w.list, Spec(id, adapter, dependsOn, |w.list|), x);
    }
  }

  lemma SafeMeansLater(w: World, w': World)
    requires Safe(w, w')
    ensures Later(w, w')
  {
    hide Inv, S.Reaches;
  }

  lemma EarlyCallsMeanLater(w: World, passed: bool, digest: nat)
    ensures Later(w, Seal(w).w) && Later(w, RecordVerification(w, passed).w) && Later(w, Approve(w, digest).w)
  {
    hide S.Reaches;
    S.ReachesItself(w.tx);
    if w.tx.Active? { S.ReachesInOne(w.tx, S.Sealed); }
    if w.tx.Sealed? || w.tx.Stale? {
      var verdict := if passed then S.Ready else S.FailedVerification;
      S.ReachesInOne(w.tx, S.Verifying);
      S.ReachesInOne(S.Verifying, verdict);
      S.ReachesTransitive(w.tx, S.Verifying, verdict);
    }
  }

  lemma PerformMeansLater(w: World, call: Call)
    requires Inv(w)
    ensures Later(w, Perform(w, call))
  {
    hide Inv, Prepare, Seal, RecordVerification, Approve, Commit, Recover, Abort, S.Reaches;
    S.ReachesItself(w.tx);
    match call
    case CallPrepare(id, adapter, dependsOn) => PrepareMeansLater(w, id, adapter, dependsOn);
    case CallSeal => EarlyCallsMeanLater(w, true, 0);
    case CallVerify(passed) => EarlyCallsMeanLater(w, passed, 0);
    case CallApprove(digest) => EarlyCallsMeanLater(w, true, digest);
    case CallCommit(digest) => CommitIsSafe(w, digest); SafeMeansLater(w, Commit(w, digest).w);
    case CallRecover => RecoverIsSafe(w); SafeMeansLater(w, Recover(w).w);
    case CallAbort => AbortIsSafe(w); SafeMeansLater(w, Abort(w).w);
    case _ =>
  }

  lemma LaterSelf(w: World)
    ensures Later(w, w)
  {
    hide S.Reaches;
    S.ReachesItself(w.tx);
  }

  lemma LaterOnward(w: World, w1: World, w2: World, w3: World)
    requires Later(w, w1) && w2 == w1.(wire := w2.wire) && Later(w2, w3)
    ensures Later(w, w3)
  {
    hide S.Reaches;
    S.ReachesTransitive(w.tx, w1.tx, w3.tx);
  }

  /** What a run had reached after its first k calls is kept by the rest of it. */
  lemma {:induction false} RunOnlyGrows(steps: seq<Step>, k: nat)
    requires k <= |steps|
    ensures Later(Run(steps[..k]), Run(steps))
    decreases |steps|
  {
    hide Perform, Later, Inv;
    if k == |steps| {
      assert steps[..k] == steps;
      LaterSelf(Run(steps));
    } else {
      var shorter := steps[..|steps| - 1];
      assert shorter[..k] == steps[..k];
      RunOnlyGrows(shorter, k);
      RunKeepsInv(shorter);
      var w := Run(shorter).(wire := steps[|steps| - 1].wire);
      InvIgnoresWire(Run(shorter), w);
      PerformMeansLater(w, steps[|steps| - 1].call);
      LaterOnward(Run(steps[..k]), Run(shorter), w, Run(steps));
    }
  }

  /** A transaction once committed, aborted or sent to manual intervention stays so. */
  lemma FinalForGood(steps: seq<Step>, k: nat)
    requires k <= |steps| && S.Absorbing(Run(steps[..k]).tx)
    ensures Run(steps).tx == Run(steps[..k]).tx
  {
    hide Run;
    RunOnlyGrows(steps, k);
    var path :| |path| > 0 && S.Walk(path) && path[0] == Run(steps[..k]).tx && path[|path| - 1] == Run(steps).tx;
    S.FinalStateEndsTheWalk(path, 0);
  }

  /** A transaction once aborted stays aborted, and has released nothing before or after. */
  lemma AbortedForGood(steps: seq<Step>, k: nat)
    requires k <= |steps| && Run(steps[..k]).tx.Aborted?
    ensures Run(steps).tx.Aborted? && forall id :: id in Run(steps).fx ==> Run(steps).fx[id].landed == 0
  {
    hide Run;
    FinalForGood(steps, k);
    NothingReleasedOutsideCommit(steps);
  }

  /** No call leads out of aborting: neither a second abort nor a recovery takes it up. */
  lemma AbortingIsLeftAlone(w: World, call: Call)
    requires w.tx.Aborting?
    ensures Perform(w, call).tx.Aborting?
  {
    hide Insert, CommitPinned, Reconcile;
  }

  /** So an abort that is cut short after its first write leaves the transaction in aborting for good. */
  lemma {:induction false} AbortingForGood(steps: seq<Step>, k: nat)
    requires k <= |steps| && Run(steps[..k]).tx.Aborting?
    ensures Run(steps).tx.Aborting?
    decreases |steps|
  {
    hide Perform;
    if k == |steps| {
      assert steps[..k] == steps;
    } else {
      var shorter := steps[..|steps| - 1];
      assert shorter[..k] == steps[..k];
      AbortingForGood(shorter, k);
      AbortingIsLeftAlone(Run(shorter).(wire := steps[|steps| - 1].wire), steps[|steps| - 1].call);
    }
  }

  // ---- Dependencies that the list puts the wrong way round ----

  /** Neither end of a backward dependency is ever attempted, whatever is called and however often. */
  lemma BackwardNeverReleased(steps: seq<Step>, s: Spec, t: Spec)
    requires Backward(Run(steps).list, s, t)
    ensures var fx := Run(steps).fx;
            && !Get(fx, s.id).Attempted() && !Get(fx, t.id).Attempted()
            && Get(fx, s.id).landed == 0 && Get(fx, t.id).landed == 0
  {
    hide Run, Before;
    RunKeepsInv(steps);
    IdListed(Run(steps).list, s);
    IdListed(Run(steps).list, t);
  }

  lemma IdListed(list: seq<Spec>, s: Spec)
    requires s in list
    ensures s.id in Ids(list)
  {
  }

  /** So a transaction that holds one is never committed. */
  lemma BackwardNeverCommits(steps: seq<Step>, s: Spec, t: Spec)
    requires Backward(Run(steps).list, s, t)
    ensures !Run(steps).tx.Committed?
  {
    hide Run, Before;
    RunKeepsInv(steps);
    BackwardNeverReleased(steps, s, t);
    IdListed(Run(steps).list, s);
    assert s.id in Run(steps).fx;
  }
}
