/** Where a recovery ends when everything it calls answers. */
module CoordinatorLiveness {
  import opened Wrappers
  import opened CommitWorld
  import opened Coordinator
  import opened CoordinatorSafety
  import opened CoordinatorRuns
  import S = TransactionStates

  /** Every call from here on is carried out and acknowledged. */
  predicate Calm(w: World) {
    w.wire == Wire([], Done)
  }

  // ---- Looking up every unresolved effect ----

  /** What a truthful look-up makes of an effect. */
  function Settled(e: Effect): Effect {
    if !e.status.Committing? && !e.status.Unknown? then e
    else if e.landed > 0 || e.elsewhere then e.(status := Committed, receipt := true)
    else e.(status := Verified)
  }

  /** From position i on every listed effect is settled; before it none has changed. */
  ghost predicate SettledFrom(list: seq<Spec>, i: nat, fx: Effects, fx': Effects) {
    forall k :: 0 <= k < |list| ==>
      Get(fx', list[k].id) == if k < i then Get(fx, list[k].id) else Settled(Get(fx, list[k].id))
  }

  lemma ReconcileOneCalm(w: World, s: Spec, t: Tally)
    requires Calm(w) && w.tx.NeedsReconciliation? && s.id in w.fx && w.fx[s.id].Unresolved() && t.ok
    ensures ReconcileOne(w, s, t).w == SetEffect(w, s.id, Settled(w.fx[s.id])) && ReconcileOne(w, s, t).t.ok
  {
  }

  lemma SettleHead(list: seq<Spec>, ids: set<EffectId>, i: nat, fx: Effects, fx1: Effects, fx2: Effects)
    requires WellListed(list, ids) && i < |list|
    requires fx1 == fx[list[i].id := Settled(Get(fx, list[i].id))] || (fx1 == fx && !Get(fx, list[i].id).Unresolved())
    requires SettledFrom(list, i + 1, fx1, fx2)
    ensures SettledFrom(list, i, fx, fx2)
  {
    forall k | 0 <= k < |list|
      ensures Get(fx2, list[k].id) == if k < i then Get(fx, list[k].id) else Settled(Get(fx, list[k].id))
    {
      assert k != i ==> list[k].id != list[i].id;
    }
  }

  lemma ExactOnward(list: seq<Spec>, ids: set<EffectId>, rows: seq<Row>, i: nat, fx: Effects, e: Effect)
    requires WellListed(list, ids) && i < |list| && RowsExact(rows, list, fx, i)
    ensures RowsExact(rows, list, fx[list[i].id := e], i + 1) && RowsExact(rows, list, fx, i + 1)
  {
    forall k | i + 1 <= k < |list| ensures list[k].id != list[i].id {
    }
  }

  /** The statuses of a transaction in a commit. */
  lemma StatusesInCommit(w: World, k: nat)
    requires Inv(w) && InCommit(w) && k < |w.list|
    ensures w.list[k].id in w.fx && w.list[k] in w.list
    ensures var e := w.fx[w.list[k].id]; e.status.Verified? || e.status.Committed? || e.Unresolved()
  {
    assert w.list[k].id in Ids(w.list);
  }

  lemma {:induction false} ReconcileFromCalm(w: World, rows: seq<Row>, i: nat, t: Tally)
    requires Inv(w) && Calm(w) && w.tx.NeedsReconciliation? && i <= |rows| == |w.list| && t.ok
    requires RowsExact(rows, w.list, w.fx, i)
    ensures var r := ReconcileFrom(w, rows, i, t);
            r.t.ok && r.w == w.(fx := r.w.fx) && SettledFrom(w.list, i, w.fx, r.w.fx)
    decreases |rows| - i
  {
    hide ReconcileOne, Inv, WellListed, RowsExact, SettledFrom;
    if i == |rows| {
      NothingToSettle(w.list, w.fx);
    } else {
      var s := w.list[i];
      RowAt(w, rows, i);
      StatusesInCommit(w, i);
      var e := w.fx[s.id];
      ExactOnward(w.list, w.fx.Keys, rows, i, w.fx, Settled(e));
      if e.Unresolved() {
        ReconcileOneCalm(w, s, t);
        ReconcileOneKeeps(w, s, t);
        var r := ReconcileOne(w, s, t);
        ReconcileFromCalm(r.w, rows, i + 1, r.t);
        SettleHead(w.list, w.fx.Keys, i, w.fx, r.w.fx, ReconcileFrom(r.w, rows, i + 1, r.t).w.fx);
      } else {
        var t' := if e.status.Committed? then t.(any := true) else t.(all := false);
        ReconcileFromCalm(w, rows, i + 1, t');
        SettleHead(w.list, w.fx.Keys, i, w.fx, w.fx, ReconcileFrom(w, rows, i + 1, t').w.fx);
      }
    }
  }

  lemma NothingToSettle(list: seq<Spec>, fx: Effects)
    ensures SettledFrom(list, |list|, fx, fx)
  {
  }

  /** Some effect was attempted and is at its provider. */
  ghost predicate Released(fx: Effects) {
    exists id :: id in fx && fx[id].Attempted() && fx[id].Present()
  }

  ghost predicate AllReleased(fx: Effects) {
    forall id :: id in fx ==> fx[id].Attempted() && fx[id].Present()
  }

  /** Reconciliation goes through; its tally tells what had been released before it. */
  lemma ReconcileEffectsCalm(w: World)
    requires Inv(w) && Calm(w) && w.tx.NeedsReconciliation?
    ensures var r := ReconcileExternalEffects(w);
            && r.t.ok && r.w == w.(fx := r.w.fx) && Inv(r.w)
            && (r.t.all <==> AllReleased(w.fx)) && (r.t.any <==> Released(w.fx))
            && (r.t.all <==> AllCommitted(r.w.fx))
            && SettledFrom(w.list, 0, w.fx, r.w.fx)
  {
    hide Inv, RowsExact, SettledFrom, TallyExact, ReconcileFrom, FxGrown;
    var rows := Rows(w.list, w.fx);
    FreshRowsExact(w);
    ReconcileEffectsKeeps(w);
    ReconcileFromCalm(w, rows, 0, Tally(true, true, false));
    var r := ReconcileExternalEffects(w);
    TallyTells(w, r.t, r.w.fx);
  }

  lemma TallyTells(w: World, t: Tally, fx': Effects)
    requires Inv(w) && TallyExact(t, w.list, |w.list|, fx') && SettledFrom(w.list, 0, w.fx, fx')
        && fx'.Keys == w.fx.Keys
    ensures (t.all <==> AllReleased(w.fx)) && (t.any <==> Released(w.fx)) && (t.all <==> AllCommitted(fx'))
  {
    hide WellListed, ReleaseOrdered, BackwardIdle, PhaseOk;
    forall id | id in w.fx
      ensures exists k :: 0 <= k < |w.list| && w.list[k].id == id
      ensures fx'[id].status.Committed? <==> w.fx[id].Attempted() && w.fx[id].Present()
    {
      ListedAt(w.list, w.fx.Keys, id);
    }
    forall k | 0 <= k < |w.list| ensures w.list[k].id in w.fx { IdAt(w.list, w.fx.Keys, k); }
    if Released(w.fx) {
      var id :| id in w.fx && w.fx[id].Attempted() && w.fx[id].Present();
      var k :| 0 <= k < |w.list| && w.list[k].id == id;
      assert Get(fx', w.list[k].id).status.Committed?;
    }
    if t.any {
      var k :| 0 <= k < |w.list| && Get(fx', w.list[k].id).status.Committed?;
      assert w.list[k].id in w.fx;
    }
  }

  lemma ListedAt(list: seq<Spec>, ids: set<EffectId>, id: EffectId)
    requires WellListed(list, ids) && id in ids
    ensures exists k :: 0 <= k < |list| && list[k].id == id
  {
    var s :| s in list && s.id == id;
    var k :| 0 <= k < |list| && list[k] == s;
  }

  lemma IdAt(list: seq<Spec>, ids: set<EffectId>, k: nat)
    requires WellListed(list, ids) && k < |list|
    ensures list[k].id in ids
  {
    assert list[k].id in Ids(list);
  }

  // ---- Releasing the rest ----

  lemma CommitOneCalm(w: World, s: Spec)
    requires Calm(w) && InCommit(w) && s.id in w.fx && w.fx[s.id].Waiting()
    ensures var r := CommitOne(w, s);
            r.ok && r.w == SetEffect(w, s.id, Get(r.w.fx, s.id)) && Get(r.w.fx, s.id).status.Committed?
  {
    var w1 := SetEffect(w, s.id, w.fx[s.id].(status := Committing));
    assert BeginCommitAttempt(w, s.id) == Out(w1, true);
    AfterBeginCalm(w1, s);
    var r := AfterBegin(w1, s);
    assert r.w.fx == w.fx[s.id := Get(r.w.fx, s.id)];
  }

  lemma AfterBeginCalm(w: World, s: Spec)
    requires Calm(w) && s.id in w.fx
    ensures var r := AfterBegin(w, s);
            r.ok && r.w == SetEffect(w, s.id, Get(r.w.fx, s.id)) && Get(r.w.fx, s.id).status.Committed?
  {
    hide QueryThenRelease;
    QueryThenReleaseCalm(w, s);
  }

  lemma QueryThenReleaseCalm(w: World, s: Spec)
    requires Calm(w) && s.id in w.fx
    ensures var r := QueryThenRelease(w, s);
            r.ok && r.w == SetEffect(w, s.id, Get(r.w.fx, s.id)) && Get(r.w.fx, s.id).status.Committed?
  {
    if !w.fx[s.id].Present() {
      var landed := w.fx[s.id].(landed := w.fx[s.id].landed + 1);
      assert Mutate(w, s.id) == SetEffect(w, s.id, landed);
      assert w.fx[s.id := landed][s.id := landed.(status := Committed, receipt := true)]
          == w.fx[s.id := landed.(status := Committed, receipt := true)];
    }
  }

  /** Each effect still to be released has its dependencies committed, or listed between i and itself. */
  ghost predicate Orderly(rows: seq<Row>, i: nat, committed: set<EffectId>) {
    forall k, d :: i <= k < |rows| && !rows[k].status.Committed? && d in rows[k].spec.dependsOn ==>
      d in committed || ListedWithin(rows, i, k, d)
  }

  ghost predicate ListedWithin(rows: seq<Row>, i: nat, k: nat, d: EffectId) {
    exists j :: i <= j < k && j < |rows| && rows[j].spec.id == d
  }

  lemma WithinStep(rows: seq<Row>, i: nat, k: nat, d: EffectId)
    requires i < k <= |rows|
    ensures ListedWithin(rows, i, k, d) <==> rows[i].spec.id == d || ListedWithin(rows, i + 1, k, d)
  {
  }

  lemma OrderlyStep(rows: seq<Row>, i: nat, committed: set<EffectId>)
    requires i < |rows| && (rows[i].status.Committed? ==> rows[i].spec.id in committed)
    ensures Orderly(rows, i, committed) <==>
              && (!rows[i].status.Committed? ==> rows[i].spec.dependsOn <= committed)
              && Orderly(rows, i + 1, committed + {rows[i].spec.id})
  {
    forall k, d | i < k < |rows| && d in rows[k].spec.dependsOn
      ensures (d in committed || ListedWithin(rows, i, k, d))
         <==> (d in committed + {rows[i].spec.id} || ListedWithin(rows, i + 1, k, d))
    {
      WithinStep(rows, i, k, d);
    }
    if Orderly(rows, i, committed) && !rows[i].status.Committed? {
      forall d | d in rows[i].spec.dependsOn ensures d in committed { assert !ListedWithin(rows, i, i, d); }
    }
  }

  ghost predicate RowsCanGo(rows: seq<Row>, i: nat) {
    forall k :: i <= k < |rows| ==> rows[k].status.Verified? || rows[k].status.Committed?
  }

  ghost predicate CommittedRowsIn(rows: seq<Row>, committed: set<EffectId>) {
    forall k :: 0 <= k < |rows| && rows[k].status.Committed? ==> rows[k].spec.id in committed
  }

  /** With every call answered, a release of the list fails at a dependency or not at all. */
  lemma {:induction false} CommitFromCalm(w: World, rows: seq<Row>, i: nat, committed: set<EffectId>)
    requires Calm(w) && InCommit(w) && WellListed(w.list, w.fx.Keys) && i <= |rows| == |w.list|
    requires RowsExact(rows, w.list, w.fx, i) && RowsCanGo(rows, i) && CommittedRowsIn(rows, committed)
    ensures var r := CommitFrom(w, rows, i, committed);
            r.w == w.(fx := r.w.fx) && (r.ok <==> Orderly(rows, i, committed))
    decreases |rows| - i
  {
    hide CommitOne, WellListed, RowsExact, Orderly;
    if i == |rows| {
      assert Orderly(rows, i, committed) by { NothingLeft(rows, committed); }
    } else {
      var s := w.list[i];
      IdAt(w.list, w.fx.Keys, i);
      assert rows[i] == Row(s, w.fx[s.id].status) by { ExactAt(rows, w.list, w.fx, i); }
      OrderlyStep(rows, i, committed);
      ExactOnward(w.list, w.fx.Keys, rows, i, w.fx, w.fx[s.id]);
      if rows[i].status.Committed? {
        assert committed + {s.id} == committed;
        CommitFromCalm(w, rows, i + 1, committed);
      } else if s.dependsOn <= committed {
        CommitOneCalm(w, s);
        var r := CommitOne(w, s);
        ExactOnward(w.list, w.fx.Keys, rows, i, w.fx, Get(r.w.fx, s.id));
        assert r.w.fx.Keys == w.fx.Keys;
        CommitFromCalm(r.w, rows, i + 1, committed + {s.id});
      }
    }
  }

  lemma NothingLeft(rows: seq<Row>, committed: set<EffectId>)
    ensures Orderly(rows, |rows|, committed)
  {
  }

  lemma ExactAt(rows: seq<Row>, list: seq<Spec>, fx: Effects, i: nat)
    requires RowsExact(rows, list, fx, i) && i < |list|
    ensures rows[i] == Row(list[i], Get(fx, list[i].id).status)
  {
  }

  /** Every dependency is listed before the effect that has it. */
  ghost predicate Topological(list: seq<Spec>) {
    forall s, t :: !Backward(list, s, t)
  }

  lemma BeforeMeansEarlier(list: seq<Spec>, ids: set<EffectId>, j: nat, k: nat)
    requires WellListed(list, ids) && j < |list| && k < |list|
    ensures Before(list[j], list[k]) <==> j < k
  {
    if k < j {
      assert Before(list[k], list[j]);
    }
  }

  lemma TopologicalIsOrderly(list: seq<Spec>, ids: set<EffectId>, rows: seq<Row>, committed: set<EffectId>)
    requires WellListed(list, ids) && Topological(list) && |rows| == |list|
    requires forall k :: 0 <= k < |list| ==> rows[k].spec == list[k]
    ensures Orderly(rows, 0, committed)
  {
    forall k, d | 0 <= k < |rows| && d in rows[k].spec.dependsOn ensures ListedWithin(rows, 0, k, d) {
      assert list[k] in list;
      ListedAt(list, ids, d);
      var j :| 0 <= j < |list| && list[j].id == d;
      BeforeMeansEarlier(list, ids, j, k);
      assert !Backward(list, list[k], list[j]);
      assert rows[j].spec.id == d;
    }
  }

  lemma OrderlyIsTopological(w: World, rows: seq<Row>, committed: set<EffectId>)
    requires Inv(w) && RowsExact(rows, w.list, w.fx, 0) && Orderly(rows, 0, committed)
    requires AllAreCommitted(committed, w.fx)
    ensures Topological(w.list)
  {
    hide ReleaseOrdered, PhaseOk, EffectsOk;
    forall s, t | s in w.list && t in w.list && t.id in s.dependsOn ensures !Backward(w.list, s, t) {
      var k :| 0 <= k < |w.list| && w.list[k] == s;
      var j :| 0 <= j < |w.list| && w.list[j] == t;
      if ListedWithin(rows, 0, k, t.id) {
        var n :| 0 <= n < k && rows[n].spec.id == t.id;
        assert n == j;
      } else {
        assert rows[k].status.Committed? || t.id in committed;
        assert Get(w.fx, s.id).Attempted() || Get(w.fx, t.id).Attempted();
      }
    }
  }

  /** A release of the whole list, every call answered, succeeds exactly if the list is topological. */
  lemma CommitEffectsCalm(w: World)
    requires Inv(w) && Calm(w) && InCommit(w) && w.repo.recorded
    requires forall k :: 0 <= k < |w.list| ==> !Get(w.fx, w.list[k].id).Unresolved()
    ensures var r := CommitExternalEffects(w);
            && r.w == w.(fx := r.w.fx) && (r.ok <==> Topological(w.list))
            && (r.ok ==> AllCommitted(r.w.fx))
  {
    hide Inv, RowsExact, CommitFrom, Orderly, FxGrown, Topological;
    var rows := Rows(w.list, w.fx);
    var committed := CommittedIds(rows);
    CommitEffectsKeeps(w);
    FreshRowsExact(w);
    FreshRows(w);
    forall k | 0 <= k < |rows| ensures rows[k].status.Verified? || rows[k].status.Committed? { StatusesInCommit(w, k); }
    assert WellListed(w.list, w.fx.Keys) by { InvListed(w); }
    CommitFromCalm(w, rows, 0, committed);
    if Topological(w.list) { TopologicalIsOrderly(w.list, w.fx.Keys, rows, committed); }
    if Orderly(rows, 0, committed) { OrderlyIsTopological(w, rows, committed); }
  }

  lemma InvListed(w: World)
    requires Inv(w)
    ensures WellListed(w.list, w.fx.Keys)
  {
  }

  // ---- Recovery as a whole ----

  /** Where a recovery that finds the ref present or absent ends when everything answers. */
  ghost function Verdict(w: World, present: bool): S.State {
    if present && AllReleased(w.fx) then S.Committed
    else if present && Released(w.fx) then (if Topological(w.list) then S.Committed else S.NeedsReconciliation)
    else if Released(w.fx) then S.ManualIntervention
    else if w.repo.pinned then S.Ready
    else S.Stale
  }

  lemma SettledResolves(list: seq<Spec>, fx: Effects, fx': Effects)
    requires SettledFrom(list, 0, fx, fx')
    ensures forall k :: 0 <= k < |list| ==> !Get(fx', list[k].id).Unresolved()
  {
  }

  lemma FinalizeCalm(w: World)
    requires Calm(w) && InCommit(w) && w.repo.recorded && AllCommitted(w.fx)
    ensures FinalizeTransactionCommit(w) == Out(w.(tx := S.Committed), true)
  {
  }

  lemma ResolveCalm(w: World, present: bool, t: Tally)
    requires Inv(w) && Calm(w) && w.tx.NeedsReconciliation? && (present ==> w.repo.recorded)
    requires forall k :: 0 <= k < |w.list| ==> !Get(w.fx, w.list[k].id).Unresolved()
    requires t.all <==> AllCommitted(w.fx)
    ensures var r := Resolve(w, present, t.all, t.any);
            && r.w.repo == w.repo
            && r.w.tx == (if present && t.all then S.Committed
                          else if present && t.any then
                            (if Topological(w.list) then S.Committed else S.NeedsReconciliation)
                          else if t.any then S.ManualIntervention
                          else if w.repo.pinned then S.Ready else S.Stale)
            && (r.ok <==> r.w.tx.Committed? || r.w.tx.Ready? || r.w.tx.Stale?)
  {
    hide Inv, CommitExternalEffects, Topological, AllCommitted;
    if present { CommitEffectsCalm(w); }
    if present && t.all { FinalizeCalm(w); }
    if present && t.any && !t.all && Topological(w.list) { FinalizeCalm(CommitExternalEffects(w).w); }
  }

  lemma ReconcileAndResolveCalm(w: World, present: bool)
    requires Inv(w) && Calm(w) && w.tx.NeedsReconciliation? && (present ==> w.repo.ref)
    ensures var r := ReconcileAndResolve(w, present);
            && r.w.tx == Verdict(w, present) && (!present ==> r.w.repo == w.repo)
            && (r.ok <==> r.w.tx.Committed? || r.w.tx.Ready? || r.w.tx.Stale?)
  {
    hide Inv, ReconcileExternalEffects, Resolve, AllReleased, Released, AllCommitted, SettledFrom, FxGrown,
        S.Reaches, Topological;
    var w1 := if present then RecordMaterializedRef(w).w else w;
    RefStepsAreSafe(w);
    assert Inv(w1) && Calm(w1) && w1.tx == w.tx && w1.list == w.list && w1.fx == w.fx
        && w1.repo.pinned == w.repo.pinned;
    ReconcileEffectsCalm(w1);
    var r := ReconcileExternalEffects(w1);
    SettledResolves(w.list, w.fx, r.w.fx);
    ResolveCalm(r.w, present, r.t);
  }

  /**
   * Where a recovery ends when every call is answered, for every state a crash can leave. It ends in
   * committed, ready or stale exactly when it returns without error.
   */
  lemma RecoverEnds(w: World)
    requires Inv(w) && Calm(w) && InCommit(w)
    ensures var r := Recover(w);
            && r.w.tx == Verdict(w, w.repo.ref)
            && (r.ok <==> r.w.tx.Committed? || r.w.tx.Ready? || r.w.tx.Stale?)
  {
    hide Inv, ReconcileAndResolve, Released, AllReleased, Topological;
    var w1 := w.(tx := S.NeedsReconciliation);
    MarkReconciliationKeeps(w);
    assert w.tx.Committing? ==> MarkNeedsReconciliation(w) == Out(w1, true);
    assert w.tx.NeedsReconciliation? ==> w1 == w;
    ReconcileAndResolveCalm(w1, w.repo.ref);
  }

  lemma AllOrNothing(fx: Effects)
    requires AllReleased(fx) && fx != map[]
    ensures Released(fx)
  {
    var id :| id in fx;
  }

  /**
   * With the ref not removed from outside and the list topological, one recovery always ends the
   * reconciliation: committed if the ref exists and an effect was released or there is none,
   * otherwise ready, or stale when the source moved.
   */
  lemma RecoverConverges(w: World)
    requires Inv(w) && Calm(w) && InCommit(w) && !w.repo.removed && Topological(w.list)
    ensures Recover(w).ok
    ensures Recover(w).w.tx == if w.repo.ref && (Released(w.fx) || w.fx == map[]) then S.Committed
                               else if w.repo.pinned then S.Ready else S.Stale
  {
    hide Topological, Recover;
    RecoverEnds(w);
    if AllReleased(w.fx) && w.fx != map[] { AllOrNothing(w.fx); }
    if Released(w.fx) {
      assert w.repo.ref by { hide WellListed, EffectsOk, ReleaseOrdered, BackwardIdle; }
    }
  }

  // ---- A commit as a whole ----

  lemma PreflightOneCalm(w: World, s: Spec)
    requires Calm(w)
    ensures PreflightOne(w, s) == Out(w, true)
  {
  }

  lemma {:induction false} PreflightCalm(w: World, rows: seq<Row>, i: nat)
    requires Calm(w) && i <= |rows|
    ensures PreflightFrom(w, rows, i) == Out(w, true)
    decreases |rows| - i
  {
    hide PreflightOne;
    if i < |rows| {
      PreflightOneCalm(w, rows[i].spec);
      PreflightCalm(w, rows, i + 1);
    }
  }

  /** Before a release every effect waits. */
  lemma WaitingBeforeRelease(w: World)
    requires Inv(w) && w.tx.Ready?
    ensures AllCommitReady(w.fx) && forall k :: 0 <= k < |w.list| ==> !Get(w.fx, w.list[k].id).Unresolved()
  {
    hide WellListed, ReleaseOrdered, BackwardIdle;
    assert NothingAttempted(w.fx) && NothingAborted(w.fx);
  }

  lemma CommitBegunCalm(w: World)
    requires Inv(w) && Calm(w) && w.tx.Committing? && w.repo.pinned
    requires forall k :: 0 <= k < |w.list| ==> !Get(w.fx, w.list[k].id).Unresolved()
    ensures var r := CommitBegun(w);
            && (r.ok <==> Topological(w.list))
            && r.w.tx == (if Topological(w.list) then S.Committed else S.NeedsReconciliation)
  {
    hide Inv, CommitExternalEffects, Topological, AllCommitted;
    var w1 := w.(repo := w.repo.(ref := true));
    assert Inv(w1) by { RefIsThere(w); }
    var w2 := w1.(repo := w1.repo.(recorded := true));
    RefStepsAreSafe(w1);
    assert RecordMaterializedRef(w1) == Out(w2, true);
    assert w.repo.ref ==> w1 == w;
    CommitEffectsCalm(w2);
    var released := CommitExternalEffects(w2);
    if released.ok { FinalizeCalm(released.w); }
  }

  lemma RefIsThere(w: World)
    requires Inv(w)
    ensures Inv(w.(repo := w.repo.(ref := true)))
  {
    hide WellListed, EffectsOk, ReleaseOrdered, BackwardIdle;
  }

  /**
   * When every call is answered, a commit of a ready transaction under its approval, the source
   * unmoved, succeeds exactly if the list is topological; if not, it asks for reconciliation.
   */
  lemma CommitEnds(w: World, digest: nat)
    requires Inv(w) && Calm(w) && w.tx.Ready? && w.repo.pinned && w.approval.digest == Some(digest)
    ensures var r := Commit(w, digest);
            && (r.ok <==> Topological(w.list))
            && r.w.tx == (if Topological(w.list) then S.Committed else S.NeedsReconciliation)
  {
    hide Inv, CommitBegun, PreflightFrom, Topological, AllCommitReady;
    WaitingBeforeRelease(w);
    PreflightCalm(w, Rows(w.list, w.fx), 0);
    var begun := w.(tx := S.Committing);
    assert BeginCommit(w, digest) == Out(begun, true);
    BeginCommitIsSafe(w, digest);
    CommitBegunCalm(begun);
  }

  /** So from wherever a run was cut short, one recovery that is answered ends the matter. */
  lemma EveryRunRecovers(steps: seq<Step>)
    requires var w := Run(steps); InCommit(w) && !w.repo.removed && Topological(w.list)
    ensures var tx := Run(steps + [Step(CallRecover, Wire([], Done))]).tx; tx.Committed? || tx.Ready? || tx.Stale?
  {
    hide Run, Recover, Topological, Inv;
    var w := Run(steps).(wire := Wire([], Done));
    RunKeepsInv(steps);
    InvIgnoresWire(Run(steps), w);
    RecoverConverges(w);
    RunExtends(steps, Step(CallRecover, Wire([], Done)));
  }

  lemma RunExtends(steps: seq<Step>, step: Step)
    ensures Run(steps + [step]) == Do(Run(steps), step)
  {
    assert (steps + [step])[..|steps|] == steps;
  }

  /** Nothing answers wrongly in this recovery but one git call, which reads the present ref as absent. */
  function OneFailedRevParse(tx: S.State): Wire {
    Wire((if tx.Committing? then [Done] else []) + [Done, Done, Done, Done, Silent], Done)
  }

  lemma ReconcileMisled(w: World)
    requires Inv(w) && w.tx.NeedsReconciliation? && w.wire == Wire([Done, Done, Done, Silent], Done)
    ensures var r := Reconcile(w);
            r.w.repo == w.repo && r.w.tx == Verdict(w, false) && (r.ok <==> r.w.tx.Ready? || r.w.tx.Stale?)
  {
    hide Inv, ReconcileAndResolve, Released, AllReleased, Topological;
    var calm := w.(wire := Wire([], Done));
    InvIgnoresWire(w, calm);
    var w1 := Tick(w);
    var w2 := Tick(w1);
    var w3 := Tick(w2);
    assert w1.wire == Wire([Done, Done, Silent], Done);
    assert w2.wire == Wire([Done, Silent], Done);
    assert w3.wire == Wire([Silent], Done);
    assert Tick(w3) == calm;
    assert Reconcile(w) == ReconcileAndResolve(calm, false);
    ReconcileAndResolveCalm(calm, false);
  }

  /**
   * A single failing rev-parse in a recovery, from either status it can start in, ends in manual
   * intervention exactly if an effect had been released, ref or no ref; otherwise the recovery returns
   * to ready or stale without error. The ref is as it was.
   */
  lemma FailedRevParseStrands(w: World)
    requires Inv(w) && InCommit(w) && w.wire == OneFailedRevParse(w.tx)
    ensures var r := Recover(w);
            && r.w.repo == w.repo
            && (r.w.tx.ManualIntervention? <==> Released(w.fx))
            && (!Released(w.fx) <==> r.ok && (r.w.tx.Ready? || r.w.tx.Stale?))
  {
    hide Inv, Reconcile, Released, AllReleased, Topological;
    var w1 := Tick(w);
    InvIgnoresWire(w, w1);
    if w.tx.Committing? {
      assert w1.wire == Wire([Done, Done, Done, Done, Silent], Done);
      MarkReconciliationKeeps(w1);
      var marked := MarkNeedsReconciliation(w1);
      assert marked.ok && marked.w.tx.NeedsReconciliation?;
      assert marked.w.wire == Wire([Done, Done, Done, Silent], Done);
      ReconcileMisled(marked.w);
    } else {
      assert w1.wire == Wire([Done, Done, Done, Silent], Done);
      ReconcileMisled(w1);
    }
  }
}
