/**
 * What one reply out of order leads to: every call before it was answered, and every call after it is.
 * The statements name statuses and effects, not the functions that bring them about.
 */
module CoordinatorReplies {
  import opened Wrappers
  import opened CommitWorld
  import opened Coordinator
  import opened CoordinatorSafety
  import opened CoordinatorLiveness
  import S = TransactionStates

  const CALM := Wire([], Done)

  /** The next n calls are answered, the one after them gets this reply, and all later ones are answered. */
  function Fails(n: nat, r: Reply): Wire {
    Wire(seq(n, _ => Done) + [r], Done)
  }

  lemma FailsStep(w: World, n: nat, r: Reply)
    requires w.wire == Fails(n, r)
    ensures n > 0 ==> w.wire.Next() == Done && Tick(w) == w.(wire := Fails(n - 1, r))
    ensures n == 0 ==> w.wire.Next() == r && Tick(w) == w.(wire := CALM)
  {
    if n > 0 {
      assert (seq(n, _ => Done) + [r])[1..] == seq(n - 1, _ => Done) + [r];
    }
  }

  // ---- The release of one effect ----

  /** The effect's row, the transaction's status, and nothing else, when all has been answered again. */
  function Left(w: World, id: EffectId, e: Effect, tx: S.State): World {
    w.(wire := CALM, fx := w.fx[id := e], tx := tx)
  }

  predicate Releasable(w: World, s: Spec) {
    && (w.tx.Committing? || w.tx.NeedsReconciliation?)
    && s.id in w.fx && (w.fx[s.id].status.Verified? || w.fx[s.id].status.Prepared?)
  }

  /** The attempt cannot be recorded: at most its row is written, and the status stays. */
  lemma BeginMeets(w: World, s: Spec, r: Reply)
    requires Releasable(w, s) && !r.Done? && w.wire == Fails(0, r)
    ensures CommitOne(w, s) ==
              Out(Left(w, s.id, if r.Unseen? then w.fx[s.id].(status := Committing) else w.fx[s.id], w.tx), false)
  {
    FailsStep(w, 0, r);
    assert w.fx[s.id := w.fx[s.id]] == w.fx;
  }

  lemma BegunAt(w: World, s: Spec, n: nat, r: Reply)
    requires Releasable(w, s) && n > 0 && w.wire == Fails(n, r)
    ensures CommitOne(w, s) ==
              AfterBegin(w.(wire := Fails(n - 1, r), fx := w.fx[s.id := w.fx[s.id].(status := Committing)]), s)
  {
    hide AfterBegin;
    FailsStep(w, n, r);
  }

  /** How many calls a release makes before it asks for the status. */
  function QueryAt(adapter: Adapter): nat {
    match adapter case GitHubBranch => 1 case GitHubDraftPR => 3 case SlackMessage => 2
  }

  /** The destination cannot be read: the attempt stays as recorded, and nothing asks for reconciliation. */
  lemma DestinationMeets(w: World, s: Spec, r: Reply)
    requires Releasable(w, s) && !s.adapter.GitHubBranch? && !r.Done? && w.wire == Fails(1, r)
    ensures CommitOne(w, s) == Out(Left(w, s.id, w.fx[s.id].(status := Committing), w.tx), false)
  {
    BegunAt(w, s, 1, r);
    FailsStep(w.(wire := Fails(0, r)), 0, r);
  }

  /** With all answered, an unknown outcome and a definite failure are recorded as such. */
  lemma UnknownCalm(w: World, id: EffectId)
    requires Calm(w) && InCommit(w) && id in w.fx
    ensures EffectUnknown(w, id) == Out(Left(w, id, w.fx[id].(status := Unknown), S.NeedsReconciliation), false)
  {
  }

  lemma FailureCalm(w: World, id: EffectId)
    requires Calm(w) && InCommit(w) && id in w.fx
    ensures EffectDefiniteFailure(w, id) ==
              Out(Left(w, id, w.fx[id].(status := Verified), S.NeedsReconciliation), false)
  {
  }

  /** If the row cannot be written, reconciliation is asked for all the same. */
  lemma UnrecordedOutcome(w: World, id: EffectId, r: Reply)
    requires InCommit(w) && id in w.fx && !r.Done? && w.wire == Fails(0, r)
    ensures EffectUnknown(w, id) ==
              Out(Left(w, id, if r.Unseen? then w.fx[id].(status := Unknown) else w.fx[id],
                       S.NeedsReconciliation), false)
    ensures EffectDefiniteFailure(w, id) ==
              Out(Left(w, id, if r.Unseen? then w.fx[id].(status := Verified) else w.fx[id],
                       S.NeedsReconciliation), false)
  {
    FailsStep(w, 0, r);
    assert w.fx[id := w.fx[id]] == w.fx;
  }

  lemma Twice(fx: Effects, id: EffectId, e: Effect, e': Effect)
    ensures fx[id := e][id := e'] == fx[id := e']
  {
  }

  /** A stale pull request waits again; one that could not be checked has an unknown outcome. */
  lemma FreshnessMeets(w: World, s: Spec, r: Reply)
    requires Releasable(w, s) && s.adapter.GitHubDraftPR? && !r.Done? && w.wire == Fails(2, r)
    ensures CommitOne(w, s) ==
              Out(Left(w, s.id, w.fx[s.id].(status := if r.Moved? then Verified else Unknown),
                       S.NeedsReconciliation), false)
  {
    hide EffectUnknown, EffectDefiniteFailure, QueryThenRelease;
    BegunAt(w, s, 2, r);
    var e := w.fx[s.id].(status := Committing);
    var w1 := w.(wire := Fails(1, r), fx := w.fx[s.id := e]);
    FailsStep(w1, 1, r);
    FailsStep(w1.(wire := Fails(0, r)), 0, r);
    var w2 := w1.(wire := CALM);
    UnknownCalm(w2, s.id);
    FailureCalm(w2, s.id);
    Twice(w.fx, s.id, e, e.(status := Verified));
    Twice(w.fx, s.id, e, e.(status := Unknown));
  }

  /** Any adapter gets to its status query with the attempt recorded and nothing else changed. */
  lemma QueriedAt(w: World, s: Spec, n: nat, r: Reply)
    requires Releasable(w, s) && n >= QueryAt(s.adapter) && w.wire == Fails(n, r)
    ensures CommitOne(w, s) ==
              QueryThenRelease(w.(wire := Fails(n - QueryAt(s.adapter), r),
                                  fx := w.fx[s.id := w.fx[s.id].(status := Committing)]), s)
  {
    hide EffectUnknown, EffectDefiniteFailure, QueryThenRelease;
    BegunAt(w, s, n, r);
    var w1 := w.(wire := Fails(n - 1, r), fx := w.fx[s.id := w.fx[s.id].(status := Committing)]);
    if !s.adapter.GitHubBranch? {
      FailsStep(w1, n - 1, r);
      if s.adapter.GitHubDraftPR? {
        FailsStep(w1.(wire := Fails(n - 2, r)), n - 2, r);
      }
    }
  }

  /** A branch found in conflict waits again; a query that does not answer leaves the outcome unknown. */
  lemma QueryMeets(w: World, s: Spec, r: Reply)
    requires Releasable(w, s) && !r.Done? && w.wire == Fails(QueryAt(s.adapter), r)
    ensures CommitOne(w, s) ==
              Out(Left(w, s.id,
                       w.fx[s.id].(status := if r.Moved? && s.adapter.GitHubBranch? then Verified else Unknown),
                       S.NeedsReconciliation), false)
  {
    hide EffectUnknown, EffectDefiniteFailure, Release;
    QueriedAt(w, s, QueryAt(s.adapter), r);
    var e := w.fx[s.id].(status := Committing);
    var w1 := w.(wire := Fails(0, r), fx := w.fx[s.id := e]);
    FailsStep(w1, 0, r);
    var w2 := w1.(wire := CALM);
    UnknownCalm(w2, s.id);
    FailureCalm(w2, s.id);
    Twice(w.fx, s.id, e, e.(status := Verified));
    Twice(w.fx, s.id, e, e.(status := Unknown));
  }

  /** What the release of an absent resource makes of the effect, by the reply to the provider call. */
  function AfterMutation(e: Effect, r: Reply): Effect {
    match r
    case Done => e.(status := Committed, receipt := true, landed := e.landed + 1)
    case Unseen => e.(status := Unknown, landed := e.landed + 1)
    case Silent => e.(status := Unknown)
    case Refused => e.(status := Verified)
    case Moved => e.(status := Verified)
  }

  /** The provider call itself: an outcome that is not known is marked so, whether or not it landed. */
  lemma ReleaseMeets(w: World, id: EffectId, r: Reply)
    requires InCommit(w) && id in w.fx && !r.Done? && w.wire == Fails(0, r)
    ensures Release(w, id) == Out(Left(w, id, AfterMutation(w.fx[id], r), S.NeedsReconciliation), false)
  {
    hide EffectUnknown, EffectDefiniteFailure, RecordReceipt;
    FailsStep(w, 0, r);
    var e := if r.Unseen? then w.fx[id].(landed := w.fx[id].landed + 1) else w.fx[id];
    var w1 := Mutate(w, id);
    assert w.fx[id := w.fx[id]] == w.fx;
    assert w1 == w.(wire := CALM, fx := w.fx[id := e]);
    UnknownCalm(w1, id);
    FailureCalm(w1, id);
    Twice(w.fx, id, e, e.(status := Verified));
    Twice(w.fx, id, e, e.(status := Unknown));
  }

  /** A look-up that finds nothing, and then the provider call. */
  lemma ReleasedAt(w: World, s: Spec, n: nat, r: Reply)
    requires Releasable(w, s) && !w.fx[s.id].Present() && n > QueryAt(s.adapter) && w.wire == Fails(n, r)
    ensures CommitOne(w, s) ==
              Release(w.(wire := Fails(n - 1 - QueryAt(s.adapter), r),
                         fx := w.fx[s.id := w.fx[s.id].(status := Committing)]), s.id)
  {
    hide CommitOne, Release, Fails;
    QueriedAt(w, s, n, r);
    var m := n - QueryAt(s.adapter);
    FailsStep(w.(wire := Fails(m, r), fx := w.fx[s.id := w.fx[s.id].(status := Committing)]), m, r);
  }

  lemma MutationMeets(w: World, s: Spec, r: Reply)
    requires Releasable(w, s) && !w.fx[s.id].Present() && !r.Done? && w.wire == Fails(QueryAt(s.adapter) + 1, r)
    ensures CommitOne(w, s) == Out(Left(w, s.id, AfterMutation(w.fx[s.id], r), S.NeedsReconciliation), false)
  {
    hide CommitOne, Release, Fails;
    ReleasedAt(w, s, QueryAt(s.adapter) + 1, r);
    var e := w.fx[s.id].(status := Committing);
    ReleaseMeets(w.(wire := Fails(0, r), fx := w.fx[s.id := e]), s.id, r);
    Twice(w.fx, s.id, e, AfterMutation(w.fx[s.id], r));
  }

  lemma RecordMeets(w: World, id: EffectId, r: Reply)
    requires InCommit(w) && id in w.fx && !r.Done? && w.wire == Fails(0, r)
    ensures RecordReceipt(w, id) ==
              Out(Left(w, id, if r.Unseen? then w.fx[id].(status := Committed, receipt := true) else w.fx[id],
                       S.NeedsReconciliation), false)
  {
    FailsStep(w, 0, r);
    assert w.fx[id := w.fx[id]] == w.fx;
  }

  /** The receipt cannot be recorded: reconciliation is asked for, and the effect says committing or committed. */
  lemma FoundReceiptMeets(w: World, s: Spec, r: Reply)
    requires Releasable(w, s) && !r.Done? && w.fx[s.id].Present() && w.wire == Fails(QueryAt(s.adapter) + 1, r)
    ensures CommitOne(w, s) ==
              Out(Left(w, s.id, if r.Unseen? then w.fx[s.id].(status := Committed, receipt := true)
                                else w.fx[s.id].(status := Committing), S.NeedsReconciliation), false)
  {
    hide RecordReceipt, Release;
    QueriedAt(w, s, QueryAt(s.adapter) + 1, r);
    var e := w.fx[s.id].(status := Committing);
    var w1 := w.(wire := Fails(1, r), fx := w.fx[s.id := e]);
    FailsStep(w1, 1, r);
    RecordMeets(w1.(wire := Fails(0, r)), s.id, r);
    Twice(w.fx, s.id, e, e.(status := Committed, receipt := true));
    Twice(w.fx, s.id, e, e);
  }

  lemma SentUnrecorded(w: World, id: EffectId, r: Reply)
    requires InCommit(w) && id in w.fx && !r.Done? && w.wire == Fails(1, r)
    ensures var e := w.fx[id].(landed := w.fx[id].landed + 1);
            Release(w, id) ==
              Out(Left(w, id, if r.Unseen? then e.(status := Committed, receipt := true) else e,
                       S.NeedsReconciliation), false)
  {
    hide RecordReceipt, EffectUnknown, EffectDefiniteFailure, Fails;
    var e := w.fx[id].(landed := w.fx[id].landed + 1);
    FailsStep(w, 1, r);
    assert Mutate(w, id) == w.(wire := Fails(0, r), fx := w.fx[id := e]);
    RecordMeets(Mutate(w, id), id, r);
    Twice(w.fx, id, e, e.(status := Committed, receipt := true));
    Twice(w.fx, id, e, e);
  }

  /** The same, of a mutation that has just landed. */
  lemma NewReceiptMeets(w: World, s: Spec, r: Reply)
    requires Releasable(w, s) && !r.Done? && !w.fx[s.id].Present() && w.wire == Fails(QueryAt(s.adapter) + 2, r)
    ensures var e := w.fx[s.id].(landed := w.fx[s.id].landed + 1);
            CommitOne(w, s) ==
              Out(Left(w, s.id,
                       if r.Unseen? then e.(status := Committed, receipt := true) else e.(status := Committing),
                       S.NeedsReconciliation), false)
  {
    hide CommitOne, Release, Fails;
    ReleasedAt(w, s, QueryAt(s.adapter) + 2, r);
    var e := w.fx[s.id].(status := Committing);
    SentUnrecorded(w.(wire := Fails(1, r), fx := w.fx[s.id := e]), s.id, r);
    var e2 := e.(landed := e.landed + 1);
    Twice(w.fx, s.id, e, e2.(status := Committed, receipt := true));
    Twice(w.fx, s.id, e, e2);
  }

  /** What a release that is answered makes of an effect: the mutation is made where the resource is absent. */
  function Sent(e: Effect): Effect {
    e.(status := Committed, receipt := true, landed := if e.landed > 0 || e.elsewhere then e.landed else e.landed + 1)
  }

  /** The number of calls in the release of one effect. */
  function CallsToSend(s: Spec, e: Effect): nat {
    QueryAt(s.adapter) + if e.Present() then 2 else 3
  }

  lemma RecordWithin(w: World, id: EffectId, n: nat, r: Reply)
    requires id in w.fx && w.wire == Fails(n, r) && n > 0
    ensures RecordReceipt(w, id) ==
              Out(w.(wire := Fails(n - 1, r), fx := w.fx[id := w.fx[id].(status := Committed, receipt := true)]), true)
  {
    FailsStep(w, n, r);
  }

  lemma ReleaseFound(w: World, s: Spec, n: nat, r: Reply)
    requires Releasable(w, s) && w.fx[s.id].Present()
    requires n >= CallsToSend(s, w.fx[s.id]) && w.wire == Fails(n, r)
    ensures CommitOne(w, s) ==
              Out(w.(wire := Fails(n - CallsToSend(s, w.fx[s.id]), r), fx := w.fx[s.id := Sent(w.fx[s.id])]), true)
  {
    hide RecordReceipt, Release;
    var q := n - QueryAt(s.adapter);
    QueriedAt(w, s, n, r);
    var e := w.fx[s.id].(status := Committing);
    var w1 := w.(wire := Fails(q, r), fx := w.fx[s.id := e]);
    FailsStep(w1, q, r);
    RecordWithin(w1.(wire := Fails(q - 1, r)), s.id, q - 1, r);
    Twice(w.fx, s.id, e, Sent(w.fx[s.id]));
  }

  lemma SentWithin(w: World, id: EffectId, n: nat, r: Reply)
    requires id in w.fx && w.fx[id].status.Committing? && !w.fx[id].Present() && n > 1 && w.wire == Fails(n, r)
    ensures Release(w, id) == Out(w.(wire := Fails(n - 2, r), fx := w.fx[id := Sent(w.fx[id])]), true)
  {
    hide RecordReceipt, EffectUnknown, EffectDefiniteFailure, Fails;
    var e := w.fx[id].(landed := w.fx[id].landed + 1);
    FailsStep(w, n, r);
    assert Mutate(w, id) == w.(wire := Fails(n - 1, r), fx := w.fx[id := e]);
    RecordWithin(Mutate(w, id), id, n - 1, r);
    Twice(w.fx, id, e, Sent(w.fx[id]));
  }

  lemma ReleaseAbsent(w: World, s: Spec, n: nat, r: Reply)
    requires Releasable(w, s) && !w.fx[s.id].Present()
    requires n >= CallsToSend(s, w.fx[s.id]) && w.wire == Fails(n, r)
    ensures CommitOne(w, s) ==
              Out(w.(wire := Fails(n - CallsToSend(s, w.fx[s.id]), r), fx := w.fx[s.id := Sent(w.fx[s.id])]), true)
  {
    hide CommitOne, Release, Fails;
    var q := n - 1 - QueryAt(s.adapter);
    ReleasedAt(w, s, n, r);
    var e := w.fx[s.id].(status := Committing);
    SentWithin(w.(wire := Fails(q, r), fx := w.fx[s.id := e]), s.id, q, r);
    Twice(w.fx, s.id, e, Sent(w.fx[s.id]));
  }

  /** Answered throughout, the mutation is made exactly where the resource was absent, and is recorded. */
  lemma ReleaseAnswered(w: World, s: Spec, n: nat, r: Reply)
    requires Releasable(w, s) && n >= CallsToSend(s, w.fx[s.id]) && w.wire == Fails(n, r)
    ensures CommitOne(w, s) ==
              Out(w.(wire := Fails(n - CallsToSend(s, w.fx[s.id]), r), fx := w.fx[s.id := Sent(w.fx[s.id])]), true)
  {
    hide CommitOne;
    if w.fx[s.id].Present() { ReleaseFound(w, s, n, r); } else { ReleaseAbsent(w, s, n, r); }
  }

  /** What becomes of an effect whose release meets this reply at its call number o. */
  function Interrupted(s: Spec, e: Effect, o: nat, r: Reply): Effect {
    var q := QueryAt(s.adapter);
    if o == 0 then (if r.Unseen? then e.(status := Committing) else e)
    else if o == 1 && !s.adapter.GitHubBranch? then e.(status := Committing)
    else if o < q then e.(status := if r.Moved? then Verified else Unknown)
    else if o == q then e.(status := if r.Moved? && s.adapter.GitHubBranch? then Verified else Unknown)
    else if o == q + 1 && !e.Present() then AfterMutation(e, r)
    else
      var there := e.(landed := if e.Present() then e.landed else e.landed + 1);
      if r.Unseen? then there.(status := Committed, receipt := true) else there.(status := Committing)
  }

  /** Only a failure to begin, or to read the destination, does not itself ask for reconciliation. */
  predicate AsksForReconciliation(s: Spec, o: nat) {
    o > 1 || (o == 1 && s.adapter.GitHubBranch?)
  }

  /** The release of one effect that meets one reply out of order, wherever it meets it. */
  lemma ReleaseInterrupted(w: World, s: Spec, o: nat, r: Reply)
    requires Releasable(w, s) && !r.Done? && o < CallsToSend(s, w.fx[s.id]) && w.wire == Fails(o, r)
    ensures CommitOne(w, s) ==
              Out(Left(w, s.id, Interrupted(s, w.fx[s.id], o, r),
                       if AsksForReconciliation(s, o) then S.NeedsReconciliation else w.tx), false)
  {
    hide CommitOne;
    var q := QueryAt(s.adapter);
    if o == 0 {
      BeginMeets(w, s, r);
    } else if o == 1 && !s.adapter.GitHubBranch? {
      DestinationMeets(w, s, r);
    } else if o < q {
      FreshnessMeets(w, s, r);
    } else if o == q {
      QueryMeets(w, s, r);
    } else if w.fx[s.id].Present() {
      FoundReceiptMeets(w, s, r);
    } else if o == q + 1 {
      MutationMeets(w, s, r);
    } else {
      NewReceiptMeets(w, s, r);
    }
  }

  // ---- The release of the list ----

  /** The number of calls that release the effects listed from i to k. */
  ghost function CallsBetween(list: seq<Spec>, fx: Effects, i: nat, k: nat): nat
    requires k <= |list|
    decreases k - i
  {
    if i >= k then 0
    else
      var e := Get(fx, list[i].id);
      (if e.status.Committed? then 0 else CallsToSend(list[i], e)) + CallsBetween(list, fx, i + 1, k)
  }

  ghost function SentBetween(list: seq<Spec>, fx: Effects, i: nat, k: nat): Effects
    requires k <= |list|
    decreases k - i
  {
    if i >= k then fx
    else
      var e := Get(fx, list[i].id);
      SentBetween(list, if e.status.Committed? then fx else fx[list[i].id := Sent(e)], i + 1, k)
  }

  ghost function IdsBetween(list: seq<Spec>, i: nat, k: nat): set<EffectId>
    requires k <= |list|
    decreases k - i
  {
    if i >= k then {} else {list[i].id} + IdsBetween(list, i + 1, k)
  }

  lemma {:induction false} CallsIgnoreOthers(list: seq<Spec>, ids: set<EffectId>, fx: Effects, e: Effect, j: nat,
      i: nat, k: nat)
    requires WellListed(list, ids) && j < i && k <= |list| && j < |list|
    ensures CallsBetween(list, fx[list[j].id := e], i, k) == CallsBetween(list, fx, i, k)
    decreases k - i
  {
    if i < k {
      assert list[j].id != list[i].id;
      CallsIgnoreOthers(list, ids, fx, e, j, i + 1, k);
    }
  }

  /** With the calls for the effects from i to k answered, the release goes on at k, those effects sent. */
  lemma {:induction false} CommitFromReaches(w: World, rows: seq<Row>, i: nat, committed: set<EffectId>, k: nat, n: nat,
      r: Reply)
    requires InCommit(w) && WellListed(w.list, w.fx.Keys) && i <= k <= |rows| == |w.list|
    requires RowsExact(rows, w.list, w.fx, i) && RowsCanGo(rows, i) && CommittedRowsIn(rows, committed)
    requires Orderly(rows, i, committed) && n >= CallsBetween(w.list, w.fx, i, k) && w.wire == Fails(n, r)
    ensures var fx' := SentBetween(w.list, w.fx, i, k);
            && CommitFrom(w, rows, i, committed) ==
               CommitFrom(w.(wire := Fails(n - CallsBetween(w.list, w.fx, i, k), r), fx := fx'),
                          rows, k, committed + IdsBetween(w.list, i, k))
            && fx'.Keys == w.fx.Keys && RowsExact(rows, w.list, fx', k)
            && Orderly(rows, k, committed + IdsBetween(w.list, i, k))
    decreases k - i
  {
    hide CommitOne, WellListed, RowsExact, Orderly, Fails, CommittedRowsIn, RowsCanGo;
    if i == k {
      assert committed + {} == committed;
    } else {
      var s := w.list[i];
      IdAt(w.list, w.fx.Keys, i);
      ExactAt(rows, w.list, w.fx, i);
      GoesAt(rows, i, committed);
      OrderlyStep(rows, i, committed);
      var e := w.fx[s.id];
      ExactOnward(w.list, w.fx.Keys, rows, i, w.fx, Sent(e));
      CommittedRowsStay(rows, committed, s.id);
      var more := committed + {s.id};
      assert committed + IdsBetween(w.list, i, k) == more + IdsBetween(w.list, i + 1, k);
      if e.status.Committed? {
        assert more == committed;
        CommitFromReaches(w, rows, i + 1, committed, k, n, r);
      } else {
        ReleaseAnswered(w, s, n, r);
        var w1 := CommitOne(w, s).w;
        CallsIgnoreOthers(w.list, w.fx.Keys, w.fx, Sent(e), i, i + 1, k);
        assert w1.fx.Keys == w.fx.Keys;
        CommitFromReaches(w1, rows, i + 1, more, k, n - CallsToSend(s, e), r);
      }
    }
  }

  lemma GoesAt(rows: seq<Row>, i: nat, committed: set<EffectId>)
    requires RowsCanGo(rows, i) && CommittedRowsIn(rows, committed) && i < |rows|
    ensures RowsCanGo(rows, i + 1) && (rows[i].status.Verified? || rows[i].status.Committed?)
    ensures rows[i].status.Committed? ==> rows[i].spec.id in committed
  {
  }

  lemma CommittedRowsStay(rows: seq<Row>, committed: set<EffectId>, id: EffectId)
    requires CommittedRowsIn(rows, committed)
    ensures CommittedRowsIn(rows, committed + {id})
  {
  }

  /** A committed effect is left as it is. */
  function SentOnce(e: Effect): Effect {
    if e.status.Committed? then e else Sent(e)
  }

  lemma {:induction false} SentBetweenAt(list: seq<Spec>, ids: set<EffectId>, fx: Effects, i: nat, k: nat, j: nat)
    requires WellListed(list, ids) && k <= |list| && j < |list|
    ensures Get(SentBetween(list, fx, i, k), list[j].id) ==
              if i <= j < k then SentOnce(Get(fx, list[j].id)) else Get(fx, list[j].id)
    decreases k - i
  {
    hide WellListed, Sent;
    if i < k {
      var e := Get(fx, list[i].id);
      SentBetweenAt(list, ids, if e.status.Committed? then fx else fx[list[i].id := Sent(e)], i + 1, k, j);
      if j != i { IdsDiffer(list, ids, i, j); }
    }
  }

  lemma IdsDiffer(list: seq<Spec>, ids: set<EffectId>, i: nat, j: nat)
    requires WellListed(list, ids) && i < |list| && j < |list| && i != j
    ensures list[i].id != list[j].id
  {
  }

  /** The effects listed from i to k are sent, the one at k is as given, and no other has changed. */
  ghost predicate StoppedAt(list: seq<Spec>, i: nat, k: nat, e: Effect, fx: Effects, fx': Effects) {
    && fx'.Keys == fx.Keys
    && forall j :: 0 <= j < |list| ==>
         Get(fx', list[j].id) == if j == k then e
                                 else if i <= j < k then SentOnce(Get(fx, list[j].id))
                                 else Get(fx, list[j].id)
  }

  lemma SentUpTo(list: seq<Spec>, ids: set<EffectId>, fx: Effects, i: nat, k: nat, e: Effect)
    requires WellListed(list, ids) && i <= k < |list| && fx.Keys == ids
    requires SentBetween(list, fx, i, k).Keys == ids
    ensures StoppedAt(list, i, k, e, fx, SentBetween(list, fx, i, k)[list[k].id := e])
  {
    hide WellListed;
    var fx1 := SentBetween(list, fx, i, k);
    IdAt(list, ids, k);
    forall j | 0 <= j < |list|
      ensures Get(fx1[list[k].id := e], list[j].id) ==
                if j == k then e
                else if i <= j < k then SentOnce(Get(fx, list[j].id))
                else Get(fx, list[j].id)
    {
      SentBetweenAt(list, ids, fx, i, k, j);
      if j != k { IdsDiffer(list, ids, j, k); }
    }
  }

  /**
   * The release meets one reply out of order, at call o for the effect at k. What comes before it in
   * the list is committed, it is as that reply leaves it, and what comes after it is untouched.
   */
  lemma CommitFromStops(w: World, rows: seq<Row>, i: nat, committed: set<EffectId>, k: nat, o: nat, r: Reply)
    requires InCommit(w) && WellListed(w.list, w.fx.Keys) && i <= k < |rows| == |w.list|
    requires RowsExact(rows, w.list, w.fx, i) && RowsCanGo(rows, i) && CommittedRowsIn(rows, committed)
    requires Orderly(rows, i, committed)
    requires var e := Get(w.fx, w.list[k].id); !e.status.Committed? && o < CallsToSend(w.list[k], e)
    requires !r.Done? && w.wire == Fails(CallsBetween(w.list, w.fx, i, k) + o, r)
    ensures var x := CommitFrom(w, rows, i, committed);
            && !x.ok
            && x.w == w.(wire := CALM, fx := x.w.fx,
                         tx := if AsksForReconciliation(w.list[k], o) then S.NeedsReconciliation else w.tx)
            && StoppedAt(w.list, i, k, Interrupted(w.list[k], Get(w.fx, w.list[k].id), o, r), w.fx, x.w.fx)
  {
    hide CommitOne, WellListed, RowsExact, Orderly, Fails, CommittedRowsIn, RowsCanGo, Interrupted, CallsToSend,
        StoppedAt;
    var s := w.list[k];
    var e := Get(w.fx, s.id);
    CommitFromReaches(w, rows, i, committed, k, CallsBetween(w.list, w.fx, i, k) + o, r);
    var w1 := w.(wire := Fails(o, r), fx := SentBetween(w.list, w.fx, i, k));
    var more := committed + IdsBetween(w.list, i, k);
    SentBetweenAt(w.list, w.fx.Keys, w.fx, i, k, k);
    IdAt(w.list, w.fx.Keys, k);
    ExactAt(rows, w.list, w1.fx, k);
    FreeToGo(rows, i, k, committed, more);
    ReleaseInterrupted(w1, s, o, r);
    SentUpTo(w.list, w.fx.Keys, w.fx, i, k, Interrupted(s, e, o, r));
  }

  lemma FreeToGo(rows: seq<Row>, i: nat, k: nat, committed: set<EffectId>, more: set<EffectId>)
    requires RowsCanGo(rows, i) && i <= k < |rows| && Orderly(rows, k, more)
    ensures rows[k].status.Verified? || rows[k].status.Committed?
    ensures !rows[k].status.Committed? ==> rows[k].spec.dependsOn <= more
  {
    if !rows[k].status.Committed? {
      forall d | d in rows[k].spec.dependsOn ensures d in more { assert !ListedWithin(rows, k, k, d); }
    }
  }

  // ---- Reconciliation ----

  predicate ToLookUp(w: World, s: Spec) {
    w.tx.NeedsReconciliation? && s.id in w.fx && (w.fx[s.id].status.Committing? || w.fx[s.id].status.Unknown?)
  }

  /** How many calls a look-up makes before it asks for the status. */
  function LookAt(adapter: Adapter): nat {
    if adapter.SlackMessage? then 2 else 1
  }

  lemma LookUpBegins(w: World, s: Spec, t: Tally, n: nat, r: Reply)
    requires ToLookUp(w, s) && n >= LookAt(s.adapter) && w.wire == Fails(n, r)
    ensures ReconcileOne(w, s, t) == Answered(w.(wire := Fails(n - LookAt(s.adapter), r)), s, t)
  {
    hide Answered;
    FailsStep(w, n, r);
    if s.adapter.SlackMessage? { FailsStep(w.(wire := Fails(n - 1, r)), n - 1, r); }
  }

  lemma LookUpAnswered(w: World, s: Spec, t: Tally, n: nat, r: Reply)
    requires ToLookUp(w, s) && t.ok && n >= LookAt(s.adapter) + 2 && w.wire == Fails(n, r)
    ensures var x := ReconcileOne(w, s, t);
            && x.t.ok
            && x.w == w.(wire := Fails(n - LookAt(s.adapter) - 2, r), fx := w.fx[s.id := Settled(w.fx[s.id])])
  {
    hide ReconcileOne;
    LookUpBegins(w, s, t, n, r);
    var m := n - LookAt(s.adapter);
    FailsStep(w.(wire := Fails(m, r)), m, r);
    FailsStep(w.(wire := Fails(m - 1, r)), m - 1, r);
  }

  /** What becomes of an effect whose look-up meets this reply at its call number o. */
  function LookedUpBadly(s: Spec, e: Effect, o: nat, r: Reply): Effect {
    var q := LookAt(s.adapter);
    if o < q || (o == q && r.Moved? && s.adapter.GitHubBranch?) then e
    else if o == q then e.(status := Unknown)
    else if !r.Unseen? then e
    else if e.Present() then e.(status := Committed, receipt := true)
    else e.(status := Verified)
  }

  /** Only a branch that is found in conflict is beyond what another recovery could settle. */
  function StatusAfterLookUp(s: Spec, o: nat, r: Reply): S.State {
    if o == LookAt(s.adapter) && r.Moved? && s.adapter.GitHubBranch? then S.ManualIntervention
    else S.NeedsReconciliation
  }

  lemma QueryAnsweredBadly(w: World, s: Spec, t: Tally, r: Reply)
    requires ToLookUp(w, s) && !r.Done? && w.wire == Fails(0, r)
    ensures var x := Answered(w, s, t);
            && !x.t.ok
            && x.w == Left(w, s.id, LookedUpBadly(s, w.fx[s.id], LookAt(s.adapter), r),
                           StatusAfterLookUp(s, LookAt(s.adapter), r))
  {
    FailsStep(w, 0, r);
    assert w.fx[s.id := w.fx[s.id]] == w.fx;
  }

  lemma AnswerRecordedBadly(w: World, s: Spec, t: Tally, r: Reply)
    requires ToLookUp(w, s) && !r.Done? && w.wire == Fails(1, r)
    ensures var x := Answered(w, s, t);
            && !x.t.ok
            && x.w == Left(w, s.id, LookedUpBadly(s, w.fx[s.id], LookAt(s.adapter) + 1, r), S.NeedsReconciliation)
  {
    hide RecordReceipt;
    FailsStep(w, 1, r);
    var w1 := w.(wire := Fails(0, r));
    FailsStep(w1, 0, r);
    RecordMeets(w1, s.id, r);
    assert w.fx[s.id := w.fx[s.id]] == w.fx;
  }

  lemma LookUpStopsEarly(w: World, s: Spec, t: Tally, o: nat, r: Reply)
    requires ToLookUp(w, s) && !r.Done? && o < LookAt(s.adapter) && w.wire == Fails(o, r)
    ensures var x := ReconcileOne(w, s, t); !x.t.ok && x.w == w.(wire := CALM)
  {
    hide Answered, Fails;
    FailsStep(w, o, r);
    if o == 1 { FailsStep(w.(wire := Fails(0, r)), 0, r); }
  }

  /** The look-up of one effect that meets one reply out of order, wherever it meets it. */
  lemma LookUpInterrupted(w: World, s: Spec, t: Tally, o: nat, r: Reply)
    requires ToLookUp(w, s) && !r.Done? && o < LookAt(s.adapter) + 2 && w.wire == Fails(o, r)
    ensures var x := ReconcileOne(w, s, t);
            && !x.t.ok
            && x.w == Left(w, s.id, LookedUpBadly(s, w.fx[s.id], o, r), StatusAfterLookUp(s, o, r))
  {
    hide ReconcileOne, Answered;
    var q := LookAt(s.adapter);
    if o < q {
      LookUpStopsEarly(w, s, t, o, r);
      assert w.fx[s.id := w.fx[s.id]] == w.fx;
    } else {
      LookUpBegins(w, s, t, o, r);
      if o == q {
        QueryAnsweredBadly(w.(wire := Fails(0, r)), s, t, r);
      } else {
        AnswerRecordedBadly(w.(wire := Fails(1, r)), s, t, r);
      }
    }
  }

  /** The number of calls that look up the unresolved effects listed from i to k. */
  ghost function LookUpsBetween(list: seq<Spec>, fx: Effects, i: nat, k: nat): nat
    requires k <= |list|
    decreases k - i
  {
    if i >= k then 0
    else
      (if Get(fx, list[i].id).Unresolved() then LookAt(list[i].adapter) + 2 else 0) + LookUpsBetween(list, fx, i + 1, k)
  }

  ghost function SettledBetween(list: seq<Spec>, fx: Effects, i: nat, k: nat): Effects
    requires k <= |list|
    decreases k - i
  {
    if i >= k then fx
    else
      var e := Get(fx, list[i].id);
      SettledBetween(list, if e.Unresolved() then fx[list[i].id := Settled(e)] else fx, i + 1, k)
  }

  lemma {:induction false} LookUpsIgnoreOthers(list: seq<Spec>, ids: set<EffectId>, fx: Effects, e: Effect, j: nat,
      i: nat, k: nat)
    requires WellListed(list, ids) && j < i && k <= |list| && j < |list|
    ensures LookUpsBetween(list, fx[list[j].id := e], i, k) == LookUpsBetween(list, fx, i, k)
    decreases k - i
  {
    if i < k {
      assert list[j].id != list[i].id;
      LookUpsIgnoreOthers(list, ids, fx, e, j, i + 1, k);
    }
  }

  /** Every listed effect is committed, waits to be released, or has an outcome still to be learned. */
  ghost predicate InDoubtOrNot(list: seq<Spec>, i: nat, fx: Effects) {
    forall k :: i <= k < |list| ==>
      var e := Get(fx, list[k].id); e.status.Verified? || e.status.Committed? || e.Unresolved()
  }

  lemma DoubtOnward(list: seq<Spec>, ids: set<EffectId>, i: nat, fx: Effects, e: Effect)
    requires WellListed(list, ids) && i < |list| && InDoubtOrNot(list, i, fx)
    ensures InDoubtOrNot(list, i + 1, fx[list[i].id := e]) && InDoubtOrNot(list, i + 1, fx)
    ensures var x := Get(fx, list[i].id); x.status.Verified? || x.status.Committed? || x.Unresolved()
  {
    forall k | i + 1 <= k < |list| ensures list[k].id != list[i].id {
    }
  }

  /** With the look-ups from i to k answered, reconciliation goes on at k, those effects settled. */
  lemma {:induction false} ReconcileFromReaches(w: World, rows: seq<Row>, i: nat, t: Tally, k: nat, n: nat, r: Reply)
    returns (t': Tally)
    requires w.tx.NeedsReconciliation? && WellListed(w.list, w.fx.Keys) && i <= k <= |rows| == |w.list| && t.ok
    requires RowsExact(rows, w.list, w.fx, i) && InDoubtOrNot(w.list, i, w.fx)
    requires n >= LookUpsBetween(w.list, w.fx, i, k) && w.wire == Fails(n, r)
    ensures var fx' := SettledBetween(w.list, w.fx, i, k);
            && ReconcileFrom(w, rows, i, t) ==
               ReconcileFrom(w.(wire := Fails(n - LookUpsBetween(w.list, w.fx, i, k), r), fx := fx'), rows, k, t')
            && t'.ok && fx'.Keys == w.fx.Keys && RowsExact(rows, w.list, fx', k)
    decreases k - i
  {
    hide ReconcileOne, WellListed, RowsExact, Fails, InDoubtOrNot, Settled;
    if i == k {
      t' := t;
    } else {
      var s := w.list[i];
      IdAt(w.list, w.fx.Keys, i);
      ExactAt(rows, w.list, w.fx, i);
      var e := w.fx[s.id];
      DoubtOnward(w.list, w.fx.Keys, i, w.fx, Settled(e));
      ExactOnward(w.list, w.fx.Keys, rows, i, w.fx, Settled(e));
      if e.Unresolved() {
        LookUpAnswered(w, s, t, n, r);
        var one := ReconcileOne(w, s, t);
        LookUpsIgnoreOthers(w.list, w.fx.Keys, w.fx, Settled(e), i, i + 1, k);
        assert one.w.fx.Keys == w.fx.Keys;
        t' := ReconcileFromReaches(one.w, rows, i + 1, one.t, k, n - LookAt(s.adapter) - 2, r);
      } else {
        t' := ReconcileFromReaches(w, rows, i + 1, if e.status.Committed? then t.(any := true) else t.(all := false),
                                   k, n, r);
      }
    }
  }

  lemma {:induction false} SettledBetweenAt(list: seq<Spec>, ids: set<EffectId>, fx: Effects, i: nat, k: nat, j: nat)
    requires WellListed(list, ids) && k <= |list| && j < |list|
    ensures Get(SettledBetween(list, fx, i, k), list[j].id) ==
              if i <= j < k then Settled(Get(fx, list[j].id)) else Get(fx, list[j].id)
    decreases k - i
  {
    hide WellListed;
    if i < k {
      var e := Get(fx, list[i].id);
      SettledBetweenAt(list, ids, if e.Unresolved() then fx[list[i].id := Settled(e)] else fx, i + 1, k, j);
      if j != i { IdsDiffer(list, ids, i, j); }
    }
  }

  /** The effects listed from i to k are settled, the one at k is as given, and no other has changed. */
  ghost predicate LeftAt(list: seq<Spec>, i: nat, k: nat, e: Effect, fx: Effects, fx': Effects) {
    && fx'.Keys == fx.Keys
    && forall j :: 0 <= j < |list| ==>
         Get(fx', list[j].id) == if j == k then e
                                 else if i <= j < k then Settled(Get(fx, list[j].id))
                                 else Get(fx, list[j].id)
  }

  lemma SettledUpTo(list: seq<Spec>, ids: set<EffectId>, fx: Effects, i: nat, k: nat, e: Effect)
    requires WellListed(list, ids) && i <= k < |list| && fx.Keys == ids
    requires SettledBetween(list, fx, i, k).Keys == ids
    ensures LeftAt(list, i, k, e, fx, SettledBetween(list, fx, i, k)[list[k].id := e])
  {
    hide WellListed, Settled;
    var fx1 := SettledBetween(list, fx, i, k);
    IdAt(list, ids, k);
    forall j | 0 <= j < |list|
      ensures Get(fx1[list[k].id := e], list[j].id) ==
                if j == k then e
                else if i <= j < k then Settled(Get(fx, list[j].id))
                else Get(fx, list[j].id)
    {
      SettledBetweenAt(list, ids, fx, i, k, j);
      if j != k { IdsDiffer(list, ids, j, k); }
    }
  }

  /**
   * Reconciliation meets one reply out of order, at call o for the unresolved effect at k. What comes
   * before it in the list is settled, it is as that reply leaves it, and what comes after is untouched.
   */
  lemma ReconcileFromStops(w: World, rows: seq<Row>, i: nat, t: Tally, k: nat, o: nat, r: Reply)
    requires w.tx.NeedsReconciliation? && WellListed(w.list, w.fx.Keys) && i <= k < |rows| == |w.list| && t.ok
    requires RowsExact(rows, w.list, w.fx, i) && InDoubtOrNot(w.list, i, w.fx)
    requires Get(w.fx, w.list[k].id).Unresolved() && o < LookAt(w.list[k].adapter) + 2
    requires !r.Done? && w.wire == Fails(LookUpsBetween(w.list, w.fx, i, k) + o, r)
    ensures var x := ReconcileFrom(w, rows, i, t);
            && !x.t.ok
            && x.w == w.(wire := CALM, fx := x.w.fx, tx := StatusAfterLookUp(w.list[k], o, r))
            && LeftAt(w.list, i, k, LookedUpBadly(w.list[k], Get(w.fx, w.list[k].id), o, r), w.fx, x.w.fx)
  {
    hide ReconcileOne, WellListed, RowsExact, Fails, InDoubtOrNot, LookedUpBadly, StatusAfterLookUp, LeftAt, Settled;
    var s := w.list[k];
    var e := Get(w.fx, s.id);
    var t' := ReconcileFromReaches(w, rows, i, t, k, LookUpsBetween(w.list, w.fx, i, k) + o, r);
    var w1 := w.(wire := Fails(o, r), fx := SettledBetween(w.list, w.fx, i, k));
    SettledBetweenAt(w.list, w.fx.Keys, w.fx, i, k, k);
    IdAt(w.list, w.fx.Keys, k);
    ExactAt(rows, w.list, w1.fx, k);
    LookUpInterrupted(w1, s, t', o, r);
    SettledUpTo(w.list, w.fx.Keys, w.fx, i, k, LookedUpBadly(s, e, o, r));
  }
}
