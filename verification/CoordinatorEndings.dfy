/**
 * Where a commit, a recovery and an abort end when all is answered, and when all is answered but one
 * call. The statements give statuses, approvals and effects outright, and count calls from the first.
 */
module CoordinatorEndings {
  import opened Wrappers
  import opened CommitWorld
  import opened Coordinator
  import opened CoordinatorSafety
  import opened CoordinatorLiveness
  import opened CoordinatorReplies
  import R = CoordinatorRuns
  import S = TransactionStates

  // ---- Abort ----

  lemma FreeToAbort(w: World)
    requires Inv(w) && S.CanTransition(w.tx, S.Aborting)
    ensures Abortable(w.tx) && !w.tx.Created? && !SomeAttempted(w.fx)
    ensures forall id :: id in w.fx ==> w.fx[id].status.Verified?
  {
    hide WellListed, ReleaseOrdered, BackwardIdle;
    assert NothingAttempted(w.fx) && NothingAborted(w.fx);
  }

  /** Every effect is marked aborted, and nothing else about it changes. */
  ghost predicate AllAborted(fx: Effects, fx': Effects) {
    fx'.Keys == fx.Keys && forall id :: id in fx ==> fx'[id] == fx[id].(status := Aborted)
  }

  /**
   * An abort that is answered succeeds exactly from the statuses that the state table lets go to
   * aborting; then the approval is gone and every effect is aborted. Otherwise it changes nothing.
   */
  lemma AbortEnds(w: World)
    requires Inv(w) && Calm(w)
    ensures var r := Abort(w);
            && (r.ok <==> S.CanTransition(w.tx, S.Aborting))
            && (r.ok <==> w.tx.Active? || w.tx.Sealed? || w.tx.FailedVerification? || w.tx.Ready? || w.tx.Stale?)
            && (r.ok ==> r.w == w.(tx := S.Aborted, approval := w.approval.(digest := None), fx := r.w.fx)
                         && AllAborted(w.fx, r.w.fx))
            && (!r.ok ==> r.w == w)
  {
    hide Inv;
    if S.CanTransition(w.tx, S.Aborting) {
      FreeToAbort(w);
    } else {
      NotAbortable(w);
    }
  }

  lemma NotAbortable(w: World)
    requires Inv(w) && !S.CanTransition(w.tx, S.Aborting)
    ensures !Abortable(w.tx)
  {
    hide WellListed, ReleaseOrdered, BackwardIdle;
  }

  /** The abort's last three calls. */
  lemma AbortedLate(w: World, n: nat, r: Reply)
    requires Inv(w) && S.CanTransition(w.tx, S.Aborting) && 3 <= n < 6 && !r.Done? && w.wire == Fails(n, r)
    ensures var x := Abort(w);
            && (x.ok <==> n == 4)
            && x.w == w.(wire := CALM, tx := if n == 4 || (n == 5 && r.Unseen?) then S.Aborted else S.Aborting,
                         approval := w.approval.(digest := None), fx := x.w.fx)
            && (if n > 3 || r.Unseen? then AllAborted(w.fx, x.w.fx) else x.w.fx == w.fx)
  {
    hide Inv, SomeAttempted, Fails;
    FreeToAbort(w);
    FailsStep(w, n, r);
    FailsStep(w.(wire := Fails(n - 1, r)), n - 1, r);
    FailsStep(w.(wire := Fails(n - 2, r)), n - 2, r);
    FailsStep(w.(wire := Fails(n - 3, r)), n - 3, r);
    if n > 3 { FailsStep(w.(wire := Fails(n - 4, r)), n - 4, r); }
    if n > 4 { FailsStep(w.(wire := Fails(n - 5, r)), n - 5, r); }
  }

  /**
   * An abort that meets one reply out of order. A workspace that cannot be read is passed over; before
   * the move to aborting nothing has changed; after it the transaction is left in aborting or aborted.
   */
  lemma AbortMeets(w: World, n: nat, r: Reply)
    requires Inv(w) && S.CanTransition(w.tx, S.Aborting) && n < 6 && !r.Done? && w.wire == Fails(n, r)
    ensures var x := Abort(w);
            && (x.ok <==> n == 4)
            && x.w == w.(wire := CALM, tx := x.w.tx, approval := x.w.approval, fx := x.w.fx)
            && x.w.tx == (if n < 2 || (n == 2 && !r.Unseen?) then w.tx
                          else if n < 4 || (n == 5 && !r.Unseen?) then S.Aborting
                          else S.Aborted)
            && x.w.approval == (if x.w.tx == w.tx then w.approval else w.approval.(digest := None))
            && (if n > 3 || (n == 3 && r.Unseen?) then AllAborted(w.fx, x.w.fx) else x.w.fx == w.fx)
  {
    hide Inv, SomeAttempted, Fails;
    if n >= 3 {
      AbortedLate(w, n, r);
    } else {
      FreeToAbort(w);
      FailsStep(w, n, r);
      if n > 0 { FailsStep(w.(wire := Fails(n - 1, r)), n - 1, r); }
      if n > 1 { FailsStep(w.(wire := Fails(n - 2, r)), n - 2, r); }
    }
  }

  // ---- The part of a commit that comes before BeginCommit ----

  /** Without a ready transaction, and without the digest that was approved, a commit changes nothing. */
  lemma CommitRefused(w: World, digest: nat)
    requires Inv(w) && Calm(w) && (w.tx.Ready? ==> w.repo.pinned && w.approval.digest != Some(digest))
    ensures Commit(w, digest) == Out(w, false)
  {
    hide Inv, CommitBegun, PreflightFrom;
    PreflightCalm(w, Rows(w.list, w.fx), 0);
  }

  /** A source that has moved makes the transaction stale and takes its approval away. */
  lemma MovedSourceMeansStale(w: World, digest: nat)
    requires Inv(w) && Calm(w) && w.tx.Ready? && !w.repo.pinned
    ensures Commit(w, digest) == Out(w.(tx := S.Stale, approval := w.approval.(digest := None)), false)
  {
    hide Inv, CommitPinned;
  }

  /** If that write meets a bad reply, it was made or not, and the commit fails all the same. */
  lemma MovedSourceMeets(w: World, digest: nat, r: Reply)
    requires Inv(w) && w.tx.Ready? && !w.repo.pinned && !r.Done? && w.wire == Fails(3, r)
    ensures Commit(w, digest) ==
              Out(if r.Unseen? then w.(wire := CALM, tx := S.Stale, approval := w.approval.(digest := None))
                  else w.(wire := CALM), false)
  {
    hide Inv, CommitPinned, Fails;
    FailsStep(w, 3, r);
    FailsStep(w.(wire := Fails(2, r)), 2, r);
    FailsStep(w.(wire := Fails(1, r)), 1, r);
    FailsStep(w.(wire := Fails(0, r)), 0, r);
  }

  /** The first three calls: whatever is answered badly, the commit fails and nothing has changed. */
  lemma CommitUnreadAtFirst(w: World, digest: nat, n: nat, r: Reply)
    requires w.tx.Ready? && n < 3 && !r.Done? && w.wire == Fails(n, r)
    ensures Commit(w, digest) == Out(w.(wire := CALM), false)
  {
    hide CommitPinned, Fails;
    FailsStep(w, n, r);
    if n > 0 { FailsStep(w.(wire := Fails(n - 1, r)), n - 1, r); }
    if n > 1 { FailsStep(w.(wire := Fails(n - 2, r)), n - 2, r); }
  }

  lemma CommitReachesPreflight(w: World, digest: nat, n: nat, r: Reply)
    requires w.tx.Ready? && w.repo.pinned && n >= 3 && w.wire == Fails(n, r)
    ensures Commit(w, digest) == CommitPinned(w.(wire := Fails(n - 3, r)), digest)
  {
    hide CommitPinned, Fails;
    FailsStep(w, n, r);
    FailsStep(w.(wire := Fails(n - 1, r)), n - 1, r);
    FailsStep(w.(wire := Fails(n - 2, r)), n - 2, r);
  }

  // ---- The preflight checks ----

  function CallsToCheck(adapter: Adapter): nat {
    if adapter.GitHubBranch? then 1 else 2
  }

  /** The number of calls that check the effects listed from i to k. */
  function ChecksBetween(list: seq<Spec>, i: nat, k: nat): nat
    requires k <= |list|
    decreases k - i
  {
    if i >= k then 0 else CallsToCheck(list[i].adapter) + ChecksBetween(list, i + 1, k)
  }

  lemma CheckPasses(w: World, s: Spec, n: nat, r: Reply)
    requires n >= CallsToCheck(s.adapter) && w.wire == Fails(n, r)
    ensures PreflightOne(w, s) == Out(w.(wire := Fails(n - CallsToCheck(s.adapter), r)), true)
  {
    FailsStep(w, n, r);
    if !s.adapter.GitHubBranch? { FailsStep(w.(wire := Fails(n - 1, r)), n - 1, r); }
  }

  /** What a failed check leaves: only a branch or a pull request that changed makes the transaction stale. */
  function AfterCheck(w: World, s: Spec, o: nat, r: Reply): World {
    if r.Moved? && o == CallsToCheck(s.adapter) - 1 && !s.adapter.SlackMessage? then
      w.(wire := CALM, tx := S.Stale, approval := w.approval.(digest := None))
    else w.(wire := CALM)
  }

  lemma CheckMeets(w: World, s: Spec, o: nat, r: Reply)
    requires w.tx.Ready? && !r.Done? && o < CallsToCheck(s.adapter) && w.wire == Fails(o, r)
    ensures PreflightOne(w, s) == Out(AfterCheck(w, s, o, r), false)
  {
    FailsStep(w, o, r);
    if o > 0 { FailsStep(w.(wire := Fails(o - 1, r)), o - 1, r); }
  }

  ghost predicate NoneCommitted(rows: seq<Row>) {
    forall k :: 0 <= k < |rows| ==> !rows[k].status.Committed?
  }

  lemma {:induction false} PreflightReaches(w: World, rows: seq<Row>, i: nat, k: nat, n: nat, r: Reply)
    requires i <= k <= |rows| == |w.list| && NoneCommitted(rows) && RowsExact(rows, w.list, w.fx, 0)
    requires n >= ChecksBetween(w.list, i, k) && w.wire == Fails(n, r)
    ensures PreflightFrom(w, rows, i) == PreflightFrom(w.(wire := Fails(n - ChecksBetween(w.list, i, k), r)), rows, k)
    decreases k - i
  {
    hide PreflightOne, Fails;
    if i < k {
      var m := n - CallsToCheck(w.list[i].adapter);
      CheckPasses(w, w.list[i], n, r);
      PreflightReaches(w.(wire := Fails(m, r)), rows, i + 1, k, m, r);
    }
  }

  lemma PreflightStops(w: World, rows: seq<Row>, k: nat, o: nat, r: Reply)
    requires w.tx.Ready? && k < |rows| == |w.list| && NoneCommitted(rows) && RowsExact(rows, w.list, w.fx, 0)
    requires !r.Done? && o < CallsToCheck(w.list[k].adapter)
    requires w.wire == Fails(ChecksBetween(w.list, 0, k) + o, r)
    ensures PreflightFrom(w, rows, 0) == Out(AfterCheck(w, w.list[k], o, r), false)
  {
    hide PreflightOne, Fails, AfterCheck;
    PreflightReaches(w, rows, 0, k, ChecksBetween(w.list, 0, k) + o, r);
    CheckMeets(w.(wire := Fails(o, r)), w.list[k], o, r);
    assert AfterCheck(w.(wire := Fails(o, r)), w.list[k], o, r) == AfterCheck(w, w.list[k], o, r) by {
      ChecksIgnoreWire(w, w.(wire := Fails(o, r)), w.list[k], o, r);
    }
  }

  lemma ChecksIgnoreWire(w: World, w': World, s: Spec, o: nat, r: Reply)
    requires w' == w.(wire := w'.wire)
    ensures AfterCheck(w, s, o, r) == AfterCheck(w', s, o, r)
  {
  }

  lemma ReadyRows(w: World)
    requires Inv(w) && w.tx.Ready?
    ensures var rows := Rows(w.list, w.fx); |rows| == |w.list| && RowsExact(rows, w.list, w.fx, 0)
    ensures NoneCommitted(Rows(w.list, w.fx))
  {
    hide WellListed, EffectsOk, ReleaseOrdered, BackwardIdle;
    assert NothingAttempted(w.fx);
  }

  lemma ReadyRowsStay(w: World, wire: Wire)
    requires Inv(w) && w.tx.Ready?
    ensures var w' := w.(wire := wire); Inv(w') && Rows(w'.list, w'.fx) == Rows(w.list, w.fx)
  {
    hide Inv;
    InvIgnoresWire(w, w.(wire := wire));
  }

  /**
   * One preflight check that is answered badly, every call before it answered: the commit fails. A
   * branch or a pull request that changed makes the transaction stale and takes its approval away;
   * after anything else the transaction is ready and approved as before.
   */
  lemma CommitChecked(w: World, digest: nat, k: nat, o: nat, r: Reply)
    requires Inv(w) && w.tx.Ready? && w.repo.pinned && k < |w.list|
    requires !r.Done? && o < CallsToCheck(w.list[k].adapter)
    requires w.wire == Fails(4 + ChecksBetween(w.list, 0, k) + o, r)
    ensures Commit(w, digest) ==
              Out(if r.Moved? && !w.list[k].adapter.SlackMessage? && o + 1 == CallsToCheck(w.list[k].adapter) then
                    w.(wire := CALM, tx := S.Stale, approval := w.approval.(digest := None))
                  else w.(wire := CALM), false)
  {
    hide Inv, PreflightFrom, Fails, BeginCommit, CommitBegun;
    var n := ChecksBetween(w.list, 0, k) + o;
    CommitReachesPreflight(w, digest, n + 4, r);
    var w1 := w.(wire := Fails(n + 1, r));
    FailsStep(w1, n + 1, r);
    var w2 := w.(wire := Fails(n, r));
    ReadyRows(w);
    PreflightStops(w2, Rows(w2.list, w2.fx), k, o, r);
    ChecksIgnoreWire(w, w2, w.list[k], o, r);
  }

  /** The list, or after the checks the lease, cannot be read: the commit fails and nothing has changed. */
  lemma CommitUnlisted(w: World, digest: nat, r: Reply)
    requires w.tx.Ready? && w.repo.pinned && !r.Done? && w.wire == Fails(3, r)
    ensures Commit(w, digest) == Out(w.(wire := CALM), false)
  {
    hide PreflightFrom, Fails, BeginCommit, CommitBegun;
    CommitReachesPreflight(w, digest, 3, r);
    FailsStep(w.(wire := Fails(0, r)), 0, r);
  }

  lemma PreflightPasses(w: World, n: nat, r: Reply)
    requires Inv(w) && w.tx.Ready? && n > ChecksBetween(w.list, 0, |w.list|) && w.wire == Fails(n, r)
    ensures PreflightExternalEffects(w) ==
              Out(w.(wire := Fails(n - 1 - ChecksBetween(w.list, 0, |w.list|), r)), true)
  {
    hide Inv, Fails;
    FailsStep(w, n, r);
    ReadyRows(w);
    var w1 := w.(wire := Fails(n - 1, r));
    PreflightReaches(w1, Rows(w1.list, w1.fx), 0, |w.list|, n - 1, r);
  }

  lemma CommitUnleased(w: World, digest: nat, r: Reply)
    requires Inv(w) && w.tx.Ready? && w.repo.pinned && !r.Done?
    requires w.wire == Fails(4 + ChecksBetween(w.list, 0, |w.list|), r)
    ensures Commit(w, digest) == Out(w.(wire := CALM), false)
  {
    hide Inv, PreflightExternalEffects, Fails, BeginCommit, CommitBegun;
    var n := 4 + ChecksBetween(w.list, 0, |w.list|);
    CommitReachesPreflight(w, digest, n, r);
    ReadyRowsStay(w, Fails(n - 3, r));
    PreflightPasses(w.(wire := Fails(n - 3, r)), n - 3, r);
    FailsStep(w.(wire := Fails(0, r)), 0, r);
  }

  /** The number of calls in a commit before the one that begins it. */
  function CallsToBegin(list: seq<Spec>): nat {
    5 + ChecksBetween(list, 0, |list|)
  }

  /** BeginCommit meets a bad reply: the commit fails, and unless the write was made nothing has changed. */
  lemma CommitNotBegun(w: World, digest: nat, r: Reply)
    requires Inv(w) && w.tx.Ready? && w.repo.pinned && w.approval.digest == Some(digest) && !r.Done?
    requires w.wire == Fails(CallsToBegin(w.list), r)
    ensures Commit(w, digest) == Out(w.(wire := CALM, tx := if r.Unseen? then S.Committing else S.Ready), false)
  {
    hide Inv, PreflightExternalEffects, Fails, CommitBegun, AllCommitReady;
    var n := CallsToBegin(w.list);
    CommitReachesPreflight(w, digest, n, r);
    ReadyRowsStay(w, Fails(n - 3, r));
    PreflightPasses(w.(wire := Fails(n - 3, r)), n - 3, r);
    FailsStep(w.(wire := Fails(1, r)), 1, r);
    FailsStep(w.(wire := Fails(0, r)), 0, r);
    WaitingBeforeRelease(w);
  }

  lemma CommitReachesBegun(w: World, digest: nat, n: nat, r: Reply)
    requires Inv(w) && w.tx.Ready? && w.repo.pinned && w.approval.digest == Some(digest)
    requires n > CallsToBegin(w.list) && w.wire == Fails(n, r)
    ensures Commit(w, digest) ==
              CommitBegun(w.(wire := Fails(n - 1 - CallsToBegin(w.list), r), tx := S.Committing))
  {
    hide Inv, PreflightExternalEffects, Fails, CommitBegun, AllCommitReady;
    CommitReachesPreflight(w, digest, n, r);
    ReadyRowsStay(w, Fails(n - 3, r));
    PreflightPasses(w.(wire := Fails(n - 3, r)), n - 3, r);
    var m := n - CallsToBegin(w.list);
    FailsStep(w.(wire := Fails(m + 1, r)), m + 1, r);
    FailsStep(w.(wire := Fails(m, r)), m, r);
    WaitingBeforeRelease(w);
  }

  // ---- The part of a commit that follows BeginCommit ----

  /** A commit has begun: everything waits, and everything depends only on what is listed before it. */
  ghost predicate Begun(w: World) {
    && Inv(w) && w.tx.Committing? && w.repo.pinned && Topological(w.list)
    && forall id :: id in w.fx ==> w.fx[id].status.Verified?
  }

  lemma GiveUpCalm(w: World)
    requires Calm(w) && w.tx.Committing?
    ensures GiveUp(w) == Out(w.(tx := S.NeedsReconciliation), false)
  {
  }

  /** The patch or the ref cannot be read: reconciliation is asked for, and nothing else has changed. */
  lemma BegunUnread(w: World, n: nat, r: Reply)
    requires Begun(w) && !r.Done? && (n == 0 || (n == 1 && !r.Silent?)) && w.wire == Fails(n, r)
    ensures CommitBegun(w) == Out(w.(wire := CALM, tx := S.NeedsReconciliation), false)
  {
    hide Begun, RefMade, Materialize, Fails;
    FailsStep(w, n, r);
    if n == 1 { FailsStep(w.(wire := Fails(0, r)), 0, r); }
    assert w.tx.Committing? by { assert Begun(w); BegunIsCommitting(w); }
  }

  lemma BegunIsCommitting(w: World)
    requires Begun(w)
    ensures w.tx.Committing? && w.repo.pinned
  {
    hide Inv, Topological;
  }

  /** A failing rev-parse reads as an absent ref: harmless if it is absent, and otherwise the ref cannot be made. */
  lemma BegunMisreads(w: World)
    requires Begun(w) && w.wire == Fails(1, Silent)
    ensures CommitBegun(w) ==
              if w.repo.ref then Out(w.(wire := CALM, tx := S.NeedsReconciliation), false)
              else CommitBegun(w.(wire := CALM))
  {
    hide Begun, RefMade, Fails;
    FailsStep(w, 1, Silent);
    FailsStep(w.(wire := Fails(0, Silent)), 0, Silent);
    BegunIsCommitting(w);
    RefNotMade(w.(wire := CALM));
  }

  lemma RefNotMade(w: World)
    ensures RefMade(Out(w, false)) == GiveUp(w)
  {
    hide ReleaseAndFinalize;
  }

  /** The ref cannot be made, or is made without an acknowledgement. */
  lemma BegunWithoutRef(w: World, r: Reply)
    requires Begun(w) && !w.repo.ref && !r.Done? && w.wire == Fails(2, r)
    ensures CommitBegun(w) ==
              Out(w.(wire := CALM, tx := S.NeedsReconciliation, repo := w.repo.(ref := r.Unseen?)), false)
  {
    hide Begun, ReleaseAndFinalize, Fails;
    FailsStep(w, 2, r);
    FailsStep(w.(wire := Fails(1, r)), 1, r);
    FailsStep(w.(wire := Fails(0, r)), 0, r);
    BegunIsCommitting(w);
  }

  /** The number of calls from BeginCommit to the one that records the ref. */
  function CallsToRecord(repo: Repository): nat {
    if repo.ref then 2 else 3
  }

  lemma BegunReachesRecord(w: World, n: nat, r: Reply)
    requires Begun(w) && n >= CallsToRecord(w.repo) && w.wire == Fails(n, r)
    ensures CommitBegun(w) ==
              RefMade(Out(w.(wire := Fails(n - CallsToRecord(w.repo), r), repo := w.repo.(ref := true)), true))
  {
    hide Begun, RefMade, Fails;
    FailsStep(w, n, r);
    FailsStep(w.(wire := Fails(n - 1, r)), n - 1, r);
    if !w.repo.ref { FailsStep(w.(wire := Fails(n - 2, r)), n - 2, r); }
    BegunIsCommitting(w);
    assert w.repo.ref ==> w.repo.(ref := true) == w.repo;
  }

  /** The ref is made and cannot be recorded, or is recorded without an acknowledgement. */
  lemma BegunUnrecorded(w: World, r: Reply)
    requires Begun(w) && !r.Done? && w.wire == Fails(CallsToRecord(w.repo), r)
    ensures CommitBegun(w) ==
              Out(w.(wire := CALM, tx := S.NeedsReconciliation,
                     repo := w.repo.(ref := true, recorded := w.repo.recorded || r.Unseen?)), false)
  {
    hide Begun, ReleaseAndFinalize, Fails;
    BegunReachesRecord(w, CallsToRecord(w.repo), r);
    FailsStep(w.(wire := Fails(0, r)), 0, r);
    BegunIsCommitting(w);
  }

  function RefRecorded(w: World, wire: Wire): World {
    w.(wire := wire, repo := w.repo.(ref := true, recorded := true))
  }

  lemma BegunReachesRelease(w: World, n: nat, r: Reply)
    requires Begun(w) && n > CallsToRecord(w.repo) && w.wire == Fails(n, r)
    ensures CommitBegun(w) == ReleaseAndFinalize(RefRecorded(w, Fails(n - 1 - CallsToRecord(w.repo), r)))
  {
    hide Begun, ReleaseAndFinalize, Fails;
    BegunReachesRecord(w, n, r);
    var m := n - CallsToRecord(w.repo);
    FailsStep(w.(wire := Fails(m, r)), m, r);
    BegunIsCommitting(w);
  }

  /** A release that fails asks for reconciliation, if it has not done so itself. */
  lemma ReleaseFails(w: World)
    requires var x := CommitExternalEffects(w); !x.ok && Calm(x.w) && InCommit(x.w)
    ensures ReleaseAndFinalize(w) == Out(CommitExternalEffects(w).w.(tx := S.NeedsReconciliation), false)
  {
    hide CommitExternalEffects;
  }

  lemma ReleaseUnlisted(w: World, r: Reply)
    requires !r.Done? && w.wire == Fails(0, r)
    ensures CommitExternalEffects(w) == Out(w.(wire := CALM), false)
  {
    hide CommitFrom, Fails;
    FailsStep(w, 0, r);
  }

  /** The effects cannot be listed: the ref is recorded and nothing is released. */
  lemma BegunUnlisted(w: World, r: Reply)
    requires Begun(w) && !r.Done? && w.wire == Fails(CallsToRecord(w.repo) + 1, r)
    ensures CommitBegun(w) ==
              Out(w.(wire := CALM, tx := S.NeedsReconciliation, repo := w.repo.(ref := true, recorded := true)), false)
  {
    hide Begun, Fails, CommitExternalEffects, ReleaseAndFinalize;
    BegunReachesRelease(w, CallsToRecord(w.repo) + 1, r);
    BegunIsCommitting(w);
    ReleaseUnlisted(RefRecorded(w, Fails(0, r)), r);
    ReleaseFails(RefRecorded(w, Fails(0, r)));
  }

  lemma BegunRows(w: World, fx: Effects)
    requires Begun(w) && fx == w.fx
    ensures var rows := Rows(w.list, fx);
            && |rows| == |w.list| && RowsExact(rows, w.list, fx, 0) && RowsCanGo(rows, 0) && CommittedIds(rows) == {}
            && CommittedRowsIn(rows, {}) && Orderly(rows, 0, {}) && WellListed(w.list, fx.Keys)
  {
    hide Topological, EffectsOk, ReleaseOrdered, BackwardIdle, PhaseOk, Orderly;
    var rows := Rows(w.list, fx);
    forall k | 0 <= k < |rows| ensures rows[k].status.Verified? { IdAt(w.list, fx.Keys, k); }
    TopologicalIsOrderly(w.list, fx.Keys, rows, {});
  }

  /**
   * The release meets one reply out of order, at call o for the effect at k: reconciliation is asked for,
   * what comes before that effect is committed, it is as that reply leaves it, the rest is untouched.
   */
  lemma BegunStopsAt(w: World, k: nat, o: nat, r: Reply)
    requires Begun(w) && k < |w.list| && !r.Done?
    requires o < CallsToSend(w.list[k], Get(w.fx, w.list[k].id))
    requires w.wire == Fails(CallsToRecord(w.repo) + 2 + CallsBetween(w.list, w.fx, 0, k) + o, r)
    ensures var x := CommitBegun(w);
            && !x.ok
            && x.w == w.(wire := CALM, tx := S.NeedsReconciliation, fx := x.w.fx,
                         repo := w.repo.(ref := true, recorded := true))
            && StoppedAt(w.list, 0, k, Interrupted(w.list[k], Get(w.fx, w.list[k].id), o, r), w.fx, x.w.fx)
  {
    hide Begun, Fails, CommitExternalEffects, StoppedAt, Interrupted, CallsToSend, ReleaseAndFinalize;
    var n := CallsBetween(w.list, w.fx, 0, k) + o;
    BegunReachesRelease(w, CallsToRecord(w.repo) + 2 + n, r);
    ReleaseStopsAt(w, k, o, r);
    ReleaseFails(RefRecorded(w, Fails(n + 1, r)));
  }

  lemma ReleaseStopsAt(w: World, k: nat, o: nat, r: Reply)
    requires Begun(w) && k < |w.list| && !r.Done?
    requires o < CallsToSend(w.list[k], Get(w.fx, w.list[k].id))
    ensures var x := CommitExternalEffects(RefRecorded(w, Fails(CallsBetween(w.list, w.fx, 0, k) + o + 1, r)));
            && !x.ok && InCommit(x.w)
            && x.w == RefRecorded(w, CALM).(fx := x.w.fx, tx := x.w.tx)
            && StoppedAt(w.list, 0, k, Interrupted(w.list[k], Get(w.fx, w.list[k].id), o, r), w.fx, x.w.fx)
  {
    hide Begun, Fails, CommitFrom, StoppedAt, Interrupted, CallsToSend, Rows, CommittedIds, WellListed, Orderly,
        RowsExact, RowsCanGo, CommittedRowsIn;
    var n := CallsBetween(w.list, w.fx, 0, k) + o;
    var w1 := RefRecorded(w, Fails(n + 1, r));
    FailsStep(w1, n + 1, r);
    BegunIsCommitting(w);
    BegunRows(w, w.fx);
    BegunWaits(w, k);
    CommitFromStops(RefRecorded(w, Fails(n, r)), Rows(w.list, w.fx), 0, {}, k, o, r);
  }

  lemma BegunWaits(w: World, k: nat)
    requires Begun(w) && k < |w.list|
    ensures Get(w.fx, w.list[k].id).status.Verified?
  {
    hide Topological, EffectsOk, ReleaseOrdered, BackwardIdle, PhaseOk;
    IdAt(w.list, w.fx.Keys, k);
  }

  /** Every listed effect is sent. */
  ghost predicate AllSent(list: seq<Spec>, fx: Effects, fx': Effects) {
    fx'.Keys == fx.Keys && forall j :: 0 <= j < |list| ==> Get(fx', list[j].id) == Sent(Get(fx, list[j].id))
  }

  lemma BegunSends(w: World, n: nat, r: Reply)
    requires Begun(w) && n > CallsBetween(w.list, w.fx, 0, |w.list|)
    ensures var x := CommitExternalEffects(RefRecorded(w, Fails(n, r)));
            && x == Out(RefRecorded(w, Fails(n - 1 - CallsBetween(w.list, w.fx, 0, |w.list|), r)).(fx := x.w.fx), true)
            && AllSent(w.list, w.fx, x.w.fx) && AllCommitted(x.w.fx)
  {
    hide Begun, Fails, WellListed, Orderly, RowsExact, RowsCanGo, CommittedRowsIn, Sent, Inv, FxGrown;
    hide Rows, CommittedIds;
    var w1 := RefRecorded(w, Fails(n, r));
    FailsStep(w1, n, r);
    BegunIsCommitting(w);
    BegunRows(w, w.fx);
    var rows := Rows(w.list, w.fx);
    CommitFromReaches(RefRecorded(w, Fails(n - 1, r)), rows, 0, {}, |w.list|, n - 1, r);
    forall j | 0 <= j < |w.list| ensures Get(SentBetween(w.list, w.fx, 0, |w.list|), w.list[j].id)
        == Sent(Get(w.fx, w.list[j].id)) {
      SentBetweenAt(w.list, w.fx.Keys, w.fx, 0, |w.list|, j);
      BegunWaits(w, j);
    }
    BegunStaysSound(w, Fails(n, r));
    CommitEffectsKeeps(w1);
  }

  lemma BegunStaysSound(w: World, wire: Wire)
    requires Begun(w)
    ensures Inv(RefRecorded(w, wire))
  {
    hide WellListed, EffectsOk, ReleaseOrdered, BackwardIdle;
  }

  /** The number of calls from BeginCommit to the one that finalizes the transaction. */
  ghost function CallsToFinalize(w: World): nat {
    CallsToRecord(w.repo) + 2 + CallsBetween(w.list, w.fx, 0, |w.list|)
  }

  lemma FinalizationMeets(w: World, r: Reply)
    requires var x := CommitExternalEffects(w);
             && x.ok && x.w.tx.Committing? && x.w.repo.recorded && AllCommitted(x.w.fx)
             && !r.Done? && x.w.wire == Fails(0, r)
    ensures ReleaseAndFinalize(w) ==
              Out(CommitExternalEffects(w).w.(wire := CALM, tx := if r.Unseen? then S.Committed
                                                                  else S.NeedsReconciliation), false)
  {
    hide CommitExternalEffects, AllCommitted, Fails;
    FailsStep(CommitExternalEffects(w).w, 0, r);
  }

  /** Everything is released and the finalization meets a bad reply: made or not, the commit reports an error. */
  lemma BegunNotFinalized(w: World, r: Reply)
    requires Begun(w) && !r.Done? && w.wire == Fails(CallsToFinalize(w), r)
    ensures var x := CommitBegun(w);
            && !x.ok
            && x.w == w.(wire := CALM, tx := if r.Unseen? then S.Committed else S.NeedsReconciliation, fx := x.w.fx,
                         repo := w.repo.(ref := true, recorded := true))
            && AllSent(w.list, w.fx, x.w.fx)
  {
    hide Begun, Fails, CommitExternalEffects, AllSent, AllCommitted, ReleaseAndFinalize;
    BegunReachesRelease(w, CallsToFinalize(w), r);
    var n := CallsBetween(w.list, w.fx, 0, |w.list|) + 1;
    BegunSends(w, n, r);
    BegunIsCommitting(w);
    FinalizationMeets(RefRecorded(w, Fails(n, r)), r);
  }

  /** All is answered as far as the finalization: the transaction is committed, every effect sent. */
  lemma BegunCommits(w: World, n: nat, r: Reply)
    requires Begun(w) && n > CallsToFinalize(w) && w.wire == Fails(n, r)
    ensures var x := CommitBegun(w);
            && x.ok
            && x.w == w.(wire := x.w.wire, tx := S.Committed, fx := x.w.fx,
                         repo := w.repo.(ref := true, recorded := true))
            && AllSent(w.list, w.fx, x.w.fx)
  {
    hide Begun, Fails, CommitExternalEffects, AllSent, AllCommitted;
    BegunReachesRelease(w, n, r);
    var m := n - 1 - CallsToRecord(w.repo);
    BegunSends(w, m, r);
    var sent := CommitExternalEffects(RefRecorded(w, Fails(m, r))).w;
    FailsStep(sent, n - CallsToFinalize(w), r);
    BegunIsCommitting(w);
  }

  // ---- One bad reply anywhere in a commit ----

  lemma {:induction false} FindCheck(list: seq<Spec>, i: nat, m: nat) returns (k: nat, o: nat)
    requires i <= |list| && m < ChecksBetween(list, i, |list|)
    ensures i <= k < |list| && o < CallsToCheck(list[k].adapter) && m == ChecksBetween(list, i, k) + o
    decreases |list| - i
  {
    if m < CallsToCheck(list[i].adapter) {
      k, o := i, m;
    } else {
      k, o := FindCheck(list, i + 1, m - CallsToCheck(list[i].adapter));
    }
  }

  lemma {:induction false} FindCall(list: seq<Spec>, fx: Effects, i: nat, m: nat) returns (k: nat, o: nat)
    requires i <= |list| && m < CallsBetween(list, fx, i, |list|)
    ensures i <= k < |list| && !Get(fx, list[k].id).status.Committed?
    ensures o < CallsToSend(list[k], Get(fx, list[k].id)) && m == CallsBetween(list, fx, i, k) + o
    decreases |list| - i
  {
    hide CallsToSend;
    var e := Get(fx, list[i].id);
    var calls := if e.status.Committed? then 0 else CallsToSend(list[i], e);
    if m < calls {
      k, o := i, m;
    } else {
      k, o := FindCall(list, fx, i + 1, m - calls);
    }
  }

  /** A failing rev-parse that does no harm: the ref is absent, as it says. */
  predicate HarmlessMisreading(w: World, n: nat, r: Reply) {
    n == 1 && r.Silent? && !w.repo.ref
  }

  /** From BeginCommit on: committed, or for reconciliation; never left in committing. */
  lemma BegunIsClosed(w: World, n: nat, r: Reply)
    requires Begun(w) && !r.Done? && w.wire == Fails(n, r)
    ensures var x := CommitBegun(w);
            && (x.ok <==> n > CallsToFinalize(w) || HarmlessMisreading(w, n, r))
            && (x.w.tx.Committed? <==> x.ok || (n == CallsToFinalize(w) && r.Unseen?))
            && (x.w.tx.NeedsReconciliation? <==> !x.w.tx.Committed?)
  {
    hide Begun, CommitBegun, Fails, CallsToSend, AllSent, StoppedAt, Interrupted;
    var record := CallsToRecord(w.repo);
    if n == 0 || (n == 1 && !r.Silent?) {
      BegunUnread(w, n, r);
    } else if n == 1 {
      BegunMisreads(w);
      if !w.repo.ref { BegunCalm(w); }
    } else if n < record {
      BegunWithoutRef(w, r);
    } else if n == record {
      BegunUnrecorded(w, r);
    } else if n == record + 1 {
      BegunUnlisted(w, r);
    } else if n < CallsToFinalize(w) {
      var k, o := FindCall(w.list, w.fx, 0, n - record - 2);
      BegunStopsAt(w, k, o, r);
    } else if n == CallsToFinalize(w) {
      BegunNotFinalized(w, r);
    } else {
      BegunCommits(w, n, r);
    }
  }

  lemma BegunCalm(w: World)
    requires Begun(w)
    ensures var x := CommitBegun(w.(wire := CALM)); x.ok && x.w.tx.Committed?
  {
    hide Topological, CommitBegun, Inv;
    var calm := w.(wire := CALM);
    InvIgnoresWire(w, calm);
    forall k | 0 <= k < |w.list| ensures !Get(w.fx, w.list[k].id).Unresolved() { BegunWaits(w, k); }
    CommitBegunCalm(calm);
  }

  lemma ReadyBegins(w: World, wire: Wire)
    requires Inv(w) && w.tx.Ready? && w.repo.pinned && w.approval.digest.Some? && Topological(w.list)
    ensures Begun(w.(wire := wire, tx := S.Committing))
  {
    hide WellListed, ReleaseOrdered, BackwardIdle, Topological;
    assert NothingAttempted(w.fx) && NothingAborted(w.fx);
  }

  /**
   * A commit that meets one reply out of order, at its call n, wherever that is. It fails unless that
   * call comes after the last one, or was a failing rev-parse for a ref that is absent anyhow. And it
   * leaves the transaction in committing exactly if BeginCommit was made and not acknowledged.
   */
  lemma CommitMeets(w: World, digest: nat, n: nat, r: Reply)
    requires Inv(w) && w.tx.Ready? && w.repo.pinned && w.approval.digest == Some(digest) && Topological(w.list)
    requires !r.Done? && w.wire == Fails(n, r)
    ensures var x := Commit(w, digest);
            var begun := CallsToBegin(w.list);
            && (x.ok <==> n > begun + 1 + CallsToFinalize(w) || (n > begun && HarmlessMisreading(w, n - begun - 1, r)))
            && (x.w.tx.Committing? <==> n == begun && r.Unseen?)
            && (x.w.tx.Committed? <==> x.ok || (n == begun + 1 + CallsToFinalize(w) && r.Unseen?))
            && (x.w.tx.NeedsReconciliation? <==> n > begun && !x.w.tx.Committed?)
            && (x.w.tx.Ready? || x.w.tx.Stale? <==> n < begun || (n == begun && !r.Unseen?))
  {
    hide Inv, Commit, Fails, CommitBegun, Topological, HarmlessMisreading;
    var begun := CallsToBegin(w.list);
    if n < 3 {
      CommitUnreadAtFirst(w, digest, n, r);
    } else if n == 3 {
      CommitUnlisted(w, digest, r);
    } else if n < begun - 1 {
      var k, o := FindCheck(w.list, 0, n - 4);
      CommitChecked(w, digest, k, o, r);
    } else if n == begun - 1 {
      CommitUnleased(w, digest, r);
    } else if n == begun {
      CommitNotBegun(w, digest, r);
    } else {
      CommitReachesBegun(w, digest, n, r);
      var w1 := w.(wire := Fails(n - 1 - begun, r), tx := S.Committing);
      ReadyBegins(w, w1.wire);
      BegunIsClosed(w1, n - 1 - begun, r);
      assert CallsToFinalize(w1) == CallsToFinalize(w);
      Misreadings(w, w1, n - begun - 1, r);
    }
  }

  lemma Misreadings(w: World, w': World, n: nat, r: Reply)
    requires w'.repo == w.repo
    ensures HarmlessMisreading(w, n, r) == HarmlessMisreading(w', n, r)
  {
  }

  // ---- The calls that lead up to a commit ----

  function Material(w: World): World {
    w.(approval := Approval(w.approval.epoch + 1, None))
  }

  /** Sealing, verifying and approving when answered: from which statuses they succeed, and to what effect. */
  lemma EarlyCallsEnd(w: World, passed: bool, digest: nat)
    requires Inv(w) && Calm(w)
    ensures Seal(w) == if w.tx.Active? then Out(Material(w).(tx := S.Sealed), true) else Out(w, false)
    ensures RecordVerification(w, passed) ==
              if w.tx.Sealed? || w.tx.Stale? then
                Out(Material(w).(tx := if passed then S.Ready else S.FailedVerification), true)
              else Out(w, false)
    ensures Approve(w, digest) ==
              if w.tx.Ready? && digest == w.approval.epoch then
                Out(w.(approval := Approval(digest, Some(digest))), true)
              else Out(w, false)
  {
    hide Inv;
    if w.tx.Ready? { WaitingBeforeRelease(w); }
  }

  /** The dependencies an effect may be prepared with: a branch none, a pull request at most one branch. */
  ghost predicate MayDepend(list: seq<Spec>, adapter: Adapter, dependsOn: set<EffectId>) {
    && (forall d :: d in dependsOn ==>
          exists s :: s in list && s.id == d && (adapter.SlackMessage? || s.adapter.GitHubBranch?))
    && (adapter.GitHubBranch? ==> dependsOn == {})
    && (adapter.GitHubDraftPR? ==> |dependsOn| <= 1)
  }

  lemma MayDependExactly(w: World, adapter: Adapter, dependsOn: set<EffectId>)
    requires WellListed(w.list, w.fx.Keys)
    ensures DependenciesAllowed(w, adapter, dependsOn) <==> MayDepend(w.list, adapter, dependsOn)
  {
    if DependenciesAllowed(w, adapter, dependsOn) {
      forall d | d in dependsOn
        ensures exists s :: s in w.list && s.id == d && (adapter.SlackMessage? || s.adapter.GitHubBranch?)
      {
        assert d in Ids(w.list);
      }
    }
    if MayDepend(w.list, adapter, dependsOn) {
      forall d | d in dependsOn ensures d in w.fx {
        var s :| s in w.list && s.id == d && (adapter.SlackMessage? || s.adapter.GitHubBranch?);
        assert s.id in Ids(w.list);
      }
    }
  }

  /**
   * Preparing an effect when answered succeeds exactly in a sealed transaction, or an active one unless
   * it is a branch, under a new identity and with dependencies it may have. It drops the approval.
   */
  lemma PrepareEnds(w: World, id: EffectId, adapter: Adapter, dependsOn: set<EffectId>)
    requires Inv(w) && Calm(w)
    ensures var x := Prepare(w, id, adapter, dependsOn);
            && (x.ok <==> (w.tx.Sealed? || (w.tx.Active? && !adapter.GitHubBranch?)) && id !in w.fx
                          && MayDepend(w.list, adapter, dependsOn))
            && (x.ok ==> x.w == Material(w).(list := x.w.list, fx := w.fx[id := Effect(Verified, false, 0, false)])
                         && forall s :: s in x.w.list <==> s == Spec(id, adapter, dependsOn, |w.list|) || s in w.list)
            && (!x.ok ==> x.w == w)
  {
    hide Inv, Insert, DependenciesAllowed, MayDepend, WellListed;
    InvListed(w);
    MayDependExactly(w, adapter, dependsOn);
    if id !in w.fx { NewIdentity(w.list, w.fx.Keys, Spec(id, adapter, dependsOn, |w.list|)); }
  }

  lemma NewIdentity(list: seq<Spec>, ids: set<EffectId>, s: Spec)
    requires WellListed(list, ids) && s.id !in ids
    ensures forall x :: x in Insert(list, s) <==> x == s || x in list
  {
    R.InsertKeepsOrder(list, s);
  }

  /** A draft pull request that was not attempted can be prepared anew while the transaction is active or stale. */
  lemma RefreshEnds(w: World, id: EffectId)
    requires Inv(w) && Calm(w)
    ensures Refresh(w, id) ==
              if (w.tx.Active? || w.tx.Stale?) && exists s :: s in w.list && s.id == id && s.adapter.GitHubDraftPR? then
                Out(Material(w), true)
              else Out(w, false)
  {
    hide WellListed, ReleaseOrdered, BackwardIdle;
    if exists s :: s in w.list && s.id == id && s.adapter.GitHubDraftPR? {
      assert id in Ids(w.list) by { var s :| s in w.list && s.id == id; }
      assert id in w.fx by { InvListed(w); ListedIds(w.list, w.fx.Keys); }
    }
    if id in w.fx && (w.tx.Active? || w.tx.Stale?) {
      assert NothingAttempted(w.fx) && NothingAborted(w.fx);
      assert w.fx[id := w.fx[id].(status := Verified)] == w.fx;
    }
  }

  lemma ListedIds(list: seq<Spec>, ids: set<EffectId>)
    requires WellListed(list, ids)
    ensures ids == Ids(list)
  {
  }

  /** The calls of a run in which nothing goes wrong, from sealed or stale on. */
  function CleanSteps(digest: nat): seq<Step> {
    [Step(CallVerify(true), CALM), Step(CallApprove(digest), CALM), Step(CallCommit(digest), CALM)]
  }

  /**
   * A transaction that is verified, approved and committed with every call answered, the source
   * unmoved, ends committed exactly if every dependency is listed before its effect.
   */
  lemma CleanRunCommits(steps: seq<Step>)
    requires var w := Run(steps); (w.tx.Sealed? || w.tx.Stale?) && w.repo.pinned
    ensures var w := Run(steps); Run(steps + CleanSteps(w.approval.epoch + 1)).tx.Committed? <==> Topological(w.list)
  {
    hide Run, Inv, Commit, Topological;
    var w := Run(steps).(wire := CALM);
    var digest := w.approval.epoch + 1;
    R.RunKeepsInv(steps);
    InvIgnoresWire(Run(steps), w);
    EarlyCallsEnd(w, true, digest);
    var verified := RecordVerification(w, true).w;
    R.EarlyCallsKeepInv(w, true, digest);
    EarlyCallsEnd(verified, true, digest);
    var approved := Approve(verified, digest).w;
    R.EarlyCallsKeepInv(verified, true, digest);
    CommitEnds(approved, digest);
    var one := steps + [CleanSteps(digest)[0]];
    var two := one + [CleanSteps(digest)[1]];
    RunExtends(steps, CleanSteps(digest)[0]);
    RunExtends(one, CleanSteps(digest)[1]);
    RunExtends(two, CleanSteps(digest)[2]);
    assert steps + CleanSteps(digest) == two + [CleanSteps(digest)[2]];
  }
}
