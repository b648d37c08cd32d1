/** What must have come before a release, and where the service steps outside its own state table. */
module CoordinatorGates {
  import opened Wrappers
  import opened CommitWorld
  import opened Coordinator
  import opened CoordinatorSafety
  import opened CoordinatorRuns
  import S = TransactionStates

  // ---- Which call can bring a status or an approval about ----

  /** Statuses that no transaction has before a verification of it passed. */
  predicate NeedsVerification(s: S.State) {
    s.Ready? || s.Stale? || InRelease(s)
  }

  lemma AbortLeadsNowhereElse(w: World)
    ensures var tx := Abort(w).w.tx; tx == w.tx || tx.Aborting? || tx.Aborted?
  {
    hide Dropped, SomeAttempted, S.CanTransition;
  }

  lemma RecoverNeedsCommit(w: World)
    requires !InCommit(w)
    ensures Recover(w).w.tx == w.tx
  {
    hide Reconcile;
  }

  lemma PinnedNeedsApproval(w: World, digest: nat)
    requires Inv(w) && w.tx.Ready? && InRelease(CommitPinned(w, digest).w.tx)
    ensures w.approval.digest == Some(digest)
  {
    hide Inv, FxGrown, PreflightFrom, CommitBegun;
    var w1 := Tick(w);
    InvIgnoresWire(w, w1);
    PreflightIsSafe(w1, Rows(w1.list, w1.fx), 0);
  }

  /** A commit that gets as far as a releasing status began under the approval it names, the source unmoved. */
  lemma CommitNeedsApproval(w: World, digest: nat)
    requires Inv(w)
    ensures var tx := Commit(w, digest).w.tx;
            && (!w.tx.Ready? ==> tx == w.tx)
            && (w.tx.Ready? && InRelease(tx) ==> w.approval.digest == Some(digest) && w.repo.pinned)
  {
    hide Inv, CommitPinned, S.CanTransition;
    var w3 := Tick(Tick(Tick(w)));
    InvIgnoresWire(w, w3);
    if w.tx.Ready? && InRelease(CommitPinned(w3, digest).w.tx) {
      PinnedNeedsApproval(w3, digest);
    }
  }

  /** The three doors: a passed verification, an approval of a ready transaction, a commit it names. */
  lemma DoorsAreExact(w: World, call: Call, d: nat)
    requires Inv(w)
    ensures var w' := Perform(w, call);
            && (NeedsVerification(w'.tx) ==> NeedsVerification(w.tx) || call == CallVerify(true))
            && (w'.approval.digest == Some(d) ==>
                  w.approval.digest == Some(d) || (call == CallApprove(d) && w.tx.Ready?))
            && (InRelease(w'.tx) ==>
                  InRelease(w.tx) || (call.CallCommit? && w.approval.digest == Some(call.digest)))
  {
    hide Inv, Commit, Recover, Abort, S.Reaches, FxGrown, Insert;
    match call
    case CallCommit(digest) => CommitIsSafe(w, digest); CommitNeedsApproval(w, digest);
    case CallRecover =>
      RecoverIsSafe(w);
      if !InCommit(w) { RecoverNeedsCommit(w); }
    case CallAbort => AbortIsSafe(w); AbortLeadsNowhereElse(w);
    case _ =>
  }

  // ---- Runs ----

  predicate VerifiedBefore(steps: seq<Step>, n: nat) {
    exists i :: 0 <= i < n && i < |steps| && steps[i].call == CallVerify(true)
  }

  predicate ApprovedBefore(steps: seq<Step>, n: nat, d: nat) {
    exists j :: 0 <= j < n && j < |steps| && steps[j].call == CallApprove(d) && VerifiedBefore(steps, j)
  }

  predicate CommitCalledBefore(steps: seq<Step>, n: nat, d: nat) {
    exists k :: 0 <= k < n && k < |steps| && steps[k].call == CallCommit(d) && ApprovedBefore(steps, k, d)
  }

  /** What a run must contain for its status and approval to be what they are. */
  ghost predicate Gated(steps: seq<Step>, n: nat, w: World) {
    && (NeedsVerification(w.tx) ==> VerifiedBefore(steps, n))
    && (w.approval.digest.Some? ==> ApprovedBefore(steps, n, w.approval.digest.value))
    && (InRelease(w.tx) ==> exists d :: CommitCalledBefore(steps, n, d))
  }

  lemma GateStep(steps: seq<Step>, n: nat, w: World, w': World)
    requires n < |steps| && Inv(w) && Gated(steps, n, w) && w' == Do(w, steps[n])
    ensures Gated(steps, n + 1, w')
  {
    hide Inv, Perform;
    var at := w.(wire := steps[n].wire);
    InvIgnoresWire(w, at);
    var d := if w'.approval.digest.Some? then w'.approval.digest.value else 0;
    DoorsAreExact(at, steps[n].call, d);
    if VerifiedBefore(steps, n) {
      var i :| 0 <= i < n && i < |steps| && steps[i].call == CallVerify(true);
      assert 0 <= i < n + 1 && steps[i].call == CallVerify(true);
    }
    if ApprovedBefore(steps, n, d) {
      var j :| 0 <= j < n && j < |steps| && steps[j].call == CallApprove(d) && VerifiedBefore(steps, j);
      assert 0 <= j < n + 1 && steps[j].call == CallApprove(d) && VerifiedBefore(steps, j);
    }
    if InRelease(w'.tx) && InRelease(w.tx) {
      var c :| CommitCalledBefore(steps, n, c);
      var k :| 0 <= k < n && k < |steps| && steps[k].call == CallCommit(c) && ApprovedBefore(steps, k, c);
      assert 0 <= k < n + 1 && steps[k].call == CallCommit(c) && ApprovedBefore(steps, k, c);
      assert CommitCalledBefore(steps, n + 1, c);
    } else if InRelease(w'.tx) {
      assert CommitCalledBefore(steps, n + 1, steps[n].call.digest);
    }
  }

  lemma {:induction false} RunIsGated(steps: seq<Step>, n: nat)
    requires n <= |steps|
    ensures Gated(steps, n, Run(steps[..n]))
  {
    if n > 0 {
      hide Inv, Gated, Do;
      RunIsGated(steps, n - 1);
      RunKeepsInv(steps[..n - 1]);
      assert steps[..n][..n - 1] == steps[..n - 1] && steps[..n][n - 1] == steps[n - 1];
      GateStep(steps, n - 1, Run(steps[..n - 1]), Run(steps[..n]));
    }
  }

  /**
   * Nothing is committing, awaiting reconciliation, committed or left to a person unless the run
   * contains, in this order, a verification that passed, an approval of some digest and a commit
   * that named that very digest.
   */
  lemma ReleaseNeedsApproval(steps: seq<Step>)
    requires InRelease(Run(steps).tx)
    ensures exists d :: CommitCalledBefore(steps, |steps|, d)
  {
    hide Run, CommitCalledBefore;
    assert steps[..|steps|] == steps;
    RunIsGated(steps, |steps|);
  }

  // ---- The table and what the service asks of it ----

  /** Every status a run ever has is reached from active by steps of the table. */
  lemma StatusFollowsTable(steps: seq<Step>, k: nat)
    requires k <= |steps|
    ensures S.Reaches(Run(steps[..k]).tx, Run(steps).tx) && S.Reaches(S.Active, Run(steps).tx)
  {
    hide Run, S.Reaches;
    RunOnlyGrows(steps, k);
    RunOnlyGrows(steps, 0);
    NothingYet(steps);
  }

  lemma NothingYet(steps: seq<Step>)
    ensures Run(steps[..0]) == NEW_TRANSACTION
  {
  }

  /**
   * A verification is recorded in one write: the status jumps over verifying. No such jump is in the
   * table, though the two steps it stands for are.
   */
  lemma VerificationSkipsAState(w: World, passed: bool)
    ensures var tx := RecordVerification(w, passed).w.tx;
            tx != w.tx ==> !S.CanTransition(w.tx, tx) && S.CanTransition(w.tx, S.Verifying) && S.CanTransition(S.Verifying, tx)
  {
  }

  /**
   * The move to needs_reconciliation is asked for wherever an effect fails; the table refuses it
   * exactly when the transaction is neither committing nor compensating. During a recovery it is
   * therefore always refused, with no other effect than the lost reply.
   */
  lemma ReconciliationRefusedExactly(w: World)
    ensures S.CanTransition(w.tx, S.NeedsReconciliation) <==> w.tx.Committing? || w.tx.Compensating?
    ensures w.tx.NeedsReconciliation? ==> MarkNeedsReconciliation(w) == Out(Tick(w), false)
  {
  }
}
