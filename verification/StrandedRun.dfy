/**
 * A run that ends in manual intervention, "external effect committed but repository ref is absent",
 * although nobody removed the ref and it is there.
 */
module StrandedRun {
  import opened Wrappers
  import opened CommitWorld
  import opened Coordinator
  import opened CoordinatorSafety
  import opened CoordinatorRuns
  import opened CoordinatorLiveness
  import S = TransactionStates

  function Calmly(call: Call): Step {
    Step(call, Wire([], Done))
  }

  /** The next n calls are answered; then the process dies. */
  function DiesAfter(n: nat): Wire {
    Wire(seq(n, _ => Done), Refused)
  }

  lemma StillAlive(w: World, n: nat)
    requires w.wire == DiesAfter(n) && n > 0
    ensures w.wire.Next() == Done && Tick(w) == w.(wire := DiesAfter(n - 1))
  {
  }

  const BRANCH := Spec(0, GitHubBranch, {}, 0)

  /** Sealed, one branch prepared, verified, approved. */
  const APPROVED: seq<Step> :=
    [Calmly(CallSeal), Calmly(CallPrepare(0, GitHubBranch, {})), Calmly(CallVerify(true)), Calmly(CallApprove(3))]

  /** The world as it is in that run, for any status, ref and state of the branch. */
  function At(tx: S.State, wire: Wire, ref: bool, recorded: bool, branch: Effect): World {
    World(wire, tx, Approval(3, Some(3)), Repository(true, ref, false, recorded), [BRANCH], map[0 := branch])
  }

  const FRESH := Effect(Verified, false, 0, false)
  const PUSHED := Effect(Committed, true, 1, false)

  lemma ApprovedState()
    ensures Run(APPROVED) == At(S.Ready, Wire([], Done), false, false, FRESH)
  {
    var w0 := NEW_TRANSACTION.(wire := Wire([], Done));
    var w1 := Perform(w0, CallSeal);
    var w2 := Perform(w1, CallPrepare(0, GitHubBranch, {}));
    var w3 := Perform(w2, CallVerify(true));
    var w4 := Perform(w3, CallApprove(3));
    assert APPROVED[..4] == APPROVED;
    assert APPROVED[..3][..2] == APPROVED[..2] && APPROVED[..2][..1] == APPROVED[..1] && APPROVED[..1][..0] == [];
    assert Run([]) == NEW_TRANSACTION;
    assert Run(APPROVED[..1]) == w1;
    assert w2 == World(Wire([], Done), S.Sealed, Approval(2, None), Repository(true, false, false, false), [BRANCH],
        map[0 := FRESH]);
    assert Run(APPROVED[..2]) == w2;
    assert w3 == w2.(tx := S.Ready, approval := Approval(3, None));
    assert Run(APPROVED[..3]) == w3;
    assert AllCommitReady(w3.fx);
    assert w4 == w3.(approval := Approval(3, Some(3)));
    assert APPROVED[3] == Calmly(CallApprove(3));
    assert Run(APPROVED) == Do(Run(APPROVED[..3]), APPROVED[3]);
  }

  lemma PushState(w: World)
    requires w == At(S.Committing, DiesAfter(4), true, true, FRESH)
    ensures CommitOne(w, BRANCH) == Out(At(S.Committing, DiesAfter(0), true, true, PUSHED), true)
  {
    var e := FRESH.(status := Committing);
    var w1 := At(S.Committing, DiesAfter(3), true, true, e);
    var w2 := w1.(wire := DiesAfter(2));
    var w3 := At(S.Committing, DiesAfter(1), true, true, e.(landed := 1));
    StillAlive(w, 4);
    StillAlive(w1, 3);
    StillAlive(w2, 2);
    StillAlive(w3, 1);
    assert map[0 := FRESH][0 := e] == map[0 := e];
    assert BeginCommitAttempt(w, 0) == Out(w1, true);
    assert Mutate(w2, 0) == w3 by { assert map[0 := e][0 := e.(landed := 1)] == map[0 := e.(landed := 1)]; }
    assert map[0 := e.(landed := 1)][0 := PUSHED] == map[0 := PUSHED];
    assert RecordEffectCommitted(w3, 0) == Out(At(S.Committing, DiesAfter(0), true, true, PUSHED), true);
  }

  lemma ReleaseState(w: World)
    requires w == At(S.Committing, DiesAfter(5), true, true, FRESH)
    ensures ReleaseAndFinalize(w).w == At(S.Committing, DiesAfter(0), true, true, PUSHED)
  {
    hide CommitOne;
    var w1 := w.(wire := DiesAfter(4));
    StillAlive(w, 5);
    PushState(w1);
    var rows := Rows(w1.list, w1.fx);
    assert rows == [Row(BRANCH, Verified)];
    var dead := At(S.Committing, DiesAfter(0), true, true, PUSHED);
    assert CommitFrom(dead, rows, 1, CommittedIds(rows) + {0}) == Out(dead, true);
    assert CommitExternalEffects(w) == CommitFrom(w1, rows, 0, CommittedIds(rows));
    assert Tick(dead) == dead && dead.wire.Next() == Refused;
  }

  lemma BegunState(w: World)
    requires w == At(S.Committing, DiesAfter(9), false, false, FRESH)
    ensures CommitBegun(w).w == At(S.Committing, DiesAfter(0), true, true, PUSHED)
  {
    hide ReleaseAndFinalize;
    var w1 := w.(wire := DiesAfter(8));
    var w2 := w.(wire := DiesAfter(7));
    var w3 := At(S.Committing, DiesAfter(6), true, false, FRESH);
    StillAlive(w, 9);
    StillAlive(w1, 8);
    StillAlive(w2, 7);
    StillAlive(w3, 6);
    assert Materialize(w2) == Out(w3, true);
    ReleaseState(At(S.Committing, DiesAfter(5), true, true, FRESH));
  }

  lemma CommitState(w: World)
    requires w == At(S.Ready, DiesAfter(16), false, false, FRESH)
    ensures Commit(w, 3).w == At(S.Committing, DiesAfter(0), true, true, PUSHED)
  {
    hide CommitBegun;
    var w1 := w.(wire := DiesAfter(15));
    var w2 := w.(wire := DiesAfter(14));
    var w3 := w.(wire := DiesAfter(13));
    var w4 := w.(wire := DiesAfter(12));
    var w5 := w.(wire := DiesAfter(11));
    var w6 := w.(wire := DiesAfter(10));
    StillAlive(w, 16);
    StillAlive(w1, 15);
    StillAlive(w2, 14);
    StillAlive(w3, 13);
    StillAlive(w4, 12);
    StillAlive(w5, 11);
    StillAlive(w6, 10);
    var rows := Rows(w4.list, w4.fx);
    assert rows == [Row(BRANCH, Verified)];
    assert PreflightOne(w4, BRANCH) == Out(w5, true);
    assert PreflightFrom(w5, rows, 1) == Out(w5, true);
    assert PreflightExternalEffects(w3) == Out(w5, true);
    assert AllCommitReady(w6.fx);
    assert BeginCommit(w6, 3) == Out(At(S.Committing, DiesAfter(9), false, false, FRESH), true);
    BegunState(At(S.Committing, DiesAfter(9), false, false, FRESH));
  }

  /** The commit dies after the push is recorded. */
  const DIED: seq<Step> := APPROVED + [Step(CallCommit(3), DiesAfter(16))]

  /** The recovery meets a git call that fails, and finishes. */
  const STRANDED: seq<Step> := DIED + [Step(CallRecover, OneFailedRevParse(S.Committing))]

  lemma DiedState()
    ensures Run(DIED) == At(S.Committing, DiesAfter(0), true, true, PUSHED)
  {
    hide Commit;
    ApprovedState();
    RunExtends(APPROVED, Step(CallCommit(3), DiesAfter(16)));
    CommitState(At(S.Ready, DiesAfter(16), false, false, FRESH));
  }

  /** The message that the ref is absent, with the ref present and never removed. */
  lemma StrandedWithItsRef()
    ensures var w := Run(STRANDED); w.tx.ManualIntervention? && w.repo.ref && !w.repo.removed
  {
    hide Recover, Inv;
    DiedState();
    RunKeepsInv(DIED);
    var w := Run(DIED).(wire := OneFailedRevParse(S.Committing));
    InvIgnoresWire(Run(DIED), w);
    assert w.fx[0].Attempted() && w.fx[0].Present();
    FailedRevParseStrands(w);
    RunExtends(DIED, Step(CallRecover, OneFailedRevParse(S.Committing)));
  }
}
