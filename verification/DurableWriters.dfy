/**
 * Any number of replacements of one file at once, step by step in any order, with a crash possible
 * after every step.
 */
module DurableWriters {
  import opened Wrappers
  import opened DurableWrite

  /** What the destination names: the file that was there, or the one that writer i wrote. */
  datatype Owner = Old | By(i: nat)

  /** Where a call is. Failing: it has an error to report and may have a temporary file still to remove. */
  datatype Phase = Idle | Filling | Filled | Synced | Renamed | Failing(op: Op) | Ended(error: Option<Op>)

  /** A writer's own file: its bytes, and whether they are all on the disk. */
  datatype File = File(bytes: Bytes, synced: bool)

  datatype Writer = Writer(phase: Phase, file: File)

  /** log holds what the destination named, in turn; from mark on, a crash may bring any entry back. */
  datatype State = State(writers: seq<Writer>, log: seq<Owner>, mark: nat)

  /** A step of one writer: what it does next, or how that fails. Fill(n) writes up to byte n. */
  datatype Act = Make | Fill(n: nat) | Finish | Sync | Move | Flush | Fault(op: Op) | CleanUp

  datatype Step = Step(writer: nat, act: Act)

  function Start(writers: nat): State {
    State(seq(writers, _ => Writer(Idle, File([], false))), [Old], 0)
  }

  /** The faults a phase admits. */
  predicate MayFault(phase: Phase, op: Op) {
    match phase
    case Idle => op.Create?
    case Filling => op.Write?
    case Filled => op.ShortWrite? || op.FileSync?
    case Synced => op.FileSync? || op.Rename?
    case Renamed => op.DirectorySync?
    case Failing(_) => false
    case Ended(_) => false
  }

  /** A spoiled write is cut in half; a fault before there is a file ends the call at once. */
  function Faulted(w: Writer, op: Op): Writer {
    if op.Create? then w.(phase := Ended(Some(Create)))
    else if op.ShortWrite? && |w.file.bytes| > 1 then Writer(Failing(op),
        File(Cut(w.file.bytes, |w.file.bytes| / 2), false))
    else w.(phase := Failing(op))
  }

  /** A writer's next step on its own file; a step that is not its next one changes nothing. */
  function DoAlone(payload: Bytes, w: Writer, act: Act): Writer {
    match act
    case Make => if w.phase.Idle? then Writer(Filling, File([], false)) else w
    case Fill(n) => if w.phase.Filling? then w.(file := File(Cut(payload, n), false)) else w
    case Finish => if w.phase.Filling? && w.file.bytes == payload then w.(phase := Filled) else w
    case Sync => if w.phase.Filled? then Writer(Synced, w.file.(synced := true)) else w
    case Move => if w.phase.Synced? then w.(phase := Renamed) else w
    case Flush => if w.phase.Renamed? then w.(phase := Ended(None)) else w
    case Fault(op) => if MayFault(w.phase, op) then Faulted(w, op) else w
    case CleanUp => if w.phase.Failing? then w.(phase := Ended(Some(w.phase.op))) else w
  }

  function Do(payloads: seq<Bytes>, s: State, step: Step): (s': State)
    requires |payloads| == |s.writers| && s.log != []
    ensures |s'.writers| == |s.writers| && s'.log != []
  {
    if step.writer >= |s.writers| then s else
    var i := step.writer;
    var w := s.writers[i];
    State(s.writers[i := DoAlone(payloads[i], w, step.act)],
          if step.act.Move? && w.phase.Synced? then s.log + [By(i)] else s.log,
          if step.act.Flush? && w.phase.Renamed? then |s.log| - 1 else s.mark)
  }

  function Run(payloads: seq<Bytes>, steps: seq<Step>): (s: State)
    ensures |s.writers| == |payloads| && s.log != []
  {
    if steps == [] then Start(|payloads|)
    else Do(payloads, Run(payloads, steps[..|steps| - 1]), steps[|steps| - 1])
  }

  // ---- The invariant ----

  /** The writer's rename has taken place. */
  predicate Published(phase: Phase) {
    phase.Renamed? || (phase.Failing? && phase.op.DirectorySync?)
    || (phase.Ended? && (phase.error.None? || phase.error.value.DirectorySync?))
  }

  /** What is moved into place was written in full and synced before. */
  ghost predicate FileOk(payload: Bytes, w: Writer) {
    && (w.phase.Filled? || w.phase.Synced? || Published(w.phase) ==> w.file.bytes == payload)
    && (w.phase.Synced? || Published(w.phase) ==> w.file.synced)
  }

  ghost predicate Inv(payloads: seq<Bytes>, s: State)
    requires |payloads| == |s.writers|
  {
    && s.log != [] && s.log[0] == Old && s.mark < |s.log|
    && (forall i :: 0 <= i < |s.writers| ==> FileOk(payloads[i], s.writers[i]))
    && (forall k :: 0 < k < |s.log| ==>
        s.log[k].By? && s.log[k].i < |s.writers| && Published(s.writers[s.log[k].i].phase))
    && (forall j, k :: 0 <= j < k < |s.log| ==> s.log[j] != s.log[k])
    && (forall i :: 0 <= i < |s.writers| && Published(s.writers[i].phase) ==> By(i) in s.log)
    && (forall i, k :: 0 <= i < |s.writers| && s.writers[i].phase == Ended(None) && 0 <= k < |s.log| && s.log[k] == By(i) ==> k <= s.mark)
  }

  lemma AloneKeepsFile(payload: Bytes, w: Writer, act: Act)
    requires FileOk(payload, w)
    ensures var w' := DoAlone(payload, w, act);
            && FileOk(payload, w')
            && (Published(w'.phase) <==> Published(w.phase) || (act.Move? && w.phase.Synced?))
            && (w'.phase == Ended(None) ==> w.phase == Ended(None) || (act.Flush? && w.phase.Renamed?))
  {
  }

  lemma DoKeepsInv(payloads: seq<Bytes>, s: State, step: Step)
    requires |payloads| == |s.writers| && Inv(payloads, s)
    ensures Inv(payloads, Do(payloads, s, step))
  {
    hide DoAlone, FileOk;
    if step.writer < |s.writers| {
      var i := step.writer;
      var s' := Do(payloads, s, step);
      AloneKeepsFile(payloads[i], s.writers[i], step.act);
      if step.act.Move? && s.writers[i].phase.Synced? {
        assert s'.log[|s.log|] == By(i);
        forall w | 0 <= w < |s.writers| && Published(s'.writers[w].phase) ensures By(w) in s'.log {
          assert w == i || By(w) in s.log;
        }
      }
    }
  }

  lemma {:induction false} RunKeepsInv(payloads: seq<Bytes>, steps: seq<Step>)
    ensures Inv(payloads, Run(payloads, steps))
  {
    if steps != [] {
      RunKeepsInv(payloads, steps[..|steps| - 1]);
      DoKeepsInv(payloads, Run(payloads, steps[..|steps| - 1]), steps[|steps| - 1]);
    }
  }

  // ---- What a crash can leave ----

  /** What the destination names now. */
  function Dest(s: State): Owner
    requires s.log != []
  {
    s.log[|s.log| - 1]
  }

  /** The bytes behind a name as a reader sees them, or after a crash, when only synced files are whole. */
  function Content(previous: Bytes, s: State, owner: Owner, crashed: bool): Option<Bytes> {
    match owner
    case Old => Some(previous)
    case By(i) =>
      if i < |s.writers| && (crashed ==> s.writers[i].file.synced) then Some(s.writers[i].file.bytes) else None
  }

  /** After a crash the directory may name anything it named since the last sync of it. */
  predicate MayComeBack(s: State, owner: Owner) {
    exists k :: s.mark <= k < |s.log| && s.log[k] == owner
  }

  /**
   * At every point of every interleaving, before a crash and after it, the destination holds the old
   * content or one writer's whole payload.
   */
  lemma NeverAPrefix(previous: Bytes, payloads: seq<Bytes>, steps: seq<Step>, owner: Owner, crashed: bool)
    requires var s := Run(payloads, steps); if crashed then MayComeBack(s, owner) else owner == Dest(s)
    ensures var content := Content(previous, Run(payloads, steps), owner, crashed);
            content == Some(previous) || exists i :: 0 <= i < |payloads| && content == Some(payloads[i])
  {
    hide Run;
    RunKeepsInv(payloads, steps);
    var s := Run(payloads, steps);
    if owner.By? {
      assert FileOk(payloads[owner.i], s.writers[owner.i]);
      assert Content(previous, s, owner, crashed) == Some(payloads[owner.i]);
    }
  }

  // ---- One call, undisturbed ----

  /** The steps of a call that gives up at a boundary, or at none. */
  function ActsOf(payload: Bytes, failed: Option<Op>): seq<Act> {
    var written := [Make, Fill(|payload|), Finish];
    match failed
    case None => written + [Sync, Move, Flush]
    case Some(Create) => [Fault(Create)]
    case Some(Write) => [Make, Fault(Write), CleanUp]
    case Some(ShortWrite) => written + [Fault(ShortWrite), CleanUp]
    case Some(FileSync) => written + [Fault(FileSync), CleanUp]
    case Some(Rename) => written + [Sync, Fault(Rename), CleanUp]
    case Some(DirectorySync) => written + [Sync, Move, Fault(DirectorySync), CleanUp]
  }

  function DoAll(payloads: seq<Bytes>, s: State, i: nat, acts: seq<Act>): (s': State)
    requires |payloads| == |s.writers| && s.log != []
    ensures |s'.writers| == |s.writers| && s'.log != []
    decreases |acts|
  {
    if acts == [] then s else DoAll(payloads, Do(payloads, s, Step(i, acts[0])), i, acts[1..])
  }

  /** One writer's steps on its own file. */
  function DoAllAlone(payload: Bytes, w: Writer, acts: seq<Act>): Writer
    decreases |acts|
  {
    if acts == [] then w else DoAllAlone(payload, DoAlone(payload, w, acts[0]), acts[1..])
  }

  /** How often the writer moves its file into place. */
  function Moves(payload: Bytes, w: Writer, acts: seq<Act>): nat
    decreases |acts|
  {
    if acts == [] then 0
    else (if acts[0].Move? && w.phase.Synced? then 1 else 0) + Moves(payload, DoAlone(payload, w, acts[0]), acts[1..])
  }

  function Repeated(owner: Owner, n: nat): seq<Owner> {
    seq(n, _ => owner)
  }

  /** Steps of one writer change its own file and lengthen the log by its moves. */
  lemma {:induction false} OneWritersSteps(payloads: seq<Bytes>, s: State, i: nat, acts: seq<Act>)
    requires |payloads| == |s.writers| && s.log != [] && i < |payloads|
    ensures var s' := DoAll(payloads, s, i, acts);
            && s'.writers == s.writers[i := DoAllAlone(payloads[i], s.writers[i], acts)]
            && s'.log == s.log + Repeated(By(i), Moves(payloads[i], s.writers[i], acts))
    decreases |acts|
  {
    hide DoAlone;
    if acts != [] {
      OneWritersSteps(payloads, Do(payloads, s, Step(i, acts[0])), i, acts[1..]);
    }
  }

  lemma CallAlone(payload: Bytes, w: Writer, failed: Option<Op>)
    requires w.phase.Idle?
    ensures var acts := ActsOf(payload, failed);
            && DoAllAlone(payload, w, acts).phase == Ended(failed)
            && Moves(payload, w, acts) == (if failed.None? || failed == Some(DirectorySync) then 1 else 0)
  {
    hide DoAllAlone, Moves;
    var written := [Make, Fill(|payload|), Finish];
    var filled := Writer(Filled, File(payload, false));
    UpToThree(payload, w, written);
    match failed
    case Some(Create) => UpToThree(payload, w, [Fault(Create)]);
    case Some(Write) => UpToThree(payload, w, [Make, Fault(Write), CleanUp]);
    case Some(ShortWrite) =>
      Split(payload, w, written, [Fault(ShortWrite), CleanUp]);
      UpToThree(payload, filled, [Fault(ShortWrite), CleanUp]);
    case Some(FileSync) =>
      Split(payload, w, written, [Fault(FileSync), CleanUp]);
      UpToThree(payload, filled, [Fault(FileSync), CleanUp]);
    case Some(Rename) =>
      Split(payload, w, written, [Sync, Fault(Rename), CleanUp]);
      UpToThree(payload, filled, [Sync, Fault(Rename), CleanUp]);
    case Some(DirectorySync) =>
      var moved := Writer(Renamed, File(payload, true));
      assert ActsOf(payload, failed) == written + [Sync, Move] + [Fault(DirectorySync), CleanUp];
      Split(payload, w, written + [Sync, Move], [Fault(DirectorySync), CleanUp]);
      Split(payload, w, written, [Sync, Move]);
      UpToThree(payload, filled, [Sync, Move]);
      UpToThree(payload, moved, [Fault(DirectorySync), CleanUp]);
    case None =>
      Split(payload, w, written, [Sync, Move, Flush]);
      UpToThree(payload, filled, [Sync, Move, Flush]);
  }

  lemma {:induction false} UpToThree(payload: Bytes, w: Writer, acts: seq<Act>)
    requires 1 <= |acts| <= 3
    ensures var w1 := DoAlone(payload, w, acts[0]);
            var w2 := if |acts| > 1 then DoAlone(payload, w1, acts[1]) else w1;
            var w3 := if |acts| > 2 then DoAlone(payload, w2, acts[2]) else w2;
            && DoAllAlone(payload, w, acts) == w3
            && Moves(payload, w, acts) ==
                 (if acts[0].Move? && w.phase.Synced? then 1 else 0)
                 + (if |acts| > 1 && acts[1].Move? && w1.phase.Synced? then 1 else 0)
                 + (if |acts| > 2 && acts[2].Move? && w2.phase.Synced? then 1 else 0)
    decreases |acts|
  {
    hide DoAlone;
    if |acts| > 1 {
      UpToThree(payload, DoAlone(payload, w, acts[0]), acts[1..]);
    } else {
      assert acts[1..] == [];
    }
  }

  lemma {:induction false} Split(payload: Bytes, w: Writer, a: seq<Act>, b: seq<Act>)
    ensures DoAllAlone(payload, w, a + b) == DoAllAlone(payload, DoAllAlone(payload, w, a), b)
    ensures Moves(payload, w, a + b) == Moves(payload, w, a) + Moves(payload, DoAllAlone(payload, w, a), b)
    decreases |a|
  {
    hide DoAlone;
    if a == [] {
      assert a + b == b;
    } else {
      assert (a + b)[1..] == a[1..] + b;
      Split(payload, DoAlone(payload, w, a[0]), a[1..], b);
    }
  }

  /**
   * A call that no other writer disturbs leaves what ReplaceFileVia promises for its verdict: it ends
   * with that error or none, and the destination holds its payload if the rename took place, and what
   * it held before if not.
   */
  lemma UndisturbedCall(previous: Bytes, payloads: seq<Bytes>, steps: seq<Step>, i: nat, fail: Faults, sys: System)
    requires i < |payloads| && Run(payloads, steps).writers[i].phase.Idle?
    ensures var s, failed := Run(payloads, steps), Verdict(fail, sys);
            var s' := DoAll(payloads, s, i, ActsOf(payloads[i], failed));
            && s'.writers[i].phase == Ended(failed)
            && Content(previous, s', Dest(s'), false) ==
                 if Reported(failed) == Replaced || Reported(failed) == Failed(DirectorySync) then Some(payloads[i])
                 else Content(previous, s, Dest(s), false)
  {
    hide Run, Verdict, ActsOf, DoAllAlone, Moves, DoAll;
    var s, failed := Run(payloads, steps), Verdict(fail, sys);
    var acts := ActsOf(payloads[i], failed);
    var s' := DoAll(payloads, s, i, acts);
    RunKeepsInv(payloads, steps);
    OneWritersSteps(payloads, s, i, acts);
    CallAlone(payloads[i], s.writers[i], failed);
    StepsKeepInv(payloads, s, i, acts);
    if failed.None? || failed == Some(DirectorySync) {
      assert Repeated(By(i), 1) == [By(i)] && Dest(s') == By(i);
      assert FileOk(payloads[i], s'.writers[i]);
    } else {
      assert Repeated(By(i), 0) == [] && s'.log == s.log;
      assert By(i) !in s.log;
    }
  }

  lemma {:induction false} StepsKeepInv(payloads: seq<Bytes>, s: State, i: nat, acts: seq<Act>)
    requires |payloads| == |s.writers| && Inv(payloads, s)
    ensures Inv(payloads, DoAll(payloads, s, i, acts))
    decreases |acts|
  {
    hide Inv, Do;
    InvLog(payloads, s);
    if acts != [] {
      DoKeepsInv(payloads, s, Step(i, acts[0]));
      StepsKeepInv(payloads, Do(payloads, s, Step(i, acts[0])), i, acts[1..]);
    }
  }

  lemma InvLog(payloads: seq<Bytes>, s: State)
    requires |payloads| == |s.writers| && Inv(payloads, s)
    ensures s.log != []
  {
  }

  // ---- What a call's result tells ----

  /** A call that ended with an error before the rename has put nothing there, now or after a crash. */
  lemma FailedBeforeRename(payloads: seq<Bytes>, steps: seq<Step>, i: nat, op: Op)
    requires i < |payloads| && Run(payloads, steps).writers[i].phase == Ended(Some(op)) && !op.DirectorySync?
    ensures By(i) !in Run(payloads, steps).log
  {
    hide Run;
    RunKeepsInv(payloads, steps);
  }

  /** One that ended without error, or at the directory sync, did rename. */
  lemma EndedMeansRenamed(payloads: seq<Bytes>, steps: seq<Step>, i: nat)
    requires i < |payloads| && Run(payloads, steps).writers[i].phase.Ended?
        && Published(Run(payloads, steps).writers[i].phase)
    ensures By(i) in Run(payloads, steps).log
  {
    hide Run;
    RunKeepsInv(payloads, steps);
  }

  /**
   * After a call that returned without error no crash brings back the old content, nor anything that
   * was in place before that call renamed.
   */
  lemma SuccessIsDurable(payloads: seq<Bytes>, steps: seq<Step>, i: nat, owner: Owner)
    requires i < |payloads| && Run(payloads, steps).writers[i].phase == Ended(None)
        && MayComeBack(Run(payloads, steps), owner)
    ensures var log := Run(payloads, steps).log;
            exists j, k :: 0 < j <= k < |log| && log[j] == By(i) && log[k] == owner
  {
    hide Run;
    RunKeepsInv(payloads, steps);
    var s := Run(payloads, steps);
    assert By(i) in s.log;
    var j :| 0 <= j < |s.log| && s.log[j] == By(i);
    var k :| s.mark <= k < |s.log| && s.log[k] == owner;
    assert 0 < j <= k < |s.log| && s.log[j] == By(i) && s.log[k] == owner;
  }
}
