/**
 * The daemon's lock file: a lock is held on an inode, a removal is by path. Every system call of
 * Acquire, Release and RemoveIfUnheld is a step of its own, taken by any process at any time.
 */
module DaemonLock {
  import opened Wrappers

  type Process = nat
  type Inode = nat

  /**
   * Where a process is. Opened: it has the file open and will ask for the lock. Holding: it is the
   * daemon. The other four are the stages of a clean-up.
   */
  datatype Stage =
    | Idle
    | Opened(i: Inode) | Holding(i: Inode)
    | CleanOpened(i: Inode) | CleanLocked(i: Inode) | CleanSame(i: Inode) | CleanDone(i: Inode)

  /** linked is what the path names; holder maps a locked inode to its process; inodes below next are used up. */
  datatype State = State(linked: Option<Inode>, holder: map<Inode, Process>, stages: map<Process, Stage>, next: Inode)

  const NEW := State(None, map[], map[], 0)

  function StageOf(s: State, p: Process): Stage {
    if p in s.stages then s.stages[p] else Idle
  }

  function At(s: State, p: Process, stage: Stage): State {
    s.(stages := s.stages[p := stage])
  }

  /** The inode's lock, given up. */
  function Unlocked(s: State, i: Inode): State {
    s.(holder := s.holder - {i})
  }

  predicate Locks(stage: Stage) {
    stage.Holding? || stage.CleanLocked? || stage.CleanSame? || stage.CleanDone?
  }

  datatype Act = AcquireOpen | AcquireFlock | Release | CleanOpen | CleanFlock | CleanCompare | CleanUnlink | CleanUnlock | Die

  datatype Step = Step(p: Process, act: Act)

  /** Locking does not wait: a lock that is taken sends the process back. */
  function Flock(s: State, p: Process, i: Inode, locked: Stage): State {
    if i in s.holder then At(s, p, Idle) else At(s, p, locked).(holder := s.holder[i := p])
  }

  /** A step that is not the process's next one changes nothing. A process may die, or give up, anywhere. */
  function Do(s: State, step: Step): State {
    var p := step.p;
    var stage := StageOf(s, p);
    match step.act
    case AcquireOpen =>
      if !stage.Idle? then s
      else if s.linked.Some? then At(s, p, Opened(s.linked.value))
      else At(s, p, Opened(s.next)).(linked := Some(s.next), next := s.next + 1)
    case AcquireFlock => if stage.Opened? then Flock(s, p, stage.i, Holding(stage.i)) else s
    case Release => if stage.Holding? then At(Unlocked(s, stage.i), p, Idle) else s
    case CleanOpen => if stage.Idle? && s.linked.Some? then At(s, p, CleanOpened(s.linked.value)) else s
    case CleanFlock => if stage.CleanOpened? then Flock(s, p, stage.i, CleanLocked(stage.i)) else s
    case CleanCompare =>
      if !stage.CleanLocked? then s
      else At(s, p, if s.linked == Some(stage.i) then CleanSame(stage.i) else CleanDone(stage.i))
    case CleanUnlink => if stage.CleanSame? then At(s, p, CleanDone(stage.i)).(linked := None) else s
    case CleanUnlock => if stage.CleanDone? then At(Unlocked(s, stage.i), p, Idle) else s
    case Die => if Locks(stage) then At(Unlocked(s, stage.i), p, Idle) else At(s, p, Idle)
  }

  function Run(steps: seq<Step>): State {
    if steps == [] then NEW else Do(Run(steps[..|steps| - 1]), steps[|steps| - 1])
  }

  // ---- The invariant ----

  ghost predicate Inv(s: State) {
    && (forall p :: Locks(StageOf(s, p)) <==> exists i :: i in s.holder && s.holder[i] == p)
    && (forall p :: Locks(StageOf(s, p)) ==> StageOf(s, p).i in s.holder && s.holder[StageOf(s, p).i] == p)
    && (forall i, j :: i in s.holder && j in s.holder && s.holder[i] == s.holder[j] ==> i == j)
    && (forall p :: StageOf(s, p).CleanSame? ==> s.linked == Some(StageOf(s, p).i))
    && (s.linked.Some? ==> s.linked.value < s.next)
    && (forall p :: !StageOf(s, p).Idle? ==> StageOf(s, p).i < s.next)
    && (forall i :: i in s.holder ==> i < s.next)
  }

  lemma FlockKeepsInv(s: State, p: Process, i: Inode, locked: Stage)
    requires Inv(s) && !Locks(StageOf(s, p)) && !StageOf(s, p).Idle? && i == StageOf(s, p).i
    requires locked == Holding(i) || locked == CleanLocked(i)
    ensures Inv(Flock(s, p, i, locked))
  {
    var s' := Flock(s, p, i, locked);
    assert forall q :: q != p ==> StageOf(s', q) == StageOf(s, q);
    if i !in s.holder {
      assert i in s'.holder && s'.holder[i] == p;
      forall q ensures Locks(StageOf(s', q)) <==> exists k :: k in s'.holder && s'.holder[k] == q {
        if q != p {
          if k :| k in s.holder && s.holder[k] == q { assert k in s'.holder && s'.holder[k] == q; }
          if k :| k in s'.holder && s'.holder[k] == q { assert k in s.holder && s.holder[k] == q; }
        }
      }
    }
  }

  /** A process that holds a lock gives it up. */
  lemma UnlockKeepsInv(s: State, p: Process)
    requires Inv(s) && Locks(StageOf(s, p))
    ensures Inv(At(Unlocked(s, StageOf(s, p).i), p, Idle))
  {
    var i := StageOf(s, p).i;
    var s' := At(Unlocked(s, i), p, Idle);
    assert forall q :: q != p ==> StageOf(s', q) == StageOf(s, q);
    forall q ensures Locks(StageOf(s', q)) <==> exists k :: k in s'.holder && s'.holder[k] == q {
      if k :| k in s.holder && s.holder[k] == q && q != p { assert k != i && k in s'.holder && s'.holder[k] == q; }
      if k :| k in s'.holder && s'.holder[k] == q { assert k in s.holder && s.holder[k] == q; }
    }
  }

  /** A change of stage that neither takes nor gives up a lock. */
  lemma MoveKeepsInv(s: State, p: Process, stage: Stage)
    requires Inv(s) && (Locks(stage) <==> Locks(StageOf(s, p)))
    requires Locks(stage) ==> stage.i == StageOf(s, p).i
    requires !stage.Idle? ==> stage.i < s.next
    requires stage.CleanSame? ==> s.linked == Some(stage.i)
    ensures Inv(At(s, p, stage))
  {
    var s' := At(s, p, stage);
    assert forall q :: q != p ==> StageOf(s', q) == StageOf(s, q);
    assert StageOf(s', p) == stage;
  }

  lemma CreateKeepsInv(s: State)
    requires Inv(s) && s.linked.None?
    ensures Inv(s.(linked := Some(s.next), next := s.next + 1))
  {
    var s' := s.(linked := Some(s.next), next := s.next + 1);
    assert forall q :: StageOf(s', q) == StageOf(s, q);
  }

  /** Two processes that found the path to name their inode would both hold it. */
  lemma OneReadyToUnlink(s: State, p: Process, q: Process)
    requires Inv(s) && StageOf(s, p).CleanSame? && StageOf(s, q).CleanSame?
    ensures p == q
  {
    assert StageOf(s, p).i == StageOf(s, q).i;
  }

  lemma UnlinkKeepsInv(s: State, p: Process)
    requires Inv(s) && StageOf(s, p).CleanSame?
    ensures Inv(At(s, p, CleanDone(StageOf(s, p).i)).(linked := None))
  {
    var s' := At(s, p, CleanDone(StageOf(s, p).i)).(linked := None);
    assert forall q :: q != p ==> StageOf(s', q) == StageOf(s, q);
    forall q | StageOf(s, q).CleanSame? ensures q == p { OneReadyToUnlink(s, p, q); }
    MoveKeepsInv(s, p, CleanDone(StageOf(s, p).i));
  }

  lemma DoKeepsInv(s: State, step: Step)
    requires Inv(s)
    ensures Inv(Do(s, step))
  {
    hide Inv;
    var p := step.p;
    var stage := StageOf(s, p);
    InvBounds(s, p);
    match step.act
    case AcquireOpen =>
      if stage.Idle? {
        var t := if s.linked.Some? then s else s.(linked := Some(s.next), next := s.next + 1);
        if s.linked.None? { CreateKeepsInv(s); }
        assert StageOf(t, p) == stage;
        MoveKeepsInv(t, p, Opened(t.linked.value));
      }
    case AcquireFlock => if stage.Opened? { FlockKeepsInv(s, p, stage.i, Holding(stage.i)); }
    case Release => if stage.Holding? { UnlockKeepsInv(s, p); }
    case CleanOpen => if stage.Idle? && s.linked.Some? { MoveKeepsInv(s, p, CleanOpened(s.linked.value)); }
    case CleanFlock => if stage.CleanOpened? { FlockKeepsInv(s, p, stage.i, CleanLocked(stage.i)); }
    case CleanCompare =>
      if stage.CleanLocked? {
        MoveKeepsInv(s, p, if s.linked == Some(stage.i) then CleanSame(stage.i) else CleanDone(stage.i));
      }
    case CleanUnlink => if stage.CleanSame? { UnlinkKeepsInv(s, p); }
    case CleanUnlock => if stage.CleanDone? { UnlockKeepsInv(s, p); }
    case Die => if Locks(stage) { UnlockKeepsInv(s, p); } else { MoveKeepsInv(s, p, Idle); }
  }

  lemma InvBounds(s: State, p: Process)
    requires Inv(s)
    ensures (s.linked.Some? ==> s.linked.value < s.next) && (!StageOf(s, p).Idle? ==> StageOf(s, p).i < s.next)
  {
  }

  lemma {:induction false} RunKeepsInv(steps: seq<Step>)
    ensures Inv(Run(steps))
  {
    if steps != [] {
      RunKeepsInv(steps[..|steps| - 1]);
      DoKeepsInv(Run(steps[..|steps| - 1]), steps[|steps| - 1]);
    }
  }

  // ---- The two claims ----

  /**
   * In every interleaving, a step that unlinks removes the inode that its process itself has locked,
   * and so never one that another process holds.
   */
  lemma UnlinkOnlyWhatIsHeld(steps: seq<Step>, step: Step)
    requires var s := Run(steps); s.linked.Some? && Do(s, step).linked.None?
    ensures var s := Run(steps); s.linked.value in s.holder && s.holder[s.linked.value] == step.p
    ensures forall p :: p != step.p && StageOf(Run(steps), p).Holding? ==>
        StageOf(Run(steps), p).i != Run(steps).linked.value
  {
    hide Run;
    RunKeepsInv(steps);
  }

  /** Whatever the path names, at most one process holds it. */
  lemma OneHolderPerInode(steps: seq<Step>, p: Process, q: Process)
    requires var s := Run(steps); StageOf(s, p).Holding? && StageOf(s, q).Holding? && StageOf(s, p).i == StageOf(s, q).i
    ensures p == q
  {
    hide Run;
    RunKeepsInv(steps);
  }

  predicate IsCleanUp(act: Act) {
    act.CleanOpen? || act.CleanFlock? || act.CleanCompare? || act.CleanUnlink? || act.CleanUnlock?
  }

  /** Without a clean-up there is one inode for ever, and everyone has that one open. */
  ghost predicate OneInode(s: State) {
    forall p :: !StageOf(s, p).Idle? ==>
        (StageOf(s, p).Opened? || StageOf(s, p).Holding?) && s.linked == Some(StageOf(s, p).i)
  }

  lemma {:induction false} NoCleanUpOneInode(steps: seq<Step>)
    requires forall k :: 0 <= k < |steps| ==> !IsCleanUp(steps[k].act)
    ensures OneInode(Run(steps))
  {
    if steps != [] {
      var s, step := Run(steps[..|steps| - 1]), steps[|steps| - 1];
      NoCleanUpOneInode(steps[..|steps| - 1]);
      forall q ensures q != step.p ==> StageOf(Do(s, step), q) == StageOf(s, q) { }
    }
  }

  /** In a run in which nothing is cleaned up, there is at most one daemon. */
  lemma OneDaemon(steps: seq<Step>, p: Process, q: Process)
    requires forall k :: 0 <= k < |steps| ==> !IsCleanUp(steps[k].act)
    requires StageOf(Run(steps), p).Holding? && StageOf(Run(steps), q).Holding?
    ensures p == q
  {
    hide Run;
    NoCleanUpOneInode(steps);
    OneHolderPerInode(steps, p, q);
  }

  /** A process that dies gives up what it held, and nothing else changes hands. */
  lemma DyingFrees(steps: seq<Step>, p: Process)
    ensures var s, s' := Run(steps), Do(Run(steps), Step(p, Die));
            && StageOf(s', p).Idle? && s'.linked == s.linked
            && forall i :: i in s'.holder <==> i in s.holder && s.holder[i] != p
    ensures var s, s' := Run(steps), Do(Run(steps), Step(p, Die));
            forall i :: i in s'.holder ==> s'.holder[i] == s.holder[i]
  {
    hide Run;
    RunKeepsInv(steps);
  }

  // ---- The calls, undisturbed ----

  class Host {
    var state: State

    constructor ()
      ensures state == NEW
    {
      state := NEW;
    }

    method Take(p: Process, act: Act)
      modifies this
      ensures state == Do(old(state), Step(p, act))
    {
      state := Do(state, Step(p, act));
    }

    /** Opens or creates the file and takes the lock if nobody has it; writes that fail give it up again. */
    method Acquire(p: Process, writesSucceed: bool) returns (ok: bool)
      requires StageOf(state, p).Idle? && Inv(state)
      modifies this
      ensures ok <==> writesSucceed && (old(state).linked.None? || old(state).linked.value !in old(state).holder)
      ensures ok ==> state.linked.Some? && StageOf(state, p) == Holding(state.linked.value)
                     && state.holder == old(state).holder[state.linked.value := p]
      ensures !ok ==> StageOf(state, p).Idle? && state.holder == old(state).holder
      ensures old(state).linked.Some? ==> state.linked == old(state).linked
    {
      Take(p, AcquireOpen);
      Take(p, AcquireFlock);
      if !StageOf(state, p).Holding? { return false; }
      if !writesSucceed {
        assert state.linked.value !in old(state).holder;
        assert old(state).holder[state.linked.value := p] - {state.linked.value} == old(state).holder;
        Take(p, Release);
        return false;
      }
      ok := true;
    }

    /** Removes the file exactly if it is there and nobody holds it; the lock taken for that is given up. */
    method RemoveIfUnheld(p: Process) returns (ok: bool)
      requires StageOf(state, p).Idle? && Inv(state)
      modifies this
      ensures ok <==> old(state).linked.None? || old(state).linked.value !in old(state).holder
      ensures state.linked == if ok then None else old(state).linked
      ensures StageOf(state, p).Idle? && state.holder == old(state).holder
    {
      Take(p, CleanOpen);
      if StageOf(state, p).Idle? { return true; }
      Take(p, CleanFlock);
      if !StageOf(state, p).CleanLocked? { return false; }
      var i := StageOf(state, p).i;
      assert old(state).holder[i := p] - {i} == old(state).holder;
      Take(p, CleanCompare);
      Take(p, CleanUnlink);
      Take(p, CleanUnlock);
      ok := true;
    }
  }
}
