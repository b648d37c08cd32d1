/** Atomic replacement of one file, boundary by boundary, under an injector of faults. */
module DurableWrite {
  import opened Wrappers

  type Bytes = seq<nat>
  type Name = string
  type Error = nat

  /** The boundaries, in the order in which a call reaches them. */
  datatype Op = Create | Write | ShortWrite | FileSync | Rename | DirectorySync

  function Position(op: Op): nat {
    match op case Create => 0 case Write => 1 case ShortWrite => 2 case FileSync => 3 case Rename => 4 case DirectorySync => 5
  }

  // ---- The injectors ----

  /** A mapped operation may be mapped to no error at all. */
  type Faults = map<Op, Option<Error>>

  function Mapped(fail: Faults, op: Op): Option<Error> {
    if op in fail then fail[op] else None
  }

  class FaultMap {
    var fail: Faults

    constructor (f: Faults)
      ensures fail == f
    {
      fail := f;
    }

    /** Setting no error clears the fault. */
    method Set(op: Op, err: Option<Error>)
      modifies this
      ensures Mapped(fail, op) == err && forall other :: other != op ==> Mapped(fail, other) == Mapped(old(fail), other)
      ensures err.None? ==> op !in fail
    {
      if err.None? {
        fail := fail - {op};
        return;
      }
      fail := fail[op := err];
    }

    method Before(op: Op) returns (err: Option<Error>)
      ensures err == Mapped(fail, op)
    {
      err := if op in fail then fail[op] else None;
    }
  }

  class OneShot {
    var fail: Faults

    constructor (f: Faults)
      ensures fail == f
    {
      fail := f;
    }

    /** An entry is spent by being asked for. */
    method Before(op: Op) returns (err: Option<Error>)
      modifies this
      ensures err == Mapped(old(fail), op) && fail == old(fail) - {op}
    {
      if op in fail {
        err := fail[op];
        fail := fail - {op};
        return;
      }
      err := None;
    }
  }

  /** No injector, one that keeps failing, or one that fails once. */
  datatype Injector = Absent | Every(faultMap: FaultMap) | Once(oneShot: OneShot) {
    function Faults(): Faults
      reads if Every? then {faultMap} else if Once? then {oneShot} else {}
    {
      match this case Absent => map[] case Every(m) => m.fail case Once(o) => o.fail
    }
  }

  function Spent(inj: Injector): set<OneShot> {
    if inj.Once? then {inj.oneShot} else {}
  }

  method Before(inj: Injector, op: Op) returns (err: Option<Error>)
    modifies Spent(inj)
    ensures err == Mapped(old(inj.Faults()), op)
    ensures inj.Faults() == if inj.Once? then old(inj.Faults()) - {op} else old(inj.Faults())
  {
    match inj {
      case Absent => err := None;
      case Every(m) => err := m.Before(op);
      case Once(o) => err := o.Before(op);
    }
  }

  // ---- The file system ----

  /** Which system calls of this replacement fail; a failing producer has written some prefix. */
  datatype System = System(create: bool, close: bool, produce: bool, prefix: nat, sync: bool, chmod: bool,
      rename: bool, dirSync: bool)

  class Disk {
    var files: map<Name, Bytes>

    constructor (f: map<Name, Bytes>)
      ensures files == f
    {
      files := f;
    }

    method Put(name: Name, content: Bytes)
      modifies this
      ensures files == old(files)[name := content]
    {
      files := files[name := content];
    }

    method Remove(name: Name)
      modifies this
      ensures files == old(files) - {name}
    {
      files := files - {name};
    }

    method Move(name: Name, dest: Name)
      requires name in files && name != dest
      modifies this
      ensures files == (old(files) - {name})[dest := old(files)[name]]
    {
      files := (files - {name})[dest := files[name]];
    }
  }

  // ---- What a call reports ----

  /** What makes a boundary fail: its injected fault, or one of the system calls it covers. */
  predicate Fails(fail: Faults, sys: System, op: Op) {
    Mapped(fail, op).Some? ||
    match op
    case Create => !sys.create
    case Write => !sys.close || !sys.produce
    case ShortWrite => false
    case FileSync => !sys.sync || !sys.chmod
    case Rename => !sys.rename
    case DirectorySync => !sys.dirSync
  }

  /** The first boundary, in order, that fails. */
  predicate FirstFailure(fail: Faults, sys: System, op: Op) {
    Fails(fail, sys, op) && forall earlier :: Position(earlier) < Position(op) ==> !Fails(fail, sys, earlier)
  }

  /** The boundary at which a call gives up. */
  function Verdict(fail: Faults, sys: System): Option<Op> {
    if Fails(fail, sys, Create) then Some(Create)
    else if Fails(fail, sys, Write) then Some(Write)
    else if Fails(fail, sys, ShortWrite) then Some(ShortWrite)
    else if Fails(fail, sys, FileSync) then Some(FileSync)
    else if Fails(fail, sys, Rename) then Some(Rename)
    else if Fails(fail, sys, DirectorySync) then Some(DirectorySync)
    else None
  }

  lemma VerdictIsFirst(fail: Faults, sys: System, op: Op)
    ensures Verdict(fail, sys) == Some(op) <==> FirstFailure(fail, sys, op)
    ensures Verdict(fail, sys) == None ==> !Fails(fail, sys, op)
  {
    forall earlier ensures Position(earlier) < Position(op) <==> earlier in Upto(op) && earlier != op {
    }
  }

  /** A boundary and those before it. */
  function Upto(op: Op): set<Op> {
    match op
    case Create => {Create}
    case Write => {Create, Write}
    case ShortWrite => {Create, Write, ShortWrite}
    case FileSync => {Create, Write, ShortWrite, FileSync}
    case Rename => {Create, Write, ShortWrite, FileSync, Rename}
    case DirectorySync => {Create, Write, ShortWrite, FileSync, Rename, DirectorySync}
  }

  predicate Injected(fail: Faults, op: Op) {
    op in fail && fail[op].Some?
  }

  /** A call succeeds exactly if every system call does and no boundary is mapped to an error. */
  lemma SucceedsExactly(fail: Faults, sys: System)
    ensures Verdict(fail, sys).None? <==>
              && sys.create && sys.close && sys.produce && sys.sync && sys.chmod && sys.rename && sys.dirSync
              && forall op :: !Injected(fail, op)
  {
    assert Injected(fail, Create) || Injected(fail, Write) || Injected(fail, ShortWrite) || Injected(fail, FileSync)
        || Injected(fail, Rename) || Injected(fail, DirectorySync) || forall op :: !Injected(fail, op) by {
      if op :| Injected(fail, op) { EveryOp(op); }
    }
  }

  lemma EveryOp(op: Op)
    ensures op in Upto(DirectorySync)
  {
  }

  /** What a call gives up at, in terms of the system calls and the faults themselves. */
  lemma FailsExactly(fail: Faults, sys: System)
    ensures var v := Verdict(fail, sys);
            var created := sys.create && !Injected(fail, Create);
            var written := created && sys.close && sys.produce && !Injected(fail, Write) && !Injected(fail, ShortWrite);
            var synced := written && sys.sync && sys.chmod && !Injected(fail, FileSync);
            var renamed := synced && sys.rename && !Injected(fail, Rename);
            && (v == Some(Create) <==> !created)
            && (v == Some(Write) <==> created && (!sys.close || !sys.produce || Injected(fail, Write)))
            && (v == Some(ShortWrite) <==>
                  created && sys.close && sys.produce && !Injected(fail, Write) && Injected(fail, ShortWrite))
            && (v == Some(FileSync) <==> written && !synced)
            && (v == Some(Rename) <==> synced && !renamed)
            && (v == Some(DirectorySync) <==> renamed && (!sys.dirSync || Injected(fail, DirectorySync)))
  {
  }

  /** The boundaries a call consults: short_write already before the write it would spoil. */
  function Consulted(fail: Faults, failed: Option<Op>): set<Op> {
    match failed
    case None => Upto(DirectorySync)
    case Some(Write) => if Mapped(fail, Write).Some? then Upto(Write) else Upto(ShortWrite)
    case Some(op) => Upto(op)
  }

  /**
   * What a call with a one-shot injector leaves mapped: what comes after the boundary it failed at. A
   * write that fails by itself has asked for the short write already.
   */
  lemma LeftMappedExactly(fail: Faults, sys: System, op: Op)
    ensures op in fail - Consulted(fail, Verdict(fail, sys)) <==>
              && op in fail && Verdict(fail, sys).Some?
              && var at := Verdict(fail, sys).value;
                 Position(op) > Position(at) && !(at.Write? && op.ShortWrite? && !Injected(fail, Write))
  {
  }

  datatype Outcome = Replaced | Failed(op: Op) | NoDestination

  function Reported(failed: Option<Op>): Outcome {
    if failed.Some? then Failed(failed.value) else Replaced
  }

  /**
   * One replacement of dest. The temporary name is new, as the system call that draws it promises.
   * Whatever happens the temporary file is gone at the end and no other file has changed; dest holds
   * the whole payload if the rename took place, and is untouched if not.
   */
  method ReplaceFileVia(disk: Disk, dest: Name, tmp: Name, payload: Bytes, inj: Injector, sys: System)
      returns (r: Outcome)
    requires tmp !in disk.files && tmp != dest
    modifies disk, Spent(inj)
    ensures disk.files == if r == Replaced || r == Failed(DirectorySync) then old(disk.files)[dest := payload]
        else old(disk.files)
    ensures r.NoDestination? <==> dest == ""
    ensures if dest == "" then inj.Faults() == old(inj.Faults())
            else Ends(old(inj.Faults()), sys, inj.Once?, r, inj.Faults())
  {
    hide Fails, Mapped, Upto, Ends, Produced, Published;
    ghost var f := inj.Faults();
    if dest == "" { return NoDestination; }
    r := CreateTemp(disk, tmp, inj, sys);
    CreateEnds(f, sys, inj.Once?, r, inj.Faults());
    if r.Failed? { return; }
    ghost var f1 := inj.Faults();
    r := Produce(disk, tmp, payload, inj, sys);
    ProduceEnds(f, sys, inj.Once?, f1, r, inj.Faults());
    if r.Replaced? {
      ghost var f2 := inj.Faults();
      r := Publish(disk, dest, tmp, inj, sys);
      PublishEnds(f, sys, inj.Once?, f2, r, inj.Faults());
    }
    TempIsGone(old(disk.files), disk.files, dest, tmp, payload);
    disk.Remove(tmp);
  }

  /** Whatever happened to the temporary file, the rest of the directory shows it no longer. */
  lemma TempIsGone(before: map<Name, Bytes>, after: map<Name, Bytes>, dest: Name, tmp: Name, payload: Bytes)
    requires tmp !in before && tmp != dest
    ensures after - {tmp} == before[tmp := []] - {tmp} ==> after - {tmp} == before
    ensures forall mid: map<Name, Bytes> ::
              tmp in mid && mid[tmp] == payload && mid - {tmp} == before[tmp := []] - {tmp}
                  && after == (mid - {tmp})[dest := mid[tmp]]
              ==> after - {tmp} == before[dest := payload]
  {
    assert before[tmp := []] - {tmp} == before;
  }

  /** A call reports its verdict, and leaves a one-shot injector without what it consulted. */
  ghost predicate Ends(f: Faults, sys: System, once: bool, r: Outcome, f': Faults) {
    r == Reported(Verdict(f, sys)) && f' == if once then f - Consulted(f, Verdict(f, sys)) else f
  }

  ghost predicate Produced(f: Faults, sys: System, once: bool, r: Outcome, f': Faults) {
    && r == (if Fails(f, sys, Write) then Failed(Write) else if Fails(f, sys, ShortWrite) then Failed(ShortWrite)
        else Replaced)
    && f' == if !once then f else if Mapped(f, Write).Some? then f - {Write} else f - {Write, ShortWrite}
  }

  ghost predicate Published(f: Faults, sys: System, once: bool, r: Outcome, f': Faults) {
    && r == (if Fails(f, sys, FileSync) then Failed(FileSync)
             else if Fails(f, sys, Rename) then Failed(Rename)
             else if Fails(f, sys, DirectorySync) then Failed(DirectorySync) else Replaced)
    && f' == if !once then f
             else if r == Failed(FileSync) then f - {FileSync}
             else if r == Failed(Rename) then f - {FileSync, Rename}
             else f - {FileSync, Rename, DirectorySync}
  }

  lemma CreateEnds(f: Faults, sys: System, once: bool, r: Outcome, f': Faults)
    requires r == if Fails(f, sys, Create) then Failed(Create) else Replaced
    requires f' == if once then f - Upto(Create) else f
    ensures r.Failed? ==> Ends(f, sys, once, r, f')
  {
    hide Fails, Upto;
  }

  lemma ProduceEnds(f: Faults, sys: System, once: bool, f1: Faults, r: Outcome, f': Faults)
    requires !Fails(f, sys, Create) && f1 == (if once then f - Upto(Create) else f) && Produced(f1, sys, once, r, f')
    ensures r.Failed? ==> Ends(f, sys, once, r, f')
    ensures r.Replaced? ==> !Fails(f, sys, Write) && !Fails(f, sys, ShortWrite) && f' == if once then f - Upto(ShortWrite) else f
  {
    SpendingAddsUp(f);
    SpentElsewhere(f, sys);
  }

  lemma PublishEnds(f: Faults, sys: System, once: bool, f2: Faults, r: Outcome, f': Faults)
    requires !Fails(f, sys, Create) && !Fails(f, sys, Write) && !Fails(f, sys, ShortWrite)
    requires f2 == (if once then f - Upto(ShortWrite) else f) && Published(f2, sys, once, r, f')
    ensures Ends(f, sys, once, r, f')
  {
    hide Fails, Upto;
    SpendingAddsUp(f);
    SpentElsewhere(f, sys);
  }

  method CreateTemp(disk: Disk, tmp: Name, inj: Injector, sys: System) returns (r: Outcome)
    modifies disk, Spent(inj)
    ensures r == if Fails(old(inj.Faults()), sys, Create) then Failed(Create) else Replaced
    ensures disk.files == if r.Replaced? then old(disk.files)[tmp := []] else old(disk.files)
    ensures inj.Faults() == if inj.Once? then old(inj.Faults()) - Upto(Create) else old(inj.Faults())
  {
    var err := Before(inj, Create);
    if err.Some? || !sys.create { return Failed(Create); }
    disk.Put(tmp, []);
    r := Replaced;
  }

  /** What a boundary finds mapped is not affected by what the boundaries before it consulted. */
  lemma SpentElsewhere(f: Faults, sys: System)
    ensures forall op: Op :: !op.Create? ==> Fails(f - Upto(Create), sys, op) == Fails(f, sys, op)
    ensures Mapped(f - Upto(Create), Write) == Mapped(f, Write)
    ensures forall op: Op :: op.FileSync? || op.Rename? || op.DirectorySync? ==>
              Fails(f - Upto(ShortWrite), sys, op) == Fails(f, sys, op)
  {
  }

  lemma SpendingAddsUp(f: Faults)
    ensures f - Upto(Create) - {Write} == f - Upto(Write)
    ensures f - Upto(Create) - {Write, ShortWrite} == f - Upto(ShortWrite)
    ensures f - Upto(ShortWrite) - {FileSync} == f - Upto(FileSync)
    ensures f - Upto(ShortWrite) - {FileSync, Rename} == f - Upto(Rename)
    ensures f - Upto(ShortWrite) - {FileSync, Rename, DirectorySync} == f - Upto(DirectorySync)
  {
  }

  /** The write: a producer that may fail, and an injected fault that spoils what it has written. */
  method Produce(disk: Disk, tmp: Name, payload: Bytes, inj: Injector, sys: System) returns (r: Outcome)
    requires tmp in disk.files
    modifies disk, Spent(inj)
    ensures disk.files.Keys == old(disk.files).Keys && disk.files - {tmp} == old(disk.files) - {tmp}
    ensures r.Replaced? ==> disk.files[tmp] == payload
    ensures !r.NoDestination? && Produced(old(inj.Faults()), sys, inj.Once?, r, inj.Faults())
  {
    var err := Before(inj, Write);
    if err.Some? { return Failed(Write); }
    var short := Before(inj, ShortWrite);
    if inj.Once? { assert old(inj.Faults()) - {Write} - {ShortWrite} == old(inj.Faults()) - {Write, ShortWrite}; }
    if !sys.close { return Failed(Write); }
    disk.Put(tmp, if sys.produce then payload else Cut(payload, sys.prefix));
    if !sys.produce { return Failed(Write); }
    if short.Some? {
      if |payload| > 1 {
        disk.Put(tmp, Cut(payload, |payload| / 2));
      }
      return Failed(ShortWrite);
    }
    r := Replaced;
  }

  /** Sync, rename, sync of the directory. */
  method Publish(disk: Disk, dest: Name, tmp: Name, inj: Injector, sys: System) returns (r: Outcome)
    requires tmp in disk.files && tmp != dest
    modifies disk, Spent(inj)
    ensures !r.NoDestination? && Published(old(inj.Faults()), sys, inj.Once?, r, inj.Faults())
    ensures disk.files == if r == Replaced || r == Failed(DirectorySync)
                          then (old(disk.files) - {tmp})[dest := old(disk.files)[tmp]] else old(disk.files)
  {
    var before := inj.Faults();
    assert before - {FileSync} - {Rename} == before - {FileSync, Rename};
    assert before - {FileSync, Rename} - {DirectorySync} == before - {FileSync, Rename, DirectorySync};
    var err := Before(inj, FileSync);
    if err.Some? || !sys.sync || !sys.chmod { return Failed(FileSync); }
    err := Before(inj, Rename);
    if err.Some? || !sys.rename { return Failed(Rename); }
    disk.Move(tmp, dest);
    err := Before(inj, DirectorySync);
    if err.Some? || !sys.dirSync { return Failed(DirectorySync); }
    r := Replaced;
  }

  // ---- Retrying under faults that fire once ----

  const HEALTHY := System(true, true, true, 0, true, true, true, true)

  /** The operations mapped to an error. */
  function Armed(fail: Faults): set<Op> {
    set op | op in fail && fail[op].Some?
  }

  /** What one call leaves mapped, no system call failing. */
  function AfterAttempt(fail: Faults): Faults {
    fail - Consulted(fail, Verdict(fail, HEALTHY))
  }

  /** One failing call spends exactly the fault it fails with, whatever else is mapped. */
  lemma AttemptSpendsOne(fail: Faults)
    ensures var failed := Verdict(fail, HEALTHY);
            && (failed.None? <==> Armed(fail) == {})
            && (failed.Some? ==> failed.value in Armed(fail) && Armed(AfterAttempt(fail)) == Armed(fail) - {failed.value})
  {
    forall op | op in Armed(fail) ensures Fails(fail, HEALTHY, op) && Verdict(fail, HEALTHY) != None {
      VerdictIsFirst(fail, HEALTHY, op);
    }
  }

  /** How often a call fails before it succeeds, when it is simply made again. */
  function Failures(fail: Faults): nat
    decreases |Armed(fail)|
  {
    AttemptSpendsOne(fail);
    if Verdict(fail, HEALTHY).None? then 0 else 1 + Failures(AfterAttempt(fail))
  }

  /** Retrying succeeds after exactly as many failures as there are operations mapped to an error. */
  lemma {:induction false} RetriesExactly(fail: Faults)
    ensures Failures(fail) == |Armed(fail)|
    decreases |Armed(fail)|
  {
    AttemptSpendsOne(fail);
    if Verdict(fail, HEALTHY).Some? { RetriesExactly(AfterAttempt(fail)); }
  }
}
