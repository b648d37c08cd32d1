/** The transparency ledger: entries chained by hashes, appended to and verified. */
module HashChain {
  import opened Wrappers

  type Hash = string

  /** A value of an entry's field; numbers that compare equal are the same number. */
  datatype Scalar = Missing | Text(text: string) | Number(n: int)

  /** A payload is given by its canonical encoding. */
  datatype Item =
    | NotAnObject
    | Entry(sequence: Scalar, previousHash: Scalar, recordedAt: Scalar, recordDigest: Scalar, entryHash: Scalar,
        payload: Option<string>)

  /** What an entry's hash is taken over. */
  datatype Material = Material(sequence: nat, previousHash: Hash, recordedAt: string, recordDigest: Hash)

  /**
   * The hash of an encoded payload and of an encoded material, how a value prints, what is accepted as
   * a time, and how a time is written.
   */
  datatype Functions = Functions(
    record: string -> Hash, entry: Material -> Hash, str: Scalar -> string, isTime: Scalar -> bool, iso: int -> string)

  ghost predicate CollisionFree(f: Functions) {
    && (forall p, q :: f.record(p) == f.record(q) ==> p == q)
    && (forall m, n :: f.entry(m) == f.entry(n) ==> m == n)
  }

  /** A written time is a text that prints as itself and is accepted. */
  ghost predicate TimesReadBack(f: Functions) {
    && (forall s :: f.str(Text(s)) == s)
    && (forall t :: f.isTime(Text(f.iso(t))))
  }

  /** A ledger's version, its entries and its head; version and head may be left out. */
  datatype Ledger = Ledger(version: Option<string>, entries: seq<Item>, head: Option<Scalar>)

  const FORMAT_VERSION := "1.0"

  predicate Supported(l: Ledger) {
    l.version.None? || l.version.value == FORMAT_VERSION
  }

  const ZERO_HASH: Hash := "0000000000000000000000000000000000000000000000000000000000000000"

  // ---- What a verified ledger is ----

  /** The material of the entry at position i, given the hash before it. */
  function MaterialOf(f: Functions, e: Item, i: nat, previous: Hash): Material
    requires e.Entry? && e.payload.Some?
  {
    Material(i + 1, previous, f.str(e.recordedAt), f.record(e.payload.value))
  }

  /** An entry that follows the hash previous at position i. */
  predicate Follows(f: Functions, e: Item, i: nat, previous: Hash) {
    && e.Entry? && e.payload.Some?
    && e.sequence == Number(i + 1)
    && e.previousHash == Text(previous)
    && e.recordDigest == Text(f.record(e.payload.value))
    && e.entryHash == Text(f.entry(MaterialOf(f, e, i, previous)))
    && f.isTime(e.recordedAt)
  }

  /** The hash that the entry at position i has to follow. */
  function PreviousOf(entries: seq<Item>, i: nat): Option<Hash>
    requires i <= |entries|
  {
    if i == 0 then Some(ZERO_HASH)
    else if entries[i - 1].Entry? && entries[i - 1].entryHash.Text? then Some(entries[i - 1].entryHash.text)
    else None
  }

  predicate Chained(f: Functions, entries: seq<Item>) {
    forall i :: 0 <= i < |entries| ==>
      PreviousOf(entries, i).Some? && Follows(f, entries[i], i, PreviousOf(entries, i).value)
  }

  /** A head may be left out; one that is given must be the last entry's hash. */
  predicate HeadFits(l: Ledger) {
    l.head.None? || (PreviousOf(l.entries, |l.entries|).Some?
        && l.head.value == Text(PreviousOf(l.entries, |l.entries|).value))
  }

  predicate Verified(f: Functions, l: Ledger) {
    Chained(f, l.entries) && HeadFits(l)
  }

  // ---- Verification as the tool does it ----

  datatype Fault = NotObject | Payload | Sequence | Previous | RecordDigest | EntryHash | RecordedAt | Head

  /** The errors of one entry that has a payload. */
  function Faults(f: Functions, e: Item, i: nat, previous: Hash): seq<Fault>
    requires e.Entry? && e.payload.Some?
  {
    (if e.sequence != Number(i + 1) then [Sequence] else [])
    + (if e.previousHash != Text(previous) then [Previous] else [])
    + (if e.recordDigest != Text(f.record(e.payload.value)) then [RecordDigest] else [])
    + (if e.entryHash != Text(f.entry(MaterialOf(f, e, i, previous))) then [EntryHash] else [])
    + (if !f.isTime(e.recordedAt) then [RecordedAt] else [])
  }

  lemma NoFaultsExactly(f: Functions, e: Item, i: nat, previous: Hash)
    requires e.Entry? && e.payload.Some?
    ensures Faults(f, e, i, previous) == [] <==> Follows(f, e, i, previous)
  {
  }

  /** A prefix of a chain is a chain; one more entry has to follow its last hash. */
  lemma ChainStep(f: Functions, entries: seq<Item>, i: nat)
    requires i < |entries|
    ensures Chained(f, entries[..i + 1]) <==>
              Chained(f, entries[..i]) && PreviousOf(entries, i).Some?
                  && Follows(f, entries[i], i, PreviousOf(entries, i).value)
  {
    var longer, shorter := entries[..i + 1], entries[..i];
    forall k | 0 <= k <= i ensures PreviousOf(longer, k) == PreviousOf(entries, k) == PreviousOf(shorter, k)
        && longer[k] == entries[k] {
    }
    if Chained(f, longer) {
      assert longer[i] == entries[i];
      forall k | 0 <= k < i ensures PreviousOf(shorter, k).Some?
          && Follows(f, shorter[k], k, PreviousOf(shorter, k).value) {
        assert longer[k] == shorter[k];
      }
    }
    if Chained(f, shorter) && PreviousOf(entries, i).Some? && Follows(f, entries[i], i, PreviousOf(entries, i).value) {
      forall k | 0 <= k < |longer|
          ensures PreviousOf(longer, k).Some? && Follows(f, longer[k], k, PreviousOf(longer, k).value) {
        assert k < i ==> longer[k] == shorter[k];
      }
    }
  }

  /** The hash that the tool expects at position i: of the last entry before it that has a payload. */
  function Expected(f: Functions, entries: seq<Item>, i: nat): Hash
    requires i <= |entries|
  {
    if i == 0 then ZERO_HASH else
    var before := Expected(f, entries, i - 1);
    var e := entries[i - 1];
    if e.NotAnObject? || e.payload.None? then before
    else f.entry(Material(i, before, f.str(e.recordedAt), f.record(e.payload.value)))
  }

  /** The entry at position i has this fault. */
  predicate Wrong(f: Functions, entries: seq<Item>, i: nat, fault: Fault)
    requires i < |entries|
  {
    var e := entries[i];
    if fault.NotObject? then e.NotAnObject?
    else if e.NotAnObject? then false
    else if fault.Payload? then e.payload.None?
    else if e.payload.None? then false
    else match fault
      case Sequence => e.sequence != Number(i + 1)
      case Previous => e.previousHash != Text(Expected(f, entries, i))
      case RecordDigest => e.recordDigest != Text(f.record(e.payload.value))
      case EntryHash => e.entryHash != Text(Expected(f, entries, i + 1))
      case RecordedAt => !f.isTime(e.recordedAt)
      case _ => false
  }

  /** The errors so far name exactly the faults of the first i entries. */
  ghost predicate Named(f: Functions, entries: seq<Item>, i: nat, errors: seq<Fault>)
    requires i <= |entries|
  {
    forall fault: Fault :: fault in errors <==> exists k :: 0 <= k < i && Wrong(f, entries, k, fault)
  }

  lemma NamedOneMore(f: Functions, entries: seq<Item>, i: nat, errors: seq<Fault>, found: seq<Fault>)
    requires i < |entries| && Named(f, entries, i, errors)
    requires forall fault: Fault :: fault in found <==> Wrong(f, entries, i, fault)
    ensures Named(f, entries, i + 1, errors + found)
  {
    hide Wrong;
    forall fault: Fault
      ensures fault in errors + found <==> exists k :: 0 <= k < i + 1 && Wrong(f, entries, k, fault)
    {
      if fault in errors { var k :| 0 <= k < i && Wrong(f, entries, k, fault); }
    }
  }

  lemma OnlyFault(f: Functions, entries: seq<Item>, i: nat)
    requires i < |entries| && (entries[i].NotAnObject? || entries[i].payload.None?)
    ensures var only := if entries[i].NotAnObject? then NotObject else Payload;
            forall fault: Fault :: fault in [only] <==> Wrong(f, entries, i, fault)
    ensures Expected(f, entries, i + 1) == Expected(f, entries, i)
  {
  }

  lemma EmptyChain(f: Functions, entries: seq<Item>)
    ensures Chained(f, entries[..0]) && Named(f, entries, 0, []) && Expected(f, entries, 0) == ZERO_HASH
  {
  }

  lemma NoHeadYet(f: Functions, entries: seq<Item>, errors: seq<Fault>)
    requires Named(f, entries, |entries|, errors)
    ensures Head !in errors
    ensures forall fault: Fault :: fault in errors <==> exists i :: 0 <= i < |entries| && Wrong(f, entries, i, fault)
  {
  }

  lemma FaultsAreWrong(f: Functions, entries: seq<Item>, i: nat)
    requires i < |entries| && entries[i].Entry? && entries[i].payload.Some?
    ensures forall fault: Fault ::
              fault in Faults(f, entries[i], i, Expected(f, entries, i)) <==> Wrong(f, entries, i, fault)
    ensures Expected(f, entries, i + 1) == f.entry(MaterialOf(f, entries[i], i, Expected(f, entries, i)))
  {
  }

  /**
   * One pass with the hash expected so far; an entry without a payload is reported and skipped. A last
   * entry that is no object makes the tool fail when it looks for its hash.
   */
  method Verify(f: Functions, l: Ledger) returns (failed: bool, errors: seq<Fault>)
    ensures failed <==> l.entries != [] && l.entries[|l.entries| - 1].NotAnObject?
    ensures !failed ==> (errors == [] <==> Verified(f, l))
    ensures forall fault: Fault :: !fault.Head? ==>
              (fault in errors <==> exists i :: 0 <= i < |l.entries| && Wrong(f, l.entries, i, fault))
    ensures !failed ==>
              (Head in errors <==>
                 (if l.head.Some? then l.head.value else Text(Expected(f, l.entries, |l.entries|))) !=
                 if l.entries == [] then Text(ZERO_HASH) else l.entries[|l.entries| - 1].entryHash)
  {
    hide Wrong, Faults, Expected, Named, Chained;
    EmptyChain(f, l.entries);
    errors := [];
    failed := false;
    var previous := ZERO_HASH;
    var i := 0;
    while i < |l.entries|
      invariant 0 <= i <= |l.entries|
      invariant errors == [] <==> Chained(f, l.entries[..i])
      invariant errors == [] ==> PreviousOf(l.entries, i) == Some(previous)
      invariant previous == Expected(f, l.entries, i) && Named(f, l.entries, i, errors)
    {
      ChainStep(f, l.entries, i);
      var e := l.entries[i];
      if e.NotAnObject? {
        OnlyFault(f, l.entries, i);
        NamedOneMore(f, l.entries, i, errors, [NotObject]);
        errors := errors + [NotObject];
      } else if e.payload.None? {
        OnlyFault(f, l.entries, i);
        NamedOneMore(f, l.entries, i, errors, [Payload]);
        errors := errors + [Payload];
      } else {
        NoFaultsExactly(f, e, i, previous);
        FaultsAreWrong(f, l.entries, i);
        NamedOneMore(f, l.entries, i, errors, Faults(f, e, i, previous));
        errors := errors + Faults(f, e, i, previous);
        previous := f.entry(MaterialOf(f, e, i, previous));
      }
      i := i + 1;
    }
    assert l.entries[..i] == l.entries;
    NoHeadYet(f, l.entries, errors);
    if l.entries != [] && l.entries[|l.entries| - 1].NotAnObject? { return true, errors; }
    var declared := if l.head.Some? then l.head.value else Text(previous);
    var last := if l.entries != [] then l.entries[|l.entries| - 1].entryHash else Text(ZERO_HASH);
    if declared != last {
      errors := errors + [Head];
    }
  }

  // ---- Appending ----

  /** A record: its time, if it has one that is accepted, and its payload, if it is an object. */
  datatype Record = Record(time: Option<int>, payload: Option<string>)

  predicate Duplicate(f: Functions, entries: seq<Item>, payload: string) {
    exists k :: 0 <= k < |entries| && entries[k].Entry? && entries[k].recordDigest == Text(f.record(payload))
  }

  function NextEntry(f: Functions, entries: seq<Item>, previous: Hash, time: int, payload: string): Item {
    Entry(Number(|entries| + 1), Text(previous), Text(f.iso(time)), Text(f.record(payload)),
          Text(f.entry(Material(|entries| + 1, previous, f.iso(time), f.record(payload)))), Some(payload))
  }

  /** The entries are verified first, without the head that came with them. */
  function Append(f: Functions, l: Ledger, r: Record): Option<Ledger> {
    if !Supported(l) || !Chained(f, l.entries) || r.time.None? || r.payload.None?
       || Duplicate(f, l.entries, r.payload.value) then None
    else
      var previous := PreviousOf(l.entries, |l.entries|);
      if previous.None? then None else
      var e := NextEntry(f, l.entries, previous.value, r.time.value, r.payload.value);
      Some(Ledger(Some(FORMAT_VERSION), l.entries + [e], Some(e.entryHash)))
  }

  lemma NextFollows(f: Functions, entries: seq<Item>, previous: Hash, time: int, payload: string)
    requires TimesReadBack(f)
    ensures Follows(f, NextEntry(f, entries, previous, time, payload), |entries|, previous)
  {
    assert f.isTime(Text(f.iso(time))) && f.str(Text(f.iso(time))) == f.iso(time);
  }

  /** An append that succeeds adds exactly its record at the end, and its result verifies. */
  lemma AppendExtends(f: Functions, l: Ledger, r: Record)
    requires TimesReadBack(f) && Append(f, l, r).Some?
    ensures var l' := Append(f, l, r).value;
            && Verified(f, l') && l'.version == Some("1.0")
            && l'.head.Some? && l'.head.value == l'.entries[|l.entries|].entryHash
            && |l'.entries| == |l.entries| + 1 && l'.entries[..|l.entries|] == l.entries
            && l'.entries[|l.entries|].payload == r.payload
            && l'.entries[|l.entries|].recordedAt == Text(f.iso(r.time.value))
  {
    hide TimesReadBack, Follows;
    var l' := Append(f, l, r).value;
    var n := |l.entries|;
    NextFollows(f, l.entries, PreviousOf(l.entries, n).value, r.time.value, r.payload.value);
    assert l'.entries[..n] == l.entries && l'.entries[..n + 1] == l'.entries;
    ChainStep(f, l'.entries, n);
    assert PreviousOf(l'.entries, n) == PreviousOf(l.entries, n);
  }

  /** A chain that holds has a last hash to go on from. */
  lemma ChainHasLast(f: Functions, entries: seq<Item>)
    requires Chained(f, entries)
    ensures PreviousOf(entries, |entries|).Some?
  {
    if entries != [] {
      var n := |entries| - 1;
      assert Follows(f, entries[n], n, PreviousOf(entries, n).value);
    }
  }

  /** A record with a time and a payload that is not in the ledger yet. */
  predicate Appendable(f: Functions, entries: seq<Item>, r: Record) {
    r.time.Some? && r.payload.Some? && !Duplicate(f, entries, r.payload.value)
  }

  /** It fails exactly on a version it does not know, a broken chain, or a record that cannot be appended. */
  lemma AppendFailsExactly(f: Functions, l: Ledger, r: Record)
    ensures Append(f, l, r).None? <==>
              || (l.version.Some? && l.version.value != "1.0")
              || !Chained(f, l.entries)
              || r.time.None? || r.payload.None?
              || exists e :: e in l.entries && e.Entry? && e.recordDigest == Text(f.record(r.payload.value))
  {
    if Chained(f, l.entries) { ChainHasLast(f, l.entries); }
    if r.payload.Some? { DuplicateExactly(f, l.entries, r.payload.value); }
  }

  lemma DuplicateExactly(f: Functions, entries: seq<Item>, payload: string)
    ensures Duplicate(f, entries, payload) <==>
              exists e :: e in entries && e.Entry? && e.recordDigest == Text(f.record(payload))
  {
    if e :| e in entries && e.Entry? && e.recordDigest == Text(f.record(payload)) {
      var k :| 0 <= k < |entries| && entries[k] == e;
    }
  }

  /**
   * An append succeeds on a ledger that does not verify exactly if nothing is wrong but the head, and
   * then its result verifies: a wrong head is replaced without a word.
   */
  lemma AppendMendsHeadExactly(f: Functions, l: Ledger, r: Record)
    requires TimesReadBack(f)
    ensures Append(f, l, r).Some? && !Verified(f, l) <==>
              Supported(l) && Chained(f, l.entries) && Appendable(f, l.entries, r) && !HeadFits(l)
    ensures Append(f, l, r).Some? ==> Verified(f, Append(f, l, r).value)
  {
    hide TimesReadBack;
    AppendFailsExactly(f, l, r);
    if r.payload.Some? { DuplicateExactly(f, l.entries, r.payload.value); }
    if Append(f, l, r).Some? { AppendExtends(f, l, r); }
  }

  /** The head that came with a ledger makes no difference to an append. */
  lemma AppendIgnoresHead(f: Functions, l: Ledger, head: Option<Scalar>, r: Record)
    ensures Append(f, l.(head := head), r) == Append(f, l, r)
  {
  }

  // ---- Ledgers built by appending ----

  const EMPTY := Ledger(None, [], None)

  /** The ledger after appending the records in turn; a failed append leaves it as it was. */
  function Build(f: Functions, records: seq<Record>): Ledger {
    if records == [] then EMPTY else
    var before := Build(f, records[..|records| - 1]);
    var after := Append(f, before, records[|records| - 1]);
    if after.Some? then after.value else before
  }

  predicate DistinctDigests(entries: seq<Item>) {
    forall i, j :: 0 <= i < j < |entries| && entries[i].Entry? && entries[j].Entry? ==>
        entries[i].recordDigest != entries[j].recordDigest
  }

  /** Every ledger built by appends verifies, and no payload is in it twice. */
  lemma {:induction false} BuiltIsSound(f: Functions, records: seq<Record>)
    requires TimesReadBack(f)
    ensures Verified(f, Build(f, records)) && DistinctDigests(Build(f, records).entries)
  {
    if records != [] {
      BuiltIsSound(f, records[..|records| - 1]);
      var before := Build(f, records[..|records| - 1]);
      var r := records[|records| - 1];
      if Append(f, before, r).Some? {
        AppendExtends(f, before, r);
        var l' := Append(f, before, r).value;
        forall i, j | 0 <= i < j < |l'.entries| && l'.entries[i].Entry? && l'.entries[j].Entry?
          ensures l'.entries[i].recordDigest != l'.entries[j].recordDigest
        {
          assert i < |before.entries| ==> l'.entries[i] == before.entries[i];
          assert j < |before.entries| ==> l'.entries[j] == before.entries[j];
        }
      }
    }
  }

  /** The times of the entries are written as an append writes them. */
  ghost predicate TimesWritten(f: Functions, entries: seq<Item>) {
    forall i :: 0 <= i < |entries| ==>
      entries[i].Entry? && exists t :: entries[i].recordedAt == Text(f.iso(t))
  }

  lemma {:induction false} BuiltTimesWritten(f: Functions, records: seq<Record>)
    ensures TimesWritten(f, Build(f, records).entries)
  {
    if records != [] {
      BuiltTimesWritten(f, records[..|records| - 1]);
    }
  }

  /** An entry that follows, with its time written so, is the one that an append makes. */
  lemma FollowsIsNext(f: Functions, e: Item, prefix: seq<Item>, previous: Hash, t: int)
    requires TimesReadBack(f) && Follows(f, e, |prefix|, previous) && e.recordedAt == Text(f.iso(t))
    ensures e == NextEntry(f, prefix, previous, t, e.payload.value)
  {
    assert f.str(Text(f.iso(t))) == f.iso(t);
  }

  /** One more record builds one more entry. */
  lemma BuildOneMore(f: Functions, before: seq<Record>, prefix: seq<Item>, e: Item, t: int)
    requires TimesReadBack(f) && Build(f, before).entries == prefix && Chained(f, prefix)
    requires PreviousOf(prefix, |prefix|).Some? && Follows(f, e, |prefix|, PreviousOf(prefix, |prefix|).value)
    requires e.recordedAt == Text(f.iso(t)) && !Duplicate(f, prefix, e.payload.value)
    ensures Build(f, before + [Record(Some(t), e.payload)]).entries == prefix + [e]
  {
    hide TimesReadBack, Follows, NextEntry, Chained, Duplicate, PreviousOf;
    DigestIsPayload(f, e, |prefix|, PreviousOf(prefix, |prefix|).value);
    var r := Record(Some(t), e.payload);
    FollowsIsNext(f, e, prefix, PreviousOf(prefix, |prefix|).value, t);
    BuiltIsSupported(f, before);
    assert (before + [r])[..|before|] == before;
    assert Append(f, Build(f, before), r).Some?;
  }

  lemma NotADuplicate(f: Functions, entries: seq<Item>, n: nat, previous: Hash)
    requires n < |entries| && DistinctDigests(entries) && Follows(f, entries[n], n, previous)
    ensures !Duplicate(f, entries[..n], entries[n].payload.value)
  {
    hide Follows;
    DigestIsPayload(f, entries[n], n, previous);
    forall k | 0 <= k < n && entries[k].Entry? ensures entries[..n][k].recordDigest != entries[n].recordDigest {
    }
  }

  lemma NothingBuilt(f: Functions)
    ensures Build(f, []).entries == []
  {
  }

  lemma PrefixIsSound(f: Functions, entries: seq<Item>, n: nat)
    requires n <= |entries| && DistinctDigests(entries) && TimesWritten(f, entries)
    ensures DistinctDigests(entries[..n]) && TimesWritten(f, entries[..n])
  {
  }

  lemma TimeAt(f: Functions, entries: seq<Item>, n: nat) returns (t: int)
    requires n < |entries| && TimesWritten(f, entries)
    ensures entries[n].Entry? && entries[n].recordedAt == Text(f.iso(t))
  {
    t :| entries[n].recordedAt == Text(f.iso(t));
  }

  /** The records that build a chain without repetition. */
  lemma {:induction false} ChainIsBuilt(f: Functions, entries: seq<Item>) returns (records: seq<Record>)
    requires TimesReadBack(f) && Chained(f, entries) && DistinctDigests(entries) && TimesWritten(f, entries)
    ensures Build(f, records).entries == entries
    decreases |entries|
  {
    hide TimesReadBack, TimesWritten, DistinctDigests, Follows, Build, Chained, Duplicate;
    if entries == [] {
      records := [];
      NothingBuilt(f);
    } else {
      var n := |entries| - 1;
      var prefix, e := entries[..n], entries[n];
      assert entries == prefix + [e] && entries[..n + 1] == entries;
      ChainStep(f, entries, n);
      PrefixIsSound(f, entries, n);
      assert PreviousOf(prefix, n) == PreviousOf(entries, n);
      NotADuplicate(f, entries, n, PreviousOf(entries, n).value);
      var before := ChainIsBuilt(f, prefix);
      var t := TimeAt(f, entries, n);
      BuildOneMore(f, before, prefix, e, t);
      records := before + [Record(Some(t), e.payload)];
    }
  }

  lemma DigestIsPayload(f: Functions, e: Item, i: nat, previous: Hash)
    requires Follows(f, e, i, previous)
    ensures e.Entry? && e.payload.Some? && e.recordDigest == Text(f.record(e.payload.value))
  {
  }

  lemma {:induction false} BuiltIsSupported(f: Functions, records: seq<Record>)
    ensures Supported(Build(f, records))
  {
    if records != [] { BuiltIsSupported(f, records[..|records| - 1]); }
  }

  /** Entries can be built by appends exactly if they are a chain, repeat no digest and write their times so. */
  lemma BuiltExactly(f: Functions, entries: seq<Item>)
    requires TimesReadBack(f)
    ensures (exists records :: Build(f, records).entries == entries) <==>
              Chained(f, entries) && DistinctDigests(entries) && TimesWritten(f, entries)
  {
    hide TimesReadBack, Chained, DistinctDigests, TimesWritten, Build;
    if records :| Build(f, records).entries == entries {
      BuiltIsSound(f, records);
      BuiltTimesWritten(f, records);
    }
    if Chained(f, entries) && DistinctDigests(entries) && TimesWritten(f, entries) {
      var records := ChainIsBuilt(f, entries);
    }
  }

  // ---- The head commits to the history ----

  /** What the hashes bind of two entries. */
  predicate SameContent(f: Functions, a: Item, b: Item) {
    a.Entry? && b.Entry? && a.sequence == b.sequence && f.str(a.recordedAt) == f.str(b.recordedAt)
        && a.payload == b.payload
  }

  lemma Injective(f: Functions, m: Material, n: Material)
    requires CollisionFree(f) && f.entry(m) == f.entry(n)
    ensures m == n
  {
  }

  lemma RecordInjective(f: Functions, p: string, q: string)
    requires CollisionFree(f) && f.record(p) == f.record(q)
    ensures p == q
  {
  }

  /** One hash binds the position, the hash before it and the content. */
  lemma OneEntryCommits(f: Functions, d: Item, e: Item, i: nat, j: nat, p: Hash, q: Hash)
    requires CollisionFree(f) && Follows(f, d, i, p) && Follows(f, e, j, q) && d.entryHash == e.entryHash
    ensures i == j && p == q && SameContent(f, d, e)
  {
    hide CollisionFree;
    Injective(f, MaterialOf(f, d, i, p), MaterialOf(f, e, j, q));
    RecordInjective(f, d.payload.value, e.payload.value);
  }

  lemma {:induction false} EntryHashCommits(f: Functions, a: seq<Item>, b: seq<Item>, i: nat, j: nat)
    requires CollisionFree(f) && Chained(f, a) && Chained(f, b) && i < |a| && j < |b|
    requires a[i].Entry? && b[j].Entry? && a[i].entryHash == b[j].entryHash
    ensures i == j && forall k :: 0 <= k <= i ==> k < |a| && k < |b| && SameContent(f, a[k], b[k])
    decreases i
  {
    hide CollisionFree, Follows, SameContent;
    OneEntryCommits(f, a[i], b[j], i, j, PreviousOf(a, i).value, PreviousOf(b, j).value);
    if i > 0 {
      EntryHashCommits(f, a, b, i - 1, j - 1);
    }
  }

  /**
   * Two verified ledgers with entries and the same head hold the same history: as many entries, and
   * each with the same sequence, printed time and payload.
   */
  lemma HeadCommits(f: Functions, a: Ledger, b: Ledger)
    requires CollisionFree(f) && Verified(f, a) && Verified(f, b) && a.entries != [] && b.entries != []
    requires a.head.Some? && a.head == b.head
    ensures |a.entries| == |b.entries|
    ensures forall k :: 0 <= k < |a.entries| ==> SameContent(f, a.entries[k], b.entries[k])
  {
    EntryHashCommits(f, a.entries, b.entries, |a.entries| - 1, |b.entries| - 1);
  }

  /** The sequence number in the material is what excludes a shorter history with the same head. */
  lemma LongerHistoryNewHead(f: Functions, l: Ledger, r: Record)
    requires CollisionFree(f) && TimesReadBack(f) && Verified(f, l) && l.entries != [] && l.head.Some?
        && Append(f, l, r).Some?
    ensures Append(f, l, r).value.head != l.head
  {
    AppendExtends(f, l, r);
    var l' := Append(f, l, r).value;
    if l'.head == l.head { HeadCommits(f, l', l); }
  }

  /** Verification alone does not exclude duplicates: only appending does. */
  lemma DuplicateVerifies(f: Functions, time: int, payload: string)
    requires TimesReadBack(f)
    ensures var e := NextEntry(f, [], ZERO_HASH, time, payload);
            var twice := [e, NextEntry(f, [e], e.entryHash.text, time, payload)];
            Verified(f, Ledger(None, twice, None)) && !DistinctDigests(twice)
  {
    var e := NextEntry(f, [], ZERO_HASH, time, payload);
    var twice := [e, NextEntry(f, [e], e.entryHash.text, time, payload)];
    assert twice[0].recordDigest == twice[1].recordDigest;
    assert PreviousOf(twice, 1) == Some(e.entryHash.text);
  }
}
