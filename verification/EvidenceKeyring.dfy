/** The keyring of evidence keys: its file, its rotation, and which artifacts stay readable. */
module EvidenceKeyring {
  import opened Wrappers
  import opened EvidenceContainer
  import opened Sorting
  import opened Text

  type Path = string

  datatype Ref = Ref(keyId: Bytes, path: Path, enabled: bool)

  datatype RingFile = RingFile(version: bool, activeKeyId: Bytes, keys: seq<Ref>)

  predicate Blank(text: string) {
    Trimmed(text) == ""
  }

  // ---- Validation ----

  predicate Usable(r: Ref) {
    !Blank(r.keyId) && !Blank(r.path)
  }

  predicate DistinctIds(keys: seq<Ref>) {
    forall i, j :: 0 <= i < j < |keys| ==> keys[i].keyId != keys[j].keyId
  }

  predicate ActiveEnabled(f: RingFile) {
    exists r :: r in f.keys && r.keyId == f.activeKeyId && r.enabled
  }

  predicate ValidRing(f: RingFile) {
    f.version && !Blank(f.activeKeyId) && f.keys != []
    && (forall r :: r in f.keys ==> Usable(r)) && DistinctIds(f.keys) && ActiveEnabled(f)
  }

  method Validate(f: RingFile) returns (ok: bool)
    ensures ok == ValidRing(f)
  {
    hide Blank;
    if !f.version || Blank(f.activeKeyId) || |f.keys| == 0 { return false; }
    var seen: set<Bytes> := {};
    var active := false;
    var i := 0;
    while i < |f.keys|
      invariant 0 <= i <= |f.keys|
      invariant seen == set k | 0 <= k < i :: f.keys[k].keyId
      invariant forall k :: 0 <= k < i ==> Usable(f.keys[k])
      invariant DistinctIds(f.keys[..i])
      invariant active <==> exists k :: 0 <= k < i && f.keys[k].keyId == f.activeKeyId && f.keys[k].enabled
    {
      var r := f.keys[i];
      if Blank(r.keyId) || Blank(r.path) {
        assert r in f.keys && !Usable(r);
        return false;
      }
      if r.keyId in seen {
        var k :| 0 <= k < i && f.keys[k].keyId == r.keyId;
        assert !DistinctIds(f.keys);
        return false;
      }
      seen := seen + {r.keyId};
      if r.keyId == f.activeKeyId && r.enabled { active := true; }
      i := i + 1;
    }
    assert f.keys[..i] == f.keys;
    if !active {
      assert !ActiveEnabled(f);
      return false;
    }
    ok := true;
  }

  // ---- The order in which the file is written ----

  predicate ById(a: Ref, b: Ref) {
    Less(a.keyId, b.keyId)
  }

  function SortById(keys: seq<Ref>): seq<Ref> {
    SortBy(ById, keys)
  }

  /** The written ring is in the order of its ids, and holds the same references. */
  lemma RingIsSorted(keys: seq<Ref>)
    ensures Ordered(ById, SortById(keys)) && multiset(SortById(keys)) == multiset(keys)
  {
    forall a, b | ById(a, b) ensures !ById(b, a) { LessIsAsymmetric(a.keyId, b.keyId); }
    forall a, b, c | !ById(b, a) && !ById(c, b) ensures !ById(c, a) { LessCarriesOver(a.keyId, b.keyId, c.keyId); }
    SortOrders(ById, keys);
    SortKeeps(ById, keys);
  }

  function IdOf(r: Ref): Bytes { r.keyId }

  lemma SameIdSameRef(a: seq<Ref>, r: Ref, s: Ref)
    requires DistinctIds(a) && r in a && s in a && r.keyId == s.keyId
    ensures r == s
  {
    var i :| 0 <= i < |a| && a[i] == r;
    var j :| 0 <= j < |a| && a[j] == s;
    assert i == j;
  }

  // ---- Loading and rotating ----

  /** The key files by path; each holds a cipher under the id that is in the file. */
  type KeyFiles = map<Path, Cipher>

  /** The ciphers of a loaded keyring, and the one it writes with. */
  datatype Keyring = Keyring(active: Cipher, keys: map<Bytes, Cipher>)

  predicate Loadable(files: KeyFiles, r: Ref) {
    r.path in files && files[r.path].keyId == r.keyId && !Blank(files[r.path].keyId)
  }

  predicate AllLoadable(files: KeyFiles, keys: seq<Ref>) {
    forall r :: r in keys && r.enabled ==> Loadable(files, r)
  }

  /** The keyring holds exactly the enabled keys of the file. */
  ghost predicate Loads(files: KeyFiles, f: RingFile, k: Keyring) {
    && (forall id :: id in k.keys <==> exists r :: r in f.keys && r.enabled && r.keyId == id)
    && (forall r :: r in f.keys && r.enabled ==>
        r.keyId in k.keys && r.path in files && k.keys[r.keyId] == files[r.path])
    && f.activeKeyId in k.keys && k.active == k.keys[f.activeKeyId]
  }

  /** The table so far holds exactly the enabled keys of the first i references. */
  ghost predicate LoadedUpTo(files: KeyFiles, refs: seq<Ref>, i: nat, keys: map<Bytes, Cipher>)
    requires i <= |refs|
  {
    && (forall k :: 0 <= k < i && refs[k].enabled ==> Loadable(files, refs[k]))
    && (forall id :: id in keys <==> exists k :: 0 <= k < i && refs[k].enabled && refs[k].keyId == id)
    && (forall k :: 0 <= k < i && refs[k].enabled ==>
        refs[k].keyId in keys && keys[refs[k].keyId] == files[refs[k].path])
  }

  lemma LoadedOneMore(files: KeyFiles, refs: seq<Ref>, i: nat, keys: map<Bytes, Cipher>)
    requires i < |refs| && DistinctIds(refs) && LoadedUpTo(files, refs, i, keys)
    ensures !refs[i].enabled ==> LoadedUpTo(files, refs, i + 1, keys)
    ensures refs[i].enabled && Loadable(files, refs[i]) ==>
        LoadedUpTo(files, refs, i + 1, keys[refs[i].keyId := files[refs[i].path]])
  {
    hide Blank;
  }

  lemma LoadedAll(files: KeyFiles, f: RingFile, keys: map<Bytes, Cipher>)
    requires ValidRing(f) && LoadedUpTo(files, f.keys, |f.keys|, keys)
    ensures AllLoadable(files, f.keys) && f.activeKeyId in keys
    ensures Loads(files, f, Keyring(keys[f.activeKeyId], keys))
  {
    hide Blank, DistinctIds;
    var a :| a in f.keys && a.keyId == f.activeKeyId && a.enabled;
    var k :| 0 <= k < |f.keys| && f.keys[k] == a;
    forall r | r in f.keys && r.enabled
        ensures Loadable(files, r) && r.keyId in keys && keys[r.keyId] == files[r.path] {
      var j :| 0 <= j < |f.keys| && f.keys[j] == r;
    }
    forall id | id in keys ensures exists r :: r in f.keys && r.enabled && r.keyId == id {
      var j :| 0 <= j < |f.keys| && f.keys[j].enabled && f.keys[j].keyId == id;
      assert f.keys[j] in f.keys;
    }
  }

  /** Loading fails if any enabled key cannot be loaded, whether or not it is the active one. */
  method LoadKeyring(files: KeyFiles, f: RingFile) returns (r: Option<Keyring>)
    ensures r.Some? <==> ValidRing(f) && AllLoadable(files, f.keys)
    ensures r.Some? ==> Loads(files, f, r.value)
  {
    hide Blank, LoadedUpTo, Loads, ActiveEnabled;
    var ok := Validate(f);
    if !ok { return None; }
    var keys: map<Bytes, Cipher> := map[];
    NoneLoaded(files, f.keys);
    var i := 0;
    while i < |f.keys|
      invariant 0 <= i <= |f.keys|
      invariant LoadedUpTo(files, f.keys, i, keys)
    {
      LoadedOneMore(files, f.keys, i, keys);
      var ref := f.keys[i];
      if ref.enabled {
        if ref.path !in files || Blank(files[ref.path].keyId) || files[ref.path].keyId != ref.keyId {
          assert ref in f.keys && !Loadable(files, ref);
          return None;
        }
        keys := keys[ref.keyId := files[ref.path]];
      }
      i := i + 1;
    }
    LoadedAll(files, f, keys);
    r := Some(Keyring(keys[f.activeKeyId], keys));
  }

  /**
   * When a keyring can be loaded: its file is of the known version, names an active key that is enabled,
   * and lists keys with ids that differ, nothing blank, and for each enabled key a file under its path
   * that holds a key of that id.
   */
  lemma LoadableExactly(files: KeyFiles, f: RingFile)
    ensures ValidRing(f) && AllLoadable(files, f.keys) <==>
              && f.version && !AllSpace(f.activeKeyId)
              && (forall r :: r in f.keys ==> !AllSpace(r.keyId) && !AllSpace(r.path))
              && (forall i, j :: 0 <= i < j < |f.keys| ==> f.keys[i].keyId != f.keys[j].keyId)
              && (exists r :: r in f.keys && r.keyId == f.activeKeyId && r.enabled)
              && (forall r :: r in f.keys && r.enabled ==> r.path in files && files[r.path].keyId == r.keyId)
  {
    hide Trimmed, AllSpace;
    BlankExactly(f.activeKeyId);
    forall r | r in f.keys ensures (Blank(r.keyId) <==> AllSpace(r.keyId)) && (Blank(r.path) <==> AllSpace(r.path)) {
      BlankExactly(r.keyId);
      BlankExactly(r.path);
    }
  }

  lemma NoneLoaded(files: KeyFiles, refs: seq<Ref>)
    ensures LoadedUpTo(files, refs, 0, map[])
  {
  }

  /** Reading goes by the key id that the artifact names. */
  ghost function Read(k: Keyring, encoded: Bytes, ad: Bytes): Option<Bytes> {
    var id := NamedKey(encoded);
    if id.None? || id.value !in k.keys then None else Opened(k.keys[id.value], encoded, ad)
  }

  function Disabled(keys: seq<Ref>): seq<Ref> {
    seq(|keys|, i requires 0 <= i < |keys| => keys[i].(enabled := false))
  }

  /** The ring that a rotation to a new key writes. */
  function Extended(f: RingFile, key: Cipher, path: Path, disableOld: bool): RingFile {
    f.(keys := (if disableOld then Disabled(f.keys) else f.keys) + [Ref(key.keyId, path, true)],
        activeKeyId := key.keyId)
  }

  datatype Store = Store(files: KeyFiles, ring: RingFile)

  datatype Rotation = Rotation(key: Cipher, path: Path, disableOld: bool)

  function Created(key: Cipher, path: Path): Store {
    Store(map[path := key], RingFile(true, key.keyId, [Ref(key.keyId, path, true)]))
  }

  /**
   * The new key's file is written before the ring is checked again: a rotation that is refused may
   * have replaced the file.
   */
  function Rotated(s: Store, r: Rotation): Store {
    if !ValidRing(s.ring) then s else
    var f := Extended(s.ring, r.key, r.path, r.disableOld);
    Store(s.files[r.path := r.key], if ValidRing(f) then f.(keys := SortById(f.keys)) else s.ring)
  }

  class KeyStore {
    var files: KeyFiles
    var ring: RingFile

    function Value(): Store
      reads this
    {
      Store(files, ring)
    }

    constructor (key: Cipher, path: Path)
      ensures Value() == Created(key, path)
    {
      files := map[path := key];
      ring := RingFile(true, key.keyId, [Ref(key.keyId, path, true)]);
    }

    method Rotate(key: Cipher, path: Path, disableOld: bool) returns (ok: bool)
      modifies this
      ensures Value() == Rotated(old(Value()), Rotation(key, path, disableOld))
      ensures ok <==> ValidRing(old(ring)) && ValidRing(Extended(old(ring), key, path, disableOld))
    {
      ok := Validate(ring);
      if !ok { return; }
      files := files[path := key];
      var keys := ring.keys;
      if disableOld {
        var i := 0;
        while i < |keys|
          invariant 0 <= i <= |keys| == |ring.keys|
          invariant forall k :: 0 <= k < |keys| ==> keys[k] == if k < i then ring.keys[k].(enabled := false)
              else ring.keys[k]
        {
          keys := keys[i := keys[i].(enabled := false)];
          i := i + 1;
        }
        assert keys == Disabled(ring.keys);
      }
      keys := keys + [Ref(key.keyId, path, true)];
      var f := ring.(keys := keys, activeKeyId := key.keyId);
      ok := Validate(f);
      if !ok { return; }
      ring := f.(keys := SortById(f.keys));
    }
  }

  /**
   * Which rotations take effect: those of a valid ring to a key with an id that is not blank and not in
   * the ring yet, under a path that is not blank. Any other rotation of a valid ring has replaced the
   * file at that path, and nothing else.
   */
  lemma RotatedExactly(s: Store, r: Rotation)
    requires ValidRing(s.ring)
    ensures var s' := Rotated(s, r);
            && s'.files == s.files[r.path := r.key]
            && (if !AllSpace(r.key.keyId) && !AllSpace(r.path)
                   && forall q :: q in s.ring.keys ==> q.keyId != r.key.keyId
                then s'.ring.activeKeyId == r.key.keyId && ValidRing(s'.ring) && |s'.ring.keys| == |s.ring.keys| + 1
                else s'.ring == s.ring)
  {
    hide Trimmed, AllSpace, SortById;
    BlankExactly(r.key.keyId);
    BlankExactly(r.path);
    var f := Extended(s.ring, r.key, r.path, r.disableOld);
    ExtendedAt(s.ring, r);
    assert f.keys[|s.ring.keys|] == Ref(r.key.keyId, r.path, true);
    if ValidRing(f) {
      forall q | q in s.ring.keys ensures q.keyId != r.key.keyId {
        var i :| 0 <= i < |s.ring.keys| && s.ring.keys[i] == q;
        assert f.keys[i].keyId != f.keys[|s.ring.keys|].keyId;
      }
      SortedIsValid(f);
    } else if !Blank(r.key.keyId) && !Blank(r.path) {
      assert f.keys[|s.ring.keys|] in f.keys;
      assert exists i :: 0 <= i < |s.ring.keys| && s.ring.keys[i].keyId == r.key.keyId by { ExtendedValid(s.ring, r); }
      var i :| 0 <= i < |s.ring.keys| && s.ring.keys[i].keyId == r.key.keyId;
      assert s.ring.keys[i] in s.ring.keys;
    }
  }

  lemma ExtendedAt(f: RingFile, r: Rotation)
    ensures var g := Extended(f, r.key, r.path, r.disableOld);
            && |g.keys| == |f.keys| + 1 && g.keys[|f.keys|] == Ref(r.key.keyId, r.path, true)
            && forall i :: 0 <= i < |f.keys| ==> g.keys[i].keyId == f.keys[i].keyId && g.keys[i].path == f.keys[i].path
  {
  }

  lemma ExtendedValid(f: RingFile, r: Rotation)
    requires ValidRing(f) && !Blank(r.key.keyId) && !Blank(r.path)
    requires !ValidRing(Extended(f, r.key, r.path, r.disableOld))
    ensures exists i :: 0 <= i < |f.keys| && f.keys[i].keyId == r.key.keyId
  {
    hide Blank;
    var g := Extended(f, r.key, r.path, r.disableOld);
    ExtendedAt(f, r);
    assert g.keys[|f.keys|] in g.keys;
    forall q | q in g.keys ensures Usable(q) {
      var i :| 0 <= i < |g.keys| && g.keys[i] == q;
      if i < |f.keys| { assert f.keys[i] in f.keys; }
    }
    assert ActiveEnabled(g);
  }

  lemma SortedIsValid(f: RingFile)
    requires ValidRing(f)
    ensures ValidRing(f.(keys := SortById(f.keys))) && |SortById(f.keys)| == |f.keys|
  {
    hide Blank;
    var sorted := SortById(f.keys);
    RingIsSorted(f.keys);
    Rearranged(f.keys, sorted);
    assert DistinctKeys(IdOf, f.keys) by {
      forall i, j | 0 <= i < j < |f.keys| ensures IdOf(f.keys[i]) != IdOf(f.keys[j]) {
      }
    }
    KeysStayDistinct(IdOf, f.keys, sorted);
    forall i, j | 0 <= i < j < |sorted| ensures sorted[i].keyId != sorted[j].keyId {
      assert IdOf(sorted[i]) != IdOf(sorted[j]);
    }
  }

  // ---- Any number of rotations ----

  /** The first rotation stands for the keyring's creation; each later one is a call of Rotate. */
  function After(rots: seq<Rotation>): Store
    requires rots != []
  {
    var last := rots[|rots| - 1];
    if |rots| == 1 then Created(last.key, last.path) else Rotated(After(rots[..|rots| - 1]), last)
  }

  /** Ids and paths are usable and new each time. */
  predicate Fresh(rots: seq<Rotation>) {
    && (forall i :: 0 <= i < |rots| ==> !Blank(rots[i].key.keyId) && !Blank(rots[i].path))
    && (forall i, j :: 0 <= i < j < |rots| ==> rots[i].key.keyId != rots[j].key.keyId && rots[i].path != rots[j].path)
  }

  /** No rotation after the j-th disabled the old keys. */
  predicate Kept(rots: seq<Rotation>, j: nat) {
    forall i :: j < i < |rots| ==> !rots[i].disableOld
  }

  /** The reference to the j-th key: enabled as long as no rotation after it disabled the old ones. */
  function RefOf(rots: seq<Rotation>, j: nat): Ref
    requires j < |rots|
  {
    Ref(rots[j].key.keyId, rots[j].path, Kept(rots, j))
  }

  ghost predicate HasAll(keys: seq<Ref>, rots: seq<Rotation>) {
    forall j :: 0 <= j < |rots| ==> RefOf(rots, j) in keys
  }

  ghost predicate HasOnly(keys: seq<Ref>, rots: seq<Rotation>) {
    forall r :: r in keys ==> exists j :: 0 <= j < |rots| && r == RefOf(rots, j)
  }

  ghost predicate HasFiles(files: KeyFiles, rots: seq<Rotation>) {
    forall j :: 0 <= j < |rots| ==> rots[j].path in files && files[rots[j].path] == rots[j].key
  }

  /** Exactly the keys ever made are in the ring, and their files are there. */
  ghost predicate Tracks(s: Store, rots: seq<Rotation>) {
    && s.ring.version && rots != [] && s.ring.activeKeyId == rots[|rots| - 1].key.keyId
    && DistinctIds(s.ring.keys) && HasAll(s.ring.keys, rots) && HasOnly(s.ring.keys, rots)
    && HasFiles(s.files, rots)
  }

  lemma TrackedIsValid(s: Store, rots: seq<Rotation>)
    requires Tracks(s, rots) && Fresh(rots)
    ensures ValidRing(s.ring) && AllLoadable(s.files, s.ring.keys)
  {
    var n := |rots| - 1;
    assert Kept(rots, n);
    assert RefOf(rots, n) in s.ring.keys;
  }

  /** Which of the keys are enabled after one more rotation. */
  lemma KeptOneMore(rots: seq<Rotation>, last: Rotation, j: nat)
    requires j <= |rots|
    ensures Kept(rots + [last], j) <==> j == |rots| || (Kept(rots, j) && !last.disableOld)
  {
    var more := rots + [last];
    if Kept(more, j) && j < |rots| {
      assert !more[|rots|].disableOld;
      forall i | j < i < |rots| ensures !rots[i].disableOld { assert more[i] == rots[i]; }
    }
  }

  lemma RefOneMore(rots: seq<Rotation>, last: Rotation, j: nat)
    requires j <= |rots|
    ensures RefOf(rots + [last], j) == if j < |rots| then Aged(RefOf(rots, j), last.disableOld)
        else Ref(last.key.keyId, last.path, true)
  {
    KeptOneMore(rots, last, j);
  }

  /** A reference after a rotation. */
  function Aged(r: Ref, disableOld: bool): Ref {
    r.(enabled := r.enabled && !disableOld)
  }

  function AgedAll(keys: seq<Ref>, disableOld: bool): seq<Ref> {
    if disableOld then Disabled(keys) else keys
  }

  lemma AgedAt(keys: seq<Ref>, disableOld: bool)
    ensures |AgedAll(keys, disableOld)| == |keys|
    ensures forall i :: 0 <= i < |keys| ==> AgedAll(keys, disableOld)[i] == Aged(keys[i], disableOld)
  {
  }

  lemma ExtendedHasAll(keys: seq<Ref>, rots: seq<Rotation>, last: Rotation)
    requires HasAll(keys, rots)
    ensures HasAll(AgedAll(keys, last.disableOld) + [Ref(last.key.keyId, last.path, true)], rots + [last])
  {
    hide RefOf, Kept, Aged, AgedAll;
    AgedAt(keys, last.disableOld);
    var after := AgedAll(keys, last.disableOld) + [Ref(last.key.keyId, last.path, true)];
    forall j | 0 <= j <= |rots| ensures RefOf(rots + [last], j) in after {
      RefOneMore(rots, last, j);
      if j < |rots| {
        var i :| 0 <= i < |keys| && keys[i] == RefOf(rots, j);
        assert after[i] == Aged(keys[i], last.disableOld);
      } else {
        assert after[|keys|] == RefOf(rots + [last], j);
      }
    }
  }

  lemma ExtendedHasOnly(keys: seq<Ref>, rots: seq<Rotation>, last: Rotation)
    requires HasOnly(keys, rots)
    ensures HasOnly(AgedAll(keys, last.disableOld) + [Ref(last.key.keyId, last.path, true)], rots + [last])
  {
    hide RefOf, Kept, Aged, AgedAll;
    AgedAt(keys, last.disableOld);
    var after := AgedAll(keys, last.disableOld) + [Ref(last.key.keyId, last.path, true)];
    forall i | 0 <= i < |after| ensures exists j :: 0 <= j < |rots + [last]| && after[i] == RefOf(rots + [last], j) {
      if i < |keys| {
        assert keys[i] in keys;
        var j :| 0 <= j < |rots| && keys[i] == RefOf(rots, j);
        RefOneMore(rots, last, j);
        assert j < |rots + [last]| && after[i] == RefOf(rots + [last], j);
      } else {
        RefOneMore(rots, last, |rots|);
        assert |rots| < |rots + [last]| && after[i] == RefOf(rots + [last], |rots|);
      }
    }
  }

  lemma ExtendedDistinct(keys: seq<Ref>, rots: seq<Rotation>, last: Rotation)
    requires DistinctIds(keys) && HasOnly(keys, rots) && Fresh(rots + [last])
    ensures DistinctIds(AgedAll(keys, last.disableOld) + [Ref(last.key.keyId, last.path, true)])
  {
    AgedAt(keys, last.disableOld);
    var after := AgedAll(keys, last.disableOld) + [Ref(last.key.keyId, last.path, true)];
    var more := rots + [last];
    forall i | 0 <= i < |keys| ensures keys[i].keyId != last.key.keyId {
      assert keys[i] in keys;
      var j :| 0 <= j < |rots| && keys[i] == RefOf(rots, j);
      assert more[j].key.keyId != more[|rots|].key.keyId;
    }
    forall i | 0 <= i < |keys| ensures after[i].keyId == keys[i].keyId {
      assert after[i] == AgedAll(keys, last.disableOld)[i];
    }
  }

  lemma ExtendedHasFiles(files: KeyFiles, rots: seq<Rotation>, last: Rotation)
    requires HasFiles(files, rots) && Fresh(rots + [last])
    ensures HasFiles(files[last.path := last.key], rots + [last])
  {
    var more := rots + [last];
    forall j | 0 <= j < |rots| ensures more[j].path != last.path {
      assert more[j].path != more[|rots|].path;
    }
  }

  /** The extended ring, before it is sorted. */
  lemma ExtendedTracks(s: Store, rots: seq<Rotation>, last: Rotation)
    requires Tracks(s, rots) && Fresh(rots + [last])
    ensures Tracks(Store(s.files[last.path := last.key], Extended(s.ring, last.key, last.path, last.disableOld)),
        rots + [last])
  {
    hide HasAll, HasOnly, HasFiles, DistinctIds, Fresh;
    ExtendedHasAll(s.ring.keys, rots, last);
    ExtendedHasOnly(s.ring.keys, rots, last);
    ExtendedDistinct(s.ring.keys, rots, last);
    ExtendedHasFiles(s.files, rots, last);
  }

  lemma SortTracks(s: Store, rots: seq<Rotation>)
    requires Tracks(s, rots)
    ensures Tracks(s.(ring := s.ring.(keys := SortById(s.ring.keys))), rots)
  {
    var sorted := SortById(s.ring.keys);
    RingIsSorted(s.ring.keys);
    Rearranged(s.ring.keys, sorted);
    KeysStayDistinct(IdOf, s.ring.keys, sorted);
    assert forall i :: 0 <= i < |sorted| ==> IdOf(sorted[i]) == sorted[i].keyId;
  }

  lemma {:induction false} RotationsTrack(rots: seq<Rotation>)
    requires rots != [] && Fresh(rots)
    ensures Tracks(After(rots), rots)
  {
    var n := |rots| - 1;
    if n > 0 {
      hide Tracks, ValidRing, Extended, Fresh;
      var before, last := rots[..n], rots[n];
      assert rots == before + [last];
      assert Fresh(before) by { FreshBefore(rots, n); }
      RotationsTrack(before);
      var s := After(before);
      TrackedIsValid(s, before);
      ExtendedTracks(s, before, last);
      var t := Store(s.files[last.path := last.key], Extended(s.ring, last.key, last.path, last.disableOld));
      TrackedIsValid(t, rots);
      SortTracks(t, rots);
    } else {
      assert Kept(rots, 0) && After(rots).ring.keys == [RefOf(rots, 0)];
      assert RefOf(rots, 0) in After(rots).ring.keys;
    }
  }

  lemma FreshBefore(rots: seq<Rotation>, n: nat)
    requires Fresh(rots) && n <= |rots|
    ensures Fresh(rots[..n])
  {
  }

  lemma NotBlank(rots: seq<Rotation>, j: nat)
    requires Fresh(rots) && j < |rots|
    ensures rots[j].key.keyId != []
  {
    assert !Blank(rots[j].key.keyId);
  }

  /**
   * After any number of rotations, an artifact that was sealed under the j-th key reads back exactly if
   * no rotation since then disabled the old keys; the newest key's always does.
   */
  lemma ReadableExactly(rots: seq<Rotation>, k: Keyring, j: nat, nonce: Bytes, plain: Bytes, ad: Bytes)
    requires j < |rots| && Fresh(rots) && Loads(After(rots).files, After(rots).ring, k)
    requires Correct(rots[j].key.aead) && |rots[j].key.keyId| < 0x1_0000 && |nonce| == NONCE_SIZE
    ensures var artifact := Layout(rots[j].key.keyId, nonce, rots[j].key.aead.seal(nonce, plain, ad));
            Read(k, artifact, ad) == if Kept(rots, j) then Some(plain) else None
  {
    hide After, Correct, Fresh, Kept;
    RotationsTrack(rots);
    var s, key := After(rots), rots[j].key;
    var artifact := Layout(key.keyId, nonce, key.aead.seal(nonce, plain, ad));
    RoundTrip(key, nonce, plain, ad);
    NotBlank(rots, j);
    ParsersAgreeExactly(key, artifact, ad);
    var ref := RefOf(rots, j);
    assert ref in s.ring.keys;
    if key.keyId in k.keys {
      var r :| r in s.ring.keys && r.enabled && r.keyId == key.keyId;
      SameIdSameRef(s.ring.keys, r, ref);
    }
  }

  /** The ring can always be loaded, and writes with the newest key. */
  lemma NewestWrites(rots: seq<Rotation>, k: Keyring)
    requires rots != [] && Fresh(rots) && Loads(After(rots).files, After(rots).ring, k)
    ensures ValidRing(After(rots).ring) && AllLoadable(After(rots).files, After(rots).ring.keys)
    ensures k.active == rots[|rots| - 1].key && Kept(rots, |rots| - 1)
  {
    hide After;
    RotationsTrack(rots);
    TrackedIsValid(After(rots), rots);
    var n := |rots| - 1;
    assert RefOf(rots, n) in After(rots).ring.keys;
  }
}
