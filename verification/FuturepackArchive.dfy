/** The portable archive: what an export writes, what a verification accepts, and how the two fit. */
module FuturepackArchive {
  import opened Wrappers
  import opened Sorting
  import opened Futurepack

  datatype Entry = Entry(name: string, regular: bool, payload: Bytes)

  type Archive = seq<Entry>

  // ---- What is accepted ----

  function NameOf(e: Entry): string { e.name }

  function ShaOf(r: Ref): string { r.sha }

  predicate EntryOk(e: Entry) {
    SafeName(e.name) && e.regular && |e.payload| <= MAX_ENTRY
  }

  predicate EntriesOk(archive: Archive) {
    (forall e :: e in archive ==> EntryOk(e)) && DistinctKeys(NameOf, archive)
  }

  predicate HoldsManifest(c: Codec, archive: Archive, m: Manifest) {
    && m.version != "" && m.transaction != ""
    && exists e :: e in archive && e.name == MANIFEST && c.decode(e.payload) == Some(m)
  }

  /** The archive holds a blob at the reference's path, with its digest and its size. */
  predicate HoldsBlob(c: Codec, archive: Archive, r: Ref) {
    exists e :: e in archive && e.name == r.path && c.sha(e.payload) == r.sha && |e.payload| == r.size
  }

  predicate RefsOk(c: Codec, archive: Archive, refs: seq<Ref>) {
    DistinctKeys(ShaOf, refs) && forall r :: r in refs ==> ValidRef(r) && r.path != MANIFEST && HoldsBlob(c, archive, r)
  }

  predicate NothingElse(archive: Archive, refs: seq<Ref>) {
    forall e :: e in archive ==> e.name == MANIFEST || exists r :: r in refs && r.path == e.name
  }

  predicate Accepts(c: Codec, archive: Archive, m: Manifest) {
    EntriesOk(archive) && HoldsManifest(c, archive, m) && RefsOk(c, archive, m.artifacts)
        && NothingElse(archive, m.artifacts)
  }

  lemma PathIsNotManifest(r: Ref)
    requires ValidRef(r)
    ensures r.path != MANIFEST
  {
    assert r.path[0] == 'a' && MANIFEST[0] == 'm';
  }

  lemma OneEntryAName(archive: Archive, d: Entry, e: Entry)
    requires DistinctKeys(NameOf, archive) && d in archive && e in archive && d.name == e.name
    ensures d == e
  {
    var i :| 0 <= i < |archive| && archive[i] == d;
    var j :| 0 <= j < |archive| && archive[j] == e;
    assert NameOf(archive[i]) == NameOf(archive[j]);
    assert i == j;
  }

  /** An archive is accepted with one manifest only. */
  lemma OneManifest(c: Codec, archive: Archive, m: Manifest, n: Manifest)
    requires DistinctKeys(NameOf, archive) && HoldsManifest(c, archive, m) && HoldsManifest(c, archive, n)
    ensures m == n
  {
    var d :| d in archive && d.name == MANIFEST && c.decode(d.payload) == Some(m);
    var e :| e in archive && e.name == MANIFEST && c.decode(e.payload) == Some(n);
    OneEntryAName(archive, d, e);
  }

  // ---- Verification as the archive is read ----

  /** What the pass over the entries collects. */
  datatype Contents = Contents(seen: set<string>, blobs: Blobs, manifest: Option<Manifest>)

  ghost predicate Collected(c: Codec, archive: Archive, x: Contents) {
    && EntriesOk(archive)
    && (forall name :: name in x.seen <==> exists e :: e in archive && e.name == name)
    && (forall name :: name in x.blobs ==> name != MANIFEST && Entry(name, true, x.blobs[name]) in archive)
    && (forall e :: e in archive && e.name != MANIFEST ==> e.name in x.blobs && x.blobs[e.name] == e.payload)
    && (x.manifest.None? ==> forall e :: e in archive ==> e.name != MANIFEST)
    && (x.manifest.Some? ==> exists e :: e in archive && e.name == MANIFEST && c.decode(e.payload) == x.manifest)
  }

  lemma CollectOne(c: Codec, before: Archive, e: Entry, x: Contents)
    requires Collected(c, before, x) && EntryOk(e) && e.name !in x.seen
    requires e.name == MANIFEST ==> c.decode(e.payload).Some?
    ensures var y := if e.name == MANIFEST then Contents(x.seen + {e.name}, x.blobs, c.decode(e.payload))
                     else Contents(x.seen + {e.name}, x.blobs[e.name := e.payload], x.manifest);
            Collected(c, before + [e], y)
  {
    hide SafeName;
    var after := before + [e];
    forall d ensures d in after <==> d in before || d == e {
    }
    forall i, j | 0 <= i < j < |after| ensures NameOf(after[i]) != NameOf(after[j]) {
      assert after[i] in before;
      if j < |before| { assert NameOf(before[i]) != NameOf(before[j]); }
    }
    assert e == Entry(e.name, true, e.payload);
  }

  lemma PrefixOk(archive: Archive, i: nat)
    requires i < |archive|
    ensures archive[..i + 1] == archive[..i] + [archive[i]]
    ensures forall e :: e in archive[..i] ==> e in archive
  {
  }

  method ReadEntries(c: Codec, archive: Archive) returns (r: Option<Contents>)
    ensures r.Some? ==> Collected(c, archive, r.value)
    ensures r.None? ==> forall m :: !Accepts(c, archive, m)
  {
    hide SafeName, RefsOk, NothingElse;
    var x := Contents({}, map[], None);
    var i := 0;
    while i < |archive|
      invariant 0 <= i <= |archive|
      invariant Collected(c, archive[..i], x)
    {
      var e := archive[i];
      PrefixOk(archive, i);
      if !SafeName(e.name) || !e.regular || |e.payload| > MAX_ENTRY {
        assert !EntryOk(e) && e in archive;
        return None;
      }
      if e.name in x.seen {
        var d :| d in archive[..i] && d.name == e.name;
        var k :| 0 <= k < i && archive[k] == d;
        assert NameOf(archive[k]) == NameOf(archive[i]);
        return None;
      }
      if e.name == MANIFEST && c.decode(e.payload).None? {
        NoManifest(c, archive, e);
        return None;
      }
      CollectOne(c, archive[..i], e, x);
      x := if e.name == MANIFEST then Contents(x.seen + {e.name}, x.blobs, c.decode(e.payload))
           else Contents(x.seen + {e.name}, x.blobs[e.name := e.payload], x.manifest);
      i := i + 1;
    }
    assert archive[..i] == archive;
    r := Some(x);
  }

  lemma NoManifest(c: Codec, archive: Archive, e: Entry)
    requires e in archive && e.name == MANIFEST && c.decode(e.payload).None?
    ensures forall m :: !Accepts(c, archive, m)
  {
    hide SafeName, RefsOk, NothingElse;
    forall m ensures !Accepts(c, archive, m) {
      if DistinctKeys(NameOf, archive) && HoldsManifest(c, archive, m) {
        var d :| d in archive && d.name == MANIFEST && c.decode(d.payload) == Some(m);
        OneEntryAName(archive, d, e);
      }
    }
  }

  /** Given what was collected, a reference is backed exactly if its blob is there and fits. */
  lemma BackedExactly(c: Codec, archive: Archive, x: Contents, r: Ref)
    requires Collected(c, archive, x) && r.path != MANIFEST
    ensures HoldsBlob(c, archive, r) <==>
              r.path in x.blobs && c.sha(x.blobs[r.path]) == r.sha && |x.blobs[r.path]| == r.size
  {
    hide SafeName, EntriesOk;
    if r.path in x.blobs {
      assert Entry(r.path, true, x.blobs[r.path]) in archive;
    }
  }

  method CheckRefs(c: Codec, ghost archive: Archive, x: Contents, refs: seq<Ref>)
      returns (expected: Option<set<string>>)
    requires Collected(c, archive, x)
    ensures expected.Some? <==> RefsOk(c, archive, refs)
    ensures expected.Some? ==> forall name :: name in expected.value <==> name == MANIFEST || exists r :: r in refs && r.path == name
  {
    hide SafeName, Collected, HoldsBlob;
    var names := {MANIFEST};
    var digests: set<string> := {};
    var i := 0;
    while i < |refs|
      invariant 0 <= i <= |refs|
      invariant digests == set k | 0 <= k < i :: refs[k].sha
      invariant DistinctKeys(ShaOf, refs[..i])
      invariant forall k :: 0 <= k < i ==>
          ValidRef(refs[k]) && refs[k].path != MANIFEST && HoldsBlob(c, archive, refs[k])
      invariant forall name :: name in names <==> name == MANIFEST || exists k :: 0 <= k < i && refs[k].path == name
    {
      var r := refs[i];
      if r.sha in digests {
        var k :| 0 <= k < i && refs[k].sha == r.sha;
        assert ShaOf(refs[k]) == ShaOf(refs[i]);
        return None;
      }
      digests := digests + {r.sha};
      if !ValidRef(r) {
        assert r in refs;
        return None;
      }
      PathIsNotManifest(r);
      BackedExactly(c, archive, x, r);
      names := names + {r.path};
      if r.path !in x.blobs || c.sha(x.blobs[r.path]) != r.sha || |x.blobs[r.path]| != r.size {
        assert r in refs;
        return None;
      }
      DistinctOneMore(ShaOf, refs, i);
      i := i + 1;
    }
    assert refs[..i] == refs;
    expected := Some(names);
  }

  /** Verification returns the manifest of an archive that is accepted, and of no other. */
  method VerifyArchive(c: Codec, archive: Archive) returns (r: Option<Manifest>)
    ensures r.Some? ==> Accepts(c, archive, r.value)
    ensures r.None? ==> forall m :: !Accepts(c, archive, m)
  {
    hide SafeName, EntriesOk, RefsOk;
    var contents := ReadEntries(c, archive);
    if contents.None? { return None; }
    var x := contents.value;
    if x.manifest.None? || x.manifest.value.version == "" || x.manifest.value.transaction == "" {
      Incomplete(c, archive, x);
      return None;
    }
    var m := x.manifest.value;
    OnlyThis(c, archive, x);
    var expected := CheckRefs(c, archive, x, m.artifacts);
    if expected.None? { return None; }
    if !(x.seen <= expected.value) {
      var name :| name in x.seen && name !in expected.value;
      var e :| e in archive && e.name == name;
      assert !NothingElse(archive, m.artifacts);
      return None;
    }
    forall e | e in archive ensures e.name == MANIFEST || exists q :: q in m.artifacts && q.path == e.name {
      assert e.name in x.seen && e.name in expected.value;
    }
    r := Some(m);
  }

  lemma Incomplete(c: Codec, archive: Archive, x: Contents)
    requires Collected(c, archive, x)
    requires x.manifest.None? || x.manifest.value.version == "" || x.manifest.value.transaction == ""
    ensures forall m :: !HoldsManifest(c, archive, m)
  {
    hide SafeName;
    if x.manifest.Some? {
      var d :| d in archive && d.name == MANIFEST && c.decode(d.payload) == x.manifest;
      forall e | e in archive && e.name == MANIFEST ensures e == d { OneEntryAName(archive, e, d); }
    }
  }

  lemma OnlyThis(c: Codec, archive: Archive, x: Contents)
    requires Collected(c, archive, x) && x.manifest.Some?
    requires x.manifest.value.version != "" && x.manifest.value.transaction != ""
    ensures HoldsManifest(c, archive, x.manifest.value)
    ensures forall m :: Accepts(c, archive, m) ==> m == x.manifest.value
  {
    hide SafeName, RefsOk, NothingElse;
    forall m | HoldsManifest(c, archive, m)
        ensures m == x.manifest.value { OneManifest(c, archive, m, x.manifest.value); }
  }

  /** An accepted archive holds its manifest, one blob for each reference, and nothing else. */
  lemma AcceptedIsExact(c: Codec, archive: Archive, m: Manifest)
    requires Accepts(c, archive, m)
    ensures |archive| == 1 + |m.artifacts|
    ensures forall r :: r in m.artifacts ==> HoldsBlob(c, archive, r)
  {
    hide SafeName, ValidRef, HoldsBlob;
    var refs := m.artifacts;
    var names := Keys(NameOf, archive);
    var paths := Keys(PathKey, refs);
    PathsAreDistinct(refs);
    CountKeys(NameOf, archive);
    CountKeys(PathKey, refs);
    forall name ensures name in names <==> name in paths + {MANIFEST} {
      if name in paths {
        var r :| r in refs && PathKey(r) == name;
        BlobIsThere(c, archive, r);
        var e :| e in archive && e.name == r.path;
        assert NameOf(e) == name;
      }
      if name == MANIFEST {
        var e :| e in archive && e.name == MANIFEST;
        assert NameOf(e) == name;
      }
      if name in names {
        var e :| e in archive && NameOf(e) == name;
        if name != MANIFEST {
          var r :| r in refs && r.path == e.name;
          assert PathKey(r) == name;
        }
      }
    }
    assert names == paths + {MANIFEST};
    assert MANIFEST !in paths;
  }

  lemma BlobIsThere(c: Codec, archive: Archive, r: Ref)
    requires HoldsBlob(c, archive, r)
    ensures exists e :: e in archive && e.name == r.path
  {
  }

  lemma DigestInPath(sha: string)
    requires |sha| == 64
    ensures |PathOf(sha)| == 84 && PathOf(sha)[20..] == sha
  {
  }

  /** Distinct digests have distinct paths. */
  lemma PathsAreDistinct(refs: seq<Ref>)
    requires DistinctKeys(ShaOf, refs) && forall r :: r in refs ==> ValidRef(r)
    ensures DistinctKeys(PathKey, refs)
  {
    hide SafeName;
    forall i, j | 0 <= i < j < |refs| ensures PathKey(refs[i]) != PathKey(refs[j]) {
      assert ShaOf(refs[i]) != ShaOf(refs[j]) && refs[i] in refs && refs[j] in refs;
      DigestInPath(refs[i].sha);
      DigestInPath(refs[j].sha);
    }
  }

  function PathKey(r: Ref): string { r.path }

  /** A reference says where its blob is: at the place of its digest, which is its identity. */
  lemma ValidRefExactly(r: Ref)
    ensures ValidRef(r) <==>
              && |r.sha| == 64 && r.id == r.sha && SafeName(r.path)
              && r.path == "artifacts/sha256/" + [r.sha[0], r.sha[1]] + "/" + r.sha
  {
    hide SafeName;
    assert |r.sha| == 64 ==> r.sha[..2] == [r.sha[0], r.sha[1]];
  }

  /**
   * What is accepted, in full. Of the entries: no name twice, each a regular file under a safe name, of at
   * most 64 MiB, and either the manifest or the blob of a reference. Of the references: no digest twice,
   * each valid and backed by an entry with its path, its digest and its size. And a complete manifest.
   */
  lemma AcceptedExactly(c: Codec, archive: Archive, m: Manifest)
    ensures Accepts(c, archive, m) <==>
              && (forall i, j :: 0 <= i < j < |archive| ==> archive[i].name != archive[j].name)
              && (forall e :: e in archive ==> SafeName(e.name) && e.regular && |e.payload| <= 67_108_864)
              && (forall e :: e in archive ==>
                    e.name == "manifest.json" || exists r :: r in m.artifacts && r.path == e.name)
              && (forall i, j :: 0 <= i < j < |m.artifacts| ==> m.artifacts[i].sha != m.artifacts[j].sha)
              && (forall r :: r in m.artifacts ==>
                    ValidRef(r) && exists e :: e in archive && e.name == r.path && c.sha(e.payload) == r.sha
                                               && |e.payload| == r.size)
              && m.version != "" && m.transaction != ""
              && (exists e :: e in archive && e.name == "manifest.json" && c.decode(e.payload) == Some(m))
  {
    hide SafeName, ValidRef, DistinctKeys, HoldsBlob;
    NamesDistinct(archive);
    DigestsDistinct(m.artifacts);
    forall r | r in m.artifacts
      ensures ValidRef(r) ==> r.path != MANIFEST
      ensures HoldsBlob(c, archive, r) <==>
                exists e :: e in archive && e.name == r.path && c.sha(e.payload) == r.sha && |e.payload| == r.size
    {
      if ValidRef(r) { PathIsNotManifest(r); }
      BackedBySome(c, archive, r);
    }
  }

  lemma BackedBySome(c: Codec, archive: Archive, r: Ref)
    ensures HoldsBlob(c, archive, r) <==>
              exists e :: e in archive && e.name == r.path && c.sha(e.payload) == r.sha && |e.payload| == r.size
  {
  }

  lemma NamesDistinct(archive: Archive)
    ensures DistinctKeys(NameOf, archive) <==>
              forall i, j :: 0 <= i < j < |archive| ==> archive[i].name != archive[j].name
  {
    forall i, j | 0 <= i < j < |archive|
      ensures NameOf(archive[i]) != NameOf(archive[j]) <==> archive[i].name != archive[j].name
    {
    }
  }

  lemma DigestsDistinct(refs: seq<Ref>)
    ensures DistinctKeys(ShaOf, refs) <==> forall i, j :: 0 <= i < j < |refs| ==> refs[i].sha != refs[j].sha
  {
    forall i, j | 0 <= i < j < |refs| ensures ShaOf(refs[i]) != ShaOf(refs[j]) <==> refs[i].sha != refs[j].sha {
    }
  }
}
