/** The export of an archive from the store, and exactly when a verification accepts what it wrote. */
module FuturepackExport {
  import opened Wrappers
  import opened Sorting
  import opened Text
  import opened Futurepack
  import opened FuturepackArchive

  predicate ByPath(a: Ref, b: Ref) {
    Less(a.path, b.path)
  }

  /** The manifest as it is written: its references in the order of their paths. */
  function Arranged(m: Manifest): Manifest {
    m.(artifacts := SortBy(ByPath, m.artifacts))
  }

  lemma ArrangedIsSorted(m: Manifest)
    ensures multiset(Arranged(m).artifacts) == multiset(m.artifacts)
    ensures Arranged(m) == m.(artifacts := Arranged(m).artifacts) && |Arranged(m).artifacts| == |m.artifacts|
    ensures forall i, j :: 0 <= i < j < |m.artifacts| ==>
              !Less(Arranged(m).artifacts[j].path, Arranged(m).artifacts[i].path)
    ensures forall r :: r in Arranged(m).artifacts <==> r in m.artifacts
  {
    forall a, b | ByPath(a, b) ensures !ByPath(b, a) { LessIsAsymmetric(a.path, b.path); }
    forall a, b, c | !ByPath(b, a) && !ByPath(c, b) ensures !ByPath(c, a) { LessCarriesOver(a.path, b.path, c.path); }
    SortOrders(ByPath, m.artifacts);
    SortKeeps(ByPath, m.artifacts);
    Rearranged(m.artifacts, Arranged(m).artifacts);
    var refs := Arranged(m).artifacts;
    forall i, j | 0 <= i < j < |refs| ensures !Less(refs[j].path, refs[i].path) { assert !ByPath(refs[j], refs[i]); }
  }

  predicate Readable(c: Codec, blobs: Blobs, refs: seq<Ref>) {
    forall r :: r in refs ==> Read(c, blobs, r).Some?
  }

  function EntryOf(c: Codec, blobs: Blobs, r: Ref): Entry
    requires Read(c, blobs, r).Some?
  {
    Entry(r.path, true, Read(c, blobs, r).value)
  }

  function BlobEntries(c: Codec, blobs: Blobs, refs: seq<Ref>): Archive
    requires Readable(c, blobs, refs)
  {
    seq(|refs|, i requires 0 <= i < |refs| => EntryOf(c, blobs, refs[i]))
  }

  predicate Complete(m: Manifest) {
    Trimmed(m.version) != "" && Trimmed(m.transaction) != ""
  }

  /** The archive: the manifest, then the blobs. Neither sizes nor repetitions are looked at. */
  function Exported(c: Codec, blobs: Blobs, m: Manifest): Option<Archive> {
    var refs := Arranged(m).artifacts;
    if !Complete(m) || !Readable(c, blobs, refs) then None
    else Some([Entry(MANIFEST, true, c.encode(Arranged(m)))] + BlobEntries(c, blobs, refs))
  }

  lemma InvalidUnread(c: Codec, blobs: Blobs, r: Ref)
    requires !ValidRef(r)
    ensures Read(c, blobs, r).None?
  {
  }

  lemma NoBlobs(c: Codec, blobs: Blobs, refs: seq<Ref>)
    ensures Readable(c, blobs, refs[..0]) && BlobEntries(c, blobs, refs[..0]) == []
  {
  }

  lemma BlobEntriesStep(c: Codec, blobs: Blobs, refs: seq<Ref>, i: nat)
    requires i < |refs| && Readable(c, blobs, refs[..i]) && Read(c, blobs, refs[i]).Some?
    ensures Readable(c, blobs, refs[..i + 1])
    ensures BlobEntries(c, blobs, refs[..i + 1]) == BlobEntries(c, blobs, refs[..i]) + [EntryOf(c, blobs, refs[i])]
  {
    hide Read;
    assert refs[..i + 1] == refs[..i] + [refs[i]];
  }

  method Export(c: Codec, blobs: Blobs, m: Manifest) returns (r: Option<Archive>)
    ensures r == Exported(c, blobs, m)
  {
    hide Read, ValidRef, SafeName, Arranged, BlobEntries;
    if Trimmed(m.version) == "" || Trimmed(m.transaction) == "" { return None; }
    var written := Arranged(m);
    var refs := written.artifacts;
    var i := 0;
    while i < |refs|
      invariant 0 <= i <= |refs|
      invariant forall k :: 0 <= k < i ==> ValidRef(refs[k])
    {
      if !ValidRef(refs[i]) {
        InvalidUnread(c, blobs, refs[i]);
        assert refs[i] in refs;
        return None;
      }
      i := i + 1;
    }
    var archive := [Entry(MANIFEST, true, c.encode(written))];
    assert BlobEntries(c, blobs, refs[..0]) == [] by { NoBlobs(c, blobs, refs); }
    i := 0;
    while i < |refs|
      invariant 0 <= i <= |refs|
      invariant Readable(c, blobs, refs[..i])
      invariant archive == [Entry(MANIFEST, true, c.encode(written))] + BlobEntries(c, blobs, refs[..i])
    {
      var blob := Read(c, blobs, refs[i]);
      if blob.None? {
        assert refs[i] in refs;
        return None;
      }
      BlobEntriesStep(c, blobs, refs, i);
      archive := archive + [Entry(refs[i].path, true, blob.value)];
      i := i + 1;
    }
    assert refs[..i] == refs;
    r := Some(archive);
  }

  /** An export succeeds exactly if nothing is blank and the store has every blob, under its digest. */
  lemma ExportSucceedsExactly(c: Codec, blobs: Blobs, m: Manifest)
    ensures Exported(c, blobs, m).Some? <==>
              && !AllSpace(m.version) && !AllSpace(m.transaction)
              && forall r :: r in m.artifacts ==> ValidRef(r) && r.path in blobs && c.sha(blobs[r.path]) == r.sha
  {
    hide ValidRef, Arranged, Trimmed;
    BlankExactly(m.version);
    BlankExactly(m.transaction);
    ArrangedIsSorted(m);
  }

  /** What an export has to be given for its result to be accepted. */
  predicate Fits(c: Codec, blobs: Blobs, m: Manifest)
    requires Readable(c, blobs, m.artifacts)
  {
    && DistinctKeys(ShaOf, m.artifacts)
    && |c.encode(Arranged(m))| <= MAX_ENTRY
    && forall r :: r in m.artifacts ==> r.size == |Read(c, blobs, r).value| <= MAX_ENTRY
  }

  lemma ExportedAt(c: Codec, blobs: Blobs, m: Manifest)
    requires Exported(c, blobs, m).Some?
    ensures var archive, refs := Exported(c, blobs, m).value, Arranged(m).artifacts;
            && Readable(c, blobs, refs) && |archive| == 1 + |refs|
            && archive[0] == Entry(MANIFEST, true, c.encode(Arranged(m)))
            && forall i :: 0 < i < |archive| ==> archive[i] == EntryOf(c, blobs, refs[i - 1])
  {
    hide Read, Arranged;
  }

  /** The entries of an exported archive: the manifest, and one for each reference. */
  lemma ExportedEntries(c: Codec, blobs: Blobs, m: Manifest)
    requires Exported(c, blobs, m).Some?
    ensures var archive := Exported(c, blobs, m).value;
            && Readable(c, blobs, m.artifacts)
            && archive[0] == Entry(MANIFEST, true, c.encode(Arranged(m)))
            && |archive| == 1 + |Arranged(m).artifacts|
            && (forall i :: 0 < i < |archive| ==> archive[i] == EntryOf(c, blobs, Arranged(m).artifacts[i - 1]))
            && (forall e :: e in archive <==> e == archive[0] || exists r :: r in m.artifacts && e == EntryOf(c, blobs, r))
  {
    hide Read, Arranged, Exported, EntryOf;
    ArrangedIsSorted(m);
    ExportedAt(c, blobs, m);
    var archive := Exported(c, blobs, m).value;
    var refs := Arranged(m).artifacts;
    forall e | e in archive ensures e == archive[0] || exists r :: r in m.artifacts && e == EntryOf(c, blobs, r) {
      var i :| 0 <= i < |archive| && archive[i] == e;
      if i > 0 { assert refs[i - 1] in m.artifacts && e == EntryOf(c, blobs, refs[i - 1]); }
    }
    forall r | r in m.artifacts ensures EntryOf(c, blobs, r) in archive {
      var i :| 0 <= i < |refs| && refs[i] == r;
      assert archive[i + 1] == EntryOf(c, blobs, r);
    }
  }

  /** The names in an exported archive are distinct exactly if the digests are. */
  lemma NamesDistinctExactly(c: Codec, blobs: Blobs, m: Manifest)
    requires Exported(c, blobs, m).Some?
    ensures DistinctKeys(NameOf, Exported(c, blobs, m).value) <==> DistinctKeys(ShaOf, m.artifacts)
  {
    hide ValidRef, Read;
    var archive := Exported(c, blobs, m).value;
    var refs := Arranged(m).artifacts;
    ExportedEntries(c, blobs, m);
    ArrangedIsSorted(m);
    forall r | r in refs ensures ValidRef(r) && r.path != MANIFEST { ReadIsValid(c, blobs, r); PathIsNotManifest(r); }
    if DistinctKeys(ShaOf, m.artifacts) {
      KeysStayDistinct(ShaOf, m.artifacts, refs);
      PathsAreDistinct(refs);
      forall i, j | 0 <= i < j < |archive| ensures NameOf(archive[i]) != NameOf(archive[j]) {
        assert refs[j - 1] in refs;
        if i > 0 { assert PathKey(refs[i - 1]) != PathKey(refs[j - 1]); }
      }
    }
    if DistinctKeys(NameOf, archive) {
      forall i, j | 0 <= i < j < |refs| ensures ShaOf(refs[i]) != ShaOf(refs[j]) {
        assert NameOf(archive[i + 1]) != NameOf(archive[j + 1]);
        assert refs[i] in refs && refs[j] in refs;
        SameDigestSamePath(refs[i], refs[j]);
      }
      KeysStayDistinct(ShaOf, refs, m.artifacts);
    }
  }

  lemma ReadIsValid(c: Codec, blobs: Blobs, r: Ref)
    requires Read(c, blobs, r).Some?
    ensures ValidRef(r) && c.sha(Read(c, blobs, r).value) == r.sha
  {
    hide SafeName;
  }

  lemma SameDigestSamePath(r: Ref, s: Ref)
    requires ValidRef(r) && ValidRef(s)
    ensures r.sha == s.sha ==> r.path == s.path
  {
    hide SafeName;
  }

  /** A reference is backed in the archive exactly if its size is right, given that names are distinct. */
  lemma BackedInExport(c: Codec, blobs: Blobs, m: Manifest, r: Ref)
    requires Exported(c, blobs, m).Some? && DistinctKeys(NameOf, Exported(c, blobs, m).value) && r in m.artifacts
    ensures Readable(c, blobs, m.artifacts)
    ensures HoldsBlob(c, Exported(c, blobs, m).value, r) <==> r.size == |Read(c, blobs, r).value|
  {
    hide ValidRef, Read, Exported;
    var archive := Exported(c, blobs, m).value;
    ExportedEntries(c, blobs, m);
    ReadIsValid(c, blobs, r);
    var e := EntryOf(c, blobs, r);
    assert e in archive;
    forall d | d in archive && d.name == r.path ensures d == e { OneEntryAName(archive, d, e); }
  }

  /**
   * What an export wrote is accepted, with the manifest whose references are sorted by path, exactly if
   * digests are distinct, sizes are the blobs' and no entry is too large.
   */
  lemma ExportVerifiesExactly(c: Codec, blobs: Blobs, m: Manifest)
    requires Sound(c) && Exported(c, blobs, m).Some?
    ensures Readable(c, blobs, m.artifacts)
    ensures Accepts(c, Exported(c, blobs, m).value, Arranged(m)) <==> Fits(c, blobs, m)
  {
    hide ValidRef, Read, Exported, HoldsBlob, SafeName;
    var archive := Exported(c, blobs, m).value;
    ExportedEntries(c, blobs, m);
    ArrangedIsSorted(m);
    NamesDistinctExactly(c, blobs, m);
    EntriesOkExactly(c, blobs, m);
    ManifestIsHeld(c, blobs, m);
    if DistinctKeys(NameOf, archive) {
      forall r | r in m.artifacts
        ensures HoldsBlob(c, archive, r) <==> r.size == |Read(c, blobs, r).value|
        ensures ValidRef(r) && r.path != MANIFEST
      {
        BackedInExport(c, blobs, m, r);
        ReadIsValid(c, blobs, r);
        PathIsNotManifest(r);
      }
      KeysStayDistinct(ShaOf, m.artifacts, Arranged(m).artifacts);
    }
    assert NothingElse(archive, Arranged(m).artifacts) by { NothingElseWritten(c, blobs, m); }
  }

  lemma EntriesOkExactly(c: Codec, blobs: Blobs, m: Manifest)
    requires Sound(c) && Exported(c, blobs, m).Some?
    ensures Readable(c, blobs, m.artifacts)
    ensures (forall e :: e in Exported(c, blobs, m).value ==> EntryOk(e)) <==>
              |c.encode(Arranged(m))| <= MAX_ENTRY && forall r :: r in m.artifacts ==>
                  |Read(c, blobs, r).value| <= MAX_ENTRY
  {
    hide Read, Exported, SafeName, Sound;
    var archive := Exported(c, blobs, m).value;
    ExportedEntries(c, blobs, m);
    ManifestNameIsSafe();
    forall r | r in m.artifacts ensures EntryOf(c, blobs, r) in archive && SafeName(r.path) {
      ReadIsValid(c, blobs, r);
    }
    assert archive[0] in archive;
  }

  lemma ManifestNameIsSafe()
    ensures SafeName(MANIFEST)
  {
    PartEnds(MANIFEST, 0, 13);
    assert MANIFEST[0..13] == MANIFEST && MANIFEST[0] == 'm';
  }

  lemma ManifestIsHeld(c: Codec, blobs: Blobs, m: Manifest)
    requires Sound(c) && Exported(c, blobs, m).Some?
    ensures HoldsManifest(c, Exported(c, blobs, m).value, Arranged(m))
  {
    hide Read, ValidRef;
    var archive := Exported(c, blobs, m).value;
    assert archive[0] in archive && archive[0].name == MANIFEST && c.decode(archive[0].payload) == Some(Arranged(m));
    assert Trimmed("") == "";
  }

  lemma NothingElseWritten(c: Codec, blobs: Blobs, m: Manifest)
    requires Exported(c, blobs, m).Some?
    ensures NothingElse(Exported(c, blobs, m).value, Arranged(m).artifacts)
  {
    hide Read, ValidRef, Exported;
    ExportedEntries(c, blobs, m);
    ArrangedIsSorted(m);
  }

  /** References of blobs that were put, without repetition and not too large, survive export and verification. */
  lemma StoredRefsRoundTrip(c: Codec, puts: seq<PutCall>, m: Manifest, payloads: seq<Bytes>)
    requires Sound(c) && Complete(m) && |payloads| == |m.artifacts| && DistinctKeys(ShaOf, m.artifacts)
    requires forall i :: 0 <= i < |payloads| ==>
               && ValidRef(m.artifacts[i]) && m.artifacts[i].sha == c.sha(payloads[i])
                   && m.artifacts[i].size == |payloads[i]| <= MAX_ENTRY
               && m.artifacts[i].path in Stored(c, puts) && Stored(c, puts)[m.artifacts[i].path] == payloads[i]
    requires |c.encode(Arranged(m))| <= MAX_ENTRY
    ensures Exported(c, Stored(c, puts), m).Some?
    ensures Accepts(c, Exported(c, Stored(c, puts), m).value, Arranged(m))
  {
    hide SafeName, Sound, Stored, Arranged, Accepts, IsDigest;
    var blobs := Stored(c, puts);
    ArrangedIsSorted(m);
    forall r | r in m.artifacts ensures Read(c, blobs, r).Some? && r.size == |Read(c, blobs, r).value| <= MAX_ENTRY {
      var i :| 0 <= i < |m.artifacts| && m.artifacts[i] == r;
    }
    ExportVerifiesExactly(c, blobs, m);
  }
}
