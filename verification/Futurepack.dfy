/** Content-addressed evidence: the blob store, the export of an archive and its verification. */
module Futurepack {
  import opened Wrappers
  import opened Text

  type Bytes = string

  datatype Ref = Ref(id: string, name: string, sha: string, size: nat, path: string)

  datatype Manifest = Manifest(version: string, transaction: string, rest: Bytes, artifacts: seq<Ref>)

  /** The digest of a blob in hexadecimal, and how a manifest is written and read. */
  datatype Codec = Codec(sha: Bytes -> string, encode: Manifest -> Bytes, decode: Bytes -> Option<Manifest>)

  ghost predicate Sound(c: Codec) {
    && (forall b :: IsDigest(c.sha(b)))
    && (forall m :: c.decode(c.encode(m)) == Some(m))
  }

  const MAX_ENTRY := 64 * 0x10_0000

  predicate HexDigit(c: char) { '0' <= c <= '9' || 'a' <= c <= 'f' }

  predicate IsDigest(s: string) {
    |s| == 64 && forall i :: 0 <= i < 64 ==> HexDigit(s[i])
  }

  // ---- Names that are safe to unpack ----

  /** No component between slashes is empty, a dot or two dots. */
  predicate CleanParts(s: string, from: nat)
    requires from <= |s|
    decreases |s| - from
  {
    var end := SlashFrom(s, from);
    var part := s[from..end];
    part != "" && part != "." && part != ".." && (end < |s| ==> CleanParts(s, end + 1))
  }

  function SlashFrom(s: string, from: nat): (end: nat)
    requires from <= |s|
    ensures from <= end <= |s| && (end < |s| ==> s[end] == '/')
    ensures forall i :: from <= i < end ==> s[i] != '/'
    decreases |s| - from
  {
    if from == |s| || s[from] == '/' then from else SlashFrom(s, from + 1)
  }

  /** What cleaning leaves alone and does not lead out of the archive. */
  predicate SafeName(s: string) {
    s == "." || s == ".." || CleanParts(s, 0)
  }

  /** A component of a name: what is between two slashes, or a slash and an end. */
  predicate Component(s: string, a: int, b: int) {
    && 0 <= a <= b <= |s| && (a == 0 || s[a - 1] == '/') && (b == |s| || s[b] == '/')
    && forall i :: a <= i < b ==> s[i] != '/'
  }

  lemma {:induction false} CleanPartsExactly(s: string, from: nat)
    requires from <= |s| && (from == 0 || s[from - 1] == '/')
    ensures CleanParts(s, from) <==>
              forall a, b :: from <= a && Component(s, a, b) ==> s[a..b] != "" && s[a..b] != "." && s[a..b] != ".."
    decreases |s| - from
  {
    var end := SlashFrom(s, from);
    assert Component(s, from, end);
    if end < |s| { CleanPartsExactly(s, end + 1); }
    forall a, b | from <= a && Component(s, a, b) ensures (a == from && b == end) || (end < |s| && end + 1 <= a) {
      assert a <= end || end < a;
    }
  }

  /** Apart from the names of one or two dots, a safe name is one whose components say where they lead. */
  lemma SafeNameExactly(s: string)
    ensures SafeName(s) <==>
              || s == "." || s == ".."
              || forall a, b :: Component(s, a, b) ==> s[a..b] != "" && s[a..b] != "." && s[a..b] != ".."
  {
    CleanPartsExactly(s, 0);
  }

  const MANIFEST := "manifest.json"
  const PREFIX := "artifacts/sha256/"

  function PathOf(sha: string): string
    requires |sha| >= 2
  {
    PREFIX + sha[..2] + "/" + sha
  }

  predicate ValidRef(r: Ref) {
    |r.sha| == 64 && r.id == r.sha && SafeName(r.path) && r.path == PathOf(r.sha)
  }

  /** The place of a digest is a safe name, and never the manifest's. */
  lemma DigestPathIsSafe(sha: string)
    requires IsDigest(sha)
    ensures SafeName(PathOf(sha)) && PathOf(sha) != MANIFEST
  {
    var p := PathOf(sha);
    assert |p| == 84 && p[9] == '/' && p[16] == '/' && p[19] == '/';
    assert p[..9] == "artifacts" && p[10..16] == "sha256" && p[17..19] == sha[..2] && p[20..] == sha;
    forall i | 0 <= i < 84 && i != 9 && i != 16 && i != 19 ensures p[i] != '/' {
      if 17 <= i < 19 { assert p[i] == sha[i - 17]; }
      else if 20 <= i { assert p[i] == sha[i - 20]; }
      else if i < 9 { assert p[i] == "artifacts"[i]; }
      else { assert p[i] == "sha256"[i - 10]; }
    }
    PartEnds(p, 20, 84);
    assert CleanParts(p, 20);
    PartEnds(p, 17, 19);
    assert p[17..19][0] == sha[0] && CleanParts(p, 17);
    PartEnds(p, 10, 16);
    assert CleanParts(p, 10);
    PartEnds(p, 0, 9);
    assert p[0] == 'a' && MANIFEST[0] == 'm';
  }

  lemma PartEnds(s: string, from: nat, end: nat)
    requires from <= end <= |s| && (end < |s| ==> s[end] == '/')
    requires forall i :: from <= i < end ==> s[i] != '/'
    ensures SlashFrom(s, from) == end
  {
  }

  // ---- The store ----

  /** How a put goes: its file operations succeed, one fails and what it made is removed, or the process dies. */
  datatype WriteFate = Written | Failed | Died(prefix: nat)

  type Blobs = map<string, Bytes>

  function Dashed(c: char): char {
    if c == '/' || c == '\\' || c == ' ' || c == ':' || c == '\n' then '-' else c
  }

  function SanitizeName(name: string): string {
    var trimmed := Trimmed(name);
    if trimmed == "" then "artifact.bin" else seq(|trimmed|, i requires 0 <= i < |trimmed| => Dashed(trimmed[i]))
  }

  /** Where a payload belongs. */
  function Place(c: Codec, payload: Bytes): string
    requires Sound(c)
  {
    assert IsDigest(c.sha(payload));
    PathOf(c.sha(payload))
  }

  /** What a put leaves: a blob that is there already is not touched. */
  ghost function Put(c: Codec, blobs: Blobs, payload: Bytes, fate: WriteFate): Blobs
    requires Sound(c)
  {
    var path := Place(c, payload);
    if path in blobs then blobs else
    match fate
    case Written => blobs[path := payload]
    case Failed => blobs
    case Died(n) => blobs[path := Cut(payload, n)]
  }

  /** Whether it succeeds: the blob at its path has, or now gets, the right digest. */
  ghost predicate PutOk(c: Codec, blobs: Blobs, payload: Bytes, fate: WriteFate)
    requires Sound(c)
  {
    var path := Place(c, payload);
    fate.Written? && (path in blobs ==> c.sha(blobs[path]) == c.sha(payload))
  }

  class Store {
    var blobs: Blobs

    constructor ()
      ensures blobs == map[]
    {
      blobs := map[];
    }

    /** The file is created under its final name, and fails if it is there. */
    method PutBytes(c: Codec, name: string, payload: Bytes, fate: WriteFate) returns (r: Option<Ref>)
      requires Sound(c)
      modifies this
      ensures blobs == Put(c, old(blobs), payload, fate) && (r.Some? <==> PutOk(c, old(blobs), payload, fate))
      ensures r.Some? ==> ValidRef(r.value)
                          && var sum := c.sha(payload);
                             r.value == Ref(sum, SanitizeName(name), sum, |payload|, Place(c, payload))
    {
      var sum := c.sha(payload);
      assert IsDigest(sum);
      DigestPathIsSafe(sum);
      var path := PathOf(sum);
      if path !in blobs {
        match fate {
          case Written => blobs := blobs[path := payload];
          case Failed => return None;
          case Died(n) =>
            blobs := blobs[path := Cut(payload, n)];
            return None;
        }
      } else if !fate.Written? || c.sha(blobs[path]) != sum {
        return None;
      }
      r := Some(Ref(sum, SanitizeName(name), sum, |payload|, path));
    }
  }

  /** Every blob is where its own digest says. */
  ghost predicate Addressed(c: Codec, blobs: Blobs)
    requires Sound(c)
  {
    forall path :: path in blobs ==> path == Place(c, blobs[path])
  }

  lemma PlaceIsInjective(c: Codec, p: Bytes, q: Bytes)
    requires Sound(c)
    ensures Place(c, p) == Place(c, q) <==> c.sha(p) == c.sha(q)
  {
    assert IsDigest(c.sha(p)) && IsDigest(c.sha(q));
    assert PathOf(c.sha(p))[20..] == c.sha(p) && PathOf(c.sha(q))[20..] == c.sha(q);
  }

  /** A put keeps the store addressed, unless the process dies in it and leaves another digest behind. */
  lemma PutKeepsAddressedExactly(c: Codec, blobs: Blobs, payload: Bytes, fate: WriteFate)
    requires Sound(c) && Addressed(c, blobs)
    ensures Addressed(c, Put(c, blobs, payload, fate)) <==>
              Place(c, payload) in blobs || !fate.Died? || c.sha(Cut(payload, fate.prefix)) == c.sha(payload)
  {
    hide Sound, Place;
    var path := Place(c, payload);
    if path !in blobs && fate.Died? {
      PlaceIsInjective(c, Cut(payload, fate.prefix), payload);
      assert Put(c, blobs, payload, fate)[path] == Cut(payload, fate.prefix);
    }
  }

  datatype PutCall = PutCall(payload: Bytes, fate: WriteFate)

  ghost function Stored(c: Codec, puts: seq<PutCall>): Blobs
    requires Sound(c)
  {
    if puts == [] then map[]
    else Put(c, Stored(c, puts[..|puts| - 1]), puts[|puts| - 1].payload, puts[|puts| - 1].fate)
  }

  /** Any sequence of puts that no crash cuts short keeps every blob under its own digest. */
  lemma {:induction false} StoreStaysAddressed(c: Codec, puts: seq<PutCall>)
    requires Sound(c) && forall i :: 0 <= i < |puts| ==> !puts[i].fate.Died?
    ensures Addressed(c, Stored(c, puts))
  {
    hide Sound, Put, Addressed, Place;
    if puts == [] {
      assert Addressed(c, map[]) by { EmptyIsAddressed(c); }
    } else {
      StoreStaysAddressed(c, puts[..|puts| - 1]);
      PutKeepsAddressedExactly(c, Stored(c, puts[..|puts| - 1]), puts[|puts| - 1].payload, puts[|puts| - 1].fate);
    }
  }

  lemma EmptyIsAddressed(c: Codec)
    requires Sound(c)
    ensures Addressed(c, map[])
  {
  }

  /** What is at a path stays there as it is. */
  lemma {:induction false} BlobsStay(c: Codec, puts: seq<PutCall>, k: nat, path: string)
    requires Sound(c) && k <= |puts| && path in Stored(c, puts[..k])
    ensures path in Stored(c, puts) && Stored(c, puts)[path] == Stored(c, puts[..k])[path]
    decreases |puts|
  {
    hide Sound, Place;
    if k == |puts| {
      assert puts[..k] == puts;
    } else {
      var shorter := puts[..|puts| - 1];
      assert shorter[..k] == puts[..k];
      BlobsStay(c, shorter, k, path);
    }
  }

  /** A blob that a crash has cut stays in the way: no later put of that payload succeeds. */
  lemma CutBlobBlocks(c: Codec, puts: seq<PutCall>, k: nat, payload: Bytes, fate: WriteFate)
    requires Sound(c) && k <= |puts| && Place(c, payload) in Stored(c, puts[..k])
    requires c.sha(Stored(c, puts[..k])[Place(c, payload)]) != c.sha(payload)
    ensures !PutOk(c, Stored(c, puts), payload, fate)
  {
    hide Sound, Place, Stored;
    BlobsStay(c, puts, k, Place(c, payload));
  }

  /** If no crash has cut a put short, a put succeeds exactly if its own file operations do, whatever is there. */
  lemma PutSucceedsExactly(c: Codec, puts: seq<PutCall>, payload: Bytes, fate: WriteFate)
    requires Sound(c) && forall i :: 0 <= i < |puts| ==> !puts[i].fate.Died?
    ensures PutOk(c, Stored(c, puts), payload, fate) <==> fate.Written?
  {
    hide Sound, Place, Stored;
    StoreStaysAddressed(c, puts);
    var path := Place(c, payload);
    if path in Stored(c, puts) { PlaceIsInjective(c, Stored(c, puts)[path], payload); }
  }

  /** A payload that was put can be put again after anything, crash or not: it succeeds and changes nothing. */
  lemma PutAgain(c: Codec, puts: seq<PutCall>, k: nat, fate: WriteFate)
    requires Sound(c) && k < |puts| && PutOk(c, Stored(c, puts[..k]), puts[k].payload, puts[k].fate)
    ensures PutOk(c, Stored(c, puts), puts[k].payload, fate) <==> fate.Written?
    ensures Put(c, Stored(c, puts), puts[k].payload, fate) == Stored(c, puts)
  {
    hide Sound, Place;
    assert puts[..k + 1][..k] == puts[..k];
    BlobsStay(c, puts, k + 1, Place(c, puts[k].payload));
  }

  /**
   * The name that a reference carries: never empty and without slashes, backslashes, spaces, colons and
   * line feeds; a blank name is replaced, any other loses the white space at its ends and is changed
   * only where it has one of these.
   */
  lemma NameIsClean(name: string) returns (a: string, kept: string, b: string)
    ensures name == a + kept + b && AllSpace(a) && AllSpace(b)
    ensures var clean := SanitizeName(name);
            && clean != "" && (forall ch :: ch in clean ==> ch !in {'/', '\\', ' ', ':', '\n'})
            && (AllSpace(name) ==> clean == "artifact.bin")
            && (!AllSpace(name) ==>
                  && |clean| == |kept|
                  && !IsSpace(kept[0]) && !IsSpace(kept[|kept| - 1])
                  && forall i :: 0 <= i < |kept| ==>
                       clean[i] == if kept[i] in {'/', '\\', ' ', ':', '\n'} then '-' else kept[i])
  {
    a, b := TrimmedExactly(name);
    kept := Trimmed(name);
    BlankExactly(name);
  }

  // ---- Reading ----

  /** A blob is read only through a valid reference, and only with the digest it promises. */
  function Read(c: Codec, blobs: Blobs, ref: Ref): Option<Bytes> {
    if !ValidRef(ref) || ref.path !in blobs || c.sha(blobs[ref.path]) != ref.sha then None else Some(blobs[ref.path])
  }

  /** What a put stored is what its reference reads, however many puts follow. */
  lemma PutThenRead(c: Codec, puts: seq<PutCall>, k: nat, ref: Ref)
    requires Sound(c) && k < |puts| && PutOk(c, Stored(c, puts[..k]), puts[k].payload, puts[k].fate)
    requires ValidRef(ref) && ref.sha == c.sha(puts[k].payload)
    ensures Read(c, Stored(c, puts), ref).Some? && c.sha(Read(c, Stored(c, puts), ref).value) == c.sha(puts[k].payload)
  {
    hide Sound, SafeName, IsDigest;
    assert puts[..k + 1][..k] == puts[..k];
    BlobsStay(c, puts, k + 1, ref.path);
  }
}
