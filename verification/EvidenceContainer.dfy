/** The container of encrypted evidence: its framing, over an abstract authenticated cipher. */
module EvidenceContainer {
  import opened Wrappers

  type Byte = c: char | (c as int) < 256 witness '\0'
  type Bytes = seq<Byte>

  const MAGIC: Bytes := ['F', 'D', 'E', '1']
  const NONCE_SIZE := 12
  const OVERHEAD := 16

  /** An authenticated cipher under one key: seal and open take a nonce, a text and associated data. */
  datatype Aead = Aead(seal: (Bytes, Bytes, Bytes) -> Bytes, open: (Bytes, Bytes, Bytes) -> Option<Bytes>)

  /** What section 2 of RFC 5116 asks of it, with the sizes of AEAD_AES_256_GCM (section 5.2). */
  ghost predicate Correct(a: Aead) {
    forall nonce: Bytes, plain: Bytes, ad: Bytes :: |nonce| == NONCE_SIZE ==>
      a.open(nonce, a.seal(nonce, plain, ad), ad) == Some(plain) && |a.seal(nonce, plain, ad)| == |plain| + OVERHEAD
  }

  datatype Cipher = Cipher(keyId: Bytes, aead: Aead)

  // ---- The layout ----

  /** A length in two bytes, the high one first. */
  function TwoBytes(n: nat): Bytes
    requires n < 0x1_0000
  {
    [(n / 256) as char, (n % 256) as char]
  }

  function FromTwoBytes(b: Bytes): (n: nat)
    requires |b| == 2
    ensures n < 0x1_0000 && TwoBytes(n) == b
  {
    (b[0] as int) * 256 + b[1] as int
  }

  /** Everything before the nonce's length byte. */
  function Head(keyId: Bytes): Bytes
    requires |keyId| < 0x1_0000
  {
    MAGIC + TwoBytes(|keyId|) + keyId
  }

  function Layout(keyId: Bytes, nonce: Bytes, payload: Bytes): Bytes
    requires |keyId| < 0x1_0000 && |nonce| < 256
  {
    Head(keyId) + [|nonce| as char] + nonce + payload
  }

  /** The bytes are a container under this key id, with this nonce and this payload. */
  predicate IsContainer(encoded: Bytes, keyId: Bytes, nonce: Bytes, payload: Bytes) {
    && |keyId| < 0x1_0000 && |nonce| == NONCE_SIZE && |payload| >= OVERHEAD
    && encoded == Layout(keyId, nonce, payload)
  }

  /** The layout byte for byte: magic, length and text of the key id, length and text of the nonce, payload. */
  lemma ContainerExactly(encoded: Bytes, keyId: Bytes, nonce: Bytes, payload: Bytes)
    ensures IsContainer(encoded, keyId, nonce, payload) <==>
              && |keyId| <= 65535 && |nonce| == 12 && |payload| >= 16
              && |encoded| == 4 + 2 + |keyId| + 1 + 12 + |payload|
              && encoded[0] == 'F' && encoded[1] == 'D' && encoded[2] == 'E' && encoded[3] == '1'
              && (encoded[4] as int) * 256 + encoded[5] as int == |keyId|
              && encoded[6..6 + |keyId|] == keyId
              && encoded[6 + |keyId|] as int == 12
              && encoded[7 + |keyId|..19 + |keyId|] == nonce
              && encoded[19 + |keyId|..] == payload
  {
    if |keyId| < 0x1_0000 && |nonce| == 12 && |payload| >= 16 {
      var layout := Layout(keyId, nonce, payload);
      LayoutParts(keyId, nonce, payload);
      HeadBegins(keyId, [|nonce| as char] + nonce + payload);
      assert layout[..4] == MAGIC;
      assert layout[4] == layout[4..6][0] && layout[5] == layout[4..6][1];
      if |encoded| == |layout| && encoded[..4] == MAGIC && encoded[4] == layout[4] && encoded[5] == layout[5]
          && encoded[6..6 + |keyId|] == keyId && encoded[6 + |keyId|] == layout[6 + |keyId|]
          && encoded[7 + |keyId|..19 + |keyId|] == nonce && encoded[19 + |keyId|..] == payload {
        SameParts(encoded, layout, |keyId|);
      }
    }
  }

  lemma SameParts(a: Bytes, b: Bytes, n: nat)
    requires |a| == |b| && 19 + n <= |a| && a[..4] == b[..4] && a[4] == b[4] && a[5] == b[5]
    requires a[6..6 + n] == b[6..6 + n] && a[6 + n] == b[6 + n] && a[7 + n..19 + n] == b[7 + n..19 + n]
        && a[19 + n..] == b[19 + n..]
    ensures a == b
  {
    assert a == a[..4] + [a[4], a[5]] + a[6..6 + n] + [a[6 + n]] + a[7 + n..19 + n] + a[19 + n..];
    assert b == b[..4] + [b[4], b[5]] + b[6..6 + n] + [b[6 + n]] + b[7 + n..19 + n] + b[19 + n..];
  }

  lemma HeadBegins(keyId: Bytes, rest: Bytes)
    requires |keyId| < 0x1_0000
    ensures var e := Head(keyId) + rest;
            && |e| == 6 + |keyId| + |rest| && e[..4] == MAGIC && e[4..6] == TwoBytes(|keyId|)
            && e[6..6 + |keyId|] == keyId && e[6 + |keyId|..] == rest
            && FromTwoBytes(e[4..6]) == |keyId|
  {
  }

  /** Bytes that carry a magic and the length of what follows begin with a head. */
  lemma BeginsWithHead(e: Bytes)
    requires |e| >= 6 && e[..4] == MAGIC && 6 + FromTwoBytes(e[4..6]) <= |e|
    ensures var n := FromTwoBytes(e[4..6]); e == Head(e[6..6 + n]) + e[6 + n..]
  {
  }

  lemma LayoutParts(keyId: Bytes, nonce: Bytes, payload: Bytes)
    requires |keyId| < 0x1_0000 && |nonce| < 256
    ensures var rest := [|nonce| as char] + nonce + payload;
            && Layout(keyId, nonce, payload) == Head(keyId) + rest
            && rest[0] as int == |nonce| && rest[1..1 + |nonce|] == nonce && rest[1 + |nonce|..] == payload
  {
  }

  /** The layout can be read back in one way only. */
  lemma LayoutIsInjective(k1: Bytes, n1: Bytes, p1: Bytes, k2: Bytes, n2: Bytes, p2: Bytes)
    requires |k1| < 0x1_0000 && |n1| < 256 && |k2| < 0x1_0000 && |n2| < 256
    requires Layout(k1, n1, p1) == Layout(k2, n2, p2)
    ensures k1 == k2 && n1 == n2 && p1 == p2
  {
    var r1: Bytes := [|n1| as char] + n1 + p1;
    var r2: Bytes := [|n2| as char] + n2 + p2;
    LayoutParts(k1, n1, p1);
    LayoutParts(k2, n2, p2);
    HeadBegins(k1, r1);
    HeadBegins(k2, r2);
    assert |k1| == |k2|;
    assert r1 == r2;
  }

  // ---- Sealing and opening ----

  /** What opening the bytes with this cipher gives, told by the layout alone. */
  ghost function Opened(c: Cipher, encoded: Bytes, ad: Bytes): Option<Bytes> {
    if exists nonce, payload :: IsContainer(encoded, c.keyId, nonce, payload) then
      var nonce, payload :| IsContainer(encoded, c.keyId, nonce, payload);
      c.aead.open(nonce, payload, ad)
    else None
  }

  lemma OpenedIs(c: Cipher, encoded: Bytes, ad: Bytes, nonce: Bytes, payload: Bytes)
    requires IsContainer(encoded, c.keyId, nonce, payload)
    ensures Opened(c, encoded, ad) == c.aead.open(nonce, payload, ad)
  {
    forall n, p | IsContainer(encoded, c.keyId, n, p) ensures n == nonce && p == payload {
      LayoutIsInjective(c.keyId, nonce, payload, c.keyId, n, p);
    }
  }

  /** The nonce is drawn at random; the key id has to fit its length field. */
  method Seal(c: Cipher, nonce: Bytes, plain: Bytes, ad: Bytes) returns (r: Option<Bytes>)
    requires |nonce| == NONCE_SIZE
    ensures r == if |c.keyId| < 0x1_0000 then Some(Layout(c.keyId, nonce, c.aead.seal(nonce, plain, ad))) else None
  {
    var ciphertext := c.aead.seal(nonce, plain, ad);
    if |c.keyId| > 65535 { return None; }
    var out: Bytes := [];
    out := out + MAGIC;
    assert out == MAGIC;
    out := out + TwoBytes(|c.keyId|);
    out := out + c.keyId;
    out := out + [|nonce| as char];
    out := out + nonce;
    out := out + ciphertext;
    r := Some(out);
  }

  /** One pass over the bytes. No input makes it read past their end. */
  method Open(c: Cipher, encoded: Bytes, ad: Bytes) returns (r: Option<Bytes>)
    ensures r == Opened(c, encoded, ad)
  {
    if |encoded| < 7 || encoded[..4] != MAGIC {
      NoContainer(c, encoded);
      return None;
    }
    var keyLen := FromTwoBytes(encoded[4..6]);
    var pos := 6;
    if |encoded| < pos + keyLen + 1 {
      NoContainer(c, encoded);
      return None;
    }
    var keyId := encoded[pos..pos + keyLen];
    BeginsWithHead(encoded);
    pos := pos + keyLen;
    if keyId != c.keyId {
      NoContainer(c, encoded);
      return None;
    }
    var nonceLen := encoded[pos] as int;
    pos := pos + 1;
    if nonceLen != NONCE_SIZE || |encoded| < pos + nonceLen + OVERHEAD {
      NoContainer(c, encoded);
      return None;
    }
    var nonce := encoded[pos..pos + nonceLen];
    pos := pos + nonceLen;
    Rejoined(encoded, keyId, pos);
    OpenedIs(c, encoded, ad, nonce, encoded[pos..]);
    r := c.aead.open(nonce, encoded[pos..], ad);
  }

  /** What is left after the head of a container: a length byte, the nonce and the payload. */
  lemma Rejoined(encoded: Bytes, keyId: Bytes, pos: nat)
    requires |keyId| < 0x1_0000 && pos == 6 + |keyId| + 1 + NONCE_SIZE && pos + OVERHEAD <= |encoded|
    requires encoded == Head(keyId) + encoded[6 + |keyId|..] && encoded[6 + |keyId|] as int == NONCE_SIZE
    ensures IsContainer(encoded, keyId, encoded[pos - NONCE_SIZE..pos], encoded[pos..])
  {
    var nonce, payload := encoded[pos - NONCE_SIZE..pos], encoded[pos..];
    assert encoded[6 + |keyId|..] == [|nonce| as char] + nonce + payload;
    LayoutParts(keyId, nonce, payload);
  }

  /** Every container under a key passes all the checks. */
  lemma NoContainer(c: Cipher, encoded: Bytes)
    ensures (exists nonce, payload :: IsContainer(encoded, c.keyId, nonce, payload)) ==>
              && |encoded| >= 6 + |c.keyId| + 1 + NONCE_SIZE + OVERHEAD && encoded[..4] == MAGIC
              && FromTwoBytes(encoded[4..6]) == |c.keyId| && encoded[6..6 + |c.keyId|] == c.keyId
              && encoded[6 + |c.keyId|] as int == NONCE_SIZE
  {
    if nonce, payload :| IsContainer(encoded, c.keyId, nonce, payload) {
      LayoutParts(c.keyId, nonce, payload);
      HeadBegins(c.keyId, [|nonce| as char] + nonce + payload);
    }
  }

  /** The key id inside, read without any key. */
  method ArtifactKeyId(encoded: Bytes) returns (r: Option<Bytes>)
    ensures r == NamedKey(encoded)
  {
    if |encoded| < 7 || encoded[..4] != MAGIC { return None; }
    var keyLen := FromTwoBytes(encoded[4..6]);
    var pos := 6;
    if keyLen < 1 || |encoded| < pos + keyLen + 1 { return None; }
    r := Some(encoded[pos..pos + keyLen]);
  }

  function NamedKey(encoded: Bytes): Option<Bytes> {
    if |encoded| < 7 || encoded[..4] != MAGIC then None else
    var keyLen := FromTwoBytes(encoded[4..6]);
    if keyLen < 1 || |encoded| < 6 + keyLen + 1 then None else Some(encoded[6..6 + keyLen])
  }

  /** It is the id of exactly the bytes that begin with a head of a key id that is not empty, and go on. */
  lemma NamedKeyExactly(encoded: Bytes, keyId: Bytes)
    ensures NamedKey(encoded) == Some(keyId) <==>
              0 < |keyId| < 0x1_0000 && exists rest :: rest != [] && encoded == Head(keyId) + rest
  {
    if NamedKey(encoded) == Some(keyId) {
      BeginsWithHead(encoded);
      assert encoded[6 + |keyId|..] != [] && encoded == Head(keyId) + encoded[6 + |keyId|..];
    }
    if 0 < |keyId| < 0x1_0000 {
      forall rest | rest != [] && encoded == Head(keyId) + rest ensures NamedKey(encoded) == Some(keyId) {
        HeadBegins(keyId, rest);
      }
    }
  }

  // ---- What follows ----

  /** What was sealed opens to the same text, for every text and every key id that fits. */
  lemma RoundTrip(c: Cipher, nonce: Bytes, plain: Bytes, ad: Bytes)
    requires Correct(c.aead) && |c.keyId| < 0x1_0000 && |nonce| == NONCE_SIZE
    ensures Opened(c, Layout(c.keyId, nonce, c.aead.seal(nonce, plain, ad)), ad) == Some(plain)
  {
    var payload := c.aead.seal(nonce, plain, ad);
    assert c.aead.open(nonce, payload, ad) == Some(plain) && |payload| == |plain| + OVERHEAD;
    OpenedIs(c, Layout(c.keyId, nonce, payload), ad, nonce, payload);
  }

  /** A container that one key opens no other key id opens, whatever its cipher. */
  lemma OneKeyOnly(c: Cipher, d: Cipher, encoded: Bytes, ad: Bytes)
    requires Opened(c, encoded, ad).Some? && Opened(d, encoded, ad).Some?
    ensures c.keyId == d.keyId
  {
    var n, p :| IsContainer(encoded, c.keyId, n, p);
    var m, q :| IsContainer(encoded, d.keyId, m, q);
    LayoutIsInjective(c.keyId, n, p, d.keyId, m, q);
  }

  /** On whatever a cipher opens, the two parsers agree exactly if the key id is not empty. */
  lemma ParsersAgreeExactly(c: Cipher, encoded: Bytes, ad: Bytes)
    requires Opened(c, encoded, ad).Some?
    ensures NamedKey(encoded) == Some(c.keyId) <==> c.keyId != []
    ensures c.keyId == [] ==> NamedKey(encoded) == None
  {
    var nonce, payload :| IsContainer(encoded, c.keyId, nonce, payload);
    LayoutParts(c.keyId, nonce, payload);
    HeadBegins(c.keyId, [|nonce| as char] + nonce + payload);
  }
}
