/**
 The cryptographic operations of a message. The primitives themselves (AES-GCM, HMAC, ECDSA) are
 function values that every member takes as a parameter; `Lawful` states what is asked of them.
 */
module Cipher {
  import opened Bytes
  import opened Hkdf
  import opened Algorithms

  datatype Sealed = Sealed(ciphertext: Octets, tag: Octets)

  /**
   `seal` takes key, IV, additional data and plaintext; `open` takes key, IV, additional data,
   ciphertext and tag; `sign` takes a signing key and the signed octets; `verify` takes a
   verification key, the octets and the signature. `None` is a failure of the primitive.
   */
  datatype Primitives = Primitives(
    seal: (Octets, Octets, Octets, Octets) -> Option<Sealed>,
    open: (Octets, Octets, Octets, Octets, Octets) -> Option<Octets>,
    hmac: Hmac,
    sign: (Octets, Octets) -> Option<Octets>,
    verify: (Octets, Octets, Octets) -> bool)

  ghost predicate LawfulAead(c: Primitives) {
    && (forall key, iv, aad, plain :: c.seal(key, iv, aad, plain).Some? ==>
          var s := c.seal(key, iv, aad, plain).value;
          |s.ciphertext| == |plain| && |s.tag| == TAG_LEN && c.open(key, iv, aad, s.ciphertext, s.tag) == Some(plain))
    && (forall key, iv, aad, ct, tag :: c.open(key, iv, aad, ct, tag).Some? ==>
          |c.open(key, iv, aad, ct, tag).value| == |ct|)
  }

  ghost predicate Lawful(c: Primitives) {
    LawfulAead(c) && LawfulHmac(c.hmac)
  }

  lemma SealOpens(c: Primitives, key: Octets, iv: Octets, aad: Octets, plain: Octets)
    requires LawfulAead(c) && c.seal(key, iv, aad, plain).Some?
    ensures var s := c.seal(key, iv, aad, plain).value;
            |s.ciphertext| == |plain| && |s.tag| == TAG_LEN && c.open(key, iv, aad, s.ciphertext, s.tag) == Some(plain)
  {
  }

  datatype FrameKind = SingleBlock | BodyFrame | FinalFrame

  function Ascii(s: string): (r: Octets)
    ensures |r| == |s|
  {
    seq(|s|, i requires 0 <= i < |s| => s[i] as int % 256)
  }

  function KindLabel(kind: FrameKind): Octets {
    match kind
    case SingleBlock => Ascii("AWSKMSEncryptionClient Single Block")
    case BodyFrame => Ascii("AWSKMSEncryptionClient Frame")
    case FinalFrame => Ascii("AWSKMSEncryptionClient Final Frame")
  }

  /** The additional data a body frame is sealed under. */
  function FrameAad(messageId: Octets, kind: FrameKind, seqno: nat, length: nat): Octets {
    messageId + KindLabel(kind) + BigEndian(seqno, 4) + BigEndian(length, 8)
  }

  /** Within one message the additional data tells kind, number and length apart. */
  lemma FrameAadInjective(messageId: Octets, k1: FrameKind, n1: nat, l1: nat, k2: FrameKind, n2: nat, l2: nat)
    requires n1 <= UINT32_MAX && n2 <= UINT32_MAX && l1 <= UINT64_MAX && l2 <= UINT64_MAX
    requires FrameAad(messageId, k1, n1, l1) == FrameAad(messageId, k2, n2, l2)
    ensures k1 == k2 && n1 == n2 && l1 == l2
  {
    var a, b := FrameAad(messageId, k1, n1, l1), FrameAad(messageId, k2, n2, l2);
    assert |a| == |messageId| + |KindLabel(k1)| + 12;
    assert |b| == |messageId| + |KindLabel(k2)| + 12;
    assert k1 == k2;
    assert BigEndian(l1, 8) == a[|a| - 8..] == b[|b| - 8..] == BigEndian(l2, 8);
    assert BigEndian(n1, 4) == a[|a| - 12..|a| - 8] == b[|b| - 12..|b| - 8] == BigEndian(n2, 4);
    RadixValues();
    BigEndianInjective(n1, n2, 4);
    BigEndianInjective(l1, l2, 8);
  }

  /** The deterministic IV of body frame `seqno`. */
  function FrameIv(seqno: nat): (iv: Octets)
    ensures |iv| == IV_LEN
  {
    Zeros(4) + BigEndian(seqno, 8)
  }

  const HEADER_IV: Octets := Zeros(12)

  lemma FrameIvInjective(m: nat, n: nat)
    requires m <= UINT64_MAX && n <= UINT64_MAX && FrameIv(m) == FrameIv(n)
    ensures m == n
  {
    assert BigEndian(m, 8) == FrameIv(m)[4..] == FrameIv(n)[4..] == BigEndian(n, 8);
    RadixValues();
    BigEndianInjective(m, n, 8);
  }

  lemma FrameIvNotHeaderIv(n: nat)
    requires 0 < n <= UINT64_MAX
    ensures FrameIv(n) != HEADER_IV
  {
    if FrameIv(n) == HEADER_IV {
      assert FromBigEndian(Zeros(8)) == 0 by { ZerosValue(8); }
      assert BigEndian(n, 8) == FrameIv(n)[4..] == HEADER_IV[4..] == Zeros(8);
      RadixValues();
      BigEndianRoundTrip(n, 8);
      assert false;
    }
  }

  lemma {:induction false} ZerosValue(n: nat)
    ensures FromBigEndian(Zeros(n)) == 0
  {
    if n > 0 {
      ZerosValue(n - 1);
      assert Zeros(n)[..n - 1] == Zeros(n - 1);
    }
  }

  /** Encrypts one frame; the IV is always the one that belongs to the sequence number. */
  function EncryptBody(c: Primitives, key: Octets, messageId: Octets, kind: FrameKind, seqno: nat, plain: Octets)
    : Option<Sealed>
  {
    if seqno == 0 then None else
      c.seal(key, FrameIv(seqno), FrameAad(messageId, kind, seqno, |plain|), plain)
  }

  function DecryptBody(c: Primitives, key: Octets, messageId: Octets, kind: FrameKind, seqno: nat,
                       iv: Octets, ciphertext: Octets, tag: Octets): Option<Octets>
  {
    c.open(key, iv, FrameAad(messageId, kind, seqno, |ciphertext|), ciphertext, tag)
  }

  lemma DecryptsOwnBody(c: Primitives, key: Octets, messageId: Octets, kind: FrameKind, seqno: nat, plain: Octets)
    requires LawfulAead(c) && EncryptBody(c, key, messageId, kind, seqno, plain).Some?
    ensures var s := EncryptBody(c, key, messageId, kind, seqno, plain).value;
            && |s.ciphertext| == |plain| && |s.tag| == TAG_LEN
            && DecryptBody(c, key, messageId, kind, seqno, FrameIv(seqno), s.ciphertext, s.tag) == Some(plain)
  {
    SealOpens(c, key, FrameIv(seqno), FrameAad(messageId, kind, seqno, |plain|), plain);
  }

  /** The octets that close a header: IV and tag in version 1, the tag in version 2. */
  function SignHeader(c: Primitives, p: Suite, key: Octets, header: Octets): Option<Octets> {
    var s := c.seal(key, HEADER_IV, header, []);
    if s.None? then None
    else if p.version.V1? then Some(HEADER_IV + s.value.tag)
    else Some(s.value.tag)
  }

  predicate VerifyHeader(c: Primitives, p: Suite, key: Octets, authTag: Octets, header: Octets) {
    && |authTag| == AuthTagLen(p)
    && (if p.version.V1? then c.open(key, authTag[..IV_LEN], header, [], authTag[IV_LEN..]).Some?
        else c.open(key, HEADER_IV, header, [], authTag).Some?)
  }

  lemma SignedHeaderVerifies(c: Primitives, p: Suite, key: Octets, header: Octets)
    requires LawfulAead(c) && SignHeader(c, p, key, header).Some?
    ensures |SignHeader(c, p, key, header).value| == AuthTagLen(p)
    ensures VerifyHeader(c, p, key, SignHeader(c, p, key, header).value, header)
  {
    SealOpens(c, key, HEADER_IV, header, []);
    var s := c.seal(key, HEADER_IV, header, []).value;
    assert s.ciphertext == [];
    assert (HEADER_IV + s.tag)[..IV_LEN] == HEADER_IV;
    assert (HEADER_IV + s.tag)[IV_LEN..] == s.tag;
  }

  datatype Derived = Derived(contentKey: Octets, commitment: Octets)

  /** Derivation for version 1 suites: a plain copy of the data key, or one HKDF over the message id. */
  function DeriveKeyV1(hmac: Hmac, p: Suite, dataKey: Octets, messageId: Octets): Option<Octets>
    requires LawfulHmac(hmac)
  {
    if |messageId| != 16 then None
    else if p.sha.NoSha? then Some(dataKey)
    else Derive(hmac, p.sha, [], dataKey, BigEndian(p.algId, 2) + messageId, p.dataKeyLen)
  }

  /** Derivation for version 2 suites: the commitment and the content key come from one salted extraction. */
  function DeriveKeyV2(hmac: Hmac, p: Suite, dataKey: Octets, messageId: Octets): Option<Derived>
    requires LawfulHmac(hmac)
  {
    if |messageId| != 32 || p.sha.NoSha? then None else
      var commitment := Derive(hmac, p.sha, messageId, dataKey, Ascii("COMMITKEY"), p.commitmentLen);
      var key := Derive(hmac, p.sha, messageId, dataKey, BigEndian(p.algId, 2) + Ascii("DERIVEKEY"), p.dataKeyLen);
      if commitment.None? || key.None? then None else Some(Derived(key.value, commitment.value))
  }

  /** When there is a content key: the message id has its version's length, and HKDF yields what is asked of it. */
  predicate Derivable(p: Suite, commitmentRoom: nat, messageId: Octets) {
    if p.version.V1? then
      commitmentRoom == 0 && |messageId| == 16 && (p.sha.NoSha? || 1 <= p.dataKeyLen <= 255 * HashLen(p.sha))
    else
      && p.commitmentLen <= commitmentRoom && |messageId| == 32 && !p.sha.NoSha?
      && 1 <= p.commitmentLen <= 255 * HashLen(p.sha) && 1 <= p.dataKeyLen <= 255 * HashLen(p.sha)
  }

  /** `commitmentRoom` is the length of the caller's commitment buffer. */
  function DeriveKey(hmac: Hmac, p: Suite, dataKey: Octets, commitmentRoom: nat,
                     messageId: Octets): (r: Option<Derived>)
    requires LawfulHmac(hmac)
    ensures r.Some? <==> Derivable(p, commitmentRoom, messageId)
    ensures r.Some? && p.sha.NoSha? ==> r.value.contentKey == dataKey
    ensures r.Some? && !p.sha.NoSha? ==> |r.value.contentKey| == p.dataKeyLen
    ensures r.Some? && p.version.V1? ==> r.value.commitment == []
    ensures r.Some? && p.version.V2? ==> |r.value.commitment| == p.commitmentLen
  {
    if p.version.V1? then
      if commitmentRoom != 0 then None else
        match DeriveKeyV1(hmac, p, dataKey, messageId)
        case None => None
        case Some(key) => Some(Derived(key, []))
    else if commitmentRoom < p.commitmentLen then None
    else DeriveKeyV2(hmac, p, dataKey, messageId)
  }

  function KeySalt(p: Suite, messageId: Octets): Octets {
    if p.version.V1? then Zeros(HashLen(p.sha)) else messageId
  }

  function KeyInfo(p: Suite, messageId: Octets): Octets {
    BigEndian(p.algId, 2) + if p.version.V1? then messageId else Ascii("DERIVEKEY")
  }

  /** No suite needs more than one block of HKDF: its content key is cut from a single HMAC. */
  lemma ContentKeyIsFirstBlock(hmac: Hmac, p: Suite, dataKey: Octets, commitmentRoom: nat, messageId: Octets)
    requires LawfulHmac(hmac) && !p.sha.NoSha? && p.dataKeyLen <= HashLen(p.sha)
    requires DeriveKey(hmac, p, dataKey, commitmentRoom, messageId).Some?
    ensures var block := hmac(p.sha, hmac(p.sha, KeySalt(p, messageId), dataKey), KeyInfo(p, messageId) + [1]);
            p.dataKeyLen <= |block|
            && DeriveKey(hmac, p, dataKey, commitmentRoom, messageId).value.contentKey == block[..p.dataKeyLen]
  {
    hide Ascii, BigEndian, Blocks;
    var salt := if p.version.V1? then [] else messageId;
    FirstBlock(hmac, p.sha, salt, dataKey, KeyInfo(p, messageId), p.dataKeyLen);
  }

  lemma FirstBlock(hmac: Hmac, sha: Sha, salt: Octets, ikm: Octets, info: Octets, length: nat)
    requires LawfulHmac(hmac) && !sha.NoSha? && 1 <= length <= HashLen(sha)
    ensures var block := hmac(sha, Extract(hmac, sha, salt, ikm), info + [1]);
            |block| == HashLen(sha) && Derive(hmac, sha, salt, ikm, info, length) == Some(block[..length])
  {
    hide Extract;
    var prk := Extract(hmac, sha, salt, ikm);
    ExtractLength(hmac, sha, salt, ikm);
    ExpandFromBlocks(hmac, sha, prk, info, length, 1);
    assert [] + info + [1] == info + [1];
    assert Block(hmac, sha, prk, info, 1) == hmac(sha, prk, info + [1]);
    assert Blocks(hmac, sha, prk, info, 0) + Block(hmac, sha, prk, info, 1) == Block(hmac, sha, prk, info, 1);
    assert Blocks(hmac, sha, prk, info, 1) == Block(hmac, sha, prk, info, 1);
  }

  lemma ExtractLength(hmac: Hmac, sha: Sha, salt: Octets, ikm: Octets)
    requires LawfulHmac(hmac)
    ensures |Extract(hmac, sha, salt, ikm)| == HashLen(sha)
  {
  }

  /** The derivation as the code runs it, into buffers of the suite's key and commitment lengths. */
  method DeriveContentKey(hmac: Hmac, p: Suite, dataKey: Octets, commitmentRoom: nat, messageId: Octets)
    returns (r: Option<Derived>)
    requires LawfulHmac(hmac)
    ensures r == DeriveKey(hmac, p, dataKey, commitmentRoom, messageId)
  {
    hide LawfulHmac, Derive, BigEndian, Ascii;
    if p.version.V1? {
      if commitmentRoom != 0 || |messageId| != 16 { return None; }
      if p.sha.NoSha? { return Some(Derived(dataKey, [])); }
      var key := new byte[p.dataKeyLen];
      var ok := DeriveInto(hmac, key, p.sha, [], dataKey, BigEndian(p.algId, 2) + messageId);
      return if ok then Some(Derived(key[..], [])) else None;
    }
    if commitmentRoom < p.commitmentLen || |messageId| != 32 || p.sha.NoSha? { return None; }
    var commitment := new byte[p.commitmentLen];
    var ok := DeriveInto(hmac, commitment, p.sha, messageId, dataKey, Ascii("COMMITKEY"));
    if !ok { return None; }
    var key := new byte[p.dataKeyLen];
    ok := DeriveInto(hmac, key, p.sha, messageId, dataKey, BigEndian(p.algId, 2) + Ascii("DERIVEKEY"));
    return if ok then Some(Derived(key[..], commitment[..])) else None;
  }

  /** Equality of commitments, restricted to the two lengths the SDK compares. */
  predicate CommitmentMatches(a: Octets, b: Octets) {
    |a| == |b| && (|a| == 0 || (|a| == 32 && a == b))
  }
}
