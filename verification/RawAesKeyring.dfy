/**
 The raw AES keyring: wraps a data key with AES-GCM under a static key and finds its own encrypted keys again
 in a list that other keyrings have contributed to.
 */
module RawAesKeyring {
  import opened Bytes
  import opened Algorithms
  import opened Cipher
  import opened EncryptionContext
  import opened MessageHeader
  import opened Keyrings

  datatype RawAes = RawAes(namespace: Octets, name: Octets, rawKey: Octets)

  const TAG_BITS: nat := 128

  // Flags of a trace record.
  const GENERATED: nat := 1
  const ENCRYPTED_AND_SIGNED: nat := 2 + 8
  const DECRYPTED_AND_VERIFIED: nat := 4 + 16

  /** The provider info of an encrypted key: key name, tag length in bits, IV length and IV. */
  function ProviderInfo(name: Octets, iv: Octets): Octets {
    name + BigEndian(TAG_BITS, 4) + BigEndian(IV_LEN, 4) + iv
  }

  function ParseProviderInfo(k: RawAes, info: Octets): Option<Octets> {
    var n := |k.name|;
    if |info| != n + IV_LEN + 8 then None
    else if info[..n] != k.name then None
    else if FromBigEndian(info[n..n + 4]) != TAG_BITS then None
    else if FromBigEndian(info[n + 4..n + 8]) != IV_LEN then None
    else Some(info[n + 8..])
  }

  /** Parsing accepts exactly what serializing produces for this key name, and returns the IV. */
  lemma ProviderInfoExact(k: RawAes, info: Octets, iv: Octets)
    ensures ParseProviderInfo(k, info) == Some(iv) <==> |iv| == IV_LEN && info == ProviderInfo(k.name, iv)
  {
    hide BigEndian, FromBigEndian;
    var n := |k.name|;
    RadixValues();
    BigEndianRoundTrip(TAG_BITS, 4);
    BigEndianRoundTrip(IV_LEN, 4);
    if |iv| == IV_LEN && info == ProviderInfo(k.name, iv) {
      assert info[..n] == k.name && info[n..n + 4] == BigEndian(TAG_BITS, 4);
      assert info[n + 4..n + 8] == BigEndian(IV_LEN, 4) && info[n + 8..] == iv;
    }
    if ParseProviderInfo(k, info) == Some(iv) {
      BigEndianOfFrom(info[n..n + 4]);
      BigEndianOfFrom(info[n + 4..n + 8]);
      assert info == info[..n] + info[n..n + 4] + info[n + 4..n + 8] + info[n + 8..];
    }
  }

  // ---------- Encryption ----------

  /**
   Wraps a data key. The buffer for the ciphertext is as long as the suite's data key; `unwritten` is what its
   remaining octets hold when the data key is shorter.
   */
  ghost function WrapKey(c: Primitives, k: RawAes, dataKey: Octets, ctx: Context, keyLen: nat, iv: Octets,
                         unwritten: nat -> Octets): Option<Edk> {
    if !Encodable(ctx) || |dataKey| > keyLen then None else
      match c.seal(k.rawKey, iv, Encoded(ctx), dataKey)
      case None => None
      case Some(s) => Some(Edk(k.namespace, ProviderInfo(k.name, iv), s.ciphertext + unwritten(keyLen - |dataKey|) + s.tag))
  }

  /**
   What a call contributes, given the random IV and the buffer of random octets; a generated key is dropped when
   wrapping fails.
   */
  ghost function Contribute(c: Primitives, k: RawAes, key: Option<KeyBuffer>, ctx: Context, alg: nat, iv: Option<Octets>,
                            random: Option<KeyBuffer>, unwritten: nat -> Octets): Contribution
  {
    var dataKey := if key.Some? then key else random;
    if AlgProps(alg).None? || iv.None? || dataKey.None? then Contribution(false, key, [], []) else
      match WrapKey(c, k, dataKey.value.octets, ctx, AlgProps(alg).value.dataKeyLen, iv.value, unwritten)
      case None => Contribution(false, key, [], [])
      case Some(e) =>
        Contribution(true, dataKey, [e],
                     [Record(k.namespace, k.name, ENCRYPTED_AND_SIGNED + if key.None? then GENERATED else 0)])
  }

  method OnEncrypt(c: Primitives, k: RawAes, key: Option<KeyBuffer>, ctx: Context, order: seq<Pair>, alg: nat,
                   iv: Option<Octets>, random: Option<KeyBuffer>, unwritten: nat -> Octets)
    returns (r: Contribution)
    requires Lists(order, ctx) && AlgProps(alg).Some?
    ensures r == Contribute(c, k, key, ctx, alg, iv, random, unwritten)
  {
    hide Encoded, AlgProps, ProviderInfo, Lists;
    var keyLen := AlgProps(alg).value.dataKeyLen;
    if iv.None? { return Contribution(false, key, [], []); }
    var flags := 0;
    var dataKey := key;
    if key.None? {
      dataKey := random;
      if dataKey.None? { return Contribution(false, None, [], []); }
      flags := GENERATED;
    }
    var size := ContextSize(ctx, order);
    if size.None? { return Contribution(false, key, [], []); }
    var ok, aad := SerializeContext(ctx, order, [], size.value);
    assert [] + Encoded(ctx) == Encoded(ctx);
    if !ok || |dataKey.value.octets| > keyLen { return Contribution(false, key, [], []); }
    var sealed := c.seal(k.rawKey, iv.value, aad, dataKey.value.octets);
    if sealed.None? { return Contribution(false, key, [], []); }
    var ciphertext := sealed.value.ciphertext + unwritten(keyLen - |dataKey.value.octets|) + sealed.value.tag;
    var edk := Edk(k.namespace, ProviderInfo(k.name, iv.value), ciphertext);
    return Contribution(true, dataKey, [edk], [Record(k.namespace, k.name, flags + ENCRYPTED_AND_SIGNED)]);
  }

  // ---------- Decryption ----------

  /** What one encrypted key yields: nothing unless it is this keyring's and opens under the context. */
  function Unwrap(c: Primitives, k: RawAes, e: Edk, aad: Octets, keyLen: nat): Option<Octets> {
    if e.providerId == [] || e.providerInfo == [] || e.ciphertext == [] then None
    else if e.providerId != k.namespace then None
    else if ParseProviderInfo(k, e.providerInfo).None? then None
    else if |e.ciphertext| != keyLen + TAG_LEN then None
    else c.open(k.rawKey, ParseProviderInfo(k, e.providerInfo).value, aad, e.ciphertext[..keyLen], e.ciphertext[keyLen..])
  }

  /** The key of the first encrypted key that unwraps. */
  ghost function FirstUnwrapped(c: Primitives, k: RawAes, edks: seq<Edk>, aad: Octets, keyLen: nat): Option<Octets> {
    if edks == [] then None else
      var key := Unwrap(c, k, edks[0], aad, keyLen);
      if key.Some? then key else FirstUnwrapped(c, k, edks[1..], aad, keyLen)
  }

  /** The outcome of a search: an error only for a context that cannot be serialized. */
  ghost function Search(c: Primitives, k: RawAes, edks: seq<Edk>, ctx: Context, alg: nat): DecryptCall {
    if AlgProps(alg).None? || !Encodable(ctx) then DecryptCall(false, None, []) else
      var key := FirstUnwrapped(c, k, edks, Encoded(ctx), AlgProps(alg).value.dataKeyLen);
      DecryptCall(true, key, if key.Some? then [Record(k.namespace, k.name, DECRYPTED_AND_VERIFIED)] else [])
  }

  /** A key is found exactly when some encrypted key unwraps, and it is what that one yields. */
  lemma {:induction false} SearchFinds(c: Primitives, k: RawAes, edks: seq<Edk>, aad: Octets, keyLen: nat)
    ensures FirstUnwrapped(c, k, edks, aad, keyLen).Some? <==> exists e :: e in edks && Unwrap(c, k, e, aad, keyLen).Some?
    ensures FirstUnwrapped(c, k, edks, aad, keyLen).Some? ==>
              exists e :: e in edks && Unwrap(c, k, e, aad, keyLen) == FirstUnwrapped(c, k, edks, aad, keyLen)
    decreases |edks|
  {
    hide Unwrap;
    if edks != [] {
      assert edks == [edks[0]] + edks[1..] && edks[0] in edks;
      SearchFinds(c, k, edks[1..], aad, keyLen);
    }
  }

  /** Searches the list; encrypted keys that do not open are passed over. */
  method OnDecrypt(c: Primitives, k: RawAes, edks: seq<Edk>, ctx: Context, order: seq<Pair>,
                   alg: nat) returns (r: DecryptCall)
    requires Lists(order, ctx) && AlgProps(alg).Some?
    ensures r == Search(c, k, edks, ctx, alg)
  {
    hide Encoded, AlgProps, ParseProviderInfo, Lists;
    var size := ContextSize(ctx, order);
    if size.None? { return DecryptCall(false, None, []); }
    var ok, aad := SerializeContext(ctx, order, [], size.value);
    assert [] + Encoded(ctx) == Encoded(ctx);
    if !ok { return DecryptCall(false, None, []); }
    var keyLen := AlgProps(alg).value.dataKeyLen;
    for i := 0 to |edks|
      invariant FirstUnwrapped(c, k, edks, Encoded(ctx), keyLen) == FirstUnwrapped(c, k, edks[i..], Encoded(ctx), keyLen)
    {
      var e := edks[i];
      assert edks[i..][1..] == edks[i + 1..];
      if e.providerId == [] || e.providerInfo == [] || e.ciphertext == [] { continue; }
      if e.providerId != k.namespace { continue; }
      var iv := ParseProviderInfo(k, e.providerInfo);
      if iv.None? { continue; }
      if |e.ciphertext| != keyLen + TAG_LEN { continue; }
      var key := c.open(k.rawKey, iv.value, aad, e.ciphertext[..keyLen], e.ciphertext[keyLen..]);
      if key.Some? {
        return DecryptCall(true, key, [Record(k.namespace, k.name, DECRYPTED_AND_VERIFIED)]);
      }
    }
    return DecryptCall(true, None, []);
  }

  // ---------- A keyring and its own keys ----------

  /**
   A keyring unwraps what it wrapped exactly when its namespace is not empty and the data key has the suite's
   length: encrypted keys with an empty provider id are passed over, and what is unwrapped always has that length.
   */
  lemma OwnKeyUnwraps(c: Primitives, k: RawAes, dataKey: Octets, ctx: Context, keyLen: nat, iv: Octets,
                      unwritten: nat -> Octets)
    requires LawfulAead(c) && keyLen > 0 && |iv| == IV_LEN && forall n :: |unwritten(n)| == n
    requires WrapKey(c, k, dataKey, ctx, keyLen, iv, unwritten).Some?
    ensures var e := WrapKey(c, k, dataKey, ctx, keyLen, iv, unwritten).value;
            Unwrap(c, k, e, Encoded(ctx), keyLen) == Some(dataKey) <==> k.namespace != [] && |dataKey| == keyLen
  {
    hide Encoded, BigEndian, ParseProviderInfo;
    var s := c.seal(k.rawKey, iv, Encoded(ctx), dataKey).value;
    var e := WrapKey(c, k, dataKey, ctx, keyLen, iv, unwritten).value;
    ProviderInfoExact(k, e.providerInfo, iv);
    if |dataKey| == keyLen {
      assert e.ciphertext[..keyLen] == s.ciphertext && e.ciphertext[keyLen..] == s.tag;
    }
  }

  // ---------- As a leaf of a keyring tree ----------

  ghost function AsLeaf(c: Primitives, k: RawAes, iv: Option<Octets>, random: Option<KeyBuffer>,
                        unwritten: nat -> Octets): LeafKeyring {
    LeafKeyring(
      (key, ctx, alg) => Contribute(c, k, key, ctx, alg, iv, random, unwritten),
      (edks, ctx, alg) => Search(c, k, edks, ctx, alg))
  }

  /** A relation that contains what this keyring wraps and never contradicts what it unwraps. */
  ghost predicate Respects(wraps: Wraps, c: Primitives, k: RawAes, ctx: Context, keyLen: nat, iv: Octets,
                           unwritten: nat -> Octets) {
    && (forall key :: WrapKey(c, k, key, ctx, keyLen, iv, unwritten).Some? ==>
          wraps(WrapKey(c, k, key, ctx, keyLen, iv, unwritten).value, key))
    && (forall e, key :: wraps(e, key) && Unwrap(c, k, e, Encoded(ctx), keyLen).Some? ==>
          Unwrap(c, k, e, Encoded(ctx), keyLen) == Some(key))
  }

  /** A raw AES keyring with a namespace meets every law that trees ask of a leaf. */
  lemma RawAesIsLawful(c: Primitives, k: RawAes, iv: Octets, random: Option<KeyBuffer>, unwritten: nat -> Octets,
                       wraps: Wraps, ctx: Context, alg: nat)
    requires LawfulAead(c) && k.namespace != [] && |iv| == IV_LEN && AlgProps(alg).Some?
    requires forall n :: |unwritten(n)| == n
    requires Respects(wraps, c, k, ctx, AlgProps(alg).value.dataKeyLen, iv, unwritten)
    ensures var l := AsLeaf(c, k, Some(iv), random, unwritten);
            SoundEncrypter(l, wraps, ctx, alg) && SoundDecrypter(l, wraps, ctx, alg) && KnowsItsOwn(l, wraps, ctx, alg)
  {
    hide Encoded, AlgProps, Unwrap, WrapKey, LawfulAead;
    var l, keyLen := AsLeaf(c, k, Some(iv), random, unwritten), AlgProps(alg).value.dataKeyLen;
    forall edks, key | AllWrap(edks, key, wraps)
      ensures l.onDecrypt(edks, ctx, alg).key.None? || l.onDecrypt(edks, ctx, alg).key == Some(key)
    {
      SearchFinds(c, k, edks, Encoded(ctx), keyLen);
    }
    forall before, edks | OwnAmong(l.onEncrypt(before, ctx, alg), edks, wraps, alg)
      ensures l.onDecrypt(edks, ctx, alg).key.Some?
    {
      var dataKey := l.onEncrypt(before, ctx, alg).key.value.octets;
      WrapNeedsContext(c, k, dataKey, ctx, keyLen, iv, unwritten);
      OwnKeyUnwraps(c, k, dataKey, ctx, keyLen, iv, unwritten);
      SearchFinds(c, k, edks, Encoded(ctx), keyLen);
    }
  }

  lemma WrapNeedsContext(c: Primitives, k: RawAes, dataKey: Octets, ctx: Context, keyLen: nat, iv: Octets,
                         unwritten: nat -> Octets)
    requires WrapKey(c, k, dataKey, ctx, keyLen, iv, unwritten).Some?
    ensures Encodable(ctx)
  {
  }
}
