/**
 A world for every suite in which all that the statements about messages assume holds at once, with primitives
 that refuse keys and IVs of the wrong length and more plaintext than AES-GCM takes. The assumptions can be met, and
 runs built on them show what the code lets through.
 */
module SmallWorld {
  import opened Bytes
  import opened Hkdf
  import opened Algorithms
  import opened Cipher
  import opened EncryptionContext
  import opened MessageHeader
  import opened FrameFormat
  import opened SessionModel
  import opened Reading
  import opened RoundTrip
  import opened Progress
  import opened EncryptProgress
  import E = EncryptRuns
  import R = SessionRuns

  const WRAPPED: Edk := Edk([1], [2], [3])

  /** What AES-GCM can encrypt under one IV: 2^36 - 32 octets. */
  const GCM_LIMIT: nat := 0xF_FFFF_FFE0

  predicate AesKey(key: Octets, iv: Octets) {
    (|key| == 16 || |key| == 24 || |key| == 32) && |iv| == IV_LEN
  }

  predicate Feasible(key: Octets, iv: Octets, text: Octets) {
    AesKey(key, iv) && |text| <= GCM_LIMIT
  }

  /** Primitives that hide nothing. Signatures are as long as their key. */
  function Transparent(): Primitives {
    Primitives(
      (key, iv, aad, plain) => if Feasible(key, iv, plain) then Some(Sealed(plain, Zeros(TAG_LEN))) else None,
      (key, iv, aad, text, tag) => if Feasible(key, iv, text) && tag == Zeros(TAG_LEN) then Some(text) else None,
      (sha, key, data) => Zeros(HashLen(sha)),
      (key, data) => if key == [] then None else Some(Repeat(7, |key|)),
      (key, data, sig) => sig == Repeat(7, |key|))
  }

  /** The manager always answers with one data key under the given suite. */
  function Materials(alg: nat): EncMaterials
    requires AlgProps(alg).Some?
  {
    var p := AlgProps(alg).value;
    EncMaterials(alg, Zeros(p.dataKeyLen), [WRAPPED],
                 if p.signatureLen != 0 then Some(Repeat(1, p.signatureLen)) else None, map[])
  }

  function Small(alg: nat): World
    requires AlgProps(alg).Some?
  {
    Holding(alg, [WRAPPED])
  }

  /** The manager gives the data key wrapped in the given ways. */
  function Holding(alg: nat, keys: seq<Edk>): World
    requires AlgProps(alg).Some?
  {
    var p := AlgProps(alg).value;
    World(
      Transparent(),
      request => Some(Materials(alg).(edks := keys)),
      request => Some(DecMaterials(alg, Zeros(p.dataKeyLen), Some(Repeat(2, p.signatureLen)))),
      n => Some(Zeros(n)),
      0)
  }

  /** The strictest policy that admits the suite. */
  function PolicyFor(alg: nat): Policy {
    if IsCommitting(alg) then RequireEncryptRequireDecrypt else ForbidEncryptAllowDecrypt
  }

  /** A fresh encrypting session with its policy, bound and frame size set. */
  function Start(alg: nat, frameSize: nat, bound: nat): Session {
    SetFrameSize(SetMessageBound(SetPolicy(NewSession(Encrypt), PolicyFor(alg)), bound), frameSize)
  }

  lemma TransparentIsLawful()
    ensures Lawful(Transparent())
  {
  }

  /** Wrapped keys that leave the header far below the limit on its size. */
  predicate FewOctets(keys: seq<Edk>) {
    keys != [] && EdksSize(keys) <= 0x100_0000
  }

  lemma OneIsFew()
    ensures FewOctets([WRAPPED])
  {
    assert EdksSize([WRAPPED]) == 9;
  }

  lemma EmptyContext()
    ensures Encoded(map[]) == [] && Encodable(map[])
  {
  }

  /** Nothing stands in the way of a header whose parts have the right lengths. */
  lemma HeaderSeals(p: Suite, key: Octets, h: Header)
    requires AlgProps(h.algId) == Some(p) && h.encCtx == map[] && FewOctets(h.edks) && AesKey(key, HEADER_IV)
    requires |h.iv| == IV_LEN && |h.authTag| == TAG_LEN && |h.messageId| <= 32 && |h.suiteData| <= 32
    ensures SealHeader(Transparent(), p, key, h).SealedHeader?
  {
    hide AlgProps, MessageHeader.WriteHeader, AuthenticatedPart, Encoded, LawfulHmac, EdksSize;
    EmptyContext();
    WrittenSize(p, h);
    TransparentIsLawful();
    var size := HeaderSize(p, h);
    assert HeaderSizeReturned(h) == size;
    var first := MessageHeader.WriteHeader(p, h);
    SignedHeaderVerifies(Transparent(), p, key, first[..size - AuthTagLen(p)]);
    var tag := SignHeader(Transparent(), p, key, first[..size - AuthTagLen(p)]).value;
    E.TagFitsSecondWrite(p, h, tag);
    WrittenSize(p, WithTag(p, h, tag));
  }

  lemma KeyLengths(alg: nat)
    requires AlgProps(alg).Some?
    ensures var n := AlgProps(alg).value.dataKeyLen; n == 16 || n == 24 || n == 32
  {
  }

  lemma KeyDerives(p: Suite, alg: nat, messageId: Octets)
    requires AlgProps(alg) == Some(p) && |messageId| == MessageIdLen(p)
    ensures LawfulHmac(Transparent().hmac)
    ensures var d := DeriveKey(Transparent().hmac, p, Zeros(p.dataKeyLen), p.commitmentLen, messageId);
            d.Some? && |d.value.contentKey| == p.dataKeyLen && |d.value.commitment| <= 32
  {
    hide AlgProps, Derive;
  }

  /** The session has come to its first header, with these materials and this message id. */
  ghost predicate HeaderMade(alg: nat, keys: seq<Edk>, id: Octets, s: Session, o: Outcome)
    requires AlgProps(alg).Some?
  {
    && o.error.None? && o.s.suite == AlgProps(alg) && o.s.frameSize == s.frameSize && o.s.sizeKnown == s.sizeKnown
    && AesKey(o.s.contentKey, HEADER_IV) && o.s.hist.generated == Some(Materials(alg).(edks := keys))
    && o.s.header.messageId == id && o.s.policy == s.policy && o.s.maxEdks == s.maxEdks && o.s.hasCmm == s.hasCmm
    && (AlgProps(alg).value.sha.NoSha? ==> o.s.contentKey == Materials(alg).dataKey)
    && o.s.stage.WriteHeader? && o.s.hist.ivs == s.hist.ivs + [HEADER_IV] && |o.s.headerCopy| > 0
    && o.consumed == 0 && o.emitted == []
  }

  lemma HeaderIsMade(alg: nat, keys: seq<Edk>, w: World, id: Octets, s: Session)
    requires AlgProps(alg).Some? && w.prims == Transparent() && Lawful(w.prims) && FewOctets(keys)
    requires |id| == MessageIdLen(AlgProps(alg).value) && s.suite == AlgProps(alg)
    requires s.policy == PolicyFor(alg) && s.frameSize <= UINT32_MAX
    ensures HeaderMade(alg, keys, id, s, GenKeyFor(w, s, AlgProps(alg).value, Materials(alg).(edks := keys), id))
  {
    hide SealHeader, LawfulAead, LawfulHmac, DeriveKey, AlgProps, EdksSize;
    var p := AlgProps(alg).value;
    var m := Materials(alg).(edks := keys);
    KeyLengths(alg);
    KeyDerives(p, alg, id);
    E.RoomMatches(p, alg, s.policy);
    var d := DeriveKey(Transparent().hmac, p, Zeros(p.dataKeyLen), p.commitmentLen, id).value;
    HeaderSeals(p, d.contentKey, BuildHeader(s.frameSize, p, m, id, d.commitment));
    SealKeepsId(p, d.contentKey, BuildHeader(s.frameSize, p, m, id, d.commitment));
  }

  /** A key is generated in the small world, whatever message id is drawn. */
  lemma KeyIsGenerated(alg: nat, keys: seq<Edk>, w: World, id: Octets, s: Session)
    requires AlgProps(alg).Some? && w == Holding(alg, keys).(random := w.random) && Lawful(w.prims) && FewOctets(keys)
    requires var n := MessageIdLen(AlgProps(alg).value); w.random(n) == Some(id) && |id| == n
    requires s.policy == PolicyFor(alg) && s.frameSize <= UINT32_MAX && s.maxEdks == 0
    ensures HeaderMade(alg, keys, id, s, TryGenKey(w, s))
  {
    hide GenKeyFor, LawfulAead, LawfulHmac, AlgProps, EdksSize;
    var m := Materials(alg).(edks := keys);
    HeaderIsMade(alg, keys, w, id, Supplied(s, m).(signCtx := SignatureStart(m), cmmSuccess := true));
  }

  lemma SealKeepsId(p: Suite, key: Octets, h: Header)
    requires SealHeader(Transparent(), p, key, h).SealedHeader?
    ensures var r := SealHeader(Transparent(), p, key, h); r.header.messageId == h.messageId && |r.octets| > 0
  {
    hide MessageHeader.WriteHeader, SignHeader;
  }

  lemma WillNotFail(alg: nat, keys: seq<Edk>, s: Session, plain: Octets)
    requires AlgProps(alg).Some? && s.suite == AlgProps(alg) && AesKey(s.contentKey, HEADER_IV)
    requires s.hist.generated == Some(Materials(alg).(edks := keys)) && |plain| < SizeLimit(s) && s.frameSize <= UINT32_MAX
    ensures Dependable(Holding(alg, keys), s, plain)
  {
    hide AlgProps, FrameAad;
  }

  lemma StartIsReady(alg: nat, keys: seq<Edk>, s: Session, plain: Octets)
    requires AlgProps(alg).Some? && FewOctets(keys) && s.stage.Config? && s.hasCmm
    requires s.policy == PolicyFor(alg) && s.frameSize <= UINT32_MAX && s.maxEdks == 0 && |plain| < SizeLimit(s)
    ensures Lawful(Holding(alg, keys).prims) && Ready(Holding(alg, keys), s, plain)
  {
    hide TryGenKey, LawfulAead, LawfulHmac, Dependable, AlgProps;
    var w := Holding(alg, keys);
    TransparentIsLawful();
    KeyIsGenerated(alg, keys, w, Zeros(MessageIdLen(AlgProps(alg).value)), s.(stage := GenKey));
    WillNotFail(alg, keys, TryGenKey(w, s.(stage := GenKey)).s, plain);
  }

  lemma ResultIsCompatible(alg: nat, es: Session)
    requires AlgProps(alg).Some? && Lawful(Small(alg).prims) && E.EncInv(Small(alg), es) && es.stage.Done?
    ensures Finished(Small(alg), es) && Compatible(Small(alg), es, Small(alg), Settings(PolicyFor(alg), 0, Decrypt))
  {
    hide E.FramesSealed, E.IvsInOrder, E.TrailerWritten, E.Closed, DeriveKey, HeaderVerifies, HeaderSizeReturned,
      MessageHeader.WriteHeader, AuthenticatedPart, Encodable, LawfulAead, LawfulHmac, AlgProps;
  }

  /**
   Under every suite every plaintext goes out and comes back, framed within the limit on frames or unframed within
   the limit on size.
   */
  lemma GoesOutAndComesBack(alg: nat, plain: Octets, frameSize: nat, sender: Driver, receiver: Driver)
    returns (calls: nat, calls': nat)
    requires AlgProps(alg).Some? && frameSize <= UINT32_MAX && |plain| <= UINT64_MAX
    requires |plain| < if frameSize == 0 then MAX_UNFRAMED_PLAINTEXT_SIZE else frameSize * UINT32_MAX
    ensures Lawful(Small(alg).prims)
    ensures var s := SetMessageSize(Small(alg), Start(alg, frameSize, UINT64_MAX), |plain|);
            var sent := AfterCalls(Small(alg), s, plain, sender, 0, calls);
            var c := Settings(PolicyFor(alg), 0, Decrypt);
            var received := AfterCalls(Small(alg), Configured(c), sent.hist.emitted, receiver, 0, calls');
            sent.stage.Done? && received.stage.Done? && received.hist.emitted == plain
  {
    hide AfterCalls, Compatible, Finished, Readable, Message, Ready, LawfulAead, LawfulHmac, AlgProps, TryEncryptBody;
    TransparentIsLawful();
    var s := SetMessageSize(Small(alg), Start(alg, frameSize, UINT64_MAX), |plain|);
    OneIsFew();
    StartIsReady(alg, [WRAPPED], s, plain);
    assert Feeding(Small(alg), s, plain);
    calls := EncryptionFinishes(Small(alg), s, plain, sender, 0);
    var sent := AfterCalls(Small(alg), s, plain, sender, 0, calls);
    ResultIsCompatible(alg, sent);
    var c := Settings(PolicyFor(alg), 0, Decrypt);
    var t := SentMessageReads(Small(alg), sent, Small(alg), c);
    calls' := DecryptionEnds(Small(alg), c, t, sent.hist.emitted, Configured(c), receiver, 0);
  }

  // ---------- Messages at the limit on frames ----------

  /**
   With every suite and frame size there are messages of exactly as many full frames as leave only the last sequence
   number: the order of feeding and declaring decides about them.
   */
  lemma OrderDecidesHere(alg: nat, plain: Octets, frameSize: nat, driver: Driver) returns (n: nat, m: nat)
    requires AlgProps(alg).Some? && 0 < frameSize <= UINT32_MAX
    requires frameSize * (UINT32_MAX - 1) <= |plain| < frameSize * UINT32_MAX
    ensures Lawful(Small(alg).prims) && |plain| <= UINT64_MAX
    ensures var s := Start(alg, frameSize, UINT64_MAX);
            && AfterCalls(Small(alg), s, plain, driver, 0, n).stage.Failed?
            && var t := AfterCalls(Small(alg), SetMessageSize(Small(alg), s, |plain|), plain, driver, 0, m);
            t.stage.Done? && t.hist.consumed == plain
  {
    hide AfterCalls, Ready, LawfulAead, LawfulHmac, AlgProps, TryEncryptBody;
    TransparentIsLawful();
    MulMonotone(frameSize, UINT32_MAX, UINT32_MAX);
    var s := Start(alg, frameSize, UINT64_MAX);
    OneIsFew();
    StartIsReady(alg, [WRAPPED], SetMessageSize(Small(alg), s, |plain|), plain);
    assert Feeding(Small(alg), s, plain);
    n, m := OrderDecidesAtTheLimit(Small(alg), s, plain, driver);
  }

  // ---------- Messages with more keys than a header can count ----------

  function Copies(n: nat): (keys: seq<Edk>)
    ensures |keys| == n
  {
    if n == 0 then [] else [WRAPPED] + Copies(n - 1)
  }

  lemma {:induction false} CopiesSize(n: nat)
    ensures EdksSize(Copies(n)) == 9 * n
  {
    if n > 0 {
      CopiesSize(n - 1);
      assert Copies(n)[1..] == Copies(n - 1);
    }
  }

  lemma StartIsARun(w: World, alg: nat, frameSize: nat, bound: nat, settings: seq<Event>)
    requires Lawful(w.prims) && frameSize <= UINT32_MAX && bound <= UINT64_MAX
    requires settings == [ChoosePolicy(PolicyFor(alg)), DeclareBound(bound), ChooseFrameSize(frameSize)]
    ensures forall e :: e in settings ==> LegalEvent(e) && !e.Restart?
    ensures Run(Live(w, NewSession(Encrypt)), settings) == Live(w, Start(alg, frameSize, bound))
  {
    hide LawfulAead, LawfulHmac;
    var l0 := Live(w, NewSession(Encrypt));
    var l1 := Apply(l0, settings[0]);
    var l2 := Apply(l1, settings[1]);
    assert settings[1..][1..] == [settings[2]];
    assert Run(l2, [settings[2]]) == Apply(l2, settings[2]);
    assert Run(l1, settings[1..]) == Run(l2, [settings[2]]);
  }

  /**
   Under every suite there is a run that completes a message with more wrapped keys than the header counts, without an
   error; no receiver finds them in it.
   */
  lemma KeysAreLost(alg: nat, n: nat, plain: Octets) returns (events: seq<Event>)
    requires AlgProps(alg).Some? && UINT16_MAX < n <= 0x10_0000 && |plain| < MAX_UNFRAMED_PLAINTEXT_SIZE
    ensures Lawful(Holding(alg, Copies(n)).prims) && forall e :: e in events ==> LegalEvent(e) && !e.Restart?
    ensures var s := R.RunOf(Holding(alg, Copies(n)), Encrypt, events).s;
            && s.stage.Done? && s.hist.consumed == plain && s.header.edks == Copies(n)
            && !KeysArrive(s, 0)
  {
    hide AfterCalls, Ready, LawfulAead, LawfulHmac, AlgProps, TryEncryptBody, E.EncInv, EdksSize, KeysArrive;
    var w := Holding(alg, Copies(n));
    TransparentIsLawful();
    CopiesSize(n);
    var s0 := Start(alg, 0, UINT64_MAX);
    var s := SetMessageSize(w, s0, |plain|);
    StartIsReady(alg, Copies(n), s, plain);
    StartIsFeeding(w, s, plain);
    var driver: Driver := _ => Offer(0, 0);
    var calls := EncryptionFinishes(w, s, plain, driver, 0);
    var sent := AfterCalls(w, s, plain, driver, 0, calls);
    var feeding := CallsAreEvents(w, s, plain, driver, 0, calls);
    var settings := [ChoosePolicy(PolicyFor(alg)), DeclareBound(UINT64_MAX), ChooseFrameSize(0)];
    StartIsARun(w, alg, 0, UINT64_MAX, settings);
    var declared := [DeclareSize(|plain|)] + feeding;
    events := settings + declared;
    R.RunConcat(Live(w, NewSession(Encrypt)), settings, declared);
    assert declared[1..] == feeding;
    assert Run(Live(w, s0), declared) == Live(w, sent);
    SentKeys(alg, Copies(n), sent);
    KeysArriveExactly(w, sent, 0);
  }

  lemma StartIsFeeding(w: World, s: Session, plain: Octets)
    requires Lawful(w.prims) && s.stage.Config? && s.mode.Encrypt? && s.hist == NO_HISTORY && s.dataSoFar == 0
    requires s.frameSize <= UINT32_MAX && s.preciseSize == |plain| <= UINT64_MAX && s.sizeKnown
    ensures Feeding(w, s, plain)
  {
    hide LawfulAead, LawfulHmac;
  }

  lemma SentKeys(alg: nat, keys: seq<Edk>, es: Session)
    requires AlgProps(alg).Some?
    requires var w := Holding(alg, keys); Lawful(w.prims) && E.EncInv(w, es) && es.stage.Done?
    ensures es.header.edks == keys
  {
    hide E.FramesSealed, E.IvsInOrder, E.TrailerWritten, E.Closed, DeriveKey, HeaderVerifies, HeaderSizeReturned, SealHeader,
      MessageHeader.WriteHeader, AuthenticatedPart, Encodable, LawfulAead, LawfulHmac, AlgProps;
  }
}
