/**
 Which encryptions of a run, across all its messages, use one content key with one IV twice. Within a message this
 never happens; between messages it happens exactly when their content keys are the same, and that is decided by
 what the materials manager and the random source handed out.
 */
module KeyReuse {
  import opened Bytes
  import opened Hkdf
  import opened Algorithms
  import opened Cipher
  import opened EncryptionContext
  import opened MessageHeader
  import opened SessionModel
  import opened SmallWorld
  import opened RecencyList
  import opened LocalCache
  import opened CacheIds
  import opened CachingCmm
  import E = EncryptRuns
  import R = SessionRuns

  // ---------- All messages of a run ----------

  /** Every message of a run as its last event left it; a restart ends one and begins the next. */
  ghost function Messages(l: Live, events: seq<Event>): (ms: seq<Live>)
    requires Lawful(l.w.prims) && forall e :: e in events ==> LegalEvent(e)
    ensures ms != [] && forall i :: 0 <= i < |ms| ==> Lawful(ms[i].w.prims)
    decreases |events|
  {
    if events == [] then [l] else
      (if events[0].Restart? then [l] else []) + Messages(Apply(l, events[0]), events[1..])
  }

  lemma {:induction false} LastMessage(l: Live, events: seq<Event>)
    requires Lawful(l.w.prims) && forall e :: e in events ==> LegalEvent(e)
    ensures var ms := Messages(l, events); ms[|ms| - 1] == Run(l, events)
    decreases |events|
  {
    hide Apply, LegalEvent, LawfulAead, LawfulHmac;
    if events != [] {
      LastMessage(Apply(l, events[0]), events[1..]);
    }
  }

  lemma {:induction false} MessageKeeps(l: Live, events: seq<Event>, i: nat)
    requires Lawful(l.w.prims) && R.Inv(l) && forall e :: e in events ==> LegalEvent(e)
    requires i < |Messages(l, events)|
    ensures R.Inv(Messages(l, events)[i])
    decreases |events|
  {
    hide Apply, R.Inv, LegalEvent, LawfulAead, LawfulHmac;
    if events != [] && !(events[0].Restart? && i == 0) {
      R.ApplyKeeps(l, events[0]);
      MessageKeeps(Apply(l, events[0]), events[1..], if events[0].Restart? then i - 1 else i);
    }
  }

  /** The messages of a run on a new session. */
  ghost function MessagesOf(w: World, mode: Mode, events: seq<Event>): (ms: seq<Live>)
    requires Lawful(w.prims) && forall e :: e in events ==> LegalEvent(e)
    ensures forall i :: 0 <= i < |ms| ==> Lawful(ms[i].w.prims)
  {
    Messages(Live(w, NewSession(mode)), events)
  }

  lemma MessageInv(w: World, mode: Mode, events: seq<Event>, i: nat)
    requires Lawful(w.prims) && !mode.InvalidMode? && forall e :: e in events ==> LegalEvent(e)
    requires i < |MessagesOf(w, mode, events)|
    ensures R.Inv(MessagesOf(w, mode, events)[i])
  {
    hide Messages, R.Inv, LawfulAead, LawfulHmac, NewSession;
    R.NewSessionInv(w, mode);
    MessageKeeps(Live(w, NewSession(mode)), events, i);
  }

  // ---------- Key and IV pairs ----------

  /** A message that has encrypted something, be it only its header. */
  predicate Sealing(m: Live) {
    m.s.mode.Encrypt? && m.s.hist.ivs != []
  }

  datatype Use = Use(key: Octets, iv: Octets)

  function UseAt(m: Live, i: nat): Use
    requires i < |m.s.hist.ivs|
  {
    Use(m.s.contentKey, m.s.hist.ivs[i])
  }

  /** Encryption `i` of one message and encryption `j` of another or the same share key and IV only when they must. */
  lemma SharedUses(a: Live, b: Live, i: nat, j: nat)
    requires Lawful(a.w.prims) && Lawful(b.w.prims) && R.Inv(a) && R.Inv(b) && Sealing(a) && Sealing(b)
    requires i < |a.s.hist.ivs| && j < |b.s.hist.ivs|
    ensures UseAt(a, i) == UseAt(b, j) <==> a.s.contentKey == b.s.contentKey && i == j
  {
    hide E.BodyInv, E.Closed, E.TrailerWritten, E.AllBody, E.Opened, LawfulAead, LawfulHmac, FrameIv;
    if a.s.hist.ivs[i] == b.s.hist.ivs[j] {
      FrameIvInjective(i, j);
    }
  }

  /** Encryption `i` of message `m` and encryption `j` of message `n` are different ones under one key and IV. */
  ghost predicate Repeated(ms: seq<Live>, m: nat, i: nat, n: nat, j: nat) {
    && m < |ms| && n < |ms| && Sealing(ms[m]) && Sealing(ms[n]) && i < |ms[m].s.hist.ivs| && j < |ms[n].s.hist.ivs|
    && (m, i) != (n, j) && UseAt(ms[m], i) == UseAt(ms[n], j)
  }

  ghost predicate SomeUseRepeats(ms: seq<Live>) {
    exists m, i, n, j :: Repeated(ms, m, i, n, j)
  }

  ghost predicate KeyRecurs(ms: seq<Live>, m: nat, n: nat) {
    m < n < |ms| && Sealing(ms[m]) && Sealing(ms[n]) && ms[m].s.contentKey == ms[n].s.contentKey
  }

  /** In every run, finished or failed, no message uses a key and IV pair twice. */
  lemma NoRepeatWithinMessage(w: World, mode: Mode, events: seq<Event>, m: nat, i: nat, j: nat)
    requires Lawful(w.prims) && !mode.InvalidMode? && forall e :: e in events ==> LegalEvent(e)
    ensures !Repeated(MessagesOf(w, mode, events), m, i, m, j)
  {
    hide MessagesOf, R.Inv, LawfulAead, LawfulHmac;
    var ms := MessagesOf(w, mode, events);
    if Repeated(ms, m, i, m, j) {
      MessageInv(w, mode, events, m);
      SharedUses(ms[m], ms[m], i, j);
    }
  }

  /**
   Over all messages of a run, a key and IV pair is used twice if and only if two different messages have the same
   content key.
   */
  lemma RepeatsExactlyWhenKeysRecur(w: World, mode: Mode, events: seq<Event>)
    requires Lawful(w.prims) && !mode.InvalidMode? && forall e :: e in events ==> LegalEvent(e)
    ensures var ms := MessagesOf(w, mode, events);
            SomeUseRepeats(ms) <==> exists m, n :: KeyRecurs(ms, m, n)
  {
    hide MessagesOf, R.Inv, LawfulAead, LawfulHmac;
    var ms := MessagesOf(w, mode, events);
    if SomeUseRepeats(ms) {
      var m: nat, i: nat, n: nat, j: nat :| Repeated(ms, m, i, n, j);
      MessageInv(w, mode, events, m);
      MessageInv(w, mode, events, n);
      SharedUses(ms[m], ms[n], i, j);
      assert KeyRecurs(ms, Min(m, n), if m < n then n else m);
    }
    forall m: nat, n: nat | KeyRecurs(ms, m, n)
      ensures Repeated(ms, m, 0, n, 0)
    {
      MessageInv(w, mode, events, m);
      MessageInv(w, mode, events, n);
      SharedUses(ms[m], ms[n], 0, 0);
    }
  }

  // ---------- Where content keys come from ----------

  /** What a content key is derived from. */
  datatype Source = Source(suite: Suite, dataKey: Octets, messageId: Octets)

  predicate ProperSource(x: Source) {
    AlgProps(x.suite.algId) == Some(x.suite) && |x.dataKey| == x.suite.dataKeyLen && |x.messageId| == MessageIdLen(x.suite)
  }

  ghost function ContentKey(hmac: Hmac, x: Source): (key: Octets)
    requires LawfulHmac(hmac) && ProperSource(x)
    ensures |key| == x.suite.dataKeyLen
  {
    SuiteFits(x);
    DeriveKey(hmac, x.suite, x.dataKey, x.suite.commitmentLen, x.messageId).value.contentKey
  }

  lemma SuiteFits(x: Source)
    requires ProperSource(x)
    ensures Derivable(x.suite, x.suite.commitmentLen, x.messageId)
    ensures !x.suite.sha.NoSha? ==> 1 <= x.suite.dataKeyLen <= HashLen(x.suite.sha)
  {
  }

  function SourceOf(s: Session): Source
    requires s.suite.Some? && s.hist.generated.Some?
  {
    Source(s.suite.value, s.hist.generated.value.dataKey, s.header.messageId)
  }

  lemma SealingSource(m: Live)
    requires Lawful(m.w.prims) && R.Inv(m) && Sealing(m)
    ensures Sourced(m)
    ensures m.s.contentKey == ContentKey(m.w.prims.hmac, SourceOf(m.s))
  {
    hide E.EncInv, LawfulAead, LawfulHmac, AlgProps, DeriveKey, HeaderVerifies, MessageHeader.WriteHeader, Encodable;
    E.SealedIsOpened(m.w, m.s);
  }

  /** Without a key derivation the data key is the content key; with one, suite and message id take part. */
  predicate SameSource(a: Source, b: Source) {
    if a.suite.sha.NoSha? && b.suite.sha.NoSha? then a.dataKey == b.dataKey else a == b
  }

  datatype MacCall = MacCall(sha: Sha, key: Octets, data: Octets)

  function Mac(hmac: Hmac, c: MacCall): Octets {
    hmac(c.sha, c.key, c.data)
  }

  function ExtractCall(x: Source): MacCall {
    MacCall(x.suite.sha, KeySalt(x.suite, x.messageId), x.dataKey)
  }

  function ExpandCall(hmac: Hmac, x: Source): MacCall {
    MacCall(x.suite.sha, Mac(hmac, ExtractCall(x)), KeyInfo(x.suite, x.messageId) + [1])
  }

  lemma DerivedKey(hmac: Hmac, x: Source)
    requires LawfulHmac(hmac) && ProperSource(x) && !x.suite.sha.NoSha?
    ensures x.suite.dataKeyLen <= |Mac(hmac, ExpandCall(hmac, x))|
    ensures ContentKey(hmac, x) == Mac(hmac, ExpandCall(hmac, x))[..x.suite.dataKeyLen]
  {
    hide DeriveKey, AlgProps, KeySalt, KeyInfo;
    SuiteFits(x);
    ContentKeyIsFirstBlock(hmac, x.suite, x.dataKey, x.suite.commitmentLen, x.messageId);
  }

  /**
   The accidents of HMAC that give different sources one content key: of the calls made for the two keys, two that
   differ have the same outcome, or a derived key is the data key of a message without derivation. Equal calls to
   expand are keyed by the outcomes of the calls to extract.
   */
  ghost predicate Accident(hmac: Hmac, a: Source, b: Source)
    requires LawfulHmac(hmac) && ProperSource(a) && ProperSource(b)
  {
    if a.suite.sha.NoSha? && b.suite.sha.NoSha? then false
    else if a.suite.sha.NoSha? then Cut(hmac, ExpandCall(hmac, b), b.suite.dataKeyLen) == a.dataKey
    else if b.suite.sha.NoSha? then Cut(hmac, ExpandCall(hmac, a), a.suite.dataKeyLen) == b.dataKey
    else
      || (ExtractCall(a) != ExtractCall(b) && ExpandCall(hmac, a) == ExpandCall(hmac, b))
      || (ExpandCall(hmac, a) != ExpandCall(hmac, b)
          && Cut(hmac, ExpandCall(hmac, a), a.suite.dataKeyLen) == Cut(hmac, ExpandCall(hmac, b), b.suite.dataKeyLen))
  }

  function Cut(hmac: Hmac, c: MacCall, n: nat): Octets {
    var out := Mac(hmac, c);
    if n <= |out| then out[..n] else out
  }

  lemma InfoDecides(a: Source, b: Source)
    requires ProperSource(a) && ProperSource(b)
    requires KeyInfo(a.suite, a.messageId) + [1] == KeyInfo(b.suite, b.messageId) + [1]
    ensures a.suite == b.suite && (a.suite.version.V1? ==> a.messageId == b.messageId)
  {
    hide AlgProps, BigEndian, Ascii;
    var i, j := KeyInfo(a.suite, a.messageId), KeyInfo(b.suite, b.messageId);
    assert i == (i + [1])[..|i|] && j == (j + [1])[..|j|];
    assert BigEndian(a.suite.algId, 2) == i[..2] == j[..2] == BigEndian(b.suite.algId, 2);
    RadixValues();
    BigEndianInjective(a.suite.algId, b.suite.algId, 2);
    if a.suite.version.V1? {
      assert a.messageId == i[2..] == j[2..] == b.messageId;
    }
  }

  lemma CallsDecide(hmac: Hmac, a: Source, b: Source)
    requires ProperSource(a) && ProperSource(b)
    requires ExtractCall(a) == ExtractCall(b) && ExpandCall(hmac, a) == ExpandCall(hmac, b)
    ensures a == b
  {
    hide AlgProps, KeyInfo;
    InfoDecides(a, b);
  }

  /** Two content keys are the same exactly when their sources are or such an accident happens. */
  lemma SourcesDecide(hmac: Hmac, a: Source, b: Source)
    requires LawfulHmac(hmac) && ProperSource(a) && ProperSource(b)
    ensures ContentKey(hmac, a) == ContentKey(hmac, b) <==> SameSource(a, b) || Accident(hmac, a, b)
  {
    hide AlgProps, KeyInfo, KeySalt, LawfulHmac;
    if !a.suite.sha.NoSha? {
      DerivedKey(hmac, a);
    }
    if !b.suite.sha.NoSha? {
      DerivedKey(hmac, b);
    }
    if !a.suite.sha.NoSha? && !b.suite.sha.NoSha? && ExpandCall(hmac, a) == ExpandCall(hmac, b) {
      SameSuites(hmac, a, b);
      if ExtractCall(a) == ExtractCall(b) {
        CallsDecide(hmac, a, b);
      }
    }
  }

  lemma SameSuites(hmac: Hmac, a: Source, b: Source)
    requires ProperSource(a) && ProperSource(b) && ExpandCall(hmac, a) == ExpandCall(hmac, b)
    ensures a.suite == b.suite
  {
    hide AlgProps, KeyInfo;
    InfoDecides(a, b);
  }

  predicate Sourced(m: Live) {
    Sealing(m) && m.s.suite.Some? && m.s.hist.generated.Some? && ProperSource(SourceOf(m.s))
  }

  ghost predicate SourceRecurs(hmac: Hmac, ms: seq<Live>, m: nat, n: nat)
    requires LawfulHmac(hmac)
  {
    && m < n < |ms| && Sourced(ms[m]) && Sourced(ms[n])
    && var a, b := SourceOf(ms[m].s), SourceOf(ms[n].s);
    SameSource(a, b) || Accident(hmac, a, b)
  }

  /**
   A key and IV pair is used twice in a run if and only if the manager hands out one data key for two messages, and
   these either have no key derivation or agree in suite and message id, or HMAC has an accident.
   */
  lemma RepeatsExactlyWhenSourcesRecur(w: World, mode: Mode, events: seq<Event>)
    requires Lawful(w.prims) && !mode.InvalidMode? && forall e :: e in events ==> LegalEvent(e)
    requires var ms := MessagesOf(w, mode, events); forall i :: 0 <= i < |ms| ==> ms[i].w.prims.hmac == w.prims.hmac
    ensures var ms := MessagesOf(w, mode, events);
            SomeUseRepeats(ms) <==> exists m, n :: SourceRecurs(w.prims.hmac, ms, m, n)
  {
    hide MessagesOf, R.Inv, LawfulAead, LawfulHmac, ProperSource, SourceOf, Accident, SameSource, SomeUseRepeats;
    var ms := MessagesOf(w, mode, events);
    RepeatsExactlyWhenKeysRecur(w, mode, events);
    forall m: nat, n: nat | m < n < |ms| && Sealing(ms[m]) && Sealing(ms[n])
      ensures KeyRecurs(ms, m, n) <==> SourceRecurs(w.prims.hmac, ms, m, n)
    {
      MessageInv(w, mode, events, m);
      MessageInv(w, mode, events, n);
      SealingSource(ms[m]);
      SealingSource(ms[n]);
      SourcesDecide(w.prims.hmac, SourceOf(ms[m].s), SourceOf(ms[n].s));
    }
  }

  // ---------- A run that repeats a pair ----------

  /** The first call of a message: the header is sealed, under the data key itself if the suite derives none. */
  lemma HeaderIsSealed(alg: nat, w: World, id: Octets, s: Session)
    requires AlgProps(alg).Some? && w == Small(alg).(random := w.random) && Lawful(w.prims)
    requires var n := MessageIdLen(AlgProps(alg).value); w.random(n) == Some(id) && |id| == n
    requires s.stage.Config? && s.mode.Encrypt? && s.hasCmm && s.hist.ivs == []
    requires s.policy == PolicyFor(alg) && s.frameSize <= UINT32_MAX && s.maxEdks == 0
    ensures var t := Process(w, s, [], true, 0).s;
            && t.mode.Encrypt? && t.hasCmm && t.policy == s.policy && t.maxEdks == 0 && t.frameSize == s.frameSize
            && t.header.messageId == id && t.hist.ivs == [HEADER_IV]
            && (AlgProps(alg).value.sha.NoSha? ==> t.contentKey == Materials(alg).dataKey)
  {
    hide TryGenKey, LawfulAead, LawfulHmac, AlgProps;
    var s1 := s.(stage := GenKey);
    OneIsFew();
    KeyIsGenerated(alg, [WRAPPED], w, id, s1);
    R.GenKeyRecords(w, s1, []);
    var s2 := TryGenKey(w, s1).s;
    assert Process(w, s2, [], true, 0).s == s2.(outEstimate := |s2.headerCopy|);
    assert Process(w, s1, [], true, 0).s == Process(w, s2, [], true, 0).s;
  }

  /**
   With a suite that derives no key, a manager that gives one data key twice is enough: two messages with different
   ids seal their headers under one key and IV.
   */
  lemma OneKeyTwoMessages(alg: nat) returns (events: seq<Event>)
    requires AlgProps(alg).Some? && AlgProps(alg).value.sha.NoSha?
    ensures Lawful(Small(alg).prims) && forall e :: e in events ==> LegalEvent(e)
    ensures var ms := MessagesOf(Small(alg), Encrypt, events);
            Repeated(ms, 0, 0, 1, 0) && ms[0].s.header.messageId != ms[1].s.header.messageId
  {
    hide LawfulAead, LawfulHmac, AlgProps, Process;
    TransparentIsLawful();
    var n := MessageIdLen(AlgProps(alg).value);
    var w := Small(alg);
    var w' := w.(random := n => Some(Repeat(1, n)));
    events := [ChoosePolicy(ForbidEncryptAllowDecrypt), Feed([], true, 0), Restart(Encrypt, w'), Feed([], true, 0)];
    var l0 := Live(w, NewSession(Encrypt));
    var l1 := Apply(l0, events[0]);
    NotCommitting(alg);
    HeaderIsSealed(alg, w, Zeros(n), l1.s);
    var l2 := Apply(l1, events[1]);
    var l3 := Apply(l2, events[2]);
    HeaderIsSealed(alg, w', Repeat(1, n), l3.s);
    var l4 := Apply(l3, events[3]);
    assert events[1..][1..] == events[2..] && events[2..][1..] == [events[3]];
    assert Messages(l3, [events[3]]) == [l4];
    assert Messages(l2, events[2..]) == [l2, l4];
    assert Messages(l1, events[1..]) == [l2, l4];
    assert MessagesOf(w, Encrypt, events) == [l2, l4];
    assert Zeros(n)[0] != Repeat(1, n)[0];
  }

  lemma NotCommitting(alg: nat)
    requires AlgProps(alg).Some? && AlgProps(alg).value.sha.NoSha?
    ensures PolicyFor(alg) == ForbidEncryptAllowDecrypt
  {
  }

  // ---------- The caching manager does give one data key twice ----------

  /** Everything the ledger books under one serial has the same materials. */
  lemma OneSerialOneKey(issued: seq<Issue>, i: nat, j: nat)
    requires WithinLimits(issued) && i < |issued| && j < |issued| && issued[i].serial == issued[j].serial
    ensures issued[i].materials == issued[j].materials
  {
    hide Uses, Volume;
    assert IssueWithin(issued, i) && IssueWithin(issued, j);
  }

  /**
   Two messages encrypted with the same answer of the manager: without a key derivation every encryption of the
   shorter one repeats key and IV of the other; with one, none does unless the message ids are the same too or HMAC
   has an accident.
   */
  lemma SameMaterials(a: Live, b: Live, i: nat, j: nat)
    requires Lawful(a.w.prims) && Lawful(b.w.prims) && a.w.prims.hmac == b.w.prims.hmac
    requires R.Inv(a) && R.Inv(b) && Sealing(a) && Sealing(b) && Sourced(a) && Sourced(b)
    requires a.s.hist.generated == b.s.hist.generated
    requires i < |a.s.hist.ivs| && j < |b.s.hist.ivs|
    ensures UseAt(a, i) == UseAt(b, j) <==>
              i == j && (a.s.suite.value.sha.NoSha? || a.s.header.messageId == b.s.header.messageId
                         || Accident(a.w.prims.hmac, SourceOf(a.s), SourceOf(b.s)))
  {
    hide R.Inv, LawfulAead, LawfulHmac, AlgProps, Accident;
    SealingSource(a);
    SealingSource(b);
    SourcesDecide(a.w.prims.hmac, SourceOf(a.s), SourceOf(b.s));
    SharedUses(a, b, i, j);
    SameSuite(a);
    SameSuite(b);
  }

  lemma SameSuite(m: Live)
    requires Lawful(m.w.prims) && R.Inv(m) && Sealing(m)
    ensures m.s.hist.generated.Some? && AlgProps(m.s.hist.generated.value.alg) == m.s.suite
  {
    hide E.EncInv, LawfulAead, LawfulHmac, AlgProps, DeriveKey, HeaderVerifies, MessageHeader.WriteHeader, Encodable;
    E.SealedIsOpened(m.w, m.s);
  }

  lemma EncodableHasId(digest: Digest, key: EncKey)
    requires Encodable(key.encCtx)
    ensures EncId(digest, key).Some?
  {
  }

  lemma NothingLocated(c: Links, id: Octets, lookup: Option<nat>)
    requires Listed(c) && c.lru == []
    ensures Located(c, id, lookup) == None
  {
  }

  /**
   With the code's own idea of what may be cached, any materials of a known suite, key derivation or not, are handed
   out again to the next request for the same context that comes in time.
   */
  method ServesTwice(digest: Digest, partition: Octets, ttl: nat, m: EncMaterials, ctx: Context, order: seq<Pair>,
                     size: nat, size': nat, now: nat, later: nat, other: Option<EncMaterials>)
    returns (first: Option<EncMaterials>, second: Option<EncMaterials>, hit: bool)
    requires LawfulDigest(digest) && |partition| == DIGEST_LEN && 0 < ttl <= UINT64_MAX
    requires AlgProps(m.alg).Some? && Lists(order, ctx) && Encodable(ctx) && size + size' <= INT64_MAX
    requires now <= later < now + ttl
    ensures first == Some(m) && second == Some(m) && hit
  {
    hide Lists, Encodable, EncPreimage, LawfulDigest, AlgProps, Booked, Learned, WithinLimits, Linked, Items, EncId,
      Located;
    var shared := new SharedCache(2, digest);
    var manager := new Manager(shared, partition, CanCacheAlgorithm, ttl);
    EncodableHasId(digest, EncKey(partition, m.alg, ctx));
    NothingLocated(shared.cache.c, EncId(digest, EncKey(partition, m.alg, ctx)).value, Some(now));
    ghost var id := EncId(digest, EncKey(partition, m.alg, ctx)).value;
    var t := Some(now);
    first, hit := manager.GenerateEncMaterials(m.alg, ctx, order, size, Some(m), 0, Clocks(t, t, t, t));
    ghost var item := Item(0, id, ExpiryOf(now, ttl));
    var u := Some(later);
    FrontIsLocated(shared.cache.c, item, ForEncrypt(m), 1, size, now, u);
    second, hit := manager.GenerateEncMaterials(m.alg, ctx, order, size', other, 1, Clocks(u, u, u, u));
  }
}
