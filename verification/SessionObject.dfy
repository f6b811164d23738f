/**
 The session as the code keeps it: one object whose fields the steps overwrite. Every method does exactly what the
 value-level state machine says, also when it fails half-way.
 */
module SessionObject {
  import opened Bytes
  import opened Hkdf
  import opened Parsing
  import opened Algorithms
  import opened Cipher
  import opened EncryptionContext
  import opened MessageHeader
  import opened FrameFormat
  import opened SessionModel

  /** The sanity checks of a state change; the code aborts the process when one fails. */
  predicate Aborts(s: Session, target: Stage) {
    s.stage != target &&
    (|| (s.stage.Failed? && !target.Config?)
     || match target
        case Failed => false
        case Config => false
        case ReadHeader => !s.stage.Config? || !IsDecryptMode(s.mode)
        case UnwrapKey => !s.stage.ReadHeader? || !IsDecryptMode(s.mode) || s.headerCopy == []
        case DecryptBody => s.stage.UnwrapKey? && (s.suite.None? || s.seqno == 0)
        case CheckTrailer => !s.stage.DecryptBody?
        case GenKey => !s.stage.Config? || !s.mode.Encrypt?
        case WriteHeader => !s.stage.GenKey? || !s.mode.Encrypt? || s.headerCopy == []
        case EncryptBody => !s.stage.WriteHeader? || s.suite.None? || s.seqno == 0
        case WriteTrailer => !s.stage.EncryptBody?
        case Done => !s.stage.EncryptBody? && !s.stage.DecryptBody? && !s.stage.CheckTrailer? && !s.stage.WriteTrailer?)
  }

  /** Mode and stage belong together, and the suite is known wherever the code dereferences it. */
  predicate Sound(s: Session) {
    match s.stage
    case Config => !s.mode.InvalidMode?
    case GenKey => s.mode.Encrypt?
    case WriteHeader => s.mode.Encrypt? && s.suite.Some? && s.seqno != 0
    case EncryptBody => s.mode.Encrypt? && s.suite.Some? && s.seqno != 0
    case WriteTrailer => s.mode.Encrypt? && s.suite.Some?
    case ReadHeader => IsDecryptMode(s.mode)
    case UnwrapKey => IsDecryptMode(s.mode)
    case DecryptBody => IsDecryptMode(s.mode) && s.suite.Some?
    case CheckTrailer => IsDecryptMode(s.mode)
    case Done => true
    case Failed => true
  }

  lemma SealedSizes(c: Primitives, key: Octets, messageId: Octets, kind: FrameKind, seqno: nat, plain: Octets)
    requires Lawful(c)
    ensures var r := Cipher.EncryptBody(c, key, messageId, kind, seqno, plain);
            && (r.Some? ==> |r.value.ciphertext| == |plain| && |r.value.tag| == TAG_LEN)
            && |FrameIv(seqno)| == IV_LEN
  {
    hide LawfulHmac, FrameAad;
  }

  lemma BuiltFields(frameSize: nat, p: Suite, m: EncMaterials, messageId: Octets, commitment: Octets)
    ensures |BuildHeader(frameSize, p, m, messageId, commitment).messageId| == |messageId|
    ensures |BuildHeader(frameSize, p, m, messageId, commitment).suiteData| == |commitment|
  {
  }

  lemma FirstFeed(key: Option<Octets>, octets: Octets)
    ensures FeedSignature(if key.Some? then Some(SigCtx(key.value, [])) else None, octets)
            == if key.Some? then Some(SigCtx(key.value, octets)) else None
  {
    assert [] + octets == octets;
  }

  lemma SealedNotEmpty(c: Primitives, p: Suite, key: Octets, h: Header)
    ensures var r := SealHeader(c, p, key, h);
            r.SealedHeader? ==> r.octets != []
  {
    hide MessageHeader.WriteHeader, HeaderSizeReturned, SignHeader;
  }

  /** Lists a context in some order, as iterating over the hash table does. */
  method Enumerate(ctx: Context) returns (order: seq<Pair>)
    ensures Lists(order, ctx) && |order| == |ctx|
    decreases |ctx|
  {
    hide Lists;
    if ctx == map[] {
      NothingListed();
      return [];
    }
    var k :| k in ctx.Keys;
    var rest := Enumerate(ctx - {k});
    SomeOrderStep(ctx, k, rest);
    return rest + [Pair(k, ctx[k])];
  }

  lemma NothingListed()
    ensures Lists([], map[])
  {
  }

  lemma SizeMeansEncodable(h: Header)
    ensures HeaderSizeReturned(h) != 0 ==> Encodable(h.encCtx)
  {
    hide Encodable, HeaderSize;
  }

  /** Serializes the header, signs all but its last octets, and serializes it again with the tag in place. */
  method SealHeaderInto(c: Primitives, p: Suite, key: Octets, h: Header) returns (r: SealedHeader)
    requires |h.messageId| <= 32 && |h.suiteData| <= 32
    ensures r == SealHeader(c, p, key, h)
  {
    hide LawfulAead, MessageHeader.WriteHeader, HeaderSizeReturned, SignHeader, Encodable;
    var order := Enumerate(h.encCtx);
    var size := SumHeaderSize(h, order);
    if size == 0 { return HeaderFailure(LimitExceeded); }
    if size < 0 { return HeaderFailure(OutOfMemory); }
    SizeMeansEncodable(h);
    var ok, first := WriteHeaderInto(p, h, order, size);
    if !ok { return HeaderFailure(ShortBuffer); }
    if |first| != size || size < AuthTagLen(p) { return HeaderFailure(CryptoUnknown); }
    var tag := SignHeader(c, p, key, first[..size - AuthTagLen(p)]);
    if tag.None? || |tag.value| != AuthTagLen(p) { return HeaderFailure(CryptoUnknown); }
    var second;
    ok, second := WriteHeaderInto(p, WithTag(p, h, tag.value), order, size);
    if !ok { return HeaderFailure(ShortBuffer); }
    if |second| != size { return HeaderFailure(CryptoUnknown); }
    return SealedHeader(second, WithTag(p, h, tag.value));
  }

  lemma ParsedFields(input: Octets, maxEdks: nat)
    requires ParseHeader(input, maxEdks).Ok?
    ensures var h := ParseHeader(input, maxEdks).value;
            |h.messageId| <= 32 && |h.suiteData| <= 32
  {
    hide ParseHeader, HeaderSize;
    AcceptedHeaderSize(input, maxEdks);
  }

  lemma ReadWithin(input: Octets, maxFrame: nat)
    ensures var r := DeserializeFrame(input, maxFrame).result;
            r.ReadOk? ==> r.consumed <= |input|
  {
    hide CutFrame, KindShown, LengthShown, LengthAcceptable;
  }

  class CryptoSession {
    var w: World
    var s: Session

    ghost predicate Valid()
      reads this
    {
      Lawful(w.prims) && Sound(s)
    }

    constructor (w: World, mode: Mode)
      requires Lawful(w.prims) && !mode.InvalidMode?
      ensures Valid() && this.w == w && s == NewSession(mode)
    {
      this.w, s := w, NewSession(mode);
    }

    /** The precondition is the code's own checks: a caller that meets it never reaches `abort`. */
    method ChangeState(target: Stage)
      requires !Aborts(s, target)
      modifies this`s
      ensures s == old(s).(stage := target)
    {
      s := s.(stage := target);
    }

    method Fail(e: Error)
      modifies this`s
      ensures s == FailWith(old(s), e)
    {
      if !s.stage.Failed? {
        s := s.(error := e);
        ChangeState(Failed);
      }
    }

    method Reset(mode: Mode, w: World)
      requires Lawful(w.prims)
      modifies this
      ensures Valid() && this.w == w && s == SessionModel.Reset(old(s), mode)
    {
      hide LawfulAead, LawfulHmac;
      this.w := w;
      s := s.(mode := mode, stage := Config);
      s := s.(preciseSize := 0, sizeBound := UINT64_MAX, dataSoFar := 0, sizeKnown := false, cmmSuccess := false);
      s := s.(headerCopy := [], header := EMPTY_HEADER);
      s := s.(inEstimate := 1, outEstimate := 1, seqno := 0, suite := None, contentKey := [], signCtx := None);
      s := s.(hist := NO_HISTORY);
      if mode.InvalidMode? {
        Fail(Unimplemented);
      }
    }

    // ---------- Settings ----------

    method SetFrameSize(n: nat) returns (ok: bool)
      requires Valid()
      modifies this`s
      ensures Valid() && s == SessionModel.SetFrameSize(old(s), n)
      ensures ok == (s.mode.Encrypt? && s.stage.Config?)
    {
      if !s.mode.Encrypt? || !s.stage.Config? { return false; }
      s := s.(frameSize := n);
      return true;
    }

    method SetMessageSize(n: nat) returns (ok: bool)
      requires Valid()
      modifies this`s
      ensures Valid() && s == SessionModel.SetMessageSize(w, old(s), n)
      ensures ok == old(s.mode.Encrypt? && !s.sizeKnown && n <= s.sizeBound)
    {
      hide LawfulAead, LawfulHmac, SessionModel.TryEncryptBody;
      if !s.mode.Encrypt? { return false; }
      if s.sizeKnown { Fail(BadState); return false; }
      if s.sizeBound < n { Fail(LimitExceeded); return false; }
      s := s.(preciseSize := n, sizeKnown := true);
      if s.stage.EncryptBody? {
        var taken, produced, e := TryEncryptBody([], true, 0);
      }
      return true;
    }

    method SetMessageBound(bound: nat) returns (ok: bool)
      requires Valid()
      modifies this`s
      ensures Valid() && s == SessionModel.SetMessageBound(old(s), bound)
      ensures ok == old(s.mode.Encrypt? && !(s.sizeKnown && s.preciseSize > bound))
    {
      if !s.mode.Encrypt? { return false; }
      if s.sizeKnown && s.preciseSize > bound { Fail(LimitExceeded); return false; }
      if s.sizeBound > bound { s := s.(sizeBound := bound); }
      return true;
    }

    method SetPolicy(p: Policy) returns (ok: bool)
      requires Valid()
      modifies this`s
      ensures Valid() && s == SessionModel.SetPolicy(old(s), p)
      ensures ok == (!p.InvalidPolicy? && old(s).stage.Config?)
    {
      s := s.(policy := p);
      if p.InvalidPolicy? { return false; }
      if !s.stage.Config? { Fail(BadState); return false; }
      return true;
    }

    method SetMaxEdks(n: nat) returns (ok: bool)
      requires Valid()
      modifies this`s
      ensures Valid() && s == SessionModel.SetMaxEdks(old(s), n)
      ensures ok == (n != 0 && old(s).stage.Config?)
    {
      if !s.stage.Config? { Fail(BadState); return false; }
      if n == 0 { return false; }
      s := s.(maxEdks := n);
      return true;
    }

    /** Hands out the context for writing, as long as that is allowed. */
    method SetContext(ctx: Context) returns (ok: bool)
      requires Valid()
      modifies this`s
      ensures Valid() && s == SessionModel.SetContext(old(s), ctx)
      ensures ok == (s.mode.Encrypt? && s.stage.Config?)
    {
      if !s.mode.Encrypt? || !s.stage.Config? { return false; }
      s := s.(header := s.header.(encCtx := ctx));
      return true;
    }

    // ---------- Encryption ----------

    /** Asks for materials, checks them, derives the content key and seals the header. */
    method TryGenKey() returns (e: Option<Error>)
      requires Valid() && s.stage.GenKey?
      modifies this`s
      ensures Valid() && Outcome(s, 0, [], e) == SessionModel.TryGenKey(w, old(s))
    {
      hide LawfulAead, LawfulHmac, AlgProps, GenKeyFor, MaterialsError, MessageIdLen;
      var request := EncRequest(s.header.encCtx, if s.sizeKnown then s.preciseSize else s.sizeBound, s.policy);
      var answer := w.generate(request);
      if answer.None? { return Some(CmmError); }
      var m := answer.value;
      s := s.(header := s.header.(encCtx := m.encCtx), hist := s.hist.(requested := Some(request)));
      SameComplaint(s, old(s), m);
      e := CheckMaterials(m);
      if e.Some? { return; }
      var p := s.suite.value;
      s := s.(signCtx := SignatureStart(m));
      s := s.(cmmSuccess := true);
      var messageId := w.random(MessageIdLen(p));
      if messageId.None? || |messageId.value| != MessageIdLen(p) { return Some(CryptoUnknown); }
      e := PrepareHeader(p, m, messageId.value);
    }

    method CheckMaterials(m: EncMaterials) returns (e: Option<Error>)
      modifies this`s
      ensures s == old(s).(suite := AlgProps(m.alg)) && e == MaterialsError(old(s), m)
      ensures e.None? ==> s.suite.Some?
    {
      hide AlgProps, AllowedForEncrypt;
      s := s.(suite := AlgProps(m.alg));
      if s.suite.None? { return Some(CryptoUnknown); }
      var p := s.suite.value;
      if |m.dataKey| != p.dataKeyLen { return Some(CryptoUnknown); }
      if |m.edks| == 0 { return Some(CryptoUnknown); }
      if s.maxEdks != 0 && |m.edks| > s.maxEdks { return Some(LimitExceeded); }
      if (p.signatureLen != 0) != m.signingKey.Some? { return Some(CryptoUnknown); }
      if !AllowedForEncrypt(m.alg, s.policy) { return Some(CommitmentPolicyViolation); }
      return None;
    }

    method PrepareHeader(p: Suite, m: EncMaterials, messageId: Octets) returns (e: Option<Error>)
      requires Valid() && s.stage.GenKey? && |messageId| == MessageIdLen(p) && p.commitmentLen <= 32
      requires s.suite == Some(p) && s.signCtx == SignatureStart(m)
      modifies this`s
      ensures Valid() && Outcome(s, 0, [], e) == GenKeyFor(w, old(s), p, m, messageId)
    {
      hide LawfulAead, LawfulHmac, DeriveKey, OpenMessage, MustIncludeCommitment;
      s := s.(header := s.header.(messageId := messageId));
      var room := if MustIncludeCommitment(s.policy) then p.commitmentLen else 0;
      var derived := DeriveContentKey(w.prims.hmac, p, m.dataKey, room, messageId);
      if derived.None? { return Some(CryptoUnknown); }
      var Derived(key, commitment) := derived.value;
      s := s.(contentKey := key, header := s.header.(suiteData := commitment));
      s := s.(header := s.header.(algId := p.algId));
      if s.frameSize > UINT32_MAX { return Some(LimitExceeded); }
      e := FinishHeader(p, m);
    }

    /** Fills the remaining header fields in and seals the header. */
    method FinishHeader(p: Suite, m: EncMaterials) returns (e: Option<Error>)
      requires Valid() && s.stage.GenKey? && |s.header.messageId| <= 32 && |s.header.suiteData| <= 32
      requires s.suite == Some(p) && s.signCtx == SignatureStart(m)
      modifies this`s
      ensures Valid() && Outcome(s, 0, [], e) == OpenMessage(w, old(s), p, m)
    {
      hide LawfulAead, LawfulHmac, SealHeader, BuildHeader, FeedSignature;
      BuiltFields(s.frameSize, p, m, s.header.messageId, s.header.suiteData);
      s := s.(header := BuildHeader(s.frameSize, p, m, s.header.messageId, s.header.suiteData));
      var sealed := SealHeaderInto(w.prims, p, s.contentKey, s.header);
      if sealed.HeaderFailure? { return Some(sealed.error); }
      SealedNotEmpty(w.prims, p, s.contentKey, s.header);
      InstallHeader(sealed.octets, sealed.header, m);
      return None;
    }

    /** Keeps the serialized header, starts the signature with it and moves on. */
    method InstallHeader(octets: Octets, h: Header, m: EncMaterials)
      requires s.stage.GenKey? && s.mode.Encrypt? && octets != [] && s.signCtx == SignatureStart(m)
      modifies this`s
      ensures s == old(s).(stage := WriteHeader, header := h, headerCopy := octets, seqno := 1,
                           signCtx := if m.signingKey.Some? then Some(SigCtx(m.signingKey.value, octets)) else None,
                           hist := old(s).hist.(ivs := old(s).hist.ivs + [HEADER_IV], generated := Some(m)))
    {
      hide FeedSignature;
      s := s.(header := h, headerCopy := octets);
      FirstFeed(m.signingKey, octets);
      s := s.(signCtx := FeedSignature(s.signCtx, octets));
      s := s.(seqno := 1, hist := s.hist.(ivs := s.hist.ivs + [HEADER_IV], generated := Some(m)));
      ChangeState(WriteHeader);
    }

    method TryWriteHeader(capacity: nat) returns (produced: Octets)
      requires Valid() && s.stage.WriteHeader?
      modifies this`s
      ensures Valid() && Outcome(s, 0, produced, None) == SessionModel.TryWriteHeader(old(s), capacity)
    {
      hide LawfulAead, LawfulHmac;
      s := s.(outEstimate := |s.headerCopy|);
      produced := [];
      if |s.headerCopy| <= capacity {
        produced := s.headerCopy;
        s := s.(hist := s.hist.(emitted := s.hist.emitted + produced));
        ChangeState(EncryptBody);
      }
    }

    /** Works on shadow copies of the cursors, so nothing is taken unless a whole frame can be written. */
    method TryEncryptBody(input: Octets, nonNull: bool, capacity: nat)
      returns (taken: nat, produced: Octets, e: Option<Error>)
      requires Valid() && s.stage.EncryptBody?
      modifies this`s
      ensures Valid() && Outcome(s, taken, produced, e) == SessionModel.TryEncryptBody(w, old(s), input, nonNull, capacity)
    {
      hide EncodeFrame, BigEndian, WriteVerdict, WriteSize, LawfulAead, LawfulHmac, SealFrame;
      taken, produced, e := 0, [], None;
      var kind, n;
      if s.frameSize != 0 {
        var left := (s.preciseSize - s.dataSoFar) % TWO_64;
        if s.sizeKnown && left < s.frameSize {
          kind, n := FinalFrame, left;
        } else {
          kind, n := BodyFrame, s.frameSize;
        }
      } else {
        if !s.sizeKnown {
          s := s.(outEstimate := 0, inEstimate := 0);
          return;
        }
        kind, n := SingleBlock, s.preciseSize;
      }
      if s.seqno > UINT32_MAX { e := Some(LimitExceeded); return; }
      var verdict, size, layout, buffer := SerializeFrame(kind, s.seqno, n, capacity, w.unset);
      s := s.(outEstimate := size, inEstimate := n);
      if verdict.WriteShort? { return; }
      if !verdict.WriteOk? { e := Some(CryptoUnknown); return; }
      if |input| < n || !nonNull { return; }
      taken, produced, e := EncryptFrame(kind, input[..n], layout, buffer);
    }

    /** Seals the plaintext into the reserved fields of a blank frame. */
    method EncryptFrame(kind: FrameKind, plain: Octets, layout: Layout, blank: Octets)
      returns (taken: nat, produced: Octets, e: Option<Error>)
      requires Valid() && s.stage.EncryptBody?
      requires layout == LayoutOf(kind, |plain|) && blank == EncodeFrame(BlankFrame(kind, s.seqno, |plain|))
      modifies this`s
      ensures Valid() && Outcome(s, taken, produced, e) == SealFrame(w, old(s), kind, plain)
    {
      hide EncodeFrame, BigEndian, LawfulAead, LawfulHmac, Cipher.EncryptBody, Overwrite, FrameIv, BlankFrame,
        FeedSignature;
      taken, produced, e := 0, [], None;
      var iv := FrameIv(s.seqno);
      s := s.(hist := s.hist.(ivs := s.hist.ivs + [iv]));
      var sealed := Cipher.EncryptBody(w.prims, s.contentKey, s.header.messageId, kind, s.seqno, plain);
      if sealed.None? { e := Some(CryptoUnknown); return; }
      var Sealed(ciphertext, tag) := sealed.value;
      SealedSizes(w.prims, s.contentKey, s.header.messageId, kind, s.seqno, plain);
      produced := FillFrame(layout, blank, kind, s.seqno, iv, ciphertext, tag);
      s := s.(signCtx := FeedSignature(s.signCtx, produced));
      var frame := Frame(kind, s.seqno, iv, ciphertext, tag);
      taken := |plain|;
      s := s.(dataSoFar := (s.dataSoFar + taken) % TWO_64, seqno := s.seqno + 1,
              hist := s.hist.(consumed := s.hist.consumed + plain, emitted := s.hist.emitted + produced,
                              frames := s.hist.frames + [Passed(frame, plain)]));
      if !kind.BodyFrame? {
        ChangeState(WriteTrailer);
      }
    }

    method TryWriteTrailer(capacity: nat) returns (produced: Octets, e: Option<Error>)
      requires Valid() && s.stage.WriteTrailer?
      modifies this`s
      ensures Valid() && Outcome(s, 0, produced, e) == SessionModel.TryWriteTrailer(w, old(s), capacity)
    {
      hide BigEndian, LawfulAead, LawfulHmac;
      produced, e := [], None;
      s := s.(inEstimate := 0, outEstimate := 0);
      var length := s.suite.value.signatureLen;
      if length == 0 { ChangeState(Done); return; }
      if capacity < 2 + length { s := s.(outEstimate := 2 + length); return; }
      if s.signCtx.None? { e := Some(BadState); return; }
      var ctx := s.signCtx.value;
      var sig := w.prims.sign(ctx.key, ctx.data);
      s := s.(signCtx := None);
      if sig.None? || capacity < 2 + |sig.value| { e := Some(CryptoUnknown); return; }
      produced := BigEndian(|sig.value|, 2) + sig.value;
      s := s.(hist := s.hist.(emitted := s.hist.emitted + produced,
                              signature := Some(Signature(ctx.key, ctx.data, sig.value))));
      ChangeState(Done);
    }

    // ---------- Decryption ----------

    method TryParseHeader(input: Octets) returns (taken: nat, e: Option<Error>)
      requires Valid() && s.stage.ReadHeader?
      modifies this`s
      ensures Valid() && Outcome(s, taken, [], e) == SessionModel.TryParseHeader(w, old(s), input)
    {
      hide LawfulAead, LawfulHmac, ParseHeader, HeaderSizeReturned, SessionModel.UnwrapKeys;
      taken, e := 0, None;
      var parsed := ParseHeaderFields(input, s.maxEdks);
      if parsed.Short? {
        s := s.(header := EMPTY_HEADER, outEstimate := 0);
        if |input| >= s.inEstimate {
          s := s.(inEstimate := Min(|input| + 128, UINT64_MAX));
        }
        return;
      }
      if parsed.Bad? {
        s := s.(header := EMPTY_HEADER);
        return 0, Some(parsed.error);
      }
      taken := |input| - |parsed.rest|;
      s := s.(header := parsed.value);
      var order := Enumerate(s.header.encCtx);
      ParsedFields(input, s.maxEdks);
      var size := SumHeaderSize(s.header, order);
      if size == 0 { e := Some(BadCiphertext); return; }
      if size != taken { e := Some(CryptoUnknown); return; }
      s := s.(headerCopy := input[..taken], hist := s.hist.(consumed := s.hist.consumed + input[..taken]));
      ChangeState(UnwrapKey);
      e := UnwrapKeys();
    }

    method UnwrapKeys() returns (e: Option<Error>)
      requires Valid() && s.stage.UnwrapKey?
      modifies this`s
      ensures Valid() && Outcome(s, 0, [], e) == SessionModel.UnwrapKeys(w, old(s))
    {
      hide LawfulAead, LawfulHmac, AlgProps, DeriveKey, HeaderVerifies, CommitmentMatches, AllowedForDecrypt;
      s := s.(suite := AlgProps(s.header.algId));
      if s.suite.None? { return Some(BadCiphertext); }
      var p := s.suite.value;
      var answer := w.unwrap(DecRequest(p.algId, s.header.edks, s.header.encCtx));
      if answer.None? { return Some(CmmError); }
      var m := answer.value;
      s := s.(cmmSuccess := true, hist := s.hist.(unwrapped := Some(m), policy := s.policy));
      var materialsSuite := AlgProps(m.alg);
      if materialsSuite.None? { return Some(BadState); }
      if s.mode.DecryptUnsigned? && materialsSuite.value.signatureLen != 0 { return Some(SignedMessageNotAllowed); }
      if |m.dataKey| != p.dataKeyLen { return Some(CryptoUnknown); }
      if !AllowedForDecrypt(p.algId, s.policy) { return Some(CommitmentPolicyViolation); }
      var derived := DeriveContentKey(w.prims.hmac, p, m.dataKey, p.commitmentLen, s.header.messageId);
      if derived.None? { return Some(CryptoUnknown); }
      s := s.(contentKey := derived.value.contentKey);
      if !CommitmentMatches(derived.value.commitment, s.header.suiteData) { return Some(BadCiphertext); }
      if !HeaderVerifies(w.prims, p, s.contentKey, s.headerCopy, s.header.authLen) { return Some(BadCiphertext); }
      if p.signatureLen != 0 {
        if m.verifyKey.None? { return Some(BadCiphertext); }
        s := s.(signCtx := Some(SigCtx(m.verifyKey.value, s.headerCopy)));
      }
      s := s.(seqno := 1, frameSize := s.header.frameLen);
      ChangeState(DecryptBody);
      return None;
    }

    method TryDecryptBody(input: Octets, capacity: nat) returns (taken: nat, produced: Octets, e: Option<Error>)
      requires Valid() && s.stage.DecryptBody?
      modifies this`s
      ensures Valid() && Outcome(s, taken, produced, e) == SessionModel.TryDecryptBody(w, old(s), input, capacity)
    {
      hide LawfulAead, LawfulHmac, DeserializeFrame, Cipher.DecryptBody;
      taken, produced, e := 0, [], None;
      var r := ReadFrame(input, s.frameSize);
      s := s.(inEstimate := r.ciphertextSize, outEstimate := r.plaintextSize);
      if r.result.ReadShort? { return; }
      if r.result.ReadBad? { e := Some(BadCiphertext); return; }
      var ReadOk(f, n) := r.result;
      if s.seqno != f.seqno { taken, e := n, Some(BadCiphertext); return; }
      if capacity < s.outEstimate { return; }
      taken := n;
      ReadWithin(input, s.frameSize);
      var plain := Cipher.DecryptBody(w.prims, s.contentKey, s.header.messageId, f.kind, f.seqno, f.iv, f.ciphertext, f.tag);
      if plain.None? { e := Some(BadCiphertext); return; }
      produced := plain.value;
      s := s.(seqno := s.seqno + 1, signCtx := FeedSignature(s.signCtx, input[..n]),
              hist := s.hist.(consumed := s.hist.consumed + input[..n], emitted := s.hist.emitted + produced,
                              frames := s.hist.frames + [Passed(f, produced)]));
      if !f.kind.BodyFrame? {
        ChangeState(CheckTrailer);
      }
    }

    method TryCheckTrailer(input: Octets) returns (taken: nat, e: Option<Error>)
      requires Valid() && s.stage.CheckTrailer?
      modifies this`s
      ensures Valid() && Outcome(s, taken, [], e) == SessionModel.TryCheckTrailer(w, old(s), input)
    {
      hide LawfulAead, LawfulHmac, FromBigEndian;
      taken, e := 0, None;
      s := s.(outEstimate := 0, inEstimate := 0);
      if s.signCtx.None? { ChangeState(Done); return; }
      if |input| < 2 { s := s.(inEstimate := 2); return; }
      var n := FromBigEndian(input[..2]);
      if |input| < 2 + n { s := s.(inEstimate := 2 + n); return; }
      taken := 2 + n;
      var ctx, sig := s.signCtx.value, input[2..2 + n];
      s := s.(signCtx := None);
      if !w.prims.verify(ctx.key, ctx.data, sig) { e := Some(BadCiphertext); return; }
      s := s.(hist := s.hist.(consumed := s.hist.consumed + input[..taken],
                              signature := Some(Signature(ctx.key, ctx.data, sig))));
    }

    // ---------- The process loop ----------

    method Turn(input: Octets, nonNull: bool, capacity: nat) returns (taken: nat, produced: Octets, e: Option<Error>)
      requires Valid()
      modifies this`s
      ensures Valid() && Outcome(s, taken, produced, e) == SessionModel.Turn(w, old(s), input, nonNull, capacity)
    {
      hide LawfulAead, LawfulHmac, SessionModel.TryParseHeader, SessionModel.UnwrapKeys, SessionModel.TryDecryptBody,
        SessionModel.TryCheckTrailer, SessionModel.TryGenKey, SessionModel.TryWriteHeader, SessionModel.TryEncryptBody,
        SessionModel.TryWriteTrailer;
      taken, produced, e := 0, [], None;
      match s.stage {
        case Config =>
          if !s.hasCmm || s.policy.InvalidPolicy? { e := Some(BadState); return; }
          ChangeState(if s.mode.Encrypt? then GenKey else ReadHeader);
        case ReadHeader => taken, e := TryParseHeader(input);
        case UnwrapKey => e := UnwrapKeys();
        case DecryptBody => taken, produced, e := TryDecryptBody(input, capacity);
        case CheckTrailer => taken, e := TryCheckTrailer(input);
        case GenKey => e := TryGenKey();
        case WriteHeader => produced := TryWriteHeader(capacity);
        case EncryptBody => taken, produced, e := TryEncryptBody(input, nonNull, capacity);
        case WriteTrailer => produced, e := TryWriteTrailer(capacity);
        case Done =>
        case Failed => e := Some(s.error);
      }
    }

    /** Takes turns until one makes no progress; an error wipes the output of the whole call. */
    method Process(input: Octets, nonNull: bool, capacity: nat) returns (ok: bool, consumed: nat, out: Octets)
      requires Valid()
      modifies this`s
      ensures Valid()
      ensures var c := SessionModel.Process(w, old(s), input, nonNull, capacity);
              Call(s, consumed, out, ok) == c && (!ok ==> s.stage.Failed?)
    {
      hide LawfulAead, LawfulHmac, SessionModel.Turn, SessionModel.Process, Resume;
      ghost var c := SessionModel.Process(w, s, input, nonNull, capacity);
      consumed, out := 0, [];
      ResumeAtStart(w, s, input, nonNull, capacity);
      var e: Option<Error> := None;
      var madeProgress := true;
      while madeProgress
        invariant Valid() && consumed <= |input| && |out| <= capacity && e.None?
        invariant madeProgress ==> c == Resume(w, s, input, nonNull, capacity, consumed, out)
        invariant !madeProgress ==> c == Call(s, consumed, out, true)
        decreases madeProgress, Rank(s.stage), |input| - consumed + capacity - |out|
      {
        TurnInBounds(w, s, input[consumed..], nonNull, capacity - |out|);
        ResumeStep(w, s, input, nonNull, capacity, consumed, out);
        var prior := s.stage;
        var taken, produced;
        taken, produced, e := Turn(input[consumed..], nonNull, capacity - |out|);
        consumed := consumed + taken;
        if e.Some? { break; }
        madeProgress := |produced| > 0 || taken > 0 || s.stage != prior;
        out := out + produced;
      }
      ok := e.None?;
      if !ok {
        out := [];
        Fail(e.value);
      }
    }

    /**
     The one-shot interface: succeeds only when the message is finished and all input was used, and otherwise
     leaves a failed session and no output. A session that is already under way is left alone.
     */
    method ProcessFull(input: Octets, nonNull: bool, capacity: nat) returns (ok: bool, out: Octets)
      requires Valid()
      modifies this`s
      ensures Valid()
      ensures old(s).stage.Config? ==>
        var sized := if old(s).mode.Encrypt? then SessionModel.SetMessageSize(w, old(s), |input|) else old(s);
        var c := SessionModel.Process(w, sized, input, nonNull, capacity);
        && ok == (c.ok && c.s.stage.Done? && c.consumed == |input|)
        && out == (if ok then c.out else [])
        && s == if c.ok && !ok then c.s.(stage := Failed, error := BadCiphertext) else c.s
      ensures !old(s).stage.Config? ==> !ok && out == [] && s == old(s)
    {
      hide LawfulAead, LawfulHmac, SessionModel.Process;
      if !s.stage.Config? { return false, []; }
      if s.mode.Encrypt? {
        var sized := SetMessageSize(|input|);
        if !sized {
          FailedStays(w, s, input, nonNull, capacity);
          return false, [];
        }
      }
      var consumed;
      ok, consumed, out := Process(input, nonNull, capacity);
      if ok && !(s.stage.Done? && consumed == |input|) {
        s := s.(error := BadCiphertext);
        ok := false;
        ChangeState(Failed);
      }
      if !ok {
        out := [];
      }
    }
  }

  lemma FailedStays(w: World, s: Session, input: Octets, nonNull: bool, capacity: nat)
    requires Lawful(w.prims) && s.stage.Failed?
    ensures var c := SessionModel.Process(w, s, input, nonNull, capacity); !c.ok && c.s == s
  {
    hide LawfulAead, LawfulHmac;
  }

  /** What a call amounts to when it continues from a state reached half-way. */
  ghost function Resume(w: World, s: Session, input: Octets, nonNull: bool, capacity: nat, consumed: nat,
                        out: Octets): Call
    requires Lawful(w.prims) && consumed <= |input| && |out| <= capacity
  {
    var rest := SessionModel.Process(w, s, input[consumed..], nonNull, capacity - |out|);
    Call(rest.s, consumed + rest.consumed, if rest.ok then out + rest.out else [], rest.ok)
  }

  lemma ResumeAtStart(w: World, s: Session, input: Octets, nonNull: bool, capacity: nat)
    requires Lawful(w.prims)
    ensures Resume(w, s, input, nonNull, capacity, 0, []) == SessionModel.Process(w, s, input, nonNull, capacity)
  {
    hide SessionModel.Turn, SessionModel.Process, LawfulAead, LawfulHmac;
    assert input[0..] == input;
    NoOutputOnError(w, s, input, nonNull, capacity);
    var c := SessionModel.Process(w, s, input, nonNull, capacity);
    assert [] + c.out == c.out;
  }

  lemma NoOutputOnError(w: World, s: Session, input: Octets, nonNull: bool, capacity: nat)
    requires Lawful(w.prims)
    ensures var c := SessionModel.Process(w, s, input, nonNull, capacity); !c.ok ==> c.out == []
  {
    hide SessionModel.Turn, LawfulAead, LawfulHmac;
  }

  lemma ResumeStep(w: World, s: Session, input: Octets, nonNull: bool, capacity: nat, consumed: nat, out: Octets)
    requires Lawful(w.prims) && consumed <= |input| && |out| <= capacity
    ensures var o := SessionModel.Turn(w, s, input[consumed..], nonNull, capacity - |out|);
            var c := Resume(w, s, input, nonNull, capacity, consumed, out);
            if o.error.Some? then c == Call(FailWith(o.s, o.error.value), consumed + o.consumed, [], false)
            else && consumed + o.consumed <= |input| && |out + o.emitted| <= capacity
                 && c == if MadeProgress(s, o)
                         then Resume(w, o.s, input, nonNull, capacity, consumed + o.consumed, out + o.emitted)
                         else Call(o.s, consumed + o.consumed, out + o.emitted, true)
  {
    hide SessionModel.Turn, LawfulAead, LawfulHmac;
    TurnInBounds(w, s, input[consumed..], nonNull, capacity - |out|);
    var o := SessionModel.Turn(w, s, input[consumed..], nonNull, capacity - |out|);
    if o.error.None? {
      assert input[consumed..][o.consumed..] == input[consumed + o.consumed..];
    }
  }

  method FillFrame(layout: Layout, blank: Octets, kind: FrameKind, seqno: nat, iv: Octets, ciphertext: Octets,
                   tag: Octets)
    returns (octets: Octets)
    requires |iv| == IV_LEN && |tag| == TAG_LEN
    requires layout == LayoutOf(kind, |ciphertext|) && blank == EncodeFrame(BlankFrame(kind, seqno, |ciphertext|))
    ensures octets == EncodeFrame(Frame(kind, seqno, iv, ciphertext, tag))
  {
    hide EncodeFrame, BlankFrame;
    FilledFrame(kind, seqno, iv, ciphertext, tag);
    octets := Overwrite(blank, layout.ivAt, iv);
    octets := Overwrite(octets, layout.ciphertextAt, ciphertext);
    octets := Overwrite(octets, layout.tagAt, tag);
  }
}
