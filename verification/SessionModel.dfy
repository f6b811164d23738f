/**
 The streaming session as a state machine on values: every operation maps a session record to the next.
 Octets move in caller-sized pieces; a step that lacks input or room only updates the estimates.
 */
module SessionModel {
  import opened Bytes
  import opened Parsing
  import opened Algorithms
  import opened Cipher
  import opened EncryptionContext
  import opened MessageHeader
  import opened FrameFormat

  datatype Stage =
    | Config | Failed | Done
    | ReadHeader | UnwrapKey | DecryptBody | CheckTrailer
    | GenKey | WriteHeader | EncryptBody | WriteTrailer

  datatype Mode = Encrypt | Decrypt | DecryptUnsigned | InvalidMode

  predicate IsDecryptMode(m: Mode) {
    m.Decrypt? || m.DecryptUnsigned?
  }

  /** An ongoing signature: its key and the octets fed to it so far. */
  datatype SigCtx = SigCtx(key: Octets, data: Octets)

  datatype EncRequest = EncRequest(encCtx: Context, plaintextSize: nat, policy: Policy)
  datatype EncMaterials = EncMaterials(alg: nat, dataKey: Octets, edks: seq<Edk>, signingKey: Option<Octets>, encCtx: Context)
  datatype DecRequest = DecRequest(alg: nat, edks: seq<Edk>, encCtx: Context)
  datatype DecMaterials = DecMaterials(alg: nat, dataKey: Octets, verifyKey: Option<Octets>)

  /**
   Everything a message depends on that the session does not hold: the primitives, the answers of the
   materials manager, the random source, and the content of one C variable read before it is written.
   */
  datatype World = World(
    prims: Primitives,
    generate: EncRequest -> Option<EncMaterials>,
    unwrap: DecRequest -> Option<DecMaterials>,
    random: nat -> Option<Octets>,
    unset: nat)

  datatype Passed = Passed(frame: Frame, plain: Octets)

  datatype Signature = Signature(key: Octets, data: Octets, octets: Octets)

  /** What happened since the last reset; the code keeps none of it, the statements need it. */
  datatype History = History(
    consumed: Octets,
    emitted: Octets,
    frames: seq<Passed>,
    ivs: seq<Octets>,
    requested: Option<EncRequest>,
    generated: Option<EncMaterials>,
    unwrapped: Option<DecMaterials>,
    policy: Policy,
    signature: Option<Signature>)

  const NO_HISTORY: History := History([], [], [], [], None, None, None, InvalidPolicy, None)

  datatype Session = Session(
    stage: Stage,
    error: Error,
    mode: Mode,
    policy: Policy,
    hasCmm: bool,
    preciseSize: nat,
    sizeKnown: bool,
    sizeBound: nat,
    dataSoFar: nat,
    headerCopy: Octets,
    header: Header,
    frameSize: nat,
    inEstimate: nat,
    outEstimate: nat,
    seqno: nat,
    suite: Option<Suite>,
    contentKey: Octets,
    signCtx: Option<SigCtx>,
    cmmSuccess: bool,
    maxEdks: nat,
    hist: History)

  /** One turn of the process loop: octets taken, octets produced and the error raised, if any. */
  datatype Outcome = Outcome(s: Session, consumed: nat, emitted: Octets, error: Option<Error>)

  function Stay(s: Session): Outcome {
    Outcome(s, 0, [], None)
  }

  function Raise(s: Session, e: Error): Outcome {
    Outcome(s, 0, [], Some(e))
  }

  // ---------- Encryption ----------

  /** First complaint about the materials, in the order of the checks. */
  function MaterialsError(s: Session, m: EncMaterials): Option<Error> {
    match AlgProps(m.alg)
    case None => Some(CryptoUnknown)
    case Some(p) =>
      if |m.dataKey| != p.dataKeyLen then Some(CryptoUnknown)
      else if |m.edks| == 0 then Some(CryptoUnknown)
      else if s.maxEdks != 0 && |m.edks| > s.maxEdks then Some(LimitExceeded)
      else if (p.signatureLen != 0) != m.signingKey.Some? then Some(CryptoUnknown)
      else if !AllowedForEncrypt(m.alg, s.policy) then Some(CommitmentPolicyViolation)
      else None
  }

  /** The header before its tag is known; IV and tag hold filler octets. */
  function BuildHeader(frameSize: nat, p: Suite, m: EncMaterials, messageId: Octets, commitment: Octets): Header {
    Header(p.algId, messageId, m.encCtx, m.edks, frameSize, commitment, Repeat(0x42, IV_LEN), Repeat(0xDE, TAG_LEN), 0)
  }

  datatype SealedHeader = SealedHeader(octets: Octets, header: Header) | HeaderFailure(error: Error)

  function WithTag(p: Suite, h: Header, tag: Octets): Header
    requires |tag| >= IV_LEN
  {
    if p.version.V1? then h.(iv := tag[..IV_LEN], authTag := tag[IV_LEN..]) else h.(authTag := tag)
  }

  /** Serializes the header, computes the tag over all but its last octets, and serializes it again. */
  ghost function SealHeader(c: Primitives, p: Suite, key: Octets, h: Header): SealedHeader {
    var size := HeaderSizeReturned(h);
    if size == 0 then HeaderFailure(LimitExceeded)
    else if size < 0 then HeaderFailure(OutOfMemory)
    else
      var first := MessageHeader.WriteHeader(p, h);
      if |first| > size then HeaderFailure(ShortBuffer)
      else if |first| != size || size < AuthTagLen(p) then HeaderFailure(CryptoUnknown)
      else
        var tag := SignHeader(c, p, key, first[..size - AuthTagLen(p)]);
        if tag.None? || |tag.value| != AuthTagLen(p) then HeaderFailure(CryptoUnknown) else
          var h' := WithTag(p, h, tag.value);
          var second := MessageHeader.WriteHeader(p, h');
          if |second| > size then HeaderFailure(ShortBuffer)
          else if |second| != size then HeaderFailure(CryptoUnknown)
          else SealedHeader(second, h')
  }

  function RequestOf(s: Session): EncRequest {
    EncRequest(s.header.encCtx, if s.sizeKnown then s.preciseSize else s.sizeBound, s.policy)
  }

  /** The materials are there and not yet checked. */
  function Supplied(s: Session, m: EncMaterials): Session {
    s.(suite := AlgProps(m.alg), header := s.header.(encCtx := m.encCtx),
       hist := s.hist.(requested := Some(RequestOf(s))))
  }

  ghost function TryGenKey(w: World, s: Session): Outcome
    requires Lawful(w.prims)
  {
    match w.generate(RequestOf(s))
    case None => Raise(s, CmmError)
    case Some(m) =>
      var complaint := MaterialsError(s, m);
      if complaint.Some? then Raise(Supplied(s, m), complaint.value) else
        var p := AlgProps(m.alg).value;
        var s2 := Supplied(s, m).(signCtx := SignatureStart(m), cmmSuccess := true);
        match w.random(MessageIdLen(p))
        case None => Raise(s2, CryptoUnknown)
        case Some(messageId) =>
          if |messageId| != MessageIdLen(p) then Raise(s2, CryptoUnknown) else GenKeyFor(w, s2, p, m, messageId)
  }

  function SignatureStart(m: EncMaterials): Option<SigCtx> {
    if m.signingKey.Some? then Some(SigCtx(m.signingKey.value, [])) else None
  }

  ghost function GenKeyFor(w: World, s: Session, p: Suite, m: EncMaterials, messageId: Octets): Outcome
    requires Lawful(w.prims)
  {
    var s1 := s.(header := s.header.(messageId := messageId));
    var room := if MustIncludeCommitment(s.policy) then p.commitmentLen else 0;
    match DeriveKey(w.prims.hmac, p, m.dataKey, room, messageId)
    case None => Raise(s1, CryptoUnknown)
    case Some(d) =>
      var s2 := s1.(contentKey := d.contentKey, header := s1.header.(suiteData := d.commitment, algId := p.algId));
      if s.frameSize > UINT32_MAX then Raise(s2, LimitExceeded) else OpenMessage(w, s2, p, m)
  }

  ghost function OpenMessage(w: World, s: Session, p: Suite, m: EncMaterials): Outcome {
    var h := BuildHeader(s.frameSize, p, m, s.header.messageId, s.header.suiteData);
    match SealHeader(w.prims, p, s.contentKey, h)
    case HeaderFailure(e) => Raise(s.(header := h), e)
    case SealedHeader(octets, h') =>
      Stay(s.(stage := WriteHeader, header := h', headerCopy := octets, seqno := 1,
              signCtx := if m.signingKey.Some? then Some(SigCtx(m.signingKey.value, octets)) else None,
              hist := s.hist.(ivs := s.hist.ivs + [HEADER_IV], generated := Some(m))))
  }

  /** Of the session, only its policy and its limit on keys decide about the materials. */
  lemma SameComplaint(s: Session, t: Session, m: EncMaterials)
    requires s.policy == t.policy && s.maxEdks == t.maxEdks
    ensures MaterialsError(s, m) == MaterialsError(t, m)
  {
  }

  function TryWriteHeader(s: Session, capacity: nat): Outcome {
    var s1 := s.(outEstimate := |s.headerCopy|);
    if capacity < |s.headerCopy| then Stay(s1) else
      Outcome(s1.(stage := EncryptBody, hist := s1.hist.(emitted := s1.hist.emitted + s.headerCopy)), 0, s.headerCopy, None)
  }

  datatype Plan = Wait | Write(kind: FrameKind, size: nat)

  /** The size still missing, as 64-bit arithmetic sees it. */
  function SizeLeft(s: Session): nat {
    (s.preciseSize - s.dataSoFar) % TWO_64
  }

  /** Which frame comes next and how much plaintext it takes. */
  function NextFrame(s: Session): Plan {
    if s.frameSize != 0 then
      if s.sizeKnown && SizeLeft(s) < s.frameSize then Write(FinalFrame, SizeLeft(s)) else Write(BodyFrame, s.frameSize)
    else if s.sizeKnown then Write(SingleBlock, s.preciseSize)
    else Wait
  }

  function FeedSignature(ctx: Option<SigCtx>, octets: Octets): Option<SigCtx> {
    match ctx
    case None => None
    case Some(c) => Some(SigCtx(c.key, c.data + octets))
  }

  /** `nonNull` says whether the caller's input pointer is set; an unset one has no octets behind it. */
  function TryEncryptBody(w: World, s: Session, input: Octets, nonNull: bool, capacity: nat): Outcome {
    match NextFrame(s)
    case Wait => Stay(s.(outEstimate := 0, inEstimate := 0))
    case Write(kind, n) =>
      if s.seqno > UINT32_MAX then Raise(s, LimitExceeded) else
        var s1 := s.(outEstimate := WriteSize(kind, s.seqno, n, w.unset), inEstimate := n);
        match WriteVerdict(kind, s.seqno, n, capacity)
        case WriteShort => Stay(s1)
        case WriteLimitExceeded => Raise(s1, CryptoUnknown)
        case WriteBad => Raise(s1, CryptoUnknown)
        case WriteOk => if |input| < n || !nonNull then Stay(s1) else SealFrame(w, s1, kind, input[..n])
  }

  function SealFrame(w: World, s: Session, kind: FrameKind, plain: Octets): Outcome {
    var s1 := s.(hist := s.hist.(ivs := s.hist.ivs + [FrameIv(s.seqno)]));
    match Cipher.EncryptBody(w.prims, s.contentKey, s.header.messageId, kind, s.seqno, plain)
    case None => Raise(s1, CryptoUnknown)
    case Some(sealed) =>
      var frame := Frame(kind, s.seqno, FrameIv(s.seqno), sealed.ciphertext, sealed.tag);
      var octets := EncodeFrame(frame);
      Outcome(
        s1.(signCtx := FeedSignature(s.signCtx, octets),
            dataSoFar := (s.dataSoFar + |plain|) % TWO_64,
            seqno := s.seqno + 1,
            stage := if kind.BodyFrame? then s.stage else WriteTrailer,
            hist := s1.hist.(consumed := s.hist.consumed + plain, emitted := s.hist.emitted + octets,
                             frames := s.hist.frames + [Passed(frame, plain)])),
        |plain|, octets, None)
  }

  function TryWriteTrailer(w: World, s: Session, capacity: nat): Outcome {
    var s1 := s.(inEstimate := 0, outEstimate := 0);
    if s.suite.None? then Raise(s1, BadState)
    else if s.suite.value.signatureLen == 0 then Stay(s1.(stage := Done))
    else if capacity < 2 + s.suite.value.signatureLen then Stay(s1.(outEstimate := 2 + s.suite.value.signatureLen))
    else if s.signCtx.None? then Raise(s1, BadState)
    else
      match w.prims.sign(s.signCtx.value.key, s.signCtx.value.data)
      case None => Raise(s1.(signCtx := None), CryptoUnknown)
      case Some(sig) =>
        if capacity < 2 + |sig| then Raise(s1.(signCtx := None), CryptoUnknown) else
          var octets := BigEndian(|sig|, 2) + sig;
          Outcome(s1.(signCtx := None, stage := Done,
                      hist := s.hist.(emitted := s.hist.emitted + octets,
                                      signature := Some(Signature(s.signCtx.value.key, s.signCtx.value.data, sig)))),
                  0, octets, None)
  }

  // ---------- Decryption ----------

  /** First complaint about the unwrapped materials, before any key is derived. */
  function UnwrapError(s: Session, p: Suite, m: DecMaterials): Option<Error> {
    match AlgProps(m.alg)
    case None => Some(BadState)
    case Some(mp) =>
      if s.mode.DecryptUnsigned? && mp.signatureLen != 0 then Some(SignedMessageNotAllowed)
      else if |m.dataKey| != p.dataKeyLen then Some(CryptoUnknown)
      else if !AllowedForDecrypt(p.algId, s.policy) then Some(CommitmentPolicyViolation)
      else None
  }

  /** The tag check: the last octets of the copy must authenticate the others. */
  predicate HeaderVerifies(c: Primitives, p: Suite, key: Octets, copy: Octets, authLen: nat) {
    && authLen <= |copy| && |copy| - authLen == AuthTagLen(p)
    && VerifyHeader(c, p, key, copy[authLen..], copy[..authLen])
  }

  function UnwrapKeys(w: World, s: Session): Outcome
    requires Lawful(w.prims)
  {
    match AlgProps(s.header.algId)
    case None => Raise(s.(suite := None), BadCiphertext)
    case Some(p) =>
      match w.unwrap(DecRequest(p.algId, s.header.edks, s.header.encCtx))
      case None => Raise(s.(suite := Some(p)), CmmError)
      case Some(m) =>
        var s1 := s.(suite := Some(p), cmmSuccess := true,
                     hist := s.hist.(unwrapped := Some(m), policy := s.policy));
        var complaint := UnwrapError(s, p, m);
        if complaint.Some? then Raise(s1, complaint.value) else
          match DeriveKey(w.prims.hmac, p, m.dataKey, p.commitmentLen, s.header.messageId)
          case None => Raise(s1, CryptoUnknown)
          case Some(d) =>
            var s2 := s1.(contentKey := d.contentKey);
            if !CommitmentMatches(d.commitment, s.header.suiteData) then Raise(s2, BadCiphertext)
            else if !HeaderVerifies(w.prims, p, d.contentKey, s.headerCopy, s.header.authLen) then Raise(s2, BadCiphertext)
            else if p.signatureLen != 0 && m.verifyKey.None? then Raise(s2, BadCiphertext)
            else
              Stay(s2.(seqno := 1, frameSize := s.header.frameLen, stage := DecryptBody,
                       signCtx := if p.signatureLen != 0 then Some(SigCtx(m.verifyKey.value, s.headerCopy)) else s.signCtx))
  }

  ghost function TryParseHeader(w: World, s: Session, input: Octets): Outcome
    requires Lawful(w.prims)
  {
    match ParseHeader(input, s.maxEdks)
    case Short =>
      var s1 := s.(header := EMPTY_HEADER, outEstimate := 0);
      Stay(if |input| >= s.inEstimate then s1.(inEstimate := Min(|input| + 128, UINT64_MAX)) else s1)
    case Bad(e) => Raise(s.(header := EMPTY_HEADER), e)
    case Ok(h, rest) =>
      var consumed := |input| - |rest|;
      var size := HeaderSizeReturned(h);
      if size == 0 then Outcome(s.(header := h), consumed, [], Some(BadCiphertext))
      else if size != consumed then Outcome(s.(header := h), consumed, [], Some(CryptoUnknown))
      else
        var s1 := s.(header := h, headerCopy := input[..consumed], stage := UnwrapKey,
                     hist := s.hist.(consumed := s.hist.consumed + input[..consumed]));
        var o := UnwrapKeys(w, s1);
        Outcome(o.s, consumed, [], o.error)
  }

  function TryDecryptBody(w: World, s: Session, input: Octets, capacity: nat): Outcome {
    var r := DeserializeFrame(input, s.frameSize);
    var s1 := s.(inEstimate := r.ciphertextSize, outEstimate := r.plaintextSize);
    match r.result
    case ReadShort => Stay(s1)
    case ReadBad => Raise(s1, BadCiphertext)
    case ReadOk(f, n) =>
      if s.seqno != f.seqno then Outcome(s1, n, [], Some(BadCiphertext))
      else if capacity < r.plaintextSize then Stay(s1)
      else OpenFrame(w, s1, f, n, input[..n])
  }

  function OpenFrame(w: World, s: Session, f: Frame, n: nat, octets: Octets): Outcome {
    match Cipher.DecryptBody(w.prims, s.contentKey, s.header.messageId, f.kind, f.seqno, f.iv, f.ciphertext, f.tag)
    case None => Outcome(s, n, [], Some(BadCiphertext))
    case Some(plain) =>
      Outcome(
        s.(seqno := s.seqno + 1,
           signCtx := FeedSignature(s.signCtx, octets),
           stage := if f.kind.BodyFrame? then s.stage else CheckTrailer,
           hist := s.hist.(consumed := s.hist.consumed + octets, emitted := s.hist.emitted + plain,
                           frames := s.hist.frames + [Passed(f, plain)])),
        n, plain, None)
  }

  function TryCheckTrailer(w: World, s: Session, input: Octets): Outcome {
    var s1 := s.(inEstimate := 0, outEstimate := 0);
    if s.signCtx.None? then Stay(s1.(stage := Done))
    else if |input| < 2 then Stay(s1.(inEstimate := 2))
    else
      var n := FromBigEndian(input[..2]);
      if |input| < 2 + n then Stay(s1.(inEstimate := 2 + n))
      else
        var sig := input[2..2 + n];
        var ctx := s.signCtx.value;
        var s2 := s1.(signCtx := None);
        if !w.prims.verify(ctx.key, ctx.data, sig) then Outcome(s2, 2 + n, [], Some(BadCiphertext))
        else Outcome(s2.(hist := s.hist.(consumed := s.hist.consumed + input[..2 + n],
                                         signature := Some(Signature(ctx.key, ctx.data, sig)))),
                     2 + n, [], None)
  }

  // ---------- The process loop ----------

  function Begin(s: Session): Outcome {
    if !s.hasCmm || s.policy.InvalidPolicy? then Raise(s, BadState)
    else Stay(s.(stage := if s.mode.Encrypt? then GenKey else ReadHeader))
  }

  ghost function Turn(w: World, s: Session, input: Octets, nonNull: bool, capacity: nat): Outcome
    requires Lawful(w.prims)
  {
    match s.stage
    case Config => Begin(s)
    case ReadHeader => TryParseHeader(w, s, input)
    case UnwrapKey => UnwrapKeys(w, s)
    case DecryptBody => TryDecryptBody(w, s, input, capacity)
    case CheckTrailer => TryCheckTrailer(w, s, input)
    case GenKey => TryGenKey(w, s)
    case WriteHeader => TryWriteHeader(s, capacity)
    case EncryptBody => TryEncryptBody(w, s, input, nonNull, capacity)
    case WriteTrailer => TryWriteTrailer(w, s, capacity)
    case Done => Stay(s)
    case Failed => Raise(s, s.error)
  }

  /** Turns left before a session must rest or finish; every change of stage lowers it. */
  function Rank(stage: Stage): nat {
    match stage
    case Config => 6
    case GenKey => 5
    case ReadHeader => 5
    case WriteHeader => 4
    case UnwrapKey => 4
    case EncryptBody => 3
    case DecryptBody => 3
    case WriteTrailer => 2
    case CheckTrailer => 2
    case Done => 0
    case Failed => 0
  }

  predicate MadeProgress(s: Session, o: Outcome) {
    |o.emitted| > 0 || o.consumed > 0 || o.s.stage != s.stage
  }

  /** A turn stays within its buffers and never climbs back. */
  ghost predicate InBounds(s: Session, input: Octets, capacity: nat, o: Outcome) {
    && o.consumed <= |input| && (o.error.None? ==> |o.emitted| <= capacity)
    && Rank(o.s.stage) <= Rank(s.stage) && (o.s.stage != s.stage ==> Rank(o.s.stage) < Rank(s.stage))
  }

  lemma TurnInBounds(w: World, s: Session, input: Octets, nonNull: bool, capacity: nat)
    requires Lawful(w.prims)
    ensures InBounds(s, input, capacity, Turn(w, s, input, nonNull, capacity))
  {
    hide TryEncryptBody, TryDecryptBody, TryParseHeader, UnwrapKeys, TryGenKey, Lawful;
    match s.stage {
      case EncryptBody => EncryptTurnInBounds(w, s, input, nonNull, capacity);
      case DecryptBody => DecryptTurnInBounds(w, s, input, capacity);
      case ReadHeader => HeaderTurnInBounds(w, s, input);
      case UnwrapKey => UnwrapStage(w, s);
      case GenKey => GenKeyStage(w, s);
      case CheckTrailer =>
      case WriteTrailer =>
      case _ =>
    }
  }

  lemma GenKeyStage(w: World, s: Session)
    requires Lawful(w.prims)
    ensures var o := TryGenKey(w, s);
            o.consumed == 0 && o.emitted == [] && (o.s.stage == s.stage || o.s.stage == WriteHeader)
  {
    hide SealHeader, DeriveKey, BuildHeader, MaterialsError, AlgProps, Lawful;
  }

  lemma UnwrapStage(w: World, s: Session)
    requires Lawful(w.prims)
    ensures var o := UnwrapKeys(w, s);
            o.consumed == 0 && o.emitted == [] && (o.s.stage == s.stage || o.s.stage == DecryptBody)
  {
    hide DeriveKey, CommitmentMatches, HeaderVerifies, UnwrapError, AlgProps, Lawful;
  }

  lemma HeaderTurnInBounds(w: World, s: Session, input: Octets)
    requires Lawful(w.prims) && s.stage.ReadHeader?
    ensures InBounds(s, input, 0, TryParseHeader(w, s, input))
  {
    hide ParseHeader, HeaderSizeReturned, UnwrapKeys, Lawful;
    match ParseHeader(input, s.maxEdks) {
      case Ok(h, rest) =>
        var consumed := |input| - |rest|;
        UnwrapStage(w, s.(header := h, headerCopy := input[..consumed], stage := UnwrapKey,
                          hist := s.hist.(consumed := s.hist.consumed + input[..consumed])));
      case _ =>
    }
  }

  lemma EncryptTurnInBounds(w: World, s: Session, input: Octets, nonNull: bool, capacity: nat)
    requires Lawful(w.prims) && s.stage.EncryptBody?
    ensures InBounds(s, input, capacity, TryEncryptBody(w, s, input, nonNull, capacity))
  {
    hide EncodeFrame, WriteVerdict, WriteSize, FrameIv, Lawful, NextFrame, Cipher.EncryptBody;
    var plan := NextFrame(s);
    if plan.Write? && plan.size <= |input| {
      var plain := input[..plan.size];
      var sealed := Cipher.EncryptBody(w.prims, s.contentKey, s.header.messageId, plan.kind, s.seqno, plain);
      if sealed.Some? {
        SealedFrameSize(w, s, plan.kind, plain);
        VerdictRoom(plan.kind, s.seqno, plan.size, capacity);
      }
    }
  }

  lemma VerdictRoom(kind: FrameKind, seqno: nat, n: nat, capacity: nat)
    ensures WriteVerdict(kind, seqno, n, capacity).WriteOk? ==> Overhead(kind) + n <= capacity
  {
  }

  lemma SealedFrameSize(w: World, s: Session, kind: FrameKind, plain: Octets)
    requires Lawful(w.prims)
    requires Cipher.EncryptBody(w.prims, s.contentKey, s.header.messageId, kind, s.seqno, plain).Some?
    ensures var sealed := Cipher.EncryptBody(w.prims, s.contentKey, s.header.messageId, kind, s.seqno, plain).value;
            |EncodeFrame(Frame(kind, s.seqno, FrameIv(s.seqno), sealed.ciphertext, sealed.tag))| == Overhead(kind) + |plain|
  {
    DecryptsOwnBody(w.prims, s.contentKey, s.header.messageId, kind, s.seqno, plain);
  }

  lemma DecryptTurnInBounds(w: World, s: Session, input: Octets, capacity: nat)
    requires Lawful(w.prims) && s.stage.DecryptBody?
    ensures InBounds(s, input, capacity, TryDecryptBody(w, s, input, capacity))
  {
    hide DeserializeFrame, FrameAad;
    var r := DeserializeFrame(input, s.frameSize);
    if r.result.ReadOk? {
      ReadSizes(input, s.frameSize);
      var f := r.result.frame;
      OpenSize(w.prims, s.contentKey, f.iv, FrameAad(s.header.messageId, f.kind, f.seqno, |f.ciphertext|), f.ciphertext, f.tag);
    }
  }

  lemma ReadSizes(input: Octets, maxFrame: nat)
    requires DeserializeFrame(input, maxFrame).result.ReadOk?
    ensures var r := DeserializeFrame(input, maxFrame);
            r.result.consumed <= |input| && |r.result.frame.ciphertext| == r.plaintextSize
  {
  }

  lemma OpenSize(c: Primitives, key: Octets, iv: Octets, aad: Octets, ct: Octets, tag: Octets)
    requires Lawful(c)
    ensures c.open(key, iv, aad, ct, tag).Some? ==> |c.open(key, iv, aad, ct, tag).value| == |ct|
  {
    assert LawfulAead(c);
  }

  /** Result of one call: `out` is empty when the call fails, since the output buffer is wiped. */
  datatype Call = Call(s: Session, consumed: nat, out: Octets, ok: bool)

  function FailWith(s: Session, e: Error): Session {
    if s.stage.Failed? then s else s.(stage := Failed, error := e)
  }

  /** A whole call: turns until one fails or makes no progress. */
  ghost function Process(w: World, s: Session, input: Octets, nonNull: bool, capacity: nat): Call
    requires Lawful(w.prims)
    decreases Rank(s.stage), |input| + capacity
  {
    var o := Turn(w, s, input, nonNull, capacity);
    TurnInBounds(w, s, input, nonNull, capacity);
    if o.error.Some? then Call(FailWith(o.s, o.error.value), o.consumed, [], false)
    else if !MadeProgress(s, o) then Call(o.s, o.consumed, o.emitted, true)
    else
      var rest := Process(w, o.s, input[o.consumed..], nonNull, capacity - |o.emitted|);
      Call(rest.s, o.consumed + rest.consumed, if rest.ok then o.emitted + rest.out else [], rest.ok)
  }

  // ---------- Configuration ----------

  const DEFAULT_FRAME_SIZE: nat := 256 * 1024

  /** Back to the initial stage; policy, key limit, manager and the frame size, chosen or read, survive. */
  function Reset(s: Session, mode: Mode): Session {
    s.(stage := if mode.InvalidMode? then Failed else Config,
       error := if mode.InvalidMode? then Unimplemented else s.error,
       mode := mode, preciseSize := 0, sizeKnown := false, sizeBound := UINT64_MAX, dataSoFar := 0,
       headerCopy := [], header := EMPTY_HEADER, inEstimate := 1, outEstimate := 1, seqno := 0,
       suite := None, contentKey := [], signCtx := None, cmmSuccess := false, hist := NO_HISTORY)
  }

  function NewSession(mode: Mode): Session {
    Session(Config, Unimplemented, mode, RequireEncryptRequireDecrypt, true, 0, false, UINT64_MAX, 0, [], EMPTY_HEADER,
            DEFAULT_FRAME_SIZE, 1, 1, 0, None, [], None, false, 0, NO_HISTORY)
  }

  function SetFrameSize(s: Session, frameSize: nat): Session {
    if !s.mode.Encrypt? || !s.stage.Config? then s else s.(frameSize := frameSize)
  }

  /** Declares the exact size; while the body is being written this refreshes the estimates by a dry run. */
  function SetMessageSize(w: World, s: Session, size: nat): Session {
    if !s.mode.Encrypt? then s
    else if s.sizeKnown then FailWith(s, BadState)
    else if s.sizeBound < size then FailWith(s, LimitExceeded)
    else
      var s1 := s.(preciseSize := size, sizeKnown := true);
      if s.stage.EncryptBody? then TryEncryptBody(w, s1, [], true, 0).s else s1
  }

  function SetMessageBound(s: Session, bound: nat): Session {
    if !s.mode.Encrypt? then s
    else if s.sizeKnown && s.preciseSize > bound then FailWith(s, LimitExceeded)
    else if s.sizeBound > bound then s.(sizeBound := bound)
    else s
  }

  function SetPolicy(s: Session, policy: Policy): Session {
    var s1 := s.(policy := policy);
    if policy.InvalidPolicy? || s.stage.Config? then s1 else FailWith(s1, BadState)
  }

  function SetMaxEdks(s: Session, maxEdks: nat): Session {
    if !s.stage.Config? then FailWith(s, BadState) else if maxEdks == 0 then s else s.(maxEdks := maxEdks)
  }

  /** Writes through the pointer to the context, which is only handed out while encrypting and unstarted. */
  function SetContext(s: Session, ctx: Context): Session {
    if s.mode.Encrypt? && s.stage.Config? then s.(header := s.header.(encCtx := ctx)) else s
  }

  /** One use of the public interface. */
  datatype Event =
    | Feed(input: Octets, nonNull: bool, capacity: nat)
    | DeclareSize(size: nat)
    | DeclareBound(bound: nat)
    | ChooseFrameSize(frameSize: nat)
    | ChoosePolicy(policy: Policy)
    | ChooseMaxEdks(maxEdks: nat)
    | ChooseContext(ctx: Context)
    | Restart(mode: Mode, world: World)

  /** A session together with the world its current message lives in. */
  datatype Live = Live(w: World, s: Session)

  ghost predicate LegalEvent(e: Event) {
    match e
    case Feed(input, nonNull, _) => nonNull || input == []
    case DeclareSize(n) => n <= UINT64_MAX
    case DeclareBound(n) => n <= UINT64_MAX
    case ChooseFrameSize(n) => n <= UINT32_MAX
    case Restart(_, w) => Lawful(w.prims)
    case _ => true
  }

  ghost function Apply(l: Live, e: Event): (r: Live)
    requires Lawful(l.w.prims) && LegalEvent(e)
    ensures Lawful(r.w.prims)
  {
    match e
    case Feed(input, nonNull, capacity) => l.(s := Process(l.w, l.s, input, nonNull, capacity).s)
    case DeclareSize(n) => l.(s := SetMessageSize(l.w, l.s, n))
    case DeclareBound(n) => l.(s := SetMessageBound(l.s, n))
    case ChooseFrameSize(n) => l.(s := SetFrameSize(l.s, n))
    case ChoosePolicy(p) => l.(s := SetPolicy(l.s, p))
    case ChooseMaxEdks(n) => l.(s := SetMaxEdks(l.s, n))
    case ChooseContext(ctx) => l.(s := SetContext(l.s, ctx))
    case Restart(mode, w) => Live(w, Reset(l.s, mode))
  }

  /** A whole run: the events in order. */
  ghost function Run(l: Live, events: seq<Event>): (r: Live)
    requires Lawful(l.w.prims) && forall e :: e in events ==> LegalEvent(e)
    ensures Lawful(r.w.prims)
    decreases |events|
  {
    if |events| == 0 then l else
      Run(Apply(l, events[0]), events[1..])
  }
}
