/** What every run of an encrypting session keeps, and what a finished run has written. */
module EncryptRuns {
  import opened Bytes
  import opened Hkdf
  import opened Parsing
  import opened Algorithms
  import opened Cipher
  import opened EncryptionContext
  import opened MessageHeader
  import opened FrameFormat
  import opened SessionModel
  import opened BodyTrace

  /** Every frame an intermediate one of full size. */
  predicate AllBody(frameSize: nat, frames: seq<Passed>) {
    forall i :: 0 <= i < |frames| ==> frames[i].frame.kind.BodyFrame? && |frames[i].plain| == frameSize
  }

  /** Intermediate frames of full size, then one closing frame: a short final one, or a single block. */
  predicate Complete(frameSize: nat, frames: seq<Passed>) {
    && |frames| > 0
    && AllBody(frameSize, frames[..|frames| - 1])
    && var last := frames[|frames| - 1];
    && if frameSize == 0 then |frames| == 1 && last.frame.kind.SingleBlock? && |last.plain| < MAX_UNFRAMED_PLAINTEXT_SIZE
       else last.frame.kind.FinalFrame? && |last.plain| < frameSize
  }

  lemma {:induction false} AllBodySize(frameSize: nat, frames: seq<Passed>)
    requires AllBody(frameSize, frames)
    ensures |Plains(frames)| == |frames| * frameSize
  {
    if |frames| > 0 {
      AllBodySize(frameSize, frames[..|frames| - 1]);
    }
  }

  /** Frame `i` is what sealing its plaintext under number i + 1 gives. */
  ghost predicate SealedAs(c: Primitives, key: Octets, messageId: Octets, x: Passed, i: nat) {
    && x.frame.seqno == i + 1 && x.frame.iv == FrameIv(i + 1)
    && Cipher.EncryptBody(c, key, messageId, x.frame.kind, i + 1, x.plain) == Some(Sealed(x.frame.ciphertext, x.frame.tag))
  }

  ghost predicate FramesSealed(c: Primitives, key: Octets, messageId: Octets, frames: seq<Passed>) {
    forall i :: 0 <= i < |frames| ==> SealedAs(c, key, messageId, frames[i], i)
  }

  // ---------- The invariant ----------

  /** The part of a session that is settled once its header exists. */
  datatype Opening = Opening(
    suite: Option<Suite>, header: Header, copy: Octets, key: Octets, frameSize: nat, asked: Option<EncRequest>,
    made: Option<EncMaterials>)

  function OpeningOf(s: Session): Opening {
    Opening(s.suite, s.header, s.headerCopy, s.contentKey, s.frameSize, s.hist.requested, s.hist.generated)
  }

  /** The materials answer the session's own request, and its policy admits them. */
  predicate AskedFor(w: World, asked: Option<EncRequest>, m: EncMaterials) {
    asked.Some? && w.generate(asked.value) == Some(m) && AllowedForEncrypt(m.alg, asked.value.policy)
  }

  /** The header on the wire is sealed under the derived key and carries what the materials and the settings say. */
  ghost predicate Opened(w: World, b: Opening)
    requires Lawful(w.prims)
  {
    && b.suite.Some? && b.made.Some?
    && var p, m, h := b.suite.value, b.made.value, b.header;
    && AlgProps(h.algId) == Some(p) && m.alg == h.algId
    && |m.dataKey| == p.dataKeyLen && ((p.signatureLen != 0) == m.signingKey.Some?)
    && AskedFor(w, b.asked, m)
    && DeriveKey(w.prims.hmac, p, m.dataKey, p.commitmentLen, h.messageId) == Some(Derived(b.key, h.suiteData))
    && h.edks == m.edks && |h.edks| > 0 && h.encCtx == m.encCtx && Encodable(h.encCtx)
    && |h.messageId| == MessageIdLen(p) && |h.iv| == IV_LEN && |h.authTag| == TAG_LEN
    && h.frameLen == b.frameSize <= UINT32_MAX
    && b.copy == MessageHeader.WriteHeader(p, h) && |b.copy| == HeaderSizeReturned(h) > 0
    && HeaderVerifies(w.prims, p, b.key, b.copy, |AuthenticatedPart(p, h)|)
    && SealHeader(w.prims, p, b.key, BuildHeader(b.frameSize, p, m, h.messageId, h.suiteData)) == SealedHeader(b.copy, h)
  }

  /** The IVs used so far are those of 0, 1, 2, ... in this order; the header's is that of 0. */
  ghost predicate IvsInOrder(ivs: seq<Octets>) {
    |ivs| <= UINT32_MAX + 1 && forall i :: 0 <= i < |ivs| ==> ivs[i] == FrameIv(i)
  }

  function SignatureOver(made: Option<EncMaterials>, octets: Octets): Option<SigCtx> {
    if made.Some? && made.value.signingKey.Some? then Some(SigCtx(made.value.signingKey.value, octets)) else None
  }

  /** What holds from the first frame to the end of the message. */
  ghost predicate BodyInv(w: World, s: Session)
    requires Lawful(w.prims)
  {
    && Opened(w, OpeningOf(s))
    && FramesSealed(w.prims, s.contentKey, s.header.messageId, s.hist.frames)
    && s.hist.consumed == Plains(s.hist.frames)
    && s.seqno == |s.hist.frames| + 1 == |s.hist.ivs|
    && s.dataSoFar == |s.hist.consumed|
  }

  /** All input is in, and it is as long as declared. */
  ghost predicate Closed(s: Session) {
    Complete(s.frameSize, s.hist.frames) && s.sizeKnown && s.preciseSize == s.dataSoFar
  }

  /** The signature and the octets that carry it. */
  ghost predicate TrailerWritten(w: World, s: Session) {
    match SignatureOver(s.hist.generated, MessageOctets(s))
    case None => s.hist.signature.None? && s.hist.emitted == MessageOctets(s)
    case Some(ctx) =>
      && s.hist.signature.Some?
      && var sig := s.hist.signature.value.octets;
      && s.hist.signature == Some(Signature(ctx.key, ctx.data, sig))
      && w.prims.sign(ctx.key, ctx.data) == Some(sig)
      && s.hist.emitted == MessageOctets(s) + (BigEndian(|sig|, 2) + sig)
  }

  ghost predicate Fresh(s: Session) {
    && s.hist.consumed == [] && s.hist.emitted == [] && s.hist.frames == [] && s.hist.ivs == []
    && s.hist.signature == None && s.dataSoFar == 0
  }

  ghost predicate EncInv(w: World, s: Session)
    requires Lawful(w.prims)
  {
    && s.frameSize <= UINT32_MAX && s.preciseSize <= UINT64_MAX && IvsInOrder(s.hist.ivs)
    && match s.stage
       case Config => Fresh(s) && s.mode.Encrypt?
       case GenKey => Fresh(s) && s.mode.Encrypt?
       case WriteHeader =>
         && s.mode.Encrypt? && BodyInv(w, s) && s.hist.frames == [] && s.hist.emitted == []
         && s.signCtx == SignatureOver(s.hist.generated, MessageOctets(s)) && s.hist.signature == None
       case EncryptBody =>
         && s.mode.Encrypt? && BodyInv(w, s) && s.hist.emitted == MessageOctets(s) && AllBody(s.frameSize, s.hist.frames)
         && (if s.frameSize == 0 then s.hist.frames == [] else |s.hist.frames| < LAST_FRAME_MARK)
         && s.signCtx == SignatureOver(s.hist.generated, MessageOctets(s)) && s.hist.signature == None
       case WriteTrailer =>
         && s.mode.Encrypt? && BodyInv(w, s) && s.hist.emitted == MessageOctets(s) && Closed(s)
         && s.signCtx == SignatureOver(s.hist.generated, MessageOctets(s)) && s.hist.signature == None
       case Done => s.mode.Encrypt? && BodyInv(w, s) && Closed(s) && TrailerWritten(w, s)
       case Failed => s.hist.ivs == [] || Opened(w, OpeningOf(s))
       case _ => false
  }

  /** What a turn leaves behind when it raises an error. */
  ghost predicate AfterError(w: World, s: Session, t: Session)
    requires Lawful(w.prims)
  {
    && IvsInOrder(t.hist.ivs) && t.frameSize == s.frameSize && t.preciseSize == s.preciseSize
    && (t.hist.ivs == [] || Opened(w, OpeningOf(t)))
  }

  /** Whatever became of a message, if anything was encrypted then its header, key and materials belong together. */
  lemma SealedIsOpened(w: World, s: Session)
    requires Lawful(w.prims) && EncInv(w, s)
    ensures s.hist.ivs == [] || Opened(w, OpeningOf(s))
  {
    hide Opened, OpeningOf, FramesSealed, IvsInOrder, Plains, FramesOctets, LawfulAead, LawfulHmac, Closed,
      TrailerWritten, AllBody;
  }

  // ---------- Generating the header ----------

  /** The second serialization repeats every authenticated octet of the first, so the tag fits it. */
  lemma TagFitsSecondWrite(p: Suite, h: Header, tag: Octets)
    requires |h.iv| == IV_LEN && |h.authTag| == TAG_LEN && |tag| == AuthTagLen(p)
    ensures |WithTag(p, h, tag).iv| == IV_LEN && |WithTag(p, h, tag).authTag| == TAG_LEN
    ensures AuthenticatedPart(p, WithTag(p, h, tag)) == AuthenticatedPart(p, h)
    ensures MessageHeader.WriteHeader(p, WithTag(p, h, tag)) == AuthenticatedPart(p, h) + tag
    ensures MessageHeader.WriteHeader(p, h)[..|AuthenticatedPart(p, h)|] == AuthenticatedPart(p, h)
    ensures |MessageHeader.WriteHeader(p, h)| == |AuthenticatedPart(p, h)| + AuthTagLen(p)
  {
    hide Encoded, EncodeEdks, EncodeSuite, EncodeFraming, EncodeAad;
    if p.version.V1? {
      assert tag[..IV_LEN] + tag[IV_LEN..] == tag;
    } else {
      assert [] + tag == tag;
    }
  }

  /** A sealed header parses as authentic under its own key. */
  lemma SealedHeaderVerifies(c: Primitives, p: Suite, key: Octets, h: Header)
    requires Lawful(c) && AlgProps(h.algId) == Some(p) && |h.iv| == IV_LEN && |h.authTag| == TAG_LEN
    requires SealHeader(c, p, key, h).SealedHeader?
    ensures var r := SealHeader(c, p, key, h);
            && r.octets == MessageHeader.WriteHeader(p, r.header) && |r.octets| == HeaderSizeReturned(r.header) > 0
            && HeaderVerifies(c, p, key, r.octets, |AuthenticatedPart(p, r.header)|)
            && Encodable(h.encCtx)
            && |r.header.iv| == IV_LEN && |r.header.authTag| == TAG_LEN
            && r.header == h.(iv := r.header.iv, authTag := r.header.authTag)
  {
    hide AlgProps, HeaderSize, MessageHeader.WriteHeader, AuthenticatedPart, SignHeader, VerifyHeader, Encodable;
    var r := SealHeader(c, p, key, h);
    var first := MessageHeader.WriteHeader(p, h);
    var auth := AuthenticatedPart(p, h);
    var tag := SignHeader(c, p, key, first[..|first| - AuthTagLen(p)]).value;
    TagFitsSecondWrite(p, h, tag);
    SignedHeaderVerifies(c, p, key, auth);
    SameSize(p, h, r.header);
    assert r.octets[|auth|..] == tag && r.octets[..|auth|] == auth;
  }

  lemma SameSize(p: Suite, a: Header, b: Header)
    requires b == a.(iv := b.iv, authTag := b.authTag)
    ensures HeaderSizeReturned(a) == HeaderSizeReturned(b)
  {
  }

  lemma GenKeyKeeps(w: World, s: Session)
    requires Lawful(w.prims) && s.stage.GenKey? && EncInv(w, s)
    ensures var o := TryGenKey(w, s);
            if o.error.Some? then AfterError(w, s, o.s) else EncInv(w, o.s)
  {
    hide GenKeyFor, LawfulAead, LawfulHmac, AlgProps, MaterialsError, Opened;
    var answer := w.generate(RequestOf(s));
    if answer.Some? && MaterialsError(s, answer.value).None? {
      var m := answer.value;
      MaterialsSuite(s, m);
      var p := AlgProps(m.alg).value;
      var s2 := Supplied(s, m).(signCtx := SignatureStart(m), cmmSuccess := true);
      SameComplaint(s, s2, m);
      assert AskedFor(w, s2.hist.requested, m) by { MaterialsAllowed(s, m); }
      var id := w.random(MessageIdLen(p));
      if id.Some? && |id.value| == MessageIdLen(p) {
        HeaderKeeps(w, s2, p, m, id.value);
      }
    }
  }

  lemma HeaderKeeps(w: World, s: Session, p: Suite, m: EncMaterials, messageId: Octets)
    requires Lawful(w.prims) && s.stage.GenKey? && EncInv(w, s) && s.suite == Some(p)
    requires MaterialsError(s, m).None? && AlgProps(m.alg) == Some(p) && |messageId| == MessageIdLen(p)
    requires AskedFor(w, s.hist.requested, m)
    ensures var o := GenKeyFor(w, s, p, m, messageId);
            if o.error.Some? then AfterError(w, s, o.s) else EncInv(w, o.s)
  {
    hide SealHeader, DeriveKey, LawfulAead, LawfulHmac, AlgProps, MaterialsError, Opened, BuildHeader,
      MustIncludeCommitment, FrameIv, Closed, TrailerWritten, AskedFor;
    var o := GenKeyFor(w, s, p, m, messageId);
    if o.error.None? {
      GenKeyOpens(w, s, p, m, messageId);
      IvZero();
      assert o.s.headerCopy + FramesOctets([]) == o.s.headerCopy;
    }
  }

  lemma IvZero()
    ensures HEADER_IV == FrameIv(0)
  {
    BigEndianZeros(8);
    assert Zeros(4) + Zeros(8) == Zeros(12);
  }

  lemma RoomMatches(p: Suite, alg: nat, policy: Policy)
    requires AlgProps(alg) == Some(p) && AllowedForEncrypt(alg, policy)
    ensures p.commitmentLen == if MustIncludeCommitment(policy) then p.commitmentLen else 0
  {
  }

  lemma GenKeyOpens(w: World, s: Session, p: Suite, m: EncMaterials, messageId: Octets)
    requires Lawful(w.prims) && s.frameSize <= UINT32_MAX && s.suite == Some(p)
    requires MaterialsError(s, m).None? && AlgProps(m.alg) == Some(p) && |messageId| == MessageIdLen(p)
    requires GenKeyFor(w, s, p, m, messageId).error.None?
    requires AskedFor(w, s.hist.requested, m)
    ensures Opened(w, OpeningOf(GenKeyFor(w, s, p, m, messageId).s))
  {
    hide SealHeader, DeriveKey, Encodable, HeaderVerifies, MessageHeader.WriteHeader, HeaderSizeReturned, LawfulAead,
      LawfulHmac, AlgProps, AuthenticatedPart;
    RoomMatches(p, m.alg, s.policy);
    var room := if MustIncludeCommitment(s.policy) then p.commitmentLen else 0;
    var d := DeriveKey(w.prims.hmac, p, m.dataKey, room, messageId).value;
    assert p.algId == m.alg by { SuiteId(m.alg); }
    SealedHeaderVerifies(w.prims, p, d.contentKey, BuildHeader(s.frameSize, p, m, messageId, d.commitment));
  }

  lemma MaterialsAllowed(s: Session, m: EncMaterials)
    requires MaterialsError(s, m).None?
    ensures AllowedForEncrypt(m.alg, s.policy)
  {
  }

  lemma MaterialsSuite(s: Session, m: EncMaterials)
    requires MaterialsError(s, m).None?
    ensures AlgProps(m.alg).Some?
  {
  }

  lemma SuiteId(id: nat)
    requires AlgProps(id).Some?
    ensures AlgProps(id).value.algId == id
  {
  }

  // ---------- Writing the body ----------

  lemma MulBound(k: nat, f: nat, bk: nat, bf: nat)
    requires k <= bk && f <= bf
    ensures k * f <= bk * bf
  {
    MulMonotone(k, bk, f);
    MulMonotone(f, bf, bk);
    assert f * bk == bk * f && bf * bk == bk * bf;
  }

  /** The cap on sequence numbers keeps the octets written within 64 bits, with more than a frame to spare. */
  lemma RoomToSpare(frameSize: nat, count: nat)
    requires frameSize <= UINT32_MAX && count < LAST_FRAME_MARK
    ensures count * frameSize + frameSize < TWO_64
    ensures TWO_64 - count * frameSize > frameSize
  {
    MulBound(count, frameSize, 0xFFFF_FFFE, 0xFFFF_FFFF);
  }

  /** A declared size below the octets already written never looks like the end of the message. */
  lemma SizeBelowNeverEnds(frameSize: nat, count: nat, precise: nat)
    requires frameSize <= UINT32_MAX && count < LAST_FRAME_MARK && precise <= UINT64_MAX
    ensures (precise - count * frameSize) % TWO_64 < frameSize <==>
              count * frameSize <= precise < count * frameSize + frameSize
    ensures count * frameSize <= precise ==> (precise - count * frameSize) % TWO_64 == precise - count * frameSize
  {
    RoomToSpare(frameSize, count);
    WrappedDifference(count * frameSize, precise, frameSize);
  }

  lemma WrappedDifference(sofar: nat, precise: nat, frameSize: nat)
    requires sofar + frameSize < TWO_64 && precise < TWO_64
    ensures (precise - sofar) % TWO_64 < frameSize <==> sofar <= precise < sofar + frameSize
    ensures sofar <= precise ==> (precise - sofar) % TWO_64 == precise - sofar
  {
    if precise < sofar {
      assert (precise - sofar) % TWO_64 == precise - sofar + TWO_64;
    }
  }

  lemma SealKeeps(w: World, s: Session, kind: FrameKind, plain: Octets)
    requires Lawful(w.prims) && BodyInv(w, s) && IvsInOrder(s.hist.ivs)
    requires s.hist.emitted == MessageOctets(s) && s.signCtx == SignatureOver(s.hist.generated, MessageOctets(s))
    requires s.seqno <= UINT32_MAX && s.dataSoFar + |plain| < TWO_64
    ensures var o := SealFrame(w, s, kind, plain);
            && IvsInOrder(o.s.hist.ivs) && OpeningOf(o.s) == OpeningOf(s)
            && (o.error.None? ==>
                  && BodyInv(w, o.s) && |o.s.hist.frames| == |s.hist.frames| + 1
                  && o.s.hist.frames[..|s.hist.frames|] == s.hist.frames
                  && o.s.hist.frames[|s.hist.frames|].plain == plain && o.s.hist.frames[|s.hist.frames|].frame.kind == kind
                  && o.s.hist.emitted == MessageOctets(o.s)
                  && o.s.signCtx == SignatureOver(o.s.hist.generated, MessageOctets(o.s)))
  {
    hide Opened, EncodeFrame, Cipher.EncryptBody, FrameIv, LawfulAead, LawfulHmac, FramesOctets, Plains;
    var o := SealFrame(w, s, kind, plain);
    if o.error.None? {
      var x := o.s.hist.frames[|s.hist.frames|];
      AppendFrame(s.hist.frames, x);
      assert s.headerCopy + (FramesOctets(s.hist.frames) + EncodeFrame(x.frame))
          == (s.headerCopy + FramesOctets(s.hist.frames)) + EncodeFrame(x.frame);
      assert OpeningOf(o.s) == OpeningOf(s);
      assert |Plains(o.s.hist.frames)| == |Plains(s.hist.frames)| + |plain|;
    }
  }

  /** The plan for the next frame stays within 64 bits; a closing frame brings the total to the declared size. */
  lemma PlanFits(w: World, s: Session)
    requires Lawful(w.prims) && EncInv(w, s) && s.stage.EncryptBody? && NextFrame(s).Write?
    ensures var plan := NextFrame(s);
            && (s.frameSize != 0 ==> s.dataSoFar == |s.hist.frames| * s.frameSize && s.dataSoFar + plan.size < TWO_64)
            && (!plan.kind.BodyFrame? ==> s.sizeKnown && s.preciseSize == s.dataSoFar + plan.size)
            && (s.frameSize == 0 ==> plan.kind.SingleBlock? && s.dataSoFar == 0)
            && (s.frameSize != 0 && !plan.kind.BodyFrame? ==> plan.kind.FinalFrame? && plan.size < s.frameSize)
            && (plan.kind.BodyFrame? ==> plan.size == s.frameSize)
  {
    hide Opened, FramesSealed, IvsInOrder, FramesOctets, Plains, LawfulAead, LawfulHmac;
    AllBodySize(s.frameSize, s.hist.frames);
    if s.frameSize != 0 {
      SizeBelowNeverEnds(s.frameSize, |s.hist.frames|, s.preciseSize);
      RoomToSpare(s.frameSize, |s.hist.frames|);
    }
  }

  lemma OkVerdict(kind: FrameKind, seqno: nat, n: nat, capacity: nat)
    requires WriteVerdict(kind, seqno, n, capacity).WriteOk?
    ensures kind.BodyFrame? ==> seqno != LAST_FRAME_MARK
    ensures kind.SingleBlock? ==> n < MAX_UNFRAMED_PLAINTEXT_SIZE
  {
  }

  lemma EncryptBodyKeeps(w: World, s: Session, input: Octets, nonNull: bool, capacity: nat)
    requires Lawful(w.prims) && EncInv(w, s) && s.stage.EncryptBody?
    ensures var o := TryEncryptBody(w, s, input, nonNull, capacity);
            if o.error.Some? then AfterError(w, s, o.s) else EncInv(w, o.s)
  {
    hide Opened, FramesSealed, IvsInOrder, FramesOctets, Plains, LawfulAead, LawfulHmac, WriteVerdict, WriteSize,
      NextFrame, SealFrame;
    var plan := NextFrame(s);
    if plan.Write? && s.seqno <= UINT32_MAX {
      PlanFits(w, s);
      var s1 := s.(outEstimate := WriteSize(plan.kind, s.seqno, plan.size, w.unset), inEstimate := plan.size);
      if WriteVerdict(plan.kind, s.seqno, plan.size, capacity).WriteOk? && |input| >= plan.size && nonNull {
        OkVerdict(plan.kind, s.seqno, plan.size, capacity);
        SealStep(w, s1, plan.kind, input[..plan.size]);
      }
    }
  }

  lemma SealStep(w: World, s: Session, kind: FrameKind, plain: Octets)
    requires Lawful(w.prims) && EncInv(w, s) && s.stage.EncryptBody? && s.seqno <= UINT32_MAX
    requires s.dataSoFar + |plain| < TWO_64
    requires if kind.BodyFrame? then s.frameSize != 0 && |plain| == s.frameSize && s.seqno != LAST_FRAME_MARK
             else && s.sizeKnown && s.preciseSize == s.dataSoFar + |plain|
                  && if s.frameSize == 0 then kind.SingleBlock? && |plain| < MAX_UNFRAMED_PLAINTEXT_SIZE
                     else kind.FinalFrame? && |plain| < s.frameSize
    ensures var o := SealFrame(w, s, kind, plain);
            if o.error.Some? then AfterError(w, s, o.s) else EncInv(w, o.s)
  {
    hide Opened, OpeningOf, FramesSealed, IvsInOrder, FramesOctets, Plains, LawfulAead, LawfulHmac, Cipher.EncryptBody,
      EncodeFrame, FrameIv, FeedSignature;
    SealKeeps(w, s, kind, plain);
  }

  lemma WriteHeaderKeeps(w: World, s: Session, capacity: nat)
    requires Lawful(w.prims) && EncInv(w, s) && s.stage.WriteHeader?
    ensures TryWriteHeader(s, capacity).error.None? && EncInv(w, TryWriteHeader(s, capacity).s)
  {
    hide Opened, FramesSealed, IvsInOrder, Plains, LawfulAead, LawfulHmac;
    assert s.headerCopy + FramesOctets([]) == s.headerCopy == [] + s.headerCopy;
  }

  lemma WriteTrailerKeeps(w: World, s: Session, capacity: nat)
    requires Lawful(w.prims) && EncInv(w, s) && s.stage.WriteTrailer?
    ensures var o := TryWriteTrailer(w, s, capacity);
            if o.error.Some? then AfterError(w, s, o.s) else EncInv(w, o.s)
  {
    hide FramesSealed, IvsInOrder, Plains, FramesOctets, LawfulAead, LawfulHmac, DeriveKey, Encodable, HeaderVerifies,
      MessageHeader.WriteHeader, HeaderSizeReturned, AlgProps, AuthenticatedPart, Complete, SealHeader, BuildHeader,
      AskedFor, BigEndian;
  }

  // ---------- Whole runs ----------

  lemma TurnKeeps(w: World, s: Session, input: Octets, nonNull: bool, capacity: nat)
    requires Lawful(w.prims) && EncInv(w, s)
    ensures var o := Turn(w, s, input, nonNull, capacity);
            if o.error.Some? then AfterError(w, s, o.s) else EncInv(w, o.s)
  {
    hide TryEncryptBody, TryGenKey, TryWriteTrailer, TryWriteHeader, BodyInv, Closed, TrailerWritten, LawfulAead,
      LawfulHmac, IvsInOrder, AllBody;
    match s.stage {
      case GenKey => GenKeyKeeps(w, s);
      case WriteHeader => WriteHeaderKeeps(w, s, capacity);
      case EncryptBody => EncryptBodyKeeps(w, s, input, nonNull, capacity);
      case WriteTrailer => WriteTrailerKeeps(w, s, capacity);
      case _ =>
    }
  }

  lemma {:induction false} ProcessKeeps(w: World, s: Session, input: Octets, nonNull: bool, capacity: nat)
    requires Lawful(w.prims) && EncInv(w, s)
    ensures EncInv(w, Process(w, s, input, nonNull, capacity).s)
    decreases Rank(s.stage), |input| + capacity
  {
    hide Turn, EncInv, AfterError, LawfulAead, LawfulHmac;
    TurnKeeps(w, s, input, nonNull, capacity);
    TurnInBounds(w, s, input, nonNull, capacity);
    var o := Turn(w, s, input, nonNull, capacity);
    if o.error.Some? {
      ErrorKeeps(w, s, o.s, o.error.value);
    } else if MadeProgress(s, o) {
      ProcessKeeps(w, o.s, input[o.consumed..], nonNull, capacity - |o.emitted|);
    }
  }

  lemma ErrorKeeps(w: World, s: Session, t: Session, e: Error)
    requires Lawful(w.prims) && EncInv(w, s) && AfterError(w, s, t)
    ensures EncInv(w, FailWith(t, e))
  {
    hide BodyInv, Opened, Closed, TrailerWritten, LawfulAead, LawfulHmac, IvsInOrder, AllBody;
  }

  /** Declaring the size touches nothing but the size and the estimates: the dry run seals nothing. */
  lemma DryRunSealsNothing(w: World, s: Session)
    ensures var t := TryEncryptBody(w, s, [], true, 0).s;
            t == s.(inEstimate := t.inEstimate, outEstimate := t.outEstimate)
  {
    hide WriteVerdict, WriteSize, SealFrame;
    if NextFrame(s).Write? {
      NoRoomForFrame(NextFrame(s).kind, s.seqno, NextFrame(s).size);
    }
  }

  lemma NoRoomForFrame(kind: FrameKind, seqno: nat, n: nat)
    ensures !WriteVerdict(kind, seqno, n, 0).WriteOk?
  {
  }

  lemma DeclareSizeKeeps(w: World, s: Session, size: nat)
    requires Lawful(w.prims) && EncInv(w, s) && size <= UINT64_MAX
    ensures EncInv(w, SetMessageSize(w, s, size))
  {
    hide TryEncryptBody, Opened, FramesSealed, IvsInOrder, FramesOctets, Plains, LawfulAead, LawfulHmac, Complete,
      AllBody;
    if s.stage.EncryptBody? && !s.sizeKnown && s.sizeBound >= size {
      DryRunSealsNothing(w, s.(preciseSize := size, sizeKnown := true));
    }
  }

  /** Every IV handed to the cipher under one content key is new. */
  lemma IvsDistinct(ivs: seq<Octets>)
    requires IvsInOrder(ivs)
    ensures forall i, j :: 0 <= i < j < |ivs| ==> ivs[i] != ivs[j]
  {
    forall i, j | 0 <= i < j < |ivs|
      ensures ivs[i] != ivs[j]
    {
      if ivs[i] == ivs[j] {
        FrameIvInjective(i, j);
        assert false;
      }
    }
  }

  // ---------- What a finished body looks like ----------

  /** The number of frames and the size of each follow from the length of the message alone. */
  lemma FrameSizesDetermined(frameSize: nat, frames: seq<Passed>)
    requires Complete(frameSize, frames) && frameSize > 0
    ensures |frames| == |Plains(frames)| / frameSize + 1
    ensures forall i :: 0 <= i < |frames| ==>
              |frames[i].plain| == if i < |frames| - 1 then frameSize else |Plains(frames)| % frameSize
  {
    var front := frames[..|frames| - 1];
    AllBodySize(frameSize, front);
    var k, r := |front|, |frames[|frames| - 1].plain|;
    assert |Plains(frames)| == k * frameSize + r;
    DivModUnique(k, r, frameSize, |Plains(frames)|);
    forall i | 0 <= i < |frames| - 1
      ensures |frames[i].plain| == frameSize
    {
      assert front[i] == frames[i];
    }
  }

  lemma DivModUnique(k: nat, r: nat, d: nat, n: nat)
    requires n == k * d + r && r < d
    ensures n / d == k && n % d == r
  {
    var q := n / d;
    assert n == q * d + n % d;
    assert (q + 1) * d == q * d + d && (k + 1) * d == k * d + d;
    if q < k {
      MulMonotone(q + 1, k, d);
    } else if q > k {
      MulMonotone(k + 1, q, d);
    }
  }
}
