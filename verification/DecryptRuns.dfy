/** What every run of a decrypting session keeps, and what a finished run has verified. */
module DecryptRuns {
  import opened Bytes
  import opened Hkdf
  import opened Parsing
  import opened Algorithms
  import opened Cipher
  import opened MessageHeader
  import opened FrameFormat
  import opened SessionModel
  import opened BodyTrace

  /** The part of a session that is settled once the header has been accepted. */
  datatype Unlocking = Unlocking(
    suite: Option<Suite>, header: Header, copy: Octets, key: Octets, frameSize: nat,
    got: Option<DecMaterials>, policy: Policy, maxEdks: nat, mode: Mode)

  function UnlockingOf(s: Session): Unlocking {
    Unlocking(s.suite, s.header, s.headerCopy, s.contentKey, s.frameSize, s.hist.unwrapped, s.hist.policy, s.maxEdks, s.mode)
  }

  /**
   The header octets parse to the header; its keys were unwrapped; the suite was allowed by the policy in
   force; the commitment in the header is the one the data key commits to; the tag authenticates the rest.
   */
  ghost predicate Unlocked(w: World, u: Unlocking)
    requires Lawful(w.prims)
  {
    && u.suite.Some? && u.got.Some?
    && var p, m, h := u.suite.value, u.got.value, u.header;
    && AlgProps(h.algId) == Some(p)
    && ParseHeader(u.copy, u.maxEdks) == Ok(h, []) && HeaderSizeReturned(h) == |u.copy| > 0
    && w.unwrap(DecRequest(p.algId, h.edks, h.encCtx)) == Some(m)
    && |m.dataKey| == p.dataKeyLen
    && AllowedForDecrypt(p.algId, u.policy)
    && AlgProps(m.alg).Some? && (u.mode.DecryptUnsigned? ==> AlgProps(m.alg).value.signatureLen == 0)
    && (p.signatureLen != 0 ==> m.verifyKey.Some?)
    && var d := DeriveKey(w.prims.hmac, p, m.dataKey, p.commitmentLen, h.messageId);
    && d.Some? && d.value.contentKey == u.key && CommitmentMatches(d.value.commitment, h.suiteData)
    && HeaderVerifies(w.prims, p, u.key, u.copy, h.authLen)
    && u.frameSize == h.frameLen
  }

  /** Frame `i` carries number i + 1, has a legal shape, and its tag holds under its own number, kind and length. */
  ghost predicate OpenedAs(c: Primitives, key: Octets, messageId: Octets, frameSize: nat, x: Passed, i: nat) {
    && x.frame.seqno == i + 1 && WellFormed(x.frame, frameSize)
    && Cipher.DecryptBody(c, key, messageId, x.frame.kind, i + 1, x.frame.iv, x.frame.ciphertext, x.frame.tag) == Some(x.plain)
  }

  ghost predicate FramesOpened(c: Primitives, key: Octets, messageId: Octets, frameSize: nat, frames: seq<Passed>) {
    forall i :: 0 <= i < |frames| ==> OpenedAs(c, key, messageId, frameSize, frames[i], i)
  }

  predicate OnlyBody(frames: seq<Passed>) {
    forall i :: 0 <= i < |frames| ==> frames[i].frame.kind.BodyFrame?
  }

  /** Only the last frame is a final one or a single block. */
  predicate EndsOnce(frames: seq<Passed>) {
    |frames| > 0 && OnlyBody(frames[..|frames| - 1]) && !frames[|frames| - 1].frame.kind.BodyFrame?
  }

  function VerificationOver(suite: Option<Suite>, got: Option<DecMaterials>, octets: Octets): Option<SigCtx> {
    if suite.Some? && suite.value.signatureLen != 0 && got.Some? && got.value.verifyKey.Some?
    then Some(SigCtx(got.value.verifyKey.value, octets)) else None
  }

  ghost predicate BodyRead(w: World, s: Session)
    requires Lawful(w.prims)
  {
    && Unlocked(w, UnlockingOf(s)) && IsDecryptMode(s.mode)
    && FramesOpened(w.prims, s.contentKey, s.header.messageId, s.frameSize, s.hist.frames)
    && s.hist.emitted == Plains(s.hist.frames)
    && s.seqno == |s.hist.frames| + 1
  }

  ghost predicate NothingVerifiedYet(s: Session) {
    && s.hist.consumed == MessageOctets(s) && s.hist.signature.None?
    && s.signCtx == VerificationOver(s.suite, s.hist.unwrapped, MessageOctets(s))
  }

  /** The signature verified covers exactly header and frames, and the octets consumed are these and the signature. */
  ghost predicate TrailerVerified(w: World, s: Session) {
    && s.signCtx.None?
    && match VerificationOver(s.suite, s.hist.unwrapped, MessageOctets(s))
       case None => s.hist.signature.None? && s.hist.consumed == MessageOctets(s)
       case Some(ctx) =>
         && s.hist.signature.Some?
         && var sig := s.hist.signature.value.octets;
         && s.hist.signature == Some(Signature(ctx.key, ctx.data, sig)) && |sig| <= UINT16_MAX
         && w.prims.verify(ctx.key, ctx.data, sig)
         && s.hist.consumed == MessageOctets(s) + (BigEndian(|sig|, 2) + sig)
  }

  ghost predicate Untouched(s: Session) {
    s.hist == NO_HISTORY && s.signCtx.None? && s.seqno == 0
  }

  ghost predicate DecInv(w: World, s: Session)
    requires Lawful(w.prims)
  {
    && s.frameSize <= UINT32_MAX
    && match s.stage
       case Config => IsDecryptMode(s.mode) && Untouched(s)
       case ReadHeader => IsDecryptMode(s.mode) && Untouched(s)
       case DecryptBody => BodyRead(w, s) && OnlyBody(s.hist.frames) && NothingVerifiedYet(s)
       case CheckTrailer => BodyRead(w, s) && EndsOnce(s.hist.frames) && (NothingVerifiedYet(s) || TrailerVerified(w, s))
       case Done => BodyRead(w, s) && EndsOnce(s.hist.frames) && TrailerVerified(w, s)
       case Failed => s.seqno == 0 || Unlocked(w, UnlockingOf(s))
       case _ => false
  }

  /** What a turn leaves behind when it raises an error: the header was accepted before, or not at all. */
  ghost predicate AfterError(w: World, s: Session)
    requires Lawful(w.prims)
  {
    s.frameSize <= UINT32_MAX && (s.seqno == 0 || Unlocked(w, UnlockingOf(s)))
  }

  /** Whatever became of a message, sequence numbers start once its header is accepted. */
  lemma NumberedIsUnlocked(w: World, s: Session)
    requires Lawful(w.prims) && DecInv(w, s)
    ensures s.seqno == 0 || Unlocked(w, UnlockingOf(s))
  {
    hide Unlocked, UnlockingOf, FramesOpened, OnlyBody, EndsOnce, NothingVerifiedYet, TrailerVerified, Plains, LawfulAead,
      LawfulHmac;
  }

  // ---------- Accepting the header ----------

  lemma AcceptedFrameLen(s: Octets, maxEdks: nat)
    requires ParseHeader(s, maxEdks).Ok?
    ensures ParseHeader(s, maxEdks).value.frameLen <= UINT32_MAX
  {
    hide ParseSuite, ParseAad, ParseEdkList, ParseContentType, ParseReserved, FromBigEndian, AlgProps;
    var p := ParseSuite(s);
    var m := Take(p.rest, MessageIdLen(p.value));
    var c := ParseAad(m.rest);
    var e := ParseEdkList(c.rest, maxEdks);
    var t := ParseContentType(e.rest);
    var r := ParseReserved(t.rest, p.value.version);
    RadixValues();
    FromBigEndianBound(r.rest[..4]);
  }

  lemma UnwrapOpens(w: World, s: Session)
    requires Lawful(w.prims) && UnwrapKeys(w, s).error.None?
    requires ParseHeader(s.headerCopy, s.maxEdks) == Ok(s.header, []) && HeaderSizeReturned(s.header) == |s.headerCopy| > 0
    ensures Unlocked(w, UnlockingOf(UnwrapKeys(w, s).s))
  {
    hide ParseHeader, HeaderSizeReturned, AlgProps, DeriveKey, CommitmentMatches, HeaderVerifies, LawfulAead, LawfulHmac;
    assert AlgProps(s.header.algId).Some?;
  }

  lemma UnwrapKeepsRest(w: World, s: Session)
    requires Lawful(w.prims)
    ensures var o := UnwrapKeys(w, s);
            && o.s.frameSize == (if o.error.None? then s.header.frameLen else s.frameSize)
            && o.s.headerCopy == s.headerCopy && o.s.mode == s.mode && o.s.header == s.header
            && (o.error.Some? ==> o.s.seqno == s.seqno)
            && (o.error.None? ==>
                  && o.s.stage.DecryptBody? && o.s.seqno == 1
                  && o.s.hist == s.hist.(unwrapped := o.s.hist.unwrapped, policy := s.policy)
                  && o.s.signCtx == if VerificationOver(o.s.suite, o.s.hist.unwrapped, s.headerCopy).Some?
                                    then VerificationOver(o.s.suite, o.s.hist.unwrapped, s.headerCopy) else s.signCtx)
  {
    hide AlgProps, DeriveKey, CommitmentMatches, HeaderVerifies, LawfulAead, LawfulHmac, UnwrapError;
    var p := AlgProps(s.header.algId);
    if p.Some? {
      var m := w.unwrap(DecRequest(p.value.algId, s.header.edks, s.header.encCtx));
      if m.Some? && UnwrapError(s, p.value, m.value).None? {
        var d := DeriveKey(w.prims.hmac, p.value, m.value.dataKey, p.value.commitmentLen, s.header.messageId);
        if d.None? {
        } else if !CommitmentMatches(d.value.commitment, s.header.suiteData) {
        } else if !HeaderVerifies(w.prims, p.value, d.value.contentKey, s.headerCopy, s.header.authLen) {
        }
      }
    }
  }

  lemma ParseHeaderKeeps(w: World, s: Session, input: Octets)
    requires Lawful(w.prims) && DecInv(w, s) && s.stage.ReadHeader?
    ensures var o := TryParseHeader(w, s, input);
            if o.error.Some? then AfterError(w, o.s) else DecInv(w, o.s)
  {
    hide ParseHeader, HeaderSizeReturned, UnwrapKeys, Unlocked, LawfulAead, LawfulHmac;
    var parsed := ParseHeader(input, s.maxEdks);
    if parsed.Ok? && HeaderSizeReturned(parsed.value) == |input| - |parsed.rest| != 0 {
      var n := |input| - |parsed.rest|;
      assert input == input[..n] + input[n..];
      HeaderNeedsNoLookahead(input[..n], input[n..], s.maxEdks);
      AcceptedFrameLen(input, s.maxEdks);
      var s1 := s.(header := parsed.value, headerCopy := input[..n], stage := UnwrapKey,
                   hist := s.hist.(consumed := s.hist.consumed + input[..n]));
      UnwrapKeepsRest(w, s1);
      var o := UnwrapKeys(w, s1);
      if o.error.None? {
        UnwrapOpens(w, s1);
        assert s1.headerCopy + FramesOctets([]) == s1.headerCopy == [] + input[..n];
      }
    }
  }

  // ---------- Reading the body ----------

  lemma OpenKeeps(w: World, s: Session, f: Frame, octets: Octets)
    requires Lawful(w.prims) && DecInv(w, s) && s.stage.DecryptBody?
    requires WellFormed(f, s.frameSize) && f.seqno == s.seqno && octets == EncodeFrame(f)
    ensures var o := OpenFrame(w, s, f, |octets|, octets);
            if o.error.Some? then AfterError(w, o.s) else DecInv(w, o.s)
  {
    hide Unlocked, EncodeFrame, Cipher.DecryptBody, FramesOctets, Plains, LawfulAead, LawfulHmac, WellFormed;
    var o := OpenFrame(w, s, f, |octets|, octets);
    if o.error.None? {
      var x := o.s.hist.frames[|s.hist.frames|];
      AppendFrame(s.hist.frames, x);
      AppendToMessage(s.headerCopy, s.hist.frames, x);
      assert UnlockingOf(o.s) == UnlockingOf(s);
      assert o.s.hist.frames[..|s.hist.frames|] == s.hist.frames;
    }
  }

  lemma DecryptBodyKeeps(w: World, s: Session, input: Octets, capacity: nat)
    requires Lawful(w.prims) && DecInv(w, s) && s.stage.DecryptBody?
    ensures var o := TryDecryptBody(w, s, input, capacity);
            if o.error.Some? then AfterError(w, o.s) else DecInv(w, o.s)
  {
    hide Unlocked, EncodeFrame, FramesOctets, Plains, LawfulAead, LawfulHmac, WellFormed, DeserializeFrame, OpenFrame,
      FramesOpened, OnlyBody;
    var r := DeserializeFrame(input, s.frameSize);
    if r.result.ReadOk? && r.result.frame.seqno == s.seqno {
      AcceptedFrameIsEncoded(input, s.frameSize);
      var s1 := s.(inEstimate := r.ciphertextSize, outEstimate := r.plaintextSize);
      OpenKeeps(w, s1, r.result.frame, input[..r.result.consumed]);
    }
  }

  lemma CheckTrailerKeeps(w: World, s: Session, input: Octets)
    requires Lawful(w.prims) && DecInv(w, s) && s.stage.CheckTrailer?
    ensures var o := TryCheckTrailer(w, s, input);
            if o.error.Some? then AfterError(w, o.s) else DecInv(w, o.s)
  {
    hide Unlocked, FramesOctets, Plains, LawfulAead, LawfulHmac, FramesOpened, EndsOnce, FromBigEndian;
    if s.signCtx.Some? && |input| >= 2 {
      var n := FromBigEndian(input[..2]);
      RadixValues();
      FromBigEndianBound(input[..2]);
      BigEndianOfFrom(input[..2]);
      if |input| >= 2 + n {
        assert input[..2 + n] == input[..2] + input[2..2 + n];
      }
    }
  }

  // ---------- Whole runs ----------

  lemma TurnKeeps(w: World, s: Session, input: Octets, nonNull: bool, capacity: nat)
    requires Lawful(w.prims) && DecInv(w, s)
    ensures var o := SessionModel.Turn(w, s, input, nonNull, capacity);
            if o.error.Some? then AfterError(w, o.s) else DecInv(w, o.s)
  {
    hide TryParseHeader, TryDecryptBody, TryCheckTrailer, BodyRead, NothingVerifiedYet, TrailerVerified, LawfulAead,
      LawfulHmac, OnlyBody, EndsOnce;
    match s.stage {
      case ReadHeader => ParseHeaderKeeps(w, s, input);
      case DecryptBody => DecryptBodyKeeps(w, s, input, capacity);
      case CheckTrailer => CheckTrailerKeeps(w, s, input);
      case _ =>
    }
  }

  lemma ErrorKeeps(w: World, t: Session, e: Error)
    requires Lawful(w.prims) && AfterError(w, t)
    ensures DecInv(w, FailWith(t, e))
  {
    hide Unlocked, BodyRead, NothingVerifiedYet, TrailerVerified, OnlyBody, EndsOnce, LawfulAead, LawfulHmac;
  }

  lemma {:induction false} ProcessKeeps(w: World, s: Session, input: Octets, nonNull: bool, capacity: nat)
    requires Lawful(w.prims) && DecInv(w, s)
    ensures DecInv(w, Process(w, s, input, nonNull, capacity).s)
    decreases Rank(s.stage), |input| + capacity
  {
    hide SessionModel.Turn, DecInv, AfterError, LawfulAead, LawfulHmac;
    TurnKeeps(w, s, input, nonNull, capacity);
    TurnInBounds(w, s, input, nonNull, capacity);
    var o := SessionModel.Turn(w, s, input, nonNull, capacity);
    if o.error.Some? {
      ErrorKeeps(w, o.s, o.error.value);
    } else if MadeProgress(s, o) {
      ProcessKeeps(w, o.s, input[o.consumed..], nonNull, capacity - |o.emitted|);
    }
  }
}
