/**
 Reading a message that reads well once. A script is all that such a reading meets: header, keys, frames and trailer.
 Any session with fitting settings that walks along a stream starting with the message follows the script, however
 the stream is cut.
 */
module Reading {
  import opened Bytes
  import opened Hkdf
  import opened Parsing
  import opened Algorithms
  import opened Cipher
  import opened MessageHeader
  import opened FrameFormat
  import opened SessionModel
  import opened BodyTrace
  import D = DecryptRuns
  import R = SessionRuns

  /** How a session was configured before its first call. */
  datatype Settings = Settings(policy: Policy, maxEdks: nat, mode: Mode)

  datatype Script = Script(
    copy: Octets, header: Header, suite: Suite, materials: DecMaterials, key: Octets, frames: seq<Passed>, trailer: Octets)

  /** Header and frames. */
  function Body(t: Script): Octets {
    t.copy + FramesOctets(t.frames)
  }

  /** The whole message. */
  function Message(t: Script): Octets {
    Body(t) + t.trailer
  }

  predicate HeaderReads(c: Settings, t: Script) {
    ParseHeader(t.copy, c.maxEdks) == Ok(t.header, [])
  }

  ghost predicate KeyUnlocks(w: World, c: Settings, t: Script)
    requires Lawful(w.prims)
  {
    && AlgProps(t.header.algId) == Some(t.suite) && HeaderSizeReturned(t.header) == |t.copy| > 0
    && w.unwrap(DecRequest(t.suite.algId, t.header.edks, t.header.encCtx)) == Some(t.materials)
    && AlgProps(t.materials.alg).Some?
    && IsDecryptMode(c.mode) && (c.mode.DecryptUnsigned? ==> AlgProps(t.materials.alg).value.signatureLen == 0)
    && |t.materials.dataKey| == t.suite.dataKeyLen && AllowedForDecrypt(t.suite.algId, c.policy)
    && (t.suite.signatureLen != 0 ==> t.materials.verifyKey.Some?)
    && var d := DeriveKey(w.prims.hmac, t.suite, t.materials.dataKey, t.suite.commitmentLen, t.header.messageId);
    && d.Some? && d.value.contentKey == t.key && CommitmentMatches(d.value.commitment, t.header.suiteData)
    && HeaderVerifies(w.prims, t.suite, t.key, t.copy, t.header.authLen)
  }

  function Watch(t: Script, octets: Octets): Option<SigCtx> {
    D.VerificationOver(Some(t.suite), Some(t.materials), octets)
  }

  ghost predicate TrailerReads(w: World, t: Script) {
    match Watch(t, Body(t))
    case None => t.trailer == []
    case Some(ctx) =>
      && 2 <= |t.trailer| <= 2 + UINT16_MAX && t.trailer[..2] == BigEndian(|t.trailer| - 2, 2)
      && w.prims.verify(ctx.key, ctx.data, t.trailer[2..])
  }

  /** Under these settings everything in the script holds. */
  ghost predicate Readable(w: World, c: Settings, t: Script) {
    && Lawful(w.prims) && HeaderReads(c, t) && KeyUnlocks(w, c, t)
    && D.FramesOpened(w.prims, t.key, t.header.messageId, t.header.frameLen, t.frames) && D.EndsOnce(t.frames)
    && TrailerReads(w, t)
  }

  // ---------- The session that follows ----------

  ghost predicate Holds(t: Script, s: Session) {
    && s.headerCopy == t.copy && s.contentKey == t.key && s.frameSize == t.header.frameLen
    && s.header.messageId == t.header.messageId && s.suite == Some(t.suite) && s.hist.unwrapped == Some(t.materials)
  }

  /** The session has read a prefix of the message and produced the matching prefix of the plaintext. */
  ghost predicate Following(c: Settings, t: Script, s: Session) {
    && s.maxEdks == c.maxEdks && s.mode == c.mode && s.policy == c.policy && s.hasCmm
    && match s.stage
       case Config => D.Untouched(s)
       case ReadHeader => D.Untouched(s)
       case DecryptBody =>
         && var k := |s.hist.frames|;
         && Holds(t, s) && k < |t.frames| && s.hist.frames == t.frames[..k] && s.seqno == k + 1
         && s.hist.consumed == MessageOctets(s) && s.hist.emitted == Plains(s.hist.frames)
         && s.signCtx == Watch(t, MessageOctets(s))
       case CheckTrailer =>
         && Holds(t, s) && s.hist.frames == t.frames && s.hist.emitted == Plains(t.frames)
         && if s.signCtx.Some? then s.signCtx == Watch(t, Body(t)) && s.hist.consumed == Body(t)
            else s.hist.consumed == Message(t)
       case Done =>
         Holds(t, s) && s.hist.frames == t.frames && s.hist.emitted == Plains(t.frames) && s.hist.consumed == Message(t)
       case _ => false
  }

  /** The input offered is the next stretch of a stream. */
  predicate Offered(stream: Octets, s: Session, input: Octets) {
    && s.hist.consumed <= stream
    && input <= stream[|s.hist.consumed|..]
  }

  // ---------- The header ----------

  /** The header is not accepted before it is complete, and then as in the script. */
  lemma HeaderOffered(c: Settings, t: Script, stream: Octets, input: Octets)
    requires HeaderReads(c, t) && Message(t) <= stream && input <= stream
    ensures if |input| < |t.copy| then ParseHeader(input, c.maxEdks).Short?
            else input[..|t.copy|] == t.copy && ParseHeader(input, c.maxEdks) == Ok(t.header, input[|t.copy|..])
  {
    hide ParseHeader, FramesOctets;
    assert t.copy <= stream;
    if |input| < |t.copy| {
      HeaderPrefixIsShort(t.copy, c.maxEdks, |input|);
      assert input == t.copy[..|input|];
    } else {
      HeaderParseStable(t.copy, input[|t.copy|..], c.maxEdks);
      assert input == t.copy + input[|t.copy|..];
    }
  }

  lemma UnwrapSucceeds(w: World, c: Settings, t: Script, s: Session)
    requires Lawful(w.prims) && KeyUnlocks(w, c, t) && s.mode == c.mode && s.policy == c.policy
    requires s.header == t.header && s.headerCopy == t.copy && s.signCtx.None?
    ensures var o := UnwrapKeys(w, s);
            && o.error.None? && Holds(t, o.s) && o.s.stage.DecryptBody? && o.s.seqno == 1
            && o.s.signCtx == Watch(t, t.copy)
            && o.s.hist == s.hist.(unwrapped := o.s.hist.unwrapped, policy := s.policy)
            && o.s.maxEdks == s.maxEdks && o.s.mode == s.mode && o.s.policy == s.policy && o.s.hasCmm == s.hasCmm
  {
    hide DeriveKey, HeaderVerifies, HeaderSizeReturned, AlgProps, CommitmentMatches, LawfulAead, LawfulHmac;
  }

  lemma ReadHeaderFollows(w: World, c: Settings, t: Script, stream: Octets, s: Session, input: Octets)
    requires Readable(w, c, t) && Message(t) <= stream
    requires Following(c, t, s) && s.stage.ReadHeader? && Offered(stream, s, input)
    ensures var o := TryParseHeader(w, s, input);
            o.error.None? && Following(c, t, o.s)
  {
    hide ParseHeader, HeaderSizeReturned, UnwrapKeys, LawfulAead, LawfulHmac, Watch, Plains, FramesOctets, Message,
      TrailerReads, DeriveKey, HeaderVerifies, D.FramesOpened, AlgProps;
    assert stream[0..] == stream;
    HeaderOffered(c, t, stream, input);
    if |input| >= |t.copy| {
      var n := |t.copy|;
      var s1 := s.(header := t.header, headerCopy := input[..n], stage := UnwrapKey,
                   hist := s.hist.(consumed := s.hist.consumed + input[..n]));
      UnwrapSucceeds(w, c, t, s1);
      NoFrames();
      assert t.copy + FramesOctets([]) == t.copy == [] + input[..n];
      assert t.frames[..0] == [];
    }
  }

  lemma NoFrames()
    ensures Plains([]) == [] && FramesOctets([]) == []
  {
  }

  // ---------- Frames and trailer ----------

  /** The octets of the frames behind the first `k`. */
  lemma {:induction false} FramesSplit(frames: seq<Passed>, k: nat)
    requires k < |frames|
    ensures FramesOctets(frames[..k + 1]) == FramesOctets(frames[..k]) + EncodeFrame(frames[k].frame)
    ensures FramesOctets(frames[..k + 1]) <= FramesOctets(frames)
    ensures Plains(frames[..k + 1]) == Plains(frames[..k]) + frames[k].plain
    ensures Plains(frames[..k + 1]) <= Plains(frames)
    decreases |frames|
  {
    hide EncodeFrame;
    AppendFrame(frames[..k], frames[k]);
    assert frames[..k + 1] == frames[..k] + [frames[k]];
    if k + 1 < |frames| {
      var front := frames[..|frames| - 1];
      FramesSplit(front, k);
      assert front[..k + 1] == frames[..k + 1];
    } else {
      assert frames[..k + 1] == frames;
    }
  }

  /** What is left of the stream after `k` frames starts with frame `k`. */
  lemma NextInStream(t: Script, stream: Octets, k: nat)
    requires Message(t) <= stream && k < |t.frames|
    ensures var at := |t.copy| + |FramesOctets(t.frames[..k])|;
            && at <= |stream|
            && stream[..at] == t.copy + FramesOctets(t.frames[..k])
            && EncodeFrame(t.frames[k].frame) <= stream[at..]
  {
    hide FramesOctets, Plains, EncodeFrame;
    FramesSplit(t.frames, k);
    var before, e, all := FramesOctets(t.frames[..k]), EncodeFrame(t.frames[k].frame), FramesOctets(t.frames);
    var tail := all[|before| + |e|..];
    assert all == before + e + tail;
    var rest := stream[|Message(t)|..];
    assert stream == Message(t) + rest;
    assert stream == (t.copy + before) + (e + (tail + t.trailer + rest));
  }

  lemma FrameKinds(frames: seq<Passed>, k: nat)
    requires D.EndsOnce(frames) && k < |frames|
    ensures frames[k].frame.kind.BodyFrame? <==> k < |frames| - 1
  {
    if k < |frames| - 1 {
      assert frames[..|frames| - 1][k] == frames[k];
    }
  }

  /** Every frame is legal on the wire, carries its number and opens to its plaintext. */
  lemma FrameFacts(w: World, c: Settings, t: Script, k: nat)
    requires Readable(w, c, t) && k < |t.frames|
    ensures var x := t.frames[k];
            && WellFormed(x.frame, t.header.frameLen) && x.frame.seqno == k + 1
            && |x.frame.ciphertext| == |x.plain|
            && Cipher.DecryptBody(w.prims, t.key, t.header.messageId, x.frame.kind, k + 1, x.frame.iv,
                                  x.frame.ciphertext, x.frame.tag) == Some(x.plain)
            && (x.frame.kind.BodyFrame? <==> k < |t.frames| - 1)
  {
    hide HeaderReads, KeyUnlocks, TrailerReads, LawfulAead, LawfulHmac, WellFormed, FrameAad, D.EndsOnce;
    FrameKinds(t.frames, k);
    var f := t.frames[k].frame;
    assert D.OpenedAs(w.prims, t.key, t.header.messageId, t.header.frameLen, t.frames[k], k);
    OpenSize(w.prims, t.key, f.iv, FrameAad(t.header.messageId, f.kind, k + 1, |f.ciphertext|), f.ciphertext, f.tag);
  }

  /** Offered a stretch of the stream, the reader sees the next frame whole or not at all. */
  lemma FrameOffered(w: World, c: Settings, t: Script, stream: Octets, k: nat, input: Octets)
    requires Readable(w, c, t) && Message(t) <= stream && k < |t.frames|
    requires |t.copy| + |FramesOctets(t.frames[..k])| <= |stream|
    requires input <= stream[|t.copy| + |FramesOctets(t.frames[..k])|..]
    ensures var f := t.frames[k].frame;
            var e := EncodeFrame(f);
            if |input| < |e| then DeserializeFrame(input, t.header.frameLen).result.ReadShort? && input == e[..|input|]
            else && input[..|e|] == e
                 && DeserializeFrame(input, t.header.frameLen) == Read(ReadOk(f, |e|), |e|, |f.ciphertext|)
  {
    hide Readable, Message, FramesOctets, EncodeFrame, DeserializeFrame, WellFormed, Cipher.DecryptBody;
    NextInStream(t, stream, k);
    FrameFacts(w, c, t, k);
    var f := t.frames[k].frame;
    var e := EncodeFrame(f);
    if |input| < |e| {
      assert input == e[..|input|];
      FramePrefixIsShort(f, t.header.frameLen, |input|);
    } else {
      assert input == e + input[|e|..];
      FrameRoundTrip(f, t.header.frameLen, input[|e|..]);
    }
  }

  /** The state after opening frame `k`. */
  lemma OpenFollows(w: World, c: Settings, t: Script, s: Session)
    requires Readable(w, c, t) && Following(c, t, s) && s.stage.DecryptBody?
    ensures var k := |s.hist.frames|;
            var f := t.frames[k].frame;
            var e := EncodeFrame(f);
            var o := OpenFrame(w, s, f, |e|, e);
            && o.error.None? && Following(c, t, o.s)
            && o.s.hist.frames == t.frames[..k + 1] && o.s.hist.consumed == MessageOctets(o.s)
  {
    hide Readable, FramesOctets, EncodeFrame, WellFormed, Cipher.DecryptBody, Plains;
    var k := |s.hist.frames|;
    var x := t.frames[k];
    FrameFacts(w, c, t, k);
    AppendFrame(s.hist.frames, x);
    AppendToMessage(s.headerCopy, s.hist.frames, x);
    assert t.frames[..k + 1] == s.hist.frames + [x];
    if !x.frame.kind.BodyFrame? {
      assert t.frames[..k + 1] == t.frames;
      UnsignedEnds(w, c, t);
    }
  }

  /** Where the frames end, an unsigned message ends too. */
  lemma UnsignedEnds(w: World, c: Settings, t: Script)
    requires Readable(w, c, t)
    ensures Watch(t, Body(t)).None? ==> Body(t) == Message(t)
  {
    hide HeaderReads, KeyUnlocks, D.FramesOpened, LawfulAead, LawfulHmac, FramesOctets, BigEndian;
  }

  lemma ReadBodyFollows(w: World, c: Settings, t: Script, stream: Octets, s: Session, input: Octets, capacity: nat)
    requires Readable(w, c, t) && Message(t) <= stream
    requires Following(c, t, s) && s.stage.DecryptBody? && Offered(stream, s, input)
    ensures var o := TryDecryptBody(w, s, input, capacity);
            o.error.None? && Following(c, t, o.s)
  {
    hide Readable, Message, FramesOctets, EncodeFrame, DeserializeFrame, OpenFrame, Plains;
    var k := |s.hist.frames|;
    FrameOffered(w, c, t, stream, k, input);
    FrameFacts(w, c, t, k);
    var r := DeserializeFrame(input, s.frameSize);
    if r.result.ReadOk? {
      OpenFollows(w, c, t, s.(inEstimate := r.ciphertextSize, outEstimate := r.plaintextSize));
    }
  }

  lemma ReadTrailerFollows(w: World, c: Settings, t: Script, stream: Octets, s: Session, input: Octets)
    requires Readable(w, c, t) && Message(t) <= stream
    requires Following(c, t, s) && s.stage.CheckTrailer? && Offered(stream, s, input)
    ensures var o := TryCheckTrailer(w, s, input);
            o.error.None? && Following(c, t, o.s)
  {
    hide HeaderReads, KeyUnlocks, D.FramesOpened, D.EndsOnce, LawfulAead, LawfulHmac, FramesOctets, Plains, FromBigEndian,
      BigEndian;
    if s.signCtx.Some? && |input| >= 2 {
      DropPrefix(Body(t), t.trailer, stream);
      TrailerOffered(t.trailer, stream[|Body(t)|..], input);
      LengthField(|t.trailer| - 2);
    }
  }

  /** Offered a stretch of the trailer and what may come behind, the reader finds length and signature. */
  lemma TrailerOffered(trailer: Octets, rest: Octets, input: Octets)
    requires trailer <= rest && input <= rest && |input| >= 2 && |trailer| >= 2
    ensures input[..2] == trailer[..2]
    ensures |input| >= |trailer| ==> input[..|trailer|] == trailer && input[2..|trailer|] == trailer[2..]
  {
    assert input[..2] == rest[..2] == trailer[..2];
    if |input| >= |trailer| {
      assert input[..|trailer|] == rest[..|trailer|] == trailer;
      assert input[2..|trailer|] == input[..|trailer|][2..];
    }
  }

  lemma DropPrefix(before: Octets, after: Octets, stream: Octets)
    requires before + after <= stream
    ensures after <= stream[|before|..]
  {
    assert forall i :: 0 <= i < |after| ==> stream[|before|..][i] == (before + after)[|before| + i] == after[i];
  }

  lemma LengthField(n: nat)
    requires n <= UINT16_MAX
    ensures FromBigEndian(BigEndian(n, 2)) == n
  {
    RadixValues();
    BigEndianRoundTrip(n, 2);
  }

  lemma TurnFollows(w: World, c: Settings, t: Script, stream: Octets, s: Session, input: Octets, nonNull: bool, capacity: nat)
    requires Readable(w, c, t) && Message(t) <= stream && Following(c, t, s) && Offered(stream, s, input)
    ensures var o := SessionModel.Turn(w, s, input, nonNull, capacity);
            o.error.None? && Following(c, t, o.s)
  {
    hide Readable, Message, TryParseHeader, TryDecryptBody, TryCheckTrailer, LawfulAead, LawfulHmac, Holds, Watch, Plains,
      FramesOctets;
    match s.stage {
      case Config => PolicyFits(w, c, t);
      case ReadHeader => ReadHeaderFollows(w, c, t, stream, s, input);
      case DecryptBody => ReadBodyFollows(w, c, t, stream, s, input, capacity);
      case CheckTrailer => ReadTrailerFollows(w, c, t, stream, s, input);
      case _ =>
    }
  }

  lemma PolicyFits(w: World, c: Settings, t: Script)
    requires Readable(w, c, t)
    ensures !c.policy.InvalidPolicy? && IsDecryptMode(c.mode)
  {
    hide HeaderReads, D.FramesOpened, D.EndsOnce, TrailerReads, LawfulAead, LawfulHmac, DeriveKey, HeaderVerifies,
      AlgProps, HeaderSizeReturned;
  }

  // ---------- Whole calls and whole runs ----------

  lemma StillOffered(stream: Octets, s: Session, input: Octets, t: Session, n: nat)
    requires Offered(stream, s, input) && n <= |input| && t.hist.consumed == s.hist.consumed + input[..n]
    ensures Offered(stream, t, input[n..])
  {
    var at := |s.hist.consumed|;
    assert stream == stream[..at] + stream[at..];
    assert stream[at + n..] == stream[at..][n..];
    assert stream[..at + n] == stream[..at] + stream[at..][..n];
  }

  /** A call on a stretch of the stream neither fails nor strays. */
  lemma {:induction false} ProcessFollows(w: World, c: Settings, t: Script, stream: Octets, s: Session, input: Octets,
                                          nonNull: bool, capacity: nat)
    requires Readable(w, c, t) && Message(t) <= stream && Following(c, t, s) && Offered(stream, s, input)
    ensures Lawful(w.prims)
    ensures var r := Process(w, s, input, nonNull, capacity);
            r.ok && Following(c, t, r.s)
    decreases Rank(s.stage), |input| + capacity
  {
    hide HeaderReads, KeyUnlocks, TrailerReads, D.FramesOpened, D.EndsOnce, Message, SessionModel.Turn, LawfulAead,
      LawfulHmac, Following, Offered;
    TurnInBounds(w, s, input, nonNull, capacity);
    TurnFollows(w, c, t, stream, s, input, nonNull, capacity);
    R.TurnRecords(w, s, input, nonNull, capacity);
    var o := SessionModel.Turn(w, s, input, nonNull, capacity);
    if MadeProgress(s, o) {
      StillOffered(stream, s, input, o.s, o.consumed);
      ProcessFollows(w, c, t, stream, o.s, input[o.consumed..], nonNull, capacity - |o.emitted|);
    }
  }

  /** One call of a driver: how many octets of the remaining stream it offers, and how much room. */
  datatype Offer = Offer(octets: nat, room: nat)

  function NextInput(stream: Octets, s: Session, offer: Offer): Octets {
    if |s.hist.consumed| > |stream| then [] else
      var rest := stream[|s.hist.consumed|..];
      rest[..Min(offer.octets, |rest|)]
  }

  /** A driver that walks along the stream, re-offering what was not taken. */
  ghost function Drive(w: World, s: Session, stream: Octets, offers: seq<Offer>): Session
    requires Lawful(w.prims)
    decreases |offers|
  {
    if |offers| == 0 then s else
      Drive(w, Process(w, s, NextInput(stream, s, offers[0]), true, offers[0].room).s, stream, offers[1..])
  }

  lemma OfferedByDriver(stream: Octets, s: Session, offer: Offer)
    requires s.hist.consumed <= stream
    ensures Offered(stream, s, NextInput(stream, s, offer))
  {
  }

  lemma FollowingIsPrefix(c: Settings, t: Script, s: Session)
    requires Following(c, t, s)
    ensures s.hist.consumed <= Message(t)
    ensures s.hist.emitted <= Plains(t.frames)
  {
    hide Watch, EncodeFrame, FramesOctets, Plains;
    if s.stage.DecryptBody? {
      NextInStream(t, Message(t), |s.hist.frames|);
      FramesSplit(t.frames, |s.hist.frames|);
    }
  }

  lemma {:induction false} DriveFollows(w: World, c: Settings, t: Script, stream: Octets, s: Session, offers: seq<Offer>)
    requires Readable(w, c, t) && Message(t) <= stream && Following(c, t, s)
    ensures Lawful(w.prims) && Following(c, t, Drive(w, s, stream, offers))
    decreases |offers|
  {
    hide HeaderReads, KeyUnlocks, TrailerReads, D.FramesOpened, D.EndsOnce, Message, Process, LawfulAead, LawfulHmac,
      Following;
    if |offers| > 0 {
      FollowingIsPrefix(c, t, s);
      var input := NextInput(stream, s, offers[0]);
      OfferedByDriver(stream, s, offers[0]);
      ProcessFollows(w, c, t, stream, s, input, true, offers[0].room);
      DriveFollows(w, c, t, stream, Process(w, s, input, true, offers[0].room).s, offers[1..]);
    }
  }

  /** A decrypting session that has been configured but not started. */
  function Configured(c: Settings): Session {
    NewSession(c.mode).(policy := c.policy, maxEdks := c.maxEdks)
  }

  /**
   However the stream is cut, the reading never fails, has always produced a prefix of the plaintext, and when it is
   done it has taken exactly the message and produced exactly its plaintext.
   */
  lemma EveryCutReads(w: World, c: Settings, t: Script, stream: Octets, offers: seq<Offer>)
    requires Readable(w, c, t) && Message(t) <= stream
    ensures Lawful(w.prims)
    ensures var s := Drive(w, Configured(c), stream, offers);
            && !s.stage.Failed?
            && s.hist.emitted <= Plains(t.frames) && s.hist.consumed <= Message(t)
            && (s.stage.Done? ==> s.hist.emitted == Plains(t.frames) && s.hist.consumed == Message(t))
  {
    hide HeaderReads, KeyUnlocks, TrailerReads, D.FramesOpened, D.EndsOnce, Message, Drive, LawfulAead, LawfulHmac,
      Holds, Watch, FramesOctets, Plains;
    DriveFollows(w, c, t, stream, Configured(c), offers);
    FollowingIsPrefix(c, t, Drive(w, Configured(c), stream, offers));
  }
}
