/**
 Progress of an encryption: a caller that offers what the estimates ask for finishes the message, whether its size
 is declared first or last, up to limits that differ between the two by one frame.
 */
module EncryptProgress {
  import opened Bytes
  import opened Hkdf
  import opened Algorithms
  import opened Cipher
  import opened EncryptionContext
  import opened MessageHeader
  import opened FrameFormat
  import opened SessionModel
  import opened BodyTrace
  import opened Reading
  import opened Progress
  import E = EncryptRuns
  import R = SessionRuns

  /** The session is encrypting `plain` and has taken some of it; the size is declared, or the body is framed. */
  ghost predicate Feeding(w: World, s: Session, plain: Octets)
    requires Lawful(w.prims)
  {
    && E.EncInv(w, s) && !s.stage.Failed? && s.hist.consumed <= plain
    && (if s.sizeKnown then s.preciseSize == |plain| else s.frameSize > 0)
  }

  /** All full frames are out and only the declaration of the size is missing. */
  predicate WaitsForSize(s: Session, plain: Octets) {
    !s.sizeKnown && s.stage.EncryptBody? && |plain| - |s.hist.consumed| < s.frameSize
  }

  function PlanGap(w: World, s: Session): nat {
    match s.stage
    case WriteHeader => Gap(|s.headerCopy|, s.outEstimate)
    case EncryptBody =>
      if NextFrame(s).Wait? then 0 else
        var plan := NextFrame(s);
        Gap(plan.size, s.inEstimate) + Gap(WriteSize(plan.kind, s.seqno, plan.size, w.unset), s.outEstimate)
    case WriteTrailer => if s.suite.None? then 0 else Gap(2 + s.suite.value.signatureLen, s.outEstimate)
    case _ => 0
  }

  ghost predicate CloserToEnd(w: World, plain: Octets, s: Session, t: Session)
    requires s.hist.consumed <= plain && t.hist.consumed <= plain
  {
    || Rank(t.stage) < Rank(s.stage)
    || (Rank(t.stage) == Rank(s.stage) && |t.hist.consumed| > |s.hist.consumed|)
    || (Rank(t.stage) == Rank(s.stage) && t.hist.consumed == s.hist.consumed && PlanGap(w, t) < PlanGap(w, s))
  }

  /** There is a next frame, and the driver has enough plaintext for it. */
  lemma PlanCovered(w: World, s: Session, plain: Octets)
    requires Lawful(w.prims) && Feeding(w, s, plain) && s.stage.EncryptBody? && !WaitsForSize(s, plain)
    ensures NextFrame(s).Write? && NextFrame(s).size <= |plain| - |s.hist.consumed|
    ensures NextFrame(s).kind.BodyFrame? ==> NextFrame(s).size > 0
  {
    hide E.Opened, E.FramesSealed, E.IvsInOrder, FramesOctets, Plains, LawfulAead, LawfulHmac;
    E.PlanFits(w, s);
    if s.frameSize != 0 && s.sizeKnown {
      E.AllBodySize(s.frameSize, s.hist.frames);
      E.SizeBelowNeverEnds(s.frameSize, |s.hist.frames|, s.preciseSize);
    }
  }

  lemma SealingStuck(w: World, s: Session, plain: Octets, extra: Offer)
    requires Lawful(w.prims) && Feeding(w, s, plain) && s.stage.EncryptBody? && !WaitsForSize(s, plain)
    ensures var offer := FairOffer(s, extra);
            var o := TryEncryptBody(w, s, NextInput(plain, s, offer), true, offer.room);
            o.error.None? && o.consumed == 0 && o.s.stage == s.stage ==>
              |o.emitted| == 0 && o.s.hist == s.hist && PlanGap(w, o.s) < PlanGap(w, s)
  {
    hide E.EncInv, NextFrame, LawfulAead, LawfulHmac, Cipher.EncryptBody, EncodeFrame;
    PlanCovered(w, s, plain);
    var offer := FairOffer(s, extra);
    var plan := NextFrame(s);
    var s1 := s.(outEstimate := WriteSize(plan.kind, s.seqno, plan.size, w.unset), inEstimate := plan.size);
    PlanUnmoved(s, s1);
  }

  lemma PlanUnmoved(s: Session, t: Session)
    requires t == s.(inEstimate := t.inEstimate, outEstimate := t.outEstimate)
    ensures NextFrame(t) == NextFrame(s)
  {
  }

  predicate IsEncryptStage(stage: Stage) {
    stage.Config? || stage.GenKey? || stage.WriteHeader? || stage.EncryptBody? || stage.WriteTrailer?
  }

  lemma FeedingStage(w: World, s: Session, plain: Octets)
    requires Lawful(w.prims) && Feeding(w, s, plain)
    ensures s.mode.Encrypt? && (s.stage.Done? || IsEncryptStage(s.stage))
  {
    hide E.BodyInv, E.Closed, E.TrailerWritten, E.IvsInOrder, LawfulAead, LawfulHmac;
  }

  lemma StuckEncryptTurn(w: World, s: Session, plain: Octets, extra: Offer)
    requires Lawful(w.prims) && Feeding(w, s, plain) && IsEncryptStage(s.stage) && !WaitsForSize(s, plain)
    ensures var offer := FairOffer(s, extra);
            var o := SessionModel.Turn(w, s, NextInput(plain, s, offer), true, offer.room);
            o.error.None? && o.consumed == 0 && o.s.stage == s.stage ==>
              |o.emitted| == 0 && o.s.hist == s.hist && CloserToEnd(w, plain, s, o.s)
  {
    hide E.EncInv, TryGenKey, TryEncryptBody, NextFrame, LawfulAead, LawfulHmac, WriteSize, TryParseHeader,
      TryDecryptBody, TryCheckTrailer, UnwrapKeys, BigEndian;
    match s.stage {
      case EncryptBody => SealingStuck(w, s, plain, extra);
      case GenKey => GenKeyMoves(w, s);
      case _ =>
    }
  }

  /** The settings of a message, which no step of an encryption changes. */
  predicate SameSettings(s: Session, t: Session) {
    && t.sizeKnown == s.sizeKnown && t.preciseSize == s.preciseSize && t.sizeBound == s.sizeBound
    && t.frameSize == s.frameSize && t.mode == s.mode
  }

  /** What is settled once the key is generated. */
  predicate SameKeys(s: Session, t: Session) {
    && t.suite == s.suite && t.contentKey == s.contentKey && t.hist.generated == s.hist.generated
    && t.header == s.header && t.headerCopy == s.headerCopy
  }

  lemma GenKeyMoves(w: World, s: Session)
    requires Lawful(w.prims)
    ensures var o := TryGenKey(w, s);
            && (if o.error.None? then o.s.stage.WriteHeader? else o.s.stage == s.stage)
            && SameSettings(s, o.s)
  {
    hide LawfulAead, LawfulHmac, MaterialsError, AlgProps, GenKeyFor;
    var answer := w.generate(RequestOf(s));
    if answer.Some? && MaterialsError(s, answer.value).None? {
      E.MaterialsSuite(s, answer.value);
      var m, p := answer.value, AlgProps(answer.value.alg).value;
      var id := w.random(MessageIdLen(p));
      if id.Some? && |id.value| == MessageIdLen(p) {
        var s2 := Supplied(s, m).(signCtx := SignatureStart(m), cmmSuccess := true);
        HeaderMoves(w, s2, p, m, id.value);
      }
    }
  }

  lemma HeaderMoves(w: World, s: Session, p: Suite, m: EncMaterials, messageId: Octets)
    requires Lawful(w.prims)
    ensures var o := GenKeyFor(w, s, p, m, messageId);
            && (if o.error.None? then o.s.stage.WriteHeader? else o.s.stage == s.stage)
            && SameSettings(s, o.s)
  {
    hide LawfulAead, LawfulHmac, DeriveKey, SealHeader, BuildHeader, MustIncludeCommitment;
  }

  lemma SealingKeepsSettings(w: World, s: Session, input: Octets, nonNull: bool, capacity: nat)
    ensures var o := TryEncryptBody(w, s, input, nonNull, capacity);
            && SameSettings(s, o.s) && SameKeys(s, o.s)
            && (s.stage.EncryptBody? ==> o.s.stage.EncryptBody? || o.s.stage.WriteTrailer?)
  {
    hide NextFrame, WriteSize, WriteVerdict, SealFrame;
    var plan := NextFrame(s);
    if plan.Write? && plan.size <= |input| {
      var s1 := s.(outEstimate := WriteSize(plan.kind, s.seqno, plan.size, w.unset), inEstimate := plan.size);
      FrameKeepsSettings(w, s1, plan.kind, input[..plan.size]);
    }
  }

  lemma FrameKeepsSettings(w: World, s: Session, kind: FrameKind, plain: Octets)
    ensures var o := SealFrame(w, s, kind, plain);
            SameSettings(s, o.s) && SameKeys(s, o.s) && (o.s.stage == s.stage || o.s.stage.WriteTrailer?)
  {
    hide Cipher.EncryptBody, EncodeFrame, FrameIv;
  }

  lemma SettingsKept(w: World, s: Session, input: Octets, capacity: nat)
    requires Lawful(w.prims) && (IsEncryptStage(s.stage) || s.stage.Done?)
    ensures var o := SessionModel.Turn(w, s, input, true, capacity);
            SameSettings(s, o.s) && !o.s.stage.Failed?
  {
    hide LawfulAead, LawfulHmac, TryGenKey, NextFrame, WriteSize, WriteVerdict, Cipher.EncryptBody, EncodeFrame,
      TryParseHeader, TryDecryptBody, TryCheckTrailer, UnwrapKeys, TryWriteTrailer, TryEncryptBody;
    TrailerKeepsSettings(w, s, capacity);
    GenKeyMoves(w, s);
    SealingKeepsSettings(w, s, input, true, capacity);
  }

  lemma TurnKeepsSettings(w: World, s: Session, input: Octets, nonNull: bool, capacity: nat)
    requires Lawful(w.prims) && E.EncInv(w, s) && s.mode.Encrypt?
    ensures SameSettings(s, SessionModel.Turn(w, s, input, nonNull, capacity).s)
  {
    hide LawfulAead, LawfulHmac, TryGenKey, TryParseHeader, TryDecryptBody, TryCheckTrailer, UnwrapKeys,
      TryWriteTrailer, TryEncryptBody, E.BodyInv, E.Opened, E.Closed, E.TrailerWritten, E.IvsInOrder, E.AllBody;
    GenKeyMoves(w, s);
    TrailerKeepsSettings(w, s, capacity);
    SealingKeepsSettings(w, s, input, nonNull, capacity);
  }

  lemma {:induction false} CallKeepsSettings(w: World, s: Session, input: Octets, nonNull: bool, capacity: nat)
    requires Lawful(w.prims) && E.EncInv(w, s) && s.mode.Encrypt?
    ensures SameSettings(s, Process(w, s, input, nonNull, capacity).s)
    decreases Rank(s.stage), |input| + capacity
  {
    hide SessionModel.Turn, E.EncInv, LawfulAead, LawfulHmac;
    TurnKeepsSettings(w, s, input, nonNull, capacity);
    TurnInBounds(w, s, input, nonNull, capacity);
    var o := SessionModel.Turn(w, s, input, nonNull, capacity);
    if o.error.None? && MadeProgress(s, o) {
      E.TurnKeeps(w, s, input, nonNull, capacity);
      CallKeepsSettings(w, o.s, input[o.consumed..], nonNull, capacity - |o.emitted|);
    }
  }

  lemma TurnKeepsFeeding(w: World, s: Session, plain: Octets, input: Octets, capacity: nat)
    requires Lawful(w.prims) && Feeding(w, s, plain) && input <= plain[|s.hist.consumed|..]
    ensures var o := SessionModel.Turn(w, s, input, true, capacity);
            o.error.None? ==>
              && Feeding(w, o.s, plain) && SameSettings(s, o.s) && o.consumed <= |input|
              && input[o.consumed..] <= plain[|o.s.hist.consumed|..]
  {
    hide SessionModel.Turn, E.EncInv, LawfulAead, LawfulHmac;
    R.TurnRecords(w, s, input, true, capacity);
    E.TurnKeeps(w, s, input, true, capacity);
    FeedingStage(w, s, plain);
    SettingsKept(w, s, input, capacity);
    var o := SessionModel.Turn(w, s, input, true, capacity);
    if o.error.None? {
      StillPlain(plain, s.hist.consumed, input, o.consumed);
    }
  }

  /** A call keeps to the declared plaintext. */
  lemma {:induction false} CallKeepsFeeding(w: World, s: Session, plain: Octets, input: Octets, capacity: nat)
    requires Lawful(w.prims) && Feeding(w, s, plain) && input <= plain[|s.hist.consumed|..]
    ensures var r := Process(w, s, input, true, capacity);
            if r.ok then Feeding(w, r.s, plain) && SameSettings(s, r.s) else r.s.stage.Failed?
    decreases Rank(s.stage), |input| + capacity
  {
    hide SessionModel.Turn, E.EncInv, LawfulAead, LawfulHmac;
    TurnInBounds(w, s, input, true, capacity);
    TurnKeepsFeeding(w, s, plain, input, capacity);
    var o := SessionModel.Turn(w, s, input, true, capacity);
    if o.error.None? && MadeProgress(s, o) {
      CallKeepsFeeding(w, o.s, plain, input[o.consumed..], capacity - |o.emitted|);
    }
  }

  lemma StillPlain(plain: Octets, taken: Octets, input: Octets, n: nat)
    requires taken <= plain && input <= plain[|taken|..] && n <= |input|
    ensures taken + input[..n] <= plain && input[n..] <= plain[|taken + input[..n]|..]
  {
    assert plain == taken + plain[|taken|..];
    assert plain[|taken| + n..] == plain[|taken|..][n..];
  }

  lemma FairEncryptCallAdvances(w: World, s: Session, plain: Octets, extra: Offer)
    requires Lawful(w.prims) && Feeding(w, s, plain) && !s.stage.Done? && !WaitsForSize(s, plain)
    ensures var t := FairCall(w, s, plain, extra);
            t.stage.Failed? || (Feeding(w, t, plain) && SameSettings(s, t) && CloserToEnd(w, plain, s, t))
  {
    hide SessionModel.Turn, Process, E.EncInv, LawfulAead, LawfulHmac, FairOffer, PlanGap;
    var offer := FairOffer(s, extra);
    var input := NextInput(plain, s, offer);
    FeedingStage(w, s, plain);
    CallKeepsFeeding(w, s, plain, input, offer.room);
    StuckEncryptTurn(w, s, plain, extra);
    ProcessAdvances(w, s, input, offer.room);
  }

  /** Finitely many fair calls bring the encryption to its end, to an error, or to where it waits for the size. */
  lemma {:induction false} EncryptionEnds(w: World, s: Session, plain: Octets, driver: Driver, i: nat) returns (n: nat)
    requires Lawful(w.prims) && Feeding(w, s, plain)
    ensures var t := AfterCalls(w, s, plain, driver, i, n);
            || t.stage.Failed?
            || (Feeding(w, t, plain) && SameSettings(s, t) && WaitsForSize(t, plain))
            || (Feeding(w, t, plain) && SameSettings(s, t) && t.stage.Done? && t.hist.consumed == plain && t.sizeKnown)
    decreases Rank(s.stage), |plain| - |s.hist.consumed|, PlanGap(w, s)
  {
    hide FairCall, E.EncInv, LawfulAead, LawfulHmac, PlanGap;
    n := 0;
    if s.stage.Done? {
      AllTaken(w, s, plain);
    } else if !WaitsForSize(s, plain) {
      FairEncryptCallAdvances(w, s, plain, driver(i));
      var t := FairCall(w, s, plain, driver(i));
      if t.stage.Failed? {
        n := 1;
        assert AfterCalls(w, t, plain, driver, i + 1, 0) == t;
      } else {
        var rest := EncryptionEnds(w, t, plain, driver, i + 1);
        n := rest + 1;
      }
    }
  }

  lemma AllTaken(w: World, s: Session, plain: Octets)
    requires Lawful(w.prims) && Feeding(w, s, plain) && s.stage.Done?
    ensures s.hist.consumed == plain && s.sizeKnown
  {
    hide E.Opened, E.FramesSealed, E.IvsInOrder, E.TrailerWritten, E.Complete, Plains, LawfulAead, LawfulHmac;
  }

  lemma SizeDeclared(w: World, s: Session, plain: Octets)
    requires Lawful(w.prims) && Feeding(w, s, plain) && WaitsForSize(s, plain) && |plain| <= Min(UINT64_MAX, s.sizeBound)
    ensures var t := SetMessageSize(w, s, |plain|);
            && Feeding(w, t, plain) && t.sizeKnown && t.stage.EncryptBody?
            && t.frameSize == s.frameSize && SameKeys(s, t)
  {
    hide E.EncInv, LawfulAead, LawfulHmac, TryEncryptBody;
    E.DeclareSizeKeeps(w, s, |plain|);
    E.DryRunSealsNothing(w, s.(preciseSize := |plain|, sizeKnown := true));
    FeedingStage(w, s, plain);
  }

  /**
   The primitives do not fail on what this message asks of them: frames of its own under its key, and a signature
   over no more than it can write. The message is not too long.
   */
  ghost predicate Dependable(w: World, s: Session, plain: Octets) {
    && s.suite.Some? && FramesSeal(w, s, LongestFrame(s, |plain|))
    && (s.suite.value.signatureLen != 0 ==>
          SignsInTime(w, s.hist.generated, s.suite.value.signatureLen, |s.headerCopy| + BodyLength(s.frameSize, |plain|)))
    && |plain| < SizeLimit(s)
  }

  ghost predicate FramesSeal(w: World, s: Session, longest: nat) {
    forall kind, n, p :: 0 < n <= UINT32_MAX && |p| <= longest ==>
      Cipher.EncryptBody(w.prims, s.contentKey, s.header.messageId, kind, n, p).Some?
  }

  /** The most plaintext that one frame of the message holds. */
  function LongestFrame(s: Session, size: nat): nat {
    if s.frameSize == 0 then size else Min(size, s.frameSize)
  }

  /** Frames of a message of the given size, at the overhead of the largest kind. */
  function BodyLength(frameSize: nat, size: nat): nat {
    size + Overhead(FinalFrame) * if frameSize == 0 then 1 else size / frameSize + 1
  }

  /** Signatures under the message's own key over that many octets exist and fit the trailer. */
  ghost predicate SignsInTime(w: World, made: Option<EncMaterials>, length: nat, longest: nat) {
    made.Some? && made.value.signingKey.Some? ==>
      forall data :: |data| <= longest ==>
        var sig := w.prims.sign(made.value.signingKey.value, data); sig.Some? && |sig.value| <= length
  }

  /** Messages must be shorter; a framed message whose size is declared last has one frame less. */
  function SizeLimit(s: Session): nat {
    if s.frameSize == 0 then MAX_UNFRAMED_PLAINTEXT_SIZE
    else if s.sizeKnown then s.frameSize * UINT32_MAX
    else s.frameSize * (UINT32_MAX - 1)
  }

  /** Nothing the caller or the primitives control will make the encryption of `plain` fail. */
  ghost predicate Ready(w: World, s: Session, plain: Octets)
    requires Lawful(w.prims)
  {
    match s.stage
    case Config =>
      && s.hasCmm && !s.policy.InvalidPolicy?
      && var o := TryGenKey(w, s.(stage := GenKey));
      o.error.None? && Dependable(w, o.s, plain)
    case GenKey =>
      var o := TryGenKey(w, s);
      o.error.None? && Dependable(w, o.s, plain)
    case Failed => false
    case _ => Dependable(w, s, plain)
  }

  lemma CountFits(frameSize: nat, count: nat, size: nat, most: nat)
    requires frameSize > 0 && count * frameSize <= size < frameSize * most
    ensures count < most
    ensures (count + 1) * frameSize <= size ==> count + 1 < most
  {
    if count >= most { MulMonotone(most, count, frameSize); }
    if count + 1 >= most { MulMonotone(most, count + 1, frameSize); }
  }

  lemma SealsWithoutError(w: World, s: Session, plain: Octets, input: Octets, capacity: nat)
    requires Lawful(w.prims) && Feeding(w, s, plain) && s.stage.EncryptBody? && Dependable(w, s, plain)
    requires |input| <= |plain|
    ensures TryEncryptBody(w, s, input, true, capacity).error.None?
  {
    hide E.Opened, E.FramesSealed, E.IvsInOrder, FramesOctets, Plains, LawfulAead, LawfulHmac, NextFrame, EncodeFrame,
      FrameIv, Cipher.EncryptBody, E.AllBody;
    if WaitsForSize(s, plain) {
      PlanWhenUndeclared(s);
    } else {
      PlanCovered(w, s, plain);
    }
    E.PlanFits(w, s);
    if s.frameSize != 0 {
      CountFits(s.frameSize, |s.hist.frames|, |plain|, if s.sizeKnown then UINT32_MAX else UINT32_MAX - 1);
    }
  }

  lemma PlanWhenUndeclared(s: Session)
    requires !s.sizeKnown && s.frameSize > 0
    ensures NextFrame(s) == Write(BodyFrame, s.frameSize)
  {
  }

  lemma SignsWithoutError(w: World, s: Session, plain: Octets, capacity: nat)
    requires Lawful(w.prims) && Feeding(w, s, plain) && s.stage.WriteTrailer? && Dependable(w, s, plain)
    ensures TryWriteTrailer(w, s, capacity).error.None?
  {
    hide E.FramesSealed, E.IvsInOrder, E.Complete, FramesOctets, Plains, LawfulAead, LawfulHmac, DeriveKey,
      HeaderVerifies, HeaderSizeReturned, MessageHeader.WriteHeader, AuthenticatedPart, Encodable, AlgProps, BigEndian,
      SealHeader, BodyLength;
    WholeBodyLength(w, s);
  }

  lemma FrameLength(w: World, key: Octets, messageId: Octets, x: Passed, i: nat)
    requires Lawful(w.prims) && E.SealedAs(w.prims, key, messageId, x, i)
    ensures |EncodeFrame(x.frame)| <= |x.plain| + Overhead(FinalFrame)
  {
    hide Cipher.EncryptBody, BigEndian, LawfulAead, LawfulHmac;
    DecryptsOwnBody(w.prims, key, messageId, x.frame.kind, i + 1, x.plain);
  }

  lemma {:induction false} FramesLength(w: World, key: Octets, messageId: Octets, frames: seq<Passed>)
    requires Lawful(w.prims) && E.FramesSealed(w.prims, key, messageId, frames)
    ensures |FramesOctets(frames)| <= |Plains(frames)| + Overhead(FinalFrame) * |frames|
  {
    hide E.SealedAs, EncodeFrame, LawfulAead, LawfulHmac;
    if frames != [] {
      var last := |frames| - 1;
      FrameLength(w, key, messageId, frames[last], last);
      FramesLength(w, key, messageId, frames[..last]);
    }
  }

  lemma WholeBodyLength(w: World, s: Session)
    requires Lawful(w.prims) && E.BodyInv(w, s) && E.Closed(s)
    ensures |FramesOctets(s.hist.frames)| <= BodyLength(s.frameSize, |s.hist.consumed|)
  {
    hide E.Opened, E.FramesSealed, FramesOctets, Plains, LawfulAead, LawfulHmac;
    FramesLength(w, s.contentKey, s.header.messageId, s.hist.frames);
    if s.frameSize > 0 {
      E.FrameSizesDetermined(s.frameSize, s.hist.frames);
    }
  }

  lemma TurnStaysReady(w: World, s: Session, plain: Octets, input: Octets, capacity: nat)
    requires Lawful(w.prims) && Feeding(w, s, plain) && Ready(w, s, plain) && |input| <= |plain|
    ensures var o := SessionModel.Turn(w, s, input, true, capacity);
            o.error.None? && Ready(w, o.s, plain)
  {
    hide E.EncInv, TryGenKey, TryEncryptBody, LawfulAead, LawfulHmac, TryParseHeader, TryDecryptBody, TryCheckTrailer,
      UnwrapKeys, BigEndian, TryWriteTrailer;
    FeedingStage(w, s, plain);
    SettingsKept(w, s, input, capacity);
    match s.stage {
      case GenKey => GenKeyMoves(w, s);
      case EncryptBody =>
        SealsWithoutError(w, s, plain, input, capacity);
        SealingKeepsSettings(w, s, input, true, capacity);
      case WriteTrailer =>
        SignsWithoutError(w, s, plain, capacity);
        TrailerKeepsSettings(w, s, capacity);
      case _ =>
    }
  }

  lemma TrailerKeepsSettings(w: World, s: Session, capacity: nat)
    ensures var o := TryWriteTrailer(w, s, capacity);
            && SameSettings(s, o.s) && SameKeys(s, o.s)
            && (s.stage.WriteTrailer? ==> o.s.stage.WriteTrailer? || o.s.stage.Done?)
  {
    hide TryWriteTrailer;
    TrailerOutcomes(w, s, capacity);
  }

  /** What the trailer step may change. */
  lemma TrailerOutcomes(w: World, s: Session, capacity: nat)
    ensures var t := TryWriteTrailer(w, s, capacity).s;
            && t == s.(inEstimate := t.inEstimate, outEstimate := t.outEstimate, signCtx := t.signCtx, stage := t.stage,
                       hist := t.hist)
            && (t.stage == s.stage || t.stage.Done?) && t.hist.generated == s.hist.generated
  {
    hide BigEndian;
    if s.suite.None? {
    } else if s.suite.value.signatureLen == 0 || capacity < 2 + s.suite.value.signatureLen {
    } else if s.signCtx.None? {
    } else if w.prims.sign(s.signCtx.value.key, s.signCtx.value.data).None? {
    }
  }

  lemma {:induction false} CallStaysReady(w: World, s: Session, plain: Octets, input: Octets, capacity: nat)
    requires Lawful(w.prims) && Feeding(w, s, plain) && Ready(w, s, plain) && input <= plain[|s.hist.consumed|..]
    ensures var r := Process(w, s, input, true, capacity);
            r.ok && Ready(w, r.s, plain)
    decreases Rank(s.stage), |input| + capacity
  {
    hide SessionModel.Turn, E.EncInv, LawfulAead, LawfulHmac, Ready;
    TurnInBounds(w, s, input, true, capacity);
    TurnStaysReady(w, s, plain, input, capacity);
    var o := SessionModel.Turn(w, s, input, true, capacity);
    if MadeProgress(s, o) {
      TurnKeepsFeeding(w, s, plain, input, capacity);
      CallStaysReady(w, o.s, plain, input[o.consumed..], capacity - |o.emitted|);
    }
  }

  lemma {:induction false} NeverFails(w: World, s: Session, plain: Octets, driver: Driver, i: nat, n: nat)
    requires Lawful(w.prims) && Feeding(w, s, plain) && Ready(w, s, plain)
    ensures Ready(w, AfterCalls(w, s, plain, driver, i, n), plain)
    decreases n
  {
    hide Process, E.EncInv, LawfulAead, LawfulHmac, Ready;
    if n > 0 {
      var offer := FairOffer(s, driver(i));
      var input := NextInput(plain, s, offer);
      CallStaysReady(w, s, plain, input, offer.room);
      CallKeepsFeeding(w, s, plain, input, offer.room);
      NeverFails(w, FairCall(w, s, plain, driver(i)), plain, driver, i + 1, n - 1);
    }
  }

  lemma ReadyHasNotFailed(w: World, s: Session, plain: Octets)
    requires Lawful(w.prims) && Ready(w, s, plain)
    ensures !s.stage.Failed?
  {
    hide Dependable, TryGenKey, LawfulAead, LawfulHmac;
  }

  /** A message whose size is declared and whose primitives do not fail is finished after finitely many fair calls. */
  lemma EncryptionFinishes(w: World, s: Session, plain: Octets, driver: Driver, i: nat) returns (n: nat)
    requires Lawful(w.prims) && Feeding(w, s, plain) && s.sizeKnown && Ready(w, s, plain)
    ensures var t := AfterCalls(w, s, plain, driver, i, n);
            t.stage.Done? && t.hist.consumed == plain && E.EncInv(w, t)
  {
    hide AfterCalls, E.EncInv, LawfulAead, LawfulHmac, Ready;
    n := EncryptionEnds(w, s, plain, driver, i);
    NeverFails(w, s, plain, driver, i, n);
    ReadyHasNotFailed(w, AfterCalls(w, s, plain, driver, i, n), plain);
  }

  // ---------- Declaring the size last ----------

  /** Of a framed message all full frames go out before the size is declared. */
  lemma UndeclaredWaits(w: World, s: Session, plain: Octets, driver: Driver) returns (n: nat)
    requires Lawful(w.prims) && Feeding(w, s, plain) && !s.sizeKnown && Ready(w, s, plain)
    ensures var t := AfterCalls(w, s, plain, driver, 0, n);
            Feeding(w, t, plain) && SameSettings(s, t) && WaitsForSize(t, plain) && Ready(w, t, plain)
  {
    hide AfterCalls, E.EncInv, LawfulAead, LawfulHmac, Ready;
    n := EncryptionEnds(w, s, plain, driver, 0);
    NeverFails(w, s, plain, driver, 0, n);
    ReadyHasNotFailed(w, AfterCalls(w, s, plain, driver, 0, n), plain);
  }

  lemma StillReady(w: World, s: Session, plain: Octets)
    requires Lawful(w.prims) && Feeding(w, s, plain) && WaitsForSize(s, plain) && Ready(w, s, plain)
    requires |plain| <= Min(UINT64_MAX, s.sizeBound)
    ensures Ready(w, SetMessageSize(w, s, |plain|), plain)
  {
    hide E.EncInv, LawfulAead, LawfulHmac, SetMessageSize;
    SizeDeclared(w, s, plain);
    MulMonotone(UINT32_MAX - 1, UINT32_MAX, s.frameSize);
  }

  /** A framed message fed first and declared last is finished too. */
  lemma UndeclaredFinishes(w: World, s: Session, plain: Octets, driver: Driver) returns (n: nat, m: nat)
    requires Lawful(w.prims) && Feeding(w, s, plain) && !s.sizeKnown && Ready(w, s, plain)
    requires |plain| <= Min(UINT64_MAX, s.sizeBound)
    ensures var t := AfterCalls(w, s, plain, driver, 0, n);
            var u := AfterCalls(w, SetMessageSize(w, t, |plain|), plain, driver, n, m);
            WaitsForSize(t, plain) && u.stage.Done? && u.hist.consumed == plain && E.EncInv(w, u)
  {
    hide AfterCalls, E.EncInv, LawfulAead, LawfulHmac, SetMessageSize, Ready;
    n := UndeclaredWaits(w, s, plain, driver);
    var t := AfterCalls(w, s, plain, driver, 0, n);
    SizeDeclared(w, t, plain);
    StillReady(w, t, plain);
    m := EncryptionFinishes(w, SetMessageSize(w, t, |plain|), plain, driver, n);
  }

  // ---------- One frame more ----------

  /** Undeclared, the last sequence number is refused to a frame that might not be the last. */
  lemma NoRoomAtTheLimit(w: World, s: Session, input: Octets, nonNull: bool, capacity: nat)
    requires !s.sizeKnown && s.frameSize > 0 && s.seqno >= UINT32_MAX
    ensures TryEncryptBody(w, s, input, nonNull, capacity).error.Some?
  {
    hide SealFrame;
  }

  /** So no call returns in that state without an error. */
  lemma {:induction false} NoPauseAtTheLimit(w: World, s: Session, input: Octets, capacity: nat)
    requires Lawful(w.prims) && E.EncInv(w, s) && !s.stage.Failed? && !s.sizeKnown && s.frameSize > 0
    ensures var r := Process(w, s, input, true, capacity);
            r.ok && r.s.stage.EncryptBody? ==> r.s.seqno < UINT32_MAX
    decreases Rank(s.stage), |input| + capacity
  {
    hide SessionModel.Turn, E.EncInv, LawfulAead, LawfulHmac;
    TurnInBounds(w, s, input, true, capacity);
    var o := SessionModel.Turn(w, s, input, true, capacity);
    if o.error.None? {
      StageOf(w, s);
      SettingsKept(w, s, input, capacity);
      E.TurnKeeps(w, s, input, true, capacity);
      if MadeProgress(s, o) {
        NoPauseAtTheLimit(w, o.s, input[o.consumed..], capacity - |o.emitted|);
      } else if s.stage.EncryptBody? {
        StoppedTurn(w, s, input, capacity);
      }
    }
  }

  lemma StageOf(w: World, s: Session)
    requires Lawful(w.prims) && E.EncInv(w, s)
    ensures s.stage.Failed? || s.stage.Done? || IsEncryptStage(s.stage)
  {
    hide E.BodyInv, E.Closed, E.TrailerWritten, E.IvsInOrder, LawfulAead, LawfulHmac;
  }

  lemma StoppedTurn(w: World, s: Session, input: Octets, capacity: nat)
    requires Lawful(w.prims) && s.stage.EncryptBody? && !s.sizeKnown && s.frameSize > 0
    requires var o := SessionModel.Turn(w, s, input, true, capacity); o.error.None? && o.consumed == 0 && |o.emitted| == 0
    ensures SessionModel.Turn(w, s, input, true, capacity).s.seqno < UINT32_MAX
  {
    hide LawfulAead, LawfulHmac, TryParseHeader, TryDecryptBody, TryCheckTrailer, UnwrapKeys, TryWriteTrailer, TryGenKey,
      Cipher.EncryptBody, EncodeFrame, FrameIv;
    if s.seqno >= UINT32_MAX {
      NoRoomAtTheLimit(w, s, input, true, capacity);
    }
  }

  /** The frames of an undeclared message below the limit leave at least one more frame of plaintext. */
  lemma NeverWaitsAtTheLimit(w: World, s: Session, plain: Octets)
    requires Lawful(w.prims) && Feeding(w, s, plain) && !s.sizeKnown && s.frameSize * (UINT32_MAX - 1) <= |plain|
    requires s.stage.EncryptBody? ==> s.seqno < UINT32_MAX
    ensures !WaitsForSize(s, plain)
  {
    hide E.Opened, E.FramesSealed, E.IvsInOrder, FramesOctets, Plains, LawfulAead, LawfulHmac;
    if s.stage.EncryptBody? {
      E.AllBodySize(s.frameSize, s.hist.frames);
      MulMonotone(|s.hist.frames| + 1, UINT32_MAX - 1, s.frameSize);
    }
  }

  /**
   From the limit on, a message that is fed first fails, without ever having come to where only its size was
   missing.
   */
  lemma {:induction false} DeclaringLastFails(w: World, s: Session, plain: Octets, driver: Driver, i: nat) returns (n: nat)
    requires Lawful(w.prims) && Feeding(w, s, plain) && !s.sizeKnown && s.frameSize * (UINT32_MAX - 1) <= |plain|
    requires s.stage.EncryptBody? ==> s.seqno < UINT32_MAX
    ensures AfterCalls(w, s, plain, driver, i, n).stage.Failed?
    ensures forall k :: 0 <= k <= n ==> !WaitsForSize(AfterCalls(w, s, plain, driver, i, k), plain)
    decreases Rank(s.stage), |plain| - |s.hist.consumed|, PlanGap(w, s)
  {
    hide FairCall, E.EncInv, LawfulAead, LawfulHmac, PlanGap;
    NeverWaitsAtTheLimit(w, s, plain);
    UndeclaredGoesOn(w, s, plain, driver(i));
    FairEncryptCallAdvances(w, s, plain, driver(i));
    var t := FairCall(w, s, plain, driver(i));
    n := 1;
    if t.stage.Failed? {
      assert AfterCalls(w, t, plain, driver, i + 1, 0) == t;
    } else {
      var rest := DeclaringLastFails(w, t, plain, driver, i + 1);
      n := rest + 1;
    }
    forall k | 0 <= k <= n
      ensures !WaitsForSize(AfterCalls(w, s, plain, driver, i, k), plain)
    {
      if k > 0 {
        assert AfterCalls(w, s, plain, driver, i, k) == AfterCalls(w, t, plain, driver, i + 1, k - 1);
      }
    }
  }

  lemma UndeclaredGoesOn(w: World, s: Session, plain: Octets, extra: Offer)
    requires Lawful(w.prims) && Feeding(w, s, plain) && !s.sizeKnown
    ensures !s.stage.Done?
    ensures var t := FairCall(w, s, plain, extra); t.stage.EncryptBody? ==> t.seqno < UINT32_MAX
  {
    hide Process, E.EncInv, LawfulAead, LawfulHmac, FairOffer;
    if s.stage.Done? {
      AllTaken(w, s, plain);
    }
    FeedingStage(w, s, plain);
    var offer := FairOffer(s, extra);
    var input := NextInput(plain, s, offer);
    NoPauseAtTheLimit(w, s, input, offer.room);
    CallKeepsFeeding(w, s, plain, input, offer.room);
  }

  /**
   For a message of exactly as many full frames as leave only the last sequence number, the order decides: with
   its size declared before the first call it is finished, with its size held back it fails.
   */
  lemma OrderDecidesAtTheLimit(w: World, s: Session, plain: Octets, driver: Driver) returns (n: nat, m: nat)
    requires Lawful(w.prims) && Feeding(w, s, plain) && !s.sizeKnown && s.stage.Config?
    requires s.frameSize * (UINT32_MAX - 1) <= |plain| < s.frameSize * UINT32_MAX
    requires |plain| <= Min(UINT64_MAX, s.sizeBound) && Ready(w, SetMessageSize(w, s, |plain|), plain)
    ensures AfterCalls(w, s, plain, driver, 0, n).stage.Failed?
    ensures var t := AfterCalls(w, SetMessageSize(w, s, |plain|), plain, driver, 0, m);
            t.stage.Done? && t.hist.consumed == plain
  {
    hide AfterCalls, E.EncInv, LawfulAead, LawfulHmac, Ready;
    n := DeclaringLastFails(w, s, plain, driver, 0);
    FeedingStage(w, s, plain);
    E.DeclareSizeKeeps(w, s, |plain|);
    m := EncryptionFinishes(w, SetMessageSize(w, s, |plain|), plain, driver, 0);
  }

  // ---------- When a declared size lets a message finish ----------

  /** Some further use of the session, short of a reset, completes the message. */
  ghost predicate CanFinish(l: Live)
    requires Lawful(l.w.prims)
  {
    exists events :: Completes(l, events)
  }

  ghost predicate Completes(l: Live, events: seq<Event>)
    requires Lawful(l.w.prims)
  {
    (forall e :: e in events ==> LegalEvent(e) && !e.Restart?) && Run(l, events).s.stage.Done?
  }

  lemma {:induction false} CallsAreEvents(w: World, s: Session, stream: Octets, driver: Driver, i: nat,
                                          n: nat) returns (events: seq<Event>)
    requires Lawful(w.prims)
    ensures forall e :: e in events ==> LegalEvent(e) && e.Feed?
    ensures Run(Live(w, s), events) == Live(w, AfterCalls(w, s, stream, driver, i, n))
    decreases n
  {
    hide Process, LawfulAead, LawfulHmac;
    events := [];
    if n > 0 {
      var offer := FairOffer(s, driver(i));
      var first := Feed(NextInput(stream, s, offer), true, offer.room);
      var rest := CallsAreEvents(w, FairCall(w, s, stream, driver(i)), stream, driver, i + 1, n - 1);
      events := [first] + rest;
      assert events[1..] == rest;
    }
  }

  /**
   The documentation has a size below the octets already encrypted rejected when it is declared; the code takes
   it. Of a framed message being encrypted it decides whether the message can still be finished: exactly when
   the size is not below what has been encrypted already.
   */
  lemma DeclaredSizeDecides(l: Live)
    requires Lawful(l.w.prims) && E.EncInv(l.w, l.s) && l.s.stage.EncryptBody? && l.s.frameSize > 0 && l.s.sizeKnown
    requires Dependable(l.w, l.s, Zeros(l.s.preciseSize))
    ensures CanFinish(l) <==> l.s.dataSoFar <= l.s.preciseSize
  {
    hide E.EncInv, Run, LawfulAead, LawfulHmac;
    if l.s.dataSoFar <= l.s.preciseSize {
      TakenSoFar(l.w, l.s);
      var plain := l.s.hist.consumed + Zeros(l.s.preciseSize - l.s.dataSoFar);
      var driver: Driver := _ => Offer(0, 0);
      var n := EncryptionFinishes(l.w, l.s, plain, driver, 0);
      var events := CallsAreEvents(l.w, l.s, plain, driver, 0, n);
      assert Completes(l, events);
    } else {
      TakenSoFar(l.w, l.s);
      forall events | Completes(l, events)
        ensures false
      {
        R.OvershotNeverFinishes(l, events);
      }
    }
  }

  lemma TakenSoFar(w: World, s: Session)
    requires Lawful(w.prims) && E.EncInv(w, s) && s.stage.EncryptBody?
    ensures s.dataSoFar == |s.hist.consumed| && s.mode.Encrypt?
  {
    hide E.Opened, E.FramesSealed, E.IvsInOrder, FramesOctets, Plains, LawfulAead, LawfulHmac;
  }
}
