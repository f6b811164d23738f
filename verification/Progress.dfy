/**
 A caller that always offers at least the estimated input, as far as it has any, and at least the estimated
 room, finishes after finitely many calls.
 */
module Progress {
  import opened Bytes
  import opened Hkdf
  import opened Algorithms
  import opened Cipher
  import opened EncryptionContext
  import opened MessageHeader
  import opened FrameFormat
  import opened SessionModel
  import opened BodyTrace
  import opened Reading
  import D = DecryptRuns
  import R = SessionRuns

  /** What a driver offers beyond the estimates; any sequence of such surpluses is a driver. */
  type Driver = nat -> Offer

  function FairOffer(s: Session, extra: Offer): Offer {
    Offer(s.inEstimate + extra.octets, s.outEstimate + extra.room)
  }

  ghost function FairCall(w: World, s: Session, stream: Octets, extra: Offer): Session
    requires Lawful(w.prims)
  {
    var offer := FairOffer(s, extra);
    Process(w, s, NextInput(stream, s, offer), true, offer.room).s
  }

  /** The session after `n` fair calls. */
  ghost function AfterCalls(w: World, s: Session, stream: Octets, driver: Driver, i: nat, n: nat): Session
    requires Lawful(w.prims)
    decreases n
  {
    if n == 0 then s else AfterCalls(w, FairCall(w, s, stream, driver(i)), stream, driver, i + 1, n - 1)
  }

  function Gap(target: nat, estimate: nat): nat {
    target - Min(estimate, target)
  }

  // ---------- A call never goes backwards ----------

  lemma {:induction false} ProcessRank(w: World, s: Session, input: Octets, nonNull: bool, capacity: nat)
    requires Lawful(w.prims)
    ensures Rank(Process(w, s, input, nonNull, capacity).s.stage) <= Rank(s.stage)
    decreases Rank(s.stage), |input| + capacity
  {
    hide SessionModel.Turn, LawfulAead, LawfulHmac;
    TurnInBounds(w, s, input, nonNull, capacity);
    var o := SessionModel.Turn(w, s, input, nonNull, capacity);
    if o.error.None? && MadeProgress(s, o) {
      ProcessRank(w, o.s, input[o.consumed..], nonNull, capacity - |o.emitted|);
    }
  }

  /** A call whose first turn gets somewhere has taken octets or changed the stage for good. */
  lemma ProcessAdvances(w: World, s: Session, input: Octets, capacity: nat)
    requires Lawful(w.prims)
    ensures var o := SessionModel.Turn(w, s, input, true, capacity);
            var c := Process(w, s, input, true, capacity);
            && (o.error.None? && !MadeProgress(s, o) ==> c.s == o.s)
            && (o.error.Some? ==> c.s == FailWith(o.s, o.error.value))
            && (o.error.None? && (o.consumed > 0 || o.s.stage != s.stage) && c.ok ==>
                  && |c.s.hist.consumed| >= |s.hist.consumed| && Rank(c.s.stage) <= Rank(s.stage)
                  && (|c.s.hist.consumed| > |s.hist.consumed| || Rank(c.s.stage) < Rank(s.stage)))
  {
    hide SessionModel.Turn, LawfulAead, LawfulHmac;
    TurnInBounds(w, s, input, true, capacity);
    var o := SessionModel.Turn(w, s, input, true, capacity);
    R.OutputIsEmitted(w, s, input, true, capacity);
    ProcessRank(w, s, input, true, capacity);
    if o.error.None? && MadeProgress(s, o) {
      ProcessRank(w, o.s, input[o.consumed..], true, capacity - |o.emitted|);
    }
  }

  // ---------- Decryption ----------

  /** How far the estimates are from what the current stage really needs. */
  function InputGap(t: Script, s: Session): nat
    requires s.hist.consumed <= Message(t)
  {
    match s.stage
    case ReadHeader => Gap(|t.copy|, s.inEstimate)
    case DecryptBody =>
      if |s.hist.frames| < |t.frames| then Gap(|EncodeFrame(t.frames[|s.hist.frames|].frame)|, s.inEstimate) else 0
    case CheckTrailer => Gap(|Message(t)| - |s.hist.consumed|, s.inEstimate)
    case _ => 0
  }

  function RoomGap(t: Script, s: Session): nat {
    if s.stage.DecryptBody? && |s.hist.frames| < |t.frames|
    then Gap(|t.frames[|s.hist.frames|].plain|, s.outEstimate) else 0
  }

  ghost predicate Closer(t: Script, s: Session, s': Session)
    requires s.hist.consumed <= Message(t) && s'.hist.consumed <= Message(t)
  {
    var r, r' := |Message(t)| - |s.hist.consumed|, |Message(t)| - |s'.hist.consumed|;
    || r' < r
    || (r' == r && Rank(s'.stage) < Rank(s.stage))
    || (r' == r && s'.stage == s.stage && InputGap(t, s') < InputGap(t, s))
    || (r' == r && s'.stage == s.stage && InputGap(t, s') == InputGap(t, s) && RoomGap(t, s') < RoomGap(t, s))
  }

  /** Short of a complete header, the input estimate grows. */
  lemma HeaderStuck(w: World, c: Settings, t: Script, stream: Octets, s: Session, extra: Offer)
    requires Readable(w, c, t) && Message(t) <= stream && Following(c, t, s) && s.stage.ReadHeader?
    ensures var input := NextInput(stream, s, FairOffer(s, extra));
            var o := TryParseHeader(w, s, input);
            if |input| >= |t.copy| then o.consumed == |t.copy| > 0
            else && o.consumed == 0 && o.s.hist == s.hist && o.s.stage == s.stage
                 && Gap(|t.copy|, o.s.inEstimate) < Gap(|t.copy|, s.inEstimate)
  {
    hide ParseHeader, HeaderSizeReturned, UnwrapKeys, LawfulAead, LawfulHmac, Holds, Watch, Plains, FramesOctets,
      TrailerReads, DeriveKey, HeaderVerifies, D.FramesOpened, D.EndsOnce, AlgProps, AllowedForDecrypt;
    var input := NextInput(stream, s, FairOffer(s, extra));
    assert stream[0..] == stream;
    HeaderOffered(c, t, stream, input);
    CopyFits(w, c, t);
  }

  lemma CopyFits(w: World, c: Settings, t: Script)
    requires Readable(w, c, t)
    ensures |t.copy| <= |Message(t)| && |t.copy| <= INT32_MAX
  {
    hide ParseHeader, FramesOctets, LawfulAead, LawfulHmac, TrailerReads, DeriveKey, HeaderVerifies, D.FramesOpened,
      D.EndsOnce, AlgProps, Encodable, HeaderSize;
  }

  /** Short of a complete frame or of room for its plaintext, an estimate grows towards the truth. */
  lemma BodyStuck(w: World, c: Settings, t: Script, stream: Octets, s: Session, extra: Offer)
    requires Readable(w, c, t) && Message(t) <= stream && Following(c, t, s) && s.stage.DecryptBody?
    ensures var offer := FairOffer(s, extra);
            var x := t.frames[|s.hist.frames|];
            var e := EncodeFrame(x.frame);
            var o := TryDecryptBody(w, s, NextInput(stream, s, offer), offer.room);
            o.error.None? && o.consumed == 0 ==>
              && o.s.hist == s.hist && o.s.stage == s.stage
              && (|| Gap(|e|, o.s.inEstimate) < Gap(|e|, s.inEstimate)
                  || (Gap(|e|, o.s.inEstimate) == Gap(|e|, s.inEstimate)
                      && Gap(|x.plain|, o.s.outEstimate) < Gap(|x.plain|, s.outEstimate)))
  {
    hide Readable, Message, FramesOctets, EncodeFrame, DeserializeFrame, OpenFrame, Plains, Watch, Cipher.DecryptBody,
      WellFormed;
    var k := |s.hist.frames|;
    var input := NextInput(stream, s, FairOffer(s, extra));
    NextInStream(t, stream, k);
    FrameOffered(w, c, t, stream, k, input);
    FrameFacts(w, c, t, k);
    var f := t.frames[k].frame;
    var e := EncodeFrame(f);
    if |input| < |e| {
      FramePrefixIsShort(f, t.header.frameLen, |input|);
    } else {
      FrameNotEmpty(f, t.header.frameLen);
      OpenConsumes(w, s.(inEstimate := |e|, outEstimate := |f.ciphertext|), f, |e|, e);
    }
  }

  lemma OpenConsumes(w: World, s: Session, f: Frame, n: nat, octets: Octets)
    ensures OpenFrame(w, s, f, n, octets).consumed == n
  {
    hide Cipher.DecryptBody;
  }

  lemma FrameNotEmpty(f: Frame, frameSize: nat)
    requires WellFormed(f, frameSize)
    ensures |EncodeFrame(f)| > 0
  {
  }

  /** Short of a complete trailer, the input estimate grows towards its length. */
  lemma TrailerStuck(w: World, c: Settings, t: Script, stream: Octets, s: Session, extra: Offer)
    requires Readable(w, c, t) && Message(t) <= stream && Following(c, t, s) && s.stage.CheckTrailer?
    ensures s.hist.consumed <= Message(t)
    ensures var o := TryCheckTrailer(w, s, NextInput(stream, s, FairOffer(s, extra)));
            o.consumed == 0 && o.s.stage == s.stage ==>
              && o.s.hist == s.hist
              && var left := |Message(t)| - |s.hist.consumed|;
              Gap(left, o.s.inEstimate) < Gap(left, s.inEstimate)
  {
    hide HeaderReads, KeyUnlocks, D.FramesOpened, D.EndsOnce, LawfulAead, LawfulHmac, FramesOctets, Plains, FromBigEndian,
      BigEndian;
    FollowingIsPrefix(c, t, s);
    var input := NextInput(stream, s, FairOffer(s, extra));
    if s.signCtx.Some? && |input| >= 2 {
      DropPrefix(Body(t), t.trailer, stream);
      TrailerOffered(t.trailer, stream[|Body(t)|..], input);
      LengthField(|t.trailer| - 2);
    }
  }

  /** A first turn that takes nothing and stays in its stage has moved an estimate towards what is needed. */
  lemma StuckTurn(w: World, c: Settings, t: Script, stream: Octets, s: Session, extra: Offer)
    requires Readable(w, c, t) && Message(t) <= stream && Following(c, t, s) && !s.stage.Done?
    ensures Lawful(w.prims) && s.hist.consumed <= Message(t)
    ensures var offer := FairOffer(s, extra);
            var o := SessionModel.Turn(w, s, NextInput(stream, s, offer), true, offer.room);
            o.error.None? && o.consumed == 0 && o.s.stage == s.stage ==> o.s.hist == s.hist && Closer(t, s, o.s)
  {
    hide HeaderReads, KeyUnlocks, TrailerReads, D.FramesOpened, D.EndsOnce, Message, TryParseHeader, TryDecryptBody,
      TryCheckTrailer, LawfulAead, LawfulHmac, Holds, Watch, Plains, FramesOctets, EncodeFrame, Gap, FairOffer, NextInput;
    FollowingIsPrefix(c, t, s);
    match s.stage {
      case ReadHeader => HeaderStuck(w, c, t, stream, s, extra);
      case DecryptBody => BodyStuck(w, c, t, stream, s, extra);
      case CheckTrailer => TrailerStuck(w, c, t, stream, s, extra);
      case _ =>
    }
  }

  /** Every fair call brings the session closer to the end. */
  lemma FairCallAdvances(w: World, c: Settings, t: Script, stream: Octets, s: Session, extra: Offer)
    requires Readable(w, c, t) && Message(t) <= stream && Following(c, t, s) && !s.stage.Done?
    ensures Lawful(w.prims) && s.hist.consumed <= Message(t)
    ensures var s' := FairCall(w, s, stream, extra);
            Following(c, t, s') && s'.hist.consumed <= Message(t) && Closer(t, s, s')
  {
    hide HeaderReads, KeyUnlocks, TrailerReads, D.FramesOpened, D.EndsOnce, Message, SessionModel.Turn, Process,
      LawfulAead, LawfulHmac, Following, FairOffer, NextInput, InputGap, RoomGap;
    FollowingIsPrefix(c, t, s);
    var offer := FairOffer(s, extra);
    var input := NextInput(stream, s, offer);
    OfferedByDriver(stream, s, offer);
    TurnFollows(w, c, t, stream, s, input, true, offer.room);
    ProcessFollows(w, c, t, stream, s, input, true, offer.room);
    FollowingIsPrefix(c, t, Process(w, s, input, true, offer.room).s);
    StuckTurn(w, c, t, stream, s, extra);
    ProcessAdvances(w, s, input, offer.room);
    FollowingStage(c, t, s);
    NothingForNothing(w, s, input, offer.room);
  }

  lemma FollowingStage(c: Settings, t: Script, s: Session)
    requires Following(c, t, s)
    ensures s.stage.Done? || IsDecryptStage(s.stage)
  {
    hide Holds, Watch, Plains, FramesOctets;
  }

  /** A decrypting turn emits nothing without taking something. */
  lemma NothingForNothing(w: World, s: Session, input: Octets, capacity: nat)
    requires Lawful(w.prims)
    ensures var o := SessionModel.Turn(w, s, input, true, capacity);
            IsDecryptStage(s.stage) && o.error.None? && o.consumed == 0 && o.s.stage == s.stage ==> |o.emitted| == 0
  {
    hide LawfulAead, LawfulHmac, KindShown, LengthShown, LengthAcceptable, CutFrame, Cipher.DecryptBody, TryParseHeader;
    HeaderEmitsNothing(w, s, input);
  }

  lemma HeaderEmitsNothing(w: World, s: Session, input: Octets)
    requires Lawful(w.prims)
    ensures TryParseHeader(w, s, input).emitted == []
  {
    hide LawfulAead, LawfulHmac, ParseHeader, HeaderSizeReturned, UnwrapKeys;
  }

  predicate IsDecryptStage(stage: Stage) {
    stage.Config? || stage.ReadHeader? || stage.DecryptBody? || stage.CheckTrailer?
  }

  /** However a fair driver varies what it offers, after finitely many calls the whole plaintext is there. */
  lemma {:induction false} DecryptionEnds(w: World, c: Settings, t: Script, stream: Octets, s: Session, driver: Driver,
                                          i: nat)
    returns (n: nat)
    requires Readable(w, c, t) && Message(t) <= stream && Following(c, t, s) && s.hist.consumed <= Message(t)
    ensures Lawful(w.prims)
    ensures var s' := AfterCalls(w, s, stream, driver, i, n);
            && s'.stage.Done? && s'.hist.emitted == Plains(t.frames) && s'.hist.consumed == Message(t)
            && Following(c, t, s')
    decreases |Message(t)| - |s.hist.consumed|, Rank(s.stage), InputGap(t, s), RoomGap(t, s)
  {
    hide HeaderReads, KeyUnlocks, TrailerReads, D.FramesOpened, D.EndsOnce, Message, FairCall, LawfulAead, LawfulHmac,
      Following, InputGap, RoomGap;
    if s.stage.Done? {
      n := 0;
      EndOfMessage(c, t, s);
    } else {
      FairCallAdvances(w, c, t, stream, s, driver(i));
      var rest := DecryptionEnds(w, c, t, stream, FairCall(w, s, stream, driver(i)), driver, i + 1);
      n := rest + 1;
    }
  }

  lemma EndOfMessage(c: Settings, t: Script, s: Session)
    requires Following(c, t, s) && s.stage.Done?
    ensures s.hist.emitted == Plains(t.frames) && s.hist.consumed == Message(t)
  {
    hide Holds, Watch, Plains, FramesOctets;
  }
}
