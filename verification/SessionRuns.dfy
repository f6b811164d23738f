/** Statements about whole runs through the public interface of a session, restarts included. */
module SessionRuns {
  import opened Bytes
  import opened Hkdf
  import opened Parsing
  import opened Algorithms
  import opened Cipher
  import opened MessageHeader
  import opened FrameFormat
  import opened SessionModel
  import opened BodyTrace
  import E = EncryptRuns
  import D = DecryptRuns

  ghost predicate Inv(l: Live)
    requires Lawful(l.w.prims)
  {
    if l.s.mode.Encrypt? then E.EncInv(l.w, l.s) else D.DecInv(l.w, l.s)
  }

  /** A turn keeps mode and policy; unless it fails, the history gains exactly what was taken and produced. */
  ghost predicate Records(s: Session, input: Octets, o: Outcome) {
    && o.s.mode == s.mode && o.s.policy == s.policy
    && (o.error.None? ==>
          && o.consumed <= |input|
          && o.s.hist.emitted == s.hist.emitted + o.emitted
          && o.s.hist.consumed == s.hist.consumed + input[..o.consumed])
  }

  lemma GenKeyRecords(w: World, s: Session, input: Octets)
    requires Lawful(w.prims)
    ensures Records(s, input, TryGenKey(w, s))
  {
    hide AlgProps, LawfulAead, LawfulHmac, MaterialsError, GenKeyFor;
    var answer := w.generate(RequestOf(s));
    if answer.Some? && MaterialsError(s, answer.value).None? {
      E.MaterialsSuite(s, answer.value);
      var m, p := answer.value, AlgProps(answer.value.alg).value;
      var id := w.random(MessageIdLen(p));
      if id.Some? && |id.value| == MessageIdLen(p) {
        var s2 := Supplied(s, m).(signCtx := SignatureStart(m), cmmSuccess := true);
        GenKeyForRecords(w, s2, p, m, id.value, input);
      }
    }
  }

  lemma GenKeyForRecords(w: World, s: Session, p: Suite, m: EncMaterials, messageId: Octets, input: Octets)
    requires Lawful(w.prims)
    ensures Records(s, input, GenKeyFor(w, s, p, m, messageId))
  {
    hide DeriveKey, LawfulAead, LawfulHmac, SealHeader, BuildHeader, MustIncludeCommitment;
  }

  lemma UnwrapRecords(w: World, s: Session, input: Octets)
    requires Lawful(w.prims)
    ensures Records(s, input, UnwrapKeys(w, s))
  {
    hide AlgProps, DeriveKey, CommitmentMatches, HeaderVerifies, LawfulAead, LawfulHmac, UnwrapError;
  }

  lemma HeaderRecords(w: World, s: Session, input: Octets)
    requires Lawful(w.prims)
    ensures Records(s, input, TryParseHeader(w, s, input))
  {
    hide ParseHeader, HeaderSizeReturned, UnwrapKeys, LawfulAead, LawfulHmac;
    match ParseHeader(input, s.maxEdks) {
      case Ok(h, rest) =>
        var n := |input| - |rest|;
        var s1 := s.(header := h, headerCopy := input[..n], stage := UnwrapKey,
                     hist := s.hist.(consumed := s.hist.consumed + input[..n]));
        UnwrapRecords(w, s1, []);
        UnwrapStage(w, s1);
      case _ =>
    }
  }

  lemma EncryptRecords(w: World, s: Session, input: Octets, nonNull: bool, capacity: nat)
    ensures Records(s, input, TryEncryptBody(w, s, input, nonNull, capacity))
  {
    hide WriteVerdict, WriteSize, NextFrame, SealFrame;
    var plan := NextFrame(s);
    if plan.Write? && plan.size <= |input| {
      var s1 := s.(outEstimate := WriteSize(plan.kind, s.seqno, plan.size, w.unset), inEstimate := plan.size);
      SealRecords(w, s1, plan.kind, input[..plan.size]);
    }
  }

  lemma SealRecords(w: World, s: Session, kind: FrameKind, plain: Octets)
    ensures var o := SealFrame(w, s, kind, plain); Records(s, plain, o) && (o.error.None? ==> o.consumed == |plain|)
  {
    hide EncodeFrame, Cipher.EncryptBody, FrameIv;
  }

  lemma DecryptRecords(w: World, s: Session, input: Octets, capacity: nat)
    ensures Records(s, input, TryDecryptBody(w, s, input, capacity))
  {
    hide DeserializeFrame, Cipher.DecryptBody;
    if DeserializeFrame(input, s.frameSize).result.ReadOk? {
      ReadSizes(input, s.frameSize);
    }
  }

  lemma ReadTrailerRecords(w: World, s: Session, input: Octets)
    ensures Records(s, input, TryCheckTrailer(w, s, input))
  {
    hide FromBigEndian;
  }

  lemma WriteTrailerRecords(w: World, s: Session, input: Octets, capacity: nat)
    ensures Records(s, input, TryWriteTrailer(w, s, capacity))
  {
    hide BigEndian;
    if s.suite.None? {
    } else if s.suite.value.signatureLen == 0 || capacity < 2 + s.suite.value.signatureLen {
    } else if s.signCtx.None? {
    } else if w.prims.sign(s.signCtx.value.key, s.signCtx.value.data).None? {
    }
  }

  lemma WriteHeaderRecords(s: Session, input: Octets, capacity: nat)
    ensures Records(s, input, TryWriteHeader(s, capacity))
  {
  }

  lemma TurnRecords(w: World, s: Session, input: Octets, nonNull: bool, capacity: nat)
    requires Lawful(w.prims)
    ensures Records(s, input, SessionModel.Turn(w, s, input, nonNull, capacity))
  {
    hide TryGenKey, UnwrapKeys, TryParseHeader, TryEncryptBody, TryDecryptBody, TryCheckTrailer, TryWriteTrailer,
      TryWriteHeader, LawfulAead, LawfulHmac;
    match s.stage {
      case GenKey => GenKeyRecords(w, s, input);
      case UnwrapKey => UnwrapRecords(w, s, input);
      case ReadHeader => HeaderRecords(w, s, input);
      case EncryptBody => EncryptRecords(w, s, input, nonNull, capacity);
      case DecryptBody => DecryptRecords(w, s, input, capacity);
      case CheckTrailer => ReadTrailerRecords(w, s, input);
      case WriteTrailer => WriteTrailerRecords(w, s, input, capacity);
      case WriteHeader => WriteHeaderRecords(s, input, capacity);
      case _ =>
    }
  }

  lemma {:induction false} ProcessKeepsMode(w: World, s: Session, input: Octets, nonNull: bool, capacity: nat)
    requires Lawful(w.prims)
    ensures Process(w, s, input, nonNull, capacity).s.mode == s.mode
    decreases Rank(s.stage), |input| + capacity
  {
    hide SessionModel.Turn, LawfulAead, LawfulHmac;
    TurnRecords(w, s, input, nonNull, capacity);
    TurnInBounds(w, s, input, nonNull, capacity);
    var o := SessionModel.Turn(w, s, input, nonNull, capacity);
    if o.error.None? && MadeProgress(s, o) {
      ProcessKeepsMode(w, o.s, input[o.consumed..], nonNull, capacity - |o.emitted|);
    }
  }

  lemma FeedKeeps(l: Live, input: Octets, nonNull: bool, capacity: nat)
    requires Lawful(l.w.prims) && Inv(l)
    ensures Inv(l.(s := Process(l.w, l.s, input, nonNull, capacity).s))
  {
    hide Process, E.EncInv, D.DecInv, LawfulAead, LawfulHmac;
    ProcessKeepsMode(l.w, l.s, input, nonNull, capacity);
    if l.s.mode.Encrypt? {
      E.ProcessKeeps(l.w, l.s, input, nonNull, capacity);
    } else {
      D.ProcessKeeps(l.w, l.s, input, nonNull, capacity);
    }
  }

  lemma RestartKeeps(l: Live, mode: Mode, w: World)
    requires Lawful(l.w.prims) && Lawful(w.prims) && Inv(l)
    ensures Inv(Live(w, Reset(l.s, mode)))
  {
    hide E.BodyInv, E.Closed, E.TrailerWritten, E.AllBody, D.BodyRead, D.NothingVerifiedYet, D.TrailerVerified,
      LawfulAead, LawfulHmac;
  }

  /** The policy, the bound and the key limit play no part in the invariant of an encryption. */
  lemma EncryptSettings(w: World, s: Session, t: Session)
    requires Lawful(w.prims) && E.EncInv(w, s)
    requires t == s.(policy := t.policy, sizeBound := t.sizeBound, maxEdks := t.maxEdks)
    ensures E.EncInv(w, t)
  {
    hide E.Opened, E.FramesSealed, E.Complete, E.AllBody, E.SignatureOver, FramesOctets, Plains, LawfulAead, LawfulHmac,
      E.IvsInOrder;
  }

  lemma DecryptSettings(w: World, s: Session, t: Session)
    requires Lawful(w.prims) && D.DecInv(w, s)
    requires t == s.(policy := t.policy) || (s.stage.Config? && t == s.(policy := t.policy, maxEdks := t.maxEdks))
    ensures D.DecInv(w, t)
  {
    hide D.Unlocked, D.FramesOpened, D.OnlyBody, D.EndsOnce, FramesOctets, Plains, LawfulAead, LawfulHmac,
      D.VerificationOver;
  }

  lemma FailureKeeps(w: World, s: Session, e: Error)
    requires Lawful(w.prims) && Inv(Live(w, s))
    ensures Inv(Live(w, FailWith(s, e)))
  {
    hide E.BodyInv, E.Opened, E.OpeningOf, E.IvsInOrder, E.Closed, E.TrailerWritten, E.AllBody, D.BodyRead, D.Unlocked,
      D.NothingVerifiedYet, D.TrailerVerified, LawfulAead, LawfulHmac;
    assert E.OpeningOf(FailWith(s, e)) == E.OpeningOf(s) by { FailedOpening(s, e); }
    if s.mode.Encrypt? {
      E.SealedIsOpened(w, s);
    } else {
      D.NumberedIsUnlocked(w, s);
    }
  }

  lemma FailedOpening(s: Session, e: Error)
    ensures E.OpeningOf(FailWith(s, e)) == E.OpeningOf(s)
  {
  }

  lemma ConfigStage(w: World, s: Session, t: Session)
    requires Lawful(w.prims) && E.EncInv(w, s) && s.stage.Config? && (t.frameSize <= UINT32_MAX || t.frameSize == s.frameSize)
    requires t == s.(frameSize := t.frameSize, header := t.header)
    ensures E.EncInv(w, t)
  {
    hide LawfulAead, LawfulHmac, E.IvsInOrder;
  }

  /** Every configuration call but the declaration of the size. */
  lemma ConfigureKeeps(l: Live, e: Event)
    requires Lawful(l.w.prims) && LegalEvent(e) && Inv(l) && !e.Feed? && !e.DeclareSize? && !e.Restart?
    ensures Inv(Apply(l, e))
  {
    hide E.EncInv, D.DecInv, LawfulAead, LawfulHmac, Process, Reset;
    var s := l.s;
    match e {
      case DeclareBound(n) =>
        if s.mode.Encrypt? {
          FailureKeeps(l.w, s, LimitExceeded);
          EncryptSettings(l.w, s, s.(sizeBound := n));
        }
      case ChooseFrameSize(n) =>
        if s.mode.Encrypt? && s.stage.Config? {
          ConfigStage(l.w, s, s.(frameSize := n));
        }
      case ChooseContext(ctx) =>
        if s.mode.Encrypt? && s.stage.Config? {
          ConfigStage(l.w, s, s.(header := s.header.(encCtx := ctx)));
        }
      case ChoosePolicy(p) =>
        var s1 := s.(policy := p);
        if s.mode.Encrypt? {
          EncryptSettings(l.w, s, s1);
        } else {
          DecryptSettings(l.w, s, s1);
        }
        FailureKeeps(l.w, s1, BadState);
      case ChooseMaxEdks(n) =>
        FailureKeeps(l.w, s, BadState);
        if s.stage.Config? {
          if s.mode.Encrypt? {
            EncryptSettings(l.w, s, s.(maxEdks := n));
          } else {
            DecryptSettings(l.w, s, s.(maxEdks := n));
          }
        }
    }
  }

  lemma ApplyKeeps(l: Live, e: Event)
    requires Lawful(l.w.prims) && LegalEvent(e) && Inv(l)
    ensures Inv(Apply(l, e))
  {
    hide Process, E.EncInv, D.DecInv, LawfulAead, LawfulHmac, SetMessageSize, Reset;
    match e {
      case Feed(input, nonNull, capacity) => FeedKeeps(l, input, nonNull, capacity);
      case DeclareSize(n) => DeclareKeeps(l, n);
      case Restart(mode, w) => RestartKeeps(l, mode, w);
      case _ => ConfigureKeeps(l, e);
    }
  }

  lemma DeclareKeeps(l: Live, n: nat)
    requires Lawful(l.w.prims) && Inv(l) && n <= UINT64_MAX
    ensures Inv(l.(s := SetMessageSize(l.w, l.s, n)))
  {
    hide E.EncInv, D.DecInv, LawfulAead, LawfulHmac, TryEncryptBody;
    if l.s.mode.Encrypt? {
      E.DeclareSizeKeeps(l.w, l.s, n);
      E.DryRunSealsNothing(l.w, l.s.(preciseSize := n, sizeKnown := true));
    }
  }

  /** The invariant holds after any sequence of legal calls. */
  lemma {:induction false} RunKeeps(l: Live, events: seq<Event>)
    requires Lawful(l.w.prims) && Inv(l) && forall e :: e in events ==> LegalEvent(e)
    ensures Lawful(Run(l, events).w.prims) && Inv(Run(l, events))
    decreases |events|
  {
    hide Apply, Inv, LawfulAead, LawfulHmac;
    if |events| > 0 {
      ApplyKeeps(l, events[0]);
      RunKeeps(Apply(l, events[0]), events[1..]);
    }
  }

  lemma {:induction false} RunConcat(l: Live, a: seq<Event>, b: seq<Event>)
    requires Lawful(l.w.prims) && (forall e :: e in a ==> LegalEvent(e)) && (forall e :: e in b ==> LegalEvent(e))
    ensures Run(l, a + b) == Run(Run(l, a), b)
    decreases |a|
  {
    hide Apply, LawfulAead, LawfulHmac, LegalEvent;
    if a == [] {
      assert a + b == b;
    } else {
      assert (a + b)[1..] == a[1..] + b;
      RunConcat(Apply(l, a[0]), a[1..], b);
    }
  }

  lemma NewSessionInv(w: World, mode: Mode)
    requires Lawful(w.prims) && !mode.InvalidMode?
    ensures Inv(Live(w, NewSession(mode)))
  {
    hide LawfulAead, LawfulHmac;
  }

  /** A run of the public interface on a new session. */
  ghost function RunOf(w: World, mode: Mode, events: seq<Event>): Live
    requires Lawful(w.prims) && forall e :: e in events ==> LegalEvent(e)
  {
    Run(Live(w, NewSession(mode)), events)
  }

  lemma RunOfInv(w: World, mode: Mode, events: seq<Event>)
    requires Lawful(w.prims) && !mode.InvalidMode? && forall e :: e in events ==> LegalEvent(e)
    ensures Lawful(RunOf(w, mode, events).w.prims) && Inv(RunOf(w, mode, events))
  {
    hide Run, Inv, LawfulAead, LawfulHmac, NewSession;
    NewSessionInv(w, mode);
    RunKeeps(Live(w, NewSession(mode)), events);
  }

  // ---------- The main statements ----------

  /**
   A finished encryption, after any run: the output is header, frames and trailer; the frames seal exactly
   the input, in order, numbered from one; the input is as long as declared; a signature covers header and frames.
   */
  lemma FinishedEncryption(w: World, mode: Mode, events: seq<Event>)
    requires Lawful(w.prims) && !mode.InvalidMode? && forall e :: e in events ==> LegalEvent(e)
    requires var l := RunOf(w, mode, events); l.s.mode.Encrypt? && l.s.stage.Done?
    ensures var l := RunOf(w, mode, events);
            && Lawful(l.w.prims)
            && E.Opened(l.w, E.OpeningOf(l.s))
            && E.FramesSealed(l.w.prims, l.s.contentKey, l.s.header.messageId, l.s.hist.frames)
            && l.s.hist.consumed == Plains(l.s.hist.frames)
            && |l.s.hist.consumed| == l.s.dataSoFar == l.s.preciseSize
            && E.Complete(l.s.frameSize, l.s.hist.frames)
            && E.TrailerWritten(l.w, l.s)
  {
    hide RunOf, E.Opened, E.FramesSealed, E.Complete, E.TrailerWritten, LawfulAead, LawfulHmac, FramesOctets, Plains,
      E.IvsInOrder;
    RunOfInv(w, mode, events);
  }

  /** Once the trailer is due, the octets taken are the octets declared, cut into frames that only their number decides. */
  lemma FramingConservation(w: World, mode: Mode, events: seq<Event>)
    requires Lawful(w.prims) && !mode.InvalidMode? && forall e :: e in events ==> LegalEvent(e)
    requires var s := RunOf(w, mode, events).s; s.mode.Encrypt? && (s.stage.WriteTrailer? || s.stage.Done?)
    ensures var s := RunOf(w, mode, events).s;
            var n := |s.hist.consumed|;
            && s.sizeKnown && s.dataSoFar == s.preciseSize == n
            && (s.frameSize == 0 ==> |s.hist.frames| == 1 && |s.hist.frames[0].plain| == n)
            && (s.frameSize > 0 ==>
                  && |s.hist.frames| == n / s.frameSize + 1
                  && forall i :: 0 <= i < |s.hist.frames| ==>
                       |s.hist.frames[i].plain| == if i < |s.hist.frames| - 1 then s.frameSize else n % s.frameSize)
  {
    hide RunOf, E.Opened, E.FramesSealed, E.TrailerWritten, LawfulAead, LawfulHmac, FramesOctets, E.IvsInOrder, Plains;
    RunOfInv(w, mode, events);
    var s := RunOf(w, mode, events).s;
    if s.frameSize > 0 {
      E.FrameSizesDetermined(s.frameSize, s.hist.frames);
    } else {
      SingleFrame(s.hist.frames);
    }
  }

  lemma SingleFrame(frames: seq<Passed>)
    requires |frames| == 1
    ensures Plains(frames) == frames[0].plain
  {
    assert Plains(frames[..0]) == [];
  }

  /** In every run the message it has come to, finished or failed, never uses an IV twice. */
  lemma IvsNeverRepeat(w: World, mode: Mode, events: seq<Event>)
    requires Lawful(w.prims) && !mode.InvalidMode? && forall e :: e in events ==> LegalEvent(e)
    requires RunOf(w, mode, events).s.mode.Encrypt?
    ensures var ivs := RunOf(w, mode, events).s.hist.ivs;
            && (|ivs| > 0 ==> ivs[0] == HEADER_IV)
            && forall i, j :: 0 <= i < j < |ivs| ==> ivs[i] != ivs[j]
  {
    hide RunOf, E.Opened, E.FramesSealed, E.TrailerWritten, LawfulAead, LawfulHmac, FramesOctets, Plains, E.Complete,
      E.AllBody;
    RunOfInv(w, mode, events);
    E.IvsDistinct(RunOf(w, mode, events).s.hist.ivs);
    E.IvZero();
  }

  /**
   A finished decryption, after any run and any splitting of the input: the octets consumed are an accepted
   header, frames numbered 1..k with only the last one closing, and the trailer; each frame opened under its own
   number, kind and length; the plaintext is what they opened to; a signature was verified over header and frames.
   */
  lemma FinishedDecryption(w: World, mode: Mode, events: seq<Event>)
    requires Lawful(w.prims) && !mode.InvalidMode? && forall e :: e in events ==> LegalEvent(e)
    requires var l := RunOf(w, mode, events); IsDecryptMode(l.s.mode) && l.s.stage.Done?
    ensures var l := RunOf(w, mode, events);
            && Lawful(l.w.prims)
            && D.Unlocked(l.w, D.UnlockingOf(l.s))
            && D.FramesOpened(l.w.prims, l.s.contentKey, l.s.header.messageId, l.s.frameSize, l.s.hist.frames)
            && D.EndsOnce(l.s.hist.frames)
            && l.s.hist.emitted == Plains(l.s.hist.frames)
            && D.TrailerVerified(l.w, l.s)
  {
    hide RunOf, D.Unlocked, D.FramesOpened, D.EndsOnce, D.TrailerVerified, LawfulAead, LawfulHmac, FramesOctets, Plains;
    RunOfInv(w, mode, events);
  }

  ghost predicate CallRecords(s: Session, input: Octets, capacity: nat, c: Call) {
    && c.consumed <= |input| && |c.out| <= capacity
    && (c.ok ==> && c.s.hist.emitted == s.hist.emitted + c.out
                 && c.s.hist.consumed == s.hist.consumed + input[..c.consumed])
    && (!c.ok ==> c.s.stage.Failed? && c.out == [])
  }

  lemma CallStep(s: Session, input: Octets, capacity: nat, o: Outcome, c: Call)
    requires Records(s, input, o) && o.error.None? && |o.emitted| <= capacity
    requires CallRecords(o.s, input[o.consumed..], capacity - |o.emitted|, c)
    ensures CallRecords(s, input, capacity,
                        Call(c.s, o.consumed + c.consumed, if c.ok then o.emitted + c.out else [], c.ok))
  {
    assert input[..o.consumed + c.consumed] == input[..o.consumed] + input[o.consumed..][..c.consumed];
    assert s.hist.emitted + o.emitted + c.out == s.hist.emitted + (o.emitted + c.out);
    assert s.hist.consumed + input[..o.consumed] + input[o.consumed..][..c.consumed]
        == s.hist.consumed + (input[..o.consumed] + input[o.consumed..][..c.consumed]);
  }

  /** What a caller receives: while no call fails, the outputs of the calls add up to the octets emitted. */
  lemma {:induction false} OutputIsEmitted(w: World, s: Session, input: Octets, nonNull: bool, capacity: nat)
    requires Lawful(w.prims)
    ensures CallRecords(s, input, capacity, Process(w, s, input, nonNull, capacity))
    decreases Rank(s.stage), |input| + capacity
  {
    hide SessionModel.Turn, LawfulAead, LawfulHmac, CallRecords, Records;
    TurnInBounds(w, s, input, nonNull, capacity);
    TurnRecords(w, s, input, nonNull, capacity);
    var o := SessionModel.Turn(w, s, input, nonNull, capacity);
    if o.error.None? && MadeProgress(s, o) {
      var rest := input[o.consumed..];
      OutputIsEmitted(w, o.s, rest, nonNull, capacity - |o.emitted|);
      CallStep(s, input, capacity, o, Process(w, o.s, rest, nonNull, capacity - |o.emitted|));
    } else {
      LastTurn(s, input, capacity, o);
    }
  }

  lemma LastTurn(s: Session, input: Octets, capacity: nat, o: Outcome)
    requires Records(s, input, o) && InBounds(s, input, capacity, o)
    ensures CallRecords(s, input, capacity,
                        if o.error.Some? then Call(FailWith(o.s, o.error.value), o.consumed, [], false)
                        else Call(o.s, o.consumed, o.emitted, true))
  {
  }

  // ---------- A size declared too small ----------

  /**
   The header file promises an error when the declared size is below the octets processed. There is none: while the
   body is being written a first declaration within the bound is taken, however much has gone out already.
   */
  lemma TooSmallSizeIsAccepted(w: World, s: Session, size: nat)
    requires Lawful(w.prims) && E.EncInv(w, s) && s.stage.EncryptBody? && size < |s.hist.consumed|
    ensures !s.sizeKnown && size <= s.sizeBound <==>
              var t := SetMessageSize(w, s, size);
              t.stage.EncryptBody? && t.sizeKnown && t.preciseSize == size < t.dataSoFar == |t.hist.consumed|
  {
    hide TryEncryptBody, E.Opened, E.FramesSealed, E.IvsInOrder, E.AllBody, FramesOctets, Plains, LawfulAead, LawfulHmac;
    E.DryRunSealsNothing(w, s.(preciseSize := size, sizeKnown := true));
  }

  ghost predicate Overshot(s: Session) {
    s.mode.Encrypt? && s.frameSize > 0 && s.sizeKnown && s.preciseSize < s.dataSoFar
    && (s.stage.EncryptBody? || s.stage.Failed?)
  }

  lemma TurnStaysOvershot(w: World, s: Session, input: Octets, nonNull: bool, capacity: nat)
    requires Lawful(w.prims) && E.EncInv(w, s) && Overshot(s) && s.stage.EncryptBody?
    ensures var o := SessionModel.Turn(w, s, input, nonNull, capacity);
            Overshot(o.s) && o.s.stage.EncryptBody?
  {
    hide E.EncInv, LawfulAead, LawfulHmac, WriteVerdict, WriteSize, Cipher.EncryptBody, EncodeFrame, FrameIv, NextFrame,
      TryGenKey, TryParseHeader, UnwrapKeys, TryDecryptBody, TryCheckTrailer, TryWriteTrailer, TryWriteHeader;
    PlanWhenOvershot(w, s);
  }

  lemma PlanWhenOvershot(w: World, s: Session)
    requires Lawful(w.prims) && E.EncInv(w, s) && Overshot(s) && s.stage.EncryptBody?
    ensures NextFrame(s) == Write(BodyFrame, s.frameSize) && s.dataSoFar + s.frameSize < TWO_64
  {
    hide E.Opened, E.FramesSealed, E.IvsInOrder, FramesOctets, Plains, LawfulAead, LawfulHmac;
    E.AllBodySize(s.frameSize, s.hist.frames);
    E.SizeBelowNeverEnds(s.frameSize, |s.hist.frames|, s.preciseSize);
    E.RoomToSpare(s.frameSize, |s.hist.frames|);
  }

  lemma {:induction false} ProcessStaysOvershot(w: World, s: Session, input: Octets, nonNull: bool, capacity: nat)
    requires Lawful(w.prims) && E.EncInv(w, s) && Overshot(s)
    ensures Overshot(Process(w, s, input, nonNull, capacity).s)
    decreases Rank(s.stage), |input| + capacity
  {
    hide SessionModel.Turn, LawfulAead, LawfulHmac, E.EncInv;
    if s.stage.EncryptBody? {
      TurnStaysOvershot(w, s, input, nonNull, capacity);
      TurnInBounds(w, s, input, nonNull, capacity);
      E.TurnKeeps(w, s, input, nonNull, capacity);
      var o := SessionModel.Turn(w, s, input, nonNull, capacity);
      if o.error.None? && MadeProgress(s, o) {
        ProcessStaysOvershot(w, o.s, input[o.consumed..], nonNull, capacity - |o.emitted|);
      }
    } else {
      FailedTurn(w, s, input, nonNull, capacity);
    }
  }

  lemma FailedTurn(w: World, s: Session, input: Octets, nonNull: bool, capacity: nat)
    requires Lawful(w.prims) && s.stage.Failed?
    ensures SessionModel.Turn(w, s, input, nonNull, capacity) == Raise(s, s.error)
  {
  }

  /** Instead, such a message can never be finished, whatever is fed or declared afterwards. */
  lemma {:induction false} OvershotNeverFinishes(l: Live, events: seq<Event>)
    requires Lawful(l.w.prims) && E.EncInv(l.w, l.s) && Overshot(l.s)
    requires forall e :: e in events ==> LegalEvent(e) && !e.Restart?
    ensures Overshot(Run(l, events).s)
    decreases |events|
  {
    hide LawfulAead, LawfulHmac, E.EncInv, Process, TryEncryptBody;
    if |events| > 0 {
      var e := events[0];
      assert Inv(l);
      ApplyKeeps(l, e);
      if e.Feed? {
        ProcessStaysOvershot(l.w, l.s, e.input, e.nonNull, e.capacity);
      }
      OvershotNeverFinishes(Apply(l, e), events[1..]);
    }
  }
}
