/**
 What the declared upper bound on the message size does and does not do: once the key is there processing never
 looks at it, so that more octets than the bound may be written; yet no message that is finished exceeds it.
 */
module SizeBound {
  import opened Bytes
  import opened Hkdf
  import opened Algorithms
  import opened Cipher
  import opened FrameFormat
  import opened SessionModel
  import opened BodyTrace
  import opened Reading
  import opened Progress
  import opened EncryptProgress
  import opened SmallWorld
  import E = EncryptRuns
  import R = SessionRuns

  ghost predicate SizeWithinBound(s: Session) {
    s.mode.Encrypt? && s.sizeKnown ==> s.preciseSize <= s.sizeBound
  }

  // ---------- Processing ignores the bound ----------

  predicate HasKey(stage: Stage) {
    stage.WriteHeader? || stage.EncryptBody? || stage.WriteTrailer? || stage.Done? || stage.Failed?
  }

  /**
   The documentation has the session fail once more than the bound is written. The bound only goes into the
   request for the key; from then on every call takes the same plaintext, produces the same octets and raises
   the same error whatever the bound is.
   */
  lemma {:induction false} BoundIsNotConsulted(w: World, s: Session, bound: nat, input: Octets, nonNull: bool, capacity: nat)
    requires Lawful(w.prims) && HasKey(s.stage)
    ensures var c := Process(w, s, input, nonNull, capacity);
            Process(w, s.(sizeBound := bound), input, nonNull, capacity) == c.(s := c.s.(sizeBound := bound))
    decreases Rank(s.stage), |input| + capacity
  {
    hide SessionModel.Turn, LawfulAead, LawfulHmac;
    TurnIgnoresBound(w, s, bound, input, nonNull, capacity);
    TurnInBounds(w, s, input, nonNull, capacity);
    var o := SessionModel.Turn(w, s, input, nonNull, capacity);
    if o.error.None? && MadeProgress(s, o) {
      BoundIsNotConsulted(w, o.s, bound, input[o.consumed..], nonNull, capacity - |o.emitted|);
    }
  }

  lemma TurnIgnoresBound(w: World, s: Session, bound: nat, input: Octets, nonNull: bool, capacity: nat)
    requires Lawful(w.prims) && HasKey(s.stage)
    ensures var o := SessionModel.Turn(w, s, input, nonNull, capacity);
            && SessionModel.Turn(w, s.(sizeBound := bound), input, nonNull, capacity) == o.(s := o.s.(sizeBound := bound))
            && HasKey(o.s.stage)
  {
    hide LawfulAead, LawfulHmac, TryGenKey, TryParseHeader, TryDecryptBody, TryCheckTrailer, UnwrapKeys, TryEncryptBody,
      TryWriteTrailer;
    SealingIgnoresBound(w, s, bound, input, nonNull, capacity);
    SealingKeepsSettings(w, s, input, nonNull, capacity);
    TrailerIgnoresBound(w, s, bound, capacity);
    TrailerKeepsSettings(w, s, capacity);
  }

  lemma TrailerIgnoresBound(w: World, s: Session, bound: nat, capacity: nat)
    ensures var o := TryWriteTrailer(w, s, capacity);
            TryWriteTrailer(w, s.(sizeBound := bound), capacity) == o.(s := o.s.(sizeBound := bound))
  {
    hide BigEndian;
    if s.suite.None? {
    } else if s.suite.value.signatureLen == 0 || capacity < 2 + s.suite.value.signatureLen {
    } else if s.signCtx.None? {
    } else if w.prims.sign(s.signCtx.value.key, s.signCtx.value.data).None? {
    }
  }

  lemma SealingIgnoresBound(w: World, s: Session, bound: nat, input: Octets, nonNull: bool, capacity: nat)
    ensures var o := TryEncryptBody(w, s, input, nonNull, capacity);
            TryEncryptBody(w, s.(sizeBound := bound), input, nonNull, capacity) == o.(s := o.s.(sizeBound := bound))
  {
    hide WriteVerdict, WriteSize, SealFrame, NextFrame;
    var plan := NextFrame(s);
    SamePlan(s, bound);
    if plan.Write? && s.seqno <= UINT32_MAX && plan.size <= |input| {
      var s1 := s.(outEstimate := WriteSize(plan.kind, s.seqno, plan.size, w.unset), inEstimate := plan.size);
      SealIgnoresBound(w, s1, bound, plan.kind, input[..plan.size]);
    }
  }

  lemma SamePlan(s: Session, bound: nat)
    ensures NextFrame(s.(sizeBound := bound)) == NextFrame(s)
  {
  }

  lemma SealIgnoresBound(w: World, s: Session, bound: nat, kind: FrameKind, plain: Octets)
    ensures var o := SealFrame(w, s, kind, plain);
            SealFrame(w, s.(sizeBound := bound), kind, plain) == o.(s := o.s.(sizeBound := bound))
  {
    hide Cipher.EncryptBody, EncodeFrame, FrameIv;
  }

  // ---------- Runs that show it ----------

  /** A run that has written all full frames of a plaintext and waits for its size, under any bound. */
  lemma FramesGoOut(alg: nat, frameSize: nat, plain: Octets, bound: nat) returns (events: seq<Event>)
    requires AlgProps(alg).Some? && 0 < frameSize <= UINT32_MAX && |plain| < frameSize * (UINT32_MAX - 1)
    requires bound <= UINT64_MAX
    ensures forall e :: e in events ==> LegalEvent(e) && !e.Restart?
    ensures Lawful(Small(alg).prims)
    ensures var l := R.RunOf(Small(alg), Encrypt, events);
            && l.w == Small(alg) && Feeding(l.w, l.s, plain) && WaitsForSize(l.s, plain)
            && l.s.sizeBound == bound && l.s.frameSize == frameSize && l.s.mode.Encrypt?
  {
    hide AfterCalls, Ready, LawfulAead, LawfulHmac, AlgProps;
    TransparentIsLawful();
    var s := Start(alg, frameSize, bound);
    OneIsFew();
    StartIsReady(alg, [WRAPPED], s, plain);
    assert Feeding(Small(alg), s, plain);
    var driver: Driver := _ => Offer(0, 0);
    var n := UndeclaredWaits(Small(alg), s, plain, driver);
    var calls := CallsAreEvents(Small(alg), s, plain, driver, 0, n);
    var settings := [ChoosePolicy(PolicyFor(alg)), DeclareBound(bound), ChooseFrameSize(frameSize)];
    StartIsARun(Small(alg), alg, frameSize, bound, settings);
    events := settings + calls;
    R.RunConcat(Live(Small(alg), NewSession(Encrypt)), settings, calls);
  }

  /**
   Under every suite and frame size there is a run that encrypts two frames and then declares a size of one octet:
   the documentation has the session fail, the code goes on as if nothing had happened.
   */
  lemma TooSmallSizeIsReachable(alg: nat, frameSize: nat) returns (events: seq<Event>)
    requires AlgProps(alg).Some? && 0 < frameSize <= UINT32_MAX
    ensures Lawful(Small(alg).prims) && forall e :: e in events ==> LegalEvent(e) && !e.Restart?
    ensures var s := R.RunOf(Small(alg), Encrypt, events).s;
            s.stage.EncryptBody? && s.sizeKnown && s.preciseSize == 1 < s.dataSoFar == 2 * frameSize
  {
    hide LawfulAead, LawfulHmac, AlgProps, TryEncryptBody, E.EncInv;
    var plain := Zeros(2 * frameSize);
    MulMonotone(3, UINT32_MAX - 1, frameSize);
    var fed := FramesGoOut(alg, frameSize, plain, UINT64_MAX);
    events := fed + [DeclareSize(1)];
    var l := R.RunOf(Small(alg), Encrypt, fed);
    R.RunConcat(Live(Small(alg), NewSession(Encrypt)), fed, [DeclareSize(1)]);
    assert Run(l, [DeclareSize(1)]) == Apply(l, DeclareSize(1));
    E.DryRunSealsNothing(l.w, l.s.(preciseSize := 1, sizeKnown := true));
    TwoFramesTaken(l.w, l.s, plain);
  }

  lemma TwoFramesTaken(w: World, s: Session, plain: Octets)
    requires Lawful(w.prims) && E.EncInv(w, s) && WaitsForSize(s, plain)
    requires |s.hist.consumed| <= |plain| == 2 * s.frameSize
    ensures s.dataSoFar == |s.hist.consumed| == 2 * s.frameSize
  {
    hide E.Opened, E.FramesSealed, E.IvsInOrder, FramesOctets, Plains, LawfulAead, LawfulHmac;
    E.AllBodySize(s.frameSize, s.hist.frames);
    var k := |s.hist.frames|;
    if k < 2 {
      MulMonotone(k, 1, s.frameSize);
    } else if k > 2 {
      MulMonotone(3, k, s.frameSize);
    }
  }

  /** Under every suite there is a run that writes more octets than its bound allows, and no error. */
  lemma BoundIsExceeded(alg: nat, frameSize: nat) returns (events: seq<Event>)
    requires AlgProps(alg).Some? && 0 < frameSize <= UINT32_MAX
    ensures Lawful(Small(alg).prims) && forall e :: e in events ==> LegalEvent(e) && !e.Restart?
    ensures var s := R.RunOf(Small(alg), Encrypt, events).s;
            s.stage.EncryptBody? && s.sizeBound == 1 < |s.hist.consumed| == 2 * frameSize
  {
    hide LawfulAead, LawfulHmac, AlgProps, R.RunOf, E.EncInv;
    var plain := Zeros(2 * frameSize);
    MulMonotone(3, UINT32_MAX - 1, frameSize);
    events := FramesGoOut(alg, frameSize, plain, 1);
    var l := R.RunOf(Small(alg), Encrypt, events);
    TwoFramesTaken(l.w, l.s, plain);
  }

  // ---------- Finished messages respect it ----------

  lemma EventKeepsBound(l: Live, e: Event)
    requires Lawful(l.w.prims) && LegalEvent(e) && R.Inv(l) && SizeWithinBound(l.s)
    ensures SizeWithinBound(Apply(l, e).s)
  {
    hide Process, TryEncryptBody, E.EncInv, LawfulAead, LawfulHmac;
    match e {
      case Feed(input, nonNull, capacity) =>
        R.ProcessKeepsMode(l.w, l.s, input, nonNull, capacity);
        if l.s.mode.Encrypt? {
          CallKeepsSettings(l.w, l.s, input, nonNull, capacity);
        }
      case DeclareSize(n) =>
        SealingKeepsSettings(l.w, l.s.(preciseSize := n, sizeKnown := true), [], true, 0);
      case _ =>
    }
  }

  lemma {:induction false} RunKeepsBound(l: Live, events: seq<Event>)
    requires Lawful(l.w.prims) && (forall e :: e in events ==> LegalEvent(e)) && R.Inv(l) && SizeWithinBound(l.s)
    ensures SizeWithinBound(Run(l, events).s)
    decreases |events|
  {
    hide Apply, R.Inv, LawfulAead, LawfulHmac, SizeWithinBound;
    if events != [] {
      EventKeepsBound(l, events[0]);
      R.ApplyKeeps(l, events[0]);
      RunKeepsBound(Apply(l, events[0]), events[1..]);
    }
  }

  /** In every run, a message that reaches its end is no longer than the bound in force. */
  lemma FinishedWithinBound(w: World, mode: Mode, events: seq<Event>)
    requires Lawful(w.prims) && !mode.InvalidMode? && forall e :: e in events ==> LegalEvent(e)
    requires var s := R.RunOf(w, mode, events).s; s.mode.Encrypt? && s.stage.Done?
    ensures var s := R.RunOf(w, mode, events).s; |s.hist.consumed| <= s.sizeBound
  {
    hide Run, R.Inv, LawfulAead, LawfulHmac;
    R.NewSessionInv(w, mode);
    RunKeepsBound(Live(w, NewSession(mode)), events);
    R.FramingConservation(w, mode, events);
  }
}
