/**
 The frame size across the messages of a session. It is said to survive a reset; but reading a message overwrites it
 with the one in the header, and that survives just as well.
 */
module FrameSizes {
  import opened Bytes
  import opened Hkdf
  import opened Cipher
  import opened MessageHeader
  import opened FrameFormat
  import opened SessionModel
  import opened BodyTrace
  import opened Reading
  import opened Progress
  import opened EncryptProgress
  import E = EncryptRuns
  import D = DecryptRuns
  import R = SessionRuns

  /** The session has unwrapped the keys of a header and verified it. */
  predicate HeaderAccepted(s: Session) {
    IsDecryptMode(s.mode) && s.seqno > 0
  }

  /** After any run, failed or not, that is what it means. */
  lemma AcceptedIsUnlocked(w: World, mode: Mode, events: seq<Event>)
    requires Lawful(w.prims) && !mode.InvalidMode? && forall e :: e in events ==> LegalEvent(e)
    requires HeaderAccepted(R.RunOf(w, mode, events).s)
    ensures var l := R.RunOf(w, mode, events); D.Unlocked(l.w, D.UnlockingOf(l.s))
  {
    hide R.RunOf, D.DecInv, D.Unlocked, E.EncInv, LawfulAead, LawfulHmac;
    R.RunOfInv(w, mode, events);
    var l := R.RunOf(w, mode, events);
    D.NumberedIsUnlocked(l.w, l.s);
  }

  // ---------- What the caller knows ----------

  /** The size chosen last, and the frame length in the last header accepted since. */
  datatype Sizes = Sizes(chosen: nat, read: Option<nat>)

  function InForce(z: Sizes): nat {
    if z.read.Some? then z.read.value else z.chosen
  }

  ghost function Noted(z: Sizes, l: Live, e: Event): Sizes
    requires Lawful(l.w.prims) && LegalEvent(e)
  {
    var t := Apply(l, e).s;
    if e.ChooseFrameSize? && l.s.mode.Encrypt? && l.s.stage.Config? then Sizes(e.frameSize, None)
    else if !HeaderAccepted(l.s) && HeaderAccepted(t) then z.(read := Some(t.header.frameLen))
    else z
  }

  ghost function Tracked(z: Sizes, l: Live, events: seq<Event>): Sizes
    requires Lawful(l.w.prims) && forall e :: e in events ==> LegalEvent(e)
    decreases |events|
  {
    if events == [] then z else Tracked(Noted(z, l, events[0]), Apply(l, events[0]), events[1..])
  }

  // ---------- Turns, calls and runs ----------

  /** The frame size changes only together with the acceptance of a header, and then to what that says. */
  ghost predicate SizeStep(s: Session, t: Session) {
    && t.mode == s.mode
    && if !HeaderAccepted(s) && HeaderAccepted(t) then t.frameSize == t.header.frameLen
       else t.frameSize == s.frameSize && (HeaderAccepted(s) ==> HeaderAccepted(t) && t.header == s.header)
  }

  lemma HeaderSizes(w: World, s: Session, input: Octets)
    requires Lawful(w.prims) && D.DecInv(w, s) && s.stage.ReadHeader?
    ensures SizeStep(s, TryParseHeader(w, s, input).s)
  {
    hide ParseHeader, HeaderSizeReturned, UnwrapKeys, LawfulAead, LawfulHmac;
    var r := ParseHeader(input, s.maxEdks);
    if r.Ok? {
      var n := |input| - |r.rest|;
      D.UnwrapKeepsRest(w, s.(header := r.value, headerCopy := input[..n], stage := UnwrapKey,
                              hist := s.hist.(consumed := s.hist.consumed + input[..n])));
    }
  }

  lemma BodySizes(w: World, s: Session, input: Octets, capacity: nat)
    requires s.seqno > 0
    ensures SizeStep(s, TryDecryptBody(w, s, input, capacity).s)
  {
    hide Cipher.DecryptBody, DeserializeFrame;
  }

  lemma TrailerSizes(w: World, s: Session, input: Octets)
    requires s.seqno > 0
    ensures SizeStep(s, TryCheckTrailer(w, s, input).s)
  {
    hide FromBigEndian;
  }

  lemma TurnSizes(w: World, s: Session, input: Octets, nonNull: bool, capacity: nat)
    requires Lawful(w.prims) && D.DecInv(w, s) && !s.mode.Encrypt?
    ensures SizeStep(s, SessionModel.Turn(w, s, input, nonNull, capacity).s)
  {
    hide TryParseHeader, TryDecryptBody, TryCheckTrailer, D.Unlocked, D.FramesOpened, D.NothingVerifiedYet,
      D.TrailerVerified, LawfulAead, LawfulHmac, Plains;
    match s.stage {
      case ReadHeader => HeaderSizes(w, s, input);
      case DecryptBody => BodySizes(w, s, input, capacity);
      case CheckTrailer => TrailerSizes(w, s, input);
      case _ =>
    }
  }

  lemma {:induction false} CallSizes(w: World, s: Session, input: Octets, nonNull: bool, capacity: nat)
    requires Lawful(w.prims) && D.DecInv(w, s) && !s.mode.Encrypt?
    ensures SizeStep(s, Process(w, s, input, nonNull, capacity).s)
    decreases Rank(s.stage), |input| + capacity
  {
    hide SessionModel.Turn, D.DecInv, LawfulAead, LawfulHmac;
    TurnSizes(w, s, input, nonNull, capacity);
    TurnInBounds(w, s, input, nonNull, capacity);
    var o := SessionModel.Turn(w, s, input, nonNull, capacity);
    if o.error.None? && MadeProgress(s, o) {
      D.TurnKeeps(w, s, input, nonNull, capacity);
      CallSizes(w, o.s, input[o.consumed..], nonNull, capacity - |o.emitted|);
    }
  }

  lemma EventSizes(z: Sizes, l: Live, e: Event)
    requires Lawful(l.w.prims) && LegalEvent(e) && R.Inv(l) && l.s.frameSize == InForce(z)
    ensures Apply(l, e).s.frameSize == InForce(Noted(z, l, e))
  {
    hide Process, TryEncryptBody, E.EncInv, D.DecInv, LawfulAead, LawfulHmac;
    match e {
      case Feed(input, nonNull, capacity) =>
        if l.s.mode.Encrypt? {
          CallKeepsSettings(l.w, l.s, input, nonNull, capacity);
        } else {
          CallSizes(l.w, l.s, input, nonNull, capacity);
        }
      case DeclareSize(n) => E.DryRunSealsNothing(l.w, l.s.(preciseSize := n, sizeKnown := true));
      case _ =>
    }
  }

  lemma {:induction false} RunSizes(z: Sizes, l: Live, events: seq<Event>)
    requires Lawful(l.w.prims) && (forall e :: e in events ==> LegalEvent(e)) && R.Inv(l) && l.s.frameSize == InForce(z)
    ensures Run(l, events).s.frameSize == InForce(Tracked(z, l, events))
    decreases |events|
  {
    hide Apply, Noted, R.Inv, InForce, LawfulAead, LawfulHmac;
    if events != [] {
      EventSizes(z, l, events[0]);
      R.ApplyKeeps(l, events[0]);
      RunSizes(Noted(z, l, events[0]), Apply(l, events[0]), events[1..]);
    }
  }

  /** What is known of the sizes after a run on a new session. */
  ghost function SizesAfter(w: World, mode: Mode, events: seq<Event>): Sizes
    requires Lawful(w.prims) && forall e :: e in events ==> LegalEvent(e)
  {
    Tracked(Sizes(DEFAULT_FRAME_SIZE, None), Live(w, NewSession(mode)), events)
  }

  /**
   After any run the frame size in force is the frame length in the last accepted header, if one was accepted since
   the last accepted choice of a frame size, and otherwise the size chosen.
   */
  lemma FrameSizeInForce(w: World, mode: Mode, events: seq<Event>)
    requires Lawful(w.prims) && !mode.InvalidMode? && forall e :: e in events ==> LegalEvent(e)
    ensures R.RunOf(w, mode, events).s.frameSize == InForce(SizesAfter(w, mode, events))
  {
    hide Run, Tracked, R.Inv, LawfulAead, LawfulHmac;
    R.NewSessionInv(w, mode);
    RunSizes(Sizes(DEFAULT_FRAME_SIZE, None), Live(w, NewSession(mode)), events);
  }

  /**
   Reset for encryption after any run, a session has the frame size chosen last if and only if no header was accepted
   since, or the last one says the same.
   */
  lemma RestartFindsChoice(w: World, mode: Mode, events: seq<Event>, w': World)
    requires Lawful(w.prims) && !mode.InvalidMode? && (forall e :: e in events ==> LegalEvent(e)) && Lawful(w'.prims)
    ensures var z := SizesAfter(w, mode, events);
            Apply(R.RunOf(w, mode, events), Restart(Encrypt, w')).s.frameSize == z.chosen <==>
              z.read.None? || z.read.value == z.chosen
  {
    hide R.RunOf, SizesAfter, LawfulAead, LawfulHmac;
    FrameSizeInForce(w, mode, events);
  }

  // ---------- A run that loses the choice ----------

  /** Reading any message leaves a session that is to encrypt next with the frame length of that message. */
  lemma ReadingLosesChoice(w: World, c: Settings, t: Script, n: nat) returns (events: seq<Event>)
    requires Readable(w, c, t) && n <= UINT32_MAX
    ensures Lawful(w.prims) && forall e :: e in events ==> LegalEvent(e)
    ensures events != [] && events[0] == ChooseFrameSize(n) && forall e :: e in events[1..] ==> !e.ChooseFrameSize?
    ensures R.RunOf(w, Encrypt, events[..1]).s.frameSize == n
    ensures var s := R.RunOf(w, Encrypt, events).s;
            s.mode.Encrypt? && s.stage.Config? && s.frameSize == t.header.frameLen
  {
    hide HeaderReads, KeyUnlocks, TrailerReads, D.FramesOpened, D.EndsOnce, Message, AfterCalls, Plains, FramesOctets, Watch,
      Process, LawfulAead, LawfulHmac;
    var l0 := Live(w, NewSession(Encrypt));
    var start := [ChooseFrameSize(n), ChoosePolicy(c.policy), ChooseMaxEdks(c.maxEdks), Restart(c.mode, w)];
    PolicyFits(w, c, t);
    StartToRead(w, c, start, n);
    var s := Configured(c).(frameSize := n);
    var driver: Driver := _ => Offer(0, 0);
    var calls := DecryptionEnds(w, c, t, Message(t), s, driver, 0);
    var feeding := CallsAreEvents(w, s, Message(t), driver, 0, calls);
    var done := AfterCalls(w, s, Message(t), driver, 0, calls);
    var last := Restart(Encrypt, w);
    R.RunConcat(l0, start, feeding);
    R.RunConcat(l0, start + feeding, [last]);
    assert Run(Live(w, done), [last]) == Apply(Live(w, done), last);
    events := start + feeding + [last];
    assert events[1..] == start[1..] + feeding + [last];
    assert events[..1] == [ChooseFrameSize(n)];
    assert Run(l0, [ChooseFrameSize(n)]) == Apply(l0, ChooseFrameSize(n));
  }

  lemma StartToRead(w: World, c: Settings, start: seq<Event>, n: nat)
    requires Lawful(w.prims) && n <= UINT32_MAX
    requires start == [ChooseFrameSize(n), ChoosePolicy(c.policy), ChooseMaxEdks(c.maxEdks), Restart(c.mode, w)]
    requires !c.mode.InvalidMode?
    ensures forall e :: e in start ==> LegalEvent(e)
    ensures Run(Live(w, NewSession(Encrypt)), start) == Live(w, Configured(c).(frameSize := n))
  {
    hide LawfulAead, LawfulHmac;
    var l0 := Live(w, NewSession(Encrypt));
    var l1 := Apply(l0, start[0]);
    var l2 := Apply(l1, start[1]);
    var l3 := Apply(l2, start[2]);
    RunOfFour(l0, start);
  }

  lemma RunOfFour(l: Live, events: seq<Event>)
    requires Lawful(l.w.prims) && |events| == 4 && forall e :: e in events ==> LegalEvent(e)
    ensures Run(l, events) == Apply(Apply(Apply(Apply(l, events[0]), events[1]), events[2]), events[3])
  {
    hide Apply, LegalEvent, LawfulAead, LawfulHmac;
    var l1 := Apply(l, events[0]);
    var l2 := Apply(l1, events[1]);
    var l3 := Apply(l2, events[2]);
    assert events[1..][1..] == events[2..] && events[2..][1..] == [events[3]];
    assert Run(l3, [events[3]]) == Apply(l3, events[3]);
    assert Run(l2, events[2..]) == Run(l3, [events[3]]);
    assert Run(l1, events[1..]) == Run(l2, events[2..]);
  }
}
