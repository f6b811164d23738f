/**
 The assertions about the commitment policy. Setting an invalid policy is refused with an error but leaves the
 invalid value behind, and the session goes on; where the code asserts that the policy is valid, that can fail.
 */
module PolicyChecks {
  import opened Bytes
  import opened Hkdf
  import opened Parsing
  import opened Algorithms
  import opened Cipher
  import opened MessageHeader
  import opened SessionModel
  import opened BodyTrace
  import opened Reading
  import opened EncryptProgress
  import D = DecryptRuns
  import E = EncryptRuns
  import R = SessionRuns

  // ---------- Which policy is in force ----------

  function LastChosen(policy: Policy, events: seq<Event>): Policy
    decreases |events|
  {
    if events == [] then policy else
      LastChosen(if events[0].ChoosePolicy? then events[0].policy else policy, events[1..])
  }

  lemma {:induction false} CallKeepsPolicy(w: World, s: Session, input: Octets, nonNull: bool, capacity: nat)
    requires Lawful(w.prims)
    ensures Process(w, s, input, nonNull, capacity).s.policy == s.policy
    decreases Rank(s.stage), |input| + capacity
  {
    hide Turn, LawfulAead, LawfulHmac;
    R.TurnRecords(w, s, input, nonNull, capacity);
    TurnInBounds(w, s, input, nonNull, capacity);
    var o := Turn(w, s, input, nonNull, capacity);
    if o.error.None? && MadeProgress(s, o) {
      CallKeepsPolicy(w, o.s, input[o.consumed..], nonNull, capacity - |o.emitted|);
    }
  }

  lemma EventPolicy(l: Live, e: Event)
    requires Lawful(l.w.prims) && LegalEvent(e)
    ensures Apply(l, e).s.policy == if e.ChoosePolicy? then e.policy else l.s.policy
  {
    hide Process, TryEncryptBody, LawfulAead, LawfulHmac;
    match e {
      case Feed(input, nonNull, capacity) => CallKeepsPolicy(l.w, l.s, input, nonNull, capacity);
      case DeclareSize(n) => E.DryRunSealsNothing(l.w, l.s.(preciseSize := n, sizeKnown := true));
      case _ =>
    }
  }

  /** The policy in force is the one set last, be it valid or not, and survives restarts. */
  lemma {:induction false} PolicyInForce(l: Live, events: seq<Event>)
    requires Lawful(l.w.prims) && forall e :: e in events ==> LegalEvent(e)
    ensures Run(l, events).s.policy == LastChosen(l.s.policy, events)
    decreases |events|
  {
    hide Apply, LawfulAead, LawfulHmac;
    if events != [] {
      EventPolicy(l, events[0]);
      PolicyInForce(Apply(l, events[0]), events[1..]);
    }
  }

  // ---------- Where the code asserts that it is valid ----------

  /** The policy is looked at last: nothing was found wrong before. */
  predicate LookedAt(complaint: Option<Error>) {
    complaint.None? || complaint.value.CommitmentPolicyViolation?
  }

  predicate UnwrapLooks(w: World, s: Session) {
    && AlgProps(s.header.algId).Some?
    && var p := AlgProps(s.header.algId).value;
    && var m := w.unwrap(DecRequest(p.algId, s.header.edks, s.header.encCtx));
    && m.Some? && LookedAt(UnwrapError(s, p, m.value))
  }

  /** A turn evaluates one of the two assertions. */
  ghost predicate Consults(w: World, s: Session, input: Octets) {
    match s.stage
    case GenKey =>
      var m := w.generate(RequestOf(s));
      m.Some? && LookedAt(MaterialsError(s, m.value))
    case UnwrapKey => UnwrapLooks(w, s)
    case ReadHeader =>
      var r := ParseHeader(input, s.maxEdks);
      r.Ok? && HeaderSizeReturned(r.value) == |input| - |r.rest| != 0 && UnwrapLooks(w, s.(header := r.value))
    case _ => false
  }

  ghost predicate AssertFails(w: World, s: Session, input: Octets) {
    s.policy.InvalidPolicy? && Consults(w, s, input)
  }

  /** Some turn of a call comes to an assertion that fails. */
  ghost predicate CallAborts(w: World, s: Session, input: Octets, nonNull: bool, capacity: nat)
    requires Lawful(w.prims)
    decreases Rank(s.stage), |input| + capacity
  {
    TurnInBounds(w, s, input, nonNull, capacity);
    var o := Turn(w, s, input, nonNull, capacity);
    || AssertFails(w, s, input)
    || (o.error.None? && MadeProgress(s, o)
        && CallAborts(w, o.s, input[o.consumed..], nonNull, capacity - |o.emitted|))
  }

  predicate BetweenCalls(stage: Stage) {
    !stage.GenKey? && !stage.UnwrapKey?
  }

  lemma {:induction false} ValidNeverAborts(w: World, s: Session, input: Octets, nonNull: bool, capacity: nat)
    requires Lawful(w.prims) && !s.policy.InvalidPolicy?
    ensures !CallAborts(w, s, input, nonNull, capacity)
    decreases Rank(s.stage), |input| + capacity
  {
    hide Turn, Consults, LawfulAead, LawfulHmac;
    R.TurnRecords(w, s, input, nonNull, capacity);
    TurnInBounds(w, s, input, nonNull, capacity);
    var o := Turn(w, s, input, nonNull, capacity);
    if o.error.None? && MadeProgress(s, o) {
      ValidNeverAborts(w, o.s, input[o.consumed..], nonNull, capacity - |o.emitted|);
    }
  }

  lemma {:induction false} LaterNeverAborts(w: World, s: Session, input: Octets, nonNull: bool, capacity: nat)
    requires Lawful(w.prims) && Rank(s.stage) <= 4 && BetweenCalls(s.stage)
    ensures !CallAborts(w, s, input, nonNull, capacity)
    decreases Rank(s.stage), |input| + capacity
  {
    hide Turn, LawfulAead, LawfulHmac;
    TurnInBounds(w, s, input, nonNull, capacity);
    var o := Turn(w, s, input, nonNull, capacity);
    if o.error.None? && MadeProgress(s, o) {
      LaterNeverAborts(w, o.s, input[o.consumed..], nonNull, capacity - |o.emitted|);
    }
  }

  /** Under an invalid policy neither the start of a message nor its header gets anywhere. */
  lemma InvalidStops(w: World, s: Session, input: Octets, nonNull: bool, capacity: nat)
    requires Lawful(w.prims) && s.policy.InvalidPolicy? && (s.stage.Config? || s.stage.ReadHeader?)
    ensures var o := Turn(w, s, input, nonNull, capacity); o.error.Some? || !MadeProgress(s, o)
  {
    hide LawfulAead, LawfulHmac, ParseHeader, HeaderSizeReturned, DeriveKey, HeaderVerifies, CommitmentMatches, AlgProps;
  }

  lemma CallExact(w: World, s: Session, input: Octets, nonNull: bool, capacity: nat)
    requires Lawful(w.prims) && BetweenCalls(s.stage)
    ensures CallAborts(w, s, input, nonNull, capacity) <==> s.stage.ReadHeader? && AssertFails(w, s, input)
  {
    hide Turn, UnwrapLooks, ParseHeader, HeaderSizeReturned, LawfulAead, LawfulHmac;
    if !s.policy.InvalidPolicy? {
      ValidNeverAborts(w, s, input, nonNull, capacity);
    } else if s.stage.Config? || s.stage.ReadHeader? {
      InvalidStops(w, s, input, nonNull, capacity);
    } else {
      LaterNeverAborts(w, s, input, nonNull, capacity);
    }
  }

  // ---------- Over whole runs ----------

  lemma TurnMovesOn(w: World, s: Session, input: Octets, nonNull: bool, capacity: nat)
    requires Lawful(w.prims) && !BetweenCalls(s.stage)
    ensures var o := Turn(w, s, input, nonNull, capacity); o.error.Some? || o.s.stage != s.stage
  {
    hide LawfulAead, LawfulHmac, TryGenKey, UnwrapKeys, TryParseHeader, TryEncryptBody, TryDecryptBody, TryWriteTrailer,
      TryCheckTrailer;
    GenKeyMoves(w, s);
    D.UnwrapKeepsRest(w, s);
  }

  lemma {:induction false} CallRests(w: World, s: Session, input: Octets, nonNull: bool, capacity: nat)
    requires Lawful(w.prims)
    ensures BetweenCalls(Process(w, s, input, nonNull, capacity).s.stage)
    decreases Rank(s.stage), |input| + capacity
  {
    hide Turn, LawfulAead, LawfulHmac;
    if !BetweenCalls(s.stage) {
      TurnMovesOn(w, s, input, nonNull, capacity);
    }
    TurnInBounds(w, s, input, nonNull, capacity);
    var o := Turn(w, s, input, nonNull, capacity);
    if o.error.None? && MadeProgress(s, o) {
      CallRests(w, o.s, input[o.consumed..], nonNull, capacity - |o.emitted|);
    }
  }

  lemma {:induction false} RunRests(l: Live, events: seq<Event>)
    requires Lawful(l.w.prims) && BetweenCalls(l.s.stage) && forall e :: e in events ==> LegalEvent(e)
    ensures BetweenCalls(Run(l, events).s.stage)
    decreases |events|
  {
    hide LawfulAead, LawfulHmac, Process, TryEncryptBody;
    if events != [] {
      var e := events[0];
      match e {
        case Feed(input, nonNull, capacity) => CallRests(l.w, l.s, input, nonNull, capacity);
        case DeclareSize(n) => E.DryRunSealsNothing(l.w, l.s.(preciseSize := n, sizeKnown := true));
        case _ =>
      }
      RunRests(Apply(l, e), events[1..]);
    }
  }

  /**
   After any run, a call comes to a failing assertion if and only if the policy set last is invalid, the session is
   waiting for a header, and the call completes a header whose key the materials manager gives. Encryption never does.
   */
  lemma PolicyAssertExact(w: World, mode: Mode, events: seq<Event>, input: Octets, nonNull: bool, capacity: nat)
    requires Lawful(w.prims) && forall e :: e in events ==> LegalEvent(e)
    ensures var l := R.RunOf(w, mode, events);
            CallAborts(l.w, l.s, input, nonNull, capacity) <==>
              && LastChosen(RequireEncryptRequireDecrypt, events).InvalidPolicy?
              && l.s.stage.ReadHeader? && Consults(l.w, l.s, input)
  {
    hide Run, CallAborts, Consults, LawfulAead, LawfulHmac, LastChosen;
    var l0 := Live(w, NewSession(mode));
    RunRests(l0, events);
    PolicyInForce(l0, events);
    var l := Run(l0, events);
    CallExact(l.w, l.s, input, nonNull, capacity);
  }

  /** Every message that could be decrypted runs into the assertion, once an invalid policy is set after the start. */
  lemma PolicyAssertFails(w: World, c: Settings, t: Script) returns (events: seq<Event>)
    requires Readable(w, c, t)
    ensures Lawful(w.prims) && forall e :: e in events ==> LegalEvent(e)
    ensures var l := R.RunOf(w, c.mode, events); CallAborts(l.w, l.s, Message(t), true, 0)
  {
    hide LawfulAead, LawfulHmac, HeaderReads, KeyUnlocks, TrailerReads, D.FramesOpened, D.EndsOnce, Message, Consults;
    events := [ChooseMaxEdks(c.maxEdks), Feed([], true, 0), ChoosePolicy(InvalidPolicy)];
    var l0 := Live(w, NewSession(c.mode));
    PolicyFits(w, c, t);
    var l1 := Apply(l0, events[0]);
    WaitsForHeader(w, l1.s);
    var l2 := Apply(l1, events[1]);
    var l3 := Apply(l2, events[2]);
    assert events[1..][1..] == [events[2]];
    assert Run(l2, [events[2]]) == l3;
    assert Run(l1, events[1..]) == l3;
    assert R.RunOf(w, c.mode, events) == l3;
    MessageConsults(w, c, t, l3.s);
  }

  lemma WaitsForHeader(w: World, s: Session)
    requires Lawful(w.prims) && s.stage.Config? && IsDecryptMode(s.mode) && s.hasCmm && !s.policy.InvalidPolicy?
    ensures var t := Process(w, s, [], true, 0).s;
            t.stage.ReadHeader? && t.mode == s.mode && t.maxEdks == s.maxEdks
  {
    hide LawfulAead, LawfulHmac, UnwrapKeys, HeaderSizeReturned;
    assert ParseHeader([], s.maxEdks).Short?;
  }

  lemma MessageConsults(w: World, c: Settings, t: Script, s: Session)
    requires Readable(w, c, t) && s.stage.ReadHeader? && s.maxEdks == c.maxEdks && s.mode == c.mode
    requires s.policy.InvalidPolicy?
    ensures Consults(w, s, Message(t))
  {
    hide ParseHeader, HeaderSizeReturned, LawfulAead, LawfulHmac, TrailerReads, D.FramesOpened, D.EndsOnce, DeriveKey,
      HeaderVerifies, AlgProps, FramesOctets;
    HeaderOffered(c, t, Message(t), Message(t));
  }
}
