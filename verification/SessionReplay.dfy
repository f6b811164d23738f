/**
 Whole runs of the session object: it goes through exactly the states of the value-level state machine, so that
 every statement about runs holds of it.
 */
module SessionReplay {
  import opened Hkdf
  import opened Cipher
  import opened SessionModel
  import opened SessionObject
  import R = SessionRuns

  method Perform(session: CryptoSession, e: Event)
    requires session.Valid() && LegalEvent(e)
    modifies session
    ensures session.Valid() && Live(session.w, session.s) == Apply(old(Live(session.w, session.s)), e)
  {
    hide LawfulAead, LawfulHmac, Sound, SessionModel.Process, SessionModel.Reset, SessionModel.SetMessageSize;
    match e {
      case Feed(input, nonNull, capacity) =>
        var ok, consumed, out := session.Process(input, nonNull, capacity);
      case DeclareSize(n) =>
        var ok := session.SetMessageSize(n);
      case DeclareBound(n) =>
        var ok := session.SetMessageBound(n);
      case ChooseFrameSize(n) =>
        var ok := session.SetFrameSize(n);
      case ChoosePolicy(p) =>
        var ok := session.SetPolicy(p);
      case ChooseMaxEdks(n) =>
        var ok := session.SetMaxEdks(n);
      case ChooseContext(ctx) =>
        var ok := session.SetContext(ctx);
      case Restart(mode, w) =>
        session.Reset(mode, w);
    }
  }

  /** Every sequence of legal calls leaves the object where the run of the model ends. */
  method Replay(w: World, mode: Mode, events: seq<Event>) returns (session: CryptoSession)
    requires Lawful(w.prims) && !mode.InvalidMode? && forall e :: e in events ==> LegalEvent(e)
    ensures session.Valid() && Live(session.w, session.s) == R.RunOf(w, mode, events)
  {
    hide LawfulAead, LawfulHmac, Apply, LegalEvent;
    session := new CryptoSession(w, mode);
    ghost var l := Live(w, NewSession(mode));
    for i := 0 to |events|
      invariant fresh(session) && session.Valid() && Live(session.w, session.s) == Run(l, events[..i])
    {
      Perform(session, events[i]);
      assert events[..i + 1] == events[..i] + [events[i]];
      R.RunConcat(l, events[..i], [events[i]]);
      LastStep(Run(l, events[..i]), events[i]);
    }
    assert events[..|events|] == events;
  }

  lemma LastStep(l: Live, e: Event)
    requires Lawful(l.w.prims) && LegalEvent(e)
    ensures Run(l, [e]) == Apply(l, e)
  {
    hide LawfulAead, LawfulHmac, Apply;
    assert Run(Apply(l, e), [e][1..]) == Apply(l, e);
  }
}
