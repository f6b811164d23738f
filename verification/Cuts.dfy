/**
 Decrypting arbitrary octets, honest or not: whether a stream is accepted, and what comes out of it, does not depend
 on how it is cut into calls.
 */
module Cuts {
  import opened Bytes
  import opened Hkdf
  import opened Parsing
  import opened Algorithms
  import opened Cipher
  import opened MessageHeader
  import opened SessionModel
  import opened BodyTrace
  import opened Reading
  import opened Progress
  import D = DecryptRuns
  import R = SessionRuns

  /** What a finished decryption has met. */
  function ScriptRead(s: Session): Script
    requires s.suite.Some? && s.hist.unwrapped.Some?
  {
    var trailer := if s.hist.signature.None? then [] else
                   BigEndian(|s.hist.signature.value.octets|, 2) + s.hist.signature.value.octets;
    Script(s.headerCopy, s.header, s.suite.value, s.hist.unwrapped.value, s.contentKey, s.hist.frames, trailer)
  }

  /** The settings under which the header was accepted. */
  function SettingsOf(s: Session): Settings {
    Settings(s.hist.policy, s.maxEdks, s.mode)
  }

  ghost predicate Accepted(l: Live, stream: Octets) {
    IsDecryptMode(l.s.mode) && l.s.stage.Done? && l.s.hist.consumed <= stream
  }

  lemma FinishedReads(w: World, s: Session)
    requires Lawful(w.prims) && D.DecInv(w, s) && s.stage.Done?
    ensures s.suite.Some? && s.hist.unwrapped.Some?
    ensures var t := ScriptRead(s);
            Readable(w, SettingsOf(s), t) && Message(t) == s.hist.consumed && Plains(t.frames) == s.hist.emitted
  {
    hide ParseHeader, HeaderSizeReturned, AlgProps, DeriveKey, HeaderVerifies, CommitmentMatches, AllowedForDecrypt,
      D.FramesOpened, D.EndsOnce, FramesOctets, Plains, LawfulAead, LawfulHmac, BigEndian;
    assert D.Unlocked(w, D.UnlockingOf(s));
    assert MessageOctets(s) + [] == MessageOctets(s);
    if s.hist.signature.Some? {
      var sig := s.hist.signature.value.octets;
      assert (BigEndian(|sig|, 2) + sig)[..2] == BigEndian(|sig|, 2) && (BigEndian(|sig|, 2) + sig)[2..] == sig;
    }
  }

  lemma AcceptedReads(w: World, mode: Mode, events: seq<Event>, stream: Octets) returns (t: Script)
    requires Lawful(w.prims) && !mode.InvalidMode? && forall e :: e in events ==> LegalEvent(e)
    requires Accepted(R.RunOf(w, mode, events), stream)
    ensures var l := R.RunOf(w, mode, events);
            && Readable(l.w, SettingsOf(l.s), t) && Message(t) <= stream
            && Message(t) == l.s.hist.consumed && Plains(t.frames) == l.s.hist.emitted
  {
    hide R.RunOf, D.DecInv, Readable, Message, Plains, LawfulAead, LawfulHmac;
    R.RunOfInv(w, mode, events);
    var l := R.RunOf(w, mode, events);
    FinishedReads(l.w, l.s);
    t := ScriptRead(l.s);
  }

  /**
   If any run, cut in any way, accepts what a stream starts with, then every other way of cutting the stream never
   fails, only ever produces prefixes of the same plaintext, and stops at the same octet with all of it.
   */
  lemma AcceptanceIgnoresCuts(w: World, mode: Mode, events: seq<Event>, stream: Octets, offers: seq<Offer>)
    requires Lawful(w.prims) && !mode.InvalidMode? && forall e :: e in events ==> LegalEvent(e)
    requires Accepted(R.RunOf(w, mode, events), stream)
    ensures var l := R.RunOf(w, mode, events);
            var s := Drive(l.w, Configured(SettingsOf(l.s)), stream, offers);
            && !s.stage.Failed?
            && s.hist.emitted <= l.s.hist.emitted && s.hist.consumed <= l.s.hist.consumed
            && (s.stage.Done? ==> s.hist.emitted == l.s.hist.emitted && s.hist.consumed == l.s.hist.consumed)
  {
    hide R.RunOf, Readable, Message, Drive, Plains, LawfulAead, LawfulHmac;
    var t := AcceptedReads(w, mode, events, stream);
    var l := R.RunOf(w, mode, events);
    EveryCutReads(l.w, SettingsOf(l.s), t, stream, offers);
  }

  /** And every fair driver gets there. */
  lemma FairCutsAccept(w: World, mode: Mode, events: seq<Event>, stream: Octets, driver: Driver) returns (n: nat)
    requires Lawful(w.prims) && !mode.InvalidMode? && forall e :: e in events ==> LegalEvent(e)
    requires Accepted(R.RunOf(w, mode, events), stream)
    ensures var l := R.RunOf(w, mode, events);
            var s := AfterCalls(l.w, Configured(SettingsOf(l.s)), stream, driver, 0, n);
            s.stage.Done? && s.hist.emitted == l.s.hist.emitted && s.hist.consumed == l.s.hist.consumed
  {
    hide R.RunOf, Readable, Message, AfterCalls, Plains, LawfulAead, LawfulHmac, Holds, Watch, FramesOctets;
    var t := AcceptedReads(w, mode, events, stream);
    var l := R.RunOf(w, mode, events);
    var c := SettingsOf(l.s);
    n := DecryptionEnds(l.w, c, t, stream, Configured(c), driver, 0);
  }

  // ---------- One stream, one plaintext ----------

  const WIDEST: Settings := Settings(RequireEncryptAllowDecrypt, 0, Decrypt)

  /** A limit on the number of keys only ever rejects. */
  lemma LimitOnlyRejects(s: Octets, maxEdks: nat)
    ensures ParseHeader(s, maxEdks).Ok? ==> ParseHeader(s, 0) == ParseHeader(s, maxEdks)
  {
    hide ParseSuite, ParseAad, ParseEdks, ParseFraming, Take, TakeInt;
  }

  lemma ReadableWidely(w: World, c: Settings, t: Script)
    requires Readable(w, c, t)
    ensures Readable(w, WIDEST, t)
  {
    hide ParseHeader, HeaderSizeReturned, AlgProps, DeriveKey, HeaderVerifies, CommitmentMatches, D.FramesOpened,
      D.EndsOnce, TrailerReads, LawfulAead, LawfulHmac;
    LimitOnlyRejects(t.copy, c.maxEdks);
  }

  lemma DoneStays(w: World, s: Session, stream: Octets, extra: Offer)
    requires Lawful(w.prims) && s.stage.Done?
    ensures FairCall(w, s, stream, extra) == s
  {
    hide LawfulAead, LawfulHmac;
  }

  lemma {:induction false} StaysDone(w: World, s: Session, stream: Octets, driver: Driver, i: nat, n: nat, more: nat)
    requires Lawful(w.prims) && AfterCalls(w, s, stream, driver, i, n).stage.Done?
    ensures AfterCalls(w, s, stream, driver, i, n + more) == AfterCalls(w, s, stream, driver, i, n)
    decreases n + more
  {
    hide FairCall, LawfulAead, LawfulHmac;
    if n > 0 {
      StaysDone(w, FairCall(w, s, stream, driver(i)), stream, driver, i + 1, n - 1, more);
    } else if more > 0 {
      DoneStays(w, s, stream, driver(i));
      StaysDone(w, s, stream, driver, i + 1, 0, more - 1);
    }
  }

  /**
   Two runs in the same world that both accept a beginning of the same stream, under whatever settings and cuts,
   accept the same octets and produce the same plaintext.
   */
  lemma OneStreamOnePlaintext(w: World, mode: Mode, events: seq<Event>, w': World, mode': Mode, events': seq<Event>,
                              stream: Octets)
    requires Lawful(w.prims) && !mode.InvalidMode? && forall e :: e in events ==> LegalEvent(e)
    requires Lawful(w'.prims) && !mode'.InvalidMode? && forall e :: e in events' ==> LegalEvent(e)
    requires Accepted(R.RunOf(w, mode, events), stream) && Accepted(R.RunOf(w', mode', events'), stream)
    requires R.RunOf(w, mode, events).w == R.RunOf(w', mode', events').w
    ensures var l, l' := R.RunOf(w, mode, events), R.RunOf(w', mode', events');
            l.s.hist.emitted == l'.s.hist.emitted && l.s.hist.consumed == l'.s.hist.consumed
  {
    hide R.RunOf, Readable, Message, AfterCalls, Plains, LawfulAead, LawfulHmac, Holds, Watch, FramesOctets;
    var t := AcceptedReads(w, mode, events, stream);
    var t' := AcceptedReads(w', mode', events', stream);
    var l, l' := R.RunOf(w, mode, events), R.RunOf(w', mode', events');
    ReadableWidely(l.w, SettingsOf(l.s), t);
    ReadableWidely(l.w, SettingsOf(l'.s), t');
    SameReading(l.w, t, t', stream);
  }

  lemma SameReading(w: World, t: Script, t': Script, stream: Octets)
    requires Readable(w, WIDEST, t) && Readable(w, WIDEST, t') && Message(t) <= stream && Message(t') <= stream
    ensures Message(t) == Message(t') && Plains(t.frames) == Plains(t'.frames)
  {
    hide Readable, Message, AfterCalls, Plains, LawfulAead, LawfulHmac, Holds, Watch, FramesOctets;
    var driver: Driver := _ => Offer(0, 0);
    var s := Configured(WIDEST);
    var n := DecryptionEnds(w, WIDEST, t, stream, s, driver, 0);
    var n' := DecryptionEnds(w, WIDEST, t', stream, s, driver, 0);
    if n <= n' {
      StaysDone(w, s, stream, driver, 0, n, n' - n);
    } else {
      StaysDone(w, s, stream, driver, 0, n', n - n');
    }
  }
}
