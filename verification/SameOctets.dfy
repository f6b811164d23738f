/**
 What a finished encryption wrote is settled by its materials, message id, frame size and plaintext: neither the cuts
 on the way nor the moment at which the size was declared leave a trace in it.
 */
module SameOctets {
  import opened Bytes
  import opened Hkdf
  import opened Algorithms
  import opened Cipher
  import opened EncryptionContext
  import opened MessageHeader
  import opened SessionModel
  import opened BodyTrace
  import E = EncryptRuns
  import R = SessionRuns

  /** Plaintexts of the same sizes that add up to the same octets are the same. */
  lemma {:induction false} SplitAlike(a: seq<Passed>, b: seq<Passed>)
    requires |a| == |b| && (forall i :: 0 <= i < |a| ==> |a[i].plain| == |b[i].plain|) && Plains(a) == Plains(b)
    ensures forall i :: 0 <= i < |a| ==> a[i].plain == b[i].plain
    decreases |a|
  {
    if a != [] {
      var n := |a| - 1;
      var front, front' := Plains(a[..n]), Plains(b[..n]);
      assert |Plains(a)| == |front| + |a[n].plain| && |Plains(b)| == |front'| + |b[n].plain|;
      assert front == Plains(a)[..|front|] && front' == Plains(b)[..|front|];
      assert a[n].plain == Plains(a)[|front|..] && b[n].plain == Plains(b)[|front|..];
      SplitAlike(a[..n], b[..n]);
      assert forall i :: 0 <= i < n ==> a[..n][i] == a[i] && b[..n][i] == b[i];
    }
  }

  lemma KindAt(frameSize: nat, frames: seq<Passed>, i: nat)
    requires E.Complete(frameSize, frames) && i < |frames|
    ensures frames[i].frame.kind ==
              if i < |frames| - 1 then BodyFrame else if frameSize == 0 then SingleBlock else FinalFrame
  {
    if i < |frames| - 1 {
      assert frames[..|frames| - 1][i] == frames[i];
    }
  }

  /** The cutting into frames is settled by frame size and plaintext. */
  lemma SameCutting(frameSize: nat, a: seq<Passed>, b: seq<Passed>)
    requires E.Complete(frameSize, a) && E.Complete(frameSize, b) && Plains(a) == Plains(b)
    ensures |a| == |b|
    ensures forall i :: 0 <= i < |a| ==> a[i].plain == b[i].plain && a[i].frame.kind == b[i].frame.kind
  {
    if frameSize > 0 {
      E.FrameSizesDetermined(frameSize, a);
      E.FrameSizesDetermined(frameSize, b);
    } else {
      R.SingleFrame(a);
      R.SingleFrame(b);
    }
    SplitAlike(a, b);
    forall i | 0 <= i < |a|
      ensures a[i].frame.kind == b[i].frame.kind
    {
      KindAt(frameSize, a, i);
      KindAt(frameSize, b, i);
    }
  }

  /** Sealing leaves no choice. */
  lemma SameFrames(c: Primitives, key: Octets, messageId: Octets, frameSize: nat, a: seq<Passed>, b: seq<Passed>)
    requires E.Complete(frameSize, a) && E.Complete(frameSize, b) && Plains(a) == Plains(b)
    requires E.FramesSealed(c, key, messageId, a) && E.FramesSealed(c, key, messageId, b)
    ensures a == b
  {
    hide E.Complete, Plains, Cipher.EncryptBody, FrameIv;
    SameCutting(frameSize, a, b);
    forall i | 0 <= i < |a|
      ensures a[i] == b[i]
    {
      assert E.SealedAs(c, key, messageId, a[i], i) && E.SealedAs(c, key, messageId, b[i], i);
    }
  }

  lemma SameHeader(w: World, b: E.Opening, w': World, b': E.Opening)
    requires Lawful(w.prims) && Lawful(w'.prims) && E.Opened(w, b) && E.Opened(w', b') && w.prims == w'.prims
    requires b.made == b'.made && b.header.messageId == b'.header.messageId && b.frameSize == b'.frameSize
    ensures b.suite == b'.suite && b.key == b'.key && b.copy == b'.copy && b.header == b'.header
  {
    hide DeriveKey, SealHeader, BuildHeader, HeaderVerifies, HeaderSizeReturned, MessageHeader.WriteHeader,
      AuthenticatedPart, Encodable, AlgProps, LawfulAead, LawfulHmac, E.AskedFor;
  }

  lemma SameMessages(w: World, s: Session, w': World, s': Session)
    requires Lawful(w.prims) && Lawful(w'.prims) && w.prims == w'.prims
    requires E.EncInv(w, s) && s.stage.Done? && E.EncInv(w', s') && s'.stage.Done?
    requires s.hist.generated == s'.hist.generated && s.header.messageId == s'.header.messageId
    requires s.frameSize == s'.frameSize && s.hist.consumed == s'.hist.consumed
    ensures s.hist.emitted == s'.hist.emitted
  {
    hide E.Opened, E.FramesSealed, E.Complete, E.IvsInOrder, FramesOctets, Plains, BigEndian, LawfulAead, LawfulHmac;
    SameHeader(w, E.OpeningOf(s), w', E.OpeningOf(s'));
    SameFrames(w.prims, s.contentKey, s.header.messageId, s.frameSize, s.hist.frames, s'.hist.frames);
  }

  /**
   Two finished encryptions, after any runs, with the same primitives, materials, message id, frame size and
   plaintext have written the same octets.
   */
  lemma SameInputsSameOctets(w: World, mode: Mode, events: seq<Event>, w': World, mode': Mode, events': seq<Event>)
    requires Lawful(w.prims) && !mode.InvalidMode? && forall e :: e in events ==> LegalEvent(e)
    requires Lawful(w'.prims) && !mode'.InvalidMode? && forall e :: e in events' ==> LegalEvent(e)
    requires var l, l' := R.RunOf(w, mode, events), R.RunOf(w', mode', events');
             && l.s.mode.Encrypt? && l.s.stage.Done? && l'.s.mode.Encrypt? && l'.s.stage.Done?
             && l.w.prims == l'.w.prims && l.s.hist.generated == l'.s.hist.generated
             && l.s.header.messageId == l'.s.header.messageId && l.s.frameSize == l'.s.frameSize
             && l.s.hist.consumed == l'.s.hist.consumed
    ensures R.RunOf(w, mode, events).s.hist.emitted == R.RunOf(w', mode', events').s.hist.emitted
  {
    hide R.RunOf, E.EncInv, LawfulAead, LawfulHmac;
    R.RunOfInv(w, mode, events);
    R.RunOfInv(w', mode', events');
    var l, l' := R.RunOf(w, mode, events), R.RunOf(w', mode', events');
    SameMessages(l.w, l.s, l'.w, l'.s);
  }
}
