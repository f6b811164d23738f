/**
 The law the library is for: whatever an encrypting session wrote, a decrypting session that holds the keys reads
 back, however the stream is cut on either side.
 */
module RoundTrip {
  import opened Bytes
  import opened Hkdf
  import opened Parsing
  import opened Algorithms
  import opened Cipher
  import opened EncryptionContext
  import opened MessageHeader
  import opened SessionModel
  import opened BodyTrace
  import opened Reading
  import opened Progress
  import E = EncryptRuns
  import D = DecryptRuns
  import R = SessionRuns

  /** A finished encryption whose header survives the 16-bit fields it is written with. */
  ghost predicate Finished(w: World, es: Session) {
    && Lawful(w.prims) && E.EncInv(w, es) && es.stage.Done? && es.mode.Encrypt?
    && KeysFit(es.header.edks)
  }

  /** The other side agrees: same primitives, same data key, matching verification key, policy and limits. */
  ghost predicate Compatible(w: World, es: Session, wd: World, c: Settings) {
    && es.suite.Some? && es.hist.generated.Some?
    && wd.prims == w.prims && IsDecryptMode(c.mode)
    && (c.maxEdks == 0 || |es.header.edks| <= c.maxEdks)
    && AllowedForDecrypt(es.header.algId, c.policy)
    && var p, made := es.suite.value, es.hist.generated.value;
    && var got := wd.unwrap(DecRequest(p.algId, es.header.edks, es.header.encCtx));
    && got.Some? && got.value.dataKey == made.dataKey
    && AlgProps(got.value.alg).Some? && (c.mode.DecryptUnsigned? ==> AlgProps(got.value.alg).value.signatureLen == 0)
    && (p.signatureLen != 0 ==>
          && made.signingKey.Some? && got.value.verifyKey.Some?
          && forall data :: w.prims.sign(made.signingKey.value, data).Some? ==>
               var sig := w.prims.sign(made.signingKey.value, data).value;
               |sig| <= UINT16_MAX && w.prims.verify(got.value.verifyKey.value, data, sig))
  }

  function TrailerOctets(es: Session): Octets {
    if es.hist.signature.None? then [] else BigEndian(|es.hist.signature.value.octets|, 2) + es.hist.signature.value.octets
  }

  /** What the other side will meet. */
  ghost function ScriptOf(es: Session, got: DecMaterials): Script
    requires es.suite.Some? && WellFormedHeader(es.header)
  {
    Script(es.headerCopy, Recovered(es.header), es.suite.value, got, es.contentKey, es.hist.frames, TrailerOctets(es))
  }

  lemma StreamParts(w: World, es: Session)
    requires Finished(w, es)
    ensures es.hist.emitted == es.headerCopy + FramesOctets(es.hist.frames) + TrailerOctets(es)
    ensures es.hist.consumed == Plains(es.hist.frames)
  {
    hide E.Opened, E.FramesSealed, E.Closed, FramesOctets, Plains, LawfulAead, LawfulHmac, E.IvsInOrder, KeysFit,
      BigEndian;
    assert MessageOctets(es) + [] == MessageOctets(es);
  }

  /** Every frame of a finished encryption is legal on the wire and opens to its plaintext. */
  lemma SentFrames(w: World, es: Session)
    requires Finished(w, es)
    ensures D.FramesOpened(w.prims, es.contentKey, es.header.messageId, es.frameSize, es.hist.frames)
    ensures D.EndsOnce(es.hist.frames)
  {
    hide E.Opened, E.TrailerWritten, FramesOctets, Plains, LawfulHmac, Cipher.EncryptBody, Cipher.DecryptBody,
      KeysFit, LawfulAead, FrameIv;
    var frames := es.hist.frames;
    forall k | 0 <= k < |frames|
      ensures D.OpenedAs(w.prims, es.contentKey, es.header.messageId, es.frameSize, frames[k], k)
    {
      var x := frames[k];
      assert E.SealedAs(w.prims, es.contentKey, es.header.messageId, x, k);
      DecryptsOwnBody(w.prims, es.contentKey, es.header.messageId, x.frame.kind, k + 1, x.plain);
      if k < |frames| - 1 {
        assert frames[..|frames| - 1][k] == x;
      }
    }
  }

  lemma SentHeader(w: World, es: Session)
    requires Finished(w, es)
    ensures WellFormedHeader(es.header) && es.suite == AlgProps(es.header.algId)
    ensures es.headerCopy == MessageHeader.WriteHeader(es.suite.value, es.header)
    ensures |es.headerCopy| == HeaderSizeReturned(es.header) > 0
  {
    hide E.FramesSealed, E.Closed, E.TrailerWritten, FramesOctets, Plains, LawfulAead, LawfulHmac, E.IvsInOrder,
      DeriveKey, HeaderVerifies, HeaderSizeReturned, MessageHeader.WriteHeader, AuthenticatedPart, Encodable;
    SuiteFacts(es.header.algId);
  }

  lemma SuiteFacts(id: nat)
    ensures AlgProps(id).Some? ==>
      var p := AlgProps(id).value;
      p.algId == id && p.suiteDataLen == p.commitmentLen == (if p.version.V2? then 32 else 0)
  {
  }

  lemma RecoveredSize(h: Header)
    requires WellFormedHeader(h)
    ensures HeaderSizeReturned(Recovered(h)) == HeaderSizeReturned(h)
  {
    hide Encodable, Encoded, AlgProps, AuthenticatedPart, EdksSize;
  }

  lemma SentHeaderReads(w: World, es: Session, maxEdks: nat)
    requires Finished(w, es) && (maxEdks == 0 || |es.header.edks| <= maxEdks)
    ensures WellFormedHeader(es.header)
    ensures ParseHeader(es.headerCopy, maxEdks) == Ok(Recovered(es.header), [])
    ensures HeaderSizeReturned(Recovered(es.header)) == |es.headerCopy| > 0
  {
    hide E.EncInv, ParseHeader, LawfulAead, LawfulHmac, WellFormedHeader, Recovered, KeysFit,
      MessageHeader.WriteHeader, HeaderSizeReturned, AlgProps;
    SentHeader(w, es);
    HeaderRoundTrip(es.header, [], maxEdks);
    assert es.headerCopy + [] == es.headerCopy;
    RecoveredSize(es.header);
  }

  /** A receiver with the given limit on keys reads the header and finds the wrapped keys in it. */
  predicate KeysArrive(es: Session, maxEdks: nat) {
    var r := ParseHeader(es.hist.emitted, maxEdks);
    r.Ok? && r.value.edks == es.header.edks
  }

  /**
   The writer casts the number of wrapped keys and the lengths of their fields to 16 bits without a check. The keys of
   a finished message arrive if and only if that changes nothing and the receiver's limit admits them.
   */
  lemma KeysArriveExactly(w: World, es: Session, maxEdks: nat)
    requires Lawful(w.prims) && E.EncInv(w, es) && es.stage.Done?
    ensures KeysArrive(es, maxEdks) <==> KeysFit(es.header.edks) && (maxEdks == 0 || |es.header.edks| <= maxEdks)
  {
    hide E.EncInv, ParseHeader, LawfulAead, LawfulHmac, KeysFit, FramesOctets, TrailerOctets, WellFormedHeader, Recovered,
      HeaderSizeReturned;
    DoneMode(w, es);
    if KeysArrive(es, maxEdks) {
      AcceptedKeysFit(es.hist.emitted, maxEdks);
      WithinLimit(es.hist.emitted, maxEdks);
    }
    if KeysFit(es.header.edks) && (maxEdks == 0 || |es.header.edks| <= maxEdks) {
      SentHeaderReads(w, es, maxEdks);
      StreamParts(w, es);
      var rest := FramesOctets(es.hist.frames) + TrailerOctets(es);
      assert es.hist.emitted == es.headerCopy + rest;
      HeaderParseStable(es.headerCopy, rest, maxEdks);
      RecoveredKeys(es.header);
    }
  }

  lemma DoneMode(w: World, es: Session)
    requires Lawful(w.prims) && E.EncInv(w, es) && es.stage.Done?
    ensures es.mode.Encrypt?
  {
    hide E.BodyInv, E.Closed, E.TrailerWritten, LawfulAead, LawfulHmac, E.IvsInOrder;
  }

  lemma RecoveredKeys(h: Header)
    requires WellFormedHeader(h)
    ensures Recovered(h).edks == h.edks
  {
  }

  lemma WithinLimit(s: Octets, maxEdks: nat)
    requires ParseHeader(s, maxEdks).Ok?
    ensures maxEdks == 0 || |ParseHeader(s, maxEdks).value.edks| <= maxEdks
  {
    hide ParseSuite, ParseAad, ParseEdks, ParseFraming, AlgProps, TakeInt, Take;
  }

  /** The recovered header unlocks the key the message was written under. */
  lemma SentKeyUnlocks(w: World, es: Session, wd: World, c: Settings, t: Script)
    requires Finished(w, es) && Compatible(w, es, wd, c) && WellFormedHeader(es.header)
    requires HeaderSizeReturned(Recovered(es.header)) == |es.headerCopy| > 0
    requires var got := wd.unwrap(DecRequest(es.suite.value.algId, es.header.edks, es.header.encCtx));
             got.Some? && t == ScriptOf(es, got.value)
    ensures Lawful(wd.prims) && KeyUnlocks(wd, c, t)
  {
    hide E.FramesSealed, E.Closed, E.TrailerWritten, FramesOctets, Plains, LawfulAead, LawfulHmac, E.IvsInOrder,
      DeriveKey, HeaderVerifies, HeaderSizeReturned, MessageHeader.WriteHeader, AuthenticatedPart, Encodable, AlgProps,
      KeysFit, BigEndian;
    SuiteFacts(es.header.algId);
    assert E.Opened(w, E.OpeningOf(es));
  }

  lemma SentTrailerReads(w: World, es: Session, wd: World, c: Settings, t: Script)
    requires Finished(w, es) && Compatible(w, es, wd, c) && WellFormedHeader(es.header)
    requires var got := wd.unwrap(DecRequest(es.suite.value.algId, es.header.edks, es.header.encCtx));
             got.Some? && t == ScriptOf(es, got.value)
    ensures TrailerReads(wd, t)
  {
    hide E.FramesSealed, E.Closed, FramesOctets, Plains, LawfulAead, LawfulHmac, E.IvsInOrder, DeriveKey,
      HeaderVerifies, HeaderSizeReturned, MessageHeader.WriteHeader, AuthenticatedPart, Encodable, AlgProps, KeysFit,
      BigEndian, Recovered, AllowedForDecrypt;
    assert E.Opened(w, E.OpeningOf(es));
    if es.hist.signature.Some? {
      var sig := es.hist.signature.value.octets;
      assert (BigEndian(|sig|, 2) + sig)[..2] == BigEndian(|sig|, 2) && (BigEndian(|sig|, 2) + sig)[2..] == sig;
    }
  }

  /** A finished message reads well on the other side, and what is read is what was written. */
  lemma SentMessageReads(w: World, es: Session, wd: World, c: Settings) returns (t: Script)
    requires Finished(w, es) && Compatible(w, es, wd, c)
    ensures Readable(wd, c, t) && Message(t) == es.hist.emitted && Plains(t.frames) == es.hist.consumed
  {
    hide E.EncInv, ParseHeader, HeaderSizeReturned, FramesOctets, Plains, LawfulAead, LawfulHmac, TrailerOctets, KeysFit,
      KeyUnlocks, TrailerReads, D.FramesOpened, D.EndsOnce, WellFormedHeader, Recovered, AllowedForDecrypt, AlgProps;
    SentHeaderReads(w, es, c.maxEdks);
    var got := wd.unwrap(DecRequest(es.suite.value.algId, es.header.edks, es.header.encCtx)).value;
    t := ScriptOf(es, got);
    SentKeyUnlocks(w, es, wd, c, t);
    SentTrailerReads(w, es, wd, c, t);
    SentFrames(w, es);
    SentFraming(w, es);
    StreamParts(w, es);
  }

  lemma SentFraming(w: World, es: Session)
    requires Finished(w, es) && WellFormedHeader(es.header)
    ensures Recovered(es.header).frameLen == es.frameSize && Recovered(es.header).messageId == es.header.messageId
  {
    hide E.FramesSealed, E.Closed, E.TrailerWritten, FramesOctets, Plains, LawfulAead, LawfulHmac, E.IvsInOrder,
      DeriveKey, HeaderVerifies, HeaderSizeReturned, MessageHeader.WriteHeader, AuthenticatedPart, Encodable, KeysFit;
    assert E.Opened(w, E.OpeningOf(es));
  }

  /**
   Whatever run produced the message, however the stream is cut on the way back and whatever follows it there: the
   decryption never fails, what it has produced is always a prefix of the plaintext, and when it is done it has
   consumed exactly the message and produced exactly the plaintext.
   */
  lemma StreamingRoundTrip(w: World, es: Session, wd: World, c: Settings, stream: Octets, offers: seq<Offer>)
    requires Finished(w, es) && Compatible(w, es, wd, c) && es.hist.emitted <= stream
    ensures Lawful(wd.prims)
    ensures var s := Drive(wd, Configured(c), stream, offers);
            && !s.stage.Failed?
            && s.hist.emitted <= es.hist.consumed && s.hist.consumed <= es.hist.emitted
            && (s.stage.Done? ==> s.hist.emitted == es.hist.consumed && s.hist.consumed == es.hist.emitted)
  {
    hide Finished, Compatible, Readable, Message, Drive, Plains, LawfulAead, LawfulHmac;
    var t := SentMessageReads(w, es, wd, c);
    EveryCutReads(wd, c, t, stream, offers);
  }

  /**
   Take any sequence of calls, settings and resets that leaves an encrypting session done, any receiver whose policy
   admits the suite and whose keyrings return the data key, any stream that starts with the ciphertext, and any fair
   way of cutting it: after finitely many calls the receiver is done and holds exactly the plaintext.
   */
  lemma EveryMessageComesBack(w: World, mode: Mode, events: seq<Event>, wd: World, c: Settings, stream: Octets,
                              driver: Driver) returns (n: nat)
    requires Lawful(w.prims) && !mode.InvalidMode? && (forall e :: e in events ==> LegalEvent(e)) && Lawful(wd.prims)
    requires var l := R.RunOf(w, mode, events);
             && l.s.mode.Encrypt? && l.s.stage.Done?
             && KeysFit(l.s.header.edks)
             && Compatible(l.w, l.s, wd, c) && l.s.hist.emitted <= stream
    ensures var es := R.RunOf(w, mode, events).s;
            var s := AfterCalls(wd, Configured(c), stream, driver, 0, n);
            s.stage.Done? && s.hist.emitted == es.hist.consumed && s.hist.consumed == es.hist.emitted
  {
    hide R.RunOf, Compatible, Readable, Message, AfterCalls, E.EncInv, LawfulAead, LawfulHmac, KeysFit, Holds, Watch,
      Plains, FramesOctets;
    R.RunOfInv(w, mode, events);
    var l := R.RunOf(w, mode, events);
    var t := SentMessageReads(l.w, l.s, wd, c);
    n := DecryptionEnds(wd, c, t, stream, Configured(c), driver, 0);
  }
}
