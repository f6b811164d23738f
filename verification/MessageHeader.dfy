/** The message header in both format versions: parsing, sizing and writing. */
module MessageHeader {
  import opened Bytes
  import opened Parsing
  import opened Algorithms
  import opened EncryptionContext

  datatype Edk = Edk(providerId: Octets, providerInfo: Octets, ciphertext: Octets)

  /** `authLen` counts the octets in front of IV and tag: the authenticated ones. */
  datatype Header = Header(
    algId: nat,
    messageId: Octets,
    encCtx: Context,
    edks: seq<Edk>,
    frameLen: nat,
    suiteData: Octets,
    iv: Octets,
    authTag: Octets,
    authLen: nat)

  const EMPTY_HEADER: Header := Header(0, [], map[], [], 0, [], [], [], 0)

  const TYPE_CUSTOMER_AED: byte := 0x80
  const CONTENT_NONFRAMED: byte := 0x01
  const CONTENT_FRAMED: byte := 0x02

  // ---------- Parsing ----------

  function ParseVersion(s: Octets): (r: Parsed<Version>)
    ensures r.Ok? ==> |r.rest| <= |s|
  {
    var (v, rest) :- TakeInt(s, 1);
    if v == 1 then Ok(V1, rest) else if v == 2 then Ok(V2, rest) else Bad(BadCiphertext)
  }

  function ParseMessageType(s: Octets, v: Version): (r: Parsed<bool>)
    ensures r.Ok? ==> |r.rest| <= |s|
  {
    if v.V2? then Ok(true, s) else
      var (t, rest) :- TakeInt(s, 1);
      if t == TYPE_CUSTOMER_AED then Ok(true, rest) else Bad(BadCiphertext)
  }

  function ParseAlgId(s: Octets, v: Version): (r: Parsed<Suite>)
    ensures r.Ok? ==> |r.rest| <= |s|
  {
    var (id, rest) :- TakeInt(s, 2);
    match AlgProps(id)
    case None => Bad(BadCiphertext)
    case Some(p) => if p.version == v then Ok(p, rest) else Bad(BadCiphertext)
  }

  /** Version, message type and algorithm. */
  function ParseSuite(s: Octets): (r: Parsed<Suite>)
    ensures r.Ok? ==> |r.rest| <= |s|
  {
    var (v, s1) :- ParseVersion(s);
    var (_, s2) :- ParseMessageType(s1, v);
    ParseAlgId(s2, v)
  }

  /** The length-prefixed context; running out inside a complete block is malformed, not short. */
  function ParseAad(s: Octets): (r: Parsed<Context>)
    ensures r.Ok? ==> |r.rest| <= |s|
  {
    var (n, s1) :- TakeInt(s, 2);
    if n == 0 then Ok(map[], s1) else
      var (block, s2) :- Take(s1, n);
      match ParseContext(block)
      case Ok(ctx, left) => if |left| > 0 then Bad(BadCiphertext) else Ok(ctx, s2)
      case Short => Bad(BadCiphertext)
      case Bad(_) => Bad(BadCiphertext)
  }

  function ParseField(s: Octets): (r: Parsed<Octets>)
    ensures !r.Bad? && (r.Ok? ==> |r.rest| <= |s|)
  {
    var (n, s1) :- TakeInt(s, 2);
    Take(s1, n)
  }

  function ParseEdk(s: Octets): (r: Parsed<Edk>)
    ensures !r.Bad? && (r.Ok? ==> |r.rest| <= |s|)
  {
    var (id, s1) :- ParseField(s);
    var (info, s2) :- ParseField(s1);
    var (ciphertext, s3) :- ParseField(s2);
    Ok(Edk(id, info, ciphertext), s3)
  }

  function ParseEdks(s: Octets, count: nat): (r: Parsed<seq<Edk>>)
    ensures !r.Bad? && (r.Ok? ==> |r.rest| <= |s| && |r.value| == count)
  {
    if count == 0 then Ok([], s) else
      var (edk, s1) :- ParseEdk(s);
      var (more, s2) :- ParseEdks(s1, count - 1);
      Ok([edk] + more, s2)
  }

  function ParseEdkList(s: Octets, maxEdks: nat): (r: Parsed<seq<Edk>>)
    ensures r.Ok? ==> |r.rest| <= |s|
  {
    var (count, s1) :- TakeInt(s, 2);
    if count == 0 then Bad(BadCiphertext)
    else if maxEdks != 0 && count > maxEdks then Bad(LimitExceeded)
    else ParseEdks(s1, count)
  }

  function ParseContentType(s: Octets): (r: Parsed<bool>)
    ensures r.Ok? ==> |r.rest| <= |s|
  {
    var (t, rest) :- TakeInt(s, 1);
    if t == CONTENT_FRAMED then Ok(true, rest)
    else if t == CONTENT_NONFRAMED then Ok(false, rest)
    else Bad(BadCiphertext)
  }

  function ParseReserved(s: Octets, v: Version): (r: Parsed<bool>)
    ensures r.Ok? ==> |r.rest| <= |s|
  {
    if v.V2? then Ok(true, s) else
      var (reserved, s1) :- TakeInt(s, 4);
      if reserved != 0 then Bad(BadCiphertext) else
        var (ivLen, s2) :- TakeInt(s1, 1);
        if ivLen != IV_LEN then Bad(BadCiphertext) else Ok(true, s2)
  }

  /** Content type, the version 1 constants, and the frame length that must fit the content type. */
  function ParseFraming(s: Octets, v: Version): (r: Parsed<nat>)
    ensures r.Ok? ==> |r.rest| <= |s|
  {
    var (framed, s1) :- ParseContentType(s);
    var (_, s2) :- ParseReserved(s1, v);
    var (frameLen, s3) :- TakeInt(s2, 4);
    if framed == (frameLen != 0) then Ok(frameLen, s3) else Bad(BadCiphertext)
  }

  /** Everything the authentication tag covers; its length is filled in by the caller. */
  function ParseAuthenticated(s: Octets, maxEdks: nat): (r: Parsed<Header>)
    ensures r.Ok? ==> |r.rest| <= |s|
  {
    var (p, s1) :- ParseSuite(s);
    var (messageId, s2) :- Take(s1, MessageIdLen(p));
    var (ctx, s3) :- ParseAad(s2);
    var (edks, s4) :- ParseEdkList(s3, maxEdks);
    var (frameLen, s5) :- ParseFraming(s4, p.version);
    var (suiteData, s6) :- Take(s5, p.suiteDataLen);
    Ok(Header(p.algId, messageId, ctx, edks, frameLen, suiteData, [], [], 0), s6)
  }

  function TailIvLen(algId: nat): nat {
    if AlgProps(algId).Some? && AlgProps(algId).value.version.V1? then IV_LEN else 0
  }

  function ParseHeader(s: Octets, maxEdks: nat): (r: Parsed<Header>)
    ensures r.Ok? ==> |r.rest| <= |s|
  {
    var (h, s1) :- ParseAuthenticated(s, maxEdks);
    var (iv, s2) :- Take(s1, TailIvLen(h.algId));
    var (tag, s3) :- Take(s2, TAG_LEN);
    Ok(h.(iv := iv, authTag := tag, authLen := |s| - |s1|), s3)
  }

  // ---------- More input never changes a verdict ----------

  lemma SuiteExtends(s: Octets, more: Octets)
    ensures Extends(ParseSuite(s), ParseSuite(s + more), more)
  {
    hide TakeInt, Take, AlgProps;
    TakeIntExtends(s, more, 1);
    var v := ParseVersion(s);
    if v.Ok? {
      TakeIntExtends(v.rest, more, 1);
      var t := ParseMessageType(v.rest, v.value);
      if t.Ok? {
        TakeIntExtends(t.rest, more, 2);
      }
    }
  }

  lemma AadExtends(s: Octets, more: Octets)
    ensures Extends(ParseAad(s), ParseAad(s + more), more)
  {
    hide TakeInt, Take, ParseContext;
    TakeIntExtends(s, more, 2);
    var n := TakeInt(s, 2);
    if n.Ok? {
      TakeExtends(n.rest, more, n.value);
    }
  }

  lemma FieldExtends(s: Octets, more: Octets)
    ensures Extends(ParseField(s), ParseField(s + more), more)
  {
    hide TakeInt, Take;
    TakeIntExtends(s, more, 2);
    var n := TakeInt(s, 2);
    if n.Ok? {
      TakeExtends(n.rest, more, n.value);
    }
  }

  lemma EdkExtends(s: Octets, more: Octets)
    ensures Extends(ParseEdk(s), ParseEdk(s + more), more)
  {
    hide ParseField;
    FieldExtends(s, more);
    var id := ParseField(s);
    if id.Ok? {
      FieldExtends(id.rest, more);
      var info := ParseField(id.rest);
      if info.Ok? {
        FieldExtends(info.rest, more);
      }
    }
  }

  lemma {:induction false} EdksExtends(s: Octets, more: Octets, count: nat)
    ensures Extends(ParseEdks(s, count), ParseEdks(s + more, count), more)
    decreases count
  {
    hide ParseEdk;
    if count > 0 {
      EdkExtends(s, more);
      var edk := ParseEdk(s);
      if edk.Ok? {
        EdksExtends(edk.rest, more, count - 1);
      }
    }
  }

  lemma EdkListExtends(s: Octets, more: Octets, maxEdks: nat)
    ensures Extends(ParseEdkList(s, maxEdks), ParseEdkList(s + more, maxEdks), more)
  {
    hide TakeInt, ParseEdks;
    TakeIntExtends(s, more, 2);
    var n := TakeInt(s, 2);
    if n.Ok? {
      EdksExtends(n.rest, more, n.value);
    }
  }

  lemma ReservedExtends(s: Octets, more: Octets, v: Version)
    ensures Extends(ParseReserved(s, v), ParseReserved(s + more, v), more)
  {
    hide TakeInt;
    TakeIntExtends(s, more, 4);
    var r := TakeInt(s, 4);
    if r.Ok? {
      TakeIntExtends(r.rest, more, 1);
    }
  }

  lemma FramingExtends(s: Octets, more: Octets, v: Version)
    ensures Extends(ParseFraming(s, v), ParseFraming(s + more, v), more)
  {
    hide TakeInt, ParseReserved;
    TakeIntExtends(s, more, 1);
    var c := ParseContentType(s);
    if c.Ok? {
      ReservedExtends(c.rest, more, v);
      var r := ParseReserved(c.rest, v);
      if r.Ok? {
        TakeIntExtends(r.rest, more, 4);
      }
    }
  }

  lemma AuthenticatedExtends(s: Octets, more: Octets, maxEdks: nat)
    ensures Extends(ParseAuthenticated(s, maxEdks), ParseAuthenticated(s + more, maxEdks), more)
  {
    hide ParseSuite, Take, ParseAad, ParseEdkList, ParseFraming;
    SuiteExtends(s, more);
    var p := ParseSuite(s);
    if p.Ok? {
      TakeExtends(p.rest, more, MessageIdLen(p.value));
      var m := Take(p.rest, MessageIdLen(p.value));
      if m.Ok? {
        AadExtends(m.rest, more);
        var c := ParseAad(m.rest);
        if c.Ok? {
          EdkListExtends(c.rest, more, maxEdks);
          var e := ParseEdkList(c.rest, maxEdks);
          if e.Ok? {
            FramingExtends(e.rest, more, p.value.version);
            var f := ParseFraming(e.rest, p.value.version);
            if f.Ok? {
              TakeExtends(f.rest, more, p.value.suiteDataLen);
            }
          }
        }
      }
    }
  }

  /** Appending octets keeps an accepted header and its consumed length, and keeps a rejection. */
  lemma HeaderParseStable(s: Octets, more: Octets, maxEdks: nat)
    ensures Extends(ParseHeader(s, maxEdks), ParseHeader(s + more, maxEdks), more)
  {
    hide ParseAuthenticated, Take;
    AuthenticatedExtends(s, more, maxEdks);
    var h := ParseAuthenticated(s, maxEdks);
    if h.Ok? {
      TakeExtends(h.rest, more, TailIvLen(h.value.algId));
      var iv := Take(h.rest, TailIvLen(h.value.algId));
      if iv.Ok? {
        TakeExtends(iv.rest, more, TAG_LEN);
      }
    }
  }

  /** An accepted header is accepted from exactly the octets it consumed. */
  lemma HeaderNeedsNoLookahead(copy: Octets, more: Octets, maxEdks: nat)
    requires ParseHeader(copy + more, maxEdks).Ok? && |ParseHeader(copy + more, maxEdks).rest| == |more|
    ensures ParseHeader(copy, maxEdks) == Ok(ParseHeader(copy + more, maxEdks).value, [])
  {
    hide ParseHeader;
    HeaderParseStable(copy, more, maxEdks);
  }

  /** Every strict prefix of an accepted header asks for more input. */
  lemma HeaderPrefixIsShort(s: Octets, maxEdks: nat, k: nat)
    requires ParseHeader(s, maxEdks).Ok? && k < |s| - |ParseHeader(s, maxEdks).rest|
    ensures ParseHeader(s[..k], maxEdks).Short?
  {
    hide ParseHeader;
    HeaderParseStable(s[..k], s[k..], maxEdks);
    assert s[..k] + s[k..] == s;
  }

  // ---------- Writing ----------

  function EncodeField(f: Octets): Octets {
    BigEndian(|f|, 2) + f
  }

  function EncodeEdk(e: Edk): Octets {
    EncodeField(e.providerId) + EncodeField(e.providerInfo) + EncodeField(e.ciphertext)
  }

  function EncodeEdks(edks: seq<Edk>): Octets {
    if |edks| == 0 then [] else EncodeEdk(edks[0]) + EncodeEdks(edks[1..])
  }

  function EncodeSuite(p: Suite): Octets {
    (if p.version.V1? then [1, TYPE_CUSTOMER_AED] else [2]) + BigEndian(p.algId, 2)
  }

  ghost function EncodeAad(ctx: Context): Octets {
    BigEndian(|Encoded(ctx)|, 2) + Encoded(ctx)
  }

  function EncodeFraming(p: Suite, ivLen: nat, frameLen: nat): Octets {
    [if frameLen != 0 then CONTENT_FRAMED else CONTENT_NONFRAMED]
    + (if p.version.V1? then Zeros(4) + BigEndian(ivLen, 1) else [])
    + BigEndian(frameLen, 4)
  }

  /** The authenticated octets; of the IV only the length enters. Counts and lengths are cut to 16 bits. */
  ghost function AuthenticatedPart(p: Suite, h: Header): Octets {
    EncodeSuite(p) + (h.messageId + (EncodeAad(h.encCtx) + (BigEndian(|h.edks|, 2) + (EncodeEdks(h.edks)
      + (EncodeFraming(p, |h.iv|, h.frameLen) + h.suiteData)))))
  }

  ghost function WriteHeader(p: Suite, h: Header): Octets {
    AuthenticatedPart(p, h) + ((if p.version.V1? then h.iv else []) + h.authTag)
  }

  predicate FieldsFit(e: Edk) {
    |e.providerId| <= UINT16_MAX && |e.providerInfo| <= UINT16_MAX && |e.ciphertext| <= UINT16_MAX
  }

  /** Wrapped keys whose number and fields survive the 16-bit casts of the writer. */
  predicate KeysFit(edks: seq<Edk>) {
    |edks| <= UINT16_MAX && forall e :: e in edks ==> FieldsFit(e)
  }

  /** A header whose fields survive the 16-bit casts of the writer. */
  ghost predicate WellFormedHeader(h: Header) {
    && AlgProps(h.algId).Some?
    && var p := AlgProps(h.algId).value;
    && |h.messageId| == MessageIdLen(p) && |h.suiteData| == p.suiteDataLen
    && Encodable(h.encCtx)
    && |h.edks| > 0 && KeysFit(h.edks)
    && h.frameLen <= UINT32_MAX
    && |h.iv| == IV_LEN && |h.authTag| == TAG_LEN
  }

  /** What parsing recovers of a written header: version 2 carries no IV. */
  ghost function Recovered(h: Header): Header
    requires WellFormedHeader(h)
  {
    var p := AlgProps(h.algId).value;
    h.(iv := if p.version.V1? then h.iv else [], authLen := |AuthenticatedPart(p, h)|)
  }

  lemma ParsesSuite(id: nat, rest: Octets)
    requires AlgProps(id).Some?
    ensures ParseSuite(EncodeSuite(AlgProps(id).value) + rest) == Ok(AlgProps(id).value, rest)
  {
    hide TakeInt, BigEndian, AlgProps;
    var p := AlgProps(id).value;
    RadixValues();
    TakeIntWritten(id, 2, rest);
    var tail := BigEndian(id, 2) + rest;
    BigEndianOne(1);
    BigEndianOne(2);
    BigEndianOne(TYPE_CUSTOMER_AED);
    if p.version.V1? {
      TakeIntWritten(TYPE_CUSTOMER_AED, 1, tail);
      TakeIntWritten(1, 1, BigEndian(TYPE_CUSTOMER_AED, 1) + tail);
      assert EncodeSuite(p) + rest == BigEndian(1, 1) + (BigEndian(TYPE_CUSTOMER_AED, 1) + tail);
    } else {
      TakeIntWritten(2, 1, tail);
      assert EncodeSuite(p) + rest == BigEndian(2, 1) + tail;
    }
  }

  lemma BigEndianOne(b: byte)
    ensures BigEndian(b, 1) == [b]
  {
    assert BigEndian(b / 256, 0) == [];
  }

  lemma ParsesAad(ctx: Context, rest: Octets)
    requires Encodable(ctx)
    ensures ParseAad(EncodeAad(ctx) + rest) == Ok(ctx, rest)
  {
    hide ParseContext, Encoded, TakeInt, Take, Encodable;
    RadixValues();
    var n := |Encoded(ctx)|;
    assert EncodeAad(ctx) + rest == BigEndian(n, 2) + (Encoded(ctx) + rest);
    assert n <= UINT16_MAX by { EncodableBound(ctx); }
    TakeIntWritten(n, 2, Encoded(ctx) + rest);
    TakeWritten(Encoded(ctx), rest);
    ContextRoundTrip(ctx, []);
    assert Encoded(ctx) + [] == Encoded(ctx);
    EncodedSize(SomeOrder(ctx), ctx);
    if n == 0 {
      assert ctx == map[];
      assert Encoded(ctx) + rest == rest;
    }
  }

  lemma EncodableBound(ctx: Context)
    requires Encodable(ctx)
    ensures |Encoded(ctx)| <= UINT16_MAX
  {
  }

  lemma ParsesField(f: Octets, rest: Octets)
    requires |f| <= UINT16_MAX
    ensures ParseField(EncodeField(f) + rest) == Ok(f, rest)
  {
    RadixValues();
    hide TakeInt, BigEndian, Take;
    assert EncodeField(f) + rest == BigEndian(|f|, 2) + (f + rest);
    TakeIntWritten(|f|, 2, f + rest);
    TakeWritten(f, rest);
  }

  lemma ParsesEdk(e: Edk, rest: Octets)
    requires FieldsFit(e)
    ensures ParseEdk(EncodeEdk(e) + rest) == Ok(e, rest)
  {
    hide ParseField, EncodeField;
    var s2 := EncodeField(e.ciphertext) + rest;
    var s1 := EncodeField(e.providerInfo) + s2;
    assert EncodeEdk(e) + rest == EncodeField(e.providerId) + s1;
    ParsesField(e.providerId, s1);
    ParsesField(e.providerInfo, s2);
    ParsesField(e.ciphertext, rest);
  }

  lemma {:induction false} ParsesEdks(edks: seq<Edk>, rest: Octets)
    requires forall e :: e in edks ==> FieldsFit(e)
    ensures ParseEdks(EncodeEdks(edks) + rest, |edks|) == Ok(edks, rest)
  {
    hide ParseEdk, EncodeEdk, FieldsFit;
    if |edks| == 0 {
      assert EncodeEdks(edks) + rest == rest;
    } else {
      var tail := EncodeEdks(edks[1..]) + rest;
      assert EncodeEdks(edks) + rest == EncodeEdk(edks[0]) + tail;
      ParsesEdk(edks[0], tail);
      ParsesEdks(edks[1..], rest);
      assert edks == [edks[0]] + edks[1..];
    }
  }

  lemma ParsesFraming(p: Suite, frameLen: nat, rest: Octets)
    requires frameLen <= UINT32_MAX
    ensures ParseFraming(EncodeFraming(p, IV_LEN, frameLen) + rest, p.version) == Ok(frameLen, rest)
  {
    hide TakeInt, BigEndian, Zeros;
    RadixValues();
    var framed := frameLen != 0;
    var c: byte := if framed then CONTENT_FRAMED else CONTENT_NONFRAMED;
    BigEndianOne(c);
    BigEndianZeros(4);
    var s2 := BigEndian(frameLen, 4) + rest;
    TakeIntWritten(frameLen, 4, rest);
    var s1 := if p.version.V1? then BigEndian(0, 4) + (BigEndian(IV_LEN, 1) + s2) else s2;
    TakeIntWritten(0, 4, BigEndian(IV_LEN, 1) + s2);
    TakeIntWritten(IV_LEN, 1, s2);
    assert ParseReserved(s1, p.version) == Ok(true, s2);
    TakeIntWritten(c, 1, s1);
    assert ParseContentType(BigEndian(c, 1) + s1) == Ok(framed, s1);
    assert EncodeFraming(p, IV_LEN, frameLen) + rest == BigEndian(c, 1) + s1;
  }

  lemma {:induction false} BigEndianZeros(width: nat)
    ensures BigEndian(0, width) == Zeros(width)
  {
    if width > 0 {
      BigEndianZeros(width - 1);
    }
  }

  /** The authenticated part, reparsed behind any rest. */
  lemma ParsesAuthenticated(h: Header, rest: Octets, maxEdks: nat)
    requires WellFormedHeader(h) && (maxEdks == 0 || |h.edks| <= maxEdks)
    ensures var p := AlgProps(h.algId).value;
            ParseAuthenticated(AuthenticatedPart(p, h) + rest, maxEdks) == Ok(h.(iv := [], authTag := [], authLen := 0), rest)
  {
    RadixValues();
    hide AlgProps, ParseSuite, EncodeSuite, Take, ParseAad, EncodeAad, TakeInt, BigEndian, ParseEdks, EncodeEdks,
      ParseFraming, EncodeFraming, Encodable;
    var p := AlgProps(h.algId).value;
    var s6 := rest;
    var s5 := h.suiteData + s6;
    var s4 := EncodeFraming(p, |h.iv|, h.frameLen) + s5;
    var s4' := EncodeEdks(h.edks) + s4;
    var s3 := BigEndian(|h.edks|, 2) + s4';
    var s2 := EncodeAad(h.encCtx) + s3;
    var s1 := h.messageId + s2;
    assert AuthenticatedPart(p, h) + rest == EncodeSuite(p) + s1;
    ParsesSuite(h.algId, s1);
    TakeWritten(h.messageId, s2);
    ParsesAad(h.encCtx, s3);
    TakeIntWritten(|h.edks|, 2, s4');
    ParsesEdks(h.edks, s4);
    ParsesFraming(p, h.frameLen, s5);
    TakeWritten(h.suiteData, s6);
  }

  /** Parsing recovers a written header, whatever follows it. */
  lemma HeaderRoundTrip(h: Header, rest: Octets, maxEdks: nat)
    requires WellFormedHeader(h) && (maxEdks == 0 || |h.edks| <= maxEdks)
    ensures ParseHeader(WriteHeader(AlgProps(h.algId).value, h) + rest, maxEdks) == Ok(Recovered(h), rest)
  {
    hide ParseAuthenticated, AuthenticatedPart, Take, AlgProps, Encodable, FieldsFit;
    var p := AlgProps(h.algId).value;
    var iv := if p.version.V1? then h.iv else [];
    var s1 := iv + (h.authTag + rest);
    assert WriteHeader(p, h) + rest == AuthenticatedPart(p, h) + s1;
    ParsesAuthenticated(h, s1, maxEdks);
    assert |iv| == TailIvLen(h.algId);
    TakeWritten(iv, h.authTag + rest);
    TakeWritten(h.authTag, rest);
  }

  // ---------- Sizing ----------

  function EdksSize(edks: seq<Edk>): nat {
    if |edks| == 0 then 0 else
      6 + |edks[0].providerId| + |edks[0].providerInfo| + |edks[0].ciphertext| + EdksSize(edks[1..])
  }

  /** Octets of the fields whose width does not vary within a version. */
  function StaticFieldsLen(v: Version): nat {
    if v.V1? then 18 else 12
  }

  /** The number of octets a header needs; the tag's share comes from the suite. */
  ghost function HeaderSize(p: Suite, h: Header): nat {
    StaticFieldsLen(p.version) + |h.messageId| + |h.suiteData| + AuthTagLen(p) + |Encoded(h.encCtx)| + EdksSize(h.edks)
  }

  /** What the C function returns: zero on failure or saturation, otherwise the size squeezed into an int. */
  ghost function HeaderSizeReturned(h: Header): int {
    match AlgProps(h.algId)
    case None => 0
    case Some(p) =>
      if !Encodable(h.encCtx) || HeaderSize(p, h) >= UINT64_MAX then 0
      else (HeaderSize(p, h) + 0x8000_0000) % 0x1_0000_0000 - 0x8000_0000
  }

  lemma SizeFitsInt(p: Suite, h: Header)
    requires AlgProps(h.algId) == Some(p) && Encodable(h.encCtx)
    ensures 0 <= HeaderSizeReturned(h) && HeaderSizeReturned(h) == HeaderSize(p, h) <==> HeaderSize(p, h) <= INT32_MAX
  {
    hide Encoded, AlgProps, Encodable;
  }

  lemma {:induction false} EncodedEdksSize(edks: seq<Edk>)
    ensures |EncodeEdks(edks)| == EdksSize(edks)
  {
    if |edks| > 0 {
      EncodedEdksSize(edks[1..]);
    }
  }

  /** Writing emits exactly the announced number of octets. */
  lemma WrittenSize(p: Suite, h: Header)
    requires |h.iv| == IV_LEN && |h.authTag| == TAG_LEN
    ensures |WriteHeader(p, h)| == HeaderSize(p, h)
    ensures |AuthenticatedPart(p, h)| == HeaderSize(p, h) - AuthTagLen(p)
  {
    EncodedEdksSize(h.edks);
    hide Encoded, EncodeEdks, EdksSize;
  }

  lemma AcceptedFieldSize(s: Octets)
    requires ParseField(s).Ok?
    ensures |s| == 2 + |ParseField(s).value| + |ParseField(s).rest|
  {
  }

  lemma {:induction false} AcceptedEdksSize(s: Octets, count: nat)
    requires ParseEdks(s, count).Ok?
    ensures |s| == EdksSize(ParseEdks(s, count).value) + |ParseEdks(s, count).rest|
    decreases count
  {
    hide ParseField;
    if count > 0 {
      var edk := ParseEdk(s);
      AcceptedFieldSize(s);
      AcceptedFieldSize(ParseField(s).rest);
      AcceptedFieldSize(ParseField(ParseField(s).rest).rest);
      AcceptedEdksSize(edk.rest, count - 1);
      assert ParseEdks(s, count).value[1..] == ParseEdks(edk.rest, count - 1).value;
    }
  }

  lemma AcceptedAadSize(s: Octets)
    requires ParseAad(s).Ok?
    ensures |s| == 2 + |Encoded(ParseAad(s).value)| + |ParseAad(s).rest|
    ensures Encodable(ParseAad(s).value)
  {
    hide ParseContext, Encoded;
    var n := TakeInt(s, 2);
    RadixValues();
    FromBigEndianBound(s[..2]);
    if n.value == 0 {
      EncodedSize([], map[]);
    } else {
      AcceptedContextSize(Take(n.rest, n.value).value);
    }
  }

  lemma AcceptedSuiteSize(s: Octets)
    requires ParseSuite(s).Ok?
    ensures |s| == (if ParseSuite(s).value.version.V1? then 4 else 3) + |ParseSuite(s).rest|
    ensures AlgProps(ParseSuite(s).value.algId) == Some(ParseSuite(s).value)
  {
    hide FromBigEndian;
  }

  lemma AcceptedFramingSize(s: Octets, v: Version)
    requires ParseFraming(s, v).Ok?
    ensures |s| == (if v.V1? then 10 else 5) + |ParseFraming(s, v).rest|
  {
    hide FromBigEndian;
  }

  lemma TakenSize(s: Octets)
    requires TakeInt(s, 2).Ok?
    ensures TakeInt(s, 2).value <= UINT16_MAX
  {
    RadixValues();
    FromBigEndianBound(s[..2]);
  }

  lemma ReadFieldFits(s: Octets)
    requires ParseField(s).Ok?
    ensures |ParseField(s).value| <= UINT16_MAX
  {
    TakenSize(s);
  }

  lemma {:induction false} ReadKeysFit(s: Octets, count: nat)
    requires ParseEdks(s, count).Ok?
    ensures forall e :: e in ParseEdks(s, count).value ==> FieldsFit(e)
    decreases count
  {
    hide ParseField;
    if count > 0 {
      var a := ParseField(s);
      var b := ParseField(a.rest);
      ReadFieldFits(s);
      ReadFieldFits(a.rest);
      ReadFieldFits(b.rest);
      ReadKeysFit(ParseEdk(s).rest, count - 1);
    }
  }

  /** Whatever header is accepted, its wrapped keys are as many and as long as 16 bits can say. */
  lemma AcceptedKeysFit(s: Octets, maxEdks: nat)
    requires ParseHeader(s, maxEdks).Ok?
    ensures KeysFit(ParseHeader(s, maxEdks).value.edks)
  {
    hide ParseSuite, ParseAad, ParseEdks, ParseFraming, AlgProps, FromBigEndian;
    var p := ParseSuite(s);
    var m := Take(p.rest, MessageIdLen(p.value));
    var c := ParseAad(m.rest);
    TakenSize(c.rest);
    var n := TakeInt(c.rest, 2);
    ReadKeysFit(n.rest, n.value);
  }

  /** The size of an accepted header is the number of octets it was parsed from. */
  lemma AcceptedHeaderSize(s: Octets, maxEdks: nat)
    requires ParseHeader(s, maxEdks).Ok?
    ensures var r := ParseHeader(s, maxEdks);
            && AlgProps(r.value.algId).Some? && Encodable(r.value.encCtx)
            && var p := AlgProps(r.value.algId).value;
            && |s| == HeaderSize(p, r.value) + |r.rest|
            && r.value.authLen == HeaderSize(p, r.value) - AuthTagLen(p)
            && |r.value.messageId| == MessageIdLen(p) && |r.value.suiteData| == p.suiteDataLen
  {
    hide ParseSuite, ParseAad, ParseEdks, ParseFraming, Encoded, EdksSize, AlgProps, Encodable, FromBigEndian;
    AcceptedSuiteSize(s);
    var p := ParseSuite(s);
    var m := Take(p.rest, MessageIdLen(p.value));
    AcceptedAadSize(m.rest);
    var c := ParseAad(m.rest);
    var n := TakeInt(c.rest, 2);
    AcceptedEdksSize(n.rest, n.value);
    var e := ParseEdks(n.rest, n.value);
    AcceptedFramingSize(e.rest, p.value.version);
  }

  // ---------- The three operations, step by step ----------

  function Prepend(done: seq<Edk>, r: Parsed<seq<Edk>>): Parsed<seq<Edk>> {
    match r
    case Ok(more, rest) => Ok(done + more, rest)
    case Short => Short
    case Bad(e) => Bad(e)
  }

  method ReadEdks(s: Octets, count: nat) returns (r: Parsed<seq<Edk>>)
    ensures r == ParseEdks(s, count)
  {
    hide ParseEdk;
    var edks: seq<Edk> := [];
    var rest, i := s, 0;
    assert ParseEdks(s, count).Ok? ==> [] + ParseEdks(s, count).value == ParseEdks(s, count).value;
    while i < count
      invariant 0 <= i <= count
      invariant ParseEdks(s, count) == Prepend(edks, ParseEdks(rest, count - i))
    {
      var edk := ParseEdk(rest);
      if !edk.Ok? {
        return Short;
      }
      ghost var tail := ParseEdks(edk.rest, count - i - 1);
      assert tail.Ok? ==> edks + ([edk.value] + tail.value) == (edks + [edk.value]) + tail.value;
      edks, rest, i := edks + [edk.value], edk.rest, i + 1;
    }
    assert edks + [] == edks;
    r := Ok(edks, rest);
  }

  method ReadAad(s: Octets) returns (r: Parsed<Context>)
    ensures r == ParseAad(s)
  {
    hide ParseContext, TakeInt, Take;
    var n := TakeInt(s, 2);
    if !n.Ok? {
      return if n.Short? then Short else Bad(n.error);
    }
    if n.value == 0 {
      return Ok(map[], n.rest);
    }
    var block := Take(n.rest, n.value);
    if !block.Ok? {
      return if block.Short? then Short else Bad(block.error);
    }
    var ctx := DeserializeContext(block.value);
    if !ctx.Ok? || |ctx.rest| > 0 {
      return Bad(BadCiphertext);
    }
    r := Ok(ctx.value, block.rest);
  }

  /** Parses a header field by field, giving up at the first field that is missing or wrong. */
  method ParseHeaderFields(s: Octets, maxEdks: nat) returns (r: Parsed<Header>)
    ensures r == ParseHeader(s, maxEdks)
  {
    hide ParseSuite, Take, TakeInt, ParseAad, ParseEdks, ParseFraming, TailIvLen;
    var p := ParseSuite(s);
    if !p.Ok? {
      return if p.Short? then Short else Bad(p.error);
    }
    var messageId := Take(p.rest, MessageIdLen(p.value));
    if !messageId.Ok? {
      return if messageId.Short? then Short else Bad(messageId.error);
    }
    var aad := ReadAad(messageId.rest);
    if !aad.Ok? {
      return if aad.Short? then Short else Bad(aad.error);
    }
    var count := TakeInt(aad.rest, 2);
    if !count.Ok? {
      return if count.Short? then Short else Bad(count.error);
    }
    if count.value == 0 {
      return Bad(BadCiphertext);
    }
    if maxEdks != 0 && count.value > maxEdks {
      return Bad(LimitExceeded);
    }
    var edks := ReadEdks(count.rest, count.value);
    if !edks.Ok? {
      return Short;
    }
    r := ParseHeaderTail(s, p.value, messageId.value, aad.value, edks.value, edks.rest);
  }

  method ParseHeaderTail(s: Octets, p: Suite, messageId: Octets, ctx: Context, edks: seq<Edk>, rest: Octets)
    returns (r: Parsed<Header>)
    requires |rest| <= |s|
    ensures r == var framing := ParseFraming(rest, p.version);
                 if framing.IsFailure() then framing.PropagateFailure() else
                 var suiteData := Take(framing.rest, p.suiteDataLen);
                 if suiteData.IsFailure() then suiteData.PropagateFailure() else
                 var iv := Take(suiteData.rest, TailIvLen(p.algId));
                 if iv.IsFailure() then iv.PropagateFailure() else
                 var tag := Take(iv.rest, TAG_LEN);
                 if tag.IsFailure() then tag.PropagateFailure() else
                 Ok(Header(p.algId, messageId, ctx, edks, framing.value, suiteData.value, iv.value, tag.value,
                           |s| - |suiteData.rest|), tag.rest)
  {
    hide ParseFraming, Take, TailIvLen;
    var framing := ParseFraming(rest, p.version);
    if !framing.Ok? {
      return if framing.Short? then Short else Bad(framing.error);
    }
    var suiteData := Take(framing.rest, p.suiteDataLen);
    if !suiteData.Ok? {
      return if suiteData.Short? then Short else Bad(suiteData.error);
    }
    var authLen := |s| - |suiteData.rest|;
    var iv := Take(suiteData.rest, TailIvLen(p.algId));
    if !iv.Ok? {
      return if iv.Short? then Short else Bad(iv.error);
    }
    var tag := Take(iv.rest, TAG_LEN);
    if !tag.Ok? {
      return if tag.Short? then Short else Bad(tag.error);
    }
    r := Ok(Header(p.algId, messageId, ctx, edks, framing.value, suiteData.value, iv.value, tag.value, authLen), tag.rest);
  }

  function SaturatingAdd(a: nat, b: nat): nat {
    if a + b > UINT64_MAX then UINT64_MAX else a + b
  }

  lemma {:induction false} EdksSizeAppend(edks: seq<Edk>, e: Edk)
    ensures EdksSize(edks + [e])
         == EdksSize(edks) + 6 + |e.providerId| + |e.providerInfo| + |e.ciphertext|
  {
    if |edks| > 0 {
      EdksSizeAppend(edks[1..], e);
      assert (edks + [e])[1..] == edks[1..] + [e];
    } else {
      assert [e][1..] == [];
    }
  }

  /** Adds up the size of a header and returns it as an int. */
  method SumHeaderSize(h: Header, order: seq<Pair>) returns (size: int)
    requires Lists(order, h.encCtx)
    requires |h.messageId| + |h.suiteData| + 0x2_0000 <= UINT64_MAX
    ensures size == HeaderSizeReturned(h)
  {
    hide Encoded, Encodable, Lists, AlgProps;
    var p := AlgProps(h.algId);
    if p.None? {
      return 0;
    }
    var aadLen := ContextSize(h.encCtx, order);
    if aadLen.None? {
      return 0;
    }
    EncodableBound(h.encCtx);
    ghost var base := StaticFieldsLen(p.value.version) + |h.messageId| + |h.suiteData| + AuthTagLen(p.value) + aadLen.value;
    var bytes := StaticFieldsLen(p.value.version) + (|h.messageId| + |h.suiteData|) + AuthTagLen(p.value) + aadLen.value;
    var i := 0;
    while i < |h.edks|
      invariant 0 <= i <= |h.edks|
      invariant bytes == Min(base + EdksSize(h.edks[..i]), UINT64_MAX)
    {
      var e := h.edks[i];
      assert h.edks[..i + 1] == h.edks[..i] + [e];
      EdksSizeAppend(h.edks[..i], e);
      bytes := SaturatingAdd(bytes, 6);
      bytes := SaturatingAdd(bytes, |e.providerId|);
      bytes := SaturatingAdd(bytes, |e.providerInfo|);
      bytes := SaturatingAdd(bytes, |e.ciphertext|);
      i := i + 1;
    }
    assert h.edks[..i] == h.edks;
    size := if bytes == UINT64_MAX then 0 else (bytes + 0x8000_0000) % 0x1_0000_0000 - 0x8000_0000;
  }

  /** Appends a field if it fits. */
  method Put(output: Octets, field: Octets, capacity: nat) returns (ok: bool, output': Octets)
    requires |output| <= capacity
    ensures ok <==> |output| + |field| <= capacity
    ensures output' == if ok then output + field else output
  {
    ok := capacity - |output| >= |field|;
    output' := if ok then output + field else output;
  }

  lemma {:induction false} EncodeEdksAppend(edks: seq<Edk>, e: Edk)
    ensures EncodeEdks(edks + [e]) == EncodeEdks(edks) + EncodeEdk(e)
  {
    hide EncodeEdk;
    if |edks| > 0 {
      EncodeEdksAppend(edks[1..], e);
      assert (edks + [e])[1..] == edks[1..] + [e];
    } else {
      assert [e][1..] == [];
      assert EncodeEdks([e]) == EncodeEdk(e) + EncodeEdks([]);
    }
  }

  lemma {:induction false} EncodeEdksPrefix(edks: seq<Edk>, i: nat)
    requires i <= |edks|
    ensures |EncodeEdks(edks[..i])| <= |EncodeEdks(edks)|
  {
    hide EncodeEdk;
    if i > 0 {
      EncodeEdksPrefix(edks[1..], i - 1);
      assert edks[..i][1..] == edks[1..][..i - 1];
    }
  }

  method PutEdks(output: Octets, edks: seq<Edk>, capacity: nat) returns (ok: bool, output': Octets)
    requires |output| <= capacity
    ensures ok <==> |output| + |EncodeEdks(edks)| <= capacity
    ensures ok ==> output' == output + EncodeEdks(edks)
  {
    hide EncodeEdk, EncodeEdks;
    output' := output;
    var i := 0;
    assert EncodeEdks(edks[..0]) == [] by { EmptyEdks(edks[..0]); }
    while i < |edks|
      invariant 0 <= i <= |edks|
      invariant |output'| <= capacity
      invariant output' == output + EncodeEdks(edks[..i])
    {
      EncodeEdksAppend(edks[..i], edks[i]);
      assert edks[..i + 1] == edks[..i] + [edks[i]];
      EncodeEdksPrefix(edks, i + 1);
      ok, output' := Put(output', EncodeEdk(edks[i]), capacity);
      if !ok {
        return;
      }
      i := i + 1;
    }
    assert edks[..i] == edks;
    ok := true;
  }

  lemma EmptyEdks(edks: seq<Edk>)
    requires |edks| == 0
    ensures EncodeEdks(edks) == []
  {
  }

  /** The context behind its length; the length is filled in from the octets the context took. */
  method PutAad(output: Octets, ctx: Context, order: seq<Pair>, capacity: nat) returns (ok: bool, output': Octets)
    requires Lists(order, ctx) && |output| <= capacity
    ensures ok <==> Encodable(ctx) && |output| + |EncodeAad(ctx)| <= capacity
    ensures ok ==> output' == output + EncodeAad(ctx)
  {
    hide Encoded, Encodable, Lists, BigEndian;
    ok, output' := Put(output, Zeros(2), capacity);
    if !ok {
      return;
    }
    ok, output' := SerializeContext(ctx, order, output', capacity);
    if ok {
      var n := |output'| - |output| - 2;
      output' := output'[..|output|] + BigEndian(n, 2) + output'[|output| + 2..];
      assert output' == output + EncodeAad(ctx);
    }
  }

  /** Version, type, algorithm, message id and context. */
  method PutOpening(p: Suite, h: Header, order: seq<Pair>, capacity: nat) returns (ok: bool, output: Octets)
    requires Lists(order, h.encCtx)
    ensures ok <==> Encodable(h.encCtx) && |EncodeSuite(p)| + |h.messageId| + |EncodeAad(h.encCtx)| <= capacity
    ensures ok ==> output == EncodeSuite(p) + h.messageId + EncodeAad(h.encCtx)
  {
    hide *;
    output := EncodeSuite(p) + h.messageId;
    if |output| > capacity {
      return false, output;
    }
    ok, output := PutAad(output, h.encCtx, order, capacity);
  }

  /** Framing, algorithm suite data, IV and tag. */
  method PutClosing(output: Octets, p: Suite, h: Header, capacity: nat) returns (ok: bool, output': Octets)
    requires |output| <= capacity
    ensures ok <==> |output| + |EncodeFraming(p, |h.iv|, h.frameLen)| + |h.suiteData| + |TailOf(p, h)| <= capacity
    ensures ok ==> output' == output + EncodeFraming(p, |h.iv|, h.frameLen) + h.suiteData + TailOf(p, h)
  {
    hide EncodeFraming;
    ok, output' := Put(output, EncodeFraming(p, |h.iv|, h.frameLen), capacity);
    if !ok { return; }
    ok, output' := Put(output', h.suiteData, capacity);
    if !ok { return; }
    ok, output' := Put(output', TailOf(p, h), capacity);
  }

  function TailOf(p: Suite, h: Header): Octets {
    (if p.version.V1? then h.iv else []) + h.authTag
  }

  lemma Reassociate(a: Octets, b: Octets, c: Octets, d: Octets, e: Octets, f: Octets, g: Octets, i: Octets)
    ensures a + (b + (c + (d + (e + (f + g))))) + i == a + b + c + d + e + f + g + i
  {
    assert a + (b + (c + (d + (e + (f + g))))) == a + b + c + d + e + f + g;
  }

  lemma PartsOfHeader(p: Suite, h: Header)
    ensures WriteHeader(p, h)
         == EncodeSuite(p) + h.messageId + EncodeAad(h.encCtx) + BigEndian(|h.edks|, 2) + EncodeEdks(h.edks)
            + EncodeFraming(p, |h.iv|, h.frameLen) + h.suiteData + TailOf(p, h)
  {
    hide EncodeSuite, EncodeAad, BigEndian, EncodeEdks, EncodeFraming;
    Reassociate(EncodeSuite(p), h.messageId, EncodeAad(h.encCtx), BigEndian(|h.edks|, 2), EncodeEdks(h.edks),
                EncodeFraming(p, |h.iv|, h.frameLen), h.suiteData, TailOf(p, h));
  }

  /** Writes a header into `capacity` octets of room, or reports that it does not fit. */
  method WriteHeaderInto(p: Suite, h: Header, order: seq<Pair>, capacity: nat) returns (ok: bool, output: Octets)
    requires Lists(order, h.encCtx)
    ensures ok <==> Encodable(h.encCtx) && |WriteHeader(p, h)| <= capacity
    ensures ok ==> output == WriteHeader(p, h)
  {
    hide *;
    PartsOfHeader(p, h);
    ok, output := PutOpening(p, h, order, capacity);
    if !ok { return; }
    ok, output := Put(output, BigEndian(|h.edks|, 2), capacity);
    if !ok { return; }
    ok, output := PutEdks(output, h.edks, capacity);
    if !ok { return; }
    ok, output := PutClosing(output, p, h, capacity);
  }
}
