/** The three body frame layouts: writing a frame into a bounded buffer and reading one incrementally. */
module FrameFormat {
  import opened Bytes
  import opened Algorithms
  import opened Cipher

  const LAST_FRAME_MARK: nat := 0xFFFF_FFFF
  const MAX_FRAME_SIZE: nat := 0xFFFF_FFFF
  const MAX_UNFRAMED_PLAINTEXT_SIZE: nat := 0xF_FFFF_FFE0

  datatype Frame = Frame(kind: FrameKind, seqno: nat, iv: Octets, ciphertext: Octets, tag: Octets)

  /** The octets of a frame on the wire. */
  function EncodeFrame(f: Frame): Octets {
    match f.kind
    case SingleBlock => f.iv + BigEndian(|f.ciphertext|, 8) + f.ciphertext + f.tag
    case BodyFrame => BigEndian(f.seqno, 4) + f.iv + f.ciphertext + f.tag
    case FinalFrame =>
      BigEndian(LAST_FRAME_MARK, 4) + BigEndian(f.seqno, 4) + f.iv + BigEndian(|f.ciphertext|, 4) + f.ciphertext + f.tag
  }

  /** Octets a frame adds to its ciphertext. */
  function Overhead(kind: FrameKind): nat {
    match kind
    case SingleBlock => 36
    case BodyFrame => 32
    case FinalFrame => 40
  }

  /** The frames that may occur in a body whose frame size is `maxFrame` (zero: not framed). */
  predicate WellFormed(f: Frame, maxFrame: nat) {
    && |f.iv| == IV_LEN && |f.tag| == TAG_LEN && maxFrame <= MAX_FRAME_SIZE
    && match f.kind
       case SingleBlock => maxFrame == 0 && f.seqno == 1 && |f.ciphertext| < MAX_UNFRAMED_PLAINTEXT_SIZE
       case BodyFrame => maxFrame > 0 && f.seqno < LAST_FRAME_MARK && |f.ciphertext| == maxFrame
       case FinalFrame => maxFrame > 0 && f.seqno <= UINT32_MAX && |f.ciphertext| <= maxFrame
  }

  // ---------- Reading ----------

  datatype ReadResult = ReadOk(frame: Frame, consumed: nat) | ReadShort | ReadBad

  /** Outcome of a read together with the two sizes it reports to the caller. */
  datatype Read = Read(result: ReadResult, ciphertextSize: nat, plaintextSize: nat)

  /** Does the input already show that the next frame is a final one? */
  predicate ShowsFinal(input: Octets) {
    |input| >= 4 && FromBigEndian(input[..4]) == LAST_FRAME_MARK
  }

  function KindShown(input: Octets, maxFrame: nat): FrameKind {
    if maxFrame == 0 then SingleBlock else if ShowsFinal(input) then FinalFrame else BodyFrame
  }

  /** The plaintext length the input shows so far; zero while its length field is incomplete. */
  function LengthShown(input: Octets, maxFrame: nat): nat {
    match KindShown(input, maxFrame)
    case SingleBlock => if |input| >= 20 then FromBigEndian(input[12..20]) else 0
    case BodyFrame => maxFrame
    case FinalFrame => if |input| >= 24 then FromBigEndian(input[20..24]) else 0
  }

  predicate LengthAcceptable(kind: FrameKind, length: nat, maxFrame: nat) {
    match kind
    case SingleBlock => length < MAX_UNFRAMED_PLAINTEXT_SIZE
    case BodyFrame => true
    case FinalFrame => length <= maxFrame
  }

  function SizeBeforeLengthCheck(kind: FrameKind): nat {
    match kind
    case SingleBlock => 20
    case BodyFrame => 4
    case FinalFrame => 24
  }

  /** Cuts the frame of the given kind and length off the front of the input. */
  function CutFrame(input: Octets, kind: FrameKind, n: nat): Frame
    requires |input| >= Overhead(kind) + n
  {
    match kind
    case SingleBlock => Frame(kind, 1, input[..12], input[20..20 + n], input[20 + n..36 + n])
    case BodyFrame => Frame(kind, FromBigEndian(input[..4]), input[4..16], input[16..16 + n], input[16 + n..32 + n])
    case FinalFrame => Frame(kind, FromBigEndian(input[4..8]), input[8..20], input[24..24 + n], input[24 + n..40 + n])
  }

  /** What reading a frame from the front of `input` must deliver. */
  function DeserializeFrame(input: Octets, maxFrame: nat): Read {
    var kind := KindShown(input, maxFrame);
    var n := LengthShown(input, maxFrame);
    if !LengthAcceptable(kind, n, maxFrame) then Read(ReadBad, SizeBeforeLengthCheck(kind), n)
    else if |input| < Overhead(kind) + n then Read(ReadShort, Overhead(kind) + n, n)
    else Read(ReadOk(CutFrame(input, kind, n), Overhead(kind) + n), Overhead(kind) + n, n)
  }

  /**
   The reading side of a frame state: a cursor over the input, the size counted so far and the flag
   that some field did not fit. Fields after a missing one are still counted.
   */
  class FrameReader {
    ghost const input: Octets
    var rest: Octets
    var ciphertextSize: nat
    var tooSmall: bool

    ghost predicate Valid()
      reads this
    {
      && (!tooSmall ==> ciphertextSize <= |input| && rest == input[ciphertextSize..])
      && (tooSmall ==> |input| < ciphertextSize)
    }

    constructor (input: Octets)
      ensures Valid() && this.input == input && ciphertextSize == 0 && !tooSmall
    {
      this.input := input;
      rest, ciphertextSize, tooSmall := input, 0, false;
    }

    /** A fixed-width integer field; reads as zero once the input has run out. */
    method FieldInt(width: nat) returns (value: nat)
      requires Valid()
      modifies this
      ensures Valid() && ciphertextSize == old(ciphertextSize) + width
      ensures tooSmall <==> |input| < ciphertextSize
      ensures value == if tooSmall then 0 else FromBigEndian(input[old(ciphertextSize)..ciphertextSize])
    {
      ciphertextSize := ciphertextSize + width;
      value := 0;
      if !tooSmall {
        if |rest| < width {
          tooSmall := true;
        } else {
          assert rest[..width] == input[old(ciphertextSize)..ciphertextSize];
          value, rest := FromBigEndian(rest[..width]), rest[width..];
        }
      }
    }

    /** A field of `size` octets; the cursor moves whenever that many octets are left. */
    method FieldSized(size: nat) returns (bytes: Octets)
      requires Valid()
      modifies this
      ensures Valid() && ciphertextSize == old(ciphertextSize) + size
      ensures tooSmall <==> |input| < ciphertextSize
      ensures !tooSmall ==> bytes == input[old(ciphertextSize)..ciphertextSize]
    {
      ciphertextSize := ciphertextSize + size;
      bytes := [];
      if |rest| >= size {
        bytes, rest := rest[..size], rest[size..];
      } else {
        tooSmall := true;
      }
    }
  }

  /** Reads a frame field by field. */
  method ReadFrame(input: Octets, maxFrame: nat) returns (r: Read)
    ensures r == DeserializeFrame(input, maxFrame)
  {
    var state := new FrameReader(input);
    if maxFrame > 0 {
      var mark := state.FieldInt(4);
      assert |input| >= 4 ==> input[0..4] == input[..4];
      if mark == LAST_FRAME_MARK {
        r := ReadLastFrame(state, maxFrame);
      } else {
        var iv := state.FieldSized(IV_LEN);
        var ciphertext := state.FieldSized(maxFrame);
        var tag := state.FieldSized(TAG_LEN);
        if state.tooSmall {
          r := Read(ReadShort, state.ciphertextSize, maxFrame);
        } else {
          r := Read(ReadOk(Frame(BodyFrame, mark, iv, ciphertext, tag), state.ciphertextSize), state.ciphertextSize, maxFrame);
        }
      }
    } else {
      var iv := state.FieldSized(IV_LEN);
      var n := state.FieldInt(8);
      if n >= MAX_UNFRAMED_PLAINTEXT_SIZE {
        return Read(ReadBad, state.ciphertextSize, n);
      }
      var ciphertext := state.FieldSized(n);
      var tag := state.FieldSized(TAG_LEN);
      if state.tooSmall {
        r := Read(ReadShort, state.ciphertextSize, n);
      } else {
        assert input[0..12] == input[..12];
        r := Read(ReadOk(Frame(SingleBlock, 1, iv, ciphertext, tag), state.ciphertextSize), state.ciphertextSize, n);
      }
    }
  }

  method ReadLastFrame(state: FrameReader, maxFrame: nat) returns (r: Read)
    requires state.Valid() && state.ciphertextSize == 4 && maxFrame > 0
    requires ShowsFinal(state.input)
    modifies state
    ensures r == DeserializeFrame(state.input, maxFrame)
  {
    var seqno := state.FieldInt(4);
    var iv := state.FieldSized(IV_LEN);
    var n := state.FieldInt(4);
    if n > maxFrame {
      return Read(ReadBad, state.ciphertextSize, n);
    }
    var ciphertext := state.FieldSized(n);
    var tag := state.FieldSized(TAG_LEN);
    if state.tooSmall {
      r := Read(ReadShort, state.ciphertextSize, n);
    } else {
      r := Read(ReadOk(Frame(FinalFrame, seqno, iv, ciphertext, tag), state.ciphertextSize), state.ciphertextSize, n);
    }
  }

  // ---------- Writing ----------

  datatype WriteResult = WriteOk | WriteShort | WriteLimitExceeded | WriteBad

  /** Positions of the three fields the caller fills in. */
  datatype Layout = Layout(ivAt: nat, ciphertextAt: nat, tagAt: nat)

  function LayoutOf(kind: FrameKind, n: nat): Layout {
    match kind
    case SingleBlock => Layout(0, 20, 20 + n)
    case BodyFrame => Layout(4, 16, 16 + n)
    case FinalFrame => Layout(8, 24, 24 + n)
  }

  predicate OverWriteLimit(kind: FrameKind, n: nat) {
    if kind.SingleBlock? then n > MAX_UNFRAMED_PLAINTEXT_SIZE else n > MAX_FRAME_SIZE
  }

  /** Verdict on writing a frame of `n` plaintext octets into `capacity` octets of room. */
  function WriteVerdict(kind: FrameKind, seqno: nat, n: nat, capacity: nat): WriteResult {
    if OverWriteLimit(kind, n) then WriteLimitExceeded
    else if kind.BodyFrame? && seqno == LAST_FRAME_MARK then WriteLimitExceeded
    else if kind.SingleBlock? && n >= MAX_UNFRAMED_PLAINTEXT_SIZE then WriteBad
    else if capacity < Overhead(kind) + n then WriteShort
    else WriteOk
  }

  /** The size reported to the caller; a request over the limit leaves the caller's variable alone. */
  function WriteSize(kind: FrameKind, seqno: nat, n: nat, unset: nat): nat {
    if OverWriteLimit(kind, n) then unset
    else if kind.BodyFrame? && seqno == LAST_FRAME_MARK then 0
    else if kind.SingleBlock? && n >= MAX_UNFRAMED_PLAINTEXT_SIZE then 20
    else Overhead(kind) + n
  }

  class FrameWriter {
    const capacity: nat
    var buffer: Octets
    var ciphertextSize: nat
    var tooSmall: bool

    ghost predicate Valid()
      reads this
    {
      && |buffer| <= capacity
      && (!tooSmall ==> |buffer| == ciphertextSize)
      && (tooSmall ==> capacity < ciphertextSize)
    }

    constructor (capacity: nat)
      ensures Valid() && this.capacity == capacity && buffer == [] && ciphertextSize == 0 && !tooSmall
    {
      this.capacity := capacity;
      buffer, ciphertextSize, tooSmall := [], 0, false;
    }

    method FieldInt(value: nat, width: nat)
      requires Valid()
      modifies this
      ensures Valid() && ciphertextSize == old(ciphertextSize) + width
      ensures tooSmall <==> capacity < ciphertextSize
      ensures !tooSmall ==> buffer == old(buffer) + BigEndian(value, width)
    {
      ciphertextSize := ciphertextSize + width;
      if !tooSmall {
        if capacity - |buffer| < width {
          tooSmall := true;
        } else {
          buffer := buffer + BigEndian(value, width);
        }
      }
    }

    /** Reserves room without filling it. */
    method FieldSized(size: nat) returns (at: nat)
      requires Valid()
      modifies this
      ensures Valid() && ciphertextSize == old(ciphertextSize) + size
      ensures tooSmall <==> capacity < ciphertextSize
      ensures !tooSmall ==> at == |old(buffer)| && buffer == old(buffer) + Zeros(size)
    {
      ciphertextSize := ciphertextSize + size;
      at := |buffer|;
      if capacity - |buffer| >= size {
        buffer := buffer + Zeros(size);
      } else {
        tooSmall := true;
      }
    }
  }

  /** A frame whose caller-filled fields are still blank. */
  function BlankFrame(kind: FrameKind, seqno: nat, n: nat): Frame {
    Frame(kind, seqno, Zeros(IV_LEN), Zeros(n), Zeros(TAG_LEN))
  }

  /** Lays a frame out in `capacity` octets of room. */
  method SerializeFrame(kind: FrameKind, seqno: nat, n: nat, capacity: nat, unset: nat)
    returns (result: WriteResult, ciphertextSize: nat, layout: Layout, buffer: Octets)
    ensures result == WriteVerdict(kind, seqno, n, capacity)
    ensures ciphertextSize == WriteSize(kind, seqno, n, unset)
    ensures result.WriteOk? ==> layout == LayoutOf(kind, n) && buffer == EncodeFrame(BlankFrame(kind, seqno, n))
  {
    hide BigEndian, Zeros;
    layout, buffer := LayoutOf(kind, n), [];
    if (kind.SingleBlock? && n > MAX_UNFRAMED_PLAINTEXT_SIZE) || (!kind.SingleBlock? && n > MAX_FRAME_SIZE) {
      return WriteLimitExceeded, unset, layout, buffer;
    }
    var state := new FrameWriter(capacity);
    var ivAt, ciphertextAt, tagAt;
    match kind {
      case SingleBlock =>
        ivAt := state.FieldSized(IV_LEN);
        state.FieldInt(n, 8);
        if n >= MAX_UNFRAMED_PLAINTEXT_SIZE {
          return WriteBad, state.ciphertextSize, layout, buffer;
        }
        ciphertextAt := state.FieldSized(n);
        tagAt := state.FieldSized(TAG_LEN);
      case BodyFrame =>
        if seqno == LAST_FRAME_MARK {
          return WriteLimitExceeded, state.ciphertextSize, layout, buffer;
        }
        state.FieldInt(seqno, 4);
        ivAt := state.FieldSized(IV_LEN);
        ciphertextAt := state.FieldSized(n);
        tagAt := state.FieldSized(TAG_LEN);
      case FinalFrame =>
        state.FieldInt(LAST_FRAME_MARK, 4);
        state.FieldInt(seqno, 4);
        ivAt := state.FieldSized(IV_LEN);
        state.FieldInt(n, 4);
        ciphertextAt := state.FieldSized(n);
        tagAt := state.FieldSized(TAG_LEN);
    }
    ciphertextSize := state.ciphertextSize;
    if state.tooSmall {
      result := WriteShort;
    } else {
      result, layout, buffer := WriteOk, Layout(ivAt, ciphertextAt, tagAt), state.buffer;
    }
  }

  function Overwrite(buffer: Octets, at: nat, bytes: Octets): Octets
    requires at + |bytes| <= |buffer|
  {
    buffer[..at] + bytes + buffer[at + |bytes|..]
  }

  /** Filling the three reserved fields of a blank frame yields the encoded frame. */
  lemma FilledFrame(kind: FrameKind, seqno: nat, iv: Octets, ciphertext: Octets, tag: Octets)
    requires |iv| == IV_LEN && |tag| == TAG_LEN
    ensures
      var n := |ciphertext|;
      var l := LayoutOf(kind, n);
      var blank := EncodeFrame(BlankFrame(kind, seqno, n));
      && |blank| == Overhead(kind) + n
      && Overwrite(Overwrite(Overwrite(blank, l.ivAt, iv), l.ciphertextAt, ciphertext), l.tagAt, tag)
         == EncodeFrame(Frame(kind, seqno, iv, ciphertext, tag))
  {
    hide EncodeFrame, BigEndian, Zeros, Overwrite;
    var n := |ciphertext|;
    var l := LayoutOf(kind, n);
    var blank := BlankFrame(kind, seqno, n);
    EncodedSize(blank);
    var head, mid := HeadOf(kind, seqno), LengthFieldOf(kind, n);
    EncodedParts(blank);
    EncodedParts(Frame(kind, seqno, iv, ciphertext, tag));
    OverwriteMiddle(head, blank.iv, mid + blank.ciphertext + blank.tag, iv);
    assert head + blank.iv + (mid + blank.ciphertext + blank.tag) == EncodeFrame(blank);
    OverwriteMiddle(head + iv + mid, blank.ciphertext, blank.tag, ciphertext);
    assert head + iv + (mid + blank.ciphertext + blank.tag) == (head + iv + mid) + blank.ciphertext + blank.tag;
    OverwriteMiddle(head + iv + mid + ciphertext, blank.tag, [], tag);
    assert (head + iv + mid + ciphertext) + blank.tag + [] == (head + iv + mid) + ciphertext + blank.tag;
  }

  function HeadOf(kind: FrameKind, seqno: nat): Octets {
    match kind
    case SingleBlock => []
    case BodyFrame => BigEndian(seqno, 4)
    case FinalFrame => BigEndian(LAST_FRAME_MARK, 4) + BigEndian(seqno, 4)
  }

  function LengthFieldOf(kind: FrameKind, n: nat): Octets {
    match kind
    case SingleBlock => BigEndian(n, 8)
    case BodyFrame => []
    case FinalFrame => BigEndian(n, 4)
  }

  lemma EncodedParts(f: Frame)
    ensures EncodeFrame(f) == HeadOf(f.kind, f.seqno) + f.iv + LengthFieldOf(f.kind, |f.ciphertext|) + f.ciphertext + f.tag
  {
  }

  lemma OverwriteMiddle(before: Octets, was: Octets, after: Octets, now: Octets)
    requires |was| == |now|
    ensures Overwrite(before + was + after, |before|, now) == before + now + after
  {
  }

  // ---------- The codec as a whole ----------

  lemma EncodedSize(f: Frame)
    requires |f.iv| == IV_LEN && |f.tag| == TAG_LEN
    ensures |EncodeFrame(f)| == Overhead(f.kind) + |f.ciphertext|
  {
  }

  /** Where the parts of a concatenation sit. */
  lemma PartsInPlace(a: Octets, b: Octets, c: Octets, d: Octets, e: Octets, rest: Octets)
    ensures var s := a + b + c + d + e + rest;
            var (i, j, k, l) := (|a|, |a| + |b|, |a| + |b| + |c|, |a| + |b| + |c| + |d|);
            && s[..i] == a && s[i..j] == b && s[j..k] == c && s[k..l] == d && s[l..l + |e|] == e
  {
  }

  lemma SameSlice(a: Octets, b: Octets, lo: nat, hi: nat)
    requires (a <= b || b <= a) && lo <= hi <= |a| && hi <= |b|
    ensures a[lo..hi] == b[lo..hi]
  {
  }

  /** Where the mark and the length field of an encoded frame sit. */
  lemma EncodedFields(f: Frame)
    requires |f.iv| == IV_LEN && |f.tag| == TAG_LEN
    ensures |EncodeFrame(f)| == Overhead(f.kind) + |f.ciphertext|
    ensures f.kind.SingleBlock? ==> EncodeFrame(f)[12..20] == BigEndian(|f.ciphertext|, 8)
    ensures f.kind.BodyFrame? ==> EncodeFrame(f)[0..4] == BigEndian(f.seqno, 4)
    ensures f.kind.FinalFrame? ==>
      EncodeFrame(f)[0..4] == BigEndian(LAST_FRAME_MARK, 4) && EncodeFrame(f)[20..24] == BigEndian(|f.ciphertext|, 4)
  {
    EncodedParts(f);
    EncodedSize(f);
    PartsInPlace(HeadOf(f.kind, f.seqno), f.iv, LengthFieldOf(f.kind, |f.ciphertext|), f.ciphertext, f.tag, []);
    hide EncodeFrame, BigEndian;
    assert EncodeFrame(f) + [] == EncodeFrame(f);
    if f.kind.FinalFrame? {
      assert EncodeFrame(f)[0..4] == EncodeFrame(f)[..8][..4];
    }
  }

  /** Every stretch of input that starts like an encoded frame shows the frame's kind and length in time. */
  lemma EncodedPrefixShows(f: Frame, maxFrame: nat, input: Octets)
    requires WellFormed(f, maxFrame)
    requires input <= EncodeFrame(f) || EncodeFrame(f) <= input
    ensures (maxFrame == 0 || |input| >= 4) ==> KindShown(input, maxFrame) == f.kind
    ensures KindShown(input, maxFrame) == f.kind && |input| >= SizeBeforeLengthCheck(f.kind) ==>
              LengthShown(input, maxFrame) == |f.ciphertext|
  {
    hide EncodeFrame, BigEndian, FromBigEndian;
    var e := EncodeFrame(f);
    var n := |f.ciphertext|;
    RadixValues();
    EncodedFields(f);
    if |input| >= 4 {
      SameSlice(input, e, 0, 4);
      assert input[..4] == input[0..4];
    }
    match f.kind {
      case SingleBlock =>
        BigEndianRoundTrip(n, 8);
        if |input| >= 20 {
          SameSlice(input, e, 12, 20);
        }
      case BodyFrame =>
        BigEndianRoundTrip(f.seqno, 4);
      case FinalFrame =>
        BigEndianRoundTrip(LAST_FRAME_MARK, 4);
        BigEndianRoundTrip(n, 4);
        if |input| >= 24 {
          SameSlice(input, e, 20, 24);
        }
    }
  }

  lemma CutsEncodedFrame(f: Frame, maxFrame: nat, rest: Octets)
    requires WellFormed(f, maxFrame)
    ensures |EncodeFrame(f) + rest| >= Overhead(f.kind) + |f.ciphertext|
    ensures CutFrame(EncodeFrame(f) + rest, f.kind, |f.ciphertext|) == f
  {
    var input := EncodeFrame(f) + rest;
    EncodedParts(f);
    PartsInPlace(HeadOf(f.kind, f.seqno), f.iv, LengthFieldOf(f.kind, |f.ciphertext|), f.ciphertext, f.tag, rest);
    if !f.kind.SingleBlock? {
      RadixValues();
      BigEndianRoundTrip(f.seqno, 4);
      hide EncodeFrame, BigEndian, FromBigEndian;
      if f.kind.FinalFrame? {
        assert input[4..8] == input[..8][4..] == BigEndian(f.seqno, 4);
      }
    }
  }

  /** Reading inverts writing, whatever follows the frame. */
  lemma FrameRoundTrip(f: Frame, maxFrame: nat, rest: Octets)
    requires WellFormed(f, maxFrame)
    ensures DeserializeFrame(EncodeFrame(f) + rest, maxFrame)
         == Read(ReadOk(f, |EncodeFrame(f)|), |EncodeFrame(f)|, |f.ciphertext|)
  {
    EncodedSize(f);
    EncodedPrefixShows(f, maxFrame, EncodeFrame(f) + rest);
    CutsEncodedFrame(f, maxFrame, rest);
  }

  /** A strict prefix of a frame is short, never malformed, and the reported size exceeds what was offered. */
  lemma FramePrefixIsShort(f: Frame, maxFrame: nat, k: nat)
    requires WellFormed(f, maxFrame) && k < |EncodeFrame(f)|
    ensures var r := DeserializeFrame(EncodeFrame(f)[..k], maxFrame);
            r.result.ReadShort? && k < r.ciphertextSize
  {
    EncodedSize(f);
    EncodedPrefixShows(f, maxFrame, EncodeFrame(f)[..k]);
  }

  /** When the size reported for a strict prefix is a lower bound on the real one, and when it is exact. */
  lemma PrefixEstimate(f: Frame, maxFrame: nat, k: nat)
    requires WellFormed(f, maxFrame) && k < |EncodeFrame(f)|
    ensures var reported := DeserializeFrame(EncodeFrame(f)[..k], maxFrame).ciphertextSize;
            && (reported <= |EncodeFrame(f)| <==> k >= 4 || !f.kind.FinalFrame? || maxFrame <= |f.ciphertext| + 8)
            && (k >= SizeBeforeLengthCheck(f.kind) ==> reported == |EncodeFrame(f)|)
  {
    EncodedSize(f);
    EncodedPrefixShows(f, maxFrame, EncodeFrame(f)[..k]);
  }

  /** Whatever a read accepts is the encoding of the frame it returns. */
  lemma AcceptedFrameIsEncoded(input: Octets, maxFrame: nat)
    requires maxFrame <= MAX_FRAME_SIZE && DeserializeFrame(input, maxFrame).result.ReadOk?
    ensures var r := DeserializeFrame(input, maxFrame);
            && WellFormed(r.result.frame, maxFrame)
            && r.result.consumed == r.ciphertextSize == |EncodeFrame(r.result.frame)| <= |input|
            && r.plaintextSize == |r.result.frame.ciphertext|
            && EncodeFrame(r.result.frame) == input[..r.result.consumed]
  {
    var r := DeserializeFrame(input, maxFrame);
    var f, n := r.result.frame, r.plaintextSize;
    RadixValues();
    match f.kind {
      case SingleBlock =>
        BigEndianOfFrom(input[12..20]);
      case BodyFrame =>
        BigEndianOfFrom(input[..4]);
        FromBigEndianBound(input[..4]);
      case FinalFrame =>
        BigEndianOfFrom(input[..4]);
        BigEndianOfFrom(input[4..8]);
        FromBigEndianBound(input[4..8]);
        BigEndianOfFrom(input[20..24]);
    }
    AcceptedPieces(input, f.kind, n);
  }

  lemma AcceptedPieces(input: Octets, kind: FrameKind, n: nat)
    requires |input| >= Overhead(kind) + n
    ensures match kind
            case SingleBlock => input[..36 + n] == input[..12] + input[12..20] + input[20..20 + n] + input[20 + n..36 + n]
            case BodyFrame => input[..32 + n] == input[..4] + input[4..16] + input[16..16 + n] + input[16 + n..32 + n]
            case FinalFrame =>
              input[..40 + n]
              == input[..4] + input[4..8] + input[8..20] + input[20..24] + input[24..24 + n] + input[24 + n..40 + n]
  {
  }

  /** More input never overturns an accepted or a rejected frame. */
  lemma FrameReadStable(input: Octets, more: Octets, maxFrame: nat)
    requires !DeserializeFrame(input, maxFrame).result.ReadShort?
    ensures DeserializeFrame(input + more, maxFrame) == DeserializeFrame(input, maxFrame)
  {
    var whole := input + more;
    if |input| >= 4 {
      assert whole[..4] == input[..4];
    }
    if |input| >= 20 {
      assert whole[12..20] == input[12..20];
    }
    if |input| >= 24 {
      assert whole[20..24] == input[20..24];
    }
    var r := DeserializeFrame(input, maxFrame);
    if r.result.ReadOk? {
      CutStable(input, more, r.result.frame.kind, r.plaintextSize);
    }
  }

  lemma CutStable(input: Octets, more: Octets, kind: FrameKind, n: nat)
    requires |input| >= Overhead(kind) + n
    ensures CutFrame(input + more, kind, n) == CutFrame(input, kind, n)
  {
    var whole := input + more;
    match kind {
      case SingleBlock =>
        assert whole[..12] == input[..12] && whole[20..20 + n] == input[20..20 + n];
        assert whole[20 + n..36 + n] == input[20 + n..36 + n];
      case BodyFrame =>
        assert whole[..4] == input[..4] && whole[4..16] == input[4..16];
        assert whole[16..16 + n] == input[16..16 + n] && whole[16 + n..32 + n] == input[16 + n..32 + n];
      case FinalFrame =>
        assert whole[4..8] == input[4..8] && whole[8..20] == input[8..20];
        assert whole[24..24 + n] == input[24..24 + n] && whole[24 + n..40 + n] == input[24 + n..40 + n];
    }
  }
}
