/** The octets and the plaintext of a sequence of frames. */
module BodyTrace {
  import opened Bytes
  import opened FrameFormat
  import opened SessionModel

  function FramesOctets(frames: seq<Passed>): Octets {
    if |frames| == 0 then [] else FramesOctets(frames[..|frames| - 1]) + EncodeFrame(frames[|frames| - 1].frame)
  }

  function Plains(frames: seq<Passed>): Octets {
    if |frames| == 0 then [] else Plains(frames[..|frames| - 1]) + frames[|frames| - 1].plain
  }

  lemma AppendFrame(frames: seq<Passed>, x: Passed)
    ensures FramesOctets(frames + [x]) == FramesOctets(frames) + EncodeFrame(x.frame)
    ensures Plains(frames + [x]) == Plains(frames) + x.plain
  {
    hide EncodeFrame;
    assert (frames + [x])[..|frames|] == frames;
  }

  /** Header and frames: the octets a trailing signature covers. */
  function MessageOctets(s: Session): Octets {
    s.headerCopy + FramesOctets(s.hist.frames)
  }

  lemma AppendToMessage(copy: Octets, frames: seq<Passed>, x: Passed)
    ensures copy + FramesOctets(frames + [x]) == (copy + FramesOctets(frames)) + EncodeFrame(x.frame)
  {
    AppendFrame(frames, x);
    assert copy + (FramesOctets(frames) + EncodeFrame(x.frame)) == (copy + FramesOctets(frames)) + EncodeFrame(x.frame);
  }
}
