/**
 * The arithmetic of the file-to-file entry point: the frame count asked
 * for on every read, how a short read ends the run, and the read loop
 * itself over a reader that behaves as an audio file does.
 */
module FilePipeline {
  import opened Ints
  import opened Wrappers
  import opened FrameSizing
  import opened FormatNegotiation

  /** Swift `UInt32(x)` for a `Double`: rounds toward zero and traps (`None`) when the result does not fit. */
  function ToUInt32(x: real): (r: Option<u32>)
    ensures r.Some? <==> -1.0 < x < 4294967296.0
    ensures r.Some? && x >= 0.0 ==> r.value as real <= x < r.value as real + 1.0
    ensures r.Some? && x < 0.0 ==> r.value == 0
  {
    if -1.0 < x < 4294967296.0 then Some(if x >= 0.0 then x.Floor else 0) else None
  }

  /** Frames asked for on each read: `UInt32(mSampleRate / 100)`, 10 ms of audio. */
  function FramesPerRead(sampleRate: real): (frames: Option<u32>)
    ensures frames.Some? <==> -100.0 < sampleRate < 429496729600.0
    ensures frames.Some? && sampleRate >= 0.0 ==>
      frames.value as real * 100.0 <= sampleRate < frames.value as real * 100.0 + 100.0
  {
    ToUInt32(sampleRate / 100.0)
  }

  /**
   * Reading 10 ms at the file's rate asks for as many frames as the
   * suppressor's frame size counts: dividing the `Double` rate by 100 and
   * truncating agrees with truncating the rate and dividing the integer.
   */
  lemma FramesPerReadIsTenMilliseconds(sampleRate: real)
    requires sampleRate >= 0.0 && ToUInt32(sampleRate).Some?
    ensures FramesPerRead(sampleRate) == Some(ToUInt32(sampleRate).value / 100)
  {
    var f := ToUInt32(sampleRate).value;
    var q := f / 100;
    DivMod(f, 100);
    assert q as real * 100.0 <= sampleRate < q as real * 100.0 + 100.0;
    assert q as real <= sampleRate / 100.0 < q as real + 1.0;
    assert (sampleRate / 100.0).Floor == q;
  }

  /**
   * For a format whose samples are whole bytes, one full read
   * (`inNumberFrames * mBytesPerFrame` bytes) is exactly one frame of the
   * suppressor built from that format, so `handle` always gets 10 ms.
   */
  lemma FullReadIsOneFrame(d: StreamDescription)
    requires d.sampleRate >= 0.0 && ToUInt32(d.sampleRate).Some?
    requires d.channelsPerFrame < 0x8000_0000 && d.bitsPerChannel % 8 == 0
    requires d.bytesPerFrame == d.bitsPerChannel / 8 * d.channelsPerFrame
    ensures FramesPerRead(d.sampleRate).Some?
    ensures FramesPerRead(d.sampleRate).value * d.bytesPerFrame
         == FrameBytes(ToUInt32(d.sampleRate).value, d.channelsPerFrame, d.bitsPerChannel)
  {
    FramesPerReadIsTenMilliseconds(d.sampleRate);
    FrameBytesWholeSamples(ToUInt32(d.sampleRate).value, d.channelsPerFrame, d.bitsPerChannel);
  }

  /** Every negotiated format with whole-byte samples (the 32-bit default among them) reads one frame at a time. */
  lemma NegotiatedReadIsOneFrame(d: StreamDescription)
    requires NegotiationFits(d) && d.bitsPerChannel % 8 == 0 && d.channelsPerFrame < 0x8000_0000
    ensures var c := Negotiate(d);
      ToUInt32(c.sampleRate).Some? && FramesPerRead(c.sampleRate).Some?
      && FramesPerRead(c.sampleRate).value * c.bytesPerFrame
         == FrameBytes(ToUInt32(c.sampleRate).value, c.channelsPerFrame, c.bitsPerChannel)
  {
    FullReadIsOneFrame(Negotiate(d));
  }

  /**
   * With samples that are not whole bytes the two sizes differ: at
   * 16000 Hz, mono, 12 bits a read holds 160 bytes but a frame is 240.
   */
  lemma PartialByteSamplesMismatch(d: StreamDescription)
    requires d.formatId != LinearPCM && d.sampleRate == 16000.0
    requires d.channelsPerFrame == 1 && d.bitsPerChannel == 12
    ensures NegotiationFits(d)
    ensures FramesPerRead(Negotiate(d).sampleRate) == Some(160)
    ensures FramesPerRead(Negotiate(d).sampleRate).value * Negotiate(d).bytesPerFrame == 160
    ensures FrameBytes(16000, 1, 12) == 240
  {
    assert (16000.0 / 100.0).Floor == 160;
  }

  /** What the loop does after a read that did not fail. */
  datatype ReadStep = Continue | Finish(success: bool)

  /**
   * A read returning fewer frames than asked for ends the run; the run has
   * succeeded exactly when that short read brings the offset to the
   * file's total frame count. A full read continues the loop.
   */
  function AfterRead(requested: u32, got: u32, offset: int, total: int): (step: ReadStep)
    ensures step == Continue <==> got == requested
    ensures step == Finish(true) <==> got != requested && offset + got == total
    ensures step == Finish(false) <==> got != requested && offset + got != total
  {
    if got == requested then Continue else Finish(offset + got == total)
  }

  /**
   * The read loop of the file entry point, for a file of `total` frames
   * whose reads never fail and return `min(requested, frames left)`
   * frames, and whose position advances by the frames read. `written`
   * lists the frame counts passed to `handle` and the writer. The run
   * always succeeds, every written chunk is a full 10 ms read, and a
   * final short read is not written: `total % requested` frames are
   * dropped. A request of zero frames would loop forever.
   */
  method ReadLoop(total: nat, requested: u32) returns (success: bool, written: seq<nat>)
    requires requested > 0
    ensures success
    ensures forall i | 0 <= i < |written| :: written[i] == requested
    ensures |written| == total / requested
    ensures |written| * requested == total - total % requested
  {
    var offset := 0;
    var ioNumberFrames: u32 := requested;
    written := [];
    while offset < total
      invariant offset == |written| * requested <= total
      invariant ioNumberFrames == requested
      invariant forall i | 0 <= i < |written| :: written[i] == requested
      decreases total - offset
    {
      ioNumberFrames := if total - offset < ioNumberFrames then total - offset else ioNumberFrames;
      var step := AfterRead(requested, ioNumberFrames, offset, total);
      if step.Finish? {
        DivModUnique(total, requested, |written|, ioNumberFrames);
        DivMod(total, requested);
        return step.success, written;
      }
      written := written + [ioNumberFrames];
      offset := offset + ioNumberFrames;
    }
    DivModUnique(total, requested, |written|, 0);
    success := true;
  }
}
