/**
 * The byte length of one 10 ms frame, `handleBytesCount`, computed in the
 * initialiser of the wrapper class from its sample rate, channel count and
 * bits per sample.
 */
module FrameSizing {
  import opened Ints

  /**
   * `Int(sampleRate) / 100 * Int(channels) * Int(bitsPer) / 8`, evaluated
   * left to right with Swift's truncating division.
   */
  function FrameBytes(sampleRate: u32, channels: i32, bitsPer: u32): (bytes: int)
    ensures var bits := sampleRate / 100 * channels * bitsPer;
      && (bits >= 0 ==> 0 <= bytes && bytes * 8 <= bits < bytes * 8 + 8)
      && (bits < 0 ==> bytes <= 0 && bytes * 8 - 8 < bits <= bytes * 8)
  {
    TruncDiv(sampleRate / 100 * channels * bitsPer, 8)
  }

  /** Every intermediate product of `FrameBytes` fits a Swift `Int`; otherwise Swift traps. */
  predicate FrameBytesFits(sampleRate: u32, channels: i32, bitsPer: u32) {
    InInt64(sampleRate / 100 * channels) && InInt64(sampleRate / 100 * channels * bitsPer)
  }

  /** With a non-negative channel count the size is `(frames per 10 ms × channels × bits) / 8`, rounded down, and never negative. */
  lemma FrameBytesNonNegative(sampleRate: u32, channels: i32, bitsPer: u32)
    requires channels >= 0
    ensures FrameBytes(sampleRate, channels, bitsPer) == (sampleRate / 100 * channels * bitsPer) / 8 >= 0
  {
    var p := sampleRate / 100 * channels;
    assert p >= 0;
    assert p * bitsPer >= 0;
  }

  /**
   * When samples are whole bytes, the frame is exactly
   * `sampleRate / 100` sample frames of `channels × bitsPer / 8` bytes each.
   */
  lemma FrameBytesWholeSamples(sampleRate: u32, channels: i32, bitsPer: u32)
    requires channels >= 0 && bitsPer % 8 == 0
    ensures FrameBytes(sampleRate, channels, bitsPer) == sampleRate / 100 * (bitsPer / 8 * channels)
  {
    var f := sampleRate / 100;
    var m := bitsPer / 8;
    assert bitsPer == 8 * m;
    assert f * channels * bitsPer == (f * (m * channels)) * 8;
    FrameBytesNonNegative(sampleRate, channels, bitsPer);
  }

  /** Sizes for the narrowband rates the engine supports. */
  lemma FrameBytesExamples()
    ensures FrameBytes(16000, 1, 16) == 320
    ensures FrameBytes(8000, 1, 16) == 160
    ensures FrameBytes(48000, 2, 16) == 1920
    ensures FrameBytes(32000, 2, 32) == 2560
    ensures FrameBytes(44100, 1, 16) == 882
  {
  }
}
