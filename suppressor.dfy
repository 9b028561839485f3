/**
 * The wrapper object around one fixed-point noise-suppression instance:
 * its initialiser, the 10 ms `handle` call, the streaming
 * `automaticHandle` buffer and `close`.
 */
module Suppressor {
  import opened Ints
  import opened FrameSizing
  import opened Chunking

  /** Suppression level; its raw value is the policy mode given to the engine. */
  datatype Level = Low | Medium | High | VeryHigh {
    function Mode(): (m: int)
      ensures 0 <= m <= 3
    {
      match this
      case Low => 0
      case Medium => 1
      case High => 2
      case VeryHigh => 3
    }
  }

  /**
   * One instance of the fixed-point suppressor behind its C interface
   * (create, init, set_policy, process, free). Its signal processing is
   * not modelled: `Process` promises only to fill an output of the input's
   * length. The ghost logs record every frame handed in and every frame
   * handed back, so that the callers' chunking can be stated. When `echo`
   * is set the instance returns its input unchanged (an identity engine).
   */
  class Engine {
    const echo: bool
    var live: bool
    var sampleRate: u32
    var policy: int
    ghost var inputs: seq<seq<bv8>>
    ghost var outputs: seq<seq<bv8>>

    /** Every call so far returned an output of its input's length. */
    ghost predicate Valid()
      reads this
    {
      && |inputs| == |outputs|
      && (forall i | 0 <= i < |inputs| :: |outputs[i]| == |inputs[i]|)
      && (echo ==> outputs == inputs)
    }

    /** `WebRtcNsx_Create`. */
    constructor (echo: bool)
      ensures this.echo == echo && live && Valid()
      ensures inputs == [] && outputs == []
    {
      this.echo := echo;
      live := true;
      sampleRate := 0;
      policy := 0;
      inputs := [];
      outputs := [];
    }

    /** `WebRtcNsx_Init`: fixes the sample rate the instance works at. */
    method Init(fs: u32)
      requires live
      modifies this`sampleRate
      ensures sampleRate == fs
    {
      sampleRate := fs;
    }

    /** `WebRtcNsx_set_policy`. */
    method SetPolicy(mode: int)
      requires live
      modifies this`policy
      ensures policy == mode
    {
      policy := mode;
    }

    /**
     * `WebRtcNsx_Process`: suppresses one frame, writing the result into
     * `output` in place; `numBands` is passed through as given.
     */
    method Process(input: seq<bv8>, numBands: i32, output: array<bv8>)
      requires Valid() && live && output.Length == |input|
      modifies this`inputs, this`outputs, output
      ensures Valid()
      ensures inputs == old(inputs) + [input]
      ensures outputs == old(outputs) + [output[..]]
      ensures echo ==> output[..] == input
    {
      if echo {
        forall i | 0 <= i < output.Length {
          output[i] := input[i];
        }
      }
      assert echo ==> output[..] == input;
      inputs := inputs + [input];
      outputs := outputs + [output[..]];
    }

    /** `WebRtcNsx_Free`. */
    method Free()
      requires live
      modifies this`live
      ensures !live
    {
      live := false;
    }
  }

  /** The Swift wrapper class: a live engine, its frame size and the streaming buffer. */
  class NoiseSuppressor {
    const sampleRate: u32
    const bitsPer: u32
    const channels: i32
    const handleBytesCount: int
    const level: Level
    const nsx: Engine
    var buffer: seq<bv8>

    ghost predicate Valid()
      reads this, nsx
    {
      nsx.live && nsx.Valid()
    }

    constructor (sampleRate: u32, bitsPer: u32, channels: i32, level: Level, nsx: Engine)
      requires FrameBytesFits(sampleRate, channels, bitsPer)
      ensures this.sampleRate == sampleRate && this.bitsPer == bitsPer
      ensures this.channels == channels && this.level == level && this.nsx == nsx
      ensures handleBytesCount == FrameBytes(sampleRate, channels, bitsPer)
      ensures buffer == []
    {
      this.sampleRate := sampleRate;
      this.bitsPer := bitsPer;
      this.channels := channels;
      this.level := level;
      handleBytesCount := FrameBytes(sampleRate, channels, bitsPer);
      this.nsx := nsx;
      buffer := [];
    }

    /**
     * The failable initialiser `init?`: creates an engine, initialises it
     * at `sampleRate` and sets the policy from `level`. `initStatus` and
     * `policyStatus` are what the engine's init and set_policy calls
     * return; a nonzero status frees the engine and yields nil.
     */
    static method Open(sampleRate: u32, bitsPer: u32, channels: i32, level: Level,
                       echo: bool, initStatus: int, policyStatus: int)
      returns (s: NoiseSuppressor?)
      requires FrameBytesFits(sampleRate, channels, bitsPer)
      ensures (s != null) <==> initStatus == 0 && policyStatus == 0
      ensures s != null ==> fresh(s) && fresh(s.nsx) && s.Valid() && s.buffer == []
      ensures s != null ==> s.sampleRate == sampleRate && s.bitsPer == bitsPer && s.channels == channels
      ensures s != null ==> s.level == level
      ensures s != null ==> s.handleBytesCount == FrameBytes(sampleRate, channels, bitsPer)
      ensures s != null ==> s.nsx.sampleRate == sampleRate && s.nsx.policy == level.Mode()
      ensures s != null ==> s.nsx.echo == echo && s.nsx.inputs == [] && s.nsx.outputs == []
    {
      var nsx := new Engine(echo);
      nsx.Init(sampleRate);
      if initStatus != 0 {
        nsx.Free();
        return null;
      }
      nsx.SetPolicy(level.Mode());
      if policyStatus != 0 {
        nsx.Free();
        return null;
      }
      s := new NoiseSuppressor(sampleRate, bitsPer, channels, level, nsx);
    }

    /**
     * `handle`: copies `bytes` into a fresh output array of the same
     * length and lets the engine overwrite it in place.
     */
    method Handle(bytes: seq<bv8>) returns (outBytes: seq<bv8>)
      requires Valid()
      modifies nsx`inputs, nsx`outputs
      ensures Valid()
      ensures |outBytes| == |bytes|
      ensures nsx.inputs == old(nsx.inputs) + [bytes]
      ensures nsx.outputs == old(nsx.outputs) + [outBytes]
      ensures nsx.echo ==> outBytes == bytes
    {
      var out := new bv8[|bytes|](i requires 0 <= i < |bytes| => bytes[i]);
      nsx.Process(bytes, channels, out);
      outBytes := out[..];
    }

    /**
     * `automaticHandle`: appends `bytes` to the buffer, hands every whole
     * `handleBytesCount`-byte frame of it, front to back, to `Handle`,
     * returns the concatenated results and keeps the leftover bytes.
     * With a frame size of zero the source loops forever and with a
     * negative one it traps, hence the precondition.
     */
    method AutomaticHandle(bytes: seq<bv8>) returns (outBytes: seq<bv8>)
      requires Valid() && handleBytesCount > 0
      modifies this`buffer, nsx`inputs, nsx`outputs
      ensures Valid()
      ensures var s, n := old(buffer) + bytes, handleBytesCount;
        && nsx.inputs == old(nsx.inputs) + FullFrames(s, n)
        && |nsx.inputs| == |old(nsx.inputs)| + |s| / n
        && |nsx.outputs| == |nsx.inputs| && nsx.outputs[..|old(nsx.outputs)|] == old(nsx.outputs)
        && outBytes == Flatten(nsx.outputs[|old(nsx.outputs)|..])
        && |outBytes| == |s| / n * n
        && buffer == Remainder(s, n)
        && |buffer| == |s| % n < n
        && (nsx.echo ==> outBytes + buffer == s)
    {
      outBytes := [];
      buffer := buffer + bytes;
      var start := 0;
      var end := handleBytesCount;
      ghost var s, n := buffer, handleBytesCount;
      ghost var in0, out0 := nsx.inputs, nsx.outputs;
      ghost var outs: seq<seq<bv8>> := [];
      ghost var ins: seq<seq<bv8>> := [];
      while |buffer| >= end
        invariant buffer == s && end == start + n
        invariant Valid()
        invariant Scanned(s, n, start, ins)
        invariant nsx.inputs == in0 + ins
        invariant nsx.outputs == out0 + outs
        invariant outBytes == Flatten(outs) && |outBytes| == start
        invariant |outs| == |ins| && (nsx.echo ==> outs == ins)
        decreases |s| - start
      {
        FrameStep(s, n, start, ins);
        var handleBytes := buffer[start..end];
        var r := Handle(handleBytes);
        FlattenSnoc(outs, r);
        outBytes := outBytes + r;
        outs := outs + [r];
        ins := ins + [handleBytes];
        start := end;
        end := end + handleBytesCount;
      }
      ghost var rest := buffer[start..];
      if start == |buffer| {
        buffer := [];
      } else {
        buffer := buffer[start..|buffer|];
      }
      LoopExit(s, n, start, ins, outs, outBytes, rest, out0, nsx.echo);
    }

    /** `close`: frees the engine. */
    method Close()
      requires Valid()
      modifies nsx`live
      ensures !nsx.live
    {
      nsx.Free();
    }
  }

  /**
   * A client of the streaming buffer over an identity engine: feeding `a`
   * and then `b` returns, in order, the whole frames of `a + b` and keeps
   * the same remainder, however the stream is cut into calls.
   */
  method StreamInTwoChunks(sampleRate: u32, bitsPer: u32, channels: i32, level: Level,
                           a: seq<bv8>, b: seq<bv8>)
    returns (first: seq<bv8>, second: seq<bv8>, rest: seq<bv8>)
    requires FrameBytesFits(sampleRate, channels, bitsPer) && FrameBytes(sampleRate, channels, bitsPer) > 0
    ensures var n := FrameBytes(sampleRate, channels, bitsPer);
      && first + second == Flatten(FullFrames(a + b, n))
      && rest == Remainder(a + b, n)
      && |first| == |a| / n * n
  {
    var n := FrameBytes(sampleRate, channels, bitsPer);
    var s := NoiseSuppressor.Open(sampleRate, bitsPer, channels, level, true, 0, 0);
    first := s.AutomaticHandle(a);
    ghost var middle := s.buffer;
    assert [] + a == a;
    second := s.AutomaticHandle(b);
    rest := s.buffer;
    TwoChunks(a, b, n, first, middle, second, rest);
  }

  /** Two calls of the buffer loop, seen as sequences: together they do what one call on `a + b` does. */
  lemma TwoChunks<T>(a: seq<T>, b: seq<T>, n: nat, first: seq<T>, middle: seq<T>, second: seq<T>, rest: seq<T>)
    requires n > 0
    requires first + middle == a && middle == Remainder(a, n)
    requires second + rest == middle + b && rest == Remainder(middle + b, n)
    ensures first + second == Flatten(FullFrames(a + b, n))
    ensures rest == Remainder(a + b, n)
  {
    BeforeRemainder(first, a, n);
    BeforeRemainder(second, middle + b, n);
    Streaming(a, b, n);
    FlattenAppend(FullFrames(a, n), FullFrames(middle + b, n));
  }

  /**
   * The buffer loop's progress: the frames handed over so far are the
   * first frames of `s`, and those still to come and the remainder are
   * those of the rest from `start` on.
   */
  ghost predicate Scanned<T>(s: seq<T>, n: nat, start: nat, done: seq<seq<T>>) {
    && n > 0 && start <= |s|
    && FullFrames(s, n) == done + FullFrames(s[start..], n)
    && Remainder(s[start..], n) == Remainder(s, n)
  }

  /** One turn of the buffer loop: with a whole frame left at `start`, that slice is the next frame. */
  lemma FrameStep<T>(s: seq<T>, n: nat, start: nat, done: seq<seq<T>>)
    requires Scanned(s, n, start, done) && start + n <= |s|
    ensures Scanned(s, n, start + n, done + [s[start..start + n]])
    ensures s[..start] + s[start..start + n] == s[..start + n]
  {
    assert s[start..][..n] == s[start..start + n];
    assert s[start..][n..] == s[start + n..];
    assert FullFrames(s[start..], n) == [s[start..start + n]] + FullFrames(s[start + n..], n);
  }

  /** The buffer loop's exit: what it handed over and what it keeps, in terms of `FullFrames` and `Remainder`. */
  lemma LoopExit<T>(s: seq<T>, n: nat, start: nat, ins: seq<seq<T>>, outs: seq<seq<T>>, outBytes: seq<T>,
                    rest: seq<T>, out0: seq<seq<T>>, echo: bool)
    requires Scanned(s, n, start, ins) && |s| < start + n && rest == s[start..]
    requires outBytes == Flatten(outs) && |outBytes| == start && |outs| == |ins|
    requires echo ==> outs == ins
    ensures FullFrames(s, n) == ins && |ins| == |s| / n
    ensures rest == Remainder(s, n) && |rest| == |s| % n < n
    ensures |outBytes| == |s| / n * n
    ensures (out0 + outs)[..|out0|] == out0 && (out0 + outs)[|out0|..] == outs
    ensures echo ==> outBytes + rest == s
  {
    RestIsRemainder(s, start, n, ins);
    assert (out0 + outs)[|out0|..] == outs;
    if echo {
      Conservation(s, n);
    }
  }

  /** Less than a frame from `start` on: no frames remain and what is left is the remainder itself. */
  lemma RestIsRemainder<T>(s: seq<T>, start: nat, n: nat, done: seq<seq<T>>)
    requires Scanned(s, n, start, done) && |s| < start + n
    ensures FullFrames(s, n) == done && Remainder(s, n) == s[start..]
    ensures |done| == |s| / n && start == |s| / n * n && |s| - start == |s| % n
  {
    FrameCount(s, n);
    DivMod(|s|, n);
    assert FullFrames(s[start..], n) == [];
    assert done + [] == done;
  }
}
