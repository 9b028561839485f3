# WebRTCNS wrapper — a Dafny model

This project models the logic of `WebRTCNSSwift`, the Swift wrapper around
WebRTC's fixed-point noise suppressor (`WebRtcNsx_*`). The wrapper
suppresses noise in 10 ms frames of linear PCM. It has three parts:

- **Frame sizing.** The initialiser computes `handleBytesCount`, the byte
  length of 10 ms of audio, as
  `Int(sampleRate) / 100 * Int(channels) * Int(bitsPer) / 8`. Swift's
  integer division truncates toward zero (`Ints.TruncDiv`).
- **Streaming buffer.** `automaticHandle` appends incoming bytes to the
  `buffer` field. It hands every whole frame, front to back, to `handle`,
  which passes it to the engine. The leftover bytes stay in `buffer` for
  the next call. This part is the class `Suppressor.NoiseSuppressor`, proved
  against the specification functions of `Chunking`.
- **File processing.** The static `handle(_:outPath:…)` works out a PCM client format
  for a non-PCM file (`FormatNegotiation`). It then reads 10 ms per read and
  ends on a short read (`FilePipeline`).

The engine is the class `Suppressor.Engine`. It stands for
`WebRtcNsx_Create/Init/set_policy/Process/Free`. Its signal processing is
not modelled. `Process` promises only two things: it writes an output as
long as its input, and it logs every frame it receives and returns. The
instance has state, and nothing assumes its output is a function of its
input. When the `echo` constant is set, the engine returns its input
unchanged. That identity engine is used to state byte conservation.

Values the code gets from outside become parameters:
- the status codes returned by `WebRtcNsx_Init` and `WebRtcNsx_set_policy`
  (`initStatus`, `policyStatus`);
- whether the reader accepts the client format (`setClientOk`);
- the converter's optional client format (`client`).

`mSampleRate` is a `Float64`; here it is a `real`, so that its comparisons
with the rate thresholds are exact. A Swift trap is a precondition:
- `Int` overflow in the frame-size formula (`FrameBytesFits`);
- `UInt32` overflow of `mBytesPerFrame` (`NegotiationFits`).

A `UInt32(Double)` conversion that does not fit returns `None`
(`FilePipeline.ToUInt32`).

`handle` passes the whole frame and the channel count to
`WebRtcNsx_Process` in one call.

## Model

| member | source | states |
|---|---|---|
| `Ints.TruncDiv` | Sources/WebRTCNSSwift/WebRTCNSSwift.swift:260 | Swift's signed `/` by a positive divisor: the quotient rounds toward zero, `q*b` lies within one divisor of `a` on `a`'s side of zero |
| `FrameSizing.FrameBytes` | Sources/WebRTCNSSwift/WebRTCNSSwift.swift:260 | `handleBytesCount` is the product `rate/100·channels·bits` divided by 8 with the truncation of Swift's `/`: eight times the result lies within 8 of the product, on the product's side of zero |
| `FrameSizing.FrameBytesNonNegative` | Sources/WebRTCNSSwift/WebRTCNSSwift.swift:260 | with a non-negative channel count the frame size is never negative and equals `((rate/100)·channels·bits)/8` rounded down |
| `FrameSizing.FrameBytesWholeSamples` | Sources/WebRTCNSSwift/WebRTCNSSwift.swift:260 | when bits are a multiple of 8 the frame is exactly `rate/100` sample frames of `bits/8·channels` bytes |
| `FrameSizing.FrameBytesExamples` | Sources/WebRTCNSSwift/WebRTCNSSwift.swift:319-320 | 16000 Hz mono 16-bit gives 320 bytes; 8000/1/16 gives 160, 48000/2/16 gives 1920, 32000/2/32 gives 2560, 44100/1/16 gives 882 |
| `Chunking.FullFrames` | Sources/WebRTCNSSwift/WebRTCNSSwift.swift:294-302 | the frames taken from a stream, front to back; every one has exactly the frame length, so no partial frame is produced |
| `Chunking.Remainder` | Sources/WebRTCNSSwift/WebRTCNSSwift.swift:304-311 | what is left after the whole frames is shorter than one frame and no longer than the stream |
| `Chunking.Conservation` | Sources/WebRTCNSSwift/WebRTCNSSwift.swift:285-314 | the frames joined in order followed by the remainder give back exactly the input stream |
| `Chunking.FrameCount` | Sources/WebRTCNSSwift/WebRTCNSSwift.swift:294-302 | a stream of `m` bytes yields `m / n` frames and a remainder of `m % n` bytes |
| `Chunking.RemainderIsSuffix` | Sources/WebRTCNSSwift/WebRTCNSSwift.swift:304-311 | the remainder is the last `m % n` bytes of the stream |
| `Chunking.FrameAt` | Sources/WebRTCNSSwift/WebRTCNSSwift.swift:296-301 | frame `k` is the slice `[k·n, (k+1)·n)` of the stream, which lies inside it |
| `Chunking.Streaming` | Sources/WebRTCNSSwift/WebRTCNSSwift.swift:280-289 | feeding `a` then `b` yields the frames of `a + b` and the same remainder: the split of the stream into calls does not matter |
| `Chunking.FlattenSnoc` | Sources/WebRTCNSSwift/WebRTCNSSwift.swift:298 | appending one handled frame to the output appends its bytes |
| `Chunking.FlattenAppend` | Sources/WebRTCNSSwift/WebRTCNSSwift.swift:298 | the output of two runs of frames is the output of the first followed by that of the second |
| `Suppressor.Level.Mode` | Sources/WebRTCNSSwift/WebRTCNSSwift.swift:22-32 | the four levels map to the policy modes 0 to 3 |
| `Suppressor.Engine.constructor` | Sources/WebRTCNS/noise_suppression_x.c:19-24 | a new instance is live and has processed nothing |
| `Suppressor.Engine.Init` | Sources/WebRTCNS/noise_suppression_x.c:31-33 | the instance is set to the given sample rate |
| `Suppressor.Engine.SetPolicy` | Sources/WebRTCNS/noise_suppression_x.c:35-37 | the instance is set to the given policy mode |
| `Suppressor.Engine.Process` | Sources/WebRTCNS/noise_suppression_x.c:39-45 | the output array is overwritten with a result of the input's length; input and output are logged; an identity engine returns its input, so its output log stays equal to its input log |
| `Suppressor.Engine.Free` | Sources/WebRTCNS/noise_suppression_x.c:26-29 | the instance is no longer live |
| `Suppressor.NoiseSuppressor.constructor` | Sources/WebRTCNSSwift/WebRTCNSSwift.swift:253-260 | stores rate, bits, channels and level, computes `handleBytesCount` by the frame-size formula, starts with an empty buffer |
| `Suppressor.NoiseSuppressor.Open` | Sources/WebRTCNSSwift/WebRTCNSSwift.swift:253-275 | the initialiser yields an object exactly when both the engine's init and its set_policy return 0; the object stores the given rate, bits, channels and level and has a live engine at the given rate and policy |
| `Suppressor.NoiseSuppressor.Handle` | Sources/WebRTCNSSwift/WebRTCNSSwift.swift:324-347 | returns as many bytes as it is given; the input frame is the one handed to the engine and the result is the one it produced |
| `Suppressor.NoiseSuppressor.AutomaticHandle` | Sources/WebRTCNSSwift/WebRTCNSSwift.swift:285-314 | the engine receives, in order, exactly the `(|buffer|+|bytes|)/n` whole frames of `old buffer ++ bytes`; the result is their outputs joined, `frames·n` bytes long; the new buffer is the remainder, of length `(|buffer|+|bytes|) mod n < n`; with an identity engine `result ++ buffer == old buffer ++ bytes` |
| `Suppressor.NoiseSuppressor.Close` | Sources/WebRTCNSSwift/WebRTCNSSwift.swift:352-355 | the engine is freed |
| `Suppressor.StreamInTwoChunks` | Sources/WebRTCNSSwift/WebRTCNSSwift.swift:277-314 | two successive calls over an identity engine return the whole frames of the concatenated input and leave its remainder buffered |
| `Suppressor.TwoChunks` | Sources/WebRTCNSSwift/WebRTCNSSwift.swift:285-314 | when a first call returns `first` and keeps the remainder of `a`, and a second call over that remainder and `b` returns `second` and keeps `rest`, then `first ++ second` is the frames of `a ++ b` and `rest` is its remainder |
| `FormatNegotiation.NegotiateRate` | Sources/WebRTCNSSwift/WebRTCNSSwift.swift:95-117 | the result is always 8000, 16000, 32000 or 48000; a supported rate is kept; 0 becomes 32000; any other rate up to 48000 becomes the smallest supported rate at or above it; a rate above 48000 becomes 48000 |
| `FormatNegotiation.Negotiate` | Sources/WebRTCNSSwift/WebRTCNSSwift.swift:119-143 | packed signed-integer linear PCM, one frame per packet, the negotiated rate; zero channels become 2 and zero bits 32, other values are kept; bytes per frame `bits/8·channels`, bytes per packet the same |
| `FormatNegotiation.Described` | Sources/WebRTCNSSwift/WebRTCNSSwift.swift:83-86 | the converter's client format replaces the file's own format when there is one; otherwise the file's format is used |
| `FormatNegotiation.ProcessingFormat` | Sources/WebRTCNSSwift/WebRTCNSSwift.swift:80-150 | the converter's format is used when there is one; a linear-PCM format passes through unchanged; any other is negotiated and used only if the reader accepts it, otherwise the run fails |
| `FormatNegotiation.NegotiateIdempotent` | Sources/WebRTCNSSwift/WebRTCNSSwift.swift:89-143 | negotiating an already negotiated format changes nothing |
| `FormatNegotiation.ProcessingFormatStable` | Sources/WebRTCNSSwift/WebRTCNSSwift.swift:89-150 | a chosen processing format is linear PCM and is chosen again for itself |
| `FormatNegotiation.NegotiationExamples` | Sources/WebRTCNSSwift/WebRTCNSSwift.swift:95-125 | an all-zero non-PCM description becomes 32000 Hz, 2 channels, 32 bits, 8 bytes per frame; 44100 goes to 48000, 22050 to 32000, 11025 to 16000, 96000 to 48000, 7999.5 to 8000 |
| `FilePipeline.ToUInt32` | Sources/WebRTCNSSwift/WebRTCNSSwift.swift:162 | Swift `UInt32(Double)`: defined exactly on (-1, 2^32), then rounds toward zero |
| `FilePipeline.FramesPerRead` | Sources/WebRTCNSSwift/WebRTCNSSwift.swift:162 | `UInt32(mSampleRate / 100)` exists exactly when the rate lies in (-100, 100·2^32); for a non-negative rate the frames asked for cover between 100 times the count and 100 more, i.e. 10 ms rounded down |
| `FilePipeline.FramesPerReadIsTenMilliseconds` | Sources/WebRTCNSSwift/WebRTCNSSwift.swift:156-162 | the frames asked for per read, `UInt32(rate/100)`, equal the engine's integer rate divided by 100 |
| `FilePipeline.FullReadIsOneFrame` | Sources/WebRTCNSSwift/WebRTCNSSwift.swift:162-186 | for whole-byte samples one full read holds exactly `handleBytesCount` bytes, so `handle` always gets one 10 ms frame |
| `FilePipeline.NegotiatedReadIsOneFrame` | Sources/WebRTCNSSwift/WebRTCNSSwift.swift:139-162 | every negotiated format with whole-byte samples, the 32-bit default included, reads exactly one frame at a time |
| `FilePipeline.PartialByteSamplesMismatch` | Sources/WebRTCNSSwift/WebRTCNSSwift.swift:162-180 | a mono 12-bit non-PCM file at 16000 Hz is negotiated to a format whose reads ask for 160 frames of 1 byte, 160 bytes, while the frame size formula gives 240 bytes |
| `FilePipeline.AfterRead` | Sources/WebRTCNSSwift/WebRTCNSSwift.swift:195 | a full read continues; a short read ends the run, successfully exactly when `framesRead + offset == totalFrames` |
| `FilePipeline.ReadLoop` | Sources/WebRTCNSSwift/WebRTCNSSwift.swift:175-223 | over a reader that never fails and delivers `min(requested, left)` frames, the run succeeds and writes `total / requested` chunks, each a full 10 ms read; the last `total % requested` frames are never written |

## Left out

- `handleAsync` only moves the call onto a dispatch queue. That is concurrency, so it is not modelled.
- AudioToolbox I/O is not modelled: `AudioFileReadInfo`, `AudioFileWriteInfo`, and `ExtAudioFileSetProperty`/`Read`/`Write`/`Tell`/`Dispose`. These are foreign calls. Their results enter as parameters (`setClientOk`, `client`) or as the reader of `FilePipeline.ReadLoop`.
- FilePipeline.ReadLoop: models only a reader that never fails and whose position advances by the frames read. The failure exits for read, write and tell errors (WebRTCNSSwift.swift:194, 212, 216) end with failure and are not part of the loop model.
- The progress values (`Float(offset)/Float(frames)`) are floating point and are not modelled. So is the disposal done by the local `close()`.
- The early `return` when the initialiser fails inside the file entry point is not modelled. It skips `complete` and the file disposal.
- Suppressor.Engine.Process: promises only an output of the input's length. The fixed-point suppression in `nsx_core` is not part of this model. Neither are `WebRtcNsx_noise_estimate` and `WebRtcNsx_num_freq`.
- The third argument of `WebRtcNsx_Process` is a number of frequency bands, and the wrapper passes its channel count there. The model passes it through unchanged and does not say what the engine does with it.
- Rebinding the byte buffers to `Int16` pointers is not modelled. The model works on bytes (`bv8`).
- Suppressor.NoiseSuppressor.AutomaticHandle: requires `handleBytesCount > 0`. With 0 the source's loop never ends, and with a negative size Swift traps on the slice.
- Suppressor.NoiseSuppressor.Open: requires the frame-size formula not to overflow `Int`, where Swift traps.
- FormatNegotiation.Negotiate: requires `bits/8·channels` to fit in a `UInt32`, where Swift traps.
- NaN and infinite sample rates are not modelled; the rate is a `real`.
- `open` members that a subclass could override are not modelled. The buffer is modelled as updated only by `AutomaticHandle`.
- `Package.swift` is a build manifest with no logic.
