/**
 * The client format chosen for reading a file: a linear-PCM source is read
 * as it is; any other source is converted to packed signed-integer linear
 * PCM at a sample rate the suppressor supports.
 */
module FormatNegotiation {
  import opened Ints
  import opened Wrappers

  /** `kAudioFormatLinearPCM`, the four-character code 'lpcm'. */
  const LinearPCM: u32 := 0x6C70636D

  /** `kAudioFormatFlagIsSignedInteger | kAudioFormatFlagIsPacked` (bits 2 and 3). */
  const SignedIntegerPacked: u32 := 0xC

  /**
   * The fields of an `AudioStreamBasicDescription` that the wrapper reads
   * or sets. `mSampleRate` is a `Float64`; it is a real number here (NaN
   * and the infinities are not modelled).
   */
  datatype StreamDescription = StreamDescription(
    sampleRate: real,
    formatId: u32,
    formatFlags: u32,
    bytesPerPacket: u32,
    framesPerPacket: u32,
    bytesPerFrame: u32,
    channelsPerFrame: u32,
    bitsPerChannel: u32)

  /** The rates the conversion keeps as they are. */
  predicate IsSupportedRate(r: real) {
    r == 8000.0 || r == 16000.0 || r == 32000.0 || r == 48000.0
  }

  /**
   * The sample-rate rule: a supported rate is kept, 0 becomes 32000, any
   * other rate is raised to the next supported one, and anything above
   * 48000 becomes 48000.
   */
  function NegotiateRate(r: real): (s: real)
    ensures IsSupportedRate(s)
    ensures IsSupportedRate(r) ==> s == r
    ensures r == 0.0 ==> s == 32000.0
    ensures r != 0.0 && r <= 48000.0 ==> r <= s && forall t :: IsSupportedRate(t) && r <= t ==> s <= t
    ensures r > 48000.0 ==> s == 48000.0
  {
    if IsSupportedRate(r) then r
    else if r == 0.0 then 32000.0
    else if r < 8000.0 then 8000.0
    else if r < 16000.0 then 16000.0
    else if r < 32000.0 then 32000.0
    else if r < 48000.0 then 48000.0
    else 48000.0
  }

  /** An unspecified (zero) channel count defaults to stereo. */
  function NegotiateChannels(c: u32): (channels: u32) {
    if c == 0 then 2 else c
  }

  /** An unspecified (zero) sample width defaults to 32 bits. */
  function NegotiateBits(b: u32): (bits: u32) {
    if b == 0 then 32 else b
  }

  /** `mBitsPerChannel / 8 * mChannelsPerFrame` of the converted format fits a `UInt32`; otherwise Swift traps. */
  predicate NegotiationFits(d: StreamDescription) {
    NegotiateBits(d.bitsPerChannel) / 8 * NegotiateChannels(d.channelsPerFrame) < 0x1_0000_0000
  }

  /** The converted client format built for a non-PCM source. */
  function Negotiate(d: StreamDescription): (c: StreamDescription)
    requires NegotiationFits(d)
    ensures c.formatId == LinearPCM && c.formatFlags == SignedIntegerPacked && c.framesPerPacket == 1
    ensures c.sampleRate == NegotiateRate(d.sampleRate)
    ensures c.channelsPerFrame != 0 && c.bitsPerChannel != 0
    ensures d.channelsPerFrame != 0 ==> c.channelsPerFrame == d.channelsPerFrame
    ensures d.channelsPerFrame == 0 ==> c.channelsPerFrame == 2
    ensures d.bitsPerChannel != 0 ==> c.bitsPerChannel == d.bitsPerChannel
    ensures d.bitsPerChannel == 0 ==> c.bitsPerChannel == 32
    ensures c.bytesPerFrame == c.bitsPerChannel / 8 * c.channelsPerFrame
    ensures c.bytesPerPacket == c.bytesPerFrame
  {
    var channels := NegotiateChannels(d.channelsPerFrame);
    var bits := NegotiateBits(d.bitsPerChannel);
    var bytesPerFrame := bits / 8 * channels;
    StreamDescription(
      sampleRate := NegotiateRate(d.sampleRate),
      formatId := LinearPCM,
      formatFlags := SignedIntegerPacked,
      bytesPerPacket := bytesPerFrame * 1,
      framesPerPacket := 1,
      bytesPerFrame := bytesPerFrame,
      channelsPerFrame := channels,
      bitsPerChannel := bits)
  }

  /** The format the file is described by: the converter's client format when there is one, else the file's own. */
  function Described(fileFormat: StreamDescription, client: Option<StreamDescription>): (d: StreamDescription)
    ensures client.Some? ==> d == client.value
    ensures client.None? ==> d == fileFormat
  {
    if client.Some? then client.value else fileFormat
  }

  /** The description the file conversion needs before a non-PCM format can be negotiated. */
  predicate CanNegotiate(fileFormat: StreamDescription, client: Option<StreamDescription>) {
    var d := Described(fileFormat, client);
    d.formatId != LinearPCM ==> NegotiationFits(d)
  }

  /**
   * The format the file entry point processes: linear PCM passes through;
   * anything else is negotiated and set as the reader's client format.
   * `setClientOk` is whether the reader accepted it; if not, the run fails
   * (`None`).
   */
  function ProcessingFormat(fileFormat: StreamDescription, client: Option<StreamDescription>,
                            setClientOk: bool): (r: Option<StreamDescription>)
    requires CanNegotiate(fileFormat, client)
    ensures var d := Described(fileFormat, client);
      d.formatId == LinearPCM ==> r == Some(d)
    ensures var d := Described(fileFormat, client);
      d.formatId != LinearPCM ==> (r.Some? <==> setClientOk) && (r.Some? ==> r.value == Negotiate(d))
    ensures r.Some? ==> r.value.formatId == LinearPCM
  {
    var d := Described(fileFormat, client);
    if d.formatId != LinearPCM then
      if setClientOk then Some(Negotiate(d)) else None
    else
      Some(d)
  }

  /** Negotiating a negotiated format changes nothing. */
  lemma NegotiateIdempotent(d: StreamDescription)
    requires NegotiationFits(d)
    ensures NegotiationFits(Negotiate(d)) && Negotiate(Negotiate(d)) == Negotiate(d)
  {
    var c := Negotiate(d);
    assert NegotiateRate(c.sampleRate) == c.sampleRate;
  }

  /** A chosen processing format is chosen again when it is the file's own format. */
  lemma ProcessingFormatStable(fileFormat: StreamDescription, client: Option<StreamDescription>, ok: bool, ok': bool)
    requires CanNegotiate(fileFormat, client) && ProcessingFormat(fileFormat, client, ok).Some?
    ensures var c := ProcessingFormat(fileFormat, client, ok).value;
      CanNegotiate(c, None) && ProcessingFormat(c, None, ok') == Some(c)
  {
  }

  /** The rule at common rates, and the defaults for a description with every field zero. */
  lemma NegotiationExamples(d: StreamDescription)
    requires d.formatId != LinearPCM && d.sampleRate == 0.0 && d.channelsPerFrame == 0 && d.bitsPerChannel == 0
    ensures NegotiationFits(d)
    ensures Negotiate(d).sampleRate == 32000.0 && Negotiate(d).channelsPerFrame == 2
    ensures Negotiate(d).bitsPerChannel == 32 && Negotiate(d).bytesPerFrame == 8
    ensures NegotiateRate(44100.0) == 48000.0 && NegotiateRate(22050.0) == 32000.0
    ensures NegotiateRate(11025.0) == 16000.0 && NegotiateRate(96000.0) == 48000.0
    ensures NegotiateRate(7999.5) == 8000.0
  {
  }
}
