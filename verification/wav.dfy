/**
 * The older audio service: `stitchAudio` joins decoded audio buffers end to end and
 * `audioBufferToWav` writes the result as a 16-bit PCM RIFF/WAVE file.
 *
 * Samples are integers here, already clamped and quantised to 16 bits; decoding the blobs, the
 * audio context and the float arithmetic of the quantisation are not modelled.
 */
module Wav {
  import opened Outcomes

  type Byte = b: int | 0 <= b < 256

  const Two16 := 0x1_0000
  const Two32 := 0x1_0000_0000

  /** The size of the RIFF, `fmt ` and `data` headers in front of the samples. */
  const HeaderSize := 44

  /** A decoded buffer: one sequence of samples per channel, all `length` long. */
  datatype AudioBuffer = AudioBuffer(sampleRate: nat, channels: seq<seq<int>>, length: nat)

  predicate WellFormed(b: AudioBuffer) {
    forall c :: 0 <= c < |b.channels| ==> |b.channels[c]| == b.length
  }

  // ---------------------------------------------------------------------------
  // little-endian fields

  /** `DataView.setUint16(offset, v, true)` (and `setInt16`): `v` modulo 2^16, low byte first. */
  function LE16(v: int): (r: seq<Byte>)
    ensures |r| == 2
  {
    var m := v % Two16;
    [m % 256, m / 256]
  }

  /** `DataView.setUint32(offset, v, true)`: `v` modulo 2^32, low byte first. */
  function LE32(v: int): (r: seq<Byte>)
    ensures |r| == 4
  {
    var m := v % Two32;
    [m % 256, (m / 256) % 256, (m / Two16) % 256, m / 0x100_0000]
  }

  /** The number two little-endian bytes stand for. */
  function U16(b: seq<Byte>): (v: nat)
    requires |b| == 2
    ensures v < Two16
  {
    b[0] as int + 256 * (b[1] as int)
  }

  /** The number four little-endian bytes stand for. */
  function U32(b: seq<Byte>): (v: nat)
    requires |b| == 4
    ensures v < Two32
  {
    b[0] as int + 256 * (b[1] as int) + Two16 * (b[2] as int) + 0x100_0000 * (b[3] as int)
  }

  /** Reading a written 16-bit field gives the value modulo 2^16. */
  lemma LE16RoundTrip(v: int)
    ensures U16(LE16(v)) == v % Two16
  {
  }

  /** Reading a written 32-bit field gives the value modulo 2^32. */
  lemma LE32RoundTrip(v: int)
    ensures U32(LE32(v)) == v % Two32
  {
    var m := v % Two32;
    var q := m / 256;
    var q2 := q / 256;
    assert m == m % 256 + 256 * q;
    assert q == q % 256 + 256 * q2;
    assert q2 == q2 % 256 + 256 * (q2 / 256);
    assert m / Two16 == q2;
    assert m / 0x100_0000 == q2 / 256;
  }

  /** The codes of a text of ASCII characters, one byte each. */
  function Ascii(s: string): (r: seq<int>)
    ensures |r| == |s|
  {
    seq(|s|, i requires 0 <= i < |s| => s[i] as int)
  }

  // ---------------------------------------------------------------------------
  // the header

  /** The RIFF descriptor: the tag, the size of the rest of the file, the `WAVE` form. */
  function RiffChunk(length: int): (r: seq<Byte>)
    ensures |r| == 12
    ensures r[0..4] == Ascii("RIFF") && r[8..12] == Ascii("WAVE")
    ensures U32(r[4..8]) == (length - 8) % Two32
  {
    LE32RoundTrip(length - 8);
    LE32(0x46464952) + LE32(length - 8) + LE32(0x45564157)
  }

  /** The `fmt ` chunk of 16-bit PCM. */
  function FmtChunk(numChan: nat, sampleRate: nat): (r: seq<Byte>)
    ensures |r| == 24
    ensures r[0..4] == Ascii("fmt ")
    ensures U32(r[4..8]) == 16 && U16(r[8..10]) == 1 && U16(r[10..12]) == numChan % Two16
    ensures U32(r[12..16]) == sampleRate % Two32 && U32(r[16..20]) == (sampleRate * 2 * numChan) % Two32
    ensures U16(r[20..22]) == (numChan * 2) % Two16 && U16(r[22..24]) == 16
  {
    var lead := FmtLead(numChan);
    var rates := FmtRates(numChan, sampleRate);
    var r := lead + rates;
    assert r[0..4] == lead[0..4] && r[4..8] == lead[4..8];
    assert r[8..10] == lead[8..10] && r[10..12] == lead[10..12];
    assert r[12..16] == rates[0..4] && r[16..20] == rates[4..8];
    assert r[20..22] == rates[8..10] && r[22..24] == rates[10..12];
    r
  }

  /** The tag, the chunk size, the PCM format tag and the channel count. */
  function FmtLead(numChan: nat): (r: seq<Byte>)
    ensures |r| == 12
    ensures r[0..4] == Ascii("fmt ")
    ensures U32(r[4..8]) == 16 && U16(r[8..10]) == 1 && U16(r[10..12]) == numChan % Two16
  {
    var r := LE32(0x20746d66) + LE32(16) + LE16(1) + LE16(numChan);
    assert r[4..8] == LE32(16);
    assert r[8..10] == LE16(1);
    assert r[10..12] == LE16(numChan);
    LE32RoundTrip(16);
    LE16RoundTrip(numChan);
    r
  }

  /** The sample rate, the byte rate, the block size and the bits per sample. */
  function FmtRates(numChan: nat, sampleRate: nat): (r: seq<Byte>)
    ensures |r| == 12
    ensures U32(r[0..4]) == sampleRate % Two32 && U32(r[4..8]) == (sampleRate * 2 * numChan) % Two32
    ensures U16(r[8..10]) == (numChan * 2) % Two16 && U16(r[10..12]) == 16
  {
    var r := LE32(sampleRate) + LE32(sampleRate * 2 * numChan) + LE16(numChan * 2) + LE16(16);
    assert r[0..4] == LE32(sampleRate);
    assert r[4..8] == LE32(sampleRate * 2 * numChan);
    assert r[8..10] == LE16(numChan * 2);
    LE32RoundTrip(sampleRate);
    LE32RoundTrip(sampleRate * 2 * numChan);
    LE16RoundTrip(numChan * 2);
    r
  }

  /** The head of the `data` chunk: the tag and the number of sample bytes. */
  function DataHead(size: int): (r: seq<Byte>)
    ensures |r| == 8
    ensures r[0..4] == Ascii("data") && U32(r[4..8]) == size % Two32
  {
    LE32RoundTrip(size);
    LE32(0x61746164) + LE32(size)
  }

  /**
   * The 44 bytes in front of the samples, for `frames` frames of `numChan` channels. The data
   * size is written as the file length less the 40 bytes written so far and the 4 of the field.
   */
  function Header(numChan: nat, sampleRate: nat, frames: nat): (h: seq<Byte>)
    ensures |h| == HeaderSize
  {
    var length := frames * numChan * 2 + HeaderSize;
    RiffChunk(length) + FmtChunk(numChan, sampleRate) + DataHead(length - 40 - 4)
  }

  /** The tags of the header spell `RIFF`, `WAVE`, `fmt ` and `data`. */
  lemma HeaderTags(numChan: nat, sampleRate: nat, frames: nat)
    ensures var h := Header(numChan, sampleRate, frames);
      h[0..4] == Ascii("RIFF") && h[8..12] == Ascii("WAVE")
      && h[12..16] == Ascii("fmt ") && h[36..40] == Ascii("data")
  {
    var length := frames * numChan * 2 + HeaderSize;
    var riff := RiffChunk(length);
    var fmt := FmtChunk(numChan, sampleRate);
    var data := DataHead(length - 40 - 4);
    var h := riff + fmt + data;
    assert h[0..4] == riff[0..4];
    assert h[8..12] == riff[8..12];
    assert h[12..16] == fmt[0..4];
    assert h[36..40] == data[0..4];
  }

  /** The two size fields: the whole file less eight bytes, and the sample bytes. */
  lemma HeaderSizes(numChan: nat, sampleRate: nat, frames: nat)
    ensures var h := Header(numChan, sampleRate, frames);
      var dataSize := frames * numChan * 2;
      U32(h[4..8]) == (HeaderSize + dataSize - 8) % Two32 && U32(h[40..44]) == dataSize % Two32
  {
    var length := frames * numChan * 2 + HeaderSize;
    var riff := RiffChunk(length);
    var fmt := FmtChunk(numChan, sampleRate);
    var data := DataHead(length - 40 - 4);
    var h := riff + fmt + data;
    assert h[4..8] == riff[4..8];
    assert h[40..44] == data[4..8];
  }

  /** The `fmt ` chunk: PCM, the channel count, the rate, the byte rate, the block size, 16 bits. */
  lemma HeaderFormat(numChan: nat, sampleRate: nat, frames: nat)
    ensures var h := Header(numChan, sampleRate, frames);
      U32(h[16..20]) == 16 && U16(h[20..22]) == 1 && U16(h[22..24]) == numChan % Two16
      && U32(h[24..28]) == sampleRate % Two32 && U32(h[28..32]) == (sampleRate * 2 * numChan) % Two32
      && U16(h[32..34]) == (numChan * 2) % Two16 && U16(h[34..36]) == 16
  {
    var length := frames * numChan * 2 + HeaderSize;
    var riff := RiffChunk(length);
    var fmt := FmtChunk(numChan, sampleRate);
    var data := DataHead(length - 40 - 4);
    var h := riff + fmt + data;
    assert h[16..20] == fmt[4..8];
    assert h[20..22] == fmt[8..10];
    assert h[22..24] == fmt[10..12];
    assert h[24..28] == fmt[12..16];
    assert h[28..32] == fmt[16..20];
    assert h[32..34] == fmt[20..22];
    assert h[34..36] == fmt[22..24];
  }

  // ---------------------------------------------------------------------------
  // the samples

  /** Every channel holds at least `frames` samples. */
  predicate Covers(chs: seq<seq<int>>, frames: nat) {
    forall c :: 0 <= c < |chs| ==> frames <= |chs[c]|
  }

  /** The samples of frame `pos` for channels `0 .. i - 1`, channel 0 first. */
  function FrameBytes(chs: seq<seq<int>>, pos: nat, i: nat): (r: seq<Byte>)
    requires i <= |chs| && Covers(chs, pos + 1)
    ensures |r| == 2 * i
  {
    if i == 0 then [] else FrameBytes(chs, pos, i - 1) + LE16(chs[i - 1][pos])
  }

  /** The first `frames` frames, one after the other. */
  function Interleave(chs: seq<seq<int>>, frames: nat): (r: seq<Byte>)
    requires Covers(chs, frames)
    ensures |r| == 2 * |chs| * frames
  {
    if frames == 0 then []
    else
      var r := Interleave(chs, frames - 1) + FrameBytes(chs, frames - 1, |chs|);
      assert 2 * |chs| * (frames - 1) + 2 * |chs| == 2 * |chs| * frames;
      r
  }

  lemma {:induction false} FrameSample(chs: seq<seq<int>>, pos: nat, i: nat, c: nat)
    requires i <= |chs| && Covers(chs, pos + 1) && c < i
    ensures FrameBytes(chs, pos, i)[2 * c..2 * c + 2] == LE16(chs[c][pos])
  {
    if c < i - 1 {
      FrameSample(chs, pos, i - 1, c);
      assert FrameBytes(chs, pos, i)[..2 * (i - 1)] == FrameBytes(chs, pos, i - 1);
    }
  }

  /** The later frames only add bytes after the earlier ones. */
  lemma {:induction false} InterleavePrefix(chs: seq<seq<int>>, f: nat, frames: nat)
    requires f <= frames && Covers(chs, frames)
    ensures Interleave(chs, frames)[..2 * |chs| * f] == Interleave(chs, f)
    decreases frames
  {
    if f < frames {
      InterleavePrefix(chs, f, frames - 1);
      var a := Interleave(chs, frames - 1);
      assert 2 * |chs| * f <= 2 * |chs| * (frames - 1) by {
        MulMonotone(2 * |chs|, f, frames - 1);
      }
      assert Interleave(chs, frames)[..|a|] == a;
    }
  }

  lemma MulOrder(n: nat, f: nat)
    ensures 2 * n * f == f * n * 2
  {
  }

  lemma MulMonotone(k: nat, a: nat, b: nat)
    requires a <= b
    ensures k * a <= k * b
  {
  }

  /**
   * Frame by frame, channel 0 first, two bytes each: sample `pos` of channel `c` sits at
   * `2 * (pos * channels + c)`.
   */
  lemma {:induction false} SampleAt(chs: seq<seq<int>>, frames: nat, pos: nat, c: nat)
    requires Covers(chs, frames) && pos < frames && c < |chs|
    ensures var k := 2 * (pos * |chs| + c);
      k + 2 <= |Interleave(chs, frames)| && Interleave(chs, frames)[k..k + 2] == LE16(chs[c][pos])
  {
    var n := |chs|;
    var k := 2 * (pos * n + c);
    var upto := 2 * n * (pos + 1);
    Offsets(n, pos, c, frames);
    InterleavePrefix(chs, pos + 1, frames);
    var a := Interleave(chs, pos);
    var fb := FrameBytes(chs, pos, n);
    var whole := Interleave(chs, frames);
    assert whole[..upto] == a + fb;
    FrameSample(chs, pos, n, c);
    assert whole[k..k + 2] == (a + fb)[k..k + 2];
    assert (a + fb)[k..k + 2] == fb[2 * c..2 * c + 2];
  }

  /** Where frame `pos` starts and ends, and the sample of channel `c` inside it. */
  lemma Offsets(n: nat, pos: nat, c: nat, frames: nat)
    requires pos < frames && c < n
    ensures 2 * (pos * n + c) == 2 * n * pos + 2 * c
    ensures 2 * (pos * n + c) + 2 <= 2 * n * (pos + 1) <= 2 * n * frames
  {
    MulMonotone(2 * n, pos + 1, frames);
  }

  /** `audioBufferToWav(buffer)`. */
  function ToWav(b: AudioBuffer): (r: seq<Byte>)
    requires WellFormed(b)
    ensures |r| == HeaderSize + b.length * |b.channels| * 2
  {
    var d := Interleave(b.channels, b.length);
    MulOrder(|b.channels|, b.length);
    Header(|b.channels|, b.sampleRate, b.length) + d
  }

  /** The file starts with the header for the buffer's channels, rate and length. */
  lemma WavHeader(b: AudioBuffer)
    requires WellFormed(b)
    ensures ToWav(b)[..HeaderSize] == Header(|b.channels|, b.sampleRate, b.length)
  {
    var h := Header(|b.channels|, b.sampleRate, b.length);
    assert (h + Interleave(b.channels, b.length))[..|h|] == h;
  }

  /** After the header come the interleaved samples, and nothing else. */
  lemma WavData(b: AudioBuffer)
    requires WellFormed(b)
    ensures ToWav(b)[HeaderSize..] == Interleave(b.channels, b.length)
  {
    var h := Header(|b.channels|, b.sampleRate, b.length);
    assert (h + Interleave(b.channels, b.length))[|h|..] == Interleave(b.channels, b.length);
  }

  /** The loops of `audioBufferToWav`: the header, then each frame's samples, channel by channel. */
  method ToWavLoop(b: AudioBuffer) returns (out: seq<Byte>)
    requires WellFormed(b)
    ensures out == ToWav(b)
  {
    var numChan := |b.channels|;
    var h := Header(numChan, b.sampleRate, b.length);
    out := h;
    var pos := 0;
    while pos < b.length
      invariant pos <= b.length
      invariant out == h + Interleave(b.channels, pos)
    {
      var frame: seq<Byte> := [];
      var i := 0;
      while i < numChan
        invariant i <= numChan
        invariant frame == FrameBytes(b.channels, pos, i)
      {
        frame := frame + LE16(b.channels[i][pos]);
        i := i + 1;
      }
      out := out + frame;
      pos := pos + 1;
    }
  }

  // ---------------------------------------------------------------------------
  // stitching

  const NoBuffers := "Cannot stitch audio: no audio buffers provided."

  /**
   * The output has as many channels as the first buffer; the copy loop asks the output for each
   * channel of each input, and the audio buffer refuses a channel it does not have.
   */
  const MissingChannel := "IndexSizeError"

  function TotalLength(bs: seq<AudioBuffer>): nat {
    if |bs| == 0 then 0 else TotalLength(bs[..|bs| - 1]) + bs[|bs| - 1].length
  }

  /** Channel `c` of the joined buffer: each input's samples, silence where an input lacks `c`. */
  function Column(bs: seq<AudioBuffer>, c: nat): (col: seq<int>)
    requires forall k :: 0 <= k < |bs| ==> WellFormed(bs[k])
    ensures |col| == TotalLength(bs)
  {
    if |bs| == 0 then []
    else
      var b := bs[|bs| - 1];
      assert WellFormed(b);
      Column(bs[..|bs| - 1], c) + (if c < |b.channels| then b.channels[c] else seq(b.length, _ => 0))
  }

  predicate FitsFirst(bs: seq<AudioBuffer>)
    requires |bs| > 0
  {
    forall k :: 0 <= k < |bs| ==> |bs[k].channels| <= |bs[0].channels|
  }

  /** `stitchAudio(blobs)` on the decoded buffers, before the WAV encoding. */
  function Stitch(bs: seq<AudioBuffer>): (r: Result<AudioBuffer>)
    requires forall k :: 0 <= k < |bs| ==> WellFormed(bs[k])
    ensures r.Ok? <==> |bs| > 0 && FitsFirst(bs)
    ensures |bs| == 0 ==> r == Err(NoBuffers)
    ensures r.Ok? ==> (WellFormed(r.value) && r.value.length == TotalLength(bs)
                       && r.value.sampleRate == bs[0].sampleRate && |r.value.channels| == |bs[0].channels|)
  {
    if |bs| == 0 then Err(NoBuffers)
    else if !FitsFirst(bs) then Err(MissingChannel)
    else Ok(AudioBuffer(bs[0].sampleRate, seq(|bs[0].channels|, c requires 0 <= c => Column(bs, c)), TotalLength(bs)))
  }

  /** `stitchAudio(blobs)`: the joined buffer as a WAV file. */
  function StitchAudio(bs: seq<AudioBuffer>): (r: Result<seq<Byte>>)
    requires forall k :: 0 <= k < |bs| ==> WellFormed(bs[k])
    ensures r.Ok? <==> Stitch(bs).Ok?
    ensures r.Err? ==> r.message == Stitch(bs).message
    ensures r.Ok? ==> |r.value| == HeaderSize + TotalLength(bs) * |bs[0].channels| * 2
  {
    match Stitch(bs)
    case Ok(b) => Ok(ToWav(b))
    case Err(e) => Err(e)
  }

  /** The offset an input is copied at: the lengths of the inputs before it. */
  lemma {:induction false} ColumnPrefix(bs: seq<AudioBuffer>, j: nat, c: nat)
    requires forall k :: 0 <= k < |bs| ==> WellFormed(bs[k])
    requires j <= |bs|
    ensures TotalLength(bs[..j]) <= TotalLength(bs)
    ensures Column(bs, c)[..TotalLength(bs[..j])] == Column(bs[..j], c)
    decreases |bs|
  {
    if j < |bs| {
      var init := bs[..|bs| - 1];
      assert init[..j] == bs[..j];
      ColumnPrefix(init, j, c);
      assert Column(bs, c)[..TotalLength(init)] == Column(init, c);
    } else {
      assert bs[..j] == bs;
    }
  }

  /** Each input's channel `c` is copied whole at its running offset. */
  lemma CopiedAtOffset(bs: seq<AudioBuffer>, k: nat, c: nat)
    requires forall j :: 0 <= j < |bs| ==> WellFormed(bs[j])
    requires |bs| > 0 && FitsFirst(bs) && k < |bs| && c < |bs[k].channels|
    ensures var out := Stitch(bs).value;
      var off := TotalLength(bs[..k]);
      off + bs[k].length <= out.length && out.channels[c][off..off + bs[k].length] == bs[k].channels[c]
  {
    var pre := bs[..k + 1];
    ColumnPrefix(bs, k + 1, c);
    assert pre[..k] == bs[..k];
    assert pre[k] == bs[k];
    var off := TotalLength(bs[..k]);
    assert TotalLength(pre) == off + bs[k].length;
    assert Column(pre, c) == Column(bs[..k], c) + bs[k].channels[c];
    var col := Column(bs, c);
    assert col[off..off + bs[k].length] == Column(pre, c)[off..];
  }

  /** Joining one buffer gives the buffer back. */
  lemma StitchOne(b: AudioBuffer)
    requires WellFormed(b)
    ensures Stitch([b]) == Ok(b)
  {
    assert [b][..0] == [];
    assert TotalLength([b]) == b.length;
    assert FitsFirst([b]);
    var out := Stitch([b]).value;
    forall c | 0 <= c < |b.channels|
      ensures out.channels[c] == b.channels[c]
    {
      assert Column([b], c) == [] + b.channels[c];
    }
    assert out.channels == b.channels;
  }
}
