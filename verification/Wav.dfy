/** The browser's PCM16 WAV encoder with its resampler, and the server's reading of what it writes.
Samples are reals; a WAV file is its bytes in the canonical 44-byte-header layout. */
module Wav {
  import opened Bytes
  import Sequences

  const TARGET_SAMPLE_RATE := 16_000
  const TARGET_CHANNELS := 1
  const BITS_PER_SAMPLE := 16
  const MAX_CLIP_MS := 12_000

  type int16 = x: int | -0x8000 <= x < 0x8000

  // ---- quantization ----

  function Clamp(sample: real): (clamped: real)
    ensures -1.0 <= clamped <= 1.0 && (-1.0 <= sample <= 1.0 ==> clamped == sample)
  {
    if sample > 1.0 then 1.0 else if sample < -1.0 then -1.0 else sample
  }

  /** `Math.round`: halves go up. */
  function Round(x: real): int {
    (x + 0.5).Floor
  }

  function ClampToInt16(sample: real): int16 {
    var clamped := Clamp(sample);
    if clamped < 0.0 then Round(clamped * 32768.0) else Round(clamped * 32767.0)
  }

  function ToFloat(v: int16): real {
    (v as real) / 32768.0
  }

  /** Half a step of rounding, plus, above zero, up to one step because the two sides scale by 32767 and
      32768.  For samples already in range this is the distance to the sample itself. */
  lemma QuantizationError(sample: real)
    ensures ToFloat(ClampToInt16(sample)) - Clamp(sample) <= 0.5 / 32768.0
    ensures Clamp(sample) - ToFloat(ClampToInt16(sample)) <= (if sample <= 0.0 then 0.5 else 1.5) / 32768.0
  {
  }

  lemma QuantizationKeepsOrder(s: real, t: real)
    requires s <= t
    ensures ClampToInt16(s) <= ClampToInt16(t)
  {
  }

  /** Reading a sample back and encoding it again gives it back exactly up to half scale, and one step
      less above. */
  lemma ReencodeIsStable(v: int16)
    ensures ClampToInt16(ToFloat(v)) == v <==> v <= 0x4000
    ensures ClampToInt16(ToFloat(v)) == if v <= 0x4000 then v else v - 1
  {
    var x := ToFloat(v);
    assert x * 32768.0 == v as real;
    assert x * 32767.0 == v as real - x;
  }

  // ---- the file ----

  function Unsigned(v: int16): uint16 {
    if v < 0 then v + 0x1_0000 else v
  }

  function Signed(v: uint16): int16 {
    if v >= 0x8000 then v - 0x1_0000 else v
  }

  function Ascii(text: string): (bytes: seq<byte>)
    ensures |bytes| == |text|
  {
    seq(|text|, i requires 0 <= i < |text| => text[i] as int % 0x100)
  }

  function Wrap32(v: int): uint32 {
    v % 0x1_0000_0000
  }

  function Header(dataBytes: nat, sampleRate: int): (header: seq<byte>)
    ensures |header| == 44
  {
    Ascii("RIFF") + Le32(Wrap32(36 + dataBytes)) + Ascii("WAVE")
    + Ascii("fmt ") + Le32(16) + Le16(1) + Le16(TARGET_CHANNELS)
    + Le32(Wrap32(sampleRate)) + Le32(Wrap32(sampleRate * 2)) + Le16(2) + Le16(BITS_PER_SAMPLE)
    + Ascii("data") + Le32(Wrap32(dataBytes))
  }

  function Pcm16(samples: seq<real>): (data: seq<byte>)
    ensures |data| == 2 * |samples|
  {
    if samples == [] then [] else Pcm16(samples[..|samples| - 1]) + Le16(Unsigned(ClampToInt16(samples[|samples| - 1])))
  }

  function WavFile(samples: seq<real>, sampleRate: int): seq<byte> {
    Header(2 * |samples|, sampleRate) + Pcm16(samples)
  }

  // ---- the encoder ----

  /** Writing `bytes` at `offset`: what was written before and what lies after is kept. */
  twostate predicate Wrote(view: array<byte>, offset: nat, bytes: seq<byte>)
    requires offset + |bytes| <= view.Length
    reads view
  {
    && view[..offset + |bytes|] == old(view[..offset]) + bytes
    && view[offset + |bytes|..] == old(view[offset + |bytes|..])
  }

  method SetUint16(view: array<byte>, offset: nat, value: uint16)
    requires offset + 2 <= view.Length
    modifies view
    ensures Wrote(view, offset, Le16(value))
  {
    view[offset], view[offset + 1] := Digit(value, 1), Digit(value, 0x100);
  }

  method SetInt16(view: array<byte>, offset: nat, value: int16)
    requires offset + 2 <= view.Length
    modifies view
    ensures Wrote(view, offset, Le16(Unsigned(value)))
  {
    SetUint16(view, offset, Unsigned(value));
  }

  method SetUint32(view: array<byte>, offset: nat, value: int)
    requires offset + 4 <= view.Length
    modifies view
    ensures Wrote(view, offset, Le32(Wrap32(value)))
  {
    var v := Wrap32(value);
    view[offset], view[offset + 1] := Digit(v, 1), Digit(v, 0x100);
    view[offset + 2], view[offset + 3] := Digit(v, 0x1_0000), Digit(v, 0x100_0000);
  }

  method WriteAscii(view: array<byte>, offset: nat, text: string)
    requires offset + |text| <= view.Length
    modifies view
    ensures Wrote(view, offset, Ascii(text))
  {
    for index := 0 to |text|
      invariant view[..offset + index] == old(view[..offset]) + Ascii(text)[..index]
      invariant view[offset + |text|..] == old(view[offset + |text|..])
    {
      view[offset + index] := text[index] as int % 0x100;
      assert Ascii(text)[..index + 1] == Ascii(text)[..index] + [Ascii(text)[index]];
    }
  }

  method WriteHeader(view: array<byte>, dataBytes: nat, sampleRate: int)
    requires view.Length >= 44
    modifies view
    ensures view[..44] == Header(dataBytes, sampleRate)
  {
    assert Wrap32(16) == 16;
    hide Ascii, Le16, Le32, Wrap32;
    WriteAscii(view, 0, "RIFF");
    assert view[..4] == Ascii("RIFF");
    SetUint32(view, 4, 36 + dataBytes);
    WriteAscii(view, 8, "WAVE");
    WriteAscii(view, 12, "fmt ");
    SetUint32(view, 16, 16);
    SetUint16(view, 20, 1);
    SetUint16(view, 22, TARGET_CHANNELS);
    SetUint32(view, 24, sampleRate);
    SetUint32(view, 28, sampleRate * TARGET_CHANNELS * (BITS_PER_SAMPLE / 8));
    SetUint16(view, 32, TARGET_CHANNELS * (BITS_PER_SAMPLE / 8));
    SetUint16(view, 34, BITS_PER_SAMPLE);
    WriteAscii(view, 36, "data");
    SetUint32(view, 40, dataBytes);
  }

  method EncodeWavPcm16(samples: seq<real>, sampleRate: int) returns (file: seq<byte>)
    ensures file == WavFile(samples, sampleRate)
  {
    hide Header, Le16, ClampToInt16;
    var dataBytes := 2 * |samples|;
    var view := new byte[44 + dataBytes];
    WriteHeader(view, dataBytes, sampleRate);
    for index := 0 to |samples|
      invariant view[..44 + 2 * index] == Header(dataBytes, sampleRate) + Pcm16(samples[..index])
    {
      assert samples[..index + 1][..index] == samples[..index];
      SetInt16(view, 44 + 2 * index, ClampToInt16(samples[index]));
      Sequences.Assoc(Header(dataBytes, sampleRate), Pcm16(samples[..index]), Le16(Unsigned(ClampToInt16(samples[index]))));
    }
    assert samples[..|samples|] == samples;
    file := view[..];
    assert file == view[..44 + 2 * |samples|];
  }

  // ---- the server's reader ----

  datatype WavReject = Malformed | UnsupportedFormat | TooLong

  datatype Parsed = Clip(samples: seq<real>, durationMs: nat) | Rejected(reason: WavReject)

  function Decoded(data: seq<byte>): seq<real> {
    if |data| < 2 then []
    else Decoded(data[..|data| - 2]) + [ToFloat(Signed(U16(data[|data| - 2..])))]
  }

  function Judged(samples: seq<real>): Parsed {
    var durationMs := |samples| * 1000 / TARGET_SAMPLE_RATE;
    if samples == [] then Rejected(Malformed)
    else if durationMs > MAX_CLIP_MS then Rejected(TooLong)
    else Clip(samples, durationMs)
  }

  /** The canonical layout: a 44-byte header, integer PCM, and at least the data it announces. */
  function ParseWav(body: seq<byte>): Parsed {
    if |body| < 44 || body[..4] != Ascii("RIFF") || body[8..12] != Ascii("WAVE") then Rejected(Malformed)
    else if body[12..16] != Ascii("fmt ") || U32(body[16..20]) != 16 || body[36..40] != Ascii("data") then
      Rejected(Malformed)
    else
      var format, channels, rate, bits := U16(body[20..22]), U16(body[22..24]), U32(body[24..28]), U16(body[34..36]);
      var dataBytes := U32(body[40..44]);
      if format != 1 || channels != 1 || rate != TARGET_SAMPLE_RATE || bits != 16 then Rejected(UnsupportedFormat)
      else if dataBytes % 2 != 0 || dataBytes > |body| - 44 then Rejected(Malformed)
      else Judged(Decoded(body[44..44 + dataBytes]))
  }

  lemma DecodedSnoc(data: seq<byte>, v: int16)
    ensures Decoded(data + Le16(Unsigned(v))) == Decoded(data) + [ToFloat(v)]
  {
    U16OfLe16(Unsigned(v));
    hide U16, Le16, ToFloat;
    var longer := data + Le16(Unsigned(v));
    assert longer[..|longer| - 2] == data && longer[|longer| - 2..] == Le16(Unsigned(v));
  }

  /** The samples as they can be read back. */
  function Quantized(samples: seq<real>): seq<real> {
    seq(|samples|, i requires 0 <= i < |samples| => ToFloat(ClampToInt16(samples[i])))
  }

  lemma QuantizedSnoc(samples: seq<real>)
    requires samples != []
    ensures Quantized(samples) ==
            Quantized(samples[..|samples| - 1]) + [ToFloat(ClampToInt16(samples[|samples| - 1]))]
  {
    hide ToFloat, ClampToInt16;
  }

  /** What the server decodes from the encoder's data bytes: the quantized samples, in order. */
  lemma {:induction false} DecodedPcm16(samples: seq<real>)
    ensures Decoded(Pcm16(samples)) == Quantized(samples)
  {
    if samples != [] {
      hide Decoded, Quantized, Le16, ToFloat, ClampToInt16;
      DecodedPcm16(samples[..|samples| - 1]);
      DecodedSnoc(Pcm16(samples[..|samples| - 1]), ClampToInt16(samples[|samples| - 1]));
      QuantizedSnoc(samples);
    }
  }

  lemma {:induction false} Pcm16Prefix(samples: seq<real>, n: nat)
    requires n <= |samples|
    ensures Pcm16(samples)[..2 * n] == Pcm16(samples[..n])
  {
    hide Le16, ClampToInt16;
    if n == |samples| {
      assert samples[..n] == samples;
    } else {
      Pcm16Prefix(samples[..|samples| - 1], n);
      assert samples[..|samples| - 1][..n] == samples[..n];
    }
  }

  /** What reaches the server: the size field of the data chunk wraps at 2^32 bytes. */
  function Received(samples: seq<real>): seq<real> {
    samples[..|samples| % 0x8000_0000]
  }

  /** The whole trip from browser to server, for every clip: what is accepted, what is refused and why,
      and how far each accepted sample can be from the one recorded. */
  lemma UploadedClip(samples: seq<real>, sampleRate: int)
    ensures var parsed, received := ParseWav(WavFile(samples, sampleRate)), Received(samples);
      && (received == samples <==> |samples| < 0x8000_0000)
      && if Wrap32(sampleRate) != TARGET_SAMPLE_RATE then parsed == Rejected(UnsupportedFormat)
         else if received == [] then parsed == Rejected(Malformed)
         else if |received| >= 192_016 then parsed == Rejected(TooLong)
         else
           && parsed.Clip? && parsed.durationMs == |received| / 16 && |parsed.samples| == |received|
           && forall i :: 0 <= i < |received| ==> Near(parsed.samples[i], received[i])
  {
    ParsesOwnHeader(samples, sampleRate);
    hide ParseWav, Pcm16, ToFloat, ClampToInt16, Clamp, WavFile;
    var parsed, received := ParseWav(WavFile(samples, sampleRate)), Received(samples);
    if parsed.Clip? {
      forall i | 0 <= i < |received| ensures Near(parsed.samples[i], received[i]) {
        QuantizationError(received[i]);
      }
    }
  }

  ghost predicate Describes(h: seq<byte>, dataBytes: nat, sampleRate: nat)
    requires |h| == 44
  {
    && h[..4] == Ascii("RIFF") && h[8..12] == Ascii("WAVE") && h[12..16] == Ascii("fmt ") && h[36..40] == Ascii("data")
    && U32(h[16..20]) == 16 && U16(h[20..22]) == 1 && U16(h[22..24]) == 1 && U32(h[24..28]) == sampleRate
    && U16(h[34..36]) == 16 && U32(h[40..44]) == dataBytes
  }

  /** The fields no reader here looks at: the size of the whole file less eight bytes, the bytes per
      second, and the bytes per frame. */
  lemma HeaderSizes(dataBytes: nat, sampleRate: int)
    ensures var h := Header(dataBytes, sampleRate);
      && U32(h[4..8]) == (dataBytes + 44 - 8) % 0x1_0000_0000
      && U32(h[28..32]) == 2 * sampleRate % 0x1_0000_0000 && U16(h[32..34]) == 2
  {
    hide Ascii, Le16, Le32, Wrap32, U16, U32;
    var h := Header(dataBytes, sampleRate);
    assert h[4..8] == Le32(Wrap32(36 + dataBytes)) && h[28..32] == Le32(Wrap32(sampleRate * 2)) && h[32..34] == Le16(2);
    U32OfLe32(Wrap32(36 + dataBytes));
    U32OfLe32(Wrap32(sampleRate * 2));
    U16OfLe16(2);
    WrapIs(36 + dataBytes);
    WrapIs(sampleRate * 2);
  }

  lemma WrapIs(v: int)
    ensures Wrap32(v) == v % 0x1_0000_0000
  {
  }

  /** The four tags, as bytes. */
  lemma TagBytes()
    ensures Ascii("RIFF") == [0x52, 0x49, 0x46, 0x46] && Ascii("WAVE") == [0x57, 0x41, 0x56, 0x45]
    ensures Ascii("fmt ") == [0x66, 0x6D, 0x74, 0x20] && Ascii("data") == [0x64, 0x61, 0x74, 0x61]
  {
  }

  lemma HeaderDescribes(dataBytes: nat, sampleRate: int)
    ensures Describes(Header(dataBytes, sampleRate), Wrap32(dataBytes), Wrap32(sampleRate))
  {
    hide Ascii, Le16, Le32, Wrap32, U16, U32;
    var h := Header(dataBytes, sampleRate);
    assert h[..4] == Ascii("RIFF") && h[8..12] == Ascii("WAVE");
    assert h[12..16] == Ascii("fmt ") && h[36..40] == Ascii("data");
    assert h[16..20] == Le32(16) && h[20..22] == Le16(1) && h[22..24] == Le16(1);
    assert h[24..28] == Le32(Wrap32(sampleRate)) && h[34..36] == Le16(16);
    assert h[40..44] == Le32(Wrap32(dataBytes));
    U32OfLe32(16);
    U16OfLe16(1);
    U32OfLe32(Wrap32(sampleRate));
    U16OfLe16(16);
    U32OfLe32(Wrap32(dataBytes));
  }

  lemma ParsesDescribed(header: seq<byte>, data: seq<byte>, dataBytes: nat, sampleRate: nat)
    requires |header| == 44 && Describes(header, dataBytes, sampleRate) && dataBytes <= |data|
    ensures ParseWav(header + data) ==
      if sampleRate != TARGET_SAMPLE_RATE then Rejected(UnsupportedFormat)
      else if dataBytes % 2 != 0 then Rejected(Malformed)
      else Judged(Decoded(data[..dataBytes]))
  {
    hide Ascii, Decoded, U16, U32, Judged;
    HeaderOfFile(header, data);
    assert (header + data)[44..44 + dataBytes] == data[..dataBytes];
  }

  lemma WrappedSize(n: nat)
    ensures Wrap32(2 * n) == 2 * (n % 0x8000_0000) && Wrap32(2 * n) % 2 == 0 && n % 0x8000_0000 <= n
  {
  }

  lemma ParsesOwnHeader(samples: seq<real>, sampleRate: int)
    ensures ParseWav(WavFile(samples, sampleRate)) ==
      if Wrap32(sampleRate) != TARGET_SAMPLE_RATE then Rejected(UnsupportedFormat)
      else Judged(Quantized(Received(samples)))
  {
    hide Header, ParseWav, Decoded, Pcm16, Ascii, U16, U32, Judged, Wrap32, Quantized, Describes;
    var header := Header(2 * |samples|, sampleRate);
    HeaderDescribes(2 * |samples|, sampleRate);
    WrappedSize(|samples|);
    ParsesDescribed(header, Pcm16(samples), Wrap32(2 * |samples|), Wrap32(sampleRate));
    Pcm16Prefix(samples, |samples| % 0x8000_0000);
    DecodedPcm16(Received(samples));
  }

  lemma HeaderOfFile(header: seq<byte>, data: seq<byte>)
    requires |header| == 44
    ensures var body := header + data;
      && body[..4] == header[..4] && body[8..12] == header[8..12] && body[12..16] == header[12..16]
      && body[36..40] == header[36..40] && body[16..20] == header[16..20] && body[20..22] == header[20..22]
      && body[22..24] == header[22..24] && body[24..28] == header[24..28] && body[34..36] == header[34..36]
      && body[40..44] == header[40..44] && body[44..44 + |data|] == data
  {
  }

  /** Within one and a half quantization steps of the sample, taken as clamped into range. */
  predicate Near(decoded: real, sample: real) {
    -1.5 / 32768.0 <= decoded - Clamp(sample) <= 1.5 / 32768.0
  }

  // ---- resampling ----

  function ResampledLength(n: nat, ratio: real): (length: nat)
    requires ratio > 0.0
    ensures length >= 1
  {
    var whole := (n as real / ratio).Floor;
    if whole > 1 then whole else 1
  }

  /** Linear interpolation at `position`, holding the last sample past the end. */
  function At(input: seq<real>, position: real): real
    requires 0.0 <= position < |input| as real
  {
    var lower := position.Floor;
    var upper := if lower + 1 < |input| - 1 then lower + 1 else |input| - 1;
    input[lower] + (input[upper] - input[lower]) * (position - lower as real)
  }

  function Position(index: nat, ratio: real): real {
    index as real * ratio
  }

  /** Every position the loop visits lies inside the input. */
  lemma PositionIsInside(n: nat, ratio: real, index: nat)
    requires n > 0 && ratio > 0.0 && index < ResampledLength(n, ratio)
    ensures 0.0 <= Position(index, ratio) < n as real
  {
    var quotient, k := n as real / ratio, index as real;
    assert quotient * ratio == n as real;
    if index > 0 {
      ProductIsMonotone(k, quotient, ratio);
    }
    NonNegative(k, ratio);
  }

  lemma ProductIsMonotone(a: real, b: real, c: real)
    requires a <= b && c > 0.0
    ensures a * c <= b * c && (a < b ==> a * c < b * c)
  {
    var gap := b - a;
    NonNegative(gap, c);
    assert b * c == a * c + gap * c;
  }

  lemma NonNegative(x: real, y: real)
    requires x >= 0.0 && y >= 0.0
    ensures x * y >= 0.0 && (x > 0.0 && y > 0.0 ==> x * y > 0.0)
  {
  }

  method ResampleLinear(input: seq<real>, inputRate: real, targetRate: real) returns (result: seq<real>)
    ensures inputRate <= 0.0 || targetRate <= 0.0 || input == [] ==> result == []
    ensures inputRate > 0.0 && inputRate == targetRate ==> result == input
    ensures inputRate > 0.0 && targetRate > 0.0 && input != [] && inputRate != targetRate ==>
      && |result| == ResampledLength(|input|, inputRate / targetRate)
      && forall k :: 0 <= k < |result| ==>
           && 0.0 <= Position(k, inputRate / targetRate) < |input| as real
           && result[k] == At(input, Position(k, inputRate / targetRate))
  {
    if inputRate <= 0.0 || targetRate <= 0.0 || |input| == 0 {
      return [];
    }
    if inputRate == targetRate {
      return input;
    }
    hide Position, ResampledLength;
    var ratio := inputRate / targetRate;
    var outputLength := ResampledLength(|input|, ratio);
    var output := new real[outputLength];
    for index := 0 to outputLength
      invariant forall k :: 0 <= k < index ==>
        0.0 <= Position(k, ratio) < |input| as real && output[k] == At(input, Position(k, ratio))
    {
      PositionIsInside(|input|, ratio, index);
      var position := Position(index, ratio);
      var lower := position.Floor;
      var upper := if lower + 1 < |input| - 1 then lower + 1 else |input| - 1;
      var fraction := position - lower as real;
      output[index] := input[lower] + (input[upper] - input[lower]) * fraction;
    }
    result := output[..];
  }

  /** The output lasts as long as the input, to within one output sample. */
  lemma DurationIsKept(n: nat, ratio: real)
    requires n > 0 && ratio > 0.0
    ensures n as real < Position(ResampledLength(n, ratio) + 1, ratio)
    ensures ResampledLength(n, ratio) > 1 ==> Position(ResampledLength(n, ratio), ratio) <= n as real
  {
    var quotient, length := n as real / ratio, ResampledLength(n, ratio);
    assert quotient * ratio == n as real;
    PositionOrder(length, quotient, ratio, n);
    PositionOrder(length + 1, quotient, ratio, n);
  }

  lemma PositionOrder(index: nat, quotient: real, ratio: real, n: nat)
    requires ratio > 0.0 && quotient * ratio == n as real
    ensures index as real <= quotient ==> Position(index, ratio) <= n as real
    ensures index as real > quotient ==> Position(index, ratio) > n as real
  {
    var k := index as real;
    if k <= quotient {
      ProductIsMonotone(k, quotient, ratio);
    } else {
      ProductIsMonotone(quotient, k, ratio);
    }
  }

  lemma PartOfRise(d: real, f: real)
    requires d >= 0.0 && 0.0 <= f <= 1.0
    ensures 0.0 <= d * f <= d
  {
    NonNegative(d, f);
    NonNegative(d, 1.0 - f);
    assert d * (1.0 - f) == d - d * f;
  }

  lemma PartOfFall(d: real, f: real)
    requires d <= 0.0 && 0.0 <= f <= 1.0
    ensures d <= d * f <= 0.0
  {
    NonNegative(-d, f);
    NonNegative(-d, 1.0 - f);
    assert (-d) * f == -(d * f);
    assert (-d) * (1.0 - f) == d * f - d;
  }

  lemma BetweenEnds(a: real, d: real, f: real, low: real, high: real)
    requires 0.0 <= f < 1.0 && low <= a <= high && low <= a + d <= high
    ensures low <= a + d * f <= high
  {
    var part := d * f;
    assert d >= 0.0 ==> 0.0 <= part <= d by {
      if d >= 0.0 { PartOfRise(d, f); }
    }
    assert d <= 0.0 ==> d <= part <= 0.0 by {
      if d <= 0.0 { PartOfFall(d, f); }
    }
  }

  /** No overshoot: what every input sample satisfies, every output sample satisfies. */
  lemma InterpolationStaysInRange(input: seq<real>, position: real, low: real, high: real)
    requires 0.0 <= position < |input| as real
    requires forall k :: 0 <= k < |input| ==> low <= input[k] <= high
    ensures low <= At(input, position) <= high
  {
    var lower := position.Floor;
    var upper := if lower + 1 < |input| - 1 then lower + 1 else |input| - 1;
    BetweenEnds(input[lower], input[upper] - input[lower], position - lower as real, low, high);
  }

  /** A straight line is resampled to itself, up to the last input sample. */
  lemma LineIsKept(input: seq<real>, position: real, start: real, slope: real)
    requires 0.0 <= position <= (|input| - 1) as real
    requires forall k :: 0 <= k < |input| ==> input[k] == start + slope * k as real
    ensures At(input, position) == start + slope * position
  {
    var lower := position.Floor;
    var fraction := position - lower as real;
    if lower == |input| - 1 {
      assert fraction == 0.0;
    } else {
      assert input[lower + 1] - input[lower] == slope by {
        assert slope * (lower + 1) as real == slope * lower as real + slope;
      }
      assert slope * position == slope * lower as real + slope * fraction;
    }
  }


  /** Interpolation meets every input sample, weighs its two neighbours between them, and holds the last
      one past the end. */
  lemma InterpolationBetween(input: seq<real>, k: nat, fraction: real)
    requires k < |input| && 0.0 <= fraction < 1.0
    ensures At(input, k as real) == input[k]
    ensures k + 1 < |input| ==> At(input, k as real + fraction) == input[k] * (1.0 - fraction) + input[k + 1] * fraction
    ensures k + 1 == |input| ==> At(input, k as real + fraction) == input[k]
  {
    var next := if k + 1 < |input| then k + 1 else k;
    var rise := input[next] - input[k];
    assert (k as real + fraction).Floor == k && (k as real).Floor == k;
    assert rise * 0.0 == 0.0;
    assert rise * fraction == input[next] * fraction - input[k] * fraction;
  }

  /** A browser's 48 kHz recording at the server's rate: every third sample, exactly. */
  method ResampleFrom48k(input: seq<real>) returns (result: seq<real>)
    requires input != []
    ensures |result| == if |input| < 3 then 1 else |input| / 3
    ensures forall k :: 0 <= k < |result| ==> 3 * k < |input| && result[k] == input[3 * k]
  {
    result := ResampleLinear(input, 48_000.0, 16_000.0);
    ThirdOf(|input|);
    forall k: nat | k < |result| ensures 3 * k < |input| && result[k] == input[3 * k] {
      assert Position(k, 3.0) == (3 * k) as real;
      InterpolationBetween(input, 3 * k, 0.0);
    }
  }

  lemma ThirdOf(n: nat)
    ensures 48_000.0 / 16_000.0 == 3.0
    ensures ResampledLength(n, 3.0) == if n < 3 then 1 else n / 3
  {
    var third: nat := n / 3;
    assert third as real <= n as real / 3.0 < (third + 1) as real;
  }

  /** Doubling the rate keeps every sample and puts the mean of its neighbours between two. */
  lemma DoubledRate(input: seq<real>, k: nat)
    requires k < |input|
    ensures ResampledLength(|input|, 0.5) == 2 * |input|
    ensures Position(2 * k, 0.5) == k as real && At(input, Position(2 * k, 0.5)) == input[k]
    ensures k + 1 < |input| ==>
      0.0 <= Position(2 * k + 1, 0.5) < |input| as real &&
      At(input, Position(2 * k + 1, 0.5)) == (input[k] + input[k + 1]) / 2.0
  {
    assert |input| as real / 0.5 == (2 * |input|) as real;
    assert Position(2 * k + 1, 0.5) == k as real + 0.5;
    InterpolationBetween(input, k, 0.5);
  }
}
