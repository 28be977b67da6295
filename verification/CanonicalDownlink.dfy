/** Provider PCM to canonical downlink frames: fade in, resample, quantize, frame, fade out, pad.

The Opus encoder is not part of this model: a packet is the 1440-sample frame handed to it.
*/
module CanonicalDownlink {
  import opened Basics
  import opened Sequences

  import opened Resampler

  const ZEROTTS_SAMPLE_RATE_HZ: nat := 48_000
  const CANONICAL_DOWNLINK_SAMPLE_RATE_HZ: nat := 24_000
  const FADE_IN_SAMPLES: nat := 384
  const FADE_OUT_SAMPLES: nat := 480
  const DOWNLINK_FRAME_SAMPLES: nat := 1_440

  type i16 = x: int | -0x8000 <= x < 0x8000

  type Frame = seq<i16>

  datatype Pushed = Packets(frames: seq<Frame>) | InvalidProviderPcm | InvalidDownlinkPcm

  // ---- sample arithmetic ----

  /** Rust's `round`: to the nearest integer, halves away from zero. */
  function RoundAway(x: real): int {
    if x >= 0.0 then (x + 0.5).Floor else -((-x + 0.5).Floor)
  }

  function FloatToI16(sample: real): i16 {
    var clamped := if sample < -1.0 then -1.0 else if sample > 1.0 then 1.0 else sample;
    RoundAway(clamped * 32767.0)
  }

  function Quantize(samples: seq<real>): (q: seq<i16>)
    ensures |q| == |samples|
  {
    seq(|samples|, i requires 0 <= i < |samples| => FloatToI16(samples[i]))
  }

  /** Scaling a sample towards zero keeps it in range, so the final cast never wraps. */
  lemma ScaledStaysInRange(sample: i16, gain: real)
    requires 0.0 <= gain <= 1.0
    ensures -0x8000 <= RoundAway(sample as real * gain) < 0x8000
  {
    var y := sample as real * gain;
    ScaleShrinks(sample as real, gain);
    assert -32768.0 <= y <= 32767.0;
    RoundAwayInRange(y);
  }

  lemma RoundAwayInRange(y: real)
    requires -32768.0 <= y <= 32767.0
    ensures -0x8000 <= RoundAway(y) < 0x8000
  {
  }

  lemma ScaleShrinks(x: real, gain: real)
    requires 0.0 <= gain <= 1.0
    ensures x >= 0.0 ==> 0.0 <= x * gain <= x
    ensures x <= 0.0 ==> x <= x * gain <= 0.0
  {
  }

  /** The gain of sample `index` in a terminal fade over `fade` samples: one down to zero. */
  function FadeOutGain(index: nat, fade: nat): (gain: real)
    requires index < fade && fade > 1
    ensures 0.0 <= gain <= 1.0
  {
    1.0 - index as real / (fade - 1) as real
  }

  function FadedOutSample(sample: i16, index: nat, fade: nat): i16
    requires index < fade && fade > 1
  {
    ScaledStaysInRange(sample, FadeOutGain(index, fade));
    RoundAway(sample as real * FadeOutGain(index, fade))
  }

  ghost function FadeOut(samples: seq<i16>): (faded: seq<i16>)
    ensures |faded| == |samples|
  {
    var fade := Min(FADE_OUT_SAMPLES, |samples|);
    if fade <= 1 then samples
    else seq(|samples|, i requires 0 <= i < |samples| =>
               if i < |samples| - fade then samples[i]
               else FadedOutSample(samples[i], i - (|samples| - fade), fade))
  }

  /** Sample `index` of a ramp from zero up to full level over `fade` samples. */
  function Ramped(x: real, index: nat, fade: nat): real
    requires index < fade
  {
    x * (index as real / fade as real)
  }

  ghost function FadeInOver(x: seq<real>, fade: nat): (faded: seq<real>)
    ensures |faded| == |x|
  {
    seq(|x|, i requires 0 <= i < |x| => if i < fade then Ramped(x[i], i, fade) else x[i])
  }

  // ---- the reference ----

  /** Provider samples after the fade, which only ever touches the first chunk. */
  ghost function Faded(chunks: seq<seq<real>>): seq<real> {
    if chunks == [] then []
    else FadeInOver(chunks[0], Min(FADE_IN_SAMPLES, |chunks[0]|)) + Concat(chunks[1..])
  }

  /** The canonical 24 kHz stream of a generation. */
  ghost function Converted(h: seq<real>, rate: nat, chunks: seq<seq<real>>): seq<i16>
    requires |h| == TAPS
  {
    Quantize(if rate == ZEROTTS_SAMPLE_RATE_HZ then Batch(h, Faded(chunks)) else Faded(chunks))
  }

  ghost function PadToFrame(samples: seq<i16>): Frame {
    if |samples| >= DOWNLINK_FRAME_SAMPLES then samples[..DOWNLINK_FRAME_SAMPLES]
    else samples + seq(DOWNLINK_FRAME_SAMPLES - |samples|, _ => 0)
  }

  ghost function LastFrames(tail: seq<i16>): seq<Frame> {
    if tail == [] then [] else [PadToFrame(FadeOut(tail))]
  }

  /** All frames of a finished stream: full frames, then the faded and padded remainder. */
  ghost function FramesOf(stream: seq<i16>): seq<Frame>
    decreases |stream|
  {
    if |stream| < DOWNLINK_FRAME_SAMPLES then LastFrames(stream)
    else [stream[..DOWNLINK_FRAME_SAMPLES]] + FramesOf(stream[DOWNLINK_FRAME_SAMPLES..])
  }

  /** Everything a finished generation sends. */
  ghost function GenerationFrames(h: seq<real>, rate: Option<nat>, received: seq<seq<real>>): seq<Frame>
    requires |h| == TAPS
  {
    if rate.None? then [] else FramesOf(Converted(h, rate.value, received))
  }

  // ---- the pipeline ----

  method FadeOutTail(samples: array<i16>)
    modifies samples
    ensures samples[..] == FadeOut(old(samples[..]))
  {
    hide FadedOutSample;
    var fade := Min(FADE_OUT_SAMPLES, samples.Length);
    if fade <= 1 {
      return;
    }
    var fadeStart := samples.Length - fade;
    var index := 0;
    while index < fade
      invariant 0 <= index <= fade
      invariant forall i :: 0 <= i < samples.Length && !(fadeStart <= i < fadeStart + index) ==> samples[i] == old(samples[i])
      invariant forall i :: fadeStart <= i < fadeStart + index ==>
                              samples[i] == FadedOutSample(old(samples[i]), i - fadeStart, fade)
    {
      samples[fadeStart + index] := FadedOutSample(samples[fadeStart + index], index, fade);
      index := index + 1;
    }
  }

  /** The fade-in loop of `push_provider_pcm`; a sample that is not finite stays so. */
  method FadeInChunk(chunk: seq<Sample>) returns (faded: seq<Sample>)
    ensures |faded| == |chunk|
    ensures AllFinite(faded) <==> AllFinite(chunk)
    ensures AllFinite(chunk) ==> Values(faded) == FadeInOver(Values(chunk), Min(FADE_IN_SAMPLES, |chunk|))
  {
    hide Ramped;
    faded := chunk;
    var fade := Min(FADE_IN_SAMPLES, |chunk|);
    for index := 0 to fade
      invariant |faded| == |chunk|
      invariant forall i :: index <= i < |chunk| ==> faded[i] == chunk[i]
      invariant forall i :: 0 <= i < index ==> faded[i] == RampedSample(chunk[i], i, fade)
    {
      faded := faded[index := RampedSample(faded[index], index, fade)];
    }
    forall i | 0 <= i < |chunk| ensures faded[i].Finite? == chunk[i].Finite? {
      if i < fade {
        assert faded[i] == RampedSample(chunk[i], i, fade);
      }
    }
    if AllFinite(chunk) {
      var values := Values(chunk);
      forall i | 0 <= i < |chunk| ensures Values(faded)[i] == FadeInOver(values, fade)[i] {
        if i < fade {
          assert faded[i] == RampedSample(chunk[i], i, fade);
        }
      }
    }
  }

  function RampedSample(sample: Sample, index: nat, fade: nat): Sample
    requires index < fade
  {
    if sample.Finite? then Finite(Ramped(sample.value, index, fade)) else NotFinite
  }

  class CanonicalDownlinkPipeline {
    const resampler: DownlinkResampler
    var providerSampleRateHz: Option<nat>
    var firstPcmChunk: bool
    var downlinkTail: seq<i16>
    /** The accepted chunks and the frames sent for them; `intact` until a chunk fails half way. */
    ghost var received: seq<seq<real>>
    ghost var sent: seq<Frame>
    ghost var intact: bool

    ghost predicate Valid()
      reads this, resampler
    {
      && resampler.Valid()
      && |downlinkTail| < DOWNLINK_FRAME_SAMPLES
      && (intact ==> Refines(resampler.coefficients, received, sent, providerSampleRateHz, firstPcmChunk,
                             downlinkTail, resampler.admitted))
    }

    constructor (coefficients: seq<real>)
      requires |coefficients| == TAPS
      ensures Valid() && fresh(resampler) && resampler.coefficients == coefficients
      ensures intact && received == [] && sent == []
    {
      var r := new DownlinkResampler(coefficients);
      resampler := r;
      providerSampleRateHz, firstPcmChunk, downlinkTail := None, true, [];
      received, sent, intact := [], [], true;
    }

    /** Refused before anything changes. */
    predicate Refuses(pcm: seq<Sample>, rate: nat)
      reads this
    {
      || (rate != ZEROTTS_SAMPLE_RATE_HZ && rate != CANONICAL_DOWNLINK_SAMPLE_RATE_HZ)
      || pcm == []
      || (providerSampleRateHz.Some? && providerSampleRateHz.value != rate)
    }

    method PushProviderPcm(pcm: seq<Sample>, rate: nat) returns (r: Pushed)
      requires Valid()
      modifies this, resampler
      ensures Valid()
      ensures old(Refuses(pcm, rate)) <==>
              || pcm == [] || (rate != 24_000 && rate != 48_000)
              || (old(providerSampleRateHz).Some? && old(providerSampleRateHz).value != rate)
      ensures old(Refuses(pcm, rate)) ==> r == InvalidProviderPcm && unchanged(this) && unchanged(resampler)
      ensures !old(Refuses(pcm, rate)) ==> providerSampleRateHz == Some(rate) && !firstPcmChunk
      ensures !old(Refuses(pcm, rate)) && AllFinite(pcm) ==>
                && r.Packets? && intact == old(intact)
                && received == old(received) + [Values(pcm)] && sent == old(sent) + r.frames
      ensures !old(Refuses(pcm, rate)) && !AllFinite(pcm) ==>
                && r == (if rate == ZEROTTS_SAMPLE_RATE_HZ then Pushed.InvalidDownlinkPcm else InvalidProviderPcm)
                && downlinkTail == old(downlinkTail) && sent == old(sent) && !intact
    {
      if Refuses(pcm, rate) {
        return InvalidProviderPcm;
      }
      r := Admit(pcm, rate);
    }

    /** `push_provider_pcm` past its guard. */
    method Admit(pcm: seq<Sample>, rate: nat) returns (r: Pushed)
      requires Valid() && !Refuses(pcm, rate)
      modifies this, resampler
      ensures Valid() && providerSampleRateHz == Some(rate) && !firstPcmChunk
      ensures AllFinite(pcm) ==>
                && r.Packets? && intact == old(intact)
                && received == old(received) + [Values(pcm)] && sent == old(sent) + r.frames
      ensures !AllFinite(pcm) ==>
                && r == (if rate == ZEROTTS_SAMPLE_RATE_HZ then Pushed.InvalidDownlinkPcm else InvalidProviderPcm)
                && downlinkTail == old(downlinkTail) && sent == old(sent) && !intact
    {
      hide Refines, Downsampled, Quantize, FadeInOver, FullFrames;
      ghost var tail, admitted, known := downlinkTail, resampler.admitted, providerSampleRateHz;
      ghost var first := firstPcmChunk;
      providerSampleRateHz := Some(rate);
      var samples := pcm;
      if firstPcmChunk {
        samples := FadeInChunk(pcm);
        firstPcmChunk := false;
      }
      var converted := ToDownlinkRate(samples, rate);
      if !converted.Ok? {
        intact := false;
        return if rate == ZEROTTS_SAMPLE_RATE_HZ then Pushed.InvalidDownlinkPcm else InvalidProviderPcm;
      }
      var downlink := converted.output;
      downlinkTail := downlinkTail + Quantize(downlink);
      var packets := TakeCompletePackets();
      if intact {
        PushRefines(resampler.coefficients, received, sent, known, first, tail, admitted,
                    Values(pcm), rate, Values(samples), downlink, resampler.admitted, packets, downlinkTail);
      }
      received, sent := received + [Values(pcm)], sent + packets;
      r := Packets(packets);
    }

    /** The `match` on the provider rate. */
    method ToDownlinkRate(samples: seq<Sample>, rate: nat) returns (r: Processed)
      requires resampler.Valid()
      modifies resampler
      ensures resampler.Valid()
      ensures r.Ok? <==> AllFinite(samples)
      ensures r.Ok? ==> Downsampled(resampler.coefficients, rate, old(resampler.admitted), Values(samples),
                                    r.output, resampler.admitted)
    {
      if rate == ZEROTTS_SAMPLE_RATE_HZ {
        r := resampler.Process(samples);
      } else if AllFinite(samples) {
        r := Ok(Values(samples));
      } else {
        r := Processed.InvalidDownlinkPcm;
      }
    }

    method Finish() returns (packets: seq<Frame>)
      requires Valid()
      modifies this
      ensures packets == LastFrames(old(downlinkTail))
      ensures sent == old(sent) + packets && downlinkTail == []
      ensures received == old(received) && providerSampleRateHz == old(providerSampleRateHz)
      ensures old(intact) ==> sent == GenerationFrames(resampler.coefficients, providerSampleRateHz, received)
    {
      ghost var tail := downlinkTail;
      if intact {
        FinishRefines(resampler.coefficients, received, sent, providerSampleRateHz, firstPcmChunk, tail, resampler.admitted);
      }
      intact := false;
      packets := [];
      if downlinkTail != [] {
        var buffer := new i16[|downlinkTail|](i requires 0 <= i < |downlinkTail| reads this => downlinkTail[i]);
        assert buffer[..] == tail;
        FadeOutTail(buffer);
        var frame := buffer[..] + seq(DOWNLINK_FRAME_SAMPLES - |downlinkTail|, _ => 0);
        packets := [frame];
        downlinkTail := [];
      }
      sent := sent + packets;
    }

    method TakeCompletePackets() returns (packets: seq<Frame>)
      modifies this`downlinkTail
      ensures Concat(packets) + downlinkTail == old(downlinkTail)
      ensures |downlinkTail| < DOWNLINK_FRAME_SAMPLES && FullFrames(packets)
    {
      packets := [];
      while |downlinkTail| >= DOWNLINK_FRAME_SAMPLES
        invariant Concat(packets) + downlinkTail == old(downlinkTail) && FullFrames(packets)
      {
        var frame := downlinkTail[..DOWNLINK_FRAME_SAMPLES];
        ConcatAppend(packets, [frame]);
        ConcatSingle(frame);
        assert downlinkTail == frame + downlinkTail[DOWNLINK_FRAME_SAMPLES..];
        Assoc(Concat(packets), frame, downlinkTail[DOWNLINK_FRAME_SAMPLES..]);
        downlinkTail := downlinkTail[DOWNLINK_FRAME_SAMPLES..];
        packets := packets + [frame];
      }
    }
  }

  ghost predicate FullFrames(frames: seq<Frame>) {
    forall i :: 0 <= i < |frames| ==> |frames[i]| == DOWNLINK_FRAME_SAMPLES
  }

  /** What an intact pipeline holds for the chunks it has accepted. */
  ghost predicate Refines(h: seq<real>, received: seq<seq<real>>, sent: seq<Frame>, rate: Option<nat>, first: bool,
                          tail: seq<i16>, admitted: seq<real>)
    requires |h| == TAPS
  {
    && FullFrames(sent)
    && first == rate.None? == (received == [])
    && admitted == (if rate == Some(ZEROTTS_SAMPLE_RATE_HZ) then Faded(received) else [])
    && (rate.Some? ==> rate.value == ZEROTTS_SAMPLE_RATE_HZ || rate.value == CANONICAL_DOWNLINK_SAMPLE_RATE_HZ)
    && Concat(sent) + tail == (if rate.None? then [] else Converted(h, rate.value, received))
  }

  /** One chunk at the downlink rate, and what the resampler has admitted since. */
  ghost predicate Downsampled(h: seq<real>, rate: nat, admitted: seq<real>, faded: seq<real>, downlink: seq<real>,
                              admitted': seq<real>)
    requires |h| == TAPS
  {
    if rate == ZEROTTS_SAMPLE_RATE_HZ
    then admitted' == admitted + faded && Batch(h, admitted') == Batch(h, admitted) + downlink
    else admitted' == admitted && downlink == faded
  }

  lemma QuantizeAppend(a: seq<real>, b: seq<real>)
    ensures Quantize(a + b) == Quantize(a) + Quantize(b)
  {
    hide FloatToI16;
  }

  lemma FadedAppend(received: seq<seq<real>>, values: seq<real>)
    ensures Faded(received + [values]) == Faded(received) +
            if received == [] then FadeInOver(values, Min(FADE_IN_SAMPLES, |values|)) else values
  {
    hide FadeInOver;
    var longer := received + [values];
    if received == [] {
      assert longer[1..] == [];
    } else {
      assert longer[1..] == received[1..] + [values];
      ConcatAppend(received[1..], [values]);
      ConcatSingle(values);
      Assoc(FadeInOver(received[0], Min(FADE_IN_SAMPLES, |received[0]|)), Concat(received[1..]), values);
    }
  }

  lemma PushRefines(h: seq<real>, received: seq<seq<real>>, sent: seq<Frame>, known: Option<nat>, first: bool,
                    tail: seq<i16>, admitted: seq<real>, values: seq<real>, rate: nat, faded: seq<real>,
                    downlink: seq<real>, admitted': seq<real>, packets: seq<Frame>, tail': seq<i16>)
    requires |h| == TAPS && Refines(h, received, sent, known, first, tail, admitted)
    requires rate == ZEROTTS_SAMPLE_RATE_HZ || rate == CANONICAL_DOWNLINK_SAMPLE_RATE_HZ
    requires known.Some? ==> known.value == rate
    requires faded == if first then FadeInOver(values, Min(FADE_IN_SAMPLES, |values|)) else values
    requires Downsampled(h, rate, admitted, faded, downlink, admitted')
    requires FullFrames(packets) && Concat(packets) + tail' == tail + Quantize(downlink)
    ensures Refines(h, received + [values], sent + packets, Some(rate), false, tail', admitted')
  {
    hide Faded, Converted, Batch, Quantize, FadeInOver;
    FadedAppend(received, values);
    NothingConverted(h, rate);
    ConvertedAppend(h, rate, received, values, downlink);
    ConcatAppend(sent, packets);
    Assoc(Concat(sent), Concat(packets), tail');
    Assoc(Concat(sent), tail, Quantize(downlink));
    assert Concat(sent) + tail == Converted(h, rate, received);
  }

  lemma ConvertedAppend(h: seq<real>, rate: nat, received: seq<seq<real>>, values: seq<real>, downlink: seq<real>)
    requires |h| == TAPS
    requires if rate == ZEROTTS_SAMPLE_RATE_HZ
             then Batch(h, Faded(received + [values])) == Batch(h, Faded(received)) + downlink
             else Faded(received + [values]) == Faded(received) + downlink
    ensures Converted(h, rate, received + [values]) == Converted(h, rate, received) + Quantize(downlink)
  {
    hide Batch, Faded, Quantize;
    QuantizeAppend(if rate == ZEROTTS_SAMPLE_RATE_HZ then Batch(h, Faded(received)) else Faded(received), downlink);
  }

  lemma NothingConverted(h: seq<real>, rate: nat)
    requires |h| == TAPS
    ensures Faded([]) == [] && Converted(h, rate, []) == []
  {
  }

  /** Full frames followed by a short tail are the frames of their concatenation. */
  lemma {:induction false} FramesOfFull(frames: seq<Frame>, tail: seq<i16>)
    requires FullFrames(frames) && |tail| < DOWNLINK_FRAME_SAMPLES
    ensures FramesOf(Concat(frames) + tail) == frames + LastFrames(tail)
  {
    hide LastFrames;
    if frames == [] {
      assert Concat(frames) + tail == tail;
    } else {
      var stream := Concat(frames) + tail;
      Assoc(frames[0], Concat(frames[1..]), tail);
      assert stream[..DOWNLINK_FRAME_SAMPLES] == frames[0];
      assert stream[DOWNLINK_FRAME_SAMPLES..] == Concat(frames[1..]) + tail;
      FramesOfFull(frames[1..], tail);
      Assoc([frames[0]], frames[1..], LastFrames(tail));
    }
  }

  lemma FinishRefines(h: seq<real>, received: seq<seq<real>>, sent: seq<Frame>, rate: Option<nat>, first: bool,
                      tail: seq<i16>, admitted: seq<real>)
    requires |h| == TAPS && Refines(h, received, sent, rate, first, tail, admitted)
    requires |tail| < DOWNLINK_FRAME_SAMPLES
    ensures sent + LastFrames(tail) == GenerationFrames(h, rate, received)
  {
    hide LastFrames, Converted;
    FramesOfFull(sent, tail);
    if received == [] {
      EmptyStreamHasNoFrames();
    }
  }

  lemma EmptyStreamHasNoFrames()
    ensures FramesOf([]) == []
  {
  }

  // ---- whole generations ----

  function AsSamples(values: seq<real>): (samples: seq<Sample>)
    ensures AllFinite(samples) && Values(samples) == values
  {
    seq(|values|, i requires 0 <= i < |values| => Finite(values[i]))
  }

  /** Push every chunk, then finish: what is sent is a function of rate and chunks alone. */
  method DeliverGeneration(pipeline: CanonicalDownlinkPipeline, chunks: seq<seq<real>>, rate: nat)
    returns (frames: seq<Frame>)
    requires pipeline.Valid() && pipeline.intact && pipeline.received == [] && pipeline.sent == []
    requires pipeline.providerSampleRateHz == None
    requires rate == ZEROTTS_SAMPLE_RATE_HZ || rate == CANONICAL_DOWNLINK_SAMPLE_RATE_HZ
    requires forall n :: 0 <= n < |chunks| ==> chunks[n] != []
    modifies pipeline, pipeline.resampler
    ensures frames == GenerationFrames(pipeline.resampler.coefficients, if chunks == [] then None else Some(rate), chunks)
  {
    hide Refines, GenerationFrames;
    frames := [];
    for n := 0 to |chunks|
      invariant pipeline.Valid() && pipeline.intact
      invariant pipeline.received == chunks[..n] && pipeline.sent == frames
      invariant pipeline.providerSampleRateHz == if n == 0 then None else Some(rate)
    {
      var samples := AsSamples(chunks[n]);
      assert samples != [] && chunks[..n + 1] == chunks[..n] + [chunks[n]];
      var pushed := pipeline.PushProviderPcm(samples, rate);
      frames := frames + pushed.frames;
    }
    assert chunks[..|chunks|] == chunks;
    var last := pipeline.Finish();
    frames := frames + last;
  }

  /** The fade sees the whole input, but its length comes from the first chunk. */
  lemma FadedIsOneRamp(chunks: seq<seq<real>>)
    requires chunks != []
    ensures Faded(chunks) == FadeInOver(Concat(chunks), Min(FADE_IN_SAMPLES, |chunks[0]|))
  {
    hide Ramped;
    var first, rest := chunks[0], Concat(chunks[1..]);
    assert Concat(chunks) == first + rest;
  }

  /** Chunk independence: only the first chunk's length matters, and from 384 samples on not even that. */
  lemma FramesDependOnFirstLengthOnly(h: seq<real>, rate: nat, a: seq<seq<real>>, b: seq<seq<real>>)
    requires |h| == TAPS && a != [] && b != [] && Concat(a) == Concat(b)
    requires Min(FADE_IN_SAMPLES, |a[0]|) == Min(FADE_IN_SAMPLES, |b[0]|)
    ensures GenerationFrames(h, Some(rate), a) == GenerationFrames(h, Some(rate), b)
  {
    FadedIsOneRamp(a);
    FadedIsOneRamp(b);
  }

  /** Two fade lengths no audio of `n` samples tells apart. */
  ghost predicate SameForAllAudio(n: nat, a: nat, b: nat) {
    forall x: seq<real> :: |x| == n ==> Quantize(FadeInOver(x, a)) == Quantize(FadeInOver(x, b))
  }

  /** Two first-chunk lengths give the same canonical 24 kHz stream for all audio of a given length
      exactly when their fades are equally long. */
  lemma StreamsAgreeIffFadesAgree(n: nat, p: nat, q: nat)
    requires 0 < p <= n && 0 < q <= n
    ensures SameForAllAudio(n, Min(FADE_IN_SAMPLES, p), Min(FADE_IN_SAMPLES, q)) <==>
            Min(FADE_IN_SAMPLES, p) == Min(FADE_IN_SAMPLES, q)
  {
    hide SameForAllAudio;
    var a, b := Min(FADE_IN_SAMPLES, p), Min(FADE_IN_SAMPLES, q);
    if a == b {
      EqualFadesAreTheSame(n, a);
    } else {
      DifferentFadesDiffer(n, a, b);
    }
  }

  lemma EqualFadesAreTheSame(n: nat, fade: nat)
    ensures SameForAllAudio(n, fade, fade)
  {
    hide Quantize, FadeInOver;
  }

  lemma DifferentFadesDiffer(n: nat, a: nat, b: nat)
    requires a <= FADE_IN_SAMPLES && a <= n && b <= FADE_IN_SAMPLES && b <= n && a != b
    ensures !SameForAllAudio(n, a, b)
  {
    hide Quantize, FadeInOver;
    var x := FullScaleTellsFadesApart(n, Min(a, b), if a < b then b else a);
    assert Quantize(FadeInOver(x, a)) != Quantize(FadeInOver(x, b));
  }

  lemma FullScaleTellsFadesApart(n: nat, short: nat, long: nat) returns (x: seq<real>)
    requires short < long <= FADE_IN_SAMPLES && long <= n
    ensures |x| == n && Quantize(FadeInOver(x, short)) != Quantize(FadeInOver(x, long))
  {
    hide FloatToI16, Ramped;
    x := seq(n, _ => 1.0);
    RampIsAudible(short, long);
    assert Quantize(FadeInOver(x, short))[short] == FloatToI16(1.0);
    assert Quantize(FadeInOver(x, long))[short] == FloatToI16(Ramped(1.0, short, long));
  }

  lemma RampIsAudible(index: nat, fade: nat)
    requires index < fade <= FADE_IN_SAMPLES
    ensures FloatToI16(Ramped(1.0, index, fade)) != FloatToI16(1.0)
  {
    var r := index as real / fade as real;
    assert r * fade as real == index as real;
    RampBelow(r, index, fade);
  }

  lemma RampBelow(r: real, index: nat, fade: nat)
    requires index < fade <= FADE_IN_SAMPLES && r * fade as real == index as real
    ensures 0.0 <= r && r * 384.0 <= 383.0
  {
    var f := fade as real;
    QuotientAtMost(0.0, f, r);
    var bound := 383.0 / 384.0;
    assert bound * f == f - f / 384.0 >= f - 1.0;
    QuotientAtMost(r, f, bound);
  }

  lemma PositiveProduct(a: real, b: real)
    requires a > 0.0 && b > 0.0
    ensures a * b > 0.0
  {
  }

  lemma QuotientAtMost(s: real, f: real, bound: real)
    requires f > 0.0
    ensures s <= bound || s * f > bound * f
  {
    if s > bound {
      var gap := s - bound;
      PositiveProduct(gap, f);
      assert s * f == bound * f + gap * f;
    }
  }

  /** Every frame is full, and their number is the ceiling of samples over frame size. */
  lemma {:induction false} FramesAreFull(stream: seq<i16>)
    ensures FullFrames(FramesOf(stream))
    ensures |FramesOf(stream)| == (|stream| + 1_439) / 1_440
    decreases |stream|
  {
    hide FadeOut;
    if |stream| >= DOWNLINK_FRAME_SAMPLES {
      FramesAreFull(stream[DOWNLINK_FRAME_SAMPLES..]);
    }
  }

  /** Joined together the frames are the stream with its remainder faded out and zero-padded: nothing
      is dropped, repeated or truncated. */
  lemma {:induction false} FramesJoinToStream(stream: seq<i16>)
    ensures var full := |stream| - |stream| % DOWNLINK_FRAME_SAMPLES;
      Concat(FramesOf(stream)) == stream[..full] + FinishedTail(stream[full..])
    decreases |stream|
  {
    hide FadeOut, FinishedTail;
    if |stream| < DOWNLINK_FRAME_SAMPLES {
      ShortStreamJoins(stream);
      assert stream[0..] == stream && stream[..0] == [];
      assert [] + FinishedTail(stream) == FinishedTail(stream);
    } else {
      FramesJoinToStream(stream[DOWNLINK_FRAME_SAMPLES..]);
      RemainderOf(|stream|);
      OneFrameJoins(stream, |stream| - |stream| % DOWNLINK_FRAME_SAMPLES);
    }
  }

  lemma OneFrameJoins(stream: seq<i16>, full: nat)
    requires DOWNLINK_FRAME_SAMPLES <= full <= |stream| < full + DOWNLINK_FRAME_SAMPLES
    requires var rest := stream[DOWNLINK_FRAME_SAMPLES..];
      Concat(FramesOf(rest)) == rest[..full - DOWNLINK_FRAME_SAMPLES] + FinishedTail(rest[full - DOWNLINK_FRAME_SAMPLES..])
    ensures Concat(FramesOf(stream)) == stream[..full] + FinishedTail(stream[full..])
  {
    hide FinishedTail;
    var head, rest := stream[..DOWNLINK_FRAME_SAMPLES], stream[DOWNLINK_FRAME_SAMPLES..];
    assert stream[..full] == head + rest[..full - DOWNLINK_FRAME_SAMPLES];
    assert stream[full..] == rest[full - DOWNLINK_FRAME_SAMPLES..];
    ConcatFirst(head, FramesOf(rest));
    Assoc(head, rest[..full - DOWNLINK_FRAME_SAMPLES], FinishedTail(stream[full..]));
  }

  lemma ShortStreamJoins(stream: seq<i16>)
    requires |stream| < DOWNLINK_FRAME_SAMPLES
    ensures Concat(FramesOf(stream)) == FinishedTail(stream)
  {
    hide FadeOut;
    if stream != [] {
      ConcatSingle(PadToFrame(FadeOut(stream)));
    }
  }

  lemma RemainderOf(n: nat)
    requires n >= DOWNLINK_FRAME_SAMPLES
    ensures n % DOWNLINK_FRAME_SAMPLES == (n - DOWNLINK_FRAME_SAMPLES) % DOWNLINK_FRAME_SAMPLES
  {
  }

  ghost function FinishedTail(tail: seq<i16>): seq<i16>
    requires |tail| < DOWNLINK_FRAME_SAMPLES
  {
    if tail == [] then [] else FadeOut(tail) + seq(DOWNLINK_FRAME_SAMPLES - |tail|, _ => 0)
  }

  /** The stream keeps every provider sample at 24 kHz and one of two at 48 kHz. */
  lemma StreamLength(h: seq<real>, rate: nat, chunks: seq<seq<real>>)
    requires |h| == TAPS && chunks != []
    ensures |Converted(h, rate, chunks)| ==
            if rate == ZEROTTS_SAMPLE_RATE_HZ then (|Concat(chunks)| + 1) / 2 else |Concat(chunks)|
  {
    FadedIsOneRamp(chunks);
  }


  // ---- what quantizing, fading and padding mean ----

  /** Full scale, silence, sign and order. */
  lemma QuantizerShape(x: real, y: real)
    ensures x >= 1.0 ==> FloatToI16(x) == 32767
    ensures FloatToI16(0.0) == 0
    ensures FloatToI16(-x) == -FloatToI16(x)
    ensures x <= y ==> FloatToI16(x) <= FloatToI16(y)
  {
  }

  /** Every sample in range is rounded to the nearest step, a sample half way between two steps away
      from zero. */
  lemma QuantizerError(x: real, step: nat)
    requires -1.0 <= x <= 1.0
    ensures -0.5 <= FloatToI16(x) as real - x * 32767.0 <= 0.5
    ensures x * 32767.0 == step as real + 0.5 ==> FloatToI16(x) == step + 1
  {
  }

  /** The fade in starts at silence, follows a straight line, and leaves everything behind it alone. */
  lemma FadeInShape(x: seq<real>, fade: nat, i: nat)
    requires i < |x|
    ensures i < fade ==> FadeInOver(x, fade)[i] * fade as real == x[i] * i as real
    ensures i == 0 && fade > 0 ==> FadeInOver(x, fade)[i] == 0.0
    ensures i >= fade ==> FadeInOver(x, fade)[i] == x[i]
  {
    if i < fade {
      var level := i as real / fade as real;
      assert level * fade as real == i as real;
      assert x[i] * level * fade as real == x[i] * (level * fade as real);
    }
  }

  lemma RoundingError(x: real)
    ensures -0.5 <= RoundAway(x) as real - x <= 0.5
  {
  }

  /** The fade out covers the last 480 samples, or all of a shorter tail: a straight line from full level
      to silence at the very last sample, each sample within half a step of it.  A single sample is left
      as it is. */
  lemma FadeOutShape(samples: seq<i16>, i: nat)
    requires i < |samples|
    ensures |samples| == 1 ==> FadeOut(samples) == samples
    ensures |samples| > 1 ==>
      var fade := if |samples| < 480 then |samples| else 480;
      var start, faded := |samples| - fade, FadeOut(samples);
      && (i <= start ==> faded[i] == samples[i])
      && (i >= start ==>
            -(fade - 1) <= 2 * (faded[i] * (fade - 1) - samples[i] * (|samples| - 1 - i)) <= fade - 1)
      && (i == |samples| - 1 ==> faded[i] == 0)
  {
    var fade := if |samples| < 480 then |samples| else 480;
    var start := |samples| - fade;
    if |samples| > 1 && i >= start {
      FadedOutLine(samples[i], i - start, fade);
      FadedOutEnds(samples[i], fade);
      hide FadedOutSample;
    }
  }

  lemma FadedOutLine(sample: i16, index: nat, fade: nat)
    requires index < fade && fade > 1
    ensures -(fade - 1) <= 2 * (FadedOutSample(sample, index, fade) * (fade - 1) - sample * (fade - 1 - index)) <= fade - 1
  {
    GainIsLine(index, fade);
    FadedOutRounds(sample, index, fade);
    hide Product, FadeOutGain, FadedOutSample;
    StepError(sample, FadedOutSample(sample, index, fade), FadeOutGain(index, fade), fade - 1, fade - 1 - index);
  }

  lemma FadedOutRounds(sample: i16, index: nat, fade: nat)
    requires index < fade && fade > 1
    ensures -0.5 <= FadedOutSample(sample, index, fade) as real - Product(sample as real, FadeOutGain(index, fade)) <= 0.5
  {
    hide RoundAway;
    RoundingError(sample as real * FadeOutGain(index, fade));
  }

  lemma GainIsLine(index: nat, fade: nat)
    requires index < fade && fade > 1
    ensures Product(FadeOutGain(index, fade), (fade - 1) as real) == (fade - 1 - index) as real
  {
    var steps := (fade - 1) as real;
    var ratio := index as real / steps;
    assert ratio * steps == index as real;
    assert (1.0 - ratio) * steps == steps - ratio * steps;
  }

  /** A rounded multiple of a gain on the line, in whole numbers. */
  lemma StepError(sample: int, rounded: int, gain: real, steps: int, down: int)
    requires steps > 0 && Product(gain, steps as real) == down as real
    requires -0.5 <= rounded as real - Product(sample as real, gain) <= 0.5
    ensures -steps <= 2 * (rounded * steps - sample * down) <= steps
  {
    hide Product;
    var n, error := steps as real, rounded as real - Product(sample as real, gain);
    ErrorTimes(error, n);
    DifferenceTimes(rounded as real, Product(sample as real, gain), n);
    GainTimes(sample as real, gain, n);
    ProductsAsReals(rounded, steps);
    ProductsAsReals(sample, down);
    HalfSteps(rounded * steps, sample * down, steps);
  }

  lemma ErrorTimes(error: real, n: real)
    requires -0.5 <= error <= 0.5 && n > 0.0
    ensures -0.5 * n <= Product(error, n) <= 0.5 * n
  {
    var low, high := error + 0.5, 0.5 - error;
    assert low * n >= 0.0 && high * n >= 0.0;
  }

  lemma DifferenceTimes(a: real, b: real, n: real)
    ensures Product(a - b, n) == Product(a, n) - Product(b, n)
  {
  }

  lemma GainTimes(s: real, gain: real, n: real)
    ensures Product(Product(s, gain), n) == Product(s, Product(gain, n))
  {
  }

  lemma ProductsAsReals(a: int, b: int)
    ensures (a * b) as real == Product(a as real, b as real)
  {
  }

  lemma HalfSteps(a: int, b: int, steps: int)
    requires -0.5 * steps as real <= a as real - b as real <= 0.5 * steps as real
    ensures -steps <= 2 * (a - b) <= steps
  {
  }

  lemma FadedOutEnds(sample: i16, fade: nat)
    requires fade > 1
    ensures FadedOutSample(sample, 0, fade) == sample && FadedOutSample(sample, fade - 1, fade) == 0
  {
    var steps := (fade - 1) as real;
    assert 0.0 / steps == 0.0 && steps / steps == 1.0;
    assert FadeOutGain(0, fade) == 1.0 && FadeOutGain(fade - 1, fade) == 0.0;
    assert sample as real * 1.0 == sample as real && sample as real * 0.0 == 0.0;
  }
}
