/** Enrollment clips: the sliding search for the window with the most speech, and the quality gate
built on it.

Samples are reals.  A frame is speech when its root mean square reaches the floor, stated here
without the root: the mean square reaches the floor's square.
*/
module Enrollment {
  import opened Basics

  type u32 = x: int | 0 <= x < 0x1_0000_0000
  type u64 = x: int | 0 <= x < 0x1_0000_0000_0000_0000

  const MAX_WINDOW_MS: u64 := 6_000
  const SPEECH_FRAME_MS: u64 := 20
  const SPEECH_RMS: real := 0.001
  const CLIPPING_AMPLITUDE: real := 0.999
  const MAX_CLIPPING_FRACTION: real := 0.05

  datatype Pcm = Pcm(samples: seq<real>, sampleRateHz: u32)

  datatype QualityProfile = QualityProfile(minClipMs: u64, maxClipMs: u64, minSpeechMs: u64, maxWindowMs: u64)

  datatype Analysis =
    | Accepted(durationMs: u64, speechMs: nat, window: Pcm)
    | TooShort | TooLong | Clipped | InsufficientAudio

  /** Samples in `ms` milliseconds, rounded down. */
  function SamplesIn(ms: u64, rate: u32): nat {
    ms * rate / 1000
  }

  // ---- frames and their scores ----

  function SumOfSquares(samples: seq<real>): real {
    if samples == [] then 0.0 else samples[0] * samples[0] + SumOfSquares(samples[1..])
  }

  predicate IsSpeech(frame: seq<real>) {
    frame != [] && SumOfSquares(frame) / (|frame| as real) >= SPEECH_RMS * SPEECH_RMS
  }

  /** The first sample of frame `k`: the product `k * d`. */
  ghost function Offset(k: nat, d: nat): nat {
    if k == 0 then 0 else Offset(k - 1, d) + d
  }

  /** Frames of `d` that cover `n` samples. */
  function CeilDiv(n: nat, d: nat): nat
    requires d > 0
  {
    if n == 0 then 0 else if n <= d then 1 else 1 + CeilDiv(n - d, d)
  }

  /** Frames of `d` that fit in `n` samples. */
  ghost function FrameCount(n: nat, d: nat): nat
    requires d > 0
  {
    if n < d then 0 else 1 + FrameCount(n - d, d)
  }

  ghost predicate WholeFrames(n: nat, d: nat)
    requires d > 0
  {
    Offset(CeilDiv(n, d), d) == n
  }

  /** Up to `length` samples from `start`. */
  function Slice(samples: seq<real>, start: nat, length: nat): seq<real>
    requires start <= |samples|
  {
    samples[start..Min(start + length, |samples|)]
  }

  /** Frame `k`; the last one may be short. */
  ghost function Frame(samples: seq<real>, frameLen: nat, k: nat): seq<real> {
    if Offset(k, frameLen) <= |samples| then Slice(samples, Offset(k, frameLen), frameLen) else []
  }

  ghost function Score(samples: seq<real>, frameLen: nat, k: nat): nat {
    if IsSpeech(Frame(samples, frameLen, k)) then 1 else 0
  }

  ghost function FrameScores(samples: seq<real>, frameLen: nat): (scores: seq<nat>)
    requires frameLen > 0
    ensures |scores| == CeilDiv(|samples|, frameLen)
  {
    seq(CeilDiv(|samples|, frameLen), k requires k >= 0 => Score(samples, frameLen, k))
  }

  ghost function Sum(scores: seq<nat>, lo: nat, hi: nat): nat
    requires hi <= |scores|
  {
    if hi <= lo then 0 else Sum(scores, lo, hi - 1) + scores[hi - 1]
  }

  /** Speech frames among the complete frames only: what `speech_ms` counts. */
  ghost function CompleteSpeech(samples: seq<real>, frameLen: nat): nat
    requires frameLen > 0
  {
    CompleteFrames(|samples|, frameLen);
    Sum(FrameScores(samples, frameLen), 0, FrameCount(|samples|, frameLen))
  }

  /** The start of the first window of `width` frames with the largest score. */
  ghost predicate IsFirstBest(scores: seq<nat>, width: nat, start: nat) {
    && start + width <= |scores|
    && (forall s: nat :: s + width <= |scores| ==> WindowScore(scores, width, s) <= WindowScore(scores, width, start))
    && (forall s: nat :: s < start ==> WindowScore(scores, width, s) < WindowScore(scores, width, start))
  }

  ghost function WindowScore(scores: seq<nat>, width: nat, start: nat): nat {
    if start + width <= |scores| then Sum(scores, start, start + width) else 0
  }

  // ---- arithmetic of frames ----

  lemma {:induction false} OffsetStrict(a: nat, b: nat, d: nat)
    requires a < b
    ensures Offset(a, d) + d <= Offset(b, d)
    decreases b
  {
    if a + 1 < b {
      OffsetStrict(a, b - 1, d);
    }
  }

  lemma OffsetOrder(a: nat, b: nat, d: nat)
    requires d > 0
    ensures a < b <==> Offset(a, d) < Offset(b, d)
  {
    if a < b {
      OffsetStrict(a, b, d);
    } else if b < a {
      OffsetStrict(b, a, d);
    }
  }

  lemma {:induction false} OffsetAdds(a: nat, b: nat, d: nat)
    ensures Offset(a + b, d) == Offset(a, d) + Offset(b, d)
  {
    if b > 0 {
      OffsetAdds(a, b - 1, d);
    }
  }

  lemma {:induction false} OffsetIsProduct(k: nat, d: nat)
    ensures Offset(k, d) == k * d
  {
    if k > 0 {
      OffsetIsProduct(k - 1, d);
    }
  }

  /** The recursive counts are the usual quotients. */
  lemma {:induction false} CountsAreQuotients(n: nat, d: nat)
    requires d > 0
    ensures CeilDiv(n, d) == (n + d - 1) / d && FrameCount(n, d) == n / d
    ensures WholeFrames(n, d) <==> n % d == 0
  {
    CeilDivBounds(n, d);
    FrameCountBounds(n, d);
    QuotientUnique(n, d, FrameCount(n, d));
    QuotientUnique(n + d - 1, d, CeilDiv(n, d));
    if WholeFrames(n, d) {
      FrameCountUnique(n, d, CeilDiv(n, d));
    } else if n % d == 0 {
      CeilDivUnique(n, d, n / d);
    }
  }

  lemma QuotientUnique(n: nat, d: nat, q: nat)
    requires d > 0 && Offset(q, d) <= n < Offset(q, d) + d
    ensures n / d == q && n == Offset(q, d) + n % d
  {
    OffsetIsProduct(n / d, d);
    assert n == Offset(n / d, d) + n % d;
    if n / d < q { OffsetStrict(n / d, q, d); }
    if q < n / d { OffsetStrict(q, n / d, d); }
  }

  lemma {:induction false} CeilDivBounds(n: nat, d: nat)
    requires d > 0
    ensures n <= Offset(CeilDiv(n, d), d) < n + d
  {
    if n > d {
      CeilDivBounds(n - d, d);
    }
  }

  lemma {:induction false} FrameCountBounds(n: nat, d: nat)
    requires d > 0
    ensures Offset(FrameCount(n, d), d) <= n < Offset(FrameCount(n, d), d) + d
  {
    if n >= d {
      FrameCountBounds(n - d, d);
    }
  }

  lemma CeilDivUnique(n: nat, d: nat, q: nat)
    requires d > 0 && n <= Offset(q, d) < n + d
    ensures CeilDiv(n, d) == q
  {
    CeilDivBounds(n, d);
    var c := CeilDiv(n, d);
    if c < q { OffsetStrict(c, q, d); }
    if q < c { OffsetStrict(q, c, d); }
  }

  lemma FrameCountUnique(n: nat, d: nat, q: nat)
    requires d > 0 && Offset(q, d) <= n < Offset(q, d) + d
    ensures FrameCount(n, d) == q
  {
    FrameCountBounds(n, d);
    var c := FrameCount(n, d);
    if c < q { OffsetStrict(c, q, d); }
    if q < c { OffsetStrict(q, c, d); }
  }

  lemma CompleteFrames(n: nat, d: nat)
    requires d > 0
    ensures CeilDiv(n, d) == if WholeFrames(n, d) then FrameCount(n, d) else FrameCount(n, d) + 1
  {
    CeilDivBounds(n, d);
    FrameCountBounds(n, d);
    var m := FrameCount(n, d);
    OffsetAdds(m, 1, d);
    CeilDivUnique(n, d, if Offset(m, d) == n then m else m + 1);
  }

  lemma FrameFits(k: nat, d: nat, n: nat)
    requires d > 0 && Offset(k, d) + d <= n
    ensures k < FrameCount(n, d) && k < CeilDiv(n, d)
  {
    CeilDivBounds(n, d);
    FrameCountBounds(n, d);
    OffsetOrder(k, CeilDiv(n, d), d);
    OffsetOrder(k, FrameCount(n, d), d);
    OffsetOrder(k + 1, FrameCount(n, d) + 1, d);
  }

  // ---- sums of scores ----

  lemma {:induction false} SumFirst(scores: seq<nat>, lo: nat, hi: nat)
    requires lo < hi <= |scores|
    ensures Sum(scores, lo, hi) == scores[lo] + Sum(scores, lo + 1, hi)
    decreases hi
  {
    if lo + 1 < hi {
      SumFirst(scores, lo, hi - 1);
    }
  }

  lemma {:induction false} SumBound(scores: seq<nat>, lo: nat, hi: nat)
    requires lo <= hi <= |scores| && forall k :: 0 <= k < |scores| ==> scores[k] <= 1
    ensures Sum(scores, lo, hi) <= hi - lo
    decreases hi
  {
    if lo < hi {
      SumBound(scores, lo, hi - 1);
    }
  }

  lemma {:induction false} SumShifted(a: seq<nat>, b: seq<nat>, shift: nat, hi: nat)
    requires hi <= |a| && shift + hi <= |b| && forall k :: 0 <= k < hi ==> a[k] == b[shift + k]
    ensures Sum(a, 0, hi) == Sum(b, shift, shift + hi)
  {
    if hi > 0 {
      SumShifted(a, b, shift, hi - 1);
    }
  }

  lemma WindowScoreBound(scores: seq<nat>, width: nat, start: nat)
    requires forall k :: 0 <= k < |scores| ==> scores[k] <= 1
    ensures WindowScore(scores, width, start) <= width
  {
    if start + width <= |scores| {
      SumBound(scores, start, start + width);
    }
  }

  /** Sliding the window by one frame: no underflow, and the sum stays the sum. */
  lemma Slide(scores: seq<nat>, width: nat, start: nat)
    requires 0 < width && start + 1 + width <= |scores|
    ensures WindowScore(scores, width, start) >= scores[start]
    ensures WindowScore(scores, width, start + 1) ==
            WindowScore(scores, width, start) - scores[start] + scores[start + width]
  {
    SumFirst(scores, start, start + width);
  }

  // ---- the search ----

  /** When the clip is handed back uncut. */
  predicate KeepsWholeClip(length: nat, maxLen: nat, frameLen: nat) {
    || maxLen == 0 || length <= maxLen || frameLen == 0 || maxLen < frameLen
    || CeilDiv(maxLen, frameLen) >= CeilDiv(length, frameLen)
  }

  ghost predicate IsSelected(samples: seq<real>, maxLen: nat, frameLen: nat, window: seq<real>) {
    if KeepsWholeClip(|samples|, maxLen, frameLen) then window == samples
    else exists start: nat ::
      && IsFirstBest(FrameScores(samples, frameLen), CeilDiv(maxLen, frameLen), start)
      && Offset(start, frameLen) <= |samples| && window == Slice(samples, Offset(start, frameLen), maxLen)
  }

  /** The scoring loop of `select_window`. */
  method ScoreFrames(samples: seq<real>, frameLen: nat) returns (speech: seq<u32>)
    requires frameLen > 0
    ensures speech == FrameScores(samples, frameLen)
    ensures forall k :: 0 <= k < |speech| ==> speech[k] <= 1
  {
    speech := [];
    var index := 0;
    while index < |samples|
      invariant index == Offset(|speech|, frameLen) && index < |samples| + frameLen
      invariant forall k :: 0 <= k < |speech| ==> speech[k] == Score(samples, frameLen, k)
    {
      var end := Min(index + frameLen, |samples|);
      assert samples[index..end] == Frame(samples, frameLen, |speech|);
      speech := speech + [if IsSpeech(samples[index..end]) then 1 else 0];
      index := index + frameLen;
    }
    CeilDivUnique(|samples|, frameLen, |speech|);
  }

  /** The search's u32 sum can hold a whole window of speech. */
  predicate SumFits(length: nat, maxLen: nat, frameLen: nat) {
    KeepsWholeClip(length, maxLen, frameLen) || CeilDiv(maxLen, frameLen) < 0x1_0000_0000
  }

  method SelectWindow(clip: Pcm, maxWindowMs: u64) returns (window: Pcm)
    requires maxWindowMs * clip.sampleRateHz < 0x1_0000_0000_0000_0000
    requires SumFits(|clip.samples|, SamplesIn(maxWindowMs, clip.sampleRateHz), SamplesIn(SPEECH_FRAME_MS, clip.sampleRateHz))
    ensures window.sampleRateHz == clip.sampleRateHz
    ensures IsSelected(clip.samples, SamplesIn(maxWindowMs, clip.sampleRateHz),
                       SamplesIn(SPEECH_FRAME_MS, clip.sampleRateHz), window.samples)
  {
    var samples := clip.samples;
    var maxLen := SamplesIn(maxWindowMs, clip.sampleRateHz);
    if maxLen == 0 || |samples| <= maxLen {
      return clip;
    }
    var frameLen := SamplesIn(SPEECH_FRAME_MS, clip.sampleRateHz);
    if frameLen == 0 || maxLen < frameLen {
      return clip;
    }
    var selected := SelectFromLongClip(samples, maxLen, frameLen);
    window := Pcm(selected, clip.sampleRateHz);
  }

  method SelectFromLongClip(samples: seq<real>, maxLen: nat, frameLen: nat) returns (window: seq<real>)
    requires 0 < frameLen <= maxLen < |samples| && SumFits(|samples|, maxLen, frameLen)
    ensures IsSelected(samples, maxLen, frameLen, window)
  {
    var speech := ScoreFrames(samples, frameLen);
    var windowFrames := CeilDiv(maxLen, frameLen);
    WindowSpan(maxLen, frameLen);
    if windowFrames >= |speech| {
      return samples;
    }
    var bestStart := FirstBestWindow(speech, windowFrames);
    AlignedFits(|samples|, frameLen, bestStart, windowFrames);
    OffsetIsProduct(bestStart, frameLen);
    var start := bestStart * frameLen;
    window := Slice(samples, start, maxLen);
  }

  /** The sliding loop of `select_window`, with its u32 running sum. */
  method FirstBestWindow(speech: seq<u32>, windowFrames: nat) returns (bestStart: nat)
    requires 0 < windowFrames < |speech| && windowFrames < 0x1_0000_0000
    requires forall k :: 0 <= k < |speech| ==> speech[k] <= 1
    ensures IsFirstBest(speech, windowFrames, bestStart)
  {
    var running := SumFirstWindow(speech, windowFrames);
    bestStart := 0;
    var bestSpeech := running;
    var start := 1;
    while start <= |speech| - windowFrames
      invariant 1 <= start <= |speech| - windowFrames + 1 && bestStart < start
      invariant running == WindowScore(speech, windowFrames, start - 1)
      invariant bestSpeech == WindowScore(speech, windowFrames, bestStart)
      invariant forall s: nat :: s < start ==> WindowScore(speech, windowFrames, s) <= bestSpeech
      invariant forall s: nat :: s < bestStart ==> WindowScore(speech, windowFrames, s) < bestSpeech
    {
      Slide(speech, windowFrames, start - 1);
      WindowScoreBound(speech, windowFrames, start);
      var kept: u32 := running - speech[start - 1];
      running := kept + speech[start + windowFrames - 1];
      if running > bestSpeech {
        bestSpeech := running;
        bestStart := start;
      }
      start := start + 1;
    }
  }

  method SumFirstWindow(speech: seq<u32>, windowFrames: nat) returns (total: u32)
    requires windowFrames <= |speech| && windowFrames < 0x1_0000_0000 && forall k :: 0 <= k < |speech| ==> speech[k] <= 1
    ensures total == WindowScore(speech, windowFrames, 0)
  {
    total := 0;
    for k := 0 to windowFrames
      invariant total == Sum(speech, 0, k) <= k
    {
      total := total + speech[k];
    }
  }

  /** The counting loop of `speech_ms`. */
  method CountSpeechFrames(samples: seq<real>, frameLen: nat) returns (frames: nat)
    requires frameLen > 0
    ensures frames == CompleteSpeech(samples, frameLen)
  {
    frames := 0;
    var index := 0;
    ghost var k: nat := 0;
    ghost var scores := FrameScores(samples, frameLen);
    while index + frameLen <= |samples|
      invariant index == Offset(k, frameLen) <= |samples| && k <= |scores|
      invariant frames == Sum(scores, 0, k)
    {
      FrameFits(k, frameLen, |samples|);
      CountOne(samples, frameLen, k, index);
      if IsSpeech(samples[index..index + frameLen]) {
        frames := frames + 1;
      }
      index := index + frameLen;
      k := k + 1;
    }
    FrameCountUnique(|samples|, frameLen, k);
  }

  lemma CountOne(samples: seq<real>, frameLen: nat, k: nat, index: nat)
    requires frameLen > 0 && k < CeilDiv(|samples|, frameLen)
    requires index == Offset(k, frameLen) && index + frameLen <= |samples|
    ensures var scores := FrameScores(samples, frameLen);
      Sum(scores, 0, k + 1) == Sum(scores, 0, k) + if IsSpeech(samples[index..index + frameLen]) then 1 else 0
  {
    var scores := FrameScores(samples, frameLen);
    assert samples[index..index + frameLen] == Frame(samples, frameLen, k);
    assert scores[k] == Score(samples, frameLen, k);
  }

  /** The number of complete speech frames, in milliseconds. */
  method SpeechMs(samples: seq<real>, rate: u32) returns (ms: nat)
    ensures ms == SpeechMsOf(samples, SamplesIn(SPEECH_FRAME_MS, rate))
  {
    var frameLen := SamplesIn(SPEECH_FRAME_MS, rate);
    if frameLen == 0 {
      return 0;
    }
    var frames := CountSpeechFrames(samples, frameLen);
    ms := frames * SPEECH_FRAME_MS;
  }

  ghost function SpeechMsOf(samples: seq<real>, frameLen: nat): nat {
    if frameLen == 0 then 0 else SPEECH_FRAME_MS * CompleteSpeech(samples, frameLen)
  }

  // ---- what the selected window is worth ----

  ghost function WindowAt(samples: seq<real>, maxLen: nat, frameLen: nat, start: nat): seq<real> {
    if Offset(start, frameLen) <= |samples| then Slice(samples, Offset(start, frameLen), maxLen) else []
  }

  /** The speech frames `speech_ms` would count in the window at `start`. */
  ghost function Credit(samples: seq<real>, maxLen: nat, frameLen: nat, start: nat): nat
    requires frameLen > 0
  {
    CompleteSpeech(WindowAt(samples, maxLen, frameLen, start), frameLen)
  }

  /** Every aligned window of the search. */
  ghost predicate IsAligned(samples: seq<real>, maxLen: nat, frameLen: nat, start: nat)
    requires frameLen > 0
  {
    start + CeilDiv(maxLen, frameLen) <= CeilDiv(|samples|, frameLen)
  }

  lemma SliceWithinSlice(samples: seq<real>, start: nat, length: nat, offset: nat, inner: nat)
    requires start <= |samples| && offset + inner <= |Slice(samples, start, length)|
    ensures Slice(Slice(samples, start, length), offset, inner) == Slice(samples, start + offset, inner)
  {
  }

  lemma FrameOfWindow(samples: seq<real>, maxLen: nat, frameLen: nat, start: nat, k: nat)
    requires frameLen > 0 && Offset(start, frameLen) <= |samples|
    requires Offset(k, frameLen) + frameLen <= |WindowAt(samples, maxLen, frameLen, start)|
    ensures Frame(WindowAt(samples, maxLen, frameLen, start), frameLen, k) == Frame(samples, frameLen, start + k)
  {
    hide Offset;
    OffsetAdds(start, k, frameLen);
    SliceWithinSlice(samples, Offset(start, frameLen), maxLen, Offset(k, frameLen), frameLen);
  }

  ghost function CreditedCount(samples: seq<real>, maxLen: nat, frameLen: nat, start: nat): nat
    requires frameLen > 0
  {
    FrameCount(|WindowAt(samples, maxLen, frameLen, start)|, frameLen)
  }

  lemma CreditIsSum(samples: seq<real>, maxLen: nat, frameLen: nat, start: nat)
    requires frameLen > 0 && Offset(start, frameLen) <= |samples|
    ensures var scores, m := FrameScores(samples, frameLen), CreditedCount(samples, maxLen, frameLen, start);
      start + m <= |scores| && Credit(samples, maxLen, frameLen, start) == Sum(scores, start, start + m)
  {
    hide Score, Offset, Sum;
    var window, m := WindowAt(samples, maxLen, frameLen, start), CreditedCount(samples, maxLen, frameLen, start);
    FrameCountBounds(|window|, frameLen);
    CompleteFrames(|window|, frameLen);
    FramesInside(start, m, frameLen, |samples|);
    ScoresOfWindow(samples, maxLen, frameLen, start, m);
  }

  lemma ScoresOfWindow(samples: seq<real>, maxLen: nat, frameLen: nat, start: nat, m: nat)
    requires frameLen > 0 && Offset(start, frameLen) <= |samples|
    requires var window := WindowAt(samples, maxLen, frameLen, start);
      Offset(m, frameLen) <= |window| && m <= CeilDiv(|window|, frameLen) && start + m <= CeilDiv(|samples|, frameLen)
    ensures Sum(FrameScores(WindowAt(samples, maxLen, frameLen, start), frameLen), 0, m) ==
            Sum(FrameScores(samples, frameLen), start, start + m)
  {
    hide Score, Offset;
    var own := FrameScores(WindowAt(samples, maxLen, frameLen, start), frameLen);
    var scores := FrameScores(samples, frameLen);
    forall k | 0 <= k < m ensures own[k] == scores[start + k] {
      ScoreOfWindow(samples, maxLen, frameLen, start, k, m);
    }
    SumShifted(own, scores, start, m);
  }

  lemma ScoreOfWindow(samples: seq<real>, maxLen: nat, frameLen: nat, start: nat, k: nat, m: nat)
    requires frameLen > 0 && Offset(start, frameLen) <= |samples| && k < m
    requires Offset(m, frameLen) <= |WindowAt(samples, maxLen, frameLen, start)|
    ensures Score(WindowAt(samples, maxLen, frameLen, start), frameLen, k) == Score(samples, frameLen, start + k)
  {
    OffsetStrict(k, m, frameLen);
    FrameOfWindow(samples, maxLen, frameLen, start, k);
  }

  lemma FramesInside(start: nat, m: nat, d: nat, n: nat)
    requires d > 0 && Offset(start, d) + Offset(m, d) <= n
    ensures start + m <= CeilDiv(n, d)
  {
    CeilDivBounds(n, d);
    OffsetAdds(start, m, d);
    if CeilDiv(n, d) < start + m {
      OffsetStrict(CeilDiv(n, d), start + m, d);
    }
  }

  /** A window that reaches past its last-but-one frame boundary, and not past its last. */
  lemma WindowFrameCount(n: nat, maxLen: nat, d: nat, start: nat, w: nat)
    requires d > 0 && w > 0 && Offset(start, d) + Offset(w - 1, d) < n && Offset(w - 1, d) < maxLen <= Offset(w, d)
    ensures Offset(start, d) <= n
    ensures FrameCount(Min(Offset(start, d) + maxLen, n) - Offset(start, d), d) ==
            if maxLen == Offset(w, d) && Offset(start, d) + maxLen <= n then w else w - 1
  {
    OffsetAdds(w - 1, 1, d);
    FrameCountUnique(Min(Offset(start, d) + maxLen, n) - Offset(start, d), d,
                     if maxLen == Offset(w, d) && Offset(start, d) + maxLen <= n then w else w - 1);
  }

  lemma AlignedFits(n: nat, d: nat, start: nat, w: nat)
    requires d > 0 && w > 0 && start + w <= CeilDiv(n, d)
    ensures Offset(start, d) + Offset(w - 1, d) < n
    ensures start + w < CeilDiv(n, d) ==> Offset(start, d) + Offset(w, d) < n
  {
    CeilDivBounds(n, d);
    OffsetAdds(start, w - 1, d);
    OffsetAdds(start, w, d);
    OffsetStrict(start + w - 1, CeilDiv(n, d), d);
    if start + w < CeilDiv(n, d) {
      OffsetStrict(start + w, CeilDiv(n, d), d);
    }
  }

  lemma WindowSpan(maxLen: nat, d: nat)
    requires 0 < d <= maxLen
    ensures CeilDiv(maxLen, d) > 0 && Offset(CeilDiv(maxLen, d) - 1, d) < maxLen <= Offset(CeilDiv(maxLen, d), d)
  {
    FrameFits(0, d, maxLen);
    CeilDivBounds(maxLen, d);
    OffsetAdds(CeilDiv(maxLen, d) - 1, 1, d);
  }

  /** An aligned window is credited with the scores of all its frames, or of all but the last. */
  lemma CreditedFrames(samples: seq<real>, maxLen: nat, frameLen: nat, start: nat)
    requires 0 < frameLen <= maxLen && IsAligned(samples, maxLen, frameLen, start)
    ensures var w, m := CeilDiv(maxLen, frameLen), CreditedCount(samples, maxLen, frameLen, start);
      && w > 0 && Offset(start, frameLen) <= |samples|
      && (m == w || m == w - 1)
      && (WholeFrames(maxLen, frameLen) && start + w < CeilDiv(|samples|, frameLen) ==> m == w)
      && (!WholeFrames(maxLen, frameLen) ==> m == w - 1)
  {
    var w := CeilDiv(maxLen, frameLen);
    WindowSpan(maxLen, frameLen);
    AlignedFits(|samples|, frameLen, start, w);
    WindowFrameCount(|samples|, maxLen, frameLen, start, w);
  }

  lemma ScoreAtMostOne(samples: seq<real>, frameLen: nat, k: nat)
    requires frameLen > 0 && k < CeilDiv(|samples|, frameLen)
    ensures FrameScores(samples, frameLen)[k] <= 1
  {
    hide IsSpeech, Frame;
    assert FrameScores(samples, frameLen)[k] == Score(samples, frameLen, k);
  }

  lemma LastFrameOnly(scores: seq<nat>, start: nat, w: nat, m: nat)
    requires 0 < w && start + w <= |scores| && scores[start + w - 1] <= 1 && (m == w || m == w - 1)
    ensures WindowScore(scores, w, start) - 1 <= Sum(scores, start, start + m) <= WindowScore(scores, w, start)
    ensures m == w ==> Sum(scores, start, start + m) == WindowScore(scores, w, start)
  {
  }

  /** Credit differs from the search's score by at most the last frame. */
  lemma CreditNearScore(samples: seq<real>, maxLen: nat, frameLen: nat, start: nat)
    requires 0 < frameLen <= maxLen && IsAligned(samples, maxLen, frameLen, start)
    ensures var score := WindowScore(FrameScores(samples, frameLen), CeilDiv(maxLen, frameLen), start);
      && score - 1 <= Credit(samples, maxLen, frameLen, start) <= score
      && (WholeFrames(maxLen, frameLen) && start + CeilDiv(maxLen, frameLen) < CeilDiv(|samples|, frameLen) ==>
            Credit(samples, maxLen, frameLen, start) == score)
  {
    hide Credit, Offset, Score;
    var scores, w := FrameScores(samples, frameLen), CeilDiv(maxLen, frameLen);
    var m := CreditedCount(samples, maxLen, frameLen, start);
    CreditedFrames(samples, maxLen, frameLen, start);
    CreditIsSum(samples, maxLen, frameLen, start);
    ScoreAtMostOne(samples, frameLen, start + w - 1);
    LastFrameOnly(scores, start, w, m);
  }

  /** When the window is a whole number of frames no aligned window holds more countable speech than
      the selected one, whatever the clip length; otherwise the loss is at most one frame. */
  lemma SelectedWindowIsBest(samples: seq<real>, maxLen: nat, frameLen: nat, best: nat, start: nat)
    requires 0 < frameLen <= maxLen
    requires IsFirstBest(FrameScores(samples, frameLen), CeilDiv(maxLen, frameLen), best)
    requires IsAligned(samples, maxLen, frameLen, start)
    ensures WholeFrames(maxLen, frameLen) ==>
              Credit(samples, maxLen, frameLen, start) <= Credit(samples, maxLen, frameLen, best)
    ensures Credit(samples, maxLen, frameLen, start) <= Credit(samples, maxLen, frameLen, best) + 1
  {
    hide Credit, Sum, Score, Offset, CeilDiv;
    CreditNearScore(samples, maxLen, frameLen, start);
    CreditNearScore(samples, maxLen, frameLen, best);
    var scores, w := FrameScores(samples, frameLen), CeilDiv(maxLen, frameLen);
    assert WindowScore(scores, w, start) <= WindowScore(scores, w, best);
    assert start < best ==> WindowScore(scores, w, start) < WindowScore(scores, w, best);
  }

  /** When clip and window are whole frames every aligned window, the last one included, is credited
      with its full score. */
  lemma WholeFramesCreditIsScore(samples: seq<real>, maxLen: nat, frameLen: nat, start: nat)
    requires 0 < frameLen <= maxLen && IsAligned(samples, maxLen, frameLen, start)
    requires WholeFrames(maxLen, frameLen) && WholeFrames(|samples|, frameLen)
    ensures Credit(samples, maxLen, frameLen, start) ==
            WindowScore(FrameScores(samples, frameLen), CeilDiv(maxLen, frameLen), start)
  {
    hide Credit, Offset, Score, Sum, CeilDiv, FrameScores, CreditedCount, WholeFrames;
    var w := CeilDiv(maxLen, frameLen);
    WholeFramesCount(samples, maxLen, frameLen, start);
    CreditIsSum(samples, maxLen, frameLen, start);
  }

  lemma WholeFramesCount(samples: seq<real>, maxLen: nat, frameLen: nat, start: nat)
    requires 0 < frameLen <= maxLen && IsAligned(samples, maxLen, frameLen, start)
    requires WholeFrames(maxLen, frameLen) && WholeFrames(|samples|, frameLen)
    ensures Offset(start, frameLen) <= |samples|
    ensures CreditedCount(samples, maxLen, frameLen, start) == CeilDiv(maxLen, frameLen)
  {
    hide CeilDiv, FrameCount, Offset;
    var w := CeilDiv(maxLen, frameLen);
    OffsetAdds(start, w, frameLen);
    OffsetOrder(CeilDiv(|samples|, frameLen), start + w, frameLen);
    WindowSpan(maxLen, frameLen);
    AlignedFits(|samples|, frameLen, start, w);
    WindowFrameCount(|samples|, maxLen, frameLen, start, w);
  }

  /** So the speech credited to the selected window is 20 ms times the search's maximum. */
  lemma SelectedSpeechIsMaximum(samples: seq<real>, maxLen: nat, frameLen: nat, window: seq<real>)
    requires IsSelected(samples, maxLen, frameLen, window) && !KeepsWholeClip(|samples|, maxLen, frameLen)
    requires WholeFrames(maxLen, frameLen) && WholeFrames(|samples|, frameLen)
    ensures exists best: nat ::
      && IsFirstBest(FrameScores(samples, frameLen), CeilDiv(maxLen, frameLen), best)
      && SpeechMsOf(window, frameLen) ==
         SPEECH_FRAME_MS * WindowScore(FrameScores(samples, frameLen), CeilDiv(maxLen, frameLen), best)
  {
    hide WindowScore, FrameScores, CeilDiv, CompleteSpeech;
    var best: nat :|
      && IsFirstBest(FrameScores(samples, frameLen), CeilDiv(maxLen, frameLen), best)
      && Offset(best, frameLen) <= |samples| && window == Slice(samples, Offset(best, frameLen), maxLen);
    BestIsAligned(samples, maxLen, frameLen, best);
    WholeFramesCreditIsScore(samples, maxLen, frameLen, best);
  }

  lemma BestIsAligned(samples: seq<real>, maxLen: nat, frameLen: nat, best: nat)
    requires frameLen > 0 && IsFirstBest(FrameScores(samples, frameLen), CeilDiv(maxLen, frameLen), best)
    ensures IsAligned(samples, maxLen, frameLen, best)
  {
  }

  /** The claim the enrollment gate relies on, for one window configuration. */
  ghost predicate AlwaysSelectsBest(maxLen: nat, frameLen: nat)
    requires frameLen > 0
  {
    forall samples: seq<real>, best: nat, start: nat ::
      IsFirstBest(FrameScores(samples, frameLen), CeilDiv(maxLen, frameLen), best) &&
      IsAligned(samples, maxLen, frameLen, start) ==>
        Credit(samples, maxLen, frameLen, start) <= Credit(samples, maxLen, frameLen, best)
  }

  /** It holds for exactly the window lengths that are whole numbers of frames. */
  lemma AlwaysSelectsBestIffWholeFrames(maxLen: nat, frameLen: nat)
    requires 0 < frameLen <= maxLen
    ensures AlwaysSelectsBest(maxLen, frameLen) <==> WholeFrames(maxLen, frameLen)
  {
    if WholeFrames(maxLen, frameLen) {
      forall samples: seq<real>, best: nat, start: nat |
        IsFirstBest(FrameScores(samples, frameLen), CeilDiv(maxLen, frameLen), best) &&
        IsAligned(samples, maxLen, frameLen, start)
        ensures Credit(samples, maxLen, frameLen, start) <= Credit(samples, maxLen, frameLen, best)
      {
        SelectedWindowIsBest(samples, maxLen, frameLen, best, start);
      }
    } else {
      CutShortWitness(maxLen, frameLen);
    }
  }

  /** A clip on which the selected window is not the best. */
  lemma CutShortWitness(maxLen: nat, frameLen: nat)
    requires 0 < frameLen <= maxLen && !WholeFrames(maxLen, frameLen)
    ensures var w := CeilDiv(maxLen, frameLen);
      var samples := SpeechBetweenSilence(w, frameLen);
      && IsFirstBest(FrameScores(samples, frameLen), w, 0)
      && IsAligned(samples, maxLen, frameLen, 0) && IsAligned(samples, maxLen, frameLen, 1)
      && Credit(samples, maxLen, frameLen, 1) == Credit(samples, maxLen, frameLen, 0) + 1
  {
    hide Credit, Offset, Score, Sum, SpeechBetweenSilence, CeilDiv;
    var w := CeilDiv(maxLen, frameLen);
    CutShortNeedsTwoFrames(maxLen, frameLen);
    var samples := SpeechBetweenSilence(w, frameLen);
    ScoresOfWitness(w, frameLen);
    WitnessFirstBest(w);
    WitnessCredit(samples, maxLen, frameLen, 0);
    WitnessCredit(samples, maxLen, frameLen, 1);
  }

  lemma CutShortNeedsTwoFrames(maxLen: nat, frameLen: nat)
    requires 0 < frameLen <= maxLen && !WholeFrames(maxLen, frameLen)
    ensures CeilDiv(maxLen, frameLen) > 1
  {
    WindowSpan(maxLen, frameLen);
  }

  lemma WitnessCredit(samples: seq<real>, maxLen: nat, frameLen: nat, start: nat)
    requires 0 < frameLen <= maxLen && !WholeFrames(maxLen, frameLen) && IsAligned(samples, maxLen, frameLen, start)
    ensures var scores, w := FrameScores(samples, frameLen), CeilDiv(maxLen, frameLen);
      w > 0 && Credit(samples, maxLen, frameLen, start) == Sum(scores, start, start + w - 1)
  {
    hide Credit, Offset, Score;
    CreditedFrames(samples, maxLen, frameLen, start);
    CreditIsSum(samples, maxLen, frameLen, start);
  }

  lemma WitnessFirstBest(w: nat)
    requires w > 1
    ensures var scores := [0] + Ones(w - 1) + [0];
      && IsFirstBest(scores, w, 0)
      && Sum(scores, 1, w) == Sum(scores, 0, w - 1) + 1
  {
    var scores := [0] + Ones(w - 1) + [0];
    WitnessScores(w, w - 1);
    WitnessScores(w, w);
    forall s: nat | s + w <= |scores| ensures WindowScore(scores, w, s) <= WindowScore(scores, w, 0) {
      assert s == 0 || s == 1;
    }
  }

  ghost function Ones(n: nat): seq<nat> {
    seq(n, _ => 1)
  }

  /** One silent frame, `w - 1` speech frames, one silent frame. */
  ghost function SpeechBetweenSilence(w: nat, frameLen: nat): seq<real> {
    seq(Offset(w + 1, frameLen), i => if frameLen <= i < Offset(w, frameLen) then 1.0 else 0.0)
  }

  lemma {:induction false} ConstantFrame(frame: seq<real>, value: real)
    requires value == 0.0 || value == 1.0
    requires forall i :: 0 <= i < |frame| ==> frame[i] == value
    ensures SumOfSquares(frame) == value * (|frame| as real)
  {
    if frame != [] {
      ConstantFrame(frame[1..], value);
    }
  }

  lemma ConstantFrameIsSpeech(frame: seq<real>, value: real)
    requires frame != [] && (value == 0.0 || value == 1.0)
    requires forall i :: 0 <= i < |frame| ==> frame[i] == value
    ensures IsSpeech(frame) <==> value == 1.0
  {
    ConstantFrame(frame, value);
  }

  lemma ScoresOfWitness(w: nat, frameLen: nat)
    requires w > 1 && frameLen > 0
    ensures FrameScores(SpeechBetweenSilence(w, frameLen), frameLen) == [0] + Ones(w - 1) + [0]
  {
    var samples := SpeechBetweenSilence(w, frameLen);
    CeilDivUnique(|samples|, frameLen, w + 1);
    var scores, expected := FrameScores(samples, frameLen), [0] + Ones(w - 1) + [0];
    forall k: nat | k < w + 1 ensures scores[k] == expected[k] {
      OffsetStrict(k, w + 1, frameLen);
      if 0 < k { OffsetStrict(0, k, frameLen); }
      if k < w { OffsetStrict(k, w, frameLen); }
      var frame := Frame(samples, frameLen, k);
      assert |frame| == frameLen;
      ConstantFrameIsSpeech(frame, if 0 < k < w then 1.0 else 0.0);
    }
  }

  /** Both windows of the witness score alike, but the second loses a silent frame when cut short. */
  lemma {:induction false} WitnessScores(w: nat, hi: nat)
    requires 1 <= hi <= w
    ensures var scores := [0] + Ones(w - 1) + [0];
      && Sum(scores, 0, hi) == Sum(scores, 1, hi) == hi - 1
      && Sum(scores, 1, w + 1) == Sum(scores, 1, w)
  {
    if hi > 1 {
      WitnessScores(w, hi - 1);
    }
  }

  /** The extractor's limit is respected for every clip exactly under the same condition: otherwise a
      clip that needs just as many frames as the window is handed back uncut. */
  lemma WindowFitsIffWholeFrames(maxLen: nat, frameLen: nat)
    requires 0 < frameLen <= maxLen
    ensures (forall samples: seq<real>, window: seq<real> ::
               IsSelected(samples, maxLen, frameLen, window) ==> |window| <= maxLen) <==> WholeFrames(maxLen, frameLen)
  {
    CompleteFrames(maxLen, frameLen);
    CeilDivBounds(maxLen, frameLen);
    var w := CeilDiv(maxLen, frameLen);
    if WholeFrames(maxLen, frameLen) {
      forall samples: seq<real>, window: seq<real> | IsSelected(samples, maxLen, frameLen, window)
        ensures |window| <= maxLen
      {
        if KeepsWholeClip(|samples|, maxLen, frameLen) {
          CeilDivBounds(|samples|, frameLen);
          if |samples| > maxLen && CeilDiv(|samples|, frameLen) < w {
            OffsetStrict(CeilDiv(|samples|, frameLen), w, frameLen);
          }
        }
      }
    } else {
      var samples := seq(Offset(w, frameLen), _ => 0.0);
      CeilDivUnique(|samples|, frameLen, w);
      assert IsSelected(samples, maxLen, frameLen, samples);
    }
  }

  // ---- the quality gate ----

  ghost function ClippedSamples(samples: seq<real>): nat {
    if samples == [] then 0
    else ClippedSamples(samples[..|samples| - 1]) +
         if IsClipped(samples[|samples| - 1]) then 1 else 0
  }

  predicate IsClipped(sample: real) {
    sample >= CLIPPING_AMPLITUDE || -sample >= CLIPPING_AMPLITUDE
  }

  /** An empty clip divides zero by zero, which no comparison rejects. */
  ghost predicate TooClipped(samples: seq<real>) {
    samples != [] && ClippedSamples(samples) as real / |samples| as real > MAX_CLIPPING_FRACTION
  }

  /** No window the search may choose from is credited with enough speech. */
  ghost predicate NoWindowReaches(samples: seq<real>, maxLen: nat, frameLen: nat, floorMs: nat) {
    if KeepsWholeClip(|samples|, maxLen, frameLen) then SpeechMsOf(samples, frameLen) < floorMs
    else forall start: nat :: IsAligned(samples, maxLen, frameLen, start) ==>
                                SPEECH_FRAME_MS * Credit(samples, maxLen, frameLen, start) < floorMs
  }

  lemma NoWindowReachesIffSelectedFails(samples: seq<real>, maxLen: nat, frameLen: nat, window: seq<real>, floorMs: nat)
    requires IsSelected(samples, maxLen, frameLen, window)
    requires frameLen > 0 ==> WholeFrames(maxLen, frameLen)
    ensures NoWindowReaches(samples, maxLen, frameLen, floorMs) <==> SpeechMsOf(window, frameLen) < floorMs
  {
    if !KeepsWholeClip(|samples|, maxLen, frameLen) {
      var best: nat :|
        && IsFirstBest(FrameScores(samples, frameLen), CeilDiv(maxLen, frameLen), best)
        && Offset(best, frameLen) <= |samples| && window == Slice(samples, Offset(best, frameLen), maxLen);
      assert IsAligned(samples, maxLen, frameLen, best);
      assert SpeechMsOf(window, frameLen) == SPEECH_FRAME_MS * Credit(samples, maxLen, frameLen, best);
      forall start: nat | IsAligned(samples, maxLen, frameLen, start)
        ensures Credit(samples, maxLen, frameLen, start) <= Credit(samples, maxLen, frameLen, best)
      {
        SelectedWindowIsBest(samples, maxLen, frameLen, best, start);
      }
    }
  }

  method CountClipped(samples: seq<real>) returns (count: nat)
    ensures count == ClippedSamples(samples)
  {
    count := 0;
    for k := 0 to |samples|
      invariant count == ClippedSamples(samples[..k])
    {
      assert samples[..k + 1][..k] == samples[..k];
      if IsClipped(samples[k]) {
        count := count + 1;
      }
    }
    assert samples[..|samples|] == samples;
  }

  /** The gates in order.  Speech is judged on the selected window, and with a window of whole frames
      the clip is refused for speech exactly when no aligned window would have passed. */
  method Analyze(clip: Pcm, durationMs: u64, profile: QualityProfile) returns (r: Analysis)
    ensures r.TooShort? <==> durationMs < profile.minClipMs
    ensures r.TooLong? <==> profile.minClipMs <= durationMs && profile.maxClipMs < durationMs
    ensures r.Clipped? <==> profile.minClipMs <= durationMs <= profile.maxClipMs && TooClipped(clip.samples)
    ensures var maxLen := SamplesIn(Min(profile.maxWindowMs, MAX_WINDOW_MS), clip.sampleRateHz);
      var frameLen := SamplesIn(SPEECH_FRAME_MS, clip.sampleRateHz);
      && (r.Accepted? ==>
            && IsSelected(clip.samples, maxLen, frameLen, r.window.samples)
            && r.speechMs == SpeechMsOf(r.window.samples, frameLen) >= profile.minSpeechMs
            && r.durationMs == durationMs && r.window.sampleRateHz == clip.sampleRateHz)
      && (r.InsufficientAudio? ==>
            exists window :: IsSelected(clip.samples, maxLen, frameLen, window) &&
                             SpeechMsOf(window, frameLen) < profile.minSpeechMs)
      && ((frameLen > 0 ==> WholeFrames(maxLen, frameLen)) ==>
            (r.InsufficientAudio? <==>
               profile.minClipMs <= durationMs <= profile.maxClipMs && !TooClipped(clip.samples) &&
               NoWindowReaches(clip.samples, maxLen, frameLen, profile.minSpeechMs)))
  {
    if durationMs < profile.minClipMs {
      return TooShort;
    }
    if durationMs > profile.maxClipMs {
      return TooLong;
    }
    var clipped := CountClipped(clip.samples);
    if clip.samples != [] && clipped as real / |clip.samples| as real > MAX_CLIPPING_FRACTION {
      return Clipped;
    }
    var window, speechMs := SelectAndMeasure(clip, Min(profile.maxWindowMs, MAX_WINDOW_MS), profile.minSpeechMs);
    if speechMs < profile.minSpeechMs {
      return InsufficientAudio;
    }
    r := Accepted(durationMs, speechMs, window);
  }

  /** The window `analyze` judges and the speech it is credited with. */
  method SelectAndMeasure(clip: Pcm, windowMs: u64, ghost floorMs: nat) returns (window: Pcm, speechMs: nat)
    requires windowMs <= MAX_WINDOW_MS
    ensures var maxLen, frameLen := SamplesIn(windowMs, clip.sampleRateHz), SamplesIn(SPEECH_FRAME_MS, clip.sampleRateHz);
      && IsSelected(clip.samples, maxLen, frameLen, window.samples)
      && speechMs == SpeechMsOf(window.samples, frameLen) && window.sampleRateHz == clip.sampleRateHz
      && ((frameLen > 0 ==> WholeFrames(maxLen, frameLen)) ==>
            (speechMs < floorMs <==> NoWindowReaches(clip.samples, maxLen, frameLen, floorMs)))
  {
    WindowFitsU64(windowMs, clip.sampleRateHz);
    if SamplesIn(SPEECH_FRAME_MS, clip.sampleRateHz) > 0 {
      WindowFitsSum(windowMs, clip.sampleRateHz);
    }
    window := SelectWindow(clip, windowMs);
    speechMs := SpeechMs(window.samples, window.sampleRateHz);
    ghost var maxLen, frameLen := SamplesIn(windowMs, clip.sampleRateHz), SamplesIn(SPEECH_FRAME_MS, clip.sampleRateHz);
    if frameLen > 0 ==> WholeFrames(maxLen, frameLen) {
      NoWindowReachesIffSelectedFails(clip.samples, maxLen, frameLen, window.samples, floorMs);
    }
  }

  lemma WindowFitsU64(windowMs: u64, rate: u32)
    requires windowMs <= MAX_WINDOW_MS
    ensures windowMs * rate < 0x1_0000_0000_0000_0000
  {
    MulMono(windowMs, MAX_WINDOW_MS, rate);
  }

  /** A window of at most six seconds never has more than 600 frames. */
  lemma WindowFitsSum(windowMs: u64, rate: u32)
    requires windowMs <= MAX_WINDOW_MS && SamplesIn(SPEECH_FRAME_MS, rate) > 0
    ensures CeilDiv(SamplesIn(windowMs, rate), SamplesIn(SPEECH_FRAME_MS, rate)) <= 600
  {
    var maxLen, frameLen := SamplesIn(windowMs, rate), SamplesIn(SPEECH_FRAME_MS, rate);
    MulMono(windowMs, MAX_WINDOW_MS, rate);
    assert maxLen <= 6 * rate && 20 * rate < 1000 * frameLen + 1000;
    assert maxLen <= 600 * frameLen;
    OffsetIsProduct(601, frameLen);
    CeilDivBounds(maxLen, frameLen);
    OffsetOrder(CeilDiv(maxLen, frameLen), 601, frameLen);
  }

  lemma {:induction false} MulMono(a: nat, b: nat, d: nat)
    requires a <= b
    ensures a * d <= b * d
    decreases b
  {
    if a < b {
      MulMono(a, b - 1, d);
      assert b * d == (b - 1) * d + d;
    }
  }

  /** At the enrollment rate of 16 kHz the condition is a window of a multiple of 20 ms. */
  lemma WholeFramesAt16kHz(windowMs: u64)
    ensures SamplesIn(SPEECH_FRAME_MS, 16_000) == 320
    ensures WholeFrames(SamplesIn(windowMs, 16_000), 320) <==> windowMs % SPEECH_FRAME_MS == 0
  {
    CountsAreQuotients(SamplesIn(windowMs, 16_000), 320);
    var q, r := windowMs / 20, windowMs % 20;
    assert SamplesIn(windowMs, 16_000) == 16 * windowMs == 320 * q + 16 * r;
  }


  // ---- what counts as speech ----

  /** Every sample has at least the floor's magnitude. */
  predicate Loud(samples: seq<real>) {
    forall i :: 0 <= i < |samples| ==> samples[i] >= 0.001 || samples[i] <= -0.001
  }

  predicate Quiet(samples: seq<real>) {
    forall i :: 0 <= i < |samples| ==> -0.001 < samples[i] < 0.001
  }

  lemma RatioReaches(a: real, n: real, c: real)
    requires n > 0.0
    ensures a / n >= c <==> a >= c * n
  {
    var q := a / n;
    assert q * n == a;
    if q >= c {
      assert (q - c) * n >= 0.0;
    } else {
      assert (c - q) * n > 0.0;
    }
  }

  lemma SquareAgainstFloor(v: real)
    ensures v >= 0.001 || v <= -0.001 ==> v * v >= 0.000_001
    ensures -0.001 < v < 0.001 ==> v * v < 0.000_001
  {
    var gap := v * v - 0.000_001;
    assert gap == (v - 0.001) * (v + 0.001);
  }

  lemma {:induction false} LoudEnergy(frame: seq<real>)
    ensures Loud(frame) ==> SumOfSquares(frame) >= 0.000_001 * (|frame| as real)
    ensures Quiet(frame) && frame != [] ==> SumOfSquares(frame) < 0.000_001 * (|frame| as real)
  {
    if frame != [] {
      SquareAgainstFloor(frame[0]);
      LoudEnergy(frame[1..]);
    }
  }

  /** A frame that is loud throughout is speech; a quiet or empty one is not. */
  lemma LoudIsSpeech(frame: seq<real>)
    ensures Loud(frame) && frame != [] ==> IsSpeech(frame)
    ensures Quiet(frame) ==> !IsSpeech(frame)
  {
    if frame != [] {
      LoudEnergy(frame);
      RatioReaches(SumOfSquares(frame), |frame| as real, 0.000_001);
    }
  }

  lemma {:induction false} SameEnergy(a: seq<real>, b: seq<real>)
    requires |a| == |b| && forall i :: 0 <= i < |a| ==> a[i] == b[i] || a[i] == -b[i]
    ensures SumOfSquares(a) == SumOfSquares(b)
  {
    if a != [] {
      SameEnergy(a[1..], b[1..]);
    }
  }

  /** The sign of a sample never matters. */
  lemma SignsDoNotMatter(a: seq<real>, b: seq<real>)
    requires |a| == |b| && forall i :: 0 <= i < |a| ==> a[i] == b[i] || a[i] == -b[i]
    ensures IsSpeech(a) <==> IsSpeech(b)
  {
    SameEnergy(a, b);
  }

  lemma {:induction false} EnergyOfClick(before: nat, v: real, after: nat)
    ensures SumOfSquares(Click(before, v, after)) == v * v
    decreases before
  {
    var frame := Click(before, v, after);
    if before == 0 {
      ConstantFrame(frame[1..], 0.0);
    } else {
      assert frame[1..] == Click(before - 1, v, after);
      EnergyOfClick(before - 1, v, after);
    }
  }

  function Click(before: nat, v: real, after: nat): seq<real> {
    seq(before + 1 + after, i => if i == before then v else 0.0)
  }

  /** A single click in silence is speech when its energy, spread over the frame, reaches the floor's:
      the mean is taken over all samples of the frame. */
  lemma ClickIsSpeech(before: nat, v: real, after: nat)
    ensures IsSpeech(Click(before, v, after)) <==> v * v >= 0.000_001 * ((before + 1 + after) as real)
  {
    EnergyOfClick(before, v, after);
    RatioReaches(v * v, (before + 1 + after) as real, 0.000_001);
  }

  // ---- a loud stretch is found, and credited in full ----

  lemma FrameStartsInside(n: nat, d: nat, k: nat)
    requires d > 0
    ensures k < CeilDiv(n, d) <==> Offset(k, d) < n
  {
    CeilDivBounds(n, d);
    OffsetOrder(k, CeilDiv(n, d), d);
    if k < CeilDiv(n, d) {
      OffsetStrict(k, CeilDiv(n, d), d);
    }
  }

  lemma {:induction false} SumOfOnes(scores: seq<nat>, lo: nat, hi: nat)
    requires lo <= hi <= |scores| && forall k :: lo <= k < hi ==> scores[k] == 1
    ensures Sum(scores, lo, hi) == hi - lo
    decreases hi
  {
    if lo < hi {
      SumOfOnes(scores, lo, hi - 1);
    }
  }

  lemma {:induction false} SumOfZeros(scores: seq<nat>, lo: nat, hi: nat)
    requires lo <= hi <= |scores| && forall k :: lo <= k < hi ==> scores[k] == 0
    ensures Sum(scores, lo, hi) == 0
    decreases hi
  {
    if lo < hi {
      SumOfZeros(scores, lo, hi - 1);
    }
  }

  lemma {:induction false} SumWithZero(scores: seq<nat>, lo: nat, hi: nat, zero: nat)
    requires lo <= zero < hi <= |scores| && scores[zero] == 0
    requires forall k :: 0 <= k < |scores| ==> scores[k] <= 1
    ensures Sum(scores, lo, hi) < hi - lo
    decreases hi
  {
    if zero < hi - 1 {
      SumWithZero(scores, lo, hi - 1, zero);
    } else {
      SumBound(scores, lo, hi - 1);
    }
  }

  lemma LoudAndQuietSums(samples: seq<real>, frameLen: nat, hi: nat)
    requires frameLen > 0 && hi <= CeilDiv(|samples|, frameLen)
    ensures Loud(samples) ==> Sum(FrameScores(samples, frameLen), 0, hi) == hi
    ensures Quiet(samples) ==> Sum(FrameScores(samples, frameLen), 0, hi) == 0
  {
    hide Sum, Offset, CeilDiv, IsSpeech;
    var scores := FrameScores(samples, frameLen);
    forall k: nat | k < |scores|
      ensures (Loud(samples) ==> scores[k] == 1) && (Quiet(samples) ==> scores[k] == 0)
    {
      FrameStartsInside(|samples|, frameLen, k);
      LoudIsSpeech(Frame(samples, frameLen, k));
    }
    if Loud(samples) { SumOfOnes(scores, 0, hi); }
    if Quiet(samples) { SumOfZeros(scores, 0, hi); }
  }

  /** A clip loud throughout is credited with all its complete frames, a quiet one with none. */
  lemma LoudClipIsAllSpeech(samples: seq<real>, frameLen: nat)
    ensures frameLen > 0 && Loud(samples) ==> SpeechMsOf(samples, frameLen) == 20 * (|samples| / frameLen)
    ensures Quiet(samples) ==> SpeechMsOf(samples, frameLen) == 0
  {
    if frameLen > 0 {
      CompleteFrames(|samples|, frameLen);
      CountsAreQuotients(|samples|, frameLen);
      LoudAndQuietSums(samples, frameLen, FrameCount(|samples|, frameLen));
    }
  }

  /** Silence, then a loud stretch of exactly one window, then silence, with the stretch on a frame
      boundary. */
  ghost predicate IsStretch(before: seq<real>, loud: seq<real>, after: seq<real>, frameLen: nat)
    requires frameLen > 0
  {
    && Quiet(before) && Loud(loud) && Quiet(after) && loud != []
    && WholeFrames(|before|, frameLen) && WholeFrames(|loud|, frameLen)
  }

  lemma ScoreInStretch(before: seq<real>, loud: seq<real>, after: seq<real>, frameLen: nat, p: nat, w: nat, k: nat)
    requires frameLen > 0 && IsStretch(before, loud, after, frameLen)
    requires Offset(p, frameLen) == |before| && Offset(w, frameLen) == |loud|
    requires k < CeilDiv(|before + loud + after|, frameLen)
    ensures Score(before + loud + after, frameLen, k) == if p <= k < p + w then 1 else 0
  {
    hide CeilDiv, IsSpeech, Offset, Slice;
    var samples, at := before + loud + after, Offset(k, frameLen);
    FrameStartsInside(|samples|, frameLen, k);
    OffsetAdds(p, w, frameLen);
    assert at < |samples|;
    if k < p {
      OffsetStrict(k, p, frameLen);
      assert samples == [] + before + (loud + after);
      SliceOfPart([], before, loud + after, at, frameLen);
    } else if k < p + w {
      if p < k { OffsetStrict(p, k, frameLen); }
      OffsetStrict(k, p + w, frameLen);
      SliceOfPart(before, loud, after, at, frameLen);
    } else {
      if p + w < k { OffsetStrict(p + w, k, frameLen); }
      assert samples == (before + loud) + after + [];
      SliceOfPart(before + loud, after, [], at, frameLen);
    }
    LoudIsSpeech(Frame(samples, frameLen, k));
  }

  /** A slice that lies inside the middle part, or runs over its end with nothing behind it. */
  lemma SliceOfPart(a: seq<real>, b: seq<real>, c: seq<real>, at: nat, length: nat)
    requires |a| <= at < |a| + |b| && length > 0 && (at + length <= |a| + |b| || c == [])
    ensures var slice := Slice(a + b + c, at, length);
      && slice != []
      && (Loud(b) ==> Loud(slice)) && (Quiet(b) ==> Quiet(slice))
  {
    var slice := Slice(a + b + c, at, length);
    assert slice == Slice(b, at - |a|, length);
    forall i | 0 <= i < |slice| ensures slice[i] == b[at - |a| + i] {
    }
  }

  lemma OnlyBest(scores: seq<nat>, p: nat, w: nat, best: nat)
    requires w > 0 && p + w <= |scores| && IsFirstBest(scores, w, best)
    requires forall k :: 0 <= k < |scores| ==> scores[k] == if p <= k < p + w then 1 else 0
    ensures best == p
  {
    SumOfOnes(scores, p, p + w);
    if best < p {
      SumWithZero(scores, best, best + w, best);
    } else if p < best {
      SumWithZero(scores, best, best + w, best + w - 1);
    }
    assert WindowScore(scores, w, p) <= WindowScore(scores, w, best);
  }

  /** The selected window is the loud stretch itself, neither earlier nor later, however long the
      silence around it. */
  lemma LoudStretchIsSelected(before: seq<real>, loud: seq<real>, after: seq<real>, frameLen: nat, window: seq<real>)
    requires frameLen > 0 && IsStretch(before, loud, after, frameLen)
    requires IsSelected(before + loud + after, |loud|, frameLen, window)
    ensures window == loud && SpeechMsOf(window, frameLen) == 20 * (|loud| / frameLen)
  {
    hide Sum, Offset, Score, Loud, Quiet, IsFirstBest;
    var samples := before + loud + after;
    var p, w := CeilDiv(|before|, frameLen), CeilDiv(|loud|, frameLen);
    StretchFrames(before, loud, after, frameLen);
    hide CeilDiv;
    LoudClipIsAllSpeech(loud, frameLen);
    if KeepsWholeClip(|samples|, |loud|, frameLen) {
      assert samples == loud;
    } else {
      var scores := FrameScores(samples, frameLen);
      var best: nat :| IsFirstBest(scores, w, best) &&
        Offset(best, frameLen) <= |samples| && window == Slice(samples, Offset(best, frameLen), |loud|);
      forall k: nat | k < |scores| ensures scores[k] == if p <= k < p + w then 1 else 0 {
        ScoreInStretch(before, loud, after, frameLen, p, w, k);
      }
      OnlyBest(scores, p, w, best);
    }
  }

  lemma StretchFrames(before: seq<real>, loud: seq<real>, after: seq<real>, frameLen: nat)
    requires frameLen > 0 && IsStretch(before, loud, after, frameLen)
    ensures var p, w, n := CeilDiv(|before|, frameLen), CeilDiv(|loud|, frameLen), |before + loud + after|;
      && Offset(p, frameLen) == |before| && Offset(w, frameLen) == |loud| && 0 < w && frameLen <= |loud|
      && p + w <= CeilDiv(n, frameLen)
      && (before != [] || after != [] ==> w < CeilDiv(n, frameLen))
  {
    hide Loud, Quiet;
    var p, w, n := CeilDiv(|before|, frameLen), CeilDiv(|loud|, frameLen), |before + loud + after|;
    FrameStartsInside(|loud|, frameLen, 0);
    OffsetStrict(0, w, frameLen);
    FramesInside(p, w, frameLen, n);
    FrameStartsInside(n, frameLen, w);
    if before != [] {
      FrameStartsInside(|before|, frameLen, 0);
    }
  }

  // ---- what counts as clipped ----

  lemma {:induction false} ClippedAppend(a: seq<real>, b: seq<real>)
    ensures ClippedSamples(a + b) == ClippedSamples(a) + ClippedSamples(b)
  {
    if b == [] {
      assert a + b == a;
    } else {
      assert (a + b)[..|a + b| - 1] == a + b[..|b| - 1];
      ClippedAppend(a, b[..|b| - 1]);
    }
  }

  lemma {:induction false} ClippedOrClean(samples: seq<real>)
    ensures (forall i :: 0 <= i < |samples| ==> samples[i] >= 0.999 || samples[i] <= -0.999) ==>
              ClippedSamples(samples) == |samples|
    ensures (forall i :: 0 <= i < |samples| ==> -0.999 < samples[i] < 0.999) ==> ClippedSamples(samples) == 0
  {
    if samples != [] {
      ClippedOrClean(samples[..|samples| - 1]);
    }
  }

  /** A clip is refused when more than one sample in twenty reaches 0.999 in magnitude, wherever they
      lie. */
  lemma ClippedShare(before: seq<real>, clipped: seq<real>, after: seq<real>)
    requires forall i :: 0 <= i < |clipped| ==> clipped[i] >= 0.999 || clipped[i] <= -0.999
    requires forall i :: 0 <= i < |before| ==> -0.999 < before[i] < 0.999
    requires forall i :: 0 <= i < |after| ==> -0.999 < after[i] < 0.999
    ensures TooClipped(before + clipped + after) <==> 20 * |clipped| > |before + clipped + after|
  {
    ClippedOrClean(before);
    ClippedOrClean(clipped);
    ClippedOrClean(after);
    ClippedAppend(before, clipped);
    ClippedAppend(before + clipped, after);
    var n := |before + clipped + after|;
    if n > 0 {
      ShareExceeds(|clipped|, n);
    }
  }

  lemma ShareExceeds(k: nat, n: nat)
    requires n > 0
    ensures k as real / n as real > 0.05 <==> 20 * k > n
  {
    var a, b := k as real, n as real;
    var q := a / b;
    assert q * b == a;
    assert (20 * k) as real == 20.0 * a;
    var gap := q - 0.05;
    assert gap * b == a - 0.05 * b;
    if gap > 0.0 {
      assert gap * b > 0.0;
    } else {
      assert gap * b <= 0.0;
    }
  }

  /** The gate on six loud seconds at the enrollment rate, anywhere in a quiet clip: accepted with
      exactly those six seconds, whatever lies around them. */
  method AnalyzeSixLoudSeconds(before: seq<real>, loud: seq<real>, after: seq<real>, durationMs: u64, profile: QualityProfile)
    returns (r: Analysis)
    requires Quiet(before) && Loud(loud) && Quiet(after) && |loud| == 96_000 && |before| % 320 == 0
    requires forall i :: 0 <= i < |loud| ==> -0.999 < loud[i] < 0.999
    requires profile.minClipMs <= durationMs <= profile.maxClipMs && profile.maxWindowMs >= 6_000
    ensures r == if profile.minSpeechMs <= 6_000 then Accepted(durationMs, 6_000, Pcm(loud, 16_000)) else InsufficientAudio
  {
    hide Loud, IsSelected, SpeechMsOf, TooClipped, NoWindowReaches, CeilDiv;
    var clip := Pcm(before + loud + after, 16_000);
    r := Analyze(clip, durationMs, profile);
    CountsAreQuotients(|before|, 320);
    CountsAreQuotients(96_000, 320);
    assert clip.samples + [] + [] == clip.samples;
    ClippedShare(clip.samples, [], []);
    assert SamplesIn(6_000, 16_000) == 96_000 && SamplesIn(20, 16_000) == 320;
    if r.Accepted? {
      LoudStretchIsSelected(before, loud, after, 320, r.window.samples);
    } else {
      ghost var window :| IsSelected(clip.samples, 96_000, 320, window) && SpeechMsOf(window, 320) < profile.minSpeechMs;
      LoudStretchIsSelected(before, loud, after, 320, window);
    }
  }
}
