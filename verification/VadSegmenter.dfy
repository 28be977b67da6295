/** The server's probability-level voice activity segmenter.

Samples are u64 and probabilities are reals, with one value for every non-finite float.  The ghost
history of a segmenter is what it has accepted since it was created or reset, and `Exact` says, from
that history alone, which boundary every accepted observation must have produced.
*/
module VadSegmenter {
  import opened Basics

  type u64 = x: int | 0 <= x < 0x1_0000_0000_0000_0000

  datatype Probability = Finite(value: real) | NotFinite

  datatype Observation = Observation(probability: Probability, startSample: u64, endSample: u64)

  datatype Config = Config(speechThreshold: real, exitThreshold: real, minSpeechSamples: u64, endSilenceSamples: u64)
  {
    /** What the constructor asserts. */
    predicate Valid() {
      && exitThreshold < speechThreshold <= 1.0 && exitThreshold >= 0.0
      && minSpeechSamples > 0 && endSilenceSamples > 0
    }
  }

  datatype Boundary = SpeechStart(startSample: u64) | SpeechEnd(endSample: u64)
  {
    function Sample(): u64 {
      if SpeechStart? then startSample else endSample
    }
  }

  datatype Observed = Ok(boundary: Option<Boundary>) | StreamIntegrity

  predicate WellFormed(o: Observation) {
    o.probability.Finite? && 0.0 <= o.probability.value <= 1.0 && o.startSample < o.endSample
  }

  // ---- the declarative meaning ----

  /** Observation `k` is well-formed and starts where its predecessor ended. */
  ghost predicate ContinuesAt(h: seq<Observation>, k: int)
    requires 0 <= k < |h|
  {
    WellFormed(h[k]) && (k > 0 ==> h[k - 1].endSample == h[k].startSample)
  }

  ghost predicate Contiguous(h: seq<Observation>) {
    forall k :: 0 <= k < |h| ==> ContinuesAt(h, k)
  }

  /** Evidence for leaving the current mode: speech while silent, silence while active. */
  ghost predicate Decisive(c: Config, active: bool, o: Observation) {
    o.probability.Finite? && if active then o.probability.value < c.exitThreshold else o.probability.value >= c.speechThreshold
  }

  /** Not evidence for staying: between the two thresholds a run goes on. */
  ghost predicate Sustains(c: Config, active: bool, o: Observation) {
    o.probability.Finite? && if active then o.probability.value < c.speechThreshold else o.probability.value >= c.exitThreshold
  }

  ghost function Floor(c: Config, active: bool): u64 {
    if active then c.endSilenceSamples else c.minSpeechSamples
  }

  /** A run that opens decisively at `i` and is sustained to the end of `h`. */
  ghost predicate OpenRun(c: Config, active: bool, h: seq<Observation>, i: int) {
    0 <= i < |h| && Decisive(c, active, h[i]) && forall k :: i <= k < |h| ==> Sustains(c, active, h[k])
  }

  /** An open run that also closes decisively. */
  ghost predicate ClosedRun(c: Config, active: bool, h: seq<Observation>, i: int) {
    OpenRun(c, active, h, i) && Decisive(c, active, h[|h| - 1])
  }

  ghost predicate LongEnough(c: Config, active: bool, h: seq<Observation>, i: int)
    requires 0 <= i < |h|
  {
    h[|h| - 1].endSample - h[i].startSample >= Floor(c, active)
  }

  /** The index after the latest boundary, and the mode that boundary left. */
  ghost function PhaseStart(log: seq<Option<Boundary>>): nat {
    if log == [] then 0 else if log[|log| - 1].Some? then |log| else PhaseStart(log[..|log| - 1])
  }

  ghost function PhaseActive(log: seq<Option<Boundary>>): bool {
    if log == [] then false
    else if log[|log| - 1].Some? then log[|log| - 1].value.SpeechStart?
    else PhaseActive(log[..|log| - 1])
  }

  /** The verdict on the last observation of `h`, given the log of all earlier verdicts: a boundary
      exactly when some run of this phase closes here and is long enough, dated by the earliest run. */
  ghost predicate IsVerdict(c: Config, h: seq<Observation>, log: seq<Option<Boundary>>, verdict: Option<Boundary>)
    requires h != []
  {
    var since, active := PhaseStart(log), PhaseActive(log);
    if verdict.None? then
      forall i :: since <= i < |h| && ClosedRun(c, active, h, i) ==> !LongEnough(c, active, h, i)
    else
      && verdict.value.SpeechStart? == !active
      && exists i :: since <= i < |h| && ClosedRun(c, active, h, i) && LongEnough(c, active, h, i)
                     && verdict.value.Sample() == h[i].startSample
                     && forall k :: since <= k < i ==> !OpenRun(c, active, h, k)
  }

  ghost predicate Exact(c: Config, h: seq<Observation>, log: seq<Option<Boundary>>) {
    && Contiguous(h) && |log| == |h|
    && forall j :: 0 <= j < |h| ==> IsVerdict(c, h[..j + 1], log[..j], log[j])
  }

  // ---- the segmenter ----

  /** The candidate is the start of the earliest run of this phase that is still open. */
  ghost predicate CandidateOf(c: Config, active: bool, h: seq<Observation>, since: nat, candidate: Option<u64>) {
    if candidate.None? then forall i :: since <= i < |h| ==> !OpenRun(c, active, h, i)
    else exists i :: since <= i < |h| && OpenRun(c, active, h, i) && candidate.value == h[i].startSample
                     && forall k :: since <= k < i ==> !OpenRun(c, active, h, k)
  }

  /** The mode and candidates a history must have left behind. */
  ghost predicate Refines(c: Config, h: seq<Observation>, log: seq<Option<Boundary>>, active: bool,
                          speechCandidate: Option<u64>, silenceCandidate: Option<u64>)
  {
    && Exact(c, h, log)
    && active == PhaseActive(log)
    && CandidateOf(c, active, h, PhaseStart(log), if active then silenceCandidate else speechCandidate)
    && (if active then speechCandidate else silenceCandidate) == None
  }

  class Segmenter {
    const config: Config
    var expectedStartSample: Option<u64>
    var speechCandidateStart: Option<u64>
    var silenceCandidateStart: Option<u64>
    var speechActive: bool
    ghost var accepted: seq<Observation>
    ghost var log: seq<Option<Boundary>>

    ghost predicate Valid()
      reads this
    {
      && config.Valid()
      && Refines(config, accepted, log, speechActive, speechCandidateStart, silenceCandidateStart)
      && expectedStartSample == (if accepted == [] then None else Some(accepted[|accepted| - 1].endSample))
    }

    constructor (config: Config)
      requires config.Valid()
      ensures Valid() && this.config == config && accepted == [] && log == []
    {
      this.config := config;
      expectedStartSample, speechCandidateStart, silenceCandidateStart := None, None, None;
      speechActive := false;
      accepted, log := [], [];
    }

    method Observe(o: Observation) returns (r: Observed)
      requires Valid()
      modifies this
      ensures Valid()
      ensures r.StreamIntegrity? <==>
              || !(o.probability.Finite? && 0.0 <= o.probability.value <= 1.0 && o.startSample < o.endSample)
              || (old(accepted) != [] && old(accepted)[|old(accepted)| - 1].endSample != o.startSample)
      ensures r.Ok? ==> accepted == old(accepted) + [o] && log == old(log) + [r.boundary]
      ensures r.StreamIntegrity? ==> unchanged(this)
    {
      hide Refines, NextCandidate, VerdictFor, Config.Valid;
      if !WellFormed(o) || (expectedStartSample.Some? && expectedStartSample.value != o.startSample) {
        return StreamIntegrity;
      }
      ghost var h, earlier := accepted, log;
      ghost var active, speech, silence := speechActive, speechCandidateStart, silenceCandidateStart;
      CandidateIsPast(config, h, earlier, o, active, speech, silence);
      expectedStartSample := Some(o.endSample);
      var boundary;
      if !speechActive {
        boundary := SeekStart(o);
      } else {
        boundary := SeekEnd(o);
      }
      Step(config, h, earlier, o, active, speech, silence,
           boundary, speechActive, speechCandidateStart, silenceCandidateStart);
      accepted, log := h + [o], earlier + [boundary];
      r := Ok(boundary);
    }

    /** The half of `observe` that runs while no speech is active. */
    method SeekStart(o: Observation) returns (boundary: Option<Boundary>)
      requires config.Valid() && WellFormed(o) && !speechActive
      requires speechCandidateStart.Some? ==> speechCandidateStart.value <= o.startSample
      modifies this`speechActive, this`speechCandidateStart
      ensures var next := NextCandidate(config, false, o, old(speechCandidateStart));
        && boundary == VerdictFor(config, false, o, next)
        && speechActive == boundary.Some?
        && speechCandidateStart == if boundary.Some? then None else next
    {
      var p := o.probability.value;
      boundary := None;
      if p >= config.speechThreshold {
        if speechCandidateStart.None? {
          speechCandidateStart := Some(o.startSample);
        }
        var onset := speechCandidateStart.value;
        var length: u64 := o.endSample - onset;
        if length >= config.minSpeechSamples {
          speechActive := true;
          speechCandidateStart := None;
          boundary := Some(SpeechStart(onset));
        }
      } else if p < config.exitThreshold {
        speechCandidateStart := None;
      }
    }

    /** The half of `observe` that runs during speech. */
    method SeekEnd(o: Observation) returns (boundary: Option<Boundary>)
      requires config.Valid() && WellFormed(o) && speechActive
      requires silenceCandidateStart.Some? ==> silenceCandidateStart.value <= o.startSample
      modifies this`speechActive, this`silenceCandidateStart
      ensures var next := NextCandidate(config, true, o, old(silenceCandidateStart));
        && boundary == VerdictFor(config, true, o, next)
        && speechActive == boundary.None?
        && silenceCandidateStart == if boundary.Some? then None else next
    {
      var p := o.probability.value;
      boundary := None;
      if p < config.exitThreshold {
        if silenceCandidateStart.None? {
          silenceCandidateStart := Some(o.startSample);
        }
        var onset := silenceCandidateStart.value;
        var length: u64 := o.endSample - onset;
        if length >= config.endSilenceSamples {
          speechActive := false;
          silenceCandidateStart := None;
          boundary := Some(SpeechEnd(onset));
        }
      } else if p >= config.speechThreshold {
        silenceCandidateStart := None;
      }
    }

    method Reset()
      requires Valid()
      modifies this
      ensures Valid() && accepted == [] && log == []
    {
      expectedStartSample, speechCandidateStart, silenceCandidateStart := None, None, None;
      speechActive := false;
      accepted, log := [], [];
    }
  }

  /** The candidate after one more observation, before any boundary clears it. */
  ghost function NextCandidate(c: Config, active: bool, o: Observation, candidate: Option<u64>): Option<u64> {
    if Decisive(c, active, o) then (if candidate.Some? then candidate else Some(o.startSample))
    else if Sustains(c, active, o) then candidate
    else None
  }

  ghost function VerdictFor(c: Config, active: bool, o: Observation, next: Option<u64>): Option<Boundary> {
    if Decisive(c, active, o) && next.Some? && o.endSample - next.value >= Floor(c, active)
    then Some(if active then SpeechEnd(next.value) else SpeechStart(next.value)) else None
  }

  lemma StartsAreOrdered(h: seq<Observation>, i: nat, k: nat)
    requires Contiguous(h) && i <= k < |h|
    ensures h[i].startSample <= h[k].startSample < h[k].endSample
    decreases k - i
  {
    assert ContinuesAt(h, k);
    if i < k {
      StartsAreOrdered(h, i, k - 1);
    }
  }

  lemma OpenRunAppend(c: Config, active: bool, h: seq<Observation>, o: Observation, i: int)
    requires c.Valid()
    ensures OpenRun(c, active, h + [o], i) <==>
            (OpenRun(c, active, h, i) && Sustains(c, active, o)) || (i == |h| && Decisive(c, active, o))
  {
    var longer := h + [o];
    assert forall k :: 0 <= k < |h| ==> longer[k] == h[k];
    if OpenRun(c, active, longer, i) && i < |h| {
      assert Sustains(c, active, longer[|h|]);
      forall k | i <= k < |h| ensures Sustains(c, active, h[k]) {
        assert Sustains(c, active, longer[k]);
      }
    }
  }

  lemma CandidateStep(c: Config, active: bool, h: seq<Observation>, o: Observation, since: nat, candidate: Option<u64>)
    requires c.Valid() && since <= |h|
    requires CandidateOf(c, active, h, since, candidate)
    ensures CandidateOf(c, active, h + [o], since, NextCandidate(c, active, o, candidate))
  {
    var longer := h + [o];
    forall i ensures OpenRun(c, active, longer, i) <==>
            (OpenRun(c, active, h, i) && Sustains(c, active, o)) || (i == |h| && Decisive(c, active, o)) {
      OpenRunAppend(c, active, h, o, i);
    }
    if Decisive(c, active, o) && candidate.None? {
      assert longer[|h|].startSample == o.startSample && OpenRun(c, active, longer, |h|);
    } else if Sustains(c, active, o) && candidate.Some? {
      var i :| since <= i < |h| && OpenRun(c, active, h, i) && candidate.value == h[i].startSample
               && forall k :: since <= k < i ==> !OpenRun(c, active, h, k);
      assert OpenRun(c, active, longer, i) && longer[i].startSample == candidate.value;
    }
  }

  /** The earliest open run decides, because it is the longest. */
  lemma EarliestIsLongest(c: Config, active: bool, h: seq<Observation>, since: nat, i: int, k: int)
    requires Contiguous(h) && since <= i < |h| && since <= k < |h| && OpenRun(c, active, h, k)
    requires forall n :: since <= n < i ==> !OpenRun(c, active, h, n)
    requires LongEnough(c, active, h, k)
    ensures LongEnough(c, active, h, i)
  {
    StartsAreOrdered(h, i, k);
  }

  lemma VerdictFromCandidate(c: Config, h: seq<Observation>, log: seq<Option<Boundary>>, candidate: Option<u64>)
    requires c.Valid() && Contiguous(h) && h != []
    requires CandidateOf(c, PhaseActive(log), h, PhaseStart(log), candidate)
    ensures IsVerdict(c, h, log, VerdictFor(c, PhaseActive(log), h[|h| - 1], candidate))
  {
    var active, since := PhaseActive(log), PhaseStart(log);
    if candidate.Some? && Decisive(c, active, h[|h| - 1]) {
      var i :| since <= i < |h| && OpenRun(c, active, h, i) && candidate.value == h[i].startSample
               && forall k :: since <= k < i ==> !OpenRun(c, active, h, k);
      assert ClosedRun(c, active, h, i);
      if !LongEnough(c, active, h, i) {
        forall k | since <= k < |h| && ClosedRun(c, active, h, k)
          ensures !LongEnough(c, active, h, k)
        {
          if LongEnough(c, active, h, k) {
            EarliestIsLongest(c, active, h, since, i, k);
          }
        }
      }
    }
  }

  /** No candidate lies after the next observation, so lengths never underflow. */
  lemma CandidateIsPast(c: Config, h: seq<Observation>, log: seq<Option<Boundary>>, o: Observation,
                        active: bool, speech: Option<u64>, silence: Option<u64>)
    requires Refines(c, h, log, active, speech, silence)
    requires h != [] ==> h[|h| - 1].endSample == o.startSample
    ensures speech.Some? ==> speech.value < o.startSample
    ensures silence.Some? ==> silence.value < o.startSample
    ensures (if active then speech else silence) == None
  {
    if h != [] {
      forall i: nat | i < |h| ensures h[i].startSample < o.startSample {
        StartsAreOrdered(h, i, |h| - 1);
      }
    }
  }

  lemma Step(c: Config, h: seq<Observation>, log: seq<Option<Boundary>>, o: Observation,
             active: bool, speech: Option<u64>, silence: Option<u64>,
             verdict: Option<Boundary>, active': bool, speech': Option<u64>, silence': Option<u64>)
    requires c.Valid() && Refines(c, h, log, active, speech, silence)
    requires WellFormed(o) && (h != [] ==> h[|h| - 1].endSample == o.startSample)
    requires var next := NextCandidate(c, active, o, if active then silence else speech);
      && verdict == VerdictFor(c, active, o, next)
      && active' == (if verdict.None? then active else !active)
      && silence' == (if active && verdict.None? then next else None)
      && speech' == (if !active && verdict.None? then next else None)
    ensures Refines(c, h + [o], log + [verdict], active', speech', silence')
  {
    var candidate := if active then silence else speech;
    var next := NextCandidate(c, active, o, candidate);
    PhaseStartBound(log);
    CandidateStep(c, active, h, o, PhaseStart(log), candidate);
    ContiguousAppend(h, o);
    VerdictFromCandidate(c, h + [o], log, next);
    ExactAppend(c, h, log, o, verdict);
  }

  lemma ContiguousAppend(h: seq<Observation>, o: Observation)
    requires Contiguous(h) && WellFormed(o) && (h != [] ==> h[|h| - 1].endSample == o.startSample)
    ensures Contiguous(h + [o])
  {
    forall k | 0 <= k < |h + [o]| ensures ContinuesAt(h + [o], k) {
      if k < |h| {
        assert ContinuesAt(h, k);
      }
    }
  }

  lemma {:induction false} PhaseStartBound(log: seq<Option<Boundary>>)
    ensures PhaseStart(log) <= |log|
  {
    if log != [] && log[|log| - 1].None? {
      PhaseStartBound(log[..|log| - 1]);
    }
  }

  lemma ExactAppend(c: Config, h: seq<Observation>, log: seq<Option<Boundary>>, o: Observation, verdict: Option<Boundary>)
    requires Exact(c, h, log) && Contiguous(h + [o])
    requires IsVerdict(c, h + [o], log, verdict)
    ensures Exact(c, h + [o], log + [verdict])
    ensures verdict.None? ==> PhaseStart(log + [verdict]) == PhaseStart(log) && PhaseActive(log + [verdict]) == PhaseActive(log)
    ensures verdict.Some? ==> PhaseStart(log + [verdict]) == |h| + 1 && PhaseActive(log + [verdict]) == verdict.value.SpeechStart?
  {
    var h', log' := h + [o], log + [verdict];
    assert log'[..|log|] == log;
    forall j | 0 <= j < |h'|
      ensures IsVerdict(c, h'[..j + 1], log'[..j], log'[j])
    {
      if j < |h| {
        assert h'[..j + 1] == h[..j + 1] && log'[..j] == log[..j];
      } else {
        assert h'[..j + 1] == h';
      }
    }
  }

  // ---- whole runs ----

  ghost function Boundaries(log: seq<Option<Boundary>>): seq<Boundary> {
    if log == [] then []
    else
      var earlier := Boundaries(log[..|log| - 1]);
      if log[|log| - 1].Some? then earlier + [log[|log| - 1].value] else earlier
  }

  lemma ExactPrefix(c: Config, h: seq<Observation>, log: seq<Option<Boundary>>, n: nat)
    requires Exact(c, h, log) && n <= |h|
    ensures Exact(c, h[..n], log[..n])
  {
    forall k | 0 <= k < n ensures ContinuesAt(h[..n], k) {
      assert ContinuesAt(h, k);
    }
    forall j | 0 <= j < n ensures IsVerdict(c, h[..n][..j + 1], log[..n][..j], log[..n][j]) {
      assert h[..n][..j + 1] == h[..j + 1] && log[..n][..j] == log[..j];
    }
  }

  lemma OneVerdict(c: Config, h: seq<Observation>, log: seq<Option<Boundary>>, v: Option<Boundary>, w: Option<Boundary>)
    requires h != [] && IsVerdict(c, h, log, v) && IsVerdict(c, h, log, w)
    ensures v == w
  {
  }

  /** The history determines the log: `Exact` leaves the segmenter no freedom. */
  lemma {:induction false} VerdictsAreUnique(c: Config, h: seq<Observation>, a: seq<Option<Boundary>>, b: seq<Option<Boundary>>)
    requires Exact(c, h, a) && Exact(c, h, b)
    ensures a == b
  {
    if h != [] {
      var n := |h| - 1;
      ExactPrefix(c, h, a, n);
      ExactPrefix(c, h, b, n);
      VerdictsAreUnique(c, h[..n], a[..n], b[..n]);
      assert h[..n + 1] == h;
      OneVerdict(c, h, a[..n], a[n], b[n]);
      assert a == a[..n] + [a[n]] && b == b[..n] + [b[n]];
    }
  }

  /** Boundary `k` is a start just for even `k`, and lies far enough after its predecessor. */
  ghost predicate SpacedAt(c: Config, b: seq<Boundary>, k: int)
    requires 0 <= k < |b|
  {
    && (b[k].SpeechStart? <==> k % 2 == 0)
    && (k > 0 ==> b[k].Sample() - b[k - 1].Sample() >= Floor(c, b[k - 1].SpeechEnd?))
  }

  ghost predicate Spaced(c: Config, b: seq<Boundary>) {
    forall k :: 0 <= k < |b| ==> SpacedAt(c, b, k)
  }

  /** A boundary is dated inside its own phase, and far enough before the observation that reveals it. */
  lemma BoundaryIsInsideItsPhase(c: Config, h: seq<Observation>, log: seq<Option<Boundary>>, verdict: Option<Boundary>)
    requires Contiguous(h) && h != [] && verdict.Some? && IsVerdict(c, h, log, verdict)
    ensures PhaseStart(log) < |h|
    ensures PhaseStart(log) > 0 ==> verdict.value.Sample() >= h[PhaseStart(log) - 1].endSample
    ensures h[|h| - 1].endSample - verdict.value.Sample() >= Floor(c, PhaseActive(log))
    ensures verdict.value.SpeechStart? == !PhaseActive(log)
  {
    var since := PhaseStart(log);
    var i :| since <= i < |h| && LongEnough(c, PhaseActive(log), h, i) && verdict.value.Sample() == h[i].startSample;
    if since > 0 {
      StartsAreOrdered(h, since, i);
      assert ContinuesAt(h, since);
    }
  }

  lemma SpacedAppend(c: Config, b: seq<Boundary>, next: Boundary)
    requires Spaced(c, b)
    requires next.SpeechStart? <==> |b| % 2 == 0
    requires b != [] ==> next.Sample() - b[|b| - 1].Sample() >= Floor(c, b[|b| - 1].SpeechEnd?)
    ensures Spaced(c, b + [next])
  {
    var longer := b + [next];
    forall k | 0 <= k < |longer| ensures SpacedAt(c, longer, k) {
      if k < |b| {
        assert SpacedAt(c, b, k);
      }
    }
  }

  /** The latest boundary is far enough behind the observation that revealed it. */
  ghost predicate Settled(c: Config, h: seq<Observation>, since: nat, b: seq<Boundary>) {
    b != [] ==> 0 < since <= |h| && h[since - 1].endSample - b[|b| - 1].Sample() >= Floor(c, b[|b| - 1].SpeechEnd?)
  }

  lemma LogAppend(log: seq<Option<Boundary>>, verdict: Option<Boundary>)
    ensures var longer := log + [verdict];
      && Boundaries(longer) == (if verdict.Some? then Boundaries(log) + [verdict.value] else Boundaries(log))
      && PhaseStart(longer) == (if verdict.Some? then |longer| else PhaseStart(log))
      && PhaseActive(longer) == (if verdict.Some? then verdict.value.SpeechStart? else PhaseActive(log))
  {
    assert (log + [verdict])[..|log|] == log;
  }

  /** Alternating, spaced, and in the mode the last one left. */
  ghost predicate WellSpaced(c: Config, h: seq<Observation>, log: seq<Option<Boundary>>) {
    && Spaced(c, Boundaries(log))
    && (PhaseActive(log) <==> |Boundaries(log)| % 2 == 1)
    && Settled(c, h, PhaseStart(log), Boundaries(log))
  }

  /** Since creation or the last reset, boundaries alternate from a start; every utterance spans at
      least the speech minimum, and every pause at least the silence minimum. */
  lemma {:induction false} BoundariesAlternateAndAreSpaced(c: Config, h: seq<Observation>, log: seq<Option<Boundary>>)
    requires c.Valid() && Exact(c, h, log)
    ensures WellSpaced(c, h, log)
  {
    if h == [] {
      assert log == [];
    } else {
      var n := |h| - 1;
      ExactPrefix(c, h, log, n);
      ExactLast(c, h, log);
      hide *;
      BoundariesAlternateAndAreSpaced(c, h[..n], log[..n]);
      StaysWellSpaced(c, h, log[..n], log[n]);
      assert log == log[..n] + [log[n]];
    }
  }

  lemma StaysWellSpaced(c: Config, h: seq<Observation>, log: seq<Option<Boundary>>, verdict: Option<Boundary>)
    requires Contiguous(h) && h != [] && IsVerdict(c, h, log, verdict)
    requires |log| == |h| - 1 && WellSpaced(c, h[..|h| - 1], log)
    ensures WellSpaced(c, h, log + [verdict])
  {
    hide IsVerdict, Contiguous, Spaced, PhaseStart, PhaseActive, Boundaries;
    LogAppend(log, verdict);
    if verdict.Some? {
      ExtendSpacing(c, h, log, verdict);
      BoundaryIsInsideItsPhase(c, h, log, verdict);
    }
  }

  lemma ExactLast(c: Config, h: seq<Observation>, log: seq<Option<Boundary>>)
    requires Exact(c, h, log) && h != []
    ensures |log| == |h| && Contiguous(h) && IsVerdict(c, h, log[..|h| - 1], log[|h| - 1])
  {
    var n := |h| - 1;
    assert IsVerdict(c, h[..n + 1], log[..n], log[n]) && h[..n + 1] == h;
  }

  lemma ExtendSpacing(c: Config, h: seq<Observation>, log: seq<Option<Boundary>>, verdict: Option<Boundary>)
    requires Contiguous(h) && h != [] && verdict.Some? && IsVerdict(c, h, log, verdict)
    requires Spaced(c, Boundaries(log)) && (PhaseActive(log) <==> |Boundaries(log)| % 2 == 1)
    requires Settled(c, h[..|h| - 1], PhaseStart(log), Boundaries(log))
    ensures Spaced(c, Boundaries(log) + [verdict.value])
    ensures Settled(c, h, |h|, Boundaries(log) + [verdict.value])
  {
    BoundaryIsInsideItsPhase(c, h, log, verdict);
    SpacedAppend(c, Boundaries(log), verdict.value);
  }


  // ---- the verdicts in the configuration's own terms ----

  ghost function LevelAt(h: seq<Observation>, k: nat): real
    requires k < |h| && Contiguous(h)
  {
    assert ContinuesAt(h, k);
    h[k].probability.value
  }

  /** From `i` to `j` there is speech: it begins and ends at or above the speech threshold, never falls
      below the exit threshold, and lasts at least the speech minimum. */
  ghost predicate SpeechRun(c: Config, h: seq<Observation>, i: nat, j: nat)
    requires i <= j < |h| && Contiguous(h)
  {
    && LevelAt(h, i) >= c.speechThreshold && LevelAt(h, j) >= c.speechThreshold
    && (forall k :: i <= k <= j ==> LevelAt(h, k) >= c.exitThreshold)
    && h[j].endSample - h[i].startSample >= c.minSpeechSamples
  }

  /** From `i` to `j` there is silence: it begins and ends below the exit threshold, never reaches the
      speech threshold, and lasts at least the silence minimum. */
  ghost predicate SilenceRun(c: Config, h: seq<Observation>, i: nat, j: nat)
    requires i <= j < |h| && Contiguous(h)
  {
    && LevelAt(h, i) < c.exitThreshold && LevelAt(h, j) < c.exitThreshold
    && (forall k :: i <= k <= j ==> LevelAt(h, k) < c.speechThreshold)
    && h[j].endSample - h[i].startSample >= c.endSilenceSamples
  }

  ghost predicate TurnRun(c: Config, active: bool, h: seq<Observation>, i: nat, j: nat)
    requires i <= j < |h| && Contiguous(h)
  {
    if active then SilenceRun(c, h, i, j) else SpeechRun(c, h, i, j)
  }

  lemma TurnRunIs(c: Config, active: bool, h: seq<Observation>, i: nat, j: nat)
    requires i <= j < |h| && Contiguous(h)
    ensures var seen := h[..j + 1];
      TurnRun(c, active, h, i, j) <==> ClosedRun(c, active, seen, i) && LongEnough(c, active, seen, i)
  {
    var seen := h[..j + 1];
    assert forall k :: 0 <= k <= j ==> seen[k] == h[k];
    forall k | 0 <= k < |h| ensures h[k].probability.Finite? {
      assert ContinuesAt(h, k);
    }
    assert seen[|seen| - 1] == h[j];
    if TurnRun(c, active, h, i, j) {
      forall k: nat | i <= k < |seen| ensures Sustains(c, active, seen[k]) {
        assert LevelAt(h, k) == seen[k].probability.value;
      }
    }
    if ClosedRun(c, active, seen, i) {
      forall k | i <= k <= j ensures Sustains(c, active, h[k]) {
        assert Sustains(c, active, seen[k]);
      }
    }
  }

  /** What every observation reports, out of the observations alone: nothing when no run of this phase
      ends with it, and otherwise a boundary at the beginning of the earliest such run. */
  lemma VerdictAt(c: Config, h: seq<Observation>, log: seq<Option<Boundary>>, j: nat)
    requires Exact(c, h, log) && j < |h|
    ensures var since, active := PhaseStart(log[..j]), PhaseActive(log[..j]);
      && since <= j
      && if log[j].None? then forall i: nat :: since <= i <= j ==> !TurnRun(c, active, h, i, j)
         else exists i: nat ::
           && since <= i <= j && TurnRun(c, active, h, i, j)
           && log[j] == Some(if active then SpeechEnd(h[i].startSample) else SpeechStart(h[i].startSample))
           && forall k: nat :: since <= k < i ==> !TurnRun(c, active, h, k, j)
  {
    var since, active, seen := PhaseStart(log[..j]), PhaseActive(log[..j]), h[..j + 1];
    PhaseStartBound(log[..j]);
    assert IsVerdict(c, seen, log[..j], log[j]);
    hide LongEnough, ClosedRun, OpenRun, TurnRun, Exact, Contiguous, PhaseStart, PhaseActive;
    if log[j].None? {
      forall i: nat | since <= i <= j ensures !TurnRun(c, active, h, i, j) {
        TurnRunIs(c, active, h, i, j);
      }
    } else {
      var i: nat :| since <= i < |seen| && ClosedRun(c, active, seen, i) && LongEnough(c, active, seen, i)
               && log[j].value.Sample() == seen[i].startSample
               && forall k :: since <= k < i ==> !OpenRun(c, active, seen, k);
      TurnRunIs(c, active, h, i, j);
      assert seen[i] == h[i];
      forall k: nat | since <= k < i ensures !TurnRun(c, active, h, k, j) {
        NotOpenNotClosed(c, active, seen, k);
        TurnRunIs(c, active, h, k, j);
      }
    }
  }

  lemma NotOpenNotClosed(c: Config, active: bool, h: seq<Observation>, i: int)
    requires !OpenRun(c, active, h, i)
    ensures !ClosedRun(c, active, h, i)
  {
  }

  /** A phase begins behind the latest boundary and is active behind a start. */
  lemma {:induction false} PhaseIs(log: seq<Option<Boundary>>)
    ensures var since := PhaseStart(log);
      && since <= |log| && (forall k :: since <= k < |log| ==> log[k] == None)
      && (since > 0 ==> log[since - 1].Some?)
      && (PhaseActive(log) <==> since > 0 && log[since - 1].value.SpeechStart?)
  {
    if log != [] && log[|log| - 1].None? {
      PhaseIs(log[..|log| - 1]);
    }
  }

  /** The minimum lengths, boundary by boundary. */
  lemma SpansInSamples(c: Config, h: seq<Observation>, log: seq<Option<Boundary>>, k: nat)
    requires c.Valid() && Exact(c, h, log) && 0 < k < |Boundaries(log)|
    ensures var earlier, later := Boundaries(log)[k - 1], Boundaries(log)[k];
      if k % 2 == 1
      then earlier.SpeechStart? && later.SpeechEnd? && later.endSample - earlier.startSample >= c.minSpeechSamples
      else earlier.SpeechEnd? && later.SpeechStart? && later.startSample - earlier.endSample >= c.endSilenceSamples
  {
    BoundariesAlternateAndAreSpaced(c, h, log);
    assert SpacedAt(c, Boundaries(log), k) && SpacedAt(c, Boundaries(log), k - 1);
  }
}
