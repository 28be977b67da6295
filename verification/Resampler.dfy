/** The 48 kHz to 24 kHz downlink decimator: a 63-tap delay line with generation-global parity.

Samples and coefficients are reals; a sample that is not finite is a separate value.  The batch
convolution over everything admitted so far is the reference.
*/
module Resampler {
  import opened Sequences

  const TAPS: nat := 63

  datatype Sample = Finite(value: real) | NotFinite

  datatype Processed = Ok(output: seq<real>) | InvalidDownlinkPcm

  predicate AllFinite(input: seq<Sample>) {
    forall i :: 0 <= i < |input| ==> input[i].Finite?
  }

  function Values(input: seq<Sample>): seq<real>
    requires AllFinite(input)
  {
    seq(|input|, i requires 0 <= i < |input| => input[i].value)
  }

  /** The samples before the first one that is not finite. */
  ghost function FinitePrefix(input: seq<Sample>): (prefix: seq<Sample>)
    ensures AllFinite(prefix) && |prefix| <= |input|
  {
    if input == [] || input[0].NotFinite? then [] else [input[0]] + FinitePrefix(input[1..])
  }

  // ---- the reference ----

  function Product(a: real, b: real): real {
    a * b
  }

  /** Sample `n`, with silence before the start. */
  ghost function At(x: seq<real>, n: int): real {
    if 0 <= n < |x| then x[n] else 0.0
  }

  /** The first `taps` terms of the convolution that ends at sample `n`. */
  ghost function Convolve(h: seq<real>, x: seq<real>, n: nat, taps: nat): real
    requires taps <= |h|
  {
    if taps == 0 then 0.0 else Convolve(h, x, n, taps - 1) + Product(At(x, n - (TAPS - 1) + (taps - 1)), h[taps - 1])
  }

  ghost function HalfUp(n: nat): nat {
    (n + 1) / 2
  }

  /** Every second convolution output: `k` is the sum over `j` of `h[j] * x[2k - 62 + j]`. */
  ghost function Batch(h: seq<real>, x: seq<real>): (output: seq<real>)
    requires |h| == TAPS
    ensures |output| == HalfUp(|x|)
  {
    seq(HalfUp(|x|), k requires 0 <= k => Convolve(h, x, 2 * k, TAPS))
  }

  /** The delay line after admitting `x`. */
  ghost function Delay(x: seq<real>): (line: seq<real>)
    ensures |line| == TAPS
  {
    seq(TAPS, j => At(x, |x| - TAPS + j))
  }

  // ---- the decimator ----

  function Dot(a: seq<real>, b: seq<real>): real
    requires |a| == |b|
  {
    if a == [] then 0.0 else Dot(a[..|a| - 1], b[..|b| - 1]) + Product(a[|a| - 1], b[|b| - 1])
  }

  function Sum(a: seq<real>): real {
    if a == [] then 0.0 else Sum(a[..|a| - 1]) + a[|a| - 1]
  }

  class DownlinkResampler {
    const coefficients: seq<real>
    var history: seq<real>
    var inputIndex: nat
    ghost var admitted: seq<real>

    ghost predicate Valid()
      reads this
    {
      && |coefficients| == TAPS
      && inputIndex == |admitted|
      && history == Delay(admitted)
    }

    constructor (coefficients: seq<real>)
      requires |coefficients| == TAPS
      ensures Valid() && this.coefficients == coefficients && admitted == []
    {
      this.coefficients := coefficients;
      history := seq(TAPS, _ => 0.0);
      inputIndex := 0;
      admitted := [];
      new;
      forall j | 0 <= j < TAPS ensures history[j] == Delay([])[j] {
        DelayAt([], j);
      }
    }

    method Process(input: seq<Sample>) returns (r: Processed)
      requires Valid()
      modifies this
      ensures Valid()
      ensures r.Ok? <==> AllFinite(input)
      ensures admitted == old(admitted) + Values(FinitePrefix(input))
      ensures r.Ok? ==> FinitePrefix(input) == input
      ensures r.Ok? ==> Batch(coefficients, admitted) == Batch(coefficients, old(admitted)) + r.output
    {
      hide Batch, Delay, Dot;
      var output: seq<real> := [];
      ghost var start := admitted;
      var n := 0;
      while n < |input|
        invariant 0 <= n <= |input| && Valid()
        invariant AllFinite(input[..n]) && admitted == start + Values(input[..n])
        invariant Batch(coefficients, admitted) == Batch(coefficients, start) + output
      {
        if input[n].NotFinite? {
          StopsAt(input, n);
          return InvalidDownlinkPcm;
        }
        ValuesAppend(input, n);
        Assoc(start, Values(input[..n]), [input[n].value]);
        var emitted := Admit(input[n].value);
        Assoc(Batch(coefficients, start), output, emitted);
        output := output + emitted;
        n := n + 1;
      }
      assert input[..n] == input;
      AllFinitePrefix(input);
      r := Ok(output);
    }

    /** The body of the loop of `process`: shift the delay line, and filter at even global index. */
    method Admit(sample: real) returns (emitted: seq<real>)
      requires Valid()
      modifies this
      ensures Valid() && admitted == old(admitted) + [sample]
      ensures Batch(coefficients, admitted) == Batch(coefficients, old(admitted)) + emitted
      ensures |emitted| == if |old(admitted)| % 2 == 0 then 1 else 0
    {
      hide Batch, Delay, Dot;
      DelayAppend(admitted, sample);
      BatchAppend(coefficients, admitted, sample);
      history := history[1..] + [sample];
      emitted := [];
      if inputIndex % 2 == 0 {
        emitted := [Dot(history, coefficients)];
      }
      inputIndex := inputIndex + 1;
      admitted := admitted + [sample];
    }
  }

  lemma ValuesAppend(input: seq<Sample>, n: nat)
    requires n < |input| && AllFinite(input[..n]) && input[n].Finite?
    ensures AllFinite(input[..n + 1]) && Values(input[..n + 1]) == Values(input[..n]) + [input[n].value]
  {
    assert input[..n + 1] == input[..n] + [input[n]];
  }

  lemma {:induction false} AllFinitePrefix(input: seq<Sample>)
    requires AllFinite(input)
    ensures FinitePrefix(input) == input
  {
    if input != [] {
      AllFinitePrefix(input[1..]);
    }
  }

  lemma {:induction false} StopsAt(input: seq<Sample>, n: nat)
    requires n < |input| && AllFinite(input[..n]) && input[n].NotFinite?
    ensures FinitePrefix(input) == input[..n]
  {
    if n > 0 {
      assert input[0] == input[..n][0];
      assert input[1..][..n - 1] == input[..n][1..];
      StopsAt(input[1..], n - 1);
    }
  }

  lemma DelayAppend(x: seq<real>, sample: real)
    ensures Delay(x + [sample]) == Delay(x)[1..] + [sample]
  {
    var longer := x + [sample];
    forall j | 0 <= j < TAPS ensures Delay(longer)[j] == (Delay(x)[1..] + [sample])[j] {
      DelayAt(longer, j);
      if j < TAPS - 1 {
        DelayAt(x, j + 1);
      }
    }
  }

  lemma DelayAt(x: seq<real>, j: nat)
    requires j < TAPS
    ensures Delay(x)[j] == At(x, |x| - TAPS + j)
  {
  }

  /** The delay line holds exactly the terms of the convolution ending at the latest sample. */
  lemma {:induction false} DotIsConvolve(h: seq<real>, x: seq<real>, taps: nat)
    requires |h| == TAPS && taps <= TAPS && x != []
    ensures Dot(Delay(x)[..taps], h[..taps]) == Convolve(h, x, |x| - 1, taps)
  {
    hide Product;
    if taps > 0 {
      var a, b := Delay(x)[..taps], h[..taps];
      assert a[..taps - 1] == Delay(x)[..taps - 1] && b[..taps - 1] == h[..taps - 1];
      DotIsConvolve(h, x, taps - 1);
    }
  }

  lemma {:induction false} ConvolveIsCausal(h: seq<real>, x: seq<real>, y: seq<real>, n: nat, taps: nat)
    requires |h| == TAPS && taps <= TAPS && n < |x|
    ensures Convolve(h, x + y, n, taps) == Convolve(h, x, n, taps)
  {
    hide Product;
    if taps > 0 {
      ConvolveIsCausal(h, x, y, n, taps - 1);
    }
  }

  lemma BatchAppend(h: seq<real>, x: seq<real>, sample: real)
    requires |h| == TAPS
    ensures Batch(h, x + [sample]) ==
            if |x| % 2 == 0 then Batch(h, x) + [Dot(Delay(x + [sample]), h)] else Batch(h, x)
  {
    hide Convolve, Dot, Delay;
    var longer := x + [sample];
    forall k: nat | k < HalfUp(|x|) ensures Batch(h, longer)[k] == Batch(h, x)[k] {
      ConvolveIsCausal(h, x, [sample], 2 * k, TAPS);
    }
    if |x| % 2 == 0 {
      DotIsConvolve(h, longer, TAPS);
      assert Delay(longer)[..TAPS] == Delay(longer) && h[..TAPS] == h;
      assert Batch(h, longer) == Batch(h, x) + [Convolve(h, longer, |x|, TAPS)];
    } else {
      assert Batch(h, longer) == Batch(h, x);
    }
  }

  /** Any chunking of finite input: the outputs join to the batch convolution of the joined input. */
  method ProcessChunks(resampler: DownlinkResampler, chunks: seq<seq<Sample>>) returns (output: seq<real>)
    requires resampler.Valid() && resampler.admitted == []
    requires AllFinite(Concat(chunks))
    modifies resampler
    ensures resampler.Valid()
    ensures output == Batch(resampler.coefficients, Values(Concat(chunks)))
    ensures |output| == (|Concat(chunks)| + 1) / 2
  {
    output := [];
    var n := 0;
    assert chunks[..0] == [];
    while n < |chunks|
      invariant 0 <= n <= |chunks| && resampler.Valid()
      invariant AllFinite(Concat(chunks[..n])) && resampler.admitted == Values(Concat(chunks[..n]))
      invariant output == Batch(resampler.coefficients, resampler.admitted)
    {
      assert chunks[..n + 1] == chunks[..n] + [chunks[n]];
      ConcatAppend(chunks[..n], [chunks[n]]);
      ConcatSingle(chunks[n]);
      assert chunks == chunks[..n + 1] + chunks[n + 1..];
      ConcatAppend(chunks[..n + 1], chunks[n + 1..]);
      FiniteParts(Concat(chunks[..n]), chunks[n], Concat(chunks[n + 1..]));
      var r := resampler.Process(chunks[n]);
      output := output + r.output;
      n := n + 1;
    }
    assert chunks[..n] == chunks;
  }

  lemma FiniteParts(a: seq<Sample>, b: seq<Sample>, c: seq<Sample>)
    requires AllFinite(a + b + c)
    ensures AllFinite(a) && AllFinite(b) && AllFinite(a + b)
    ensures Values(a + b) == Values(a) + Values(b)
  {
    var all := a + b + c;
    assert forall i :: 0 <= i < |a| ==> a[i] == all[i];
    assert forall i :: 0 <= i < |b| ==> b[i] == all[|a| + i];
  }

  // ---- the coefficients ----

  function Ratio(a: real, d: real): real
    requires d != 0.0
  {
    a / d
  }

  /** The constructor's last loop: divide every tap by the sum of all. */
  method NormalizeTaps(taps: seq<real>) returns (coefficients: seq<real>)
    requires |taps| == TAPS && Sum(taps) != 0.0
    ensures |coefficients| == TAPS && Sum(coefficients) == 1.0
    ensures forall i :: 0 <= i < TAPS ==> coefficients[i] == Ratio(taps[i], Sum(taps))
  {
    hide Ratio;
    var sum := Sum(taps);
    coefficients := [];
    RatioFacts(sum);
    for n := 0 to |taps|
      invariant |coefficients| == n
      invariant forall i :: 0 <= i < n ==> coefficients[i] == Ratio(taps[i], sum)
      invariant Sum(coefficients) == Ratio(Sum(taps[..n]), sum)
    {
      SumAppend(coefficients, Ratio(taps[n], sum));
      SumAppend(taps[..n], taps[n]);
      assert taps[..n + 1] == taps[..n] + [taps[n]];
      RatioAdds(Sum(taps[..n]), taps[n], sum);
      coefficients := coefficients + [Ratio(taps[n], sum)];
    }
    assert taps[..|taps|] == taps;
  }

  lemma SumAppend(a: seq<real>, x: real)
    ensures Sum(a + [x]) == Sum(a) + x
  {
    assert (a + [x])[..|a|] == a;
  }

  lemma RatioAdds(a: real, b: real, d: real)
    requires d != 0.0
    ensures Ratio(a, d) + Ratio(b, d) == Ratio(a + b, d)
  {
  }

  lemma RatioFacts(d: real)
    requires d != 0.0
    ensures Ratio(0.0, d) == 0.0 && Ratio(d, d) == 1.0
  {
    assert Ratio(d, d) * d == d;
    assert (Ratio(d, d) - 1.0) * d == 0.0;
  }

  /** Unit gain at zero frequency: with normalized taps a constant signal passes unchanged once the
      delay line is full. */
  lemma ConstantPasses(h: seq<real>, x: seq<real>, level: real, k: nat)
    requires |h| == TAPS && Sum(h) == 1.0
    requires forall i :: 0 <= i < |x| ==> x[i] == level
    requires TAPS - 1 <= 2 * k < |x|
    ensures Batch(h, x)[k] == level
  {
    ConvolveConstant(h, x, level, 2 * k, TAPS);
    assert h[..TAPS] == h;
  }

  lemma {:induction false} ConvolveConstant(h: seq<real>, x: seq<real>, level: real, n: nat, taps: nat)
    requires |h| == TAPS && taps <= TAPS && TAPS - 1 <= n < |x|
    requires forall i :: 0 <= i < |x| ==> x[i] == level
    ensures Convolve(h, x, n, taps) == level * Sum(h[..taps])
  {
    if taps > 0 {
      ConvolveConstant(h, x, level, n, taps - 1);
      assert h[..taps][..taps - 1] == h[..taps - 1];
    }
  }


  // ---- the filter itself ----

  /** One full-scale sample at `at` in silence. */
  ghost function Impulse(n: nat, at: nat): seq<real> {
    seq(n, i => if i == at then 1.0 else 0.0)
  }

  /** The impulse response is the taps, latest first, seen at every second sample: output `k` holds the
      tap that is `62 - (2k - at)` from the start of the line. */
  lemma ImpulseResponse(h: seq<real>, n: nat, at: nat, k: nat)
    requires |h| == TAPS && at < n && 2 * k < n
    ensures Batch(h, Impulse(n, at))[k] == if 0 <= 2 * k - at <= 62 then h[62 - (2 * k - at)] else 0.0
  {
    ConvolveImpulse(h, n, at, 2 * k, TAPS);
  }

  lemma {:induction false} ConvolveImpulse(h: seq<real>, n: nat, at: nat, m: nat, taps: nat)
    requires |h| == TAPS && taps <= TAPS && at < n && m < n
    ensures Convolve(h, Impulse(n, at), m, taps) == if 0 <= at - m + 62 < taps then h[at - m + 62] else 0.0
  {
    if taps > 0 {
      ConvolveImpulse(h, n, at, m, taps - 1);
    }
  }

  /** `a * x + b * y`, sample by sample. */
  ghost function Mixed(a: real, x: seq<real>, b: real, y: seq<real>): seq<real>
    requires |x| == |y|
  {
    seq(|x|, i requires 0 <= i < |x| => Product(a, x[i]) + Product(b, y[i]))
  }

  /** Mixing before the filter is mixing after it. */
  lemma FilterIsLinear(h: seq<real>, a: real, x: seq<real>, b: real, y: seq<real>)
    requires |h| == TAPS && |x| == |y|
    ensures Batch(h, Mixed(a, x, b, y)) == Mixed(a, Batch(h, x), b, Batch(h, y))
  {
    hide Convolve, Product, Mixed;
    assert |Mixed(a, x, b, y)| == |x| by { MixedAt(a, x, b, y); }
    var left, right := Batch(h, Mixed(a, x, b, y)), Mixed(a, Batch(h, x), b, Batch(h, y));
    MixedAt(a, Batch(h, x), b, Batch(h, y));
    forall k: nat | k < HalfUp(|x|) ensures left[k] == right[k] {
      ConvolveMixed(h, a, x, b, y, 2 * k, TAPS);
    }
  }

  lemma MixedAt(a: real, x: seq<real>, b: real, y: seq<real>)
    requires |x| == |y|
    ensures |Mixed(a, x, b, y)| == |x|
    ensures forall i :: 0 <= i < |x| ==> Mixed(a, x, b, y)[i] == Product(a, x[i]) + Product(b, y[i])
  {
  }

  lemma {:induction false} ConvolveMixed(h: seq<real>, a: real, x: seq<real>, b: real, y: seq<real>, n: nat, taps: nat)
    requires |h| == TAPS && taps <= TAPS && |x| == |y|
    ensures Convolve(h, Mixed(a, x, b, y), n, taps) ==
            Product(a, Convolve(h, x, n, taps)) + Product(b, Convolve(h, y, n, taps))
  {
    hide Product, Mixed;
    if taps == 0 {
      ProductOfZero(a);
      ProductOfZero(b);
    } else {
      ConvolveMixed(h, a, x, b, y, n, taps - 1);
      var at := n - (TAPS - 1) + (taps - 1);
      MixedAt(a, x, b, y);
      ProductOfZero(a);
      ProductOfZero(b);
      assert At(Mixed(a, x, b, y), at) == Product(a, At(x, at)) + Product(b, At(y, at));
      ProductMixes(a, At(x, at), b, At(y, at), h[taps - 1]);
      ProductAdds(a, Convolve(h, x, n, taps - 1), Product(At(x, at), h[taps - 1]));
      ProductAdds(b, Convolve(h, y, n, taps - 1), Product(At(y, at), h[taps - 1]));
    }
  }

  lemma ProductOfZero(a: real)
    ensures Product(a, 0.0) == 0.0
  {
  }

  lemma ProductAdds(a: real, u: real, v: real)
    ensures Product(a, u + v) == Product(a, u) + Product(a, v)
  {
  }

  lemma ProductMixes(a: real, u: real, b: real, v: real, t: real)
    ensures Product(Product(a, u) + Product(b, v), t) == Product(a, Product(u, t)) + Product(b, Product(v, t))
  {
    assert (a * u) * t == a * (u * t);
    assert (b * v) * t == b * (v * t);
  }
}
