/** The signal kernels: direct convolution, peak normalisation, the all-pass
    and comb filters, channel interleaving, and the `Filter` object's
    error-code rules and tap access. Samples are `real`. */
module Dsp {
  import opened RealArith
  import opened RowMajor

  // ---------------------------------------------------------------------
  // Convolve (DSP.h:25-39)
  // ---------------------------------------------------------------------

  /** `f[j] * g[i-j]` summed over `lo <= j < hi`; every index is in bounds. */
  function ConvRange(f: seq<real>, g: seq<real>, i: int, lo: int, hi: int): real
    requires 0 <= lo && hi <= |f| && i - |g| < lo && hi <= i + 1
    decreases hi - lo
  {
    if hi <= lo then 0.0 else ConvRange(f, g, i, lo, hi - 1) + f[hi - 1] * g[i - (hi - 1)]
  }

  /** First index of `f` the inner loop visits for output `i` (`jmn`). */
  function ConvLo(i: int, ng: int): int
  {
    if i >= ng - 1 then i - (ng - 1) else 0
  }

  /** One past the last index of `f` the inner loop visits (`jmx + 1`). */
  function ConvHi(i: int, nf: int): int
  {
    (if i < nf - 1 then i else nf - 1) + 1
  }

  /** Output sample `i` as the loop computes it. */
  function ConvAt(f: seq<real>, g: seq<real>, i: int): real
    requires 0 <= i < |f| + |g| - 1
  {
    ConvRange(f, g, i, ConvLo(i, |g|), ConvHi(i, |f|))
  }

  /** The term of the textbook convolution sum: zero where `g` has no sample. */
  function Term(f: seq<real>, g: seq<real>, i: int, j: int): real
    requires 0 <= j < |f|
  {
    if 0 <= i - j < |g| then f[j] * g[i - j] else 0.0
  }

  /** `sum_{lo <= j < hi} Term(f, g, i, j)`, with no bounds reasoning needed. */
  function TermSum(f: seq<real>, g: seq<real>, i: int, lo: int, hi: int): real
    requires 0 <= lo && hi <= |f|
    decreases hi - lo
  {
    if hi <= lo then 0.0 else TermSum(f, g, i, lo, hi - 1) + Term(f, g, i, hi - 1)
  }

  /** The full convolution sum over every index of `f`. */
  function FullConv(f: seq<real>, g: seq<real>, i: int): real
  {
    TermSum(f, g, i, 0, |f|)
  }

  lemma {:induction false} TermSumZero(f: seq<real>, g: seq<real>, i: int, lo: int, hi: int)
    requires 0 <= lo && hi <= |f|
    requires forall j :: lo <= j < hi ==> Term(f, g, i, j) == 0.0
    ensures TermSum(f, g, i, lo, hi) == 0.0
    decreases hi - lo
  {
    if hi > lo {
      TermSumZero(f, g, i, lo, hi - 1);
    }
  }

  lemma {:induction false} TermSumSplit(f: seq<real>, g: seq<real>, i: int, lo: int, mid: int, hi: int)
    requires 0 <= lo <= mid <= hi <= |f|
    ensures TermSum(f, g, i, lo, hi) == TermSum(f, g, i, lo, mid) + TermSum(f, g, i, mid, hi)
    decreases hi - mid
  {
    if hi > mid {
      TermSumSplit(f, g, i, lo, mid, hi - 1);
    }
  }

  lemma {:induction false} RangeIsTermSum(f: seq<real>, g: seq<real>, i: int, lo: int, hi: int)
    requires 0 <= lo && hi <= |f| && i - |g| < lo && hi <= i + 1
    ensures ConvRange(f, g, i, lo, hi) == TermSum(f, g, i, lo, hi)
    decreases hi - lo
  {
    if hi > lo {
      RangeIsTermSum(f, g, i, lo, hi - 1);
    }
  }

  /** The loop bounds `jmn..jmx` are exact: they skip only zero terms, so the
      loop computes the full convolution sum. */
  lemma ConvBoundsExact(f: seq<real>, g: seq<real>, i: int)
    requires 0 <= i < |f| + |g| - 1
    ensures ConvAt(f, g, i) == FullConv(f, g, i)
  {
    var lo, hi := ConvLo(i, |g|), ConvHi(i, |f|);
    RangeIsTermSum(f, g, i, lo, hi);
    TermSumSplit(f, g, i, 0, lo, |f|);
    TermSumSplit(f, g, i, lo, hi, |f|);
    TermSumZero(f, g, i, 0, lo);
    TermSumZero(f, g, i, hi, |f|);
  }

  /** The convolution the template returns. */
  function Convolution(f: seq<real>, g: seq<real>): (out: seq<real>)
    requires |f| + |g| >= 1
    ensures |out| == |f| + |g| - 1
  {
    seq(|f| + |g| - 1, i requires 0 <= i < |f| + |g| - 1 => ConvAt(f, g, i))
  }

  /** A one-tap kernel `[c]` scales the signal by `c`. */
  lemma OneTapScales(f: seq<real>, c: real)
    requires |f| >= 1
    ensures |Convolution(f, [c])| == |f|
    ensures forall i :: 0 <= i < |f| ==> Convolution(f, [c])[i] == c * f[i]
  {
    forall i | 0 <= i < |f|
      ensures Convolution(f, [c])[i] == c * f[i]
    {
      assert ConvLo(i, 1) == i && ConvHi(i, |f|) == i + 1;
      assert ConvRange(f, [c], i, i, i + 1) == ConvRange(f, [c], i, i, i) + f[i] * [c][0];
    }
  }

  /** `out(n)`, then the nested accumulation loops. */
  method Convolve(f: seq<real>, g: seq<real>) returns (out: seq<real>)
    requires |f| + |g| >= 1
    ensures out == Convolution(f, g)
  {
    var nf, ng := |f|, |g|;
    var n := nf + ng - 1;
    var acc := new real[n](_ => 0.0);
    for i := 0 to n
      invariant forall m :: 0 <= m < i ==> acc[m] == ConvAt(f, g, m)
      invariant forall m :: i <= m < n ==> acc[m] == 0.0
    {
      var jmn := if i >= ng - 1 then i - (ng - 1) else 0;
      var jmx := if i < nf - 1 then i else nf - 1;
      var j := jmn;
      while j <= jmx
        invariant jmn <= j <= jmx + 1 || (j == jmn && jmn > jmx + 1)
        invariant acc[i] == ConvRange(f, g, i, jmn, if j <= jmx + 1 then j else jmx + 1)
        invariant forall m :: 0 <= m < i ==> acc[m] == ConvAt(f, g, m)
        invariant forall m :: i < m < n ==> acc[m] == 0.0
        decreases jmx + 1 - j
      {
        acc[i] := acc[i] + f[j] * g[i - j];
        j := j + 1;
      }
    }
    out := acc[..];
  }

  // ---------------------------------------------------------------------
  // NormaliseSignal (DSP.cpp:6-29)
  // ---------------------------------------------------------------------

  /** The largest magnitude, starting from 0.0 as the loop does. */
  function Peak(s: seq<real>): (p: real)
    ensures p >= 0.0
    ensures forall i :: 0 <= i < |s| ==> Abs(s[i]) <= p
    ensures |s| > 0 ==> exists i :: 0 <= i < |s| && Abs(s[i]) == p
    ensures |s| == 0 ==> p == 0.0
  {
    if s == [] then 0.0
    else
      var rest := Peak(s[..|s| - 1]);
      if Abs(s[|s| - 1]) > rest then Abs(s[|s| - 1]) else rest
  }

  /** The peak is zero exactly for silence. */
  lemma PeakZeroIffSilent(s: seq<real>)
    ensures Peak(s) == 0.0 <==> forall i :: 0 <= i < |s| ==> s[i] == 0.0
  {
    if Peak(s) != 0.0 && |s| > 0 {
      var i :| 0 <= i < |s| && Abs(s[i]) == Peak(s);
      assert s[i] != 0.0;
    }
  }

  /** Every sample divided by the peak; defined when the signal is empty or
      not silent (a silent signal divides 0 by 0). */
  function Normalised(s: seq<real>): (r: seq<real>)
    requires s == [] || Peak(s) > 0.0
    ensures |r| == |s|
  {
    if s == [] then [] else seq(|s|, i requires 0 <= i < |s| => s[i] / Peak(s))
  }

  lemma AbsDiv(x: real, p: real)
    requires p > 0.0
    ensures Abs(x / p) == Abs(x) / p
  {
    if x < 0.0 {
      assert x / p < 0.0;
      assert -(x / p) == (-x) / p;
    } else {
      assert x / p >= 0.0;
    }
  }

  /** After normalisation the largest magnitude is exactly 1. */
  lemma NormalisedPeakIsOne(s: seq<real>)
    requires |s| > 0 && Peak(s) > 0.0
    ensures Peak(Normalised(s)) == 1.0
  {
    var p := Peak(s);
    var n := Normalised(s);
    forall i | 0 <= i < |s|
      ensures Abs(n[i]) <= 1.0
    {
      AbsDiv(s[i], p);
      DivWithinUnit(Abs(s[i]), p);
    }
    var k :| 0 <= k < |s| && Abs(s[k]) == p;
    AbsDiv(s[k], p);
    SelfQuotient(p);
    assert Abs(n[k]) == 1.0;
    var m :| 0 <= m < |n| && Abs(n[m]) == Peak(n);
  }

  /** The first loop of both overloads: the running maximum of `abs`. */
  method PeakOf(a: array<real>) returns (value: real)
    ensures value == Peak(a[..])
  {
    value := 0.0;
    for i := 0 to a.Length
      invariant value == Peak(a[..i])
    {
      assert a[..i + 1][..i] == a[..i];
      var tempValue := Abs(a[i]);
      if tempValue > value {
        value := tempValue;
      }
    }
    assert a[..a.Length] == a[..];
  }

  /** In-place overload: divides every sample by the peak. */
  method NormaliseSignal(audioSamples: array<real>)
    requires audioSamples.Length == 0 || Peak(audioSamples[..]) > 0.0
    modifies audioSamples
    ensures audioSamples[..] == Normalised(old(audioSamples[..]))
  {
    var value := PeakOf(audioSamples);
    ghost var original := audioSamples[..];
    for i := 0 to audioSamples.Length
      invariant forall m :: 0 <= m < i ==> audioSamples[m] == original[m] / value
      invariant forall m :: i <= m < audioSamples.Length ==> audioSamples[m] == original[m]
    {
      audioSamples[i] := audioSamples[i] / value;
    }
  }

  /** Copying overload: the input is untouched and the result is built by
      appending. */
  method NormalisedCopy(audioSamples: seq<real>) returns (output: seq<real>)
    requires audioSamples == [] || Peak(audioSamples) > 0.0
    ensures output == Normalised(audioSamples)
  {
    var value := 0.0;
    for i := 0 to |audioSamples|
      invariant value == Peak(audioSamples[..i])
    {
      assert audioSamples[..i + 1][..i] == audioSamples[..i];
      var tempValue := Abs(audioSamples[i]);
      if tempValue > value {
        value := tempValue;
      }
    }
    assert audioSamples[..|audioSamples|] == audioSamples;
    output := [];
    for i := 0 to |audioSamples|
      invariant |output| == i
      invariant forall m :: 0 <= m < i ==> output[m] == audioSamples[m] / value
    {
      output := output + [audioSamples[i] / value];
    }
  }

  // ---------------------------------------------------------------------
  // Delay in samples, all-pass and comb filters (DSP.cpp:35-65)
  // ---------------------------------------------------------------------

  /** `std::round` on a non-negative argument: halves round up. */
  function RoundNonNeg(x: real): (r: nat)
    requires x >= 0.0
    ensures x - 0.5 < r as real <= x + 0.5
  {
    (x + 0.5).Floor
  }

  /** `round(delayMilliseconds / (samplingFrequency / 1000))`. */
  function DelaySamples(delayMilliseconds: real, samplingFrequency: real): nat
    requires delayMilliseconds >= 0.0 && samplingFrequency > 0.0
  {
    DivPos(samplingFrequency, 1000.0);
    if delayMilliseconds == 0.0 then 0
    else
      DivPos(delayMilliseconds, samplingFrequency / 1000.0);
      RoundNonNeg(delayMilliseconds / (samplingFrequency / 1000.0))
  }

  /** The delay is the nearest whole number of samples to the delay time
      over the sample period. */
  lemma DelaySamplesNearest(delayMilliseconds: real, samplingFrequency: real)
    requires delayMilliseconds >= 0.0 && samplingFrequency > 0.0
    ensures var x := delayMilliseconds / (samplingFrequency / 1000.0);
      x - 0.5 < DelaySamples(delayMilliseconds, samplingFrequency) as real <= x + 0.5
  {
    DivPos(samplingFrequency, 1000.0);
    if delayMilliseconds == 0.0 {
      assert delayMilliseconds / (samplingFrequency / 1000.0) == 0.0;
    }
  }

  /** On integers, `i - d > 0` and `i - d >= 1` are the same test. */
  lemma AllPassTestsAgree(i: int, d: int)
    ensures (i as real - d as real > 0.0) <==> (i as real - d as real >= 1.0)
  {
    assert i as real - d as real == (i - d) as real;
    if i - d >= 1 {
      assert (i - d) as real >= 1.0;
    } else {
      assert (i - d) as real <= 0.0;
    }
  }

  /** Output sample `i` of the all-pass loop. For `d >= 1` the feedback
      term read for the subtraction and for the addition is the same
      earlier output, so they cancel. For `d = 0` both terms read the
      sample being written: the first scales it by `1 - decay`, the second
      by `1 + decay`, and sample 0 (where the tests fail) passes through. */
  function AllPassAt(x: seq<real>, d: nat, decay: real, i: nat): real
    requires i < |x|
  {
    if d == 0 && i >= 1 then
      (x[i] + -decay * x[i]) + decay * (x[i] + -decay * x[i])
    else x[i]
  }

  lemma FeedbackCancels(x: real, decay: real, t: real)
    ensures (x + -decay * t) + decay * t == x
  {
  }

  /** With a delay of at least one sample the filter is the identity; with
      a zero delay every sample after the first is scaled by `1 - decay^2`. */
  lemma AllPassResponse(x: seq<real>, d: nat, decay: real, i: nat)
    requires i < |x|
    ensures d >= 1 ==> AllPassAt(x, d, decay, i) == x[i]
    ensures d == 0 && i >= 1 ==> AllPassAt(x, d, decay, i) == x[i] * (1.0 - decay * decay)
  {
    if d == 0 && i >= 1 {
      assert (x[i] + -decay * x[i]) + decay * (x[i] + -decay * x[i]) == x[i] * (1.0 - decay * decay);
    }
  }

  method AllPassFilter(audioSamples: seq<real>, delayMilliseconds: real, decay: real, samplingFrequency: real)
      returns (allPassTaps: seq<real>)
    requires delayMilliseconds >= 0.0 && samplingFrequency > 0.0
    ensures |allPassTaps| == |audioSamples|
    ensures forall i :: 0 <= i < |audioSamples| ==>
      allPassTaps[i] == AllPassAt(audioSamples, DelaySamples(delayMilliseconds, samplingFrequency), decay, i)
  {
    var samplesLength := |audioSamples|;
    var delaySamples := DelaySamples(delayMilliseconds, samplingFrequency);
    var taps := new real[samplesLength];
    for i := 0 to samplesLength
      invariant forall m :: 0 <= m < i ==> taps[m] == AllPassAt(audioSamples, delaySamples, decay, m)
    {
      AllPassTestsAgree(i, delaySamples);
      if delaySamples >= 1 && i as real - delaySamples as real >= 1.0 {
        FeedbackCancels(audioSamples[i], decay, taps[i - delaySamples]);
      }
      taps[i] := audioSamples[i];
      if i as real - delaySamples as real > 0.0 {
        taps[i] := taps[i] + -decay * taps[i - delaySamples];
      }
      if i as real - delaySamples as real >= 1.0 {
        taps[i] := taps[i] + decay * taps[i - delaySamples];
      }
    }
    allPassTaps := taps[..];
  }

  /** Output sample `m` of the comb filter: the first `d` samples pass
      through, later ones add `decay` times the output `d` samples back.
      With `d = 0` each sample is scaled by `1 + decay` once. */
  function CombAt(x: seq<real>, d: nat, decay: real, m: nat): real
    requires m < |x|
    decreases m
  {
    if m < d then x[m]
    else if d == 0 then x[m] + x[m] * decay
    else x[m] + CombAt(x, d, decay, m - d) * decay
  }

  function Pow(b: real, k: nat): real
  {
    if k == 0 then 1.0 else Pow(b, k - 1) * b
  }

  /** A unit impulse through the comb gives an echo every `d` samples, each
      `decay` times the one before, and silence in between. */
  lemma {:induction false} CombImpulseResponse(x: seq<real>, d: nat, decay: real, m: nat)
    requires d > 0 && m < |x| && x[0] == 1.0
    requires forall i :: 0 < i < |x| ==> x[i] == 0.0
    ensures CombAt(x, d, decay, m) == if m % d == 0 then Pow(decay, m / d) else 0.0
    decreases m
  {
    if m >= d {
      CombImpulseResponse(x, d, decay, m - d);
      DivModRowMajor(m / d - 1, m % d, d);
      assert (m / d - 1) * d + m % d == m - d;
    } else {
      DivModRowMajor(0, m, d);
    }
  }

  /** Adds `decay` times each sample to the one `d` later, in place on a
      copy of the input, for `i < n - d`. */
  method CombFilter(audioSamples: seq<real>, delayMilliseconds: real, decay: real, samplingFrequency: real)
      returns (allPassTaps: seq<real>)
    requires delayMilliseconds >= 0.0 && samplingFrequency > 0.0
    requires DelaySamples(delayMilliseconds, samplingFrequency) <= |audioSamples|
    ensures |allPassTaps| == |audioSamples|
    ensures forall m :: 0 <= m < |audioSamples| ==>
      allPassTaps[m] == CombAt(audioSamples, DelaySamples(delayMilliseconds, samplingFrequency), decay, m)
  {
    var samplesLength := |audioSamples|;
    var d := DelaySamples(delayMilliseconds, samplingFrequency);
    var taps := new real[samplesLength](m requires 0 <= m < samplesLength => audioSamples[m]);
    for i := 0 to samplesLength - d
      invariant forall m :: 0 <= m < samplesLength ==>
        taps[m] == if m < d || m - d < i then CombAt(audioSamples, d, decay, m) else audioSamples[m]
    {
      taps[i + d] := taps[i + d] + taps[i] * decay;
    }
    allPassTaps := taps[..];
  }

  /** With no decay the comb filter passes the signal through. */
  lemma CombWithoutDecay(x: seq<real>, d: nat, m: nat)
    requires m < |x|
    ensures CombAt(x, d, 0.0, m) == x[m]
  {
  }

  // ---------------------------------------------------------------------
  // The interleave loop of WriteAudioFile (DSP.cpp:69-83)
  // ---------------------------------------------------------------------

  /** The sample that belongs at flat position `k`: channel `k % C`,
      frame `k / C` (0.0 past the end of a channel, which no position
      of an interleaved buffer reaches). */
  function SampleAt(audioChannels: seq<seq<real>>, k: nat): real
    requires |audioChannels| >= 1
  {
    var c, i := k % |audioChannels|, k / |audioChannels|;
    if i < |audioChannels[c]| then audioChannels[c][i] else 0.0
  }

  /** `raw` holds frame after frame, each with one sample per channel. */
  predicate InterleavedOf(raw: seq<real>, audioChannels: seq<seq<real>>)
    requires |audioChannels| >= 1
  {
    |raw| == |audioChannels| * |audioChannels[0]| &&
    forall k :: 0 <= k < |raw| ==> raw[k] == SampleAt(audioChannels, k)
  }

  /** Reading frame `i`, channel `j` of an interleaved buffer gives back
      sample `i` of channel `j`. */
  lemma Deinterleave(raw: seq<real>, audioChannels: seq<seq<real>>, i: nat, j: nat)
    requires |audioChannels| >= 1
    requires forall c :: 0 <= c < |audioChannels| ==> |audioChannels[c]| >= |audioChannels[0]|
    requires InterleavedOf(raw, audioChannels)
    requires i < |audioChannels[0]| && j < |audioChannels|
    ensures Index2(i, j, |audioChannels|) < |raw|
    ensures raw[Index2(i, j, |audioChannels|)] == audioChannels[j][i]
  {
    Index2Bounds(i, j, |audioChannels|, |audioChannels[0]|);
    Index2Decode(i, j, |audioChannels|);
    assert j < |audioChannels| && i < |audioChannels[j]|;
  }

  lemma WriteSlot(audioChannels: seq<seq<real>>, i: nat, j: nat, ptr: nat, rawLength: nat)
    requires |audioChannels| >= 1
    requires forall c :: 0 <= c < |audioChannels| ==> |audioChannels[c]| >= |audioChannels[0]|
    requires i < |audioChannels[0]| && j < |audioChannels| && ptr == Index2(i, 0, |audioChannels|)
    requires rawLength == |audioChannels| * |audioChannels[0]|
    ensures ptr + j < rawLength
    ensures SampleAt(audioChannels, ptr + j) == audioChannels[j][i]
  {
    Index2Bounds(i, j, |audioChannels|, |audioChannels[0]|);
    Index2Decode(i, j, |audioChannels|);
  }

  lemma NextFrame(i: nat, channels: nat, frames: nat)
    requires i < frames
    ensures Index2(i, 0, channels) + channels == Index2(i + 1, 0, channels)
    ensures Index2(i + 1, 0, channels) <= channels * frames
  {
    assert (i + 1) * channels <= frames * channels;
  }

  lemma FramesFill(frames: nat, channels: nat)
    ensures Index2(frames, 0, channels) == channels * frames
  {
  }

  /** The inner loop: channel `j` of frame `i` goes to `ptr + j`. */
  method WriteFrame(audioChannels: seq<seq<real>>, rawData: array<real>, i: nat, ptr: nat)
    requires |audioChannels| >= 1
    requires forall c :: 0 <= c < |audioChannels| ==> |audioChannels[c]| >= |audioChannels[0]|
    requires rawData.Length == |audioChannels| * |audioChannels[0]|
    requires i < |audioChannels[0]| && ptr == Index2(i, 0, |audioChannels|)
    requires forall k :: 0 <= k < ptr ==> rawData[k] == SampleAt(audioChannels, k)
    modifies rawData
    ensures ptr + |audioChannels| <= rawData.Length
    ensures forall k :: 0 <= k < ptr + |audioChannels| ==> rawData[k] == SampleAt(audioChannels, k)
  {
    for j := 0 to |audioChannels|
      invariant ptr + j <= rawData.Length
      invariant forall k :: 0 <= k < ptr + j ==> rawData[k] == SampleAt(audioChannels, k)
    {
      WriteSlot(audioChannels, i, j, ptr, rawData.Length);
      rawData[ptr + j] := audioChannels[j][i];
    }
  }

  /** Walks a pointer frame by frame, writing one sample per channel. */
  method Interleave(audioChannels: seq<seq<real>>) returns (rawData: array<real>)
    requires |audioChannels| >= 1
    requires forall j :: 0 <= j < |audioChannels| ==> |audioChannels[j]| >= |audioChannels[0]|
    ensures InterleavedOf(rawData[..], audioChannels)
  {
    rawData := new real[|audioChannels| * |audioChannels[0]|];
    var ptr := 0;
    for i := 0 to |audioChannels[0]|
      invariant ptr == Index2(i, 0, |audioChannels|)
      invariant forall k :: 0 <= k < ptr ==> rawData[k] == SampleAt(audioChannels, k)
    {
      WriteFrame(audioChannels, rawData, i, ptr);
      NextFrame(i, |audioChannels|, |audioChannels[0]|);
      ptr := ptr + |audioChannels|;
    }
    FramesFill(|audioChannels[0]|, |audioChannels|);
    assert ptr == rawData.Length;
  }

  // ---------------------------------------------------------------------
  // Filter (DSP.h:42-76, DSP.cpp:105-176)
  // ---------------------------------------------------------------------

  datatype FilterType = LPF | HPF | BPF | COMB | ALLPASS

  /** `errorFlag` after the low/high-pass constructor: its checks run in
      order and a later failure overwrites an earlier code. */
  function LowHighError(filterKind: FilterType, fs: real, fx: real): int
  {
    if !(filterKind.LPF? || filterKind.HPF? || filterKind.ALLPASS?) then -5
    else if fx <= 0.0 || fx >= fs / 2.0 then -2
    else if fs <= 0.0 then -1
    else 0
  }

  /** The filter is accepted exactly for a positive rate, a cut-off strictly
      inside `(0, Fs/2)` and a low-pass, high-pass or all-pass type. */
  lemma LowHighAccepts(filterKind: FilterType, fs: real, fx: real)
    ensures LowHighError(filterKind, fs, fx) == 0 <==>
      fs > 0.0 && 0.0 < fx < fs / 2.0 && (filterKind.LPF? || filterKind.HPF? || filterKind.ALLPASS?)
  {
  }

  /** Code -1 never survives: a non-positive rate always fails the cut-off
      check as well, which overwrites it. */
  lemma LowHighNeverRateError(filterKind: FilterType, fs: real, fx: real)
    ensures LowHighError(filterKind, fs, fx) in {0, -2, -5}
    ensures fs <= 0.0 ==> LowHighError(filterKind, fs, fx) in {-2, -5}
  {
  }

  /** `errorFlag` after the band-pass constructor. */
  function BandPassError(filterKind: FilterType, fs: real, fl: real, fu: real): int
  {
    if !filterKind.BPF? then -16
    else if fu <= 0.0 || fu >= fs / 2.0 then -13
    else if fl <= 0.0 || fl >= fs / 2.0 then -12
    else if fs <= 0.0 then -1
    else 0
  }

  /** Accepted exactly for a positive rate, both edges inside `(0, Fs/2)`
      and the band-pass type; the edges may come in either order, and -1
      is again never the final code. */
  lemma BandPassAccepts(filterKind: FilterType, fs: real, fl: real, fu: real)
    ensures BandPassError(filterKind, fs, fl, fu) == 0 <==>
      fs > 0.0 && 0.0 < fl < fs / 2.0 && 0.0 < fu < fs / 2.0 && filterKind.BPF?
    ensures BandPassError(filterKind, fs, fl, fu) in {0, -12, -13, -16}
  {
  }

  /** An inverted band (lower edge above the upper) is accepted. */
  lemma BandPassAllowsInvertedBand()
    ensures BandPassError(BPF, 1000.0, 300.0, 100.0) == 0
  {
  }

  function Zeros(n: nat): (z: seq<real>)
    ensures |z| == n && forall i :: 0 <= i < n ==> z[i] == 0.0
  {
    if n == 0 then [] else Zeros(n - 1) + [0.0]
  }

  /** `Fx / (Fs / 2)`; the source's division by a zero rate gives an IEEE
      infinity, stored here as 0.0. */
  function NormalisedCutoff(fx: real, fs: real): real
  {
    if fs == 0.0 then 0.0 else fx / (fs / 2.0)
  }

  class Filter {
    var omega: real
    var omegaLower: real
    var omegaUpper: real
    var fs: real
    var filterKind: FilterType
    var nTaps: nat
    var taps: seq<real>
    var errorFlag: int

    /** `setError(x)`: only the flag changes (the log line is left out). */
    method SetError(x: int)
      modifies this
      ensures errorFlag == x
      ensures omega == old(omega) && omegaLower == old(omegaLower) && omegaUpper == old(omegaUpper)
      ensures fs == old(fs) && filterKind == old(filterKind) && nTaps == old(nTaps) && taps == old(taps)
    {
      errorFlag := x;
    }

    /** Low/high-pass constructor. `designed` is what the tap design routine
        writes (its sinc and cosine arithmetic is not modelled). */
    constructor LowHigh(filtType: FilterType, numTaps: nat, sampleRate: real, fx: real, designed: seq<real>)
      requires |designed| == numTaps
      ensures errorFlag == LowHighError(filtType, sampleRate, fx)
      ensures filterKind == filtType && nTaps == numTaps && fs == sampleRate
      ensures omega == NormalisedCutoff(fx, sampleRate)
      ensures taps == if filtType.LPF? || filtType.HPF? then designed else Zeros(numTaps)
    {
      errorFlag := 0;
      filterKind := filtType;
      nTaps := numTaps;
      fs, omega, omegaLower, omegaUpper := 0.0, 0.0, 0.0, 0.0;
      taps := [];
      new;
      if sampleRate <= 0.0 { SetError(-1); }
      if fx <= 0.0 || fx >= sampleRate / 2.0 { SetError(-2); }
      fs := sampleRate;
      omega := NormalisedCutoff(fx, sampleRate);
      taps := Zeros(nTaps);
      match filterKind {
        case LPF => taps := designed;
        case HPF => taps := designed;
        case ALLPASS =>
        case _ => SetError(-5);
      }
    }

    /** Band-pass constructor. */
    constructor BandPass(filtType: FilterType, numTaps: nat, sampleRate: real, fl: real, fu: real, designed: seq<real>)
      requires |designed| == numTaps
      ensures errorFlag == BandPassError(filtType, sampleRate, fl, fu)
      ensures filterKind == filtType && nTaps == numTaps && fs == sampleRate
      ensures omegaLower == NormalisedCutoff(fl, sampleRate) && omegaUpper == NormalisedCutoff(fu, sampleRate)
      ensures taps == if filtType.BPF? then designed else Zeros(numTaps)
    {
      errorFlag := 0;
      filterKind := filtType;
      nTaps := numTaps;
      fs, omega, omegaLower, omegaUpper := 0.0, 0.0, 0.0, 0.0;
      taps := [];
      new;
      if sampleRate <= 0.0 { SetError(-1); }
      if fl <= 0.0 || fl >= sampleRate / 2.0 { SetError(-12); }
      if fu <= 0.0 || fu >= sampleRate / 2.0 { SetError(-13); }
      fs := sampleRate;
      omegaLower := NormalisedCutoff(fl, sampleRate);
      omegaUpper := NormalisedCutoff(fu, sampleRate);
      taps := Zeros(nTaps);
      if filterKind == BPF {
        taps := designed;
      } else {
        SetError(-16);
      }
    }

    /** Copies all taps out when the filter is healthy, nothing otherwise. */
    method GetTaps(outTaps: array<real>)
      requires |taps| == nTaps <= outTaps.Length
      modifies outTaps
      ensures errorFlag != 0 ==> outTaps[..] == old(outTaps[..])
      ensures errorFlag == 0 ==> outTaps[..nTaps] == taps && outTaps[nTaps..] == old(outTaps[nTaps..])
    {
      if errorFlag != 0 {
        return;
      }
      for i := 0 to nTaps
        invariant forall m :: 0 <= m < i ==> outTaps[m] == taps[m]
        invariant outTaps[nTaps..] == old(outTaps[nTaps..])
      {
        outTaps[i] := taps[i];
      }
    }

    /** In-place `convolveToSignal`: the caller's signal becomes its full
        convolution with the taps, `nTaps - 1` samples longer. */
    method ConvolveToSignal(signal: seq<real>) returns (convolved: seq<real>)
      requires |taps| == nTaps && |signal| + nTaps >= 1
      ensures |convolved| == |signal| + nTaps - 1
      ensures convolved == Convolution(signal, taps)
    {
      var ir := new real[nTaps];
      GetTaps(ir);
      convolved := Convolve(signal, taps);
    }
  }
}
