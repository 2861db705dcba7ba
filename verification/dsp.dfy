/** The hand-written DSP library of src/lib/dsp.js: zero padding, the recursive
    radix-2 Cooley-Tukey transform over interleaved [re, im, ...] arrays, its
    real-input wrappers, the Hann window and the analysis-only spectrogram.

    Samples are exact reals; Float32 rounding is not modelled. */
module Dsp {
  import opened Complex
  import opened MathLib
  import opened PowerOfTwo

  const DefaultWindowSize: nat := 2048
  const DefaultHopSize: nat := 512

  // ---------------------------------------------------------------------------
  // Padding (src/lib/dsp.js:13-22)

  /** Extends a signal with zeros to the next power-of-two length; a signal whose
      length already is a power of two (or is empty) comes back as it is. */
  function PadSignal(signal: seq<real>): (padded: seq<real>)
    ensures |padded| == NextPow2(|signal|)
    ensures |signal| <= |padded|
    ensures padded[..|signal|] == signal
    ensures forall i :: |signal| <= i < |padded| ==> padded[i] == 0.0
    ensures IsPow2(|signal|) ==> padded == signal
  {
    var size := NextPow2(|signal|);
    if IsPow2(|signal|) then
      NextPow2OfPow2(|signal|);
      signal
    else if |signal| == size then signal
    else signal + seq(size - |signal|, _ => 0.0)
  }

  // ---------------------------------------------------------------------------
  // Interleaved complex arrays

  /** Bin k of an interleaved array: the pair (s[2k], s[2k+1]). */
  function Bin(s: seq<real>, k: int): Complex
    requires 0 <= k && 2 * k + 1 < |s|
  {
    Complex(s[2 * k], s[2 * k + 1])
  }

  /** The bins of an interleaved array of even length. */
  function Bins(s: seq<real>): (c: seq<Complex>)
    requires |s| % 2 == 0
    ensures |c| == |s| / 2
  {
    seq(|s| / 2, k requires 0 <= k < |s| / 2 => Bin(s, k))
  }

  /** Lays bins out as [re0, im0, re1, im1, ...]. */
  function Interleave(c: seq<Complex>): (s: seq<real>)
    ensures |s| == 2 * |c|
    ensures forall k {:trigger Bin(s, k)} :: 0 <= k < |c| ==> Bin(s, k) == c[k]
  {
    var s := seq(2 * |c|, p requires 0 <= p < 2 * |c| => if p % 2 == 0 then c[p / 2].re else c[p / 2].im);
    InterleavedPairs(c, s);
    s
  }

  lemma InterleavedPairs(c: seq<Complex>, s: seq<real>)
    requires |s| == 2 * |c|
    requires forall p :: 0 <= p < |s| ==> s[p] == if p % 2 == 0 then c[p / 2].re else c[p / 2].im
    ensures forall k {:trigger Bin(s, k)} :: 0 <= k < |c| ==> Bin(s, k) == c[k]
  {
    forall k | 0 <= k < |c|
      ensures Bin(s, k) == c[k]
    {
      assert (2 * k) % 2 == 0 && (2 * k) / 2 == k;
      assert (2 * k + 1) % 2 == 1 && (2 * k + 1) / 2 == k;
    }
  }

  lemma BinsOfInterleave(c: seq<Complex>)
    ensures Bins(Interleave(c)) == c
  {
  }

  lemma InterleaveOfBins(s: seq<real>)
    requires |s| % 2 == 0
    ensures Interleave(Bins(s)) == s
  {
    var t := Interleave(Bins(s));
    forall p | 0 <= p < |s|
      ensures t[p] == s[p]
    {
      var k := p / 2;
      assert p == 2 * k + p % 2;
      assert Bin(t, k) == Bin(s, k);
    }
  }

  // ---------------------------------------------------------------------------
  // The recursive transform (src/lib/dsp.js:31-83)

  /** The lengths the transform is defined on: 2N slots for N = 0 or N a power of two. */
  predicate IsTransformLength(len: int) {
    len % 2 == 0 && (len == 0 || IsPow2(len / 2))
  }

  /** The twiddle angle in turns: -k/N for the forward transform, k/N for the inverse. */
  function Turns(inverse: bool, k: int, n: nat): real
    requires n > 0
  {
    (if inverse then k as real else -(k as real)) / (n as real)
  }

  function Twiddle(m: MathLib, inverse: bool, k: int, n: nat): Complex
    requires n > 0
  {
    Cis(m, Turns(inverse, k, n))
  }

  /** The even-indexed (parity 0) or odd-indexed (parity 1) bins of s, interleaved. */
  function Decimate(s: seq<real>, parity: nat): (half: seq<real>)
    requires |s| % 4 == 0 && parity < 2
    ensures |half| == |s| / 2
    ensures forall k :: 0 <= k < |s| / 4 ==> Bin(half, k) == Bin(s, 2 * k + parity)
  {
    Interleave(seq(|s| / 4, k requires 0 <= k < |s| / 4 => Bin(s, 2 * k + parity)))
  }

  /** Output bin k of the butterfly that combines the half transforms of size n/2. */
  function Butterfly(m: MathLib, inverse: bool, even: seq<real>, odd: seq<real>, n: nat, k: nat): Complex
    requires n >= 2 && n % 2 == 0 && |even| == n && |odd| == n && k < n
  {
    var h := n / 2;
    if k < h then
      Add(Bin(even, k), Mul(Twiddle(m, inverse, k, n), Bin(odd, k)))
    else
      Sub(Bin(even, k - h), Mul(Twiddle(m, inverse, k - h, n), Bin(odd, k - h)))
  }

  /** The shared forward/inverse worker. N = |s|/2 bins; N <= 1 is returned unchanged. */
  function FftRecursive(s: seq<real>, inverse: bool, m: MathLib): (r: seq<real>)
    requires IsTransformLength(|s|)
    ensures |r| == |s|
    ensures |s| <= 2 ==> r == s
    decreases |s|
  {
    var n := |s| / 2;
    if n <= 1 then s
    else
      HalfIsPow2(n);
      var even := FftRecursive(Decimate(s, 0), inverse, m);
      var odd := FftRecursive(Decimate(s, 1), inverse, m);
      Combine(m, inverse, even, odd, n)
  }

  function Combine(m: MathLib, inverse: bool, even: seq<real>, odd: seq<real>, n: nat): (r: seq<real>)
    requires n >= 2 && n % 2 == 0 && |even| == n && |odd| == n
    ensures |r| == 2 * n
    ensures forall k {:trigger Bin(r, k)} :: 0 <= k < n ==> Bin(r, k) == Butterfly(m, inverse, even, odd, n, k)
  {
    Interleave(seq(n, k requires 0 <= k < n => Butterfly(m, inverse, even, odd, n, k)))
  }

  /** The bin whose frequency is the negative of bin k's: N − k, and 0 for 0. */
  function MirrorBin(k: nat, n: nat): (j: nat)
    requires k < n
    ensures j < n
  {
    if k == 0 then 0 else n - k
  }

  /** The spectrum of a real signal: bin N − k is the conjugate of bin k. */
  predicate ConjugateSymmetric(s: seq<real>) {
    && |s| % 2 == 0
    && forall k {:trigger Bin(s, k)} :: 0 <= k < |s| / 2 ==> Bin(s, MirrorBin(k, |s| / 2)) == Conj(Bin(s, k))
  }

  lemma HalfOfDouble(n: nat)
    ensures (2 * n) / 2 == n && (2 * n) % 2 == 0
  {
  }

  /** One mirror pair of a conjugate-symmetric spectrum of N bins. */
  lemma SymmetricAt(s: seq<real>, n: nat, k: nat)
    requires |s| == 2 * n && ConjugateSymmetric(s) && k < n
    ensures Bin(s, MirrorBin(k, n)) == Conj(Bin(s, k))
  {
    HalfOfDouble(n);
  }

  // ---------------------------------------------------------------------------
  // Real-input wrappers (src/lib/dsp.js:90-124)

  /** Real samples in the real slots, zeros in the imaginary slots. */
  function RealToComplex(p: seq<real>): (s: seq<real>)
    ensures |s| == 2 * |p|
    ensures forall i :: 0 <= i < |p| ==> s[2 * i] == p[i] && s[2 * i + 1] == 0.0
  {
    var c := seq(|p|, i requires 0 <= i < |p| => OfReal(p[i]));
    var s := Interleave(c);
    RealSlots(p, c, s);
    s
  }

  lemma RealSlots(p: seq<real>, c: seq<Complex>, s: seq<real>)
    requires |c| == |p| && |s| == 2 * |p|
    requires forall i :: 0 <= i < |p| ==> c[i] == OfReal(p[i])
    requires forall k {:trigger Bin(s, k)} :: 0 <= k < |c| ==> Bin(s, k) == c[k]
    ensures forall i :: 0 <= i < |p| ==> s[2 * i] == p[i] && s[2 * i + 1] == 0.0
  {
    forall i | 0 <= i < |p|
      ensures s[2 * i] == p[i] && s[2 * i + 1] == 0.0
    {
      assert Bin(s, i) == c[i];
    }
  }

  /** Forward transform of a real signal: 2·pad(n) interleaved values. */
  function Fft(signal: seq<real>, m: MathLib): (spectrum: seq<real>)
    ensures |spectrum| == 2 * NextPow2(|signal|)
    ensures IsTransformLength(|spectrum|)
  {
    var padded := PadSignal(signal);
    var input := RealToComplex(padded);
    assert |input| / 2 == |padded| == NextPow2(|signal|);
    FftRecursive(input, false, m)
  }

  /** Inverse transform: the real part of each inverse bin divided by N;
      the imaginary parts are dropped. */
  function Ifft(spectrum: seq<real>, m: MathLib): (signal: seq<real>)
    requires IsTransformLength(|spectrum|)
    ensures |signal| == |spectrum| / 2
  {
    var n := |spectrum| / 2;
    var inv := FftRecursive(spectrum, true, m);
    seq(n, i requires 0 <= i < n => inv[2 * i] / (n as real))
  }

  // ---------------------------------------------------------------------------
  // Hann window (src/lib/dsp.js:130-137)

  function HannCoefficient(m: MathLib, i: int, n: int): real
    requires n >= 2
  {
    0.5 * (1.0 - m.cos((i as real) / ((n - 1) as real)))
  }

  /** Scales sample i by 0.5·(1 − cos(2πi/(N−1))). A one-sample chunk would divide by
      zero, so it is excluded; the empty chunk gives the empty chunk. */
  function HannWindow(chunk: seq<real>, m: MathLib): (windowed: seq<real>)
    requires |chunk| != 1
    ensures |windowed| == |chunk|
    ensures ZeroAngle(m) && |chunk| >= 2 ==> windowed[0] == 0.0
  {
    seq(|chunk|, i requires 0 <= i < |chunk| => chunk[i] * HannCoefficient(m, i, |chunk|))
  }

  /** The window closes at both ends: the last sample is scaled by
      0.5·(1 − cos 2π) = 0 as well. */
  lemma HannLastSample(chunk: seq<real>, m: MathLib)
    requires UnitCircle(m) && |chunk| >= 2
    ensures HannWindow(chunk, m)[|chunk| - 1] == 0.0
  {
    var n := |chunk|;
    assert ((n - 1) as real) / ((n - 1) as real) == 1.0;
    CisOneTurn(m);
  }

  function Abs(x: real): real {
    if x < 0.0 then -x else x
  }

  /** Every Hann coefficient lies in [0, 1], so windowing never amplifies a sample. */
  lemma HannAttenuates(chunk: seq<real>, m: MathLib, i: int)
    requires CosBounded(m) && |chunk| >= 2 && 0 <= i < |chunk|
    ensures 0.0 <= HannCoefficient(m, i, |chunk|) <= 1.0
    ensures Abs(HannWindow(chunk, m)[i]) <= Abs(chunk[i])
  {
    var c := HannCoefficient(m, i, |chunk|);
    assert -1.0 <= m.cos((i as real) / ((|chunk| - 1) as real)) <= 1.0;
    var x := chunk[i];
    assert HannWindow(chunk, m)[i] == x * c;
    if x >= 0.0 {
      assert 0.0 <= x * c <= x * 1.0;
    } else {
      assert x * 1.0 <= x * c <= 0.0;
    }
  }

  // ---------------------------------------------------------------------------
  // Spectrogram (src/lib/dsp.js:146-174)

  /** Magnitudes sqrt(re² + im²) of the first count bins of a spectrum. */
  function Magnitudes(spectrum: seq<real>, count: nat, m: MathLib): (mags: seq<real>)
    requires 2 * count <= |spectrum|
    ensures |mags| == count
    ensures SqrtNonNeg(m) ==> forall k :: 0 <= k < count ==> mags[k] >= 0.0
  {
    seq(count, k requires 0 <= k < count =>
      SumOfSquaresNonNeg(spectrum[2 * k], spectrum[2 * k + 1]);
      m.sqrt(spectrum[2 * k] * spectrum[2 * k] + spectrum[2 * k + 1] * spectrum[2 * k + 1]))
  }

  lemma SumOfSquaresNonNeg(a: real, b: real)
    ensures a * a + b * b >= 0.0
  {
    SquareNonNeg(a);
    SquareNonNeg(b);
  }

  /** One spectrogram column: window, transform (padding inside), keep bins [0, fftSize/2]. */
  function Frame(chunk: seq<real>, m: MathLib): (mags: seq<real>)
    requires |chunk| >= 2
    ensures |mags| == NextPow2(|chunk|) / 2 + 1
    ensures SqrtNonNeg(m) ==> forall k :: 0 <= k < |mags| ==> mags[k] >= 0.0
  {
    var spectrum := Fft(HannWindow(chunk, m), m);
    var fftSize := |spectrum| / 2;
    Magnitudes(spectrum, fftSize / 2 + 1, m)
  }

  /** The chunks the loop of createSpectrogram slices off, from index `start` on:
      [start, start + W), then one hop further, while the chunk fits. */
  function Chunks(signal: seq<real>, windowSize: nat, hopSize: nat, start: nat): (chunks: seq<seq<real>>)
    requires hopSize >= 1
    ensures forall j :: 0 <= j < |chunks| ==> |chunks[j]| == windowSize
    decreases |signal| - start
  {
    if start + windowSize <= |signal| then
      [signal[start..start + windowSize]] + Chunks(signal, windowSize, hopSize, start + hopSize)
    else
      []
  }

  /** Number of frames: floor((L − W)/H) + 1 when L >= W, else 0. */
  function FrameCount(len: nat, windowSize: nat, hopSize: nat): nat
    requires hopSize >= 1
  {
    if len >= windowSize then (len - windowSize) / hopSize + 1 else 0
  }

  /** One more hop leaves one frame fewer. */
  lemma FrameCountStep(len: nat, windowSize: nat, hopSize: nat)
    requires windowSize >= 1 && hopSize >= 1 && len >= windowSize
    ensures FrameCount(len, windowSize, hopSize)
         == 1 + FrameCount(if len >= hopSize then len - hopSize else 0, windowSize, hopSize)
  {
    var q := len - windowSize;
    if len >= hopSize && len - hopSize >= windowSize {
      DivStep(q, hopSize);
    } else {
      SmallQuotient(q, hopSize);
    }
  }

  lemma DivStep(q: int, h: int)
    requires h >= 1 && q >= h
    ensures q / h == (q - h) / h + 1
  {
    var a := (q - h) / h;
    var b := (q - h) % h;
    assert q - h == a * h + b;
    assert q == (a + 1) * h + b;
    DivUnique(q, h, a + 1, b);
  }

  lemma SmallQuotient(q: int, h: int)
    requires h >= 1 && 0 <= q < h
    ensures q / h == 0
  {
    DivUnique(q, h, 0, q);
  }

  /** Euclidean division has one quotient. */
  lemma DivUnique(q: int, h: int, a: int, b: int)
    requires h >= 1 && 0 <= b < h && q == a * h + b
    ensures q / h == a
  {
    var a' := q / h;
    var b' := q % h;
    assert q == a' * h + b';
    assert (a - a') * h == b' - b;
    MulBound(a - a', h);
  }

  lemma MulBound(d: int, h: int)
    requires h >= 1
    ensures d >= 1 ==> d * h >= h
    ensures d <= -1 ==> d * h <= -h
  {
    assert d * h == (d - 1) * h + h;
    assert d * h == (d + 1) * h - h;
  }

  /** The number of chunks from `start` on follows the frame-count law. */
  lemma {:induction false} ChunkCount(signal: seq<real>, windowSize: nat, hopSize: nat, start: nat)
    requires windowSize >= 1 && hopSize >= 1
    ensures |Chunks(signal, windowSize, hopSize, start)|
         == FrameCount(if start <= |signal| then |signal| - start else 0, windowSize, hopSize)
    decreases |signal| - start
  {
    if start + windowSize <= |signal| {
      var len := |signal| - start;
      ChunkCount(signal, windowSize, hopSize, start + hopSize);
      FrameCountStep(len, windowSize, hopSize);
      assert (if start + hopSize <= |signal| then |signal| - (start + hopSize) else 0)
          == (if len >= hopSize then len - hopSize else 0);
    }
  }

  /** Chunk j from `start` on is the slice [start + jH, start + jH + W). */
  lemma {:induction false} ChunkAt(signal: seq<real>, windowSize: nat, hopSize: nat, start: nat, j: nat)
    requires hopSize >= 1
    requires j < |Chunks(signal, windowSize, hopSize, start)|
    ensures start + j * hopSize + windowSize <= |signal|
    ensures Chunks(signal, windowSize, hopSize, start)[j]
         == signal[start + j * hopSize..start + j * hopSize + windowSize]
    decreases j
  {
    if j > 0 {
      ChunkAt(signal, windowSize, hopSize, start + hopSize, j - 1);
      assert start + hopSize + (j - 1) * hopSize == start + j * hopSize;
    }
  }

  /** createSpectrogram: floor((L − W)/H) + 1 frames when L >= W and none
      otherwise; frame j is the column of the slice [jH, jH + W); each column has
      pad(W)/2 + 1 magnitudes, none of them negative. */
  function CreateSpectrogram(signal: seq<real>, windowSize: nat, hopSize: nat, m: MathLib): (frames: seq<seq<real>>)
    requires windowSize >= 2 && hopSize >= 1
    ensures |frames| == FrameCount(|signal|, windowSize, hopSize)
    ensures forall j :: 0 <= j < |frames| ==>
              && j * hopSize + windowSize <= |signal|
              && frames[j] == Frame(signal[j * hopSize..j * hopSize + windowSize], m)
    ensures forall j :: 0 <= j < |frames| ==> |frames[j]| == NextPow2(windowSize) / 2 + 1
    ensures SqrtNonNeg(m) ==>
              forall j, k :: 0 <= j < |frames| && 0 <= k < |frames[j]| ==> frames[j][k] >= 0.0
  {
    var chunks := Chunks(signal, windowSize, hopSize, 0);
    ChunkCount(signal, windowSize, hopSize, 0);
    ChunkSlices(signal, windowSize, hopSize);
    Frames(chunks, windowSize, m)
  }

  /** The column of each chunk, in order. */
  function Frames(chunks: seq<seq<real>>, windowSize: nat, m: MathLib): (frames: seq<seq<real>>)
    requires windowSize >= 2
    requires forall j :: 0 <= j < |chunks| ==> |chunks[j]| == windowSize
    ensures |frames| == |chunks|
    ensures forall j :: 0 <= j < |frames| ==> frames[j] == Frame(chunks[j], m)
    ensures forall j :: 0 <= j < |frames| ==> |frames[j]| == NextPow2(windowSize) / 2 + 1
    ensures SqrtNonNeg(m) ==>
              forall j, k :: 0 <= j < |frames| && 0 <= k < |frames[j]| ==> frames[j][k] >= 0.0
  {
    seq(|chunks|, j requires 0 <= j < |chunks| => Frame(chunks[j], m))
  }

  /** Every chunk from index 0 on is the slice [jH, jH + W) of the signal. */
  lemma ChunkSlices(signal: seq<real>, windowSize: nat, hopSize: nat)
    requires hopSize >= 1
    ensures var chunks := Chunks(signal, windowSize, hopSize, 0);
            forall j :: 0 <= j < |chunks| ==>
              && j * hopSize + windowSize <= |signal|
              && chunks[j] == signal[j * hopSize..j * hopSize + windowSize]
  {
    var chunks := Chunks(signal, windowSize, hopSize, 0);
    forall j | 0 <= j < |chunks|
      ensures && j * hopSize + windowSize <= |signal|
              && chunks[j] == signal[j * hopSize..j * hopSize + windowSize]
    {
      ChunkAt(signal, windowSize, hopSize, 0, j);
    }
  }
}
