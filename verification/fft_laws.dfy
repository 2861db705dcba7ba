/** What the recursive transform of src/lib/dsp.js computes: the butterfly
    layout of one level, the mirror relation between its forward and inverse
    modes, the DC bin, agreement with the defining sum of the discrete Fourier
    transform, the round trip ifft(fft(x)) = pad(x), and the conjugate symmetry
    of the spectrum of a real signal. */
module FftLaws {
  import opened Complex
  import opened MathLib
  import opened Sums
  import opened PowerOfTwo
  import opened Dsp
  import opened Fourier

  // ---------------------------------------------------------------------------
  // One level of the recursion

  /** The even and odd decimations hold the even- and odd-indexed bins. */
  lemma DecimateBins(s: seq<real>)
    requires |s| % 4 == 0
    ensures Bins(Decimate(s, 0)) == Evens(Bins(s))
    ensures Bins(Decimate(s, 1)) == Odds(Bins(s))
  {
  }

  /** One level of the recursion: output bin k is the butterfly of the half
      transforms of the even- and odd-indexed bins. */
  lemma FftStep(s: seq<real>, inverse: bool, m: MathLib, k: nat)
    requires IsTransformLength(|s|) && |s| >= 4 && k < |s| / 2
    ensures IsTransformLength(|s| / 2) && |s| % 4 == 0
    ensures Bin(FftRecursive(s, inverse, m), k)
         == Butterfly(m, inverse, FftRecursive(Decimate(s, 0), inverse, m),
                      FftRecursive(Decimate(s, 1), inverse, m), |s| / 2, k)
  {
    HalfIsPow2(|s| / 2);
  }

  /** The butterfly layout: for k < N/2 output bin k is E_k + w_k·O_k and output
      bin k + N/2 (N/2 = |s|/4, a quarter of the array) is E_k − w_k·O_k, where E and O are the transforms of the
      even- and odd-indexed bins and w_k is the twiddle at angle ∓2πk/N. */
  lemma ButterflyLayout(s: seq<real>, inverse: bool, m: MathLib, k: nat)
    requires IsTransformLength(|s|) && |s| >= 4
    requires k < |s| / 4
    ensures
      var n := |s| / 2;
      var r := FftRecursive(s, inverse, m);
      var e := FftRecursive(Decimate(s, 0), inverse, m);
      var o := FftRecursive(Decimate(s, 1), inverse, m);
      && Bin(r, k) == Add(Bin(e, k), Mul(Twiddle(m, inverse, k, n), Bin(o, k)))
      && Bin(r, k + |s| / 4) == Sub(Bin(e, k), Mul(Twiddle(m, inverse, k, n), Bin(o, k)))
  {
    LowerBin(s, inverse, m, k);
    UpperBin(s, inverse, m, k);
  }

  lemma LowerBin(s: seq<real>, inverse: bool, m: MathLib, k: nat)
    requires IsTransformLength(|s|) && |s| >= 4
    requires k < |s| / 4
    ensures |s| % 4 == 0
    ensures
      var e := FftRecursive(Decimate(s, 0), inverse, m);
      var o := FftRecursive(Decimate(s, 1), inverse, m);
      Bin(FftRecursive(s, inverse, m), k) == Add(Bin(e, k), Mul(Twiddle(m, inverse, k, |s| / 2), Bin(o, k)))
  {
    FftStep(s, inverse, m, k);
    ButterflyLower(m, inverse, FftRecursive(Decimate(s, 0), inverse, m), FftRecursive(Decimate(s, 1), inverse, m), |s| / 2, k);
  }

  lemma UpperBin(s: seq<real>, inverse: bool, m: MathLib, k: nat)
    requires IsTransformLength(|s|) && |s| >= 4
    requires k < |s| / 4
    ensures |s| % 4 == 0
    ensures
      var e := FftRecursive(Decimate(s, 0), inverse, m);
      var o := FftRecursive(Decimate(s, 1), inverse, m);
      Bin(FftRecursive(s, inverse, m), k + |s| / 4) == Sub(Bin(e, k), Mul(Twiddle(m, inverse, k, |s| / 2), Bin(o, k)))
  {
    HalfIsPow2(|s| / 2);
    QuarterOfLength(|s|);
    FftStep(s, inverse, m, k + |s| / 4);
    ButterflyUpper(m, inverse, FftRecursive(Decimate(s, 0), inverse, m), FftRecursive(Decimate(s, 1), inverse, m), |s| / 2, k);
  }

  /** A quarter of a length divisible by four is half of its half. */
  lemma QuarterOfLength(len: nat)
    requires len % 2 == 0 && (len / 2) % 2 == 0
    ensures len / 4 == (len / 2) / 2 && 2 * ((len / 2) / 2) == len / 2
  {
    var h := (len / 2) / 2;
    assert len == 4 * h;
  }

  /** The lower half of the butterfly adds the twiddled odd bin. */
  lemma ButterflyLower(m: MathLib, inverse: bool, even: seq<real>, odd: seq<real>, n: nat, k: nat)
    requires n >= 2 && n % 2 == 0 && |even| == n && |odd| == n && k < n / 2
    ensures Butterfly(m, inverse, even, odd, n, k)
         == Add(Bin(even, k), Mul(Twiddle(m, inverse, k, n), Bin(odd, k)))
  {
  }

  /** The upper half of the butterfly subtracts the twiddled odd bin. */
  lemma ButterflyUpper(m: MathLib, inverse: bool, even: seq<real>, odd: seq<real>, n: nat, k: nat)
    requires n >= 2 && n % 2 == 0 && |even| == n && |odd| == n && k < n / 2
    ensures Butterfly(m, inverse, even, odd, n, k + n / 2)
         == Sub(Bin(even, k), Mul(Twiddle(m, inverse, k, n), Bin(odd, k)))
  {
  }

  /** The twiddles of `m` read backwards: cos and sin of the negated angle. */
  function Mirror(m: MathLib): MathLib {
    MathLib(x => m.cos(-x), x => m.sin(-x), m.sqrt)
  }

  lemma TwiddleMirror(m: MathLib, k: int, n: nat)
    requires n > 0
    ensures Twiddle(m, true, k, n) == Twiddle(Mirror(m), false, k, n)
  {
    TurnsOpposite(k, n);
  }

  /** Forward and inverse differ only in the sign of the twiddle angle: the
      inverse transform is the forward transform with every angle negated. */
  lemma {:induction false} InverseIsMirroredForward(s: seq<real>, m: MathLib)
    requires IsTransformLength(|s|)
    ensures FftRecursive(s, true, m) == FftRecursive(s, false, Mirror(m))
    decreases |s|
  {
    var n := |s| / 2;
    if n > 1 {
      HalfIsPow2(n);
      var s0 := Decimate(s, 0);
      var s1 := Decimate(s, 1);
      InverseIsMirroredForward(s0, m);
      InverseIsMirroredForward(s1, m);
      MirroredLevel(s, m);
    }
  }

  /** If the half transforms agree, so do the whole ones. */
  lemma MirroredLevel(s: seq<real>, m: MathLib)
    requires IsTransformLength(|s|) && |s| >= 4 && IsTransformLength(|s| / 2) && |s| % 4 == 0
    requires FftRecursive(Decimate(s, 0), true, m) == FftRecursive(Decimate(s, 0), false, Mirror(m))
    requires FftRecursive(Decimate(s, 1), true, m) == FftRecursive(Decimate(s, 1), false, Mirror(m))
    ensures FftRecursive(s, true, m) == FftRecursive(s, false, Mirror(m))
  {
    MirroredCombine(m, FftRecursive(Decimate(s, 0), true, m), FftRecursive(Decimate(s, 1), true, m), |s| / 2);
  }

  /** The inverse butterfly stage equals the forward one with the mirrored twiddles. */
  lemma MirroredCombine(m: MathLib, even: seq<real>, odd: seq<real>, n: nat)
    requires n >= 2 && n % 2 == 0 && |even| == n && |odd| == n
    ensures Combine(m, true, even, odd, n) == Combine(Mirror(m), false, even, odd, n)
  {
    var inv := seq(n, k requires 0 <= k < n => Butterfly(m, true, even, odd, n, k));
    var fwd := seq(n, k requires 0 <= k < n => Butterfly(Mirror(m), false, even, odd, n, k));
    forall k | 0 <= k < n
      ensures inv[k] == fwd[k]
    {
      MirroredButterfly(m, even, odd, n, k);
    }
    assert inv == fwd;
  }

  lemma MirroredButterfly(m: MathLib, even: seq<real>, odd: seq<real>, n: nat, k: nat)
    requires n >= 2 && n % 2 == 0 && |even| == n && |odd| == n && k < n
    ensures Butterfly(m, true, even, odd, n, k) == Butterfly(Mirror(m), false, even, odd, n, k)
  {
    TwiddleMirror(m, k, n);
    TwiddleMirror(m, k - n / 2, n);
  }

  // ---------------------------------------------------------------------------
  // The DC bin

  function BinTerms(s: seq<real>): int -> Complex {
    k => if 0 <= k && 2 * k + 1 < |s| then Bin(s, k) else Zero
  }

  /** The sum of all bins of an interleaved array. */
  function BinTotal(s: seq<real>): Complex {
    Sum(|s| / 2, BinTerms(s))
  }

  /** At k = 0 the butterfly adds the two half transforms' DC bins. */
  lemma DcButterfly(s: seq<real>, inverse: bool, m: MathLib)
    requires ZeroAngle(m) && IsTransformLength(|s|) && |s| >= 4
    ensures Bin(FftRecursive(s, inverse, m), 0)
      == Add(Bin(FftRecursive(Decimate(s, 0), inverse, m), 0), Bin(FftRecursive(Decimate(s, 1), inverse, m), 0))
  {
    var n := |s| / 2;
    var e := FftRecursive(Decimate(s, 0), inverse, m);
    var o := FftRecursive(Decimate(s, 1), inverse, m);
    FftStep(s, inverse, m, 0);
    TwiddleAtZero(m, inverse, n);
    MulOne(Bin(o, 0));
    assert Butterfly(m, inverse, e, o, n, 0) == Add(Bin(e, 0), Mul(One, Bin(o, 0)));
  }

  /** The k = 0 twiddle is 1. */
  lemma TwiddleAtZero(m: MathLib, inverse: bool, n: nat)
    requires ZeroAngle(m) && n > 0
    ensures Twiddle(m, inverse, 0, n) == One
  {
    assert Turns(inverse, 0, n) == 0.0;
    CisZero(m);
  }

  /** The bin total splits into the totals of the even and odd decimations. */
  lemma BinTotalSplit(s: seq<real>)
    requires |s| % 4 == 0
    ensures BinTotal(s) == Add(BinTotal(Decimate(s, 0)), BinTotal(Decimate(s, 1)))
  {
    var h := |s| / 4;
    var s0 := Decimate(s, 0);
    var s1 := Decimate(s, 1);
    forall i | 0 <= i < h
      ensures BinTerms(s0)(i) == BinTerms(s)(2 * i) && BinTerms(s1)(i) == BinTerms(s)(2 * i + 1)
    {
    }
    SumSplitParity(h, BinTerms(s), BinTerms(s0), BinTerms(s1));
    assert |s0| / 2 == h && |s1| / 2 == h && 2 * h == |s| / 2;
  }

  /** Bin 0 of the transform is the sum of the input bins, in either direction:
      the k = 0 twiddle has angle 0 at every level, so only cos 0 = 1 and sin 0 = 0
      are needed. */
  lemma {:induction false} DcBinIsSum(s: seq<real>, inverse: bool, m: MathLib)
    requires ZeroAngle(m) && IsTransformLength(|s|) && |s| >= 2
    ensures Bin(FftRecursive(s, inverse, m), 0) == BinTotal(s)
    decreases |s|
  {
    var n := |s| / 2;
    if n > 1 {
      HalfIsPow2(n);
      DcBinIsSum(Decimate(s, 0), inverse, m);
      DcBinIsSum(Decimate(s, 1), inverse, m);
      DcButterfly(s, inverse, m);
      BinTotalSplit(s);
    }
  }

  /** Frequency k of the DFT of N complex ones is the root sum G(-k). */
  lemma OnesBin(m: MathLib, x: seq<Complex>, k: int)
    requires |x| > 0 && forall j :: 0 <= j < |x| ==> x[j] == One
    ensures Dft(m, x, false, k) == RootSum(m, |x|, -k)
  {
    forall j | 0 <= j < |x|
      ensures Terms(m, x, false, k)(j) == RootTerms(m, |x|, -k)(j)
    {
      MulOne(Cis(m, Turns(false, j * k, |x|)));
      assert j * -k == -(j * k);
    }
    SumCongruence(|x|, Terms(m, x, false, k), RootTerms(m, |x|, -k));
  }

  /** The DFT of N complex ones: N at frequency 0, and the roots of unity cancel
      at every other frequency. */
  lemma TransformOfOnes(m: MathLib, x: seq<Complex>)
    requires UnitCircle(m)
    requires |x| > 0 && forall j :: 0 <= j < |x| ==> x[j] == One
    ensures forall k :: 0 <= k < |x| ==>
      Transform(m, x, false)[k] == if k == 0 then OfReal(|x| as real) else Zero
  {
    forall k | 0 <= k < |x|
      ensures Transform(m, x, false)[k] == if k == 0 then OfReal(|x| as real) else Zero
    {
      OnesBin(m, x, k);
      if k == 0 {
        RootSumAtZero(m, |x|);
      } else {
        RootSumVanishes(m, |x|, -k);
      }
    }
  }

  /** N ones, N a power of two, are their own padded signal, and as complex
      numbers every one of them is One. */
  lemma OnesComplexify(signal: seq<real>)
    requires IsPow2(|signal|) && forall j :: 0 <= j < |signal| ==> signal[j] == 1.0
    ensures Complexify(PadSignal(signal)) == Complexify(signal)
    ensures |signal| > 0 && forall j :: 0 <= j < |signal| ==> Complexify(signal)[j] == One
  {
  }

  /** A signal of N ones, N a power of two (so no padding): the forward
      transform is N at bin 0 and 0 at every other bin. */
  lemma SpectrumOfOnes(m: MathLib, signal: seq<real>)
    requires UnitCircle(m)
    requires IsPow2(|signal|) && forall j :: 0 <= j < |signal| ==> signal[j] == 1.0
    ensures |Bins(Fft(signal, m))| == |signal|
    ensures Bins(Fft(signal, m))[0] == Complex(|signal| as real, 0.0)
    ensures forall k :: 0 < k < |signal| ==> Bins(Fft(signal, m))[k] == Zero
  {
    var c := Complexify(signal);
    OnesComplexify(signal);
    FftSpectrum(signal, m);
    TransformOfOnes(m, c);
  }

  // ---------------------------------------------------------------------------
  // Agreement with the defining sum

  /** Combining the half transforms with the butterfly gives the full transform. */
  lemma ButterflyIsDft(m: MathLib, x: seq<Complex>, inverse: bool, even: seq<real>, odd: seq<real>, k: nat)
    requires UnitCircle(m)
    requires |x| >= 2 && |x| % 2 == 0 && k < |x|
    requires |even| == |x| && |odd| == |x|
    requires Bins(even) == Transform(m, Evens(x), inverse)
    requires Bins(odd) == Transform(m, Odds(x), inverse)
    ensures Butterfly(m, inverse, even, odd, |x|, k) == Dft(m, x, inverse, k)
  {
    var n := |x|;
    var h := n / 2;
    DftSplit(m, x, inverse, k);
    if k >= h {
      var j := k - h;
      var e := Dft(m, Evens(x), inverse, j);
      var o := Dft(m, Odds(x), inverse, j);
      var t := Twiddle(m, inverse, j, n);
      assert Bin(even, j) == Bins(even)[j] == e;
      assert Bin(odd, j) == Bins(odd)[j] == o;
      ButterflyUpper(m, inverse, even, odd, n, j);
      assert j + n / 2 == k;
      PeriodicShift(m, Evens(x), inverse, j, k);
      PeriodicShift(m, Odds(x), inverse, j, k);
      HalfShift(m, inverse, j, k, n);
      MulNegLeft(t, o);
    } else {
      ButterflyLower(m, inverse, even, odd, n, k);
      assert Bin(even, k) == Bins(even)[k] && Bin(odd, k) == Bins(odd)[k];
    }
  }

  lemma PeriodicShift(m: MathLib, y: seq<Complex>, inverse: bool, j: int, k: int)
    requires UnitCircle(m) && |y| >= 1 && k == j + |y|
    ensures Dft(m, y, inverse, k) == Dft(m, y, inverse, j)
  {
    DftPeriodic(m, y, inverse, j);
  }

  lemma HalfShift(m: MathLib, inverse: bool, j: int, k: int, n: nat)
    requires UnitCircle(m) && n >= 2 && n % 2 == 0 && k == j + n / 2
    ensures Twiddle(m, inverse, k, n) == Neg(Twiddle(m, inverse, j, n))
  {
    TwiddleHalfShift(m, inverse, j, n / 2);
  }

  /** The recursive transform computes the discrete Fourier transform:
      bin k of the output is Σ_j x_j·e^{∓2πi·jk/N} over the input bins x. */
  lemma {:induction false} FftIsDft(s: seq<real>, inverse: bool, m: MathLib)
    requires UnitCircle(m) && IsTransformLength(|s|)
    ensures Bins(FftRecursive(s, inverse, m)) == Transform(m, Bins(s), inverse)
    decreases |s|
  {
    var n := |s| / 2;
    if n == 1 {
      SingleBinIsDft(s, inverse, m);
    } else if n > 1 {
      HalfIsPow2(n);
      FftIsDft(Decimate(s, 0), inverse, m);
      FftIsDft(Decimate(s, 1), inverse, m);
      HalvesGiveDft(s, inverse, m);
    }
  }

  /** A single bin is its own transform. */
  lemma SingleBinIsDft(s: seq<real>, inverse: bool, m: MathLib)
    requires UnitCircle(m) && |s| == 2
    ensures Bins(FftRecursive(s, inverse, m)) == Transform(m, Bins(s), inverse)
  {
    var x := Bins(s);
    assert Turns(inverse, 0 * 0, 1) == 0.0;
    CisZero(m);
    MulOne(x[0]);
    assert Dft(m, x, inverse, 0) == Add(Zero, Mul(x[0], One));
  }

  /** The induction step: if the half transforms are the DFTs of the even- and
      odd-indexed bins, the whole transform is the DFT of all bins. */
  lemma HalvesGiveDft(s: seq<real>, inverse: bool, m: MathLib)
    requires UnitCircle(m) && IsTransformLength(|s|) && |s| >= 4
    requires IsTransformLength(|s| / 2)
    requires Bins(FftRecursive(Decimate(s, 0), inverse, m)) == Transform(m, Bins(Decimate(s, 0)), inverse)
    requires Bins(FftRecursive(Decimate(s, 1), inverse, m)) == Transform(m, Bins(Decimate(s, 1)), inverse)
    ensures Bins(FftRecursive(s, inverse, m)) == Transform(m, Bins(s), inverse)
  {
    var r := FftRecursive(s, inverse, m);
    forall k | 0 <= k < |s| / 2
      ensures Bins(r)[k] == Dft(m, Bins(s), inverse, k)
    {
      HalvesGiveBin(s, inverse, m, k);
    }
  }

  lemma HalvesGiveBin(s: seq<real>, inverse: bool, m: MathLib, k: nat)
    requires UnitCircle(m) && IsTransformLength(|s|) && |s| >= 4 && k < |s| / 2
    requires IsTransformLength(|s| / 2)
    requires Bins(FftRecursive(Decimate(s, 0), inverse, m)) == Transform(m, Bins(Decimate(s, 0)), inverse)
    requires Bins(FftRecursive(Decimate(s, 1), inverse, m)) == Transform(m, Bins(Decimate(s, 1)), inverse)
    ensures Bin(FftRecursive(s, inverse, m), k) == Dft(m, Bins(s), inverse, k)
  {
    FftStep(s, inverse, m, k);
    DecimateBins(s);
    ButterflyIsDft(m, Bins(s), inverse, FftRecursive(Decimate(s, 0), inverse, m), FftRecursive(Decimate(s, 1), inverse, m), k);
  }

  /** A real signal laid out as complex numbers with zero imaginary parts. */
  function Complexify(p: seq<real>): (c: seq<Complex>)
    ensures |c| == |p|
    ensures forall j :: 0 <= j < |c| ==> c[j].re == p[j] && c[j].im == 0.0
  {
    seq(|p|, i requires 0 <= i < |p| => OfReal(p[i]))
  }

  /** The forward transform of a signal is the DFT of the zero-padded signal. */
  lemma FftSpectrum(signal: seq<real>, m: MathLib)
    requires UnitCircle(m)
    ensures Bins(Fft(signal, m)) == Transform(m, Complexify(PadSignal(signal)), false)
  {
    var padded := PadSignal(signal);
    var input := RealToComplex(padded);
    assert Bins(input) == Complexify(padded);
    FftIsDft(input, false, m);
  }

  // ---------------------------------------------------------------------------
  // Round trip

  /** Sample i of the inverse is the real part of inverse DFT bin i divided by N. */
  lemma IfftSample(spectrum: seq<real>, m: MathLib, i: int)
    requires UnitCircle(m) && IsTransformLength(|spectrum|) && 0 <= i < |spectrum| / 2
    ensures Ifft(spectrum, m)[i] == Dft(m, Bins(spectrum), true, i).re / ((|spectrum| / 2) as real)
  {
    var inv := FftRecursive(spectrum, true, m);
    FftIsDft(spectrum, true, m);
    assert inv[2 * i] == Bin(inv, i).re == Bins(inv)[i].re;
  }

  /** Dividing the real part of p·n by n gives p back. */
  lemma ScaledRealPart(p: real, n: real)
    requires n != 0.0
    ensures Mul(OfReal(p), OfReal(n)).re / n == p
  {
    assert Mul(OfReal(p), OfReal(n)).re == p * n;
  }

  lemma RoundTripSample(signal: seq<real>, m: MathLib, i: int)
    requires UnitCircle(m) && 0 <= i < NextPow2(|signal|)
    ensures Ifft(Fft(signal, m), m)[i] == PadSignal(signal)[i]
  {
    var padded := PadSignal(signal);
    var n := |padded|;
    var x := Complexify(padded);
    var spectrum := Fft(signal, m);
    IfftSample(spectrum, m, i);
    FftSpectrum(signal, m);
    Inversion(m, x, i);
    assert x[i] == OfReal(padded[i]);
    ScaledRealPart(padded[i], n as real);
  }

  /** ifft(fft(x)) is the zero-padded x: the inverse recovers every padded sample. */
  lemma RoundTrip(signal: seq<real>, m: MathLib)
    requires UnitCircle(m)
    ensures Ifft(Fft(signal, m), m) == PadSignal(signal)
  {
    var out := Ifft(Fft(signal, m), m);
    forall i | 0 <= i < |out|
      ensures out[i] == PadSignal(signal)[i]
    {
      RoundTripSample(signal, m, i);
    }
  }

  // ---------------------------------------------------------------------------
  // Conjugate symmetry

  lemma SpectrumBin(signal: seq<real>, m: MathLib, k: int)
    requires UnitCircle(m) && 0 <= k < NextPow2(|signal|)
    ensures Bin(Fft(signal, m), k) == Dft(m, Complexify(PadSignal(signal)), false, k)
  {
    FftSpectrum(signal, m);
    assert Bin(Fft(signal, m), k) == Bins(Fft(signal, m))[k];
  }

  lemma MirrorDft(m: MathLib, x: seq<Complex>, k: nat)
    requires UnitCircle(m) && k < |x|
    requires forall j :: 0 <= j < |x| ==> x[j].im == 0.0
    ensures Dft(m, x, false, MirrorBin(k, |x|)) == Conj(Dft(m, x, false, k))
  {
    DftConjugate(m, x, k);
    if k > 0 {
      DftPeriodic(m, x, false, -(k as int));
      assert -(k as int) + |x| == MirrorBin(k, |x|);
    }
  }

  /** The spectrum of a real signal is conjugate-symmetric: bin N − k is the
      conjugate of bin k, and bin 0 is real. */
  lemma FftConjugateSymmetric(signal: seq<real>, m: MathLib)
    requires UnitCircle(m)
    ensures ConjugateSymmetric(Fft(signal, m))
  {
    var spectrum := Fft(signal, m);
    var n := NextPow2(|signal|);
    HalfOfDouble(n);
    forall k | 0 <= k < n
      ensures Bin(spectrum, MirrorBin(k, n)) == Conj(Bin(spectrum, k))
    {
      MirroredSpectrumBin(signal, m, k);
    }
  }

  /** Bin N − k of the spectrum is the conjugate of bin k. */
  lemma MirroredSpectrumBin(signal: seq<real>, m: MathLib, k: nat)
    requires UnitCircle(m) && k < NextPow2(|signal|)
    ensures Bin(Fft(signal, m), MirrorBin(k, NextPow2(|signal|))) == Conj(Bin(Fft(signal, m), k))
  {
    var n := NextPow2(|signal|);
    SpectrumBin(signal, m, k);
    SpectrumBin(signal, m, MirrorBin(k, n));
    RealMirrorDft(m, PadSignal(signal), k);
  }

  /** The DFT of real samples is conjugate-symmetric. */
  lemma RealMirrorDft(m: MathLib, p: seq<real>, k: nat)
    requires UnitCircle(m) && k < |p|
    ensures Dft(m, Complexify(p), false, MirrorBin(k, |p|)) == Conj(Dft(m, Complexify(p), false, k))
  {
    MirrorDft(m, Complexify(p), k);
  }
}
