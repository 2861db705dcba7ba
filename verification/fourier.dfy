/** The discrete Fourier transform written as its defining sum,
    X_k = Σ_{j<N} x_j · e^{∓2πi·jk/N}, the reference the recursive transform is
    proved against, with the algebra the Cooley-Tukey recursion rests on:
    the even/odd split of the sum, periodicity in k, and orthogonality of the
    roots of unity. Every law of cos and sin it uses comes from UnitCircle. */
module Fourier {
  import opened Complex
  import opened MathLib
  import opened Sums
  import opened Dsp

  // ---------------------------------------------------------------------------
  // Turn arithmetic

  lemma TurnsAdd(inverse: bool, a: int, b: int, n: nat)
    requires n > 0
    ensures Turns(inverse, a, n) + Turns(inverse, b, n) == Turns(inverse, a + b, n)
  {
  }

  lemma TurnsDouble(inverse: bool, a: int, h: nat)
    requires h > 0
    ensures Turns(inverse, 2 * a, 2 * h) == Turns(inverse, a, h)
  {
  }

  lemma TurnsWhole(inverse: bool, z: int, n: nat)
    requires n > 0
    ensures Turns(inverse, z * n, n) == (if inverse then z else -z) as real
  {
  }

  lemma TurnsHalf(inverse: bool, h: nat)
    requires h > 0
    ensures Turns(inverse, h, 2 * h) == if inverse then 0.5 else -0.5
  {
    var d := (2 * h) as real;
    assert d == 2.0 * (h as real);
    assert (h as real) / d == 0.5;
    assert (-(h as real)) / d == -0.5;
  }

  lemma TurnsOpposite(a: int, n: nat)
    requires n > 0
    ensures Turns(true, a, n) == -Turns(false, a, n)
    ensures Turns(false, -a, n) == -Turns(false, a, n)
  {
  }

  /** Shifting k by half the transform size negates the twiddle factor. */
  lemma TwiddleHalfShift(m: MathLib, inverse: bool, k: int, h: nat)
    requires UnitCircle(m) && h > 0
    ensures Twiddle(m, inverse, k + h, 2 * h) == Neg(Twiddle(m, inverse, k, 2 * h))
  {
    TurnsAdd(inverse, k, h, 2 * h);
    TurnsHalf(inverse, h);
    CisHalfShift(m, Turns(inverse, k, 2 * h));
  }

  // ---------------------------------------------------------------------------
  // The defining sum

  /** Term j of the sum for frequency k; zero outside 0 <= j < N. */
  function DftTerm(m: MathLib, x: seq<Complex>, inverse: bool, k: int, j: int): Complex {
    if 0 <= j < |x| then Mul(x[j], Cis(m, Turns(inverse, j * k, |x|))) else Zero
  }

  function Terms(m: MathLib, x: seq<Complex>, inverse: bool, k: int): int -> Complex {
    j => DftTerm(m, x, inverse, k, j)
  }

  /** Frequency k of the (unnormalised) forward or inverse DFT of x. */
  function Dft(m: MathLib, x: seq<Complex>, inverse: bool, k: int): Complex {
    Sum(|x|, Terms(m, x, inverse, k))
  }

  /** All N frequencies of the transform of x. */
  function Transform(m: MathLib, x: seq<Complex>, inverse: bool): (y: seq<Complex>)
    ensures |y| == |x|
  {
    seq(|x|, k => Dft(m, x, inverse, k))
  }

  function Evens(x: seq<Complex>): (e: seq<Complex>)
    requires |x| % 2 == 0
    ensures |e| == |x| / 2
  {
    seq(|x| / 2, i requires 0 <= i < |x| / 2 => x[2 * i])
  }

  function Odds(x: seq<Complex>): (o: seq<Complex>)
    requires |x| % 2 == 0
    ensures |o| == |x| / 2
  {
    seq(|x| / 2, i requires 0 <= i < |x| / 2 => x[2 * i + 1])
  }

  lemma EvenTerm(m: MathLib, x: seq<Complex>, inverse: bool, k: int, i: int)
    requires |x| >= 2 && |x| % 2 == 0 && 0 <= i < |x| / 2
    ensures DftTerm(m, x, inverse, k, 2 * i) == DftTerm(m, Evens(x), inverse, k, i)
  {
    assert (2 * i) * k == 2 * (i * k);
    TurnsDouble(inverse, i * k, |x| / 2);
  }

  lemma OddTerm(m: MathLib, x: seq<Complex>, inverse: bool, k: int, i: int)
    requires UnitCircle(m)
    requires |x| >= 2 && |x| % 2 == 0 && 0 <= i < |x| / 2
    ensures DftTerm(m, x, inverse, k, 2 * i + 1)
         == Mul(Twiddle(m, inverse, k, |x|), DftTerm(m, Odds(x), inverse, k, i))
  {
    var w := Twiddle(m, inverse, k, |x|);
    var c := Cis(m, Turns(inverse, i * k, |x| / 2));
    var a := x[2 * i + 1];
    OddTermFactors(m, x, inverse, k, i);
    assert DftTerm(m, Odds(x), inverse, k, i) == Mul(a, c);
    MulAssoc(a, w, c);
    MulComm(a, w);
    MulAssoc(w, a, c);
  }

  /** Term 2i + 1 of the sum is x_{2i+1} times the twiddle times term i's rotation at half size. */
  lemma OddTermFactors(m: MathLib, x: seq<Complex>, inverse: bool, k: int, i: int)
    requires UnitCircle(m)
    requires |x| >= 2 && |x| % 2 == 0 && 0 <= i < |x| / 2
    ensures DftTerm(m, x, inverse, k, 2 * i + 1)
         == Mul(x[2 * i + 1], Mul(Twiddle(m, inverse, k, |x|), Cis(m, Turns(inverse, i * k, |x| / 2))))
  {
    var h := |x| / 2;
    assert 2 * h == |x|;
    OddAngle(inverse, i, k, h);
    CisAdd(m, Turns(inverse, k, |x|), Turns(inverse, i * k, h));
  }

  /** The angle of term 2i + 1 at size 2h is the twiddle's angle plus that of term i at size h. */
  lemma OddAngle(inverse: bool, i: int, k: int, h: nat)
    requires h > 0
    ensures Turns(inverse, (2 * i + 1) * k, 2 * h) == Turns(inverse, k, 2 * h) + Turns(inverse, i * k, h)
  {
    assert (2 * i + 1) * k == k + 2 * (i * k);
    TurnsDouble(inverse, i * k, h);
    TurnsAdd(inverse, k, 2 * (i * k), 2 * h);
  }

  /** The decimation-in-time identity: X_k = E_k + w^k·O_k, for every k. */
  lemma DftSplit(m: MathLib, x: seq<Complex>, inverse: bool, k: int)
    requires UnitCircle(m)
    requires |x| >= 2 && |x| % 2 == 0
    ensures Dft(m, x, inverse, k)
         == Add(Dft(m, Evens(x), inverse, k), Mul(Twiddle(m, inverse, k, |x|), Dft(m, Odds(x), inverse, k)))
  {
    var h := |x| / 2;
    var w := Twiddle(m, inverse, k, |x|);
    var all := Terms(m, x, inverse, k);
    var evenTerms := Terms(m, Evens(x), inverse, k);
    var oddTerms := Terms(m, Odds(x), inverse, k);
    var scaledOdd := i => Mul(w, oddTerms(i));
    forall i | 0 <= i < h
      ensures evenTerms(i) == all(2 * i) && scaledOdd(i) == all(2 * i + 1)
    {
      EvenTerm(m, x, inverse, k, i);
      OddTerm(m, x, inverse, k, i);
    }
    SumSplitParity(h, all, evenTerms, scaledOdd);
    SumMulLeft(h, w, oddTerms, scaledOdd);
    assert 2 * h == |x| && |Evens(x)| == h && |Odds(x)| == h;
    assert Dft(m, x, inverse, k) == Sum(2 * h, all);
    assert Dft(m, Evens(x), inverse, k) == Sum(h, evenTerms);
    assert Dft(m, Odds(x), inverse, k) == Sum(h, oddTerms);
  }

  /** X_{k+N} = X_k. */
  lemma DftPeriodic(m: MathLib, x: seq<Complex>, inverse: bool, k: int)
    requires UnitCircle(m) && |x| >= 1
    ensures Dft(m, x, inverse, k + |x|) == Dft(m, x, inverse, k)
  {
    var n := |x|;
    forall j | 0 <= j < n
      ensures DftTerm(m, x, inverse, k + n, j) == DftTerm(m, x, inverse, k, j)
    {
      assert j * (k + n) == j * k + j * n;
      TurnsAdd(inverse, j * k, j * n, n);
      TurnsWhole(inverse, j, n);
      CisPeriodic(m, Turns(inverse, j * k, n), if inverse then j else -j);
    }
    SumCongruence(n, Terms(m, x, inverse, k + n), Terms(m, x, inverse, k));
  }

  // ---------------------------------------------------------------------------
  // Orthogonality of the roots of unity

  /** G(d) = Σ_{k<N} e^{2πi·kd/N}. */
  function RootSum(m: MathLib, n: nat, d: int): Complex
    requires n > 0
  {
    Sum(n, RootTerms(m, n, d))
  }

  function RootTerms(m: MathLib, n: nat, d: int): int -> Complex
    requires n > 0
  {
    k => Cis(m, Turns(true, k * d, n))
  }

  /** G(0) = N. */
  lemma RootSumAtZero(m: MathLib, n: nat)
    requires ZeroAngle(m) && n > 0
    ensures RootSum(m, n, 0) == OfReal(n as real)
  {
    RootSumOfOnes(m, n, n, RootTerms(m, n, 0));
  }

  lemma {:induction false} RootSumOfOnes(m: MathLib, n: nat, count: nat, f: int -> Complex)
    requires ZeroAngle(m) && n > 0
    requires forall k :: f(k) == Cis(m, Turns(true, k * 0, n))
    ensures Sum(count, f) == OfReal(count as real)
  {
    if count > 0 {
      RootSumOfOnes(m, n, count - 1, f);
      assert Turns(true, (count - 1) * 0, n) == 0.0;
    }
  }

  /** Multiplying by 1 − r, with r = e^{2πi·d/N}, turns term k into term k minus term k+1. */
  lemma RootStep(m: MathLib, n: nat, d: int, k: int)
    requires UnitCircle(m) && n > 0
    ensures Mul(Cis(m, Turns(true, k * d, n)), Sub(One, Cis(m, Turns(true, d, n))))
         == Sub(Cis(m, Turns(true, k * d, n)), Cis(m, Turns(true, (k + 1) * d, n)))
  {
    assert (k + 1) * d == k * d + d;
    TurnsAdd(true, k * d, d, n);
    CisAdd(m, Turns(true, k * d, n), Turns(true, d, n));
    MulSubOne(Cis(m, Turns(true, k * d, n)), Cis(m, Turns(true, d, n)));
  }

  /** The first and the N-th root sum terms are both 1. */
  lemma RootEnds(m: MathLib, n: nat, d: int)
    requires UnitCircle(m) && n > 0
    ensures Cis(m, Turns(true, 0 * d, n)) == One
    ensures Cis(m, Turns(true, n * d, n)) == One
  {
    assert Turns(true, 0 * d, n) == 0.0;
    CisZero(m);
    assert n * d == d * n;
    TurnsWhole(true, d, n);
    CisWholeTurns(m, d);
  }

  /** G(d) = 0 for 0 < |d| < N: the roots of unity sum to zero. */
  lemma RootSumVanishes(m: MathLib, n: nat, d: int)
    requires UnitCircle(m) && n > 0
    requires d != 0 && -(n as int) < d < n
    ensures RootSum(m, n, d) == Zero
  {
    var f := RootTerms(m, n, d);
    var q := Sub(One, Cis(m, Turns(true, d, n)));
    var scaled := k => Mul(f(k), q);
    forall k | 0 <= k < n
      ensures scaled(k) == Sub(f(k), f(k + 1))
    {
      RootStep(m, n, d, k);
    }
    SumTelescope(n, f, scaled);
    SumMulRight(n, f, q, scaled);
    RootEnds(m, n, d);
    assert Mul(Sum(n, f), q) == Zero;
    // q ≠ 0 because d/N lies strictly between -1 and 1 and is not 0.
    TurnsBetween(d, n);
    CisNotOne(m, Turns(true, d, n));
    assert q != Zero;
    MulComm(Sum(n, f), q);
    NoZeroDivisors(q, Sum(n, f));
    assert RootSum(m, n, d) == Sum(n, f);
  }

  lemma MulSubOne(a: Complex, r: Complex)
    ensures Mul(a, Sub(One, r)) == Sub(a, Mul(a, r))
  {
  }

  lemma TurnsBetween(d: int, n: nat)
    requires n > 0 && d != 0 && -(n as int) < d < n
    ensures -1.0 < Turns(true, d, n) < 1.0 && Turns(true, d, n) != 0.0
  {
    var x := Turns(true, d, n);
    assert x * (n as real) == d as real;
  }

  // ---------------------------------------------------------------------------
  // Symmetry of the transform of real data

  /** For real input, X_{-k} is the conjugate of X_k. */
  lemma DftConjugate(m: MathLib, x: seq<Complex>, k: int)
    requires UnitCircle(m)
    requires forall j :: 0 <= j < |x| ==> x[j].im == 0.0
    ensures Dft(m, x, false, -k) == Conj(Dft(m, x, false, k))
  {
    var n := |x|;
    forall j | 0 <= j < n
      ensures DftTerm(m, x, false, -k, j) == Conj(DftTerm(m, x, false, k, j))
    {
      assert j * (-k) == -(j * k);
      TurnsOpposite(j * k, n);
      CisNeg(m, Turns(false, j * k, n));
      ConjMul(x[j], Cis(m, Turns(false, j * k, n)));
      assert Conj(x[j]) == x[j];
    }
    SumConj(n, Terms(m, x, false, k), Terms(m, x, false, -k));
  }

  // ---------------------------------------------------------------------------
  // Inversion

  /** The double-sum term x_j · e^{2πi·k(i−j)/N} of the inverse of the forward transform. */
  function InversionGrid(m: MathLib, x: seq<Complex>, i: int): (int, int) -> Complex
    requires |x| > 0
  {
    (j, k) => if 0 <= j < |x| then Mul(x[j], Cis(m, Turns(true, k * (i - j), |x|))) else Zero
  }

  lemma InversionTerm(m: MathLib, x: seq<Complex>, i: int, j: int, k: int)
    requires UnitCircle(m) && 0 <= j < |x|
    ensures Mul(DftTerm(m, x, false, k, j), Cis(m, Turns(true, k * i, |x|)))
         == InversionGrid(m, x, i)(j, k)
  {
    var n := |x|;
    var a := Cis(m, Turns(false, j * k, n));
    var b := Cis(m, Turns(true, k * i, n));
    assert Turns(false, j * k, n) == Turns(true, -(j * k), n);
    TurnsAdd(true, -(j * k), k * i, n);
    assert -(j * k) + k * i == k * (i - j);
    CisAdd(m, Turns(false, j * k, n), Turns(true, k * i, n));
    MulAssoc(x[j], a, b);
  }

  /** Inverse-transforming the forward transform gives N times the input:
      Σ_k X_k e^{2πi·ki/N} = N·x_i. */
  lemma Inversion(m: MathLib, x: seq<Complex>, i: int)
    requires UnitCircle(m) && 0 <= i < |x|
    ensures Dft(m, Transform(m, x, false), true, i) == Mul(x[i], OfReal(|x| as real))
  {
    var n := |x|;
    var y := Transform(m, x, false);
    var g := InversionGrid(m, x, i);
    var rows := Terms(m, y, true, i);
    var cols := j => Sum(n, Column(g, j));
    forall k | 0 <= k < n
      ensures rows(k) == Sum(n, Row(g, k))
    {
      var c := Cis(m, Turns(true, k * i, n));
      forall j | 0 <= j < n
        ensures Row(g, k)(j) == Mul(DftTerm(m, x, false, k, j), c)
      {
        InversionTerm(m, x, i, j, k);
      }
      SumMulRight(n, Terms(m, x, false, k), c, Row(g, k));
      assert rows(k) == Mul(y[k], c);
    }
    forall j | 0 <= j < n
      ensures cols(j) == if j == i then Mul(x[i], OfReal(n as real)) else Zero
    {
      SumMulLeft(n, x[j], RootTerms(m, n, i - j), Column(g, j));
      assert cols(j) == Mul(x[j], RootSum(m, n, i - j));
      if j == i {
        RootSumAtZero(m, n);
      } else {
        RootSumVanishes(m, n, i - j);
        MulZero(x[j]);
      }
    }
    SumSwap(n, n, g, rows, cols);
    SumSingle(n, cols, i);
  }
}
