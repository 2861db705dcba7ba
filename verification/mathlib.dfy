/** The transcendental functions the source takes from JavaScript's `Math` object.
    They are parameters of the model rather than defined functions: the model
    never evaluates a cosine, and every property that depends on what cosine and
    sine are is stated under an explicit law below.

    Angles are measured in TURNS: `cos(x)` stands for `Math.cos(2 * Math.PI * x)`.
    The transform's twiddle angle `angleSign * Math.PI * k / N` (angleSign = -2 or 2)
    is therefore the turn count `-k/N` or `k/N`, and the Hann window's
    `2 * Math.PI * i / (N - 1)` is the turn count `i / (N - 1)`. */
module MathLib {
  import opened Complex

  datatype MathLib = MathLib(cos: real -> real, sin: real -> real, sqrt: real -> real)

  /** The point of the unit circle at x turns: cos(2πx) + i·sin(2πx). */
  function Cis(m: MathLib, x: real): Complex {
    Complex(m.cos(x), m.sin(x))
  }

  /** The only facts the DC-bin law needs: cos 0 = 1 and sin 0 = 0. */
  ghost predicate ZeroAngle(m: MathLib) {
    m.cos(0.0) == 1.0 && m.sin(0.0) == 0.0
  }

  /** Helper terms that give the quantified laws below triggers of their own,
      so that they are only instantiated where a proof asks for them. */
  function CisOfSum(m: MathLib, a: real, b: real): Complex {
    Cis(m, a + b)
  }

  function CisOfNeg(m: MathLib, x: real): Complex {
    Cis(m, -x)
  }

  function CosOf(m: MathLib, x: real): real {
    m.cos(x)
  }

  /** The laws of cos(2πx) and sin(2πx) that the transform proofs rely on:
      the angle-addition formulas, the half turn, the evenness of cosine and
      oddness of sine, and that cos(2πx) = 1 has no root strictly between 0 and 1. */
  ghost predicate UnitCircle(m: MathLib) {
    && ZeroAngle(m)
    && m.cos(0.5) == -1.0 && m.sin(0.5) == 0.0
    && (forall a: real, b: real {:trigger CisOfSum(m, a, b)} ::
          CisOfSum(m, a, b) == Mul(Cis(m, a), Cis(m, b)))
    && (forall x: real {:trigger CisOfNeg(m, x)} :: CisOfNeg(m, x) == Conj(Cis(m, x)))
    && (forall x: real {:trigger CosOf(m, x)} :: 0.0 < x < 1.0 ==> CosOf(m, x) != 1.0)
  }

  /** The range of the cosine: -1 <= cos(x) <= 1. */
  ghost predicate CosBounded(m: MathLib) {
    forall x: real {:trigger m.cos(x)} :: -1.0 <= m.cos(x) <= 1.0
  }

  /** The square root of a non-negative number is non-negative. */
  ghost predicate SqrtNonNeg(m: MathLib) {
    forall x: real {:trigger m.sqrt(x)} :: 0.0 <= x ==> 0.0 <= m.sqrt(x)
  }

  lemma CisZero(m: MathLib)
    requires ZeroAngle(m)
    ensures Cis(m, 0.0) == One
  {
  }

  lemma CisAdd(m: MathLib, a: real, b: real)
    requires UnitCircle(m)
    ensures Cis(m, a + b) == Mul(Cis(m, a), Cis(m, b))
  {
    assert CisOfSum(m, a, b) == Mul(Cis(m, a), Cis(m, b));
  }

  lemma CisNeg(m: MathLib, x: real)
    requires UnitCircle(m)
    ensures Cis(m, -x) == Conj(Cis(m, x))
  {
    assert CisOfNeg(m, x) == Conj(Cis(m, x));
  }

  /** Half a turn either way lands on -1. */
  lemma CisHalf(m: MathLib)
    requires UnitCircle(m)
    ensures Cis(m, 0.5) == Neg(One)
    ensures Cis(m, -0.5) == Neg(One)
  {
    CisNeg(m, 0.5);
  }

  /** One full turn lands on 1. */
  lemma CisOneTurn(m: MathLib)
    requires UnitCircle(m)
    ensures Cis(m, 1.0) == One
  {
    CisAdd(m, 0.5, 0.5);
    CisHalf(m);
  }

  /** A whole number of turns lands on 1. */
  lemma {:induction false} CisWholeTurns(m: MathLib, z: int)
    requires UnitCircle(m)
    ensures Cis(m, z as real) == One
    decreases if z < 0 then 1 - z else z
  {
    if z == 0 {
      CisZero(m);
    } else if z > 0 {
      CisWholeTurns(m, z - 1);
      CisAdd(m, (z - 1) as real, 1.0);
      CisOneTurn(m);
      assert (z - 1) as real + 1.0 == z as real;
      assert Cis(m, z as real) == Mul(One, One);
    } else {
      CisWholeTurns(m, -z);
      CisNeg(m, (-z) as real);
      assert -((-z) as real) == z as real;
    }
  }

  /** Periodicity: adding whole turns does not move the point. */
  lemma CisPeriodic(m: MathLib, x: real, z: int)
    requires UnitCircle(m)
    ensures Cis(m, x + z as real) == Cis(m, x)
  {
    CisAdd(m, x, z as real);
    CisWholeTurns(m, z);
    MulOne(Cis(m, x));
  }

  /** Adding half a turn, either way, negates the point. */
  lemma CisHalfShift(m: MathLib, x: real)
    requires UnitCircle(m)
    ensures Cis(m, x + 0.5) == Neg(Cis(m, x))
    ensures Cis(m, x - 0.5) == Neg(Cis(m, x))
  {
    CisAdd(m, x, 0.5);
    CisAdd(m, x, -0.5);
    CisHalf(m);
    MulNeg(Cis(m, x), One);
    MulOne(Cis(m, x));
  }

  /** Strictly between -1 and 1 turns, only 0 lands on 1. */
  lemma CisNotOne(m: MathLib, x: real)
    requires UnitCircle(m)
    requires -1.0 < x < 1.0 && x != 0.0
    ensures Cis(m, x) != One
  {
    if x < 0.0 {
      CisPeriodic(m, x, 1);
      assert 0.0 < x + 1.0 < 1.0;
      assert CosOf(m, x + 1 as real) != 1.0;
    } else {
      assert CosOf(m, x) != 1.0;
    }
  }
}
