/** Finite sums of complex numbers, Σ_{i<n} f(i), and the algebra of sums that the
    transform proofs use: congruence, splitting by parity, factoring out a constant,
    exchanging a double sum, telescoping and conjugation. The lemmas relate the
    terms of two sums pointwise through their hypotheses. */
module Sums {
  import opened Complex

  function Sum(n: nat, f: int -> Complex): Complex {
    if n == 0 then Zero else Add(Sum(n - 1, f), f(n - 1))
  }

  /** Sums of pointwise-equal terms are equal. */
  lemma {:induction false} SumCongruence(n: nat, f: int -> Complex, g: int -> Complex)
    requires forall i :: 0 <= i < n ==> f(i) == g(i)
    ensures Sum(n, f) == Sum(n, g)
  {
    if n > 0 {
      SumCongruence(n - 1, f, g);
    }
  }

  lemma {:induction false} SumAdd(n: nat, f: int -> Complex, g: int -> Complex, fg: int -> Complex)
    requires forall i :: 0 <= i < n ==> fg(i) == Add(f(i), g(i))
    ensures Sum(n, fg) == Add(Sum(n, f), Sum(n, g))
  {
    if n > 0 {
      SumAdd(n - 1, f, g, fg);
    }
  }

  /** A constant factor on the left comes out of the sum. */
  lemma {:induction false} SumMulLeft(n: nat, w: Complex, f: int -> Complex, wf: int -> Complex)
    requires forall i :: 0 <= i < n ==> wf(i) == Mul(w, f(i))
    ensures Sum(n, wf) == Mul(w, Sum(n, f))
  {
    if n == 0 {
      MulZero(w);
    } else {
      SumMulLeft(n - 1, w, f, wf);
      MulAddDistr(w, Sum(n - 1, f), f(n - 1));
    }
  }

  /** A constant factor on the right comes out of the sum. */
  lemma SumMulRight(n: nat, f: int -> Complex, w: Complex, fw: int -> Complex)
    requires forall i :: 0 <= i < n ==> fw(i) == Mul(f(i), w)
    ensures Sum(n, fw) == Mul(Sum(n, f), w)
  {
    forall i | 0 <= i < n
      ensures fw(i) == Mul(w, f(i))
    {
      MulComm(f(i), w);
    }
    SumMulLeft(n, w, f, fw);
    MulComm(w, Sum(n, f));
  }

  /** A sum over 2h terms is the sum of its even-indexed and odd-indexed terms. */
  lemma {:induction false} SumSplitParity(h: nat, f: int -> Complex, even: int -> Complex, odd: int -> Complex)
    requires forall i :: 0 <= i < h ==> even(i) == f(2 * i) && odd(i) == f(2 * i + 1)
    ensures Sum(2 * h, f) == Add(Sum(h, even), Sum(h, odd))
  {
    if h > 0 {
      var a := 2 * (h - 1);
      SumSplitParity(h - 1, f, even, odd);
      SumTwoMore(a, f);
      AddRearrange(Sum(h - 1, even), Sum(h - 1, odd), f(a), f(a + 1));
      assert a + 2 == 2 * h;
    }
  }

  lemma SumTwoMore(a: nat, f: int -> Complex)
    ensures Sum(a + 2, f) == Add(Add(Sum(a, f), f(a)), f(a + 1))
  {
  }

  lemma AddRearrange(a: Complex, b: Complex, c: Complex, d: Complex)
    ensures Add(Add(Add(a, b), c), d) == Add(Add(a, c), Add(b, d))
  {
  }

  /** The k-th row j ↦ g(j, k) and the j-th column k ↦ g(j, k) of a double-indexed family. */
  function Row(g: (int, int) -> Complex, k: int): int -> Complex {
    j => g(j, k)
  }

  function Column(g: (int, int) -> Complex, j: int): int -> Complex {
    k => g(j, k)
  }

  /** Exchanging the order of a double sum: Σ_k Σ_j g(j, k) = Σ_j Σ_k g(j, k). */
  lemma {:induction false} SumSwap(n1: nat, n2: nat, g: (int, int) -> Complex, rows: int -> Complex, cols: int -> Complex)
    requires forall k :: 0 <= k < n2 ==> rows(k) == Sum(n1, Row(g, k))
    requires forall j :: 0 <= j < n1 ==> cols(j) == Sum(n2, Column(g, j))
    ensures Sum(n2, rows) == Sum(n1, cols)
  {
    if n2 > 0 {
      var previous := j => Sum(n2 - 1, Column(g, j));
      SumSwap(n1, n2 - 1, g, rows, previous);
      forall j | 0 <= j < n1
        ensures cols(j) == Add(previous(j), Row(g, n2 - 1)(j))
      {
        assert Sum(n2, Column(g, j)) == Add(Sum(n2 - 1, Column(g, j)), Column(g, j)(n2 - 1));
      }
      SumAdd(n1, previous, Row(g, n2 - 1), cols);
      calc {
        Sum(n2, rows);
        Add(Sum(n2 - 1, rows), rows(n2 - 1));
        Add(Sum(n1, previous), Sum(n1, Row(g, n2 - 1)));
        Sum(n1, cols);
      }
    } else {
      SumZero(n1, cols);
    }
  }

  /** Σ_{i<n} (f(i) − f(i+1)) = f(0) − f(n). */
  lemma {:induction false} SumTelescope(n: nat, f: int -> Complex, d: int -> Complex)
    requires forall i :: 0 <= i < n ==> d(i) == Sub(f(i), f(i + 1))
    ensures Sum(n, d) == Sub(f(0), f(n))
  {
    if n > 0 {
      SumTelescope(n - 1, f, d);
    }
  }

  lemma {:induction false} SumZero(n: nat, f: int -> Complex)
    requires forall i :: 0 <= i < n ==> f(i) == Zero
    ensures Sum(n, f) == Zero
  {
    if n > 0 {
      SumZero(n - 1, f);
    }
  }

  /** A sum whose terms vanish everywhere except at index j equals its j-th term. */
  lemma {:induction false} SumSingle(n: nat, f: int -> Complex, j: int)
    requires 0 <= j < n
    requires forall i :: 0 <= i < n && i != j ==> f(i) == Zero
    ensures Sum(n, f) == f(j)
  {
    if n - 1 == j {
      SumZero(n - 1, f);
    } else {
      SumSingle(n - 1, f, j);
    }
  }

  lemma {:induction false} SumConj(n: nat, f: int -> Complex, g: int -> Complex)
    requires forall i :: 0 <= i < n ==> g(i) == Conj(f(i))
    ensures Sum(n, g) == Conj(Sum(n, f))
  {
    if n > 0 {
      SumConj(n - 1, f, g);
    }
  }
}
