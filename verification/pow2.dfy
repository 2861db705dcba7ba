/** Powers of two and the padded length that `padSignal` computes as
    `Math.pow(2, Math.ceil(Math.log2(n)))` (src/lib/dsp.js:15). */
module PowerOfTwo {

  predicate IsPow2(n: int)
    decreases if n > 0 then n else 0
  {
    n == 1 || (n > 1 && n % 2 == 0 && IsPow2(n / 2))
  }

  lemma DoubleIsPow2(p: int)
    requires IsPow2(p)
    ensures IsPow2(2 * p)
  {
    assert (2 * p) / 2 == p;
  }

  /** Of two distinct powers of two, the larger is at least twice the smaller. */
  lemma {:induction false} Pow2Gap(a: int, b: int)
    requires IsPow2(a) && IsPow2(b) && a < b
    ensures 2 * a <= b
    decreases b
  {
    if a != 1 {
      Pow2Gap(a / 2, b / 2);
    }
  }

  /** Doubles p until it reaches n. */
  function GrowTo(n: nat, p: nat): (r: nat)
    requires IsPow2(p) && 1 <= n && p < 2 * n
    ensures IsPow2(r) && n <= r && r < 2 * n
    decreases n - p
  {
    if p >= n then p
    else
      DoubleIsPow2(p);
      GrowTo(n, 2 * p)
  }

  /** The smallest power of two that is at least n. For n = 0 the source computes
      Math.log2(0) = -Infinity and 2^-Infinity = 0, so the padded length is 0. */
  function NextPow2(n: nat): (r: nat)
    ensures n == 0 ==> r == 0
    ensures n >= 1 ==> IsPow2(r) && n <= r && r < 2 * n
  {
    if n == 0 then 0 else GrowTo(n, 1)
  }

  /** NextPow2(n) is the least power of two that is at least n. */
  lemma NextPow2IsLeast(n: nat, q: int)
    requires n >= 1 && IsPow2(q) && n <= q
    ensures NextPow2(n) <= q
  {
    var r := NextPow2(n);
    if r > q {
      Pow2Gap(q, r);
    }
  }

  /** A length that already is a power of two is its own padded length. */
  lemma NextPow2OfPow2(n: nat)
    requires IsPow2(n)
    ensures NextPow2(n) == n
  {
    NextPow2IsLeast(n, n);
  }

  /** Half of a power of two above 1 is a power of two. */
  lemma HalfIsPow2(n: int)
    requires IsPow2(n) && n > 1
    ensures IsPow2(n / 2) && n % 2 == 0 && 2 * (n / 2) == n
  {
  }
}
