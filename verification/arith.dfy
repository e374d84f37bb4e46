/** Powers of two, quotients and remainders. */
module Arith {

  function Pow2(k: nat): (p: nat)
    ensures p > 0
  {
    if k == 0 then 1 else 2 * Pow2(k - 1)
  }

  lemma {:induction false} Pow2Parts(j: nat, k: nat)
    ensures Pow2(j + k) == Pow2(j) * Pow2(k)
  {
    if k > 0 {
      Pow2Parts(j, k - 1);
      Doubled(Pow2(j), Pow2(k - 1));
    }
  }

  lemma Doubled(a: nat, b: nat)
    ensures a * (2 * b) == 2 * (a * b)
  {
  }

  lemma {:induction false} Pow2Monotone(a: nat, b: nat)
    requires a <= b
    ensures Pow2(a) <= Pow2(b)
  {
    if a < b { Pow2Monotone(a, b - 1); }
  }

  lemma {:induction false} Pow2Below(v: nat, s: nat, w: nat)
    requires Pow2(v) <= s < Pow2(w)
    ensures v < w
    decreases v
  {
    if v > 0 && w > 0 { Pow2Below(v - 1, s / 2, w - 1); }
  }

  /** Quotient and remainder are unique. */
  lemma DivUnique(x: int, m: nat, q: int, r: nat)
    requires m > 0 && x == q * m + r && r < m
    ensures x / m == q && x % m == r
  {
    var q2, r2 := x / m, x % m;
    assert x == q2 * m + r2 && 0 <= r2 < m;
    assert (q2 - q) * m == r - r2 && (q - q2) * m == r2 - r;
    if q2 > q { AtLeast(q2 - q, m); }
    if q2 < q { AtLeast(q - q2, m); }
  }

  lemma AtLeast(a: int, m: nat)
    requires a >= 1
    ensures a * m >= m
  {
  }

  lemma MulMonotone(a: int, b: int, n: nat)
    ensures a <= b ==> a * n <= b * n
  {
  }
}
