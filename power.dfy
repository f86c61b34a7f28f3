/**
 * Integer powers of a real base, as Python's `float ** int` computes them
 * on exact reals: a natural exponent multiplies the base that many times,
 * a negative exponent takes the reciprocal.
 */
module Power {

  /** `b` raised to the natural power `k`. */
  function Pow(b: real, k: nat): (r: real)
    ensures b > 0.0 ==> r > 0.0
    ensures b != 0.0 ==> r != 0.0
  {
    if k == 0 then 1.0 else b * Pow(b, k - 1)
  }

  /** `b` raised to any integer power; a negative power needs a non-zero base. */
  function IntPow(b: real, k: int): (r: real)
    requires k < 0 ==> b != 0.0
    ensures b > 0.0 ==> r > 0.0
    ensures k < 0 ==> r * Pow(b, -k) == 1.0
    ensures k >= 0 ==> r == Pow(b, k)
  {
    if k >= 0 then Pow(b, k) else 1.0 / Pow(b, -k)
  }

  /** One to any natural power is one. */
  lemma {:induction false} PowOfOne(k: nat)
    ensures Pow(1.0, k) == 1.0
  {
    if k > 0 {
      PowOfOne(k - 1);
    }
  }

  /** Proof step for `PowStep`: one more factor of the base. */
  lemma PowSucc(b: real, k: nat)
    ensures Pow(b, k + 1) == b * Pow(b, k)
  {
  }

  /** Proof step for `PowStep`: multiplying a positive number by a factor below one makes it smaller. */
  lemma Shrink(b: real, x: real, y: real)
    requires 0.0 < b < 1.0 && x > 0.0 && y == b * x
    ensures y < x
  {
  }

  /** With a base strictly between zero and one, each further factor makes the power smaller. */
  lemma PowStep(b: real, k: nat)
    requires 0.0 < b < 1.0
    ensures Pow(b, k + 1) < Pow(b, k)
  {
    PowSucc(b, k);
    Shrink(b, Pow(b, k), Pow(b, k + 1));
  }

  /** A base strictly between zero and one gives strictly smaller powers as the exponent grows. */
  lemma {:induction false} PowStrictlyDecreasing(b: real, m: nat, n: nat)
    requires 0.0 < b < 1.0
    requires m < n
    ensures Pow(b, n) < Pow(b, m)
  {
    PowStep(b, n - 1);
    if m < n - 1 {
      PowStrictlyDecreasing(b, m, n - 1);
    }
  }
}
