/**
 The shifts and masks of the C++ code, digit by digit on the binary numbers, and
 the quotients, remainders and sums that stand for them.
 */
module Bits {
  function Pow2(n: nat): nat
    ensures Pow2(n) > 0
  {
    if n == 0 then 1 else 2 * Pow2(n - 1)
  }

  predicate IsPowerOfTwo(n: nat) {
    n == 1 || (n > 0 && n % 2 == 0 && IsPowerOfTwo(n / 2))
  }

  /** a & b */
  function BitAnd(a: nat, b: nat): nat {
    if a == 0 || b == 0 then 0
    else (if a % 2 == 1 && b % 2 == 1 then 1 else 0) + 2 * BitAnd(a / 2, b / 2)
  }

  /** a | b */
  function BitOr(a: nat, b: nat): nat {
    if a == 0 then b
    else if b == 0 then a
    else (if a % 2 == 1 || b % 2 == 1 then 1 else 0) + 2 * BitOr(a / 2, b / 2)
  }

  /** x >> k */
  function ShiftRight(x: nat, k: nat): nat
    decreases k
  {
    if k == 0 then x else ShiftRight(x / 2, k - 1)
  }

  /** x << k, before the bits beyond the width of the type are dropped. */
  function ShiftLeft(x: nat, k: nat): nat
    decreases k
  {
    if k == 0 then x else ShiftLeft(2 * x, k - 1)
  }

  // ----- Shifts

  lemma {:induction false} ShiftRightIsQuotient(x: nat, k: nat)
    ensures ShiftRight(x, k) == x / Pow2(k)
    decreases k
  {
    if k > 0 {
      ShiftRightIsQuotient(x / 2, k - 1);
      QuotientTwice(x, Pow2(k - 1));
    }
  }

  lemma QuotientTwice(x: nat, d: nat)
    requires d > 0
    ensures x / 2 / d == x / (2 * d)
  {
    var q, r := x / 2 / d, x / 2 % d;
    assert x == q * (2 * d) + (2 * r + x % 2);
    QuotientUnique(x, 2 * d, q, 2 * r + x % 2);
  }

  lemma ScaledAtLeast(v: nat, k: nat, n: nat)
    requires n <= v
    ensures n * k <= v * k
  {
  }

  lemma QuotientUnique(x: nat, d: nat, q: nat, r: nat)
    requires x == q * d + r && r < d
    ensures x / d == q && x % d == r
  {
    var q', r' := x / d, x % d;
    assert (q - q') * d == r' - r;
    if q > q' {
      ScaledAtLeast(q - q', d, 1);
    } else if q < q' {
      assert (q' - q) * d == r - r' by {
        assert q * d + r == q' * d + r';
      }
      ScaledAtLeast(q' - q, d, 1);
    }
  }

  lemma {:induction false} ShiftLeftIsProduct(x: nat, k: nat)
    ensures ShiftLeft(x, k) == x * Pow2(k)
    decreases k
  {
    if k > 0 {
      ShiftLeftIsProduct(2 * x, k - 1);
    }
  }

  // ----- Masks

  /** A mask with all bits below a power of two takes the remainder. */
  lemma {:induction false} MaskIsRemainder(x: nat, n: nat)
    requires IsPowerOfTwo(n)
    ensures BitAnd(x, n - 1) == x % n
  {
    if n > 1 {
      assert (n - 1) % 2 == 1 && (n - 1) / 2 == n / 2 - 1;
      MaskIsRemainder(x / 2, n / 2);
      RemainderTwice(x, n / 2);
    }
  }

  lemma RemainderTwice(x: nat, d: nat)
    requires d > 0
    ensures x % (2 * d) == x % 2 + 2 * (x / 2 % d)
  {
    var q, r := x / 2 / d, x / 2 % d;
    assert x == q * (2 * d) + (2 * r + x % 2);
    QuotientUnique(x, 2 * d, q, 2 * r + x % 2);
  }

  lemma {:induction false} Pow2IsPower(k: nat)
    ensures IsPowerOfTwo(Pow2(k))
  {
    if k > 0 {
      Pow2IsPower(k - 1);
    }
  }

  /** The top bit of a number. */
  lemma {:induction false} TopBit(x: nat, k: nat)
    requires x < Pow2(k + 1)
    ensures BitAnd(x, Pow2(k)) == if x < Pow2(k) then 0 else Pow2(k)
    decreases k
  {
    if k > 0 && x > 0 {
      TopBit(x / 2, k - 1);
    }
  }

  // ----- Or

  lemma OrEven(low: nat, y: nat)
    ensures BitOr(low, 2 * y) == low % 2 + 2 * BitOr(low / 2, y)
  {
  }

  lemma ScaledTwice(x: nat, p: nat)
    ensures x * (2 * p) == 2 * (x * p)
  {
  }

  /** Numbers that have no bit in common add up. */
  lemma {:induction false} OrIsSum(low: nat, high: nat, k: nat)
    requires low < Pow2(k)
    ensures BitOr(low, high * Pow2(k)) == low + high * Pow2(k)
    decreases k
  {
    if k > 0 {
      var y := high * Pow2(k - 1);
      ScaledTwice(high, Pow2(k - 1));
      OrEven(low, y);
      OrIsSum(low / 2, high, k - 1);
      assert BitOr(low / 2, y) == low / 2 + y;
    }
  }

  /** One bit set, of the bits up to it. */
  lemma {:induction false} OrOneBit(x: nat, k: nat)
    ensures BitOr(x, Pow2(k)) % Pow2(k + 1) == x % Pow2(k) + Pow2(k)
    decreases k
  {
    if k > 0 {
      OrOneBit(x / 2, k - 1);
      RemainderTwice(x, Pow2(k - 1));
      RemainderTwice(BitOr(x, Pow2(k)), Pow2(k));
    }
  }
}
