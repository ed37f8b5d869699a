/** The Lehmer generator of include/util/random.h. */
module Randoms {
  import opened Bytes
  import opened Bits

  /** 2^31 - 1. */
  const M: nat := 0x7fff_ffff
  const A: nat := 16807
  /** The inverse of `A` modulo `M`. */
  const A_INVERSE: nat := 1407677000

  /** The generator as its comment states it. */
  function Successor(seed: nat): nat {
    seed * A % M
  }

  /** A seed the generator can be in. */
  predicate IsSeed(seed: nat) {
    0 < seed < M
  }

  lemma RemainderUnique(x: nat, q: int, r: nat)
    requires x == q * M + r && r < M
    ensures x % M == r
  {
  }

  /** Multiplying by the inverse undoes a step. */
  lemma StepUndone(seed: nat)
    requires seed < M
    ensures Successor(seed) * A_INVERSE % M == seed
  {
    var q, x := seed * A / M, seed * A % M;
    assert A * A_INVERSE == 11017 * M + 1;
    assert x * A_INVERSE == (11017 * seed - q * A_INVERSE) * M + seed;
    RemainderUnique(x * A_INVERSE, 11017 * seed - q * A_INVERSE, seed);
  }

  /** No two seeds have the same successor, so the generator permutes 1..M-1. */
  lemma Injective(a: nat, b: nat)
    requires IsSeed(a) && IsSeed(b)
    requires Successor(a) == Successor(b)
    ensures a == b
  {
    StepUndone(a);
    StepUndone(b);
  }

  lemma StaysInRange(seed: nat)
    requires IsSeed(seed)
    ensures IsSeed(Successor(seed))
  {
    StepUndone(seed);
  }

  /** Every seed has a predecessor. */
  lemma Surjective(seed: nat)
    requires IsSeed(seed)
    ensures var p := seed * A_INVERSE % M;
      IsSeed(p) && Successor(p) == seed
  {
    var q, p := seed * A_INVERSE / M, seed * A_INVERSE % M;
    assert A * A_INVERSE == 11017 * M + 1;
    assert p * A == (11017 * seed - q * A) * M + seed;
    RemainderUnique(p * A, 11017 * seed - q * A, seed);
  }

  /** Folding the high bits onto the low ones keeps the remainder, and lands in 1..2M-1 without M. */
  lemma FoldCorrect(product: nat, seed: nat)
    requires IsSeed(seed) && product == seed * A
    ensures var fold := product / (M + 1) + product % (M + 1);
      && fold < TWO_32
      && Successor(seed) == (if fold > M then fold - M else fold)
  {
    var h, l := product / (M + 1), product % (M + 1);
    assert product == h * M + (h + l);
    assert h <= A;
    StaysInRange(seed);
    if h + l > M {
      RemainderUnique(product, h + 1, h + l - M);
    } else if h + l == M {
      RemainderUnique(product, h + 1, 0);
    } else {
      RemainderUnique(product, h, h + l);
    }
  }

  lemma Pow2Width31()
    ensures Pow2(31) == M + 1
  {
    assert Pow2(8) == 0x100;
    assert Pow2(16) == 0x1_0000;
    assert Pow2(24) == 0x100_0000;
  }

  /** x & M */
  function Low31(x: nat): (r: nat)
    ensures r == x % (M + 1)
  {
    Pow2Width31();
    Pow2IsPower(31);
    MaskIsRemainder(x, M + 1);
    BitAnd(x, M)
  }

  /** (product >> 31) + (product & M) */
  function Folded(product: nat): (r: nat)
    ensures r == product / (M + 1) + product % (M + 1)
  {
    Pow2Width31();
    ShiftRightIsQuotient(product, 31);
    ShiftRight(product, 31) + Low31(product)
  }

  class Random {
    var seed: uint32

    ghost predicate Valid()
      reads this
    {
      IsSeed(seed)
    }

    constructor (s: uint32)
      ensures Valid()
      ensures seed == if IsSeed(s % (M + 1)) then s % (M + 1) else 1
    {
      var masked: uint32 := Low31(s);
      seed := if masked == 0 || masked == M then 1 else masked;
    }

    /** The shift-and-mask step. */
    method Next() returns (r: uint32)
      requires Valid()
      modifies this
      ensures Valid()
      ensures r == seed == Successor(old(seed))
    {
      var product := seed * A;
      FoldCorrect(product, seed);
      StaysInRange(seed);
      seed := Folded(product);
      if seed > M {
        seed := seed - M;
      }
      r := seed;
    }

    method OneIn(n: uint32) returns (b: bool)
      requires Valid() && n > 0
      modifies this
      ensures Valid() && seed == Successor(old(seed))
      ensures b <==> seed % n == 0
    {
      var x := Next();
      b := x % n == 0;
    }
  }
}
