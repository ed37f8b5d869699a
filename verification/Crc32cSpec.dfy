/**
 CRC32C (section 12.1 of RFC 3720) as bit-serial division by its reflected
 polynomial, and the linear algebra over GF(2) that the fast algorithm rests on.

 `Xor` names the `^` operator: the verifier treats a named function as congruent,
 which keeps the algebra below away from bit-level reasoning.
 */
module Crc32cSpec {
  import opened Bytes

  function Xor(x: bv32, y: bv32): bv32 {
    x ^ y
  }

  /** Shift one zero bit through the register; 0x82f63b78 is the reflected polynomial. */
  function BitStep(c: bv32): bv32 {
    if c & 1 == 1 then (c >> 1) ^ 0x82f63b78 else c >> 1
  }

  function BitStep2(c: bv32): bv32 {
    BitStep(BitStep(c))
  }

  function BitStep4(c: bv32): bv32 {
    BitStep2(BitStep2(c))
  }

  /** Shift one zero byte through the register. */
  function ZeroByte(c: bv32): bv32 {
    BitStep4(BitStep4(c))
  }

  function Zero2(c: bv32): bv32 {
    ZeroByte(ZeroByte(c))
  }

  function Zero4(c: bv32): bv32 {
    Zero2(Zero2(c))
  }

  function Zero8(c: bv32): bv32 {
    Zero4(Zero4(c))
  }

  function Zero16(c: bv32): bv32 {
    Zero8(Zero8(c))
  }

  function Vector(b: byte): bv8 {
    b as bv8
  }

  function Widen(b: bv8): bv32 {
    b as bv32
  }

  function Word(b: byte): bv32 {
    Widen(Vector(b))
  }

  /** Absorb one byte. */
  function StepByte(l: bv32, b: byte): bv32 {
    ZeroByte(Xor(l, Word(b)))
  }

  /** Absorb a string, one byte at a time. */
  function Run(l: bv32, s: seq<byte>): bv32 {
    if s == [] then l else StepByte(Run(l, s[..|s| - 1]), s[|s| - 1])
  }

  /** The register is complemented before and after. */
  function Complement(c: bv32): bv32 {
    Xor(c, 0xffffffff)
  }

  /** The crc of `A + s`, given the crc of `A`. */
  function Crc(init: bv32, s: seq<byte>): bv32 {
    Complement(Run(Complement(init), s))
  }

  function Value(s: seq<byte>): bv32 {
    Crc(0, s)
  }

  // ----- Exclusive-or

  lemma XorCancel(x: bv32, y: bv32)
    ensures Xor(Xor(x, y), y) == x
    ensures Xor(x, 0) == x && Xor(0, x) == x && Xor(x, x) == 0
  {
    assert (x ^ y) ^ y == x;
  }

  lemma XorCommutes(x: bv32, y: bv32)
    ensures Xor(x, y) == Xor(y, x)
  {
  }

  lemma XorAssociates(x: bv32, y: bv32, z: bv32)
    ensures Xor(Xor(x, y), z) == Xor(x, Xor(y, z))
  {
    assert (x ^ y) ^ z == x ^ (y ^ z);
    assert Xor(Xor(x, y), z) == (x ^ y) ^ z;
    assert Xor(x, Xor(y, z)) == x ^ (y ^ z);
  }

  lemma ComplementTwice(c: bv32)
    ensures Complement(Complement(c)) == c
  {
  }

  lemma {:induction false} RunConcat(l: bv32, s: seq<byte>, t: seq<byte>)
    ensures Run(l, s + t) == Run(Run(l, s), t)
    decreases |t|
  {
    if t == [] {
      assert s + t == s;
    } else {
      var t' := t[..|t| - 1];
      assert (s + t)[..|s + t| - 1] == s + t';
      RunConcat(l, s, t');
    }
  }

  /** What the header promises of Extend: crcs of streams can be computed piecewise. */
  lemma CrcConcat(init: bv32, s: seq<byte>, t: seq<byte>)
    ensures Crc(Crc(init, s), t) == Crc(init, s + t)
  {
    ComplementTwice(Run(Complement(init), s));
    RunConcat(Complement(init), s, t);
  }

  // ----- Linearity

  lemma ShiftXor(x: bv32, y: bv32)
    ensures (x ^ y) >> 1 == (x >> 1) ^ (y >> 1)
  {
  }

  lemma LowBitXor(x: bv32, y: bv32)
    ensures ((x ^ y) & 1 == 1) == ((x & 1 == 1) != (y & 1 == 1))
  {
  }

  function Odd(c: bv32): bool {
    c & 1 == 1
  }

  function Half(c: bv32): bv32 {
    c >> 1
  }

  /** The register after one step, from its two parts. */
  function Feedback(odd: bool, half: bv32): bv32 {
    if odd then Xor(half, 0x82f63b78) else half
  }

  lemma BitStepForm(c: bv32)
    ensures BitStep(c) == Feedback(Odd(c), Half(c))
  {
  }

  lemma HalfOfXor(x: bv32, y: bv32)
    ensures Half(Xor(x, y)) == Xor(Half(x), Half(y))
  {
    assert Xor(x, y) == x ^ y;
    ShiftXor(x, y);
    assert Half(x ^ y) == (x ^ y) >> 1;
  }

  lemma OddOfXor(x: bv32, y: bv32)
    ensures Odd(Xor(x, y)) == (Odd(x) != Odd(y))
  {
    assert Xor(x, y) == x ^ y;
    LowBitXor(x, y);
    assert Odd(x ^ y) == ((x ^ y) & 1 == 1);
  }

  lemma XorTwoMasked(x: bv32, y: bv32, p: bv32)
    ensures Xor(Xor(x, p), Xor(y, p)) == Xor(x, y)
    ensures Xor(Xor(x, p), y) == Xor(Xor(x, y), p)
    ensures Xor(x, Xor(y, p)) == Xor(Xor(x, y), p)
  {
    XorAssociates(x, y, p);
    XorAssociates(x, p, y);
    XorCommutes(y, p);
    XorAssociates(x, p, Xor(p, y));
    XorAssociates(p, p, y);
    XorCancel(p, y);
    XorCancel(y, p);
  }

  lemma FeedbackLinear(ox: bool, x: bv32, oy: bool, y: bv32)
    ensures Feedback(ox != oy, Xor(x, y)) == Xor(Feedback(ox, x), Feedback(oy, y))
  {
    XorTwoMasked(x, y, 0x82f63b78);
  }

  lemma BitStepLinear(x: bv32, y: bv32)
    ensures BitStep(Xor(x, y)) == Xor(BitStep(x), BitStep(y))
  {
    BitStepForm(x);
    BitStepForm(y);
    BitStepForm(Xor(x, y));
    HalfOfXor(x, y);
    OddOfXor(x, y);
    FeedbackLinear(Odd(x), Half(x), Odd(y), Half(y));
  }

  lemma BitStep2Linear(x: bv32, y: bv32)
    ensures BitStep2(Xor(x, y)) == Xor(BitStep2(x), BitStep2(y))
  {
    BitStepLinear(x, y);
    BitStepLinear(BitStep(x), BitStep(y));
  }

  lemma BitStep4Linear(x: bv32, y: bv32)
    ensures BitStep4(Xor(x, y)) == Xor(BitStep4(x), BitStep4(y))
  {
    BitStep2Linear(x, y);
    BitStep2Linear(BitStep2(x), BitStep2(y));
  }

  lemma ZeroByteLinear(x: bv32, y: bv32)
    ensures ZeroByte(Xor(x, y)) == Xor(ZeroByte(x), ZeroByte(y))
  {
    BitStep4Linear(x, y);
    BitStep4Linear(BitStep4(x), BitStep4(y));
  }

  lemma Zero2Linear(x: bv32, y: bv32)
    ensures Zero2(Xor(x, y)) == Xor(Zero2(x), Zero2(y))
  {
    ZeroByteLinear(x, y);
    ZeroByteLinear(ZeroByte(x), ZeroByte(y));
  }

  lemma Zero4Linear(x: bv32, y: bv32)
    ensures Zero4(Xor(x, y)) == Xor(Zero4(x), Zero4(y))
  {
    Zero2Linear(x, y);
    Zero2Linear(Zero2(x), Zero2(y));
  }

  lemma Zero8Linear(x: bv32, y: bv32)
    ensures Zero8(Xor(x, y)) == Xor(Zero8(x), Zero8(y))
  {
    Zero4Linear(x, y);
    Zero4Linear(Zero4(x), Zero4(y));
  }

  lemma Zero16Linear(x: bv32, y: bv32)
    ensures Zero16(Xor(x, y)) == Xor(Zero16(x), Zero16(y))
  {
    Zero8Linear(x, y);
    Zero8Linear(Zero8(x), Zero8(y));
  }

  /** Zero bytes commute with zero bytes. */
  lemma ZeroByteCommutes(x: bv32)
    ensures ZeroByte(Zero16(x)) == Zero16(ZeroByte(x))
  {
    var y := Zero8(x);
    ZeroByteCommutes8(x);
    ZeroByteCommutes8(y);
  }

  lemma ZeroByteCommutes8(x: bv32)
    ensures ZeroByte(Zero8(x)) == Zero8(ZeroByte(x))
  {
    ZeroByteCommutes4(x);
    ZeroByteCommutes4(Zero4(x));
  }

  lemma ZeroByteCommutes4(x: bv32)
    ensures ZeroByte(Zero4(x)) == Zero4(ZeroByte(x))
  {
    assert ZeroByte(Zero2(x)) == Zero2(ZeroByte(x));
    assert ZeroByte(Zero2(Zero2(x))) == Zero2(ZeroByte(Zero2(x)));
  }

  // ----- Absorbing words

  function Shr8(c: bv32): bv32 {
    c >> 8
  }

  function Low8(c: bv32): bv32 {
    c & 0xff
  }

  lemma WordIsLow(b: byte)
    ensures Low8(Word(b)) == Word(b) && Word(b) < 0x100
  {
  }

  lemma ZeroByteShifts(c: bv32)
    requires c & 0xff == 0
    ensures ZeroByte(c) == Shr8(c)
  {
  }

  lemma SplitLow(c: bv32)
    ensures c == Xor(Low8(c), c & 0xffff_ff00)
    ensures Shr8(c & 0xffff_ff00) == Shr8(c)
    ensures (c & 0xffff_ff00) & 0xff == 0
  {
  }

  /** The byte-table step: only the low byte goes through the polynomial. */
  lemma ZeroByteSplit(c: bv32)
    ensures ZeroByte(c) == Xor(ZeroByte(Low8(c)), Shr8(c))
  {
    SplitLow(c);
    ZeroByteLinear(Low8(c), c & 0xffff_ff00);
    ZeroByteShifts(c & 0xffff_ff00);
  }

  /** A little-endian word. */
  function WordLE(s: seq<byte>): bv32
    requires |s| == 4
  {
    Join(Word(s[0]), Word(s[1]), Word(s[2]), Word(s[3]))
  }

  function Join(a: bv32, b: bv32, c: bv32, d: bv32): bv32 {
    a | (b << 8) | (c << 16) | (d << 24)
  }

  /** The bytes of a little-endian word come out lowest first. */
  lemma WordBytes(s: seq<byte>)
    requires |s| == 4
    ensures Low8(WordLE(s)) == Word(s[0])
    ensures Low8(Shr8(WordLE(s))) == Word(s[1])
    ensures Low8(Shr8(Shr8(WordLE(s)))) == Word(s[2])
    ensures Low8(Shr8(Shr8(Shr8(WordLE(s))))) == Word(s[3])
    ensures Shr8(Shr8(Shr8(Shr8(WordLE(s))))) == 0
  {
    WordIsLow(s[0]);
    WordIsLow(s[1]);
    WordIsLow(s[2]);
    WordIsLow(s[3]);
    BytesOfWord(Word(s[0]), Word(s[1]), Word(s[2]), Word(s[3]));
  }

  lemma BytesOfWord(a: bv32, b: bv32, c: bv32, d: bv32)
    requires a < 0x100 && b < 0x100 && c < 0x100 && d < 0x100
    ensures var w := Join(a, b, c, d);
      Low8(w) == a && Low8(Shr8(w)) == b && Low8(Shr8(Shr8(w))) == c &&
      Low8(Shr8(Shr8(Shr8(w)))) == d && Shr8(Shr8(Shr8(Shr8(w)))) == 0
  {
  }

  /** One byte of a word that is exclusive-ored in ahead of time. */
  lemma AbsorbLow(l: bv32, w: bv32)
    ensures ZeroByte(Xor(l, w)) == Xor(ZeroByte(Xor(l, Low8(w))), Shr8(w))
  {
    var high := w & 0xffff_ff00;
    SplitLow(w);
    XorAssociates(l, Low8(w), high);
    ZeroByteLinear(Xor(l, Low8(w)), high);
    ZeroByteShifts(high);
  }

  /** Four bytes at a time: exclusive-or the word in, then shift four zero bytes through. */
  lemma RunWord(l: bv32, s: seq<byte>)
    requires |s| == 4
    ensures Run(l, s) == Zero4(Xor(l, WordLE(s)))
  {
    var w := WordLE(s);
    var l1 := StepByte(l, s[0]);
    var l2 := StepByte(l1, s[1]);
    var l3 := StepByte(l2, s[2]);
    var l4 := StepByte(l3, s[3]);
    WordBytes(s);
    AbsorbLow(l, w);
    AbsorbLow(l1, Shr8(w));
    AbsorbLow(l2, Shr8(Shr8(w)));
    AbsorbLow(l3, Shr8(Shr8(Shr8(w))));
    XorCancel(l4, 0);
    RunFour(l, s);
  }

  lemma RunFour(l: bv32, s: seq<byte>)
    requires |s| == 4
    ensures Run(l, s) == StepByte(StepByte(StepByte(StepByte(l, s[0]), s[1]), s[2]), s[3])
  {
    var s3, s2, s1 := s[..3], s[..2], s[..1];
    assert s3[..2] == s2 && s2[..1] == s1 && s1[..0] == [];
    assert Run(l, s1) == StepByte(l, s[0]);
    assert Run(l, s2) == StepByte(Run(l, s1), s[1]);
    assert Run(l, s3) == StepByte(Run(l, s2), s[2]);
  }

  // ----- Error detection: no burst of up to four bytes goes unnoticed

  lemma BitStepInjective(x: bv32, y: bv32)
    requires BitStep(x) == BitStep(y)
    ensures x == y
  {
  }

  lemma ZeroByteInjective(x: bv32, y: bv32)
    requires ZeroByte(x) == ZeroByte(y)
    ensures x == y
  {
    var x4, y4 := BitStep4(x), BitStep4(y);
    BitStep4Injective(x4, y4);
    BitStep4Injective(x, y);
  }

  lemma BitStep4Injective(x: bv32, y: bv32)
    requires BitStep4(x) == BitStep4(y)
    ensures x == y
  {
    var x1, y1 := BitStep(x), BitStep(y);
    var x2, y2 := BitStep(x1), BitStep(y1);
    var x3, y3 := BitStep(x2), BitStep(y2);
    BitStepInjective(x3, y3);
    BitStepInjective(x2, y2);
    BitStepInjective(x1, y1);
    BitStepInjective(x, y);
  }

  lemma XorInjective(x: bv32, y: bv32, z: bv32)
    requires Xor(x, z) == Xor(y, z)
    ensures x == y
  {
    XorCancel(x, z);
    XorCancel(y, z);
  }

  /** Two registers that differ stay different, whatever is absorbed next. */
  lemma {:induction false} RunInjective(x: bv32, y: bv32, s: seq<byte>)
    requires Run(x, s) == Run(y, s)
    ensures x == y
    decreases |s|
  {
    if s != [] {
      var s', b := s[..|s| - 1], Word(s[|s| - 1]);
      ZeroByteInjective(Xor(Run(x, s'), b), Xor(Run(y, s'), b));
      XorInjective(Run(x, s'), Run(y, s'), b);
      RunInjective(x, y, s');
    }
  }

  predicate BitSet(v: bv8, mask: bv8) {
    v & mask != 0
  }

  predicate IsOdd(n: nat) {
    n % 2 == 1
  }

  lemma BitsOfByte(b: byte)
    ensures var v := Vector(b);
      && BitSet(v, 1) == IsOdd(b) && BitSet(v, 2) == IsOdd(b / 2)
      && BitSet(v, 4) == IsOdd(b / 4) && BitSet(v, 8) == IsOdd(b / 8)
      && BitSet(v, 16) == IsOdd(b / 16) && BitSet(v, 32) == IsOdd(b / 32)
      && BitSet(v, 64) == IsOdd(b / 64) && BitSet(v, 128) == IsOdd(b / 128)
  {
  }

  lemma Halves(b: byte)
    ensures b / 2 / 2 == b / 4 && b / 4 / 2 == b / 8 && b / 8 / 2 == b / 16 && b / 16 / 2 == b / 32
    ensures b / 32 / 2 == b / 64 && b / 64 / 2 == b / 128 && b / 128 / 2 == 0
  {
  }

  lemma SameHalf(a: nat, b: nat)
    requires a / 2 == b / 2 && IsOdd(a) == IsOdd(b)
    ensures a == b
  {
  }

  lemma SameBits(a: byte, b: byte)
    requires IsOdd(a) == IsOdd(b) && IsOdd(a / 2) == IsOdd(b / 2)
    requires IsOdd(a / 4) == IsOdd(b / 4) && IsOdd(a / 8) == IsOdd(b / 8)
    requires IsOdd(a / 16) == IsOdd(b / 16) && IsOdd(a / 32) == IsOdd(b / 32)
    requires IsOdd(a / 64) == IsOdd(b / 64) && IsOdd(a / 128) == IsOdd(b / 128)
    ensures a == b
  {
    Halves(a);
    Halves(b);
    SameHalf(a / 128, b / 128);
    SameHalf(a / 64, b / 64);
    SameHalf(a / 32, b / 32);
    SameHalf(a / 16, b / 16);
    SameHalf(a / 8, b / 8);
    SameHalf(a / 4, b / 4);
    SameHalf(a / 2, b / 2);
    SameHalf(a, b);
  }

  lemma WidenInjective(a: bv8, b: bv8)
    requires Widen(a) == Widen(b)
    ensures a == b
  {
  }

  lemma WordInjective(a: byte, b: byte)
    requires Word(a) == Word(b)
    ensures a == b
  {
    WidenInjective(Vector(a), Vector(b));
    BitsOfByte(a);
    BitsOfByte(b);
    SameBits(a, b);
  }

  lemma WordLEInjective(a: seq<byte>, b: seq<byte>)
    requires |a| == |b| == 4
    requires WordLE(a) == WordLE(b)
    ensures a == b
  {
    WordBytes(a);
    WordBytes(b);
    forall i | 0 <= i < 4
      ensures a[i] == b[i]
    {
      WordInjective(a[i], b[i]);
    }
  }

  lemma Zero4Injective(x: bv32, y: bv32)
    requires Zero4(x) == Zero4(y)
    ensures x == y
  {
    ZeroByteInjective(ZeroByte(Zero2(x)), ZeroByte(Zero2(y)));
    ZeroByteInjective(Zero2(x), Zero2(y));
    ZeroByteInjective(ZeroByte(x), ZeroByte(y));
    ZeroByteInjective(x, y);
  }

  /** From one register, different strings of up to four bytes lead to different registers. */
  lemma ShortRunInjective(l: bv32, a: seq<byte>, b: seq<byte>)
    requires |a| == |b| <= 4
    requires Run(l, a) == Run(l, b)
    ensures a == b
  {
    var zeros := seq(4 - |a|, _ => 0 as byte);
    RunConcat(l, a, zeros);
    RunConcat(l, b, zeros);
    RunWord(l, a + zeros);
    RunWord(l, b + zeros);
    var wa, wb := WordLE(a + zeros), WordLE(b + zeros);
    Zero4Injective(Xor(l, wa), Xor(l, wb));
    XorCommutes(l, wa);
    XorCommutes(l, wb);
    XorInjective(wa, wb, l);
    WordLEInjective(a + zeros, b + zeros);
    assert a == (a + zeros)[..|a|];
    assert b == (b + zeros)[..|b|];
  }

  /** Two strings that differ only inside a window of four bytes have different crcs. */
  lemma BurstDetected(init: bv32, p: seq<byte>, a: seq<byte>, b: seq<byte>, q: seq<byte>)
    requires |a| == |b| <= 4
    requires a != b
    ensures Crc(init, p + a + q) != Crc(init, p + b + q)
  {
    var l := Complement(init);
    if Crc(init, p + a + q) == Crc(init, p + b + q) {
      ComplementTwice(Run(l, p + a + q));
      ComplementTwice(Run(l, p + b + q));
      RunConcat(l, p + a, q);
      RunConcat(l, p + b, q);
      RunInjective(Run(l, p + a), Run(l, p + b), q);
      RunConcat(l, p, a);
      RunConcat(l, p, b);
      ShortRunInjective(Run(l, p), a, b);
    }
  }
}
