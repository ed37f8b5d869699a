/**
 The formats of coding.cc in numbers: which strings are varints and of which value,
 what a decoder makes of any input, and where each byte of a fixed-width integer is.
 */
module CodingChecks {
  import opened Bytes
  import opened Bits
  import opened Crc32cSpec
  import opened Coding

  // ----- Varints

  /** The first byte that is not continued; the length if there is none. */
  function Ending(s: seq<byte>): (n: nat)
    ensures n <= |s|
    ensures n < |s| ==> s[n] < 128
  {
    if s == [] || s[0] < 128 then 0 else 1 + Ending(s[1..])
  }

  lemma {:induction false} ContinuedBefore(s: seq<byte>, i: nat)
    requires i < Ending(s)
    ensures s[i] >= 128
    decreases i
  {
    if i > 0 {
      ContinuedBefore(s[1..], i - 1);
    }
  }

  /** The digits of a number in base 128, lowest first; the top bit of a byte is not part of its digit. */
  function Digits(s: seq<byte>): nat {
    if s == [] then 0 else s[0] % 128 + 128 * Digits(s[1..])
  }

  /** Bytes that are continued up to the last one, which is not zero unless it is alone. */
  predicate IsVarint(s: seq<byte>) {
    s != [] && Ending(s) == |s| - 1 && (|s| > 1 ==> s[|s| - 1] != 0)
  }

  lemma {:induction false} VarintIsOne(v: nat)
    ensures IsVarint(Varint(v)) && Digits(Varint(v)) == v
    ensures v > 0 ==> Varint(v)[|Varint(v)| - 1] != 0
    decreases v
  {
    if v >= 128 {
      var s, rest := Varint(v), Varint(v / 128);
      VarintIsOne(v / 128);
      assert s[1..] == rest;
      assert s[|s| - 1] == rest[|rest| - 1];
    } else {
      assert Varint(v) == [v];
      assert [v as byte][1..] == [];
    }
  }

  lemma {:induction false} OnlyVarint(s: seq<byte>)
    requires IsVarint(s)
    ensures s == Varint(Digits(s))
    ensures |s| > 1 ==> Digits(s) >= 128
    ensures s[|s| - 1] != 0 ==> Digits(s) > 0
    decreases |s|
  {
    if |s| == 1 {
      assert s[1..] == [];
    } else {
      var rest := s[1..];
      assert s[|s| - 1] == rest[|rest| - 1];
      OnlyVarint(rest);
      assert s == [s[0]] + rest;
    }
  }

  /** The varint of a number is the one string of this form that has the number's digits. */
  lemma VarintFormat(s: seq<byte>, v: nat)
    ensures s == Varint(v) <==> IsVarint(s) && Digits(s) == v
  {
    VarintIsOne(v);
    if IsVarint(s) {
      OnlyVarint(s);
    }
  }

  // ----- Any input

  /** A digit below 128 and a multiple of 128 do not carry into each other, modulo a power of two. */
  lemma NoCarry(d: nat, more: nat, k: nat)
    requires d < 128
    ensures (d + 128 * more) % Pow2(k) == d % Pow2(k) + 128 * more % Pow2(k)
  {
    if k >= 7 {
      Pow2Seven(k - 7);
      NoCarryAbove(d, more, Pow2(k - 7));
    } else {
      NoCarryBelow(d, more, k);
    }
  }

  lemma NoCarryAbove(d: nat, more: nat, m: nat)
    requires d < 128 && m > 0
    ensures (d + 128 * more) % (128 * m) == d + 128 * more % (128 * m)
    ensures d % (128 * m) == d
  {
    ModScaled(more, 128, m);
    var q, r := more / m, more % m;
    Product(more, m, q, r);
    assert d + 128 * more == q * (128 * m) + (d + 128 * r);
    QuotientUnique(d + 128 * more, 128 * m, q, d + 128 * r);
    SmallMod(d, 128 * m);
  }

  lemma Product(more: nat, m: nat, q: nat, r: nat)
    requires m > 0 && q == more / m && r == more % m
    ensures 128 * more == q * (128 * m) + 128 * r
  {
    assert more == q * m + r;
    assert q * (128 * m) == 128 * (q * m);
  }

  lemma NoCarryBelow(d: nat, more: nat, k: nat)
    requires k < 7
    ensures (d + 128 * more) % Pow2(k) == d % Pow2(k) + 128 * more % Pow2(k)
  {
    var m, q := Pow2(k), Pow2(7 - k);
    assert Pow2(7) == 128;
    Pow2Sum(k, 7 - k);
    WholeMultiple(d, more, m, q);
  }

  lemma WholeMultiple(d: nat, more: nat, m: nat, q: nat)
    requires m > 0 && m * q == 128
    ensures (d + 128 * more) % m == d % m + 128 * more % m
  {
    MultiplyThree(m, q, more);
    MultipleAdded(0, q * more, m);
    MultipleAdded(d, q * more, m);
  }

  lemma MultiplyThree(m: nat, q: nat, more: nat)
    ensures m * q * more == q * more * m
  {
  }

  lemma MultipleAdded(d: nat, n: nat, m: nat)
    requires m > 0
    ensures (d + n * m) % m == d % m
  {
    Distribute(d / m, n, m);
    QuotientUnique(d + n * m, m, d / m + n, d % m);
  }

  /** The same, scaled by what has been read before. */
  lemma DigitsScaled(d: nat, more: nat, shift: nat, width: nat)
    requires d < 128 && shift < width
    ensures d * Pow2(shift) % Pow2(width) + more * Pow2(shift + 7) % Pow2(width) == (d + 128 * more) * Pow2(shift) % Pow2(width)
  {
    var p, m := Pow2(shift), Pow2(width - shift);
    Pow2Sum(shift, width - shift);
    Pow2Seven(shift);
    ModScaled(d, p, m);
    ModScaled(128 * more, p, m);
    ModScaled(d + 128 * more, p, m);
    NoCarry(d, more, width - shift);
    Regroup(more, p);
    Distribute(d % m, 128 * more % m, p);
  }

  lemma Regroup(more: nat, p: nat)
    ensures more * (128 * p) == 128 * more * p
  {
  }

  lemma Distribute(a: nat, b: nat, p: nat)
    ensures (a + b) * p == a * p + b * p
  {
  }

  /** What reading a varint gives. */
  function Parsed(s: seq<byte>, shift: nat, result: nat, width: nat): Option<(nat, seq<byte>)> {
    var n := Ending(s);
    if n < |s| && shift + 7 * n < width then Some((result + Digits(s[..n + 1]) * Pow2(shift) % Pow2(width), s[n + 1..])) else None
  }

  lemma ParsedMore(s: seq<byte>, shift: nat, result: nat, width: nat, result': nat)
    requires s != [] && s[0] >= 128 && shift < width
    requires result' == result + (s[0] % 128) * Pow2(shift) % Pow2(width)
    ensures Parsed(s, shift, result, width) == Parsed(s[1..], shift + 7, result', width)
  {
    var n := Ending(s[1..]);
    if n < |s[1..]| {
      var front := s[1..][..n + 1];
      assert s[..n + 2][1..] == front;
      assert s[n + 2..] == s[1..][n + 1..];
      DigitsScaled(s[0] % 128, Digits(front), shift, width);
    }
  }

  lemma ParsedEnds(s: seq<byte>, shift: nat, result: nat, width: nat)
    requires s != [] && s[0] < 128 && shift < width
    ensures Parsed(s, shift, result, width) == Some((result + (s[0] % 128) * Pow2(shift) % Pow2(width), s[1..]))
  {
    assert s[..1][1..] == [];
    assert Digits(s[..1]) == s[0] % 128;
  }

  lemma {:induction false} ReadIsParsed(s: seq<byte>, shift: nat, result: nat, width: nat)
    ensures ReadVarint(s, shift, result, width) == Parsed(s, shift, result, width)
    decreases |s|
  {
    if s != [] && shift < width {
      if s[0] >= 128 {
        var result' := result + (s[0] % 128) * Pow2(shift) % Pow2(width);
        ParsedMore(s, shift, result, width, result');
        ReadIsParsed(s[1..], shift + 7, result', width);
      } else {
        ParsedEnds(s, shift, result, width);
      }
    }
  }

  /**
   Any input decodes exactly if a byte that is not continued comes among those that
   the width has room for; then the value is that of the digits, as far as they go
   into the width, and the bytes behind are left.
   */
  lemma DecodedIs(s: seq<byte>, width: nat)
    ensures var n := Ending(s);
      DecodeVarint(s, width) ==
      if n < |s| && 7 * n < width then Some((Digits(s[..n + 1]) % Pow2(width), s[n + 1..])) else None
  {
    ReadIsParsed(s, 0, 0, width);
    assert Pow2(0) == 1;
  }

  // ----- Fixed-width integers

  /** Byte `i` is the one that stands for 256 to the power of `i`. */
  lemma {:induction false} LittleEndianAt(v: nat, n: nat, i: nat)
    requires i < n
    ensures Pow256(i) > 0 && LittleEndian(v, n)[i] == v / Pow256(i) % 256
    decreases i
  {
    if i > 0 {
      LittleEndianAt(v / 256, n - 1, i - 1);
      DivideTwice(v, Pow256(i - 1));
    }
  }

  lemma DivideTwice(v: nat, p: nat)
    requires p > 0
    ensures v / 256 / p == v / (256 * p)
  {
    var q, r := v / 256, v % 256;
    var a, b := q / p, q % p;
    assert q == a * p + b;
    assert v == a * (256 * p) + (256 * b + r);
    QuotientUnique(v, 256 * p, a, 256 * b + r);
  }

  lemma Powers()
    ensures Pow256(0) == 1 && Pow256(1) == 0x100 && Pow256(2) == 0x1_0000 && Pow256(3) == 0x100_0000
    ensures Pow256(4) == 0x1_0000_0000 && Pow256(5) == 0x100_0000_0000 && Pow256(6) == 0x1_0000_0000_0000
    ensures Pow256(7) == 0x100_0000_0000_0000
  {
    assert Pow256(4) == 256 * Pow256(3);
    assert Pow256(7) == 256 * Pow256(6) == 256 * 256 * Pow256(5);
  }

  /** Each of the eight bytes of a number, lowest first. */
  lemma Fixed64Byte(v: uint64, i: nat)
    requires i < 8
    ensures Pow256(i) > 0 && EncodeFixed64(v)[i] == v / Pow256(i) % 0x100
  {
    LittleEndianAt(v, 8, i);
  }

  lemma OctetsOf(a: bv8, b: bv8, c: bv8, d: bv8, v: bv32)
    requires v == Widen(a) + Widen(b) * 0x100 + Widen(c) * 0x1_0000 + Widen(d) * 0x100_0000
    ensures Octet0(v) == a && Octet1(v) == b && Octet2(v) == c && Octet3(v) == d
  {
  }

  /** And four. */
  lemma Fixed32Bytes(a: bv8, b: bv8, c: bv8, d: bv8)
    ensures EncodeFixed32(Widen(a) + Widen(b) * 0x100 + Widen(c) * 0x1_0000 + Widen(d) * 0x100_0000) == [a as byte, b as byte, c as byte, d as byte]
  {
    OctetsOf(a, b, c, d, Widen(a) + Widen(b) * 0x100 + Widen(c) * 0x1_0000 + Widen(d) * 0x100_0000);
  }
}
