/**
 src/util/coding.cc and include/util/coding.h: varints (unsigned LEB128,
 section 7.6 of DWARF Version 4), length-prefixed slices and fixed-width integers.

 A decoder that can fail returns `None`; otherwise it returns the value and the
 part of the input that it did not consume.
 */
module Coding {
  import opened Bytes
  import opened Bits
  import opened Crc32cSpec

  datatype Option<+T> = None | Some(value: T)

  lemma Pow2Seven(n: nat)
    ensures Pow2(n + 7) == 128 * Pow2(n)
  {
    assert Pow2(n + 7) == 2 * Pow2(n + 6) == 4 * Pow2(n + 5) == 8 * Pow2(n + 4);
    assert Pow2(n + 4) == 2 * Pow2(n + 3) == 4 * Pow2(n + 2) == 8 * Pow2(n + 1);
  }

  lemma Pow2Width32()
    ensures Pow2(32) == TWO_32 && Pow2(35) == 8 * TWO_32
  {
    assert Pow2(7) == 128;
    Pow2Seven(7);
    Pow2Seven(14);
    Pow2Seven(21);
    Pow2Seven(28);
    assert Pow2(35) == 2 * Pow2(34) == 4 * Pow2(33) == 8 * Pow2(32);
  }

  lemma Pow2Width64()
    ensures Pow2(64) == TWO_64 && Pow2(70) == 64 * TWO_64
  {
    Pow2Width32();
    Pow2Seven(35);
    Pow2Seven(42);
    Pow2Seven(49);
    Pow2Seven(56);
    Pow2Seven(63);
    assert Pow2(64) == 2 * Pow2(63);
  }

  // ----- The varint format

  /** Seven bits a byte, lowest first; the top bit says that more follow. */
  function Varint(v: nat): (s: seq<byte>)
    ensures |s| > 0
  {
    if v < 128 then [v] else [v % 128 + 128] + Varint(v / 128)
  }

  /**
   Read a varint of at most `width` bits.  `scale` bits have been read already and
   amount to `result`; bits beyond `width` are shifted out.
   */
  function ReadVarint(s: seq<byte>, shift: nat, result: nat, width: nat): Option<(nat, seq<byte>)>
    decreases |s|
  {
    if s == [] || shift >= width then None
    else
      var sum := result + (s[0] % 128) * Pow2(shift) % Pow2(width);
      if s[0] >= 128 then ReadVarint(s[1..], shift + 7, sum, width) else Some((sum, s[1..]))
  }

  function DecodeVarint(s: seq<byte>, width: nat): Option<(nat, seq<byte>)> {
    ReadVarint(s, 0, 0, width)
  }

  lemma SplitScaled(v: nat, k: nat)
    ensures v * k == (v % 128) * k + (v / 128) * (128 * k)
  {
    calc {
      v * k;
      (v % 128 + 128 * (v / 128)) * k;
      (v % 128) * k + 128 * (v / 128) * k;
      (v % 128) * k + (v / 128) * (128 * k);
    }
  }

  lemma {:induction false} Pow2Monotone(m: nat, n: nat)
    requires m <= n
    ensures Pow2(m) <= Pow2(n)
  {
    if m < n {
      Pow2Monotone(m, n - 1);
    }
  }

  /** One byte of a varint, scaled by what has been read before it. */
  lemma VarintStep(v: nat, k: nat, w: nat)
    requires 0 < k && v * k < w
    ensures (v % 128) * k % w == (v % 128) * k
    ensures v * k == (v % 128) * k + (v / 128) * (128 * k)
    ensures 0 <= (v / 128) * (128 * k) < w
  {
    SplitScaled(v, k);
    ScaledAtLeast(v / 128, 128 * k, 0);
    ScaledAtLeast(v % 128, k, 0);
    SmallMod((v % 128) * k, w);
  }

  lemma SmallMod(x: nat, w: nat)
    requires x < w
    ensures x % w == x
  {
  }

  /** A varint that fits in `width` bits ends before the decoder gives up. */
  lemma ShiftBound(v: nat, shift: nat, width: nat)
    requires 128 <= v && v * Pow2(shift) < Pow2(width)
    ensures shift + 7 < width
  {
    ScaledAtLeast(v, Pow2(shift), 128);
    Pow2Seven(shift);
    if shift + 7 >= width {
      Pow2Monotone(width, shift + 7);
    }
  }

  lemma {:induction false} ReadVarintOfVarint(v: nat, rest: seq<byte>, shift: nat, result: nat, width: nat)
    requires v * Pow2(shift) < Pow2(width) && shift < width
    ensures ReadVarint(Varint(v) + rest, shift, result, width) == Some((result + v * Pow2(shift), rest))
    decreases v
  {
    var s := Varint(v) + rest;
    VarintStep(v, Pow2(shift), Pow2(width));
    if v < 128 {
      assert s[1..] == rest;
    } else {
      assert s[1..] == Varint(v / 128) + rest;
      Pow2Seven(shift);
      ShiftBound(v, shift, width);
      ReadVarintOfVarint(v / 128, rest, shift + 7, result + (v % 128) * Pow2(shift), width);
    }
  }

  /** What was encoded is what is decoded, and nothing more is consumed. */
  lemma VarintRoundTrip(v: nat, rest: seq<byte>, width: nat)
    requires 0 < width && v < Pow2(width)
    ensures DecodeVarint(Varint(v) + rest, width) == Some((v, rest))
  {
    ReadVarintOfVarint(v, rest, 0, 0, width);
  }

  lemma Varint32RoundTrip(v: uint32, rest: seq<byte>)
    ensures DecodeVarint(Varint(v) + rest, 32) == Some((v, rest))
  {
    Pow2Width32();
    VarintRoundTrip(v, rest, 32);
  }

  lemma Varint64RoundTrip(v: uint64, rest: seq<byte>)
    ensures DecodeVarint(Varint(v) + rest, 64) == Some((v, rest))
  {
    Pow2Width64();
    VarintRoundTrip(v, rest, 64);
  }

  lemma {:induction false} VarintSize(v: nat, n: nat)
    requires 0 < n && v < Pow2(7 * n)
    ensures |Varint(v)| <= n
  {
    if v >= 128 {
      Pow2Seven(7 * (n - 1));
      VarintSize(v / 128, n - 1);
    }
  }

  /** The buffers of put_varint32 and put_varint64 are large enough. */
  lemma VarintFits(v: nat)
    ensures v < TWO_32 ==> |Varint(v)| <= 5
    ensures v < TWO_64 ==> |Varint(v)| <= 10
  {
    Pow2Width32();
    Pow2Width64();
    if v < TWO_32 {
      VarintSize(v, 5);
    }
    if v < TWO_64 {
      VarintSize(v, 10);
    }
  }

  /** A decoder only ever removes a nonempty prefix, and the value fits its width. */
  lemma {:induction false} ReadVarintShrinks(s: seq<byte>, shift: nat, result: nat, width: nat)
    requires result < Pow2(shift) && result < Pow2(width)
    ensures var d := ReadVarint(s, shift, result, width);
      d.Some? ==> d.value.0 < Pow2(width) && exists n :: 0 < n <= |s| && d.value.1 == s[n..]
    decreases |s|
  {
    if s != [] && shift < width {
      AddedBitsFit(s[0] % 128, shift, result, width);
      var sum := result + (s[0] % 128) * Pow2(shift) % Pow2(width);
      if s[0] >= 128 {
        ReadVarintShrinks(s[1..], shift + 7, sum, width);
        var d := ReadVarint(s[1..], shift + 7, sum, width);
        if d.Some? {
          var n :| 0 < n <= |s[1..]| && d.value.1 == s[1..][n..];
          assert s[1..][n..] == s[n + 1..];
        }
      } else {
        assert s[1..] == s[1..];
      }
    }
  }

  /** The seven bits that come in lie above the ones already there. */
  lemma AddedBitsFit(b: nat, shift: nat, result: nat, width: nat)
    requires b < 128 && shift < width
    requires result < Pow2(shift)
    ensures var sum := result + b * Pow2(shift) % Pow2(width);
      sum < Pow2(shift + 7) && sum < Pow2(width)
  {
    Pow2Sum(shift, width - shift);
    Pow2Seven(shift);
    ScaledSumFits(b, Pow2(shift), Pow2(width - shift), result);
  }

  lemma ScaledSumFits(b: nat, k: nat, m: nat, result: nat)
    requires b < 128 && 0 < m && result < k
    ensures 0 < k * m && result + b * k % (k * m) < 128 * k && result + b * k % (k * m) < k * m
  {
    ModScaled(b, k, m);
    BelowMultiple(b % m, k, m, result);
    BelowMultiple(b % m, k, 128, result);
  }

  lemma BelowMultiple(r: nat, k: nat, n: nat, result: nat)
    requires r < n && result < k
    ensures result + r * k < n * k
  {
    Distribute1(r, k);
    ScaledAtLeast(n, k, r + 1);
  }

  lemma Distribute1(x: nat, k: nat)
    ensures (x + 1) * k == x * k + k
  {
  }

  lemma {:induction false} Pow2Sum(m: nat, n: nat)
    ensures Pow2(m + n) == Pow2(m) * Pow2(n)
  {
    if m > 0 {
      Pow2Sum(m - 1, n);
    }
  }

  lemma ModScaled(b: nat, k: nat, m: nat)
    requires 0 < k && 0 < m
    ensures 0 < k * m && b * k % (k * m) == (b % m) * k
  {
    var q, r := b / m, b % m;
    assert b * k == q * (k * m) + r * k by {
      assert b == q * m + r;
    }
    ScaledAtLeast(m, k, r + 1);
    Distribute1(r, k);
    QuotientUnique(b * k, k * m, q, r * k);
  }

  /** In both branches of the decoders' loop the bits that come in are or-ed to those already there. */
  lemma OrAdds(b: nat, shift: nat, result: nat, width: nat)
    requires b < 128 && shift < width && result < Pow2(shift)
    ensures var sum := result + b * Pow2(shift) % Pow2(width);
      && BitOr(result, ShiftLeft(b, shift) % Pow2(width)) == sum
      && sum < Pow2(shift + 7) && sum < Pow2(width)
  {
    AddedBitsFit(b, shift, result, width);
    Pow2Sum(shift, width - shift);
    ModScaled(b, Pow2(shift), Pow2(width - shift));
    ShiftLeftIsProduct(b, shift);
    OrIsSum(result, b % Pow2(width - shift), shift);
  }

  /** byte & 127 and byte & 128 */
  lemma ByteBits(b: byte)
    ensures BitAnd(b, 127) == b % 128
    ensures BitAnd(b, 128) == 0 <==> b < 128
  {
    assert Pow2(7) == 128 && Pow2(8) == 256;
    Pow2IsPower(7);
    MaskIsRemainder(b, 128);
    TopBit(b, 7);
  }

  /** One turn of the decoders' loop. */
  function OredIn(result: nat, b: byte, shift: nat, width: nat): (r: nat)
    requires shift < width && result < Pow2(shift)
    ensures r == result + (b % 128) * Pow2(shift) % Pow2(width)
    ensures r < Pow2(shift + 7)
  {
    ByteBits(b);
    OrAdds(b % 128, shift, result, width);
    BitOr(result, ShiftLeft(if BitAnd(b, 128) != 0 then BitAnd(b, 127) else b, shift) % Pow2(width))
  }

  /** The byte of `v | 128`. */
  function Continued(v: nat): (b: byte)
    ensures b == v % 128 + 128
  {
    OrContinues(v);
    BitOr(v, 128) % 256
  }

  lemma OrContinues(v: nat)
    ensures BitOr(v, 128) % 256 == v % 128 + 128
  {
    assert Pow2(7) == 128 && Pow2(8) == 256;
    OrOneBit(v, 7);
  }

  // ----- Encoders

  /** put_varint32 through the unrolled encode_varint32. */
  method PutVarint32(dst: seq<byte>, value: uint32) returns (r: seq<byte>)
    ensures r == dst + Varint(value)
  {
    var a, b, c, d := ShiftRight(value, 7), ShiftRight(value, 14), ShiftRight(value, 21), ShiftRight(value, 28);
    ShiftedDigits(value, a, b, c, d);
    if value < 0x80 {
      r := dst + [value];
    } else if value < 0x4000 {
      r := dst + [Continued(value), a];
    } else if value < 0x20_0000 {
      r := dst + [Continued(value), Continued(a), b];
    } else if value < 0x1000_0000 {
      r := dst + [Continued(value), Continued(a), Continued(b), c];
    } else {
      r := dst + [Continued(value), Continued(a), Continued(b), Continued(c), d];
    }
  }

  lemma ShiftedDigits(v: uint32, a: nat, b: nat, c: nat, d: nat)
    requires a == ShiftRight(v, 7) && b == ShiftRight(v, 14) && c == ShiftRight(v, 21) && d == ShiftRight(v, 28)
    ensures v < 0x4000 ==> a < 128
    ensures v < 0x20_0000 ==> b < 128
    ensures v < 0x1000_0000 ==> c < 128
    ensures d < 128
    ensures Varint(v) ==
      if v < 0x80 then [v]
      else if v < 0x4000 then [v % 128 + 128, a]
      else if v < 0x20_0000 then [v % 128 + 128, a % 128 + 128, b]
      else if v < 0x1000_0000 then [v % 128 + 128, a % 128 + 128, b % 128 + 128, c]
      else [v % 128 + 128, a % 128 + 128, b % 128 + 128, c % 128 + 128, d]
  {
    VarintShifts(v);
    DivisionChain(v);
    FiveDigits(v, a, b, c, d);
  }

  lemma VarintShifts(v: uint32)
    ensures ShiftRight(v, 7) == v / 0x80 && ShiftRight(v, 14) == v / 0x4000
    ensures ShiftRight(v, 21) == v / 0x20_0000 && ShiftRight(v, 28) == v / 0x1000_0000
  {
    ShiftRightIsQuotient(v, 7);
    ShiftRightIsQuotient(v, 14);
    ShiftRightIsQuotient(v, 21);
    ShiftRightIsQuotient(v, 28);
    Pow2Shifts();
  }

  lemma Pow2Shifts()
    ensures Pow2(7) == 0x80 && Pow2(14) == 0x4000 && Pow2(21) == 0x20_0000 && Pow2(28) == 0x1000_0000
  {
    assert Pow2(7) == 128;
    Pow2Seven(7);
    Pow2Seven(14);
    Pow2Seven(21);
  }

  lemma DivisionChain(v: uint32)
    ensures v / 0x80 / 128 == v / 0x4000 && v / 0x4000 / 128 == v / 0x20_0000
    ensures v / 0x20_0000 / 128 == v / 0x1000_0000 && v / 0x1000_0000 < 128
    ensures v < 0x4000 <==> v / 0x80 < 128
    ensures v < 0x20_0000 <==> v / 0x4000 < 128
    ensures v < 0x1000_0000 <==> v / 0x20_0000 < 128
  {
  }

  lemma FiveDigits(v: nat, a: nat, b: nat, c: nat, d: nat)
    requires a == v / 128 && b == a / 128 && c == b / 128 && d == c / 128 && d < 128
    ensures Varint(v) ==
      if v < 128 then [v]
      else if a < 128 then [v % 128 + 128, a]
      else if b < 128 then [v % 128 + 128, a % 128 + 128, b]
      else if c < 128 then [v % 128 + 128, a % 128 + 128, b % 128 + 128, c]
      else [v % 128 + 128, a % 128 + 128, b % 128 + 128, c % 128 + 128, d]
  {
    assert Varint(d) == [d];
    assert Varint(c) == if c < 128 then [c] else [c % 128 + 128, d];
    assert Varint(b) == if b < 128 then [b] else [b % 128 + 128] + Varint(c);
    assert Varint(a) == if a < 128 then [a] else [a % 128 + 128] + Varint(b);
  }

  /** put_varint64 through the loop of encode_varint64. */
  method PutVarint64(dst: seq<byte>, value: uint64) returns (r: seq<byte>)
    ensures r == dst + Varint(value)
  {
    r := dst;
    var v := value;
    while v >= 128
      invariant 0 <= v
      invariant r + Varint(v) == dst + Varint(value)
    {
      assert r + Varint(v) == r + [v % 128 + 128] + Varint(v / 128);
      ShiftRightIsQuotient(v, 7);
      Pow2Shifts();
      r := r + [Continued(v)];
      v := ShiftRight(v, 7);
    }
    r := r + [v];
  }

  // ----- Decoders

  /** The loop that get_varint32ptr_fallback and get_varint64ptr share, up to the width. */
  method GetVarintLoop(input: seq<byte>, width: nat) returns (r: Option<(nat, seq<byte>)>)
    ensures r == DecodeVarint(input, width)
  {
    var result: nat, shift: nat, p: nat := 0, 0, 0;
    assert input[0..] == input;
    while shift < width && p < |input|
      invariant 0 <= p <= |input|
      invariant result < Pow2(shift)
      invariant ReadVarint(input[p..], shift, result, width) == DecodeVarint(input, width)
    {
      var b := input[p];
      assert input[p..][1..] == input[p + 1..];
      p := p + 1;
      ByteBits(b);
      result := OredIn(result, b, shift, width);
      if BitAnd(b, 128) == 0 {
        return Some((result, input[p..]));
      }
      shift := shift + 7;
    }
    return None;
  }

  /** get_varint32: a one-byte fast path in front of the loop. */
  method GetVarint32(input: seq<byte>) returns (r: Option<(uint32, seq<byte>)>)
    ensures r == DecodeVarint(input, 32)
  {
    DecodedFits(input, 32);
    Pow2Width32();
    if 0 < |input| && input[0] < 128 {
      FastPath(input);
      return Some((input[0], input[1..]));
    }
    var d := GetVarintLoop(input, 32);
    if d.None? {
      return None;
    }
    return Some((d.value.0, d.value.1));
  }

  lemma FastPath(input: seq<byte>)
    requires 0 < |input| && input[0] < 128
    ensures DecodeVarint(input, 32) == Some((input[0] as nat, input[1..]))
  {
    Pow2Width32();
    SmallMod(input[0], Pow2(32));
  }

  method GetVarint64(input: seq<byte>) returns (r: Option<(uint64, seq<byte>)>)
    ensures r == DecodeVarint(input, 64)
  {
    DecodedFits(input, 64);
    Pow2Width64();
    var d := GetVarintLoop(input, 64);
    if d.None? {
      return None;
    }
    return Some((d.value.0, d.value.1));
  }

  lemma DecodedFits(input: seq<byte>, width: nat)
    ensures var d := DecodeVarint(input, width);
      d.Some? ==> d.value.0 < Pow2(width) && |d.value.1| < |input| && exists n :: 0 < n <= |input| && d.value.1 == input[n..]
  {
    ReadVarintShrinks(input, 0, 0, width);
  }

  // ----- Length-prefixed slices

  /** The size goes through a uint32. */
  function LengthPrefixed(s: seq<byte>): seq<byte> {
    Varint(|s| % TWO_32) + s
  }

  function DecodeLengthPrefixed(input: seq<byte>): Option<(seq<byte>, seq<byte>)> {
    match DecodeVarint(input, 32)
    case None => None
    case Some((n, rest)) => if |rest| >= n then Some((rest[..n], rest[n..])) else None
  }

  method PutLengthPrefixedSlice(dst: seq<byte>, value: seq<byte>) returns (r: seq<byte>)
    ensures r == dst + LengthPrefixed(value)
  {
    r := PutVarint32(dst, |value| % TWO_32);
    r := r + value;
  }

  method GetLengthPrefixedSlice(input: seq<byte>) returns (r: Option<(seq<byte>, seq<byte>)>)
    ensures r == DecodeLengthPrefixed(input)
  {
    var d := GetVarint32(input);
    if d.Some? && |d.value.1| >= d.value.0 {
      return Some((d.value.1[..d.value.0], d.value.1[d.value.0..]));
    }
    return None;
  }

  lemma LengthPrefixedRoundTrip(s: seq<byte>, rest: seq<byte>)
    requires |s| < TWO_32
    ensures DecodeLengthPrefixed(LengthPrefixed(s) + rest) == Some((s, rest))
  {
    assert LengthPrefixed(s) + rest == Varint(|s|) + (s + rest);
    Varint32RoundTrip(|s|, s + rest);
    assert (s + rest)[..|s|] == s && (s + rest)[|s|..] == rest;
  }

  lemma DecodeLengthPrefixedShrinks(input: seq<byte>)
    ensures var d := DecodeLengthPrefixed(input);
      d.Some? ==> |d.value.0| < TWO_32 && |d.value.1| < |input|
  {
    DecodedFits(input, 32);
    Pow2Width32();
  }

  // ----- Fixed-width integers, lowest byte first

  function EncodeFixed64(v: uint64): (s: seq<byte>)
    ensures |s| == 8
  {
    LittleEndian(v, 8)
  }

  function DecodeFixed64(s: seq<byte>): nat
    requires |s| == 8
  {
    FromLittleEndian(s)
  }

  function LittleEndian(v: nat, n: nat): (s: seq<byte>)
    ensures |s| == n
  {
    if n == 0 then [] else [v % 256] + LittleEndian(v / 256, n - 1)
  }

  function FromLittleEndian(s: seq<byte>): nat {
    if s == [] then 0 else s[0] + 256 * FromLittleEndian(s[1..])
  }

  function Pow256(n: nat): nat {
    if n == 0 then 1 else 256 * Pow256(n - 1)
  }

  lemma {:induction false} LittleEndianRoundTrip(v: nat, n: nat)
    requires v < Pow256(n)
    ensures FromLittleEndian(LittleEndian(v, n)) == v
  {
    if n > 0 {
      LittleEndianRoundTrip(v / 256, n - 1);
      assert LittleEndian(v, n)[1..] == LittleEndian(v / 256, n - 1);
    }
  }

  lemma Fixed64RoundTrip(v: uint64)
    ensures DecodeFixed64(EncodeFixed64(v)) == v
  {
    assert Pow256(8) == 256 * Pow256(7) == 256 * 256 * Pow256(6);
    assert Pow256(6) == 256 * Pow256(5) == 256 * 256 * Pow256(4);
    assert Pow256(4) == TWO_32;
    LittleEndianRoundTrip(v, 8);
  }

  /** The octets of a word, lowest first. */
  function Octet0(v: bv32): bv8 {
    (v & 0xff) as bv8
  }

  function Octet1(v: bv32): bv8 {
    ((v >> 8) & 0xff) as bv8
  }

  function Octet2(v: bv32): bv8 {
    ((v >> 16) & 0xff) as bv8
  }

  function Octet3(v: bv32): bv8 {
    (v >> 24) as bv8
  }

  function AsByte(b: bv8): byte {
    b as int
  }

  /** encode_fixed32; `WordLE` is decode_fixed32. */
  function EncodeFixed32(v: bv32): (s: seq<byte>)
    ensures |s| == 4
  {
    [AsByte(Octet0(v)), AsByte(Octet1(v)), AsByte(Octet2(v)), AsByte(Octet3(v))]
  }

  lemma AsByteRoundTrip(b: bv8)
    ensures Vector(AsByte(b)) == b
  {
  }

  lemma Fixed32RoundTrip(v: bv32)
    ensures WordLE(EncodeFixed32(v)) == v
  {
    AsByteRoundTrip(Octet0(v));
    AsByteRoundTrip(Octet1(v));
    AsByteRoundTrip(Octet2(v));
    AsByteRoundTrip(Octet3(v));
    JoinOctets(v);
  }

  lemma JoinOctets(v: bv32)
    ensures Join(Widen(Octet0(v)), Widen(Octet1(v)), Widen(Octet2(v)), Widen(Octet3(v))) == v
  {
    JoinBits(v, Widen(Octet0(v)), Widen(Octet1(v)), Widen(Octet2(v)), Widen(Octet3(v)));
  }

  lemma JoinBits(v: bv32, a: bv32, b: bv32, c: bv32, d: bv32)
    requires a == v & 0xff && b == (v >> 8) & 0xff && c == (v >> 16) & 0xff && d == v >> 24
    ensures Join(a, b, c, d) == v
  {
  }
}
