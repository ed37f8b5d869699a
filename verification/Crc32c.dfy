/**
 The table-driven `Extend` of src/util/crc32c.cc, proved equal to the
 byte-at-a-time crc, and the masking of include/util/crc32c.h.
 */
module Crc32c {
  import opened Bytes
  import opened Crc32cSpec
  import opened Crc32cTables

  // ----- The two table steps

  /** One byte through the byte table. */
  function TableStep(l: bv32, b: byte): bv32 {
    Xor(ByteEntry(Xor(Low8(l), Word(b))), Shr8(l))
  }

  function ByteEntry(c: bv32): bv32 {
    ByteExtensionTable((c & 0xff) as bv8)
  }

  function Byte1(c: bv32): bv32 {
    (c >> 8) & 0xff
  }

  function Byte2(c: bv32): bv32 {
    (c >> 16) & 0xff
  }

  function Byte3(c: bv32): bv32 {
    c >> 24
  }

  function StrideEntry0(c: bv32): bv32 {
    StrideExtensionTable0((c & 0xff) as bv8)
  }

  function StrideEntry1(c: bv32): bv32 {
    StrideExtensionTable1((c & 0xff) as bv8)
  }

  function StrideEntry2(c: bv32): bv32 {
    StrideExtensionTable2((c & 0xff) as bv8)
  }

  function StrideEntry3(c: bv32): bv32 {
    StrideExtensionTable3((c & 0xff) as bv8)
  }

  lemma LowIndex(c: bv32)
    requires c < 0x100
    ensures ((c & 0xff) as bv8) as bv32 == c
  {
  }

  lemma ByteEntryCorrect(c: bv32)
    requires c < 0x100
    ensures ByteEntry(c) == ZeroByte(c)
  {
    LowIndex(c);
    ByteExtensionTableCorrect((c & 0xff) as bv8);
  }

  lemma TableStepCorrect(l: bv32, b: byte)
    ensures TableStep(l, b) == StepByte(l, b)
  {
    var w := Word(b);
    WordIsLow(b);
    TableIndex(l, w);
    ByteEntryCorrect(Xor(Low8(l), w));
    ZeroByteSplit(Xor(l, w));
  }

  lemma TableIndex(l: bv32, w: bv32)
    requires w < 0x100
    ensures Xor(Low8(l), w) < 0x100
    ensures Low8(Xor(l, w)) == Xor(Low8(l), w)
    ensures Shr8(Xor(l, w)) == Shr8(l)
  {
    assert Xor(l, w) == l ^ w;
    TableIndexBits(l, w);
    assert Low8(l ^ w) == (l ^ w) & 0xff;
    assert Shr8(l ^ w) == (l ^ w) >> 8;
    assert Xor(l & 0xff, w) == (l & 0xff) ^ w;
  }

  lemma TableIndexBits(l: bv32, w: bv32)
    requires w < 0x100
    ensures (l & 0xff) ^ w < 0x100
    ensures (l ^ w) & 0xff == (l & 0xff) ^ w
    ensures (l ^ w) >> 8 == l >> 8
  {
  }

  /** STEP4: a stride register, pushed past the next sixteen bytes, meets the next word. */
  function StrideStep(c: bv32, w: bv32): bv32 {
    Xor(Xor(Xor(Xor(w, StrideEntry3(Low8(c))), StrideEntry2(Byte1(c))), StrideEntry1(Byte2(c))), StrideEntry0(Byte3(c)))
  }

  lemma StrideEntry3Correct(c: bv32)
    requires c < 0x100
    ensures StrideEntry3(c) == Stride3(c)
  {
    LowIndex(c);
    StrideExtensionTable3Correct((c & 0xff) as bv8);
  }

  lemma StrideEntry2Correct(c: bv32)
    requires c < 0x100
    ensures StrideEntry2(c) == Stride2(c)
  {
    LowIndex(c);
    StrideExtensionTable2Correct((c & 0xff) as bv8);
  }

  lemma StrideEntry1Correct(c: bv32)
    requires c < 0x100
    ensures StrideEntry1(c) == Stride1(c)
  {
    LowIndex(c);
    StrideExtensionTable1Correct((c & 0xff) as bv8);
  }

  lemma StrideEntry0Correct(c: bv32)
    requires c < 0x100
    ensures StrideEntry0(c) == Stride0(c)
  {
    LowIndex(c);
    StrideExtensionTable0Correct((c & 0xff) as bv8);
  }

  lemma StrideStepCorrect(c: bv32, w: bv32)
    ensures StrideStep(c, w) == Xor(w, Zero16(c))
  {
    var b0, b1, b2, b3 := Low8(c), Byte1(c), Byte2(c), Byte3(c);
    BytesAreSmall(c);
    StrideEntry3Correct(b0);
    StrideEntry2Correct(b1);
    StrideEntry1Correct(b2);
    StrideEntry0Correct(b3);
    StrideSum(c);
    XorSum(w, Stride3(b0), Stride2(b1), Stride1(b2), Stride0(b3));
  }

  lemma BytesAreSmall(c: bv32)
    ensures Low8(c) < 0x100 && Byte1(c) < 0x100 && Byte2(c) < 0x100 && Byte3(c) < 0x100
  {
  }

  lemma StrideSum(c: bv32)
    ensures Zero16(c) == Xor(Xor(Xor(Stride3(Low8(c)), Stride2(Byte1(c))), Stride1(Byte2(c))), Stride0(Byte3(c)))
  {
    var s0, s1, s2, s3 := Low8(c), Byte1(c) << 8, Byte2(c) << 16, Byte3(c) << 24;
    WordSplit(c);
    Zero16Linear(s0, s1);
    Zero16Linear(Xor(s0, s1), s2);
    Zero16Linear(Xor(Xor(s0, s1), s2), s3);
  }

  lemma WordSplit(c: bv32)
    ensures c == Xor(Xor(Xor(Low8(c), Byte1(c) << 8), Byte2(c) << 16), Byte3(c) << 24)
  {
    assert c == (((c & 0xff) ^ (((c >> 8) & 0xff) << 8)) ^ (((c >> 16) & 0xff) << 16)) ^ ((c >> 24) << 24);
  }

  lemma XorSum(w: bv32, a: bv32, b: bv32, c: bv32, d: bv32)
    ensures Xor(Xor(Xor(Xor(w, a), b), c), d) == Xor(w, Xor(Xor(Xor(a, b), c), d))
  {
    XorAssociates(w, Xor(Xor(a, b), c), d);
    XorAssociates(w, Xor(a, b), c);
    XorAssociates(w, a, b);
  }

  // ----- Four registers that stand for one

  /** STEP4W, four times: the register that four strided ones stand for. */
  function Combine(c0: bv32, c1: bv32, c2: bv32, c3: bv32): bv32 {
    Zero4(Xor(c3, Zero4(Xor(c2, Zero4(Xor(c1, Zero4(c0)))))))
  }

  lemma CombineWord(c: bv32, l: bv32, s: seq<byte>)
    requires |s| == 4 && c == WordLE(s)
    ensures Zero4(Xor(c, l)) == Run(l, s)
  {
    RunWord(l, s);
    XorCommutes(l, c);
  }

  /** Loading sixteen bytes into the four registers. */
  lemma CombineLoad(l: bv32, s: seq<byte>)
    requires |s| == 16
    ensures Combine(Xor(WordLE(s[..4]), l), WordLE(s[4..8]), WordLE(s[8..12]), WordLE(s[12..])) == Run(l, s)
  {
    var l1 := Run(l, s[..4]);
    var l2 := Run(l1, s[4..8]);
    var l3 := Run(l2, s[8..12]);
    CombineWord(WordLE(s[..4]), l, s[..4]);
    CombineWord(WordLE(s[4..8]), l1, s[4..8]);
    CombineWord(WordLE(s[8..12]), l2, s[8..12]);
    CombineWord(WordLE(s[12..]), l3, s[12..]);
    RunSixteen(l, s);
  }

  lemma RunSixteen(l: bv32, s: seq<byte>)
    requires |s| == 16
    ensures Run(l, s) == Run(Run(Run(Run(l, s[..4]), s[4..8]), s[8..12]), s[12..])
  {
    RunConcat(l, s[..4], s[4..8]);
    RunConcat(l, s[..4] + s[4..8], s[8..12]);
    RunConcat(l, s[..4] + s[4..8] + s[8..12], s[12..]);
    assert s == s[..4] + s[4..8] + s[8..12] + s[12..];
  }

  /** The rotating step: advance the first register past sixteen bytes and move it to the back. */
  lemma CombineRotate(c0: bv32, c1: bv32, c2: bv32, c3: bv32, s: seq<byte>)
    requires |s| == 4
    ensures Combine(c1, c2, c3, StrideStep(c0, WordLE(s))) == Run(Combine(c0, c1, c2, c3), s)
  {
    var w := WordLE(s);
    var x1 := Zero4(c0);
    var x2 := Zero4(Xor(c1, x1));
    var x3 := Zero4(Xor(c2, x2));
    var y1 := Zero4(c1);
    var y2 := Zero4(Xor(c2, y1));
    var y3 := Zero4(Xor(c3, y2));
    var z := Zero16(c0);
    StrideStepCorrect(c0, w);
    // y3 is what c1, c2, c3 contribute; c0 contributes z on top of it.
    Zero4Linear(c1, x1);
    PushOut(c2, y1, Zero4(x1));
    PushOut(c3, y2, Zero4(Zero4(x1)));
    assert Combine(c0, c1, c2, c3) == Xor(y3, z);
    XorAssociates(w, z, y3);
    XorCommutes(z, y3);
    CombineWord(w, Xor(y3, z), s);
  }

  /** A term inside a stage comes out of it by linearity. */
  lemma PushOut(c: bv32, y: bv32, x: bv32)
    ensures Zero4(Xor(c, Xor(y, x))) == Xor(Zero4(Xor(c, y)), Zero4(x))
  {
    XorAssociates(c, y, x);
    Zero4Linear(Xor(c, y), x);
  }

  // ----- Extend

  /** ReadUint32LE at `data[p..]`. */
  function ReadWord(data: seq<byte>, p: nat): bv32
    requires p + 4 <= |data|
  {
    WordLE(data[p..p + 4])
  }

  lemma RunPrefix(l: bv32, data: seq<byte>, p: nat, n: nat)
    requires p + n <= |data|
    ensures Run(l, data[..p + n]) == Run(Run(l, data[..p]), data[p..p + n])
  {
    assert data[..p + n] == data[..p] + data[p..p + n];
    RunConcat(l, data[..p], data[p..p + n]);
  }

  lemma RunPrefixByte(l: bv32, data: seq<byte>, p: nat)
    requires p < |data|
    ensures Run(l, data[..p + 1]) == StepByte(Run(l, data[..p]), data[p])
  {
    assert data[..p + 1][..p] == data[..p];
  }

  method Step4W(l: bv32, w: bv32) returns (r: bv32)
    ensures r == Zero4(Xor(w, l))
  {
    r := Xor(w, l);
    ghost var w0 := r;
    ghost var images := [w0, ZeroByte(w0), Zero2(w0), ZeroByte(Zero2(w0)), Zero4(w0)];
    for i := 0 to 4
      invariant r == images[i]
    {
      LowIsSmall(r);
      ByteEntryCorrect(Low8(r));
      ZeroByteSplit(r);
      XorCommutes(Shr8(r), ByteEntry(Low8(r)));
      r := Xor(Shr8(r), ByteEntry(Low8(r)));
    }
  }

  lemma LowIsSmall(c: bv32)
    ensures Low8(c) < 0x100
  {
  }

  /** STEP1, on the register of the first `p` bytes. */
  method Step1(l: bv32, data: seq<byte>, p: nat, ghost l0: bv32) returns (r: bv32)
    requires p < |data|
    requires l == Run(l0, data[..p])
    ensures r == Run(l0, data[..p + 1])
  {
    RunPrefixByte(l0, data, p);
    TableStepCorrect(l, data[p]);
    r := TableStep(l, data[p]);
  }

  /** STEP1 from `start` up to `end`. */
  method StepBytes(l: bv32, data: seq<byte>, start: nat, end: nat, ghost l0: bv32) returns (r: bv32)
    requires start <= end <= |data|
    requires l == Run(l0, data[..start])
    ensures r == Run(l0, data[..end])
  {
    r := l;
    var p := start;
    while p != end
      invariant p <= end
      invariant r == Run(l0, data[..p])
    {
      r := Step1(r, data, p, l0);
      p := p + 1;
    }
  }

  /** The four registers stand for the first `p` bytes. */
  ghost predicate StandFor(c0: bv32, c1: bv32, c2: bv32, c3: bv32, data: seq<byte>, p: nat, l0: bv32) {
    p <= |data| && Combine(c0, c1, c2, c3) == Run(l0, data[..p])
  }

  /** The first swath, with the register exclusive-ored into its first word. */
  method LoadStrides(l: bv32, data: seq<byte>, p: nat, ghost l0: bv32)
    returns (c0: bv32, c1: bv32, c2: bv32, c3: bv32)
    requires p + 16 <= |data|
    requires l == Run(l0, data[..p])
    ensures StandFor(c0, c1, c2, c3, data, p + 16, l0)
  {
    c0 := Xor(ReadWord(data, p), l);
    c1 := ReadWord(data, p + 4);
    c2 := ReadWord(data, p + 8);
    c3 := ReadWord(data, p + 12);
    Load(l, data, p);
    RunPrefix(l0, data, p, 16);
  }

  /** STEP4 on the register whose turn it is; the caller then rotates. */
  method Step4(c0: bv32, c1: bv32, c2: bv32, c3: bv32, data: seq<byte>, p: nat, ghost l0: bv32) returns (d: bv32)
    requires p + 4 <= |data|
    requires StandFor(c0, c1, c2, c3, data, p, l0)
    ensures StandFor(c1, c2, c3, d, data, p + 4, l0)
  {
    Rotate(c0, c1, c2, c3, l0, data, p);
    d := StrideStep(c0, ReadWord(data, p));
  }

  /** STEP16: one swath of sixteen bytes. */
  method Step16(c0: bv32, c1: bv32, c2: bv32, c3: bv32, data: seq<byte>, p: nat, ghost l0: bv32)
    returns (d0: bv32, d1: bv32, d2: bv32, d3: bv32, q: nat)
    requires p + 16 <= |data|
    requires StandFor(c0, c1, c2, c3, data, p, l0)
    ensures q == p + 16 && StandFor(d0, d1, d2, d3, data, q, l0)
  {
    SwathIsFourRotations(c0, c1, c2, c3, l0, data, p);
    d0 := StrideStep(c0, ReadWord(data, p));
    d1 := StrideStep(c1, ReadWord(data, p + 4));
    d2 := StrideStep(c2, ReadWord(data, p + 8));
    d3 := StrideStep(c3, ReadWord(data, p + 12));
    q := p + 16;
  }

  /** Merge the four partial results. */
  method CombineStrides(c0: bv32, c1: bv32, c2: bv32, c3: bv32, ghost data: seq<byte>, ghost p: nat, ghost l0: bv32)
    returns (r: bv32)
    requires StandFor(c0, c1, c2, c3, data, p, l0)
    ensures p <= |data| && r == Run(l0, data[..p])
  {
    XorCancel(c0, 0);
    r := Step4W(0, c0);
    r := Step4W(r, c1);
    r := Step4W(r, c2);
    r := Step4W(r, c3);
  }

  /** Swaths of sixteen bytes, as long as there are any. */
  method StepSwaths(b0: bv32, b1: bv32, b2: bv32, b3: bv32, data: seq<byte>, start: nat, ghost l0: bv32)
    returns (c0: bv32, c1: bv32, c2: bv32, c3: bv32, p: nat)
    requires StandFor(b0, b1, b2, b3, data, start, l0)
    ensures StandFor(c0, c1, c2, c3, data, p, l0)
  {
    c0, c1, c2, c3, p := b0, b1, b2, b3, start;
    while |data| - p >= 16
      invariant StandFor(c0, c1, c2, c3, data, p, l0)
    {
      c0, c1, c2, c3, p := Step16(c0, c1, c2, c3, data, p, l0);
    }
  }

  /** One word at a time, in rotation, as long as there are any. */
  method StepWords(b0: bv32, b1: bv32, b2: bv32, b3: bv32, data: seq<byte>, start: nat, ghost l0: bv32)
    returns (c0: bv32, c1: bv32, c2: bv32, c3: bv32, p: nat)
    requires StandFor(b0, b1, b2, b3, data, start, l0)
    ensures StandFor(c0, c1, c2, c3, data, p, l0) && |data| < p + 4
  {
    c0, c1, c2, c3, p := b0, b1, b2, b3, start;
    while |data| - p >= 4
      invariant StandFor(c0, c1, c2, c3, data, p, l0)
    {
      c0 := Step4(c0, c1, c2, c3, data, p, l0);
      c0, c1, c2, c3 := c1, c2, c3, c0;
      p := p + 4;
    }
  }

  /** The strided middle part; at most three bytes are left over. */
  method StepStrides(l: bv32, data: seq<byte>, start: nat, ghost l0: bv32) returns (r: bv32, p: nat)
    requires start + 16 <= |data|
    requires l == Run(l0, data[..start])
    ensures p <= |data| < p + 4
    ensures r == Run(l0, data[..p])
  {
    var c0, c1, c2, c3 := LoadStrides(l, data, start, l0);
    p := start + 16;
    c0, c1, c2, c3, p := StepSwaths(c0, c1, c2, c3, data, p, l0);
    c0, c1, c2, c3, p := StepWords(c0, c1, c2, c3, data, p, l0);
    r := CombineStrides(c0, c1, c2, c3, data, p, l0);
  }

  /**
   The crc of `data`, which starts at `address`: single bytes up to a multiple of
   four, then four interleaved registers a swath of sixteen bytes at a time, then
   four bytes at a time in rotation, then the rest byte by byte.
   */
  method Extend(crc: bv32, data: seq<byte>, address: nat) returns (r: bv32)
    ensures r == Crc(crc, data)
  {
    var p := 0;
    ghost var l0 := Complement(crc);
    var l := Complement(crc);
    assert data[..0] == [];
    var x := (address + 3) / 4 * 4 - address;
    if x <= |data| {
      l := StepBytes(l, data, p, x, l0);
      p := x;
    }
    if |data| - p >= 16 {
      l, p := StepStrides(l, data, p, l0);
    }
    l := StepBytes(l, data, p, |data|, l0);
    assert data[..|data|] == data;
    r := Complement(l);
  }

  lemma SliceOfSlice(data: seq<byte>, p: nat, i: nat, j: nat)
    requires i <= j <= 16 && p + 16 <= |data|
    ensures data[p..p + 16][i..j] == data[p + i..p + j]
  {
    var a, b := data[p..p + 16][i..j], data[p + i..p + j];
    forall k | 0 <= k < j - i
      ensures a[k] == b[k]
    {
      assert a[k] == data[p..p + 16][i + k];
    }
  }

  lemma Load(l: bv32, data: seq<byte>, p: nat)
    requires p + 16 <= |data|
    ensures Combine(Xor(ReadWord(data, p), l), ReadWord(data, p + 4), ReadWord(data, p + 8), ReadWord(data, p + 12)) ==
            Run(l, data[p..p + 16])
  {
    var s := data[p..p + 16];
    assert s[..4] == data[p..p + 4];
    SliceOfSlice(data, p, 4, 8);
    SliceOfSlice(data, p, 8, 12);
    SliceOfSlice(data, p, 12, 16);
    assert s[12..] == s[12..16];
    CombineLoad(l, s);
  }

  lemma Rotate(c0: bv32, c1: bv32, c2: bv32, c3: bv32, l0: bv32, data: seq<byte>, p: nat)
    requires p + 4 <= |data|
    requires Combine(c0, c1, c2, c3) == Run(l0, data[..p])
    ensures Combine(c1, c2, c3, StrideStep(c0, ReadWord(data, p))) == Run(l0, data[..p + 4])
  {
    CombineRotate(c0, c1, c2, c3, data[p..p + 4]);
    RunPrefix(l0, data, p, 4);
  }

  /** STEP16 is four rotating steps, which bring every register back to its place. */
  lemma SwathIsFourRotations(c0: bv32, c1: bv32, c2: bv32, c3: bv32, l0: bv32, data: seq<byte>, p: nat)
    requires p + 16 <= |data|
    requires Combine(c0, c1, c2, c3) == Run(l0, data[..p])
    ensures Combine(StrideStep(c0, ReadWord(data, p)), StrideStep(c1, ReadWord(data, p + 4)),
                    StrideStep(c2, ReadWord(data, p + 8)), StrideStep(c3, ReadWord(data, p + 12))) ==
            Run(l0, data[..p + 16])
  {
    var d0 := StrideStep(c0, ReadWord(data, p));
    var d1 := StrideStep(c1, ReadWord(data, p + 4));
    var d2 := StrideStep(c2, ReadWord(data, p + 8));
    Rotate(c0, c1, c2, c3, l0, data, p);
    Rotate(c1, c2, c3, d0, l0, data, p + 4);
    Rotate(c2, c3, d0, d1, l0, data, p + 8);
    Rotate(c3, d0, d1, d2, l0, data, p + 12);
  }

  // ----- Masking

  const MASK_DELTA: bv32 := 0xa282ead8

  function Mask(crc: bv32): bv32 {
    ((crc >> 15) | (crc << 17)) + MASK_DELTA
  }

  function Unmask(masked: bv32): bv32 {
    var rot := masked - MASK_DELTA;
    (rot >> 17) | (rot << 15)
  }

  lemma MaskRoundTrip(crc: bv32)
    ensures Unmask(Mask(crc)) == crc
    ensures Mask(Unmask(crc)) == crc
  {
  }
}
