/**
 What tells this checksum from others of its kind: the value of a known string,
 the residue of a string that carries its own checksum, and that zero bytes in
 front count.
 */
module Crc32cChecks {
  import opened Bytes
  import opened Crc32cSpec
  import opened Coding
  import Crc32c

  const ONES: bv32 := 0xffff_ffff

  lemma OnesByte()
    ensures ZeroByte(ONES) == 0xad82acae
  {
  }

  lemma OnesWord()
    ensures Zero4(ONES) == 0xb798b438
  {
    OnesByte();
    assert ZeroByte(0xad82acae) == 0x0e9e882d;
    assert ZeroByte(0x0e9e882d) == 0x9f9b5c85;
    assert ZeroByte(0x9f9b5c85) == 0xb798b438;
  }

  lemma RunOne(l: bv32, b: byte)
    ensures Run(l, [b]) == StepByte(l, b)
  {
    assert [b][..0] == [];
  }

  /** The register starts as ones and is complemented at the end. */
  lemma ValueIsRun(s: seq<byte>)
    ensures Value(s) == Xor(Run(ONES, s), ONES)
  {
    assert Complement(0) == ONES;
  }

  /** A string followed by its checksum has the same checksum whatever the string, which is why stored ones are masked. */
  lemma Residue(s: seq<byte>)
    ensures Value(s + EncodeFixed32(Value(s))) == 0x48674bc7
  {
    var l, w := Run(ONES, s), EncodeFixed32(Value(s));
    ValueIsRun(s);
    ValueIsRun(s + w);
    RunConcat(ONES, s, w);
    RunWord(l, w);
    Fixed32RoundTrip(Value(s));
    XorCommutes(l, Xor(l, ONES));
    XorCommutes(l, ONES);
    XorCancel(ONES, l);
    OnesWord();
    assert Xor(0xb798b438, ONES) == 0x48674bc7;
  }

  /** A zero byte in front changes the checksum. */
  lemma LeadingZeroCounts(s: seq<byte>)
    ensures Value([0] + s) != Value(s)
  {
    if Value([0] + s) == Value(s) {
      ValueIsRun([0] + s);
      ValueIsRun(s);
      XorInjective(Run(ONES, [0] + s), Run(ONES, s), ONES);
      RunConcat(ONES, [0], s);
      RunInjective(Run(ONES, [0]), ONES, s);
      RunOne(ONES, 0);
      XorCancel(ONES, 0);
      OnesByte();
    }
  }

  /** "Test", "CRCB", "uffe" and "r" */
  const TEST: seq<byte> := [0x54, 0x65, 0x73, 0x74]
  const CRCB: seq<byte> := [0x43, 0x52, 0x43, 0x42]
  const UFFE: seq<byte> := [0x75, 0x66, 0x66, 0x65]
  const R: seq<byte> := [0x72]

  lemma RunTest()
    ensures Run(ONES, TEST) == 0xae7a99b4
  {
    RunFour(ONES, TEST);
    assert StepByte(ONES, 0x54) == 0x3b3de162 && StepByte(0x3b3de162, 0x65) == 0xd4f1590a;
    assert StepByte(0xd4f1590a, 0x73) == 0x09fe7e98 && StepByte(0x09fe7e98, 0x74) == 0xae7a99b4;
  }

  lemma RunCrcb()
    ensures Run(0xae7a99b4, CRCB) == 0x20f1ac0e
  {
    RunFour(0xae7a99b4, CRCB);
    assert StepByte(0xae7a99b4, 0x43) == 0x270a7107 && StepByte(0x270a7107, 0x52) == 0x64f3c4be;
    assert StepByte(0x64f3c4be, 0x43) == 0x4c22d062 && StepByte(0x4c22d062, 0x42) == 0x20f1ac0e;
  }

  lemma RunUffe()
    ensures Run(0x20f1ac0e, UFFE) == 0xf01c4041
  {
    RunFour(0x20f1ac0e, UFFE);
    assert StepByte(0x20f1ac0e, 0x75) == 0xe8310e9a && StepByte(0xe8310e9a, 0x66) == 0xbec591ab;
    assert StepByte(0xbec591ab, 0x66) == 0x7c1baf86 && StepByte(0x7c1baf86, 0x65) == 0xf01c4041;
  }

  lemma RunR()
    ensures Run(0xf01c4041, R) == 0x2343a605
  {
    RunOne(0xf01c4041, 0x72);
  }

  /** The check value that the source itself tests for, that of "TestCRCBuffer". */
  lemma TestBufferValue()
    ensures Value(TEST + CRCB + UFFE + R) == 0xdcbc59fa
  {
    RunConcat(ONES, TEST + CRCB + UFFE, R);
    RunConcat(ONES, TEST + CRCB, UFFE);
    RunConcat(ONES, TEST, CRCB);
    RunTest();
    RunCrcb();
    RunUffe();
    RunR();
    ValueIsRun(TEST + CRCB + UFFE + R);
    assert Xor(0x2343a605, ONES) == 0xdcbc59fa;
  }

  /** Masking in numbers: the lowest fifteen bits go to the top, the others come down, and the constant is added. */
  lemma MaskInNumbers(crc: bv32, high: bv32, low: bv32)
    requires low < 0x8000 && high < 0x2_0000 && crc == high * 0x8000 + low
    ensures Crc32c.Mask(crc) == low * 0x2_0000 + high + 0xa282ead8
  {
  }
}
