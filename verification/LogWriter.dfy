/**
 The log writer, src/leveldb/__detail/log_write.cc.

 Line 64 of that file tests `begin` where `end` is meant, so the last fragment of
 a long record is typed Middle.  The model takes the choice as a parameter:
 `intended` is true for the test that is meant and false for the code as written.
 In the same way line 15 leaves the crc seed of the Last type unset unless
 `intended`.
 */
module LogWriter {
  import opened Bytes
  import opened Crc32cSpec
  import Crc32c
  import opened Coding
  import opened LogFormat

  // ----- What the writer appends

  function FragmentType(intended: bool, begin: bool, end: bool): byte {
    if begin && end then FULL_TYPE
    else if begin then FIRST_TYPE
    else if intended && end then LAST_TYPE
    else MIDDLE_TYPE
  }

  /** No header fits in the last six bytes of a block: they are zeros. */
  function Trailer(off: Offset): (s: seq<byte>)
    ensures |s| == if BLOCK_SIZE - off < HEADER_SIZE then BLOCK_SIZE - off else 0
  {
    if BLOCK_SIZE - off < HEADER_SIZE then seq(BLOCK_SIZE - off, _ => 0) else []
  }

  /** Where in a block the next fragment starts. */
  function StartOffset(off: Offset): (o: nat)
    ensures o + HEADER_SIZE <= BLOCK_SIZE
  {
    if BLOCK_SIZE - off < HEADER_SIZE then 0 else off
  }

  /** How many of `left` bytes the next fragment takes. */
  function FragmentLength(off: Offset, left: nat): (n: nat)
    ensures n <= left && StartOffset(off) + HEADER_SIZE + n <= BLOCK_SIZE
    ensures n == left || StartOffset(off) + HEADER_SIZE + n == BLOCK_SIZE
  {
    var avail := BLOCK_SIZE - StartOffset(off) - HEADER_SIZE;
    if left < avail then left else avail
  }

  function NextOffset(off: Offset, left: nat): (o: nat)
    ensures o <= BLOCK_SIZE
  {
    StartOffset(off) + HEADER_SIZE + FragmentLength(off, left)
  }

  /** One round of the loop: a trailer if the block is full, then a fragment. */
  function Chunk(intended: bool, off: Offset, data: seq<byte>, begin: bool): (s: seq<byte>)
    ensures |s| == |Trailer(off)| + HEADER_SIZE + FragmentLength(off, |data|)
  {
    var n := FragmentLength(off, |data|);
    Trailer(off) + Fragment(FragmentType(intended, begin, n == |data|), data[..n])
  }

  /** Everything `add_record` appends for `data`, from block offset `off` on. */
  function Encode(intended: bool, off: Offset, data: seq<byte>, begin: bool): (s: seq<byte>)
    ensures |s| >= HEADER_SIZE
    decreases |data|, if off == BLOCK_SIZE - HEADER_SIZE then 1 else 0
  {
    var n := FragmentLength(off, |data|);
    Chunk(intended, off, data, begin) +
    if n == |data| then [] else Encode(intended, NextOffset(off, |data|), data[n..], false)
  }

  /** The block offset after a record of `left` bytes. */
  function EndOffset(off: Offset, left: nat): (o: nat)
    ensures o <= BLOCK_SIZE
    decreases left, if off == BLOCK_SIZE - HEADER_SIZE then 1 else 0
  {
    var n := FragmentLength(off, left);
    if n == left then NextOffset(off, left) else EndOffset(NextOffset(off, left), left - n)
  }

  /** The whole record goes into one fragment. */
  predicate FitsInOne(off: Offset, left: nat)
  {
    FragmentLength(off, left) == left
  }

  /** A run of records. */
  function EncodeAll(intended: bool, off: Offset, records: seq<seq<byte>>): seq<byte>
    decreases |records|
  {
    if records == [] then []
    else Encode(intended, off, records[0], true) + EncodeAll(intended, EndOffset(off, |records[0]|), records[1..])
  }

  function EndOffsetAll(off: Offset, records: seq<seq<byte>>): (o: nat)
    ensures o <= BLOCK_SIZE
    decreases |records|
  {
    if records == [] then off else EndOffsetAll(EndOffset(off, |records[0]|), records[1..])
  }

  // ----- The writer

  /** The types whose crc seed `init_type_crc` computes. */
  function SeededTypes(intended: bool): byte {
    if intended then MAX_RECORD_TYPE + 1 else MAX_RECORD_TYPE
  }

  ghost predicate Seeded(intended: bool, crcs: seq<bv32>) {
    && |crcs| == MAX_RECORD_TYPE + 1
    && forall t: byte :: t < SeededTypes(intended) ==> crcs[t] == Value([t])
  }

  /** The entries from `SeededTypes` on keep whatever the memory held. */
  method InitTypeCrc(intended: bool) returns (crcs: array<bv32>)
    ensures fresh(crcs) && Seeded(intended, crcs[..])
  {
    crcs := new bv32[MAX_RECORD_TYPE + 1];
    for i: int := 0 to SeededTypes(intended)
      invariant forall t: byte :: t < i ==> crcs[t] == Value([t])
    {
      crcs[i] := Value([i]);
    }
  }

  class Writer {
    const intended: bool
    var dest: seq<byte>
    var blockOffset: nat
    const typeCrc: seq<bv32>

    ghost predicate Valid()
      reads this
    {
      blockOffset <= BLOCK_SIZE && Seeded(intended, typeCrc)
    }

    /** The writer on a file that holds `contents` already; a new file holds nothing. */
    constructor (intended: bool, contents: seq<byte>)
      ensures Valid()
      ensures this.intended == intended && dest == contents && blockOffset == |contents| % BLOCK_SIZE
    {
      this.intended := intended;
      dest := contents;
      blockOffset := |contents| % BLOCK_SIZE;
      var crcs := InitTypeCrc(intended);
      typeCrc := crcs[..];
    }

    method EmitPhysicalRecord(t: byte, payload: seq<byte>)
      requires Valid()
      requires t < SeededTypes(intended)
      requires blockOffset + HEADER_SIZE + |payload| <= BLOCK_SIZE
      modifies this
      ensures Valid()
      ensures dest == old(dest) + Fragment(t, payload)
      ensures blockOffset == old(blockOffset) + HEADER_SIZE + |payload|
    {
      SeededCrc(t, payload, typeCrc[t]);
      var crc := EncodeFixed32(Crc32c.Mask(Crc(typeCrc[t], payload)));
      var buf := crc + LengthAndType(|payload|, t);
      ConcatAssociates(dest, buf, payload);
      dest := dest + buf;
      dest := dest + payload;
      blockOffset := blockOffset + HEADER_SIZE + |payload|;
    }

    /** One round of add_record's loop, on the first bytes of `rest`. */
    method AddFragment(rest: seq<byte>, begin: bool) returns (fragmentLength: nat)
      requires Valid()
      modifies this
      ensures Valid()
      ensures fragmentLength == FragmentLength(old(blockOffset), |rest|)
      ensures dest == old(dest) + Chunk(intended, old(blockOffset), rest, begin)
      ensures blockOffset == NextOffset(old(blockOffset), |rest|)
    {
      var leftOver := BLOCK_SIZE - blockOffset;
      if leftOver < HEADER_SIZE {
        dest := dest + seq(leftOver, _ => 0);
        blockOffset := 0;
      }
      assert dest == old(dest) + Trailer(old(blockOffset));
      var avail := BLOCK_SIZE - blockOffset - HEADER_SIZE;
      fragmentLength := if |rest| < avail then |rest| else avail;
      var end := |rest| == fragmentLength;
      var t: byte;
      if begin && end {
        t := FULL_TYPE;
      } else if begin {
        t := FIRST_TYPE;
      } else if if intended then end else begin {
        t := LAST_TYPE;
      } else {
        t := MIDDLE_TYPE;
      }
      ConcatAssociates(old(dest), Trailer(old(blockOffset)), Fragment(t, rest[..fragmentLength]));
      EmitPhysicalRecord(t, rest[..fragmentLength]);
    }

    method AddRecord(data: seq<byte>)
      requires Valid()
      modifies this
      ensures Valid()
      ensures dest == old(dest) + Encode(intended, old(blockOffset), data, true)
      ensures blockOffset == EndOffset(old(blockOffset), |data|)
    {
      ghost var goal := dest + Encode(intended, blockOffset, data, true);
      ghost var goalOffset := EndOffset(blockOffset, |data|);
      var rest := data;
      var begin, more := true, true;
      while more
        invariant Valid()
        invariant if more then goal == dest + Encode(intended, blockOffset, rest, begin) else goal == dest
        invariant goalOffset == if more then EndOffset(blockOffset, |rest|) else blockOffset
        decreases more, |rest|, if blockOffset == BLOCK_SIZE - HEADER_SIZE then 1 else 0
      {
        ghost var before, off, whole, first := dest, blockOffset, rest, begin;
        var n := AddFragment(rest, begin);
        rest := rest[n..];
        begin := false;
        more := |rest| > 0;
        ConcatAssociates(before, Chunk(intended, off, whole, first), if more then Encode(intended, blockOffset, rest, false) else []);
      }
    }
  }

  /** Extending the seed of the type gives the crc of type and payload together. */
  lemma SeededCrc(t: byte, payload: seq<byte>, seed: bv32)
    requires seed == Value([t])
    ensures EncodeFixed32(Crc32c.Mask(Crc(seed, payload))) == StoredCrc(t, payload)
  {
    CrcConcat(0, [t], payload);
  }
}
