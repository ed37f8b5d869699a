/** The log format of include/leveldb/__detail/log_format.h: fragments in blocks of 32 KiB. */
module LogFormat {
  import opened Bytes
  import opened Crc32cSpec
  import Crc32c
  import opened Coding

  const BLOCK_SIZE: nat := 32768
  const HEADER_SIZE: nat := 7

  /** Where a writer or a reader stands in a block. */
  type Offset = o: nat | o <= BLOCK_SIZE

  const ZERO_TYPE: byte := 0
  const FULL_TYPE: byte := 1
  const FIRST_TYPE: byte := 2
  const MIDDLE_TYPE: byte := 3
  const LAST_TYPE: byte := 4
  const MAX_RECORD_TYPE := 4

  /** The masked crc of the type byte and the payload, as stored. */
  function StoredCrc(t: byte, payload: seq<byte>): seq<byte> {
    EncodeFixed32(Crc32c.Mask(Value([t] + payload)))
  }

  /** The last three bytes of a header. */
  function LengthAndType(n: nat, t: byte): (s: seq<byte>)
    requires n <= 0xffff
    ensures |s| == 3
  {
    var low: byte := n % 256;
    var high: byte := n / 256;
    [low, high, t]
  }

  /** A physical record: crc, length, type, payload. */
  function Fragment(t: byte, payload: seq<byte>): (s: seq<byte>)
    requires |payload| <= 0xffff
    ensures |s| == HEADER_SIZE + |payload|
  {
    StoredCrc(t, payload) + LengthAndType(|payload|, t) + payload
  }

  function LengthField(s: seq<byte>): nat
    requires |s| >= HEADER_SIZE
  {
    var low: nat, high: nat := s[4], s[5];
    low + 256 * high
  }

  /** The reader's test of a stored crc against the bytes it covers. */
  predicate ChecksumMatches(stored: seq<byte>, covered: seq<byte>)
    requires |stored| == 4
  {
    Crc32c.Unmask(WordLE(stored)) == Value(covered)
  }

  lemma StoredCrcMatches(t: byte, payload: seq<byte>)
    ensures ChecksumMatches(StoredCrc(t, payload), [t] + payload)
  {
    var c := Value([t] + payload);
    Fixed32RoundTrip(Crc32c.Mask(c));
    Crc32c.MaskRoundTrip(c);
  }

  /** The parts of a fragment, seen at the front of a longer string. */
  lemma FragmentParts(t: byte, payload: seq<byte>, rest: seq<byte>)
    requires |payload| <= 0xffff
    ensures var s := Fragment(t, payload) + rest;
      && LengthField(s) == |payload|
      && s[6] == t
      && s[..4] == StoredCrc(t, payload)
      && s[6..7 + |payload|] == [t] + payload
      && s[7..7 + |payload|] == payload
      && s[7 + |payload|..] == rest
  {
    var c := StoredCrc(t, payload);
    var h := LengthAndType(|payload|, t);
    assert Fragment(t, payload) + rest == c + (h + (payload + rest));
  }
}
