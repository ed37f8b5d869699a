/**
 What the reader makes of every fragment and of every damaged header, wherever it
 comes: which bytes are delivered, which are dropped, and what is reported.
 */
module LogVerdicts {
  import opened Bytes
  import opened Crc32cSpec
  import Crc32c
  import opened Coding
  import opened LogFormat
  import opened LogReader

  function Reporting(reports: seq<Corruption>, log: Log): Log {
    Log(log.records, reports + log.reports)
  }

  function Delivering(record: seq<byte>, reports: seq<Corruption>, log: Log): Log {
    Log([record] + log.records, reports + log.reports)
  }

  /** All that is read from here on, at the start of a record. */
  function Reading(s: State, checksum: bool): Log {
    ReadAll(s, false, [], checksum)
  }

  /** All that is read from here on, after fragments of a record that amount to `scratch`. */
  function ReadingOn(s: State, scratch: seq<byte>, checksum: bool): Log {
    ReadAll(s, true, scratch, checksum)
  }

  /** The length that a header gives. */
  function HeaderLength(b: seq<byte>): nat
    requires |b| >= 7
  {
    var low: nat, high: nat := b[4], b[5];
    low + 256 * high
  }

  /** The four bytes in front hold the masked checksum of type and payload. */
  predicate Intact(b: seq<byte>)
    requires |b| >= 7 && 7 + HeaderLength(b) <= |b|
  {
    WordLE(b[..4]) == Crc32c.Mask(Value(b[6..7 + HeaderLength(b)]))
  }

  lemma Unmasked(masked: bv32)
    ensures Crc32c.Mask(Crc32c.Unmask(masked)) == masked
  {
  }

  lemma IntactIsMatch(b: seq<byte>)
    requires |b| >= 7 && 7 + HeaderLength(b) <= |b|
    ensures Intact(b) <==> ChecksumMatches(b[..4], b[6..7 + HeaderLength(b)])
  {
    Unmasked(WordLE(b[..4]));
    Crc32c.MaskRoundTrip(Value(b[6..7 + HeaderLength(b)]));
  }

  /** Next is a fragment, intact as far as that is looked at; `next` is the state behind it. */
  predicate Starts(s: State, t: byte, payload: seq<byte>, next: State, checksum: bool) {
    var b := s.buffer;
    && |b| >= 7 && 7 + HeaderLength(b) <= |b|
    && b[6] == t && payload == b[7..7 + HeaderLength(b)]
    && next == s.(buffer := b[7 + HeaderLength(b)..])
    && (checksum ==> Intact(b))
    && (t != 0 || payload != [])
  }

  /** A fragment that was written is one. */
  lemma WrittenStarts(t: byte, payload: seq<byte>, next: State, checksum: bool)
    requires |payload| <= 0xffff && (t != 0 || payload != [])
    ensures Starts(next.(buffer := Fragment(t, payload) + next.buffer), t, payload, next, checksum)
  {
    FragmentParts(t, payload, next.buffer);
    Fixed32RoundTrip(Crc32c.Mask(Value([t] + payload)));
  }

  lemma Parsed(s: State, n: nat, checksum: bool)
    requires |s.buffer| >= 7 && n == LengthField(s.buffer) && 7 + n <= |s.buffer| && (s.buffer[6] != 0 || n != 0)
    requires checksum ==> ChecksumMatches(s.buffer[..4], s.buffer[6..7 + n])
    ensures NextPhysical(s, checksum) == Physical(Widened(s.buffer[6]), s.buffer[7..7 + n], s.(buffer := s.buffer[7 + n..]), [])
  {
  }

  lemma Physically(t: byte, payload: seq<byte>, s: State, next: State, checksum: bool)
    requires Starts(s, t, payload, next, checksum)
    ensures NextPhysical(s, checksum) == Physical(if t < 128 then t else 0xffff_ff00 + t, payload, next, [])
  {
    var n := HeaderLength(s.buffer);
    IntactIsMatch(s.buffer);
    assert payload == [] ==> n == 0;
    Parsed(s, n, checksum);
  }

  lemma ReadContinued(s: State, inFragment: bool, scratch: seq<byte>, checksum: bool,
                      reports: seq<Corruption>, next: State, i: bool, scratch': seq<byte>)
    requires NextRecord(s, inFragment, scratch, checksum) == Prepend(reports, NextRecord(next, i, scratch', checksum))
    ensures ReadAll(s, inFragment, scratch, checksum) == Reporting(reports, ReadAll(next, i, scratch', checksum))
  {
    var r := NextRecord(next, i, scratch', checksum);
    if r.record.Some? {
      ConcatAssociates(reports, r.reports, ReadAll(r.next, false, [], checksum).reports);
    }
  }

  /** A fragment on which the reader goes on. */
  lemma Continued(t: byte, payload: seq<byte>, s: State, next: State, inFragment: bool, scratch: seq<byte>, checksum: bool, step: Step)
    requires Starts(s, t, payload, next, checksum)
    requires step == Dispatch(if t < 128 then t else 0xffff_ff00 + t, payload, inFragment, scratch) && step.Continue?
    ensures ReadAll(s, inFragment, scratch, checksum) == Reporting(step.reports, ReadAll(next, step.inFragment, step.scratch, checksum))
  {
    Physically(t, payload, s, next, checksum);
    assert [] + step.reports == step.reports;
    ReadContinued(s, inFragment, scratch, checksum, step.reports, next, step.inFragment, step.scratch);
  }

  lemma Quietly(log: Log)
    ensures Reporting([], log) == log
  {
  }

  // ----- At the start of a record

  /** A full fragment is delivered. */
  lemma Full(payload: seq<byte>, s: State, next: State, checksum: bool)
    requires Starts(s, 1, payload, next, checksum)
    ensures Reading(s, checksum) == Delivering(payload, [], Reading(next, checksum))
  {
    Physically(1, payload, s, next, checksum);
  }

  /** A first fragment is kept. */
  lemma First(payload: seq<byte>, s: State, next: State, checksum: bool)
    requires Starts(s, 2, payload, next, checksum)
    ensures Reading(s, checksum) == ReadingOn(next, payload, checksum)
  {
    Continued(2, payload, s, next, false, [], checksum, Continue(true, payload, []));
    Quietly(ReadingOn(next, payload, checksum));
  }

  /** A middle or last fragment without a first one is dropped and reported. */
  lemma Orphan(t: byte, payload: seq<byte>, s: State, next: State, checksum: bool)
    requires Starts(s, t, payload, next, checksum) && (t == 3 || t == 4)
    ensures Reading(s, checksum) == Reporting([Corruption(|payload|, MissingStart)], Reading(next, checksum))
  {
    Continued(t, payload, s, next, false, [], checksum, Continue(false, [], [Corruption(|payload|, MissingStart)]));
  }

  /** The type in a report: a signed byte, widened to 32 bits. */
  function Kind(t: byte): uint32 {
    if t < 128 then t else 0xffff_ff00 + t
  }

  /** A type that the writer has no name for: 5 is taken for the end of the file, 6 is passed over, others are reported. */
  lemma Unnamed(t: byte, payload: seq<byte>, s: State, next: State, checksum: bool)
    requires Starts(s, t, payload, next, checksum) && (t == 0 || t > 4)
    ensures Reading(s, checksum) ==
      if t == 5 then Log([], [])
      else if t == 6 then Reading(next, checksum)
      else Reporting([Corruption(|payload|, UnknownType(Kind(t)))], Reading(next, checksum))
  {
    if t == 5 {
      Physically(t, payload, s, next, checksum);
    } else if t == 6 {
      Continued(t, payload, s, next, false, [], checksum, Continue(false, [], []));
      Quietly(Reading(next, checksum));
    } else {
      Continued(t, payload, s, next, false, [], checksum, Continue(false, [], [Corruption(|payload|, UnknownType(Kind(t)))]));
    }
  }

  // ----- Inside a record

  function Lost(scratch: seq<byte>): seq<Corruption> {
    if scratch == [] then [] else [Corruption(|scratch|, PartialRecordWithoutEnd)]
  }

  /** A new record starts inside another one: what there is of that one is reported, unless it is empty. */
  lemma Interrupted(t: byte, payload: seq<byte>, scratch: seq<byte>, s: State, next: State, checksum: bool)
    requires Starts(s, t, payload, next, checksum) && (t == 1 || t == 2)
    ensures ReadingOn(s, scratch, checksum) ==
      if t == 1 then Delivering(payload, Lost(scratch), Reading(next, checksum))
      else Reporting(Lost(scratch), ReadingOn(next, payload, checksum))
  {
    if t == 1 {
      Physically(1, payload, s, next, checksum);
      assert [] + Lost(scratch) == Lost(scratch);
    } else {
      Continued(2, payload, s, next, true, scratch, checksum, Continue(true, payload, Lost(scratch)));
    }
  }

  /** Middle fragments add to a record, and the last one completes it. */
  lemma Gathering(t: byte, payload: seq<byte>, scratch: seq<byte>, s: State, next: State, checksum: bool)
    requires Starts(s, t, payload, next, checksum) && (t == 3 || t == 4)
    ensures ReadingOn(s, scratch, checksum) ==
      if t == 3 then ReadingOn(next, scratch + payload, checksum)
      else Delivering(scratch + payload, [], Reading(next, checksum))
  {
    if t == 3 {
      Continued(3, payload, s, next, true, scratch, checksum, Continue(true, scratch + payload, []));
      Quietly(ReadingOn(next, scratch + payload, checksum));
    } else {
      Physically(4, payload, s, next, checksum);
    }
  }

  /** A type without a name inside a record: 5 ends everything, others end the record with a report. */
  lemma UnnamedInside(t: byte, payload: seq<byte>, scratch: seq<byte>, s: State, next: State, checksum: bool)
    requires Starts(s, t, payload, next, checksum) && (t == 0 || t > 4)
    ensures ReadingOn(s, scratch, checksum) ==
      if t == 5 then Log([], [])
      else if t == 6 then Reporting([Corruption(|scratch|, ErrorInMiddle)], Reading(next, checksum))
      else Reporting([Corruption(|payload| + |scratch|, UnknownType(Kind(t)))], Reading(next, checksum))
  {
    if t == 5 {
      Physically(t, payload, s, next, checksum);
    } else if t == 6 {
      Continued(t, payload, s, next, true, scratch, checksum, Continue(false, [], [Corruption(|scratch|, ErrorInMiddle)]));
    } else {
      Continued(t, payload, s, next, true, scratch, checksum, Continue(false, [], [Corruption(|payload| + |scratch|, UnknownType(Kind(t)))]));
    }
  }

  // ----- Headers that are not those of a fragment

  /** What is wrong with a buffer. */
  predicate TooLong(b: seq<byte>)
    requires |b| >= 7
  {
    7 + HeaderLength(b) > |b|
  }

  predicate NoType(b: seq<byte>)
    requires |b| >= 7
  {
    HeaderLength(b) == 0 && b[6] == 0
  }

  /** The reports on a header that is no good. */
  function Verdict(b: seq<byte>): seq<Corruption>
    requires |b| >= 7
  {
    if TooLong(b) then [Corruption(|b|, BadRecordLength)]
    else if NoType(b) then []
    else [Corruption(|b|, ChecksumMismatch)]
  }

  /** A header that the reader refuses, wherever it comes in a block that is not the last. */
  predicate Refused(b: seq<byte>, checksum: bool)
    requires |b| >= 7
  {
    TooLong(b) || NoType(b) || (checksum && !Intact(b))
  }

  lemma RefusedPhysically(s: State, checksum: bool)
    requires |s.buffer| >= 7 && Refused(s.buffer, checksum) && !(TooLong(s.buffer) && s.eof)
    ensures NextPhysical(s, checksum) == Physical(BAD_RECORD_KIND, [], s.(buffer := []), Verdict(s.buffer))
  {
    if !TooLong(s.buffer) {
      IntactIsMatch(s.buffer);
    }
  }

  /** The rest of the block goes, with one report on it, and one more on the record that it interrupts. */
  lemma BadHeader(s: State, scratch: seq<byte>, checksum: bool)
    requires |s.buffer| >= 7 && Refused(s.buffer, checksum) && !(TooLong(s.buffer) && s.eof)
    ensures Reading(s, checksum) == Reporting(Verdict(s.buffer), Reading(s.(buffer := []), checksum))
    ensures ReadingOn(s, scratch, checksum) ==
            Reporting(Verdict(s.buffer) + [Corruption(|scratch|, ErrorInMiddle)], Reading(s.(buffer := []), checksum))
  {
    RefusedPhysically(s, checksum);
    assert Verdict(s.buffer) + [] == Verdict(s.buffer);
    ReadContinued(s, false, [], checksum, Verdict(s.buffer), s.(buffer := []), false, []);
    ReadContinued(s, true, scratch, checksum, Verdict(s.buffer) + [Corruption(|scratch|, ErrorInMiddle)], s.(buffer := []), false, []);
  }

  lemma NextTheSame(s: State, next: State, inFragment: bool, scratch: seq<byte>, checksum: bool)
    requires NextPhysical(s, checksum) == NextPhysical(next, checksum)
    ensures ReadAll(s, inFragment, scratch, checksum) == ReadAll(next, inFragment, scratch, checksum)
  {
    assert NextRecord(s, inFragment, scratch, checksum) == NextRecord(next, inFragment, scratch, checksum);
  }

  /** In the last block a fragment that is longer than the file ends it without a report, and so does a piece of a header. */
  lemma TornEnd(s: State, scratch: seq<byte>, checksum: bool)
    requires s.eof && (|s.buffer| >= 7 ==> TooLong(s.buffer))
    ensures Reading(s, checksum) == Log([], []) && ReadingOn(s, scratch, checksum) == Log([], [])
  {
    var end := Physical(EOF_KIND, [], s.(buffer := []), []);
    assert NextPhysical(s, checksum) == end;
    assert NextRecord(s, false, [], checksum) == Result(None, end.next, []);
    assert NextRecord(s, true, scratch, checksum) == Result(None, end.next, []);
  }

  /** In any other block less than a header is passed over, and the next 32768 bytes are read. */
  lemma ShortTail(s: State, scratch: seq<byte>, checksum: bool)
    requires !s.eof && |s.buffer| < 7
    ensures var n := if |s.file| < 32768 then |s.file| else 32768;
      var next := State(s.file[..n], s.file[n..], n < 32768);
      Reading(s, checksum) == Reading(next, checksum) && ReadingOn(s, scratch, checksum) == ReadingOn(next, scratch, checksum)
  {
    var n := if |s.file| < 32768 then |s.file| else 32768;
    var next := State(s.file[..n], s.file[n..], n < 32768);
    assert Refill(s) == next;
    NextTheSame(s, next, false, [], checksum);
    NextTheSame(s, next, true, scratch, checksum);
  }

  /** Nothing else comes: where there is room for a header, it is refused or one of a fragment. */
  lemma NothingElse(s: State, checksum: bool)
    requires |s.buffer| >= 7
    ensures Refused(s.buffer, checksum) <==>
            !exists t, payload, next :: Starts(s, t, payload, next, checksum)
  {
    var b := s.buffer;
    if !Refused(b, checksum) {
      var n := HeaderLength(b);
      assert Starts(s, b[6], b[7..7 + n], s.(buffer := b[7 + n..]), checksum);
    }
  }
}
