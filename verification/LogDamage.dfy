/**
 Damage inside a log of either writer: up to four consecutive bytes of the type
 and payload of one fragment are overwritten.  The checksum notices, the reader
 drops the rest of that block and picks up again at the first record that starts
 in a later one.
 */
module LogDamage {
  import opened Bytes
  import opened Crc32cSpec
  import Crc32c
  import opened Coding
  import opened LogFormat
  import opened LogWriter
  import opened LogReader
  import opened LogRoundTrip

  /** The checksum of `body` in place of `[t] + payload`: the stored one is still that of the original. */
  ghost predicate Burst(original: seq<byte>, body: seq<byte>) {
    exists p, a, b, q :: IsBurst(original, body, p, a, b, q)
  }

  ghost predicate IsBurst(original: seq<byte>, body: seq<byte>, p: seq<byte>, a: seq<byte>, b: seq<byte>, q: seq<byte>) {
    && original == p + a + q
    && body == p + b + q
    && |a| == |b| <= 4
    && a != b
  }

  lemma BurstMismatch(t: byte, payload: seq<byte>, body: seq<byte>)
    requires Burst([t] + payload, body)
    ensures |body| == 1 + |payload|
    ensures !ChecksumMatches(StoredCrc(t, payload), body)
  {
    var p, a, b, q :| IsBurst([t] + payload, body, p, a, b, q);
    BurstDetected(0, p, a, b, q);
    StoredCrcMatches(t, payload);
  }

  // ----- One damaged fragment

  /** The crc and length of the original, the type and payload of `body`. */
  function DamagedFragment(t: byte, payload: seq<byte>, body: seq<byte>): (s: seq<byte>)
    requires |payload| <= 0xffff && |body| == 1 + |payload|
    ensures |s| == HEADER_SIZE + |payload|
  {
    Fragment(t, payload)[..6] + body
  }

  lemma DamagedParts(t: byte, payload: seq<byte>, body: seq<byte>, r: seq<byte>)
    requires |payload| <= 0xffff && |body| == 1 + |payload|
    ensures var s := DamagedFragment(t, payload, body) + r;
      && LengthField(s) == |payload|
      && s[..4] == StoredCrc(t, payload)
      && s[6..7 + |payload|] == body
  {
    FragmentParts(t, payload, []);
    var f := Fragment(t, payload);
    assert f + [] == f;
    var s := f[..6] + body + r;
    assert s[4] == f[4] && s[5] == f[5];
    assert s[..4] == f[..4];
  }

  /** What the reader has left after it drops the rest of its block. */
  function Skipped(r: seq<byte>, off: Offset): seq<byte>
  {
    r[BufferLength(r, off)..]
  }

  lemma DamagedPhysical(t: byte, payload: seq<byte>, body: seq<byte>, r: seq<byte>, off: Offset)
    requires off + HEADER_SIZE + |payload| <= BLOCK_SIZE
    requires |body| == 1 + |payload|
    requires !ChecksumMatches(StoredCrc(t, payload), body)
    ensures var s := At(DamagedFragment(t, payload, body) + r, off);
      var p := NextPhysical(s, true);
      p.kind == BAD_RECORD_KIND && p.next == s.(buffer := [])
  {
    var f := DamagedFragment(t, payload, body);
    BufferOfFragment(f, r, off);
    DamagedParts(t, payload, body, r[..BufferLength(r, off + |f|)]);
  }

  /** A dropped block reads on like the start of the next one. */
  lemma DroppedIsNextBlock(r: seq<byte>, off: Offset, checksum: bool)
    ensures NextPhysical(At(r, off).(buffer := []), checksum) == NextPhysical(At(Skipped(r, off), 0), checksum)
  {
    var s := At(r, off).(buffer := []);
    if s.eof {
      assert Skipped(r, off) == [];
    } else {
      assert Refill(s) == At(Skipped(r, off), 0);
    }
  }

  lemma SameNextRecord(s: State, t: State, inFragment: bool, scratch: seq<byte>, checksum: bool)
    requires NextPhysical(s, checksum) == NextPhysical(t, checksum)
    ensures NextRecord(s, inFragment, scratch, checksum) == NextRecord(t, inFragment, scratch, checksum)
  {
  }

  lemma SameReadAll(s: State, t: State, i: bool, x: seq<byte>, j: bool, y: seq<byte>, checksum: bool)
    requires NextRecord(s, i, x, checksum).record == NextRecord(t, j, y, checksum).record
    requires NextRecord(s, i, x, checksum).next == NextRecord(t, j, y, checksum).next
    ensures ReadAll(s, i, x, checksum).records == ReadAll(t, j, y, checksum).records
  {
  }

  lemma BadStep(s: State, inFragment: bool, scratch: seq<byte>, checksum: bool)
    requires NextPhysical(s, checksum).kind == BAD_RECORD_KIND
    requires !inFragment ==> scratch == []
    ensures var r := NextRecord(NextPhysical(s, checksum).next, false, [], checksum);
      NextRecord(s, inFragment, scratch, checksum).record == r.record && NextRecord(s, inFragment, scratch, checksum).next == r.next
  {
  }

  /** A damaged fragment ends the record it belongs to; the reader goes on with the next block. */
  lemma ReadDamaged(t: byte, payload: seq<byte>, body: seq<byte>, r: seq<byte>, off: Offset, inFragment: bool, scratch: seq<byte>)
    requires off + HEADER_SIZE + |payload| <= BLOCK_SIZE
    requires |body| == 1 + |payload|
    requires !ChecksumMatches(StoredCrc(t, payload), body)
    requires !inFragment ==> scratch == []
    ensures var s := DamagedFragment(t, payload, body) + r;
      ReadAll(At(s, off), inFragment, scratch, true).records == ReadAll(At(Skipped(s, off), 0), false, [], true).records
  {
    var s := DamagedFragment(t, payload, body) + r;
    DamagedPhysical(t, payload, body, r, off);
    BadStep(At(s, off), inFragment, scratch, true);
    DroppedIsNextBlock(s, off, true);
    SameNextRecord(At(s, off).(buffer := []), At(Skipped(s, off), 0), false, [], true);
    SameReadAll(At(s, off), At(Skipped(s, off), 0), inFragment, scratch, false, [], true);
  }

  // ----- The rest of a block

  /** How many of `records` start in the block that `off` is in. */
  function StartedInBlock(off: Offset, records: seq<seq<byte>>): (k: nat)
    ensures k <= |records|
    decreases |records|
  {
    if records == [] || BLOCK_SIZE - off < HEADER_SIZE then 0
    else if FitsInOne(off, |records[0]|) then 1 + StartedInBlock(NextOffset(off, |records[0]|), records[1..])
    else 1
  }

  /** The first record that starts in a later block, as bytes: what remains of the one before it comes first. */
  function FromNextBlock(intended: bool, off: Offset, records: seq<seq<byte>>): seq<byte>
    decreases |records|
  {
    if records == [] then []
    else if BLOCK_SIZE - off < HEADER_SIZE then EncodeAll(intended, BLOCK_SIZE, records)
    else
      var data, next := records[0], NextOffset(off, |records[0]|);
      if FitsInOne(off, |data|) then FromNextBlock(intended, next, records[1..])
      else AfterChunk(intended, off, data) + EncodeAll(intended, EndOffset(off, |data|), records[1..])
  }

  lemma SkippedPast(chunk: seq<byte>, r: seq<byte>, off: nat)
    requires off + |chunk| <= BLOCK_SIZE
    ensures Skipped(chunk + r, off) == Skipped(r, off + |chunk|)
  {
    assert BufferLength(chunk + r, off) == |chunk| + BufferLength(r, off + |chunk|);
  }

  lemma ChunkTrailer(intended: bool, off: Offset, full: nat, data: seq<byte>, begin: bool)
    requires BLOCK_SIZE - off < HEADER_SIZE && full == BLOCK_SIZE
    ensures Chunk(intended, off, data, begin) == Trailer(off) + Chunk(intended, full, data, begin)
  {
    var n := FragmentLength(off, |data|);
    var f := Fragment(FragmentType(intended, begin, n == |data|), data[..n]);
    assert Trailer(full) + f == f;
  }

  lemma TrailerFirst(intended: bool, off: Offset, full: nat, data: seq<byte>, begin: bool)
    requires BLOCK_SIZE - off < HEADER_SIZE && full == BLOCK_SIZE
    ensures Encode(intended, off, data, begin) == Trailer(off) + Encode(intended, full, data, begin)
    ensures EndOffset(off, |data|) == EndOffset(full, |data|)
  {
    ChunkTrailer(intended, off, full, data, begin);
    ConcatAssociates(Trailer(off), Chunk(intended, full, data, begin), AfterChunk(intended, off, data));
  }

  /** What is left of a log when the rest of the current block is dropped. */
  lemma {:induction false} SkippedStream(intended: bool, off: Offset, records: seq<seq<byte>>)
    ensures Skipped(EncodeAll(intended, off, records), off) == FromNextBlock(intended, off, records)
    decreases |records|
  {
    if records != [] {
      var data, end := records[0], EndOffset(off, |records[0]|);
      var rest := EncodeAll(intended, end, records[1..]);
      if BLOCK_SIZE - off < HEADER_SIZE {
        TrailerFirst(intended, off, BLOCK_SIZE, data, true);
        ConcatAssociates(Trailer(off), Encode(intended, BLOCK_SIZE, data, true), rest);
        SkippedPast(Trailer(off), EncodeAll(intended, BLOCK_SIZE, records), off);
      } else {
        var chunk, after := Chunk(intended, off, data, true), AfterChunk(intended, off, data);
        ConcatAssociates(chunk, after, rest);
        SkippedPast(chunk, after + rest, off);
        if FitsInOne(off, |data|) {
          assert [] + rest == rest;
          SkippedStream(intended, end, records[1..]);
        }
      }
    }
  }

  // ----- Fragments whose record has lost its beginning

  lemma OrphanChunk(intended: bool, off: Offset, data: seq<byte>, r: seq<byte>, checksum: bool)
    ensures var n := FragmentLength(off, |data|);
      NextRecord(At(Chunk(intended, off, data, false) + r, off), false, [], checksum) ==
      Prepend([Corruption(n, MissingStart)], NextRecord(At(r, NextOffset(off, |data|)), false, [], checksum))
  {
    ChunkStep(intended, off, data, false, r, false, [], checksum);
  }

  /** They are reported and passed over. */
  lemma {:induction false} ReadOrphans(intended: bool, off: Offset, data: seq<byte>, r: seq<byte>, checksum: bool)
    ensures ReadAll(At(Encode(intended, off, data, false) + r, off), false, [], checksum).records ==
            ReadAll(At(r, EndOffset(off, |data|)), false, [], checksum).records
    decreases |data|, if off == BLOCK_SIZE - HEADER_SIZE then 1 else 0
  {
    var n, next := FragmentLength(off, |data|), NextOffset(off, |data|);
    var chunk, after := Chunk(intended, off, data, false), AfterChunk(intended, off, data);
    ConcatAssociates(chunk, after, r);
    OrphanChunk(intended, off, data, after + r, checksum);
    ReadAllPrepend([Corruption(n, MissingStart)], At(chunk + (after + r), off), At(after + r, next), false, [], false, [], checksum);
    if n == |data| {
      assert [] + r == r;
    } else {
      ReadOrphans(intended, next, data[n..], r, checksum);
    }
  }

  /** An interrupted record, then whole ones. */
  lemma ReadAfterOrphans(intended: bool, data: seq<byte>, records: seq<seq<byte>>, checksum: bool)
    ensures ReadAll(At(Encode(intended, BLOCK_SIZE, data, false) + EncodeAll(intended, EndOffset(BLOCK_SIZE, |data|), records), 0),
                    false, [], checksum).records == Delivered(intended, EndOffset(BLOCK_SIZE, |data|), records)
  {
    var end := EndOffset(0, |data|);
    BlockEndIsStart(intended, data, false);
    ReadOrphans(intended, 0, data, EncodeAll(intended, end, records), checksum);
    ReadWritten(intended, end, records, false, [], checksum);
  }

  /** What is delivered of the records that start in a later block. */
  function DeliveredLater(intended: bool, off: Offset, records: seq<seq<byte>>): seq<seq<byte>> {
    var k := StartedInBlock(off, records);
    Delivered(intended, EndOffsetAll(off, records[..k]), records[k..])
  }

  lemma StartedFirst(off: Offset, records: seq<seq<byte>>)
    requires records != [] && BLOCK_SIZE - off >= HEADER_SIZE && FitsInOne(off, |records[0]|)
    ensures var k, next := StartedInBlock(off, records), NextOffset(off, |records[0]|);
      && k == 1 + StartedInBlock(next, records[1..])
      && EndOffsetAll(off, records[..k]) == EndOffsetAll(next, records[1..][..k - 1])
      && records[k..] == records[1..][k - 1..]
  {
    var k := StartedInBlock(off, records);
    assert records[..k][1..] == records[1..][..k - 1];
  }

  lemma StartedNone(intended: bool, off: Offset, full: Offset, records: seq<seq<byte>>)
    requires BLOCK_SIZE - off < HEADER_SIZE && full == BLOCK_SIZE
    ensures DeliveredLater(intended, off, records) == Delivered(intended, 0, records)
  {
    assert records[..0] == [] && records[0..] == records;
    if records != [] {
      TrailerFirst(intended, off, full, records[0], true);
      BlockEndIsStart(intended, records[0], true);
    }
  }

  lemma StartedOne(off: Offset, records: seq<seq<byte>>)
    requires records != [] && BLOCK_SIZE - off >= HEADER_SIZE && !FitsInOne(off, |records[0]|)
    ensures var k := StartedInBlock(off, records);
      k == 1 && EndOffsetAll(off, records[..k]) == EndOffset(off, |records[0]|)
  {
    assert records[..1] == [records[0]];
  }

  /** From the next block on, the log is read as it is without damage. */
  lemma {:induction false} ReadFromNextBlock(intended: bool, off: Offset, records: seq<seq<byte>>, checksum: bool)
    ensures ReadAll(At(FromNextBlock(intended, off, records), 0), false, [], checksum).records == DeliveredLater(intended, off, records)
    decreases |records|
  {
    if records == [] {
      ReadEnd(0, false, [], checksum);
    } else if BLOCK_SIZE - off < HEADER_SIZE {
      StartedNone(intended, off, BLOCK_SIZE, records);
      BlockEndIsStartAll(intended, records);
      ReadWritten(intended, 0, records, false, [], checksum);
    } else {
      var data, next := records[0], NextOffset(off, |records[0]|);
      if FitsInOne(off, |data|) {
        StartedFirst(off, records);
        ReadFromNextBlock(intended, next, records[1..], checksum);
      } else {
        StartedOne(off, records);
        ReadAfterOrphans(intended, data[FragmentLength(off, |data|)..], records[1..], checksum);
      }
    }
  }

  // ----- The fragments of a record

  /** A writer, intended or as written, at block offset `off` that still has `data` to write. */
  datatype Place = Place(intended: bool, off: Offset, data: seq<byte>, begin: bool) {
    predicate Last() {
      FitsInOne(off, |data|)
    }

    function Type(): byte {
      FragmentType(intended, begin, Last())
    }

    function Payload(): (s: seq<byte>)
      ensures StartOffset(off) + HEADER_SIZE + |s| <= BLOCK_SIZE
    {
      data[..FragmentLength(off, |data|)]
    }

    /** What the checksum of the next fragment covers. */
    function Body(): seq<byte> {
      [Type()] + Payload()
    }

    function FragmentEnd(): Offset {
      NextOffset(off, |data|)
    }

    function Next(): Place {
      Place(intended, FragmentEnd(), data[FragmentLength(off, |data|)..], false)
    }

    /** The next fragment, with the trailer before it if there is one. */
    function NextChunk(): seq<byte> {
      Chunk(intended, off, data, begin)
    }

    function ToEnd(): seq<byte> {
      Encode(intended, off, data, begin)
    }

    function End(): Offset {
      EndOffset(off, |data|)
    }
  }

  /** The record has a fragment `j` from here on. */
  predicate HasFragment(p: Place, j: nat)
    decreases j
  {
    j == 0 || (!p.Last() && HasFragment(p.Next(), j - 1))
  }

  /** Where fragment `j` is about to be written. */
  function Nth(p: Place, j: nat): Place
    decreases j
  {
    if j == 0 then p else Nth(p.Next(), j - 1)
  }

  /** The fragments before it. */
  function Earlier(p: Place, j: nat): seq<byte>
    decreases j
  {
    if j == 0 then [] else p.NextChunk() + Earlier(p.Next(), j - 1)
  }

  lemma NothingBefore(r: seq<byte>)
    ensures [] + r == r
  {
  }

  lemma ToEndUnfolds(p: Place)
    ensures p.ToEnd() == p.NextChunk() + AfterChunk(p.intended, p.off, p.data)
    ensures !p.Last() ==> p.ToEnd() == p.NextChunk() + p.Next().ToEnd() && p.End() == p.Next().End()
    ensures p.Last() ==> p.End() == p.FragmentEnd()
  {
  }

  lemma CutMore(p: Place, j: nat, next: Place, q: Place)
    requires j > 0 && HasFragment(p, j) && next == p.Next()
    requires next.ToEnd() == Earlier(next, j - 1) + q.ToEnd() && next.End() == q.End()
    ensures p.ToEnd() == Earlier(p, j) + q.ToEnd() && p.End() == q.End()
  {
    ToEndUnfolds(p);
    ConcatAssociates(p.NextChunk(), Earlier(next, j - 1), q.ToEnd());
  }

  lemma {:induction false} Cut(p: Place, j: nat)
    requires HasFragment(p, j)
    ensures p.ToEnd() == Earlier(p, j) + Nth(p, j).ToEnd()
    ensures p.End() == Nth(p, j).End()
    decreases j
  {
    if j == 0 {
      NothingBefore(p.ToEnd());
    } else {
      Cut(p.Next(), j - 1);
      CutMore(p, j, p.Next(), Nth(p, j));
    }
  }

  lemma {:induction false} SameWriter(p: Place, j: nat)
    ensures Nth(p, j).intended == p.intended
    decreases j
  {
    if j > 0 {
      SameWriter(p.Next(), j - 1);
    }
  }

  // ----- A record with one damaged fragment

  /** `body` is written over type and payload of the next fragment. */
  function DamagedHere(q: Place, body: seq<byte>): (s: seq<byte>)
    requires |body| == |q.Body()|
  {
    Trailer(q.off) + DamagedFragment(q.Type(), q.Payload(), body) + AfterChunk(q.intended, q.off, q.data)
  }

  /** It is written over those of fragment `j`. */
  function EncodeDamaged(p: Place, j: nat, body: seq<byte>): (s: seq<byte>)
    requires |body| == |Nth(p, j).Body()|
  {
    Earlier(p, j) + DamagedHere(Nth(p, j), body)
  }

  /** The checksum that is stored with the next fragment is not that of `body`. */
  predicate Noticed(q: Place, body: seq<byte>) {
    |body| == |q.Body()| && !ChecksumMatches(StoredCrc(q.Type(), q.Payload()), body)
  }

  /** How many of the records after the damaged one share the block of the damaged fragment. */
  function Lost(q: Place, records: seq<seq<byte>>): (k: nat)
    ensures k <= |records|
  {
    if q.Last() then StartedInBlock(q.FragmentEnd(), records) else 0
  }

  /** The damage only changes bytes in place. */
  lemma EncodeDamagedLength(p: Place, j: nat, body: seq<byte>)
    requires HasFragment(p, j) && |body| == |Nth(p, j).Body()|
    ensures |EncodeDamaged(p, j, body)| == |p.ToEnd()|
  {
    Cut(p, j);
    ToEndUnfolds(Nth(p, j));
  }

  lemma UndamagedFragment(t: byte, payload: seq<byte>)
    requires |payload| <= 0xffff
    ensures DamagedFragment(t, payload, [t] + payload) == Fragment(t, payload)
  {
    var f := Fragment(t, payload);
    FragmentParts(t, payload, []);
    assert f + [] == f;
    assert f[6..] == [t] + payload;
    TakeDrop(f, 6);
  }

  /** Damage with the original type and payload is no damage. */
  lemma EncodeUndamaged(p: Place, j: nat)
    requires HasFragment(p, j)
    ensures EncodeDamaged(p, j, Nth(p, j).Body()) == p.ToEnd()
  {
    var q := Nth(p, j);
    Cut(p, j);
    ToEndUnfolds(q);
    UndamagedFragment(q.Type(), q.Payload());
  }

  // ----- Reading it

  /** What read_record has gathered before fragment `j`. */
  function GatheredTo(p: Place, j: nat, scratch: seq<byte>): seq<byte>
    decreases j
  {
    if j == 0 then scratch else GatheredTo(p.Next(), j - 1, Gathered(p.off, p.data, p.begin, scratch))
  }

  /** What is reported before fragment `j`: a record that was lost earlier, when this one starts. */
  function ReportedBefore(p: Place, j: nat, inFragment: bool, scratch: seq<byte>): seq<Corruption> {
    if j == 0 then [] else Started(p.begin, inFragment, scratch)
  }

  /** Two readers, the second of which has `reports` behind it. */
  ghost predicate ReadsOn(log: Log, reports: seq<Corruption>, rest: Log) {
    log.records == rest.records && log.reports == reports + rest.reports
  }

  lemma ReadPastChunk(p: Place, r: seq<byte>, inFragment: bool, scratch: seq<byte>)
    requires !p.Last() && (p.begin || inFragment)
    ensures ReadsOn(ReadAll(At(p.NextChunk() + r, p.off), inFragment, scratch, true), Started(p.begin, inFragment, scratch),
                    ReadAll(At(r, p.FragmentEnd()), true, Gathered(p.off, p.data, p.begin, scratch), true))
  {
    NotLastChunk(p.intended, p.off, p.data, p.begin, r, inFragment, scratch, true);
    ReadAllPrepend(Started(p.begin, inFragment, scratch), At(p.NextChunk() + r, p.off), At(r, p.FragmentEnd()),
                   inFragment, scratch, true, Gathered(p.off, p.data, p.begin, scratch), true);
  }

  lemma OneFragmentOn(p: Place, j: nat, scratch: seq<byte>)
    requires j > 0 && HasFragment(p, j)
    ensures !p.Last() && HasFragment(p.Next(), j - 1)
    ensures Earlier(p, j) == p.NextChunk() + Earlier(p.Next(), j - 1) && Nth(p, j) == Nth(p.Next(), j - 1)
    ensures GatheredTo(p, j, scratch) == GatheredTo(p.Next(), j - 1, Gathered(p.off, p.data, p.begin, scratch))
  {
  }

  lemma ReadPastMiddle(p: Place, r: seq<byte>, scratch: seq<byte>)
    requires !p.Last() && !p.begin
    ensures ReadAll(At(p.NextChunk() + r, p.off), true, scratch, true) ==
            ReadAll(At(r, p.FragmentEnd()), true, Gathered(p.off, p.data, p.begin, scratch), true)
  {
    ReadPastChunk(p, r, true, scratch);
    NothingFirst(ReadAll(At(r, p.FragmentEnd()), true, Gathered(p.off, p.data, p.begin, scratch), true).reports);
  }

  /** Fragments after the first, in front of the damaged one, are gathered in silence. */
  lemma {:induction false} ReadMiddle(p: Place, j: nat, r: seq<byte>, scratch: seq<byte>)
    requires HasFragment(p, j) && !p.begin
    ensures ReadAll(At(Earlier(p, j) + r, p.off), true, scratch, true) ==
            ReadAll(At(r, Nth(p, j).off), true, GatheredTo(p, j, scratch), true)
    decreases j
  {
    if j == 0 {
      NothingBefore(r);
    } else {
      var more := Earlier(p.Next(), j - 1);
      OneFragmentOn(p, j, scratch);
      ConcatAssociates(p.NextChunk(), more, r);
      ReadPastMiddle(p, more + r, scratch);
      ReadMiddle(p.Next(), j - 1, r, Gathered(p.off, p.data, p.begin, scratch));
    }
  }

  lemma ReadUpToFirst(p: Place, r: seq<byte>, inFragment: bool, scratch: seq<byte>)
    ensures ReadsOn(ReadAll(At(Earlier(p, 0) + r, p.off), inFragment, scratch, true), [], ReadAll(At(r, p.off), inFragment, scratch, true))
  {
    NothingBefore(r);
    NothingFirst(ReadAll(At(r, p.off), inFragment, scratch, true).reports);
  }

  lemma ReadUpToLater(p: Place, j: nat, r: seq<byte>, inFragment: bool, scratch: seq<byte>, next: Place, gathered: seq<byte>)
    requires j > 0 && HasFragment(p, j) && p.begin
    requires next == p.Next() && gathered == Gathered(p.off, p.data, p.begin, scratch)
    ensures ReadsOn(ReadAll(At(p.NextChunk() + (Earlier(next, j - 1) + r), p.off), inFragment, scratch, true),
                    Started(p.begin, inFragment, scratch), ReadAll(At(r, Nth(next, j - 1).off), true, GatheredTo(next, j - 1, gathered), true))
  {
    OneFragmentOn(p, j, scratch);
    ReadMiddle(next, j - 1, r, gathered);
    ReadPastChunk(p, Earlier(next, j - 1) + r, inFragment, scratch);
  }

  /** The fragments in front of the damaged one are gathered. */
  lemma ReadUpTo(p: Place, j: nat, r: seq<byte>, inFragment: bool, scratch: seq<byte>)
    requires HasFragment(p, j) && p.begin
    ensures ReadsOn(ReadAll(At(Earlier(p, j) + r, p.off), inFragment, scratch, true), ReportedBefore(p, j, inFragment, scratch),
                    ReadAll(At(r, Nth(p, j).off), inFragment || j > 0, GatheredTo(p, j, scratch), true))
  {
    if j == 0 {
      ReadUpToFirst(p, r, inFragment, scratch);
    } else {
      OneFragmentOn(p, j, scratch);
      ConcatAssociates(p.NextChunk(), Earlier(p.Next(), j - 1), r);
      ReadUpToLater(p, j, r, inFragment, scratch, p.Next(), Gathered(p.off, p.data, p.begin, scratch));
    }
  }

  /** The bytes from the damaged fragment on, with the whole records that follow. */
  function FromDamage(q: Place, body: seq<byte>, records: seq<seq<byte>>): seq<byte>
    requires |body| == |q.Body()|
  {
    DamagedHere(q, body) + EncodeAll(q.intended, q.End(), records)
  }

  /** What follows the damaged fragment itself. */
  function BehindDamage(q: Place, records: seq<seq<byte>>): seq<byte> {
    AfterChunk(q.intended, q.off, q.data) + EncodeAll(q.intended, q.End(), records)
  }

  lemma DamageParts(q: Place, body: seq<byte>, records: seq<seq<byte>>)
    requires |body| == |q.Body()|
    ensures FromDamage(q, body, records) ==
            Trailer(q.off) + (DamagedFragment(q.Type(), q.Payload(), body) + BehindDamage(q, records))
  {
    var f, after := DamagedFragment(q.Type(), q.Payload(), body), AfterChunk(q.intended, q.off, q.data);
    var rest := EncodeAll(q.intended, q.End(), records);
    ConcatAssociates(Trailer(q.off), f, after);
    ConcatAssociates(Trailer(q.off), f + after, rest);
    ConcatAssociates(f, after, rest);
  }

  lemma SkippedBehind(q: Place, body: seq<byte>, r: seq<byte>)
    requires |body| == |q.Body()|
    ensures Skipped(DamagedFragment(q.Type(), q.Payload(), body) + r, StartOffset(q.off)) == Skipped(r, q.FragmentEnd())
  {
    SkippedPast(DamagedFragment(q.Type(), q.Payload(), body), r, StartOffset(q.off));
  }

  /** The reader in front of the damaged fragment drops the rest of its block. */
  lemma ReadFromDamage(q: Place, body: seq<byte>, records: seq<seq<byte>>, inFragment: bool, scratch: seq<byte>)
    requires Noticed(q, body)
    requires !inFragment ==> scratch == []
    ensures ReadAll(At(FromDamage(q, body, records), q.off), inFragment, scratch, true).records ==
            ReadAll(At(Skipped(BehindDamage(q, records), q.FragmentEnd()), 0), false, [], true).records
  {
    var s := DamagedFragment(q.Type(), q.Payload(), body) + BehindDamage(q, records);
    var o := StartOffset(q.off);
    DamageParts(q, body, records);
    SkipTrailer(s, q.off, true);
    SameNextRecord(At(Trailer(q.off) + s, q.off), At(s, o), inFragment, scratch, true);
    SameReadAll(At(Trailer(q.off) + s, q.off), At(s, o), inFragment, scratch, inFragment, scratch, true);
    ReadDamaged(q.Type(), q.Payload(), body, BehindDamage(q, records), o, inFragment, scratch);
    SkippedBehind(q, body, BehindDamage(q, records));
  }

  lemma SkippedIsFromNextBlock(q: Place, records: seq<seq<byte>>)
    requires q.Last()
    ensures Skipped(BehindDamage(q, records), q.FragmentEnd()) == FromNextBlock(q.intended, q.FragmentEnd(), records)
  {
    ToEndUnfolds(q);
    NothingBefore(EncodeAll(q.intended, q.End(), records));
    SkippedStream(q.intended, q.FragmentEnd(), records);
  }

  /** A fragment that is not the last one fills its block. */
  lemma NothingSkipped(q: Place, records: seq<seq<byte>>)
    requires !q.Last()
    ensures Skipped(BehindDamage(q, records), q.FragmentEnd()) ==
            Encode(q.intended, BLOCK_SIZE, q.Next().data, false) + EncodeAll(q.intended, EndOffset(BLOCK_SIZE, |q.Next().data|), records)
  {
    ToEndUnfolds(q);
    assert q.FragmentEnd() == BLOCK_SIZE;
    assert BehindDamage(q, records)[0..] == BehindDamage(q, records);
  }

  /** What is delivered of the records after the damaged one. */
  function DeliveredBehind(q: Place, records: seq<seq<byte>>): seq<seq<byte>> {
    var k := Lost(q, records);
    Delivered(q.intended, EndOffsetAll(q.End(), records[..k]), records[k..])
  }

  lemma ReadBehindDamage(q: Place, records: seq<seq<byte>>)
    ensures ReadAll(At(Skipped(BehindDamage(q, records), q.FragmentEnd()), 0), false, [], true).records == DeliveredBehind(q, records)
  {
    ToEndUnfolds(q);
    if q.Last() {
      SkippedIsFromNextBlock(q, records);
      ReadFromNextBlock(q.intended, q.FragmentEnd(), records, true);
    } else {
      NothingSkipped(q, records);
      ReadAfterOrphans(q.intended, q.Next().data, records, true);
      assert records[..0] == [] && records[0..] == records;
    }
  }

  /** The damaged record, then whole ones, for a reader that may still gather an earlier record. */
  lemma ReadDamagedRecord(p: Place, j: nat, body: seq<byte>, records: seq<seq<byte>>, inFragment: bool, scratch: seq<byte>)
    requires p.begin && HasFragment(p, j) && Noticed(Nth(p, j), body)
    requires !inFragment ==> scratch == []
    ensures ReadAll(At(EncodeDamaged(p, j, body) + EncodeAll(p.intended, p.End(), records), p.off), inFragment, scratch, true).records ==
            DeliveredBehind(Nth(p, j), records)
  {
    var q := Nth(p, j);
    Cut(p, j);
    SameWriter(p, j);
    ConcatAssociates(Earlier(p, j), DamagedHere(q, body), EncodeAll(q.intended, q.End(), records));
    ReadUpTo(p, j, FromDamage(q, body, records), inFragment, scratch);
    ReadFromDamage(q, body, records, inFragment || j > 0, GatheredTo(p, j, scratch));
    ReadBehindDamage(q, records);
  }

  // ----- The records before

  /** The last of `records`, or the one before them, was not delivered and is still being gathered. */
  function StillInside(intended: bool, off: Offset, records: seq<seq<byte>>, inFragment: bool): bool
    decreases |records|
  {
    if records == [] then inFragment
    else StillInside(intended, EndOffset(off, |records[0]|), records[1..], !Delivers(intended, off, |records[0]|))
  }

  function StillGathered(intended: bool, off: Offset, records: seq<seq<byte>>, scratch: seq<byte>): seq<byte>
    decreases |records|
  {
    if records == [] then scratch
    else StillGathered(intended, EndOffset(off, |records[0]|), records[1..], LostScratch(intended, off, records[0]))
  }

  lemma {:induction false} NothingGathered(intended: bool, off: Offset, records: seq<seq<byte>>, inFragment: bool, scratch: seq<byte>)
    requires !inFragment ==> scratch == []
    ensures !StillInside(intended, off, records, inFragment) ==> StillGathered(intended, off, records, scratch) == []
    decreases |records|
  {
    if records != [] {
      NothingGathered(intended, EndOffset(off, |records[0]|), records[1..],
                      !Delivers(intended, off, |records[0]|), LostScratch(intended, off, records[0]));
    }
  }

  /** Records of either writer, and then anything. */
  lemma {:induction false} ReadBefore(intended: bool, off: Offset, records: seq<seq<byte>>, r: seq<byte>, inFragment: bool, scratch: seq<byte>)
    ensures var log := ReadAll(At(EncodeAll(intended, off, records) + r, off), inFragment, scratch, true);
      var rest := ReadAll(At(r, EndOffsetAll(off, records)), StillInside(intended, off, records, inFragment),
                          StillGathered(intended, off, records, scratch), true);
      && log.records == Delivered(intended, off, records) + rest.records
      && log.reports == Complaints(intended, off, records, inFragment, scratch) + rest.reports
    decreases |records|
  {
    if records == [] {
      assert [] + r == r;
    } else {
      var data, end := records[0], EndOffset(off, |records[0]|);
      var lost, left := !Delivers(intended, off, |data|), LostScratch(intended, off, data);
      var more := EncodeAll(intended, end, records[1..]);
      var rest := ReadAll(At(r, EndOffsetAll(off, records)), StillInside(intended, off, records, inFragment),
                          StillGathered(intended, off, records, scratch), true);
      ConcatAssociates(Encode(intended, off, data, true), more, r);
      ReadAllOne(intended, off, data, more + r, inFragment, scratch, true);
      ReadBefore(intended, end, records[1..], r, lost, left);
      ConcatAssociates(DeliveredOf(intended, off, data), Delivered(intended, end, records[1..]), rest.records);
      ConcatAssociates(Unfinished(inFragment, scratch), Complaints(intended, end, records[1..], lost, left), rest.reports);
    }
  }

  // ----- The main theorem

  lemma BurstNoticed(q: Place, body: seq<byte>)
    requires Burst(q.Body(), body)
    ensures Noticed(q, body)
  {
    BurstMismatch(q.Type(), q.Payload(), body);
  }

  /** A log in which `body` is written over fragment `j` of the record `p.data`. */
  function DamagedLog(before: seq<seq<byte>>, p: Place, j: nat, body: seq<byte>, after: seq<seq<byte>>): seq<byte>
    requires |body| == |Nth(p, j).Body()|
  {
    EncodeAll(p.intended, 0, before) + (EncodeDamaged(p, j, body) + EncodeAll(p.intended, p.End(), after))
  }

  /**
   Overwrite up to four consecutive bytes of one fragment of one record.  Exactly
   the damaged record and the later records that start in the same block are lost;
   all others are delivered as they are without damage.
   */
  lemma DamageConfined(intended: bool, before: seq<seq<byte>>, data: seq<byte>, after: seq<seq<byte>>, j: nat, body: seq<byte>)
    requires var p := Place(intended, EndOffsetAll(0, before), data, true);
      HasFragment(p, j) && |body| == |Nth(p, j).Body()| && Burst(Nth(p, j).Body(), body)
    ensures var p := Place(intended, EndOffsetAll(0, before), data, true);
      var k := Lost(Nth(p, j), after);
      ReadFile(DamagedLog(before, p, j, body, after), true).records ==
      Delivered(intended, 0, before) + Delivered(intended, EndOffsetAll(p.End(), after[..k]), after[k..])
  {
    var p := Place(intended, EndOffsetAll(0, before), data, true);
    BurstNoticed(Nth(p, j), body);
    Cut(p, j);
    SameWriter(p, j);
    ReadFileFromStart(DamagedLog(before, p, j, body, after), true);
    ReadBefore(intended, 0, before, EncodeDamaged(p, j, body) + EncodeAll(intended, p.End(), after), false, []);
    NothingGathered(intended, 0, before, false, []);
    ReadDamagedRecord(p, j, body, after, StillInside(intended, 0, before, false), StillGathered(intended, 0, before, []));
  }

  /** With the intended writer those are all records before and all that start in a later block. */
  lemma DamageConfinedIntended(before: seq<seq<byte>>, data: seq<byte>, after: seq<seq<byte>>, j: nat, body: seq<byte>)
    requires var p := Place(true, EndOffsetAll(0, before), data, true);
      HasFragment(p, j) && |body| == |Nth(p, j).Body()| && Burst(Nth(p, j).Body(), body)
    ensures var p := Place(true, EndOffsetAll(0, before), data, true);
      ReadFile(DamagedLog(before, p, j, body, after), true).records == before + after[Lost(Nth(p, j), after)..]
  {
    var p := Place(true, EndOffsetAll(0, before), data, true);
    var k := Lost(Nth(p, j), after);
    DamageConfined(true, before, data, after, j, body);
    AllDelivered(0, before);
    AllDelivered(EndOffsetAll(p.End(), after[..k]), after[k..]);
  }
}
