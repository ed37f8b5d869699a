/**
 When the damage of `LogDamage` is reported, for either writer.  It always is, with
 one exception: an empty record whose type byte becomes 0 looks like the unused
 space that the reader passes over without a word, and takes the rest of its block
 with it.
 */
module LogDamageReports {
  import opened Bytes
  import opened Coding
  import opened LogFormat
  import opened LogWriter
  import opened LogReader
  import opened LogRoundTrip
  import opened LogDamage

  function ReportsFrom(s: State, inFragment: bool, scratch: seq<byte>): seq<Corruption> {
    ReadAll(s, inFragment, scratch, true).reports
  }

  /** A fragment without payload whose type byte is now 0. */
  predicate Blanked(payload: seq<byte>, body: seq<byte>)
    requires |body| == 1 + |payload|
  {
    payload == [] && body[0] == ZERO_TYPE
  }

  // ----- At the damaged fragment

  lemma DamagedPhysicalReports(t: byte, payload: seq<byte>, body: seq<byte>, r: seq<byte>, off: Offset)
    requires off + HEADER_SIZE + |payload| <= BLOCK_SIZE
    requires |body| == 1 + |payload|
    requires !ChecksumMatches(StoredCrc(t, payload), body)
    ensures NextPhysical(At(DamagedFragment(t, payload, body) + r, off), true).reports == [] <==> Blanked(payload, body)
  {
    var f := DamagedFragment(t, payload, body);
    BufferOfFragment(f, r, off);
    DamagedParts(t, payload, body, r[..BufferLength(r, off + |f|)]);
  }

  lemma PhysicalIsReported(s: State, inFragment: bool, scratch: seq<byte>)
    requires NextPhysical(s, true).reports != []
    ensures ReportsFrom(s, inFragment, scratch) != []
  {
  }

  /** Inside a record the reader complains of a bad fragment whatever it is. */
  lemma InsideIsReported(s: State, scratch: seq<byte>)
    requires NextPhysical(s, true).kind == BAD_RECORD_KIND
    ensures ReportsFrom(s, true, scratch) != []
  {
  }

  /** Outside, it reads on. */
  lemma BlankedStep(s: State)
    requires NextPhysical(s, true).kind == BAD_RECORD_KIND && NextPhysical(s, true).reports == []
    ensures NextRecord(s, false, [], true) == Prepend([], NextRecord(NextPhysical(s, true).next, false, [], true))
  {
  }

  lemma BlankedReadsOn(s: State)
    requires NextPhysical(s, true).kind == BAD_RECORD_KIND && NextPhysical(s, true).reports == []
    ensures ReportsFrom(s, false, []) == ReportsFrom(NextPhysical(s, true).next, false, [])
  {
    var t := NextPhysical(s, true).next;
    BlankedStep(s);
    ReadAllPrepend([], s, t, false, [], false, [], true);
    NothingFirst(ReportsFrom(t, false, []));
  }

  lemma SameReports(s: State, t: State, inFragment: bool, scratch: seq<byte>)
    requires NextPhysical(s, true) == NextPhysical(t, true)
    ensures ReportsFrom(s, inFragment, scratch) == ReportsFrom(t, inFragment, scratch)
  {
    SameNextRecord(s, t, inFragment, scratch, true);
  }

  lemma DamagedReports(t: byte, payload: seq<byte>, body: seq<byte>, r: seq<byte>, off: Offset, inFragment: bool, scratch: seq<byte>)
    requires off + HEADER_SIZE + |payload| <= BLOCK_SIZE
    requires |body| == 1 + |payload|
    requires !ChecksumMatches(StoredCrc(t, payload), body)
    requires !inFragment ==> scratch == []
    ensures var s := DamagedFragment(t, payload, body) + r;
      ReportsFrom(At(s, off), inFragment, scratch) == [] <==>
      !inFragment && Blanked(payload, body) && ReportsFrom(At(Skipped(s, off), 0), false, []) == []
  {
    var s := DamagedFragment(t, payload, body) + r;
    DamagedPhysical(t, payload, body, r, off);
    DamagedPhysicalReports(t, payload, body, r, off);
    if inFragment {
      InsideIsReported(At(s, off), scratch);
    } else if !Blanked(payload, body) {
      PhysicalIsReported(At(s, off), inFragment, scratch);
    } else {
      BlankedReadsOn(At(s, off));
      DroppedIsNextBlock(s, off, true);
      SameReports(At(s, off).(buffer := []), At(Skipped(s, off), 0), false, []);
    }
  }

  // ----- The rest of the block and what follows

  /** A record that starts in the block of `off` runs on into the next. */
  predicate Spills(off: Offset, records: seq<seq<byte>>)
    decreases |records|
  {
    if records == [] || BLOCK_SIZE - off < HEADER_SIZE then false
    else !FitsInOne(off, |records[0]|) || Spills(NextOffset(off, |records[0]|), records[1..])
  }

  /** Fragments that have lost their beginning are reported. */
  lemma OrphansReported(intended: bool, data: seq<byte>, r: seq<byte>)
    ensures ReportsFrom(At(Encode(intended, BLOCK_SIZE, data, false) + r, 0), false, []) != []
  {
    BlockEndIsStart(intended, data, false);
    var n, next := FragmentLength(0, |data|), NextOffset(0, |data|);
    var chunk, after := Chunk(intended, 0, data, false), AfterChunk(intended, 0, data);
    ConcatAssociates(chunk, after, r);
    OrphanChunk(intended, 0, data, after + r, true);
    ReadAllPrepend([Corruption(n, MissingStart)], At(chunk + (after + r), 0), At(after + r, next), false, [], false, [], true);
  }

  /** What is reported of the records that start in a later block; nothing with the intended writer. */
  function ReportedLater(intended: bool, off: Offset, records: seq<seq<byte>>): seq<Corruption> {
    var k := StartedInBlock(off, records);
    Complaints(intended, EndOffsetAll(off, records[..k]), records[k..], false, [])
  }

  lemma NoneReportedEarlier(intended: bool, off: Offset, full: Offset, records: seq<seq<byte>>)
    requires BLOCK_SIZE - off < HEADER_SIZE && full == BLOCK_SIZE
    ensures ReportedLater(intended, off, records) == Complaints(intended, 0, records, false, [])
  {
    assert records[..0] == [] && records[0..] == records;
    if records != [] {
      TrailerFirst(intended, off, full, records[0], true);
      BlockEndIsStart(intended, records[0], true);
    }
  }

  lemma {:induction false} NextBlockReports(intended: bool, off: Offset, records: seq<seq<byte>>)
    ensures ReportsFrom(At(FromNextBlock(intended, off, records), 0), false, []) == [] <==>
            !Spills(off, records) && ReportedLater(intended, off, records) == []
    decreases |records|
  {
    if records == [] {
      ReadEnd(0, false, [], true);
    } else if BLOCK_SIZE - off < HEADER_SIZE {
      NoneReportedEarlier(intended, off, BLOCK_SIZE, records);
      BlockEndIsStartAll(intended, records);
      ReadWritten(intended, 0, records, false, [], true);
    } else {
      var data, next := records[0], NextOffset(off, |records[0]|);
      if FitsInOne(off, |data|) {
        StartedFirst(off, records);
        NextBlockReports(intended, next, records[1..]);
      } else {
        OrphansReported(intended, data[FragmentLength(off, |data|)..], EncodeAll(intended, EndOffset(off, |data|), records[1..]));
      }
    }
  }

  lemma BehindReports(q: Place, records: seq<seq<byte>>)
    ensures ReportsFrom(At(Skipped(BehindDamage(q, records), q.FragmentEnd()), 0), false, []) == [] <==>
            q.Last() && !Spills(q.FragmentEnd(), records) && ReportedLater(q.intended, q.FragmentEnd(), records) == []
  {
    if q.Last() {
      SkippedIsFromNextBlock(q, records);
      NextBlockReports(q.intended, q.FragmentEnd(), records);
    } else {
      NothingSkipped(q, records);
      OrphansReported(q.intended, q.Next().data, EncodeAll(q.intended, EndOffset(BLOCK_SIZE, |q.Next().data|), records));
    }
  }

  // ----- The damaged record

  lemma ReportsFromDamage(q: Place, body: seq<byte>, records: seq<seq<byte>>, inFragment: bool, scratch: seq<byte>)
    requires Noticed(q, body)
    requires !inFragment ==> scratch == []
    ensures ReportsFrom(At(FromDamage(q, body, records), q.off), inFragment, scratch) == [] <==>
            !inFragment && Blanked(q.Payload(), body) &&
            ReportsFrom(At(Skipped(BehindDamage(q, records), q.FragmentEnd()), 0), false, []) == []
  {
    var s := DamagedFragment(q.Type(), q.Payload(), body) + BehindDamage(q, records);
    DamageParts(q, body, records);
    SkipTrailer(s, q.off, true);
    SameReports(At(Trailer(q.off) + s, q.off), At(s, StartOffset(q.off)), inFragment, scratch);
    DamagedReports(q.Type(), q.Payload(), body, BehindDamage(q, records), StartOffset(q.off), inFragment, scratch);
    SkippedBehind(q, body, BehindDamage(q, records));
  }

  lemma BlankedLast(q: Place, body: seq<byte>)
    requires |body| == |q.Body()|
    ensures q.Last() && Blanked(q.Payload(), body) <==> q.data == [] && body == [ZERO_TYPE]
    ensures q.Last() ==> q.End() == q.FragmentEnd()
  {
  }

  /** Nothing is reported of the damaged fragment and what follows it. */
  predicate Unreported(q: Place, body: seq<byte>, records: seq<seq<byte>>) {
    q.data == [] && body == [ZERO_TYPE] && !Spills(q.End(), records) && ReportedLater(q.intended, q.End(), records) == []
  }

  /** A first fragment is reported unless its record is empty. */
  lemma ReportsAt(q: Place, body: seq<byte>, records: seq<seq<byte>>, inFragment: bool, scratch: seq<byte>)
    requires Noticed(q, body)
    requires !inFragment ==> scratch == []
    ensures ReportsFrom(At(FromDamage(q, body, records), q.off), inFragment, scratch) == [] <==>
            !inFragment && Unreported(q, body, records)
  {
    ReportsFromDamage(q, body, records, inFragment, scratch);
    BehindReports(q, records);
    BlankedLast(q, body);
  }

  lemma ReportsOfRecord(p: Place, j: nat, body: seq<byte>, records: seq<seq<byte>>, inFragment: bool, scratch: seq<byte>)
    requires p.begin && HasFragment(p, j) && Noticed(Nth(p, j), body)
    requires !inFragment ==> scratch == []
    ensures ReportsFrom(At(EncodeDamaged(p, j, body) + EncodeAll(p.intended, p.End(), records), p.off), inFragment, scratch) == [] <==>
            !inFragment && j == 0 && Unreported(p, body, records)
  {
    var q := Nth(p, j);
    Cut(p, j);
    SameWriter(p, j);
    ConcatAssociates(Earlier(p, j), DamagedHere(q, body), EncodeAll(q.intended, q.End(), records));
    ReadUpTo(p, j, FromDamage(q, body, records), inFragment, scratch);
    ReportsAt(q, body, records, inFragment || j > 0, GatheredTo(p, j, scratch));
  }

  /** A run is read without a report, and no record of it is left over, exactly if all of it is delivered. */
  lemma {:induction false} SilentBefore(intended: bool, off: Offset, records: seq<seq<byte>>)
    ensures Complaints(intended, off, records, false, []) == [] && !StillInside(intended, off, records, false) <==>
            intended || AllFit(off, records)
    decreases |records|
  {
    if records != [] {
      var data, end := records[0], EndOffset(off, |records[0]|);
      if Delivers(intended, off, |data|) {
        SilentBefore(intended, end, records[1..]);
      } else {
        LostIsNoticed(intended, end, records[1..], data);
      }
    }
  }

  lemma LostIsNoticed(intended: bool, off: Offset, records: seq<seq<byte>>, data: seq<byte>)
    requires data != []
    ensures Complaints(intended, off, records, true, data) != [] || StillInside(intended, off, records, true)
  {
  }

  /**
   The damage of `DamageConfined` goes unreported exactly if the damaged record is
   an empty one, its type byte became 0, no record behind it in the same block
   runs on into the next one, every record before it was delivered, and nothing is
   reported of the records that start in a later block.
   */
  lemma DamageReported(intended: bool, before: seq<seq<byte>>, data: seq<byte>, after: seq<seq<byte>>, j: nat, body: seq<byte>)
    requires var p := Place(intended, EndOffsetAll(0, before), data, true);
      HasFragment(p, j) && |body| == |Nth(p, j).Body()| && Burst(Nth(p, j).Body(), body)
    ensures var p := Place(intended, EndOffsetAll(0, before), data, true);
      ReadFile(DamagedLog(before, p, j, body, after), true).reports == [] <==>
      && data == [] && body == [ZERO_TYPE] && !Spills(p.End(), after)
      && (intended || AllFit(0, before)) && ReportedLater(intended, p.End(), after) == []
  {
    var p := Place(intended, EndOffsetAll(0, before), data, true);
    var rest := EncodeDamaged(p, j, body) + EncodeAll(intended, p.End(), after);
    BurstNoticed(Nth(p, j), body);
    ReadFileFromStart(DamagedLog(before, p, j, body, after), true);
    ReadBefore(intended, 0, before, rest, false, []);
    NothingGathered(intended, 0, before, false, []);
    SilentBefore(intended, 0, before);
    ReportsOfRecord(p, j, body, after, StillInside(intended, 0, before, false), StillGathered(intended, 0, before, []));
  }

  /** With the intended writer nothing else is to blame. */
  lemma DamageReportedIntended(before: seq<seq<byte>>, data: seq<byte>, after: seq<seq<byte>>, j: nat, body: seq<byte>)
    requires var p := Place(true, EndOffsetAll(0, before), data, true);
      HasFragment(p, j) && |body| == |Nth(p, j).Body()| && Burst(Nth(p, j).Body(), body)
    ensures var p := Place(true, EndOffsetAll(0, before), data, true);
      ReadFile(DamagedLog(before, p, j, body, after), true).reports == [] <==>
      data == [] && body == [ZERO_TYPE] && !Spills(p.End(), after)
  {
    var p := Place(true, EndOffsetAll(0, before), data, true);
    var k := StartedInBlock(p.End(), after);
    DamageReported(true, before, data, after, j, body);
    AllDelivered(EndOffsetAll(p.End(), after[..k]), after[k..]);
  }
}
