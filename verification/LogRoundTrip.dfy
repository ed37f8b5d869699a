/**
 The writer followed by the reader.

 A reader that stands at block offset `off`, with the bytes `r` of the file still
 in front of it, is in state `At(r, off)`.
 */
module LogRoundTrip {
  import opened Bytes
  import opened Coding
  import opened LogFormat
  import opened LogWriter
  import opened LogReader

  function BufferLength(r: seq<byte>, off: Offset): (k: nat)
    ensures k <= |r| && k <= BLOCK_SIZE - off
  {
    if |r| < BLOCK_SIZE - off then |r| else BLOCK_SIZE - off
  }

  function At(r: seq<byte>, off: Offset): State
  {
    var k := BufferLength(r, off);
    State(r[..k], r[k..], k < BLOCK_SIZE - off)
  }

  // ----- Single steps of the reader

  /** What is left of a block is too short for a header: go on with the next block. */
  lemma NextBlock(r: seq<byte>, off: Offset, checksum: bool)
    requires BLOCK_SIZE - off < HEADER_SIZE && |r| >= BLOCK_SIZE - off
    ensures NextPhysical(At(r, off), checksum) == NextPhysical(At(r[BLOCK_SIZE - off..], 0), checksum)
  {
    var rest := r[BLOCK_SIZE - off..];
    assert Refill(At(r, off)) == At(rest, 0);
  }

  /** Nothing but a piece of a trailer is left: end of file. */
  lemma TornTrailer(r: seq<byte>, off: Offset, checksum: bool)
    requires |r| < HEADER_SIZE && |r| < BLOCK_SIZE - off
    ensures NextPhysical(At(r, off), checksum).kind == EOF_KIND
    ensures NextPhysical(At(r, off), checksum).reports == []
  {
  }

  /** The buffer of a reader in front of a fragment that its block has room for. */
  lemma BufferOfFragment(f: seq<byte>, r: seq<byte>, off: nat)
    requires off + |f| <= BLOCK_SIZE
    ensures var k, s := BufferLength(r, off + |f|), At(f + r, off);
      && s.buffer == f + r[..k]
      && s.file == r[k..]
      && s.eof == At(r, off + |f|).eof
  {
    var k := BufferLength(r, off + |f|);
    assert BufferLength(f + r, off) == |f| + k;
  }

  lemma Whole(t: byte, payload: seq<byte>, r: seq<byte>, off: nat, checksum: bool)
    requires 0 < t < 128
    requires off + HEADER_SIZE + |payload| <= BLOCK_SIZE
    ensures NextPhysical(At(Fragment(t, payload) + r, off), checksum) ==
            Physical(t, payload, At(r, off + HEADER_SIZE + |payload|), [])
  {
    var n := HEADER_SIZE + |payload|;
    BufferOfFragment(Fragment(t, payload), r, off);
    FragmentParts(t, payload, r[..BufferLength(r, off + n)]);
    StoredCrcMatches(t, payload);
  }

  /** The file ends inside a fragment: end of file, and nothing is reported. */
  lemma TornFragment(t: byte, payload: seq<byte>, c: nat, off: nat, checksum: bool)
    requires off + HEADER_SIZE + |payload| <= BLOCK_SIZE
    requires c < HEADER_SIZE + |payload|
    ensures NextPhysical(At(Fragment(t, payload)[..c], off), checksum).kind == EOF_KIND
    ensures NextPhysical(At(Fragment(t, payload)[..c], off), checksum).reports == []
  {
    var f := Fragment(t, payload);
    var s := At(f[..c], off);
    assert s.buffer == f[..c] && s.eof;
    if c >= HEADER_SIZE {
      FragmentParts(t, payload, []);
      assert f + [] == f;
      assert s.buffer[4] == f[4] && s.buffer[5] == f[5];
    }
  }

  /** A trailer, if there is one, is skipped. */
  lemma SkipTrailer(r: seq<byte>, off: Offset, checksum: bool)
    ensures NextPhysical(At(Trailer(off) + r, off), checksum) == NextPhysical(At(r, StartOffset(off)), checksum)
  {
    if BLOCK_SIZE - off < HEADER_SIZE {
      NextBlock(Trailer(off) + r, off, checksum);
      assert (Trailer(off) + r)[BLOCK_SIZE - off..] == r;
    } else {
      assert Trailer(off) + r == r;
    }
  }

  lemma ReadTrailed(off: Offset, t: byte, payload: seq<byte>, r: seq<byte>, checksum: bool)
    requires 0 < t < 128
    requires StartOffset(off) + HEADER_SIZE + |payload| <= BLOCK_SIZE
    ensures NextPhysical(At(Trailer(off) + Fragment(t, payload) + r, off), checksum) ==
            Physical(t, payload, At(r, StartOffset(off) + HEADER_SIZE + |payload|), [])
  {
    ConcatAssociates(Trailer(off), Fragment(t, payload), r);
    SkipTrailer(Fragment(t, payload) + r, off, checksum);
    Whole(t, payload, r, StartOffset(off), checksum);
  }

  lemma ReadChunk(intended: bool, off: Offset, data: seq<byte>, begin: bool, r: seq<byte>, checksum: bool)
    ensures var n := FragmentLength(off, |data|);
      NextPhysical(At(Chunk(intended, off, data, begin) + r, off), checksum) ==
      Physical(FragmentType(intended, begin, n == |data|), data[..n], At(r, NextOffset(off, |data|)), [])
  {
    var n := FragmentLength(off, |data|);
    ReadTrailed(off, FragmentType(intended, begin, n == |data|), data[..n], r, checksum);
  }

  // ----- Records

  /** What follows the first chunk of a record. */
  function AfterChunk(intended: bool, off: Offset, data: seq<byte>): seq<byte>
  {
    var n := FragmentLength(off, |data|);
    if n == |data| then [] else Encode(intended, NextOffset(off, |data|), data[n..], false)
  }

  /** One chunk, as read_record sees it. */
  lemma ChunkStep(intended: bool, off: Offset, data: seq<byte>, begin: bool, r: seq<byte>, inFragment: bool, scratch: seq<byte>, checksum: bool)
    ensures var n := FragmentLength(off, |data|);
      var next := At(r, NextOffset(off, |data|));
      NextRecord(At(Chunk(intended, off, data, begin) + r, off), inFragment, scratch, checksum) ==
      match Dispatch(FragmentType(intended, begin, n == |data|), data[..n], inFragment, scratch)
        case Return(record, reports) => Result(record, next, reports)
        case Continue(i, t, reports) => Prepend(reports, NextRecord(next, i, t, checksum))
  {
    var n := FragmentLength(off, |data|);
    ReadChunk(intended, off, data, begin, r, checksum);
    NothingFirst(Dispatch(FragmentType(intended, begin, n == |data|), data[..n], inFragment, scratch).reports);
  }

  /** What read_record has gathered after a chunk that is not the last. */
  function Gathered(off: Offset, data: seq<byte>, begin: bool, scratch: seq<byte>): seq<byte>
  {
    var n := FragmentLength(off, |data|);
    if begin then data[..n] else scratch + data[..n]
  }

  function Started(begin: bool, inFragment: bool, scratch: seq<byte>): seq<Corruption> {
    if begin then Unfinished(inFragment, scratch) else []
  }

  lemma NotLastChunk(intended: bool, off: Offset, data: seq<byte>, begin: bool, r: seq<byte>, inFragment: bool, scratch: seq<byte>, checksum: bool)
    requires !FitsInOne(off, |data|)
    requires begin || inFragment
    ensures NextRecord(At(Chunk(intended, off, data, begin) + r, off), inFragment, scratch, checksum) ==
            Prepend(Started(begin, inFragment, scratch),
                    NextRecord(At(r, NextOffset(off, |data|)), true, Gathered(off, data, begin, scratch), checksum))
  {
    ChunkStep(intended, off, data, begin, r, inFragment, scratch, checksum);
  }

  /** The first chunk of a record. */
  lemma RecordStep(intended: bool, off: Offset, data: seq<byte>, begin: bool, r: seq<byte>, inFragment: bool, scratch: seq<byte>, checksum: bool)
    ensures var n := FragmentLength(off, |data|);
      var next := At(AfterChunk(intended, off, data) + r, NextOffset(off, |data|));
      NextRecord(At(Encode(intended, off, data, begin) + r, off), inFragment, scratch, checksum) ==
      match Dispatch(FragmentType(intended, begin, n == |data|), data[..n], inFragment, scratch)
        case Return(record, reports) => Result(record, next, reports)
        case Continue(i, t, reports) => Prepend(reports, NextRecord(next, i, t, checksum))
  {
    var after := AfterChunk(intended, off, data);
    ConcatAssociates(Chunk(intended, off, data, begin), after, r);
    ChunkStep(intended, off, data, begin, after + r, inFragment, scratch, checksum);
  }

  lemma NothingFirst(reports: seq<Corruption>)
    ensures [] + reports == reports
  {
  }

  lemma PrependNothing(r: Result)
    ensures Prepend([], r) == r
  {
  }

  lemma LastChunk(intended: bool, off: Offset, data: seq<byte>, scratch: seq<byte>, r: seq<byte>, checksum: bool)
    requires FitsInOne(off, |data|)
    ensures var end := At(r, NextOffset(off, |data|));
      NextRecord(At(Encode(intended, off, data, false) + r, off), true, scratch, checksum) ==
      if intended then Result(Some(scratch + data), end, [])
      else NextRecord(end, true, scratch + data, checksum)
  {
    RecordStep(intended, off, data, false, r, true, scratch, checksum);
    assert data[..|data|] == data && [] + r == r;
    PrependNothing(NextRecord(At(r, NextOffset(off, |data|)), true, scratch + data, checksum));
  }

  lemma MiddleChunk(intended: bool, off: Offset, data: seq<byte>, scratch: seq<byte>, r: seq<byte>, checksum: bool)
    requires !FitsInOne(off, |data|)
    ensures var n, next := FragmentLength(off, |data|), NextOffset(off, |data|);
      NextRecord(At(Encode(intended, off, data, false) + r, off), true, scratch, checksum) ==
      NextRecord(At(Encode(intended, next, data[n..], false) + r, next), true, scratch + data[..n], checksum)
  {
    var n, next := FragmentLength(off, |data|), NextOffset(off, |data|);
    RecordStep(intended, off, data, false, r, true, scratch, checksum);
    PrependNothing(NextRecord(At(Encode(intended, next, data[n..], false) + r, next), true, scratch + data[..n], checksum));
  }

  lemma TakenInTwo(scratch: seq<byte>, data: seq<byte>, n: nat)
    requires n <= |data|
    ensures scratch + data[..n] + data[n..] == scratch + data
  {
    ConcatAssociates(scratch, data[..n], data[n..]);
    TakeDrop(data, n);
  }

  /** What read_record gives once it has gathered the whole record. */
  function WhenGathered(intended: bool, end: State, record: seq<byte>, checksum: bool): Result {
    if intended then Result(Some(record), end, []) else NextRecord(end, true, record, checksum)
  }

  /** The fragments after the first: gathered, and returned only if the last one is typed Last. */
  lemma {:induction false} ReadRemainder(intended: bool, off: Offset, data: seq<byte>, scratch: seq<byte>, r: seq<byte>, checksum: bool)
    ensures NextRecord(At(Encode(intended, off, data, false) + r, off), true, scratch, checksum) ==
            WhenGathered(intended, At(r, EndOffset(off, |data|)), scratch + data, checksum)
    decreases |data|, if off == BLOCK_SIZE - HEADER_SIZE then 1 else 0
  {
    var n, next := FragmentLength(off, |data|), NextOffset(off, |data|);
    if n == |data| {
      LastChunk(intended, off, data, scratch, r, checksum);
    } else {
      ReadRemainder(intended, next, data[n..], scratch + data[..n], r, checksum);
      MiddleChunk(intended, off, data, scratch, r, checksum);
      TakenInTwo(scratch, data, n);
    }
  }

  /** A record that is written is delivered, except that the code as written loses those of several fragments. */
  predicate Delivers(intended: bool, off: Offset, n: nat)
  {
    intended || FitsInOne(off, n)
  }

  lemma FullChunk(intended: bool, off: Offset, data: seq<byte>, r: seq<byte>, inFragment: bool, scratch: seq<byte>, checksum: bool)
    requires FitsInOne(off, |data|)
    ensures NextRecord(At(Encode(intended, off, data, true) + r, off), inFragment, scratch, checksum) ==
            Result(Some(data), At(r, NextOffset(off, |data|)), Unfinished(inFragment, scratch))
  {
    RecordStep(intended, off, data, true, r, inFragment, scratch, checksum);
    assert data[..|data|] == data && [] + r == r;
  }

  lemma FirstChunk(intended: bool, off: Offset, data: seq<byte>, r: seq<byte>, inFragment: bool, scratch: seq<byte>, checksum: bool)
    requires !FitsInOne(off, |data|)
    ensures var n, next := FragmentLength(off, |data|), NextOffset(off, |data|);
      NextRecord(At(Encode(intended, off, data, true) + r, off), inFragment, scratch, checksum) ==
      Prepend(Unfinished(inFragment, scratch),
              NextRecord(At(Encode(intended, next, data[n..], false) + r, next), true, data[..n], checksum))
  {
    RecordStep(intended, off, data, true, r, inFragment, scratch, checksum);
  }

  lemma PrependToResult(reports: seq<Corruption>, record: Option<seq<byte>>, next: State)
    ensures Prepend(reports, Result(record, next, [])) == Result(record, next, reports)
  {
    assert reports + [] == reports;
  }

  /** A record of several fragments. */
  lemma ReadMany(intended: bool, off: Offset, data: seq<byte>, r: seq<byte>, inFragment: bool, scratch: seq<byte>, checksum: bool)
    requires !FitsInOne(off, |data|)
    ensures var end := At(r, EndOffset(off, |data|));
      NextRecord(At(Encode(intended, off, data, true) + r, off), inFragment, scratch, checksum) ==
      if intended then Result(Some(data), end, Unfinished(inFragment, scratch))
      else Prepend(Unfinished(inFragment, scratch), NextRecord(end, true, data, checksum))
  {
    var n, next := FragmentLength(off, |data|), NextOffset(off, |data|);
    FirstChunk(intended, off, data, r, inFragment, scratch, checksum);
    ReadRemainder(intended, next, data[n..], data[..n], r, checksum);
    TakeDrop(data, n);
    PrependToResult(Unfinished(inFragment, scratch), Some(data), At(r, EndOffset(off, |data|)));
  }

  lemma ReadOne(intended: bool, off: Offset, data: seq<byte>, r: seq<byte>, inFragment: bool, scratch: seq<byte>, checksum: bool)
    ensures var end := At(r, EndOffset(off, |data|));
      NextRecord(At(Encode(intended, off, data, true) + r, off), inFragment, scratch, checksum) ==
      if Delivers(intended, off, |data|) then Result(Some(data), end, Unfinished(inFragment, scratch))
      else Prepend(Unfinished(inFragment, scratch), NextRecord(end, true, data, checksum))
  {
    if FitsInOne(off, |data|) {
      FullChunk(intended, off, data, r, inFragment, scratch, checksum);
    } else {
      ReadMany(intended, off, data, r, inFragment, scratch, checksum);
    }
  }

  // ----- Whole logs

  function DeliveredOf(intended: bool, off: Offset, data: seq<byte>): seq<seq<byte>>
  {
    if Delivers(intended, off, |data|) then [data] else []
  }

  /** The records that reach the reader. */
  function Delivered(intended: bool, off: Offset, records: seq<seq<byte>>): seq<seq<byte>>
    decreases |records|
  {
    if records == [] then []
    else DeliveredOf(intended, off, records[0]) + Delivered(intended, EndOffset(off, |records[0]|), records[1..])
  }

  /** What a lost record leaves in the scratch buffer. */
  function LostScratch(intended: bool, off: Offset, data: seq<byte>): seq<byte>
  {
    if Delivers(intended, off, |data|) then [] else data
  }

  /** A lost record is reported when the next one starts. */
  function Complaints(intended: bool, off: Offset, records: seq<seq<byte>>, inFragment: bool, scratch: seq<byte>): seq<Corruption>
    decreases |records|
  {
    if records == [] then []
    else
      Unfinished(inFragment, scratch) +
      Complaints(intended, EndOffset(off, |records[0]|), records[1..],
                 !Delivers(intended, off, |records[0]|), LostScratch(intended, off, records[0]))
  }

  lemma ReadEnd(off: Offset, inFragment: bool, scratch: seq<byte>, checksum: bool)
    ensures ReadAll(At([], off), inFragment, scratch, checksum) == Log([], [])
  {
    if off == BLOCK_SIZE {
      NextBlock([], off, checksum);
    }
    TornTrailer([], 0, checksum);
  }

  /** ReadAll in terms of the first read. */
  lemma ReadAllPrepend(reports: seq<Corruption>, s: State, t: State, i: bool, x: seq<byte>, j: bool, y: seq<byte>, checksum: bool)
    requires NextRecord(s, i, x, checksum) == Prepend(reports, NextRecord(t, j, y, checksum))
    ensures ReadAll(s, i, x, checksum).records == ReadAll(t, j, y, checksum).records
    ensures ReadAll(s, i, x, checksum).reports == reports + ReadAll(t, j, y, checksum).reports
  {
    var r := NextRecord(t, j, y, checksum);
    if r.record.Some? {
      ConcatAssociates(reports, r.reports, ReadAll(r.next, false, [], checksum).reports);
    }
  }

  /** One written record at the front of what is read. */
  lemma ReadAllOne(intended: bool, off: Offset, data: seq<byte>, r: seq<byte>, inFragment: bool, scratch: seq<byte>, checksum: bool)
    ensures var lost := !Delivers(intended, off, |data|);
      var log := ReadAll(At(Encode(intended, off, data, true) + r, off), inFragment, scratch, checksum);
      var rest := ReadAll(At(r, EndOffset(off, |data|)), lost, LostScratch(intended, off, data), checksum);
      && log.records == DeliveredOf(intended, off, data) + rest.records
      && log.reports == Unfinished(inFragment, scratch) + rest.reports
  {
    ReadOne(intended, off, data, r, inFragment, scratch, checksum);
    if !Delivers(intended, off, |data|) {
      ReadAllPrepend(Unfinished(inFragment, scratch), At(Encode(intended, off, data, true) + r, off),
                     At(r, EndOffset(off, |data|)), inFragment, scratch, true, data, checksum);
    }
  }

  lemma {:induction false} ReadWritten(intended: bool, off: Offset, records: seq<seq<byte>>, inFragment: bool, scratch: seq<byte>, checksum: bool)
    ensures ReadAll(At(EncodeAll(intended, off, records), off), inFragment, scratch, checksum) ==
            Log(Delivered(intended, off, records), Complaints(intended, off, records, inFragment, scratch))
    decreases |records|
  {
    if records == [] {
      ReadEnd(off, inFragment, scratch, checksum);
    } else {
      var data, next := records[0], EndOffset(off, |records[0]|);
      var lost := !Delivers(intended, off, |data|);
      ReadAllOne(intended, off, data, EncodeAll(intended, next, records[1..]), inFragment, scratch, checksum);
      ReadWritten(intended, next, records[1..], lost, LostScratch(intended, off, data), checksum);
    }
  }

  // ----- The main theorems

  /** The first read fills the buffer, so a reader starts as if it stood at the start of the first block. */
  lemma ReadFileFromStart(file: seq<byte>, checksum: bool)
    ensures ReadFile(file, checksum) == ReadAll(At(file, 0), false, [], checksum)
  {
    assert Refill(Initial(file)) == At(file, 0);
    SamePhysical(Initial(file), At(file, 0), checksum);
  }

  lemma SamePhysical(s: State, t: State, checksum: bool)
    requires NextPhysical(s, checksum) == NextPhysical(t, checksum)
    ensures ReadAll(s, false, [], checksum) == ReadAll(t, false, [], checksum)
  {
    assert NextRecord(s, false, [], checksum) == NextRecord(t, false, [], checksum);
  }

  /** Everything a reader gets out of a file of written records. */
  lemma ReadFileOfWritten(intended: bool, records: seq<seq<byte>>, checksum: bool)
    ensures ReadFile(EncodeAll(intended, 0, records), checksum) ==
            Log(Delivered(intended, 0, records), Complaints(intended, 0, records, false, []))
  {
    ReadFileFromStart(EncodeAll(intended, 0, records), checksum);
    ReadWritten(intended, 0, records, false, [], checksum);
  }

  lemma {:induction false} AllDelivered(off: Offset, records: seq<seq<byte>>)
    ensures Delivered(true, off, records) == records
    ensures Complaints(true, off, records, false, []) == []
    decreases |records|
  {
    if records != [] {
      AllDelivered(EndOffset(off, |records[0]|), records[1..]);
    }
  }

  /** The round trip of the intended writer: every record, in order, and no complaint. */
  lemma RoundTrip(records: seq<seq<byte>>, checksum: bool)
    ensures ReadFile(EncodeAll(true, 0, records), checksum) == Log(records, [])
  {
    ReadFileOfWritten(true, records, checksum);
    AllDelivered(0, records);
  }

  // ----- The code as written

  /** Every record went out in one fragment. */
  predicate AllFit(off: Offset, records: seq<seq<byte>>)
    decreases |records|
  {
    records == [] ||
    (FitsInOne(off, |records[0]|) && AllFit(EndOffset(off, |records[0]|), records[1..]))
  }

  lemma {:induction false} FewerDelivered(off: Offset, records: seq<seq<byte>>)
    ensures |Delivered(false, off, records)| <= |records|
    ensures AllFit(off, records) <==> |Delivered(false, off, records)| == |records|
    ensures AllFit(off, records) ==> Delivered(false, off, records) == records
    ensures AllFit(off, records) ==> Complaints(false, off, records, false, []) == []
    decreases |records|
  {
    if records != [] {
      FewerDelivered(EndOffset(off, |records[0]|), records[1..]);
    }
  }

  /** As written, the round trip holds exactly for the runs whose records all fit in one fragment. */
  lemma RoundTripAsWritten(records: seq<seq<byte>>, checksum: bool)
    ensures ReadFile(EncodeAll(false, 0, records), checksum) == Log(records, []) <==> AllFit(0, records)
  {
    ReadFileOfWritten(false, records, checksum);
    FewerDelivered(0, records);
  }

  /** A record that is lost: any single one too long for a block. */
  lemma LongRecordLost(data: seq<byte>, checksum: bool)
    requires |data| > BLOCK_SIZE - HEADER_SIZE
    ensures ReadFile(EncodeAll(false, 0, [data]), checksum) == Log([], [])
  {
    ReadFileOfWritten(false, [data], checksum);
    assert Complaints(false, 0, [data], false, []) == [];
  }

  // ----- Reopening

  /** How many blocks a record of `left` bytes completes. */
  function BlocksFilled(off: Offset, left: nat): nat
    decreases left, if off == BLOCK_SIZE - HEADER_SIZE then 1 else 0
  {
    var n := FragmentLength(off, left);
    (if BLOCK_SIZE - off < HEADER_SIZE then 1 else 0) +
    if n == left then 0 else BlocksFilled(NextOffset(off, left), left - n)
  }

  lemma {:induction false} EncodeLength(intended: bool, off: Offset, data: seq<byte>, begin: bool)
    ensures off + |Encode(intended, off, data, begin)| == BLOCK_SIZE * BlocksFilled(off, |data|) + EndOffset(off, |data|)
    decreases |data|, if off == BLOCK_SIZE - HEADER_SIZE then 1 else 0
  {
    var n := FragmentLength(off, |data|);
    if n != |data| {
      EncodeLength(intended, NextOffset(off, |data|), data[n..], false);
    }
  }

  function BlocksFilledAll(off: Offset, records: seq<seq<byte>>): nat
    decreases |records|
  {
    if records == [] then 0
    else BlocksFilled(off, |records[0]|) + BlocksFilledAll(EndOffset(off, |records[0]|), records[1..])
  }

  lemma {:induction false} EncodeAllLength(intended: bool, off: Offset, records: seq<seq<byte>>)
    ensures off + |EncodeAll(intended, off, records)| == BLOCK_SIZE * BlocksFilledAll(off, records) + EndOffsetAll(off, records)
    decreases |records|
  {
    if records != [] {
      EncodeLength(intended, off, records[0], true);
      EncodeAllLength(intended, EndOffset(off, |records[0]|), records[1..]);
    }
  }

  lemma OffsetOfLength(n: nat, blocks: nat, off: nat)
    requires n == BLOCK_SIZE * blocks + off && off <= BLOCK_SIZE
    ensures n % BLOCK_SIZE == if off == BLOCK_SIZE then 0 else off
  {
  }

  lemma {:induction false} EncodeAllConcat(intended: bool, off: Offset, a: seq<seq<byte>>, b: seq<seq<byte>>)
    ensures EncodeAll(intended, off, a + b) == EncodeAll(intended, off, a) + EncodeAll(intended, EndOffsetAll(off, a), b)
    ensures EndOffsetAll(off, a + b) == EndOffsetAll(EndOffsetAll(off, a), b)
    decreases |a|
  {
    if a == [] {
      assert a + b == b;
    } else {
      var end := EndOffset(off, |a[0]|);
      assert (a + b)[1..] == a[1..] + b;
      EncodeAllConcat(intended, end, a[1..], b);
      ConcatAssociates(Encode(intended, off, a[0], true), EncodeAll(intended, end, a[1..]), EncodeAll(intended, EndOffsetAll(off, a), b));
    }
  }

  /** A full block and an empty one are the same to the writer. */
  lemma BlockEndIsStart(intended: bool, data: seq<byte>, begin: bool)
    ensures Encode(intended, BLOCK_SIZE, data, begin) == Encode(intended, 0, data, begin)
    ensures EndOffset(BLOCK_SIZE, |data|) == EndOffset(0, |data|)
  {
    assert Trailer(0) == Trailer(BLOCK_SIZE);
    assert Chunk(intended, BLOCK_SIZE, data, begin) == Chunk(intended, 0, data, begin);
    assert AfterChunk(intended, BLOCK_SIZE, data) == AfterChunk(intended, 0, data);
  }

  lemma BlockEndIsStartAll(intended: bool, records: seq<seq<byte>>)
    ensures EncodeAll(intended, BLOCK_SIZE, records) == EncodeAll(intended, 0, records)
  {
    if records != [] {
      BlockEndIsStart(intended, records[0], true);
    }
  }

  /** A writer reopened on a log of known length goes on as if it had never been closed. */
  lemma Reopened(intended: bool, a: seq<seq<byte>>, b: seq<seq<byte>>)
    ensures var log := EncodeAll(intended, 0, a);
      EncodeAll(intended, 0, a + b) == log + EncodeAll(intended, |log| % BLOCK_SIZE, b)
  {
    EncodeAllLength(intended, 0, a);
    OffsetOfLength(|EncodeAll(intended, 0, a)|, BlocksFilledAll(0, a), EndOffsetAll(0, a));
    EncodeAllConcat(intended, 0, a, b);
    if EndOffsetAll(0, a) == BLOCK_SIZE {
      BlockEndIsStartAll(intended, b);
    }
  }
}
