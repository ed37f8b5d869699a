/**
 A log file cut short at any byte: what a crash leaves behind.  The reader returns
 the records that are there completely, and nothing else.
 */
module LogTornTail {
  import opened Bytes
  import opened Coding
  import opened LogFormat
  import opened LogWriter
  import opened LogReader
  import opened LogRoundTrip

  /** How many records end within the first `c` bytes. */
  function Complete(intended: bool, off: Offset, records: seq<seq<byte>>, c: nat): (k: nat)
    ensures k <= |records|
    decreases |records|
  {
    if records == [] then 0
    else
      var n := |Encode(intended, off, records[0], true)|;
      if c < n then 0 else 1 + Complete(intended, EndOffset(off, |records[0]|), records[1..], c - n)
  }

  lemma TakeWithin<T>(a: seq<T>, b: seq<T>, c: nat)
    requires c <= |a|
    ensures (a + b)[..c] == a[..c]
  {
  }

  lemma TakeBeyond<T>(a: seq<T>, b: seq<T>, c: nat)
    requires |a| <= c <= |a| + |b|
    ensures (a + b)[..c] == a + b[..c - |a|]
  {
  }

  /** The file ends inside a chunk. */
  lemma TornChunk(intended: bool, off: Offset, data: seq<byte>, begin: bool, c: nat, checksum: bool)
    requires c < |Chunk(intended, off, data, begin)|
    ensures var p := NextPhysical(At(Chunk(intended, off, data, begin)[..c], off), checksum);
      p.kind == EOF_KIND && p.reports == []
  {
    var n := FragmentLength(off, |data|);
    var t := FragmentType(intended, begin, n == |data|);
    var trailer, f := Trailer(off), Fragment(t, data[..n]);
    if c < |trailer| {
      TakeWithin(trailer, f, c);
      TornTrailer(trailer[..c], off, checksum);
    } else {
      TakeBeyond(trailer, f, c);
      SkipTrailer(f[..c - |trailer|], off, checksum);
      TornFragment(t, data[..n], c - |trailer|, StartOffset(off), checksum);
    }
  }

  lemma FirstChunkTorn(intended: bool, off: Offset, data: seq<byte>, begin: bool, c: nat, inFragment: bool, scratch: seq<byte>, checksum: bool)
    requires c < |Chunk(intended, off, data, begin)|
    ensures var r := NextRecord(At(Chunk(intended, off, data, begin)[..c], off), inFragment, scratch, checksum);
      r.record == None && r.reports == []
  {
    TornChunk(intended, off, data, begin, c, checksum);
  }

  /** The file ends inside a record: the record is not returned, and nothing new is reported. */
  lemma {:induction false} TornRecord(intended: bool, off: Offset, data: seq<byte>, begin: bool, c: nat, inFragment: bool, scratch: seq<byte>, checksum: bool)
    requires begin || inFragment
    requires c < |Encode(intended, off, data, begin)|
    ensures var r := NextRecord(At(Encode(intended, off, data, begin)[..c], off), inFragment, scratch, checksum);
      r.record == None && r.reports <= Started(begin, inFragment, scratch)
    decreases |data|, if off == BLOCK_SIZE - HEADER_SIZE then 1 else 0
  {
    var chunk, after := Chunk(intended, off, data, begin), AfterChunk(intended, off, data);
    if c < |chunk| {
      TakeWithin(chunk, after, c);
      FirstChunkTorn(intended, off, data, begin, c, inFragment, scratch, checksum);
    } else {
      var n, next := FragmentLength(off, |data|), NextOffset(off, |data|);
      var rest := after[..c - |chunk|];
      TakeBeyond(chunk, after, c);
      NotLastChunk(intended, off, data, begin, rest, inFragment, scratch, checksum);
      TornRecord(intended, next, data[n..], false, c - |chunk|, true, Gathered(off, data, begin, scratch), checksum);
    }
  }

  /** A log cut off inside its first record. */
  lemma ReadTornHere(intended: bool, off: Offset, records: seq<seq<byte>>, c: nat, inFragment: bool, scratch: seq<byte>, checksum: bool)
    requires records != []
    requires c < |Encode(intended, off, records[0], true)|
    ensures var torn := ReadAll(At(EncodeAll(intended, off, records)[..c], off), inFragment, scratch, checksum);
      torn.records == [] && torn.reports <= Unfinished(inFragment, scratch)
  {
    TakeWithin(Encode(intended, off, records[0], true), EncodeAll(intended, EndOffset(off, |records[0]|), records[1..]), c);
    TornRecord(intended, off, records[0], true, c, inFragment, scratch, checksum);
  }

  /** What is read from a log of `records` that is cut off after `c` bytes. */
  ghost predicate TornAsExpected(log: Log, intended: bool, off: Offset, records: seq<seq<byte>>, k: nat, inFragment: bool, scratch: seq<byte>)
    requires k <= |records|
  {
    && log.records == Delivered(intended, off, records[..k])
    && log.reports <= Complaints(intended, off, records, inFragment, scratch)
  }

  /** `log` is `rest` with one record, `data`, in front of it. */
  ghost predicate OneMore(log: Log, rest: Log, intended: bool, off: Offset, data: seq<byte>, inFragment: bool, scratch: seq<byte>)
  {
    && log.records == DeliveredOf(intended, off, data) + rest.records
    && log.reports == Unfinished(inFragment, scratch) + rest.reports
  }

  lemma TornExtends(log: Log, rest: Log, intended: bool, off: Offset, records: seq<seq<byte>>, k: nat, inFragment: bool, scratch: seq<byte>)
    requires k < |records|
    requires OneMore(log, rest, intended, off, records[0], inFragment, scratch)
    requires TornAsExpected(rest, intended, EndOffset(off, |records[0]|), records[1..], k,
                            !Delivers(intended, off, |records[0]|), LostScratch(intended, off, records[0]))
    ensures TornAsExpected(log, intended, off, records, 1 + k, inFragment, scratch)
  {
    DeliveredOne(intended, off, records, k);
  }

  lemma TornStarts(log: Log, intended: bool, off: Offset, records: seq<seq<byte>>, inFragment: bool, scratch: seq<byte>)
    requires records != []
    requires log.records == [] && log.reports <= Unfinished(inFragment, scratch)
    ensures TornAsExpected(log, intended, off, records, 0, inFragment, scratch)
  {
    assert records[..0] == [];
  }

  /** What a cut-off log reads as. */
  function ReadCut(intended: bool, off: Offset, records: seq<seq<byte>>, c: nat, inFragment: bool, scratch: seq<byte>, checksum: bool): Log
    requires c <= |EncodeAll(intended, off, records)|
  {
    ReadAll(At(EncodeAll(intended, off, records)[..c], off), inFragment, scratch, checksum)
  }

  lemma EncodeAllNonempty(intended: bool, off: Offset, records: seq<seq<byte>>)
    requires records != []
    ensures |EncodeAll(intended, off, records)| ==
            |Encode(intended, off, records[0], true)| + |EncodeAll(intended, EndOffset(off, |records[0]|), records[1..])|
  {
  }

  /** A log cut off after its first record. */
  lemma ReadTornLater(intended: bool, off: Offset, records: seq<seq<byte>>, c: nat, inFragment: bool, scratch: seq<byte>, checksum: bool)
    requires records != []
    requires |Encode(intended, off, records[0], true)| <= c <= |EncodeAll(intended, off, records)|
    ensures var data, end := records[0], EndOffset(off, |records[0]|);
      OneMore(ReadCut(intended, off, records, c, inFragment, scratch, checksum),
              ReadCut(intended, end, records[1..], c - |Encode(intended, off, data, true)|,
                      !Delivers(intended, off, |data|), LostScratch(intended, off, data), checksum),
              intended, off, data, inFragment, scratch)
  {
    var data, end := records[0], EndOffset(off, |records[0]|);
    var first, r := Encode(intended, off, data, true), EncodeAll(intended, end, records[1..]);
    TakeBeyond(first, r, c);
    ReadAllOne(intended, off, data, r[..c - |first|], inFragment, scratch, checksum);
  }

  /** A log that is cut off before its first record ends. */
  lemma ReadTornFirst(intended: bool, off: Offset, records: seq<seq<byte>>, c: nat, inFragment: bool, scratch: seq<byte>, checksum: bool)
    requires c <= |EncodeAll(intended, off, records)|
    requires records != [] ==> c < |Encode(intended, off, records[0], true)|
    ensures TornAsExpected(ReadCut(intended, off, records, c, inFragment, scratch, checksum),
                           intended, off, records, 0, inFragment, scratch)
  {
    if records == [] {
      ReadEnd(off, inFragment, scratch, checksum);
    } else {
      ReadTornHere(intended, off, records, c, inFragment, scratch, checksum);
      TornStarts(ReadCut(intended, off, records, c, inFragment, scratch, checksum), intended, off, records, inFragment, scratch);
    }
  }

  /** A log that is cut off later: what holds of the rest holds of the whole. */
  lemma ReadTornRest(intended: bool, off: Offset, records: seq<seq<byte>>, c: nat, k: nat, inFragment: bool, scratch: seq<byte>, checksum: bool)
    requires k < |records|
    requires |Encode(intended, off, records[0], true)| <= c <= |EncodeAll(intended, off, records)|
    requires var data, end := records[0], EndOffset(off, |records[0]|);
      TornAsExpected(ReadCut(intended, end, records[1..], c - |Encode(intended, off, data, true)|,
                             !Delivers(intended, off, |data|), LostScratch(intended, off, data), checksum),
                     intended, end, records[1..], k, !Delivers(intended, off, |data|), LostScratch(intended, off, data))
    ensures TornAsExpected(ReadCut(intended, off, records, c, inFragment, scratch, checksum),
                           intended, off, records, 1 + k, inFragment, scratch)
  {
    var data, end := records[0], EndOffset(off, |records[0]|);
    ReadTornLater(intended, off, records, c, inFragment, scratch, checksum);
    TornExtends(ReadCut(intended, off, records, c, inFragment, scratch, checksum),
                ReadCut(intended, end, records[1..], c - |Encode(intended, off, data, true)|,
                        !Delivers(intended, off, |data|), LostScratch(intended, off, data), checksum),
                intended, off, records, k, inFragment, scratch);
  }

  /** The cut file holds the complete records, then a torn one. */
  lemma {:induction false} ReadTorn(intended: bool, off: Offset, records: seq<seq<byte>>, c: nat, k: nat, inFragment: bool, scratch: seq<byte>, checksum: bool)
    requires c <= |EncodeAll(intended, off, records)|
    requires k == Complete(intended, off, records, c)
    ensures TornAsExpected(ReadCut(intended, off, records, c, inFragment, scratch, checksum),
                           intended, off, records, k, inFragment, scratch)
    decreases |records|
  {
    if k == 0 {
      ReadTornFirst(intended, off, records, c, inFragment, scratch, checksum);
    } else {
      var data, end := records[0], EndOffset(off, |records[0]|);
      EncodeAllNonempty(intended, off, records);
      ReadTorn(intended, end, records[1..], c - |Encode(intended, off, data, true)|, k - 1,
               !Delivers(intended, off, |data|), LostScratch(intended, off, data), checksum);
      ReadTornRest(intended, off, records, c, k - 1, inFragment, scratch, checksum);
    }
  }

  lemma DeliveredOne(intended: bool, off: Offset, records: seq<seq<byte>>, k: nat)
    requires k < |records|
    ensures Delivered(intended, off, records[..1 + k]) ==
            DeliveredOf(intended, off, records[0]) +
            Delivered(intended, EndOffset(off, |records[0]|), records[1..][..k])
  {
    assert records[..1 + k][1..] == records[1..][..k];
  }

  // ----- The main theorems

  lemma ReadFileTorn(intended: bool, records: seq<seq<byte>>, c: nat, checksum: bool)
    requires c <= |EncodeAll(intended, 0, records)|
    ensures TornAsExpected(ReadFile(EncodeAll(intended, 0, records)[..c], checksum),
                           intended, 0, records, Complete(intended, 0, records, c), false, [])
  {
    ReadFileFromStart(EncodeAll(intended, 0, records)[..c], checksum);
    ReadTorn(intended, 0, records, c, Complete(intended, 0, records, c), false, [], checksum);
  }

  /**
   Cut the file anywhere: the reader returns what it returns for a log of just the
   complete records, and complains of nothing that it would not complain of anyway.
   */
  lemma TornTail(intended: bool, records: seq<seq<byte>>, c: nat, checksum: bool)
    requires c <= |EncodeAll(intended, 0, records)|
    ensures var whole := EncodeAll(intended, 0, records);
      var complete := records[..Complete(intended, 0, records, c)];
      && ReadFile(whole[..c], checksum).records == ReadFile(EncodeAll(intended, 0, complete), checksum).records
      && ReadFile(whole[..c], checksum).reports <= ReadFile(whole, checksum).reports
  {
    ReadFileTorn(intended, records, c, checksum);
    ReadFileOfWritten(intended, records[..Complete(intended, 0, records, c)], checksum);
    ReadFileOfWritten(intended, records, checksum);
  }

  /** With the intended writer: exactly the complete records, and no complaint. */
  lemma TornTailIntended(records: seq<seq<byte>>, c: nat, checksum: bool)
    requires c <= |EncodeAll(true, 0, records)|
    ensures ReadFile(EncodeAll(true, 0, records)[..c], checksum) == Log(records[..Complete(true, 0, records, c)], [])
  {
    TornTail(true, records, c, checksum);
    RoundTrip(records, checksum);
    RoundTrip(records[..Complete(true, 0, records, c)], checksum);
  }

  /** In either form the torn log yields a prefix of what the whole log yields. */
  lemma {:induction false} DeliveredPrefix(intended: bool, off: Offset, records: seq<seq<byte>>, k: nat)
    requires k <= |records|
    ensures Delivered(intended, off, records[..k]) <= Delivered(intended, off, records)
    decreases |records|
  {
    if k > 0 {
      DeliveredOne(intended, off, records, k - 1);
      DeliveredPrefix(intended, EndOffset(off, |records[0]|), records[1..], k - 1);
    }
  }

  lemma TornTailIsPrefix(intended: bool, records: seq<seq<byte>>, c: nat, checksum: bool)
    requires c <= |EncodeAll(intended, 0, records)|
    ensures var whole := EncodeAll(intended, 0, records);
      ReadFile(whole[..c], checksum).records <= ReadFile(whole, checksum).records
  {
    var k := Complete(intended, 0, records, c);
    TornTail(intended, records, c, checksum);
    ReadFileOfWritten(intended, records[..k], checksum);
    ReadFileOfWritten(intended, records, checksum);
    DeliveredPrefix(intended, 0, records, k);
  }
}
