/**
 The log reader, src/leveldb/__detail/log_reader.cc, with `initial_offset` 0 (the
 only value in use) and a file whose reads are short only at its end.

 With that offset the reader never resynchronises, every drop is reported, and
 the record offsets are written but not read, so they are not modelled.
 */
module LogReader {
  import opened Bytes
  import opened Coding
  import opened LogFormat

  const EOF_KIND: uint32 := 5
  const BAD_RECORD_KIND: uint32 := 6

  datatype Reason =
    | BadRecordLength
    | ChecksumMismatch
    | PartialRecordWithoutEnd
    | MissingStart
    | ErrorInMiddle
    | UnknownType(kind: uint32)

  /** One call of the reporter. */
  datatype Corruption = Corruption(bytes: nat, reason: Reason)

  /** `buffer` is what is left of the current block, `file` what has not been read yet. */
  datatype State = State(buffer: seq<byte>, file: seq<byte>, eof: bool) {
    function Size(): nat {
      |buffer| + |file|
    }
  }

  // ----- Physical records

  datatype Physical = Physical(kind: uint32, fragment: seq<byte>, next: State, reports: seq<Corruption>)

  /** A signed char widened to 32 bits. */
  function Widened(t: byte): uint32 {
    if t < 128 then t else TWO_32 - 256 + t
  }

  function Block(file: seq<byte>): (b: seq<byte>)
    ensures |b| <= BLOCK_SIZE && |b| <= |file|
  {
    if |file| < BLOCK_SIZE then file else file[..BLOCK_SIZE]
  }

  /** The state after `file_->read`. */
  function Refill(s: State): State {
    var b := Block(s.file);
    State(b, s.file[|b|..], |b| < BLOCK_SIZE)
  }

  /** What read_physical_record makes of a buffer that holds a whole header. */
  function ParseHeader(s: State, checksum: bool): (p: Physical)
    requires |s.buffer| >= HEADER_SIZE
    ensures p.next.Size() < s.Size()
  {
    var length := LengthField(s.buffer);
    var t := s.buffer[6];
    var dropped := s.(buffer := []);
    if HEADER_SIZE + length > |s.buffer| then
      if s.eof then Physical(EOF_KIND, [], dropped, [])
      else Physical(BAD_RECORD_KIND, [], dropped, [Corruption(|s.buffer|, BadRecordLength)])
    else if t == ZERO_TYPE && length == 0 then
      Physical(BAD_RECORD_KIND, [], dropped, [])
    else if checksum && !ChecksumMatches(s.buffer[..4], s.buffer[6..HEADER_SIZE + length]) then
      Physical(BAD_RECORD_KIND, [], dropped, [Corruption(|s.buffer|, ChecksumMismatch)])
    else
      Physical(Widened(t), s.buffer[HEADER_SIZE..HEADER_SIZE + length], s.(buffer := s.buffer[HEADER_SIZE + length..]), [])
  }

  function NextPhysical(s: State, checksum: bool): (p: Physical)
    ensures p.next.Size() <= s.Size()
    ensures p.kind != EOF_KIND ==> p.next.Size() < s.Size()
    decreases !s.eof, |s.file|
  {
    if |s.buffer| >= HEADER_SIZE then ParseHeader(s, checksum)
    else if s.eof then Physical(EOF_KIND, [], s.(buffer := []), [])
    else NextPhysical(Refill(s), checksum)
  }

  // ----- Records

  datatype Result = Result(record: Option<seq<byte>>, next: State, reports: seq<Corruption>)

  function Prepend(reports: seq<Corruption>, r: Result): Result {
    r.(reports := reports + r.reports)
  }

  function Unfinished(inFragment: bool, scratch: seq<byte>): seq<Corruption> {
    if inFragment && scratch != [] then [Corruption(|scratch|, PartialRecordWithoutEnd)] else []
  }

  /** What read_record does next: return, or go on gathering. */
  datatype Step =
    | Return(record: Option<seq<byte>>, reports: seq<Corruption>)
    | Continue(inFragment: bool, scratch: seq<byte>, reports: seq<Corruption>)

  function Dispatch(kind: uint32, f: seq<byte>, inFragment: bool, scratch: seq<byte>): (step: Step)
    ensures step.Continue? ==> kind != EOF_KIND
  {
    match kind
    case 1 => Return(Some(f), Unfinished(inFragment, scratch))
    case 2 => Continue(true, f, Unfinished(inFragment, scratch))
    case 3 =>
      if inFragment then Continue(true, scratch + f, [])
      else Continue(false, scratch, [Corruption(|f|, MissingStart)])
    case 4 =>
      if inFragment then Return(Some(scratch + f), [])
      else Continue(false, scratch, [Corruption(|f|, MissingStart)])
    case 5 => Return(None, [])
    case 6 =>
      if inFragment then Continue(false, [], [Corruption(|scratch|, ErrorInMiddle)])
      else Continue(false, scratch, [])
    case _ =>
      Continue(false, [], [Corruption(|f| + if inFragment then |scratch| else 0, UnknownType(kind))])
  }

  /** The loop of read_record, entered with what it has gathered so far. */
  function NextRecord(s: State, inFragment: bool, scratch: seq<byte>, checksum: bool): (r: Result)
    ensures r.next.Size() <= s.Size()
    ensures r.record.Some? ==> r.next.Size() < s.Size()
    decreases s.Size()
  {
    var p := NextPhysical(s, checksum);
    match Dispatch(p.kind, p.fragment, inFragment, scratch)
    case Return(record, reports) => Result(record, p.next, p.reports + reports)
    case Continue(i, t, reports) => Prepend(p.reports + reports, NextRecord(p.next, i, t, checksum))
  }

  datatype Log = Log(records: seq<seq<byte>>, reports: seq<Corruption>)

  /** Repeated read_record until it returns false. */
  function ReadAll(s: State, inFragment: bool, scratch: seq<byte>, checksum: bool): Log
    decreases s.Size()
  {
    var r := NextRecord(s, inFragment, scratch, checksum);
    match r.record
    case None => Log([], r.reports)
    case Some(record) =>
      var rest := ReadAll(r.next, false, [], checksum);
      Log([record] + rest.records, r.reports + rest.reports)
  }

  function Initial(file: seq<byte>): State {
    State([], file, false)
  }

  /** All that a reader gets out of a file. */
  function ReadFile(file: seq<byte>, checksum: bool): Log {
    ReadAll(Initial(file), false, [], checksum)
  }

  // ----- The reader

  class Reader {
    const checksum: bool
    var buffer: seq<byte>
    var file: seq<byte>
    var eof: bool
    var reports: seq<Corruption>

    constructor (file: seq<byte>, checksum: bool)
      ensures GetState() == Initial(file) && reports == [] && this.checksum == checksum
    {
      this.file := file;
      this.checksum := checksum;
      buffer := [];
      eof := false;
      reports := [];
    }

    function GetState(): State
      reads this
    {
      State(buffer, file, eof)
    }

    method ReportCorruption(bytes: nat, reason: Reason)
      modifies this`reports
      ensures reports == old(reports) + [Corruption(bytes, reason)]
    {
      reports := reports + [Corruption(bytes, reason)];
    }

    /** The part of read_physical_record that runs when a whole header is in the buffer. */
    method ReadHeader() returns (kind: uint32, fragment: seq<byte>)
      requires |buffer| >= HEADER_SIZE
      modifies this
      ensures var p := ParseHeader(old(GetState()), checksum);
        kind == p.kind && fragment == p.fragment && GetState() == p.next && reports == old(reports) + p.reports
    {
      var t := buffer[6];
      var length := LengthField(buffer);
      if HEADER_SIZE + length > |buffer| {
        var dropSize := |buffer|;
        buffer := [];
        if !eof {
          ReportCorruption(dropSize, BadRecordLength);
          return BAD_RECORD_KIND, [];
        }
        return EOF_KIND, [];
      }
      if t == ZERO_TYPE && length == 0 {
        buffer := [];
        return BAD_RECORD_KIND, [];
      }
      if checksum {
        if !ChecksumMatches(buffer[..4], buffer[6..HEADER_SIZE + length]) {
          var dropSize := |buffer|;
          buffer := [];
          ReportCorruption(dropSize, ChecksumMismatch);
          return BAD_RECORD_KIND, [];
        }
      }
      fragment := buffer[HEADER_SIZE..HEADER_SIZE + length];
      buffer := buffer[HEADER_SIZE + length..];
      return Widened(t), fragment;
    }

    method ReadPhysicalRecord() returns (kind: uint32, fragment: seq<byte>)
      modifies this
      ensures var p := NextPhysical(old(GetState()), checksum);
        kind == p.kind && fragment == p.fragment && GetState() == p.next && reports == old(reports) + p.reports
    {
      while |buffer| < HEADER_SIZE
        invariant reports == old(reports)
        invariant NextPhysical(GetState(), checksum) == NextPhysical(old(GetState()), checksum)
        decreases !eof, |file|
      {
        if eof {
          buffer := [];
          return EOF_KIND, [];
        }
        buffer := Block(file);
        file := file[|buffer|..];
        eof := |buffer| < BLOCK_SIZE;
      }
      kind, fragment := ReadHeader();
    }

    /** The switch of read_record. */
    method Switch(kind: uint32, fragment: seq<byte>, inFragmentedRecord: bool, scratch: seq<byte>) returns (step: Step)
      modifies this`reports
      ensures step == Dispatch(kind, fragment, inFragmentedRecord, scratch)
      ensures reports == old(reports) + step.reports
    {
      match kind
      case 1 =>
        if inFragmentedRecord && scratch != [] {
          ReportCorruption(|scratch|, PartialRecordWithoutEnd);
        }
        return Return(Some(fragment), Unfinished(inFragmentedRecord, scratch));
      case 2 =>
        if inFragmentedRecord && scratch != [] {
          ReportCorruption(|scratch|, PartialRecordWithoutEnd);
        }
        return Continue(true, fragment, Unfinished(inFragmentedRecord, scratch));
      case 3 =>
        if inFragmentedRecord {
          return Continue(true, scratch + fragment, []);
        }
        ReportCorruption(|fragment|, MissingStart);
        return Continue(false, scratch, [Corruption(|fragment|, MissingStart)]);
      case 4 =>
        if inFragmentedRecord {
          return Return(Some(scratch + fragment), []);
        }
        ReportCorruption(|fragment|, MissingStart);
        return Continue(false, scratch, [Corruption(|fragment|, MissingStart)]);
      case 5 =>
        return Return(None, []);
      case 6 =>
        if inFragmentedRecord {
          ReportCorruption(|scratch|, ErrorInMiddle);
          return Continue(false, [], [Corruption(|scratch|, ErrorInMiddle)]);
        }
        return Continue(false, scratch, []);
      case _ =>
        var dropped := |fragment| + if inFragmentedRecord then |scratch| else 0;
        ReportCorruption(dropped, UnknownType(kind));
        return Continue(false, [], [Corruption(dropped, UnknownType(kind))]);
    }

    method ReadRecord() returns (record: Option<seq<byte>>)
      modifies this
      ensures var r := NextRecord(old(GetState()), false, [], checksum);
        record == r.record && GetState() == r.next && reports == old(reports) + r.reports
    {
      var scratch: seq<byte> := [];
      var inFragmentedRecord := false;
      ghost var got: seq<Corruption> := [];
      ghost var goal := NextRecord(GetState(), false, [], checksum);
      while true
        invariant reports == old(reports) + got
        invariant goal == Prepend(got, NextRecord(GetState(), inFragmentedRecord, scratch, checksum))
        decreases GetState().Size()
      {
        ghost var before, state := reports, GetState();
        ghost var p := NextPhysical(state, checksum);
        var kind, fragment := ReadPhysicalRecord();
        var step := Switch(kind, fragment, inFragmentedRecord, scratch);
        ghost var more := p.reports + step.reports;
        ConcatAssociates(before, p.reports, step.reports);
        ConcatAssociates(old(reports), got, more);
        if step.Return? {
          return step.record;
        }
        assert GetState().Size() < state.Size();
        PrependTwice(got, more, NextRecord(GetState(), step.inFragment, step.scratch, checksum));
        got := got + more;
        inFragmentedRecord, scratch := step.inFragment, step.scratch;
      }
    }
  }

  lemma PrependTwice(a: seq<Corruption>, b: seq<Corruption>, r: Result)
    ensures Prepend(a, Prepend(b, r)) == Prepend(a + b, r)
  {
    ConcatAssociates(a, b, r.reports);
  }
}
