/**
 The manifest: `log_any_apply`, `recover` and the file-number counter of
 src/leveldb/__detail/version_set.cc, for the scalar fields of a version edit.

 All input and output succeeds.  Versions are not modelled: `save_to` is empty in
 the source, so the snapshot that opens a manifest holds the comparator name and
 the compact pointers only.
 */
module VersionSets {
  import opened Bytes
  import opened Coding
  import opened VersionEdits
  import opened LogFormat
  import opened LogWriter
  import opened LogReader
  import opened LogRoundTrip
  import opened LogTornTail

  // ----- Replaying edits

  /** The locals of `recover`; `None` stands for a false `have_` flag. */
  datatype Scalars = Scalars(log: Option<uint64>, prevLog: Option<uint64>, nextFile: Option<uint64>, sequence: Option<uint64>)

  const NO_SCALARS := Scalars(None, None, None, None)

  function Later<T>(old_: Option<T>, new_: Option<T>): Option<T> {
    if new_.Some? then new_ else old_
  }

  function Override(s: Scalars, e: Edit): Scalars {
    Scalars(Later(s.log, e.logNumber), Later(s.prevLog, e.prevLogNumber),
            Later(s.nextFile, e.nextFileNumber), Later(s.sequence, e.lastSequence))
  }

  /** An edit with every scalar leaves nothing of what was there before. */
  function ScalarsOf(e: Edit): Scalars {
    Scalars(e.logNumber, e.prevLogNumber, e.nextFileNumber, e.lastSequence)
  }

  function OverrideAll(s: Scalars, edits: seq<Edit>): Scalars
    decreases |edits|
  {
    if edits == [] then s else OverrideAll(Override(s, edits[0]), edits[1..])
  }

  datatype RecoverStatus =
    | Fine
    | DamagedLog(reason: Reason)
    | BadEdit(message: Message)
    | ComparatorMismatch
    | NoNextFile
    | NoLogNumber
    | NoLastSequence

  /** The reporter keeps the first corruption. */
  function Reported(status: RecoverStatus, reports: seq<LogReader.Corruption>): RecoverStatus {
    if status == Fine && reports != [] then DamagedLog(reports[0].reason) else status
  }

  function EditStatus(name: seq<byte>, d: (Status, Edit)): RecoverStatus {
    match d.0
    case Corruption(message) => BadEdit(message)
    case Ok => if d.1.comparator.Some? && d.1.comparator.value != name then ComparatorMismatch else Fine
  }

  /** The loop of `recover`. */
  function Replay(s: State, name: seq<byte>, status: RecoverStatus, acc: Scalars): (RecoverStatus, Scalars)
    decreases s.Size()
  {
    var r := NextRecord(s, false, [], true);
    var now := Reported(status, r.reports);
    if r.record.None? || now != Fine then (now, acc)
    else
      var d := Decode(r.record.value);
      Replay(r.next, name, EditStatus(name, d), Override(acc, d.1))
  }

  /** The checks after the loop. */
  function Checked(r: (RecoverStatus, Scalars)): RecoverStatus {
    if r.0 != Fine then r.0
    else if r.1.nextFile.None? then NoNextFile
    else if r.1.log.None? then NoLogNumber
    else if r.1.sequence.None? then NoLastSequence
    else Fine
  }

  function Successor(n: uint64): uint64 {
    (n + 1) % TWO_64
  }

  /** mark_file_number_used. */
  function Marked(nextFile: uint64, number: uint64): uint64 {
    if nextFile <= number then Successor(number) else nextFile
  }

  // ----- The class

  const NO_POINTERS: seq<InternalKey> := [[], [], [], [], [], [], []]

  /** The levels below `k` that have a compact pointer. */
  function SnapshotPointers(pointers: seq<InternalKey>, k: nat): seq<(int32, InternalKey)>
    requires k <= |pointers| == NUM_LEVELS
  {
    if k == 0 then []
    else SnapshotPointers(pointers, k - 1) + if pointers[k - 1] == [] then [] else [(k - 1, pointers[k - 1])]
  }

  /** What the manifest starts with. */
  function Snapshot(name: seq<byte>, pointers: seq<InternalKey>): Edit
    requires |pointers| == NUM_LEVELS
  {
    EMPTY.(comparator := Some(name), compactPointers := SnapshotPointers(pointers, NUM_LEVELS))
  }

  predicate IsSnapshot(e: Edit, name: seq<byte>) {
    e == EMPTY.(comparator := Some(name), compactPointers := e.compactPointers)
  }

  /** Levels that there are, and keys that `internal_key::encode` takes. */
  predicate PointersOk(ps: seq<(int32, InternalKey)>) {
    forall p :: p in ps ==> 0 <= p.0 < NUM_LEVELS && p.1 != []
  }

  /** The compact pointers after an edit: the last one for a level wins. */
  function PointersAfter(pointers: seq<InternalKey>, ps: seq<(int32, InternalKey)>): (r: seq<InternalKey>)
    requires |pointers| == NUM_LEVELS && PointersOk(ps)
    ensures |r| == NUM_LEVELS
  {
    if ps == [] then pointers
    else
      var last := ps[|ps| - 1];
      PointersAfter(pointers, ps[..|ps| - 1])[last.0 := last.1]
  }

  function Records(edits: seq<Edit>): seq<seq<byte>> {
    seq(|edits|, i requires 0 <= i < |edits| => VersionEdits.Encode(edits[i]))
  }

  lemma RecordsFirst(edits: seq<Edit>)
    requires edits != []
    ensures Records(edits) == [VersionEdits.Encode(edits[0])] + Records(edits[1..])
  {
  }

  lemma RecordsPrefix(edits: seq<Edit>, k: nat)
    requires k <= |edits|
    ensures Records(edits[..k]) == Records(edits)[..k]
  {
  }

  lemma RecordsAppend(edits: seq<Edit>, edit: Edit)
    ensures Records(edits + [edit]) == Records(edits) + [VersionEdits.Encode(edit)]
  {
  }

  /** Every scalar is there, as log_any_apply leaves it. */
  predicate AllScalars(e: Edit) {
    e.logNumber.Some? && e.prevLogNumber.Some? && e.nextFileNumber.Some? && e.lastSequence.Some?
  }

  /** A snapshot, then edits that carry every scalar. */
  predicate Logged(edits: seq<Edit>, name: seq<byte>) {
    edits != [] && IsSnapshot(edits[0], name) && forall i :: 0 < i < |edits| ==> AllScalars(edits[i])
  }

  lemma LoggedAppend(edits: seq<Edit>, name: seq<byte>, e: Edit)
    requires Logged(edits, name) && AllScalars(e)
    ensures Logged(edits + [e], name)
  {
  }

  /** The log numbers of the edits after the snapshot, up to `log`. */
  predicate LogsInOrder(edits: seq<Edit>, log: uint64) {
    && (forall i :: 0 < i < |edits| ==>
          AllScalars(edits[i]) && edits[i].logNumber.value <= log && edits[i].logNumber.value < edits[i].nextFileNumber.value)
    && (forall i, j :: 0 < i < j < |edits| ==> edits[i].logNumber.value <= edits[j].logNumber.value)
  }

  lemma LogsInOrderAppend(edits: seq<Edit>, log: uint64, e: Edit)
    requires edits != [] && AllScalars(e)
    ensures LogsInOrder(edits, log) && log <= e.logNumber.value < e.nextFileNumber.value ==> LogsInOrder(edits + [e], e.logNumber.value)
  {
  }

  /** Exactly `records` have been written through `w`. */
  ghost predicate Wrote(w: Writer, intended: bool, records: seq<seq<byte>>)
    reads w
  {
    && w.Valid()
    && w.intended == intended
    && w.dest == EncodeAll(intended, 0, records)
    && w.blockOffset == EndOffsetAll(0, records)
  }

  method WriteOne(w: Writer, ghost records: seq<seq<byte>>, record: seq<byte>)
    requires Wrote(w, w.intended, records)
    modifies w
    ensures Wrote(w, w.intended, records + [record])
  {
    AppendRecord(w.intended, records, record);
    w.AddRecord(record);
  }

  class VersionSet {
    const intended: bool
    const comparatorName: seq<byte>
    var nextFileNumber: uint64
    var manifestFileNumber: uint64
    var lastSequence: uint64
    var logNumber: uint64
    var prevLogNumber: uint64
    const compactPointer: array<InternalKey>
    var descriptorLog: Writer?
    /** The edits in the manifest, the snapshot first. */
    ghost var history: seq<Edit>

    ghost predicate Valid()
      reads this`descriptorLog, this`history, descriptorLog
    {
      compactPointer.Length == NUM_LEVELS &&
      if descriptorLog == null then history == []
      else
        && Wrote(descriptorLog, intended, Records(history))
        && Logged(history, comparatorName)
    }

    /** Log numbers never go back, and stay below the file numbers handed out. */
    ghost predicate Numbered()
      reads this`logNumber, this`nextFileNumber, this`history
    {
      logNumber < nextFileNumber && LogsInOrder(history, logNumber)
    }

    /** The name of a new manifest asserts that its number is not 0, so `recover` comes first. */
    predicate CanName()
      reads this
    {
      descriptorLog == null ==> manifestFileNumber > 0
    }

    constructor (intended: bool, comparatorName: seq<byte>)
      ensures Valid() && descriptorLog == null && history == []
      ensures this.intended == intended && this.comparatorName == comparatorName
      ensures nextFileNumber == 2
      ensures manifestFileNumber == lastSequence == logNumber == prevLogNumber == 0
      ensures fresh(compactPointer) && compactPointer[..] == NO_POINTERS
    {
      compactPointer := new InternalKey[NUM_LEVELS](_ => []);
      this.intended := intended;
      this.comparatorName := comparatorName;
      nextFileNumber := 2;
      manifestFileNumber, lastSequence, logNumber, prevLogNumber := 0, 0, 0, 0;
      descriptorLog := null;
      history := [];
      new;
      assert compactPointer[..] == NO_POINTERS;
    }

    method NewFileNumber() returns (n: uint64)
      modifies this`nextFileNumber
      ensures n == old(nextFileNumber) && nextFileNumber == Successor(n)
    {
      n := nextFileNumber;
      nextFileNumber := Successor(nextFileNumber);
    }

    method SetLastSequence(s: uint64)
      requires s >= lastSequence
      modifies this`lastSequence
      ensures lastSequence == s
    {
      lastSequence := s;
    }

    /** A number that is not used yet makes the counter the next one after it; past the largest number it starts again at 0. */
    method MarkFileNumberUsed(number: uint64)
      modifies this`nextFileNumber
      ensures number < old(nextFileNumber) ==> nextFileNumber == old(nextFileNumber)
      ensures old(nextFileNumber) <= number < MAX_UINT64 ==> nextFileNumber == number + 1
      ensures number == MAX_UINT64 ==> nextFileNumber == 0
      ensures nextFileNumber == Marked(old(nextFileNumber), number)
    {
      if nextFileNumber <= number {
        nextFileNumber := Successor(number);
      }
    }

    /** The bytes of the snapshot. */
    method WriteSnapShot() returns (record: seq<byte>)
      requires compactPointer.Length == NUM_LEVELS
      ensures record == VersionEdits.Encode(Snapshot(comparatorName, compactPointer[..]))
    {
      var edit := new VersionEdit();
      edit.SetComparatorName(comparatorName);
      for level: nat := 0 to NUM_LEVELS
        invariant fresh(edit)
        invariant edit.Value() == EMPTY.(comparator := Some(comparatorName), compactPointers := SnapshotPointers(compactPointer[..], level))
      {
        if compactPointer[level] != [] {
          edit.SetCompactPointer(level, compactPointer[level]);
        }
      }
      record := edit.EncodeTo([]);
    }

    /** A new manifest, with its snapshot. */
    method OpenManifest()
      requires Valid() && descriptorLog == null
      modifies this`descriptorLog, this`history
      ensures Valid() && descriptorLog != null && fresh(descriptorLog)
      ensures history == [Snapshot(comparatorName, compactPointer[..])]
    {
      var record := WriteSnapShot();
      descriptorLog := new Writer(intended, []);
      history := [Snapshot(comparatorName, compactPointer[..])];
      RecordsAppend([], history[0]);
      assert [] + history == history && Records([]) == [];
      WriteOne(descriptorLog, [], record);
    }

    method Append(ghost edit: Edit, record: seq<byte>)
      requires Valid() && descriptorLog != null
      requires AllScalars(edit) && record == VersionEdits.Encode(edit)
      modifies this`history, descriptorLog
      ensures Valid()
      ensures history == old(history) + [edit]
    {
      RecordsAppend(history, edit);
      LoggedAppend(history, comparatorName, edit);
      WriteOne(descriptorLog, Records(history), record);
      history := history + [edit];
    }

    method Complete(edit: VersionEdit)
      modifies edit
      ensures edit.Value() == Completed(old(edit.Value()), logNumber, prevLogNumber, nextFileNumber, lastSequence)
      ensures edit.hasLogNumber && edit.hasPrevLogNumber
    {
      if !edit.hasLogNumber {
        edit.SetLogNumber(logNumber);
      }
      if !edit.hasPrevLogNumber {
        edit.SetPrevLogNumber(prevLogNumber);
      }
      edit.SetNextFile(nextFileNumber);
      edit.SetLastSequence(lastSequence);
    }

    /** What `builder::apply` does beside gathering files. */
    method ApplyPointers(ps: seq<(int32, InternalKey)>)
      requires compactPointer.Length == NUM_LEVELS && PointersOk(ps)
      modifies compactPointer
      ensures compactPointer[..] == PointersAfter(old(compactPointer[..]), ps)
    {
      for i := 0 to |ps|
        invariant compactPointer[..] == PointersAfter(old(compactPointer[..]), ps[..i])
      {
        assert ps[..i + 1][..i] == ps[..i];
        assert ps[i] in ps;
        compactPointer[ps[i].0] := ps[i].1;
      }
      assert ps[..|ps|] == ps;
    }

    /**
     log_any_apply: fill in what the edit leaves open, adopt its compact pointers,
     open a manifest with a snapshot if there is none, and append the edit.
     */
    method LogAnyApply(edit: VersionEdit)
      requires Valid()
      requires edit.hasLogNumber ==> logNumber < edit.logNumber < nextFileNumber
      requires CanName()
      requires PointersOk(edit.compactPointers)
      modifies this`logNumber, this`prevLogNumber, this`descriptorLog, this`history, compactPointer, descriptorLog, edit
      ensures Valid() && descriptorLog != null
      ensures descriptorLog == old(descriptorLog) || fresh(descriptorLog)
      ensures edit.Value() == Completed(old(edit.Value()), old(logNumber), old(prevLogNumber), nextFileNumber, lastSequence)
      ensures compactPointer[..] == PointersAfter(old(compactPointer[..]), old(edit.compactPointers))
      ensures edit.hasLastSequence && edit.lastSequence == lastSequence
      ensures edit.hasNextFileNumber && edit.nextFileNumber == nextFileNumber
      ensures logNumber == edit.logNumber == if old(edit.hasLogNumber) then old(edit.logNumber) else old(logNumber)
      ensures prevLogNumber == edit.prevLogNumber == if old(edit.hasPrevLogNumber) then old(edit.prevLogNumber) else old(prevLogNumber)
      ensures edit.Value() == old(edit.Value()).(logNumber := Some(logNumber), prevLogNumber := Some(prevLogNumber),
                                                 nextFileNumber := Some(nextFileNumber), lastSequence := Some(lastSequence))
      ensures history == (if old(descriptorLog) == null then [Snapshot(comparatorName, compactPointer[..])] else old(history)) + [edit.Value()]
      ensures old(Numbered()) ==> Numbered()
    {
      var record := Prepare(edit);
      WriteEdit(edit.Value(), record, edit.logNumber, edit.prevLogNumber);
    }

    /** The edit with all its scalars, its compaction pointers set and its bytes. */
    method Prepare(edit: VersionEdit) returns (record: seq<byte>)
      requires Valid() && PointersOk(edit.compactPointers)
      modifies compactPointer, edit
      ensures Valid() && record == VersionEdits.Encode(edit.Value())
      ensures edit.Value() == Completed(old(edit.Value()), logNumber, prevLogNumber, nextFileNumber, lastSequence)
      ensures compactPointer[..] == PointersAfter(old(compactPointer[..]), old(edit.compactPointers))
    {
      Complete(edit);
      ApplyPointers(edit.compactPointers);
      record := edit.EncodeTo([]);
    }

    /** Append a completed edit, after a snapshot if the manifest is new, and adopt its log numbers. */
    method WriteEdit(ghost e: Edit, record: seq<byte>, log: uint64, prevLog: uint64)
      requires Valid() && AllScalars(e) && record == VersionEdits.Encode(e)
      requires log == e.logNumber.value && prevLog == e.prevLogNumber.value
      modifies this`logNumber, this`prevLogNumber, this`descriptorLog, this`history, descriptorLog
      ensures Valid() && descriptorLog != null
      ensures descriptorLog == old(descriptorLog) || fresh(descriptorLog)
      ensures history == (if old(descriptorLog) == null then [Snapshot(comparatorName, compactPointer[..])] else old(history)) + [e]
      ensures logNumber == log && prevLogNumber == prevLog
      ensures old(Numbered()) && old(logNumber) <= log < e.nextFileNumber.value == nextFileNumber ==> Numbered()
    {
      EnsureManifest(logNumber);
      LogsInOrderAppend(history, logNumber, e);
      Append(e, record);
      AdoptLogNumbers(log, prevLog);
    }

    method AdoptLogNumbers(log: uint64, prevLog: uint64)
      requires Valid()
      modifies this`logNumber, this`prevLogNumber
      ensures Valid() && logNumber == log && prevLogNumber == prevLog
    {
      logNumber, prevLogNumber := log, prevLog;
    }

    method EnsureManifest(ghost log: uint64)
      requires Valid()
      modifies this`descriptorLog, this`history
      ensures Valid() && descriptorLog != null && history != []
      ensures descriptorLog == old(descriptorLog) || fresh(descriptorLog)
      ensures history == if old(descriptorLog) == null then [Snapshot(comparatorName, compactPointer[..])] else old(history)
      ensures LogsInOrder(old(history), log) ==> LogsInOrder(history, log)
    {
      if descriptorLog == null {
        OpenManifest();
      }
    }

    /** The loop of recover, over the manifest `file`. */
    method ReplayLog(file: seq<byte>) returns (status: RecoverStatus, acc: Scalars)
      ensures (status, acc) == Replay(Initial(file), comparatorName, Fine, NO_SCALARS)
    {
      var reader := new Reader(file, true);
      status, acc := Fine, NO_SCALARS;
      var edit := new VersionEdit();
      var more := true;
      while more
        invariant fresh(reader) && fresh(edit) && reader.checksum
        invariant more ==> Replay(reader.GetState(), comparatorName, status, acc) == Replay(Initial(file), comparatorName, Fine, NO_SCALARS)
        invariant !more ==> (status, acc) == Replay(Initial(file), comparatorName, Fine, NO_SCALARS)
        decreases more, reader.GetState().Size()
      {
        status, acc, more := ReplayRecord(reader, edit, status, acc);
      }
    }

    /** One turn of the loop; whether there is another one. */
    method ReplayRecord(reader: Reader, edit: VersionEdit, status: RecoverStatus, acc: Scalars)
      returns (status': RecoverStatus, acc': Scalars, more: bool)
      requires reader.checksum
      modifies reader, edit
      ensures var was := Replay(old(reader.GetState()), comparatorName, status, acc);
        if more then Replay(reader.GetState(), comparatorName, status', acc') == was else (status', acc') == was
      ensures more ==> reader.GetState().Size() < old(reader.GetState()).Size()
    {
      reader.reports := [];
      var record := reader.ReadRecord();
      status', acc' := Reported(status, reader.reports), acc;
      more := record.Some? && status' == Fine;
      if more {
        var s := edit.DecodeFrom(record.value);
        status' := EditStatus(comparatorName, (s, edit.Value()));
        acc' := Override(acc, edit.Value());
      }
    }

    /** recover, with reuse_logs off: the caller has to write a new manifest. */
    method Recover(file: seq<byte>) returns (status: RecoverStatus, saveManifest: bool)
      modifies this`nextFileNumber, this`manifestFileNumber, this`lastSequence, this`logNumber, this`prevLogNumber
      ensures var r := Replay(Initial(file), comparatorName, Fine, NO_SCALARS);
        && status == Checked(r)
        && saveManifest == (status == Fine)
        && GetCounters() == if status == Fine then RecoveredCounters(r.1) else FailedCounters(old(GetCounters()), r.1)
    {
      var acc;
      status, acc := ReplayLog(file);
      status := Checked((status, acc));
      var prevLog := if acc.prevLog.Some? then acc.prevLog.value else 0;
      var log := if acc.log.Some? then acc.log.value else 0;
      MarkFileNumberUsed(prevLog);
      MarkFileNumberUsed(log);
      saveManifest := false;
      if status == Fine {
        manifestFileNumber := acc.nextFile.value;
        nextFileNumber := Successor(acc.nextFile.value);
        lastSequence := acc.sequence.value;
        logNumber := log;
        prevLogNumber := prevLog;
        saveManifest := true;
      }
    }

    function GetCounters(): Counters
      reads this
    {
      Counters(nextFileNumber, manifestFileNumber, lastSequence, logNumber, prevLogNumber)
    }
  }

  datatype Counters = Counters(nextFile: uint64, manifestFile: uint64, sequence: uint64, log: uint64, prevLog: uint64)

  function OrZero(v: Option<uint64>): uint64 {
    if v.Some? then v.value else 0
  }

  function RecoveredCounters(s: Scalars): Counters
    requires s.nextFile.Some? && s.sequence.Some?
  {
    Counters(Successor(s.nextFile.value), s.nextFile.value, s.sequence.value, OrZero(s.log), OrZero(s.prevLog))
  }

  /** A failed recovery marks file numbers as used all the same. */
  function FailedCounters(c: Counters, s: Scalars): Counters {
    c.(nextFile := Marked(Marked(c.nextFile, OrZero(s.prevLog)), OrZero(s.log)))
  }

  /** The edit as log_any_apply writes it. */
  function Completed(e: Edit, log: uint64, prevLog: uint64, nextFile: uint64, sequence: uint64): Edit {
    e.(logNumber := Some(if e.logNumber.Some? then e.logNumber.value else log),
       prevLogNumber := Some(if e.prevLogNumber.Some? then e.prevLogNumber.value else prevLog),
       nextFileNumber := Some(nextFile),
       lastSequence := Some(sequence))
  }

  lemma AppendRecord(intended: bool, records: seq<seq<byte>>, record: seq<byte>)
    ensures var off := EndOffsetAll(0, records);
      && EncodeAll(intended, 0, records + [record]) == EncodeAll(intended, 0, records) + LogWriter.Encode(intended, off, record, true)
      && EndOffsetAll(0, records + [record]) == EndOffset(off, |record|)
  {
    EncodeAllConcat(intended, 0, records, [record]);
    OneRecord(intended, EndOffsetAll(0, records), record);
  }

  lemma OneRecord(intended: bool, off: Offset, record: seq<byte>)
    ensures EncodeAll(intended, off, [record]) == LogWriter.Encode(intended, off, record, true)
    ensures EndOffsetAll(off, [record]) == EndOffset(off, |record|)
  {
    assert [record][1..] == [];
  }

  // ----- Recovery restores what was logged

  /** An edit that a reader of the manifest accepts. */
  predicate Readable(name: seq<byte>, e: Edit) {
    Representable(e) && (e.comparator.Some? ==> e.comparator.value == name)
  }

  predicate AllReadable(name: seq<byte>, edits: seq<Edit>) {
    forall e :: e in edits ==> Readable(name, e)
  }

  lemma ReplayStep(s: State, name: seq<byte>, acc: Scalars, e: Edit)
    requires Readable(name, e)
    requires NextRecord(s, false, [], true).record == Some(VersionEdits.Encode(e))
    requires NextRecord(s, false, [], true).reports == []
    ensures Replay(s, name, Fine, acc) == Replay(NextRecord(s, false, [], true).next, name, Fine, Override(acc, e))
  {
    ReadEncoded(e);
  }

  lemma ReadAllStep(s: State, first: seq<byte>, rest: seq<seq<byte>>)
    requires ReadAll(s, false, [], true) == Log([first] + rest, [])
    ensures var r := NextRecord(s, false, [], true);
      r.record == Some(first) && r.reports == [] && ReadAll(r.next, false, [], true) == Log(rest, [])
  {
    var r := NextRecord(s, false, [], true);
    assert r.record.Some?;
    var more := ReadAll(r.next, false, [], true);
    assert [r.record.value] + more.records == [first] + rest;
    assert ([r.record.value] + more.records)[1..] == more.records && ([first] + rest)[1..] == rest;
  }

  lemma ReplayEnd(s: State, name: seq<byte>, acc: Scalars)
    requires ReadAll(s, false, [], true) == Log([], [])
    ensures Replay(s, name, Fine, acc) == (Fine, acc)
  {
    var r := NextRecord(s, false, [], true);
    assert r.record.None?;
    assert r.reports == [];
  }

  lemma {:induction false} ReplayLogged(s: State, name: seq<byte>, acc: Scalars, edits: seq<Edit>)
    requires AllReadable(name, edits)
    requires ReadAll(s, false, [], true) == Log(Records(edits), [])
    ensures Replay(s, name, Fine, acc) == (Fine, OverrideAll(acc, edits))
    decreases |edits|
  {
    if edits != [] {
      RecordsFirst(edits);
      ReadAllStep(s, VersionEdits.Encode(edits[0]), Records(edits[1..]));
      ReplayStep(s, name, acc, edits[0]);
      ReplayLogged(NextRecord(s, false, [], true).next, name, Override(acc, edits[0]), edits[1..]);
    } else {
      ReplayEnd(s, name, acc);
    }
  }

  /** The scalars of the last edit win. */
  lemma {:induction false} LastEditWins(acc: Scalars, edits: seq<Edit>)
    requires edits != [] && AllScalars(edits[|edits| - 1])
    ensures OverrideAll(acc, edits) == ScalarsOf(edits[|edits| - 1])
    decreases |edits|
  {
    if |edits| > 1 {
      LastEditWins(Override(acc, edits[0]), edits[1..]);
    } else {
      assert edits[1..] == [];
    }
  }

  /** A manifest as log_any_apply leaves it: a snapshot, then edits with all scalars. */
  predicate Manifest(intended: bool, name: seq<byte>, edits: seq<Edit>) {
    && Logged(edits, name)
    && |name| < TWO_32
    && AllReadable(name, edits)
    && (intended || AllFit(0, Records(edits)))
  }

  /** Cut the manifest anywhere: what is replayed are the edits that are complete. */
  lemma ReplayTorn(intended: bool, name: seq<byte>, edits: seq<Edit>, c: nat)
    requires Manifest(intended, name, edits)
    requires c <= |EncodeAll(intended, 0, Records(edits))|
    ensures var k := Complete(intended, 0, Records(edits), c);
      Replay(Initial(EncodeAll(intended, 0, Records(edits))[..c]), name, Fine, NO_SCALARS) ==
      (Fine, OverrideAll(NO_SCALARS, edits[..k]))
  {
    var records := Records(edits);
    var file := EncodeAll(intended, 0, records)[..c];
    var k := Complete(intended, 0, records, c);
    TornRead(intended, records, c);
    RecordsPrefix(edits, k);
    ReplayLogged(Initial(file), name, NO_SCALARS, edits[..k]);
  }

  lemma TornRead(intended: bool, records: seq<seq<byte>>, c: nat)
    requires intended || AllFit(0, records)
    requires c <= |EncodeAll(intended, 0, records)|
    ensures ReadFile(EncodeAll(intended, 0, records)[..c], true) == Log(records[..Complete(intended, 0, records, c)], [])
  {
    var k := Complete(intended, 0, records, c);
    TornTail(intended, records, c, true);
    if intended {
      LogRoundTrip.RoundTrip(records, true);
      LogRoundTrip.RoundTrip(records[..k], true);
    } else {
      AllFitPrefix(0, records, k);
      RoundTripAsWritten(records, true);
      RoundTripAsWritten(records[..k], true);
    }
  }

  lemma {:induction false} AllFitPrefix(off: Offset, records: seq<seq<byte>>, k: nat)
    requires k <= |records| && AllFit(off, records)
    ensures AllFit(off, records[..k])
    decreases |records|
  {
    if k > 0 {
      assert records[..k][1..] == records[1..][..k - 1];
      AllFitPrefix(EndOffset(off, |records[0]|), records[1..], k - 1);
    }
  }

  // ----- The main theorems

  /** What `recover` makes of a manifest file. */
  function RecoverFile(name: seq<byte>, file: seq<byte>): (RecoverStatus, Scalars) {
    var r := Replay(Initial(file), name, Fine, NO_SCALARS);
    (Checked(r), r.1)
  }

  /** What recovery gives for edits that are all read and accepted. */
  function Recovered(edits: seq<Edit>): (RecoverStatus, Scalars) {
    if |edits| <= 1 then (NoNextFile, NO_SCALARS) else (Fine, ScalarsOf(edits[|edits| - 1]))
  }

  lemma RecoveredFromAll(name: seq<byte>, edits: seq<Edit>)
    requires edits == [] || Logged(edits, name)
    ensures var r := (Fine, OverrideAll(NO_SCALARS, edits)); (Checked(r), r.1) == Recovered(edits)
  {
    if |edits| <= 1 {
      if |edits| == 1 {
        assert edits[1..] == [];
      }
    } else {
      LastEditWins(NO_SCALARS, edits);
    }
  }

  /**
   A crash cuts the manifest off after `c` bytes: recovery restores the scalars of
   the last edit that was written completely, and refuses a manifest that has none.
   */
  lemma CrashConsistent(intended: bool, name: seq<byte>, edits: seq<Edit>, c: nat)
    requires Manifest(intended, name, edits)
    requires c <= |EncodeAll(intended, 0, Records(edits))|
    ensures var k := Complete(intended, 0, Records(edits), c);
      RecoverFile(name, EncodeAll(intended, 0, Records(edits))[..c]) == Recovered(edits[..k])
  {
    var k := Complete(intended, 0, Records(edits), c);
    ReplayTorn(intended, name, edits, c);
    RecoveredFromAll(name, edits[..k]);
  }

  lemma {:induction false} AllComplete(intended: bool, off: Offset, records: seq<seq<byte>>)
    ensures Complete(intended, off, records, |EncodeAll(intended, off, records)|) == |records|
    decreases |records|
  {
    if records != [] {
      AllComplete(intended, EndOffset(off, |records[0]|), records[1..]);
    }
  }

  /** The whole manifest: recovery restores the scalars of the last edit. */
  lemma RecoverRestores(intended: bool, name: seq<byte>, edits: seq<Edit>)
    requires Manifest(intended, name, edits) && |edits| > 1
    ensures RecoverFile(name, EncodeAll(intended, 0, Records(edits))) == (Fine, ScalarsOf(edits[|edits| - 1]))
  {
    var n := |EncodeAll(intended, 0, Records(edits))|;
    AllComplete(intended, 0, Records(edits));
    CrashConsistent(intended, name, edits, n);
    TakeAll(EncodeAll(intended, 0, Records(edits)));
    TakeAll(edits);
  }

  lemma TakeAll<T>(s: seq<T>)
    ensures s[..|s|] == s
  {
  }

  // ----- Edits that do not fit in one fragment, with the writer as written

  /** The first record that does not fit in one fragment where it starts; their number if all fit. */
  function FirstLong(off: Offset, records: seq<seq<byte>>): (k: nat)
    ensures k <= |records|
    decreases |records|
  {
    if records == [] || !FitsInOne(off, |records[0]|) then 0
    else 1 + FirstLong(EndOffset(off, |records[0]|), records[1..])
  }

  /** A lost record with another one behind it is reported when that one starts. */
  lemma LostIsReported(off: Offset, records: seq<seq<byte>>)
    requires |records| > 1 && !FitsInOne(off, |records[0]|)
    ensures var r := NextRecord(At(EncodeAll(false, off, records), off), false, [], true);
      r.reports != [] && r.reports[0].reason == PartialRecordWithoutEnd
  {
    var data, end := records[0], EndOffset(off, |records[0]|);
    var rest := EncodeAll(false, end, records[1..]);
    ReadOne(false, off, data, rest, false, [], true);
    ReadOne(false, end, records[1], EncodeAll(false, EndOffset(end, |records[1]|), records[1..][1..]), true, data, true);
  }

  /** Without another one behind it, it is not. */
  lemma LastIsLost(off: Offset, record: seq<byte>)
    requires !FitsInOne(off, |record|)
    ensures var r := NextRecord(At(EncodeAll(false, off, [record]), off), false, [], true); r.record == None && r.reports == []
  {
    OneRecord(false, off, record);
    NothingAfter(LogWriter.Encode(false, off, record, true));
    ReadOne(false, off, record, [], false, [], true);
    NothingMore(EndOffset(off, |record|), record);
  }

  lemma NothingAfter(s: seq<byte>)
    ensures s + [] == s
  {
  }

  lemma NothingMore(off: Offset, scratch: seq<byte>)
    ensures NextRecord(At([], off), true, scratch, true).record == None && NextRecord(At([], off), true, scratch, true).reports == []
  {
    ReadEnd(off, true, scratch, true);
  }

  /** What replaying gives if edit `k` is the first that does not fit. */
  predicate Outcome(r: (RecoverStatus, Scalars), k: nat, acc: Scalars, edits: seq<Edit>) {
    if k + 1 < |edits| then r.0 == DamagedLog(PartialRecordWithoutEnd)
    else k <= |edits| && r == (Fine, OverrideAll(acc, edits[..k]))
  }

  lemma OutcomeMore(r: (RecoverStatus, Scalars), k: nat, acc: Scalars, edits: seq<Edit>)
    requires edits != [] && k > 0 && Outcome(r, k - 1, Override(acc, edits[0]), edits[1..])
    ensures Outcome(r, k, acc, edits)
  {
    if k + 1 >= |edits| {
      assert edits[..k][1..] == edits[1..][..k - 1];
    }
  }

  lemma NothingReplayed(off: Offset, name: seq<byte>, acc: Scalars)
    ensures Outcome(ReplayFrom(off, name, acc, []), FirstLong(off, Records([])), acc, [])
  {
    ReadEnd(off, false, [], true);
    assert Records([]) == [];
  }

  /** Replay of a log of the writer as written, from any block offset. */
  function ReplayFrom(off: Offset, name: seq<byte>, acc: Scalars, edits: seq<Edit>): (RecoverStatus, Scalars)
  {
    Replay(At(EncodeAll(false, off, Records(edits)), off), name, Fine, acc)
  }

  lemma {:induction false} ReplayAsWritten(off: Offset, name: seq<byte>, acc: Scalars, edits: seq<Edit>)
    requires AllReadable(name, edits)
    ensures Outcome(ReplayFrom(off, name, acc, edits), FirstLong(off, Records(edits)), acc, edits)
    decreases |edits|
  {
    if edits == [] {
      NothingReplayed(off, name, acc);
    } else {
      var n := |VersionEdits.Encode(edits[0])|;
      if FitsInOne(off, n) {
        var end := EndOffset(off, n);
        ReplayAsWritten(end, name, Override(acc, edits[0]), edits[1..]);
        ReplayFitting(off, name, acc, edits);
        FittingFirst(off, edits);
        OutcomeMore(ReplayFrom(off, name, acc, edits), FirstLong(off, Records(edits)), acc, edits);
      } else {
        LostFirst(off, name, acc, edits);
      }
    }
  }

  lemma FittingFirst(off: Offset, edits: seq<Edit>)
    requires edits != []
    requires FitsInOne(off, |VersionEdits.Encode(edits[0])|)
    ensures FirstLong(off, Records(edits)) == 1 + FirstLong(EndOffset(off, |VersionEdits.Encode(edits[0])|), Records(edits[1..]))
  {
    RecordsFirst(edits);
    FirstLongMore(off, VersionEdits.Encode(edits[0]), Records(edits[1..]));
  }

  lemma FirstLongMore(off: Offset, first: seq<byte>, rest: seq<seq<byte>>)
    requires FitsInOne(off, |first|)
    ensures FirstLong(off, [first] + rest) == 1 + FirstLong(EndOffset(off, |first|), rest)
  {
    assert ([first] + rest)[1..] == rest;
  }

  lemma LostFirst(off: Offset, name: seq<byte>, acc: Scalars, edits: seq<Edit>)
    requires edits != []
    requires !FitsInOne(off, |VersionEdits.Encode(edits[0])|)
    ensures Outcome(ReplayFrom(off, name, acc, edits), FirstLong(off, Records(edits)), acc, edits)
  {
    var records := Records(edits);
    assert records[0] == VersionEdits.Encode(edits[0]);
    if |edits| == 1 {
      assert records == [records[0]];
      LastIsLost(off, records[0]);
      assert edits[..0] == [];
    } else {
      LostIsReported(off, records);
    }
  }

  lemma ReplayFitting(off: Offset, name: seq<byte>, acc: Scalars, edits: seq<Edit>)
    requires edits != [] && Readable(name, edits[0])
    requires FitsInOne(off, |VersionEdits.Encode(edits[0])|)
    ensures var end := EndOffset(off, |VersionEdits.Encode(edits[0])|);
      ReplayFrom(off, name, acc, edits) == ReplayFrom(end, name, Override(acc, edits[0]), edits[1..])
  {
    var data := VersionEdits.Encode(edits[0]);
    assert Records(edits)[0] == data && Records(edits)[1..] == Records(edits[1..]);
    ReadOne(false, off, data, EncodeAll(false, EndOffset(off, |data|), Records(edits[1..])), false, [], true);
    ReplayStep(At(EncodeAll(false, off, Records(edits)), off), name, acc, edits[0]);
  }

  lemma ReplayFromStart(name: seq<byte>, file: seq<byte>)
    ensures Replay(Initial(file), name, Fine, NO_SCALARS) == Replay(At(file, 0), name, Fine, NO_SCALARS)
  {
    assert Refill(Initial(file)) == At(file, 0);
    assert NextPhysical(Initial(file), true) == NextPhysical(At(file, 0), true);
    assert NextRecord(Initial(file), false, [], true) == NextRecord(At(file, 0), false, [], true);
  }

  lemma ReplayAsWrittenFile(name: seq<byte>, edits: seq<Edit>)
    requires AllReadable(name, edits)
    ensures var k := FirstLong(0, Records(edits));
      var r := Replay(Initial(EncodeAll(false, 0, Records(edits))), name, Fine, NO_SCALARS);
      if k + 1 < |edits| then r.0 == DamagedLog(PartialRecordWithoutEnd)
      else r == (Fine, OverrideAll(NO_SCALARS, edits[..k]))
  {
    ReplayFromStart(name, EncodeAll(false, 0, Records(edits)));
    ReplayAsWritten(0, name, NO_SCALARS, edits);
  }

  /**
   The writer as written, for any edits: if all but the last fit in one fragment
   where they start, recovery restores the scalars of the last one that fits, and a
   last one that does not fit is lost without a trace; if an earlier one does not
   fit, recovery fails.
   */
  lemma RecoverAsWritten(name: seq<byte>, edits: seq<Edit>)
    requires Logged(edits, name) && |name| < TWO_32 && AllReadable(name, edits)
    ensures var k := FirstLong(0, Records(edits));
      var r := RecoverFile(name, EncodeAll(false, 0, Records(edits)));
      if k + 1 < |edits| then r.0 == DamagedLog(PartialRecordWithoutEnd) else r == Recovered(edits[..k])
  {
    var k := FirstLong(0, Records(edits));
    ReplayAsWrittenFile(name, edits);
    if k + 1 >= |edits| {
      assert edits[..k] == [] || Logged(edits[..k], name);
      RecoveredFromAll(name, edits[..k]);
    }
  }

  // ----- File numbers after a recovery

  /** The next file number is new for the manifest and for every log number on record. */
  predicate NumbersAreNew(edits: seq<Edit>, s: Scalars) {
    s.nextFile.Some? && s.sequence.Some? &&
    var c := RecoveredCounters(s);
    && c.manifestFile < c.nextFile
    && forall i :: 0 < i < |edits| ==> edits[i].logNumber.Some? && edits[i].logNumber.value < c.nextFile
  }

  lemma LastNumbersAreNew(edits: seq<Edit>, log: uint64)
    requires |edits| > 1 && LogsInOrder(edits, log)
    requires edits[|edits| - 1].nextFileNumber.value < MAX_UINT64
    ensures NumbersAreNew(edits, ScalarsOf(edits[|edits| - 1]))
  {
    var n := edits[|edits| - 1].nextFileNumber.value;
    assert Successor(n) == n + 1;
    forall i | 0 < i < |edits|
      ensures edits[i].logNumber.value < n
    {
      if i < |edits| - 1 {
        assert edits[i].logNumber.value <= edits[|edits| - 1].logNumber.value;
      }
    }
  }

  /** After a recovery no file number that was on record is handed out again. */
  lemma RecoveredNumbersAreNew(intended: bool, name: seq<byte>, edits: seq<Edit>, log: uint64)
    requires Manifest(intended, name, edits) && |edits| > 1
    requires LogsInOrder(edits, log)
    requires edits[|edits| - 1].nextFileNumber.value < MAX_UINT64
    ensures NumbersAreNew(edits, RecoverFile(name, EncodeAll(intended, 0, Records(edits))).1)
  {
    RecoverRestores(intended, name, edits);
    LastNumbersAreNew(edits, log);
  }

  /**
   `recover` marks the log numbers as used before it overwrites the counter, so the
   marks are lost: after recovery from a manifest the counter is beyond both log
   numbers exactly if the counter in the last edit is not below them and not the
   largest number.
   */
  lemma MarksAreOverwritten(intended: bool, name: seq<byte>, edits: seq<Edit>)
    requires Manifest(intended, name, edits) && |edits| > 1
    ensures var last := edits[|edits| - 1];
      var r := RecoverFile(name, EncodeAll(intended, 0, Records(edits)));
      && r.0 == Fine && r.1.nextFile.Some? && r.1.sequence.Some?
      && var c := RecoveredCounters(r.1);
      (c.log < c.nextFile && c.prevLog < c.nextFile) <==>
      (&& last.nextFileNumber.value < MAX_UINT64
       && last.logNumber.value <= last.nextFileNumber.value
       && last.prevLogNumber.value <= last.nextFileNumber.value)
  {
    RecoverRestores(intended, name, edits);
    SuccessorCases(edits[|edits| - 1].nextFileNumber.value);
  }

  lemma SuccessorCases(n: uint64)
    ensures Successor(n) == if n == MAX_UINT64 then 0 else n + 1
  {
  }

  /** An edit that log_any_apply lets through: its previous log number is beyond the counter. */
  function ReusingEdit(): Edit {
    Completed(EMPTY.(prevLogNumber := Some(100)), 3, 0, 5, 0)
  }

  /** The file numbers handed out after the counter stood at `n`: the one after `k` others. */
  function HandedOut(n: uint64, k: nat): uint64
    decreases k
  {
    if k == 0 then n else HandedOut(Successor(n), k - 1)
  }

  lemma {:induction false} HandedOutCounts(n: uint64, k: nat)
    requires n + k < TWO_64
    ensures HandedOut(n, k) == n + k
    decreases k
  {
    if k > 0 {
      SuccessorCases(n);
      HandedOutCounts(n + 1, k - 1);
    }
  }

  /**
   A manifest whose previous log number is handed out again: recovery from it leaves
   the counter at 6, so that after 94 other files the next one is file 100, although
   the marks alone would have moved the counter to 101.
   */
  lemma PrevLogNumberReused(intended: bool, name: seq<byte>)
    requires |name| < TWO_32
    requires intended || AllFit(0, Records([Snapshot(name, NO_POINTERS), ReusingEdit()]))
    ensures var edits := [Snapshot(name, NO_POINTERS), ReusingEdit()];
      var r := RecoverFile(name, EncodeAll(intended, 0, Records(edits)));
      && Manifest(intended, name, edits)
      && r == (Fine, Scalars(Some(3), Some(100), Some(5), Some(0)))
      && RecoveredCounters(r.1).nextFile == 6
      && HandedOut(RecoveredCounters(r.1).nextFile, 94) == RecoveredCounters(r.1).prevLog == 100
      && Marked(Marked(2, 100), 3) == 101
  {
    var edits := [Snapshot(name, NO_POINTERS), ReusingEdit()];
    NoSnapshotPointers(NUM_LEVELS);
    RecoverRestores(intended, name, edits);
    HandedOutCounts(6, 94);
  }

  lemma {:induction false} NoSnapshotPointers(k: nat)
    requires k <= NUM_LEVELS
    ensures SnapshotPointers(NO_POINTERS, k) == []
  {
    if k > 0 {
      NoSnapshotPointers(k - 1);
    }
  }
}
