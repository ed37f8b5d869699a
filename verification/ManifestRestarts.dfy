/** What the next object finds: the counters of the object that logged the last edit that survives. */
module ManifestRestarts {
  import opened Bytes
  import opened Coding
  import opened VersionEdits
  import opened LogWriter
  import opened LogReader
  import opened LogTornTail
  import opened VersionSets
  import opened ManifestRuns

  // ----- The first manifest

  lemma SmallScalar(tag: byte, v: byte)
    requires tag < 128 && v < 128
    ensures EncodeScalar(tag, Some(v)) == [tag, v]
  {
  }

  lemma SmallVarint(v: byte)
    requires v < 128
    ensures Varint(v) == [v]
  {
  }

  lemma JoinBytes(a: seq<byte>, b: seq<byte>, x: seq<byte>, y: seq<byte>, z: seq<byte>)
    ensures a + b + x + [] + y + z + [] + [] == a + b + (x + y + z)
  {
  }

  /** Tags 1 to 4: the comparator, log 0, next file 2, sequence 0. */
  lemma FirstBytes(name: seq<byte>)
    ensures VersionEdits.Encode(FirstEdit(name)) == [1] + (Varint(|name| % TWO_32) + name) + ([2, 0] + [3, 2] + [4, 0])
  {
    SmallVarint(1);
    SmallScalar(2, 0);
    SmallScalar(3, 2);
    SmallScalar(4, 0);
    var e := FirstEdit(name);
    assert EncodeComparator(e.comparator) == [1] + (Varint(|name| % TWO_32) + name);
    assert EncodePointers(e.compactPointers) == [] && EncodeFiles(e.newFiles) == [];
    JoinBytes([1], Varint(|name| % TWO_32) + name, [2, 0], [3, 2], [4, 0]);
  }

  // ----- One edit, and a new object

  /** All edits of an object's manifest are read and accepted. */
  ghost predicate Sane(vs: VersionSet)
    reads vs, vs.descriptorLog
  {
    && vs.Valid() && |vs.comparatorName| < TWO_32
    && AllReadable(vs.comparatorName, vs.history)
    && vs.compactPointer.Length == NUM_LEVELS
  }

  lemma WholeRecovers(intended: bool, name: seq<byte>, history: seq<Edit>)
    requires |history| > 1 && Manifest(intended, name, history)
    ensures RecoverFile(name, EncodeAll(intended, 0, Records(history))) == (Fine, ScalarsOf(history[|history| - 1]))
  {
    RecoverRestores(intended, name, history);
  }

  lemma SnapshotReadable(name: seq<byte>)
    requires |name| < TWO_32
    ensures AllReadable(name, [Snapshot(name, NO_POINTERS)])
  {
    NoSnapshotPointers(NUM_LEVELS);
  }

  lemma LoggedReadable(name: seq<byte>, history: seq<Edit>, e: Edit, c: Counters, e': Edit)
    requires AllReadable(name, history) && Readable(name, e) && history != []
    requires e' == e.(logNumber := Some(c.log), prevLogNumber := Some(c.prevLog), nextFileNumber := Some(c.nextFile), lastSequence := Some(c.sequence))
    ensures AllReadable(name, history + [e'])
    ensures LastIs(history + [e'], c.log, c.prevLog, c.nextFile, c.sequence)
  {
  }

  /** Log an edit; the manifest has one edit more, and is as readable as before. */
  method LogReadable(vs: VersionSet, edit: VersionEdit)
    requires Sane(vs) && vs.CanName() && (vs.descriptorLog == null ==> vs.compactPointer[..] == NO_POINTERS)
    requires Readable(vs.comparatorName, edit.Value())
    requires edit.hasLogNumber ==> vs.logNumber < edit.logNumber < vs.nextFileNumber
    modifies vs, vs.compactPointer, vs.descriptorLog, edit
    ensures Sane(vs) && vs.descriptorLog != null
    ensures vs.lastSequence == old(vs.lastSequence) && vs.nextFileNumber == old(vs.nextFileNumber)
    ensures vs.logNumber == if old(edit.hasLogNumber) then old(edit.logNumber) else old(vs.logNumber)
    ensures vs.prevLogNumber == if old(edit.hasPrevLogNumber) then old(edit.prevLogNumber) else old(vs.prevLogNumber)
    ensures LastIs(vs.history, vs.logNumber, vs.prevLogNumber, vs.nextFileNumber, vs.lastSequence)
  {
    ghost var history, e := if vs.descriptorLog == null then [Snapshot(vs.comparatorName, NO_POINTERS)] else vs.history, edit.Value();
    SnapshotReadable(vs.comparatorName);
    assert history != [] && AllReadable(vs.comparatorName, history);
    vs.LogAnyApply(edit);
    LoggedReadable(vs.comparatorName, history, e, vs.GetCounters(), edit.Value());
  }

  predicate LastIs(history: seq<Edit>, log: uint64, prevLog: uint64, nextFile: uint64, sequence: uint64) {
    |history| > 1 && ScalarsOf(history[|history| - 1]) == Scalars(Some(log), Some(prevLog), Some(nextFile), Some(sequence))
  }

  /** The counters of an object that recovered what an object with those counters logged last. */
  function Next(c: Counters): Counters {
    Counters(Successor(c.nextFile), c.nextFile, c.sequence, c.log, c.prevLog)
  }

  lemma BeginsAtLast(history: seq<Edit>, c: Counters)
    requires LastIs(history, c.log, c.prevLog, c.nextFile, c.sequence)
    ensures Begin(ScalarsOf(history[|history| - 1])).c == Next(c)
  {
  }

  lemma ManifestBegins(intended: bool, name: seq<byte>, history: seq<Edit>, c: Counters)
    requires |name| < TWO_32 && Logged(history, name) && AllReadable(name, history)
    requires LastIs(history, c.log, c.prevLog, c.nextFile, c.sequence)
    ensures AllWritten(intended, history) ==>
      var r := RecoverFile(name, EncodeAll(intended, 0, Records(history))); r.0 == Fine && Begin(r.1).c == Next(c)
  {
    if AllWritten(intended, history) {
      WholeRecovers(intended, name, history);
      BeginsAtLast(history, c);
    }
  }

  /** A new object on the manifest of an old one. */
  method Reopen(vs: VersionSet) returns (again: VersionSet, status: RecoverStatus)
    requires Sane(vs) && vs.descriptorLog != null
    requires LastIs(vs.history, vs.logNumber, vs.prevLogNumber, vs.nextFileNumber, vs.lastSequence)
    ensures AllWritten(vs.intended, vs.history) ==> status == Fine && again.GetCounters() == Next(vs.GetCounters())
  {
    ManifestBegins(vs.intended, vs.comparatorName, vs.history, vs.GetCounters());
    again, status := Open(vs.intended, vs.comparatorName, vs.descriptorLog.dest);
  }

  /**
   Log an edit, close the database and open it again: whatever was in the manifest
   before, the new object has the sequence number and the log numbers of the old one,
   and its manifest gets the number that was to be the next.
   */
  method LogAndReopen(vs: VersionSet, edit: VersionEdit) returns (again: VersionSet, status: RecoverStatus)
    requires Sane(vs) && vs.CanName() && (vs.descriptorLog == null ==> vs.compactPointer[..] == NO_POINTERS)
    requires Readable(vs.comparatorName, edit.Value())
    requires edit.hasLogNumber ==> vs.logNumber < edit.logNumber < vs.nextFileNumber
    modifies vs, vs.compactPointer, vs.descriptorLog, edit
    ensures vs.logNumber == if old(edit.hasLogNumber) then old(edit.logNumber) else old(vs.logNumber)
    ensures vs.prevLogNumber == if old(edit.hasPrevLogNumber) then old(edit.prevLogNumber) else old(vs.prevLogNumber)
    ensures AllWritten(vs.intended, vs.history) ==>
      && status == Fine
      && again.lastSequence == old(vs.lastSequence)
      && again.logNumber == vs.logNumber && again.prevLogNumber == vs.prevLogNumber
      && again.manifestFileNumber == old(vs.nextFileNumber)
      && again.nextFileNumber == Successor(old(vs.nextFileNumber))
  {
    LogReadable(vs, edit);
    again, status := Reopen(vs);
  }

  // ----- Any acts

  /** The largest of a first number and those advanced to. */
  predicate IsLargest(q: uint64, first: uint64, acts: seq<Act>) {
    && first <= q
    && (forall i :: 0 <= i < |acts| && acts[i].Advance? ==> acts[i].sequence <= q)
    && (q == first || exists i :: 0 <= i < |acts| && acts[i] == Advance(q))
  }

  lemma LargestFirst(q: uint64, first: uint64, acts: seq<Act>, first': uint64)
    requires acts != [] && IsLargest(q, first', acts[1..])
    requires first' == if acts[0].Advance? && acts[0].sequence >= first then acts[0].sequence else first
    ensures IsLargest(q, first, acts)
  {
    forall i | 0 <= i < |acts| && acts[i].Advance?
      ensures acts[i].sequence <= q
    {
      assert i > 0 ==> acts[1..][i - 1] == acts[i];
    }
    if q == first' {
      assert q == first || acts[0] == Advance(q);
    } else {
      var i :| 0 <= i < |acts[1..]| && acts[1..][i] == Advance(q);
      assert acts[i + 1] == Advance(q);
    }
  }

  /** The sequence number of an object never falls: it is the largest one there was. */
  lemma {:induction false} RunLargest(name: seq<byte>, s: Session, acts: seq<Act>)
    ensures IsLargest(Run(name, s, acts).c.sequence, s.c.sequence, acts)
    decreases |acts|
  {
    if acts != [] {
      var s' := Do(name, s, acts[0]);
      RunLargest(name, s', acts[1..]);
      LargestFirst(Run(name, s', acts[1..]).c.sequence, s.c.sequence, acts, s'.c.sequence);
    }
  }

  /** Act `i` logs the edit that is number `k` of the manifest, counting the snapshot. */
  predicate Logs(name: seq<byte>, s: Session, acts: seq<Act>, i: nat, k: nat) {
    && i < |acts| && acts[i].Apply?
    && var before := Run(name, s, acts[..i]);
    && CanApply(name, before, acts[i].e)
    && |before.history| < k == |Applied(name, before, acts[i].e).history|
  }

  /** An edit that is there stays. */
  lemma {:induction false} EditStays(name: seq<byte>, s: Session, acts: seq<Act>, k: nat)
    requires k < |s.history|
    ensures k < |Run(name, s, acts).history| && Run(name, s, acts).history[k] == s.history[k]
    decreases |acts|
  {
    if acts != [] {
      EditStays(name, Do(name, s, acts[0]), acts[1..], k);
    }
  }

  lemma LogsLater(name: seq<byte>, s: Session, acts: seq<Act>, i: nat, k: nat)
    requires acts != [] && Logs(name, Do(name, s, acts[0]), acts[1..], i, k)
    ensures Logs(name, s, acts, i + 1, k)
    ensures Run(name, s, acts[..i + 1]) == Run(name, Do(name, s, acts[0]), acts[1..][..i])
  {
    assert acts[..i + 1][1..] == acts[1..][..i];
  }

  /** The scalars of an edit that is logged now. */
  function ScalarsNow(c: Counters, e: Edit): Scalars {
    Scalars(Some(if e.logNumber.Some? then e.logNumber.value else c.log),
            Some(if e.prevLogNumber.Some? then e.prevLogNumber.value else c.prevLog),
            Some(c.nextFile), Some(c.sequence))
  }

  lemma LogsNow(name: seq<byte>, s: Session, acts: seq<Act>, k: nat, s': Session)
    requires acts != [] && s' == Do(name, s, acts[0]) && |s.history| < k <= |s'.history| && k >= 2
    requires |s.history| != 1
    ensures Logs(name, s, acts, 0, k) && Run(name, s, acts[..0]) == s
    ensures ScalarsOf(s'.history[k - 1]) == ScalarsNow(s.c, acts[0].e)
  {
    assert acts[..0] == [];
  }

  /** Each edit behind the snapshot was logged by one act, with the counters of that time. */
  lemma {:induction false} WhoLogged(name: seq<byte>, s: Session, acts: seq<Act>, k: nat) returns (i: nat)
    requires |s.history| < k <= |Run(name, s, acts).history| && k >= 2 && |s.history| != 1
    ensures Logs(name, s, acts, i, k)
    ensures ScalarsOf(Run(name, s, acts).history[k - 1]) == ScalarsNow(Run(name, s, acts[..i]).c, acts[i].e)
    decreases |acts|
  {
    var s' := Do(name, s, acts[0]);
    if k <= |s'.history| {
      i := 0;
      LogsNow(name, s, acts, k, s');
      EditStays(name, s', acts[1..], k - 1);
    } else {
      var j := WhoLogged(name, s', acts[1..], k);
      LogsLater(name, s, acts, j, k);
      i := j + 1;
    }
  }

  /** What a recovery found, after a session that began at `was`, is what the object had when act `i` took place. */
  predicate FoundAt(name: seq<byte>, was: Counters, acts: seq<Act>, i: nat, k: nat, c: Counters) {
    && Logs(name, Session(was, []), acts, i, k)
    && var then_ := Run(name, Session(was, []), acts[..i]).c;
    && c.sequence == then_.sequence && IsLargest(c.sequence, was.sequence, acts[..i])
    && c.manifestFile == then_.nextFile && c.nextFile == Successor(then_.nextFile)
    && c.log == (if acts[i].e.logNumber.Some? then acts[i].e.logNumber.value else then_.log)
    && c.prevLog == (if acts[i].e.prevLogNumber.Some? then acts[i].e.prevLogNumber.value else then_.prevLog)
  }

  lemma LeftIsFound(name: seq<byte>, s: Scalars, acts: seq<Act>, k: nat, c: Counters) returns (i: nat)
    requires 2 <= k <= |Run(name, Begin(s), acts).history|
    requires c == Begin(ScalarsOf(Run(name, Begin(s), acts).history[k - 1])).c
    ensures FoundAt(name, Begin(s).c, acts, i, k, c)
  {
    i := WhoLogged(name, Begin(s), acts, k);
    RunLargest(name, Begin(s), acts[..i]);
  }

  /**
   Open a database, do anything, crash, and open it again: if an edit of the session
   survives, the new object has the counters at the time of the last edit that
   survived, and its sequence number is the largest advanced to before that edit;
   if none does, those that the session began with.
   */
  method CrashAndReopen(intended: bool, name: seq<byte>, file: seq<byte>, part: Part)
    returns (first: VersionSet, again: VersionSet, status: RecoverStatus, ghost i: nat, ghost k: nat)
    requires |name| < TWO_32 && RecoverFile(name, file).0 == Fine
    requires AllWritten(intended, Run(name, Begin(RecoverFile(name, file).1), part.acts).history)
    ensures k == Survivors(intended, Run(name, Begin(RecoverFile(name, file).1), part.acts).history, part.cut)
    ensures status == Fine
    ensures if k < 2 then again.GetCounters() == first.GetCounters()
            else FoundAt(name, first.GetCounters(), part.acts, i, k, again.GetCounters())
  {
    var opened_;
    first, opened_ := Open(intended, name, file);
    var file' := OneSession(intended, name, file, part);
    ghost var s := RecoverFile(name, file).1;
    ghost var h := Run(name, Begin(s), part.acts).history;
    k := Survivors(intended, h, part.cut);
    i := 0;
    RunIsSound(name, Begin(s), part.acts);
    if h != [] {
      SoundIsManifest(intended, name, h);
    }
    WhichSurvives(intended, file, s, h, part.cut);
    ghost var left := Left(intended, s, h, part.cut);
    SurvivingRecovers(intended, name, file, s, h, part.cut, file', left, EncodeAll(intended, 0, Records(h)), k);
    again, status := Open(intended, name, file');
    if k >= 2 {
      i := LeftIsFound(name, s, part.acts, k, again.GetCounters());
    }
  }
}
