/**
 Manifests from the creation of a database on: `new_db` of src/leveldb/db_impl.cc
 writes the first one, and each session recovers from the one that is there and
 writes its own.
 */
module ManifestRuns {
  import opened Bytes
  import opened Coding
  import opened VersionEdits
  import opened LogFormat
  import opened LogWriter
  import opened LogReader
  import opened LogRoundTrip
  import opened LogTornTail
  import opened VersionSets

  // ----- The first manifest

  function FirstEdit(name: seq<byte>): Edit {
    EMPTY.(comparator := Some(name), logNumber := Some(0), nextFileNumber := Some(2), lastSequence := Some(0))
  }

  const FIRST := Scalars(Some(0), None, Some(2), Some(0))

  function FirstFile(intended: bool, name: seq<byte>): seq<byte> {
    EncodeAll(intended, 0, Records([FirstEdit(name)]))
  }

  method FirstRecord(name: seq<byte>) returns (record: seq<byte>)
    ensures record == VersionEdits.Encode(FirstEdit(name))
  {
    var edit := new VersionEdit();
    edit.SetComparatorName(name);
    edit.SetLogNumber(0);
    edit.SetNextFile(2);
    edit.SetLastSequence(0);
    record := edit.EncodeTo([]);
  }

  lemma OneEdit(e: Edit)
    ensures Records([e]) == [VersionEdits.Encode(e)]
  {
  }

  method NewDb(intended: bool, name: seq<byte>) returns (file: seq<byte>)
    ensures file == FirstFile(intended, name)
  {
    var record := FirstRecord(name);
    var log := new Writer(intended, []);
    log.AddRecord(record);
    OneEdit(FirstEdit(name));
    OneRecord(intended, 0, record);
    file := log.dest;
  }

  /** Every edit of a manifest is delivered. */
  predicate AllWritten(intended: bool, edits: seq<Edit>) {
    intended || AllFit(0, Records(edits))
  }

  lemma FirstRead(intended: bool, name: seq<byte>)
    requires AllWritten(intended, [FirstEdit(name)])
    ensures ReadFile(FirstFile(intended, name), true) == Log(Records([FirstEdit(name)]), [])
  {
    if intended {
      LogRoundTrip.RoundTrip(Records([FirstEdit(name)]), true);
    } else {
      RoundTripAsWritten(Records([FirstEdit(name)]), true);
    }
  }

  lemma FirstRecovers(intended: bool, name: seq<byte>)
    requires |name| < TWO_32 && AllWritten(intended, [FirstEdit(name)])
    ensures RecoverFile(name, FirstFile(intended, name)) == (Fine, FIRST)
  {
    FirstRead(intended, name);
    ReplayLogged(Initial(FirstFile(intended, name)), name, NO_SCALARS, [FirstEdit(name)]);
    assert [FirstEdit(name)][1..] == [];
  }

  // ----- What a session does, without bytes

  datatype Act =
    | NewFile
    | MarkUsed(number: uint64)
    | Advance(sequence: uint64)
    | Apply(e: Edit)

  /** The counters of a version set and the edits of its manifest, if it has written one. */
  datatype Session = Session(c: Counters, history: seq<Edit>)

  /** After a recovery. */
  function Begin(s: Scalars): Session {
    Session(Counters(Successor(OrZero(s.nextFile)), OrZero(s.nextFile), OrZero(s.sequence), OrZero(s.log), OrZero(s.prevLog)), [])
  }

  /** What log_any_apply asserts, of an edit that can be read back. */
  predicate CanApply(name: seq<byte>, s: Session, e: Edit) {
    && Readable(name, e)
    && (e.logNumber.Some? ==> s.c.log < e.logNumber.value < s.c.nextFile)
    && (s.history == [] ==> s.c.manifestFile > 0)
  }

  function Opened(name: seq<byte>, history: seq<Edit>): seq<Edit> {
    if history == [] then [Snapshot(name, NO_POINTERS)] else history
  }

  function Applied(name: seq<byte>, s: Session, e: Edit): Session {
    var e' := Completed(e, s.c.log, s.c.prevLog, s.c.nextFile, s.c.sequence);
    Session(s.c.(log := e'.logNumber.value, prevLog := e'.prevLogNumber.value), Opened(name, s.history) + [e'])
  }

  /** An act that breaks an assertion of the code does not take place. */
  function Do(name: seq<byte>, s: Session, act: Act): Session {
    match act
    case NewFile => s.(c := s.c.(nextFile := Successor(s.c.nextFile)))
    case MarkUsed(n) => s.(c := s.c.(nextFile := Marked(s.c.nextFile, n)))
    case Advance(q) => if q >= s.c.sequence then s.(c := s.c.(sequence := q)) else s
    case Apply(e) => if CanApply(name, s, e) then Applied(name, s, e) else s
  }

  function Run(name: seq<byte>, s: Session, acts: seq<Act>): Session
    decreases |acts|
  {
    if acts == [] then s else Run(name, Do(name, s, acts[0]), acts[1..])
  }

  /** The manifest is one that can be recovered from, if its records are delivered. */
  predicate Sound(name: seq<byte>, history: seq<Edit>) {
    history == [] || (|history| > 1 && Logged(history, name) && AllReadable(name, history))
  }

  lemma AppliedIsSound(name: seq<byte>, s: Session, e: Edit)
    requires |name| < TWO_32 && Sound(name, s.history) && CanApply(name, s, e)
    ensures Sound(name, Applied(name, s, e).history)
    ensures s.history != [] ==> Applied(name, s, e).history[..2] == s.history[..2]
  {
    NoSnapshotPointers(NUM_LEVELS);
    LoggedAppend(Opened(name, s.history), name, Completed(e, s.c.log, s.c.prevLog, s.c.nextFile, s.c.sequence));
  }

  lemma {:induction false} RunIsSound(name: seq<byte>, s: Session, acts: seq<Act>)
    requires |name| < TWO_32 && Sound(name, s.history)
    ensures Sound(name, Run(name, s, acts).history)
    decreases |acts|
  {
    if acts != [] {
      if acts[0].Apply? && CanApply(name, s, acts[0].e) {
        AppliedIsSound(name, s, acts[0].e);
      }
      RunIsSound(name, Do(name, s, acts[0]), acts[1..]);
    }
  }

  // ----- A session on an object

  /** `vs` is in the state `s`. */
  ghost predicate InState(vs: VersionSet, s: Session)
    reads vs, vs.compactPointer, vs.descriptorLog
  {
    && vs.Valid()
    && vs.GetCounters() == s.c && vs.history == s.history
    && vs.compactPointer[..] == NO_POINTERS
  }

  /** An edit object with the given fields. */
  method MakeEdit(e: Edit) returns (edit: VersionEdit)
    ensures fresh(edit) && edit.Value() == e
  {
    edit := MakeScalars(e);
    edit.compactPointers, edit.deletedFiles, edit.newFiles := e.compactPointers, e.deletedFiles, e.newFiles;
  }

  method MakeScalars(e: Edit) returns (edit: VersionEdit)
    ensures fresh(edit) && edit.Value() == e.(compactPointers := [], deletedFiles := {}, newFiles := [])
  {
    edit := new VersionEdit();
    if e.comparator.Some? {
      edit.SetComparatorName(e.comparator.value);
    }
    if e.logNumber.Some? {
      edit.SetLogNumber(e.logNumber.value);
    }
    if e.prevLogNumber.Some? {
      edit.SetPrevLogNumber(e.prevLogNumber.value);
    }
    if e.nextFileNumber.Some? {
      edit.SetNextFile(e.nextFileNumber.value);
    }
    if e.lastSequence.Some? {
      edit.SetLastSequence(e.lastSequence.value);
    }
  }

  method Perform(vs: VersionSet, act: Act, ghost s: Session)
    requires InState(vs, s)
    modifies vs, vs.compactPointer, vs.descriptorLog
    ensures InState(vs, Do(vs.comparatorName, s, act))
    ensures vs.descriptorLog == old(vs.descriptorLog) || fresh(vs.descriptorLog)
  {
    match act
    case NewFile =>
      var n := vs.NewFileNumber();
    case MarkUsed(n) => vs.MarkFileNumberUsed(n);
    case Advance(q) =>
      if q >= vs.lastSequence {
        vs.SetLastSequence(q);
      }
    case Apply(e) => PerformApply(vs, e, s);
  }

  /** Log the edit, unless that would break an assertion. */
  method PerformApply(vs: VersionSet, e: Edit, ghost s: Session)
    requires InState(vs, s)
    modifies vs, vs.compactPointer, vs.descriptorLog
    ensures InState(vs, Do(vs.comparatorName, s, Apply(e)))
    ensures vs.descriptorLog == old(vs.descriptorLog) || fresh(vs.descriptorLog)
  {
    MayIsCan(vs, e, s);
    if MayApply(vs, e) {
      var edit := MakeEdit(e);
      LogEdit(vs, edit, s);
    }
  }

  function MayApply(vs: VersionSet, e: Edit): bool
    reads vs
  {
    && Readable(vs.comparatorName, e)
    && (e.logNumber.Some? ==> vs.logNumber < e.logNumber.value < vs.nextFileNumber)
    && (vs.descriptorLog == null ==> vs.manifestFileNumber > 0)
  }

  lemma MayIsCan(vs: VersionSet, e: Edit, s: Session)
    requires InState(vs, s)
    ensures MayApply(vs, e) == CanApply(vs.comparatorName, s, e)
  {
  }

  method LogEdit(vs: VersionSet, edit: VersionEdit, ghost s: Session)
    requires InState(vs, s) && CanApply(vs.comparatorName, s, edit.Value())
    modifies vs, vs.compactPointer, vs.descriptorLog, edit
    ensures InState(vs, Applied(vs.comparatorName, s, old(edit.Value())))
    ensures vs.descriptorLog == old(vs.descriptorLog) || fresh(vs.descriptorLog)
  {
    vs.LogAnyApply(edit);
  }

  /** Where the second record of the manifest ends; then CURRENT comes to name it. */
  ghost predicate SwitchesAt(intended: bool, history: seq<Edit>, switched: nat) {
    history != [] ==> |history| > 1 && switched == |EncodeAll(intended, 0, Records(history[..2]))|
  }

  lemma SwitchedOnce(name: seq<byte>, s: Session, act: Act)
    ensures var h := Do(name, s, act).history;
      && (s.history == [] ==> h == [] || |h| == 2)
      && (|s.history| > 1 ==> |h| > 1 && h[..2] == s.history[..2])
  {
  }

  method PerformNext(vs: VersionSet, act: Act, switched: nat, ghost s: Session) returns (switched': nat)
    requires InState(vs, s) && SwitchesAt(vs.intended, s.history, switched)
    modifies vs, vs.compactPointer, vs.descriptorLog
    ensures InState(vs, Do(vs.comparatorName, s, act)) && SwitchesAt(vs.intended, Do(vs.comparatorName, s, act).history, switched')
    ensures vs.descriptorLog == old(vs.descriptorLog) || fresh(vs.descriptorLog)
  {
    var open := vs.descriptorLog != null;
    SwitchedOnce(vs.comparatorName, s, act);
    Perform(vs, act, s);
    switched' := switched;
    if !open && vs.descriptorLog != null {
      assert vs.history[..2] == vs.history;
      switched' := |vs.descriptorLog.dest|;
    }
  }

  method PerformAll(vs: VersionSet, acts: seq<Act>, ghost s: Session) returns (switched: nat)
    requires InState(vs, s) && s.history == []
    modifies vs, vs.compactPointer
    ensures InState(vs, Run(vs.comparatorName, s, acts))
    ensures SwitchesAt(vs.intended, Run(vs.comparatorName, s, acts).history, switched)
  {
    switched := 0;
    ghost var t := s;
    for i := 0 to |acts|
      invariant InState(vs, t) && SwitchesAt(vs.intended, t.history, switched)
      invariant vs.descriptorLog == null || fresh(vs.descriptorLog)
      invariant Run(vs.comparatorName, t, acts[i..]) == Run(vs.comparatorName, s, acts)
    {
      switched := PerformNext(vs, acts[i], switched, t);
      t := Do(vs.comparatorName, t, acts[i]);
    }
  }

  // ----- Sessions that end in a crash

  /** One session; of what it writes at most `cut` bytes survive. */
  datatype Part = Part(acts: seq<Act>, cut: nat)

  function CutOff(s: seq<byte>, n: nat): seq<byte> {
    if n < |s| then s[..n] else s
  }

  /** What a recovery finds: the manifest of the session, or the one before as long as CURRENT names it. */
  function Surviving(intended: bool, file: seq<byte>, history: seq<Edit>, cut: nat): seq<byte> {
    if |history| < 2 || cut < |EncodeAll(intended, 0, Records(history[..2]))| then file
    else CutOff(EncodeAll(intended, 0, Records(history)), cut)
  }

  /** A session on the manifest `file`; nothing is done with one that cannot be recovered from. */
  method OneSession(intended: bool, name: seq<byte>, file: seq<byte>, part: Part) returns (file': seq<byte>)
    ensures var r := RecoverFile(name, file);
      file' == if r.0 == Fine then Surviving(intended, file, Run(name, Begin(r.1), part.acts).history, part.cut) else file
  {
    var vs := new VersionSet(intended, name);
    var status, save := vs.Recover(file);
    file' := file;
    if status == Fine {
      ghost var s := Begin(RecoverFile(name, file).1);
      var switched := PerformAll(vs, part.acts, s);
      if vs.descriptorLog != null && switched <= part.cut {
        file' := CutOff(vs.descriptorLog.dest, part.cut);
      }
    }
  }

  // ----- Whole lives of a database

  lemma EncodeAllPrefix(intended: bool, off: Offset, records: seq<seq<byte>>, m: nat)
    requires 0 < m <= |records|
    ensures |EncodeAll(intended, off, records[..m])| ==
            |LogWriter.Encode(intended, off, records[0], true)| +
            |EncodeAll(intended, EndOffset(off, |records[0]|), records[1..][..m - 1])|
  {
    assert records[..m][1..] == records[1..][..m - 1];
  }

  /** A cut leaves the first `m` records complete exactly if it is not before their end. */
  lemma {:induction false} CompleteUpTo(intended: bool, off: Offset, records: seq<seq<byte>>, m: nat, c: nat)
    requires m <= |records|
    ensures m <= Complete(intended, off, records, c) <==> |EncodeAll(intended, off, records[..m])| <= c
    decreases m
  {
    if m > 0 {
      var n := |LogWriter.Encode(intended, off, records[0], true)|;
      EncodeAllPrefix(intended, off, records, m);
      if n <= c {
        CompleteUpTo(intended, EndOffset(off, |records[0]|), records[1..], m - 1, c - n);
      }
    }
  }

  /** How many edits of the manifest survive, if that manifest is the one that is found. */
  function Survivors(intended: bool, history: seq<Edit>, cut: nat): (k: nat)
    ensures k <= |history|
  {
    var n := |EncodeAll(intended, 0, Records(history))|;
    Complete(intended, 0, Records(history), if cut < n then cut else n)
  }

  /** The scalars that the next recovery finds. */
  function Left(intended: bool, was: Scalars, history: seq<Edit>, cut: nat): Scalars {
    var k := Survivors(intended, history, cut);
    if k < 2 then was else ScalarsOf(history[k - 1])
  }

  lemma {:induction false} PrefixIsShorter(intended: bool, off: Offset, records: seq<seq<byte>>, m: nat)
    requires m <= |records|
    ensures |EncodeAll(intended, off, records[..m])| <= |EncodeAll(intended, off, records)|
    decreases m
  {
    if m > 0 {
      EncodeAllPrefix(intended, off, records, m);
      PrefixIsShorter(intended, EndOffset(off, |records[0]|), records[1..], m - 1);
    }
  }

  lemma SwitchMeansTwo(intended: bool, history: seq<Edit>, cut: nat)
    ensures |history| < 2 || cut < |EncodeAll(intended, 0, Records(history[..2]))| <==> Survivors(intended, history, cut) < 2
  {
    if |history| >= 2 {
      var n := |EncodeAll(intended, 0, Records(history))|;
      RecordsPrefix(history, 2);
      PrefixIsShorter(intended, 0, Records(history), 2);
      CompleteUpTo(intended, 0, Records(history), 2, if cut < n then cut else n);
    }
  }

  lemma RecoveredPrefix(history: seq<Edit>, k: nat)
    requires 2 <= k <= |history|
    ensures Recovered(history[..k]) == (Fine, ScalarsOf(history[k - 1]))
  {
  }

  /** A manifest of which two records survive. */
  lemma CutRecovers(intended: bool, name: seq<byte>, history: seq<Edit>, whole: seq<byte>, c: nat, k: nat)
    requires Manifest(intended, name, history) && whole == EncodeAll(intended, 0, Records(history))
    requires c <= |whole| && 2 <= k == Complete(intended, 0, Records(history), c)
    ensures RecoverFile(name, whole[..c]) == (Fine, ScalarsOf(history[k - 1]))
  {
    CrashConsistent(intended, name, history, c);
    RecoveredPrefix(history, k);
  }

  lemma CutOffIsCut(s: seq<byte>, n: nat)
    ensures CutOff(s, n) == s[..if n < |s| then n else |s|]
  {
  }

  lemma SoundIsManifest(intended: bool, name: seq<byte>, history: seq<Edit>)
    requires |name| < TWO_32 && Sound(name, history) && AllWritten(intended, history) && history != []
    ensures Manifest(intended, name, history)
  {
  }

  lemma CutOffRecovers(intended: bool, name: seq<byte>, history: seq<Edit>, cut: nat, whole: seq<byte>, k: nat)
    requires Manifest(intended, name, history) && whole == EncodeAll(intended, 0, Records(history))
    requires 2 <= k == Survivors(intended, history, cut)
    ensures RecoverFile(name, CutOff(whole, cut)) == (Fine, ScalarsOf(history[k - 1]))
  {
    CutOffIsCut(whole, cut);
    CutRecovers(intended, name, history, whole, if cut < |whole| then cut else |whole|, k);
  }

  lemma WhichSurvives(intended: bool, file: seq<byte>, was: Scalars, history: seq<Edit>, cut: nat)
    ensures var k := Survivors(intended, history, cut);
      if k < 2 then Surviving(intended, file, history, cut) == file && Left(intended, was, history, cut) == was
      else
        && Surviving(intended, file, history, cut) == CutOff(EncodeAll(intended, 0, Records(history)), cut)
        && Left(intended, was, history, cut) == ScalarsOf(history[k - 1])
  {
    SwitchMeansTwo(intended, history, cut);
  }

  lemma SurvivingRecovers(intended: bool, name: seq<byte>, file: seq<byte>, was: Scalars, history: seq<Edit>, cut: nat,
                          file': seq<byte>, left: Scalars, whole: seq<byte>, k: nat)
    requires history != [] ==> Manifest(intended, name, history)
    requires RecoverFile(name, file) == (Fine, was)
    requires whole == EncodeAll(intended, 0, Records(history)) && k == Survivors(intended, history, cut)
    requires if k < 2 then file' == file && left == was
             else file' == CutOff(whole, cut) && left == ScalarsOf(history[k - 1])
    ensures RecoverFile(name, file') == (Fine, left)
  {
    if k >= 2 {
      CutOffRecovers(intended, name, history, cut, whole, k);
    }
  }

  function LifeOf(intended: bool, name: seq<byte>, s: Scalars, parts: seq<Part>): Scalars
    decreases |parts|
  {
    if parts == [] then s
    else LifeOf(intended, name, Left(intended, s, Run(name, Begin(s), parts[0].acts).history, parts[0].cut), parts[1..])
  }

  /** The records of all sessions are delivered. */
  predicate LifeWritten(intended: bool, name: seq<byte>, s: Scalars, parts: seq<Part>)
    decreases |parts|
  {
    parts == [] ||
    var h := Run(name, Begin(s), parts[0].acts).history;
    AllWritten(intended, h) && LifeWritten(intended, name, Left(intended, s, h, parts[0].cut), parts[1..])
  }

  method Sessions(intended: bool, name: seq<byte>, file: seq<byte>, parts: seq<Part>, ghost s: Scalars) returns (file': seq<byte>)
    requires |name| < TWO_32
    ensures RecoverFile(name, file) == (Fine, s) && LifeWritten(intended, name, s, parts) ==>
            RecoverFile(name, file') == (Fine, LifeOf(intended, name, s, parts))
    decreases |parts|
  {
    file' := file;
    if parts != [] {
      var next := OneSession(intended, name, file, parts[0]);
      ghost var h := Run(name, Begin(s), parts[0].acts).history;
      RunIsSound(name, Begin(s), parts[0].acts);
      if RecoverFile(name, file) == (Fine, s) && AllWritten(intended, h) {
        if h != [] {
          SoundIsManifest(intended, name, h);
        }
        WhichSurvives(intended, file, s, h, parts[0].cut);
        SurvivingRecovers(intended, name, file, s, h, parts[0].cut, next, Left(intended, s, h, parts[0].cut),
                          EncodeAll(intended, 0, Records(h)), Survivors(intended, h, parts[0].cut));
      }
      file' := Sessions(intended, name, next, parts[1..], Left(intended, s, h, parts[0].cut));
    }
  }

  // ----- File numbers

  /** The log number is one that was handed out, and so is every log number on record. */
  predicate Numbered(s: Session) {
    s.c.log < s.c.nextFile && LogsInOrder(s.history, s.c.log)
  }

  /** The counter of file numbers never starts again at 0. */
  predicate NeverWraps(name: seq<byte>, s: Session, acts: seq<Act>)
    decreases |acts|
  {
    acts == [] || (s.c.nextFile <= Do(name, s, acts[0]).c.nextFile && NeverWraps(name, Do(name, s, acts[0]), acts[1..]))
  }

  lemma DoNumbered(name: seq<byte>, s: Session, act: Act)
    requires Numbered(s) && s.c.nextFile <= Do(name, s, act).c.nextFile
    ensures Numbered(Do(name, s, act))
  {
    if act.Apply? && CanApply(name, s, act.e) {
      var e := Completed(act.e, s.c.log, s.c.prevLog, s.c.nextFile, s.c.sequence);
      LogsInOrderAppend(Opened(name, s.history), s.c.log, e);
    }
  }

  lemma {:induction false} RunNumbered(name: seq<byte>, s: Session, acts: seq<Act>)
    requires Numbered(s) && NeverWraps(name, s, acts)
    ensures Numbered(Run(name, s, acts))
    decreases |acts|
  {
    if acts != [] {
      DoNumbered(name, s, acts[0]);
      RunNumbered(name, Do(name, s, acts[0]), acts[1..]);
    }
  }

  lemma PrefixNumbers(history: seq<Edit>, log: uint64, k: nat)
    requires LogsInOrder(history, log) && 2 <= k <= |history|
    requires history[k - 1].nextFileNumber.value < MAX_UINT64
    ensures NumbersAreNew(history[..k], ScalarsOf(history[k - 1])) && Numbered(Begin(ScalarsOf(history[k - 1])))
  {
    LastNumbersAreNew(history[..k], log);
  }

  /** The edits of the manifest that is found in the end. */
  function Found(intended: bool, name: seq<byte>, s: Scalars, edits: seq<Edit>, parts: seq<Part>): seq<Edit>
    decreases |parts|
  {
    if parts == [] then edits
    else
      var h := Run(name, Begin(s), parts[0].acts).history;
      var k := Survivors(intended, h, parts[0].cut);
      Found(intended, name, Left(intended, s, h, parts[0].cut), if k < 2 then edits else h[..k], parts[1..])
  }

  /** The counter never wraps, in no session and no recovery. */
  predicate LifeNeverWraps(intended: bool, name: seq<byte>, s: Scalars, parts: seq<Part>)
    decreases |parts|
  {
    parts == [] ||
    var h := Run(name, Begin(s), parts[0].acts).history;
    var left := Left(intended, s, h, parts[0].cut);
    && NeverWraps(name, Begin(s), parts[0].acts)
    && OrZero(left.nextFile) < MAX_UINT64
    && LifeNeverWraps(intended, name, left, parts[1..])
  }

  lemma PartNumbers(name: seq<byte>, s: Scalars, edits: seq<Edit>, acts: seq<Act>, h: seq<Edit>, k: nat, left: Scalars)
    requires NumbersAreNew(edits, s) && Numbered(Begin(s)) && NeverWraps(name, Begin(s), acts)
    requires h == Run(name, Begin(s), acts).history && k <= |h|
    requires left == (if k < 2 then s else ScalarsOf(h[k - 1])) && OrZero(left.nextFile) < MAX_UINT64
    ensures NumbersAreNew(if k < 2 then edits else h[..k], left) && Numbered(Begin(left))
  {
    RunNumbered(name, Begin(s), acts);
    if k >= 2 {
      PrefixNumbers(h, Run(name, Begin(s), acts).c.log, k);
    }
  }

  /** After any life no file number that is on record in the manifest is handed out again. */
  lemma {:induction false} LifeNumbers(intended: bool, name: seq<byte>, s: Scalars, edits: seq<Edit>, parts: seq<Part>)
    requires NumbersAreNew(edits, s) && Numbered(Begin(s)) && LifeNeverWraps(intended, name, s, parts)
    ensures NumbersAreNew(Found(intended, name, s, edits, parts), LifeOf(intended, name, s, parts))
    decreases |parts|
  {
    if parts != [] {
      var h := Run(name, Begin(s), parts[0].acts).history;
      var k := Survivors(intended, h, parts[0].cut);
      var left := Left(intended, s, h, parts[0].cut);
      PartNumbers(name, s, edits, parts[0].acts, h, k, left);
      LifeNumbers(intended, name, left, if k < 2 then edits else h[..k], parts[1..]);
    }
  }

  // ----- The main theorem

  /** What holds of a database after sessions, if all edits were delivered. */
  predicate Recovers(intended: bool, name: seq<byte>, parts: seq<Part>, status: RecoverStatus, c: Counters) {
    var last := LifeOf(intended, name, FIRST, parts);
    && status == Fine && c == Begin(last).c
    && (LifeNeverWraps(intended, name, FIRST, parts) ==> NewToManifest(Found(intended, name, FIRST, [FirstEdit(name)], parts), c))
  }

  /** The next file number is beyond the manifest's and every log number on record. */
  predicate NewToManifest(edits: seq<Edit>, c: Counters) {
    && c.manifestFile < c.nextFile
    && forall i :: 0 < i < |edits| ==> edits[i].logNumber.Some? && edits[i].logNumber.value < c.nextFile
  }

  lemma LifeRecovers(intended: bool, name: seq<byte>, parts: seq<Part>)
    ensures Recovers(intended, name, parts, Fine, Begin(LifeOf(intended, name, FIRST, parts)).c)
  {
    if LifeNeverWraps(intended, name, FIRST, parts) {
      LifeNumbers(intended, name, FIRST, [FirstEdit(name)], parts);
    }
  }

  /**
   A new database and any number of sessions, each of which may end in a crash: the
   last recovery succeeds, with the scalars of the last edit that survived.
   */
  method Life(intended: bool, name: seq<byte>, parts: seq<Part>) returns (vs: VersionSet, status: RecoverStatus)
    requires |name| < TWO_32
    ensures AllWritten(intended, [FirstEdit(name)]) && LifeWritten(intended, name, FIRST, parts) ==>
            Recovers(intended, name, parts, status, vs.GetCounters())
  {
    var file := NewDb(intended, name);
    if AllWritten(intended, [FirstEdit(name)]) {
      FirstRecovers(intended, name);
    }
    file := Sessions(intended, name, file, parts, FIRST);
    vs, status := Open(intended, name, file);
    LifeRecovers(intended, name, parts);
  }

  method Open(intended: bool, name: seq<byte>, file: seq<byte>) returns (vs: VersionSet, status: RecoverStatus)
    ensures var r := RecoverFile(name, file);
      status == r.0 && (status == Fine ==> vs.GetCounters() == Begin(r.1).c)
  {
    vs := new VersionSet(intended, name);
    var save;
    status, save := vs.Recover(file);
  }
}
