/** When a manifest is accepted, and why one is refused: for any file at all. */
module RecoverVerdicts {
  import opened Bytes
  import opened Coding
  import opened VersionEdits
  import opened LogReader
  import opened LogRoundTrip
  import opened VersionSets

  /** An edit that decodes to its last byte, of this comparator or of none. */
  predicate Acceptable(name: seq<byte>, record: seq<byte>) {
    Decode(record).0 == Ok && (Decode(record).1.comparator.Some? ==> Decode(record).1.comparator.value == name)
  }

  /** The status that the first bad record leads to. */
  function Refusal(record: seq<byte>): RecoverStatus {
    if Decode(record).0.Corruption? then BadEdit(Decode(record).0.message) else ComparatorMismatch
  }

  lemma AcceptableStatus(name: seq<byte>, record: seq<byte>)
    ensures EditStatus(name, Decode(record)) == if Acceptable(name, record) then Fine else Refusal(record)
  {
  }

  // ----- Reading the records of a manifest

  lemma FirstRecord(s: State)
    ensures var r, log := NextRecord(s, false, [], true), ReadAll(s, false, [], true);
      if r.record.None? then log == Log([], r.reports)
      else
        && r.next.Size() < s.Size()
        && log.records == [r.record.value] + ReadAll(r.next, false, [], true).records
        && log.reports == r.reports + ReadAll(r.next, false, [], true).reports
  {
  }

  lemma ReplayTurn(s: State, name: seq<byte>, acc: Scalars)
    requires NextRecord(s, false, [], true).record.Some? && NextRecord(s, false, [], true).reports == []
    ensures var r := NextRecord(s, false, [], true);
      var d := Decode(r.record.value);
      Replay(s, name, Fine, acc) == Replay(r.next, name, if Acceptable(name, r.record.value) then Fine else Refusal(r.record.value), Override(acc, d.1))
  {
    AcceptableStatus(name, NextRecord(s, false, [], true).record.value);
  }

  /** A status that is bad already stays. */
  lemma BadStays(s: State, name: seq<byte>, status: RecoverStatus, acc: Scalars)
    requires status != Fine
    ensures Replay(s, name, status, acc) == (status, acc)
  {
  }

  lemma EndOrReport(s: State, name: seq<byte>, acc: Scalars)
    requires NextRecord(s, false, [], true).record.None? || NextRecord(s, false, [], true).reports != []
    ensures var reports := NextRecord(s, false, [], true).reports;
      Replay(s, name, Fine, acc) == (if reports == [] then Fine else DamagedLog(reports[0].reason), acc)
  {
  }

  /** What the records bring together. */
  function Gather(acc: Scalars, records: seq<seq<byte>>): Scalars
    decreases |records|
  {
    if records == [] then acc else Gather(Override(acc, Decode(records[0]).1), records[1..])
  }

  ghost predicate AllAcceptable(name: seq<byte>, records: seq<seq<byte>>) {
    forall i :: 0 <= i < |records| ==> Acceptable(name, records[i])
  }

  lemma AcceptableSplit(name: seq<byte>, first: seq<byte>, rest: seq<seq<byte>>)
    ensures AllAcceptable(name, [first] + rest) <==> Acceptable(name, first) && AllAcceptable(name, rest)
  {
    var all := [first] + rest;
    assert all[0] == first;
    if AllAcceptable(name, all) {
      forall i | 0 <= i < |rest|
        ensures Acceptable(name, rest[i])
      {
        assert all[i + 1] == rest[i];
      }
    }
  }

  /** The loop of `recover` ends well exactly if nothing is reported and every record is acceptable. */
  lemma {:induction false} ReplayVerdict(s: State, name: seq<byte>, acc: Scalars)
    ensures var log, r := ReadAll(s, false, [], true), Replay(s, name, Fine, acc);
      && (r.0 == Fine <==> log.reports == [] && AllAcceptable(name, log.records))
      && (r.0 == Fine ==> r.1 == Gather(acc, log.records))
    decreases s.Size()
  {
    var next := NextRecord(s, false, [], true);
    FirstRecord(s);
    if next.record.None? || next.reports != [] {
      EndOrReport(s, name, acc);
    } else {
      var record, more := next.record.value, ReadAll(next.next, false, [], true);
      ReplayTurn(s, name, acc);
      AcceptableSplit(name, record, more.records);
      NothingFirst(more.reports);
      assert ([record] + more.records)[1..] == more.records;
      if Acceptable(name, record) {
        ReplayVerdict(next.next, name, Override(acc, Decode(record).1));
      } else {
        BadStays(next.next, name, Refusal(record), Override(acc, Decode(record).1));
      }
    }
  }

  /** A record that is read without a report, before `rest`. */
  lemma FirstOf(s: State, first: seq<byte>, rest: seq<seq<byte>>, next: State)
    requires ReadAll(s, false, [], true) == Log([first] + rest, []) && next == NextRecord(s, false, [], true).next
    ensures NextRecord(s, false, [], true).record == Some(first) && NextRecord(s, false, [], true).reports == []
    ensures ReadAll(next, false, [], true) == Log(rest, [])
  {
    ReadAllStep(s, first, rest);
  }

  lemma ReplayFirst(s: State, name: seq<byte>, acc: Scalars, first: seq<byte>, rest: seq<seq<byte>>, next: State, acc': Scalars)
    requires ReadAll(s, false, [], true) == Log([first] + rest, []) && next == NextRecord(s, false, [], true).next
    requires acc' == Override(acc, Decode(first).1)
    ensures Replay(s, name, Fine, acc) == Replay(next, name, if Acceptable(name, first) then Fine else Refusal(first), acc')
    ensures ReadAll(next, false, [], true) == Log(rest, [])
  {
    FirstOf(s, first, rest, next);
    ReplayTurn(s, name, acc);
  }

  /** If all records are acceptable, the first report decides. */
  lemma {:induction false} ReplayReports(s: State, name: seq<byte>, acc: Scalars)
    requires ReadAll(s, false, [], true).reports != [] && AllAcceptable(name, ReadAll(s, false, [], true).records)
    ensures Replay(s, name, Fine, acc).0 == DamagedLog(ReadAll(s, false, [], true).reports[0].reason)
    decreases s.Size()
  {
    var next := NextRecord(s, false, [], true);
    FirstRecord(s);
    if next.record.None? || next.reports != [] {
      EndOrReport(s, name, acc);
    } else {
      var record, more := next.record.value, ReadAll(next.next, false, [], true);
      ReplayTurn(s, name, acc);
      AcceptableSplit(name, record, more.records);
      NothingFirst(more.reports);
      ReplayReports(next.next, name, Override(acc, Decode(record).1));
    }
  }

  /** What a bad record after the good ones means for a replay. */
  predicate Refuses(s: State, name: seq<byte>, acc: Scalars, bad: seq<byte>) {
    Replay(s, name, Fine, acc).0 == Refusal(bad)
  }

  lemma RefusesNow(s: State, name: seq<byte>, acc: Scalars, bad: seq<byte>, rest: seq<seq<byte>>)
    requires ReadAll(s, false, [], true) == Log([bad] + rest, []) && !Acceptable(name, bad)
    ensures Refuses(s, name, acc, bad)
  {
    var next, acc' := NextRecord(s, false, [], true).next, Override(acc, Decode(bad).1);
    ReplayFirst(s, name, acc, bad, rest, next, acc');
    BadStays(next, name, Refusal(bad), acc');
  }

  lemma RefusesLater(s: State, name: seq<byte>, acc: Scalars, first: seq<byte>, rest: seq<seq<byte>>, next: State, acc': Scalars, bad: seq<byte>)
    requires ReadAll(s, false, [], true) == Log([first] + rest, []) && Acceptable(name, first)
    requires next == NextRecord(s, false, [], true).next && acc' == Override(acc, Decode(first).1)
    ensures ReadAll(next, false, [], true) == Log(rest, [])
    ensures Refuses(next, name, acc', bad) ==> Refuses(s, name, acc, bad)
  {
    ReplayFirst(s, name, acc, first, rest, next, acc');
  }

  lemma AppendNothing<T>(s: seq<T>)
    ensures [] + s == s
  {
  }

  lemma GoodFirst(name: seq<byte>, good: seq<seq<byte>>, tail: seq<seq<byte>>)
    requires good != [] && AllAcceptable(name, good)
    ensures good + tail == [good[0]] + (good[1..] + tail)
    ensures Acceptable(name, good[0]) && AllAcceptable(name, good[1..])
  {
    assert good == [good[0]] + good[1..];
    AcceptableSplit(name, good[0], good[1..]);
  }

  /** The first bad record decides what is wrong. */
  lemma {:induction false} ReplayRefuses(s: State, name: seq<byte>, acc: Scalars, good: seq<seq<byte>>, bad: seq<byte>, rest: seq<seq<byte>>)
    requires ReadAll(s, false, [], true) == Log(good + ([bad] + rest), [])
    requires AllAcceptable(name, good) && !Acceptable(name, bad)
    ensures Refuses(s, name, acc, bad)
    decreases |good|
  {
    if good == [] {
      AppendNothing([bad] + rest);
      RefusesNow(s, name, acc, bad, rest);
    } else {
      var first, more := good[0], good[1..];
      GoodFirst(name, good, [bad] + rest);
      var next, acc' := NextRecord(s, false, [], true).next, Override(acc, Decode(first).1);
      RefusesLater(s, name, acc, first, more + ([bad] + rest), next, acc', bad);
      ReplayRefuses(next, name, acc', more, bad, rest);
    }
  }

  // ----- Scalars

  predicate HasNextFile(record: seq<byte>) {
    Decode(record).1.nextFileNumber.Some?
  }

  predicate HasLog(record: seq<byte>) {
    Decode(record).1.logNumber.Some?
  }

  predicate HasSequence(record: seq<byte>) {
    Decode(record).1.lastSequence.Some?
  }

  ghost predicate Occurs(has: seq<byte> -> bool, records: seq<seq<byte>>) {
    exists i :: 0 <= i < |records| && has(records[i])
  }

  lemma OccursSplit(has: seq<byte> -> bool, records: seq<seq<byte>>)
    requires records != []
    ensures Occurs(has, records) <==> has(records[0]) || Occurs(has, records[1..])
  {
    if i :| 0 <= i < |records| && has(records[i]) {
      assert i > 0 ==> records[1..][i - 1] == records[i];
    }
    if i :| 0 <= i < |records[1..]| && has(records[1..][i]) {
      assert records[i + 1] == records[1..][i];
    }
  }

  /** A scalar is there exactly if some record has it. */
  lemma {:induction false} GatherHas(acc: Scalars, records: seq<seq<byte>>)
    ensures var s := Gather(acc, records);
      && (s.nextFile.Some? <==> acc.nextFile.Some? || Occurs(HasNextFile, records))
      && (s.log.Some? <==> acc.log.Some? || Occurs(HasLog, records))
      && (s.sequence.Some? <==> acc.sequence.Some? || Occurs(HasSequence, records))
    decreases |records|
  {
    if records != [] {
      GatherHas(Override(acc, Decode(records[0]).1), records[1..]);
      OccursSplit(HasNextFile, records);
      OccursSplit(HasLog, records);
      OccursSplit(HasSequence, records);
    }
  }

  /** Without any records behind that have a scalar, it is the one of the last that has. */
  lemma {:induction false} GatherLast(acc: Scalars, records: seq<seq<byte>>, k: nat)
    requires k < |records|
    ensures var s, e := Gather(acc, records), Decode(records[k]).1;
      && (HasNextFile(records[k]) && (forall i :: k < i < |records| ==> !HasNextFile(records[i])) ==> s.nextFile == e.nextFileNumber)
      && (HasLog(records[k]) && (forall i :: k < i < |records| ==> !HasLog(records[i])) ==> s.log == e.logNumber)
      && (HasSequence(records[k]) && (forall i :: k < i < |records| ==> !HasSequence(records[i])) ==> s.sequence == e.lastSequence)
    decreases |records|
  {
    var acc' := Override(acc, Decode(records[0]).1);
    assert forall i :: 0 <= i < |records| - 1 ==> records[1..][i] == records[i + 1];
    if k > 0 {
      GatherLast(acc', records[1..], k - 1);
    } else {
      GatherKeeps(acc', records[1..]);
    }
  }

  lemma {:induction false} GatherKeeps(acc: Scalars, records: seq<seq<byte>>)
    ensures var s := Gather(acc, records);
      && ((forall i :: 0 <= i < |records| ==> !HasNextFile(records[i])) ==> s.nextFile == acc.nextFile)
      && ((forall i :: 0 <= i < |records| ==> !HasLog(records[i])) ==> s.log == acc.log)
      && ((forall i :: 0 <= i < |records| ==> !HasSequence(records[i])) ==> s.sequence == acc.sequence)
    decreases |records|
  {
    if records != [] {
      assert forall i :: 0 <= i < |records| - 1 ==> records[1..][i] == records[i + 1];
      GatherKeeps(Override(acc, Decode(records[0]).1), records[1..]);
    }
  }

  // ----- The main theorems

  /**
   Any file: recovery succeeds exactly if reading it reports nothing, every record
   is an edit that decodes, for this comparator or none, and a next file number, a
   log number and a sequence number each occur somewhere.
   */
  lemma RecoverIff(name: seq<byte>, file: seq<byte>)
    ensures var log := ReadFile(file, true);
      RecoverFile(name, file).0 == Fine <==>
      && log.reports == [] && AllAcceptable(name, log.records)
      && Occurs(HasNextFile, log.records)
      && Occurs(HasLog, log.records)
      && Occurs(HasSequence, log.records)
  {
    ReplayVerdict(Initial(file), name, NO_SCALARS);
    GatherHas(NO_SCALARS, ReadFile(file, true).records);
  }

  /** What is found is, for each scalar, that of the last record that has it. */
  lemma RecoverFinds(name: seq<byte>, file: seq<byte>, k: nat)
    requires RecoverFile(name, file).0 == Fine && k < |ReadFile(file, true).records|
    ensures var records, s := ReadFile(file, true).records, RecoverFile(name, file).1;
      var e := Decode(records[k]).1;
      && (HasNextFile(records[k]) && (forall i :: k < i < |records| ==> !HasNextFile(records[i])) ==> s.nextFile == e.nextFileNumber)
      && (HasLog(records[k]) && (forall i :: k < i < |records| ==> !HasLog(records[i])) ==> s.log == e.logNumber)
      && (HasSequence(records[k]) && (forall i :: k < i < |records| ==> !HasSequence(records[i])) ==> s.sequence == e.lastSequence)
  {
    ReplayVerdict(Initial(file), name, NO_SCALARS);
    GatherLast(NO_SCALARS, ReadFile(file, true).records, k);
  }

  /** Why a manifest that is read without a report is refused: the first bad record says so. */
  lemma BadRecord(name: seq<byte>, file: seq<byte>, good: seq<seq<byte>>, bad: seq<byte>, rest: seq<seq<byte>>)
    requires ReadFile(file, true) == Log(good + ([bad] + rest), [])
    requires AllAcceptable(name, good) && !Acceptable(name, bad)
    ensures RecoverFile(name, file).0 == Refusal(bad)
  {
    ReplayRefuses(Initial(file), name, NO_SCALARS, good, bad, rest);
  }

  /** A report in a manifest whose records are all acceptable: the first one says why it is refused. */
  lemma DamagedManifest(name: seq<byte>, file: seq<byte>)
    requires ReadFile(file, true).reports != [] && AllAcceptable(name, ReadFile(file, true).records)
    ensures RecoverFile(name, file).0 == DamagedLog(ReadFile(file, true).reports[0].reason)
  {
    ReplayReports(Initial(file), name, NO_SCALARS);
  }

  /** If all records are acceptable, a scalar is missing, and the first one that is missing is named. */
  lemma MissingScalar(name: seq<byte>, file: seq<byte>, records: seq<seq<byte>>)
    requires ReadFile(file, true) == Log(records, []) && AllAcceptable(name, records)
    ensures RecoverFile(name, file).0 ==
      if !Occurs(HasNextFile, records) then NoNextFile
      else if !Occurs(HasLog, records) then NoLogNumber
      else if !Occurs(HasSequence, records) then NoLastSequence
      else Fine
  {
    ReplayVerdict(Initial(file), name, NO_SCALARS);
    GatherHas(NO_SCALARS, records);
  }
}
