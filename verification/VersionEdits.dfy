/**
 src/leveldb/__detail/version_edit.cc: the record of the manifest.

 `EncodeTo` writes the scalar fields, the compact pointers and the new files; it
 never writes the deleted files.  `DecodeFrom` reads the tag of a compact pointer
 as a deleted file (lines 173-179).
 */
module VersionEdits {
  import opened Bytes
  import opened Coding

  type int32 = x: int | -0x8000_0000 <= x < 0x8000_0000

  const NUM_LEVELS: nat := 7

  const COMPARATOR: uint32 := 1
  const LOG_NUMBER: uint32 := 2
  const NEXT_FILE_NUMBER: uint32 := 3
  const LAST_SEQUENCE: uint32 := 4
  const COMPACT_POINTER: uint32 := 5
  const NEW_FILE: uint32 := 7
  const PREV_LOG_NUMBER: uint32 := 9

  /** An internal key is its representation; `encode` asserts that it is not empty. */
  type InternalKey = seq<byte>

  datatype FileMetaData = FileMetaData(number: uint64, fileSize: uint64, smallest: InternalKey, largest: InternalKey)

  /** The fields of a version_edit; `None` where the `has_` flag is false. */
  datatype Edit = Edit(
    comparator: Option<seq<byte>>,
    logNumber: Option<uint64>,
    prevLogNumber: Option<uint64>,
    nextFileNumber: Option<uint64>,
    lastSequence: Option<uint64>,
    compactPointers: seq<(int32, InternalKey)>,
    deletedFiles: set<(int32, uint64)>,
    newFiles: seq<(int32, FileMetaData)>)

  const EMPTY := Edit(None, None, None, None, None, [], {}, [])

  // ----- Encoding

  /** A level goes out as a uint32. */
  function LevelWord(level: int32): uint32 {
    if level < 0 then TWO_32 + level else level
  }

  function EncodeComparator(c: Option<seq<byte>>): seq<byte> {
    match c
    case None => []
    case Some(name) => Varint(COMPARATOR) + LengthPrefixed(name)
  }

  function EncodeScalar(tag: uint32, v: Option<uint64>): seq<byte> {
    match v
    case None => []
    case Some(n) => Varint(tag) + Varint(n)
  }

  function EncodePointers(ps: seq<(int32, InternalKey)>): seq<byte> {
    if ps == [] then []
    else
      EncodePointers(ps[..|ps| - 1]) +
      (Varint(COMPACT_POINTER) + (Varint(LevelWord(ps[|ps| - 1].0)) + LengthPrefixed(ps[|ps| - 1].1)))
  }

  /** A new file without its tag. */
  function EncodeFile(level: int32, f: FileMetaData): seq<byte> {
    Varint(LevelWord(level)) +
    (Varint(f.number) + (Varint(f.fileSize) + (LengthPrefixed(f.smallest) + LengthPrefixed(f.largest))))
  }

  function EncodeFiles(fs: seq<(int32, FileMetaData)>): seq<byte> {
    if fs == [] then []
    else EncodeFiles(fs[..|fs| - 1]) + (Varint(NEW_FILE) + EncodeFile(fs[|fs| - 1].0, fs[|fs| - 1].1))
  }

  function Encode(e: Edit): seq<byte> {
    EncodeComparator(e.comparator) +
    EncodeScalar(LOG_NUMBER, e.logNumber) +
    EncodeScalar(PREV_LOG_NUMBER, e.prevLogNumber) +
    EncodeScalar(NEXT_FILE_NUMBER, e.nextFileNumber) +
    EncodeScalar(LAST_SEQUENCE, e.lastSequence) +
    EncodePointers(e.compactPointers) +
    EncodeFiles(e.newFiles)
  }

  // ----- Decoding

  datatype Message = BadComparator | BadLogNumber | BadPrevLogNumber | BadNextFileNumber | BadLastSequence
    | BadDeletedFile | BadNewFile | UnknownTag | InvalidTag

  datatype Status = Ok | Corruption(message: Message)

  /** One field: the edit with the field set and what is left of the input, or the message. */
  datatype Field = Field(edit: Edit, rest: seq<byte>) | Bad(message: Message)

  function DecodeLevel(input: seq<byte>): Option<(int32, seq<byte>)> {
    match DecodeVarint(input, 32)
    case None => None
    case Some((v, rest)) => if v < NUM_LEVELS then Some((v, rest)) else None
  }

  function DecodeKey(input: seq<byte>): Option<(InternalKey, seq<byte>)> {
    match DecodeLengthPrefixed(input)
    case None => None
    case Some((key, rest)) => if key != [] then Some((key, rest)) else None
  }

  /** A uint64, as far as `DecodeVarint` promises one. */
  function DecodeNumber(input: seq<byte>): Option<(uint64, seq<byte>)> {
    match DecodeVarint(input, 64)
    case None => None
    case Some((v, rest)) =>
      DecodedFits(input, 64);
      Pow2Width64();
      Some((v, rest))
  }

  function DecodeFile(input: seq<byte>): Option<((int32, FileMetaData), seq<byte>)> {
    match DecodeLevel(input)
    case None => None
    case Some((level, a)) =>
      match DecodeNumber(a)
      case None => None
      case Some((number, b)) =>
        match DecodeNumber(b)
        case None => None
        case Some((fileSize, c)) =>
          match DecodeKey(c)
          case None => None
          case Some((smallest, d)) =>
            match DecodeKey(d)
            case None => None
            case Some((largest, rest)) => Some(((level, FileMetaData(number, fileSize, smallest, largest)), rest))
  }

  function DecodeDeleted(input: seq<byte>): Option<((int32, uint64), seq<byte>)> {
    match DecodeLevel(input)
    case None => None
    case Some((level, a)) =>
      match DecodeNumber(a)
      case None => None
      case Some((number, rest)) => Some(((level, number), rest))
  }

  function DecodeField(tag: nat, input: seq<byte>, e: Edit): Field {
    match tag
    case 1 =>
      (match DecodeLengthPrefixed(input)
       case Some((name, rest)) => Field(e.(comparator := Some(name)), rest)
       case None => Bad(BadComparator))
    case 2 =>
      (match DecodeNumber(input)
       case Some((n, rest)) => Field(e.(logNumber := Some(n)), rest)
       case None => Bad(BadLogNumber))
    case 9 =>
      (match DecodeNumber(input)
       case Some((n, rest)) => Field(e.(prevLogNumber := Some(n)), rest)
       case None => Bad(BadPrevLogNumber))
    case 3 =>
      (match DecodeNumber(input)
       case Some((n, rest)) => Field(e.(nextFileNumber := Some(n)), rest)
       case None => Bad(BadNextFileNumber))
    case 4 =>
      (match DecodeNumber(input)
       case Some((n, rest)) => Field(e.(lastSequence := Some(n)), rest)
       case None => Bad(BadLastSequence))
    case 5 =>
      (match DecodeDeleted(input)
       case Some((d, rest)) => Field(e.(deletedFiles := e.deletedFiles + {d}), rest)
       case None => Bad(BadDeletedFile))
    case 7 =>
      (match DecodeFile(input)
       case Some((f, rest)) => Field(e.(newFiles := e.newFiles + [f]), rest)
       case None => Bad(BadNewFile))
    case _ => Bad(UnknownTag)
  }

  lemma DecodeNumberShrinks(input: seq<byte>)
    ensures var d := DecodeNumber(input);
      d.Some? ==> |d.value.1| < |input|
  {
    DecodedFits(input, 64);
  }

  lemma DecodeLevelShrinks(input: seq<byte>)
    ensures var d := DecodeLevel(input);
      d.Some? ==> |d.value.1| < |input|
  {
    DecodedFits(input, 32);
  }

  lemma DecodeFileShrinks(input: seq<byte>)
    ensures var d := DecodeFile(input);
      d.Some? ==> |d.value.1| < |input|
  {
    var l := DecodeLevel(input);
    DecodeLevelShrinks(input);
    if l.Some? {
      var n := DecodeNumber(l.value.1);
      DecodeNumberShrinks(l.value.1);
      if n.Some? {
        var s := DecodeNumber(n.value.1);
        DecodeNumberShrinks(n.value.1);
        if s.Some? {
          var k := DecodeKey(s.value.1);
          DecodeLengthPrefixedShrinks(s.value.1);
          if k.Some? {
            DecodeLengthPrefixedShrinks(k.value.1);
          }
        }
      }
    }
  }

  lemma DecodeDeletedShrinks(input: seq<byte>)
    ensures var d := DecodeDeleted(input);
      d.Some? ==> |d.value.1| < |input|
  {
    var l := DecodeLevel(input);
    DecodeLevelShrinks(input);
    if l.Some? {
      DecodeNumberShrinks(l.value.1);
    }
  }

  lemma DecodeFieldShrinks(tag: nat, input: seq<byte>, e: Edit)
    ensures var f := DecodeField(tag, input, e);
      f.Field? ==> |f.rest| < |input|
  {
    match tag
    case 1 => DecodeLengthPrefixedShrinks(input);
    case 5 => DecodeDeletedShrinks(input);
    case 7 => DecodeFileShrinks(input);
    case _ => DecodeNumberShrinks(input);
  }

  /** The loop of decode_from, which stops at the first tag it cannot read. */
  function DecodeFields(input: seq<byte>, e: Edit): (Status, Edit)
    decreases |input|
  {
    match DecodeVarint(input, 32)
    case None => (if input == [] then Ok else Corruption(InvalidTag), e)
    case Some((tag, rest)) =>
      DecodedFits(input, 32);
      DecodeFieldShrinks(tag, rest, e);
      match DecodeField(tag, rest, e)
      case Bad(message) => (Corruption(message), e)
      case Field(e', rest') => DecodeFields(rest', e')
  }

  function Decode(src: seq<byte>): (Status, Edit) {
    DecodeFields(src, EMPTY)
  }

  // ----- The round trip

  /** What decode_from can give back: no compact pointer, real levels, keys and sizes that fit. */
  predicate Representable(e: Edit) {
    && (e.comparator.Some? ==> |e.comparator.value| < TWO_32)
    && e.compactPointers == []
    && forall f :: f in e.newFiles ==> RepresentableFile(f)
  }

  predicate RepresentableFile(f: (int32, FileMetaData)) {
    && 0 <= f.0 < NUM_LEVELS
    && 0 < |f.1.smallest| < TWO_32
    && 0 < |f.1.largest| < TWO_32
  }

  /** The loop takes one field off the front. */
  lemma OneField(tag: uint32, body: seq<byte>, rest: seq<byte>, e: Edit, e': Edit)
    requires DecodeField(tag, body + rest, e) == Field(e', rest)
    ensures DecodeFields((Varint(tag) + body) + rest, e) == DecodeFields(rest, e')
  {
    ConcatAssociates(Varint(tag), body, rest);
    Varint32RoundTrip(tag, body + rest);
  }

  lemma NumberRoundTrip(n: uint64, rest: seq<byte>)
    ensures DecodeNumber(Varint(n) + rest) == Some((n, rest))
  {
    Varint64RoundTrip(n, rest);
  }

  lemma LevelRoundTrip(level: int32, rest: seq<byte>)
    requires 0 <= level < NUM_LEVELS
    ensures DecodeLevel(Varint(LevelWord(level)) + rest) == Some((level, rest))
  {
    Varint32RoundTrip(level, rest);
  }

  lemma KeyRoundTrip(key: InternalKey, rest: seq<byte>)
    requires 0 < |key| < TWO_32
    ensures DecodeKey(LengthPrefixed(key) + rest) == Some((key, rest))
  {
    LengthPrefixedRoundTrip(key, rest);
  }

  lemma FileRoundTrip(level: int32, f: FileMetaData, rest: seq<byte>)
    requires RepresentableFile((level, f))
    ensures DecodeFile(EncodeFile(level, f) + rest) == Some(((level, f), rest))
  {
    var r4 := LengthPrefixed(f.largest);
    var r3 := LengthPrefixed(f.smallest) + r4;
    var r2 := Varint(f.fileSize) + r3;
    var r1 := Varint(f.number) + r2;
    ConcatAssociates(Varint(LevelWord(level)), r1, rest);
    LevelRoundTrip(level, r1 + rest);
    ConcatAssociates(Varint(f.number), r2, rest);
    NumberRoundTrip(f.number, r2 + rest);
    ConcatAssociates(Varint(f.fileSize), r3, rest);
    NumberRoundTrip(f.fileSize, r3 + rest);
    ConcatAssociates(LengthPrefixed(f.smallest), r4, rest);
    KeyRoundTrip(f.smallest, r4 + rest);
    KeyRoundTrip(f.largest, rest);
  }

  lemma ReadComparator(c: Option<seq<byte>>, rest: seq<byte>, e: Edit)
    requires c.Some? ==> |c.value| < TWO_32
    ensures DecodeFields(EncodeComparator(c) + rest, e) ==
            DecodeFields(rest, if c.Some? then e.(comparator := c) else e)
  {
    match c
    case None =>
      assert [] + rest == rest;
    case Some(name) =>
      LengthPrefixedRoundTrip(name, rest);
      OneField(COMPARATOR, LengthPrefixed(name), rest, e, e.(comparator := c));
  }

  /** What reading a scalar field does to an edit. */
  function SetScalar(tag: uint32, v: Option<uint64>, e: Edit): Edit {
    if v.None? then e
    else if tag == LOG_NUMBER then e.(logNumber := v)
    else if tag == PREV_LOG_NUMBER then e.(prevLogNumber := v)
    else if tag == NEXT_FILE_NUMBER then e.(nextFileNumber := v)
    else if tag == LAST_SEQUENCE then e.(lastSequence := v)
    else e
  }

  lemma ReadScalar(tag: uint32, v: Option<uint64>, rest: seq<byte>, e: Edit)
    requires tag in {LOG_NUMBER, PREV_LOG_NUMBER, NEXT_FILE_NUMBER, LAST_SEQUENCE}
    ensures DecodeFields(EncodeScalar(tag, v) + rest, e) == DecodeFields(rest, SetScalar(tag, v, e))
  {
    match v
    case None =>
      assert [] + rest == rest;
    case Some(n) =>
      NumberRoundTrip(n, rest);
      OneField(tag, Varint(n), rest, e, SetScalar(tag, v, e));
  }

  lemma ReadNewFile(f: (int32, FileMetaData), rest: seq<byte>, e: Edit)
    requires RepresentableFile(f)
    ensures DecodeFields((Varint(NEW_FILE) + EncodeFile(f.0, f.1)) + rest, e) ==
            DecodeFields(rest, e.(newFiles := e.newFiles + [f]))
  {
    FileRoundTrip(f.0, f.1, rest);
    OneField(NEW_FILE, EncodeFile(f.0, f.1), rest, e, e.(newFiles := e.newFiles + [f]));
  }

  lemma {:induction false} ReadFiles(fs: seq<(int32, FileMetaData)>, rest: seq<byte>, e: Edit)
    requires forall f :: f in fs ==> RepresentableFile(f)
    ensures DecodeFields(EncodeFiles(fs) + rest, e) == DecodeFields(rest, e.(newFiles := e.newFiles + fs))
    decreases |fs|
  {
    if fs == [] {
      assert [] + rest == rest && e.newFiles + [] == e.newFiles;
    } else {
      var init, last := fs[..|fs| - 1], fs[|fs| - 1];
      var one := Varint(NEW_FILE) + EncodeFile(last.0, last.1);
      ConcatAssociates(EncodeFiles(init), one, rest);
      ReadFiles(init, one + rest, e);
      ReadNewFile(last, rest, e.(newFiles := e.newFiles + init));
      ConcatAssociates(e.newFiles, init, [last]);
      assert init + [last] == fs;
    }
  }

  /** Everything but the deleted files comes back. */
  lemma ReadEncoded(e: Edit)
    requires Representable(e)
    ensures Decode(Encode(e)) == (Ok, e.(deletedFiles := {}))
  {
    var c := EncodeComparator(e.comparator);
    var l := EncodeScalar(LOG_NUMBER, e.logNumber);
    var p := EncodeScalar(PREV_LOG_NUMBER, e.prevLogNumber);
    var n := EncodeScalar(NEXT_FILE_NUMBER, e.nextFileNumber);
    var s := EncodeScalar(LAST_SEQUENCE, e.lastSequence);
    var f := EncodeFiles(e.newFiles);
    EncodeInOrder(c, l, p, n, s, f);
    var e1 := EMPTY.(comparator := e.comparator);
    var e2 := SetScalar(LOG_NUMBER, e.logNumber, e1);
    var e3 := SetScalar(PREV_LOG_NUMBER, e.prevLogNumber, e2);
    var e4 := SetScalar(NEXT_FILE_NUMBER, e.nextFileNumber, e3);
    var e5 := SetScalar(LAST_SEQUENCE, e.lastSequence, e4);
    ReadComparator(e.comparator, l + (p + (n + (s + f))), EMPTY);
    ReadScalar(LOG_NUMBER, e.logNumber, p + (n + (s + f)), e1);
    ReadScalar(PREV_LOG_NUMBER, e.prevLogNumber, n + (s + f), e2);
    ReadScalar(NEXT_FILE_NUMBER, e.nextFileNumber, s + f, e3);
    ReadScalar(LAST_SEQUENCE, e.lastSequence, f, e4);
    assert f + [] == f;
    ReadFiles(e.newFiles, [], e5);
    assert [] + e.newFiles == e.newFiles;
    assert DecodeFields([], e5.(newFiles := e.newFiles)) == (Ok, e5.(newFiles := e.newFiles));
  }

  lemma EncodeInOrder(c: seq<byte>, l: seq<byte>, p: seq<byte>, n: seq<byte>, s: seq<byte>, f: seq<byte>)
    ensures c + l + p + n + s + [] + f == c + (l + (p + (n + (s + f))))
  {
    assert s + [] + f == s + f;
    ConcatAssociates(c + l + p + n, s + [], f);
    ConcatAssociates(c + l + p, n, s + f);
    ConcatAssociates(c + l, p, n + (s + f));
    ConcatAssociates(c, l, p + (n + (s + f)));
  }

  /** Nothing else is ever decoded. */
  lemma {:induction false} DecodedRepresentable(input: seq<byte>, e: Edit)
    requires Representable(e)
    ensures Representable(DecodeFields(input, e).1)
    decreases |input|
  {
    var t := DecodeVarint(input, 32);
    if t.Some? {
      DecodedFits(input, 32);
      DecodeFieldShrinks(t.value.0, t.value.1, e);
      DecodedFieldRepresentable(t.value.0, t.value.1, e);
      var f := DecodeField(t.value.0, t.value.1, e);
      if f.Field? {
        DecodedRepresentable(f.rest, f.edit);
      }
    }
  }

  lemma DecodedFieldRepresentable(tag: nat, input: seq<byte>, e: Edit)
    requires Representable(e)
    ensures var f := DecodeField(tag, input, e);
      f.Field? ==> Representable(f.edit)
  {
    match tag
    case 1 => DecodeLengthPrefixedShrinks(input);
    case 7 => DecodedFileRepresentable(input);
    case _ =>
  }

  lemma DecodedFileRepresentable(input: seq<byte>)
    ensures var d := DecodeFile(input);
      d.Some? ==> RepresentableFile(d.value.0)
  {
    var l := DecodeLevel(input);
    if l.Some? {
      var n := DecodeNumber(l.value.1);
      if n.Some? {
        var s := DecodeNumber(n.value.1);
        if s.Some? {
          var k := DecodeKey(s.value.1);
          DecodeLengthPrefixedShrinks(s.value.1);
          if k.Some? {
            DecodeLengthPrefixedShrinks(k.value.1);
          }
        }
      }
    }
  }

  /** Exactly the edits that decode_from can represent, and that delete no file, survive. */
  lemma RoundTrip(e: Edit)
    ensures Decode(Encode(e)) == (Ok, e) <==> Representable(e) && e.deletedFiles == {}
  {
    if Representable(e) {
      ReadEncoded(e);
    } else {
      DecodedRepresentable(Encode(e), EMPTY);
    }
  }

  /** A deletion is forgotten. */
  lemma DeletedFileLost(level: int32, number: uint64)
    ensures Decode(Encode(EMPTY.(deletedFiles := {(level, number)}))) == (Ok, EMPTY)
  {
    ReadEncoded(EMPTY.(deletedFiles := {(level, number)}));
  }

  // ----- The class

  class VersionEdit {
    var comparator: seq<byte>
    var logNumber: uint64
    var prevLogNumber: uint64
    var nextFileNumber: uint64
    var lastSequence: uint64
    var hasComparator: bool
    var hasLogNumber: bool
    var hasPrevLogNumber: bool
    var hasNextFileNumber: bool
    var hasLastSequence: bool
    var compactPointers: seq<(int32, InternalKey)>
    var deletedFiles: set<(int32, uint64)>
    var newFiles: seq<(int32, FileMetaData)>

    function Value(): Edit
      reads this
    {
      Edit(if hasComparator then Some(comparator) else None,
           if hasLogNumber then Some(logNumber) else None,
           if hasPrevLogNumber then Some(prevLogNumber) else None,
           if hasNextFileNumber then Some(nextFileNumber) else None,
           if hasLastSequence then Some(lastSequence) else None,
           compactPointers, deletedFiles, newFiles)
    }

    constructor ()
      ensures Value() == EMPTY
    {
      hasComparator, hasLogNumber, hasPrevLogNumber, hasNextFileNumber, hasLastSequence := false, false, false, false, false;
      comparator, logNumber, prevLogNumber, nextFileNumber, lastSequence := [], 0, 0, 0, 0;
      compactPointers, deletedFiles, newFiles := [], {}, [];
    }

    method Clear()
      modifies this
      ensures Value() == EMPTY
    {
      hasComparator, hasLogNumber, hasPrevLogNumber, hasNextFileNumber, hasLastSequence := false, false, false, false, false;
      comparator, logNumber, prevLogNumber, nextFileNumber, lastSequence := [], 0, 0, 0, 0;
      compactPointers, deletedFiles, newFiles := [], {}, [];
    }

    method SetComparatorName(name: seq<byte>)
      modifies this
      ensures Value() == old(Value()).(comparator := Some(name))
    {
      hasComparator, comparator := true, name;
    }

    method SetLogNumber(num: uint64)
      modifies this
      ensures Value() == old(Value()).(logNumber := Some(num))
    {
      hasLogNumber, logNumber := true, num;
    }

    method SetPrevLogNumber(num: uint64)
      modifies this
      ensures Value() == old(Value()).(prevLogNumber := Some(num))
    {
      hasPrevLogNumber, prevLogNumber := true, num;
    }

    method SetNextFile(num: uint64)
      modifies this
      ensures Value() == old(Value()).(nextFileNumber := Some(num))
    {
      hasNextFileNumber, nextFileNumber := true, num;
    }

    method SetLastSequence(sequence: uint64)
      modifies this
      ensures Value() == old(Value()).(lastSequence := Some(sequence))
    {
      hasLastSequence, lastSequence := true, sequence;
    }

    method SetCompactPointer(level: int32, key: InternalKey)
      modifies this
      ensures Value() == old(Value()).(compactPointers := old(compactPointers) + [(level, key)])
    {
      compactPointers := compactPointers + [(level, key)];
    }

    method AddFile(level: int32, f: FileMetaData)
      modifies this
      ensures Value() == old(Value()).(newFiles := old(newFiles) + [(level, f)])
    {
      newFiles := newFiles + [(level, f)];
    }

    method EncodeScalars() returns (r: seq<byte>)
      ensures r == EncodeComparator(Value().comparator) +
        EncodeScalar(LOG_NUMBER, Value().logNumber) +
        EncodeScalar(PREV_LOG_NUMBER, Value().prevLogNumber) +
        EncodeScalar(NEXT_FILE_NUMBER, Value().nextFileNumber) +
        EncodeScalar(LAST_SEQUENCE, Value().lastSequence)
    {
      r := PutComparator(hasComparator, comparator);
      r := PutScalar(r, LOG_NUMBER, hasLogNumber, logNumber);
      r := PutScalar(r, PREV_LOG_NUMBER, hasPrevLogNumber, prevLogNumber);
      r := PutScalar(r, NEXT_FILE_NUMBER, hasNextFileNumber, nextFileNumber);
      r := PutScalar(r, LAST_SEQUENCE, hasLastSequence, lastSequence);
    }

    static method PutComparator(has: bool, name: seq<byte>) returns (r: seq<byte>)
      ensures r == EncodeComparator(if has then Some(name) else None)
    {
      r := [];
      if has {
        r := PutVarint32(r, COMPARATOR);
        r := PutLengthPrefixedSlice(r, name);
      }
    }

    static method PutScalar(dst: seq<byte>, tag: uint32, has: bool, v: uint64) returns (r: seq<byte>)
      ensures r == dst + EncodeScalar(tag, if has then Some(v) else None)
    {
      r := dst;
      if has {
        r := PutVarint32(r, tag);
        r := PutVarint64(r, v);
      }
    }

    method EncodeTo(dst: seq<byte>) returns (r: seq<byte>)
      ensures r == dst + Encode(Value())
    {
      var scalars := EncodeScalars();
      var pointers := PutPointers();
      var files := PutFiles();
      r := dst + (scalars + pointers + files);
    }

    method PutPointers() returns (r: seq<byte>)
      ensures r == EncodePointers(compactPointers)
    {
      r := [];
      for i := 0 to |compactPointers|
        invariant r == EncodePointers(compactPointers[..i])
      {
        ghost var before := r;
        var (level, key) := compactPointers[i];
        r := PutVarint32(r, COMPACT_POINTER);
        r := PutVarint32(r, LevelWord(level));
        r := PutLengthPrefixedSlice(r, key);
        assert r == before + (Varint(COMPACT_POINTER) + (Varint(LevelWord(level)) + LengthPrefixed(key)));
        assert compactPointers[..i + 1][..i] == compactPointers[..i];
      }
      assert compactPointers[..|compactPointers|] == compactPointers;
    }

    method PutFiles() returns (r: seq<byte>)
      ensures r == EncodeFiles(newFiles)
    {
      r := [];
      for i := 0 to |newFiles|
        invariant r == EncodeFiles(newFiles[..i])
      {
        ghost var before := r;
        var (level, f) := newFiles[i];
        var one := PutVarint32([], NEW_FILE);
        var file := PutFile(level, f);
        r := r + (one + file);
        assert newFiles[..i + 1][..i] == newFiles[..i];
      }
      assert newFiles[..|newFiles|] == newFiles;
    }

    static method PutFile(level: int32, f: FileMetaData) returns (r: seq<byte>)
      ensures r == EncodeFile(level, f)
    {
      r := PutVarint32([], LevelWord(level));
      r := PutVarint64(r, f.number);
      r := PutVarint64(r, f.fileSize);
      r := PutLengthPrefixedSlice(r, f.smallest);
      r := PutLengthPrefixedSlice(r, f.largest);
    }

    /** One turn of the switch; the message, if the field is bad. */
    method DecodeOne(tag: uint32, input: seq<byte>) returns (message: Option<Message>, rest: seq<byte>)
      modifies this
      ensures match DecodeField(tag, input, old(Value()))
        case Field(e, r) => message == None && rest == r && Value() == e
        case Bad(m) => message == Some(m) && Value() == old(Value())
    {
      match tag
      case 5 =>
        message, rest := DecodeDeletedFile(input);
      case 7 =>
        message, rest := DecodeNewFile(input);
      case _ =>
        message, rest := DecodeScalar(tag, input);
    }

    method DecodeDeletedFile(input: seq<byte>) returns (message: Option<Message>, rest: seq<byte>)
      modifies this
      ensures match DecodeDeleted(input)
        case Some((d, r)) =>
          message == None && rest == r && Value() == old(Value()).(deletedFiles := old(deletedFiles) + {d})
        case None => message == Some(BadDeletedFile) && Value() == old(Value())
    {
      message, rest := None, input;
      var d := DecodeDeleted(input);
      if d.Some? {
        deletedFiles, rest := deletedFiles + {d.value.0}, d.value.1;
      } else {
        message := Some(BadDeletedFile);
      }
    }

    method DecodeNewFile(input: seq<byte>) returns (message: Option<Message>, rest: seq<byte>)
      modifies this
      ensures match DecodeFile(input)
        case Some((f, r)) => message == None && rest == r && Value() == old(Value()).(newFiles := old(newFiles) + [f])
        case None => message == Some(BadNewFile) && Value() == old(Value())
    {
      message, rest := None, input;
      var d := DecodeFile(input);
      if d.Some? {
        newFiles, rest := newFiles + [d.value.0], d.value.1;
      } else {
        message := Some(BadNewFile);
      }
    }

    /** The cases of the single values, and the default. */
    method DecodeScalar(tag: uint32, input: seq<byte>) returns (message: Option<Message>, rest: seq<byte>)
      requires tag != 5 && tag != 7
      modifies this
      ensures match DecodeField(tag, input, old(Value()))
        case Field(e, r) => message == None && rest == r && Value() == e
        case Bad(m) => message == Some(m) && Value() == old(Value())
    {
      message, rest := None, input;
      match tag
      case 1 =>
        var d := GetLengthPrefixedSlice(input);
        if d.Some? {
          comparator, hasComparator, rest := d.value.0, true, d.value.1;
        } else {
          message := Some(BadComparator);
        }
      case 2 =>
        var d := GetNumber(input);
        if d.Some? {
          logNumber, hasLogNumber, rest := d.value.0, true, d.value.1;
        } else {
          message := Some(BadLogNumber);
        }
      case 9 =>
        var d := GetNumber(input);
        if d.Some? {
          prevLogNumber, hasPrevLogNumber, rest := d.value.0, true, d.value.1;
        } else {
          message := Some(BadPrevLogNumber);
        }
      case 3 =>
        var d := GetNumber(input);
        if d.Some? {
          nextFileNumber, hasNextFileNumber, rest := d.value.0, true, d.value.1;
        } else {
          message := Some(BadNextFileNumber);
        }
      case 4 =>
        var d := GetNumber(input);
        if d.Some? {
          lastSequence, hasLastSequence, rest := d.value.0, true, d.value.1;
        } else {
          message := Some(BadLastSequence);
        }
      case _ =>
        message := Some(UnknownTag);
    }

    static method GetNumber(input: seq<byte>) returns (r: Option<(uint64, seq<byte>)>)
      ensures r == DecodeNumber(input)
    {
      r := GetVarint64(input);
    }

    method DecodeFrom(src: seq<byte>) returns (status: Status)
      modifies this
      ensures (status, Value()) == Decode(src)
    {
      Clear();
      var input := src;
      var message: Option<Message> := None;
      while message == None
        invariant message == None ==> DecodeFields(input, Value()) == Decode(src)
        invariant message != None ==> Decode(src) == (Corruption(message.value), Value())
        decreases message == None, |input|
      {
        var t := GetVarint32(input);
        if t.None? {
          break;
        }
        DecodedFits(input, 32);
        DecodeFieldShrinks(t.value.0, t.value.1, Value());
        message, input := DecodeOne(t.value.0, t.value.1);
      }
      if message == None && input != [] {
        message := Some(InvalidTag);
      }
      status := if message == None then Ok else Corruption(message.value);
    }
  }
}
