/**
 What a version edit looks like in bytes: which tag stands for what, in which order
 fields are written, what each does when it is read, and how bad ones are refused.
 */
module VersionEditItems {
  import opened Bytes
  import opened Coding
  import opened VersionEdits
  import opened VersionEditFormat

  datatype Item =
    | Name(name: seq<byte>)
    | Log(n: uint64)
    | PrevLog(n: uint64)
    | NextFile(n: uint64)
    | Sequence(n: uint64)
    | Deletion(level: int32, n: uint64)
    | Addition(level: int32, f: FileMetaData)

  predicate IsSound(i: Item) {
    && (i.Name? ==> |i.name| < TWO_32)
    && (i.Deletion? ==> 0 <= i.level < 7)
    && (i.Addition? ==> RepresentableFile((i.level, i.f)))
  }

  /** Tag 5 is that of a compact pointer to the writer and that of a deleted file to the reader. */
  function Tag(i: Item): byte {
    match i
    case Name(_) => 1
    case Log(_) => 2
    case NextFile(_) => 3
    case Sequence(_) => 4
    case Deletion(_, _) => 5
    case Addition(_, _) => 7
    case PrevLog(_) => 9
  }

  function Body(i: Item): seq<byte> {
    match i
    case Name(name) => LengthPrefixed(name)
    case Log(n) => Varint(n)
    case NextFile(n) => Varint(n)
    case Sequence(n) => Varint(n)
    case Deletion(level, n) => Varint(LevelWord(level)) + Varint(n)
    case Addition(level, f) =>
      Varint(LevelWord(level)) + (Varint(f.number) + (Varint(f.fileSize) + (LengthPrefixed(f.smallest) + LengthPrefixed(f.largest))))
    case PrevLog(n) => Varint(n)
  }

  function ItemBytes(i: Item): seq<byte> {
    [Tag(i)] + Body(i)
  }

  /** What reading it does. */
  function Set(i: Item, e: Edit): Edit {
    match i
    case Name(name) => e.(comparator := Some(name))
    case Log(n) => e.(logNumber := Some(n))
    case NextFile(n) => e.(nextFileNumber := Some(n))
    case Sequence(n) => e.(lastSequence := Some(n))
    case Deletion(level, n) => e.(deletedFiles := e.deletedFiles + {(level, n)})
    case Addition(level, f) => e.(newFiles := e.newFiles + [(level, f)])
    case PrevLog(n) => e.(prevLogNumber := Some(n))
  }

  // ----- Reading

  lemma DeletedRoundTrip(level: int32, n: uint64, rest: seq<byte>)
    requires 0 <= level < 7
    ensures DecodeDeleted((Varint(LevelWord(level)) + Varint(n)) + rest) == Some(((level, n), rest))
  {
    ConcatAssociates(Varint(LevelWord(level)), Varint(n), rest);
    LevelRoundTrip(level, Varint(n) + rest);
    NumberRoundTrip(n, rest);
  }

  lemma ReadNumberBody(i: Item, rest: seq<byte>, e: Edit)
    requires i.Log? || i.PrevLog? || i.NextFile? || i.Sequence?
    ensures DecodeField(Tag(i), Body(i) + rest, e) == Field(Set(i, e), rest)
  {
    NumberRoundTrip(i.n, rest);
  }

  lemma ReadAdditionBody(i: Item, rest: seq<byte>, e: Edit)
    requires i.Addition? && IsSound(i)
    ensures DecodeField(Tag(i), Body(i) + rest, e) == Field(Set(i, e), rest)
  {
    AdditionIsFile(i);
    FileRoundTrip(i.level, i.f, rest);
    FieldOfFile(Body(i) + rest, e, (i.level, i.f), rest);
  }

  lemma AdditionIsFile(i: Item)
    requires i.Addition?
    ensures Body(i) == EncodeFile(i.level, i.f)
  {
  }

  lemma FieldOfFile(input: seq<byte>, e: Edit, f: (int32, FileMetaData), rest: seq<byte>)
    requires DecodeFile(input) == Some((f, rest))
    ensures DecodeField(7, input, e) == Field(e.(newFiles := e.newFiles + [f]), rest)
  {
  }

  lemma ReadDeletionBody(i: Item, rest: seq<byte>, e: Edit)
    requires i.Deletion? && IsSound(i)
    ensures DecodeField(Tag(i), Body(i) + rest, e) == Field(Set(i, e), rest)
  {
    DeletedRoundTrip(i.level, i.n, rest);
  }

  lemma ReadNameBody(i: Item, rest: seq<byte>, e: Edit)
    requires i.Name? && IsSound(i)
    ensures DecodeField(Tag(i), Body(i) + rest, e) == Field(Set(i, e), rest)
  {
    LengthPrefixedRoundTrip(i.name, rest);
  }

  lemma ReadBody(i: Item, rest: seq<byte>, e: Edit)
    requires IsSound(i)
    ensures DecodeField(Tag(i), Body(i) + rest, e) == Field(Set(i, e), rest)
  {
    if i.Name? {
      ReadNameBody(i, rest, e);
    } else if i.Deletion? {
      ReadDeletionBody(i, rest, e);
    } else if i.Addition? {
      ReadAdditionBody(i, rest, e);
    } else {
      ReadNumberBody(i, rest, e);
    }
  }

  /** A field in front is read as what it stands for, whatever is behind it. */
  lemma ReadItem(i: Item, rest: seq<byte>, e: Edit)
    requires IsSound(i)
    ensures DecodeFields(ItemBytes(i) + rest, e) == DecodeFields(rest, Set(i, e))
  {
    ReadBody(i, rest, e);
    assert Varint(Tag(i)) == [Tag(i)];
    OneField(Tag(i), Body(i), rest, e, Set(i, e));
  }

  function AllBytes(items: seq<Item>): seq<byte> {
    if items == [] then [] else ItemBytes(items[0]) + AllBytes(items[1..])
  }

  function SetAll(items: seq<Item>, e: Edit): Edit
    decreases |items|
  {
    if items == [] then e else SetAll(items[1..], Set(items[0], e))
  }

  /** Any fields in any order: later ones win, files and deletions add up. */
  lemma {:induction false} ReadItems(items: seq<Item>, e: Edit)
    requires forall i :: i in items ==> IsSound(i)
    ensures DecodeFields(AllBytes(items), e) == (Ok, SetAll(items, e))
    decreases |items|
  {
    if items != [] {
      ReadItem(items[0], AllBytes(items[1..]), e);
      ReadItems(items[1..], Set(items[0], e));
    }
  }

  // ----- Writing

  function Optional(v: Option<uint64>, make: uint64 -> Item): seq<Item> {
    if v.Some? then [make(v.value)] else []
  }

  /** What encode_to writes, in its order: never a deletion. */
  function ItemsOf(e: Edit): seq<Item> {
    (if e.comparator.Some? then [Name(e.comparator.value)] else []) +
    Optional(e.logNumber, (n: uint64) => Log(n)) +
    Optional(e.prevLogNumber, (n: uint64) => PrevLog(n)) +
    Optional(e.nextFileNumber, (n: uint64) => NextFile(n)) +
    Optional(e.lastSequence, (n: uint64) => Sequence(n)) +
    Additions(e.newFiles)
  }

  function Additions(fs: seq<(int32, FileMetaData)>): seq<Item> {
    if fs == [] then [] else Additions(fs[..|fs| - 1]) + [Addition(fs[|fs| - 1].0, fs[|fs| - 1].1)]
  }

  lemma {:induction false} BytesConcat(a: seq<Item>, b: seq<Item>)
    ensures AllBytes(a + b) == AllBytes(a) + AllBytes(b)
    decreases |a|
  {
    if a == [] {
      assert [] + b == b && [] + AllBytes(b) == AllBytes(b);
    } else {
      assert (a + b)[1..] == a[1..] + b;
      BytesConcat(a[1..], b);
      ConcatAssociates(ItemBytes(a[0]), AllBytes(a[1..]), AllBytes(b));
    }
  }

  lemma OneItem(i: Item)
    ensures AllBytes([i]) == ItemBytes(i)
  {
    assert [i][1..] == [] && ItemBytes(i) + [] == ItemBytes(i);
  }

  lemma ScalarBytes(tag: byte, v: Option<uint64>, make: uint64 -> Item)
    requires tag < 128
    requires forall n: uint64 :: ItemBytes(make(n)) == [tag] + Varint(n)
    ensures EncodeScalar(tag, v) == AllBytes(Optional(v, make))
  {
    if v.Some? {
      OneItem(make(v.value));
    }
  }

  lemma {:induction false} FileBytes(fs: seq<(int32, FileMetaData)>)
    ensures EncodeFiles(fs) == AllBytes(Additions(fs))
  {
    if fs != [] {
      var last := Addition(fs[|fs| - 1].0, fs[|fs| - 1].1);
      FileBytes(fs[..|fs| - 1]);
      BytesConcat(Additions(fs[..|fs| - 1]), [last]);
      OneItem(last);
    }
  }

  lemma NameBytes(c: Option<seq<byte>>)
    ensures EncodeComparator(c) == AllBytes(if c.Some? then [Name(c.value)] else [])
  {
    if c.Some? {
      OneItem(Name(c.value));
    }
  }

  /** The bytes of an edit without compact pointers. */
  lemma EncodeIsItems(e: Edit)
    requires e.compactPointers == []
    ensures Encode(e) == AllBytes(ItemsOf(e))
  {
    var c := if e.comparator.Some? then [Name(e.comparator.value)] else [];
    var l := Optional(e.logNumber, (n: uint64) => Log(n));
    var p := Optional(e.prevLogNumber, (n: uint64) => PrevLog(n));
    var n := Optional(e.nextFileNumber, (n: uint64) => NextFile(n));
    var s := Optional(e.lastSequence, (n: uint64) => Sequence(n));
    NameBytes(e.comparator);
    ScalarBytes(2, e.logNumber, (n: uint64) => Log(n));
    ScalarBytes(9, e.prevLogNumber, (n: uint64) => PrevLog(n));
    ScalarBytes(3, e.nextFileNumber, (n: uint64) => NextFile(n));
    ScalarBytes(4, e.lastSequence, (n: uint64) => Sequence(n));
    FileBytes(e.newFiles);
    BytesConcat(c, l);
    BytesConcat(c + l, p);
    BytesConcat(c + l + p, n);
    BytesConcat(c + l + p + n, s);
    BytesConcat(c + l + p + n + s, Additions(e.newFiles));
    NothingAfter(AllBytes(c + l + p + n + s));
  }

  lemma NothingAfter(s: seq<byte>)
    ensures s + [] == s
  {
  }

  // ----- Compact pointers

  /**
   A compact pointer that was written is read as a deleted file, whose number is the
   length of the key; then the bytes of the key are read as fields.
   */
  lemma PointerIsMisread(level: int32, key: InternalKey, rest: seq<byte>, e: Edit)
    requires 0 <= level < 7 && |key| < TWO_32
    ensures DecodeFields(EncodePointers([(level, key)]) + rest, e) ==
            DecodeFields(key + rest, e.(deletedFiles := e.deletedFiles + {(level, |key|)}))
  {
    var lv, ln := Varint(LevelWord(level)), Varint(|key|);
    assert [(level, key)][..0] == [];
    assert EncodePointers([(level, key)]) == [] + (Varint(5) + (lv + (ln + key)));
    VersionEditFormat.NothingBefore(Varint(5) + (lv + (ln + key)));
    assert Varint(5) == [5];
    ConcatAssociates(lv, ln, key);
    ConcatAssociates([5], lv + ln, key);
    ConcatAssociates([5] + (lv + ln), key, rest);
    ReadItem(Deletion(level, |key|), key + rest, e);
  }

  // ----- What is refused

  /** The message for a field that cannot be read. */
  function MessageOf(tag: nat): Message {
    match tag
    case 1 => BadComparator
    case 2 => BadLogNumber
    case 3 => BadNextFileNumber
    case 4 => BadLastSequence
    case 5 => BadDeletedFile
    case 7 => BadNewFile
    case 9 => BadPrevLogNumber
    case _ => UnknownTag
  }

  lemma RefusedMessage(tag: nat, s: seq<byte>, e: Edit)
    requires DecodeField(tag, s, e).Bad?
    ensures DecodeField(tag, s, e).message == MessageOf(tag)
  {
  }

  /** A tag without its value, behind anything that is accepted, is refused with its message; so is any tag that there is not. */
  lemma TagAlone(s: seq<byte>, tag: byte)
    requires Decode(s).0 == Ok && tag < 128
    ensures Decode(s + [tag]) == (Corruption(MessageOf(tag)), Decode(s).1)
  {
    var e := Decode(s).1;
    AcceptedIsConsumed(s, [tag], EMPTY);
    assert Varint(tag) == [tag];
    Varint32RoundTrip(tag, []);
    NothingAfter([tag]);
    Turn([tag], e);
    RefusedMessage(tag, [], e);
  }

  lemma UnknownTagRefused(s: seq<byte>, tag: byte, t: seq<byte>)
    requires Decode(s).0 == Ok && tag < 128 && tag !in {1, 2, 3, 4, 5, 7, 9}
    ensures Decode(s + ([tag] + t)) == (Corruption(UnknownTag), Decode(s).1)
  {
    var e := Decode(s).1;
    AcceptedIsConsumed(s, [tag] + t, EMPTY);
    assert Varint(tag) == [tag];
    Varint32RoundTrip(tag, t);
    Turn([tag] + t, e);
  }

  /** Bytes that are not even a tag are refused, behind anything that is accepted. */
  lemma NoTagRefused(s: seq<byte>, t: seq<byte>)
    requires Decode(s).0 == Ok && t != [] && DecodeVarint(t, 32).None?
    ensures Decode(s + t) == (Corruption(InvalidTag), Decode(s).1)
  {
    AcceptedIsConsumed(s, t, EMPTY);
  }

  /** A level from 7 on is refused. */
  lemma LevelRefused(s: seq<byte>, level: uint32, t: seq<byte>)
    requires Decode(s).0 == Ok && level >= 7
    ensures Decode(s + ([7] + (Varint(level) + t))) == (Corruption(BadNewFile), Decode(s).1)
    ensures Decode(s + ([5] + (Varint(level) + t))) == (Corruption(BadDeletedFile), Decode(s).1)
  {
    var e, u := Decode(s).1, Varint(level) + t;
    Varint32RoundTrip(level, t);
    assert Varint(7) == [7] && Varint(5) == [5];
    Varint32RoundTrip(7, u);
    Varint32RoundTrip(5, u);
    AcceptedIsConsumed(s, [7] + u, EMPTY);
    AcceptedIsConsumed(s, [5] + u, EMPTY);
    Turn([7] + u, e);
    Turn([5] + u, e);
  }
}
