/**
 Where the writer puts what: the fragments of a record, in the numbers of the log
 format rather than in the names of the code.
 */
module LogLayout {
  import opened Bytes
  import opened Crc32cSpec
  import Crc32c
  import opened Coding
  import opened LogFormat
  import opened LogWriter

  /** A fragment, and where in its block it starts. */
  datatype Piece = Piece(start: nat, t: byte, payload: seq<byte>)

  function Payloads(ps: seq<Piece>): seq<byte> {
    if ps == [] then [] else ps[0].payload + Payloads(ps[1..])
  }

  /** Masked checksum, length, type and payload, one piece after the other. */
  function Written(ps: seq<Piece>): seq<byte>
    requires forall p :: p in ps ==> |p.payload| <= 0xffff
  {
    if ps == [] then [] else
    var p := ps[0];
    EncodeFixed32(Crc32c.Mask(Value([p.t] + p.payload))) + [|p.payload| % 256, |p.payload| / 256, p.t] + p.payload + Written(ps[1..])
  }

  predicate InBlock(p: Piece) {
    p.start + 7 + |p.payload| <= 32768
  }

  predicate FillsBlock(p: Piece) {
    p.start + 7 + |p.payload| == 32768
  }

  /** Every piece but the last fills its block, and every piece but the first starts one. */
  predicate Placed(start: nat, ps: seq<Piece>) {
    && ps != [] && ps[0].start == start
    && (forall i :: 0 <= i < |ps| ==> InBlock(ps[i]))
    && (forall i :: 0 <= i < |ps| - 1 ==> FillsBlock(ps[i]))
    && (forall i :: 0 < i < |ps| ==> ps[i].start == 0 && ps[i].payload != [])
  }

  /** The last piece of several has the type that is meant for it, or as written that of a middle one. */
  predicate TypesBehind(intended: bool, ps: seq<Piece>, from: nat) {
    forall i :: from <= i < |ps| ==> ps[i].t == if i == |ps| - 1 && intended then 4 else 3
  }

  predicate Types(intended: bool, ps: seq<Piece>) {
    && ps != []
    && ps[0].t == (if |ps| == 1 then 1 else 2)
    && TypesBehind(intended, ps, 1)
  }

  /** The pieces that the loop writes from `off` on. */
  function Pieces(intended: bool, off: Offset, data: seq<byte>, begin: bool): (ps: seq<Piece>)
    ensures ps != []
    decreases |data|, if off == BLOCK_SIZE - HEADER_SIZE then 1 else 0
  {
    var n := FragmentLength(off, |data|);
    [Piece(StartOffset(off), FragmentType(intended, begin, n == |data|), data[..n])] +
    if n == |data| then [] else Pieces(intended, NextOffset(off, |data|), data[n..], false)
  }

  lemma PlacedMore(p: Piece, start: nat, ps: seq<Piece>)
    requires FillsBlock(p) && p.start == start && Placed(0, ps) && ps[0].payload != []
    ensures Placed(start, [p] + ps)
  {
  }

  lemma PlacedLast(p: Piece)
    requires InBlock(p)
    ensures Placed(p.start, [p])
  {
  }

  lemma {:induction false} PiecesPlaced(intended: bool, off: Offset, data: seq<byte>, begin: bool)
    ensures Placed(if off > 32761 then 0 else off, Pieces(intended, off, data, begin))
    ensures data != [] && off != 32761 ==> Pieces(intended, off, data, begin)[0].payload != []
    decreases |data|, if off == BLOCK_SIZE - HEADER_SIZE then 1 else 0
  {
    var n := FragmentLength(off, |data|);
    var p := Piece(StartOffset(off), FragmentType(intended, begin, n == |data|), data[..n]);
    if n == |data| {
      PlacedLast(p);
      assert Pieces(intended, off, data, begin) == [p];
    } else {
      PiecesPlaced(intended, NextOffset(off, |data|), data[n..], false);
      PlacedMore(p, p.start, Pieces(intended, NextOffset(off, |data|), data[n..], false));
    }
  }

  lemma {:induction false} PiecesTypes(intended: bool, off: Offset, data: seq<byte>)
    ensures TypesBehind(intended, Pieces(intended, off, data, false), 0)
    decreases |data|, if off == BLOCK_SIZE - HEADER_SIZE then 1 else 0
  {
    var n := FragmentLength(off, |data|);
    if n < |data| {
      PiecesTypes(intended, NextOffset(off, |data|), data[n..]);
    }
  }

  lemma FirstTypes(intended: bool, off: Offset, data: seq<byte>)
    ensures Types(intended, Pieces(intended, off, data, true))
  {
    var n := FragmentLength(off, |data|);
    if n < |data| {
      PiecesTypes(intended, NextOffset(off, |data|), data[n..]);
    }
  }

  lemma {:induction false} PiecesCarry(intended: bool, off: Offset, data: seq<byte>, begin: bool)
    ensures Payloads(Pieces(intended, off, data, begin)) == data
    decreases |data|, if off == BLOCK_SIZE - HEADER_SIZE then 1 else 0
  {
    var n := FragmentLength(off, |data|);
    var ps := Pieces(intended, off, data, begin);
    if n < |data| {
      var more := Pieces(intended, NextOffset(off, |data|), data[n..], false);
      PiecesCarry(intended, NextOffset(off, |data|), data[n..], false);
      assert ps[1..] == more;
      TakeDrop(data, n);
    } else {
      assert ps[1..] == [];
    }
  }

  predicate Small(ps: seq<Piece>) {
    forall p :: p in ps ==> |p.payload| <= 0xffff
  }

  lemma PlacedSmall(start: nat, ps: seq<Piece>)
    requires Placed(start, ps)
    ensures Small(ps)
  {
  }

  lemma WrittenFirst(p: Piece, ps: seq<Piece>)
    requires Small([p] + ps) && Small(ps)
    ensures Written([p] + ps) == Fragment(p.t, p.payload) + Written(ps)
  {
    assert ([p] + ps)[1..] == ps;
  }

  /** The zeros that fill up a block with no room for a header. */
  function Zeros(off: Offset): seq<byte> {
    if off > 32761 then seq(32768 - off, _ => 0) else []
  }

  lemma TrailerIsZeros(off: Offset)
    ensures Trailer(off) == Zeros(off)
  {
  }

  lemma LastEncoded(intended: bool, off: Offset, data: seq<byte>, begin: bool, p: Piece)
    requires FragmentLength(off, |data|) == |data| && Small([p])
    requires p == Piece(StartOffset(off), FragmentType(intended, begin, true), data[..|data|])
    ensures LogWriter.Encode(intended, off, data, begin) == Zeros(off) + Written([p])
  {
    TrailerIsZeros(off);
    assert [p] + [] == [p];
    WrittenFirst(p, []);
  }

  lemma MoreEncoded(intended: bool, off: Offset, data: seq<byte>, begin: bool, p: Piece, ps: seq<Piece>, n: nat)
    requires n == FragmentLength(off, |data|) < |data| && Small([p] + ps) && Small(ps)
    requires p == Piece(StartOffset(off), FragmentType(intended, begin, false), data[..n])
    requires LogWriter.Encode(intended, BLOCK_SIZE, data[n..], false) == Written(ps)
    ensures LogWriter.Encode(intended, off, data, begin) == Zeros(off) + Written([p] + ps)
  {
    TrailerIsZeros(off);
    WrittenFirst(p, ps);
    ConcatAssociates(Zeros(off), Fragment(p.t, p.payload), Written(ps));
  }

  lemma SmallSplit(p: Piece, ps: seq<Piece>)
    requires Small([p] + ps)
    ensures Small(ps)
  {
    forall q | q in ps
      ensures |q.payload| <= 0xffff
    {
      assert q in [p] + ps;
    }
  }

  lemma PiecesSmall(intended: bool, off: Offset, data: seq<byte>, begin: bool)
    ensures Small(Pieces(intended, off, data, begin))
  {
    PiecesPlaced(intended, off, data, begin);
    PlacedSmall(if off > 32761 then 0 else off, Pieces(intended, off, data, begin));
  }

  lemma {:induction false} EncodeIsPieces(intended: bool, off: Offset, data: seq<byte>, begin: bool)
    ensures Small(Pieces(intended, off, data, begin))
    ensures LogWriter.Encode(intended, off, data, begin) == Zeros(off) + Written(Pieces(intended, off, data, begin))
    decreases |data|, if off == BLOCK_SIZE - HEADER_SIZE then 1 else 0
  {
    PiecesSmall(intended, off, data, begin);
    var n := FragmentLength(off, |data|);
    var p := Piece(StartOffset(off), FragmentType(intended, begin, n == |data|), data[..n]);
    if n == |data| {
      assert Pieces(intended, off, data, begin) == [p];
      LastEncoded(intended, off, data, begin, p);
    } else {
      var more := Pieces(intended, BLOCK_SIZE, data[n..], false);
      EncodeIsPieces(intended, BLOCK_SIZE, data[n..], false);
      NoZeros(Written(more));
      MoreEncoded(intended, off, data, begin, p, more, n);
    }
  }

  lemma NoZeros(s: seq<byte>)
    ensures Zeros(BLOCK_SIZE) + s == s
  {
  }

  // ----- There is one layout

  lemma PlacedRest(start: nat, ps: seq<Piece>)
    requires Placed(start, ps) && |ps| > 1
    ensures Placed(0, ps[1..]) && |Payloads(ps[1..])| > 0
    ensures Payloads(ps) == ps[0].payload + Payloads(ps[1..])
  {
    assert ps[1..][0] == ps[1];
  }

  lemma PlacedOne(ps: seq<Piece>)
    requires |ps| == 1
    ensures Payloads(ps) == ps[0].payload
  {
    assert ps[1..] == [];
  }

  /** Pieces of the same places and contents. */
  predicate Alike(a: seq<Piece>, b: seq<Piece>) {
    |a| == |b| && forall i :: 0 <= i < |a| ==> a[i].start == b[i].start && a[i].payload == b[i].payload
  }

  lemma AlikeMore(a: seq<Piece>, b: seq<Piece>)
    requires a != [] && b != [] && Alike(a[1..], b[1..]) && a[0].start == b[0].start && a[0].payload == b[0].payload
    ensures Alike(a, b)
  {
    assert a == [a[0]] + a[1..] && b == [b[0]] + b[1..];
  }

  lemma SplitAlike(a: seq<byte>, b: seq<byte>, a': seq<byte>, b': seq<byte>)
    requires a + a' == b + b' && |a| == |b|
    ensures a == b && a' == b'
  {
    assert (a + a')[..|a|] == a && (b + b')[..|b|] == b;
    assert (a + a')[|a|..] == a' && (b + b')[|b|..] == b';
  }

  lemma {:induction false} OneLayout(start: nat, a: seq<Piece>, b: seq<Piece>)
    requires Placed(start, a) && Placed(start, b) && Payloads(a) == Payloads(b)
    ensures Alike(a, b)
    decreases |a|
  {
    if |a| > 1 {
      PlacedRest(start, a);
    } else {
      PlacedOne(a);
    }
    if |b| > 1 {
      PlacedRest(start, b);
    } else {
      PlacedOne(b);
    }
    assert |a| > 1 ==> FillsBlock(a[0]);
    assert |b| > 1 ==> FillsBlock(b[0]);
    assert InBlock(a[0]) && InBlock(b[0]);
    if |a| > 1 && |b| > 1 {
      SplitAlike(a[0].payload, b[0].payload, Payloads(a[1..]), Payloads(b[1..]));
      OneLayout(0, a[1..], b[1..]);
      AlikeMore(a, b);
    }
  }

  lemma TypesDetermine(intended: bool, a: seq<Piece>, b: seq<Piece>)
    requires Alike(a, b) && Types(intended, a) && Types(intended, b)
    ensures a == b
  {
  }

  /**
   A record from any block offset: the bytes are those of the one layout whose
   pieces carry the record, fill their blocks and have the types of the format.
   */
  lemma RecordLayout(intended: bool, off: Offset, data: seq<byte>, ps: seq<Piece>)
    requires Placed(if off > 32761 then 0 else off, ps) && Types(intended, ps) && Payloads(ps) == data
    ensures Small(ps)
    ensures LogWriter.Encode(intended, off, data, true) == Zeros(off) + Written(ps)
  {
    var start, qs := if off > 32761 then 0 else off, Pieces(intended, off, data, true);
    PiecesPlaced(intended, off, data, true);
    PiecesCarry(intended, off, data, true);
    FirstTypes(intended, off, data);
    OneLayout(start, ps, qs);
    TypesDetermine(intended, ps, qs);
    EncodeIsPieces(intended, off, data, true);
  }

  /** There is such a layout for every record. */
  lemma LayoutExists(intended: bool, off: Offset, data: seq<byte>) returns (ps: seq<Piece>)
    ensures Placed(if off > 32761 then 0 else off, ps) && Types(intended, ps) && Payloads(ps) == data
  {
    ps := Pieces(intended, off, data, true);
    PiecesPlaced(intended, off, data, true);
    PiecesCarry(intended, off, data, true);
    FirstTypes(intended, off, data);
  }
}
