/**
 The format of a version edit: a decoder never looks beyond the field it reads, so a
 string is accepted exactly if it is fields one after the other, and nothing that
 is left over is overlooked.
 */
module VersionEditFormat {
  import opened Bytes
  import opened Bits
  import opened Coding
  import opened VersionEdits

  // ----- What a decoder leaves is not looked at

  lemma {:induction false} VarintLocal(s: seq<byte>, t: seq<byte>, shift: nat, result: nat, width: nat)
    requires ReadVarint(s, shift, result, width).Some?
    ensures var d := ReadVarint(s, shift, result, width).value;
      ReadVarint(s + t, shift, result, width) == Some((d.0, d.1 + t))
    decreases |s|
  {
    assert (s + t)[1..] == s[1..] + t;
    var sum := result + (s[0] % 128) * Pow2(shift) % Pow2(width);
    if s[0] >= 128 {
      VarintLocal(s[1..], t, shift + 7, sum, width);
    }
  }

  lemma DecodeVarintLocal(s: seq<byte>, t: seq<byte>, width: nat)
    requires DecodeVarint(s, width).Some?
    ensures var d := DecodeVarint(s, width).value; DecodeVarint(s + t, width) == Some((d.0, d.1 + t))
  {
    VarintLocal(s, t, 0, 0, width);
  }

  lemma LengthPrefixedLocal(s: seq<byte>, t: seq<byte>)
    requires DecodeLengthPrefixed(s).Some?
    ensures var d := DecodeLengthPrefixed(s).value; DecodeLengthPrefixed(s + t) == Some((d.0, d.1 + t))
  {
    DecodeVarintLocal(s, t, 32);
    var n, rest := DecodeVarint(s, 32).value.0, DecodeVarint(s, 32).value.1;
    assert (rest + t)[..n] == rest[..n] && (rest + t)[n..] == rest[n..] + t;
  }

  lemma NumberLocal(s: seq<byte>, t: seq<byte>)
    requires DecodeNumber(s).Some?
    ensures var d := DecodeNumber(s).value; DecodeNumber(s + t) == Some((d.0, d.1 + t))
  {
    DecodeVarintLocal(s, t, 64);
  }

  lemma LevelLocal(s: seq<byte>, t: seq<byte>)
    requires DecodeLevel(s).Some?
    ensures var d := DecodeLevel(s).value; DecodeLevel(s + t) == Some((d.0, d.1 + t))
  {
    DecodeVarintLocal(s, t, 32);
  }

  lemma KeyLocal(s: seq<byte>, t: seq<byte>)
    requires DecodeKey(s).Some?
    ensures var d := DecodeKey(s).value; DecodeKey(s + t) == Some((d.0, d.1 + t))
  {
    LengthPrefixedLocal(s, t);
  }

  lemma DeletedLocal(s: seq<byte>, t: seq<byte>)
    requires DecodeDeleted(s).Some?
    ensures var d := DecodeDeleted(s).value; DecodeDeleted(s + t) == Some((d.0, d.1 + t))
  {
    LevelLocal(s, t);
    NumberLocal(DecodeLevel(s).value.1, t);
  }

  lemma FileLocal(s: seq<byte>, t: seq<byte>)
    requires DecodeFile(s).Some?
    ensures var d := DecodeFile(s).value; DecodeFile(s + t) == Some((d.0, d.1 + t))
  {
    LevelLocal(s, t);
    var a := DecodeLevel(s).value.1;
    NumberLocal(a, t);
    var b := DecodeNumber(a).value.1;
    NumberLocal(b, t);
    var c := DecodeNumber(b).value.1;
    KeyLocal(c, t);
    KeyLocal(DecodeKey(c).value.1, t);
  }

  lemma FieldLocal(tag: nat, s: seq<byte>, t: seq<byte>, e: Edit)
    requires DecodeField(tag, s, e).Field?
    ensures var f := DecodeField(tag, s, e); DecodeField(tag, s + t, e) == Field(f.edit, f.rest + t)
  {
    match tag
    case 1 => LengthPrefixedLocal(s, t);
    case 5 => DeletedLocal(s, t);
    case 7 => FileLocal(s, t);
    case _ => NumberLocal(s, t);
  }

  // ----- One turn of the loop

  lemma Turn(s: seq<byte>, e: Edit)
    requires DecodeVarint(s, 32).Some?
    ensures var d := DecodeVarint(s, 32).value;
      var f := DecodeField(d.0, d.1, e);
      if f.Bad? then DecodeFields(s, e) == (Corruption(f.message), e)
      else |f.rest| < |s| && DecodeFields(s, e) == DecodeFields(f.rest, f.edit)
  {
    DecodedFits(s, 32);
    DecodeFieldShrinks(DecodeVarint(s, 32).value.0, DecodeVarint(s, 32).value.1, e);
  }

  /** What is accepted is read to its last byte: whatever follows is decoded as if it stood alone. */
  lemma {:induction false} AcceptedIsConsumed(s: seq<byte>, t: seq<byte>, e: Edit)
    requires DecodeFields(s, e).0 == Ok
    ensures DecodeFields(s + t, e) == DecodeFields(t, DecodeFields(s, e).1)
    decreases |s|
  {
    if s == [] {
      assert [] + t == t;
    } else {
      var d := DecodeVarint(s, 32);
      Turn(s, e);
      DecodeVarintLocal(s, t, 32);
      FieldLocal(d.value.0, d.value.1, t, e);
      Turn(s + t, e);
      AcceptedIsConsumed(DecodeField(d.value.0, d.value.1, e).rest, t, DecodeField(d.value.0, d.value.1, e).edit);
    }
  }

  // ----- What a decoder takes is decoded by itself to the same

  lemma {:induction false} VarintTaken(s: seq<byte>, shift: nat, result: nat, width: nat) returns (p: seq<byte>)
    requires ReadVarint(s, shift, result, width).Some?
    ensures var d := ReadVarint(s, shift, result, width).value;
      s == p + d.1 && ReadVarint(p, shift, result, width) == Some((d.0, []))
    decreases |s|
  {
    var sum := result + (s[0] % 128) * Pow2(shift) % Pow2(width);
    if s[0] >= 128 {
      var q := VarintTaken(s[1..], shift + 7, sum, width);
      p := [s[0]] + q;
      assert p[1..] == q;
    } else {
      p := [s[0]];
      assert p[1..] == [];
    }
  }

  lemma DecodeVarintTaken(s: seq<byte>, width: nat) returns (p: seq<byte>)
    requires DecodeVarint(s, width).Some?
    ensures var d := DecodeVarint(s, width).value; s == p + d.1 && DecodeVarint(p, width) == Some((d.0, []))
  {
    p := VarintTaken(s, 0, 0, width);
  }

  lemma LengthPrefixedTaken(s: seq<byte>) returns (p: seq<byte>)
    requires DecodeLengthPrefixed(s).Some?
    ensures var d := DecodeLengthPrefixed(s).value; s == p + d.1 && DecodeLengthPrefixed(p) == Some((d.0, []))
  {
    var d := DecodeLengthPrefixed(s).value;
    var v := DecodeVarint(s, 32).value;
    var q := DecodeVarintTaken(s, 32);
    DecodeVarintLocal(q, d.0, 32);
    p := q + d.0;
    assert [] + d.0 == d.0 && d.0[..v.0] == d.0 && d.0[v.0..] == [];
    TakeDrop(v.1, v.0);
    ConcatAssociates(q, d.0, d.1);
  }

  lemma NumberTaken(s: seq<byte>) returns (p: seq<byte>)
    requires DecodeNumber(s).Some?
    ensures var d := DecodeNumber(s).value; s == p + d.1 && DecodeNumber(p) == Some((d.0, []))
  {
    p := DecodeVarintTaken(s, 64);
  }

  lemma LevelTaken(s: seq<byte>) returns (p: seq<byte>)
    requires DecodeLevel(s).Some?
    ensures var d := DecodeLevel(s).value; s == p + d.1 && DecodeLevel(p) == Some((d.0, []))
  {
    p := DecodeVarintTaken(s, 32);
  }

  lemma KeyTaken(s: seq<byte>) returns (p: seq<byte>)
    requires DecodeKey(s).Some?
    ensures var d := DecodeKey(s).value; s == p + d.1 && DecodeKey(p) == Some((d.0, []))
  {
    p := LengthPrefixedTaken(s);
  }

  lemma DeletedTaken(s: seq<byte>) returns (p: seq<byte>)
    requires DecodeDeleted(s).Some?
    ensures var d := DecodeDeleted(s).value; s == p + d.1 && DecodeDeleted(p) == Some((d.0, []))
  {
    var a := DecodeLevel(s).value.1;
    var p1 := LevelTaken(s);
    var p2 := NumberTaken(a);
    LevelLocal(p1, p2);
    NothingBefore(p2);
    ConcatAssociates(p1, p2, DecodeNumber(a).value.1);
    p := p1 + p2;
  }

  lemma NothingBefore(s: seq<byte>)
    ensures [] + s == s
  {
  }

  /** Two keys one after the other. */
  function DecodeKeys(s: seq<byte>): Option<((InternalKey, InternalKey), seq<byte>)> {
    match DecodeKey(s)
    case None => None
    case Some((a, rest)) =>
      match DecodeKey(rest)
      case None => None
      case Some((b, r)) => Some(((a, b), r))
  }

  lemma KeysTaken(s: seq<byte>) returns (p: seq<byte>)
    requires DecodeKeys(s).Some?
    ensures var d := DecodeKeys(s).value; s == p + d.1 && DecodeKeys(p) == Some((d.0, []))
  {
    var a := DecodeKey(s).value.1;
    var p1 := KeyTaken(s);
    var p2 := KeyTaken(a);
    KeyLocal(p1, p2);
    NothingBefore(p2);
    ConcatAssociates(p1, p2, DecodeKey(a).value.1);
    p := p1 + p2;
  }

  /** Two numbers one after the other. */
  function DecodeNumbers(s: seq<byte>): Option<((uint64, uint64), seq<byte>)> {
    match DecodeNumber(s)
    case None => None
    case Some((a, rest)) =>
      match DecodeNumber(rest)
      case None => None
      case Some((b, r)) => Some(((a, b), r))
  }

  lemma NumbersTaken(s: seq<byte>) returns (p: seq<byte>)
    requires DecodeNumbers(s).Some?
    ensures var d := DecodeNumbers(s).value; s == p + d.1 && DecodeNumbers(p) == Some((d.0, []))
  {
    var a := DecodeNumber(s).value.1;
    var p1 := NumberTaken(s);
    var p2 := NumberTaken(a);
    NumberLocal(p1, p2);
    NothingBefore(p2);
    ConcatAssociates(p1, p2, DecodeNumber(a).value.1);
    p := p1 + p2;
  }

  lemma NumbersLocal(s: seq<byte>, t: seq<byte>)
    requires DecodeNumbers(s).Some?
    ensures var d := DecodeNumbers(s).value; DecodeNumbers(s + t) == Some((d.0, d.1 + t))
  {
    NumberLocal(s, t);
    NumberLocal(DecodeNumber(s).value.1, t);
  }

  /** A new file is a level, two numbers and two keys. */
  lemma FileInParts(s: seq<byte>)
    ensures DecodeFile(s) ==
      if DecodeLevel(s).None? then None
      else
        var (level, a) := DecodeLevel(s).value;
        if DecodeNumbers(a).None? then None
        else
          var (ns, b) := DecodeNumbers(a).value;
          if DecodeKeys(b).None? then None
          else
            var (ks, rest) := DecodeKeys(b).value;
            Some(((level, FileMetaData(ns.0, ns.1, ks.0, ks.1)), rest))
  {
  }

  lemma FileTaken(s: seq<byte>) returns (p: seq<byte>)
    requires DecodeFile(s).Some?
    ensures var d := DecodeFile(s).value; s == p + d.1 && DecodeFile(p) == Some((d.0, []))
  {
    FileInParts(s);
    var a := DecodeLevel(s).value.1;
    var b := DecodeNumbers(a).value.1;
    var p1 := LevelTaken(s);
    var p2 := NumbersTaken(a);
    var p3 := KeysTaken(b);
    LevelLocal(p1, p2 + p3);
    NumbersLocal(p2, p3);
    NothingBefore(p2 + p3);
    NothingBefore(p3);
    p := p1 + (p2 + p3);
    FileInParts(p);
    ConcatAssociates(p2, p3, DecodeKeys(b).value.1);
    ConcatAssociates(p1, p2 + p3, DecodeKeys(b).value.1);
  }

  lemma FieldTaken(tag: nat, s: seq<byte>, e: Edit) returns (p: seq<byte>)
    requires DecodeField(tag, s, e).Field?
    ensures var f := DecodeField(tag, s, e); s == p + f.rest && DecodeField(tag, p, e) == Field(f.edit, [])
  {
    match tag
    case 1 => p := LengthPrefixedTaken(s);
    case 5 => p := DeletedTaken(s);
    case 7 => p := FileTaken(s);
    case _ => p := NumberTaken(s);
  }

  // ----- The grammar

  /** The bytes of one field, tag and value, with nothing behind it. */
  predicate IsField(s: seq<byte>) {
    DecodeVarint(s, 32).Some? &&
    var f := DecodeField(DecodeVarint(s, 32).value.0, DecodeVarint(s, 32).value.1, EMPTY);
    f.Field? && f.rest == []
  }

  function Joined(parts: seq<seq<byte>>): seq<byte> {
    if parts == [] then [] else parts[0] + Joined(parts[1..])
  }

  ghost predicate AreFields(parts: seq<seq<byte>>) {
    forall p :: p in parts ==> IsField(p)
  }

  /** Whether a field is accepted does not depend on the edit so far. */
  lemma AcceptsAnyway(tag: nat, s: seq<byte>, e: Edit, e': Edit)
    ensures DecodeField(tag, s, e).Field? == DecodeField(tag, s, e').Field?
    ensures DecodeField(tag, s, e).Field? ==> DecodeField(tag, s, e).rest == DecodeField(tag, s, e').rest
  {
  }

  lemma FirstField(s: seq<byte>, e: Edit) returns (p: seq<byte>, rest: seq<byte>, e': Edit)
    requires s != [] && DecodeFields(s, e).0 == Ok
    ensures s == p + rest && IsField(p) && |rest| < |s| && DecodeFields(s, e) == DecodeFields(rest, e')
  {
    var d := DecodeVarint(s, 32);
    Turn(s, e);
    var f := DecodeField(d.value.0, d.value.1, e);
    rest, e' := f.rest, f.edit;
    var p0 := DecodeVarintTaken(s, 32);
    var p1 := FieldTaken(d.value.0, d.value.1, e);
    DecodeVarintLocal(p0, p1, 32);
    NothingBefore(p1);
    AcceptsAnyway(d.value.0, p1, e, EMPTY);
    ConcatAssociates(p0, p1, rest);
    p := p0 + p1;
  }

  lemma {:induction false} AcceptedAreFields(s: seq<byte>, e: Edit) returns (parts: seq<seq<byte>>)
    requires DecodeFields(s, e).0 == Ok
    ensures s == Joined(parts) && AreFields(parts)
    decreases |s|
  {
    if s == [] {
      parts := [];
    } else {
      var p, rest, e' := FirstField(s, e);
      var more := AcceptedAreFields(rest, e');
      parts := [p] + more;
      assert parts[1..] == more;
    }
  }

  lemma FieldIsAccepted(p: seq<byte>, e: Edit)
    requires IsField(p)
    ensures DecodeFields(p, e).0 == Ok
  {
    Turn(p, e);
    AcceptsAnyway(DecodeVarint(p, 32).value.0, DecodeVarint(p, 32).value.1, e, EMPTY);
  }

  lemma {:induction false} FieldsAreAccepted(parts: seq<seq<byte>>, e: Edit)
    requires AreFields(parts)
    ensures DecodeFields(Joined(parts), e).0 == Ok
    decreases |parts|
  {
    if parts != [] {
      FieldIsAccepted(parts[0], e);
      AcceptedIsConsumed(parts[0], Joined(parts[1..]), e);
      FieldsAreAccepted(parts[1..], DecodeFields(parts[0], e).1);
    }
  }

  /** A string decodes without complaint exactly if it is fields one after the other. */
  lemma AcceptedIff(s: seq<byte>)
    ensures Decode(s).0 == Ok <==> exists parts :: s == Joined(parts) && AreFields(parts)
  {
    if Decode(s).0 == Ok {
      var parts := AcceptedAreFields(s, EMPTY);
    }
    if parts :| s == Joined(parts) && AreFields(parts) {
      FieldsAreAccepted(parts, EMPTY);
    }
  }
}
