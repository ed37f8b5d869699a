/** Internal keys of src/leveldb/__detail/db_format.cc: a user key, then eight bytes of sequence number and type. */
module DbFormats {
  import opened Bytes
  import opened Coding
  import opened SkipOrder
  import CodingChecks

  type Key = seq<byte>

  const MAX_SEQUENCE_NUMBER: nat := 0xff_ffff_ffff_ffff
  const TYPE_VALUE: nat := 1
  const VALUE_TYPE_FOR_SEEK: nat := TYPE_VALUE

  /** `extract_user_key` asserts that the eight bytes are there. */
  predicate IsInternal(k: Key) {
    |k| >= 8
  }

  function UserKey(k: Key): Key
    requires IsInternal(k)
  {
    k[..|k| - 8]
  }

  function Number(k: Key): nat
    requires IsInternal(k)
  {
    DecodeFixed64(k[|k| - 8..])
  }

  function PackSequenceAndType(sequence: nat, t: nat): (packed: uint64)
    requires sequence <= MAX_SEQUENCE_NUMBER && t <= VALUE_TYPE_FOR_SEEK
    ensures packed / 256 == sequence && packed % 256 == t
  {
    sequence * 256 + t
  }

  function Internal(user: Key, sequence: nat, t: nat): (k: Key)
    requires sequence <= MAX_SEQUENCE_NUMBER && t <= VALUE_TYPE_FOR_SEEK
    ensures IsInternal(k)
  {
    user + EncodeFixed64(PackSequenceAndType(sequence, t))
  }

  /** A three-way comparison that tells different strings apart. */
  ghost predicate IsUserOrder(user: (Key, Key) -> int) {
    IsOrder(user) && forall a, b :: user(a, b) == 0 <==> a == b
  }

  function Compare(user: (Key, Key) -> int, a: Key, b: Key): int
    requires IsInternal(a) && IsInternal(b)
  {
    var r := user(UserKey(a), UserKey(b));
    if r == 0 then
      if Number(a) > Number(b) then -1 else if Number(a) < Number(b) then 1 else r
    else r
  }

  // ----- The order

  lemma InternalParts(user: Key, sequence: nat, t: nat)
    requires sequence <= MAX_SEQUENCE_NUMBER && t <= VALUE_TYPE_FOR_SEEK
    ensures var k := Internal(user, sequence, t);
      UserKey(k) == user && Number(k) == PackSequenceAndType(sequence, t)
  {
    var packed := PackSequenceAndType(sequence, t);
    var k := Internal(user, sequence, t);
    assert k[..|user|] == user && k[|user|..] == EncodeFixed64(packed);
    Fixed64RoundTrip(packed);
  }

  /** Behind the user key come the type and the seven bytes of the sequence number, lowest first; there are as many numbers as fit. */
  lemma InternalByte(user: Key, sequence: nat, t: nat, i: nat)
    requires sequence <= MAX_SEQUENCE_NUMBER && t <= VALUE_TYPE_FOR_SEEK && i < 8
    ensures MAX_SEQUENCE_NUMBER + 1 == Pow256(7)
    ensures var k := Internal(user, sequence, t);
      && |k| == |user| + 8 && k[..|user|] == user
      && k[|user|] == t
      && (i > 0 ==> Pow256(i - 1) > 0 && k[|user| + i] == sequence / Pow256(i - 1) % 0x100)
  {
    var packed := PackSequenceAndType(sequence, t);
    CodingChecks.Powers();
    CodingChecks.Fixed64Byte(packed, 0);
    CodingChecks.Fixed64Byte(packed, i);
    if i > 0 {
      CodingChecks.Fixed64Byte(packed, i - 1);
      CodingChecks.DivideTwice(packed, Pow256(i - 1));
    }
  }

  /** The key that sorts first for a user key: the value type, then seven bytes of ones. */
  lemma SeekKeyBytes(user: Key)
    ensures Internal(user, 0xff_ffff_ffff_ffff, 1) == user + [1, 0xff, 0xff, 0xff, 0xff, 0xff, 0xff, 0xff]
  {
    CodingChecks.Powers();
    InternalByte(user, MAX_SEQUENCE_NUMBER, 1, 1);
    InternalByte(user, MAX_SEQUENCE_NUMBER, 1, 2);
    InternalByte(user, MAX_SEQUENCE_NUMBER, 1, 3);
    InternalByte(user, MAX_SEQUENCE_NUMBER, 1, 4);
    InternalByte(user, MAX_SEQUENCE_NUMBER, 1, 5);
    InternalByte(user, MAX_SEQUENCE_NUMBER, 1, 6);
    InternalByte(user, MAX_SEQUENCE_NUMBER, 1, 7);
  }

  lemma {:induction false} FromLittleEndianInjective(a: seq<byte>, b: seq<byte>)
    requires |a| == |b| && FromLittleEndian(a) == FromLittleEndian(b)
    ensures a == b
  {
    if a != [] {
      assert FromLittleEndian(a) % 256 == a[0] as int && FromLittleEndian(b) % 256 == b[0] as int;
      FromLittleEndianInjective(a[1..], b[1..]);
      assert a == [a[0]] + a[1..] && b == [b[0]] + b[1..];
    }
  }

  /** Equal user keys and equal numbers are equal internal keys. */
  lemma PartsDetermine(a: Key, b: Key)
    requires IsInternal(a) && IsInternal(b)
    requires UserKey(a) == UserKey(b) && Number(a) == Number(b)
    ensures a == b
  {
    FromLittleEndianInjective(a[|a| - 8..], b[|b| - 8..]);
    TakeDrop(a, |a| - 8);
    TakeDrop(b, |b| - 8);
  }

  /** `compare` is a total order on internal keys. */
  lemma CompareIsOrder(user: (Key, Key) -> int, a: Key, b: Key, c: Key)
    requires IsUserOrder(user) && IsInternal(a) && IsInternal(b) && IsInternal(c)
    ensures Compare(user, a, b) < 0 <==> Compare(user, b, a) > 0
    ensures Compare(user, a, b) == 0 <==> a == b
    ensures Compare(user, a, b) <= 0 && Compare(user, b, c) <= 0 ==> Compare(user, a, c) <= 0
  {
    if Compare(user, a, b) == 0 {
      PartsDetermine(a, b);
    }
    if Compare(user, a, b) <= 0 && Compare(user, b, c) <= 0 {
      LessTransitive(user, UserKey(a), UserKey(b), UserKey(c));
    }
  }

  /** User keys ascend; entries of one user key descend by sequence number and then by type. */
  lemma CompareByParts(user: (Key, Key) -> int, u: Key, s: nat, t: nat, u': Key, s': nat, t': nat)
    requires IsUserOrder(user)
    requires s <= MAX_SEQUENCE_NUMBER && s' <= MAX_SEQUENCE_NUMBER && t <= VALUE_TYPE_FOR_SEEK && t' <= VALUE_TYPE_FOR_SEEK
    ensures Compare(user, Internal(u, s, t), Internal(u', s', t')) < 0 <==>
            user(u, u') < 0 || (u == u' && (s > s' || (s == s' && t > t')))
  {
    InternalParts(u, s, t);
    InternalParts(u', s', t');
  }

  /** A seek key comes before all other entries of its user key. */
  lemma SeekKeyIsFirst(user: (Key, Key) -> int, u: Key, s: nat, t: nat)
    requires IsUserOrder(user) && s <= MAX_SEQUENCE_NUMBER && t <= VALUE_TYPE_FOR_SEEK
    ensures Compare(user, Internal(u, MAX_SEQUENCE_NUMBER, VALUE_TYPE_FOR_SEEK), Internal(u, s, t)) <= 0
  {
    InternalParts(u, s, t);
    InternalParts(u, MAX_SEQUENCE_NUMBER, VALUE_TYPE_FOR_SEEK);
  }

  // ----- Separators and successors

  /** A separator for keys in order is a string from the one on and before the other; nothing is promised of keys out of order. */
  ghost predicate IsSeparator(user: (Key, Key) -> int, separator: (Key, Key) -> Key) {
    forall start, limit :: user(start, limit) < 0 ==>
      user(start, separator(start, limit)) <= 0 && user(separator(start, limit), limit) < 0
  }

  /** A user key with the largest number, which sorts it first among the entries of that user key. */
  lemma SeekKeyBetween(user: (Key, Key) -> int, start: Key, tmp: Key)
    requires IsInternal(start) && user(UserKey(start), tmp) < 0
    ensures Compare(user, start, Internal(tmp, MAX_SEQUENCE_NUMBER, VALUE_TYPE_FOR_SEEK)) < 0
  {
    InternalParts(tmp, MAX_SEQUENCE_NUMBER, VALUE_TYPE_FOR_SEEK);
  }

  ghost predicate IsBeforeLimit(user: (Key, Key) -> int, tmp: Key, limit: Key)
    requires IsInternal(limit)
  {
    user(tmp, UserKey(limit)) < 0
    || (tmp == UserKey(limit) && Number(limit) < PackSequenceAndType(MAX_SEQUENCE_NUMBER, VALUE_TYPE_FOR_SEEK))
  }

  /** The second assertion of `find_shortest_separator` holds exactly if the user's separator is before the limit, or else equal to it with a smaller number there. */
  lemma BeforeLimit(user: (Key, Key) -> int, tmp: Key, limit: Key)
    requires IsUserOrder(user) && IsInternal(limit)
    ensures Compare(user, Internal(tmp, MAX_SEQUENCE_NUMBER, VALUE_TYPE_FOR_SEEK), limit) < 0 <==> IsBeforeLimit(user, tmp, limit)
  {
    InternalParts(tmp, MAX_SEQUENCE_NUMBER, VALUE_TYPE_FOR_SEEK);
  }

  /** `holds` is the second assertion; the first one always holds. */
  method FindShortestSeparator(user: (Key, Key) -> int, separator: (Key, Key) -> Key, start: Key, limit: Key)
    returns (start': Key, holds: bool)
    requires IsUserOrder(user) && IsInternal(start) && IsInternal(limit)
    ensures IsInternal(start') && |start'| <= |start| && Compare(user, start, start') <= 0
    ensures var tmp := separator(UserKey(start), UserKey(limit));
      && (start' != start <==> |tmp| < |UserKey(start)| && user(UserKey(start), tmp) < 0)
      && (start' != start ==> start' == Internal(tmp, MAX_SEQUENCE_NUMBER, VALUE_TYPE_FOR_SEEK))
      && (holds <==> start' == start || IsBeforeLimit(user, tmp, limit))
    ensures holds <==> start' == start || Compare(user, start', limit) < 0
    ensures IsSeparator(user, separator) && user(UserKey(start), UserKey(limit)) < 0 ==> holds && Compare(user, start', limit) < 0
  {
    start', holds := start, true;
    var userStart, userLimit := UserKey(start), UserKey(limit);
    var tmp := separator(userStart, userLimit);
    assert user(userStart, userStart) == 0;
    if |tmp| < |userStart| && user(userStart, tmp) < 0 {
      SeekKeyBetween(user, start, tmp);
      BeforeLimit(user, tmp, limit);
      tmp := tmp + EncodeFixed64(PackSequenceAndType(MAX_SEQUENCE_NUMBER, VALUE_TYPE_FOR_SEEK));
      assert Compare(user, start, tmp) < 0;
      holds := Compare(user, tmp, limit) < 0;
      start' := tmp;
    }
  }

  method FindShortSuccessor(user: (Key, Key) -> int, successor: Key -> Key, key: Key) returns (key': Key)
    requires IsUserOrder(user) && IsInternal(key)
    ensures IsInternal(key') && |key'| <= |key| && Compare(user, key, key') <= 0
    ensures var tmp := successor(UserKey(key));
      && (key' != key <==> |tmp| < |UserKey(key)| && user(UserKey(key), tmp) < 0)
      && (key' != key ==> key' == Internal(tmp, MAX_SEQUENCE_NUMBER, VALUE_TYPE_FOR_SEEK))
  {
    key' := key;
    var tmp := successor(UserKey(key));
    assert user(UserKey(key), UserKey(key)) == 0;
    if |tmp| < |UserKey(key)| && user(UserKey(key), tmp) < 0 {
      SeekKeyBetween(user, key, tmp);
      InternalParts(tmp, MAX_SEQUENCE_NUMBER, VALUE_TYPE_FOR_SEEK);
      tmp := tmp + EncodeFixed64(PackSequenceAndType(MAX_SEQUENCE_NUMBER, VALUE_TYPE_FOR_SEEK));
      assert Compare(user, key, tmp) < 0;
      key' := tmp;
    }
  }
}
