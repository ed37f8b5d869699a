/** Cache entries of src/leveldb/cache.cc, and what the cache does with them when all pointers are left out. */
module CacheSpec {
  import opened Bytes

  class Handle<V(0)> {
    const key: seq<byte>
    const hash: uint32
    const value: V
    const charge: nat
    var nextHash: Handle?<V>
    var next: Handle?<V>
    var prev: Handle?<V>
    var inCache: bool
    var refs: nat

    constructor (key: seq<byte>, hash: uint32, value: V, charge: nat)
      ensures this.key == key && this.hash == hash && this.value == value && this.charge == charge
      ensures !inCache && refs == 1
    {
      this.key, this.hash, this.value, this.charge := key, hash, value, charge;
      inCache, refs := false, 1;
      nextHash, next, prev := null, null, null;
    }
  }

  datatype Tag = Tag(key: seq<byte>, hash: uint32)

  function TagOf<V(0)>(h: Handle<V>): Tag {
    Tag(h.key, h.hash)
  }

  /**
   `lru` are the cached entries that no client holds, oldest first, `inUse` the
   cached entries that some client holds; `clients` has each entry as often as
   clients hold it, and `deleted` lists the calls of deleters.
   */
  datatype State<!V(0)> = State(
    capacity: nat,
    lru: seq<Handle<V>>,
    inUse: seq<Handle<V>>,
    table: map<Tag, Handle<V>>,
    clients: multiset<Handle<V>>,
    deleted: seq<Handle<V>>)

  function Empty<V(0)>(capacity: nat): State<V> {
    State(capacity, [], [], map[], multiset{}, [])
  }

  predicate Cached<V(0)>(s: State<V>, h: Handle<V>) {
    h in s.lru || h in s.inUse
  }

  function Charges<V(0)>(s: seq<Handle<V>>): nat {
    if s == [] then 0 else s[0].charge + Charges(s[1..])
  }

  function Usage<V(0)>(s: State<V>): nat {
    Charges(s.lru) + Charges(s.inUse)
  }

  function Without<T(==)>(s: seq<T>, x: T): (t: seq<T>)
    ensures forall y :: y in t ==> y in s
    ensures forall y :: y in s && y != x ==> y in t
  {
    if s == [] then [] else if s[0] == x then s[1..] else [s[0]] + Without(s[1..], x)
  }

  // ----- Operations

  /** Another reference for a client; an idle entry becomes one in use. */
  function Ref<V(0)>(s: State<V>, h: Handle<V>): State<V> {
    var s' := s.(clients := s.clients + multiset{h});
    if h in s.lru then s'.(lru := Without(s.lru, h), inUse := s.inUse + [h]) else s'
  }

  /** One reference of a client less; the last one makes a cached entry idle and ends an uncached one. */
  function Unref<V(0)>(s: State<V>, h: Handle<V>): State<V> {
    var s' := s.(clients := s.clients - multiset{h});
    if h in s'.clients then s'
    else if Cached(s, h) then s'.(inUse := Without(s.inUse, h), lru := s.lru + [h])
    else s'.(deleted := s.deleted + [h])
  }

  /** The cache lets go of an entry. */
  function Forget<V(0)>(s: State<V>, h: Handle<V>): State<V> {
    var s' := s.(lru := Without(s.lru, h), inUse := Without(s.inUse, h), table := s.table - {TagOf(h)});
    if h in s.clients then s' else s'.(deleted := s.deleted + [h])
  }

  function LookUp<V(0)>(s: State<V>, tag: Tag): State<V> {
    if tag in s.table then Ref(s, s.table[tag]) else s
  }

  function Erase<V(0)>(s: State<V>, tag: Tag): State<V> {
    if tag in s.table then Forget(s, s.table[tag]) else s
  }

  /** Let go of idle entries, oldest first, until the rest fits. */
  function Evict<V(0)>(s: State<V>): State<V>
    decreases |s.lru|
  {
    if Usage(s) > s.capacity && s.lru != [] then Evict(Forget(s, s.lru[0])) else s
  }

  function Prune<V(0)>(s: State<V>): State<V>
    decreases |s.lru|
  {
    if s.lru != [] then Prune(Forget(s, s.lru[0])) else s
  }

  /** A new entry takes the place of the one with its key; without any capacity it belongs to the client alone. */
  function Bind<V(0)>(s: State<V>, h: Handle<V>): State<V> {
    var s' := Erase(s, TagOf(h));
    var held := s'.(clients := s'.clients + multiset{h});
    if s.capacity == 0 then s.(clients := s.clients + multiset{h})
    else held.(inUse := held.inUse + [h], table := held.table[TagOf(h) := h])
  }

  function Insert<V(0)>(s: State<V>, h: Handle<V>): State<V> {
    Evict(Bind(s, h))
  }

  // ----- What always holds

  predicate Distinct<T(==)>(s: seq<T>) {
    forall i, j :: 0 <= i < j < |s| ==> s[i] != s[j]
  }

  /** An entry is on one ring at most: on `lru` if no client holds it, on `inUse` if some client does. */
  ghost predicate RingsOk<V(0)>(s: State<V>) {
    && Distinct(s.lru) && Distinct(s.inUse)
    && (forall h :: h in s.lru ==> h !in s.clients)
    && (forall h :: h in s.inUse ==> h in s.clients)
  }

  /** A deleter runs once at most, and not while the cache or a client has the entry. */
  ghost predicate DeletedOk<V(0)>(s: State<V>) {
    && Distinct(s.deleted)
    && (forall h :: h in s.deleted ==> !Cached(s, h) && h !in s.clients)
  }

  /** The table has the entries of the two rings, each under its own tag. */
  ghost predicate TableOk<V(0)>(s: State<V>) {
    && (forall t :: t in s.table ==> Cached(s, s.table[t]) && TagOf(s.table[t]) == t)
    && (forall h :: h in s.lru ==> TagOf(h) in s.table && s.table[TagOf(h)] == h)
    && (forall h :: h in s.inUse ==> TagOf(h) in s.table && s.table[TagOf(h)] == h)
  }

  ghost predicate Inv<V(0)>(s: State<V>) {
    RingsOk(s) && DeletedOk(s) && TableOk(s)
  }

  /** An entry that was inserted at some time: it is cached, held or deleted. */
  predicate IsKnown<V(0)>(s: State<V>, h: Handle<V>) {
    Cached(s, h) || h in s.clients || h in s.deleted
  }

  lemma {:induction false} WithoutDistinct<T>(s: seq<T>, x: T)
    requires Distinct(s)
    ensures Distinct(Without(s, x)) && x !in Without(s, x)
  {
    if s != [] {
      assert forall i :: 0 <= i < |s| - 1 ==> s[1..][i] == s[i + 1];
      if s[0] == x {
        assert x !in s[1..];
      } else {
        WithoutDistinct(s[1..], x);
        var t := Without(s[1..], x);
        assert s[0] !in s[1..];
        assert forall i :: 0 <= i < |t| ==> t[i] in s[1..];
      }
    }
  }

  lemma {:induction false} WithoutAbsent<T>(s: seq<T>, x: T)
    requires x !in s
    ensures Without(s, x) == s
  {
    if s != [] {
      WithoutAbsent(s[1..], x);
    }
  }

  lemma {:induction false} WithoutAt<T>(s: seq<T>, i: nat)
    requires Distinct(s) && i < |s|
    ensures Without(s, s[i]) == s[..i] + s[i + 1..]
  {
    if i > 0 {
      assert forall j :: 0 <= j < |s| - 1 ==> s[1..][j] == s[j + 1];
      WithoutAt(s[1..], i - 1);
      assert s[..i] + s[i + 1..] == [s[0]] + (s[1..][..i - 1] + s[1..][i..]);
    }
  }

  lemma WithoutMembers<T>(s: seq<T>, x: T)
    requires Distinct(s)
    ensures forall y :: y in Without(s, x) <==> y in s && y != x
  {
    WithoutDistinct(s, x);
  }

  lemma AppendDistinct<T>(s: seq<T>, x: T)
    requires Distinct(s) && x !in s
    ensures Distinct(s + [x])
  {
  }

  lemma RefKeeps<V(0)>(s: State<V>, h: Handle<V>)
    requires Inv(s) && Cached(s, h)
    ensures Inv(Ref(s, h))
    ensures forall x :: (Cached(Ref(s, h), x) <==> Cached(s, x)) && (IsKnown(Ref(s, h), x) <==> IsKnown(s, x))
  {
    var s' := Ref(s, h);
    if h in s.lru {
      WithoutDistinct(s.lru, h);
      WithoutMembers(s.lru, h);
      AppendDistinct(s.inUse, h);
      assert RingsOk(s');
    }
  }

  lemma UnrefKeeps<V(0)>(s: State<V>, h: Handle<V>)
    requires Inv(s) && h in s.clients
    ensures Inv(Unref(s, h))
    ensures forall x :: (Cached(Unref(s, h), x) <==> Cached(s, x)) && (IsKnown(Unref(s, h), x) <==> IsKnown(s, x))
  {
    var s' := s.(clients := s.clients - multiset{h});
    assert forall x :: x != h ==> s'.clients[x] == s.clients[x];
    if h in s'.clients {
    } else if Cached(s, h) {
      BecomesIdle(s, h);
    } else {
      AppendDistinct(s.deleted, h);
    }
  }

  lemma BecomesIdle<V(0)>(s: State<V>, h: Handle<V>)
    requires Inv(s) && h in s.inUse && s.clients[h] == 1
    ensures Inv(Unref(s, h))
    ensures forall x :: (Cached(Unref(s, h), x) <==> Cached(s, x)) && (IsKnown(Unref(s, h), x) <==> IsKnown(s, x))
  {
    var s' := Unref(s, h);
    WithoutDistinct(s.inUse, h);
    WithoutMembers(s.inUse, h);
    AppendDistinct(s.lru, h);
    assert forall x :: x != h ==> s'.clients[x] == s.clients[x];
    assert RingsOk(s');
  }

  lemma ForgetKeeps<V(0)>(s: State<V>, h: Handle<V>)
    requires Inv(s) && Cached(s, h)
    ensures Inv(Forget(s, h))
    ensures forall x :: Cached(Forget(s, h), x) <==> Cached(s, x) && x != h
    ensures forall x :: IsKnown(Forget(s, h), x) <==> IsKnown(s, x)
  {
    var s' := Forget(s, h);
    WithoutDistinct(s.lru, h);
    WithoutDistinct(s.inUse, h);
    WithoutMembers(s.lru, h);
    WithoutMembers(s.inUse, h);
    assert RingsOk(s');
    if h !in s.clients {
      AppendDistinct(s.deleted, h);
    }
    assert DeletedOk(s');
  }

  lemma EraseKeeps<V(0)>(s: State<V>, tag: Tag)
    requires Inv(s)
    ensures Inv(Erase(s, tag)) && tag !in Erase(s, tag).table
    ensures forall x :: IsKnown(Erase(s, tag), x) <==> IsKnown(s, x)
    ensures forall x :: Cached(Erase(s, tag), x) <==> Cached(s, x) && TagOf(x) != tag
  {
    if tag in s.table {
      ForgetKeeps(s, s.table[tag]);
    }
  }

  lemma BindKeeps<V(0)>(s: State<V>, h: Handle<V>)
    requires Inv(s) && !IsKnown(s, h)
    ensures Inv(Bind(s, h))
    ensures forall x :: IsKnown(Bind(s, h), x) <==> x == h || IsKnown(s, x)
  {
    if s.capacity > 0 {
      EraseKeeps(s, TagOf(h));
      AddKeeps(Erase(s, TagOf(h)), h);
    } else {
      HoldKeeps(s, h);
    }
  }

  /** Under a tag that is free. */
  lemma AddKeeps<V(0)>(s: State<V>, h: Handle<V>)
    requires Inv(s) && !IsKnown(s, h) && TagOf(h) !in s.table
    ensures var s' := s.(clients := s.clients + multiset{h}, inUse := s.inUse + [h], table := s.table[TagOf(h) := h]);
      Inv(s') && forall x :: IsKnown(s', x) <==> x == h || IsKnown(s, x)
  {
    AppendDistinct(s.inUse, h);
  }

  lemma HoldKeeps<V(0)>(s: State<V>, h: Handle<V>)
    requires Inv(s) && !IsKnown(s, h)
    ensures var s' := s.(clients := s.clients + multiset{h});
      Inv(s') && forall x :: IsKnown(s', x) <==> x == h || IsKnown(s, x)
  {
  }

  // ----- Eviction

  /** Without the `n` oldest idle entries; no client holds them, so they are deleted, oldest first. */
  function Drop<V(0)>(s: State<V>, n: nat): State<V>
    requires n <= |s.lru|
  {
    s.(lru := s.lru[n..],
       table := map t | t in s.table && s.table[t] !in s.lru[..n] :: s.table[t],
       deleted := s.deleted + s.lru[..n])
  }

  lemma DropOldest<V(0)>(s: State<V>)
    requires Inv(s) && s.lru != []
    ensures Forget(s, s.lru[0]) == Drop(s, 1)
  {
    var h := s.lru[0];
    WithoutAbsent(s.inUse, h);
    assert s.lru[..1] == [h];
    OnlyTag(s.table, h);
  }

  lemma OnlyTag<V(0)>(table: map<Tag, Handle<V>>, h: Handle<V>)
    requires forall t :: t in table ==> TagOf(table[t]) == t
    requires TagOf(h) in table && table[TagOf(h)] == h
    ensures table - {TagOf(h)} == map t | t in table && table[t] !in [h] :: table[t]
  {
  }

  lemma DropMore<V(0)>(s: State<V>, n: nat)
    requires n < |s.lru|
    ensures Drop(Drop(s, 1), n) == Drop(s, n + 1)
  {
    assert s.lru[1..][n..] == s.lru[n + 1..];
    assert s.lru[..n + 1] == s.lru[..1] + s.lru[1..][..n];
    assert (s.deleted + s.lru[..1]) + s.lru[1..][..n] == s.deleted + s.lru[..n + 1];
  }

  lemma {:induction false} DropKeeps<V(0)>(s: State<V>, n: nat)
    requires Inv(s) && n <= |s.lru|
    ensures Inv(Drop(s, n))
    ensures forall x :: IsKnown(Drop(s, n), x) <==> IsKnown(s, x)
    decreases n
  {
    if n == 0 {
      assert Drop(s, 0) == s;
    } else {
      ForgetKeeps(s, s.lru[0]);
      DropOldest(s);
      DropKeeps(Drop(s, 1), n - 1);
      DropMore(s, n - 1);
    }
  }

  /** The `n` oldest idle entries are the shortest prefix whose loss makes the rest fit. */
  ghost predicate Needed<V(0)>(s: State<V>, n: nat)
    requires n <= |s.lru|
  {
    && (n == |s.lru| || Charges(s.lru[n..]) + Charges(s.inUse) <= s.capacity)
    && forall m :: 0 <= m < n ==> Charges(s.lru[m..]) + Charges(s.inUse) > s.capacity
  }

  lemma {:induction false} EvictDrops<V(0)>(s: State<V>) returns (n: nat)
    requires Inv(s)
    ensures n <= |s.lru| && Evict(s) == Drop(s, n) && Needed(s, n)
    decreases |s.lru|
  {
    if Usage(s) > s.capacity && s.lru != [] {
      ForgetKeeps(s, s.lru[0]);
      DropOldest(s);
      var n' := EvictDrops(Drop(s, 1));
      n := n' + 1;
      DropMore(s, n');
      NeededMore(s, n');
    } else {
      n := 0;
      assert Drop(s, 0) == s;
    }
  }

  lemma NeededMore<V(0)>(s: State<V>, n: nat)
    requires n < |s.lru| && Usage(s) > s.capacity && Needed(Drop(s, 1), n)
    ensures Needed(s, n + 1)
  {
    assert s.lru[1..][n..] == s.lru[n + 1..];
    forall m | 0 <= m < n + 1
      ensures Charges(s.lru[m..]) + Charges(s.inUse) > s.capacity
    {
      if m > 0 {
        assert s.lru[m..] == s.lru[1..][m - 1..];
      } else {
        assert s.lru[0..] == s.lru;
      }
    }
  }

  lemma {:induction false} PruneDrops<V(0)>(s: State<V>)
    requires Inv(s)
    ensures Prune(s) == Drop(s, |s.lru|)
    decreases |s.lru|
  {
    if s.lru != [] {
      ForgetKeeps(s, s.lru[0]);
      DropOldest(s);
      PruneDrops(Drop(s, 1));
      DropMore(s, |s.lru| - 1);
    } else {
      assert Drop(s, 0) == s;
    }
  }

  /** The entry with the tag of `h`, if the cache has one. */
  function Displaced<V(0)>(s: State<V>, h: Handle<V>): seq<Handle<V>> {
    if s.capacity > 0 && TagOf(h) in s.table then [s.table[TagOf(h)]] else []
  }

  /**
   `insert` binds the key to the new entry, displaces the old one, and then
   drops the shortest prefix of the idle entries that makes the rest fit.
   */
  lemma InsertSpec<V(0)>(s: State<V>, h: Handle<V>) returns (n: nat)
    requires Inv(s) && !IsKnown(s, h)
    ensures Inv(Insert(s, h))
    ensures forall x :: IsKnown(Insert(s, h), x) <==> x == h || IsKnown(s, x)
    ensures var bound := Bind(s, h);
      && (forall x :: x in bound.lru <==> x in s.lru && x !in Displaced(s, h))
      && n <= |bound.lru| && Insert(s, h) == Drop(bound, n) && Needed(bound, n)
      && (s.capacity > 0 ==> TagOf(h) in Insert(s, h).table && Insert(s, h).table[TagOf(h)] == h)
    ensures Insert(s, h).clients[h] == 1
    ensures s.capacity == 0 ==> !Cached(Insert(s, h), h) && Bind(s, h).table == s.table
  {
    BindKeeps(s, h);
    n := EvictDrops(Bind(s, h));
    DropKeeps(Bind(s, h), n);
    if TagOf(h) in s.table {
      WithoutMembers(s.lru, s.table[TagOf(h)]);
    }
    assert s.capacity > 0 ==> h in Bind(s, h).inUse;
  }

  // ----- Whole runs

  datatype Op<!V(0)> = OpInsert(h: Handle<V>) | OpLookUp(tag: Tag) | OpRelease(h: Handle<V>) | OpErase(tag: Tag) | OpPrune

  /** An inserted entry is a new one, and clients release what they hold. */
  predicate CanDo<V(0)>(s: State<V>, op: Op<V>) {
    && (op.OpInsert? ==> !IsKnown(s, op.h))
    && (op.OpRelease? ==> op.h in s.clients)
  }

  function Do<V(0)>(s: State<V>, op: Op<V>): State<V> {
    match op
    case OpInsert(h) => Insert(s, h)
    case OpLookUp(tag) => LookUp(s, tag)
    case OpRelease(h) => Unref(s, h)
    case OpErase(tag) => Erase(s, tag)
    case OpPrune => Prune(s)
  }

  predicate CanRun<V(0)>(s: State<V>, ops: seq<Op<V>>)
    decreases |ops|
  {
    ops == [] || (CanDo(s, ops[0]) && CanRun(Do(s, ops[0]), ops[1..]))
  }

  function Run<V(0)>(s: State<V>, ops: seq<Op<V>>): State<V>
    decreases |ops|
  {
    if ops == [] then s else Run(Do(s, ops[0]), ops[1..])
  }

  lemma DoKeeps<V(0)>(s: State<V>, op: Op<V>)
    requires Inv(s) && CanDo(s, op)
    ensures Inv(Do(s, op)) && s.deleted <= Do(s, op).deleted
    ensures forall x :: IsKnown(Do(s, op), x) <==> IsKnown(s, x) || op == OpInsert(x)
  {
    match op
    case OpInsert(h) =>
      var n := InsertSpec(s, h);
    case OpLookUp(tag) =>
      if tag in s.table {
        RefKeeps(s, s.table[tag]);
      }
    case OpRelease(h) => UnrefKeeps(s, h);
    case OpErase(tag) => EraseKeeps(s, tag);
    case OpPrune =>
      PruneDrops(s);
      DropKeeps(s, |s.lru|);
  }

  /**
   After any run, each entry ever inserted is cached, held by a client, or its
   deleter has run; the deleter has run once at most, and never too early.
   */
  lemma {:induction false} RunKeeps<V(0)>(s: State<V>, ops: seq<Op<V>>)
    requires Inv(s) && CanRun(s, ops)
    ensures Inv(Run(s, ops)) && s.deleted <= Run(s, ops).deleted
    ensures forall x :: IsKnown(Run(s, ops), x) <==> IsKnown(s, x) || OpInsert(x) in ops
    decreases |ops|
  {
    if ops != [] {
      DoKeeps(s, ops[0]);
      RunKeeps(Do(s, ops[0]), ops[1..]);
      assert forall op :: op in ops <==> op == ops[0] || op in ops[1..];
    }
  }

  lemma Lifetimes<V(0)>(capacity: nat, ops: seq<Op<V>>)
    requires CanRun(Empty(capacity), ops)
    ensures var s := Run(Empty(capacity), ops);
      && (forall x :: OpInsert(x) in ops <==> Cached(s, x) || x in s.clients || x in s.deleted)
      && (forall x :: x in s.deleted ==> !Cached(s, x) && x !in s.clients)
      && Distinct(s.deleted)
      && (s.clients == multiset{} && s.lru == [] ==> forall x :: OpInsert(x) in ops <==> x in s.deleted)
  {
    RunKeeps(Empty(capacity), ops);
  }

  /** Once all handles are released, the idle entries are all that is left for the destructor to end. */
  lemma Destroyed<V(0)>(capacity: nat, ops: seq<Op<V>>)
    requires CanRun(Empty(capacity), ops)
    requires Run(Empty(capacity), ops).clients == multiset{}
    ensures var s := Run(Empty(capacity), ops);
      && s.inUse == [] && Distinct(s.deleted + s.lru)
      && forall x :: OpInsert(x) in ops <==> x in s.deleted + s.lru
  {
    RunKeeps(Empty(capacity), ops);
    var s := Run(Empty(capacity), ops);
    assert multiset(s.inUse) == multiset{};
    DistinctConcat(s.deleted, s.lru);
  }

  lemma DistinctConcat<T>(a: seq<T>, b: seq<T>)
    requires Distinct(a) && Distinct(b) && forall x :: x in a ==> x !in b
    ensures Distinct(a + b)
  {
    forall i, j | 0 <= i < j < |a + b|
      ensures (a + b)[i] != (a + b)[j]
    {
      assert i < |a| ==> a[i] in a;
    }
  }
}
