/** The cache of src/leveldb/cache.cc, one shard of it, under its mutex. */
module LruCaches {
  import opened Bytes
  import opened CacheSpec
  import opened HandleTables
  import opened LruRings

  /** The entries that are still allocated: the cache or some client has them. */
  function Live<V(0)>(s: State<V>): set<Handle<V>> {
    (set h | h in s.lru) + (set h | h in s.inUse) + (set h | h in s.clients)
  }

  // ----- Charges

  lemma {:induction false} ChargesAppend<V(0)>(s: seq<Handle<V>>, h: Handle<V>)
    ensures Charges(s + [h]) == Charges(s) + h.charge
  {
    if s == [] {
    } else {
      assert (s + [h])[1..] == s[1..] + [h];
      ChargesAppend(s[1..], h);
    }
  }

  lemma {:induction false} ChargesWithout<V(0)>(s: seq<Handle<V>>, h: Handle<V>)
    requires h in s
    ensures Charges(Without(s, h)) == Charges(s) - h.charge
  {
    if s[0] != h {
      ChargesWithout(s[1..], h);
    }
  }

  lemma UsageKept<V(0)>(s: State<V>, h: Handle<V>)
    requires Inv(s)
    ensures Usage(Ref(s, h)) == Usage(s)
    ensures h in s.clients ==> Usage(Unref(s, h)) == Usage(s)
  {
    if h in s.lru {
      ChargesWithout(s.lru, h);
      ChargesAppend(s.inUse, h);
    }
    if h in s.inUse {
      ChargesWithout(s.inUse, h);
      ChargesAppend(s.lru, h);
    }
  }

  // ----- References

  lemma RefLive<V(0)>(s: State<V>, e: Handle<V>)
    requires Inv(s) && Cached(s, e)
    ensures Live(Ref(s, e)) == Live(s)
  {
    RefKeeps(s, e);
  }

  lemma RefCounts<V(0)>(s: State<V>, e: Handle<V>, h: Handle<V>)
    requires Inv(s) && Cached(s, e)
    ensures Cached(Ref(s, e), h) == Cached(s, h)
    ensures Ref(s, e).clients[h] == s.clients[h] + if h == e then 1 else 0
  {
    RefKeeps(s, e);
  }

  lemma UnrefLive<V(0)>(s: State<V>, e: Handle<V>)
    requires Inv(s) && e in s.clients
    ensures Live(Unref(s, e)) <= Live(s)
  {
    UnrefKeeps(s, e);
  }

  lemma UnrefCounts<V(0)>(s: State<V>, e: Handle<V>, h: Handle<V>)
    requires Inv(s) && e in s.clients
    ensures Cached(Unref(s, e), h) == Cached(s, h)
    ensures Unref(s, e).clients[h] == s.clients[h] - if h == e then 1 else 0
  {
    UnrefKeeps(s, e);
  }

  lemma EraseLive<V(0)>(s: State<V>, tag: Tag)
    ensures Live(Erase(s, tag)) <= Live(s)
  {
  }

  // ----- Entries that leave the cache

  /** Off its ring, with the cache's reference counted as one of a client. */
  function Detached<V(0)>(s: State<V>, e: Handle<V>): State<V> {
    s.(lru := Without(s.lru, e), inUse := Without(s.inUse, e), clients := s.clients + multiset{e})
  }

  /** A cached entry that the table has let go of. */
  ghost predicate Erasable<V(0)>(s: State<V>, e: Handle<V>) {
    RingsOk(s) && Cached(s, e) && Inv(Detached(s, e))
  }

  lemma DetachedMembers<V(0)>(s: State<V>, e: Handle<V>)
    requires RingsOk(s) && Cached(s, e)
    ensures Live(Detached(s, e)) == Live(s) && !Cached(Detached(s, e), e)
    ensures forall h :: h != e ==> Cached(Detached(s, e), h) == Cached(s, h)
  {
    WithoutMembers(s.lru, e);
    WithoutMembers(s.inUse, e);
  }

  lemma UsageDetached<V(0)>(s: State<V>, e: Handle<V>)
    requires RingsOk(s) && Cached(s, e)
    ensures Usage(Detached(s, e)) == Usage(s) - e.charge
  {
    if e in s.lru {
      ChargesWithout(s.lru, e);
      WithoutAbsent(s.inUse, e);
    } else {
      ChargesWithout(s.inUse, e);
      WithoutAbsent(s.lru, e);
    }
  }

  /** What `finish_erase` demands, */
  ghost predicate CanFinish<V(0)>(s: State<V>, e: Handle?<V>) {
    if e == null then Inv(s) else Erasable(s, e)
  }

  /** and what it does. */
  function Finished<V(0)>(s: State<V>, e: Handle?<V>): State<V> {
    if e == null then s else Unref(Detached(s, e), e)
  }

  /** `remove` from the table and then `finish_erase` is what the cache does when it forgets an entry. */
  lemma EraseSteps<V(0)>(s: State<V>, tag: Tag)
    requires Inv(s)
    ensures var s' := s.(table := s.table - {tag});
      CanFinish(s', Found(s.table, tag)) && Finished(s', Found(s.table, tag)) == Erase(s, tag)
  {
    if tag in s.table {
      DetachedInv(s.(table := s.table - {tag}), s.table[tag]);
      UnrefDetached(s.(table := s.table - {tag}), s.table[tag]);
    } else {
      assert s.table - {tag} == s.table;
    }
  }

  /** An entry that the table does not have can be detached, if the table is right about the others. */
  lemma DetachedInv<V(0)>(s: State<V>, e: Handle<V>)
    requires RingsOk(s) && DeletedOk(s) && Cached(s, e)
    requires forall t :: t in s.table ==> Cached(s, s.table[t]) && TagOf(s.table[t]) == t && s.table[t] != e
    requires forall h :: h in s.lru && h != e ==> TagOf(h) in s.table && s.table[TagOf(h)] == h
    requires forall h :: h in s.inUse && h != e ==> TagOf(h) in s.table && s.table[TagOf(h)] == h
    ensures Erasable(s, e)
  {
    DetachedMembers(s, e);
    WithoutDistinct(s.lru, e);
    WithoutDistinct(s.inUse, e);
    WithoutMembers(s.lru, e);
    WithoutMembers(s.inUse, e);
  }

  lemma UnrefDetached<V(0)>(s: State<V>, e: Handle<V>)
    requires RingsOk(s) && Cached(s, e) && TagOf(e) !in s.table
    ensures Unref(Detached(s, e), e) == Forget(s, e)
  {
    DetachedMembers(s, e);
    GivenBack(s.clients, e);
    assert s.table - {TagOf(e)} == s.table;
  }

  ghost predicate AllCounted<V(0)>(s: State<V>)
    reads Live(s)`refs, Live(s)`inCache
  {
    forall h :: h in Live(s) ==> Counted(s, h)
  }

  ghost predicate OthersCounted<V(0)>(s: State<V>, e: Handle<V>)
    reads Live(s)`refs, Live(s)`inCache
  {
    forall h :: h in Live(s) && h != e ==> Counted(s, h)
  }

  /** An entry has a reference for each client that holds it and one for the cache. */
  ghost predicate Counted<V(0)>(s: State<V>, h: Handle<V>)
    reads h`refs, h`inCache
  {
    && h.inCache == Cached(s, h)
    && h.refs == s.clients[h] + if Cached(s, h) then 1 else 0
  }

  /** The hash table does not touch rings and counts. */
  method RemoveFrom<V(0)>(table: HandleTable<V>, key: seq<byte>, hash: uint32,
                          ghost lru: Handle<V>, ghost inUse: Handle<V>, ghost s: State<V>)
    returns (e: Handle?<V>)
    requires table.Valid() && Rings(lru, s.lru, inUse, s.inUse) && AllCounted(s)
    modifies table`elems, table`chains, table`nodes, table`table, table.list, table.nodes`nextHash
    ensures Rings(lru, s.lru, inUse, s.inUse) && AllCounted(s)
    ensures e == Found(old(table.table), Tag(key, hash))
    ensures table.Valid() && table.table == old(table.table) - {Tag(key, hash)}
    ensures table.nodes <= old(table.nodes)
  {
    e := table.Remove(key, hash);
    forall h | h in Live(s)
      ensures Counted(s, h)
    {
      assert old(Counted(s, h));
    }
  }

  method InsertCounted<V(0)>(table: HandleTable<V>, e: Handle<V>, ghost s: State<V>) returns (displaced: Handle?<V>)
    requires table.Valid() && AllCounted(s) && e !in table.nodes
    modifies table, table.list, table.nodes`nextHash, e`nextHash
    ensures AllCounted(s)
    ensures displaced == Found(old(table.table), TagOf(e))
    ensures table.Valid() && table.table == old(table.table)[TagOf(e) := e]
    ensures table.nodes <= old(table.nodes) + {e} && (table.list == old(table.list) || fresh(table.list))
  {
    displaced := table.Insert(e);
  }

  method InsertInto<V(0)>(table: HandleTable<V>, e: Handle<V>,
                          ghost lru: Handle<V>, ghost inUse: Handle<V>, ghost s: State<V>)
    returns (displaced: Handle?<V>)
    requires table.Valid() && Rings(lru, s.lru, inUse, s.inUse) && AllCounted(s) && e !in table.nodes
    modifies table, table.list, table.nodes`nextHash, e`nextHash
    ensures Rings(lru, s.lru, inUse, s.inUse) && AllCounted(s)
    ensures displaced == Found(old(table.table), TagOf(e))
    ensures table.Valid() && table.table == old(table.table)[TagOf(e) := e]
    ensures table.nodes <= old(table.nodes) + {e} && (table.list == old(table.list) || fresh(table.list))
  {
    displaced := InsertCounted(table, e, s);
  }

  // ----- A new entry

  /** On the ring of entries in use and in the table, while the entry with the same key is still on its ring. */
  function Appended<V(0)>(s: State<V>, e: Handle<V>): State<V> {
    s.(inUse := s.inUse + [e], clients := s.clients + multiset{e}, table := s.table[TagOf(e) := e])
  }

  lemma {:induction false} WithoutAppend<T>(s: seq<T>, x: T, y: T)
    requires x != y
    ensures Without(s + [y], x) == Without(s, x) + [y]
  {
    if s == [] {
      assert Without([y], x) == [y];
    } else if s[0] == x {
      assert (s + [y])[1..] == s[1..] + [y];
    } else {
      assert (s + [y])[1..] == s[1..] + [y];
      WithoutAppend(s[1..], x, y);
    }
  }

  /** To append the new entry and then to finish erasing the displaced one is to bind the new one. */
  lemma BindSteps<V(0)>(s: State<V>, e: Handle<V>)
    requires Inv(s) && !IsKnown(s, e) && s.capacity > 0
    ensures CanFinish(Appended(s, e), Found(s.table, TagOf(e)))
    ensures Finished(Appended(s, e), Found(s.table, TagOf(e))) == Bind(s, e)
  {
    if TagOf(e) in s.table {
      AppendDistinct(s.inUse, e);
      DetachedInv(Appended(s, e), s.table[TagOf(e)]);
      UnrefAppended(s, e, s.table[TagOf(e)]);
    } else {
      BindKeeps(s, e);
      assert Appended(s, e) == Bind(s, e);
    }
  }

  lemma UnrefAppended<V(0)>(s: State<V>, e: Handle<V>, d: Handle<V>)
    requires Inv(s) && !IsKnown(s, e) && s.capacity > 0 && Cached(s, d) && TagOf(d) == TagOf(e)
    ensures Unref(Detached(Appended(s, e), d), d) == Bind(s, e)
  {
    var s' := Appended(s, e);
    AppendDistinct(s.inUse, e);
    DetachedMembers(s', d);
    WithoutAppend(s.inUse, d, e);
    GivenBack(s'.clients, d);
    Rebound(s.table, TagOf(e), e);
  }

  lemma GivenBack<T>(m: multiset<T>, x: T)
    ensures m + multiset{x} - multiset{x} == m
  {
  }

  lemma Rebound<K, T>(m: map<K, T>, k: K, x: T)
    ensures (m - {k})[k := x] == m[k := x]
  {
  }

  lemma LiveBound<V(0)>(s: State<V>, e: Handle<V>)
    requires Inv(s) && !IsKnown(s, e)
    ensures Live(Bind(s, e)) <= Live(s) + {e}
  {
    EraseKeeps(s, TagOf(e));
  }

  /** Two empty rings. */
  method NewHeads<V(0)>() returns (lru: Handle<V>, inUse: Handle<V>)
    ensures fresh(lru) && fresh(inUse) && Rings(lru, [], inUse, [])
  {
    var anyValue: V := *;
    lru := new Handle([], 0, anyValue, 0);
    inUse := new Handle([], 0, anyValue, 0);
    lru.next, lru.prev := lru, lru;
    inUse.next, inUse.prev := inUse, inUse;
  }

  class LruCache<V(0)> {
    var capacity: nat
    var usage: nat
    const lru: Handle<V>
    const inUse: Handle<V>
    const table: HandleTable<V>
    /** The entries that deleters were called for, first to last. */
    var deleterCalls: seq<Handle<V>>
    ghost var state: State<V>

    constructor ()
      ensures Valid() && state == Empty(0) && deleterCalls == []
      ensures fresh(table) && fresh(table.list) && fresh(lru) && fresh(inUse) && table.nodes == {}
    {
      capacity, usage := 0, 0;
      var l, u := NewHeads();
      lru, inUse := l, u;
      table := new HandleTable();
      deleterCalls := [];
      state := Empty(0);
      new;
      StartsConsistent();
    }

    lemma StartsConsistent()
      requires Rings(lru, [], inUse, []) && state == Empty(0) && capacity == usage == 0 && deleterCalls == []
      ensures Consistent() && Inv(state)
    {
    }

    /** Rings and reference counts are those of the state. */
    ghost predicate Tracked(s: State<V>)
      reads {lru, inUse}`next, {lru, inUse}`prev, Live(s)`next, Live(s)`prev, Live(s)`refs, Live(s)`inCache
    {
      && Rings(lru, s.lru, inUse, s.inUse)
      && lru !in Live(s) && inUse !in Live(s)
      && AllCounted(s)
    }

    lemma TrackedRef(s: State<V>, e: Handle<V>)
      requires Inv(s) && Cached(s, e) && lru !in Live(s) && inUse !in Live(s)
      requires Rings(lru, CacheSpec.Ref(s, e).lru, inUse, CacheSpec.Ref(s, e).inUse)
      requires OthersCounted(s, e)
      requires Counted(CacheSpec.Ref(s, e), e)
      ensures Tracked(CacheSpec.Ref(s, e))
    {
      RefLive(s, e);
      forall h | h in Live(s)
        ensures Counted(CacheSpec.Ref(s, e), h)
      {
        RefCounts(s, e, h);
      }
    }

    lemma TrackedUnref(s: State<V>, e: Handle<V>)
      requires Inv(s) && e in s.clients && lru !in Live(s) && inUse !in Live(s)
      requires Rings(lru, Unref(s, e).lru, inUse, Unref(s, e).inUse)
      requires OthersCounted(s, e)
      requires Counted(Unref(s, e), e)
      ensures Tracked(Unref(s, e))
    {
      UnrefLive(s, e);
      forall h | h in Live(s)
        ensures Counted(Unref(s, e), h)
      {
        UnrefCounts(s, e, h);
      }
    }

    method Ref(e: Handle<V>)
      requires Tracked(state) && Inv(state) && Cached(state, e)
      modifies `state, {lru, inUse}`next, {lru, inUse}`prev, Live(state)`next, Live(state)`prev, e`refs
      ensures Tracked(state) && state == CacheSpec.Ref(old(state), e)
    {
      ghost var s := state;
      assert Counted(s, e);
      if e.refs == 1 && e.inCache {
        BecomeInUse(e, s);
      }
      e.refs := e.refs + 1;
      RefCounts(s, e, e);
      TrackedRef(s, e);
      state := CacheSpec.Ref(s, e);
    }

    method BecomeInUse(e: Handle<V>, ghost s: State<V>)
      requires Rings(lru, s.lru, inUse, s.inUse) && OthersCounted(s, e) && e in s.lru
      modifies {lru, inUse}`next, {lru, inUse}`prev, Live(s)`next, Live(s)`prev
      ensures Rings(lru, Without(s.lru, e), inUse, s.inUse + [e]) && OthersCounted(s, e)
    {
      LruMove(e, inUse, lru, s.lru, s.inUse);
      RingsSwap(inUse, s.inUse + [e], lru, Without(s.lru, e));
    }

    method UnRef(e: Handle<V>)
      requires Tracked(state) && Inv(state) && e in state.clients && deleterCalls == state.deleted
      modifies `state, `deleterCalls, {lru, inUse}`next, {lru, inUse}`prev, Live(state)`next, Live(state)`prev, e`refs
      ensures Tracked(state) && state == Unref(old(state), e) && deleterCalls == state.deleted
    {
      ghost var s := state;
      assert Counted(s, e);
      assert e.refs > 0;
      e.refs := e.refs - 1;
      if e.refs == 0 {
        assert !e.inCache;
        deleterCalls := deleterCalls + [e];
      } else if e.inCache && e.refs == 1 {
        BecomeIdle(e, s);
      }
      UnrefCounts(s, e, e);
      TrackedUnref(s, e);
      state := Unref(s, e);
    }

    method BecomeIdle(e: Handle<V>, ghost s: State<V>)
      requires Rings(lru, s.lru, inUse, s.inUse) && OthersCounted(s, e) && e in s.inUse
      modifies {lru, inUse}`next, {lru, inUse}`prev, Live(s)`next, Live(s)`prev
      ensures Rings(lru, s.lru + [e], inUse, Without(s.inUse, e)) && OthersCounted(s, e)
    {
      RingsSwap(lru, s.lru, inUse, s.inUse);
      LruMove(e, lru, inUse, s.inUse, s.lru);
    }

    lemma TrackedDetached(s: State<V>, e: Handle<V>)
      requires Erasable(s, e) && lru !in Live(s) && inUse !in Live(s)
      requires Rings(lru, Detached(s, e).lru, inUse, Detached(s, e).inUse)
      requires OthersCounted(s, e)
      requires Counted(Detached(s, e), e)
      ensures Tracked(Detached(s, e))
    {
      DetachedMembers(s, e);
      forall h | h in Live(s)
        ensures Counted(Detached(s, e), h)
      {
      }
    }

    /** All but the hash table. */
    ghost predicate Consistent()
      reads this, {lru, inUse}`next, {lru, inUse}`prev
      reads Live(state)`next, Live(state)`prev, Live(state)`refs, Live(state)`inCache
    {
      Tracked(state) && usage == Usage(state) && capacity == state.capacity && deleterCalls == state.deleted
    }

    /** An entry that has left the hash table leaves the cache. */
    method FinishErase(e: Handle?<V>) returns (erased: bool)
      requires Consistent() && CanFinish(state, e)
      modifies `usage, `state, `deleterCalls, {lru, inUse}`next, {lru, inUse}`prev
      modifies Live(state)`next, Live(state)`prev, Live(state)`refs, Live(state)`inCache
      ensures Consistent() && erased == (e != null)
      ensures state == Finished(old(state), e)
    {
      if e != null {
        Detach(e);
        UsageKept(state, e);
        UnRef(e);
      }
      erased := e != null;
    }

    /** The cache's reference is left over, as if one more client held the entry. */
    method Detach(e: Handle<V>)
      requires Consistent() && Erasable(state, e)
      modifies `usage, `state, {lru, inUse}`next, {lru, inUse}`prev, Live(state)`next, Live(state)`prev, e`inCache
      ensures Consistent() && state == Detached(old(state), e)
    {
      UsageDetached(state, e);
      TakeOff(e, state);
      usage := usage - e.charge;
      state := Detached(state, e);
    }

    method TakeOff(e: Handle<V>, ghost s: State<V>)
      requires Tracked(s) && Erasable(s, e)
      modifies {lru, inUse}`next, {lru, inUse}`prev, Live(s)`next, Live(s)`prev, e`inCache
      ensures Tracked(Detached(s, e))
    {
      assert Counted(s, e);
      assert e.inCache;
      LruTakeOff(e, lru, s.lru, inUse, s.inUse);
      e.inCache := false;
      DetachedMembers(s, e);
      TrackedDetached(s, e);
    }

    /** The hash table has no part in it. */
    method Finish(e: Handle?<V>) returns (erased: bool)
      requires Consistent() && CanFinish(state, e) && table.Valid()
      modifies `usage, `state, `deleterCalls, {lru, inUse}`next, {lru, inUse}`prev
      modifies Live(state)`next, Live(state)`prev, Live(state)`refs, Live(state)`inCache
      ensures Consistent() && erased == (e != null) && table.Valid()
      ensures state == Finished(old(state), e)
    {
      erased := FinishErase(e);
    }

    // ----- Operations of the cache

    ghost predicate Valid()
      reads this, {lru, inUse}`next, {lru, inUse}`prev
      reads Live(state)`next, Live(state)`prev, Live(state)`refs, Live(state)`inCache
      reads table, table.list, table.nodes`nextHash
    {
      Consistent() && Inv(state) && table.Valid() && table.table == state.table
    }

    method LookUp(key: seq<byte>, hash: uint32) returns (e: Handle?<V>)
      requires Valid()
      modifies `state, {lru, inUse}`next, {lru, inUse}`prev, Live(state)`next, Live(state)`prev, Live(state)`refs
      ensures Valid() && state == CacheSpec.LookUp(old(state), Tag(key, hash)) && Live(state) == old(Live(state))
      ensures e == Found(old(state).table, Tag(key, hash))
    {
      e := table.LookUp(key, hash);
      if e != null {
        Hold(e);
      }
    }

    /** One more reference for a client. */
    method Hold(e: Handle<V>)
      requires Valid() && Cached(state, e)
      modifies `state, {lru, inUse}`next, {lru, inUse}`prev, Live(state)`next, Live(state)`prev, e`refs
      ensures Valid() && state == CacheSpec.Ref(old(state), e) && Live(state) == old(Live(state))
    {
      RefLive(state, e);
      RefKeeps(state, e);
      UsageKept(state, e);
      Ref(e);
    }

    method Release(handle: Handle<V>)
      requires Valid() && handle in state.clients
      modifies `state, `deleterCalls, {lru, inUse}`next, {lru, inUse}`prev, Live(state)`next, Live(state)`prev, handle`refs
      ensures Valid() && state == Unref(old(state), handle) && Live(state) <= old(Live(state))
    {
      UnrefLive(state, handle);
      UnrefKeeps(state, handle);
      UsageKept(state, handle);
      UnRef(handle);
    }

    method Erase(key: seq<byte>, hash: uint32) returns (erased: bool)
      requires Valid()
      modifies `usage, `state, `deleterCalls, {lru, inUse}`next, {lru, inUse}`prev
      modifies Live(state)`next, Live(state)`prev, Live(state)`refs, Live(state)`inCache
      modifies table`elems, table`chains, table`nodes, table`table, table.list, table.nodes`nextHash
      ensures Valid() && state == CacheSpec.Erase(old(state), Tag(key, hash))
      ensures erased == (Tag(key, hash) in old(state).table)
      ensures table.nodes <= old(table.nodes) && Live(state) <= old(Live(state))
    {
      EraseLive(state, Tag(key, hash));
      var e := TableRemove(key, hash);
      erased := ForgetRemoved(e, Tag(key, hash));
    }

    method TableRemove(key: seq<byte>, hash: uint32) returns (e: Handle?<V>)
      requires Consistent() && table.Valid() && table.table == state.table
      modifies table`elems, table`chains, table`nodes, table`table, table.list, table.nodes`nextHash
      ensures Consistent() && e == Found(state.table, Tag(key, hash))
      ensures table.Valid() && table.table == state.table - {Tag(key, hash)}
      ensures table.nodes <= old(table.nodes)
    {
      e := RemoveFrom(table, key, hash, lru, inUse, state);
    }

    ghost method Retable(table': map<Tag, Handle<V>>)
      requires Consistent()
      modifies `state
      ensures Consistent() && state == old(state).(table := table')
    {
      state := state.(table := table');
    }

    /** `finish_erase` after `remove`. */
    method ForgetRemoved(e: Handle?<V>, ghost tag: Tag) returns (erased: bool)
      requires Consistent() && Inv(state) && e == Found(state.table, tag)
      requires table.Valid() && table.table == state.table - {tag}
      modifies `usage, `state, `deleterCalls, {lru, inUse}`next, {lru, inUse}`prev
      modifies Live(state)`next, Live(state)`prev, Live(state)`refs, Live(state)`inCache
      ensures Valid() && state == CacheSpec.Erase(old(state), tag)
      ensures erased == (e != null)
    {
      ghost var s := state;
      EraseSteps(s, tag);
      EraseKeeps(s, tag);
      Retable(s.table - {tag});
      erased := Finish(e);
    }

    method TableInsert(e: Handle<V>) returns (displaced: Handle?<V>)
      requires Consistent() && table.Valid() && e !in table.nodes
      modifies table, table.list, table.nodes`nextHash, e`nextHash
      ensures Consistent() && displaced == Found(old(table.table), TagOf(e))
      ensures table.Valid() && table.table == old(table.table)[TagOf(e) := e]
      ensures table.nodes <= old(table.nodes) + {e} && (table.list == old(table.list) || fresh(table.list))
    {
      displaced := InsertInto(table, e, lru, inUse, state);
    }

    /** The cache takes its reference to a new entry. */
    method AppendNew(e: Handle<V>)
      requires Consistent() && RingsOk(state) && !IsKnown(state, e) && e != lru && e != inUse
      requires e.refs == 1 && !e.inCache
      modifies `usage, `state, {lru, inUse}`next, {lru, inUse}`prev, Live(state)`next, Live(state)`prev
      modifies e`refs, e`inCache, e`next, e`prev
      ensures Consistent() && state == Appended(old(state), e)
    {
      ChargesAppend(state.inUse, e);
      PushNew(e, state);
      usage := usage + e.charge;
      state := Appended(state, e);
    }

    method PushNew(e: Handle<V>, ghost s: State<V>)
      requires Tracked(s) && RingsOk(s) && !IsKnown(s, e) && e != lru && e != inUse
      requires e.refs == 1 && !e.inCache
      modifies {lru, inUse}`next, {lru, inUse}`prev, Live(s)`next, Live(s)`prev, e`refs, e`inCache, e`next, e`prev
      ensures Tracked(Appended(s, e))
    {
      e.refs := e.refs + 1;
      e.inCache := true;
      RingsSwap(lru, s.lru, inUse, s.inUse);
      LruAppend(inUse, e, s.inUse, lru, s.lru);
      RingsSwap(inUse, s.inUse + [e], lru, s.lru);
      TrackedAppended(s, e);
    }

    lemma TrackedAppended(s: State<V>, e: Handle<V>)
      requires !IsKnown(s, e) && lru !in Live(s) && inUse !in Live(s) && e != lru && e != inUse
      requires Rings(lru, s.lru, inUse, s.inUse + [e])
      requires AllCounted(s) && Counted(Appended(s, e), e)
      ensures Tracked(Appended(s, e))
    {
      forall h | h in Live(s)
        ensures Counted(Appended(s, e), h)
      {
      }
    }

    /** `finish_erase` after `insert` into the table. */
    method ForgetDisplaced(displaced: Handle?<V>, e: Handle<V>, ghost s: State<V>)
      requires Consistent() && Inv(s) && !IsKnown(s, e) && s.capacity > 0
      requires state == Appended(s, e) && displaced == Found(s.table, TagOf(e))
      requires table.Valid() && table.table == state.table
      modifies `usage, `state, `deleterCalls, {lru, inUse}`next, {lru, inUse}`prev
      modifies Live(state)`next, Live(state)`prev, Live(state)`refs, Live(state)`inCache
      ensures Valid() && state == Bind(s, e)
    {
      BindSteps(s, e);
      BindKeeps(s, e);
      var erased := Finish(displaced);
    }

    /** The entry belongs to the client and to the cache. */
    method AddCached(e: Handle<V>)
      requires Valid() && !IsKnown(state, e) && e != lru && e != inUse && e !in table.nodes
      requires e.refs == 1 && !e.inCache && capacity > 0
      modifies `usage, `state, `deleterCalls, {lru, inUse}`next, {lru, inUse}`prev
      modifies Live(state)`next, Live(state)`prev, Live(state)`refs, Live(state)`inCache
      modifies table, table.list, table.nodes`nextHash, e
      ensures Valid() && state == Bind(old(state), e)
      ensures table.nodes <= old(table.nodes) + {e} && (table.list == old(table.list) || fresh(table.list))
    {
      ghost var s := state;
      AppendNew(e);
      var displaced := TableInsert(e);
      ForgetDisplaced(displaced, e, s);
    }

    /** The entry belongs to the client alone. */
    method AddUncached(e: Handle<V>)
      requires Valid() && !IsKnown(state, e) && e != lru && e != inUse
      requires e.refs == 1 && !e.inCache && capacity == 0
      modifies `state, e`next
      ensures Valid() && state == Bind(old(state), e)
    {
      e.next := null;
      BindKeeps(state, e);
      TrackedHeld(state, e);
      state := Bind(state, e);
    }

    lemma TrackedHeld(s: State<V>, e: Handle<V>)
      requires Tracked(s) && !IsKnown(s, e) && e != lru && e != inUse && s.capacity == 0
      requires e.refs == 1 && !e.inCache
      ensures Tracked(Bind(s, e))
    {
      forall h | h in Live(s)
        ensures Counted(Bind(s, e), h)
      {
        assert Counted(s, h);
      }
    }

    method Add(e: Handle<V>)
      requires Valid() && !IsKnown(state, e) && e != lru && e != inUse && e !in table.nodes
      requires e.refs == 1 && !e.inCache
      modifies `usage, `state, `deleterCalls, {lru, inUse}`next, {lru, inUse}`prev
      modifies Live(state)`next, Live(state)`prev, Live(state)`refs, Live(state)`inCache
      modifies table, table.list, table.nodes`nextHash, e
      ensures Valid() && state == Bind(old(state), e) && Live(state) <= old(Live(state)) + {e}
      ensures table.nodes <= old(table.nodes) + {e} && (table.list == old(table.list) || fresh(table.list))
    {
      LiveBound(state, e);
      if capacity > 0 {
        AddCached(e);
      } else {
        AddUncached(e);
      }
    }

    /** What the loops of `insert` and `prune` do with the oldest idle entry. */
    method EvictOldest()
      requires Valid() && state.lru != []
      modifies `usage, `state, `deleterCalls, {lru, inUse}`next, {lru, inUse}`prev
      modifies Live(state)`next, Live(state)`prev, Live(state)`refs, Live(state)`inCache
      modifies table`elems, table`chains, table`nodes, table`table, table.list, table.nodes`nextHash
      ensures Valid() && state == Forget(old(state), old(state).lru[0])
      ensures table.nodes <= old(table.nodes) && Live(state) <= old(Live(state))
    {
      RingEnds(lru, state.lru);
      var old_ := lru.next;
      assert Counted(state, old_);
      assert old_.refs == 1;
      var e := TableRemove(old_.key, old_.hash);
      var erased := ForgetRemoved(e, Tag(old_.key, old_.hash));
      assert erased;
    }

    method EvictToFit()
      requires Valid()
      modifies `usage, `state, `deleterCalls, {lru, inUse}`next, {lru, inUse}`prev
      modifies Live(state)`next, Live(state)`prev, Live(state)`refs, Live(state)`inCache
      modifies table`elems, table`chains, table`nodes, table`table, table.list, table.nodes`nextHash
      ensures Valid() && state == Evict(old(state))
      ensures table.nodes <= old(table.nodes) && Live(state) <= old(Live(state))
    {
      RingEnds(lru, state.lru);
      while usage > capacity && lru.next != lru
        invariant Valid()
        invariant Evict(state) == Evict(old(state))
        invariant Live(state) <= old(Live(state)) && table.nodes <= old(table.nodes) && table.list == old(table.list)
        invariant lru.next == lru <==> state.lru == []
        decreases |state.lru|
      {
        EvictOldest();
        RingEnds(lru, state.lru);
      }
    }

    method Insert(key: seq<byte>, hash: uint32, value: V, charge: nat) returns (e: Handle<V>)
      requires Valid()
      modifies `usage, `state, `deleterCalls, {lru, inUse}`next, {lru, inUse}`prev
      modifies Live(state)`next, Live(state)`prev, Live(state)`refs, Live(state)`inCache
      modifies table, table.list, table.nodes`nextHash
      ensures Valid() && fresh(e) && e.key == key && e.hash == hash && e.value == value && e.charge == charge
      ensures !IsKnown(old(state), e) && state == CacheSpec.Insert(old(state), e)
      ensures Live(state) <= old(Live(state)) + {e}
      ensures table.nodes <= old(table.nodes) + {e} && (table.list == old(table.list) || fresh(table.list))
    {
      e := new Handle(key, hash, value, charge);
      AddAndFit(e);
    }

    method AddAndFit(e: Handle<V>)
      requires Valid() && !IsKnown(state, e) && e != lru && e != inUse && e !in table.nodes
      requires e.refs == 1 && !e.inCache
      modifies `usage, `state, `deleterCalls, {lru, inUse}`next, {lru, inUse}`prev
      modifies Live(state)`next, Live(state)`prev, Live(state)`refs, Live(state)`inCache
      modifies table, table.list, table.nodes`nextHash, e
      ensures Valid() && state == CacheSpec.Insert(old(state), e) && Live(state) <= old(Live(state)) + {e}
      ensures table.nodes <= old(table.nodes) + {e} && (table.list == old(table.list) || fresh(table.list))
    {
      Add(e);
      EvictToFit();
    }

    method Prune()
      requires Valid()
      modifies `usage, `state, `deleterCalls, {lru, inUse}`next, {lru, inUse}`prev
      modifies Live(state)`next, Live(state)`prev, Live(state)`refs, Live(state)`inCache
      modifies table`elems, table`chains, table`nodes, table`table, table.list, table.nodes`nextHash
      ensures Valid() && state == CacheSpec.Prune(old(state))
      ensures table.nodes <= old(table.nodes) && Live(state) <= old(Live(state))
    {
      while lru.next != lru
        invariant Valid()
        invariant CacheSpec.Prune(state) == CacheSpec.Prune(old(state))
        invariant Live(state) <= old(Live(state)) && table.nodes <= old(table.nodes) && table.list == old(table.list)
        decreases |state.lru|
      {
        RingEnds(lru, state.lru);
        EvictOldest();
      }
      RingEnds(lru, state.lru);
    }

    method SetCapacity(capacity: nat)
      requires Valid()
      modifies `capacity, `state
      ensures Valid() && state == old(state).(capacity := capacity)
    {
      this.capacity := capacity;
      state := state.(capacity := capacity);
    }

    method TotalCharge() returns (r: nat)
      requires Valid()
      ensures r == Usage(state)
    {
      r := usage;
    }

    /** The destructor: all handles have been released, and the idle entries end. */
    method Destroy()
      requires Valid() && state.inUse == []
      modifies `deleterCalls, Live(state)`refs, Live(state)`inCache
      ensures deleterCalls == old(deleterCalls) + state.lru
    {
      RingEnds(inUse, state.inUse);
      assert inUse.next == inUse;
      EndAll(state);
    }

    method EndAll(ghost s: State<V>)
      requires Ring(lru, s.lru) && AllCounted(s) && RingsOk(s)
      modifies `deleterCalls, Live(s)`refs, Live(s)`inCache
      ensures deleterCalls == old(deleterCalls) + s.lru
    {
      ghost var i := 0;
      forall j | 0 <= j < |s.lru|
        ensures s.lru[j].refs == 1 && s.lru[j].inCache
      {
        assert s.lru[j] in s.lru && Counted(s, s.lru[j]);
      }
      RingEnds(lru, s.lru);
      var e := lru.next;
      while e != lru
        invariant i <= |s.lru| && e == if i < |s.lru| then s.lru[i] else lru
        invariant Ring(lru, s.lru)
        invariant forall j :: i <= j < |s.lru| ==> s.lru[j].refs == 1 && s.lru[j].inCache
        invariant deleterCalls == old(deleterCalls) + s.lru[..i]
        decreases |s.lru| - i
      {
        RingNext(lru, s.lru, i);
        var next := e.next;
        End(e);
        e := next;
        i := i + 1;
      }
    }

    /** An entry that only the cache refers to. */
    method End(e: Handle<V>)
      requires e.inCache && e.refs == 1
      modifies `deleterCalls, e`refs, e`inCache
      ensures deleterCalls == old(deleterCalls) + [e]
    {
      e.inCache := false;
      e.refs := e.refs - 1;
      if e.refs == 0 {
        deleterCalls := deleterCalls + [e];
      }
    }
  }
}
