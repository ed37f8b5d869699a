/** The clients of one cache, from its constructor to its destructor. */
module LruRuns {
  import opened Bytes
  import opened CacheSpec
  import opened CacheOrder
  import opened HandleTables
  import opened LruRings
  import opened LruCaches

  /** What a client asks for; a handle is released by its position among those that are held. */
  datatype Command<V> =
    | Put(key: seq<byte>, hash: uint32, value: V, charge: nat)
    | Get(tag: Tag)
    | GiveBack(i: nat)
    | Drop(tag: Tag)
    | DropIdle

  /** There is nothing to give back. */
  predicate Void<V(0)>(command: Command<V>, held: seq<Handle<V>>) {
    command.GiveBack? && command.i >= |held|
  }

  /** The operation that a command comes to. */
  ghost predicate Means<V(0)>(command: Command<V>, held: seq<Handle<V>>, op: Op<V>) {
    match command
    case Put(key, hash, value, charge) =>
      op.OpInsert? && op.h.key == key && op.h.hash == hash && op.h.value == value && op.h.charge == charge
    case Get(tag) => op == OpLookUp(tag)
    case GiveBack(i) => i < |held| && op == OpRelease(held[i])
    case Drop(tag) => op == OpErase(tag)
    case DropIdle => op == OpPrune
  }

  /** The handles that clients hold after it. */
  function HeldAfter<V(0)>(s: State<V>, held: seq<Handle<V>>, command: Command<V>, op: Op<V>): seq<Handle<V>> {
    match command
    case Put(_, _, _, _) => if op.OpInsert? then held + [op.h] else held
    case Get(tag) => if tag in s.table then held + [s.table[tag]] else held
    case GiveBack(i) => if i < |held| then Removed(held, i) else held
    case _ => held
  }

  /** `ops` are the operations that the commands come to, one after the other. */
  ghost predicate Follows<V(0)>(s: State<V>, held: seq<Handle<V>>, commands: seq<Command<V>>, ops: seq<Op<V>>)
    decreases |commands|
  {
    if commands == [] then ops == []
    else if Void(commands[0], held) then Follows(s, held, commands[1..], ops)
    else
      && ops != [] && Means(commands[0], held, ops[0])
      && Follows(Do(s, ops[0]), HeldAfter(s, held, commands[0], ops[0]), commands[1..], ops[1..])
  }

  lemma RemovedMultiset<T>(s: seq<T>, i: nat)
    requires i < |s|
    ensures multiset(Removed(s, i)) == multiset(s) - multiset{s[i]}
  {
    assert s == s[..i] + ([s[i]] + s[i + 1..]);
  }

  lemma InsertClients<V(0)>(s: State<V>, h: Handle<V>)
    requires Inv(s) && !IsKnown(s, h)
    ensures Insert(s, h).clients == s.clients + multiset{h}
  {
    BindKeeps(s, h);
    var n := EvictDrops(Bind(s, h));
  }

  lemma LookUpClients<V(0)>(s: State<V>, held: seq<Handle<V>>, tag: Tag)
    requires multiset(held) == s.clients
    ensures LookUp(s, tag).clients == multiset(if tag in s.table then held + [s.table[tag]] else held)
  {
  }

  lemma ReleaseClients<V(0)>(s: State<V>, held: seq<Handle<V>>, i: nat)
    requires multiset(held) == s.clients && i < |held|
    ensures Unref(s, held[i]).clients == multiset(Removed(held, i))
  {
    RemovedMultiset(held, i);
  }

  lemma EraseClients<V(0)>(s: State<V>, tag: Tag)
    ensures Erase(s, tag).clients == s.clients
  {
  }

  /** The clients hold what they were given and have not given back. */
  lemma HeldIsClients<V(0)>(s: State<V>, held: seq<Handle<V>>, command: Command<V>, op: Op<V>)
    requires Inv(s) && multiset(held) == s.clients && Means(command, held, op) && CanDo(s, op)
    ensures multiset(HeldAfter(s, held, command, op)) == Do(s, op).clients
  {
    match command
    case Put(_, _, _, _) => InsertClients(s, op.h);
    case Get(tag) => LookUpClients(s, held, tag);
    case GiveBack(i) => ReleaseClients(s, held, i);
    case Drop(tag) => EraseClients(s, tag);
    case DropIdle => PruneDrops(s);
  }

  method Ask<V(0)>(cache: LruCache<V>, held: seq<Handle<V>>, command: Command<V>) returns (held': seq<Handle<V>>, ghost op: Op<V>)
    requires cache.Valid() && multiset(held) == cache.state.clients && !Void(command, held)
    modifies cache, cache.lru, cache.inUse, Live(cache.state), cache.table, cache.table.list
    ensures cache.Valid() && Means(command, held, op) && CanDo(old(cache.state), op)
    ensures cache.state == Do(old(cache.state), op) && held' == HeldAfter(old(cache.state), held, command, op)
    ensures fresh(Live(cache.state) - old(Live(cache.state)))
    ensures cache.table.list == old(cache.table.list) || fresh(cache.table.list)
  {
    match command
    case Put(key, hash, value, charge) =>
      var h := AskPut(cache, key, hash, value, charge);
      held', op := held + [h], OpInsert(h);
    case Get(tag) =>
      held' := AskGet(cache, held, tag);
      op := OpLookUp(tag);
    case _ =>
      held', op := AskLess(cache, held, command);
  }

  /** The commands that hand out nothing. */
  method AskLess<V(0)>(cache: LruCache<V>, held: seq<Handle<V>>, command: Command<V>) returns (held': seq<Handle<V>>, ghost op: Op<V>)
    requires cache.Valid() && multiset(held) == cache.state.clients && !Void(command, held)
    requires !command.Put? && !command.Get?
    modifies cache, cache.lru, cache.inUse, Live(cache.state), cache.table, cache.table.list
    ensures cache.Valid() && Means(command, held, op) && CanDo(old(cache.state), op)
    ensures cache.state == Do(old(cache.state), op) && held' == HeldAfter(old(cache.state), held, command, op)
    ensures Live(cache.state) <= old(Live(cache.state))
    ensures cache.table.list == old(cache.table.list)
  {
    match command
    case GiveBack(i) =>
      op := OpRelease(held[i]);
      AskBack(cache, held[i]);
      held' := held[..i] + held[i + 1..];
    case Drop(tag) =>
      AskDrop(cache, tag);
      held', op := held, OpErase(tag);
    case DropIdle =>
      AskPrune(cache);
      held', op := held, OpPrune;
  }

  /** The hash table has only entries that are alive. */
  lemma NodesAreLive<V(0)>(cache: LruCache<V>)
    requires cache.Valid()
    ensures cache.table.nodes <= Live(cache.state)
  {
    forall h | h in cache.table.nodes
      ensures h in Live(cache.state)
    {
      assert TagOf(h) in cache.state.table;
    }
  }

  method AskPut<V(0)>(cache: LruCache<V>, key: seq<byte>, hash: uint32, value: V, charge: nat) returns (h: Handle<V>)
    requires cache.Valid()
    modifies cache, cache.lru, cache.inUse, Live(cache.state), cache.table, cache.table.list
    ensures cache.Valid() && h.key == key && h.hash == hash && h.value == value && h.charge == charge
    ensures !IsKnown(old(cache.state), h) && cache.state == Do(old(cache.state), OpInsert(h))
    ensures fresh(Live(cache.state) - old(Live(cache.state)))
    ensures cache.table.list == old(cache.table.list) || fresh(cache.table.list)
  {
    NodesAreLive(cache);
    h := cache.Insert(key, hash, value, charge);
  }

  method AskGet<V(0)>(cache: LruCache<V>, held: seq<Handle<V>>, tag: Tag) returns (held': seq<Handle<V>>)
    requires cache.Valid()
    modifies cache, cache.lru, cache.inUse, Live(cache.state)
    ensures cache.Valid() && held' == HeldAfter(old(cache.state), held, Get(tag), OpLookUp(tag))
    ensures cache.state == Do(old(cache.state), OpLookUp(tag)) && Live(cache.state) == old(Live(cache.state))
  {
    var h := cache.LookUp(tag.key, tag.hash);
    held' := if h == null then held else held + [h];
  }

  method AskBack<V(0)>(cache: LruCache<V>, h: Handle<V>)
    requires cache.Valid() && h in cache.state.clients
    modifies cache, cache.lru, cache.inUse, Live(cache.state)
    ensures cache.Valid() && cache.state == Do(old(cache.state), OpRelease(h)) && Live(cache.state) <= old(Live(cache.state))
  {
    cache.Release(h);
  }

  method AskDrop<V(0)>(cache: LruCache<V>, tag: Tag)
    requires cache.Valid()
    modifies cache, cache.lru, cache.inUse, Live(cache.state), cache.table, cache.table.list
    ensures cache.Valid() && cache.state == Do(old(cache.state), OpErase(tag)) && Live(cache.state) <= old(Live(cache.state))
    ensures cache.table.list == old(cache.table.list)
  {
    NodesAreLive(cache);
    var erased := cache.Erase(tag.key, tag.hash);
  }

  method AskPrune<V(0)>(cache: LruCache<V>)
    requires cache.Valid()
    modifies cache, cache.lru, cache.inUse, Live(cache.state), cache.table, cache.table.list
    ensures cache.Valid() && cache.state == Do(old(cache.state), OpPrune) && Live(cache.state) <= old(Live(cache.state))
    ensures cache.table.list == old(cache.table.list)
  {
    NodesAreLive(cache);
    cache.Prune();
  }

  method Obey<V(0)>(cache: LruCache<V>, held: seq<Handle<V>>, command: Command<V>) returns (held': seq<Handle<V>>, ghost op: Op<V>)
    requires cache.Valid() && multiset(held) == cache.state.clients && !Void(command, held)
    modifies cache, cache.lru, cache.inUse, Live(cache.state), cache.table, cache.table.list
    ensures cache.Valid() && Means(command, held, op) && CanDo(old(cache.state), op)
    ensures cache.state == Do(old(cache.state), op) && held' == HeldAfter(old(cache.state), held, command, op)
    ensures multiset(held') == cache.state.clients
    ensures fresh(Live(cache.state) - old(Live(cache.state)))
    ensures cache.table.list == old(cache.table.list) || fresh(cache.table.list)
  {
    ghost var s := cache.state;
    held', op := Ask(cache, held, command);
    HeldIsClients(s, held, command, op);
  }

  /** The operations that the commands come to lead from `s` to `s'`. */
  ghost predicate Leads<V(0)>(s: State<V>, held: seq<Handle<V>>, commands: seq<Command<V>>, ops: seq<Op<V>>, s': State<V>) {
    Follows(s, held, commands, ops) && CanRun(s, ops) && s' == Run(s, ops)
  }

  lemma LeadsMore<V(0)>(s: State<V>, held: seq<Handle<V>>, commands: seq<Command<V>>, op: Op<V>, ops: seq<Op<V>>, s': State<V>)
    requires commands != [] && !Void(commands[0], held) && Means(commands[0], held, op) && CanDo(s, op)
    requires Leads(Do(s, op), HeldAfter(s, held, commands[0], op), commands[1..], ops, s')
    ensures Leads(s, held, commands, [op] + ops, s')
  {
    assert ([op] + ops)[1..] == ops;
  }

  /** Any commands, one after the other. */
  method Serve<V(0)>(cache: LruCache<V>, held: seq<Handle<V>>, commands: seq<Command<V>>)
    returns (held': seq<Handle<V>>, ghost ops: seq<Op<V>>)
    requires cache.Valid() && multiset(held) == cache.state.clients
    modifies cache, cache.lru, cache.inUse, Live(cache.state), cache.table, cache.table.list
    ensures cache.Valid() && multiset(held') == cache.state.clients
    ensures Leads(old(cache.state), held, commands, ops, cache.state)
    ensures fresh(Live(cache.state) - old(Live(cache.state)))
    ensures cache.table.list == old(cache.table.list) || fresh(cache.table.list)
    decreases |commands|
  {
    if commands == [] {
      return held, [];
    }
    if Void(commands[0], held) {
      held', ops := Serve(cache, held, commands[1..]);
    } else {
      held', ops := ServeOneMore(cache, held, commands);
    }
  }

  method ServeOneMore<V(0)>(cache: LruCache<V>, held: seq<Handle<V>>, commands: seq<Command<V>>)
    returns (held': seq<Handle<V>>, ghost ops: seq<Op<V>>)
    requires cache.Valid() && multiset(held) == cache.state.clients
    requires commands != [] && !Void(commands[0], held)
    modifies cache, cache.lru, cache.inUse, Live(cache.state), cache.table, cache.table.list
    ensures cache.Valid() && multiset(held') == cache.state.clients
    ensures Leads(old(cache.state), held, commands, ops, cache.state)
    ensures fresh(Live(cache.state) - old(Live(cache.state)))
    ensures cache.table.list == old(cache.table.list) || fresh(cache.table.list)
    decreases |commands|, 0
  {
    ghost var s := cache.state;
    var more, op := Obey(cache, held, commands[0]);
    held', ops := Serve(cache, more, commands[1..]);
    LeadsMore(s, held, commands, op, ops, cache.state);
    ops := [op] + ops;
  }

  method NewCache<V(0)>(capacity: nat) returns (cache: LruCache<V>)
    ensures cache.Valid() && cache.state == Empty(capacity)
    ensures fresh(cache) && fresh(cache.lru) && fresh(cache.inUse)
    ensures fresh(cache.table) && fresh(cache.table.list)
  {
    cache := new LruCache();
    cache.SetCapacity(capacity);
  }

  /** Every entry that was inserted is alive or had its deleter called once; one that is alive counts its handles and the cache's reference. */
  ghost predicate Accounted<V(0)>(cache: LruCache<V>, held: seq<Handle<V>>, ops: seq<Op<V>>)
    reads cache, Live(cache.state)
  {
    && Distinct(cache.deleterCalls)
    && (forall op :: op in ops && op.OpInsert? ==> op.h in cache.deleterCalls || op.h in Live(cache.state))
    && (forall x :: x in cache.deleterCalls ==> OpInsert(x) in ops)
    && (forall x :: x in Live(cache.state) ==> OpInsert(x) in ops && x !in cache.deleterCalls)
    && (forall x :: x in Live(cache.state) ==> 0 < x.refs == multiset(held)[x] + if x.inCache then 1 else 0)
  }

  lemma CountsOfLive<V(0)>(cache: LruCache<V>, held: seq<Handle<V>>)
    requires cache.Valid() && multiset(held) == cache.state.clients
    ensures forall x :: x in Live(cache.state) ==> 0 < x.refs == multiset(held)[x] + if x.inCache then 1 else 0
  {
    forall x | x in Live(cache.state)
      ensures Counted(cache.state, x)
    {
    }
  }

  lemma RunIsAccounted<V(0)>(cache: LruCache<V>, capacity: nat, held: seq<Handle<V>>, ops: seq<Op<V>>)
    requires cache.Valid() && multiset(held) == cache.state.clients
    requires CanRun(Empty(capacity), ops) && cache.state == Run(Empty(capacity), ops)
    ensures Accounted(cache, held, ops)
  {
    CountsOfLive(cache, held);
    Lifetimes(capacity, ops);
  }

  /** A new cache and any commands: it ends as the run of the operations says, with its idle entries in the order of their last release. */
  method RunCommands<V(0)>(capacity: nat, commands: seq<Command<V>>)
    returns (cache: LruCache<V>, held: seq<Handle<V>>, ghost ops: seq<Op<V>>)
    ensures fresh(cache) && cache.Valid() && multiset(held) == cache.state.clients
    ensures Follows(Empty(capacity), [], commands, ops) && CanRun(Empty(capacity), ops)
    ensures cache.state == Run(Empty(capacity), ops) && cache.deleterCalls == cache.state.deleted
    ensures Accounted(cache, held, ops) && Ring(cache.lru, cache.state.lru) && ByRelease(ops, cache.state.lru)
  {
    cache := NewCache(capacity);
    held, ops := Serve(cache, [], commands);
    IdleByRelease(capacity, ops);
    RunIsAccounted(cache, capacity, held, ops);
  }

  // ----- To the destructor

  /** Releases that lead from `s` to `s'`. */
  ghost predicate Releases<V(0)>(s: State<V>, ops: seq<Op<V>>, s': State<V>) {
    CanRun(s, ops) && s' == Run(s, ops) && forall op :: op in ops ==> op.OpRelease?
  }

  lemma ReleasesMore<V(0)>(s: State<V>, op: Op<V>, ops: seq<Op<V>>, s': State<V>)
    requires op.OpRelease? && CanDo(s, op) && Releases(Do(s, op), ops, s')
    ensures Releases(s, [op] + ops, s')
  {
    assert ([op] + ops)[1..] == ops;
  }

  method GiveAllBack<V(0)>(cache: LruCache<V>, held: seq<Handle<V>>) returns (ghost ops: seq<Op<V>>)
    requires cache.Valid() && multiset(held) == cache.state.clients
    modifies cache, cache.lru, cache.inUse, Live(cache.state), cache.table, cache.table.list
    ensures cache.Valid() && cache.state.clients == multiset{} && Releases(old(cache.state), ops, cache.state)
    ensures fresh(Live(cache.state) - old(Live(cache.state)))
    decreases |held|
  {
    ops := [];
    if held != [] {
      ghost var s := cache.state;
      var more, op := AskLess(cache, held, GiveBack(0));
      HeldIsClients(s, held, GiveBack(0), op);
      ops := GiveAllBack(cache, more);
      ReleasesMore(s, op, ops, cache.state);
      ops := [op] + ops;
    }
  }

  /** When all handles are given back, deleted and idle entries are all that was inserted. */
  lemma NothingLeft<V(0)>(capacity: nat, ops: seq<Op<V>>, s: State<V>, releases: seq<Op<V>>, s': State<V>)
    requires CanRun(Empty(capacity), ops) && s == Run(Empty(capacity), ops)
    requires Releases(s, releases, s') && s'.clients == multiset{}
    ensures s'.inUse == [] && Distinct(s'.deleted + s'.lru)
    ensures forall x :: OpInsert(x) in ops <==> x in s'.deleted + s'.lru
  {
    RunKeeps(Empty(capacity), ops);
    RunKeeps(s, releases);
    assert multiset(s'.inUse) == multiset{};
    DistinctConcat(s'.deleted, s'.lru);
  }

  /** The whole life of a cache: the deleter of each entry that was inserted runs, and runs once. */
  method WholeLife<V(0)>(capacity: nat, commands: seq<Command<V>>) returns (cache: LruCache<V>, ghost ops: seq<Op<V>>)
    ensures Follows(Empty(capacity), [], commands, ops)
    ensures Distinct(cache.deleterCalls)
    ensures forall op :: op in ops && op.OpInsert? ==> op.h in cache.deleterCalls
    ensures forall x :: x in cache.deleterCalls ==> OpInsert(x) in ops
  {
    cache := NewCache(capacity);
    var held;
    held, ops := Serve(cache, [], commands);
    ghost var s := cache.state;
    ghost var releases := GiveAllBack(cache, held);
    NothingLeft(capacity, ops, s, releases, cache.state);
    cache.Destroy();
  }
}
