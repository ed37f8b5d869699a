/** The sharded cache of src/leveldb/cache.cc as sixteen cache objects, and any commands of its clients. */
module ShardedRuns {
  import opened Bytes
  import opened CacheSpec
  import opened HandleTables
  import opened LruCaches
  import opened LruRuns
  import opened ShardedCaches

  /** The objects that make up one cache. */
  ghost function Footprint<V(0)>(c: LruCache<V>): set<object>
    reads c, c.table
  {
    {c, c.lru, c.inUse, c.table, c.table.list} + (set h | h in Live(c.state) :: h as object)
  }

  ghost predicate Good<V(0)>(c: LruCache<V>)
    reads Footprint(c)
  {
    c.table.nodes <= Live(c.state) && c.Valid()
  }

  /** One command to one shard, which holds the handle that is given back. */
  method OneShard<V(0)>(c: LruCache<V>, held: seq<Handle<V>>, command: Command<V>) returns (held': seq<Handle<V>>, ghost op: Op<V>)
    requires Good(c) && !Void(command, held)
    requires command.GiveBack? ==> held[command.i] in c.state.clients
    modifies Footprint(c)
    ensures Good(c) && Means(command, held, op) && CanDo(old(c.state), op)
    ensures c.state == Do(old(c.state), op) && held' == HeldAfter(old(c.state), held, command, op)
    ensures fresh(Footprint(c) - old(Footprint(c)))
  {
    match command {
      case Put(key, hash, value, charge) =>
        var h := AskPut(c, key, hash, value, charge);
        held', op := held + [h], OpInsert(h);
      case Get(tag) =>
        held' := AskGet(c, held, tag);
        op := OpLookUp(tag);
      case _ =>
        held', op := OneShardLess(c, held, command);
    }
    NodesAreLive(c);
  }

  method OneShardLess<V(0)>(c: LruCache<V>, held: seq<Handle<V>>, command: Command<V>) returns (held': seq<Handle<V>>, ghost op: Op<V>)
    requires c.Valid() && !Void(command, held) && !command.Put? && !command.Get?
    requires command.GiveBack? ==> held[command.i] in c.state.clients
    modifies c, c.lru, c.inUse, Live(c.state), c.table, c.table.list
    ensures c.Valid() && Means(command, held, op) && CanDo(old(c.state), op)
    ensures c.state == Do(old(c.state), op) && held' == HeldAfter(old(c.state), held, command, op)
    ensures Live(c.state) <= old(Live(c.state)) && c.table.list == old(c.table.list)
  {
    match command
    case GiveBack(i) =>
      op := OpRelease(held[i]);
      AskBack(c, held[i]);
      held' := held[..i] + held[i + 1..];
    case Drop(tag) =>
      AskDrop(c, tag);
      held', op := held, OpErase(tag);
    case DropIdle =>
      AskPrune(c);
      held', op := held, OpPrune;
  }

  // ----- Many shards

  /** A command to one cache leaves others alone: what is said of their own objects stays as it was. */
  method Beside<V(0)>(c: LruCache<V>, ghost others: set<LruCache<V>>, ghost p: LruCache<V> ~> bool, ghost avoid: set<object>,
                      held: seq<Handle<V>>, command: Command<V>)
    returns (held': seq<Handle<V>>, ghost op: Op<V>)
    requires Good(c) && !Void(command, held)
    requires command.GiveBack? ==> held[command.i] in c.state.clients
    requires forall d :: d in others ==> p.requires(d) && p.reads(d) !! Footprint(c) && p(d)
    modifies Footprint(c)
    ensures Good(c) && Means(command, held, op) && CanDo(old(c.state), op)
    ensures c.state == Do(old(c.state), op) && held' == HeldAfter(old(c.state), held, command, op)
    ensures fresh(Footprint(c) - old(Footprint(c))) && (Footprint(c) - old(Footprint(c))) !! avoid
    ensures forall d :: d in others ==> p.requires(d) && p(d)
  {
    held', op := OneShard(c, held, command);
  }

  ghost predicate AllGood<V(0)>(shards: seq<LruCache<V>>)
    reads set i, o | 0 <= i < |shards| && o in Footprint(shards[i]) :: o
  {
    forall i :: 0 <= i < |shards| ==> Good(shards[i])
  }

  ghost function Footprints<V(0)>(shards: seq<LruCache<V>>): (fs: seq<set<object>>)
    reads shards, set i | 0 <= i < |shards| :: shards[i].table
    ensures |fs| == |shards| && forall i :: 0 <= i < |fs| ==> fs[i] == Footprint(shards[i])
  {
    seq(|shards|, i requires 0 <= i < |shards| reads shards, (set i | 0 <= i < |shards| :: shards[i].table) => Footprint(shards[i]))
  }

  predicate Apart<T>(fs: seq<set<T>>) {
    forall i, j :: 0 <= i < j < |fs| ==> fs[i] !! fs[j]
  }

  /** No object belongs to two shards. */
  ghost predicate Disjoint<V(0)>(shards: seq<LruCache<V>>)
    reads shards, set i | 0 <= i < |shards| :: shards[i].table
  {
    Apart(Footprints(shards))
  }

  /** One of the sets takes in what belongs to none. */
  lemma StillApart<T>(fs: seq<set<T>>, fs': seq<set<T>>, s: nat, all: set<T>)
    requires Apart(fs) && s < |fs| == |fs'|
    requires forall i :: 0 <= i < |fs| ==> fs[i] <= all
    requires (fs'[s] - fs[s]) !! all
    requires forall i :: 0 <= i < |fs| && i != s ==> fs'[i] == fs[i]
    ensures Apart(fs')
  {
    forall i, j | 0 <= i < j < |fs'|
      ensures fs'[i] !! fs'[j]
    {
      assert fs[i] !! fs[j];
      assert fs[i] <= all && fs[j] <= all;
    }
  }

  lemma Updated<T>(ss: seq<T>, ss': seq<T>, s: nat, x: T)
    requires s < |ss| == |ss'| && ss'[s] == x
    requires forall i :: 0 <= i < |ss| && i != s ==> ss'[i] == ss[i]
    ensures ss' == ss[s := x]
  {
  }

  ghost function States<V(0)>(shards: seq<LruCache<V>>): (ss: seq<State<V>>)
    reads shards
    ensures |ss| == |shards| && forall i :: 0 <= i < |ss| ==> ss[i] == shards[i].state
  {
    seq(|shards|, i requires 0 <= i < |shards| reads shards => shards[i].state)
  }

  lemma DisjointFrom<V(0)>(shards: seq<LruCache<V>>, s: nat, i: nat)
    requires Disjoint(shards) && s < |shards| && i < |shards| && i != s
    ensures Footprint(shards[i]) !! Footprint(shards[s])
  {
    var fs := Footprints(shards);
    assert fs[i] !! fs[s];
  }

  /** A command to shard `s`. */
  method OnShard<V(0)>(shards: seq<LruCache<V>>, s: nat, ghost avoid: set<object>, held: seq<Handle<V>>, command: Command<V>)
    returns (held': seq<Handle<V>>, ghost op: Op<V>)
    requires s < |shards| && !Void(command, held) && AllGood(shards)
    requires forall i :: 0 <= i < |shards| && i != s ==> Footprint(shards[i]) !! Footprint(shards[s])
    requires command.GiveBack? ==> held[command.i] in shards[s].state.clients
    modifies Footprint(shards[s])
    ensures AllGood(shards) && Means(command, held, op) && CanDo(old(shards[s].state), op)
    ensures shards[s].state == Do(old(shards[s].state), op)
    ensures held' == HeldAfter(old(shards[s].state), held, command, op)
    ensures fresh(Footprint(shards[s]) - old(Footprint(shards[s]))) && (Footprint(shards[s]) - old(Footprint(shards[s]))) !! avoid
  {
    ghost var others := set i | 0 <= i < |shards| && i != s :: shards[i];
    ghost var p := (d: LruCache<V>) reads Footprint(d) => Good(d);
    held', op := Beside(shards[s], others, p, avoid, held, command);
    forall i | 0 <= i < |shards|
      ensures Good(shards[i])
    {
      if i != s {
        assert shards[i] in others;
        assert p(shards[i]);
      }
    }
  }

  /** The others keep their objects and states. */
  method OnShardKeeping<V(0)>(shards: seq<LruCache<V>>, s: nat, ghost avoid: set<object>, held: seq<Handle<V>>, command: Command<V>)
    returns (held': seq<Handle<V>>, ghost op: Op<V>)
    requires s < |shards| && !Void(command, held) && AllGood(shards)
    requires forall i :: 0 <= i < |shards| && i != s ==> Footprint(shards[i]) !! Footprint(shards[s])
    requires command.GiveBack? ==> held[command.i] in shards[s].state.clients
    modifies Footprint(shards[s])
    ensures AllGood(shards) && Means(command, held, op) && CanDo(old(shards[s].state), op)
    ensures shards[s].state == Do(old(shards[s].state), op)
    ensures held' == HeldAfter(old(shards[s].state), held, command, op)
    ensures fresh(Footprint(shards[s]) - old(Footprint(shards[s]))) && (Footprint(shards[s]) - old(Footprint(shards[s]))) !! avoid
    ensures forall i :: 0 <= i < |shards| && i != s ==> Footprint(shards[i]) == old(Footprint(shards[i])) && shards[i].state == old(shards[i].state)
  {
    held', op := OnShard(shards, s, avoid, held, command);
  }

  /** All objects of all shards are in `region`. */
  ghost predicate Inside<V(0)>(shards: seq<LruCache<V>>, region: set<object>)
    reads shards, set i | 0 <= i < |shards| :: shards[i].table
  {
    forall i :: 0 <= i < |shards| ==> Footprint(shards[i]) <= region
  }

  /** A command to shard `s`, and what becomes of all of them. */
  method OnOne<V(0)>(shards: seq<LruCache<V>>, s: nat, ghost region: set<object>, held: seq<Handle<V>>, command: Command<V>)
    returns (held': seq<Handle<V>>, ghost op: Op<V>, ghost region': set<object>)
    requires s < |shards| && !Void(command, held) && AllGood(shards) && Disjoint(shards) && Inside(shards, region)
    requires command.GiveBack? ==> held[command.i] in shards[s].state.clients
    modifies region
    ensures AllGood(shards) && Disjoint(shards) && Inside(shards, region')
    ensures Means(command, held, op) && CanDo(old(shards[s].state), op)
    ensures States(shards) == old(States(shards))[s := Do(old(shards[s].state), op)]
    ensures held' == HeldAfter(old(shards[s].state), held, command, op)
    ensures region <= region' && fresh(region' - region)
  {
    ghost var fs, ss := Footprints(shards), States(shards);
    forall i | 0 <= i < |shards|
      ensures fs[i] <= region && (i != s ==> Footprint(shards[i]) !! Footprint(shards[s]))
    {
      if i != s {
        DisjointFrom(shards, s, i);
      }
    }
    held', op := OnShardKeeping(shards, s, region, held, command);
    region' := region + Footprint(shards[s]);
    StillApart(fs, Footprints(shards), s, region);
    Updated(ss, States(shards), s, Do(ss[s], op));
  }

  // ----- Handles

  /** Each handle that clients hold is one of its shard. */
  predicate HeldIn<V(0)>(ss: Shards<V>, held: seq<Handle<V>>) {
    forall h :: h in held ==> multiset(held)[h] <= ss[Shard(h.hash)].clients[h]
  }

  /** The shard that a command goes to; `prune` goes to all. */
  function ShardOf<V(0)>(command: Command<V>, held: seq<Handle<V>>): (s: nat)
    ensures s < NUM_SHARDS
  {
    match command
    case Put(_, hash, _, _) => Shard(hash)
    case Get(tag) => Shard(tag.hash)
    case GiveBack(i) => if i < |held| then Shard(held[i].hash) else 0
    case Drop(tag) => Shard(tag.hash)
    case DropIdle => 0
  }

  /** What a command hands out or takes back it adds to or takes from the clients' references. */
  lemma ClientsChange<V(0)>(s: State<V>, held: seq<Handle<V>>, command: Command<V>, op: Op<V>)
    requires Inv(s) && Means(command, held, op) && CanDo(s, op)
    ensures Do(s, op).clients + multiset(held) == s.clients + multiset(HeldAfter(s, held, command, op))
  {
    match command
    case Put(_, _, _, _) => InsertClients(s, op.h);
    case Get(tag) =>
    case GiveBack(i) => GivenBackClients(s, held, i);
    case Drop(tag) => EraseClients(s, tag);
    case DropIdle => PruneDrops(s);
  }

  lemma GivenBackClients<V(0)>(s: State<V>, held: seq<Handle<V>>, i: nat)
    requires i < |held| && held[i] in s.clients
    ensures Unref(s, held[i]).clients + multiset(held) == s.clients + multiset(Removed(held, i))
  {
    RemovedMultiset(held, i);
  }

  /** Only handles of its own shard change hands. */
  lemma OthersHeld<V(0)>(s: State<V>, held: seq<Handle<V>>, command: Command<V>, op: Op<V>, h: Handle<V>)
    requires Inv(s) && Means(command, held, op) && !command.DropIdle? && Shard(h.hash) != ShardOf(command, held)
    ensures multiset(HeldAfter(s, held, command, op))[h] == multiset(held)[h]
  {
    if command.GiveBack? {
      RemovedMultiset(held, command.i);
    } else if command.Get? && command.tag in s.table {
      assert TagOf(s.table[command.tag]) == command.tag;
    }
  }

  lemma HeldInAfter<V(0)>(ss: Shards<V>, held: seq<Handle<V>>, command: Command<V>, op: Op<V>, s: nat)
    requires HeldIn(ss, held) && s == ShardOf(command, held) && !command.DropIdle?
    requires Inv(ss[s]) && Means(command, held, op) && CanDo(ss[s], op)
    ensures HeldIn(ss[s := Do(ss[s], op)], HeldAfter(ss[s], held, command, op))
  {
    var held' := HeldAfter(ss[s], held, command, op);
    ClientsChange(ss[s], held, command, op);
    forall h | h in held'
      ensures multiset(held')[h] <= ss[s := Do(ss[s], op)][Shard(h.hash)].clients[h]
    {
      assert multiset(held)[h] <= ss[Shard(h.hash)].clients[h] by {
        assert h in held || multiset(held)[h] == 0;
      }
      if Shard(h.hash) != s {
        OthersHeld(ss[s], held, command, op, h);
      } else {
        assert (Do(ss[s], op).clients + multiset(held))[h] == (ss[s].clients + multiset(held'))[h];
      }
    }
  }

  /** An operation on one shard is that operation on all. */
  lemma OneIsAll<V(0)>(ss: Shards<V>, held: seq<Handle<V>>, command: Command<V>, op: Op<V>, s: nat)
    requires Means(command, held, op) && s == ShardOf(command, held) && !command.DropIdle? && CanDo(ss[s], op)
    ensures CanDoSharded(ss, op) && DoSharded(ss, op) == ss[s := Do(ss[s], op)]
  {
  }

  lemma HeldIsOfShard<V(0)>(ss: Shards<V>, held: seq<Handle<V>>, i: nat)
    requires HeldIn(ss, held) && i < |held|
    ensures held[i] in ss[Shard(held[i].hash)].clients
  {
    assert held[i] in multiset(held);
  }

  // ----- Commands to the whole

  lemma StateIsSound<V(0)>(shards: seq<LruCache<V>>, s: nat)
    requires s < |shards| && AllGood(shards)
    ensures Inv(States(shards)[s])
  {
    assert Good(shards[s]);
  }

  /** Any command but `prune`. */
  method AskOne<V(0)>(shards: seq<LruCache<V>>, ghost region: set<object>, held: seq<Handle<V>>, command: Command<V>)
    returns (held': seq<Handle<V>>, ghost op: Op<V>, ghost region': set<object>)
    requires |shards| == NUM_SHARDS && AllGood(shards) && Disjoint(shards) && Inside(shards, region)
    requires HeldIn(States(shards), held) && !Void(command, held) && !command.DropIdle?
    modifies region
    ensures AllGood(shards) && Disjoint(shards) && Inside(shards, region')
    ensures Means(command, held, op) && CanDoSharded(old(States(shards)), op)
    ensures States(shards) == DoSharded(old(States(shards)), op) && HeldIn(States(shards), held')
    ensures held' == HeldAfter(old(States(shards))[ShardOf(command, held)], held, command, op)
    ensures region <= region' && fresh(region' - region)
  {
    var s := ShardOf(command, held);
    ghost var ss := States(shards);
    if command.GiveBack? {
      HeldIsOfShard(ss, held, command.i);
    }
    StateIsSound(shards, s);
    held', op, region' := OnOne(shards, s, region, held, command);
    OneIsAll(ss, held, command, op, s);
    HeldInAfter(ss, held, command, op, s);
  }

  /** The first `n` shards have been pruned. */
  function PrunedTo<V(0)>(ss: Shards<V>, n: nat): Shards<V> {
    seq(NUM_SHARDS, i requires 0 <= i < NUM_SHARDS => if i < n then Do(ss[i], OpPrune) else ss[i])
  }

  lemma PruneNext<V(0)>(ss: Shards<V>, n: nat)
    requires n < NUM_SHARDS
    ensures PrunedTo(ss, n)[n := Do(PrunedTo(ss, n)[n], OpPrune)] == PrunedTo(ss, n + 1)
  {
  }

  lemma PrunedAll<V(0)>(ss: Shards<V>)
    ensures PrunedTo(ss, 0) == ss && PrunedTo(ss, NUM_SHARDS) == DoSharded(ss, OpPrune)
  {
  }

  method PruneOne<V(0)>(shards: seq<LruCache<V>>, s: nat, ghost region: set<object>) returns (ghost region': set<object>)
    requires s < |shards| && AllGood(shards) && Disjoint(shards) && Inside(shards, region)
    modifies region
    ensures AllGood(shards) && Disjoint(shards) && Inside(shards, region')
    ensures States(shards) == old(States(shards))[s := Do(old(States(shards))[s], OpPrune)]
    ensures region <= region' && fresh(region' - region)
  {
    var held;
    ghost var op;
    held, op, region' := OnOne(shards, s, region, [], DropIdle);
  }

  method PruneAll<V(0)>(shards: seq<LruCache<V>>, ghost region: set<object>) returns (ghost region': set<object>)
    requires |shards| == NUM_SHARDS && AllGood(shards) && Disjoint(shards) && Inside(shards, region)
    modifies region
    ensures AllGood(shards) && Disjoint(shards) && Inside(shards, region')
    ensures States(shards) == DoSharded(old(States(shards)), OpPrune)
    ensures region <= region' && fresh(region' - region)
  {
    ghost var ss := States(shards);
    region' := region;
    PrunedAll(ss);
    for s: nat := 0 to NUM_SHARDS
      invariant AllGood(shards) && Disjoint(shards) && Inside(shards, region')
      invariant States(shards) == PrunedTo(ss, s)
      invariant region <= region' && fresh(region' - region)
    {
      PruneNext(ss, s);
      region' := PruneOne(shards, s, region');
    }
  }

  function HeldBehind<V(0)>(ss: Shards<V>, held: seq<Handle<V>>, command: Command<V>, op: Op<V>): seq<Handle<V>> {
    HeldAfter(ss[ShardOf(command, held)], held, command, op)
  }

  lemma PruneHeld<V(0)>(ss: Shards<V>, held: seq<Handle<V>>)
    requires HeldIn(ss, held) && forall i :: 0 <= i < NUM_SHARDS ==> Inv(ss[i])
    ensures HeldIn(DoSharded(ss, OpPrune), held) && CanDoSharded(ss, OpPrune)
  {
    forall i | 0 <= i < NUM_SHARDS
      ensures Prune(ss[i]).clients == ss[i].clients
    {
      PruneDrops(ss[i]);
    }
  }

  /** A command of a client. */
  method AskAny<V(0)>(shards: seq<LruCache<V>>, ghost region: set<object>, held: seq<Handle<V>>, command: Command<V>)
    returns (held': seq<Handle<V>>, ghost op: Op<V>, ghost region': set<object>)
    requires |shards| == NUM_SHARDS && AllGood(shards) && Disjoint(shards) && Inside(shards, region)
    requires HeldIn(States(shards), held) && !Void(command, held)
    modifies region
    ensures AllGood(shards) && Disjoint(shards) && Inside(shards, region')
    ensures Means(command, held, op) && CanDoSharded(old(States(shards)), op)
    ensures States(shards) == DoSharded(old(States(shards)), op) && HeldIn(States(shards), held')
    ensures held' == HeldBehind(old(States(shards)), held, command, op)
    ensures region <= region' && fresh(region' - region)
  {
    if command.DropIdle? {
      forall i | 0 <= i < NUM_SHARDS
        ensures Inv(States(shards)[i])
      {
        StateIsSound(shards, i);
      }
      PruneHeld(States(shards), held);
      region' := PruneAll(shards, region);
      held', op := held, OpPrune;
    } else {
      held', op, region' := AskOne(shards, region, held, command);
    }
  }

  /** `ops` are the operations that the commands come to, and they lead from `ss` to `ss'`. */
  ghost predicate LeadsAll<V(0)>(ss: Shards<V>, held: seq<Handle<V>>, commands: seq<Command<V>>, ops: seq<Op<V>>, ss': Shards<V>) {
    FollowsAll(ss, held, commands, ops) && CanRunSharded(ss, ops) && ss' == RunSharded(ss, ops)
  }

  ghost predicate FollowsAll<V(0)>(ss: Shards<V>, held: seq<Handle<V>>, commands: seq<Command<V>>, ops: seq<Op<V>>)
    decreases |commands|
  {
    if commands == [] then ops == []
    else if Void(commands[0], held) then FollowsAll(ss, held, commands[1..], ops)
    else
      && ops != [] && Means(commands[0], held, ops[0])
      && FollowsAll(DoSharded(ss, ops[0]), HeldBehind(ss, held, commands[0], ops[0]), commands[1..], ops[1..])
  }

  lemma LeadsOneMore<V(0)>(ss: Shards<V>, held: seq<Handle<V>>, commands: seq<Command<V>>, op: Op<V>, ops: seq<Op<V>>, ss': Shards<V>)
    requires commands != [] && !Void(commands[0], held) && Means(commands[0], held, op) && CanDoSharded(ss, op)
    requires LeadsAll(DoSharded(ss, op), HeldBehind(ss, held, commands[0], op), commands[1..], ops, ss')
    ensures LeadsAll(ss, held, commands, [op] + ops, ss')
  {
    assert ([op] + ops)[1..] == ops;
  }

  /** Any commands, one after the other. */
  method ServeAll<V(0)>(shards: seq<LruCache<V>>, ghost region: set<object>, held: seq<Handle<V>>, commands: seq<Command<V>>)
    returns (held': seq<Handle<V>>, ghost ops: seq<Op<V>>)
    requires |shards| == NUM_SHARDS && AllGood(shards) && Disjoint(shards) && Inside(shards, region)
    requires HeldIn(States(shards), held)
    modifies region
    ensures AllGood(shards) && HeldIn(States(shards), held')
    ensures LeadsAll(old(States(shards)), held, commands, ops, States(shards))
    decreases |commands|
  {
    if commands == [] {
      return held, [];
    }
    if Void(commands[0], held) {
      held', ops := ServeAll(shards, region, held, commands[1..]);
    } else {
      ghost var ss, region' := States(shards), region;
      var more;
      ghost var op;
      more, op, region' := AskAny(shards, region, held, commands[0]);
      held', ops := ServeAll(shards, region', more, commands[1..]);
      LeadsOneMore(ss, held, commands, op, ops, States(shards));
      ops := [op] + ops;
    }
  }

  /** A new cache leaves others alone. */
  method NewShard<V(0)>(capacity: nat, ghost avoid: set<object>, ghost others: set<LruCache<V>>, ghost p: LruCache<V> ~> bool)
    returns (c: LruCache<V>)
    requires forall d :: d in others ==> p.requires(d) && p(d)
    ensures Good(c) && c.state == Empty(capacity) && fresh(Footprint(c)) && Footprint(c) !! avoid
    ensures forall d :: d in others ==> p.requires(d) && p(d)
  {
    c := NewCache(capacity);
    NodesAreLive(c);
  }

  method NewShardBeside<V(0)>(capacity: nat, ghost avoid: set<object>, ghost shards: seq<LruCache<V>>) returns (c: LruCache<V>)
    requires AllGood(shards)
    ensures AllGood(shards + [c]) && c.state == Empty(capacity) && fresh(Footprint(c)) && Footprint(c) !! avoid
  {
    ghost var others := set i | 0 <= i < |shards| :: shards[i];
    ghost var p := (d: LruCache<V>) reads Footprint(d) => Good(d);
    c := NewShard(capacity, avoid, others, p);
    forall i | 0 <= i < |shards|
      ensures Good(shards[i])
    {
      assert shards[i] in others;
      assert p(shards[i]);
    }
  }

  lemma ApartMore<T>(fs: seq<set<T>>, f: set<T>, all: set<T>)
    requires Apart(fs) && f !! all && forall i :: 0 <= i < |fs| ==> fs[i] <= all
    ensures Apart(fs + [f])
  {
    forall i | 0 <= i < |fs|
      ensures fs[i] !! f
    {
      assert fs[i] <= all;
    }
  }

  lemma OneShardMore<V(0)>(shards: seq<LruCache<V>>, c: LruCache<V>)
    ensures Footprints(shards + [c]) == Footprints(shards) + [Footprint(c)]
    ensures States(shards + [c]) == States(shards) + [c.state]
  {
  }

  lemma DisjointMore<V(0)>(shards: seq<LruCache<V>>, c: LruCache<V>, region: set<object>)
    requires Inside(shards, region) && Disjoint(shards) && Footprint(c) !! region
    ensures Disjoint(shards + [c]) && Inside(shards + [c], region + Footprint(c))
  {
    ApartMore(Footprints(shards), Footprint(c), region);
    OneShardMore(shards, c);
  }

  /** One more shard, apart from those that are there. */
  method AddShard<V(0)>(shards: seq<LruCache<V>>, ghost region: set<object>, capacity: nat)
    returns (shards': seq<LruCache<V>>, ghost region': set<object>)
    requires Inside(shards, region) && Disjoint(shards) && AllGood(shards)
    ensures Inside(shards', region') && Disjoint(shards') && AllGood(shards')
    ensures |shards'| == |shards| + 1 && States(shards') == States(shards) + [Empty(capacity)]
    ensures region <= region' && fresh(region' - region)
  {
    var c := NewShardBeside(capacity, region, shards);
    DisjointMore(shards, c, region);
    shards' := shards + [c];
    region' := region + Footprint(c);
    OneShardMore(shards, c);
  }

  lemma NewMore<V(0)>(capacity: nat, s: nat)
    requires s < NUM_SHARDS
    ensures New<V>(capacity)[..s] + [Empty(PerShard(capacity))] == New<V>(capacity)[..s + 1]
  {
  }

  method NewShards<V(0)>(capacity: nat) returns (shards: seq<LruCache<V>>, ghost region: set<object>)
    ensures |shards| == NUM_SHARDS && AllGood(shards) && Disjoint(shards) && Inside(shards, region)
    ensures States(shards) == New(capacity) && fresh(region)
  {
    shards, region := [], {};
    for s: nat := 0 to NUM_SHARDS
      invariant |shards| == s && AllGood(shards) && Disjoint(shards) && Inside(shards, region)
      invariant States(shards) == New(capacity)[..s] && fresh(region)
    {
      NewMore<V>(capacity, s);
      shards, region := AddShard(shards, region, PerShard(capacity));
    }
  }

  /** Each entry inserted under a hash of this shard had its deleter called, once, or is alive; there are no others. */
  ghost predicate AccountedIn<V(0)>(c: LruCache<V>, ops: seq<Op<V>>, i: nat)
    reads c
  {
    && Distinct(c.deleterCalls)
    && (forall op :: op in ops && op.OpInsert? && Shard(op.h.hash) == i ==> op.h in c.deleterCalls || op.h in Live(c.state))
    && (forall x :: x in c.deleterCalls ==> OpInsert(x) in ops && Shard(x.hash) == i && x !in Live(c.state))
    && (forall x :: x in Live(c.state) ==> OpInsert(x) in ops && Shard(x.hash) == i)
  }

  lemma ShardAccounted<V(0)>(c: LruCache<V>, capacity: nat, ops: seq<Op<V>>, i: nat)
    requires Good(c) && CanRunSharded(New(capacity), ops) && i < NUM_SHARDS && c.state == RunSharded(New(capacity), ops)[i]
    ensures AccountedIn(c, ops, i)
  {
    forall x
      ensures IsKnown(c.state, x) <==> OpInsert(x) in ops && Shard(x.hash) == i
    {
      ShardedLifetimes(capacity, ops, i, x);
    }
    ShardsAreIndependent(New(capacity), ops, i);
    RunKeeps(Empty(PerShard(capacity)), Project(ops, i));
  }

  lemma AllAccounted<V(0)>(shards: seq<LruCache<V>>, capacity: nat, ops: seq<Op<V>>)
    requires |shards| == NUM_SHARDS && AllGood(shards)
    requires CanRunSharded(New(capacity), ops) && States(shards) == RunSharded(New(capacity), ops)
    ensures forall i :: 0 <= i < NUM_SHARDS ==> AccountedIn(shards[i], ops, i)
  {
    forall i | 0 <= i < NUM_SHARDS
      ensures AccountedIn(shards[i], ops, i)
    {
      assert States(shards)[i] == shards[i].state;
      ShardAccounted(shards[i], capacity, ops, i);
    }
  }

  /** A new cache of sixteen shards and any commands. */
  method RunAllCommands<V(0)>(capacity: nat, commands: seq<Command<V>>)
    returns (shards: seq<LruCache<V>>, held: seq<Handle<V>>, ghost ops: seq<Op<V>>)
    ensures |shards| == NUM_SHARDS && AllGood(shards) && HeldIn(States(shards), held)
    ensures LeadsAll(New(capacity), [], commands, ops, States(shards))
    ensures forall i :: 0 <= i < NUM_SHARDS ==> AccountedIn(shards[i], ops, i)
  {
    ghost var region;
    shards, region := NewShards(capacity);
    held, ops := ServeAll(shards, region, [], commands);
    AllAccounted(shards, capacity, ops);
  }

  /** total_charge */
  method TotalChargeOf<V(0)>(shards: seq<LruCache<V>>) returns (total: nat)
    requires AllGood(shards)
    ensures total == TotalCharge(States(shards))
  {
    total := 0;
    for s: nat := 0 to |shards|
      invariant total == TotalCharge(States(shards)[..s])
    {
      assert Good(shards[s]);
      var n := shards[s].TotalCharge();
      TotalMore(States(shards), s);
      total := total + n;
    }
    assert States(shards)[..|shards|] == States(shards);
  }

  lemma {:induction false} TotalMore<V(0)>(ss: seq<State<V>>, s: nat)
    requires s < |ss|
    ensures TotalCharge(ss[..s + 1]) == TotalCharge(ss[..s]) + Usage(ss[s])
    decreases s
  {
    if s > 0 {
      assert ss[..s + 1][1..] == ss[1..][..s] && ss[..s][1..] == ss[1..][..s - 1];
      TotalMore(ss[1..], s - 1);
    } else {
      assert ss[..1][1..] == [];
    }
  }
}
