/** The sharded cache of src/leveldb/cache.cc: sixteen caches, of which the top four bits of the hash choose one. */
module ShardedCaches {
  import opened Bytes
  import opened Bits
  import opened CacheSpec

  const NUM_SHARDS: nat := 16

  const NUM_SHARD_BITS: nat := 4

  lemma TopBits(hash: uint32, k: nat)
    requires k == 32 - NUM_SHARD_BITS
    ensures ShiftRight(hash, k) == hash / 0x1000_0000 < NUM_SHARDS
  {
    ShiftRightIsQuotient(hash, k);
    Pow2Width28();
  }

  lemma Pow2Width28()
    ensures Pow2(28) == 0x1000_0000
  {
    assert Pow2(8) == 0x100;
    assert Pow2(16) == 0x1_0000;
    assert Pow2(24) == 0x100_0000;
  }

  /** The top bits of a hash. */
  function Shard(hash: uint32): (s: nat)
    ensures s < NUM_SHARDS
    ensures s == hash / 0x1000_0000
  {
    TopBits(hash, 32 - NUM_SHARD_BITS);
    ShiftRight(hash, 32 - NUM_SHARD_BITS)
  }

  type Shards<!V(0)> = ss: seq<State<V>> | |ss| == NUM_SHARDS witness seq(NUM_SHARDS, _ => Empty(0))

  function PerShard(capacity: nat): nat {
    (capacity + (NUM_SHARDS - 1)) / NUM_SHARDS
  }

  function New<V(0)>(capacity: nat): Shards<V> {
    seq(NUM_SHARDS, _ => Empty(PerShard(capacity)))
  }

  /** `prune` goes to all shards, any other operation to the shard of its hash. */
  predicate Concerns<V(0)>(op: Op<V>, s: nat) {
    match op
    case OpInsert(h) => Shard(h.hash) == s
    case OpLookUp(tag) => Shard(tag.hash) == s
    case OpRelease(h) => Shard(h.hash) == s
    case OpErase(tag) => Shard(tag.hash) == s
    case OpPrune => true
  }

  predicate CanDoSharded<V(0)>(ss: Shards<V>, op: Op<V>) {
    forall s :: 0 <= s < NUM_SHARDS && Concerns(op, s) ==> CanDo(ss[s], op)
  }

  function DoSharded<V(0)>(ss: Shards<V>, op: Op<V>): Shards<V> {
    seq(NUM_SHARDS, s requires 0 <= s < NUM_SHARDS => if Concerns(op, s) then Do(ss[s], op) else ss[s])
  }

  predicate CanRunSharded<V(0)>(ss: Shards<V>, ops: seq<Op<V>>)
    decreases |ops|
  {
    ops == [] || (CanDoSharded(ss, ops[0]) && CanRunSharded(DoSharded(ss, ops[0]), ops[1..]))
  }

  function RunSharded<V(0)>(ss: Shards<V>, ops: seq<Op<V>>): Shards<V>
    decreases |ops|
  {
    if ops == [] then ss else RunSharded(DoSharded(ss, ops[0]), ops[1..])
  }

  /** The operations that shard `s` sees. */
  function Project<V(0)>(ops: seq<Op<V>>, s: nat): seq<Op<V>> {
    if ops == [] then []
    else if Concerns(ops[0], s) then [ops[0]] + Project(ops[1..], s)
    else Project(ops[1..], s)
  }

  lemma {:induction false} ProjectMembers<V(0)>(ops: seq<Op<V>>, s: nat, op: Op<V>)
    ensures op in Project(ops, s) <==> op in ops && Concerns(op, s)
  {
    if ops != [] {
      ProjectMembers(ops[1..], s, op);
      assert op in ops <==> op == ops[0] || op in ops[1..];
    }
  }

  /** Shards do not interfere: each ends as a cache of its own that only saw the operations for it. */
  lemma {:induction false} ShardsAreIndependent<V(0)>(ss: Shards<V>, ops: seq<Op<V>>, s: nat)
    requires CanRunSharded(ss, ops) && s < NUM_SHARDS
    ensures CanRun(ss[s], Project(ops, s)) && RunSharded(ss, ops)[s] == Run(ss[s], Project(ops, s))
    decreases |ops|
  {
    if ops != [] {
      ShardsAreIndependent(DoSharded(ss, ops[0]), ops[1..], s);
      if Concerns(ops[0], s) {
        assert Project(ops, s)[1..] == Project(ops[1..], s);
      }
    }
  }

  /**
   After any run, an entry that was inserted is known to the shard of its hash,
   where it is cached, held or was deleted once, and to no other shard.
   */
  lemma ShardedLifetimes<V(0)>(capacity: nat, ops: seq<Op<V>>, s: nat, x: Handle<V>)
    requires CanRunSharded(New(capacity), ops) && s < NUM_SHARDS
    ensures var shard := RunSharded(New(capacity), ops)[s];
      && Inv(shard)
      && (IsKnown(shard, x) <==> OpInsert(x) in ops && Shard(x.hash) == s)
  {
    ShardsAreIndependent(New(capacity), ops, s);
    RunKeeps(Empty(PerShard(capacity)), Project(ops, s));
    ProjectMembers(ops, s, OpInsert(x));
  }

  /** total_charge */
  function TotalCharge<V(0)>(ss: seq<State<V>>): nat {
    if ss == [] then 0 else Usage(ss[0]) + TotalCharge(ss[1..])
  }

  lemma {:induction false} TotalOfFitting<V(0)>(ss: seq<State<V>>, perShard: nat)
    requires forall s :: 0 <= s < |ss| ==> Usage(ss[s]) <= perShard
    ensures TotalCharge(ss) <= |ss| * perShard
  {
    if ss != [] {
      TotalOfFitting(ss[1..], perShard);
      assert |ss| * perShard == (|ss| - 1) * perShard + perShard;
    }
  }

  /** The shards together have the capacity asked for; if each keeps to its own, the whole exceeds it by fifteen at most. */
  lemma CapacityIsShared<V(0)>(capacity: nat, ss: Shards<V>)
    requires forall s :: 0 <= s < NUM_SHARDS ==> Usage(ss[s]) <= PerShard(capacity)
    ensures TotalCharge(ss) < capacity + NUM_SHARDS
    ensures capacity <= NUM_SHARDS * PerShard(capacity)
  {
    TotalOfFitting(ss, PerShard(capacity));
  }
}
