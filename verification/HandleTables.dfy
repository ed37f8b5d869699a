/** The hash table of src/leveldb/cache.cc: buckets of entries chained through `nextHash`. */
module HandleTables {
  import opened Bytes
  import opened Bits
  import opened CacheSpec

  /** A pointer to a link: the head of a bucket or the `nextHash` of an entry. */
  datatype Slot<!V(0)> = Bucket(i: nat) | After(node: Handle<V>)

  function At<V(0)>(chain: seq<Handle<V>>, i: nat): Handle?<V> {
    if i < |chain| then chain[i] else null
  }

  ghost predicate Link<V(0)>(chain: seq<Handle<V>>, i: nat)
    requires i < |chain|
    reads chain`nextHash
  {
    chain[i].nextHash == At(chain, i + 1)
  }

  /** The entries of a bucket, from its head on. */
  ghost predicate Chained<V(0)>(first: Handle?<V>, chain: seq<Handle<V>>)
    reads chain`nextHash
  {
    && first == At(chain, 0)
    && (forall i :: 0 <= i < |chain| ==> Link(chain, i))
  }

  /** hash & (length - 1): the bucket of a hash. */
  function Masked(hash: uint32, length: nat): (b: nat)
    requires IsPowerOfTwo(length)
    ensures b == hash % length
  {
    MaskIsRemainder(hash, length);
    BitAnd(hash, length - 1)
  }

  /** Every entry is in the bucket of its hash, once. */
  ghost predicate InBuckets<V(0)>(chains: seq<seq<Handle<V>>>) {
    forall b :: 0 <= b < |chains| ==> Distinct(chains[b]) && InBucket(chains[b], b, |chains|)
  }

  predicate InBucket<V(0)>(chain: seq<Handle<V>>, b: nat, length: nat)
    requires length > 0
  {
    forall h :: h in chain ==> h.hash % length == b
  }

  function BucketOf<V(0)>(h: Handle<V>, chains: seq<seq<Handle<V>>>): nat {
    if |chains| == 0 then 0 else h.hash % |chains|
  }

  /** The buckets together have the entries of `nodes`. */
  ghost predicate Covers<V(0)>(chains: seq<seq<Handle<V>>>, nodes: set<Handle<V>>) {
    && (forall b :: 0 <= b < |chains| ==> Within(chains[b], nodes))
    && (forall h {:trigger BucketOf(h, chains)} :: h in nodes ==> |chains| > 0 && h in chains[BucketOf(h, chains)])
  }

  ghost predicate Within<V(0)>(chain: seq<Handle<V>>, nodes: set<Handle<V>>) {
    forall h :: h in chain ==> h in nodes
  }

  /** `table` finds the entries of `nodes` by their tags. */
  ghost predicate Indexed<V(0)>(nodes: set<Handle<V>>, table: map<Tag, Handle<V>>) {
    && (forall h {:trigger TagOf(h)} :: h in nodes ==> TagOf(h) in table && table[TagOf(h)] == h)
    && (forall t :: t in table ==> table[t] in nodes && TagOf(table[t]) == t)
  }

  function Found<V(0)>(table: map<Tag, Handle<V>>, tag: Tag): Handle?<V> {
    if tag in table then table[tag] else null
  }

  function Singleton<V(0)>(h: Handle?<V>): set<Handle<V>> {
    if h == null then {} else var n: Handle<V> := h; {n}
  }

  // ----- Chains

  /** Slot `i` of a chain points to its element `i`. */
  predicate SlotAt<V(0)>(ptr: Slot<V>, b: nat, chain: seq<Handle<V>>, i: nat) {
    i <= |chain| && ptr == if i == 0 then Bucket(b) else After(chain[i - 1])
  }

  /** A chain with its element `i` replaced, or with `h` added at the end. */
  function Replaced<T>(chain: seq<T>, i: nat, h: T): seq<T>
    requires i <= |chain|
  {
    chain[..i] + [h] + (if i < |chain| then chain[i + 1..] else [])
  }

  function Removed<T>(chain: seq<T>, i: nat): seq<T>
    requires i < |chain|
  {
    chain[..i] + chain[i + 1..]
  }

  /** The stores of `insert`: `h` takes the place of element `i`, or comes last. */
  method LinkInBucket<V(0)>(list: array<Handle?<V>>, ptr: Slot<V>, h: Handle<V>, old_: Handle?<V>,
                      ghost chain: seq<Handle<V>>, ghost b: nat, ghost i: nat)
    requires b < list.Length && Chained(list[b], chain) && Distinct(chain)
    requires SlotAt(ptr, b, chain, i) && old_ == At(chain, i)
    requires h !in chain
    modifies list, chain`nextHash, h`nextHash
    ensures Chained(list[b], Replaced(chain, i, h))
    ensures forall c :: 0 <= c < list.Length && c != b ==> list[c] == old(list[c])
  {
    assert i < |chain| ==> Link(chain, i);
    h.nextHash := if old_ == null then null else old_.nextHash;
    Store(list, ptr, h);
    ghost var chain' := Replaced(chain, i, h);
    forall k | 0 <= k < |chain'|
      ensures Link(chain', k)
    {
      assert k < |chain| ==> old(Link(chain, k));
    }
  }

  ghost predicate AllChained<V(0)>(list: array<Handle?<V>>, chains: seq<seq<Handle<V>>>, nodes: set<Handle<V>>)
    reads list, nodes`nextHash
  {
    list.Length == |chains| && forall b :: 0 <= b < |chains| ==> Within(chains[b], nodes) && Chained(list[b], chains[b])
  }

  /** The entries of one bucket are in no other. */
  lemma OtherBucket<V(0)>(chains: seq<seq<Handle<V>>>, b: nat, c: nat, h: Handle<V>)
    requires InBuckets(chains) && b < |chains| && c < |chains| && b != c && h in chains[c]
    ensures h !in chains[b]
  {
  }

  method LinkIn<V(0)>(list: array<Handle?<V>>, ptr: Slot<V>, h: Handle<V>, old_: Handle?<V>,
                      ghost chains: seq<seq<Handle<V>>>, ghost nodes: set<Handle<V>>, ghost b: nat, ghost i: nat)
    requires InBuckets(chains) && AllChained(list, chains, nodes) && h !in nodes
    requires b < |chains| && SlotAt(ptr, b, chains[b], i) && old_ == At(chains[b], i)
    requires Covers(chains[b := Replaced(chains[b], i, h)], nodes - Singleton(old_) + {h})
    modifies list, chains[b]`nextHash, h`nextHash
    ensures AllChained(list, chains[b := Replaced(chains[b], i, h)], nodes - Singleton(old_) + {h})
  {
    assert Within(chains[b], nodes);
    LinkInBucket(list, ptr, h, old_, chains[b], b, i);
    ghost var chains' := chains[b := Replaced(chains[b], i, h)];
    forall c | 0 <= c < |chains|
      ensures Chained(list[c], chains'[c])
    {
      if c != b {
        assert old(Within(chains[c], nodes) && Chained(list[c], chains[c]));
        forall k | 0 <= k < |chains[c]|
          ensures Link(chains[c], k)
        {
          assert old(Link(chains[c], k));
          OtherBucket(chains, b, c, chains[c][k]);
        }
      }
    }
  }

  ghost predicate Structure<V(0)>(list: array<Handle?<V>>, chains: seq<seq<Handle<V>>>, nodes: set<Handle<V>>, table: map<Tag, Handle<V>>)
    reads list, nodes`nextHash
  {
    InBuckets(chains) && Covers(chains, nodes) && Indexed(nodes, table) && AllChained(list, chains, nodes)
  }

  /** `h` under its tag, in the place of `old_`, which has the tag if some entry has. */
  method PutAt<V(0)>(list: array<Handle?<V>>, ptr: Slot<V>, h: Handle<V>, old_: Handle?<V>,
                     ghost chains: seq<seq<Handle<V>>>, ghost nodes: set<Handle<V>>, ghost table: map<Tag, Handle<V>>, ghost i: nat)
    returns (ghost chains': seq<seq<Handle<V>>>)
    requires Structure(list, chains, nodes, table) && |chains| > 0 && h !in nodes
    requires var b := h.hash % |chains|; SlotAt(ptr, b, chains[b], i) && old_ == At(chains[b], i)
    requires old_ == Found(table, TagOf(h))
    modifies list, nodes`nextHash, h`nextHash
    ensures Structure(list, chains', nodes - Singleton(old_) + {h}, table[TagOf(h) := h])
  {
    ghost var b := h.hash % |chains|;
    ReplacedInBuckets(chains, nodes, i, h);
    IndexedReplaced(nodes, table, h);
    assert Within(chains[b], nodes);
    LinkIn(list, ptr, h, old_, chains, nodes, b, i);
    chains' := chains[b := Replaced(chains[b], i, h)];
  }

  /** An entry that is found leaves its bucket. */
  method UnlinkAt<V(0)>(list: array<Handle?<V>>, ptr: Slot<V>, h: Handle<V>,
                        ghost chains: seq<seq<Handle<V>>>, ghost nodes: set<Handle<V>>, ghost table: map<Tag, Handle<V>>, ghost i: nat)
    returns (ghost chains': seq<seq<Handle<V>>>)
    requires Structure(list, chains, nodes, table) && |chains| > 0
    requires var b := h.hash % |chains|; SlotAt(ptr, b, chains[b], i) && h == At(chains[b], i)
    modifies list, nodes`nextHash
    ensures Structure(list, chains', nodes - {h}, table - {TagOf(h)})
  {
    ghost var b := h.hash % |chains|;
    RemovedInBuckets(chains, nodes, i, h);
    assert Within(chains[b], nodes);
    Unlink(list, ptr, h, chains, nodes, b, i);
    chains' := chains[b := Removed(chains[b], i)];
  }

  method Unlink<V(0)>(list: array<Handle?<V>>, ptr: Slot<V>, h: Handle<V>,
                      ghost chains: seq<seq<Handle<V>>>, ghost nodes: set<Handle<V>>, ghost b: nat, ghost i: nat)
    requires InBuckets(chains) && AllChained(list, chains, nodes)
    requires b < |chains| && SlotAt(ptr, b, chains[b], i) && h == At(chains[b], i)
    requires Covers(chains[b := Removed(chains[b], i)], nodes - {h})
    modifies list, chains[b]`nextHash
    ensures AllChained(list, chains[b := Removed(chains[b], i)], nodes - {h})
  {
    assert Within(chains[b], nodes);
    UnlinkInBucket(list, ptr, h, chains[b], b, i);
    ghost var chains' := chains[b := Removed(chains[b], i)];
    forall c | 0 <= c < |chains|
      ensures Chained(list[c], chains'[c])
    {
      if c != b {
        assert old(Within(chains[c], nodes) && Chained(list[c], chains[c]));
        forall k | 0 <= k < |chains[c]|
          ensures Link(chains[c], k)
        {
          assert old(Link(chains[c], k));
          OtherBucket(chains, b, c, chains[c][k]);
        }
      }
    }
  }

  /** The store of `remove`. */
  method UnlinkInBucket<V(0)>(list: array<Handle?<V>>, ptr: Slot<V>, h: Handle<V>,
                              ghost chain: seq<Handle<V>>, ghost b: nat, ghost i: nat)
    requires b < list.Length && Chained(list[b], chain) && Distinct(chain)
    requires SlotAt(ptr, b, chain, i) && h == At(chain, i)
    modifies list, chain`nextHash
    ensures Chained(list[b], Removed(chain, i))
    ensures forall c :: 0 <= c < list.Length && c != b ==> list[c] == old(list[c])
  {
    assert Link(chain, i);
    Store(list, ptr, h.nextHash);
    ghost var chain' := Removed(chain, i);
    forall k | 0 <= k < |chain'|
      ensures Link(chain', k)
    {
      assert old(Link(chain, k)) && old(Link(chain, k + 1));
    }
  }

  /** *ptr = h */
  method Store<V(0)>(list: array<Handle?<V>>, ptr: Slot<V>, h: Handle?<V>)
    requires ptr.Bucket? ==> ptr.i < list.Length
    modifies list, (if ptr.After? then {ptr.node} else {})`nextHash
    ensures match ptr
      case Bucket(i) => list[..] == old(list[..])[i := h]
      case After(node) => node.nextHash == h && list[..] == old(list[..])
  {
    match ptr
    case Bucket(i) => list[i] := h;
    case After(node) => node.nextHash := h;
  }

  class HandleTable<V(0)> {
    var length: nat
    var elems: nat
    var list: array<Handle?<V>>
    ghost var chains: seq<seq<Handle<V>>>
    ghost var nodes: set<Handle<V>>
    ghost var table: map<Tag, Handle<V>>

    ghost predicate Valid()
      reads this, list, nodes`nextHash
    {
      && Sound()
      && elems <= length && IsPowerOfTwo(length)
    }

    ghost predicate Sound()
      reads this, list, nodes`nextHash
    {
      Linked() && elems == |nodes|
    }

    /** All but the count. */
    ghost predicate Linked()
      reads this, list, nodes`nextHash
    {
      length > 0 && Shaped()
    }

    /** As `Linked`, or without any buckets at all. */
    ghost predicate Shaped()
      reads this, list, nodes`nextHash
    {
      list.Length == length && Structure(list, chains, nodes, table)
    }

    /** What the link `ptr` holds. */
    function Load(ptr: Slot<V>): Handle?<V>
      requires ptr.Bucket? ==> ptr.i < list.Length
      reads this`list, list, if ptr.After? then {ptr.node} else {}
    {
      match ptr
      case Bucket(i) => list[i]
      case After(node) => node.nextHash
    }

    method FindPointer(key: seq<byte>, hash: uint32) returns (ptr: Slot<V>, ghost i: nat)
      requires Valid()
      ensures var b, chain := hash % length, chains[hash % length];
        && SlotAt(ptr, b, chain, i)
        && (i < |chain| ==> TagOf(chain[i]) == Tag(key, hash))
        && (forall j :: 0 <= j < i ==> TagOf(chain[j]) != Tag(key, hash))
      ensures (ptr.Bucket? ==> ptr.i < list.Length) && Load(ptr) == At(chains[hash % length], i)
      ensures Load(ptr) == Found(table, Tag(key, hash))
    {
      ghost var b := hash % length;
      ghost var chain := chains[b];
      assert Chained(list[b], chain);
      ptr := Bucket(Masked(hash, length));
      i := 0;
      var h := list[Masked(hash, length)];
      while h != null && (h.hash != hash || key != h.key)
        invariant SlotAt(ptr, b, chain, i) && h == At(chain, i) && Load(ptr) == h
        invariant forall j :: 0 <= j < i ==> TagOf(chain[j]) != Tag(key, hash)
        decreases |chain| - i
      {
        assert Link(chain, i);
        ptr := After(h);
        h := h.nextHash;
        i := i + 1;
      }
      FoundIsTable(Tag(key, hash), i);
    }

    method LookUp(key: seq<byte>, hash: uint32) returns (h: Handle?<V>)
      requires Valid()
      ensures h == Found(table, Tag(key, hash))
    {
      var ptr, i := FindPointer(key, hash);
      h := Load(ptr);
    }

    /** What a search finds is what the table has. */
    lemma FoundIsTable(tag: Tag, i: nat)
      requires Linked() && i <= |chains[tag.hash % length]|
      requires forall j :: 0 <= j < i ==> TagOf(chains[tag.hash % length][j]) != tag
      requires i < |chains[tag.hash % length]| ==> TagOf(chains[tag.hash % length][i]) == tag
      ensures At(chains[tag.hash % length], i) == Found(table, tag)
    {
      var chain := chains[tag.hash % length];
      if i < |chain| {
        assert chain[i] in chain;
      }
      if tag in table {
        var h := table[tag];
        assert h in chains[BucketOf(h, chains)];
      }
    }

    method Insert(h: Handle<V>) returns (old_: Handle?<V>)
      requires Valid() && h !in nodes
      modifies this, list, nodes`nextHash, h`nextHash
      ensures Valid() && (list == old(list) || fresh(list))
      ensures table == old(table)[TagOf(h) := h] && old_ == Found(old(table), TagOf(h))
      ensures nodes == old(nodes) - Singleton(old_) + {h}
    {
      old_ := Put(h);
      Count(old_ == null);
    }

    /** Another entry, if `added`; more entries than buckets call for another array. */
    method Count(added: bool)
      requires Linked() && elems <= length && IsPowerOfTwo(length)
      requires |nodes| == if added then elems + 1 else elems
      modifies `elems, `list, `length, `chains, nodes`nextHash
      ensures Valid() && (list == old(list) || fresh(list))
    {
      if added {
        elems := elems + 1;
        if elems > length {
          Resize();
        }
      }
    }

    method Remove(key: seq<byte>, hash: uint32) returns (result: Handle?<V>)
      requires Valid()
      modifies `elems, `chains, `nodes, `table, list, nodes`nextHash
      ensures Valid()
      ensures table == old(table) - {Tag(key, hash)} && result == Found(old(table), Tag(key, hash))
      ensures nodes == old(nodes) - Singleton(result)
    {
      var ptr, i := FindPointer(key, hash);
      result := Load(ptr);
      if result != null {
        TakeOut(ptr, result, i);
      }
    }

    method TakeOut(ptr: Slot<V>, h: Handle<V>, ghost i: nat)
      requires Valid() && h in nodes
      requires var chain := chains[h.hash % length]; SlotAt(ptr, h.hash % length, chain, i) && h == At(chain, i)
      modifies `elems, `chains, `nodes, `table, list, nodes`nextHash
      ensures Valid()
      ensures table == old(table) - {TagOf(h)} && nodes == old(nodes) - {h}
    {
      elems := elems - 1;
      ghost var chains' := UnlinkAt(list, ptr, h, chains, nodes, table, i);
      Adopt(chains', nodes - {h}, table - {TagOf(h)});
    }

    /** The entry under its tag, in the place of the one that had the tag. */
    method Put(h: Handle<V>) returns (old_: Handle?<V>)
      requires Valid() && h !in nodes
      modifies `chains, `nodes, `table, list, nodes`nextHash, h`nextHash
      ensures Linked() && |nodes| == if old_ == null then elems + 1 else elems
      ensures table == old(table)[TagOf(h) := h] && old_ == Found(old(table), TagOf(h))
      ensures nodes == old(nodes) - Singleton(old_) + {h}
    {
      var ptr, i := FindPointer(h.key, h.hash);
      old_ := Load(ptr);
      ghost var chains' := PutAt(list, ptr, h, old_, chains, nodes, table, i);
      Adopt(chains', nodes - Singleton(old_) + {h}, table[TagOf(h) := h]);
    }

    ghost method Adopt(chains': seq<seq<Handle<V>>>, nodes': set<Handle<V>>, table': map<Tag, Handle<V>>)
      requires list.Length == length > 0 && Structure(list, chains', nodes', table')
      modifies `chains, `nodes, `table
      ensures Linked() && chains == chains' && nodes == nodes' && table == table'
    {
      chains, nodes, table := chains', nodes', table';
    }

    method Resize()
      requires Shaped() && elems == |nodes|
      modifies `list, `length, `chains, nodes`nextHash
      ensures Valid() && fresh(list)
      ensures length >= 4 && (length > 4 ==> length / 2 < elems)
    {
      var newLength := NewLength(elems);
      var newList, count, newChains := Rehash(list, newLength, chains, nodes, table);
      assert elems == count;
      Install(newList, newLength, newChains);
    }

    method Install(newList: array<Handle?<V>>, newLength: nat, ghost newChains: seq<seq<Handle<V>>>)
      requires newList.Length == newLength > 0 && IsPowerOfTwo(newLength) && elems == |nodes| <= newLength
      requires Structure(newList, newChains, nodes, table)
      modifies `list, `length, `chains
      ensures Valid() && list == newList && length == newLength
    {
      list := newList;
      length := newLength;
      chains := newChains;
    }

    constructor ()
      ensures Valid() && table == map[] && nodes == {} && fresh(list)
    {
      length, elems := 0, 0;
      list := new Handle?<V>[0];
      chains, nodes, table := [], {}, map[];
      new;
      Resize();
    }
  }

  // ----- Moving all entries into another array

  /** The buckets so far moved to the new array. */
  ghost predicate Moved<V(0)>(list: array<Handle?<V>>, chains: seq<seq<Handle<V>>>, moved: set<Handle<V>>)
    reads list, moved`nextHash
  {
    InBuckets(chains) && Covers(chains, moved) && AllChained(list, chains, moved)
  }

  lemma PrependedInBuckets<V(0)>(chains: seq<seq<Handle<V>>>, moved: set<Handle<V>>, h: Handle<V>)
    requires InBuckets(chains) && Covers(chains, moved) && |chains| > 0 && h !in moved
    ensures var b := h.hash % |chains|;
      && InBuckets(chains[b := [h] + chains[b]])
      && Covers(chains[b := [h] + chains[b]], moved + {h})
  {
    var b := h.hash % |chains|;
    assert Within(chains[b], moved);
    forall x | x in moved
      ensures x in chains[b := [h] + chains[b]][BucketOf(x, chains)]
    {
    }
  }

  /** One entry to the front of its new bucket. */
  method MoveOne<V(0)>(list: array<Handle?<V>>, h: Handle<V>, ghost chains: seq<seq<Handle<V>>>, ghost moved: set<Handle<V>>)
    returns (ghost chains': seq<seq<Handle<V>>>)
    requires Moved(list, chains, moved) && IsPowerOfTwo(|chains|) && h !in moved
    modifies list, h`nextHash
    ensures |chains'| == |chains| && Moved(list, chains', moved + {h})
  {
    ghost var b := h.hash % |chains|;
    PrependedInBuckets(chains, moved, h);
    PrependOne(list, h, chains, moved, b);
    chains' := chains[b := [h] + chains[b]];
  }

  method PrependOne<V(0)>(list: array<Handle?<V>>, h: Handle<V>, ghost chains: seq<seq<Handle<V>>>,
                          ghost moved: set<Handle<V>>, ghost b: nat)
    requires AllChained(list, chains, moved) && h !in moved && IsPowerOfTwo(|chains|) && b == h.hash % |chains|
    requires Covers(chains[b := [h] + chains[b]], moved + {h})
    modifies list, h`nextHash
    ensures AllChained(list, chains[b := [h] + chains[b]], moved + {h})
  {
    var ptr := Masked(h.hash, list.Length);
    h.nextHash := list[ptr];
    list[ptr] := h;
    ghost var chains' := chains[b := [h] + chains[b]];
    forall c | 0 <= c < |chains|
      ensures Chained(list[c], chains'[c])
    {
      assert old(Within(chains[c], moved) && Chained(list[c], chains[c]));
      forall k | 0 <= k < |chains'[c]|
        ensures Link(chains'[c], k)
      {
        if c == b {
          assert k > 0 ==> old(Link(chains[c], k - 1));
        } else {
          assert old(Link(chains[c], k));
        }
      }
    }
  }

  /** The links of a chain from element `j` on. */
  ghost predicate Suffix<V(0)>(chain: seq<Handle<V>>, j: nat)
    reads chain`nextHash
  {
    forall k :: j <= k < |chain| ==> Link(chain, k)
  }

  /** The next entry of an old bucket moves. */
  method MoveHead<V(0)>(h: Handle<V>, list: array<Handle?<V>>, ghost chain: seq<Handle<V>>, ghost j: nat,
                        ghost chains: seq<seq<Handle<V>>>, ghost moved: set<Handle<V>>)
    returns (next: Handle?<V>, ghost chains': seq<seq<Handle<V>>>)
    requires j < |chain| && h == chain[j] && Distinct(chain) && Suffix(chain, j) && h !in moved
    requires Moved(list, chains, moved) && IsPowerOfTwo(|chains|)
    modifies list, h`nextHash
    ensures next == At(chain, j + 1) && Suffix(chain, j + 1)
    ensures |chains'| == |chains| && Moved(list, chains', moved + {h})
  {
    assert Link(chain, j);
    next := h.nextHash;
    chains' := MoveOne(list, h, chains, moved);
    forall k | j + 1 <= k < |chain|
      ensures Link(chain, k)
    {
      assert old(Link(chain, k));
    }
  }

  method MoveBucket<V(0)>(first: Handle?<V>, list: array<Handle?<V>>, ghost chain: seq<Handle<V>>,
                          ghost chains: seq<seq<Handle<V>>>, ghost moved: set<Handle<V>>, count: nat)
    returns (ghost chains': seq<seq<Handle<V>>>, ghost moved': set<Handle<V>>, count': nat)
    requires Chained(first, chain) && Distinct(chain) && Moved(list, chains, moved) && IsPowerOfTwo(|chains|)
    requires forall h :: h in chain ==> h !in moved
    requires count == |moved|
    modifies list, chain`nextHash
    ensures |chains'| == |chains| && Moved(list, chains', moved')
    ensures forall h :: h in moved' <==> h in moved || h in chain
    ensures count' == |moved'|
  {
    chains', moved', count' := chains, moved, count;
    var h := first;
    ghost var j := 0;
    while h != null
      invariant j <= |chain| && h == At(chain, j) && Suffix(chain, j)
      invariant |chains'| == |chains| && Moved(list, chains', moved')
      invariant forall x :: x in moved' <==> x in moved || x in chain[..j]
      invariant count' == |moved'|
      decreases |chain| - j
    {
      var next;
      next, chains' := MoveHead(h, list, chain, j, chains', moved');
      moved' := moved' + {h};
      h := next;
      count' := count' + 1;
      j := j + 1;
    }
    assert chain[..j] == chain;
  }

  /** One bucket moves; the ones after it stay as they are. */
  method MoveNext<V(0)>(list: array<Handle?<V>>, i: nat, newList: array<Handle?<V>>,
                        ghost chains: seq<seq<Handle<V>>>, ghost nodes: set<Handle<V>>,
                        ghost newChains: seq<seq<Handle<V>>>, ghost moved: set<Handle<V>>, count: nat)
    returns (ghost newChains': seq<seq<Handle<V>>>, ghost moved': set<Handle<V>>, count': nat)
    requires InBuckets(chains) && Rest(list, chains, nodes, i) && i < |chains| && list != newList
    requires Moved(newList, newChains, moved) && IsPowerOfTwo(|newChains|) && moved == Before(chains, i) && count == |moved|
    modifies newList, nodes`nextHash
    ensures Rest(list, chains, nodes, i + 1)
    ensures |newChains'| == |newChains| && Moved(newList, newChains', moved')
    ensures moved' == Before(chains, i + 1) && count' == |moved'|
  {
    assert Within(chains[i], nodes);
    newChains', moved', count' := MoveBucket(list[i], newList, chains[i], newChains, moved, count);
    forall b | i + 1 <= b < |chains|
      ensures Within(chains[b], nodes) && Chained(list[b], chains[b])
    {
      assert old(Within(chains[b], nodes) && Chained(list[b], chains[b]));
      forall k | 0 <= k < |chains[b]|
        ensures Link(chains[b], k)
      {
        assert old(Link(chains[b], k));
        OtherBucket(chains, i, b, chains[b][k]);
      }
    }
  }

  method Rehash<V(0)>(list: array<Handle?<V>>, newLength: nat, ghost chains: seq<seq<Handle<V>>>, ghost nodes: set<Handle<V>>,
                      ghost table: map<Tag, Handle<V>>)
    returns (newList: array<Handle?<V>>, count: nat, ghost newChains: seq<seq<Handle<V>>>)
    requires Structure(list, chains, nodes, table) && IsPowerOfTwo(newLength)
    modifies nodes`nextHash
    ensures fresh(newList) && newList.Length == newLength && count == |nodes|
    ensures Structure(newList, newChains, nodes, table)
  {
    newList := new Handle?<V>[newLength](_ => null);
    newChains := seq(newLength, _ => []);
    ghost var moved := {};
    count := 0;
    for i: nat := 0 to list.Length
      invariant Rest(list, chains, nodes, i)
      invariant |newChains| == newLength && Moved(newList, newChains, moved)
      invariant moved == Before(chains, i) && count == |moved|
    {
      newChains, moved, count := MoveNext(list, i, newList, chains, nodes, newChains, moved, count);
    }
    AllMoved(chains, nodes);
  }

  lemma AllMoved<V(0)>(chains: seq<seq<Handle<V>>>, nodes: set<Handle<V>>)
    requires Covers(chains, nodes)
    ensures Before(chains, |chains|) == nodes
  {
    forall h | h in nodes
      ensures h in chains[BucketOf(h, chains)]
    {
    }
  }

  lemma ReplacedMembers<T>(chain: seq<T>, i: nat, h: T)
    requires Distinct(chain) && i <= |chain| && h !in chain
    ensures Distinct(Replaced(chain, i, h))
    ensures forall x :: x in Replaced(chain, i, h) <==> x == h || (x in chain && (i < |chain| ==> x != chain[i]))
  {
    var t := Replaced(chain, i, h);
    assert t[i] == h;
    assert forall j :: 0 <= j < |chain| && j != i ==> t[j] == chain[j];
  }

  lemma IndexedReplaced<V(0)>(nodes: set<Handle<V>>, table: map<Tag, Handle<V>>, h: Handle<V>)
    requires Indexed(nodes, table) && h !in nodes
    ensures Indexed(nodes - Singleton(Found(table, TagOf(h))) + {h}, table[TagOf(h) := h])
  {
  }

  lemma RemovedMembers<T>(chain: seq<T>, i: nat)
    requires Distinct(chain) && i < |chain|
    ensures Distinct(Removed(chain, i))
    ensures forall x :: x in Removed(chain, i) <==> x in chain && x != chain[i]
  {
    var t := Removed(chain, i);
    assert forall j :: 0 <= j < |t| ==> t[j] == chain[if j < i then j else j + 1];
    assert forall j :: 0 <= j < |chain| && j != i ==> chain[j] == t[if j < i then j else j - 1];
  }

  lemma RemovedInBuckets<V(0)>(chains: seq<seq<Handle<V>>>, nodes: set<Handle<V>>, i: nat, h: Handle<V>)
    requires InBuckets(chains) && Covers(chains, nodes) && |chains| > 0
    requires h == At(chains[h.hash % |chains|], i)
    ensures var b := h.hash % |chains|;
      && InBuckets(chains[b := Removed(chains[b], i)])
      && Covers(chains[b := Removed(chains[b], i)], nodes - {h})
  {
    var b := h.hash % |chains|;
    RemovedMembers(chains[b], i);
    forall x | x in nodes && x != h
      ensures x in chains[b := Removed(chains[b], i)][BucketOf(x, chains)]
    {
    }
  }

  /** The smallest power of two, from 4 on, that is not below `elems`. */
  method NewLength(elems: nat) returns (newLength: nat)
    ensures IsPowerOfTwo(newLength) && newLength >= 4 && elems <= newLength
    ensures newLength > 4 ==> newLength / 2 < elems
  {
    newLength := 4;
    assert IsPowerOfTwo(2) && IsPowerOfTwo(4);
    while newLength < elems
      invariant IsPowerOfTwo(newLength) && newLength >= 4
      invariant newLength > 4 ==> newLength / 2 < elems
    {
      newLength := newLength * 2;
    }
  }

  /** The entries of the first `n` buckets. */
  ghost function Before<V(0)>(chains: seq<seq<Handle<V>>>, n: nat): set<Handle<V>>
    requires n <= |chains|
  {
    set b, h | 0 <= b < n && h in chains[b] :: h
  }

  /** The buckets from `n` on are as they were. */
  ghost predicate Rest<V(0)>(list: array<Handle?<V>>, chains: seq<seq<Handle<V>>>, nodes: set<Handle<V>>, n: nat)
    reads list, nodes`nextHash
  {
    && list.Length == |chains|
    && forall b :: n <= b < |chains| ==> Within(chains[b], nodes) && Chained(list[b], chains[b])
  }

  lemma ReplacedInBuckets<V(0)>(chains: seq<seq<Handle<V>>>, nodes: set<Handle<V>>, i: nat, h: Handle<V>)
    requires InBuckets(chains) && Covers(chains, nodes) && |chains| > 0 && h !in nodes
    requires i <= |chains[h.hash % |chains|]|
    ensures var b := h.hash % |chains|;
      && InBuckets(chains[b := Replaced(chains[b], i, h)])
      && Covers(chains[b := Replaced(chains[b], i, h)], nodes - Singleton(At(chains[b], i)) + {h})
  {
    var b := h.hash % |chains|;
    ReplacedMembers(chains[b], i, h);
    if i < |chains[b]| {
      assert chains[b][i] in chains[b];
      BucketCovers(chains, nodes, chains[b][i], h, b, Replaced(chains[b], i, h));
    } else {
      BucketGrows(chains, nodes, h, b, Replaced(chains[b], i, h));
    }
  }

  lemma BucketCovers<V(0)>(chains: seq<seq<Handle<V>>>, nodes: set<Handle<V>>, old_: Handle<V>, h: Handle<V>, b: nat, chain: seq<Handle<V>>)
    requires InBuckets(chains) && Covers(chains, nodes) && b < |chains| && b == h.hash % |chains| && old_ in chains[b]
    requires forall x :: x in chain <==> x == h || (x in chains[b] && x != old_)
    ensures Covers(chains[b := chain], nodes - {old_} + {h})
  {
    forall x | x in nodes && x != old_
      ensures x in chains[b := chain][BucketOf(x, chains)]
    {
    }
  }

  lemma BucketGrows<V(0)>(chains: seq<seq<Handle<V>>>, nodes: set<Handle<V>>, h: Handle<V>, b: nat, chain: seq<Handle<V>>)
    requires Covers(chains, nodes) && b < |chains| && b == h.hash % |chains|
    requires forall x :: x in chain <==> x == h || x in chains[b]
    ensures Covers(chains[b := chain], nodes + {h})
  {
    forall x | x in nodes
      ensures x in chains[b := chain][BucketOf(x, chains)]
    {
    }
  }
}
