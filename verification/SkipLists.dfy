/** The skip list of include/leveldb/__detail/skip_list.h, used by one thread. */
module SkipLists {
  import opened SkipOrder
  import opened Randoms
  import RandomPeriods

  const MAX_HEIGHT: nat := 12

  class Node<K> {
    const key: K
    /** One link a level, lowest first. */
    const next: array<Node?<K>>

    constructor (key: K, height: nat)
      ensures this.key == key && fresh(next) && next.Length == height
    {
      this.key := key;
      next := new Node?<K>[height];
    }
  }

  function NodeAt<K>(order: seq<Node<K>>, i: nat): Node?<K> {
    if i < |order| then order[i] else null
  }

  /** The keys of all nodes but the head. */
  function KeysOf<K>(order: seq<Node<K>>): (keys: seq<K>)
    requires order != []
    ensures |keys| == |order| - 1
    ensures forall i :: 0 <= i < |keys| ==> keys[i] == order[i + 1].key
  {
    seq(|order| - 1, i requires 0 <= i < |order| - 1 => order[i + 1].key)
  }

  function Heights<K>(order: seq<Node<K>>): (hs: seq<nat>)
    ensures |hs| == |order|
    ensures forall i :: 0 <= i < |order| ==> hs[i] == order[i].next.Length
  {
    seq(|order|, i requires 0 <= i < |order| => order[i].next.Length)
  }

  ghost function Arrays<K>(order: seq<Node<K>>): set<object> {
    set i | 0 <= i < |order| :: order[i].next
  }

  /** Nodes in order, each with links of its own; the head is linked at all levels. */
  ghost predicate Shape<K>(order: seq<Node<K>>, head: Node<K>) {
    && order != [] && order[0] == head && head.next.Length == MAX_HEIGHT
    && (forall i :: 0 <= i < |order| ==> 1 <= order[i].next.Length <= MAX_HEIGHT)
    && (forall i, j :: 0 <= i < j < |order| ==> order[i].next != order[j].next)
  }

  /** The lowest `hs[i]` links of node `i` lead to the next node of their level. */
  ghost predicate Linked<K>(order: seq<Node<K>>, hs: seq<nat>)
    requires |hs| == |order|
    requires forall i :: 0 <= i < |order| ==> hs[i] <= order[i].next.Length
    reads Arrays(order)
  {
    forall i, l :: 0 <= i < |order| && 0 <= l < hs[i] ==> order[i].next[l] == NodeAt(order, NextIndex(hs, i, l))
  }

  /** Nodes with links of their own, of which the lowest `hs[i]` are in place. */
  ghost predicate Linking<K>(order: seq<Node<K>>, hs: seq<nat>)
    reads Arrays(order)
  {
    && |hs| == |order|
    && (forall i :: 0 <= i < |order| ==> hs[i] <= order[i].next.Length)
    && (forall i, j :: 0 <= i < j < |order| ==> order[i].next != order[j].next)
    && Linked(order, hs)
  }

  // ----- Linking a node in

  /** A node that is linked at no level yet. */
  lemma LinkingInsert<K>(order: seq<Node<K>>, hs: seq<nat>, p: nat, x: Node<K>)
    requires Linking(order, hs) && 0 < p <= |order|
    requires x.next !in Arrays(order)
    ensures Linking(InsertAt(order, p, x), InsertAt(hs, p, 0))
  {
    var order', hs' := InsertAt(order, p, x), InsertAt(hs, p, 0);
    forall i | 0 <= i <= |order|
      ensures hs'[i] <= order'[i].next.Length
    {
      InsertAtIndex(order, p, x, i);
      InsertAtIndex(hs, p, 0, i);
    }
    InsertDistinct(order, p, x);
    forall i, l | 0 <= i <= |order| && 0 <= l < hs'[i]
      ensures order'[i].next[l] == NodeAt(order', NextIndex(hs', i, l))
    {
      InsertAtIndex(hs, p, 0, i);
      var k: nat := if i < p then i else i - 1;
      assert i == Shifted(k, p) && l < hs[k];
      LinkedInsertAt(order, hs, p, x, k, l);
    }
  }

  lemma InsertDistinct<K>(order: seq<Node<K>>, p: nat, x: Node<K>)
    requires p <= |order|
    requires forall i, j :: 0 <= i < j < |order| ==> order[i].next != order[j].next
    requires x.next !in Arrays(order)
    ensures var order' := InsertAt(order, p, x);
      forall i, j :: 0 <= i < j < |order'| ==> order'[i].next != order'[j].next
  {
    forall i, j | 0 <= i < j <= |order|
      ensures InsertAt(order, p, x)[i].next != InsertAt(order, p, x)[j].next
    {
      InsertAtIndex(order, p, x, i);
      InsertAtIndex(order, p, x, j);
      assert forall k :: 0 <= k < |order| ==> order[k].next in Arrays(order);
    }
  }

  lemma LinkedInsertAt<K>(order: seq<Node<K>>, hs: seq<nat>, p: nat, x: Node<K>, i: nat, l: nat)
    requires |hs| == |order| && 0 < p <= |order| && i < |order|
    requires l < order[i].next.Length && order[i].next[l] == NodeAt(order, NextIndex(hs, i, l))
    ensures InsertAt(order, p, x)[Shifted(i, p)] == order[i]
    ensures order[i].next[l] == NodeAt(InsertAt(order, p, x), NextIndex(InsertAt(hs, p, 0), Shifted(i, p), l))
  {
    InsertAtIndex(order, p, x, Shifted(i, p));
    InsertUnlinked(hs, p, i, l);
    var j := NextIndex(hs, i, l);
    if j < |order| {
      InsertAtIndex(order, p, x, Shifted(j, p));
    }
  }

  /** The two stores of `insert` at one level. */
  method LinkLevel<K>(ghost order: seq<Node<K>>, ghost hs: seq<nat>, ghost p: nat, x: Node<K>, pred: Node<K>, level: nat)
    requires Linking(order, hs) && 0 < p < |order|
    requires order[p] == x && hs[p] == level < x.next.Length && hs[0] > level
    requires pred == order[PrevIndex(hs, p, level)]
    modifies x.next, pred.next
    ensures Linking(order, hs[p := level + 1])
  {
    ghost var q := PrevIndex(hs, p, level);
    assert pred.next[level] == NodeAt(order, NextIndex(hs, q, level));
    RaiseOne(hs, p, level, p, level);
    PrevThenNext(hs, p, level);
    x.next[level] := pred.next[level];
    pred.next[level] := x;
    forall i, l | 0 <= i < |order| && 0 <= l < hs[p := level + 1][i]
      ensures order[i].next[l] == NodeAt(order, NextIndex(hs[p := level + 1], i, l))
    {
      RaiseOne(hs, p, level, i, l);
      if i == p && l == level {
      } else if i == q && l == level {
      } else {
        assert l < hs[i];
        assert order[i].next[l] == old(order[i].next[l]);
      }
    }
  }

  /** Linking a node at the lower levels does not change who comes before it at the next one. */
  lemma PredecessorKept<K>(order: seq<Node<K>>, hs0: seq<nat>, p: nat, x: Node<K>, level: nat)
    requires 0 < p <= |order| && |hs0| == |order| && hs0[0] > level
    ensures var hs := InsertAt(hs0, p, level);
      && hs[0] > level
      && InsertAt(order, p, x)[PrevIndex(hs, p, level)] == order[PrevIndex(hs0, p, level)]
  {
    PrevIndexPrefix(hs0, InsertAt(hs0, p, level), p, level);
  }

  /** One more level of a node that belongs at position `p`, given its predecessor in the list without it. */
  method LinkNext<K>(ghost order: seq<Node<K>>, ghost hs: seq<nat>, ghost p: nat, x: Node<K>, pred: Node<K>, level: nat)
    requires |hs| == |order| && 0 < p <= |order| && hs[0] > level
    requires Linking(InsertAt(order, p, x), InsertAt(hs, p, level))
    requires level < x.next.Length && pred == order[PrevIndex(hs, p, level)]
    modifies x.next, pred.next
    ensures Linking(InsertAt(order, p, x), InsertAt(hs, p, level + 1))
  {
    PredecessorKept(order, hs, p, x, level);
    LinkLevel(InsertAt(order, p, x), InsertAt(hs, p, level), p, x, pred, level);
    assert InsertAt(hs, p, level)[p := level + 1] == InsertAt(hs, p, level + 1);
  }

  /** What a search has left in `prev` for a node of height `height` that belongs at position `p`. */
  ghost predicate Predecessors<K>(order: seq<Node<K>>, hs: seq<nat>, p: nat, prev: array<Node?<K>>, height: nat)
    reads prev
  {
    && |hs| == |order| && 0 < p <= |order| && hs[0] >= height
    && height <= prev.Length
    && forall l :: 0 <= l < height ==> prev[l] == order[PrevIndex(hs, p, l)]
  }

  /** The links of a new node, bottom up. */
  method LinkNode<K>(ghost order: seq<Node<K>>, ghost hs: seq<nat>, ghost p: nat, x: Node<K>, prev: array<Node?<K>>)
    requires Linking(order, hs) && Predecessors(order, hs, p, prev, x.next.Length)
    requires x.next !in Arrays(order) && x.next != prev && prev !in Arrays(order)
    modifies x.next, Arrays(order)
    ensures Linking(InsertAt(order, p, x), InsertAt(hs, p, x.next.Length))
  {
    LinkingInsert(order, hs, p, x);
    for i: nat := 0 to x.next.Length
      invariant Predecessors(order, hs, p, prev, x.next.Length)
      invariant Linking(InsertAt(order, p, x), InsertAt(hs, p, i))
    {
      LinkNext(order, hs, p, x, prev[i], i);
    }
  }

  lemma ShapeInsert<K>(order: seq<Node<K>>, head: Node<K>, p: nat, x: Node<K>, maxHeight: nat)
    requires Shape(order, head) && 0 < p <= |order|
    requires forall i :: 1 <= i < |order| ==> order[i].next.Length <= maxHeight
    requires 1 <= x.next.Length <= maxHeight <= MAX_HEIGHT && x.next !in Arrays(order)
    ensures Shape(InsertAt(order, p, x), head)
    ensures forall i :: 1 <= i <= |order| ==> InsertAt(order, p, x)[i].next.Length <= maxHeight
  {
    InsertDistinct(order, p, x);
    forall i | 0 <= i <= |order|
      ensures InsertAt(order, p, x)[i] == if i < p then order[i] else if i == p then x else order[i - 1]
    {
      InsertAtIndex(order, p, x, i);
    }
  }

  lemma ArraysOfInserted<K>(order: seq<Node<K>>, p: nat, x: Node<K>)
    requires p <= |order|
    ensures Arrays(InsertAt(order, p, x)) == Arrays(order) + {x.next}
  {
    var order' := InsertAt(order, p, x);
    assert order'[p] == x;
    forall i | 0 <= i < |order|
      ensures order'[Shifted(i, p)] == order[i]
    {
      InsertAtIndex(order, p, x, Shifted(i, p));
    }
    forall i | 0 <= i < |order'|
      ensures order'[i].next in Arrays(order) + {x.next}
    {
      InsertAtIndex(order, p, x, i);
    }
  }

  lemma HeightsOfInserted<K>(order: seq<Node<K>>, p: nat, x: Node<K>)
    requires p <= |order|
    ensures Heights(InsertAt(order, p, x)) == InsertAt(Heights(order), p, x.next.Length)
  {
  }

  lemma KeysOfInserted<K>(order: seq<Node<K>>, p: nat, x: Node<K>)
    requires 0 < p <= |order|
    ensures KeysOf(InsertAt(order, p, x)) == InsertAt(KeysOf(order), p - 1, x.key)
  {
  }

  function Larger(a: nat, b: nat): nat {
    if b > a then b else a
  }

  /** The height drawn with the seed `seed`, once `height` has been reached. */
  function DrawnHeight(seed: nat, height: nat): nat
    decreases MAX_HEIGHT - height
  {
    if height >= MAX_HEIGHT || Successor(seed) % 4 != 0 then height else DrawnHeight(Successor(seed), height + 1)
  }

  lemma IterateFirst(seed: nat, k: nat)
    requires k > 0
    ensures RandomPeriods.Iterate(seed, k) == RandomPeriods.Iterate(Successor(seed), k - 1)
  {
    RandomPeriods.IterateAdd(seed, 1, k - 1);
    assert RandomPeriods.Iterate(seed, 1) == Successor(RandomPeriods.Iterate(seed, 0));
  }

  /** The height is one more than the number of draws before the first that 4 does not divide, and 12 at most. */
  lemma {:induction false} DrawnIs(seed: nat, height: nat)
    requires height <= 12
    ensures var h := DrawnHeight(seed, height);
      && height <= h <= 12
      && (forall k :: 0 < k <= h - height ==> RandomPeriods.Iterate(seed, k) % 4 == 0)
      && (h < 12 ==> RandomPeriods.Iterate(seed, h - height + 1) % 4 != 0)
    decreases 12 - height
  {
    if height < 12 && Successor(seed) % 4 == 0 {
      DrawnIs(Successor(seed), height + 1);
      forall k | 0 < k <= DrawnHeight(seed, height) - height
        ensures RandomPeriods.Iterate(seed, k) % 4 == 0
      {
        IterateFirst(seed, k);
      }
      IterateFirst(seed, DrawnHeight(seed, height) - height + 1);
    } else {
      IterateFirst(seed, 1);
    }
  }

  class SkipList<K(!new, 0)> {
    const compare: (K, K) -> int
    const head: Node<K>
    const rnd: Random
    var maxHeight: nat
    ghost var order: seq<Node<K>>

    ghost predicate Valid()
      reads this, rnd, Arrays(order)
    {
      && IsOrder(compare)
      && rnd.Valid()
      && InOrder(order, maxHeight)
      && Linked(order, Heights(order))
    }

    /** What is to be linked: nodes of at most the height in use, with ascending keys. */
    ghost predicate InOrder(order: seq<Node<K>>, maxHeight: nat) {
      && Shape(order, head)
      && 1 <= maxHeight <= MAX_HEIGHT
      && (forall i :: 1 <= i < |order| ==> order[i].next.Length <= maxHeight)
      && Sorted(compare, KeysOf(order))
    }

    lemma InOrderInsert(order: seq<Node<K>>, maxHeight: nat, x: Node<K>)
      requires IsOrder(compare) && InOrder(order, maxHeight)
      requires NoneEqual(KeysOf(order), x.key)
      requires 1 <= x.next.Length <= maxHeight && x.next !in Arrays(order)
      ensures var r := Rank(compare, KeysOf(order), x.key);
        var order' := InsertAt(order, r + 1, x);
        && InOrder(order', maxHeight)
        && KeysOf(order') == InsertAt(KeysOf(order), r, x.key)
        && Heights(order') == InsertAt(Heights(order), r + 1, x.next.Length)
        && Arrays(order') == Arrays(order) + {x.next}
    {
      var r := Rank(compare, KeysOf(order), x.key);
      InsertSorted(compare, KeysOf(order), x.key);
      KeysOfInserted(order, r + 1, x);
      HeightsOfInserted(order, r + 1, x);
      ShapeInsert(order, head, r + 1, x, maxHeight);
      ArraysOfInserted(order, r + 1, x);
    }

    ghost predicate NoneEqual(keys: seq<K>, key: K) {
      forall k :: k in keys ==> compare(k, key) != 0
    }

    /** The keys in the list, in order. */
    ghost function Keys(): seq<K>
      requires order != []
      reads this`order
    {
      KeysOf(order)
    }

    constructor (compare: (K, K) -> int, anyKey: K)
      requires IsOrder(compare)
      ensures Valid() && Keys() == [] && fresh(rnd) && fresh(Arrays(order))
      ensures maxHeight == 1 && rnd.seed == 0x5eadbeef
      ensures this.compare == compare
    {
      this.compare := compare;
      var h := new Node(anyKey, MAX_HEIGHT);
      head := h;
      maxHeight := 1;
      order := [h];
      for i := 0 to MAX_HEIGHT
        invariant forall l :: 0 <= l < i ==> h.next[l] == null
      {
        h.next[i] := null;
      }
      rnd := new Random(0xdeadbeef);
      new;
      assert forall l :: 0 <= l < MAX_HEIGHT ==> NextIndex(Heights(order), 0, l) == 1;
    }

    predicate KeyIsAfterNode(key: K, n: Node?<K>) {
      n != null && compare(n.key, key) < 0
    }

    /** Where a search for `key` ends: all nodes before this position have smaller keys. */
    ghost function Position(key: K): (p: nat)
      requires order != []
      reads this`order
      ensures 0 < p <= |order|
    {
      1 + Rank(compare, KeysOf(order), key)
    }

    /** The node at position `i` comes before `key` exactly if its position says so. */
    lemma Before(key: K, i: nat)
      requires Valid() && 0 < i <= |order|
      ensures KeyIsAfterNode(key, NodeAt(order, i)) <==> i < Position(key)
    {
      RankSplits(compare, KeysOf(order), key);
      if i < |order| {
        assert KeysOf(order)[i - 1] == order[i].key;
      }
    }

    /** Follow one link of a search: on while the next key is smaller, and at the predecessor when it is not. */
    lemma SearchStep(key: K, i: nat, level: nat)
      requires Valid() && i < Position(key) && level < order[i].next.Length
      ensures var hs, j := Heights(order), NextIndex(Heights(order), i, level);
        var next := order[i].next[level];
        && next == NodeAt(order, j)
        && (KeyIsAfterNode(key, next) ==> j < Position(key) && next == order[j] && level < next.next.Length)
        && (!KeyIsAfterNode(key, next) ==> i == PrevIndex(hs, Position(key), level))
        && (!KeyIsAfterNode(key, next) && level == 0 ==> j == Position(key))
    {
      var hs, j := Heights(order), NextIndex(Heights(order), i, level);
      Before(key, j);
      if j >= Position(key) {
        SearchStops(hs, i, level, Position(key));
        if level == 0 && j > Position(key) {
          assert false;
        }
      }
    }

    /** On the levels `from` to `to`, `prev` holds the predecessors of `key`. */
    ghost predicate Recorded(prev: array?<Node?<K>>, key: K, from: nat, to: nat)
      requires Shape(order, head) && to <= MAX_HEIGHT
      reads this`order, prev
    {
      prev != null ==>
        && prev.Length == MAX_HEIGHT
        && prev !in Arrays(order)
        && forall l :: from <= l < to ==> prev[l] == order[PrevIndex(Heights(order), Position(key), l)]
    }

    /** prev[level] = x: the caller's buffer is not part of the list. */
    method Record(prev: array?<Node?<K>>, key: K, level: nat, x: Node<K>)
      requires Valid() && level < maxHeight && Recorded(prev, key, level + 1, maxHeight)
      requires x == order[PrevIndex(Heights(order), Position(key), level)]
      modifies prev
      ensures Valid() && Recorded(prev, key, level, maxHeight)
    {
      if prev != null {
        prev[level] := x;
      }
    }

    method FindGreaterOrEqual(key: K, prev: array?<Node?<K>>) returns (node: Node?<K>)
      requires Valid()
      requires prev != null ==> prev.Length == MAX_HEIGHT && prev !in Arrays(order)
      modifies prev
      ensures Valid()
      ensures node == NodeAt(order, Position(key))
      ensures Recorded(prev, key, 0, maxHeight)
    {
      var x := head;
      var level := maxHeight - 1;
      ghost var i := 0;
      while true
        invariant Valid() && 0 <= level < maxHeight
        invariant Recorded(prev, key, level + 1, maxHeight)
        invariant 0 <= i < Position(key) && x == order[i] && level < x.next.Length
        decreases level, |order| - i
      {
        var next, further := Ahead(key, x, level, i);
        if further {
          x := next;
          i := NextIndex(Heights(order), i, level);
        } else {
          Record(prev, key, level, x);
          if level == 0 {
            return next;
          }
          level := level - 1;
        }
      }
    }

    /** The next node on a level, and whether the search goes on there. */
    method Ahead(key: K, x: Node<K>, level: nat, ghost i: nat) returns (next: Node?<K>, further: bool)
      requires Valid() && i < Position(key) && x == order[i] && level < x.next.Length
      ensures further ==> NextIndex(Heights(order), i, level) < Position(key)
      ensures further ==> next == order[NextIndex(Heights(order), i, level)] && level < next.next.Length
      ensures !further ==> i == PrevIndex(Heights(order), Position(key), level)
      ensures !further && level == 0 ==> next == NodeAt(order, Position(key))
    {
      SearchStep(key, i, level);
      next := x.next[level];
      further := KeyIsAfterNode(key, next);
    }

    /** The latest node with a smaller key, or the head. */
    method FindLessThan(key: K) returns (node: Node<K>)
      requires Valid()
      ensures node == order[Position(key) - 1]
    {
      var x := head;
      var level := maxHeight - 1;
      ghost var i := 0;
      while true
        invariant 0 <= level < maxHeight
        invariant 0 <= i < Position(key) && x == order[i] && level < x.next.Length
        decreases level, |order| - i
      {
        SearchStep(key, i, level);
        var next := x.next[level];
        if next == null || compare(next.key, key) >= 0 {
          if level == 0 {
            return x;
          }
          level := level - 1;
        } else {
          x := next;
          i := NextIndex(Heights(order), i, level);
        }
      }
    }

    /** The last node, or the head if the list is empty. */
    method FindLast() returns (node: Node<K>)
      requires Valid()
      ensures node == order[|order| - 1]
    {
      var x := head;
      var level := maxHeight - 1;
      ghost var i := 0;
      while true
        invariant 0 <= level < maxHeight
        invariant 0 <= i < |order| && x == order[i] && level < x.next.Length
        decreases level, |order| - i
      {
        ghost var j := NextIndex(Heights(order), i, level);
        var next := x.next[level];
        assert next == NodeAt(order, j);
        if next == null {
          if level == 0 {
            return x;
          }
          level := level - 1;
        } else {
          x := next;
          i := j;
        }
      }
    }

    /** A node stands at the position of its own key. */
    lemma PositionOfNode(i: nat)
      requires Valid() && 0 < i < |order|
      ensures Position(order[i].key) == i
      ensures forall j :: 0 <= j < i && order[j] == head ==> j == 0
    {
      var keys := KeysOf(order);
      assert compare(keys[i - 1], keys[i - 1]) == 0;
      RankUnique(compare, keys, keys[i - 1], i - 1);
    }

    method Contains(key: K) returns (b: bool)
      requires Valid()
      ensures b <==> exists k :: k in KeysOf(order) && compare(k, key) == 0
    {
      var x := FindGreaterOrEqual(key, null);
      MemberAtPosition(key);
      b := x != null && compare(key, x.key) == 0;
    }

    /** An equal key can only be at the position of `key`. */
    lemma MemberAtPosition(key: K)
      requires Valid()
      ensures var n := NodeAt(order, Position(key));
        (exists k :: k in KeysOf(order) && compare(k, key) == 0) <==> (n != null && compare(key, n.key) == 0)
    {
      var keys, r := KeysOf(order), Rank(compare, KeysOf(order), key);
      RankSplits(compare, keys, key);
      assert forall k :: compare(k, key) == 0 <==> compare(key, k) == 0;
      if r < |keys| {
        assert keys[r] == order[r + 1].key && keys[r] in keys;
      }
      forall i | 0 <= i < |keys| && compare(keys[i], key) == 0
        ensures i == r
      {
        if i > r {
          LessTransitive(compare, keys[r], keys[i], key);
        }
      }
    }

    /** Any value from 1 to MAX_HEIGHT, drawn from the generator. */
    method RandomHeight() returns (height: nat)
      requires Valid()
      modifies rnd
      ensures Valid() && 1 <= height <= MAX_HEIGHT
      ensures height == DrawnHeight(old(rnd.seed), 1)
      ensures rnd.seed == RandomPeriods.Iterate(old(rnd.seed), if height < MAX_HEIGHT then height else MAX_HEIGHT - 1)
    {
      height := 1;
      while height < MAX_HEIGHT
        invariant Valid() && 1 <= height <= MAX_HEIGHT
        invariant DrawnHeight(rnd.seed, height) == DrawnHeight(old(rnd.seed), 1)
        invariant rnd.seed == RandomPeriods.Iterate(old(rnd.seed), height - 1)
      {
        var higher := rnd.OneIn(4);
        if !higher {
          break;
        }
        height := height + 1;
      }
    }

    /** The head comes before everything at a level that is not in use yet. */
    lemma UnusedLevel(key: K, level: nat)
      requires Valid() && maxHeight <= level < MAX_HEIGHT
      ensures order[PrevIndex(Heights(order), Position(key), level)] == head
    {
      PrevIndexUnique(Heights(order), Position(key), level, 0);
    }

    /** prev[level] = head. */
    method RecordHead(prev: array<Node?<K>>, key: K, level: nat)
      requires Valid() && maxHeight <= level < MAX_HEIGHT && Recorded(prev, key, 0, level)
      modifies prev
      ensures Valid() && Recorded(prev, key, 0, level + 1)
    {
      UnusedLevel(key, level);
      prev[level] := head;
    }

    method RaiseMaxHeight(prev: array<Node?<K>>, key: K, height: nat)
      requires Valid() && Recorded(prev, key, 0, maxHeight) && height <= MAX_HEIGHT
      modifies this`maxHeight, prev
      ensures Valid() && Recorded(prev, key, 0, maxHeight)
      ensures maxHeight == Larger(old(maxHeight), height)
    {
      if height > maxHeight {
        for i := maxHeight to height
          invariant Valid() && Recorded(prev, key, 0, i)
          invariant maxHeight == old(maxHeight)
        {
          RecordHead(prev, key, i);
        }
        maxHeight := height;
      }
    }

    /** The second half of `insert`: a new node of the chosen height, linked after the recorded predecessors. */
    method LinkNew(key: K, height: nat, prev: array<Node?<K>>)
      requires Valid() && Recorded(prev, key, 0, maxHeight)
      requires NoneEqual(Keys(), key) && 1 <= height <= maxHeight
      modifies this`order, Arrays(order)
      ensures Valid() && fresh(Arrays(order) - old(Arrays(order)))
      ensures Keys() == InsertAt(old(Keys()), Rank(compare, old(Keys()), key), key)
      ensures Heights(order) == InsertAt(old(Heights(order)), Rank(compare, old(Keys()), key) + 1, height)
    {
      var x := new Node(key, height);
      LinkAll(x, prev);
    }

    method LinkAll(x: Node<K>, prev: array<Node?<K>>)
      requires Valid() && Recorded(prev, x.key, 0, maxHeight)
      requires NoneEqual(Keys(), x.key) && 1 <= x.next.Length <= maxHeight
      requires x.next !in Arrays(order) && x.next != prev && prev !in Arrays(order)
      modifies this`order, x.next, Arrays(order)
      ensures Valid() && Arrays(order) == old(Arrays(order)) + {x.next}
      ensures Keys() == InsertAt(old(Keys()), Rank(compare, old(Keys()), x.key), x.key)
      ensures Heights(order) == InsertAt(old(Heights(order)), Rank(compare, old(Keys()), x.key) + 1, x.next.Length)
    {
      ghost var p := Position(x.key);
      ghost var order' := InsertAt(order, p, x);
      InOrderInsert(order, maxHeight, x);
      LinkNode(order, Heights(order), p, x, prev);
      order := order';
    }

    /** Adds exactly one key, at its place in the order. */
    method Insert(key: K)
      requires Valid() && NoneEqual(Keys(), key)
      modifies this`maxHeight, this`order, rnd, Arrays(order)
      ensures Valid() && fresh(Arrays(order) - old(Arrays(order)))
      ensures Keys() == InsertAt(old(Keys()), Rank(compare, old(Keys()), key), key)
      ensures Heights(order) == InsertAt(old(Heights(order)), Rank(compare, old(Keys()), key) + 1, DrawnHeight(old(rnd.seed), 1))
      ensures maxHeight == Larger(old(maxHeight), DrawnHeight(old(rnd.seed), 1))
    {
      var prev := new Node?<K>[MAX_HEIGHT];
      var x := FindGreaterOrEqual(key, prev);
      assert x == null || compare(key, x.key) != 0 by {
        MemberAtPosition(key);
      }
      InsertAfter(key, prev);
    }

    /** A node of a height that is drawn, after the recorded predecessors. */
    method InsertAfter(key: K, prev: array<Node?<K>>)
      requires Valid() && Recorded(prev, key, 0, maxHeight) && NoneEqual(Keys(), key)
      modifies this`maxHeight, this`order, rnd, prev, Arrays(order)
      ensures Valid() && fresh(Arrays(order) - old(Arrays(order)))
      ensures Keys() == InsertAt(old(Keys()), Rank(compare, old(Keys()), key), key)
      ensures Heights(order) == InsertAt(old(Heights(order)), Rank(compare, old(Keys()), key) + 1, DrawnHeight(old(rnd.seed), 1))
      ensures maxHeight == Larger(old(maxHeight), DrawnHeight(old(rnd.seed), 1))
    {
      var height := RandomHeight();
      RaiseMaxHeight(prev, key, height);
      LinkNew(key, height, prev);
    }
  }

  // ----- Iterators

  class Iterator<K(!new, 0)> {
    const list: SkipList<K>
    var node: Node?<K>

    constructor (list: SkipList<K>)
      ensures this.list == list && node == null
    {
      this.list := list;
      node := null;
    }

    predicate Valid()
      reads this
    {
      node != null
    }

    /** At position `i` of a list with nothing in the way; past the last position the iterator is not valid. */
    ghost predicate At(i: nat)
      reads this, list, list.rnd, Arrays(list.order)
    {
      list.Valid() && 0 < i <= |list.order| && node == NodeAt(list.order, i)
    }

    function Key(): (key: K)
      requires Valid()
      reads this
    {
      node.key
    }

    method Next(ghost i: nat)
      requires At(i) && Valid()
      modifies this
      ensures At(i + 1)
    {
      node := node.next[0];
    }

    method Prev(ghost i: nat)
      requires At(i) && Valid()
      modifies this
      ensures At(if i == 1 then |list.order| else i - 1)
    {
      list.PositionOfNode(i);
      node := list.FindLessThan(node.key);
      if node == list.head {
        node := null;
      }
    }

    method Seek(target: K)
      requires list.Valid()
      modifies this
      ensures At(list.Position(target))
    {
      node := list.FindGreaterOrEqual(target, null);
    }

    method SeekToFirst()
      requires list.Valid()
      modifies this
      ensures At(1)
    {
      node := list.head.next[0];
    }

    method SeekToLast()
      requires list.Valid()
      modifies this
      ensures At(if |list.order| == 1 then 1 else |list.order| - 1)
    {
      node := list.FindLast();
      if node == list.head {
        node := null;
      }
    }
  }

  /** `Prev` undoes `Next`, but for the step off the end. */
  method NextThenPrev<K(!new, 0)>(it: Iterator<K>, ghost i: nat)
    requires it.At(i) && i + 1 < |it.list.order|
    modifies it
    ensures it.node == old(it.node) && it.At(i)
  {
    it.Next(i);
    it.Prev(i + 1);
  }

  /** A walk from the first node sees all keys, in order. */
  method Scan<K(!new, 0)>(list: SkipList<K>) returns (keys: seq<K>)
    requires list.Valid()
    ensures keys == list.Keys()
  {
    var it := new Iterator(list);
    it.SeekToFirst();
    keys := [];
    ghost var i := 1;
    while it.Valid()
      invariant it.list == list && it.At(i)
      invariant keys == list.Keys()[..i - 1]
      decreases |list.order| - i
    {
      keys := keys + [it.Key()];
      it.Next(i);
      i := i + 1;
    }
  }
}
