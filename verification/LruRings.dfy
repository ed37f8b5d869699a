/** The circular lists of src/leveldb/cache.cc: a list head and the entries between its `next` and its `prev`. */
module LruRings {
  import opened CacheSpec
  import opened HandleTables

  /** Once around, from the head to the head. */
  function Circle<V(0)>(head: Handle<V>, s: seq<Handle<V>>): (c: seq<Handle<V>>)
    ensures |c| == |s| + 2
    ensures forall i :: 0 <= i < |c| ==> c[i] == if 0 < i <= |s| then s[i - 1] else head
  {
    [head] + s + [head]
  }

  ghost predicate Joined<V(0)>(c: seq<Handle<V>>, i: nat)
    requires i + 1 < |c|
    reads c`next, c`prev
  {
    c[i].next == c[i + 1] && c[i + 1].prev == c[i]
  }

  ghost predicate Ring<V(0)>(head: Handle<V>, s: seq<Handle<V>>)
    reads Circle(head, s)`next, Circle(head, s)`prev
  {
    && Distinct(s) && head !in s
    && forall i :: 0 <= i <= |s| ==> Joined(Circle(head, s), i)
  }

  /** The oldest entry, or the head of an empty ring. */
  lemma RingEnds<V(0)>(head: Handle<V>, s: seq<Handle<V>>)
    requires Ring(head, s)
    ensures head.next == if s == [] then head else s[0]
    ensures head.prev == if s == [] then head else s[|s| - 1]
  {
    assert Joined(Circle(head, s), 0);
    assert Joined(Circle(head, s), |s|);
  }

  lemma RingNext<V(0)>(head: Handle<V>, s: seq<Handle<V>>, i: nat)
    requires Ring(head, s) && i < |s|
    ensures s[i].next == if i + 1 < |s| then s[i + 1] else head
  {
    assert Joined(Circle(head, s), i + 1);
  }

  method RemoveAt<V(0)>(e: Handle<V>, ghost head: Handle<V>, ghost s: seq<Handle<V>>, ghost i: nat)
    requires Ring(head, s) && i < |s| && e == s[i]
    modifies Circle(head, s)`next, Circle(head, s)`prev
    ensures Ring(head, Removed(s, i)) && Removed(s, i) == Without(s, e)
    ensures e.next == old(e.next)
  {
    ghost var c := Circle(head, s);
    assert Joined(c, i) && Joined(c, i + 1);
    e.next.prev := e.prev;
    e.prev.next := e.next;
    ghost var c' := Circle(head, Removed(s, i));
    forall k | 0 <= k < |s|
      ensures Joined(c', k)
    {
      assert old(Joined(c, k)) && old(Joined(c, k + 1));
    }
    WithoutAt(s, i);
    WithoutDistinct(s, e);
  }

  /** `e` becomes the newest entry. */
  method Append<V(0)>(list: Handle<V>, e: Handle<V>, ghost s: seq<Handle<V>>)
    requires Ring(list, s) && e !in s && e != list
    modifies Circle(list, s)`next, Circle(list, s)`prev, e`next, e`prev
    ensures Ring(list, s + [e])
  {
    ghost var c := Circle(list, s);
    assert Joined(c, |s|);
    e.next := list;
    e.prev := list.prev;
    e.prev.next := e;
    e.next.prev := e;
    ghost var c' := Circle(list, s + [e]);
    forall k | 0 <= k <= |s| + 1
      ensures Joined(c', k)
    {
      assert k <= |s| ==> old(Joined(c, k));
    }
  }

  // ----- Two rings without common entries

  ghost predicate Rings<V(0)>(a: Handle<V>, as_: seq<Handle<V>>, b: Handle<V>, bs: seq<Handle<V>>)
    reads Circle(a, as_)`next, Circle(a, as_)`prev, Circle(b, bs)`next, Circle(b, bs)`prev
  {
    && Ring(a, as_) && Ring(b, bs) && Apart(a, as_, b, bs)
  }

  predicate Apart<V(0)>(a: Handle<V>, as_: seq<Handle<V>>, b: Handle<V>, bs: seq<Handle<V>>) {
    && a != b && a !in bs && b !in as_
    && forall h :: h in as_ ==> h !in bs
  }

  lemma CirclesApart<V(0)>(a: Handle<V>, as_: seq<Handle<V>>, b: Handle<V>, bs: seq<Handle<V>>)
    requires Apart(a, as_, b, bs)
    ensures forall i :: 0 <= i < |bs| + 2 ==> Circle(b, bs)[i] !in Circle(a, as_)
  {
  }

  /** Off a ring, whatever the other ring is. */
  method LruRemove<V(0)>(e: Handle<V>, ghost head: Handle<V>, ghost s: seq<Handle<V>>, ghost other: Handle<V>, ghost os: seq<Handle<V>>)
    requires Rings(head, s, other, os) && e in s
    modifies Circle(head, s)`next, Circle(head, s)`prev
    ensures Rings(head, Without(s, e), other, os)
  {
    ghost var i :| 0 <= i < |s| && s[i] == e;
    CirclesApart(head, s, other, os);
    RemoveAt(e, head, s, i);
    forall k | 0 <= k <= |os|
      ensures Joined(Circle(other, os), k)
    {
      assert old(Joined(Circle(other, os), k));
    }
    WithoutMembers(s, e);
  }

  method LruAppend<V(0)>(list: Handle<V>, e: Handle<V>, ghost s: seq<Handle<V>>, ghost other: Handle<V>, ghost os: seq<Handle<V>>)
    requires Rings(list, s, other, os)
    requires e !in s && e != list && e !in os && e != other
    modifies Circle(list, s)`next, Circle(list, s)`prev, e`next, e`prev
    ensures Rings(list, s + [e], other, os)
  {
    CirclesApart(list, s, other, os);
    Append(list, e, s);
    forall k | 0 <= k <= |os|
      ensures Joined(Circle(other, os), k)
    {
      assert old(Joined(Circle(other, os), k));
    }
  }

  lemma RingsSwap<V(0)>(a: Handle<V>, as_: seq<Handle<V>>, b: Handle<V>, bs: seq<Handle<V>>)
    requires Rings(a, as_, b, bs)
    ensures Rings(b, bs, a, as_)
  {
  }

  /** From one ring to the end of the other. */
  method LruMove<V(0)>(e: Handle<V>, to: Handle<V>, ghost from: Handle<V>, ghost fs: seq<Handle<V>>, ghost ts: seq<Handle<V>>)
    requires Rings(from, fs, to, ts) && e in fs
    modifies Circle(from, fs)`next, Circle(from, fs)`prev, Circle(to, ts)`next, Circle(to, ts)`prev
    ensures Rings(to, ts + [e], from, Without(fs, e))
  {
    ghost var i :| 0 <= i < |fs| && fs[i] == e;
    assert e == Circle(from, fs)[i + 1];
    LruRemove(e, from, fs, to, ts);
    WithoutMembers(fs, e);
    RingsSwap(from, Without(fs, e), to, ts);
    LruAppend(to, e, ts, from, Without(fs, e));
  }

  /** Off the ring that the entry is on, whichever it is. */
  method LruTakeOff<V(0)>(e: Handle<V>, ghost a: Handle<V>, ghost as_: seq<Handle<V>>, ghost b: Handle<V>, ghost bs: seq<Handle<V>>)
    requires Rings(a, as_, b, bs) && (e in as_ || e in bs)
    modifies Circle(a, as_)`next, Circle(a, as_)`prev, Circle(b, bs)`next, Circle(b, bs)`prev
    ensures Rings(a, Without(as_, e), b, Without(bs, e))
  {
    ghost var first := e in as_;
    if !first {
      RingsSwap(a, as_, b, bs);
    }
    LruRemove(e, if first then a else b, if first then as_ else bs, if first then b else a, if first then bs else as_);
    if first {
      WithoutAbsent(bs, e);
    } else {
      WithoutAbsent(as_, e);
      RingsSwap(b, Without(bs, e), a, as_);
    }
  }
}
