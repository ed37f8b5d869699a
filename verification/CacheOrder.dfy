/**
 The order in which a cache gives entries up: idle entries are kept in the order of
 their last release, and the ones that go first are those released longest ago.
 */
module CacheOrder {
  import opened Bytes
  import opened CacheSpec

  /** One after the last release of an entry, counted in operations; 0 if there is none. */
  function LastRelease<V(0)>(ops: seq<Op<V>>, h: Handle<V>): (n: nat)
    ensures n <= |ops|
  {
    if ops == [] then 0
    else if ops[|ops| - 1] == OpRelease(h) then |ops|
    else LastRelease(ops[..|ops| - 1], h)
  }

  lemma {:induction false} LastReleaseIs<V(0)>(ops: seq<Op<V>>, h: Handle<V>)
    ensures var n := LastRelease(ops, h);
      && (n > 0 ==> ops[n - 1] == OpRelease(h))
      && forall i :: n <= i < |ops| ==> ops[i] != OpRelease(h)
  {
    if ops != [] && ops[|ops| - 1] != OpRelease(h) {
      LastReleaseIs(ops[..|ops| - 1], h);
    }
  }

  /** Entries by their last release, each of which was released. */
  ghost predicate ByRelease<V(0)>(ops: seq<Op<V>>, s: seq<Handle<V>>) {
    && (forall i :: 0 <= i < |s| ==> LastRelease(ops, s[i]) > 0)
    && forall i, j :: 0 <= i < j < |s| ==> LastRelease(ops, s[i]) < LastRelease(ops, s[j])
  }

  lemma {:induction false} RunSnoc<V(0)>(s: State<V>, ops: seq<Op<V>>, op: Op<V>)
    ensures CanRun(s, ops + [op]) <==> CanRun(s, ops) && CanDo(Run(s, ops), op)
    ensures Run(s, ops + [op]) == Do(Run(s, ops), op)
    decreases |ops|
  {
    if ops == [] {
      assert [] + [op] == [op] && [op][1..] == [];
    } else {
      assert (ops + [op])[1..] == ops[1..] + [op];
      RunSnoc(Do(s, ops[0]), ops[1..], op);
    }
  }

  // ----- Entries that leave do not change the order of the others

  lemma {:induction false} WithoutKeepsOrder<V(0)>(ops: seq<Op<V>>, s: seq<Handle<V>>, x: Handle<V>)
    requires ByRelease(ops, s)
    ensures ByRelease(ops, Without(s, x))
  {
    if s != [] {
      SuffixKeepsOrder(ops, s, 1);
      if s[0] != x {
        WithoutKeepsOrder(ops, s[1..], x);
        FirstBefore(ops, s);
        FirstStays(ops, s[0], Without(s[1..], x));
      }
    }
  }

  lemma FirstBefore<V(0)>(ops: seq<Op<V>>, s: seq<Handle<V>>)
    requires ByRelease(ops, s) && s != []
    ensures forall y :: y in s[1..] ==> LastRelease(ops, s[0]) < LastRelease(ops, y)
  {
  }

  lemma FirstStays<V(0)>(ops: seq<Op<V>>, x: Handle<V>, t: seq<Handle<V>>)
    requires ByRelease(ops, t) && LastRelease(ops, x) > 0
    requires forall y :: y in t ==> LastRelease(ops, x) < LastRelease(ops, y)
    ensures ByRelease(ops, [x] + t)
  {
    var u := [x] + t;
    forall i | 0 <= i < |u|
      ensures LastRelease(ops, u[i]) > 0
    {
      if i > 0 {
        assert u[i] == t[i - 1];
      }
    }
    forall i, j | 0 <= i < j < |u|
      ensures LastRelease(ops, u[i]) < LastRelease(ops, u[j])
    {
      assert u[j] == t[j - 1] && t[j - 1] in t;
      if i > 0 {
        assert u[i] == t[i - 1];
      }
    }
  }

  lemma SuffixKeepsOrder<V(0)>(ops: seq<Op<V>>, s: seq<Handle<V>>, n: nat)
    requires ByRelease(ops, s) && n <= |s|
    ensures ByRelease(ops, s[n..])
  {
  }

  /** An operation that releases none of the entries does not change their order. */
  lemma OtherOps<V(0)>(ops: seq<Op<V>>, op: Op<V>, s: seq<Handle<V>>)
    requires ByRelease(ops, s) && (op.OpRelease? ==> op.h !in s)
    ensures ByRelease(ops + [op], s)
  {
    assert (ops + [op])[..|ops|] == ops;
    forall i | 0 <= i < |s|
      ensures LastRelease(ops + [op], s[i]) == LastRelease(ops, s[i])
    {
    }
  }

  /** The entry that is released comes last. */
  lemma ReleasedLast<V(0)>(ops: seq<Op<V>>, h: Handle<V>, s: seq<Handle<V>>)
    requires ByRelease(ops, s) && h !in s
    ensures ByRelease(ops + [OpRelease(h)], s + [h])
  {
    OtherOps(ops, OpRelease(h), s);
  }

  // ----- Whole runs

  lemma BindKeepsOrder<V(0)>(ops: seq<Op<V>>, s: State<V>, h: Handle<V>)
    requires ByRelease(ops, s.lru)
    ensures ByRelease(ops, Bind(s, h).lru)
  {
    if TagOf(h) in s.table {
      WithoutKeepsOrder(ops, s.lru, s.table[TagOf(h)]);
    }
  }

  lemma StepKeepsOrder<V(0)>(ops: seq<Op<V>>, s: State<V>, op: Op<V>)
    requires Inv(s) && CanDo(s, op) && ByRelease(ops, s.lru)
    ensures ByRelease(ops + [op], Do(s, op).lru)
  {
    match op
    case OpInsert(h) =>
      BindKeeps(s, h);
      BindKeepsOrder(ops, s, h);
      var n := EvictDrops(Bind(s, h));
      SuffixKeepsOrder(ops, Bind(s, h).lru, n);
      OtherOps(ops, op, Do(s, op).lru);
    case OpLookUp(tag) =>
      if tag in s.table {
        WithoutKeepsOrder(ops, s.lru, s.table[tag]);
      }
      OtherOps(ops, op, Do(s, op).lru);
    case OpRelease(h) =>
      ReleasedLast(ops, h, s.lru);
      OtherOps(ops, op, s.lru);
    case OpErase(tag) =>
      if tag in s.table {
        WithoutKeepsOrder(ops, s.lru, s.table[tag]);
      }
      OtherOps(ops, op, Do(s, op).lru);
    case OpPrune =>
      PruneDrops(s);
      OtherOps(ops, op, Do(s, op).lru);
  }

  /** After any run the idle entries are in the order of their last release. */
  lemma {:induction false} IdleByRelease<V(0)>(capacity: nat, ops: seq<Op<V>>)
    requires CanRun(Empty(capacity), ops)
    ensures ByRelease(ops, Run(Empty(capacity), ops).lru)
    decreases |ops|
  {
    if ops != [] {
      var init, last := ops[..|ops| - 1], ops[|ops| - 1];
      assert init + [last] == ops;
      RunSnoc(Empty(capacity), init, last);
      IdleByRelease(capacity, init);
      RunKeeps(Empty(capacity), init);
      StepKeepsOrder(init, Run(Empty(capacity), init), last);
    }
  }

  /**
   An insert at the end of any run: what it evicts, and its deleters run in this
   order, was released before all that stays idle.
   */
  lemma EvictedFirst<V(0)>(capacity: nat, ops: seq<Op<V>>, h: Handle<V>) returns (evicted: seq<Handle<V>>)
    requires CanRun(Empty(capacity), ops) && CanDo(Run(Empty(capacity), ops), OpInsert(h))
    ensures var bound := Bind(Run(Empty(capacity), ops), h);
      var s := Insert(Run(Empty(capacity), ops), h);
      && s.deleted == bound.deleted + evicted && bound.lru == evicted + s.lru
      && ByRelease(ops, evicted + s.lru)
      && forall x, y :: x in evicted && y in s.lru ==> LastRelease(ops, x) < LastRelease(ops, y)
  {
    var s := Run(Empty(capacity), ops);
    IdleByRelease(capacity, ops);
    RunKeeps(Empty(capacity), ops);
    BindKeeps(s, h);
    BindKeepsOrder(ops, s, h);
    evicted := EvictsFront(Bind(s, h));
    FrontBeforeRest(ops, evicted, Insert(s, h).lru);
  }

  lemma EvictsFront<V(0)>(s: State<V>) returns (evicted: seq<Handle<V>>)
    requires Inv(s)
    ensures Evict(s).deleted == s.deleted + evicted && s.lru == evicted + Evict(s).lru
  {
    var n := EvictDrops(s);
    evicted := s.lru[..n];
  }

  lemma FrontBeforeRest<V(0)>(ops: seq<Op<V>>, a: seq<Handle<V>>, b: seq<Handle<V>>)
    requires ByRelease(ops, a + b)
    ensures forall x, y :: x in a && y in b ==> LastRelease(ops, x) < LastRelease(ops, y)
  {
    forall x, y | x in a && y in b
      ensures LastRelease(ops, x) < LastRelease(ops, y)
    {
      var i :| 0 <= i < |a| && a[i] == x;
      var j :| 0 <= j < |b| && b[j] == y;
      assert (a + b)[i] == x && (a + b)[|a| + j] == y;
    }
  }
}
