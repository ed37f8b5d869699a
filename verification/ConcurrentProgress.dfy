/**
 What the concurrent skip list gets done: it holds exactly the keys that were
 inserted, at the heights that were drawn, every insert ends, and a search ends
 after a bounded number of loads whatever is inserted meanwhile.
 */
module ConcurrentProgress {
  import opened SkipOrder
  import opened SkipLists
  import opened ConcurrentSkipLists

  // ----- The keys

  /** The keys that inserts were called with, in order. */
  function Inserted<K>(events: seq<Event<K>>): seq<K>
    decreases |events|
  {
    if events == [] then []
    else
      var last := events[|events| - 1];
      Inserted(events[..|events| - 1]) + if last.StartInsert? then [last.key] else []
  }

  /** The heights that inserts drew, in order. */
  function DrawnHeights<K>(events: seq<Event<K>>): seq<nat>
    decreases |events|
  {
    if events == [] then []
    else
      var last := events[|events| - 1];
      DrawnHeights(events[..|events| - 1]) + if last.ChooseHeight? then [last.height] else []
  }

  /** The key of an insert that has no cell yet. */
  function PendingKey<K>(w: Writer<K>): seq<K> {
    if w.Seeking? || w.Found? || w.Raising? then [w.key] else []
  }

  function PendingHeight<K>(w: Writer<K>): seq<nat> {
    if w.Raising? then [w.height] else []
  }

  /** The keys of all cells but the head, in the order of their allocation. */
  function AllKeys<K>(heap: seq<Cell<K>>): (keys: seq<K>)
    requires heap != []
    ensures |keys| == |heap| - 1 && forall i :: 0 <= i < |keys| ==> keys[i] == heap[i + 1].key
  {
    seq(|heap| - 1, i requires 0 <= i < |heap| - 1 => heap[i + 1].key)
  }

  function AllHeights<K>(heap: seq<Cell<K>>): (hs: seq<nat>)
    requires heap != []
    ensures |hs| == |heap| - 1 && forall i :: 0 <= i < |hs| ==> hs[i] == |heap[i + 1].next|
  {
    seq(|heap| - 1, i requires 0 <= i < |heap| - 1 => |heap[i + 1].next|)
  }

  lemma StepKeys<K(!new)>(compare: (K, K) -> int, s: List<K>, e: Event<K>)
    requires s.heap != [] && Enabled(compare, s, e) && Safe(s, e)
    ensures var s' := Apply(compare, s, e);
      && s'.heap != []
      && AllKeys(s'.heap) + PendingKey(s'.writer) == AllKeys(s.heap) + PendingKey(s.writer) + if e.StartInsert? then [e.key] else []
  {
    var s' := Apply(compare, s, e);
    if e.Allocate? {
      assert AllKeys(s'.heap) == AllKeys(s.heap) + [s.writer.key];
    } else {
      assert AllKeys(s'.heap) == AllKeys(s.heap);
    }
  }

  lemma StepHeights<K(!new)>(compare: (K, K) -> int, s: List<K>, e: Event<K>)
    requires s.heap != [] && Enabled(compare, s, e) && Safe(s, e)
    ensures var s' := Apply(compare, s, e);
      && s'.heap != []
      && AllHeights(s'.heap) + PendingHeight(s'.writer) == AllHeights(s.heap) + PendingHeight(s.writer) + if e.ChooseHeight? then [e.height] else []
  {
    var s' := Apply(compare, s, e);
    if e.Allocate? {
      assert AllHeights(s'.heap) == AllHeights(s.heap) + [s.writer.height];
    } else {
      assert AllHeights(s'.heap) == AllHeights(s.heap);
    }
  }

  lemma TakeLast<T>(s: seq<T>, n: nat)
    requires n < |s|
    ensures s[..n + 1][..n] == s[..n] && s[..n + 1][n] == s[n]
  {
  }

  /** Cells and the insert under way together hold what was inserted: each key once, in order. */
  lemma {:induction false} KeysAreInserted<K(!new)>(compare: (K, K) -> int, states: seq<List<K>>, events: seq<Event<K>>, n: nat)
    requires IsOrder(compare) && Run(compare, states, events) && n < |states|
    ensures states[n].heap != []
    ensures AllKeys(states[n].heap) + PendingKey(states[n].writer) == Inserted(events[..n])
    decreases n
  {
    if n > 0 {
      KeysAreInserted(compare, states, events, n - 1);
      RunIsSafe(compare, states, events, n - 1);
      StepKeys(compare, states[n - 1], events[n - 1]);
      TakeLast(events, n - 1);
    }
  }

  /** And they have the heights that were drawn. */
  lemma {:induction false} HeightsAreDrawn<K(!new)>(compare: (K, K) -> int, states: seq<List<K>>, events: seq<Event<K>>, n: nat)
    requires IsOrder(compare) && Run(compare, states, events) && n < |states|
    ensures states[n].heap != []
    ensures AllHeights(states[n].heap) + PendingHeight(states[n].writer) == DrawnHeights(events[..n])
    decreases n
  {
    if n > 0 {
      HeightsAreDrawn(compare, states, events, n - 1);
      RunIsSafe(compare, states, events, n - 1);
      StepHeights(compare, states[n - 1], events[n - 1]);
      TakeLast(events, n - 1);
    }
  }

  /** Between inserts the lowest level, followed from the head, has the keys that were inserted and no others. */
  lemma ListIsInserted<K(!new)>(compare: (K, K) -> int, states: seq<List<K>>, events: seq<Event<K>>, n: nat, path: seq<nat>, key: K)
    requires IsOrder(compare) && Run(compare, states, events) && n < |states|
    requires states[n].writer.Idle? && IsPath(states[n].heap, 0, path)
    ensures key in Inserted(events[..n]) <==> OnList(states[n].heap, path, key)
  {
    var heap := states[n].heap;
    KeysAreInserted(compare, states, events, n);
    HeightsAreDrawn(compare, states, events, n);
    assert AllKeys(heap) == Inserted(events[..n]);
    if key in Inserted(events[..n]) {
      var i :| 0 <= i < |AllKeys(heap)| && AllKeys(heap)[i] == key;
      HasLowestLevel(compare, states, events, n, i + 1);
      IdleIsComplete(compare, states, events, n, 0, path, i + 1);
      assert heap[i + 1].key == key;
    }
    if OnList(heap, path, key) {
      var id :| id in path && 0 < id < |heap| && heap[id].key == key;
      assert AllKeys(heap)[id - 1] == key;
    }
  }

  ghost predicate OnList<K>(heap: seq<Cell<K>>, path: seq<nat>, key: K) {
    exists id :: id in path && 0 < id < |heap| && heap[id].key == key
  }

  lemma HasLowestLevel<K(!new)>(compare: (K, K) -> int, states: seq<List<K>>, events: seq<Event<K>>, n: nat, id: nat)
    requires IsOrder(compare) && Run(compare, states, events) && n < |states| && states[n].writer.Idle? && id < |states[n].heap|
    ensures 0 < |states[n].heap[id].next|
  {
    RunKeepsInv(compare, states, events, n);
    var order, hs :| InvWith(compare, states[n], order, hs);
    assert id in order;
  }

  // ----- Inserts end

  /** How many steps an insert has left at most. */
  function StepsLeft<K>(s: List<K>, seen: nat): int {
    match s.writer
    case Idle => 0
    case Seeking(key, at, level, prev) => 40 + level + |s.heap| - seen
    case Found(key, result, prev) => 39
    case Raising(key, height, prev) => 37 + if height > s.maxHeight then 1 else 0
    case Publishing(id, level, height, prev, stage) => 3 * (height - level) - if stage.Loading? then 0 else if stage.Loaded? then 1 else 2
  }

  /** The cells that a search has come up to. */
  function Seen<K>(compare: (K, K) -> int, heap: seq<Cell<K>>, at: nat): set<nat>
    requires at < |heap|
  {
    if at == 0 then {} else set id: nat | 0 < id < |heap| && compare(heap[id].key, heap[at].key) <= 0
  }

  lemma {:induction false} RangeSize(n: nat, s: set<nat>)
    requires forall id :: id in s ==> 0 < id < n
    ensures |s| < n || (n == 0 && s == {})
    decreases n
  {
    if n <= 1 {
      assert s == {};
    } else {
      RangeSize(n - 1, s - {n - 1});
    }
  }

  lemma SeenBound<K(!new)>(compare: (K, K) -> int, heap: seq<Cell<K>>, at: nat)
    requires at < |heap|
    ensures |Seen(compare, heap, at)| < |heap|
  {
    RangeSize(|heap|, Seen(compare, heap, at));
  }

  lemma {:induction false} SubsetSize<T>(a: set<T>, b: set<T>)
    requires a <= b
    ensures |a| <= |b|
    decreases |a|
  {
    if a != {} {
      var x :| x in a;
      SubsetSize(a - {x}, b - {x});
    }
  }

  /** A cell further on in the order has been seen together with all before it. */
  lemma SeenMore<K(!new)>(compare: (K, K) -> int, heap: seq<Cell<K>>, at: nat, next: nat)
    requires IsOrder(compare) && at < |heap| && 0 < next < |heap|
    requires at > 0 ==> compare(heap[at].key, heap[next].key) < 0
    ensures |Seen(compare, heap, at)| < |Seen(compare, heap, next)|
  {
    var a, b := Seen(compare, heap, at), Seen(compare, heap, next);
    forall id | id in a
      ensures id in b && id != next
    {
      LessTransitive(compare, heap[id].key, heap[at].key, heap[next].key);
    }
    assert next in b;
    SubsetSize(a, b - {next});
  }

  ghost predicate KeepsKeys<K>(heap: seq<Cell<K>>, heap': seq<Cell<K>>) {
    |heap| <= |heap'| && forall id :: 0 <= id < |heap| ==> heap'[id].key == heap[id].key
  }

  lemma SeenKept<K(!new)>(compare: (K, K) -> int, heap: seq<Cell<K>>, heap': seq<Cell<K>>, at: nat)
    requires at < |heap| && KeepsKeys(heap, heap')
    ensures |Seen(compare, heap, at)| <= |Seen(compare, heap', at)|
  {
    SubsetSize(Seen(compare, heap, at), Seen(compare, heap', at));
  }

  lemma StepKeepsKeys<K(!new)>(compare: (K, K) -> int, s: List<K>, e: Event<K>)
    requires Safe(s, e)
    ensures KeepsKeys(s.heap, Apply(compare, s, e).heap)
  {
  }

  /** A link leads to a cell with a larger key. */
  lemma LeadsUp<K(!new)>(compare: (K, K) -> int, s: List<K>, order: seq<nat>, hs: seq<nat>, query: Query<K>, at: nat, level: nat)
    requires IsOrder(compare) && InvWith(compare, s, order, hs) && Stands(compare, s.heap, order, hs, query, at, level)
    ensures CanFollow(s.heap, at, level)
    ensures var next := s.heap[at].next[level];
      next.To? ==> 0 < next.id && (at > 0 ==> compare(s.heap[at].key, s.heap[next.id].key) < 0)
  {
    Follow(compare, s.heap, order, hs, query, at, level);
    var i :| 0 <= i < |order| && order[i] == at && level < hs[i];
    var j := NextIndex(hs, i, level);
    assert s.heap[order[i]].next[level] == LinkAt(order, j);
    if j < |order| {
      assert order[0] != order[j];
      assert KeysIn(s.heap, order)[j - 1] == s.heap[order[j]].key;
      if i > 0 {
        assert KeysIn(s.heap, order)[i - 1] == s.heap[order[i]].key;
      }
    }
  }

  /** The steps that the writer takes. */
  predicate IsWriters<K>(e: Event<K>) {
    !e.StartFind? && !e.StartNext? && !e.ReaderLoad?
  }

  function SeenByWriter<K>(compare: (K, K) -> int, s: List<K>): nat {
    if s.writer.Seeking? && s.writer.at < |s.heap| then |Seen(compare, s.heap, s.writer.at)| else 0
  }

  /** The number of steps left: not negative. */
  function Left<K>(compare: (K, K) -> int, s: List<K>): int {
    StepsLeft(s, SeenByWriter(compare, s))
  }

  /** Every step of the writer within an insert brings it closer to its end, and no step of a reader delays it. */
  lemma WriterGetsOn<K(!new)>(compare: (K, K) -> int, s: List<K>, e: Event<K>, s': List<K>)
    requires IsOrder(compare) && Inv(compare, s) && Step(compare, s, e, s')
    ensures !IsWriters(e) ==> Left(compare, s') == Left(compare, s)
    ensures IsWriters(e) && !e.StartInsert? ==> Left(compare, s') < Left(compare, s)
  {
    StepKeepsInv(compare, s, e, s');
    if !IsWriters(e) {
      ReadersDelayNothing(compare, s, e);
    } else if e.WriterLoad? {
      var order, hs :| InvWith(compare, s, order, hs);
      SeekGetsOn(compare, s, order, hs);
    } else if !e.StartInsert? {
      RaisingHeight(compare, s);
      OthersGetOn(compare, s, e);
    }
  }

  lemma ReadersDelayNothing<K(!new)>(compare: (K, K) -> int, s: List<K>, e: Event<K>)
    requires Safe(s, e) && !IsWriters(e)
    ensures Left(compare, Apply(compare, s, e)) == Left(compare, s)
  {
  }

  lemma RaisingHeight<K(!new)>(compare: (K, K) -> int, s: List<K>)
    requires Inv(compare, s)
    ensures s.writer.Raising? ==> s.writer.height <= 12
  {
    var order, hs :| InvWith(compare, s, order, hs);
  }

  lemma OthersGetOn<K(!new)>(compare: (K, K) -> int, s: List<K>, e: Event<K>)
    requires Enabled(compare, s, e) && Safe(s, e) && IsWriters(e) && !e.StartInsert? && !e.WriterLoad?
    requires s.writer.Raising? ==> s.writer.height <= 12
    ensures Left(compare, Apply(compare, s, e)) < Left(compare, s)
  {
  }

  lemma SeekGetsOn<K(!new)>(compare: (K, K) -> int, s: List<K>, order: seq<nat>, hs: seq<nat>)
    requires IsOrder(compare) && InvWith(compare, s, order, hs) && s.writer.Seeking? && Safe(s, WriterLoad)
    ensures Left(compare, Apply(compare, s, WriterLoad)) < Left(compare, s)
  {
    var w := s.writer;
    LeadsUp(compare, s, order, hs, Ceiling(w.key), w.at, w.level);
    SeenBound(compare, s.heap, w.at);
    var next := s.heap[w.at].next[w.level];
    if next.To? {
      SeenMore(compare, s.heap, w.at, next.id);
    }
  }

  /** Until an insert has ended its next step can be taken. */
  lemma WriterIsNeverStuck<K(!new)>(compare: (K, K) -> int, s: List<K>) returns (e: Event<K>)
    requires Inv(compare, s) && !s.writer.Idle?
    ensures Enabled(compare, s, e) && IsWriters(e) && !e.StartInsert?
    ensures 0 < Left(compare, s) <= 40 + MAX_HEIGHT + |s.heap|
  {
    var order, hs :| InvWith(compare, s, order, hs);
    match s.writer
    case Seeking(key, at, level, prev) =>
      e := WriterLoad;
      assert at < |s.heap|;
      SeenBound(compare, s.heap, at);
    case Found(key, result, prev) => e := ChooseHeight(1);
    case Raising(key, height, prev) => e := if height > s.maxHeight then StoreMaxHeight else Allocate(seq(height, _ => Null));
    case Publishing(id, level, height, prev, stage) =>
      e := if stage.Loading? then LoadPred else if stage.Loaded? then StoreOwn else StorePred;
  }

  /** Nobody waits: a reader can always take a step, and an insert of a new key can begin as soon as the last one has ended. */
  lemma NobodyWaits<K(!new)>(compare: (K, K) -> int, s: List<K>, r: nat, key: K)
    requires Inv(compare, s) && r < |s.readers|
    ensures Enabled(compare, s, ReaderLoad(r)) <==> s.readers[r].Finding?
    ensures Enabled(compare, s, StartFind(r, Ceiling(key), s.maxHeight)) <==> !s.readers[r].Finding?
    ensures Enabled(compare, s, StartInsert(key)) <==> s.writer.Idle? && NewKey(compare, s.heap, key)
  {
    var order, hs :| InvWith(compare, s, order, hs);
  }

  // ----- Searches end

  /** How many loads reader `r` makes from step `m` to step `n`. */
  function Loads<K>(events: seq<Event<K>>, r: nat, m: nat, n: nat): nat
    requires m <= n <= |events|
    decreases n
  {
    if m == n then 0 else Loads(events, r, m, n - 1) + if events[n - 1] == ReaderLoad(r) then 1 else 0
  }

  predicate IsFinding<K>(s: List<K>, r: nat) {
    r < |s.readers| && s.readers[r].Finding? && s.readers[r].at < |s.heap|
  }

  /** A load of a search that goes on takes it a level down, or to a larger key; no other step moves it. */
  lemma ReaderGetsOn<K(!new)>(compare: (K, K) -> int, s: List<K>, e: Event<K>, s': List<K>, r: nat)
    requires IsOrder(compare) && Inv(compare, s) && Step(compare, s, e, s') && IsFinding(s, r) && IsFinding(s', r)
    ensures var was, is_ := s.readers[r], s'.readers[r];
      (if e == ReaderLoad(r) then 1 else 0) + is_.level + |Seen(compare, s.heap, was.at)| <= was.level + |Seen(compare, s'.heap, is_.at)|
  {
    StepKeepsInv(compare, s, e, s');
    if e == ReaderLoad(r) {
      var order, hs :| InvWith(compare, s, order, hs);
      var was := s.readers[r];
      assert ReaderInv(compare, s.heap, order, hs, was);
      LeadsUp(compare, s, order, hs, was.query, was.at, was.level);
      var next := s.heap[was.at].next[was.level];
      if next.To? {
        SeenMore(compare, s.heap, was.at, next.id);
      }
    } else {
      StepKeepsKeys(compare, s, e);
      SeenKept(compare, s.heap, s'.heap, s.readers[r].at);
    }
  }

  lemma FindingStands<K(!new)>(compare: (K, K) -> int, states: seq<List<K>>, events: seq<Event<K>>, n: nat, r: nat)
    requires IsOrder(compare) && Run(compare, states, events) && n < |states|
    requires r < |states[n].readers| && states[n].readers[r].Finding?
    ensures IsFinding(states[n], r)
  {
    RunKeepsInv(compare, states, events, n);
    var order, hs :| InvWith(compare, states[n], order, hs);
    assert ReaderInv(compare, states[n].heap, order, hs, states[n].readers[r]);
  }

  lemma {:induction false} LoadsBounded<K(!new)>(compare: (K, K) -> int, states: seq<List<K>>, events: seq<Event<K>>, r: nat, m: nat, n: nat)
    requires IsOrder(compare) && Run(compare, states, events) && m <= n < |states|
    requires IsFinding(states[m], r) && IsFinding(states[n], r) && forall k :: m < k < n ==> IsFinding(states[k], r)
    ensures Loads(events, r, m, n) + states[n].readers[r].level + |Seen(compare, states[m].heap, states[m].readers[r].at)|
         <= states[m].readers[r].level + |Seen(compare, states[n].heap, states[n].readers[r].at)|
    decreases n
  {
    if m < n {
      LoadsBounded(compare, states, events, r, m, n - 1);
      RunKeepsInv(compare, states, events, n - 1);
      assert StepAt(compare, states, events, n - 1);
      ReaderGetsOn(compare, states[n - 1], events[n - 1], states[n], r);
    }
  }

  /**
   Whatever the writer and the other readers do, a search that has not returned yet
   has made fewer loads than there are cells and levels above its own.
   */
  lemma SearchIsBounded<K(!new)>(compare: (K, K) -> int, states: seq<List<K>>, events: seq<Event<K>>, r: nat, m: nat, n: nat)
    requires IsOrder(compare) && Run(compare, states, events) && m <= n < |states|
    requires forall k :: m <= k <= n ==> r < |states[k].readers| && states[k].readers[r].Finding?
    ensures Loads(events, r, m, n) < states[m].readers[r].level + |states[n].heap|
  {
    forall k | m <= k <= n
      ensures IsFinding(states[k], r)
    {
      FindingStands(compare, states, events, k, r);
    }
    LoadsBounded(compare, states, events, r, m, n);
    SeenBound(compare, states[n].heap, states[n].readers[r].at);
  }
}
