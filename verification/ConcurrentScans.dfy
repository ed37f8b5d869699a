/** A walk of a reader's iterator through the skip list while the writer goes on inserting. */
module ConcurrentScans {
  import opened SkipOrder
  import opened SkipLists
  import opened ConcurrentSkipLists

  /** At step `n` reader `r`, an iterator at cell `id`, loads the link to the next cell. */
  ghost predicate LoadsNext<K>(states: seq<List<K>>, events: seq<Event<K>>, r: nat, n: nat, id: nat, result: Link) {
    && n < |events| < |states| && events[n] == ReaderLoad(r)
    && r < |states[n].readers| && states[n].readers[r] == Finding(Behind(id), id, 0)
    && r < |states[n + 1].readers| && states[n + 1].readers[r] == Returned(Behind(id), result)
  }

  /** From the head to the end of the list: the cells `ids`, each left at its time. */
  ghost predicate Walk<K>(states: seq<List<K>>, events: seq<Event<K>>, r: nat, times: seq<nat>, ids: seq<nat>) {
    && ids != [] && |times| == |ids| && ids[0] == 0
    && (forall k :: 0 <= k < |ids| ==> LoadsNext(states, events, r, times[k], ids[k], LinkAt(ids, k + 1)))
    && (forall j, k :: 0 <= j < k < |times| ==> times[j] < times[k])
  }

  lemma PathDistinct<K(!new)>(compare: (K, K) -> int, s: List<K>, path: seq<nat>)
    requires Inv(compare, s) && IsPath(s.heap, 0, path)
    ensures forall n, m :: 0 <= n < m < |path| ==> path[n] != path[m]
  {
    var order, hs := PathIs(compare, s, 0, path);
    OnPathOnce(order, hs, 0);
  }

  /** A path that is found behind one cell has the next one there, and a cell further on is not before it. */
  lemma NextNotBeyond<K(!new)>(compare: (K, K) -> int, heap: seq<Cell<K>>, path: seq<nat>, a: nat, result: Link, id: nat)
    requires IsOrder(compare) && path != [] && path[0] == 0 && Ascending(compare, heap, path)
    requires forall n, m :: 0 <= n < m < |path| ==> path[n] != path[m]
    requires IsBehind(path, a, result) && id in path && id != 0
    requires a != 0 ==> compare(heap[a].key, heap[id].key) < 0
    ensures result.To? && result.id in path && result.id != 0
    ensures result.id == id || compare(heap[result.id].key, heap[id].key) < 0
  {
    var n :| 0 <= n < |path| && path[n] == a && result == LinkAt(path, n + 1);
    var k :| 0 <= k < |path| && path[k] == id;
    if a == 0 {
      assert n == 0;
    }
  }

  /** Behind a cell other than the head comes one with a larger key. */
  lemma NextIsLarger<K(!new)>(compare: (K, K) -> int, heap: seq<Cell<K>>, path: seq<nat>, a: nat, result: Link)
    requires path != [] && path[0] == 0 && Ascending(compare, heap, path)
    requires IsBehind(path, a, result) && a != 0 && result.To?
    ensures compare(heap[a].key, heap[result.id].key) < 0
  {
  }

  /** What a step of the walk sees. */
  lemma StepSees<K(!new)>(compare: (K, K) -> int, states: seq<List<K>>, events: seq<Event<K>>, r: nat, n: nat, id: nat, result: Link)
    returns (path: seq<nat>)
    requires IsOrder(compare) && Run(compare, states, events) && LoadsNext(states, events, r, n, id, result)
    ensures IsPath(states[n].heap, 0, path) && Ascending(compare, states[n].heap, path) && IsBehind(path, id, result)
    ensures forall i, j :: 0 <= i < j < |path| ==> path[i] != path[j]
  {
    path := PathAt(compare, states, events, n, 0);
    FindIsAtomic(compare, states, events, n, r, path);
    RunKeepsInv(compare, states, events, n);
    PathDistinct(compare, states[n], path);
  }

  /** Every cell that the walk comes to is in the list when it does. */
  lemma ScanSeesOnlyLinked<K(!new)>(compare: (K, K) -> int, states: seq<List<K>>, events: seq<Event<K>>,
                                    r: nat, times: seq<nat>, ids: seq<nat>, k: nat, path: seq<nat>)
    requires IsOrder(compare) && Run(compare, states, events) && Walk(states, events, r, times, ids)
    requires k + 1 < |ids| && IsPath(states[times[k]].heap, 0, path)
    ensures ids[k + 1] in path
  {
    assert LoadsNext(states, events, r, times[k], ids[k], LinkAt(ids, k + 1));
    var seen := StepSees(compare, states, events, r, times[k], ids[k], LinkAt(ids, k + 1));
    PathUnique(states[times[k]].heap, 0, seen, path);
  }

  /** The key of a cell, which never changes. */
  ghost function KeyOf<K(0)>(states: seq<List<K>>, id: nat): K
    requires states != [] && id < |states[|states| - 1].heap|
  {
    states[|states| - 1].heap[id].key
  }

  lemma KeyIs<K(0, !new)>(compare: (K, K) -> int, states: seq<List<K>>, events: seq<Event<K>>, n: nat, id: nat)
    requires IsOrder(compare) && Run(compare, states, events) && n < |states| && id < |states[n].heap|
    ensures id < |states[|states| - 1].heap| && KeyOf(states, id) == states[n].heap[id].key
  {
    KeysStay(compare, states, events, n, |states| - 1, id);
  }

  /** Two cells that follow one another in the walk. */
  lemma NeighboursAscend<K(0, !new)>(compare: (K, K) -> int, states: seq<List<K>>, events: seq<Event<K>>,
                                     r: nat, n: nat, a: nat, b: nat)
    requires IsOrder(compare) && Run(compare, states, events) && LoadsNext(states, events, r, n, a, To(b)) && a != 0
    ensures a < |states[|states| - 1].heap| && b < |states[|states| - 1].heap|
    ensures compare(KeyOf(states, a), KeyOf(states, b)) < 0
  {
    var path := StepSees(compare, states, events, r, n, a, To(b));
    NextIsLarger(compare, states[n].heap, path, a, To(b));
    KeyIs(compare, states, events, n, a);
    KeyIs(compare, states, events, n, b);
  }

  lemma NotTheHead<K(!new)>(compare: (K, K) -> int, states: seq<List<K>>, events: seq<Event<K>>, r: nat, n: nat, a: nat, b: nat)
    requires IsOrder(compare) && Run(compare, states, events) && LoadsNext(states, events, r, n, a, To(b))
    ensures b != 0
  {
    var path := StepSees(compare, states, events, r, n, a, To(b));
  }

  /** The keys that a walk sees ascend. */
  lemma {:induction false} ScanAscends<K(0, !new)>(compare: (K, K) -> int, states: seq<List<K>>, events: seq<Event<K>>,
                                                   r: nat, times: seq<nat>, ids: seq<nat>, i: nat, j: nat)
    requires IsOrder(compare) && Run(compare, states, events) && Walk(states, events, r, times, ids)
    requires 0 < i < j < |ids|
    ensures ids[i] < |states[|states| - 1].heap| && ids[j] < |states[|states| - 1].heap|
    ensures compare(KeyOf(states, ids[i]), KeyOf(states, ids[j])) < 0
    decreases j
  {
    assert LoadsNext(states, events, r, times[j - 2], ids[j - 2], LinkAt(ids, j - 1));
    assert LoadsNext(states, events, r, times[j - 1], ids[j - 1], LinkAt(ids, j));
    NotTheHead(compare, states, events, r, times[j - 2], ids[j - 2], ids[j - 1]);
    NeighboursAscend(compare, states, events, r, times[j - 1], ids[j - 1], ids[j]);
    if i < j - 1 {
      ScanAscends(compare, states, events, r, times, ids, i, j - 1);
      LessTransitive(compare, KeyOf(states, ids[i]), KeyOf(states, ids[j - 1]), KeyOf(states, ids[j]));
    }
  }

  /** A cell that is linked when the walk has not passed its place yet is still to come. */
  lemma {:induction false} StillToCome<K(0, !new)>(compare: (K, K) -> int, states: seq<List<K>>, events: seq<Event<K>>,
                                                   r: nat, times: seq<nat>, ids: seq<nat>, m: nat, path: seq<nat>, id: nat, k: nat)
    requires IsOrder(compare) && Run(compare, states, events) && Walk(states, events, r, times, ids)
    requires m <= times[0] && k < |ids| && IsPath(states[m].heap, 0, path) && id in path && id != 0
    requires id < |states[|states| - 1].heap| && ids[k] < |states[|states| - 1].heap|
    requires ids[k] != 0 ==> compare(KeyOf(states, ids[k]), KeyOf(states, id)) < 0
    ensures id in ids
    decreases |ids| - k
  {
    var next := LinkAt(ids, k + 1);
    assert LoadsNext(states, events, r, times[k], ids[k], next);
    NextTowards(compare, states, events, r, times[k], ids[k], next, m, path, id);
    assert next == To(ids[k + 1]);
    if next.id != id {
      StillToCome(compare, states, events, r, times, ids, m, path, id, k + 1);
    }
  }

  lemma NextTowards<K(0, !new)>(compare: (K, K) -> int, states: seq<List<K>>, events: seq<Event<K>>,
                                r: nat, n: nat, a: nat, next: Link, m: nat, path: seq<nat>, id: nat)
    requires IsOrder(compare) && Run(compare, states, events) && LoadsNext(states, events, r, n, a, next)
    requires m <= n && IsPath(states[m].heap, 0, path) && id in path && id != 0
    requires id < |states[|states| - 1].heap| && a < |states[|states| - 1].heap|
    requires a != 0 ==> compare(KeyOf(states, a), KeyOf(states, id)) < 0
    ensures next.To? && next.id < |states[|states| - 1].heap|
    ensures next.id == id || compare(KeyOf(states, next.id), KeyOf(states, id)) < 0
  {
    var now := StepSees(compare, states, events, r, n, a, next);
    LinkedStays(compare, states, events, m, n, 0, path, now, id);
    KeyIs(compare, states, events, n, id);
    KeyIs(compare, states, events, n, a);
    NextNotBeyond(compare, states[n].heap, now, a, next, id);
    KeyIs(compare, states, events, n, next.id);
  }

  /** A walk sees every cell that was linked before it began. */
  lemma ScanSeesLinked<K(0, !new)>(compare: (K, K) -> int, states: seq<List<K>>, events: seq<Event<K>>,
                                   r: nat, times: seq<nat>, ids: seq<nat>, m: nat, path: seq<nat>, id: nat)
    requires IsOrder(compare) && Run(compare, states, events) && Walk(states, events, r, times, ids)
    requires m <= times[0] && IsPath(states[m].heap, 0, path) && id in path && id != 0
    ensures id in ids
  {
    var known := PathAt(compare, states, events, m, 0);
    PathUnique(states[m].heap, 0, path, known);
    KeyIs(compare, states, events, m, id);
    StillToCome(compare, states, events, r, times, ids, m, path, id, 0);
  }
}
