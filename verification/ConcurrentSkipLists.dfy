/**
 The skip list of include/leveldb/__detail/skip_list.h with one writer and any
 number of readers, one load or store a step.  Steps are sequentially
 consistent; a reader may start from any height the list has ever had.
 */
module ConcurrentSkipLists {
  import opened SkipOrder
  import opened SkipLists

  datatype Link = Null | To(id: nat)

  /** A node is allocated with whatever its links happen to hold. */
  datatype Cell<K> = Cell(key: K, next: seq<Link>)

  datatype Writer<K> =
    | Idle
    | Seeking(key: K, at: nat, level: nat, prev: seq<nat>)
    | Found(key: K, result: Link, prev: seq<nat>)
    | Raising(key: K, height: nat, prev: seq<nat>)
    | Publishing(id: nat, level: nat, height: nat, prev: seq<nat>, stage: Stage)

  /** How far a level of the new cell is: the predecessor's link loaded, and stored as the cell's own. */
  datatype Stage = Loading | Loaded(link: Link) | Stored

  /** `find_greater_or_equal`, `find_less_than`, `find_last`, and the iterator's load of the link behind a cell. */
  datatype Query<K> = Ceiling(key: K) | Below(key: K) | Last | Behind(id: nat)

  datatype Reader<K> =
    | Resting
    | Finding(query: Query<K>, at: nat, level: nat)
    | Returned(query: Query<K>, result: Link)

  /** The head is cell 0. */
  datatype List<K> = List(heap: seq<Cell<K>>, maxHeight: nat, writer: Writer<K>, readers: seq<Reader<K>>)

  datatype Event<K> =
    | StartInsert(key: K)
    | WriterLoad
    | ChooseHeight(height: nat)
    | StoreMaxHeight
    | Allocate(links: seq<Link>)
    | LoadPred
    | StoreOwn
    | StorePred
    | StartFind(r: nat, query: Query<K>, height: nat)
    | StartNext(r: nat, id: nat)
    | ReaderLoad(r: nat)

  ghost predicate Init<K>(s: List<K>) {
    && |s.heap| == 1 && |s.heap[0].next| == MAX_HEIGHT
    && (forall l :: 0 <= l < MAX_HEIGHT ==> s.heap[0].next[l] == Null)
    && s.maxHeight == 1
    && s.writer == Idle
    && (forall r :: 0 <= r < |s.readers| ==> s.readers[r] == Resting)
  }

  // ----- Steps

  /** `insert` is called for keys that the list does not hold. */
  ghost predicate NewKey<K>(compare: (K, K) -> int, heap: seq<Cell<K>>, key: K) {
    forall id :: 0 < id < |heap| ==> compare(heap[id].key, key) != 0
  }

  /** An iterator goes on from the head or from what a query gave it. */
  predicate MayFollow<K>(reader: Reader<K>, id: nat) {
    id == 0 || (reader.Returned? && reader.result == To(id))
  }

  /** Where the program may take the step `e`. */
  ghost predicate Enabled<K>(compare: (K, K) -> int, s: List<K>, e: Event<K>) {
    match e
    case StartInsert(key) => s.writer.Idle? && NewKey(compare, s.heap, key)
    case WriterLoad => s.writer.Seeking?
    case ChooseHeight(height) => s.writer.Found? && 1 <= height <= MAX_HEIGHT
    case StoreMaxHeight => s.writer.Raising? && s.writer.height > s.maxHeight
    case Allocate(links) => s.writer.Raising? && s.writer.height <= s.maxHeight && |links| == s.writer.height
    case LoadPred => s.writer.Publishing? && s.writer.stage.Loading?
    case StoreOwn => s.writer.Publishing? && s.writer.stage.Loaded?
    case StorePred => s.writer.Publishing? && s.writer.stage.Stored?
    case StartFind(r, query, height) =>
      r < |s.readers| && !s.readers[r].Finding? && 1 <= height <= s.maxHeight && !query.Behind?
    case StartNext(r, id) => r < |s.readers| && !s.readers[r].Finding? && MayFollow(s.readers[r], id)
    case ReaderLoad(r) => r < |s.readers| && s.readers[r].Finding?
  }

  predicate HasLink<K>(heap: seq<Cell<K>>, at: nat, level: nat) {
    at < |heap| && level < |heap[at].next|
  }

  predicate CanFollow<K>(heap: seq<Cell<K>>, at: nat, level: nat) {
    HasLink(heap, at, level) && (heap[at].next[level].To? ==> heap[at].next[level].id < |heap|)
  }

  /** The step touches allocated memory only, and no array out of its bounds. */
  predicate Safe<K>(s: List<K>, e: Event<K>) {
    match e
    case StartInsert(key) => s.maxHeight > 0
    case StoreMaxHeight => s.writer.Raising?
    case Allocate(links) => s.writer.Raising?
    case StartFind(r, query, height) => r < |s.readers| && height > 0
    case StartNext(r, id) => r < |s.readers|
    case WriterLoad => s.writer.Seeking? && CanFollow(s.heap, s.writer.at, s.writer.level) && s.writer.level < |s.writer.prev|
    case ChooseHeight(height) => s.writer.Found? && s.maxHeight <= |s.writer.prev| && height <= |s.writer.prev|
    case LoadPred => CanPublish(s)
    case StoreOwn => CanPublish(s) && s.writer.stage.Loaded?
    case StorePred => CanPublish(s)
    case ReaderLoad(r) =>
      r < |s.readers| && s.readers[r].Finding? && CanFollow(s.heap, s.readers[r].at, s.readers[r].level)
  }

  predicate CanPublish<K>(s: List<K>) {
    var w := s.writer;
    && w.Publishing? && w.level < |w.prev|
    && HasLink(s.heap, w.id, w.level) && HasLink(s.heap, w.prev[w.level], w.level)
  }

  predicate KeyIsAfter<K>(compare: (K, K) -> int, heap: seq<Cell<K>>, key: K, link: Link)
    requires link.To? ==> link.id < |heap|
  {
    link.To? && compare(heap[link.id].key, key) < 0
  }

  function SetLink<K>(heap: seq<Cell<K>>, at: nat, level: nat, link: Link): (heap': seq<Cell<K>>)
    requires HasLink(heap, at, level)
    ensures |heap'| == |heap|
  {
    heap[at := Cell(heap[at].key, heap[at].next[level := link])]
  }

  function SeekStep<K>(compare: (K, K) -> int, heap: seq<Cell<K>>, w: Writer<K>): Writer<K>
    requires w.Seeking? && CanFollow(heap, w.at, w.level) && w.level < |w.prev|
  {
    var next := heap[w.at].next[w.level];
    if KeyIsAfter(compare, heap, w.key, next) then w.(at := next.id)
    else if w.level == 0 then Found(w.key, next, w.prev[0 := w.at])
    else Seeking(w.key, w.at, w.level - 1, w.prev[w.level := w.at])
  }

  /** The search goes on to the cell that the link leads to. */
  predicate GoesOn<K>(compare: (K, K) -> int, heap: seq<Cell<K>>, query: Query<K>, link: Link)
    requires link.To? ==> link.id < |heap|
  {
    if query.Ceiling? || query.Below? then KeyIsAfter(compare, heap, query.key, link)
    else query.Last? && link.To?
  }

  /** What is returned by a search that ends at the cell `at`, whose link is `next`. */
  function ResultOf<K>(query: Query<K>, at: nat, next: Link): Link {
    if query.Below? || query.Last? then To(at) else next
  }

  function FindStep<K>(compare: (K, K) -> int, heap: seq<Cell<K>>, reader: Reader<K>): Reader<K>
    requires reader.Finding? && CanFollow(heap, reader.at, reader.level)
  {
    var next := heap[reader.at].next[reader.level];
    if GoesOn(compare, heap, reader.query, next) then reader.(at := next.id)
    else if reader.level == 0 then Returned(reader.query, ResultOf(reader.query, reader.at, next))
    else reader.(level := reader.level - 1)
  }

  /** prev[i] = head for the levels that the list did not have. */
  function WithHeads(prev: seq<nat>, from: nat, to: nat): seq<nat>
    requires from <= |prev| && to <= |prev|
  {
    seq(|prev|, i requires 0 <= i < |prev| => if from <= i < to then 0 else prev[i])
  }

  function Apply<K>(compare: (K, K) -> int, s: List<K>, e: Event<K>): List<K>
    requires Safe(s, e)
  {
    match e
    case StartInsert(key) => s.(writer := Seeking(key, 0, s.maxHeight - 1, seq(MAX_HEIGHT, _ => 0)))
    case WriterLoad => s.(writer := SeekStep(compare, s.heap, s.writer))
    case ChooseHeight(height) =>
      s.(writer := Raising(s.writer.key, height, WithHeads(s.writer.prev, s.maxHeight, height)))
    case StoreMaxHeight => s.(maxHeight := s.writer.height)
    case Allocate(links) =>
      s.(heap := s.heap + [Cell(s.writer.key, links)],
         writer := Publishing(|s.heap|, 0, s.writer.height, s.writer.prev, Loading))
    case LoadPred =>
      var w := s.writer;
      s.(writer := w.(stage := Loaded(s.heap[w.prev[w.level]].next[w.level])))
    case StoreOwn =>
      var w := s.writer;
      s.(heap := SetLink(s.heap, w.id, w.level, w.stage.link), writer := w.(stage := Stored))
    case StorePred =>
      var w := s.writer;
      s.(heap := SetLink(s.heap, w.prev[w.level], w.level, To(w.id)),
         writer := if w.level + 1 == w.height then Idle else w.(level := w.level + 1, stage := Loading))
    case StartFind(r, query, height) => s.(readers := s.readers[r := Finding(query, 0, height - 1)])
    case StartNext(r, id) => s.(readers := s.readers[r := Finding(Behind(id), id, 0)])
    case ReaderLoad(r) => s.(readers := s.readers[r := FindStep(compare, s.heap, s.readers[r])])
  }

  // ----- What every reachable state looks like

  function LinkAt(order: seq<nat>, j: nat): Link {
    if j < |order| then To(order[j]) else Null
  }

  /** The cells of the list in order; cell `order[i]` is linked at its lowest `hs[i]` levels. */
  ghost predicate Chain<K>(heap: seq<Cell<K>>, order: seq<nat>, hs: seq<nat>) {
    && Cells(heap, order, hs)
    && forall i, l :: 0 <= i < |order| && 0 <= l < hs[i] ==> heap[order[i]].next[l] == LinkAt(order, NextIndex(hs, i, l))
  }

  ghost predicate Cells<K>(heap: seq<Cell<K>>, order: seq<nat>, hs: seq<nat>) {
    && |hs| == |order| > 0
    && order[0] == 0 && hs[0] == MAX_HEIGHT
    && (forall i :: 0 <= i < |order| ==> order[i] < |heap| && hs[i] <= |heap[order[i]].next|)
    && (forall i, j :: 0 <= i < j < |order| ==> order[i] != order[j])
  }

  function KeysIn<K>(heap: seq<Cell<K>>, order: seq<nat>): (keys: seq<K>)
    requires order != [] && forall i :: 0 <= i < |order| ==> order[i] < |heap|
    ensures |keys| == |order| - 1
    ensures forall i :: 0 <= i < |keys| ==> keys[i] == heap[order[i + 1]].key
  {
    seq(|order| - 1, i requires 0 <= i < |order| - 1 => heap[order[i + 1]].key)
  }

  /** A search may pass a cell with this key. */
  predicate Passes<K>(compare: (K, K) -> int, query: Query<K>, key: K) {
    query.Ceiling? || query.Below? ==> compare(key, query.key) < 0
  }

  /** A search may stand at cell `at`, on `level`. */
  ghost predicate Stands<K>(compare: (K, K) -> int, heap: seq<Cell<K>>, order: seq<nat>, hs: seq<nat>, query: Query<K>, at: nat, level: nat)
    requires Cells(heap, order, hs)
  {
    exists i :: 0 <= i < |order| && order[i] == at && level < hs[i] && (i > 0 ==> Passes(compare, query, heap[at].key))
  }

  /** What is returned is a cell of level 0, or none. */
  ghost predicate ReaderInv<K>(compare: (K, K) -> int, heap: seq<Cell<K>>, order: seq<nat>, hs: seq<nat>, reader: Reader<K>)
    requires Cells(heap, order, hs)
  {
    && (reader.Finding? ==>
          && Stands(compare, heap, order, hs, reader.query, reader.at, reader.level)
          && (reader.query.Behind? ==> reader.query.id == reader.at))
    && (reader.Returned? && reader.result.To? ==> Stands(compare, heap, order, hs, Last, reader.result.id, 0))
  }

  /** On the levels `from` to `to`, `prev` holds the cells before position `p`. */
  ghost predicate Before(order: seq<nat>, hs: seq<nat>, p: nat, prev: seq<nat>, from: nat, to: nat)
  {
    && |hs| == |order| && 0 < p <= |order| && |prev| == MAX_HEIGHT && to <= MAX_HEIGHT && hs[0] == MAX_HEIGHT
    && forall l :: from <= l < to ==> prev[l] == order[PrevIndex(hs, p, l)]
  }

  ghost function Position<K>(compare: (K, K) -> int, heap: seq<Cell<K>>, order: seq<nat>, key: K): nat
    requires order != [] && forall i :: 0 <= i < |order| ==> order[i] < |heap|
  {
    1 + Rank(compare, KeysIn(heap, order), key)
  }

  /** All cells are linked at all their levels, but for `busy`, which has got to `done`. */
  ghost predicate Finished<K>(heap: seq<Cell<K>>, order: seq<nat>, hs: seq<nat>, maxHeight: nat, busy: Link, done: nat)
    requires Cells(heap, order, hs)
  {
    && (forall i :: 0 < i < |order| ==> |heap[order[i]].next| <= maxHeight)
    && (forall i :: 0 <= i < |order| ==> hs[i] == if busy == To(order[i]) then done else |heap[order[i]].next|)
    && (forall i :: 0 <= i < |order| ==> |heap[order[i]].next| >= 1)
  }

  ghost predicate WriterInv<K>(compare: (K, K) -> int, s: List<K>, order: seq<nat>, hs: seq<nat>)
    requires Cells(s.heap, order, hs)
  {
    var w := s.writer;
    (!w.Publishing? ==> Finished(s.heap, order, hs, s.maxHeight, Null, 0)) &&
    match w
    case Idle => true
    case Seeking(key, at, level, prev) =>
      && NewKey(compare, s.heap, key)
      && level < s.maxHeight
      && Before(order, hs, Position(compare, s.heap, order, key), prev, level + 1, s.maxHeight)
      && Stands(compare, s.heap, order, hs, Ceiling(key), at, level)
    case Found(key, result, prev) =>
      && NewKey(compare, s.heap, key)
      && Before(order, hs, Position(compare, s.heap, order, key), prev, 0, s.maxHeight)
      && result == LinkAt(order, Position(compare, s.heap, order, key))
    case Raising(key, height, prev) =>
      && NewKey(compare, s.heap, key)
      && Before(order, hs, Position(compare, s.heap, order, key), prev, 0, height)
      && 1 <= height
    case Publishing(id, level, height, prev, stage) =>
      && Finished(s.heap, order, hs, s.maxHeight, To(id), level)
      && exists p :: PublishingAt(s.heap, order, hs, w, p)
  }

  ghost predicate PublishingAt<K>(heap: seq<Cell<K>>, order: seq<nat>, hs: seq<nat>, w: Writer<K>, p: nat)
    requires Cells(heap, order, hs) && w.Publishing?
  {
    && 0 < p < |order| && order[p] == w.id && hs[p] == w.level
    && w.level < w.height == |heap[w.id].next|
    && Before(order, hs, p, w.prev, w.level, w.height)
    && (w.stage.Loaded? ==> w.stage.link == LinkAt(order, NextIndex(hs, p, w.level)))
    && (w.stage.Stored? ==> heap[w.id].next[w.level] == LinkAt(order, NextIndex(hs, p, w.level)))
  }

  ghost predicate AllIn(order: seq<nat>, cells: nat) {
    forall id :: 0 <= id < cells ==> id in order
  }

  ghost predicate InvWith<K>(compare: (K, K) -> int, s: List<K>, order: seq<nat>, hs: seq<nat>) {
    && Chain(s.heap, order, hs)
    && Sorted(compare, KeysIn(s.heap, order))
    && 1 <= s.maxHeight <= MAX_HEIGHT
    && WriterInv(compare, s, order, hs)
    && AllIn(order, |s.heap|)
    && forall r :: 0 <= r < |s.readers| ==> ReaderInv(compare, s.heap, order, hs, s.readers[r])
  }

  ghost predicate Inv<K>(compare: (K, K) -> int, s: List<K>) {
    exists order, hs :: InvWith(compare, s, order, hs)
  }

  lemma InitHolds<K(!new)>(compare: (K, K) -> int, s: List<K>)
    requires Init(s)
    ensures Inv(compare, s)
  {
    assert forall l :: 0 <= l < MAX_HEIGHT ==> NextIndex([MAX_HEIGHT], 0, l) == 1;
    assert 0 in [0];
    assert InvWith(compare, s, [0], [MAX_HEIGHT]);
  }

  // ----- Searches: the heap stays as it is

  /** A link from where a search stands leads to an allocated cell, and the search may stand there if it goes on. */
  lemma Follow<K(!new)>(compare: (K, K) -> int, heap: seq<Cell<K>>, order: seq<nat>, hs: seq<nat>, query: Query<K>, at: nat, level: nat)
    requires Chain(heap, order, hs) && Stands(compare, heap, order, hs, query, at, level)
    ensures CanFollow(heap, at, level)
    ensures var next := heap[at].next[level];
      GoesOn(compare, heap, query, next) ==> Stands(compare, heap, order, hs, query, next.id, level)
    ensures level > 0 ==> Stands(compare, heap, order, hs, query, at, level - 1)
    ensures var next := heap[at].next[level]; next.To? ==> Stands(compare, heap, order, hs, Last, next.id, level)
    ensures Stands(compare, heap, order, hs, Last, at, level)
  {
    var i :| 0 <= i < |order| && order[i] == at && level < hs[i] && (i > 0 ==> Passes(compare, query, heap[at].key));
    var j := NextIndex(hs, i, level);
    assert heap[order[i]].next[level] == LinkAt(order, j);
    if j < |order| {
      assert order[j] < |heap|;
    }
  }

  /** Positions before that of `key` have smaller keys, the others do not. */
  lemma BeforePosition<K(!new)>(compare: (K, K) -> int, heap: seq<Cell<K>>, order: seq<nat>, hs: seq<nat>, key: K, i: nat)
    requires IsOrder(compare) && Cells(heap, order, hs) && Sorted(compare, KeysIn(heap, order))
    requires 0 < i <= |order|
    ensures 0 < Position(compare, heap, order, key) <= |order|
    ensures KeyIsAfter(compare, heap, key, LinkAt(order, i)) <==> i < Position(compare, heap, order, key)
  {
    RankSplits(compare, KeysIn(heap, order), key);
    if i < |order| {
      assert KeysIn(heap, order)[i - 1] == heap[order[i]].key;
    }
  }

  /** A search that does not go on stands at the last cell before the position of the key. */
  lemma SearchEnds<K(!new)>(compare: (K, K) -> int, heap: seq<Cell<K>>, order: seq<nat>, hs: seq<nat>, key: K, at: nat, level: nat)
    requires IsOrder(compare) && Chain(heap, order, hs) && Sorted(compare, KeysIn(heap, order))
    requires Stands(compare, heap, order, hs, Ceiling(key), at, level) && CanFollow(heap, at, level) && level < MAX_HEIGHT
    requires !KeyIsAfter(compare, heap, key, heap[at].next[level])
    ensures var p := Position(compare, heap, order, key);
      0 < p <= |order| && at == order[PrevIndex(hs, p, level)]
      && heap[at].next[level] == LinkAt(order, NextIndex(hs, PrevIndex(hs, p, level), level))
      && NextIndex(hs, PrevIndex(hs, p, level), level) >= p
  {
    var i :| 0 <= i < |order| && order[i] == at && level < hs[i] && (i > 0 ==> Passes(compare, Ceiling(key), heap[at].key));
    var p, j := Position(compare, heap, order, key), NextIndex(hs, i, level);
    BeforePosition(compare, heap, order, hs, key, j);
    if i > 0 {
      BeforePosition(compare, heap, order, hs, key, i);
    }
    SearchStops(hs, i, level, p);
  }

  lemma StartInsertStep<K(!new)>(compare: (K, K) -> int, s: List<K>, order: seq<nat>, hs: seq<nat>, key: K)
    requires IsOrder(compare) && InvWith(compare, s, order, hs) && Enabled(compare, s, StartInsert(key))
    ensures InvWith(compare, Apply(compare, s, StartInsert(key)), order, hs)
  {
    assert order[0] == 0 && s.maxHeight - 1 < hs[0];
    assert Stands(compare, s.heap, order, hs, Ceiling(key), 0, s.maxHeight - 1);
  }

  lemma WriterLoadStep<K(!new)>(compare: (K, K) -> int, s: List<K>, order: seq<nat>, hs: seq<nat>)
    requires IsOrder(compare) && InvWith(compare, s, order, hs) && s.writer.Seeking?
    ensures Safe(s, WriterLoad) && InvWith(compare, Apply(compare, s, WriterLoad), order, hs)
  {
    var w := s.writer;
    Follow(compare, s.heap, order, hs, Ceiling(w.key), w.at, w.level);
    if !KeyIsAfter(compare, s.heap, w.key, s.heap[w.at].next[w.level]) {
      WriterLoadEnds(compare, s, order, hs);
    }
  }

  lemma WriterLoadEnds<K(!new)>(compare: (K, K) -> int, s: List<K>, order: seq<nat>, hs: seq<nat>)
    requires IsOrder(compare) && s.writer.Seeking?
    requires Chain(s.heap, order, hs) && Sorted(compare, KeysIn(s.heap, order)) && s.maxHeight <= MAX_HEIGHT
    requires WriterInv(compare, s, order, hs)
    requires CanFollow(s.heap, s.writer.at, s.writer.level)
    requires !KeyIsAfter(compare, s.heap, s.writer.key, s.heap[s.writer.at].next[s.writer.level])
    requires s.writer.level > 0 ==> Stands(compare, s.heap, order, hs, Ceiling(s.writer.key), s.writer.at, s.writer.level - 1)
    ensures s.writer.level < |s.writer.prev|
    ensures WriterInv(compare, s.(writer := SeekStep(compare, s.heap, s.writer)), order, hs)
  {
    var w := s.writer;
    SearchEnds(compare, s.heap, order, hs, w.key, w.at, w.level);
    var p := Position(compare, s.heap, order, w.key);
    BeforeExtended(order, hs, p, w.prev, w.at, w.level, s.maxHeight);
    if w.level == 0 {
      NoneBetween(s.heap, order, hs, s.maxHeight, p);
    }
  }

  lemma BeforeExtended(order: seq<nat>, hs: seq<nat>, p: nat, prev: seq<nat>, at: nat, level: nat, to: nat)
    requires Before(order, hs, p, prev, level + 1, to) && level < to
    requires at == order[PrevIndex(hs, p, level)]
    ensures Before(order, hs, p, prev[level := at], level, to)
  {
  }

  /** When all cells are linked, the cell after the predecessor at the lowest level is the one at the position. */
  lemma NoneBetween<K>(heap: seq<Cell<K>>, order: seq<nat>, hs: seq<nat>, maxHeight: nat, p: nat)
    requires Cells(heap, order, hs) && Finished(heap, order, hs, maxHeight, Null, 0)
    requires 0 < p <= |order| && NextIndex(hs, PrevIndex(hs, p, 0), 0) >= p
    ensures NextIndex(hs, PrevIndex(hs, p, 0), 0) == p
  {
    if p < |order| {
      assert hs[p] >= 1;
    }
  }

  lemma ChooseHeightStep<K(!new)>(compare: (K, K) -> int, s: List<K>, order: seq<nat>, hs: seq<nat>, height: nat)
    requires IsOrder(compare) && InvWith(compare, s, order, hs) && Enabled(compare, s, ChooseHeight(height))
    ensures Safe(s, ChooseHeight(height)) && InvWith(compare, Apply(compare, s, ChooseHeight(height)), order, hs)
  {
    var p := Position(compare, s.heap, order, s.writer.key);
    var prev := WithHeads(s.writer.prev, s.maxHeight, height);
    forall l | 0 <= l < height
      ensures prev[l] == order[PrevIndex(hs, p, l)]
    {
      if l >= s.maxHeight {
        PrevIndexUnique(hs, p, l, 0);
      }
    }
  }

  lemma StoreMaxHeightStep<K(!new)>(compare: (K, K) -> int, s: List<K>, order: seq<nat>, hs: seq<nat>)
    requires IsOrder(compare) && InvWith(compare, s, order, hs) && Enabled(compare, s, StoreMaxHeight)
    ensures InvWith(compare, Apply(compare, s, StoreMaxHeight), order, hs)
  {
  }

  lemma StartFindStep<K(!new)>(compare: (K, K) -> int, s: List<K>, order: seq<nat>, hs: seq<nat>, r: nat, query: Query<K>, height: nat)
    requires IsOrder(compare) && InvWith(compare, s, order, hs) && Enabled(compare, s, StartFind(r, query, height))
    ensures InvWith(compare, Apply(compare, s, StartFind(r, query, height)), order, hs)
  {
    assert order[0] == 0 && height - 1 < hs[0];
    assert Stands(compare, s.heap, order, hs, query, 0, height - 1);
  }

  lemma StartNextStep<K(!new)>(compare: (K, K) -> int, s: List<K>, order: seq<nat>, hs: seq<nat>, r: nat, id: nat)
    requires IsOrder(compare) && InvWith(compare, s, order, hs) && Enabled(compare, s, StartNext(r, id))
    ensures InvWith(compare, Apply(compare, s, StartNext(r, id)), order, hs)
  {
    if id == 0 {
      assert order[0] == 0 && 0 < hs[0];
    } else {
      assert ReaderInv(compare, s.heap, order, hs, s.readers[r]);
      var i :| 0 <= i < |order| && order[i] == id && 0 < hs[i];
    }
    assert Stands(compare, s.heap, order, hs, Behind(id), id, 0);
  }

  lemma ReaderLoadStep<K(!new)>(compare: (K, K) -> int, s: List<K>, order: seq<nat>, hs: seq<nat>, r: nat)
    requires IsOrder(compare) && InvWith(compare, s, order, hs) && Enabled(compare, s, ReaderLoad(r))
    ensures Safe(s, ReaderLoad(r)) && InvWith(compare, Apply(compare, s, ReaderLoad(r)), order, hs)
  {
    assert ReaderInv(compare, s.heap, order, hs, s.readers[r]);
    FindStepKeeps(compare, s.heap, order, hs, s.readers[r]);
  }

  lemma FindStepKeeps<K(!new)>(compare: (K, K) -> int, heap: seq<Cell<K>>, order: seq<nat>, hs: seq<nat>, reader: Reader<K>)
    requires Chain(heap, order, hs) && reader.Finding? && ReaderInv(compare, heap, order, hs, reader)
    ensures CanFollow(heap, reader.at, reader.level)
    ensures ReaderInv(compare, heap, order, hs, FindStep(compare, heap, reader))
  {
    Follow(compare, heap, order, hs, reader.query, reader.at, reader.level);
  }

  // ----- Stores

  /** The same cells with the same keys and as many links. */
  ghost predicate SameCells<K>(heap: seq<Cell<K>>, heap': seq<Cell<K>>) {
    && |heap| == |heap'|
    && forall id :: 0 <= id < |heap| ==> heap[id].key == heap'[id].key && |heap[id].next| == |heap'[id].next|
  }

  lemma StandsKept<K(!new)>(compare: (K, K) -> int, heap: seq<Cell<K>>, heap': seq<Cell<K>>,
                            order: seq<nat>, hs: seq<nat>, hs': seq<nat>, query: Query<K>, at: nat, level: nat)
    requires Cells(heap, order, hs) && Cells(heap', order, hs') && SameCells(heap, heap')
    requires forall i :: 0 <= i < |hs| ==> hs[i] <= hs'[i]
    requires Stands(compare, heap, order, hs, query, at, level)
    ensures Stands(compare, heap', order, hs', query, at, level)
  {
    var i :| 0 <= i < |order| && order[i] == at && level < hs[i] && (i > 0 ==> Passes(compare, query, heap[at].key));
    assert level < hs'[i];
  }

  lemma ReaderKept<K(!new)>(compare: (K, K) -> int, heap: seq<Cell<K>>, heap': seq<Cell<K>>,
                            order: seq<nat>, hs: seq<nat>, hs': seq<nat>, reader: Reader<K>)
    requires Cells(heap, order, hs) && Cells(heap', order, hs') && SameCells(heap, heap')
    requires forall i :: 0 <= i < |hs| ==> hs[i] <= hs'[i]
    requires ReaderInv(compare, heap, order, hs, reader)
    ensures ReaderInv(compare, heap', order, hs', reader)
  {
    match reader
    case Resting =>
    case Finding(query, at, level) => StandsKept(compare, heap, heap', order, hs, hs', query, at, level);
    case Returned(_, result) =>
      if result.To? {
        StandsKept(compare, heap, heap', order, hs, hs', Last, result.id, 0);
      }
  }

  lemma ReadersKept<K(!new)>(compare: (K, K) -> int, heap: seq<Cell<K>>, heap': seq<Cell<K>>,
                             order: seq<nat>, hs: seq<nat>, hs': seq<nat>, readers: seq<Reader<K>>)
    requires Cells(heap, order, hs) && Cells(heap', order, hs') && SameCells(heap, heap')
    requires forall i :: 0 <= i < |hs| ==> hs[i] <= hs'[i]
    requires forall r :: 0 <= r < |readers| ==> ReaderInv(compare, heap, order, hs, readers[r])
    ensures forall r :: 0 <= r < |readers| ==> ReaderInv(compare, heap', order, hs', readers[r])
    ensures KeysIn(heap', order) == KeysIn(heap, order)
  {
    forall r | 0 <= r < |readers|
      ensures ReaderInv(compare, heap', order, hs', readers[r])
    {
      ReaderKept(compare, heap, heap', order, hs, hs', readers[r]);
    }
  }

  lemma LoadPredStep<K(!new)>(compare: (K, K) -> int, s: List<K>, order: seq<nat>, hs: seq<nat>, p: nat)
    requires IsOrder(compare) && InvWith(compare, s, order, hs) && Enabled(compare, s, LoadPred)
    requires PublishingAt(s.heap, order, hs, s.writer, p)
    ensures Safe(s, LoadPred) && InvWith(compare, Apply(compare, s, LoadPred), order, hs)
  {
    PublishIsSafe(compare, s, order, hs, p);
    OwnLinkReady(s.heap, order, hs, p, s.writer.level);
    var s' := Apply(compare, s, LoadPred);
    assert PublishingAt(s'.heap, order, hs, s'.writer, p);
  }

  lemma StoreOwnStep<K(!new)>(compare: (K, K) -> int, s: List<K>, order: seq<nat>, hs: seq<nat>, p: nat)
    requires IsOrder(compare) && InvWith(compare, s, order, hs) && Enabled(compare, s, StoreOwn)
    requires PublishingAt(s.heap, order, hs, s.writer, p)
    ensures Safe(s, StoreOwn) && InvWith(compare, Apply(compare, s, StoreOwn), order, hs)
  {
    var w := s.writer;
    PublishIsSafe(compare, s, order, hs, p);
    OwnLinkReady(s.heap, order, hs, p, w.level);
    var s' := Apply(compare, s, StoreOwn);
    assert PublishingAt(s'.heap, order, hs, s'.writer, p);
    StoreKeepsInv(compare, s, s', order, hs, hs);
  }

  lemma StoreKeepsInv<K(!new)>(compare: (K, K) -> int, s: List<K>, s': List<K>, order: seq<nat>, hs: seq<nat>, hs': seq<nat>)
    requires InvWith(compare, s, order, hs) && SameCells(s.heap, s'.heap) && Chain(s'.heap, order, hs')
    requires forall i :: 0 <= i < |hs| ==> hs[i] <= hs'[i]
    requires s'.maxHeight == s.maxHeight && s'.readers == s.readers && WriterInv(compare, s', order, hs')
    ensures InvWith(compare, s', order, hs')
  {
    ReadersKept(compare, s.heap, s'.heap, order, hs, hs', s.readers);
  }

  lemma OwnLinkReady<K>(heap: seq<Cell<K>>, order: seq<nat>, hs: seq<nat>, p: nat, level: nat)
    requires Chain(heap, order, hs) && 0 < p < |order| && hs[p] == level < MAX_HEIGHT
    requires level < |heap[order[p]].next|
    ensures var at := order[PrevIndex(hs, p, level)];
      && HasLink(heap, at, level)
      && heap[at].next[level] == LinkAt(order, NextIndex(hs, p, level))
      && Chain(SetLink(heap, order[p], level, heap[at].next[level]), order, hs)
  {
    PrevThenNext(hs, p, level);
  }

  lemma PublishIsSafe<K(!new)>(compare: (K, K) -> int, s: List<K>, order: seq<nat>, hs: seq<nat>, p: nat)
    requires Cells(s.heap, order, hs) && s.writer.Publishing? && s.maxHeight <= MAX_HEIGHT
    requires PublishingAt(s.heap, order, hs, s.writer, p)
    ensures CanPublish(s) && s.writer.prev[s.writer.level] == order[PrevIndex(hs, p, s.writer.level)]
  {
  }

  lemma StorePredStep<K(!new)>(compare: (K, K) -> int, s: List<K>, order: seq<nat>, hs: seq<nat>, p: nat)
    requires IsOrder(compare) && InvWith(compare, s, order, hs) && Enabled(compare, s, StorePred)
    requires PublishingAt(s.heap, order, hs, s.writer, p)
    ensures Safe(s, StorePred)
    ensures InvWith(compare, Apply(compare, s, StorePred), order, hs[p := s.writer.level + 1])
  {
    StorePredHeap(compare, s, order, hs, p);
    var s' := Apply(compare, s, StorePred);
    WriterPublished(compare, s, s', order, hs, p);
    StoreKeepsInv(compare, s, s', order, hs, hs[p := s.writer.level + 1]);
  }

  lemma StorePredHeap<K(!new)>(compare: (K, K) -> int, s: List<K>, order: seq<nat>, hs: seq<nat>, p: nat)
    requires Chain(s.heap, order, hs) && s.writer.Publishing? && s.writer.stage.Stored? && s.maxHeight <= MAX_HEIGHT
    requires PublishingAt(s.heap, order, hs, s.writer, p)
    ensures Safe(s, StorePred)
    ensures var heap' := Apply(compare, s, StorePred).heap;
      SameCells(s.heap, heap') && Chain(heap', order, hs[p := s.writer.level + 1])
  {
    PublishIsSafe(compare, s, order, hs, p);
    ChainAfterPublish(s.heap, order, hs, p, s.writer.level);
  }

  lemma WriterPublished<K(!new)>(compare: (K, K) -> int, s: List<K>, s': List<K>, order: seq<nat>, hs: seq<nat>, p: nat)
    requires s.writer.Publishing? && Cells(s.heap, order, hs) && WriterInv(compare, s, order, hs)
    requires PublishingAt(s.heap, order, hs, s.writer, p)
    requires SameCells(s.heap, s'.heap) && s.maxHeight == s'.maxHeight
    requires Cells(s'.heap, order, hs[p := s.writer.level + 1])
    requires s'.writer == if s.writer.level + 1 == s.writer.height then Idle
                          else s.writer.(level := s.writer.level + 1, stage := Loading)
    ensures WriterInv(compare, s', order, hs[p := s.writer.level + 1])
  {
    var w, hs' := s.writer, hs[p := s.writer.level + 1];
    if w.level + 1 < w.height {
      BeforeKept(order, hs, hs', p, w.prev, w.level, w.height);
      assert PublishingAt(s'.heap, order, hs', s'.writer, p);
    }
  }

  lemma BeforeKept(order: seq<nat>, hs: seq<nat>, hs': seq<nat>, p: nat, prev: seq<nat>, from: nat, to: nat)
    requires Before(order, hs, p, prev, from, to)
    requires |hs'| == |hs| && forall i :: 0 <= i < p ==> hs'[i] == hs[i]
    ensures Before(order, hs', p, prev, from + 1, to)
  {
    forall l | from < l < to
      ensures prev[l] == order[PrevIndex(hs', p, l)]
    {
      PrevIndexPrefix(hs, hs', p, l);
    }
  }

  lemma ChainAfterPublish<K>(heap: seq<Cell<K>>, order: seq<nat>, hs: seq<nat>, p: nat, level: nat)
    requires Chain(heap, order, hs) && 0 < p < |order| && hs[p] == level < MAX_HEIGHT
    requires level < |heap[order[p]].next| && heap[order[p]].next[level] == LinkAt(order, NextIndex(hs, p, level))
    ensures var at := order[PrevIndex(hs, p, level)];
      HasLink(heap, at, level) && Chain(SetLink(heap, at, level, To(order[p])), order, hs[p := level + 1])
  {
    var q := PrevIndex(hs, p, level);
    var heap', hs' := SetLink(heap, order[q], level, To(order[p])), hs[p := level + 1];
    forall i, l | 0 <= i < |order| && 0 <= l < hs'[i]
      ensures heap'[order[i]].next[l] == LinkAt(order, NextIndex(hs', i, l))
    {
      RaiseOne(hs, p, level, i, l);
      if i == p && l == level {
      } else if i == q && l == level {
      } else {
        assert l < hs[i];
        assert heap'[order[i]].next[l] == heap[order[i]].next[l];
      }
    }
  }

  // ----- A new cell: it takes its place in the order at once, linked at no level

  lemma AllocateStep<K(!new)>(compare: (K, K) -> int, s: List<K>, order: seq<nat>, hs: seq<nat>, links: seq<Link>)
    requires IsOrder(compare) && InvWith(compare, s, order, hs) && Enabled(compare, s, Allocate(links))
    ensures var p := Position(compare, s.heap, order, s.writer.key);
      && 0 < p <= |order|
      && InvWith(compare, Apply(compare, s, Allocate(links)), InsertAt(order, p, |s.heap|), InsertAt(hs, p, 0))
  {
    var w, s' := s.writer, Apply(compare, s, Allocate(links));
    var p := Position(compare, s.heap, order, w.key);
    var order', hs' := InsertAt(order, p, |s.heap|), InsertAt(hs, p, 0);
    var cell := Cell(w.key, links);
    ChainInsert(s.heap, order, hs, p, cell);
    SortedInsert(compare, s.heap, order, hs, cell);
    BeforeInsert(order, hs, p, w.prev, w.height, |s.heap|);
    FinishedInsert(s.heap, order, hs, p, s.maxHeight, cell);
    InsertAtIndex(order, p, |s.heap|, p);
    InsertAtIndex(hs, p, 0, p);
    AllInInserted(order, |s.heap|, p);
    assert PublishingAt(s'.heap, order', hs', s'.writer, p);
    forall r | 0 <= r < |s.readers|
      ensures ReaderInv(compare, s'.heap, order', hs', s.readers[r])
    {
      ReaderInsert(compare, s.heap, order, hs, p, cell, s.readers[r]);
    }
  }

  lemma AllInInserted(order: seq<nat>, cells: nat, p: nat)
    requires AllIn(order, cells) && p <= |order|
    ensures AllIn(InsertAt(order, p, cells), cells + 1)
  {
    InsertAtIndex(order, p, cells, p);
    forall id | 0 <= id < cells
      ensures id in InsertAt(order, p, cells)
    {
      InInserted(order, p, cells, id);
    }
  }

  lemma CellsInsert<K>(heap: seq<Cell<K>>, order: seq<nat>, hs: seq<nat>, p: nat, cell: Cell<K>)
    requires Cells(heap, order, hs) && 0 < p <= |order|
    ensures Cells(heap + [cell], InsertAt(order, p, |heap|), InsertAt(hs, p, 0))
  {
    forall i | 0 <= i <= |order|
      ensures InsertAt(order, p, |heap|)[i] == if i < p then order[i] else if i == p then |heap| else order[i - 1]
      ensures InsertAt(hs, p, 0)[i] == if i < p then hs[i] else if i == p then 0 else hs[i - 1]
    {
      InsertAtIndex(order, p, |heap|, i);
      InsertAtIndex(hs, p, 0, i);
    }
  }

  lemma ChainInsert<K>(heap: seq<Cell<K>>, order: seq<nat>, hs: seq<nat>, p: nat, cell: Cell<K>)
    requires Chain(heap, order, hs) && 0 < p <= |order|
    ensures Chain(heap + [cell], InsertAt(order, p, |heap|), InsertAt(hs, p, 0))
  {
    var heap', order', hs' := heap + [cell], InsertAt(order, p, |heap|), InsertAt(hs, p, 0);
    CellsInsert(heap, order, hs, p, cell);
    forall i, l | 0 <= i < |order'| && 0 <= l < hs'[i]
      ensures heap'[order'[i]].next[l] == LinkAt(order', NextIndex(hs', i, l))
    {
      InsertAtIndex(hs, p, 0, i);
      var k: nat := if i < p then i else i - 1;
      assert i == Shifted(k, p) && l < hs[k];
      InsertAtIndex(order, p, |heap|, i);
      InsertUnlinked(hs, p, k, l);
      LinkAtInsert(order, p, |heap|, NextIndex(hs, k, l));
    }
  }

  lemma LinkAtInsert(order: seq<nat>, p: nat, id: nat, j: nat)
    requires p <= |order| && j <= |order|
    ensures LinkAt(InsertAt(order, p, id), Shifted(j, p)) == LinkAt(order, j)
  {
    if j < |order| {
      InsertAtIndex(order, p, id, Shifted(j, p));
    }
  }

  lemma SortedInsert<K(!new)>(compare: (K, K) -> int, heap: seq<Cell<K>>, order: seq<nat>, hs: seq<nat>, cell: Cell<K>)
    requires IsOrder(compare) && Cells(heap, order, hs) && Sorted(compare, KeysIn(heap, order))
    requires NewKey(compare, heap, cell.key)
    ensures var p := Position(compare, heap, order, cell.key);
      && 0 < p <= |order|
      && Cells(heap + [cell], InsertAt(order, p, |heap|), InsertAt(hs, p, 0))
      && KeysIn(heap + [cell], InsertAt(order, p, |heap|)) == InsertAt(KeysIn(heap, order), p - 1, cell.key)
      && Sorted(compare, KeysIn(heap + [cell], InsertAt(order, p, |heap|)))
  {
    var p := Position(compare, heap, order, cell.key);
    NoneEqual(compare, heap, order, hs, cell.key);
    InsertSorted(compare, KeysIn(heap, order), cell.key);
    KeysInsert(heap, order, hs, p, cell);
  }

  lemma NoneEqual<K(!new)>(compare: (K, K) -> int, heap: seq<Cell<K>>, order: seq<nat>, hs: seq<nat>, key: K)
    requires Cells(heap, order, hs) && NewKey(compare, heap, key)
    ensures forall k :: k in KeysIn(heap, order) ==> compare(k, key) != 0
  {
    forall i | 0 <= i < |KeysIn(heap, order)|
      ensures compare(KeysIn(heap, order)[i], key) != 0
    {
      assert order[0] != order[i + 1];
    }
  }

  lemma KeysInsert<K>(heap: seq<Cell<K>>, order: seq<nat>, hs: seq<nat>, p: nat, cell: Cell<K>)
    requires Cells(heap, order, hs) && 0 < p <= |order|
    ensures Cells(heap + [cell], InsertAt(order, p, |heap|), InsertAt(hs, p, 0))
    ensures KeysIn(heap + [cell], InsertAt(order, p, |heap|)) == InsertAt(KeysIn(heap, order), p - 1, cell.key)
  {
    CellsInsert(heap, order, hs, p, cell);
    var keys, order' := KeysIn(heap, order), InsertAt(order, p, |heap|);
    forall i | 0 <= i < |order|
      ensures KeysIn(heap + [cell], order')[i] == InsertAt(keys, p - 1, cell.key)[i]
    {
      InsertAtIndex(order, p, |heap|, i + 1);
      InsertAtIndex(keys, p - 1, cell.key, i);
    }
  }

  lemma BeforeInsert(order: seq<nat>, hs: seq<nat>, p: nat, prev: seq<nat>, to: nat, id: nat)
    requires Before(order, hs, p, prev, 0, to)
    ensures Before(InsertAt(order, p, id), InsertAt(hs, p, 0), p, prev, 0, to)
  {
    forall l | 0 <= l < to
      ensures prev[l] == InsertAt(order, p, id)[PrevIndex(InsertAt(hs, p, 0), p, l)]
    {
      PrevIndexPrefix(hs, InsertAt(hs, p, 0), p, l);
    }
  }

  lemma FinishedInsert<K>(heap: seq<Cell<K>>, order: seq<nat>, hs: seq<nat>, p: nat, maxHeight: nat, cell: Cell<K>)
    requires Cells(heap, order, hs) && 0 < p <= |order|
    requires Finished(heap, order, hs, maxHeight, Null, 0) && 1 <= |cell.next| <= maxHeight
    ensures Cells(heap + [cell], InsertAt(order, p, |heap|), InsertAt(hs, p, 0))
    ensures Finished(heap + [cell], InsertAt(order, p, |heap|), InsertAt(hs, p, 0), maxHeight, To(|heap|), 0)
  {
    CellsInsert(heap, order, hs, p, cell);
    forall i | 0 <= i <= |order|
      ensures InsertAt(order, p, |heap|)[i] == if i < p then order[i] else if i == p then |heap| else order[i - 1]
      ensures InsertAt(hs, p, 0)[i] == if i < p then hs[i] else if i == p then 0 else hs[i - 1]
    {
      InsertAtIndex(order, p, |heap|, i);
      InsertAtIndex(hs, p, 0, i);
    }
  }

  lemma StandsInsert<K(!new)>(compare: (K, K) -> int, heap: seq<Cell<K>>, order: seq<nat>, hs: seq<nat>,
                              p: nat, cell: Cell<K>, query: Query<K>, at: nat, level: nat)
    requires Cells(heap, order, hs) && 0 < p <= |order|
    requires Cells(heap + [cell], InsertAt(order, p, |heap|), InsertAt(hs, p, 0))
    requires Stands(compare, heap, order, hs, query, at, level)
    ensures Stands(compare, heap + [cell], InsertAt(order, p, |heap|), InsertAt(hs, p, 0), query, at, level)
  {
    var i :| 0 <= i < |order| && order[i] == at && level < hs[i] && (i > 0 ==> Passes(compare, query, heap[at].key));
    InsertAtIndex(order, p, |heap|, Shifted(i, p));
    InsertAtIndex(hs, p, 0, Shifted(i, p));
  }

  lemma ReaderInsert<K(!new)>(compare: (K, K) -> int, heap: seq<Cell<K>>, order: seq<nat>, hs: seq<nat>,
                              p: nat, cell: Cell<K>, reader: Reader<K>)
    requires Cells(heap, order, hs) && 0 < p <= |order|
    requires ReaderInv(compare, heap, order, hs, reader)
    ensures Cells(heap + [cell], InsertAt(order, p, |heap|), InsertAt(hs, p, 0))
    ensures ReaderInv(compare, heap + [cell], InsertAt(order, p, |heap|), InsertAt(hs, p, 0), reader)
  {
    CellsInsert(heap, order, hs, p, cell);
    match reader
    case Resting =>
    case Finding(query, at, level) => StandsInsert(compare, heap, order, hs, p, cell, query, at, level);
    case Returned(_, result) =>
      if result.To? {
        StandsInsert(compare, heap, order, hs, p, cell, Last, result.id, 0);
      }
  }

  // ----- Whole runs

  /** A step outside allocated memory may do anything at all. */
  ghost predicate Step<K>(compare: (K, K) -> int, s: List<K>, e: Event<K>, s': List<K>) {
    Enabled(compare, s, e) && (Safe(s, e) ==> s' == Apply(compare, s, e))
  }

  ghost predicate Run<K>(compare: (K, K) -> int, states: seq<List<K>>, events: seq<Event<K>>) {
    && |states| == |events| + 1
    && Init(states[0])
    && forall n :: 0 <= n < |events| ==> StepAt(compare, states, events, n)
  }

  ghost predicate StepAt<K>(compare: (K, K) -> int, states: seq<List<K>>, events: seq<Event<K>>, n: nat)
    requires n < |events| < |states|
  {
    Step(compare, states[n], events[n], states[n + 1])
  }

  lemma StepKeepsInv<K(!new)>(compare: (K, K) -> int, s: List<K>, e: Event<K>, s': List<K>)
    requires IsOrder(compare) && Inv(compare, s) && Step(compare, s, e, s')
    ensures Safe(s, e) && Inv(compare, s')
  {
    var order, hs :| InvWith(compare, s, order, hs);
    if e.Allocate? || e.LoadPred? || e.StoreOwn? || e.StorePred? {
      HeapStep(compare, s, order, hs, e);
    } else {
      LocalStep(compare, s, order, hs, e);
    }
  }

  /** Steps of the readers, and of the writer before it has a new cell. */
  lemma LocalStep<K(!new)>(compare: (K, K) -> int, s: List<K>, order: seq<nat>, hs: seq<nat>, e: Event<K>)
    requires IsOrder(compare) && InvWith(compare, s, order, hs) && Enabled(compare, s, e)
    requires !e.Allocate? && !e.LoadPred? && !e.StoreOwn? && !e.StorePred?
    ensures Safe(s, e) && InvWith(compare, Apply(compare, s, e), order, hs)
  {
    match e
    case StartInsert(key) => StartInsertStep(compare, s, order, hs, key);
    case WriterLoad => WriterLoadStep(compare, s, order, hs);
    case ChooseHeight(height) => ChooseHeightStep(compare, s, order, hs, height);
    case StoreMaxHeight => StoreMaxHeightStep(compare, s, order, hs);
    case StartFind(r, query, height) => StartFindStep(compare, s, order, hs, r, query, height);
    case StartNext(r, id) => StartNextStep(compare, s, order, hs, r, id);
    case ReaderLoad(r) => ReaderLoadStep(compare, s, order, hs, r);
  }

  /** Steps of the writer that make a cell and link it. */
  lemma HeapStep<K(!new)>(compare: (K, K) -> int, s: List<K>, order: seq<nat>, hs: seq<nat>, e: Event<K>)
    requires IsOrder(compare) && InvWith(compare, s, order, hs) && Enabled(compare, s, e)
    requires e.Allocate? || e.LoadPred? || e.StoreOwn? || e.StorePred?
    ensures Safe(s, e) && Inv(compare, Apply(compare, s, e))
  {
    if e.Allocate? {
      AllocateStep(compare, s, order, hs, e.links);
    } else {
      PublishStep(compare, s, order, hs, e);
    }
  }

  lemma PublishStep<K(!new)>(compare: (K, K) -> int, s: List<K>, order: seq<nat>, hs: seq<nat>, e: Event<K>)
    requires IsOrder(compare) && InvWith(compare, s, order, hs) && Enabled(compare, s, e)
    requires e.LoadPred? || e.StoreOwn? || e.StorePred?
    ensures Safe(s, e) && Inv(compare, Apply(compare, s, e))
  {
    var p :| PublishingAt(s.heap, order, hs, s.writer, p);
    if e.LoadPred? {
      LoadPredStep(compare, s, order, hs, p);
    } else if e.StoreOwn? {
      StoreOwnStep(compare, s, order, hs, p);
    } else {
      StorePredStep(compare, s, order, hs, p);
    }
  }

  lemma {:induction false} RunKeepsInv<K(!new)>(compare: (K, K) -> int, states: seq<List<K>>, events: seq<Event<K>>, n: nat)
    requires IsOrder(compare) && Run(compare, states, events) && n < |states|
    ensures Inv(compare, states[n])
  {
    if n == 0 {
      InitHolds(compare, states[0]);
    } else {
      RunKeepsInv(compare, states, events, n - 1);
      assert StepAt(compare, states, events, n - 1);
      StepKeepsInv(compare, states[n - 1], events[n - 1], states[n]);
    }
  }

  /** No step of any run leaves allocated memory. */
  lemma RunIsSafe<K(!new)>(compare: (K, K) -> int, states: seq<List<K>>, events: seq<Event<K>>, n: nat)
    requires IsOrder(compare) && Run(compare, states, events) && n < |events|
    ensures Safe(states[n], events[n]) && states[n + 1] == Apply(compare, states[n], events[n])
    ensures Enabled(compare, states[n], events[n])
  {
    RunKeepsInv(compare, states, events, n);
    assert StepAt(compare, states, events, n);
    StepKeepsInv(compare, states[n], events[n], states[n + 1]);
  }

  // ----- What the memory looks like from outside: the links of one level, followed from the head

  ghost predicate IsPath<K>(heap: seq<Cell<K>>, level: nat, path: seq<nat>) {
    && path != [] && path[0] == 0
    && forall n :: 0 <= n < |path| ==> LeadsOn(heap, level, path, n)
  }

  ghost predicate LeadsOn<K>(heap: seq<Cell<K>>, level: nat, path: seq<nat>, n: nat)
    requires n < |path|
  {
    HasLink(heap, path[n], level) && heap[path[n]].next[level] == LinkAt(path, n + 1)
  }

  ghost predicate Ascending<K>(compare: (K, K) -> int, heap: seq<Cell<K>>, path: seq<nat>) {
    && (forall n :: 0 <= n < |path| ==> path[n] < |heap|)
    && forall n, m :: 0 < n < m < |path| ==> compare(heap[path[n]].key, heap[path[m]].key) < 0
  }

  lemma PathUnique<K>(heap: seq<Cell<K>>, level: nat, a: seq<nat>, b: seq<nat>)
    requires IsPath(heap, level, a) && IsPath(heap, level, b)
    ensures a == b
  {
    PathsAgree(heap, level, a, b, |a| - 1);
    PathsAgree(heap, level, b, a, |b| - 1);
    forall n | 0 <= n < |a|
      ensures a[n] == b[n]
    {
      PathsAgree(heap, level, a, b, n);
    }
  }

  lemma {:induction false} PathsAgree<K>(heap: seq<Cell<K>>, level: nat, a: seq<nat>, b: seq<nat>, n: nat)
    requires IsPath(heap, level, a) && IsPath(heap, level, b) && n < |a|
    ensures n < |b| && a[n] == b[n]
  {
    if n > 0 {
      PathsAgree(heap, level, a, b, n - 1);
      assert LeadsOn(heap, level, a, n - 1) && LeadsOn(heap, level, b, n - 1);
    }
  }

  ghost function PathOf(order: seq<nat>, hs: seq<nat>, level: nat): (path: seq<nat>)
    requires |hs| == |order| > 0 && hs[0] > level
    ensures |path| == |Positions(hs, 0, level)|
    ensures forall n :: 0 <= n < |path| ==> path[n] == order[Positions(hs, 0, level)[n]]
  {
    var ps := Positions(hs, 0, level);
    seq(|ps|, n requires 0 <= n < |ps| => order[ps[n]])
  }

  lemma PathLeadsOn<K>(heap: seq<Cell<K>>, order: seq<nat>, hs: seq<nat>, level: nat, n: nat)
    requires Chain(heap, order, hs) && level < MAX_HEIGHT && n < |PathOf(order, hs, level)|
    ensures LeadsOn(heap, level, PathOf(order, hs, level), n)
  {
    var ps, path := Positions(hs, 0, level), PathOf(order, hs, level);
    var i := ps[n];
    var j := NextIndex(hs, ps[n], level);
    assert j == if n + 1 < |ps| then ps[n + 1] else |hs|;
    assert path[n] == order[i] && hs[i] > level;
    assert heap[order[i]].next[level] == LinkAt(order, j);
    if n + 1 < |path| {
      assert path[n + 1] == order[ps[n + 1]];
    }
  }

  lemma PathOfIsPath<K(!new)>(compare: (K, K) -> int, heap: seq<Cell<K>>, order: seq<nat>, hs: seq<nat>, level: nat)
    requires Chain(heap, order, hs) && Sorted(compare, KeysIn(heap, order)) && level < MAX_HEIGHT
    ensures IsPath(heap, level, PathOf(order, hs, level))
    ensures Ascending(compare, heap, PathOf(order, hs, level))
  {
    var path := PathOf(order, hs, level);
    forall n | 0 <= n < |path|
      ensures LeadsOn(heap, level, path, n)
    {
      PathLeadsOn(heap, order, hs, level, n);
    }
    PathAscends(compare, heap, order, hs, level);
  }

  lemma PathAscends<K(!new)>(compare: (K, K) -> int, heap: seq<Cell<K>>, order: seq<nat>, hs: seq<nat>, level: nat)
    requires Cells(heap, order, hs) && Sorted(compare, KeysIn(heap, order)) && level < MAX_HEIGHT
    ensures Ascending(compare, heap, PathOf(order, hs, level))
  {
    var ps, path := Positions(hs, 0, level), PathOf(order, hs, level);
    forall n, m | 0 < n < m < |path|
      ensures compare(heap[path[n]].key, heap[path[m]].key) < 0
    {
      PositionsAscend(hs, 0, level, n, m);
      PositionsAscend(hs, 0, level, 0, n);
      assert KeysIn(heap, order)[ps[n] - 1] == heap[order[ps[n]]].key;
      assert KeysIn(heap, order)[ps[m] - 1] == heap[order[ps[m]]].key;
    }
  }

  /** In every reachable state every level is a finite list with ascending keys. */
  lemma LevelsAreSorted<K(!new)>(compare: (K, K) -> int, states: seq<List<K>>, events: seq<Event<K>>, n: nat, level: nat)
    requires IsOrder(compare) && Run(compare, states, events) && n < |states| && level < MAX_HEIGHT
    ensures exists path :: IsPath(states[n].heap, level, path) && Ascending(compare, states[n].heap, path)
  {
    RunKeepsInv(compare, states, events, n);
    var order, hs :| InvWith(compare, states[n], order, hs);
    PathOfIsPath(compare, states[n].heap, order, hs, level);
  }

  /** The path of a level as the invariant has it. */
  lemma PathIs<K(!new)>(compare: (K, K) -> int, s: List<K>, level: nat, path: seq<nat>) returns (order: seq<nat>, hs: seq<nat>)
    requires Inv(compare, s) && IsPath(s.heap, level, path) && level < MAX_HEIGHT
    ensures InvWith(compare, s, order, hs) && path == PathOf(order, hs, level)
    ensures Ascending(compare, s.heap, path)
  {
    order, hs :| InvWith(compare, s, order, hs);
    PathOfIsPath(compare, s.heap, order, hs, level);
    PathUnique(s.heap, level, path, PathOf(order, hs, level));
  }

  /** In every reachable state every level is part of the level below. */
  lemma LevelsAreNested<K(!new)>(compare: (K, K) -> int, states: seq<List<K>>, events: seq<Event<K>>, n: nat,
                                 level: nat, upper: seq<nat>, lower: seq<nat>, id: nat)
    requires IsOrder(compare) && Run(compare, states, events) && n < |states| && 0 < level < MAX_HEIGHT
    requires IsPath(states[n].heap, level, upper) && IsPath(states[n].heap, level - 1, lower)
    requires id in upper
    ensures id in lower
  {
    RunKeepsInv(compare, states, events, n);
    var order, hs := PathIs(compare, states[n], level, upper);
    PathOfIsPath(compare, states[n].heap, order, hs, level - 1);
    PathUnique(states[n].heap, level - 1, lower, PathOf(order, hs, level - 1));
    LowerPath(order, hs, level, id);
  }

  lemma LowerPath(order: seq<nat>, hs: seq<nat>, level: nat, id: nat)
    requires |hs| == |order| > 0 && hs[0] > level > 0 && id in PathOf(order, hs, level)
    ensures id in PathOf(order, hs, level - 1)
  {
    var path := PathOf(order, hs, level);
    var m :| 0 <= m < |path| && path[m] == id;
    InPath(order, hs, level - 1, Positions(hs, 0, level)[m]);
  }

  lemma InPath(order: seq<nat>, hs: seq<nat>, level: nat, i: nat)
    requires |hs| == |order| > 0 && hs[0] > level && i < |order| && hs[i] > level
    ensures order[i] in PathOf(order, hs, level)
  {
    var ps := Positions(hs, 0, level);
    assert i in ps;
    var k :| 0 <= k < |ps| && ps[k] == i;
    assert PathOf(order, hs, level)[k] == order[i];
  }

  /** The first cell of the path whose key is not smaller, or none. */
  ghost predicate IsCeiling<K>(compare: (K, K) -> int, heap: seq<Cell<K>>, path: seq<nat>, key: K, result: Link)
  {
    && (forall n :: 0 <= n < |path| ==> path[n] < |heap|)
    && exists n ::
         && 0 < n <= |path| && result == LinkAt(path, n)
         && (forall m :: 0 < m < n ==> compare(heap[path[m]].key, key) < 0)
         && (n < |path| ==> compare(heap[path[n]].key, key) >= 0)
  }

  /** The last cell of the path whose key is smaller, or the head. */
  ghost predicate IsBelow<K>(compare: (K, K) -> int, heap: seq<Cell<K>>, path: seq<nat>, key: K, result: Link) {
    exists n :: 0 <= n < |path| && result == To(path[n]) && EndsAt(compare, heap, path, key, n)
  }

  ghost predicate EndsAt<K>(compare: (K, K) -> int, heap: seq<Cell<K>>, path: seq<nat>, key: K, n: nat) {
    && (forall m :: 0 <= m < |path| ==> path[m] < |heap|)
    && (forall m :: 0 < m < |path| && m <= n ==> compare(heap[path[m]].key, key) < 0)
    && (n + 1 < |path| ==> compare(heap[path[n + 1]].key, key) >= 0)
  }

  ghost predicate IsBehind(path: seq<nat>, id: nat, result: Link) {
    exists n :: 0 <= n < |path| && path[n] == id && result == LinkAt(path, n + 1)
  }

  /** The right answer for the list `path`. */
  ghost predicate IsAnswer<K>(compare: (K, K) -> int, heap: seq<Cell<K>>, path: seq<nat>, query: Query<K>, result: Link) {
    && (query.Ceiling? ==> IsCeiling(compare, heap, path, query.key, result))
    && (query.Below? ==> IsBelow(compare, heap, path, query.key, result))
    && (query.Last? ==> path != [] && result == To(path[|path| - 1]))
    && (query.Behind? ==> IsBehind(path, query.id, result))
  }

  /**
   Searches and the iterator's steps are atomic: what is returned is right for the
   list of level 0 as it is at the last load, whatever was stored meanwhile.
   */
  lemma FindIsAtomic<K(!new)>(compare: (K, K) -> int, states: seq<List<K>>, events: seq<Event<K>>, n: nat, r: nat, path: seq<nat>)
    requires IsOrder(compare) && Run(compare, states, events) && n < |events|
    requires events[n] == ReaderLoad(r) && r < |states[n + 1].readers| && states[n + 1].readers[r].Returned?
    requires IsPath(states[n].heap, 0, path)
    ensures IsAnswer(compare, states[n].heap, path, states[n + 1].readers[r].query, states[n + 1].readers[r].result)
  {
    RunKeepsInv(compare, states, events, n);
    RunIsSafe(compare, states, events, n);
    LastLoad(compare, states[n], r, path);
  }

  lemma LastLoad<K(!new)>(compare: (K, K) -> int, s: List<K>, r: nat, path: seq<nat>)
    requires IsOrder(compare) && Inv(compare, s) && Enabled(compare, s, ReaderLoad(r)) && IsPath(s.heap, 0, path)
    ensures Safe(s, ReaderLoad(r)) && Ascending(compare, s.heap, path)
    ensures var reader := FindStep(compare, s.heap, s.readers[r]);
      reader.Returned? ==> IsAnswer(compare, s.heap, path, reader.query, reader.result)
  {
    var order, hs := PathIs(compare, s, 0, path);
    var reader := s.readers[r];
    assert ReaderInv(compare, s.heap, order, hs, reader);
    Follow(compare, s.heap, order, hs, reader.query, reader.at, reader.level);
    if reader.level == 0 && !GoesOn(compare, s.heap, reader.query, s.heap[reader.at].next[0]) {
      var n := StandsOnPath(compare, s.heap, order, hs, reader.query, reader.at);
      assert LeadsOn(s.heap, 0, path, n);
      AnswerAt(compare, s.heap, path, reader.query, n);
    }
  }

  /** A search at level 0 stands on the path of that level. */
  lemma StandsOnPath<K(!new)>(compare: (K, K) -> int, heap: seq<Cell<K>>, order: seq<nat>, hs: seq<nat>, query: Query<K>, at: nat) returns (n: nat)
    requires Cells(heap, order, hs) && Stands(compare, heap, order, hs, query, at, 0)
    ensures n < |PathOf(order, hs, 0)| && PathOf(order, hs, 0)[n] == at
    ensures n > 0 ==> Passes(compare, query, heap[at].key)
  {
    var i :| 0 <= i < |order| && order[i] == at && 0 < hs[i] && (i > 0 ==> Passes(compare, query, heap[at].key));
    InPath(order, hs, 0, i);
    n :| 0 <= n < |PathOf(order, hs, 0)| && PathOf(order, hs, 0)[n] == at;
    assert PathOf(order, hs, 0)[0] == order[0];
  }

  /** A search that does not go on from cell `n` has its answer. */
  lemma AnswerAt<K(!new)>(compare: (K, K) -> int, heap: seq<Cell<K>>, path: seq<nat>, query: Query<K>, n: nat)
    requires IsOrder(compare) && IsPath(heap, 0, path) && Ascending(compare, heap, path) && n < |path|
    requires n > 0 ==> Passes(compare, query, heap[path[n]].key)
    requires !GoesOn(compare, heap, query, LinkAt(path, n + 1)) && (query.Behind? ==> query.id == path[n])
    ensures IsAnswer(compare, heap, path, query, ResultOf(query, path[n], LinkAt(path, n + 1)))
  {
    match query
    case Ceiling(key) => SmallerUpTo(compare, heap, path, key, n);
    case Below(key) => SmallerUpTo(compare, heap, path, key, n);
    case Last =>
    case Behind(_) =>
  }

  lemma SmallerUpTo<K(!new)>(compare: (K, K) -> int, heap: seq<Cell<K>>, path: seq<nat>, key: K, n: nat)
    requires IsOrder(compare) && Ascending(compare, heap, path) && n < |path|
    requires n > 0 ==> compare(heap[path[n]].key, key) < 0
    ensures forall m :: 0 < m < n + 1 ==> compare(heap[path[m]].key, key) < 0
  {
    forall m | 0 < m < n + 1
      ensures compare(heap[path[m]].key, key) < 0
    {
      if m < n {
        LessTransitive(compare, heap[path[m]].key, heap[path[n]].key, key);
      }
    }
  }

  /** The assertion in the loop of `find_less_than`, before each load. */
  lemma LessThanAssertion<K(!new)>(compare: (K, K) -> int, states: seq<List<K>>, events: seq<Event<K>>, n: nat, r: nat)
    requires IsOrder(compare) && Run(compare, states, events) && n < |states|
    requires r < |states[n].readers| && states[n].readers[r].Finding? && states[n].readers[r].query.Below?
    ensures var reader, heap := states[n].readers[r], states[n].heap;
      reader.at < |heap| && (reader.at == 0 || compare(heap[reader.at].key, reader.query.key) < 0)
  {
    RunKeepsInv(compare, states, events, n);
    var order, hs :| InvWith(compare, states[n], order, hs);
    assert ReaderInv(compare, states[n].heap, order, hs, states[n].readers[r]);
  }

  // ----- How the levels change

  /** Is this the store that links the new cell into `level`? */
  predicate Publishes<K>(s: List<K>, e: Event<K>, level: nat) {
    e.StorePred? && s.writer.Publishing? && s.writer.level == level
  }

  /** Only the store into the predecessor changes a level, and it adds one cell to it. */
  lemma LevelChanges<K(!new)>(compare: (K, K) -> int, states: seq<List<K>>, events: seq<Event<K>>, n: nat, level: nat, path: seq<nat>)
    requires IsOrder(compare) && Run(compare, states, events) && n < |events| && level < MAX_HEIGHT
    requires IsPath(states[n].heap, level, path)
    ensures !Publishes(states[n], events[n], level) ==> IsPath(states[n + 1].heap, level, path)
    ensures Publishes(states[n], events[n], level) ==> OneMore(states[n + 1].heap, level, path, states[n].writer.id)
  {
    RunKeepsInv(compare, states, events, n);
    RunIsSafe(compare, states, events, n);
    if events[n].StoreOwn? || events[n].StorePred? {
      StoreChanges(compare, states[n], events[n], level, path);
    } else if events[n].Allocate? {
      PathWithNewCell(states[n].heap, level, path, Cell(states[n].writer.key, events[n].links));
    }
  }

  lemma PathWithNewCell<K>(heap: seq<Cell<K>>, level: nat, path: seq<nat>, cell: Cell<K>)
    requires IsPath(heap, level, path)
    ensures IsPath(heap + [cell], level, path)
  {
    forall n | 0 <= n < |path|
      ensures LeadsOn(heap + [cell], level, path, n)
    {
      assert LeadsOn(heap, level, path, n);
    }
  }

  /** The path with `id` put in somewhere after the head. */
  ghost predicate OneMore<K>(heap: seq<Cell<K>>, level: nat, path: seq<nat>, id: nat) {
    id !in path && exists m :: 0 < m <= |path| && IsPath(heap, level, InsertAt(path, m, id))
  }

  lemma StoreChanges<K(!new)>(compare: (K, K) -> int, s: List<K>, e: Event<K>, level: nat, path: seq<nat>)
    requires Inv(compare, s) && Enabled(compare, s, e) && Safe(s, e) && (e.StoreOwn? || e.StorePred?)
    requires IsPath(s.heap, level, path) && level < MAX_HEIGHT
    ensures var heap' := Apply(compare, s, e).heap;
      if Publishes(s, e, level) then OneMore(heap', level, path, s.writer.id) else IsPath(heap', level, path)
  {
    UnpublishedOffPath(compare, s, level, path);
    var w := s.writer;
    if Publishes(s, e, level) {
      var m := PublishedOnPath(compare, s, level, path);
    } else if e.StorePred? {
      OffPathStore(s.heap, level, path, w.prev[w.level], w.level, To(w.id));
    } else {
      OffPathStore(s.heap, level, path, w.id, w.level, w.stage.link);
    }
  }

  lemma OffPathStore<K>(heap: seq<Cell<K>>, level: nat, path: seq<nat>, at: nat, l: nat, link: Link)
    requires IsPath(heap, level, path) && HasLink(heap, at, l) && (l != level || at !in path)
    ensures IsPath(SetLink(heap, at, l, link), level, path)
  {
    forall n | 0 <= n < |path|
      ensures LeadsOn(SetLink(heap, at, l, link), level, path, n)
    {
      assert LeadsOn(heap, level, path, n);
    }
  }

  /** A cell is not on the path of a level that it is not linked at yet. */
  lemma UnpublishedOffPath<K(!new)>(compare: (K, K) -> int, s: List<K>, level: nat, path: seq<nat>)
    requires Inv(compare, s) && s.writer.Publishing? && IsPath(s.heap, level, path) && level < MAX_HEIGHT
    ensures CanPublish(s)
    ensures level >= s.writer.level ==> s.writer.id !in path
  {
    var order, hs := PathIs(compare, s, level, path);
    var p :| PublishingAt(s.heap, order, hs, s.writer, p);
    PublishIsSafe(compare, s, order, hs, p);
    if level >= s.writer.level {
      OffPath(order, hs, level, p);
    }
  }

  lemma OffPath(order: seq<nat>, hs: seq<nat>, level: nat, p: nat)
    requires |hs| == |order| > 0 && hs[0] > level && p < |order| && hs[p] <= level
    requires forall i, j :: 0 <= i < j < |order| ==> order[i] != order[j]
    ensures order[p] !in PathOf(order, hs, level)
  {
    var ps, path := Positions(hs, 0, level), PathOf(order, hs, level);
    forall n | 0 <= n < |path|
      ensures path[n] != order[p]
    {
      assert ps[n] < p || p < ps[n];
    }
  }

  lemma OnPathOnce(order: seq<nat>, hs: seq<nat>, level: nat)
    requires |hs| == |order| > 0 && hs[0] > level
    requires forall i, j :: 0 <= i < j < |order| ==> order[i] != order[j]
    ensures var path := PathOf(order, hs, level); forall n, m :: 0 <= n < m < |path| ==> path[n] != path[m]
  {
    var path := PathOf(order, hs, level);
    forall n, m | 0 <= n < m < |path|
      ensures path[n] != path[m]
    {
      PositionsAscend(hs, 0, level, n, m);
    }
  }

  lemma PublishedOnPath<K(!new)>(compare: (K, K) -> int, s: List<K>, level: nat, path: seq<nat>) returns (m: nat)
    requires Inv(compare, s) && s.writer.Publishing? && s.writer.stage.Stored? && s.writer.level == level
    requires IsPath(s.heap, level, path) && level < MAX_HEIGHT && s.writer.id !in path
    ensures CanPublish(s) && 0 < m <= |path|
    ensures IsPath(SetLink(s.heap, s.writer.prev[level], level, To(s.writer.id)), level, InsertAt(path, m, s.writer.id))
  {
    var order, hs := PathIs(compare, s, level, path);
    var p :| PublishingAt(s.heap, order, hs, s.writer, p);
    PublishIsSafe(compare, s, order, hs, p);
    m := PublishSplices(s.heap, order, hs, p, level);
  }

  lemma PublishSplices<K>(heap: seq<Cell<K>>, order: seq<nat>, hs: seq<nat>, p: nat, level: nat) returns (m: nat)
    requires Chain(heap, order, hs) && 0 < p < |order| && hs[p] == level < MAX_HEIGHT
    requires HasLink(heap, order[p], level) && heap[order[p]].next[level] == LinkAt(order, NextIndex(hs, p, level))
    requires IsPath(heap, level, PathOf(order, hs, level)) && order[p] !in PathOf(order, hs, level)
    ensures var path, at := PathOf(order, hs, level), order[PrevIndex(hs, p, level)];
      && 0 < m <= |path| && HasLink(heap, at, level)
      && IsPath(SetLink(heap, at, level, To(order[p])), level, InsertAt(path, m, order[p]))
  {
    var path, q := PathOf(order, hs, level), PrevIndex(hs, p, level);
    OwnLinkReady(heap, order, hs, p, level);
    InPath(order, hs, level, q);
    OnPathOnce(order, hs, level);
    var n :| 0 <= n < |path| && path[n] == order[q];
    Spliced(heap, level, path, n, order[p]);
    m := n + 1;
  }

  lemma Spliced<K>(heap: seq<Cell<K>>, level: nat, path: seq<nat>, m: nat, id: nat)
    requires IsPath(heap, level, path) && m < |path| && id !in path
    requires HasLink(heap, path[m], level) && HasLink(heap, id, level)
    requires heap[id].next[level] == heap[path[m]].next[level]
    requires forall i, j :: 0 <= i < j < |path| ==> path[i] != path[j]
    ensures IsPath(SetLink(heap, path[m], level, To(id)), level, InsertAt(path, m + 1, id))
  {
    var heap', path' := SetLink(heap, path[m], level, To(id)), InsertAt(path, m + 1, id);
    forall n | 0 <= n < |path'|
      ensures LeadsOn(heap', level, path', n)
    {
      assert LeadsOn(heap, level, path, m);
      assert n <= m ==> LeadsOn(heap, level, path, n);
      assert n > m + 1 ==> LeadsOn(heap, level, path, n - 1);
      InsertAtIndex(path, m + 1, id, n);
      if n + 1 < |path'| {
        InsertAtIndex(path, m + 1, id, n + 1);
      }
    }
  }

  lemma InInserted<T>(s: seq<T>, p: nat, x: T, y: T)
    requires p <= |s| && y in s
    ensures y in InsertAt(s, p, x)
  {
    var i :| 0 <= i < |s| && s[i] == y;
    InsertAtIndex(s, p, x, Shifted(i, p));
  }

  /** What is linked stays linked. */
  lemma {:induction false} LinkedStays<K(!new)>(compare: (K, K) -> int, states: seq<List<K>>, events: seq<Event<K>>,
                                                m: nat, n: nat, level: nat, before: seq<nat>, after: seq<nat>, id: nat)
    requires IsOrder(compare) && Run(compare, states, events) && m <= n < |states| && level < MAX_HEIGHT
    requires IsPath(states[m].heap, level, before) && IsPath(states[n].heap, level, after)
    requires id in before
    ensures id in after
    decreases n
  {
    if m == n {
      PathUnique(states[m].heap, level, before, after);
    } else {
      var path := PathAt(compare, states, events, n - 1, level);
      LinkedStays(compare, states, events, m, n - 1, level, before, path, id);
      StaysOneStep(compare, states, events, n - 1, level, path, after, id);
    }
  }

  lemma PathAt<K(!new)>(compare: (K, K) -> int, states: seq<List<K>>, events: seq<Event<K>>, n: nat, level: nat) returns (path: seq<nat>)
    requires IsOrder(compare) && Run(compare, states, events) && n < |states| && level < MAX_HEIGHT
    ensures IsPath(states[n].heap, level, path) && Ascending(compare, states[n].heap, path)
  {
    LevelsAreSorted(compare, states, events, n, level);
    path :| IsPath(states[n].heap, level, path) && Ascending(compare, states[n].heap, path);
  }

  lemma StaysOneStep<K(!new)>(compare: (K, K) -> int, states: seq<List<K>>, events: seq<Event<K>>, n: nat,
                              level: nat, path: seq<nat>, after: seq<nat>, id: nat)
    requires IsOrder(compare) && Run(compare, states, events) && n < |events| && level < MAX_HEIGHT
    requires IsPath(states[n].heap, level, path) && IsPath(states[n + 1].heap, level, after)
    requires id in path
    ensures id in after
  {
    LevelChanges(compare, states, events, n, level, path);
    if Publishes(states[n], events[n], level) {
      StaysInserted(states[n + 1].heap, level, path, after, states[n].writer.id, id);
    } else {
      PathUnique(states[n + 1].heap, level, after, path);
    }
  }

  lemma StaysInserted<K>(heap: seq<Cell<K>>, level: nat, path: seq<nat>, after: seq<nat>, inserted: nat, id: nat)
    requires OneMore(heap, level, path, inserted) && IsPath(heap, level, after) && id in path
    ensures id in after
  {
    var k :| 0 < k <= |path| && IsPath(heap, level, InsertAt(path, k, inserted));
    PathUnique(heap, level, after, InsertAt(path, k, inserted));
    InInserted(path, k, inserted, id);
  }

  lemma {:induction false} KeysStay<K(!new)>(compare: (K, K) -> int, states: seq<List<K>>, events: seq<Event<K>>, m: nat, n: nat, id: nat)
    requires IsOrder(compare) && Run(compare, states, events) && m <= n < |states| && id < |states[m].heap|
    ensures id < |states[n].heap| && states[n].heap[id].key == states[m].heap[id].key
    decreases n
  {
    if m < n {
      KeysStay(compare, states, events, m, n - 1, id);
      RunIsSafe(compare, states, events, n - 1);
    }
  }

  /** A reader that starts, or is still looking, after a key was linked finds the cell of that key. */
  lemma FindSeesLinked<K(!new)>(compare: (K, K) -> int, states: seq<List<K>>, events: seq<Event<K>>,
                                m: nat, n: nat, r: nat, key: K, path: seq<nat>, id: nat)
    requires IsOrder(compare) && Run(compare, states, events) && m <= n < |events|
    requires IsPath(states[m].heap, 0, path) && id in path && id != 0 && id < |states[m].heap|
    requires events[n] == ReaderLoad(r) && r < |states[n + 1].readers| && states[n + 1].readers[r].Returned?
    requires states[n + 1].readers[r].query == Ceiling(key) && compare(states[m].heap[id].key, key) == 0
    ensures states[n + 1].readers[r].result == To(id)
  {
    var after := PathAt(compare, states, events, n, 0);
    LinkedStays(compare, states, events, m, n, 0, path, after, id);
    KeysStay(compare, states, events, m, n, id);
    FindIsAtomic(compare, states, events, n, r, after);
    OnlyCeiling(compare, states[n].heap, after, key, states[n + 1].readers[r].result, id);
  }

  lemma OnlyCeiling<K(!new)>(compare: (K, K) -> int, heap: seq<Cell<K>>, path: seq<nat>, key: K, result: Link, id: nat)
    requires IsOrder(compare) && path != [] && path[0] == 0 && Ascending(compare, heap, path)
    requires IsCeiling(compare, heap, path, key, result)
    requires id in path && id != 0 && compare(heap[id].key, key) == 0
    ensures result == To(id)
  {
    var k :| 0 <= k < |path| && path[k] == id;
    forall j | 0 < j < k
      ensures compare(heap[path[j]].key, key) < 0
    {
      LessTransitive(compare, heap[path[j]].key, heap[path[k]].key, key);
    }
  }

  /** The writer never meets an equal key. */
  lemma AssertionHolds<K(!new)>(compare: (K, K) -> int, states: seq<List<K>>, events: seq<Event<K>>, n: nat)
    requires IsOrder(compare) && Run(compare, states, events) && n < |states| && states[n].writer.Found?
    ensures var w, heap := states[n].writer, states[n].heap;
      w.result.To? ==> w.result.id < |heap| && compare(w.key, heap[w.result.id].key) != 0
  {
    RunKeepsInv(compare, states, events, n);
    var order, hs :| InvWith(compare, states[n], order, hs);
    var w, p := states[n].writer, Position(compare, states[n].heap, order, states[n].writer.key);
    if p < |order| {
      assert order[0] != order[p];
    }
  }

  /** Between inserts every cell is on the levels that it has links for, and on no other. */
  lemma IdleIsComplete<K(!new)>(compare: (K, K) -> int, states: seq<List<K>>, events: seq<Event<K>>, n: nat,
                                level: nat, path: seq<nat>, id: nat)
    requires IsOrder(compare) && Run(compare, states, events) && n < |states| && level < MAX_HEIGHT
    requires states[n].writer.Idle? && IsPath(states[n].heap, level, path) && id < |states[n].heap|
    ensures id in path <==> level < |states[n].heap[id].next|
  {
    RunKeepsInv(compare, states, events, n);
    var order, hs := PathIs(compare, states[n], level, path);
    assert id in order;
    var i :| 0 <= i < |order| && order[i] == id;
    if hs[i] > level {
      InPath(order, hs, level, i);
    } else {
      OffPath(order, hs, level, i);
    }
  }
}
