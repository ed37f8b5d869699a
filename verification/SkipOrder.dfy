/**
 The shape of a skip list without its pointers: keys in order, and for each
 position how many levels are linked there.  Position 0 is the head.
 */
module SkipOrder {

  // ----- Comparators and sorted keys

  ghost predicate IsOrder<K(!new)>(compare: (K, K) -> int) {
    && (forall a, b :: compare(a, b) < 0 <==> compare(b, a) > 0)
    && (forall a, b, c :: compare(a, b) <= 0 && compare(b, c) <= 0 ==> compare(a, c) <= 0)
  }

  lemma LessTransitive<K(!new)>(compare: (K, K) -> int, a: K, b: K, c: K)
    requires IsOrder(compare)
    requires compare(a, b) <= 0 && compare(b, c) <= 0
    ensures compare(a, c) <= 0
    ensures compare(a, b) < 0 || compare(b, c) < 0 ==> compare(a, c) < 0
  {
    if compare(a, c) >= 0 {
      assert compare(c, a) <= 0;
      assert compare(c, b) <= 0 && compare(b, a) <= 0;
    }
  }

  ghost predicate Sorted<K>(compare: (K, K) -> int, s: seq<K>) {
    forall i, j :: 0 <= i < j < |s| ==> compare(s[i], s[j]) < 0
  }

  /** How many keys come before `key`. */
  ghost function Rank<K>(compare: (K, K) -> int, s: seq<K>, key: K): (r: nat)
    ensures r <= |s|
    ensures forall i :: 0 <= i < r ==> compare(s[i], key) < 0
    ensures r < |s| ==> compare(s[r], key) >= 0
  {
    if s == [] || compare(s[0], key) >= 0 then 0
    else
      var r := Rank(compare, s[1..], key);
      assert forall i :: 0 < i <= r ==> s[i] == s[1..][i - 1];
      1 + r
  }

  lemma RankSplits<K(!new)>(compare: (K, K) -> int, s: seq<K>, key: K)
    requires IsOrder(compare) && Sorted(compare, s)
    ensures forall i :: 0 <= i < |s| ==> (compare(s[i], key) < 0 <==> i < Rank(compare, s, key))
  {
    var r := Rank(compare, s, key);
    forall i | r <= i < |s|
      ensures compare(s[i], key) >= 0
    {
      if i > r {
        LessTransitive(compare, key, s[r], s[i]);
      }
    }
  }

  lemma RankUnique<K(!new)>(compare: (K, K) -> int, s: seq<K>, key: K, r: nat)
    requires IsOrder(compare) && Sorted(compare, s)
    requires r <= |s|
    requires r > 0 ==> compare(s[r - 1], key) < 0
    requires r < |s| ==> compare(s[r], key) >= 0
    ensures r == Rank(compare, s, key)
  {
    RankSplits(compare, s, key);
  }

  function InsertAt<T>(s: seq<T>, p: nat, x: T): (t: seq<T>)
    requires p <= |s|
    ensures |t| == |s| + 1
  {
    s[..p] + [x] + s[p..]
  }

  lemma InsertAtIndex<T>(s: seq<T>, p: nat, x: T, i: nat)
    requires p <= |s| && i <= |s|
    ensures InsertAt(s, p, x)[i] == if i < p then s[i] else if i == p then x else s[i - 1]
  {
  }

  lemma InsertSorted<K(!new)>(compare: (K, K) -> int, s: seq<K>, key: K)
    requires IsOrder(compare) && Sorted(compare, s)
    requires forall k :: k in s ==> compare(k, key) != 0
    ensures Sorted(compare, InsertAt(s, Rank(compare, s, key), key))
  {
    var r := Rank(compare, s, key);
    RankSplits(compare, s, key);
    forall i, j | 0 <= i < j <= |s|
      ensures compare(InsertAt(s, r, key)[i], InsertAt(s, r, key)[j]) < 0
    {
      InsertAtIndex(s, r, key, i);
      InsertAtIndex(s, r, key, j);
      InsertedInOrder(compare, s, key, r, i, j);
    }
  }

  lemma InsertedInOrder<K(!new)>(compare: (K, K) -> int, s: seq<K>, key: K, r: nat, i: nat, j: nat)
    requires IsOrder(compare) && Sorted(compare, s)
    requires forall k :: k in s ==> compare(k, key) != 0
    requires r <= |s| && i < j <= |s|
    requires forall m :: 0 <= m < |s| ==> (compare(s[m], key) < 0 <==> m < r)
    ensures compare(if i < r then s[i] else if i == r then key else s[i - 1],
                    if j < r then s[j] else if j == r then key else s[j - 1]) < 0
  {
    if i == r {
      assert s[j - 1] in s;
      assert compare(s[j - 1], key) > 0;
    }
  }

  // ----- Levels

  /** The next position after `i` that is linked at `level`; the length if there is none. */
  ghost function NextIndex(hs: seq<nat>, i: nat, level: nat): (j: nat)
    requires i < |hs|
    ensures i < j <= |hs|
    ensures j < |hs| ==> hs[j] > level
    ensures forall m :: i < m < j ==> hs[m] <= level
    decreases |hs| - i
  {
    if i + 1 == |hs| || hs[i + 1] > level then i + 1 else NextIndex(hs, i + 1, level)
  }

  lemma NextIndexUnique(hs: seq<nat>, i: nat, level: nat, j: nat)
    requires i < j <= |hs|
    requires j < |hs| ==> hs[j] > level
    requires forall m :: i < m < j ==> hs[m] <= level
    ensures j == NextIndex(hs, i, level)
  {
  }

  /** The last position before `p` that is linked at `level`; the head is linked at every level in use. */
  ghost function PrevIndex(hs: seq<nat>, p: nat, level: nat): (q: nat)
    requires 0 < p <= |hs| && hs[0] > level
    ensures q < p && hs[q] > level
    ensures forall m :: q < m < p ==> hs[m] <= level
  {
    if hs[p - 1] > level then p - 1 else PrevIndex(hs, p - 1, level)
  }

  lemma PrevIndexUnique(hs: seq<nat>, p: nat, level: nat, q: nat)
    requires 0 < p <= |hs| && hs[0] > level
    requires q < p && hs[q] > level
    requires forall m :: q < m < p ==> hs[m] <= level
    ensures q == PrevIndex(hs, p, level)
  {
  }

  /** The predecessor depends on what comes before `p` only. */
  lemma {:induction false} PrevIndexPrefix(hs: seq<nat>, hs': seq<nat>, p: nat, level: nat)
    requires 0 < p <= |hs| && p <= |hs'| && hs[0] > level
    requires forall i :: 0 <= i < p ==> hs[i] == hs'[i]
    ensures PrevIndex(hs, p, level) == PrevIndex(hs', p, level)
  {
    PrevIndexUnique(hs', p, level, PrevIndex(hs, p, level));
  }

  /** A search that cannot go on before `p` stands at the predecessor. */
  lemma SearchStops(hs: seq<nat>, x: nat, level: nat, p: nat)
    requires x < p <= |hs| && hs[0] > level && hs[x] > level
    requires NextIndex(hs, x, level) >= p
    ensures x == PrevIndex(hs, p, level)
  {
    PrevIndexUnique(hs, p, level, x);
  }

  /** Nothing of a level lies between a position and its predecessor. */
  lemma PrevThenNext(hs: seq<nat>, p: nat, level: nat)
    requires 0 < p < |hs| && hs[0] > level && hs[p] == level
    ensures NextIndex(hs, PrevIndex(hs, p, level), level) == NextIndex(hs, p, level)
  {
    NextIndexUnique(hs, PrevIndex(hs, p, level), level, NextIndex(hs, p, level));
  }

  /** Shift positions for an element put in at `p`. */
  function Shifted(i: nat, p: nat): nat {
    if i < p then i else i + 1
  }

  /** A new element that is not linked anywhere yet changes no link. */
  lemma InsertUnlinked(hs: seq<nat>, p: nat, i: nat, level: nat)
    requires 0 < p <= |hs| && i < |hs|
    ensures NextIndex(InsertAt(hs, p, 0), Shifted(i, p), level) == Shifted(NextIndex(hs, i, level), p)
  {
    var hs' := InsertAt(hs, p, 0);
    var j := NextIndex(hs, i, level);
    forall m | Shifted(i, p) < m < Shifted(j, p)
      ensures hs'[m] <= level
    {
      if m < p {
        assert hs'[m] == hs[m];
      } else if m > p {
        assert hs'[m] == hs[m - 1];
      }
    }
    if j < |hs| {
      assert hs'[Shifted(j, p)] == hs[j];
    }
    NextIndexUnique(hs', Shifted(i, p), level, Shifted(j, p));
  }

  /** Linking position `p` at `level` changes the links of that level alone, and there only the predecessor's. */
  lemma RaiseOne(hs: seq<nat>, p: nat, level: nat, i: nat, l: nat)
    requires 0 < p < |hs| && hs[p] == level && hs[0] > level && i < |hs|
    requires l < hs[p := level + 1][i]
    ensures NextIndex(hs[p := level + 1], i, l) ==
            if l == level && i == PrevIndex(hs, p, level) then p else NextIndex(hs, i, l)
  {
    var hs' := hs[p := level + 1];
    var j := NextIndex(hs, i, l);
    if l == level && i == PrevIndex(hs, p, level) {
      NextIndexUnique(hs', i, l, p);
    } else {
      if l == level && i < p < j {
        PrevIndexUnique(hs, p, level, i);
        assert false;
      }
      assert forall m :: 0 <= m < |hs| && m != p ==> hs'[m] == hs[m];
      NextIndexUnique(hs', i, l, j);
    }
  }

  /** The positions linked at `level` from position `i` on, each the next of the one before. */
  ghost function Positions(hs: seq<nat>, i: nat, level: nat): (s: seq<nat>)
    requires i < |hs| && hs[i] > level
    ensures s != [] && s[0] == i
    ensures forall n :: 0 <= n < |s| ==> i <= s[n] < |hs| && hs[s[n]] > level
    ensures forall n :: 0 <= n < |s| ==> NextIndex(hs, s[n], level) == if n + 1 < |s| then s[n + 1] else |hs|
    ensures forall m :: i <= m < |hs| && hs[m] > level ==> m in s
    decreases |hs| - i
  {
    var j := NextIndex(hs, i, level);
    if j == |hs| then [i]
    else
      var rest := Positions(hs, j, level);
      assert forall n :: 0 < n <= |rest| ==> ([i] + rest)[n] == rest[n - 1];
      [i] + rest
  }

  lemma {:induction false} PositionsAscend(hs: seq<nat>, i: nat, level: nat, n: nat, m: nat)
    requires i < |hs| && hs[i] > level && n < m < |Positions(hs, i, level)|
    ensures Positions(hs, i, level)[n] < Positions(hs, i, level)[m]
    decreases m
  {
    if n < m - 1 {
      PositionsAscend(hs, i, level, n, m - 1);
    }
  }
}
