/** Heap order over the vector of timer entries, and the lemmas behind siftdown and siftup. */
module TimerHeap {
  import opened MachineInts
  import opened Options

  /** A heap-allocated timer.  `freed` models the allocator: it is set by `delete`. */
  class TimerEntry {
    const id: int
    const expire: int
    const sink: Option<nat>
    var index: int
    var freed: bool

    constructor (id: int, expire: int, sink: Option<nat>, index: int)
      ensures this.id == id && this.expire == expire && this.sink == sink && this.index == index && !freed
    {
      this.id, this.expire, this.sink, this.index := id, expire, sink, index;
      this.freed := false;
    }
  }

  type Heap = seq<TimerEntry>

  function Parent(k: nat): nat
    requires k > 0
  {
    (k - 1) / 2
  }

  ghost predicate Edge(h: Heap, k: nat)
    requires 0 < k < |h|
  {
    h[Parent(k)].expire <= h[k].expire
  }

  /** The first n entries are in heap order. */
  ghost predicate HeapOrder(h: Heap, n: nat)
    requires n <= |h|
  {
    forall k: nat {:trigger Edge(h, k)} :: 0 < k < n ==> Edge(h, k)
  }

  /** The children of x do not expire before the parent of x. */
  ghost predicate Bridged(h: Heap, n: nat, x: nat)
    requires n <= |h|
  {
    forall c: nat {:trigger Parent(c)} :: 0 < c < n && 0 < Parent(c) == x ==> h[Parent(x)].expire <= h[c].expire
  }

  /** In heap order except around x, where the item may be too late for its children or too early for its parent. */
  ghost predicate BrokenAt(h: Heap, n: nat, x: nat)
    requires n <= |h|
  {
    && (forall k: nat {:trigger Edge(h, k)} :: 0 < k < n && k != x && Parent(k) != x ==> Edge(h, k))
    && Bridged(h, n, x)
  }

  /** In heap order except that the item at x may be too early for its parent. */
  ghost predicate BrokenAbove(h: Heap, n: nat, x: nat)
    requires n <= |h|
  {
    && (forall k: nat {:trigger Edge(h, k)} :: 0 < k < n && k != x ==> Edge(h, k))
    && Bridged(h, n, x)
  }

  /** In heap order except that the item at x may be too late for its children. */
  ghost predicate BrokenBelow(h: Heap, n: nat, x: nat)
    requires n <= |h|
  {
    && (forall k: nat {:trigger Edge(h, k)} :: 0 < k < n && Parent(k) != x ==> Edge(h, k))
    && Bridged(h, n, x)
  }

  function Swapped(h: Heap, i: nat, j: nat): Heap
    requires i < |h| && j < |h|
  {
    h[i := h[j]][j := h[i]]
  }

  lemma SwappedPermutes(h: Heap, n: nat, i: nat, j: nat)
    requires n <= |h| && i < n && j < n
    ensures multiset(Swapped(h, i, j)[..n]) == multiset(h[..n])
    ensures Swapped(h, i, j)[n..] == h[n..]
  {
    assert Swapped(h, i, j)[..n] == h[..n][i := h[j]][j := h[i]];
  }

  /** Pushing the item at i down past its earlier child moves the damage to that child. */
  lemma SwapDown(h: Heap, n: nat, i: nat, j: nat)
    requires 0 < j < n <= |h| && i == Parent(j) && BrokenAt(h, n, i)
    requires h[j].expire < h[i].expire
    requires forall c: nat {:trigger Parent(c)} :: 0 < c < n && Parent(c) == i ==> h[j].expire <= h[c].expire
    ensures BrokenBelow(Swapped(h, i, j), n, j)
  {
    var h' := Swapped(h, i, j);
    forall k: nat | 0 < k < n && Parent(k) != j
      ensures Edge(h', k)
    {
      if k != i && Parent(k) != i { assert Edge(h, k); }
    }
    forall c: nat | 0 < c < n && Parent(c) == j
      ensures h'[Parent(j)].expire <= h'[c].expire
    {
      assert Edge(h, c);
    }
  }

  /** Pulling the item at j up past its later parent moves the damage to that parent. */
  lemma SwapUp(h: Heap, n: nat, j: nat)
    requires 0 < j < n <= |h| && BrokenAbove(h, n, j)
    requires h[j].expire < h[Parent(j)].expire
    ensures BrokenAbove(Swapped(h, Parent(j), j), n, Parent(j))
  {
    var i := Parent(j);
    var h' := Swapped(h, i, j);
    forall k: nat | 0 < k < n && k != i
      ensures Edge(h', k)
    {
      if k != j {
        assert Edge(h, k);
        if Parent(k) == j { assert h[Parent(j)].expire <= h[k].expire; }
      }
    }
    forall c: nat | 0 < c < n && 0 < Parent(c) == i
      ensures h'[Parent(i)].expire <= h'[c].expire
    {
      assert Edge(h, i);
      if c != j { assert Edge(h, c); }
    }
  }

  /** The root of a heap is the earliest. */
  lemma {:induction false} RootIsEarliest(h: Heap, n: nat, k: nat)
    requires k < n <= |h| && HeapOrder(h, n)
    ensures h[0].expire <= h[k].expire
  {
    if k > 0 {
      assert Edge(h, k);
      RootIsEarliest(h, n, Parent(k));
    }
  }

  // ---------- which positions a sift may touch ----------

  /** Position k lies in the subtree rooted at x. */
  predicate Below(x: nat, k: nat) {
    if k <= x then k == x else Below(x, Parent(k))
  }

  lemma {:induction false} BelowTrans(x: nat, y: nat, z: nat)
    requires Below(x, y) && Below(y, z)
    ensures Below(x, z) && x <= y <= z
  {
    if z > y { BelowTrans(x, y, Parent(z)); }
  }

  /** Replacing position x of a heap by any item breaks it at x only. */
  lemma ReplacedBreaksAt(h: Heap, h': Heap, n: nat, x: nat)
    requires n <= |h| && n <= |h'| && HeapOrder(h, n)
    requires forall k: nat :: k < n && k != x ==> h'[k] == h[k]
    ensures BrokenAt(h', n, x)
  {
    forall k: nat | 0 < k < n && k != x && Parent(k) != x
      ensures Edge(h', k)
    {
      assert Edge(h, k);
    }
    forall c: nat | 0 < c < n && 0 < Parent(c) == x
      ensures h'[Parent(x)].expire <= h'[c].expire
    {
      assert Edge(h, c) && Edge(h, x);
    }
  }

  // ---------- siftdown, step by step ----------

  /** `h` is `h0` with its first n positions permuted. */
  ghost predicate Permuted(h0: Heap, h: Heap, n: nat)
    requires n <= |h0|
  {
    |h| == |h0| && h[n..] == h0[n..] && multiset(h[..n]) == multiset(h0[..n])
  }

  /** Of the first n positions, only those in the subtree of x differ. */
  ghost predicate SameOutside(h0: Heap, h: Heap, n: nat, x: nat)
    requires n <= |h0| && n <= |h|
  {
    forall k: nat :: k < n && !Below(x, k) ==> h[k] == h0[k]
  }

  /** Of the first n positions, only those on the path from x to the root differ. */
  ghost predicate SameOffPath(h0: Heap, h: Heap, n: nat, x: nat)
    requires n <= |h0| && n <= |h|
  {
    forall k: nat :: k < n && !Below(k, x) ==> h[k] == h0[k]
  }

  /** The one-based number of the leftmost position `levels` levels below x, namely (x + 1) * 2^levels. */
  function Weight(x: nat, levels: nat): nat {
    if levels == 0 then x + 1 else 2 * Weight(x, levels - 1)
  }

  lemma {:induction false} WeightIsPower(x: nat, levels: nat)
    ensures Weight(x, levels) == (x + 1) * Pow2(levels)
  {
    if levels > 0 { WeightIsPower(x, levels - 1); }
  }

  lemma {:induction false} WeightAtRoot(levels: nat)
    ensures Weight(0, levels) == Pow2(levels)
  {
    if levels > 0 { WeightAtRoot(levels - 1); }
  }

  /** siftdown has pushed the item of position x of `h0` down to position i. */
  ghost predicate Sinking(h0: Heap, h: Heap, n: nat, x: nat, i: nat, swaps: nat) {
    && x <= i <= n <= |h0| && Below(x, i) && Permuted(h0, h, n) && SameOutside(h0, h, n, x)
    && Weight(x, swaps) <= i + 1
    && if i == x then
         h == h0 && swaps == 0 && BrokenAt(h, n, x)
       else
         i < n && swaps > 0 && BrokenBelow(h, n, i) && h[i] == h0[x] && h[x].expire < h0[x].expire
  }

  ghost predicate NoLater(h: Heap, n: nat, j: nat, c: nat)
    requires j < n <= |h|
  {
    c < n ==> h[j].expire <= h[c].expire
  }

  lemma SinkStep(h0: Heap, h: Heap, n: nat, x: nat, i: nat, j: nat, swaps: nat)
    requires Sinking(h0, h, n, x, i, swaps) && j < n && (j == 2 * i + 1 || j == 2 * i + 2)
    requires NoLater(h, n, j, 2 * i + 1) && NoLater(h, n, j, 2 * i + 2) && h[j].expire < h[i].expire
    ensures Sinking(h0, Swapped(h, i, j), n, x, j, swaps + 1)
  {
    SwappedPermutes(h, n, i, j);
    SwapDown(h, n, i, j);
    assert Parent(j) == i;
  }

  /** Once the item precedes its children, siftdown is done: if the item moved, the heap order is whole, and if
      not, nothing changed and only the item's own parent may still be later than it. */
  lemma SinkEnds(h0: Heap, h: Heap, n: nat, x: nat, i: nat, swaps: nat)
    requires Sinking(h0, h, n, x, i, swaps)
    requires i < n ==> NoLater(h, n, i, 2 * i + 1) && NoLater(h, n, i, 2 * i + 2)
    ensures i > x ==> HeapOrder(h, n) && h != h0
    ensures i == x ==> BrokenAbove(h, n, x) && h == h0
  {
    forall k: nat | 0 < k < n && (k != x || i > x)
      ensures Edge(h, k)
    {
      if Parent(k) == i { assert k == 2 * i + 1 || k == 2 * i + 2; }
    }
  }

  // ---------- siftup, step by step ----------

  lemma {:induction false} WeightOfParent(p: nat, j: nat, levels: nat)
    requires 2 * p + 1 <= j
    ensures Weight(p, levels + 1) <= Weight(j, levels)
  {
    if levels > 0 { WeightOfParent(p, j, levels - 1); }
  }

  lemma {:induction false} WeightGrows(i: nat, j: nat, levels: nat)
    requires i <= j
    ensures Weight(i, levels) <= Weight(j, levels)
  {
    if levels > 0 { WeightGrows(i, j, levels - 1); }
  }

  /** siftup has pulled the item of position x of `h0` up to position j, touching only the path from x to the
      root. */
  ghost predicate Rising(h0: Heap, h: Heap, n: nat, x: nat, j: nat, swaps: nat) {
    && j <= x < n <= |h0| && Below(j, x) && Permuted(h0, h, n) && SameOffPath(h0, h, n, x)
    && BrokenAbove(h, n, j) && h[j] == h0[x]
    && Weight(j, swaps) <= x + 1
  }

  lemma RiseStep(h0: Heap, h: Heap, n: nat, x: nat, j: nat, swaps: nat)
    requires Rising(h0, h, n, x, j, swaps) && j > 0 && h[j].expire < h[Parent(j)].expire
    ensures Rising(h0, Swapped(h, Parent(j), j), n, x, Parent(j), swaps + 1)
  {
    var i := Parent(j);
    SwappedPermutes(h, n, i, j);
    SwapUp(h, n, j);
    assert Below(i, i);
    BelowTrans(i, j, x);
    WeightOfParent(i, j, swaps);
  }

  lemma RiseEnds(h0: Heap, h: Heap, n: nat, x: nat, j: nat, swaps: nat)
    requires Rising(h0, h, n, x, j, swaps)
    requires j > 0 ==> h[Parent(j)].expire <= h[j].expire
    ensures HeapOrder(h, n) && Weight(0, swaps) <= x + 1
  {
    WeightGrows(0, j, swaps);
    forall k: nat | 0 < k < n
      ensures Edge(h, k)
    {
    }
  }

  // ---------- whole heaps ----------

  lemma PermutedMembers(h0: Heap, h: Heap, n: nat)
    requires n <= |h0| && Permuted(h0, h, n)
    ensures forall e :: e in h[..n] <==> e in h0[..n]
    ensures h[..|h|] == h && h0[..|h0|] == h0
  {
    forall e
      ensures e in h[..n] <==> e in h0[..n]
    {
      assert e in h[..n] <==> e in multiset(h[..n]);
      assert e in h0[..n] <==> e in multiset(h0[..n]);
    }
  }

  lemma AppendedBreaksAbove(h: Heap, e: TimerEntry)
    requires HeapOrder(h, |h|)
    ensures BrokenAbove(h + [e], |h| + 1, |h|)
  {
    forall k: nat | 0 < k < |h|
      ensures Edge(h + [e], k)
    {
      assert Edge(h, k);
    }
  }

  lemma Truncated(h: Heap, n: nat)
    requires n <= |h| && HeapOrder(h, n)
    ensures HeapOrder(h[..n], n)
  {
    forall k: nat | 0 < k < n
      ensures Edge(h[..n], k)
    {
      assert Edge(h, k);
    }
  }

  ghost predicate Distinct(h: Heap) {
    forall i: nat, j: nat :: i < j < |h| ==> h[i] != h[j]
  }

  lemma OccursOnce(h: Heap, i: nat)
    requires i < |h| && Distinct(h)
    ensures multiset(h)[h[i]] == 1
  {
    assert h == h[..i] + [h[i]] + h[i + 1..];
    assert h[i] !in h[..i] && h[i] !in h[i + 1..];
  }

  lemma LastSplits(h: Heap, n: nat)
    requires |h| == n + 1
    ensures multiset(h) == multiset(h[..n]) + multiset{h[n]}
  {
    assert h == h[..n] + [h[n]];
  }

  lemma SwapKeepsAll(h: Heap, i: nat, j: nat)
    requires i < |h| && j < |h|
    ensures multiset(Swapped(h, i, j)) == multiset(h)
  {
  }

  lemma LastOut(h: Heap, n: nat)
    requires |h| == n + 1 && multiset(h)[h[n]] == 1
    ensures multiset(h[..n]) == multiset(h) - multiset{h[n]} && h[n] !in h[..n]
  {
    LastSplits(h, n);
    assert h[n] in h[..n] <==> h[n] in multiset(h[..n]);
  }

  /** Swapping position i with the last, permuting the rest and dropping the last takes out exactly h[i]. */
  lemma SwappedOut(h: Heap, h': Heap, n: nat, i: nat)
    requires |h| == n + 1 && i < n && multiset(h)[h[i]] == 1 && Permuted(Swapped(h, i, n), h', n)
    ensures multiset(h'[..n]) == multiset(h) - multiset{h[i]} && h[i] !in h'[..n]
  {
    SwapKeepsAll(h, i, n);
    LastSplits(Swapped(h, i, n), n);
    assert h[i] in h'[..n] <==> h[i] in multiset(h'[..n]);
  }

  lemma OthersStay(h: Heap, h': Heap, e: TimerEntry)
    requires multiset(h') == multiset(h) - multiset{e}
    ensures forall x <- h :: x in h' || x == e
  {
    forall x | x in h
      ensures x in h' || x == e
    {
      assert x in multiset(h') || x == e;
    }
  }
}
