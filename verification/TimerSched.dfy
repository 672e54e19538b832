/** The timer scheduler: an indexed binary heap of entries beside an id-to-entry table. */
module TimerScheduler {
  import opened MachineInts
  import opened Options
  import opened TimerModel
  import opened TimerHeap
  import opened TimerLaws

  type Table = map<int, TimerEntry>

  /** Heap and table agree: every heap entry is filed under its id, and every key is its entry's id. */
  ghost predicate Linked(nextId: int, h: Heap, refs: Table) {
    && (forall e <- h :: e.id in refs && refs[e.id] == e)
    && (forall id <- refs :: refs[id].id == id && FIRST_ID <= id < nextId)
  }

  /** What heap and table mean: a filed entry is pending while it is in the heap, and otherwise it was cancelled. */
  ghost function Meaning(nextId: int, h: Heap, refs: Table): Timers {
    Timers(nextId,
           map id | id in refs && refs[id] in h :: Timer(refs[id].expire, refs[id].sink),
           set id | id in refs && refs[id] !in h)
  }

  lemma AddedMeans(nextId: int, h: Heap, refs: Table, h': Heap, e: TimerEntry)
    requires FIRST_ID <= nextId && Linked(nextId, h, refs) && e.id == nextId
    requires multiset(h') == multiset(h) + multiset{e}
    ensures Linked(nextId + 1, h', refs[e.id := e])
    ensures e in h' && forall id <- refs :: refs[id] in h' <==> refs[id] in h
    ensures var s := Meaning(nextId, h, refs);
      Meaning(nextId + 1, h', refs[e.id := e]) ==
        s.(nextId := nextId + 1, live := s.live[e.id := Timer(e.expire, e.sink)])
  {
    var refs' := refs[e.id := e];
    assert e in multiset(h');
    forall x | x in h' ensures x in h || x == e { assert x in multiset(h'); }
    forall id | id in refs'
      ensures refs'[id] in h' <==> refs'[id] in h || refs'[id] == e
    {
      assert refs'[id] in h' <==> refs'[id] in multiset(h');
    }
    forall id | id in refs
      ensures refs[id] in h' <==> refs[id] in h
    {
      assert refs'[id] == refs[id] != e;
    }
    var s, s' := Meaning(nextId, h, refs), Meaning(nextId + 1, h', refs');
    assert forall id :: id in s'.live <==> id in s.live || id == e.id;
    assert forall id :: id in s'.stale <==> id in s.stale;
    assert s'.live == s.live[e.id := Timer(e.expire, e.sink)];
    assert s'.stale == s.stale;
  }

  lemma RemovedMeans(nextId: int, h: Heap, refs: Table, h': Heap, e: TimerEntry)
    requires Linked(nextId, h, refs) && e in h
    requires multiset(h') == multiset(h) - multiset{e} && e !in h'
    ensures Linked(nextId, h', refs) && Linked(nextId, h', refs - {e.id})
    ensures forall id <- refs :: refs[id] in h' <==> refs[id] in h && id != e.id
    ensures var s := Meaning(nextId, h, refs);
      && Meaning(nextId, h', refs) == s.(live := s.live - {e.id}, stale := s.stale + {e.id})
      && Meaning(nextId, h', refs - {e.id}) == s.(live := s.live - {e.id})
  {
    forall x | x in h' ensures x in h && x != e { assert x in multiset(h'); }
    forall id | id in refs
      ensures refs[id] in h' <==> refs[id] in h && refs[id] != e
    {
      assert refs[id] in h' <==> refs[id] in multiset(h');
    }
    var s, s', s'' := Meaning(nextId, h, refs), Meaning(nextId, h', refs), Meaning(nextId, h', refs - {e.id});
    assert forall id :: id in s'.live <==> id in s.live && id != e.id;
    assert forall id :: id in s''.live <==> id in s.live && id != e.id;
    assert forall id :: id in s'.stale <==> id in s.stale || id == e.id;
    assert forall id :: id in s''.stale <==> id in s.stale;
    assert s'.live == s''.live == s.live - {e.id};
    assert s'.stale == s.stale + {e.id} && s''.stale == s.stale;
  }

  /** At most one exchange more than the binary logarithm of the heap size. */
  ghost predicate Logarithmic(swaps: nat, size: nat) {
    swaps > 0 ==> Pow2(swaps - 1) <= size
  }

  lemma MeansWellFormed(nextId: int, h: Heap, refs: Table)
    requires Linked(nextId, h, refs) && FIRST_ID <= nextId <= INT_MAX
    ensures WellFormed(Meaning(nextId, h, refs))
  {
  }

  /** The root of the heap is the earliest pending timer. */
  lemma RootMeans(nextId: int, h: Heap, refs: Table)
    requires Linked(nextId, h, refs) && HeapOrder(h, |h|) && h != []
    ensures var s := Meaning(nextId, h, refs);
      Earliest(s, h[0].id) && s.live[h[0].id] == Timer(h[0].expire, h[0].sink)
  {
    var s := Meaning(nextId, h, refs);
    assert h[0] in h;
    forall id | id in s.live
      ensures h[0].expire <= s.live[id].expire
    {
      var k: nat :| k < |h| && h[k] == refs[id];
      RootIsEarliest(h, |h|, k);
    }
  }

  class TimerSched {
    var nextId: int
    var heap: Heap
    var refs: Table
    ghost var pool: set<TimerEntry>  // every entry ever allocated
    ghost var firing: TimerEntry?    // the entry whose callback is running, already out of the heap

    /** Every entry of the first n positions knows its position. */
    ghost predicate Indexed(n: nat)
      reads this, heap
      requires n <= |heap|
    {
      forall k: nat {:trigger heap[k]} :: k < n ==> heap[k].index == k
    }

    ghost predicate Pooled()
      reads this
    {
      forall e <- heap :: e in pool
    }

    ghost predicate Valid()
      reads this, pool
    {
      && Pooled() && (forall id <- refs :: refs[id] in pool)
      && FIRST_ID <= nextId <= INT_MAX && |heap| <= nextId - FIRST_ID
      && HeapOrder(heap, |heap|)
      && (forall k: nat {:trigger heap[k]} :: k < |heap| ==> heap[k].index == k)
      && Linked(nextId, heap, refs)
      && (forall e <- heap :: !e.freed)
      && (forall id <- refs :: refs[id] in heap || refs[id].freed)
      && (firing != null ==> firing in pool && firing !in heap && !firing.freed)
      && NoLeak()
    }

    /** Every entry ever allocated is in the heap, or deleted, or the one whose callback is running. */
    ghost predicate NoLeak()
      reads this, pool
    {
      forall e <- pool :: e in heap || e.freed || e == firing
    }

    /** What the structure means. */
    ghost function Model(): Timers
      reads this
    {
      Meaning(nextId, heap, refs)
    }

    constructor ()
      ensures Valid() && fresh(pool) && Model() == Init() && firing == null
    {
      nextId, heap, refs, pool, firing := FIRST_ID, [], map[], {}, null;
    }

    method Swap(i: nat, j: nat, ghost n: nat)
      requires i < n <= |heap| && j < n && i != j && Indexed(n) && Pooled()
      modifies this`heap, pool`index
      ensures heap == Swapped(old(heap), i, j) && Indexed(n) && Pooled()
    {
      heap := heap[i := heap[j]][j := heap[i]];
      heap[i].index := i;
      heap[j].index := j;
    }

    /** The child of i that siftdown swaps with, or i itself where siftdown stops. */
    method NextDown(i: nat, n: nat) returns (j: nat)
      requires i <= n <= |heap| && n <= INT_MAX
      ensures j == i ==> i < n ==> NoLater(heap, n, i, 2 * i + 1) && NoLater(heap, n, i, 2 * i + 2)
      ensures j != i ==> j < n && (j == 2 * i + 1 || j == 2 * i + 2) && heap[j].expire < heap[i].expire
      ensures j != i ==> NoLater(heap, n, j, 2 * i + 1) && NoLater(heap, n, j, 2 * i + 2)
      ensures j == 2 * i + 1 && 2 * i + 2 < n ==> heap[j].expire < heap[2 * i + 2].expire
    {
      var j1 := LeftChild32(i);
      GuardIsExact(i, n);
      if j1 >= n || j1 < 0 {
        return i;
      }
      j := j1;
      var j2 := Int32(j1 + 1);
      if j2 < n && !(heap[j1].expire < heap[j2].expire) {
        j := j2;
      }
      if !(heap[j].expire < heap[i].expire) {
        return i;
      }
    }

    /** Moves the item at x down until its children, among the first n items, do not precede it. */
    method SiftDown(x: nat, n: nat) returns (moved: bool, ghost swaps: nat)
      requires x <= n <= |heap| && n <= INT_MAX && Indexed(n) && Pooled() && BrokenAt(heap, n, x)
      modifies this`heap, pool`index
      ensures Permuted(old(heap), heap, n) && SameOutside(old(heap), heap, n, x) && Indexed(n) && Pooled()
      ensures moved <==> heap != old(heap)
      ensures if moved then HeapOrder(heap, n) else BrokenAbove(heap, n, x)
      ensures (swaps > 0 <==> moved) && (x < n ==> Weight(x, swaps) <= n)
    {
      var i := x;
      swaps := 0;
      ghost var h0 := heap;
      while true
        invariant Sinking(h0, heap, n, x, i, swaps) && Indexed(n) && Pooled()
        decreases n - i
      {
        var j := NextDown(i, n);
        if j == i {
          break;
        }
        SinkStep(h0, heap, n, x, i, j, swaps);
        Swap(i, j, n);
        swaps := swaps + 1;
        i := j;
      }
      SinkEnds(h0, heap, n, x, i, swaps);
      moved := i > x;
    }

    /** Moves the item at x up until its parent does not follow it.  The first n items are the heap. */
    method SiftUp(x: nat, ghost n: nat) returns (ghost swaps: nat)
      requires x < n <= |heap| && Indexed(n) && Pooled() && BrokenAbove(heap, n, x)
      modifies this`heap, pool`index
      ensures Permuted(old(heap), heap, n) && SameOffPath(old(heap), heap, n, x) && Indexed(n) && Pooled()
      ensures HeapOrder(heap, n) && Weight(0, swaps) <= x + 1
    {
      var j: nat := x;
      swaps := 0;
      ghost var h0 := heap;
      while true
        invariant Rising(h0, heap, n, x, j, swaps) && Indexed(n) && Pooled()
        decreases j
      {
        ParentStopsAtRoot(j);
        var i := Half(j - 1);
        if i == j || !(heap[j].expire < heap[i].expire) {
          break;
        }
        RiseStep(h0, heap, n, x, j, swaps);
        Swap(i, j, n);
        swaps := swaps + 1;
        j := i;
      }
      RiseEnds(h0, heap, n, x, j, swaps);
    }

    /** Appends an entry to the heap and sifts it up. */
    method Push(entry: TimerEntry) returns (ghost swaps: nat)
      requires Pooled() && Indexed(|heap|) && HeapOrder(heap, |heap|)
      requires entry in pool && entry.index == |heap|
      modifies this`heap, pool`index
      ensures Pooled() && Indexed(|heap|) && HeapOrder(heap, |heap|)
      ensures multiset(heap) == multiset(old(heap)) + multiset{entry} && |heap| == |old(heap)| + 1
      ensures Pow2(swaps) <= |heap|
    {
      AppendedBreaksAbove(heap, entry);
      heap := heap + [entry];
      ghost var h := heap;
      swaps := SiftUp(|heap| - 1, |heap|);
      PermutedMembers(h, heap, |heap|);
      WeightAtRoot(swaps);
    }

    /** Files a new entry under the next id. */
    method AddTimer(tick: nat, millsec: int, sink: Option<nat>)
      returns (id: int, fault: Option<Fault>, ghost swaps: nat)
      requires Valid()
      modifies this, pool`index
      ensures Valid() && fresh(pool - old(pool)) && old(pool) <= pool && firing == old(firing)
      ensures Exec(Model(), fault) == Step(old(Model()), Add(tick, millsec, sink))
      ensures fault.None? ==> id == old(nextId) && id in refs && pool == old(pool) + {refs[id]}
      ensures fault.None? ==> refs[id].sink == sink && refs[id] in heap && !refs[id].freed
      ensures fault.None? && -0x8000_0000_0000_0000 <= tick + millsec < 0x8000_0000_0000_0000 ==>
        refs[id].expire == tick + millsec
      ensures fault.None? <==> old(nextId) < 0x7FFF_FFFF
      ensures fault.None? ==> Pow2(swaps) <= |heap|
    {
      if nextId >= INT_MAX {
        return nextId, Some(IdOverflow), 0;
      }
      var entry := new TimerEntry(nextId, Expire(tick, millsec), sink, |heap|);
      nextId := nextId + 1;
      refs := refs[entry.id := entry];
      pool := pool + {entry};
      swaps := Push(entry);
      AddedMeans(old(nextId), old(heap), old(refs), heap, entry);
      return entry.id, None, swaps;
    }

    /** Cancels a pending timer from wherever it sits in the heap.  The table keeps the id (see TimerModel). */
    method CancelTimer(id: int) returns (fault: Option<Fault>, ghost swaps: nat)
      requires Valid()
      modifies this`heap, pool`index, pool`freed
      ensures Valid()
      ensures Exec(Model(), fault) == Step(old(Model()), Cancel(id))
      ensures id in old(Model().live) ==> id in refs && refs[id].freed
      ensures id in old(Model().live) ==>
        multiset(heap) == multiset(old(heap)) - multiset{refs[id]} && Logarithmic(swaps, |old(heap)|)
    {
      swaps := 0;
      if id !in refs {
        return None, 0;
      }
      var entry := refs[id];
      if entry.freed {
        return Some(UseAfterFree), 0;  // the source reads entry->index here
      }
      swaps := Unlink(entry);
      entry.freed := true;
      fault := None;
      RemovedMeans(nextId, old(heap), refs, heap, entry);
    }

    /** Overwrites position i by the last entry and repairs the heap order of the entries before the last:
        down if that moves the entry, and only otherwise up. */
    method Refill(i: nat, n: nat) returns (ghost swaps: nat)
      requires i < n && |heap| == n + 1 <= INT_MAX && HeapOrder(heap, n + 1) && Indexed(n + 1) && Pooled()
      modifies this`heap, pool`index
      ensures Permuted(Swapped(old(heap), i, n), heap, n)
      ensures HeapOrder(heap, n) && Indexed(n) && Pooled() && Logarithmic(swaps, n)
    {
      ghost var h0 := heap;
      heap := heap[i := heap[n]][n := heap[i]];
      heap[i].index := i;
      ReplacedBreaksAt(h0, heap, n, i);
      var moved;
      moved, swaps := SiftDown(i, n);
      if !moved {
        swaps := SiftUp(i, n);
      } else {
        WeightGrows(0, i, swaps);
      }
      WeightAtRoot(swaps);
      swaps := swaps + 1;
    }

    /** Takes an entry out of the heap, wherever it sits. */
    method Unlink(entry: TimerEntry) returns (ghost swaps: nat)
      requires Valid() && entry in heap
      modifies this`heap, pool`index
      ensures Pooled() && Indexed(|heap|) && HeapOrder(heap, |heap|)
      ensures multiset(heap) == multiset(old(heap)) - multiset{entry} && entry !in heap
      ensures |heap| == |old(heap)| - 1
      ensures Logarithmic(swaps, |old(heap)|)
    {
      var n := |heap| - 1;
      var i := entry.index;
      swaps := 0;
      ghost var h0 := heap;
      OccursOnce(h0, i);
      if i != n {
        swaps := Refill(i, n);
        SwappedOut(h0, heap, n, i);
      } else {
        LastOut(heap, n);
      }
      Truncated(heap, n);
      heap := heap[..n];
    }

    method Apply(op: Op) returns (fault: Option<Fault>)
      requires Valid()
      modifies this, pool`index, pool`freed
      ensures Valid() && fresh(pool - old(pool)) && old(pool) <= pool && firing == old(firing)
      ensures Exec(Model(), fault) == Step(old(Model()), op)
    {
      match op
      case Add(tick, millsec, sink) =>
        var id;
        ghost var swaps;
        id, fault, swaps := AddTimer(tick, millsec, sink);
      case Cancel(id) =>
        ghost var swaps;
        fault, swaps := CancelTimer(id);
    }

    /** The user code of one timer callback. */
    method OnTimeout(ops: seq<Op>) returns (fault: Option<Fault>)
      requires Valid()
      modifies this, pool`index, pool`freed
      ensures Valid() && fresh(pool - old(pool)) && old(pool) <= pool && firing == old(firing)
      ensures Exec(Model(), fault) == RunOps(old(Model()), ops)
      decreases |ops|
    {
      if ops == [] {
        return None;
      }
      fault := Apply(ops[0]);
      if fault.None? {
        fault := OnTimeout(ops[1..]);
      }
    }

    /** Overwrites the root by the last entry and sifts that down among the entries before the last. */
    method RefillRoot(n: nat) returns (ghost swaps: nat)
      requires |heap| == n + 1 <= INT_MAX && HeapOrder(heap, n + 1) && Indexed(n + 1) && Pooled()
      modifies this`heap, pool`index
      ensures Permuted(Swapped(old(heap), 0, n), heap, n)
      ensures HeapOrder(heap, n) && Indexed(n) && Pooled() && Logarithmic(swaps, n + 1)
    {
      ghost var h0 := heap;
      heap := heap[0 := heap[n]][n := heap[0]];
      heap[0].index := 0;
      ReplacedBreaksAt(h0, heap, n, 0);
      var moved;
      moved, swaps := SiftDown(0, n);
      WeightAtRoot(swaps);
      swaps := swaps + 1;
    }

    /** Takes the root out of the heap. */
    method DropRoot() returns (ghost swaps: nat)
      requires Valid() && heap != []
      modifies this`heap, pool`index
      ensures Pooled() && Indexed(|heap|) && HeapOrder(heap, |heap|)
      ensures multiset(heap) == multiset(old(heap)) - multiset{old(heap)[0]} && old(heap)[0] !in heap
      ensures |heap| == |old(heap)| - 1
      ensures Logarithmic(swaps, |old(heap)|)
    {
      ghost var h0 := heap;
      var n := |heap| - 1;
      OccursOnce(h0, 0);
      swaps := RefillRoot(n);
      if n == 0 { LastOut(h0, 0); } else { SwappedOut(h0, heap, n, 0); }
      Truncated(heap, n);
      heap := heap[..n];
    }

    /** Takes the earliest entry out of heap and table. */
    method PopRoot() returns (entry: TimerEntry, ghost swaps: nat)
      requires Valid() && heap != [] && firing == null
      modifies this`heap, this`refs, this`firing, pool`index
      ensures Valid() && entry == old(heap)[0] == firing
      ensures Model() == old(Model()).(live := old(Model()).live - {entry.id})
      ensures multiset(heap) == multiset(old(heap)) - multiset{entry} && Logarithmic(swaps, |old(heap)|)
    {
      entry := heap[0];
      swaps := DropRoot();
      refs := refs - {entry.id};
      firing := entry;
      OthersStay(old(heap), heap, entry);
      RemovedMeans(nextId, old(heap), old(refs), heap, entry);
    }

    /** Deletes the entry whose callback has returned.  It was neither pending nor deleted. */
    method DeleteFired(entry: TimerEntry)
      requires Valid() && entry == firing
      modifies this`firing, entry`freed
      ensures Valid() && firing == null && Model() == old(Model())
      ensures !old(entry.freed) && entry.freed
    {
      entry.freed := true;
      firing := null;
    }

    /** One turn of the expiry loop: pops the root, runs its callback, deletes the entry. */
    method FireRoot(cb: Callbacks) returns (fault: Option<Fault>)
      requires Valid() && heap != [] && firing == null
      modifies this, pool`index, pool`freed
      ensures Valid() && fresh(pool - old(pool)) && old(pool) <= pool
      ensures fault.None? ==> firing == null && old(heap)[0].freed
      ensures old(heap)[0].id in old(Model()).live
      ensures Exec(Model(), fault) == Fire(old(Model()), old(heap)[0].id, cb)
    {
      ghost var s := Model();
      RootMeans(nextId, heap, refs);
      MeansWellFormed(nextId, heap, refs);
      var entry;
      ghost var swaps;
      entry, swaps := PopRoot();
      fault := None;
      if entry.sink.Some? {
        fault := OnTimeout(cb(entry.id));
      }
      FireKeeps(s, entry.id, cb);
      if fault.None? {
        DeleteFired(entry);
      }
    }

    /** The expiry pass.  `cb` is what the callbacks do, each re-entering this object; `called` lists those that ran. */
    method UpdateTimer(now: int, cb: Callbacks) returns (end: PassEnd, called: seq<int>, ghost p: Pass)
      requires Valid() && firing == null
      modifies this, pool`index, pool`freed
      ensures Valid() && fresh(pool - old(pool)) && old(pool) <= pool && (!end.Faulted? ==> firing == null)
      ensures IsPass(p, old(Model()), now, cb) && p.end == end && p.Last() == Model()
      ensures called == CalledBack(p, |p.fired|)
    {
      var lastId := nextId;
      ghost var s0 := Model();
      p := Pass([s0], [], Finished);
      called := [];
      while heap != []
        invariant Valid() && fresh(pool - old(pool)) && old(pool) <= pool && firing == null
        invariant lastId == s0.nextId <= nextId
        invariant Progress(p, s0, now, cb) && p.end == Finished && p.Last() == Model()
        invariant called == CalledBack(p, |p.fired|)
        decreases Budget(Model(), lastId)
      {
        var entry := heap[0];
        RootMeans(nextId, heap, refs);
        if now < entry.expire {
          break;
        }
        if entry.id > lastId {
          // the source takes this turn for ever: nothing it tests has changed
          SpinningPass(p, s0, now, cb, entry.id);
          SameCalledBack(p, |p.fired|);
          return Spins, called, p.(end := Spins);
        }
        NextTurn(p, s0, now, cb, entry.id);
        p := Extended(p, entry.id, cb);
        called := called + if entry.sink.Some? then [entry.id] else [];
        var fault := FireRoot(cb);
        if fault.Some? {
          return Faulted(fault.value), called, p;
        }
      }
      end := Finished;
    }
  }
}
