/** Exactly when CancelTimer reads a deleted entry, inside scripts and inside expiry passes, and when ids run out. */
module TimerFaults {
  import opened MachineInts
  import opened Options
  import opened TimerModel
  import opened TimerLaws

  // ---------- inside a script ----------

  /** Operation i of the script is reached, and cancels a timer that is pending then. */
  ghost predicate CancelsPending(s: Timers, ops: seq<Op>, i: nat, id: int)
    requires i < |ops|
  {
    && ops[i] == Cancel(id)
    && RunOps(s, ops[..i]).fault.None? && id in RunOps(s, ops[..i]).state.live
  }

  /** Some operation before the j-th cancels timer `id` while it is pending. */
  ghost predicate CancelledBefore(s: Timers, ops: seq<Op>, j: nat, id: int)
    requires j <= |ops|
  {
    exists i: nat :: i < j && CancelsPending(s, ops, i, id)
  }

  lemma {:induction false} OneMoreOp(s: Timers, ops: seq<Op>, j: nat)
    requires j < |ops|
    ensures var e := RunOps(s, ops[..j]);
      RunOps(s, ops[..j + 1]) == if e.fault.Some? then e else Step(e.state, ops[j])
    decreases j
  {
    if j == 0 {
      assert ops[..1][1..] == [] && ops[..1][0] == ops[0];
    } else {
      assert ops[..j][1..] == ops[1..][..j - 1] && ops[..j + 1][1..] == ops[1..][..j];
      OneMoreOp(Step(s, ops[0]).state, ops[1..], j - 1);
    }
  }

  /** The cancelled ids after any part of a script are those from before and those it cancelled while pending. */
  lemma {:induction false} StaleAfterOps(s: Timers, ops: seq<Op>, j: nat, id: int)
    requires j <= |ops|
    ensures id in RunOps(s, ops[..j]).state.stale <==> id in s.stale || CancelledBefore(s, ops, j, id)
    decreases j
  {
    if j > 0 {
      OneMoreOp(s, ops, j - 1);
      StaleAfterOps(s, ops, j - 1, id);
      assert CancelledBefore(s, ops, j, id) <==>
        CancelledBefore(s, ops, j - 1, id) || CancelsPending(s, ops, j - 1, id);
    }
  }

  /** Operation j of a script reads a deleted entry exactly if it cancels an id that was cancelled while pending
      before the script, or by an earlier operation of it. */
  lemma OpFaultsExactly(s: Timers, ops: seq<Op>, j: nat)
    requires WellFormed(s) && j < |ops| && RunOps(s, ops[..j]).fault.None?
    ensures Step(RunOps(s, ops[..j]).state, ops[j]).fault == Some(UseAfterFree) <==>
      ops[j].Cancel? && (ops[j].id in s.stale || CancelledBefore(s, ops, j, ops[j].id))
  {
    RunOpsKeeps(s, ops[..j]);
    if ops[j].Cancel? { StaleAfterOps(s, ops, j, ops[j].id); }
  }

  /** The operation at which a script stops. */
  lemma {:induction false} FaultyOp(s: Timers, ops: seq<Op>) returns (j: nat)
    requires RunOps(s, ops).fault.Some?
    ensures j < |ops| && RunOps(s, ops[..j]).fault.None?
    ensures Step(RunOps(s, ops[..j]).state, ops[j]) == RunOps(s, ops)
    decreases |ops|
  {
    if Step(s, ops[0]).fault.Some? {
      j := 0;
    } else {
      j := FaultyOp(Step(s, ops[0]).state, ops[1..]);
      assert ops[..j + 1][1..] == ops[1..][..j];
      j := j + 1;
    }
  }

  /** Once an operation faults the script is over. */
  lemma {:induction false} FaultStops(s: Timers, ops: seq<Op>, j: nat)
    requires j < |ops| && RunOps(s, ops[..j]).fault.None? && Step(RunOps(s, ops[..j]).state, ops[j]).fault.Some?
    ensures RunOps(s, ops) == Step(RunOps(s, ops[..j]).state, ops[j])
    decreases j
  {
    if j > 0 {
      assert ops[..j][1..] == ops[1..][..j - 1];
      FaultStops(Step(s, ops[0]).state, ops[1..], j - 1);
    }
  }

  /** Operation j is reached and cancels an id that was cancelled while pending, before the script or earlier in it. */
  ghost predicate SecondCancelIn(s: Timers, ops: seq<Op>, j: nat) {
    && j < |ops| && ops[j].Cancel? && RunOps(s, ops[..j]).fault.None?
    && (ops[j].id in s.stale || CancelledBefore(s, ops, j, ops[j].id))
  }

  lemma SecondCancelOf(s: Timers, ops: seq<Op>) returns (j: nat)
    requires WellFormed(s) && RunOps(s, ops).fault == Some(UseAfterFree)
    ensures SecondCancelIn(s, ops, j)
  {
    j := FaultyOp(s, ops);
    OpFaultsExactly(s, ops, j);
  }

  /** A script reads a deleted entry exactly if it cancels some timer a second time. */
  lemma ScriptFaultsExactly(s: Timers, ops: seq<Op>)
    requires WellFormed(s)
    ensures RunOps(s, ops).fault == Some(UseAfterFree) <==> exists j: nat :: SecondCancelIn(s, ops, j)
  {
    if RunOps(s, ops).fault == Some(UseAfterFree) {
      var j := SecondCancelOf(s, ops);
    }
    if j: nat :| SecondCancelIn(s, ops, j) {
      OpFaultsExactly(s, ops, j);
      FaultStops(s, ops, j);
    }
  }

  // ---------- inside an expiry pass ----------

  /** The state in which the callback of turn k starts. */
  ghost function Popped(p: Pass, k: nat): Timers
    requires p.Shaped() && k < |p.fired|
  {
    p.states[k].(live := p.states[k].live - {p.fired[k]})
  }

  /** Turn k runs a callback. */
  ghost predicate CallsBack(p: Pass, k: nat)
    requires p.Shaped() && k < |p.fired|
  {
    p.fired[k] in p.states[k].live && p.states[k].live[p.fired[k]].sink.Some?
  }

  /** Operation i of the callback of turn l cancels timer `id` while it is pending. */
  ghost predicate CancelsInTurn(p: Pass, cb: Callbacks, l: nat, i: nat, id: int)
    requires p.Shaped() && l < |p.fired|
  {
    CallsBack(p, l) && i < |cb(p.fired[l])| && CancelsPending(Popped(p, l), cb(p.fired[l]), i, id)
  }

  predicate Earlier(l: nat, i: nat, k: nat, j: nat) {
    l < k || (l == k && i < j)
  }

  /** Before operation j of turn k, some callback of the pass cancels timer `id` while it is pending. */
  ghost predicate CancelledInPass(p: Pass, cb: Callbacks, k: nat, j: nat, id: int)
    requires p.Shaped() && k <= |p.fired|
  {
    exists l: nat, i: nat :: l < |p.fired| && Earlier(l, i, k, j) && CancelsInTurn(p, cb, l, i, id)
  }

  lemma StaleAfterTurn(p: Pass, s0: Timers, now: int, cb: Callbacks, l: nat, id: int)
    requires Progress(p, s0, now, cb) && l < |p.fired|
    ensures id in p.states[l + 1].stale <==>
      id in p.states[l].stale || exists i: nat :: CancelsInTurn(p, cb, l, i, id)
  {
    assert Turn(p, now, s0.nextId, cb, l);
    if CallsBack(p, l) {
      var ops := cb(p.fired[l]);
      assert ops[..|ops|] == ops;
      StaleAfterOps(Popped(p, l), ops, |ops|, id);
      if CancelledBefore(Popped(p, l), ops, |ops|, id) {
        var i: nat :| i < |ops| && CancelsPending(Popped(p, l), ops, i, id);
        assert CancelsInTurn(p, cb, l, i, id);
      }
    }
  }

  lemma BeforeNextTurn(p: Pass, cb: Callbacks, k: nat, id: int)
    requires p.Shaped() && k < |p.fired|
    ensures CancelledInPass(p, cb, k + 1, 0, id) <==>
      CancelledInPass(p, cb, k, 0, id) || exists i: nat :: CancelsInTurn(p, cb, k, i, id)
  {
    if CancelledInPass(p, cb, k, 0, id) {
      var l: nat, i: nat :| l < |p.fired| && Earlier(l, i, k, 0) && CancelsInTurn(p, cb, l, i, id);
      assert Earlier(l, i, k + 1, 0);
    }
    forall i: nat | CancelsInTurn(p, cb, k, i, id)
      ensures CancelledInPass(p, cb, k + 1, 0, id)
    {
      assert Earlier(k, i, k + 1, 0);
    }
    if CancelledInPass(p, cb, k + 1, 0, id) {
      var l: nat, i: nat :| l < |p.fired| && Earlier(l, i, k + 1, 0) && CancelsInTurn(p, cb, l, i, id);
      if l < k { assert Earlier(l, i, k, 0); }
    }
  }

  lemma {:induction false} StaleInPass(p: Pass, s0: Timers, now: int, cb: Callbacks, k: nat, id: int)
    requires Progress(p, s0, now, cb) && k <= |p.fired|
    ensures id in p.states[k].stale <==> id in s0.stale || CancelledInPass(p, cb, k, 0, id)
  {
    if k > 0 {
      StaleInPass(p, s0, now, cb, k - 1, id);
      StaleAfterTurn(p, s0, now, cb, k - 1, id);
      BeforeNextTurn(p, cb, k - 1, id);
    }
  }

  /** Operation j of the callback of turn k is reached and cancels an id that was cancelled while pending before the
      pass, or by an operation of the pass before this one. */
  ghost predicate CancelsTwice(p: Pass, s0: Timers, cb: Callbacks, k: nat, j: nat)
    requires p.Shaped() && k < |p.fired|
  {
    && CallsBack(p, k) && j < |cb(p.fired[k])| && cb(p.fired[k])[j].Cancel?
    && RunOps(Popped(p, k), cb(p.fired[k])[..j]).fault.None?
    && var id := cb(p.fired[k])[j].id;
    id in s0.stale || CancelledInPass(p, cb, k, j, id)
  }

  /** Cancelled before the script of turn k, or by it: the two ways of being cancelled before operation j of it. */
  lemma CancelledInPassSplits(p: Pass, s0: Timers, now: int, cb: Callbacks, k: nat, j: nat, id: int)
    requires Progress(p, s0, now, cb) && k < |p.fired| && CallsBack(p, k) && j <= |cb(p.fired[k])|
    ensures id in s0.stale || CancelledInPass(p, cb, k, j, id) <==>
      id in p.states[k].stale || CancelledBefore(Popped(p, k), cb(p.fired[k]), j, id)
  {
    StaleInPass(p, s0, now, cb, k, id);
    if CancelledInPass(p, cb, k, j, id) {
      var l: nat, i: nat :| l < |p.fired| && Earlier(l, i, k, j) && CancelsInTurn(p, cb, l, i, id);
      if l < k { assert Earlier(l, i, k, 0); }
    }
    if CancelledInPass(p, cb, k, 0, id) {
      var l: nat, i: nat :| l < |p.fired| && Earlier(l, i, k, 0) && CancelsInTurn(p, cb, l, i, id);
      assert Earlier(l, i, k, j);
    }
    if CancelledBefore(Popped(p, k), cb(p.fired[k]), j, id) {
      var i: nat :| i < j && CancelsPending(Popped(p, k), cb(p.fired[k]), i, id);
      assert Earlier(k, i, k, j) && CancelsInTurn(p, cb, k, i, id);
    }
  }

  /** A pass ends by reading a deleted entry exactly if some callback of it cancels a timer that was cancelled
      while pending before: before the pass, by an earlier callback, or earlier in its own script. */
  lemma PassFaultsExactly(p: Pass, s0: Timers, now: int, cb: Callbacks)
    requires WellFormed(s0) && IsPass(p, s0, now, cb)
    ensures p.end == Faulted(UseAfterFree) <==> exists k: nat, j: nat :: k < |p.fired| && CancelsTwice(p, s0, cb, k, j)
  {
    if p.end == Faulted(UseAfterFree) {
      var k, j := SecondCancel(p, s0, now, cb);
    }
    if k: nat, j: nat :| k < |p.fired| && CancelsTwice(p, s0, cb, k, j) {
      var ops := cb(p.fired[k]);
      assert Turn(p, now, s0.nextId, cb, k);
      StateKeeps(p, s0, now, cb, 0, k);
      CancelledInPassSplits(p, s0, now, cb, k, j, ops[j].id);
      OpFaultsExactly(Popped(p, k), ops, j);
      FaultStops(Popped(p, k), ops, j);
    }
  }

  /** The operation that reads the deleted entry. */
  lemma SecondCancel(p: Pass, s0: Timers, now: int, cb: Callbacks) returns (k: nat, j: nat)
    requires WellFormed(s0) && IsPass(p, s0, now, cb) && p.end == Faulted(UseAfterFree)
    ensures k < |p.fired| && CancelsTwice(p, s0, cb, k, j)
  {
    k := |p.fired| - 1;
    assert Turn(p, now, s0.nextId, cb, k);
    StateKeeps(p, s0, now, cb, 0, k);
    j := FaultyOp(Popped(p, k), cb(p.fired[k]));
    OpFaultsExactly(Popped(p, k), cb(p.fired[k]), j);
    CancelledInPassSplits(p, s0, now, cb, k, j, cb(p.fired[k])[j].id);
  }

  // ---------- running out of ids ----------

  lemma {:induction false} IdsUsed(s: Timers, ops: seq<Op>)
    requires WellFormed(s)
    ensures RunOps(s, ops).state.nextId <= s.nextId + Adds(ops)
    ensures RunOps(s, ops).fault == Some(IdOverflow) ==> s.nextId + Adds(ops) > INT_MAX
    decreases |ops|
  {
    if ops != [] && Step(s, ops[0]).fault.None? {
      assert WellFormed(Step(s, ops[0]).state);
      IdsUsed(Step(s, ops[0]).state, ops[1..]);
    }
  }

  /** No callback adds more than `most` timers. */
  ghost predicate AddAtMost(cb: Callbacks, most: nat) {
    forall id :: Adds(cb(id)) <= most
  }

  lemma {:induction false} IdsUsedInPass(p: Pass, s0: Timers, now: int, cb: Callbacks, most: nat, k: nat)
    requires WellFormed(s0) && Progress(p, s0, now, cb) && AddAtMost(cb, most) && k <= |p.fired|
    ensures p.states[k].nextId <= s0.nextId + k * most
    ensures k > 0 && FaultOf(p, k - 1) == Some(IdOverflow) ==> s0.nextId + k * most > INT_MAX
  {
    if k > 0 {
      IdsUsedInPass(p, s0, now, cb, most, k - 1);
      assert Turn(p, now, s0.nextId, cb, k - 1);
      StateKeeps(p, s0, now, cb, 0, k - 1);
      IdsUsed(Popped(p, k - 1), cb(p.fired[k - 1]));
      OneMore(k - 1, most);
    }
  }

  lemma OneMore(k: nat, most: nat)
    ensures (k + 1) * most == k * most + most
  {
  }

  /** A pass issues at most `most` ids for each timer pending at entry and for one more. */
  lemma PassUsesIds(p: Pass, s0: Timers, now: int, cb: Callbacks, most: nat)
    requires WellFormed(s0) && IsPass(p, s0, now, cb) && AddAtMost(cb, most)
    ensures var bound := s0.nextId + (|s0.live| + 1) * most;
      p.Last().nextId <= bound && (p.end == Faulted(IdOverflow) ==> bound > INT_MAX)
  {
    PassIsBounded(p, s0, now, cb);
    IdsUsedInPass(p, s0, now, cb, most, |p.fired|);
    Monotone(|p.fired|, |s0.live| + 1, most);
  }

  lemma Monotone(a: nat, b: nat, k: nat)
    requires a <= b
    ensures a * k <= b * k
  {
  }

  // ---------- how many timers can be pending ----------

  /** A script adds no more timers than it issues ids. */
  lemma {:induction false} LiveAfterOps(s: Timers, ops: seq<Op>)
    requires WellFormed(s)
    ensures |RunOps(s, ops).state.live| - |s.live| <= RunOps(s, ops).state.nextId - s.nextId
    decreases |ops|
  {
    if ops != [] {
      var s' := Step(s, ops[0]).state;
      assert WellFormed(s');
      LiveAfterOp(s, ops[0]);
      if Step(s, ops[0]).fault.None? { LiveAfterOps(s', ops[1..]); }
    }
  }

  lemma LiveAfterOp(s: Timers, op: Op)
    requires WellFormed(s)
    ensures |Step(s, op).state.live| - |s.live| <= Step(s, op).state.nextId - s.nextId
  {
    var s' := Step(s, op).state;
    match op
    case Add(_, _, _) =>
      if s' != s { assert s'.live.Keys == s.live.Keys + {s.nextId}; }
    case Cancel(id) =>
      assert s'.live.Keys <= s.live.Keys;
      Shrink(s'.live.Keys, s.live.Keys);
  }

  lemma LiveAfterFire(s: Timers, id: int, cb: Callbacks)
    requires WellFormed(s) && id in s.live
    ensures |Fire(s, id, cb).state.live| + 1 <= |s.live| + Fire(s, id, cb).state.nextId - s.nextId
  {
    var s1 := s.(live := s.live - {id});
    assert s.live.Keys == s1.live.Keys + {id};
    LiveAfterOps(s1, cb(id));
  }

  lemma LiveAfterTurn(p: Pass, s0: Timers, now: int, cb: Callbacks, k: nat)
    requires WellFormed(s0) && Progress(p, s0, now, cb) && k < |p.fired|
    ensures |p.states[k + 1].live| + 1 <= |p.states[k].live| + p.states[k + 1].nextId - p.states[k].nextId
  {
    assert Turn(p, now, s0.nextId, cb, k);
    StateKeeps(p, s0, now, cb, 0, k);
    LiveAfterFire(p.states[k], p.fired[k], cb);
  }

  /** Every turn of a pass takes one timer away. */
  lemma {:induction false} LiveInPass(p: Pass, s0: Timers, now: int, cb: Callbacks, k: nat)
    requires WellFormed(s0) && Progress(p, s0, now, cb) && k <= |p.fired|
    ensures |p.states[k].live| + k <= |s0.live| + p.states[k].nextId - s0.nextId
  {
    if k > 0 {
      LiveInPass(p, s0, now, cb, k - 1);
      LiveAfterTurn(p, s0, now, cb, k - 1);
    }
  }

  /** If no callback adds more than `most` timers, a pass leaves at most `most - 1` more pending for each turn. */
  lemma LiveAfterPass(p: Pass, s0: Timers, now: int, cb: Callbacks, most: nat)
    requires WellFormed(s0) && IsPass(p, s0, now, cb) && AddAtMost(cb, most)
    ensures |p.Last().live| <= |s0.live| + (|s0.live| + 1) * Excess(most)
  {
    var n := |p.fired|;
    PassIsBounded(p, s0, now, cb);
    IdsUsedInPass(p, s0, now, cb, most, n);
    LiveInPass(p, s0, now, cb, n);
    ExcessOf(n, most);
    Monotone(n, |s0.live| + 1, Excess(most));
  }

  function Excess(most: nat): nat {
    if most == 0 then 0 else most - 1
  }

  lemma ExcessOf(n: nat, most: nat)
    ensures n * most <= n + n * Excess(most)
  {
    if most > 0 { OneMoreFactor(n, most - 1); }
  }

  lemma OneMoreFactor(n: nat, k: nat)
    ensures n * (k + 1) == n * k + n
  {
  }
}
