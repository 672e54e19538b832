/** Concrete inputs on which timers misbehave: a pass that handles the timers its own callbacks create, and a second
    cancel of one id.  TimerLaws.SpinsExactly and NewcomerFires, and TimerFaults, say exactly when. */
module TimerFlaws {
  import opened MachineInts
  import opened Options
  import opened TimerModel
  import opened TimerLaws
  import opened TimerFaults

  /** One timer, id 100, already due, with a callback. */
  function OneDue(): Timers { Timers(101, map[100 := Timer(0, Some(0))], {}) }

  function OnlyFirst(ops: seq<Op>): Callbacks { id => if id == 100 then ops else [] }

  const ZERO_DELAY: Op := Add(0, 0, None)

  lemma {:induction false} AddsNeverFault(s: Timers, ops: seq<Op>)
    requires s.nextId + |ops| <= INT_MAX && forall op <- ops :: op.Add?
    ensures RunOps(s, ops).fault.None?
    decreases |ops|
  {
    if ops != [] {
      AddsNeverFault(Step(s, ops[0]).state, ops[1..]);
    }
  }

  /** Every pass over OneDue starts by firing timer 100. */
  lemma FirstTurn(p: Pass, ops: seq<Op>)
    requires IsPass(p, OneDue(), 0, OnlyFirst(ops))
    ensures WellFormed(OneDue()) && p.fired != [] && p.fired[0] == 100 && p.states[0] == OneDue()
    ensures forall k: nat :: 0 < k < |p.fired| ==> p.fired[k] != 100
  {
    assert 100 in p.states[0].live;
    assert p.fired != [];
    assert Turn(p, 0, 101, OnlyFirst(ops), 0);
    assert Earliest(p.states[0], p.fired[0]);
    forall k: nat | 0 < k < |p.fired| ensures p.fired[k] != 100 { FiredOnce(p, OneDue(), 0, OnlyFirst(ops), 0, k); }
  }

  lemma NoFault(p: Pass, ops: seq<Op>)
    requires IsPass(p, OneDue(), 0, OnlyFirst(ops)) && |ops| <= 2 && forall op <- ops :: op.Add?
    ensures !p.end.Faulted?
  {
    FirstTurn(p, ops);
    if p.end.Faulted? {
      assert Turn(p, 0, 101, OnlyFirst(ops), |p.fired| - 1);
      AddsNeverFault(OneDue().(live := OneDue().live - {100}), ops);
      assert false;
    }
  }

  /** The j-th operation of the callback, an Add, gets id 101 + j. */
  lemma AddsInFirstTurn(p: Pass, ops: seq<Op>, j: nat)
    requires IsPass(p, OneDue(), 0, OnlyFirst(ops)) && j < |ops| && forall op <- ops :: op == ZERO_DELAY
    ensures p.fired != [] && AddsForGood(p, OnlyFirst(ops), 0, j, 101 + j, 0)
  {
    FirstTurn(p, ops);
    AddsOf(ops, j);
    assert Expire(0, 0) == 0;
    assert ops[j] in ops;
    assert forall id :: Cancel(id) !in ops;
  }

  lemma {:induction false} AddsOf(ops: seq<Op>, j: nat)
    requires j <= |ops| && forall op <- ops :: op.Add?
    ensures Adds(ops[..j]) == j
    decreases |ops|
  {
    if j > 0 {
      assert ops[..j][1..] == ops[1..][..j - 1];
      AddsOf(ops[1..], j - 1);
    }
  }

  /** A callback that adds two timers with no delay makes UpdateTimer run for ever: the first of them has
      id == last_id and fires, the second has id > last_id and reaches the root. */
  lemma TwoZeroDelaysSpin(p: Pass)
    requires IsPass(p, OneDue(), 0, OnlyFirst([ZERO_DELAY, ZERO_DELAY]))
    ensures p.end.Spins?
  {
    var ops := [ZERO_DELAY, ZERO_DELAY];
    FirstTurn(p, ops);
    NoFault(p, ops);
    AddsInFirstTurn(p, ops, 1);
    SpinsIf(p, OneDue(), 0, OnlyFirst(ops), 0, 1, 102, 0);
  }

  lemma OneAddNeverSpins(p: Pass, op: Op)
    requires IsPass(p, OneDue(), 0, OnlyFirst([op]))
    ensures !p.end.Spins?
  {
    FirstTurn(p, [op]);
    if p.end.Spins? {
      var k, j, id, expire := SpinsOnlyIf(p, OneDue(), 0, OnlyFirst([op]));
      assert false;
    }
  }

  /** A callback that adds one timer with no delay gets it fired in the very same pass. */
  lemma OneZeroDelayFiresAtOnce(p: Pass)
    requires IsPass(p, OneDue(), 0, OnlyFirst([ZERO_DELAY]))
    ensures p.end == Finished && 101 in p.fired
  {
    var ops := [ZERO_DELAY];
    FirstTurn(p, ops);
    NoFault(p, ops);
    OneAddNeverSpins(p, ZERO_DELAY);
    AddsInFirstTurn(p, ops, 0);
    NewcomerFires(p, OneDue(), 0, OnlyFirst(ops), 0, 0, 101, 0);
  }

  /** Cancelling a pending timer twice reads its deleted entry. */
  lemma SecondCancelFaults()
    ensures RunOps(Init(), [ZERO_DELAY, Cancel(100), Cancel(100)]).fault == Some(UseAfterFree)
  {
    var ops := [ZERO_DELAY, Cancel(100), Cancel(100)];
    assert ops[..0] == [] && RunOps(Init(), ops[..0]) == Exec(Init(), None);
    OneMoreOp(Init(), ops, 0);
    OneMoreOp(Init(), ops, 1);
    OneMoreOp(Init(), ops, 2);
    assert ops[..3] == ops;
  }

  /** So does a callback that cancels another timer twice. */
  lemma CallbackCancelsTwice(p: Pass, s0: Timers)
    requires s0 == Timers(102, map[100 := Timer(0, Some(0)), 101 := Timer(9, None)], {})
    requires IsPass(p, s0, 0, OnlyFirst([Cancel(101), Cancel(101)]))
    ensures p.end == Faulted(UseAfterFree)
  {
    var ops := [Cancel(101), Cancel(101)];
    assert 100 in p.states[0].live && p.fired != [];
    assert Turn(p, 0, 102, OnlyFirst(ops), 0);
    assert ops[..0] == [] && RunOps(Popped(p, 0), ops[..0]) == Exec(Popped(p, 0), None);
    OneMoreOp(Popped(p, 0), ops, 0);
    assert CancelsInTurn(p, OnlyFirst(ops), 0, 0, 101) && Earlier(0, 0, 0, 1);
    assert CancelsTwice(p, s0, OnlyFirst(ops), 0, 1);
    PassFaultsExactly(p, s0, 0, OnlyFirst(ops));
  }
}
