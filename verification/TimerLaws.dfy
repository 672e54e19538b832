/** Laws of the timer model: what any callback script, and any expiry pass, keeps and achieves. */
module TimerLaws {
  import opened MachineInts
  import opened Options
  import opened TimerModel

  // ---------- what every operation keeps ----------

  /** Time's arrow for ids: none is handed out twice, none comes back to life, none is un-cancelled. */
  ghost predicate Evolves(s: Timers, s': Timers) {
    && s.nextId <= s'.nextId
    && s.stale <= s'.stale
    && (forall id <- s'.live :: id < s.nextId ==> id in s.live && s'.live[id] == s.live[id])
    && (forall id <- s'.stale :: id < s.nextId ==> id in s.stale || id in s.live)
  }

  lemma EvolvesTrans(a: Timers, b: Timers, c: Timers)
    requires Evolves(a, b) && Evolves(b, c)
    ensures Evolves(a, c)
  {
    forall id | id in c.live && id < a.nextId
      ensures id in a.live && c.live[id] == a.live[id]
    {
      assert id in b.live && c.live[id] == b.live[id];
    }
  }

  /** Running a script keeps the state well formed, and every timer pending before it is afterwards
      either pending, unchanged, or cancelled: exactly cancelled if the script says so. */
  lemma {:induction false} RunOpsKeeps(s: Timers, ops: seq<Op>)
    requires WellFormed(s)
    ensures var e := RunOps(s, ops);
      && WellFormed(e.state) && Evolves(s, e.state)
      && (forall id :: id in s.live || s.nextId <= id < e.state.nextId ==> id in e.state.live || id in e.state.stale)
      && (e.fault.None? ==> forall id <- s.live :: id in e.state.live <==> Cancel(id) !in ops)
    decreases |ops|
  {
    if ops != [] {
      var e := Step(s, ops[0]);
      if e.fault.None? {
        RunOpsKeeps(e.state, ops[1..]);
        EvolvesTrans(s, e.state, RunOps(s, ops).state);
        assert ops == [ops[0]] + ops[1..];
        assert forall id :: Cancel(id) in ops <==> Cancel(id) == ops[0] || Cancel(id) in ops[1..];
      }
    }
  }

  lemma FireKeeps(s: Timers, id: int, cb: Callbacks)
    requires WellFormed(s) && id in s.live
    ensures var e := Fire(s, id, cb);
      && WellFormed(e.state) && Evolves(s, e.state) && id !in e.state.live && id !in e.state.stale
      && (forall other :: (other in s.live && other != id) || s.nextId <= other < e.state.nextId ==>
            other in e.state.live || other in e.state.stale)
      && (e.fault.None? ==> forall other <- s.live ::
            other in e.state.live <==> other != id && !(s.live[id].sink.Some? && Cancel(other) in cb(id)))
  {
    var s1 := s.(live := s.live - {id});
    RunOpsKeeps(s1, cb(id));
  }

  lemma {:induction false} StateKeeps(p: Pass, s0: Timers, now: int, cb: Callbacks, i: nat, j: nat)
    requires WellFormed(s0) && Progress(p, s0, now, cb) && i <= j <= |p.fired|
    ensures WellFormed(p.states[i]) && WellFormed(p.states[j]) && Evolves(p.states[i], p.states[j])
    decreases j
  {
    if j > 0 {
      StateKeeps(p, s0, now, cb, if i < j then i else j - 1, j - 1);
      assert Turn(p, now, s0.nextId, cb, j - 1);
      FireKeeps(p.states[j - 1], p.fired[j - 1], cb);
      if i < j { EvolvesTrans(p.states[i], p.states[j - 1], p.states[j]); }
    }
  }

  /** What adding a timer means: it expires `millsec` after the clock reading, to the millisecond, and no other timer
      changes; it is refused only when the ids are used up. */
  lemma AddDoes(s: Timers, tick: nat, millsec: int, sink: Option<nat>)
    requires WellFormed(s)
    ensures var e, id := Step(s, Add(tick, millsec, sink)), s.nextId;
      if s.nextId == 0x7FFF_FFFF then e == Exec(s, Some(IdOverflow))
      else
        && e.fault.None? && e.state.nextId == id + 1 && e.state.stale == s.stale
        && e.state.live.Keys == s.live.Keys + {id} && (forall other <- s.live :: e.state.live[other] == s.live[other])
        && e.state.live[id].sink == sink
        && (-0x8000_0000_0000_0000 <= tick + millsec < 0x8000_0000_0000_0000 ==>
              e.state.live[id].expire == tick + millsec)
  {
  }

  // ---------- termination, for arbitrary callbacks ----------

  ghost function Eligible(s: Timers, lastId: int): set<int> {
    set id | id in s.live && id <= lastId
  }

  /** Timers the pass may still fire, plus the one id it may still hand out and fire. */
  ghost function Budget(s: Timers, lastId: int): nat {
    |Eligible(s, lastId)| + if s.nextId <= lastId then 1 else 0
  }

  lemma {:induction false} BudgetNeverGrows(s: Timers, ops: seq<Op>, lastId: int)
    requires lastId <= s.nextId
    ensures Budget(RunOps(s, ops).state, lastId) <= Budget(s, lastId) && lastId <= RunOps(s, ops).state.nextId
    decreases |ops|
  {
    if ops != [] {
      var s' := Step(s, ops[0]).state;
      var before, after := Eligible(s, lastId), Eligible(s', lastId);
      if s.nextId == lastId && ops[0].Add? && s' != s {
        Grow(after, before, lastId);
      } else {
        Shrink(after, before);
      }
      BudgetNeverGrows(s', ops[1..], lastId);
    }
  }

  lemma Shrink<T>(a: set<T>, b: set<T>)
    requires a <= b
    ensures |a| <= |b| && (a != b ==> |a| < |b|)
  {
    assert b == a + (b - a) && a !! b - a;
    if a != b { var x :| x in b - a; }
  }

  lemma Grow<T>(a: set<T>, b: set<T>, x: T)
    requires a <= b + {x}
    ensures |a| <= |b| + 1
  {
    Shrink(a, b + {x});
    assert |b + {x}| <= |b| + 1;
  }

  /** Every turn of the loop spends budget, whatever the callback does. */
  lemma FireSpends(s: Timers, id: int, cb: Callbacks, lastId: int)
    requires id in s.live && id <= lastId <= s.nextId
    ensures Budget(Fire(s, id, cb).state, lastId) < Budget(s, lastId)
    ensures lastId <= Fire(s, id, cb).state.nextId
  {
    var s1 := s.(live := s.live - {id});
    var before, after := Eligible(s, lastId), Eligible(s1, lastId);
    assert id in before && id !in after;
    Shrink(after, before);
    BudgetNeverGrows(s1, cb(id), lastId);
  }

  /** However callbacks behave, a pass fires at most one timer more than were pending. */
  lemma {:induction false} PassIsBounded(p: Pass, s0: Timers, now: int, cb: Callbacks)
    requires Progress(p, s0, now, cb)
    ensures |p.fired| <= |s0.live| + 1
  {
    SpentSoFar(p, s0, now, cb, |p.fired|);
    Shrink(Eligible(s0, s0.nextId), s0.live.Keys);
  }

  lemma {:induction false} SpentSoFar(p: Pass, s0: Timers, now: int, cb: Callbacks, k: nat)
    requires Progress(p, s0, now, cb) && k <= |p.fired|
    ensures k + Budget(p.states[k], s0.nextId) <= Budget(s0, s0.nextId)
    ensures s0.nextId <= p.states[k].nextId
  {
    if k > 0 {
      SpentSoFar(p, s0, now, cb, k - 1);
      assert Turn(p, now, s0.nextId, cb, k - 1);
      FireSpends(p.states[k - 1], p.fired[k - 1], cb, s0.nextId);
    }
  }

  lemma SpinningPass(p: Pass, s0: Timers, now: int, cb: Callbacks, id: int)
    requires Progress(p, s0, now, cb) && p.end == Finished && Stuck(p.Last(), now, s0.nextId, id)
    ensures IsPass(p.(end := Spins), s0, now, cb)
  {
    var p' := p.(end := Spins);
    forall k: nat | k < |p'.fired|
      ensures Turn(p', now, s0.nextId, cb, k)
    {
      assert Turn(p, now, s0.nextId, cb, k);
    }
    assert Stuck(p'.Last(), now, s0.nextId, id);
  }

  lemma {:induction false} SameCalledBack(p: Pass, k: nat)
    requires p.Shaped() && k <= |p.fired|
    ensures CalledBack(p.(end := Spins), k) == CalledBack(p, k)
  {
    if k > 0 { SameCalledBack(p, k - 1); }
  }

  // ---------- what a pass fires ----------

  /** The pass after one more turn. */
  ghost function Extended(p: Pass, id: int, cb: Callbacks): Pass
    requires p.Shaped() && id in p.Last().live
  {
    var e := Fire(p.Last(), id, cb);
    Pass(p.states + [e.state], p.fired + [id], if e.fault.Some? then Faulted(e.fault.value) else Finished)
  }

  lemma ExtendPass(p: Pass, s0: Timers, now: int, cb: Callbacks, id: int)
    requires Progress(p, s0, now, cb) && p.end == Finished && CanFire(p.Last(), now, s0.nextId, id)
    ensures Progress(Extended(p, id, cb), s0, now, cb)
  {
    var p' := Extended(p, id, cb);
    forall k: nat | k < |p'.fired|
      ensures Turn(p', now, s0.nextId, cb, k)
    {
      if k < |p.fired| { assert Turn(p, now, s0.nextId, cb, k); }
    }
  }

  lemma {:induction false} CalledBackStays(p: Pass, id: int, cb: Callbacks, k: nat)
    requires p.Shaped() && id in p.Last().live && k <= |p.fired|
    ensures CalledBack(Extended(p, id, cb), k) == CalledBack(p, k)
  {
    if k > 0 { CalledBackStays(p, id, cb, k - 1); }
  }

  /** One more turn of the loop: the pass goes on, its list of callbacks grows, and its budget shrinks. */
  lemma NextTurn(p: Pass, s0: Timers, now: int, cb: Callbacks, id: int)
    requires Progress(p, s0, now, cb) && p.end == Finished && CanFire(p.Last(), now, s0.nextId, id)
    requires s0.nextId <= p.Last().nextId
    ensures var p' := Extended(p, id, cb);
      && Progress(p', s0, now, cb)
      && CalledBack(p', |p'.fired|) ==
           CalledBack(p, |p.fired|) + (if p.Last().live[id].sink.Some? then [id] else [])
      && s0.nextId <= p'.Last().nextId && Budget(p'.Last(), s0.nextId) < Budget(p.Last(), s0.nextId)
  {
    ExtendPass(p, s0, now, cb, id);
    FireSpends(p.Last(), id, cb, s0.nextId);
    CalledBackStays(p, id, cb, |p.fired|);
  }

  /** No timer fires twice in a pass, and a fired timer is gone for good. */
  lemma FiredOnce(p: Pass, s0: Timers, now: int, cb: Callbacks, i: nat, j: nat)
    requires WellFormed(s0) && Progress(p, s0, now, cb) && i < j <= |p.fired|
    ensures p.fired[i] !in p.states[j].live
    ensures j < |p.fired| ==> p.fired[i] != p.fired[j]
  {
    assert Turn(p, now, s0.nextId, cb, i);
    StateKeeps(p, s0, now, cb, i, i);
    FireKeeps(p.states[i], p.fired[i], cb);
    StateKeeps(p, s0, now, cb, i + 1, j);
    if j < |p.fired| { assert Turn(p, now, s0.nextId, cb, j); }
  }

  /** A timer pending at some state of the pass was pending, unchanged, at every earlier one. */
  lemma LiveBefore(p: Pass, s0: Timers, now: int, cb: Callbacks, id: int, i: nat, j: nat)
    requires WellFormed(s0) && Progress(p, s0, now, cb) && i <= j <= |p.fired|
    requires id in p.states[j].live && id < p.states[i].nextId
    ensures id in p.states[i].live && p.states[i].live[id] == p.states[j].live[id]
  {
    StateKeeps(p, s0, now, cb, i, j);
  }

  /** From turn `m` on, some callback of the pass cancelled `id` before `id` had fired. */
  ghost predicate CancelledFirst(p: Pass, cb: Callbacks, m: nat, id: int)
    requires p.Shaped()
  {
    exists k: nat :: m <= k < |p.fired| && CancelsAt(p, cb, k, id) && id !in p.fired[..k + 1]
  }

  /** A pass that finishes fires exactly those pending timers that are due and that no earlier callback of
      the pass cancelled; the rest of what was pending is afterwards still pending, unchanged, or cancelled.
      With m == 0 this speaks of the timers pending at entry, with m > 0 of those there after m turns. */
  lemma FiresExactlyTheDue(p: Pass, s0: Timers, now: int, cb: Callbacks, m: nat, id: int)
    requires WellFormed(s0) && IsPass(p, s0, now, cb) && p.end == Finished
    requires m <= |p.fired| && id in p.states[m].live
    ensures id in p.fired <==> p.states[m].live[id].expire <= now && !CancelledFirst(p, cb, m, id)
    ensures id in p.Last().live <==> now < p.states[m].live[id].expire && !CancelledFirst(p, cb, m, id)
    ensures id in p.Last().live ==> p.Last().live[id] == p.states[m].live[id]
  {
    var n := |p.fired|;
    StateKeeps(p, s0, now, cb, m, n);
    if id in p.fired {
      var f: nat :| f < n && p.fired[f] == id;
      if f < m { FiredOnce(p, s0, now, cb, f, m); }
      FiredIsUncancelled(p, s0, now, cb, m, f);
      FiredOnce(p, s0, now, cb, f, n);
    } else {
      StaysUntilCancelled(p, s0, now, cb, id, m, n);
      if k: nat :| m <= k < n && CancelsAt(p, cb, k, id) {
        assert id !in p.fired[..k + 1];
        assert CancelledFirst(p, cb, m, id);
      }
    }
  }

  lemma FiredIsUncancelled(p: Pass, s0: Timers, now: int, cb: Callbacks, m: nat, f: nat)
    requires WellFormed(s0) && Progress(p, s0, now, cb) && m <= f < |p.fired| && p.fired[f] in p.states[m].live
    ensures p.states[m].live[p.fired[f]].expire <= now && !CancelledFirst(p, cb, m, p.fired[f])
  {
    var id := p.fired[f];
    assert Turn(p, now, s0.nextId, cb, f);
    StateKeeps(p, s0, now, cb, m, f);
    forall k: nat | m <= k < |p.fired| && CancelsAt(p, cb, k, id)
      ensures id in p.fired[..k + 1]
    {
      if k < f {
        assert Turn(p, now, s0.nextId, cb, k);
        StateKeeps(p, s0, now, cb, m, k);
        StateKeeps(p, s0, now, cb, k, f);
        FireKeeps(p.states[k], p.fired[k], cb);
        StateKeeps(p, s0, now, cb, k + 1, f);
        FiredOnce(p, s0, now, cb, k, f);
      } else {
        assert p.fired[..k + 1][f] == id;
      }
    }
  }

  lemma {:induction false} StaysUntilCancelled(p: Pass, s0: Timers, now: int, cb: Callbacks, id: int, m: nat, n: nat)
    requires WellFormed(s0) && Progress(p, s0, now, cb) && !p.end.Faulted?
    requires m <= n <= |p.fired| && id in p.states[m].live && id !in p.fired[m..n]
    ensures id in p.states[n].live <==> forall k: nat :: m <= k < n ==> !CancelsAt(p, cb, k, id)
    ensures id in p.states[n].live ==> p.states[n].live[id] == p.states[m].live[id]
  {
    if m < n {
      assert p.fired[m..n] == p.fired[m..n - 1] + [p.fired[n - 1]];
      StaysUntilCancelled(p, s0, now, cb, id, m, n - 1);
      assert Turn(p, now, s0.nextId, cb, n - 1);
      StateKeeps(p, s0, now, cb, m, n - 1);
      FireKeeps(p.states[n - 1], p.fired[n - 1], cb);
      if id in p.states[n - 1].live {
        assert id in p.states[n].live <==> !CancelsAt(p, cb, n - 1, id);
      } else {
        var k: nat :| m <= k < n - 1 && CancelsAt(p, cb, k, id);
        assert id !in p.states[n].live;
      }
    }
  }

  // ---------- which callbacks run ----------

  /** Turn k of the pass fires `id`, which has a sink. */
  ghost predicate FiresWithSink(p: Pass, k: nat, id: int)
    requires p.Shaped() && k < |p.fired|
  {
    p.fired[k] == id && id in p.states[k].live && p.states[k].live[id].sink.Some?
  }

  /** The callbacks that run are those of the timers fired with a sink. */
  lemma {:induction false} CalledBackMembers(p: Pass, n: nat, id: int)
    requires p.Shaped() && n <= |p.fired|
    ensures id in CalledBack(p, n) <==> exists k: nat :: k < n && FiresWithSink(p, k, id)
  {
    if n > 0 {
      CalledBackMembers(p, n - 1, id);
      assert id in CalledBack(p, n) <==> id in CalledBack(p, n - 1) || FiresWithSink(p, n - 1, id);
    }
  }

  /** They run in the order of firing: the a-th at a turn of its own, later ones at later turns. */
  lemma {:induction false} CalledBackTurn(p: Pass, n: nat, a: nat) returns (k: nat)
    requires p.Shaped() && n <= |p.fired| && a < |CalledBack(p, n)|
    ensures k < n && FiresWithSink(p, k, CalledBack(p, n)[a]) && |CalledBack(p, k)| == a
  {
    if a < |CalledBack(p, n - 1)| {
      k := CalledBackTurn(p, n - 1, a);
    } else {
      k := n - 1;
    }
  }

  lemma {:induction false} CalledBackGrows(p: Pass, m: nat, n: nat)
    requires p.Shaped() && m <= n <= |p.fired|
    ensures CalledBack(p, m) <= CalledBack(p, n)
    decreases n
  {
    if m < n { CalledBackGrows(p, m, n - 1); }
  }

  lemma CalledBackInOrder(p: Pass, n: nat, a: nat, b: nat) returns (k: nat, l: nat)
    requires p.Shaped() && n <= |p.fired| && a < b < |CalledBack(p, n)|
    ensures k < l < n && FiresWithSink(p, k, CalledBack(p, n)[a]) && FiresWithSink(p, l, CalledBack(p, n)[b])
  {
    k := CalledBackTurn(p, n, a);
    l := CalledBackTurn(p, n, b);
    if l <= k { CalledBackGrows(p, l, k); }
  }

  // ---------- callbacks that add only timers expiring later ----------

  ghost predicate NewAreLate(s: Timers, lastId: int, now: int) {
    forall id <- s.live :: id >= lastId ==> now < s.live[id].expire
  }

  lemma {:induction false} PoliteOps(s: Timers, ops: seq<Op>, lastId: int, now: int)
    requires NewAreLate(s, lastId, now) && LateAdds(ops, now)
    ensures NewAreLate(RunOps(s, ops).state, lastId, now)
    decreases |ops|
  {
    if ops != [] && Step(s, ops[0]).fault.None? {
      assert ops[0].Add? ==> now < Expire(ops[0].tick, ops[0].millsec);
      assert forall j: nat :: j < |ops[1..]| ==> ops[1..][j] == ops[j + 1];
      PoliteOps(Step(s, ops[0]).state, ops[1..], lastId, now);
    }
  }

  lemma {:induction false} PoliteSoFar(p: Pass, s0: Timers, now: int, cb: Callbacks, k: nat)
    requires WellFormed(s0) && Progress(p, s0, now, cb) && Polite(s0, cb, now) && k <= |p.fired|
    ensures NewAreLate(p.states[k], s0.nextId, now)
  {
    if k > 0 {
      PoliteSoFar(p, s0, now, cb, k - 1);
      var s, id := p.states[k - 1], p.fired[k - 1];
      assert Turn(p, now, s0.nextId, cb, k - 1);
      LiveBefore(p, s0, now, cb, id, 0, k - 1);
      if s.live[id].sink.Some? { PoliteOps(s.(live := s.live - {id}), cb(id), s0.nextId, now); }
    }
  }

  /** If the callbacks of the timers due at entry are polite, the pass never spins; it fires exactly the timers that
      were pending at entry and due and that no earlier callback cancelled, in non-decreasing order of expiry; and
      nothing due remains. */
  lemma PolitePass(p: Pass, s0: Timers, now: int, cb: Callbacks)
    requires WellFormed(s0) && IsPass(p, s0, now, cb) && Polite(s0, cb, now)
    ensures !p.end.Spins?
    ensures p.end == Finished ==> NothingDue(p.Last(), now) && forall id :: id in p.fired <==>
      id in s0.live && s0.live[id].expire <= now && !CancelledFirst(p, cb, 0, id)
    ensures forall id <- p.fired :: id in s0.live && s0.live[id].expire <= now
    ensures forall i: nat, j: nat :: i < j < |p.fired| && p.fired[i] in s0.live && p.fired[j] in s0.live ==>
      s0.live[p.fired[i]].expire <= s0.live[p.fired[j]].expire
  {
    PoliteSoFar(p, s0, now, cb, |p.fired|);
    forall k: nat | k < |p.fired|
      ensures p.fired[k] in s0.live && p.fired[k] in p.states[k].live
      ensures p.states[k].live[p.fired[k]] == s0.live[p.fired[k]]
      ensures s0.live[p.fired[k]].expire <= now
    {
      assert Turn(p, now, s0.nextId, cb, k);
      PoliteSoFar(p, s0, now, cb, k);
      LiveBefore(p, s0, now, cb, p.fired[k], 0, k);
    }
    if p.end == Finished {
      forall id | id in s0.live
        ensures id in p.fired <==> s0.live[id].expire <= now && !CancelledFirst(p, cb, 0, id)
      {
        FiresExactlyTheDue(p, s0, now, cb, 0, id);
      }
    }
    forall i: nat, j: nat | i < j < |p.fired|
      ensures s0.live[p.fired[i]].expire <= s0.live[p.fired[j]].expire
    {
      assert Turn(p, now, s0.nextId, cb, i) && Turn(p, now, s0.nextId, cb, j);
      StateKeeps(p, s0, now, cb, 0, i);
      LiveBefore(p, s0, now, cb, p.fired[j], i, j);
    }
  }

  /** Adding with a positive delay, reading the clock no earlier than the pass did, is polite. */
  lemma PositiveDelayIsPolite(ops: seq<Op>, now: int)
    requires forall op <- ops :: op.Add? ==>
      now <= op.tick && 0 < op.millsec && op.tick + op.millsec < 0x8000_0000_0000_0000
    ensures LateAdds(ops, now)
  {
    forall j: nat | j < |ops| && ops[j].Add?
      ensures now < Expire(ops[j].tick, ops[j].millsec)
    {
      assert ops[j] in ops;
      assert Int64(ops[j].tick + ops[j].millsec) == ops[j].tick + ops[j].millsec;
    }
  }

  // ---------- exactly when a pass spins, and which newcomers it fires ----------

  function Adds(ops: seq<Op>): nat {
    if ops == [] then 0 else (if ops[0].Add? then 1 else 0) + Adds(ops[1..])
  }

  /** The id the j-th operation of a script gets if it is an Add. */
  function IdOf(s: Timers, ops: seq<Op>, j: nat): int
    requires j <= |ops|
  {
    s.nextId + Adds(ops[..j])
  }

  /** The timers a script leaves behind are those it added and did not cancel later. */
  lemma {:induction false} AddedByOps(s: Timers, ops: seq<Op>, j: nat)
    requires WellFormed(s) && RunOps(s, ops).fault.None? && j < |ops| && ops[j].Add?
    ensures var r := RunOps(s, ops).state; var id := IdOf(s, ops, j);
      && s.nextId <= id < r.nextId
      && (id in r.live <==> Cancel(id) !in ops[j + 1..])
      && (id in r.live ==> r.live[id] == Timer(Expire(ops[j].tick, ops[j].millsec), ops[j].sink))
    decreases |ops|
  {
    var s' := Step(s, ops[0]).state;
    assert WellFormed(s');
    RunOpsKeeps(s', ops[1..]);
    if j == 0 {
      assert ops[..0] == [];
    } else {
      assert ops[..j][1..] == ops[1..][..j - 1] && ops[1..][j..] == ops[j + 1..];
      AddedByOps(s', ops[1..], j - 1);
    }
  }

  /** ... each to expire its delay after its clock reading. */
  lemma AddedExpires(s: Timers, ops: seq<Op>, j: nat)
    requires WellFormed(s) && RunOps(s, ops).fault.None? && j < |ops| && ops[j].Add?
    ensures var r := RunOps(s, ops).state; var id := IdOf(s, ops, j);
      id in r.live ==>
        && r.live[id].sink == ops[j].sink
        && (-0x8000_0000_0000_0000 <= ops[j].tick + ops[j].millsec < 0x8000_0000_0000_0000 ==>
              r.live[id].expire == ops[j].tick + ops[j].millsec)
  {
    AddedByOps(s, ops, j);
  }

  lemma {:induction false} AdderOf(s: Timers, ops: seq<Op>, id: int) returns (j: nat)
    requires WellFormed(s) && RunOps(s, ops).fault.None? && s.nextId <= id < RunOps(s, ops).state.nextId
    ensures j < |ops| && ops[j].Add? && IdOf(s, ops, j) == id
    decreases |ops|
  {
    var s' := Step(s, ops[0]).state;
    if ops[0].Add? && id == s.nextId {
      j := 0;
      assert ops[..0] == [];
    } else {
      j := AdderOf(s', ops[1..], id);
      j := j + 1;
      assert ops[..j][1..] == ops[1..][..j - 1];
    }
  }

  /** Turn k of the pass ran a callback whose j-th operation added timer `id`, to expire at `expire`. */
  ghost predicate AddsAt(p: Pass, cb: Callbacks, k: nat, j: nat, id: int, expire: int)
    requires p.Shaped() && k < |p.fired|
  {
    && p.fired[k] in p.states[k].live && p.states[k].live[p.fired[k]].sink.Some?
    && var ops := cb(p.fired[k]);
    && j < |ops| && ops[j].Add? && expire == Expire(ops[j].tick, ops[j].millsec)
    && id == IdOf(p.states[k], ops, j)
  }

  /** ... and no later operation of the pass cancelled it again. */
  ghost predicate AddsForGood(p: Pass, cb: Callbacks, k: nat, j: nat, id: int, expire: int)
    requires p.Shaped() && k < |p.fired|
  {
    && AddsAt(p, cb, k, j, id, expire)
    && Cancel(id) !in cb(p.fired[k])[j + 1..]
    && forall l: nat :: k < l < |p.fired| ==> !CancelsAt(p, cb, l, id)
  }

  lemma AddedInTurn(p: Pass, s0: Timers, now: int, cb: Callbacks, k: nat, j: nat, id: int, expire: int)
    requires WellFormed(s0) && Progress(p, s0, now, cb) && !p.end.Faulted? && k < |p.fired|
    requires AddsAt(p, cb, k, j, id, expire)
    ensures s0.nextId <= id < p.states[k + 1].nextId
    ensures id in p.states[k + 1].live <==> Cancel(id) !in cb(p.fired[k])[j + 1..]
    ensures id in p.states[k + 1].live ==> p.states[k + 1].live[id].expire == expire
  {
    assert Turn(p, now, s0.nextId, cb, k);
    StateKeeps(p, s0, now, cb, 0, k);
    var s := p.states[k].(live := p.states[k].live - {p.fired[k]});
    assert IdOf(s, cb(p.fired[k]), j) == id;
    AddedByOps(s, cb(p.fired[k]), j);
  }

  lemma {:induction false} TurnThatAdded(p: Pass, s0: Timers, now: int, cb: Callbacks, id: int, n: nat)
    returns (k: nat, j: nat)
    requires WellFormed(s0) && Progress(p, s0, now, cb) && !p.end.Faulted? && n <= |p.fired|
    requires s0.nextId <= id && id in p.states[n].live
    ensures k < n && AddsAt(p, cb, k, j, id, p.states[n].live[id].expire)
    ensures Cancel(id) !in cb(p.fired[k])[j + 1..]
  {
    StateKeeps(p, s0, now, cb, 0, n);
    k := n - 1;
    assert Turn(p, now, s0.nextId, cb, k);
    StateKeeps(p, s0, now, cb, k, n);
    if id in p.states[k].live {
      StateKeeps(p, s0, now, cb, 0, k);
      k, j := TurnThatAdded(p, s0, now, cb, id, k);
    } else {
      var s := p.states[k].(live := p.states[k].live - {p.fired[k]});
      j := AdderOf(s, cb(p.fired[k]), id);
      assert IdOf(s, cb(p.fired[k]), j) == IdOf(p.states[k], cb(p.fired[k]), j);
      AddedInTurn(p, s0, now, cb, k, j, id, Expire(cb(p.fired[k])[j].tick, cb(p.fired[k])[j].millsec));
    }
  }

  lemma SpinsIf(p: Pass, s0: Timers, now: int, cb: Callbacks, k: nat, j: nat, id: int, expire: int)
    requires WellFormed(s0) && IsPass(p, s0, now, cb) && !p.end.Faulted?
    requires k < |p.fired| && AddsForGood(p, cb, k, j, id, expire) && expire <= now && id > s0.nextId
    ensures p.end.Spins?
  {
    AddedInTurn(p, s0, now, cb, k, j, id, expire);
    NeverFires(p, s0, now, cb, id);
    StaysUntilCancelled(p, s0, now, cb, id, k + 1, |p.fired|);
    assert id in p.Last().live && p.Last().live[id].expire <= now;
  }

  lemma SpinsOnlyIf(p: Pass, s0: Timers, now: int, cb: Callbacks) returns (k: nat, j: nat, id: int, expire: int)
    requires WellFormed(s0) && IsPass(p, s0, now, cb) && p.end.Spins?
    ensures k < |p.fired| && AddsForGood(p, cb, k, j, id, expire) && expire <= now && id > s0.nextId
  {
    id :| Stuck(p.Last(), now, s0.nextId, id);
    expire := p.Last().live[id].expire;
    k, j := TurnThatAdded(p, s0, now, cb, id, |p.fired|);
    AddedInTurn(p, s0, now, cb, k, j, id, expire);
    NeverFires(p, s0, now, cb, id);
    StaysUntilCancelled(p, s0, now, cb, id, k + 1, |p.fired|);
  }

  /** The loop spins exactly when some callback of the pass added, for good, a timer that is already due
      and is not the first one the pass created. */
  lemma SpinsExactly(p: Pass, s0: Timers, now: int, cb: Callbacks)
    requires WellFormed(s0) && IsPass(p, s0, now, cb) && !p.end.Faulted?
    ensures p.end.Spins? <==>
      exists k: nat, j: nat, id: int, expire: int ::
        k < |p.fired| && AddsForGood(p, cb, k, j, id, expire) && expire <= now && id > s0.nextId
  {
    if p.end.Spins? {
      var k, j, id, expire := SpinsOnlyIf(p, s0, now, cb);
    }
    if k: nat, j: nat, id: int, expire: int :|
      k < |p.fired| && AddsForGood(p, cb, k, j, id, expire) && expire <= now && id > s0.nextId
    {
      SpinsIf(p, s0, now, cb, k, j, id, expire);
    }
  }

  /** Of the timers a pass creates it can fire only the first. */
  lemma NeverFires(p: Pass, s0: Timers, now: int, cb: Callbacks, id: int)
    requires Progress(p, s0, now, cb) && id > s0.nextId
    ensures id !in p.fired
  {
    forall k: nat | k < |p.fired|
      ensures p.fired[k] != id
    {
      assert Turn(p, now, s0.nextId, cb, k);
    }
  }

  /** In a pass that finishes, a timer created by a callback of that very pass is nevertheless fired by it
      exactly when it is already due and nothing cancels it before its turn; and then it is the first one. */
  lemma NewcomerFires(p: Pass, s0: Timers, now: int, cb: Callbacks, k: nat, j: nat, id: int, expire: int)
    requires WellFormed(s0) && IsPass(p, s0, now, cb) && p.end == Finished
    requires k < |p.fired| && AddsAt(p, cb, k, j, id, expire)
    ensures id in p.fired <==>
      expire <= now && Cancel(id) !in cb(p.fired[k])[j + 1..] && !CancelledFirst(p, cb, k + 1, id)
    ensures id in p.fired ==> id == s0.nextId
  {
    AddedInTurn(p, s0, now, cb, k, j, id, expire);
    if id in p.fired && id > s0.nextId { NeverFires(p, s0, now, cb, id); }
    if id in p.states[k + 1].live {
      FiresExactlyTheDue(p, s0, now, cb, k + 1, id);
    } else if f: nat :| f < |p.fired| && p.fired[f] == id {
      assert Turn(p, now, s0.nextId, cb, f);
      StateKeeps(p, s0, now, cb, 0, f);
      if f > k { StateKeeps(p, s0, now, cb, k + 1, f); } else { StateKeeps(p, s0, now, cb, f, k); }
    }
  }

  /** Timers added just before a pass, as by the socket handlers of the same poll, are all fired by it if they are due
      and nothing cancels them first. */
  lemma AddedBeforePass(s: Timers, ops: seq<Op>, j: nat, p: Pass, now: int, cb: Callbacks)
    requires WellFormed(s) && RunOps(s, ops).fault.None? && j < |ops| && ops[j].Add?
    requires IsPass(p, RunOps(s, ops).state, now, cb) && p.end == Finished
    ensures IdOf(s, ops, j) in p.fired <==>
      && Expire(ops[j].tick, ops[j].millsec) <= now && Cancel(IdOf(s, ops, j)) !in ops[j + 1..]
      && !CancelledFirst(p, cb, 0, IdOf(s, ops, j))
  {
    var id, s0 := IdOf(s, ops, j), RunOps(s, ops).state;
    RunOpsKeeps(s, ops);
    AddedByOps(s, ops, j);
    if id in s0.live {
      FiresExactlyTheDue(p, s0, now, cb, 0, id);
    } else if f: nat :| f < |p.fired| && p.fired[f] == id {
      assert Turn(p, now, s0.nextId, cb, f);
      StateKeeps(p, s0, now, cb, 0, f);
    }
  }
}
