/** Whole runs of the scheduler: any sequence of calls from outside, with expiry passes whose callbacks call back in. */
module TimerRuns {
  import opened Options
  import opened TimerModel
  import opened TimerLaws

  datatype Event = Did(op: Op) | Passed(now: int, pass: Pass)

  datatype Run = Run(states: seq<Timers>, events: seq<Event>) {
    ghost predicate Shaped() { |states| == |events| + 1 }
    ghost function Last(): Timers requires Shaped() { states[|events|] }
  }

  ghost predicate Transition(s: Timers, ev: Event, cb: Callbacks, s': Timers) {
    match ev
    case Did(op) => Step(s, op) == Exec(s', None)
    case Passed(now, p) => IsPass(p, s, now, cb) && p.end == Finished && p.Last() == s'
  }

  ghost predicate IsRun(r: Run, cb: Callbacks) {
    && r.Shaped() && r.states[0] == Init()
    && forall k: nat {:trigger r.events[k]} :: k < |r.events| ==>
      Transition(r.states[k], r.events[k], cb, r.states[k + 1])
  }

  /** Event k is a pass that fired `id`. */
  ghost predicate FiredAt(r: Run, k: nat, id: int)
    requires k < |r.events|
  {
    r.events[k].Passed? && id in r.events[k].pass.fired
  }

  ghost predicate EverFired(r: Run, n: nat, id: int)
    requires n <= |r.events|
  {
    exists k: nat :: k < n && FiredAt(r, k, id)
  }

  lemma TransitionKeeps(s: Timers, ev: Event, cb: Callbacks, s': Timers)
    requires WellFormed(s) && Transition(s, ev, cb, s')
    ensures WellFormed(s') && Evolves(s, s')
  {
    if ev.Passed? { StateKeeps(ev.pass, s, ev.now, cb, 0, |ev.pass.fired|); }
  }

  /** In every reachable state ids are in range, pending and cancelled ids are disjoint, and between any two
      states of a run no id is reissued, revived or un-cancelled and no pending timer changes. */
  lemma {:induction false} RunKeeps(r: Run, cb: Callbacks, i: nat, j: nat)
    requires IsRun(r, cb) && i <= j <= |r.events|
    ensures WellFormed(r.states[i]) && WellFormed(r.states[j]) && Evolves(r.states[i], r.states[j])
    decreases j
  {
    if j > 0 {
      RunKeeps(r, cb, if i < j then i else j - 1, j - 1);
      assert Transition(r.states[j - 1], r.events[j - 1], cb, r.states[j]);
      TransitionKeeps(r.states[j - 1], r.events[j - 1], cb, r.states[j]);
      if i < j { EvolvesTrans(r.states[i], r.states[j - 1], r.states[j]); }
    }
  }

  /** What a pass fires is issued, and afterwards neither pending nor cancelled. */
  lemma FiredIsSpent(p: Pass, s0: Timers, now: int, cb: Callbacks, m: nat, k: nat)
    requires WellFormed(s0) && Progress(p, s0, now, cb) && m < k <= |p.fired|
    ensures p.fired[m] !in p.states[k].live && p.fired[m] !in p.states[k].stale
    ensures FIRST_ID <= p.fired[m] < p.states[k].nextId
    ensures p.fired[m] < s0.nextId ==> p.fired[m] in s0.live
  {
    assert Turn(p, now, s0.nextId, cb, m);
    StateKeeps(p, s0, now, cb, 0, m);
    FireKeeps(p.states[m], p.fired[m], cb);
    StateKeeps(p, s0, now, cb, m + 1, k);
  }

  /** Turn by turn, every timer pending at entry or created since is pending, cancelled or fired. */
  lemma {:induction false} PassAccounts(p: Pass, s0: Timers, now: int, cb: Callbacks, k: nat, id: int)
    requires WellFormed(s0) && Progress(p, s0, now, cb) && k <= |p.fired|
    requires id in s0.live || s0.nextId <= id < p.states[k].nextId
    ensures id in p.states[k].live || id in p.states[k].stale || id in p.fired[..k]
  {
    if k > 0 {
      StateKeeps(p, s0, now, cb, 0, k - 1);
      assert Turn(p, now, s0.nextId, cb, k - 1);
      FireKeeps(p.states[k - 1], p.fired[k - 1], cb);
      assert p.fired[..k] == p.fired[..k - 1] + [p.fired[k - 1]];
      if id in s0.live || id < p.states[k - 1].nextId {
        PassAccounts(p, s0, now, cb, k - 1, id);
      }
    }
  }

  /** Nothing is lost: in every reachable state each id ever issued is in exactly one of three places: pending,
      fired by a pass, or cancelled. */
  lemma {:induction false} Accounting(r: Run, cb: Callbacks, n: nat, id: int)
    requires IsRun(r, cb) && n <= |r.events|
    ensures FIRST_ID <= id < r.states[n].nextId <==>
      id in r.states[n].live || id in r.states[n].stale || EverFired(r, n, id)
    ensures !(id in r.states[n].live && id in r.states[n].stale)
    ensures EverFired(r, n, id) ==> id !in r.states[n].live && id !in r.states[n].stale
  {
    RunKeeps(r, cb, n, n);
    if n > 0 {
      Accounting(r, cb, n - 1, id);
      RunKeeps(r, cb, n - 1, n);
      var s, s', ev := r.states[n - 1], r.states[n], r.events[n - 1];
      assert Transition(s, ev, cb, s');
      assert EverFired(r, n, id) <==> EverFired(r, n - 1, id) || FiredAt(r, n - 1, id);
      if ev.Passed? {
        var p, m := ev.pass, |ev.pass.fired|;
        if id in s.live || s.nextId <= id < s'.nextId {
          PassAccounts(p, s, ev.now, cb, m, id);
          assert p.fired[..m] == p.fired;
        }
        if j: nat :| j < m && p.fired[j] == id { FiredIsSpent(p, s, ev.now, cb, j, m); }
      }
    }
  }

  /** Over a whole run every timer fires at most once. */
  lemma FiresAtMostOnce(r: Run, cb: Callbacks, a: nat, b: nat, id: int)
    requires IsRun(r, cb) && a < b < |r.events| && FiredAt(r, a, id)
    ensures !FiredAt(r, b, id)
  {
    assert EverFired(r, b, id);
    Accounting(r, cb, b, id);
    RunKeeps(r, cb, b, b);
    assert Transition(r.states[b], r.events[b], cb, r.states[b + 1]);
    if FiredAt(r, b, id) {
      var p := r.events[b].pass;
      var m: nat :| m < |p.fired| && p.fired[m] == id;
      FiredIsSpent(p, r.states[b], r.events[b].now, cb, m, |p.fired|);
    }
  }

  /** Once cancelled, a timer never fires. */
  lemma CancelledNeverFires(r: Run, cb: Callbacks, a: nat, b: nat, id: int)
    requires IsRun(r, cb) && a <= b < |r.events| && id in r.states[a].stale
    ensures !FiredAt(r, b, id)
  {
    RunKeeps(r, cb, a, b);
    assert Transition(r.states[b], r.events[b], cb, r.states[b + 1]);
    if FiredAt(r, b, id) {
      var p := r.events[b].pass;
      var m: nat :| m < |p.fired| && p.fired[m] == id;
      FiredIsSpent(p, r.states[b], r.events[b].now, cb, m, |p.fired|);
    }
  }

  /** Exactly when CancelTimer is safe: it reads deleted memory just for an id that was issued, is no longer
      pending and never fired, that is, one cancelled before.  For a fired or never issued id it does nothing. */
  lemma CancelIsSafe(r: Run, cb: Callbacks, n: nat, id: int)
    requires IsRun(r, cb) && n <= |r.events|
    ensures Step(r.states[n], Cancel(id)).fault == Some(UseAfterFree) <==>
      FIRST_ID <= id < r.states[n].nextId && id !in r.states[n].live && !EverFired(r, n, id)
    ensures EverFired(r, n, id) || !(FIRST_ID <= id < r.states[n].nextId) ==>
      Step(r.states[n], Cancel(id)) == Exec(r.states[n], None)
  {
    Accounting(r, cb, n, id);
  }

  /** The event cancels `id`, or is a pass late enough to fire it. */
  ghost predicate Concerns(ev: Event, cb: Callbacks, id: int, expire: int) {
    match ev
    case Did(op) => op == Cancel(id)
    case Passed(now, p) => now >= expire || (p.Shaped() && exists k: nat :: k < |p.fired| && CancelsAt(p, cb, k, id))
  }

  /** From event a to before event b nothing cancels `id` and no pass reads the clock at or after `expire`. */
  ghost predicate Undisturbed(r: Run, cb: Callbacks, a: nat, b: nat, id: int, expire: int)
    requires b <= |r.events|
  {
    forall k: nat {:trigger r.events[k]} :: a <= k < b ==> !Concerns(r.events[k], cb, id, expire)
  }

  lemma {:induction false} StaysPending(r: Run, cb: Callbacks, a: nat, b: nat, id: int)
    requires IsRun(r, cb) && a <= b <= |r.events| && id in r.states[a].live
    requires Undisturbed(r, cb, a, b, id, r.states[a].live[id].expire)
    ensures id in r.states[b].live && r.states[b].live[id] == r.states[a].live[id]
    decreases b
  {
    if a < b {
      StaysPending(r, cb, a, b - 1, id);
      RunKeeps(r, cb, a, b - 1);
      var ev := r.events[b - 1];
      assert Transition(r.states[b - 1], ev, cb, r.states[b]);
      if ev.Passed? { FiresExactlyTheDue(ev.pass, r.states[b - 1], ev.now, cb, 0, id); }
    }
  }

  /** No timer is missed: a pending timer that nothing cancels is fired by the first pass that reads the clock
      at or after its expiry, unless an earlier callback of that pass cancels it. */
  lemma FiresAtFirstDuePass(r: Run, cb: Callbacks, a: nat, b: nat, id: int)
    requires IsRun(r, cb) && a <= b < |r.events| && id in r.states[a].live
    requires Undisturbed(r, cb, a, b, id, r.states[a].live[id].expire)
    requires r.events[b].Passed? && r.events[b].now >= r.states[a].live[id].expire
    ensures FiredAt(r, b, id) <==> !CancelledFirst(r.events[b].pass, cb, 0, id)
  {
    StaysPending(r, cb, a, b, id);
    RunKeeps(r, cb, a, b);
    assert Transition(r.states[b], r.events[b], cb, r.states[b + 1]);
    FiresExactlyTheDue(r.events[b].pass, r.states[b], r.events[b].now, cb, 0, id);
  }

  /** No timer fires before its time. */
  lemma NeverEarly(r: Run, cb: Callbacks, a: nat, b: nat, id: int)
    requires IsRun(r, cb) && a <= b < |r.events| && id in r.states[a].live && FiredAt(r, b, id)
    ensures r.states[a].live[id].expire <= r.events[b].now
  {
    var p, s0, now := r.events[b].pass, r.states[b], r.events[b].now;
    RunKeeps(r, cb, a, b);
    assert Transition(s0, r.events[b], cb, r.states[b + 1]);
    var f: nat :| f < |p.fired| && p.fired[f] == id;
    assert Turn(p, now, s0.nextId, cb, f);
    LiveBefore(p, s0, now, cb, id, 0, f);
  }

  /** A timer added with `millsec` at clock reading `tick` is fired by no pass that reads less than tick + millsec, and,
      unless it is cancelled, by the first that reads at least that. */
  lemma DelayIsKept(r: Run, cb: Callbacks, a: nat, b: nat, tick: nat, millsec: int, sink: Option<nat>)
    requires IsRun(r, cb) && a < b < |r.events| && r.events[a] == Did(Add(tick, millsec, sink))
    requires -0x8000_0000_0000_0000 <= tick + millsec < 0x8000_0000_0000_0000 && r.events[b].Passed?
    ensures var id := r.states[a].nextId;
      && (FiredAt(r, b, id) ==> tick + millsec <= r.events[b].now)
      && (tick + millsec <= r.events[b].now && Undisturbed(r, cb, a + 1, b, id, tick + millsec) ==>
            (FiredAt(r, b, id) <==> !CancelledFirst(r.events[b].pass, cb, 0, id)))
  {
    var id := r.states[a].nextId;
    RunKeeps(r, cb, a, a);
    assert Transition(r.states[a], r.events[a], cb, r.states[a + 1]);
    AddDoes(r.states[a], tick, millsec, sink);
    assert id in r.states[a + 1].live && r.states[a + 1].live[id].expire == tick + millsec;
    if FiredAt(r, b, id) { NeverEarly(r, cb, a + 1, b, id); }
    if tick + millsec <= r.events[b].now && Undisturbed(r, cb, a + 1, b, id, tick + millsec) {
      FiresAtFirstDuePass(r, cb, a + 1, b, id);
    }
  }

  /** Nor is one that a callback adds, by the very pass or by a later one. */
  lemma CallbackDelayIsKept(r: Run, cb: Callbacks, a: nat, b: nat, k: nat, j: nat, id: int, expire: int)
    requires IsRun(r, cb) && a <= b < |r.events| && r.events[a].Passed?
    requires r.events[a].pass.Shaped() && k < |r.events[a].pass.fired|
    requires AddsAt(r.events[a].pass, cb, k, j, id, expire) && FiredAt(r, b, id)
    ensures var op := cb(r.events[a].pass.fired[k])[j];
      -0x8000_0000_0000_0000 <= op.tick + op.millsec < 0x8000_0000_0000_0000 ==>
        op.tick + op.millsec <= r.events[b].now
  {
    var p, s0, now := r.events[a].pass, r.states[a], r.events[a].now;
    RunKeeps(r, cb, a, b);
    assert Transition(s0, r.events[a], cb, r.states[a + 1]);
    if a == b {
      NewcomerFires(p, s0, now, cb, k, j, id, expire);
    } else {
      AddedInTurn(p, s0, now, cb, k, j, id, expire);
      StateKeeps(p, s0, now, cb, k + 1, |p.fired|);
      FiredWasPending(r, cb, a + 1, b, id);
      NeverEarly(r, cb, a + 1, b, id);
    }
  }

  /** What a pass fires was pending since it was issued. */
  lemma FiredWasPending(r: Run, cb: Callbacks, a: nat, b: nat, id: int)
    requires IsRun(r, cb) && a <= b < |r.events| && FiredAt(r, b, id) && id < r.states[a].nextId
    ensures id in r.states[a].live
  {
    var p, s0, now := r.events[b].pass, r.states[b], r.events[b].now;
    RunKeeps(r, cb, a, b);
    assert Transition(s0, r.events[b], cb, r.states[b + 1]);
    var f: nat :| f < |p.fired| && p.fired[f] == id;
    assert Turn(p, now, s0.nextId, cb, f);
    LiveBefore(p, s0, now, cb, id, 0, f);
  }

  // ---------- longer runs ----------

  /** The run with one more event. */
  ghost function Longer(r: Run, ev: Event, s: Timers): Run {
    Run(r.states + [s], r.events + [ev])
  }

  lemma LongerIsRun(r: Run, cb: Callbacks, ev: Event, s: Timers)
    requires IsRun(r, cb) && Transition(r.Last(), ev, cb, s)
    ensures IsRun(Longer(r, ev, s), cb) && Longer(r, ev, s).Last() == s
  {
  }

  /** The run with a script of calls made from outside. */
  ghost function WithOps(r: Run, ops: seq<Op>): Run
    requires r.Shaped()
    decreases |ops|
  {
    if ops == [] then r else WithOps(Longer(r, Did(ops[0]), Step(r.Last(), ops[0]).state), ops[1..])
  }

  /** Calls made from outside, as events. */
  ghost function Dids(ops: seq<Op>): seq<Event> {
    seq(|ops|, i requires 0 <= i < |ops| => Did(ops[i]))
  }

  lemma {:induction false} WithOpsIsRun(r: Run, cb: Callbacks, ops: seq<Op>)
    requires IsRun(r, cb) && RunOps(r.Last(), ops).fault.None?
    ensures IsRun(WithOps(r, ops), cb) && WithOps(r, ops).Last() == RunOps(r.Last(), ops).state
    ensures WithOps(r, ops).events == r.events + Dids(ops)
    decreases |ops|
  {
    if ops == [] {
      assert r.events + Dids(ops) == r.events;
    } else {
      assert Dids(ops) == [Did(ops[0])] + Dids(ops[1..]);
      assert r.events + [Did(ops[0])] + Dids(ops[1..]) == r.events + Dids(ops);
      var s := Step(r.Last(), ops[0]).state;
      LongerIsRun(r, cb, Did(ops[0]), s);
      WithOpsIsRun(Longer(r, Did(ops[0]), s), cb, ops[1..]);
    }
  }
}
