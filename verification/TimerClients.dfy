/** Clients of the scheduler: what they see is a run of the model, and which of them see every call return. */
module TimerClients {
  import opened MachineInts
  import opened Options
  import opened TimerModel
  import opened TimerLaws
  import opened TimerFaults
  import opened TimerRuns
  import opened TimerScheduler

  datatype Command = Do(op: Op) | Update(now: int)

  datatype Stop = Completed | Halted(fault: Fault) | Hung

  ghost predicate Follows(ev: Event, c: Command) {
    match c
    case Do(op) => ev == Did(op)
    case Update(now) => ev.Passed? && ev.now == now
  }

  ghost predicate Obeys(r: Run, cmds: seq<Command>, n: nat) {
    |r.events| == n <= |cmds| && forall k: nat {:trigger r.events[k]} :: k < n ==> Follows(r.events[k], cmds[k])
  }

  /** The first command after the run is the one that does not return normally. */
  ghost predicate Breaks(s: Timers, c: Command, cb: Callbacks, stop: Stop) {
    match c
    case Do(op) => stop.Halted? && Step(s, op).fault == Some(stop.fault)
    case Update(now) => stop != Completed && exists p :: EndsPass(p, s, now, cb, stop)
  }

  ghost predicate EndsPass(p: Pass, s: Timers, now: int, cb: Callbacks, stop: Stop) {
    IsPass(p, s, now, cb) && p.end == if stop.Halted? then Faulted(stop.fault) else Spins
  }

  // ---------- clients that cancel each timer once ----------

  /** A place in a client's code: one of its commands, or an operation in the callback of a timer. */
  datatype Place = Outside(k: nat) | Inside(timer: int, j: nat)

  ghost predicate CancelsThere(cmds: seq<Command>, cb: Callbacks, at: Place, id: int) {
    match at
    case Outside(k) => k < |cmds| && cmds[k] == Do(Cancel(id))
    case Inside(timer, j) => j < |cb(timer)| && cb(timer)[j] == Cancel(id)
  }

  /** No id is cancelled at two places. */
  ghost predicate CancelsOnce(cmds: seq<Command>, cb: Callbacks) {
    forall a, b, id :: CancelsThere(cmds, cb, a, id) && CancelsThere(cmds, cb, b, id) ==> a == b
  }

  /** The place was reached in the first n events of the run. */
  ghost predicate Reached(r: Run, n: nat, at: Place)
    requires n <= |r.events|
  {
    match at
    case Outside(k) => k < n
    case Inside(timer, _) => EverFired(r, n, timer)
  }

  /** What is cancelled was cancelled at a place the run has passed. */
  lemma {:induction false} StaleWasCancelled(r: Run, cmds: seq<Command>, cb: Callbacks, n: nat, id: int)
    returns (at: Place)
    requires IsRun(r, cb) && Obeys(r, cmds, |r.events|) && n <= |r.events| && id in r.states[n].stale
    ensures CancelsThere(cmds, cb, at, id) && Reached(r, n, at)
  {
    if id in r.states[n - 1].stale {
      at := StaleWasCancelled(r, cmds, cb, n - 1, id);
      if at.Inside? {
        var k: nat :| k < n - 1 && FiredAt(r, k, at.timer);
      }
    } else {
      var ev := r.events[n - 1];
      assert Transition(r.states[n - 1], ev, cb, r.states[n]) && Follows(ev, cmds[n - 1]);
      match ev
      case Did(op) => at := Outside(n - 1);
      case Passed(now, p) =>
        StaleInPass(p, r.states[n - 1], now, cb, |p.fired|, id);
        var l: nat, i: nat :| l < |p.fired| && Earlier(l, i, |p.fired|, 0) && CancelsInTurn(p, cb, l, i, id);
        at := Inside(p.fired[l], i);
        assert FiredAt(r, n - 1, p.fired[l]);
    }
  }

  /** A timer that fires in a pass has not fired before it. */
  lemma FiresFresh(r: Run, cb: Callbacks, p: Pass, now: int, k: nat)
    requires IsRun(r, cb) && IsPass(p, r.Last(), now, cb) && k < |p.fired|
    ensures !EverFired(r, |r.events|, p.fired[k])
  {
    var n := |r.events|;
    RunKeeps(r, cb, n, n);
    FiredIsSpent(p, r.Last(), now, cb, k, k + 1);
    assert Turn(p, now, r.Last().nextId, cb, k);
    StateKeeps(p, r.Last(), now, cb, 0, k);
    Accounting(r, cb, n, p.fired[k]);
  }

  /** A client that cancels no id at two places never makes CancelTimer read a deleted entry. */
  lemma CancelsOnceIsSafe(r: Run, cmds: seq<Command>, cb: Callbacks)
    requires IsRun(r, cb) && Obeys(r, cmds, |r.events|) && |r.events| < |cmds| && CancelsOnce(cmds, cb)
    ensures !Breaks(r.Last(), cmds[|r.events|], cb, Halted(UseAfterFree))
  {
    var n := |r.events|;
    if Breaks(r.Last(), cmds[n], cb, Halted(UseAfterFree)) {
      match cmds[n]
      case Do(op) =>
        var at := StaleWasCancelled(r, cmds, cb, n, op.id);
        assert CancelsThere(cmds, cb, Outside(n), op.id);
        assert false;
      case Update(now) =>
        var p :| EndsPass(p, r.Last(), now, cb, Halted(UseAfterFree));
        RunKeeps(r, cb, n, n);
        SecondCancelIsElsewhere(r, cmds, cb, p, now);
        assert false;
    }
  }

  lemma SecondCancelIsElsewhere(r: Run, cmds: seq<Command>, cb: Callbacks, p: Pass, now: int)
    requires IsRun(r, cb) && Obeys(r, cmds, |r.events|)
    requires WellFormed(r.Last()) && IsPass(p, r.Last(), now, cb) && p.end == Faulted(UseAfterFree)
    ensures !CancelsOnce(cmds, cb)
  {
    var s0, n := r.Last(), |r.events|;
    var k, j := SecondCancel(p, s0, now, cb);
    var id := cb(p.fired[k])[j].id;
    assert CancelsThere(cmds, cb, Inside(p.fired[k], j), id);
    if id in s0.stale {
      var at := StaleWasCancelled(r, cmds, cb, n, id);
      FiresFresh(r, cb, p, now, k);
      assert at != Inside(p.fired[k], j);
    } else {
      var l: nat, i: nat :| l < |p.fired| && Earlier(l, i, k, j) && CancelsInTurn(p, cb, l, i, id);
      assert CancelsThere(cmds, cb, Inside(p.fired[l], i), id);
      if l < k { FiredOnce(p, s0, now, cb, l, k); }
      assert Inside(p.fired[l], i) != Inside(p.fired[k], j);
    }
  }

  // ---------- clients that add few timers ----------

  /** Bounds on the timers pending and on the ids issued. */
  datatype Load = Load(live: nat, issued: nat)

  /** What one more command can bring about, if no callback adds more than `most` timers. */
  function Loaded(l: Load, c: Command, most: nat): Load {
    match c
    case Do(op) => if op.Add? then Load(l.live + 1, l.issued + 1) else l
    case Update(_) => Load(l.live + (l.live + 1) * Excess(most), l.issued + (l.live + 1) * most)
  }

  function LoadAfter(cmds: seq<Command>, most: nat, n: nat): Load
    requires n <= |cmds|
  {
    if n == 0 then Load(0, 0) else Loaded(LoadAfter(cmds, most, n - 1), cmds[n - 1], most)
  }

  ghost predicate IdsSuffice(cmds: seq<Command>, cb: Callbacks, most: nat) {
    AddAtMost(cb, most) && FIRST_ID + LoadAfter(cmds, most, |cmds|).issued <= INT_MAX
  }

  lemma {:induction false} LoadGrows(cmds: seq<Command>, most: nat, m: nat, n: nat)
    requires m <= n <= |cmds|
    ensures LoadAfter(cmds, most, m).issued <= LoadAfter(cmds, most, n).issued
    decreases n
  {
    if m < n { LoadGrows(cmds, most, m, n - 1); }
  }

  /** The bounds hold. */
  ghost predicate Within(s: Timers, l: Load) {
    |s.live| <= l.live && s.nextId <= FIRST_ID + l.issued
  }

  lemma EventStaysWithin(s: Timers, ev: Event, c: Command, cb: Callbacks, s': Timers, l: Load, most: nat)
    requires WellFormed(s) && Transition(s, ev, cb, s') && Follows(ev, c) && AddAtMost(cb, most) && Within(s, l)
    ensures Within(s', Loaded(l, c, most))
  {
    match ev
    case Did(op) => LiveAfterOp(s, op);
    case Passed(now, p) =>
      PassUsesIds(p, s, now, cb, most);
      LiveAfterPass(p, s, now, cb, most);
      Monotone(|s.live| + 1, l.live + 1, most);
      Monotone(|s.live| + 1, l.live + 1, Excess(most));
  }

  lemma {:induction false} StaysWithin(r: Run, cmds: seq<Command>, cb: Callbacks, most: nat, n: nat)
    requires IsRun(r, cb) && Obeys(r, cmds, |r.events|) && AddAtMost(cb, most) && n <= |r.events|
    ensures Within(r.states[n], LoadAfter(cmds, most, n))
  {
    if n > 0 {
      var s, ev := r.states[n - 1], r.events[n - 1];
      StaysWithin(r, cmds, cb, most, n - 1);
      RunKeeps(r, cb, n - 1, n - 1);
      assert Transition(s, ev, cb, r.states[n]) && Follows(ev, cmds[n - 1]);
      EventStaysWithin(s, ev, cmds[n - 1], cb, r.states[n], LoadAfter(cmds, most, n - 1), most);
    }
  }

  /** A client that adds few enough timers never overflows the id counter. */
  lemma IdsSufficeIsSafe(r: Run, cmds: seq<Command>, cb: Callbacks, most: nat)
    requires IsRun(r, cb) && Obeys(r, cmds, |r.events|) && |r.events| < |cmds| && IdsSuffice(cmds, cb, most)
    ensures !Breaks(r.Last(), cmds[|r.events|], cb, Halted(IdOverflow))
  {
    var s, n := r.Last(), |r.events|;
    StaysWithin(r, cmds, cb, most, n);
    LoadGrows(cmds, most, n + 1, |cmds|);
    RunKeeps(r, cb, n, n);
    if Breaks(s, cmds[n], cb, Halted(IdOverflow)) && cmds[n].Update? {
      var p :| EndsPass(p, s, cmds[n].now, cb, Halted(IdOverflow));
      PassUsesIds(p, s, cmds[n].now, cb, most);
      Monotone(|s.live| + 1, LoadAfter(cmds, most, n).live + 1, most);
    }
  }

  /** The timers the first n commands add from outside callbacks. */
  function OutsideAdds(cmds: seq<Command>, n: nat): nat
    requires n <= |cmds|
  {
    if n == 0 then 0
    else OutsideAdds(cmds, n - 1) + if cmds[n - 1].Do? && cmds[n - 1].op.Add? then 1 else 0
  }

  function Updates(cmds: seq<Command>, n: nat): nat
    requires n <= |cmds|
  {
    if n == 0 then 0 else Updates(cmds, n - 1) + if cmds[n - 1].Update? then 1 else 0
  }

  /** If callbacks add one timer at most, as those that arm their timer again, then never more timers are pending than
      were added from outside, and each Update costs at most that many ids and one more. */
  lemma {:induction false} RearmingIsLinear(cmds: seq<Command>, n: nat)
    requires n <= |cmds|
    ensures LoadAfter(cmds, 1, n).live == OutsideAdds(cmds, n)
    ensures LoadAfter(cmds, 1, n).issued <=
      OutsideAdds(cmds, n) + Updates(cmds, n) * (OutsideAdds(cmds, n) + 1)
  {
    if n > 0 {
      var adds, ups := OutsideAdds(cmds, n - 1), Updates(cmds, n - 1);
      RearmingIsLinear(cmds, n - 1);
      match cmds[n - 1]
      case Do(op) => MonotoneRight(ups, adds + 1, OutsideAdds(cmds, n) + 1);
      case Update(_) => OneMore(ups, adds + 1);
    }
  }

  lemma MonotoneRight(k: nat, a: nat, b: nat)
    requires a <= b
    ensures k * a <= k * b
  {
  }

  lemma RearmingIdsSuffice(cmds: seq<Command>, cb: Callbacks)
    requires AddAtMost(cb, 1)
    requires var adds := OutsideAdds(cmds, |cmds|);
      FIRST_ID + adds + Updates(cmds, |cmds|) * (adds + 1) <= INT_MAX
    ensures IdsSuffice(cmds, cb, 1)
  {
    RearmingIsLinear(cmds, |cmds|);
  }

  // ---------- clients whose callbacks add only timers that expire later ----------

  /** At every Update the callbacks of the timers that are pending and due add only timers that expire later. */
  ghost predicate PoliteThroughout(r: Run, cmds: seq<Command>, cb: Callbacks)
    requires r.Shaped()
  {
    forall k: nat {:trigger r.states[k]} :: k <= |r.events| && k < |cmds| && cmds[k].Update? ==>
      Polite(r.states[k], cb, cmds[k].now)
  }

  /** The script adds with positive delays and reads the clock no earlier than `now`. */
  ghost predicate Prompt(ops: seq<Op>, now: int) {
    forall op <- ops :: op.Add? ==>
      now <= op.tick && 0 < op.millsec && op.tick + op.millsec < 0x8000_0000_0000_0000
  }

  ghost predicate PromptAt(s: Timers, cb: Callbacks, now: int) {
    forall id <- s.live :: s.live[id].expire <= now && s.live[id].sink.Some? ==> Prompt(cb(id), now)
  }

  /** At every Update the callbacks of the timers that are pending and due add with positive delays, reading the clock
      no earlier than that Update did. */
  ghost predicate PromptThroughout(r: Run, cmds: seq<Command>, cb: Callbacks)
    requires r.Shaped()
  {
    forall k: nat {:trigger r.states[k]} :: k <= |r.events| && k < |cmds| && cmds[k].Update? ==>
      PromptAt(r.states[k], cb, cmds[k].now)
  }

  lemma PromptIsPolite(r: Run, cmds: seq<Command>, cb: Callbacks)
    requires r.Shaped() && PromptThroughout(r, cmds, cb)
    ensures PoliteThroughout(r, cmds, cb)
  {
    forall k: nat | k <= |r.events| && k < |cmds| && cmds[k].Update?
      ensures Polite(r.states[k], cb, cmds[k].now)
    {
      var s, now := r.states[k], cmds[k].now;
      assert PromptAt(s, cb, now);
      forall id | id in s.live && s.live[id].expire <= now && s.live[id].sink.Some?
        ensures LateAdds(cb(id), now)
      {
        PositiveDelayIsPolite(cb(id), now);
      }
    }
  }

  // ---------- the implementation takes only such runs ----------

  lemma PoliteIsSafe(s: Timers, c: Command, cb: Callbacks)
    requires WellFormed(s) && (c.Update? ==> Polite(s, cb, c.now))
    ensures !Breaks(s, c, cb, Hung)
  {
    if c.Update? && Breaks(s, c, cb, Hung) {
      var p :| EndsPass(p, s, c.now, cb, Hung);
      PolitePass(p, s, c.now, cb);
      assert false;
    }
  }

  /** A call that does not return has its reason in the client: an id cancelled at two places, more ids than there
      are, or the callback of a due timer that adds one already due. */
  lemma StopHasReason(r: Run, cmds: seq<Command>, cb: Callbacks, stop: Stop)
    requires IsRun(r, cb) && Obeys(r, cmds, |r.events|) && |r.events| < |cmds|
    requires Breaks(r.Last(), cmds[|r.events|], cb, stop)
    ensures stop == Halted(UseAfterFree) ==> !CancelsOnce(cmds, cb)
    ensures stop == Halted(IdOverflow) ==> forall most: nat :: !IdsSuffice(cmds, cb, most)
    ensures stop == Hung ==> cmds[|r.events|].Update? && !Polite(r.Last(), cb, cmds[|r.events|].now)
    ensures stop == Hung ==> !PoliteThroughout(r, cmds, cb) && !PromptThroughout(r, cmds, cb)
  {
    var n := |r.events|;
    if stop == Halted(UseAfterFree) && CancelsOnce(cmds, cb) { CancelsOnceIsSafe(r, cmds, cb); }
    forall most: nat | stop == Halted(IdOverflow) ensures !IdsSuffice(cmds, cb, most) {
      if IdsSuffice(cmds, cb, most) { IdsSufficeIsSafe(r, cmds, cb, most); }
    }
    RunKeeps(r, cb, n, n);
    if stop == Hung && cmds[n].Update? {
      if Polite(r.Last(), cb, cmds[n].now) { PoliteIsSafe(r.Last(), cmds[n], cb); }
      assert !Polite(r.states[n], cb, cmds[n].now);
      if PromptThroughout(r, cmds, cb) { PromptIsPolite(r, cmds, cb); }
    }
  }

  /** Any client of a new scheduler, making any calls, sees a run of the model for as long as calls return; and they
      all return if it cancels no id at two places, never runs out of ids, and whenever it updates the timers the
      callbacks of those then due are polite, as they are if they add with positive delays. */
  method Drive(cmds: seq<Command>, cb: Callbacks) returns (t: TimerSched, stop: Stop, ghost r: Run)
    ensures fresh(t) && fresh(t.pool) && IsRun(r, cb)
    ensures stop == Completed ==> Obeys(r, cmds, |cmds|) && t.Valid() && t.firing == null && r.Last() == t.Model()
    ensures stop != Completed ==>
      Obeys(r, cmds, |r.events|) && |r.events| < |cmds| && Breaks(r.Last(), cmds[|r.events|], cb, stop)
    ensures CancelsOnce(cmds, cb) ==> stop != Halted(UseAfterFree)
    ensures forall most: nat :: IdsSuffice(cmds, cb, most) ==> stop != Halted(IdOverflow)
    ensures PoliteThroughout(r, cmds, cb) || PromptThroughout(r, cmds, cb) ==> stop != Hung
    ensures stop == Hung ==> cmds[|r.events|].Update? && !Polite(r.Last(), cb, cmds[|r.events|].now)
  {
    t, stop, r := Follow(cmds, cb);
    if stop != Completed {
      StopHasReason(r, cmds, cb, stop);
    }
  }

  /** One command on a scheduler of which no callback is running. */
  method Obey(t: TimerSched, c: Command, cb: Callbacks) returns (stop: Stop, ghost ev: Event)
    requires t.Valid() && t.firing == null
    modifies t, t.pool`index, t.pool`freed
    ensures fresh(t.pool - old(t.pool)) && old(t.pool) <= t.pool
    ensures if stop == Completed then
        && t.Valid() && t.firing == null
        && Follows(ev, c) && Transition(old(t.Model()), ev, cb, t.Model())
      else Breaks(old(t.Model()), c, cb, stop)
  {
    stop := Completed;
    match c
    case Do(op) =>
      var fault := t.Apply(op);
      if fault.Some? { stop := Halted(fault.value); }
      ev := Did(op);
    case Update(now) =>
      var end, called;
      ghost var p;
      ghost var s := t.Model();
      end, called, p := t.UpdateTimer(now, cb);
      ev := Passed(now, p);
      match end
      case Faulted(fault) => stop := Halted(fault); assert EndsPass(p, s, now, cb, stop);
      case Spins => stop := Hung; assert EndsPass(p, s, now, cb, stop);
      case Finished =>
  }

  method Follow(cmds: seq<Command>, cb: Callbacks) returns (t: TimerSched, stop: Stop, ghost r: Run)
    ensures fresh(t) && fresh(t.pool) && IsRun(r, cb)
    ensures stop == Completed ==> Obeys(r, cmds, |cmds|) && t.Valid() && t.firing == null && r.Last() == t.Model()
    ensures stop != Completed ==>
      Obeys(r, cmds, |r.events|) && |r.events| < |cmds| && Breaks(r.Last(), cmds[|r.events|], cb, stop)
  {
    t := new TimerSched();
    r := Run([t.Model()], []);
    for i := 0 to |cmds|
      invariant fresh(t) && fresh(t.pool) && t.Valid() && t.firing == null
      invariant IsRun(r, cb) && Obeys(r, cmds, i) && r.Last() == t.Model()
    {
      ghost var ev;
      stop, ev := Obey(t, cmds[i], cb);
      if stop != Completed {
        return;
      }
      LongerIsRun(r, cb, ev, t.Model());
      r := Longer(r, ev, t.Model());
    }
    stop := Completed;
  }

  // ---------- a client that arms one timer again and again ----------

  /** Adds a timer of `d` milliseconds at time 0, then updates every `d` milliseconds, n times. */
  function Periodic(d: nat, n: nat): seq<Command> {
    [Do(Add(0, d, Some(0)))] + seq(n, i requires 0 <= i < n => Update((i + 1) * d))
  }

  /** The callback of each timer adds the next. */
  function AddsNext(d: nat): Callbacks {
    id => if id >= FIRST_ID then [Add((id - FIRST_ID + 1) * d, d, Some(0))] else []
  }

  /** The timer pending after the k-th Update. */
  function PeriodicState(d: nat, k: nat): Timers {
    Timers(FIRST_ID + k + 1, map[FIRST_ID + k := Timer((k + 1) * d, Some(0))], {})
  }

  /** A pass comes no further than to a state in which nothing is due. */
  lemma NotDueEnds(p: Pass, s0: Timers, now: int, cb: Callbacks, k: nat)
    requires Progress(p, s0, now, cb) && k <= |p.fired| && NothingDue(p.states[k], now)
    ensures k == |p.fired|
  {
    assert k < |p.fired| ==> Turn(p, now, s0.nextId, cb, k);
  }

  /** One period: the pass fires the pending timer, whose callback arms the next. */
  lemma PeriodicPass(p: Pass, d: nat, k: nat)
    requires 0 < d && (k + 2) * d < 0x8000_0000_0000_0000 && FIRST_ID + k + 1 < INT_MAX
    requires IsPass(p, PeriodicState(d, k), (k + 1) * d, AddsNext(d)) && p.end == Finished
    ensures p.Last() == PeriodicState(d, k + 1)
  {
    var s, cb, now := PeriodicState(d, k), AddsNext(d), (k + 1) * d;
    var id := FIRST_ID + k;
    assert id in s.live && p.fired != [];
    assert Turn(p, now, s.nextId, cb, 0);
    assert p.fired[0] == id;
    var ops := cb(id);
    assert ops == [Add(now, d, Some(0))] && ops[1..] == [];
    assert now + d == (k + 2) * d && Expire(now, d) == now + d;
    var s1 := s.(live := s.live - {id});
    assert RunOps(s1, ops).state == PeriodicState(d, k + 1);
    assert p.states[1] == PeriodicState(d, k + 1);
    NotDueEnds(p, s, now, cb, 1);
  }

  lemma MultipleBelow(a: nat, b: nat, d: nat)
    requires a <= b
    ensures a * d <= b * d
  {
  }

  lemma {:induction false} PeriodicStates(r: Run, d: nat, n: nat, k: nat)
    requires 0 < d && (n + 1) * d < 0x8000_0000_0000_0000 && FIRST_ID + n + 1 < INT_MAX
    requires IsRun(r, AddsNext(d)) && Obeys(r, Periodic(d, n), |r.events|) && k < |r.events|
    ensures r.states[k + 1] == PeriodicState(d, k)
  {
    var ev := r.events[k];
    assert Transition(r.states[k], ev, AddsNext(d), r.states[k + 1]) && Follows(ev, Periodic(d, n)[k]);
    if k == 0 {
      MultipleBelow(1, n + 1, d);
      assert Expire(0, d) == d;
    } else {
      PeriodicStates(r, d, n, k - 1);
      MultipleBelow(k + 1, n + 1, d);
      PeriodicPass(ev.pass, d, k - 1);
    }
  }

  lemma {:induction false} PeriodicCounts(d: nat, n: nat, k: nat)
    requires k <= n
    ensures OutsideAdds(Periodic(d, n), k + 1) == 1 && Updates(Periodic(d, n), k + 1) == k
  {
    if k > 0 { PeriodicCounts(d, n, k - 1); }
  }

  lemma PeriodicAddsOne(d: nat)
    ensures AddAtMost(AddsNext(d), 1)
  {
    forall id
      ensures Adds(AddsNext(d)(id)) <= 1
    {
      if id >= FIRST_ID { assert AddsNext(d)(id)[1..] == []; }
    }
  }

  lemma PeriodicIsPrompt(d: nat, n: nat, k: nat)
    requires 0 < d && (n + 1) * d < 0x8000_0000_0000_0000 && k < n
    ensures PromptAt(PeriodicState(d, k), AddsNext(d), (k + 1) * d)
  {
    MultipleBelow(k + 2, n + 1, d);
    assert (k + 1) * d + d == (k + 2) * d;
  }

  /** Such a client meets all that Drive asks for, whatever the period and for as many periods as there are ids for by
      the linear bound; so all its calls return. */
  lemma PeriodicCompletes(r: Run, d: nat, n: nat)
    requires 0 < d && (n + 1) * d < 0x8000_0000_0000_0000 && FIRST_ID + 1 + 2 * n <= INT_MAX && 1 <= n
    requires IsRun(r, AddsNext(d)) && Obeys(r, Periodic(d, n), |r.events|)
    ensures CancelsOnce(Periodic(d, n), AddsNext(d)) && IdsSuffice(Periodic(d, n), AddsNext(d), 1)
    ensures PromptThroughout(r, Periodic(d, n), AddsNext(d))
  {
    var cmds, cb := Periodic(d, n), AddsNext(d);
    PeriodicAddsOne(d);
    PeriodicCounts(d, n, n);
    RearmingIdsSuffice(cmds, cb);
    assert forall at, id :: !CancelsThere(cmds, cb, at, id);
    forall k: nat | k <= |r.events| && k < |cmds| && cmds[k].Update?
      ensures PromptAt(r.states[k], cb, cmds[k].now)
    {
      PeriodicStates(r, d, n, k - 1);
      PeriodicIsPrompt(d, n, k - 1);
    }
  }
}
