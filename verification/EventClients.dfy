/** Clients of the WSAEventSelect() reactor: what they see of its sockets and of its timers, and why a poll does not
    return. */
module EventClients {
  import opened EventLaws
  import opened EventModel
  import opened EventReactor
  import opened Options
  import opened PollEvents
  import opened Sequences
  import opened TimerFaults
  import TimerLaws
  import TimerModel
  import TimerRuns

  datatype Command = Do(act: Act<EvOp>) | PollNow(wait: WaitResult, now: int, net: NetworkEvents, h: LoopHandlers)

  /** The wait reports one of the handles it was given. */
  function Reported(s: EvRegistry, wait: WaitResult): WaitResult {
    if wait.Signalled? && wait.index >= |Snapshot(s.fds)| then WaitFailed else wait
  }

  /** The position found for the signalled handle after the calls of timer callbacks. */
  function LookedUp(s: EvRegistry, calls: seq<EvOp>, index: nat): nat
    requires index < |Snapshot(s.fds)|
  {
    FindEvent(RunOps(s, calls).fds, Snapshot(s.fds)[index])
  }

  /** The registry's run: what each event does to it. */
  ghost predicate IsTrace(states: seq<EvRegistry>, events: seq<Event>) {
    && |states| == |events| + 1 && states[0] == EvRegistry([], false)
    && forall j: nat {:trigger events[j]} :: j < |events| ==> Performs(states[j], events[j], states[j + 1])
  }

  /** The expiry pass that a poll begins with. */
  ghost predicate BeginsWithPass(ticks: seq<TimerRuns.Event>, now: int) {
    ticks != [] && ticks[0].Passed? && ticks[0].now == now && ticks[0].pass.Shaped()
  }

  /** What the command does in state s: `ev` to the registry and `ticks` to the timers.  A poll makes an expiry pass,
      then the registry calls of the callbacks that ran in it, then the timer calls of the handlers it calls. */
  ghost predicate Follows(s: EvRegistry, ev: Event, ticks: seq<TimerRuns.Event>, c: Command, cb: TimeoutActs<EvOp>) {
    match c
    case Do(Socket(op)) => ev == Did(op) && ticks == []
    case Do(Timer(call)) => ev.Nothing? && ticks == [TimerRuns.Did(call)]
    case PollNow(wait, now, net, h) =>
      && BeginsWithPass(ticks, now)
      && var p := ticks[0].pass;
      var calls := SocketCalls(TimerModel.CalledBack(p, |p.fired|), cb);
      if Reported(s, wait).Signalled? then
        if net.Occurred? && LookedUp(s, calls, wait.index) < |RunOps(s, calls).fds| then
          && ev == EventLaws.Dispatched(calls, wait.index, net.events, net.errors, SocketsOf(h))
          && ticks[1..] == TimerRuns.Dids(TimerScript(DispatchAfter(s, calls, c, Order()).on, h))
        else ev == EventLaws.NotFound(calls) && ticks[1..] == []
      else ev == EventLaws.Idle(calls) && ticks[1..] == []
  }

  predicate Dispatches(s: EvRegistry, c: Command) {
    c.PollNow? && Reported(s, c.wait).Signalled? && c.net.Occurred?
  }

  /** The dispatch of a poll whose timer callbacks made `calls`, as far as the bits `done`. */
  ghost function DispatchAfter(s: EvRegistry, calls: seq<EvOp>, c: Command, done: seq<Flag>): Dispatch
    requires Dispatches(s, c)
  {
    FiredAll(Dispatch(RunOps(s, calls), 0, []), LookedUp(s, calls, c.wait.index), c.net.events, done, c.net.errors,
             SocketsOf(c.h), AsWritten)
  }

  ghost predicate Obeys(states: seq<EvRegistry>, events: seq<Event>, ticks: seq<seq<TimerRuns.Event>>,
                        cmds: seq<Command>, cb: TimeoutActs<EvOp>, n: nat) {
    && |events| == |ticks| == n <= |cmds| && n < |states|
    && forall j: nat {:trigger events[j]} :: j < n ==> Follows(states[j], events[j], ticks[j], cmds[j], cb)
  }

  // ---------- why a call does not return ----------

  /** What a poll that does not return has done: the expiry pass it began, and the event bits it looked at. */
  datatype Broken = Broken(p: TimerModel.Pass, done: seq<Flag>)

  /** The timer calls of the handlers it called. */
  ghost function HandlerScript(b: Broken, s: EvRegistry, c: Command, cb: TimeoutActs<EvOp>): seq<TimerModel.Op>
    requires b.p.Shaped() && Dispatches(s, c)
  {
    TimerScript(DispatchAfter(s, SocketCalls(TimerModel.CalledBack(b.p, |b.p.fired|), cb), c, b.done).on, c.h)
  }

  ghost predicate BreaksPoll(b: Broken, s: EvRegistry, t: TimerModel.Timers, c: Command, cb: TimeoutActs<EvOp>,
                             stop: PollEnd)
    requires c.PollNow?
  {
    && TimerModel.IsPass(b.p, t, c.now, TimersOf(cb))
    && match stop
       case Hung => b.p.end.Spins?
       case TimerFault(fault) => b.p.end == TimerModel.Faulted(fault)
       case HandlerFault(fault) =>
         && b.p.end.Finished? && Dispatches(s, c) && b.done <= Order()
         && TimerModel.RunOps(b.p.Last(), HandlerScript(b, s, c, cb)).fault == Some(fault)
       case _ => false
  }

  /** The command, given in these states, does not return but ends in `stop`. */
  ghost predicate Breaks(s: EvRegistry, t: TimerModel.Timers, c: Command, cb: TimeoutActs<EvOp>, stop: PollEnd) {
    match c
    case Do(Socket(_)) => false
    case Do(Timer(call)) => stop.HandlerFault? && TimerModel.Step(t, call).fault == Some(stop.fault)
    case PollNow(_, _, _, _) => exists b :: BreaksPoll(b, s, t, c, cb, stop)
  }

  /** The poll has its reason in the handlers or callbacks: one that cancels a timer already cancelled, or the callback
      of a due timer that adds one already due. */
  ghost predicate Reason(b: Broken, s: EvRegistry, t: TimerModel.Timers, c: Command, cb: TimeoutActs<EvOp>,
                         stop: PollEnd)
    requires c.PollNow? && b.p.Shaped()
  {
    match stop
    case Hung => !TimerModel.Polite(t, TimersOf(cb), c.now)
    case TimerFault(fault) =>
      fault.UseAfterFree? ==> exists k: nat, j: nat :: k < |b.p.fired| && CancelsTwice(b.p, t, TimersOf(cb), k, j)
    case HandlerFault(fault) =>
      && Dispatches(s, c)
      && (fault.UseAfterFree? ==>
            exists j: nat :: SecondCancelIn(b.p.Last(), HandlerScript(b, s, c, cb), j))
    case _ => false
  }

  lemma PollHasReason(b: Broken, s: EvRegistry, t: TimerModel.Timers, c: Command, cb: TimeoutActs<EvOp>, stop: PollEnd)
    requires c.PollNow? && TimerModel.WellFormed(t) && BreaksPoll(b, s, t, c, cb, stop)
    ensures Reason(b, s, t, c, cb, stop)
  {
    match stop
    case Hung =>
      if TimerModel.Polite(t, TimersOf(cb), c.now) { TimerLaws.PolitePass(b.p, t, c.now, TimersOf(cb)); }
    case TimerFault(fault) =>
      if fault.UseAfterFree? { PassFaultsExactly(b.p, t, c.now, TimersOf(cb)); }
    case HandlerFault(fault) =>
      var t', script := b.p.Last(), HandlerScript(b, s, c, cb);
      TimerLaws.StateKeeps(b.p, t, c.now, TimersOf(cb), 0, |b.p.fired|);
      if fault.UseAfterFree? { var j := SecondCancelOf(t', script); }
  }

  /** A timer call, or a poll, that does not return has its reason in the client. */
  ghost predicate HasReason(s: EvRegistry, t: TimerModel.Timers, c: Command, cb: TimeoutActs<EvOp>, stop: PollEnd) {
    match c
    case Do(Socket(_)) => false
    case Do(Timer(call)) =>
      stop.HandlerFault? && (stop.fault.UseAfterFree? ==> call.Cancel? && call.id in t.stale)
    case PollNow(_, _, _, _) => exists b :: BreaksForReason(b, s, t, c, cb, stop)
  }

  ghost predicate BreaksForReason(b: Broken, s: EvRegistry, t: TimerModel.Timers, c: Command, cb: TimeoutActs<EvOp>,
                                  stop: PollEnd)
    requires c.PollNow?
  {
    BreaksPoll(b, s, t, c, cb, stop) && Reason(b, s, t, c, cb, stop)
  }

  /** A run ends, if a call does not return, for a reason in the client's code. */
  lemma RunEndsForReason(s: EvRegistry, r: TimerRuns.Run, c: Command, cb: TimeoutActs<EvOp>, stop: PollEnd)
    requires TimerRuns.IsRun(r, TimersOf(cb)) && Breaks(s, r.Last(), c, cb, stop)
    ensures HasReason(s, r.Last(), c, cb, stop)
  {
    var t := r.Last();
    TimerRuns.RunKeeps(r, TimersOf(cb), |r.events|, |r.events|);
    if c.PollNow? {
      var b :| BreaksPoll(b, s, t, c, cb, stop);
      PollHasReason(b, s, t, c, cb, stop);
      assert BreaksForReason(b, s, t, c, cb, stop);
    }
  }

  // ---------- the implementation takes only such runs ----------

  lemma Extend(states: seq<EvRegistry>, events: seq<Event>, ticks: seq<seq<TimerRuns.Event>>, cmds: seq<Command>,
               cb: TimeoutActs<EvOp>, ev: Event, tick: seq<TimerRuns.Event>, s: EvRegistry)
    requires IsTrace(states, events) && Obeys(states, events, ticks, cmds, cb, |events|) && |events| < |cmds|
    requires Performs(states[|events|], ev, s) && Follows(states[|events|], ev, tick, cmds[|events|], cb)
    ensures IsTrace(states + [s], events + [ev])
    ensures Obeys(states + [s], events + [ev], ticks + [tick], cmds, cb, |events| + 1)
    ensures Flat(ticks + [tick]) == Flat(ticks) + tick
  {
    FlatOn(ticks, tick);
  }

  /** Any client of a new poller, whatever its handlers and timer callbacks do, sees its commands done, one after the
      other, as events of the registry's model and of the timers'.  The first that does not return breaks off as `stop`
      says, for a reason in the client's code. */
  method Drive(cmds: seq<Command>, cb: TimeoutActs<EvOp>)
    returns (poller: AsyncEventPoller, stop: Option<PollEnd>, ghost states: seq<EvRegistry>, ghost events: seq<Event>,
             ghost ticks: seq<seq<TimerRuns.Event>>, ghost r: TimerRuns.Run)
    ensures IsTrace(states, events) && Obeys(states, events, ticks, cmds, cb, |events|)
    ensures TimerRuns.IsRun(r, TimersOf(cb)) && r.events == Flat(ticks)
    ensures stop.None? ==>
      |events| == |cmds| && states[|events|] == poller.Model() && r.Last() == poller.timers.Model()
    ensures stop.Some? ==>
      && |events| < |cmds| && Breaks(states[|events|], r.Last(), cmds[|events|], cb, stop.value)
      && HasReason(states[|events|], r.Last(), cmds[|events|], cb, stop.value)
  {
    poller := new AsyncEventPoller();
    states, events, ticks, stop := [poller.Model()], [], [], None;
    r := TimerRuns.Run([poller.timers.Model()], []);
    for k := 0 to |cmds|
      invariant fresh(poller) && fresh(poller.timers) && fresh(poller.timers.pool) && poller.Valid()
      invariant IsTrace(states, events) && Obeys(states, events, ticks, cmds, cb, k) && states[k] == poller.Model()
      invariant TimerRuns.IsRun(r, TimersOf(cb)) && r.Last() == poller.timers.Model() && r.events == Flat(ticks)
    {
      ghost var ev, tick, r';
      stop, ev, tick, r' := Obey(poller, cmds[k], cb, r);
      if stop.Some? {
        RunEndsForReason(states[k], r, cmds[k], cb, stop.value);
        return;
      }
      Extend(states, events, ticks, cmds, cb, ev, tick, poller.Model());
      states, events, ticks, r := states + [poller.Model()], events + [ev], ticks + [tick], r';
    }
    stop := None;
  }

  /** One command.  `r` is the timers' run so far. */
  method Obey(poller: AsyncEventPoller, c: Command, cb: TimeoutActs<EvOp>, ghost r: TimerRuns.Run)
    returns (stop: Option<PollEnd>, ghost ev: Event, ghost tick: seq<TimerRuns.Event>, ghost r': TimerRuns.Run)
    requires poller.Valid() && TimerRuns.IsRun(r, TimersOf(cb)) && r.Last() == poller.timers.Model()
    modifies poller, poller.timers, poller.timers.pool`index, poller.timers.pool`freed
    ensures old(poller.timers.pool) <= poller.timers.pool && fresh(poller.timers.pool - old(poller.timers.pool))
    ensures stop.Some? ==> Breaks(old(poller.Model()), r.Last(), c, cb, stop.value)
    ensures stop.None? ==>
      && poller.Valid() && Performs(old(poller.Model()), ev, poller.Model())
      && Follows(old(poller.Model()), ev, tick, c, cb)
      && TimerRuns.IsRun(r', TimersOf(cb)) && r'.Last() == poller.timers.Model() && r'.events == r.events + tick
  {
    match c
    case Do(act) =>
      var fault;
      fault, ev, tick, r' := DoOnce(poller, act, cb, r);
      stop := if fault.Some? then Some(HandlerFault(fault.value)) else None;
    case PollNow(_, _, _, _) =>
      var end;
      end, ev, tick, r' := PollOnce(poller, c, cb, r);
      stop := if end.HandlerFault? || end.TimerFault? || end.Hung? then Some(end) else None;
  }

  method DoOnce(poller: AsyncEventPoller, act: Act<EvOp>, cb: TimeoutActs<EvOp>, ghost r: TimerRuns.Run)
    returns (fault: Option<TimerModel.Fault>, ghost ev: Event, ghost tick: seq<TimerRuns.Event>,
             ghost r': TimerRuns.Run)
    requires poller.Valid() && TimerRuns.IsRun(r, TimersOf(cb)) && r.Last() == poller.timers.Model()
    modifies poller, poller.timers, poller.timers.pool`index, poller.timers.pool`freed
    ensures old(poller.timers.pool) <= poller.timers.pool && fresh(poller.timers.pool - old(poller.timers.pool))
    ensures fault.Some? ==> Breaks(old(poller.Model()), r.Last(), Do(act), cb, HandlerFault(fault.value))
    ensures fault.None? ==>
      && poller.Valid() && Performs(old(poller.Model()), ev, poller.Model())
      && Follows(old(poller.Model()), ev, tick, Do(act), cb)
      && TimerRuns.IsRun(r', TimersOf(cb)) && r'.Last() == poller.timers.Model() && r'.events == r.events + tick
  {
    fault := poller.Perform(act);
    ev, tick, r' := if act.Socket? then Did(act.op) else Nothing, [], r;
    if fault.None? && act.Timer? {
      TimerRuns.LongerIsRun(r, TimersOf(cb), TimerRuns.Did(act.call), poller.timers.Model());
      tick, r' := [TimerRuns.Did(act.call)], TimerRuns.Longer(r, TimerRuns.Did(act.call), poller.timers.Model());
    }
  }

  method PollOnce(poller: AsyncEventPoller, c: Command, cb: TimeoutActs<EvOp>, ghost r: TimerRuns.Run)
    returns (end: PollEnd, ghost ev: Event, ghost tick: seq<TimerRuns.Event>, ghost r': TimerRuns.Run)
    requires c.PollNow?
    requires poller.Valid() && TimerRuns.IsRun(r, TimersOf(cb)) && r.Last() == poller.timers.Model()
    modifies poller, poller.timers, poller.timers.pool`index, poller.timers.pool`freed
    ensures old(poller.timers.pool) <= poller.timers.pool && fresh(poller.timers.pool - old(poller.timers.pool))
    ensures end.HandlerFault? || end.TimerFault? || end.Hung? ==>
      Breaks(old(poller.Model()), r.Last(), c, cb, end)
    ensures !end.HandlerFault? && !end.TimerFault? && !end.Hung? ==>
      && poller.Valid() && Performs(old(poller.Model()), ev, poller.Model())
      && Follows(old(poller.Model()), ev, tick, c, cb)
      && TimerRuns.IsRun(r', TimersOf(cb)) && r'.Last() == poller.timers.Model() && r'.events == r.events + tick
  {
    var wait := Reported(EvRegistry(poller.fds, poller.hasRetired), c.wait);
    ghost var s0, err := poller.Model(), poller.lastErr;
    var rc;
    ghost var p, done;
    rc, end, p, done := poller.Poll(wait, c.now, cb, c.net, c.h);
    ev, tick, r' := EventLaws.Nothing, [], r;
    ghost var calls := SocketCalls(TimerModel.CalledBack(p, |p.fired|), cb);
    ghost var on := [];
    if Dispatches(s0, c) && p.end.Finished? {
      var i := LookedUp(s0, calls, wait.index);
      ErrDoesNotMatter(Dispatch(RunOps(s0, calls), 0, []), err, i, c.net.events, done, c.net.errors, SocketsOf(c.h),
                       AsWritten);
      if i < |RunOps(s0, calls).fds| { on := DispatchAfter(s0, calls, c, done).on; }
    }
    if end.HandlerFault? || end.TimerFault? || end.Hung? {
      assert BreaksPoll(Broken(p, done), s0, r.Last(), c, cb, end);
    } else {
      tick, r' := PassedBefore(r, TimerScript(on, c.h), c.now, p, TimersOf(cb));
      ev :=
        match end
        case Dispatched(_) => EventLaws.Dispatched(calls, wait.index, c.net.events, c.net.errors, SocketsOf(c.h))
        case NotFound => EventLaws.NotFound(calls)
        case _ => EventLaws.Idle(calls);
    }
  }

  /** The timers' run with an expiry pass and then the calls of handlers. */
  lemma PassedBefore(r: TimerRuns.Run, ops: seq<TimerModel.Op>, now: int, p: TimerModel.Pass, cb: TimerModel.Callbacks)
    returns (tick: seq<TimerRuns.Event>, r': TimerRuns.Run)
    requires TimerRuns.IsRun(r, cb) && TimerModel.IsPass(p, r.Last(), now, cb) && p.end.Finished?
    requires TimerModel.RunOps(p.Last(), ops).fault.None?
    ensures BeginsWithPass(tick, now) && tick[1..] == TimerRuns.Dids(ops) && tick[0].pass == p
    ensures TimerRuns.IsRun(r', cb) && r'.Last() == TimerModel.RunOps(p.Last(), ops).state
    ensures r'.events == r.events + tick
  {
    var first := TimerRuns.Passed(now, p);
    TimerRuns.LongerIsRun(r, cb, first, p.Last());
    var r1 := TimerRuns.Longer(r, first, p.Last());
    TimerRuns.WithOpsIsRun(r1, cb, ops);
    tick, r' := [first] + TimerRuns.Dids(ops), TimerRuns.WithOps(r1, ops);
    assert r.events + [first] + TimerRuns.Dids(ops) == r.events + tick;
  }

  // ---------- what a poll answers ----------

  /** Turn k of the poll's expiry pass fires a timer with a sink, whose callback makes this call. */
  ghost predicate CallsBack(p: TimerModel.Pass, k: nat, cb: TimeoutActs<EvOp>, op: EvOp)
    requires p.Shaped() && k < |p.fired|
  {
    TimerLaws.FiresWithSink(p, k, p.fired[k]) && Socket(op) in cb(p.fired[k])
  }

  /** The registry calls a poll makes for its timers are those of the callbacks of the timers it fires. */
  lemma TimersAreAnswered(s: EvRegistry, ev: Event, ticks: seq<TimerRuns.Event>, c: Command, cb: TimeoutActs<EvOp>,
                          op: EvOp)
    requires c.PollNow? && Follows(s, ev, ticks, c, cb)
    ensures BeginsWithPass(ticks, c.now) && (ev.Dispatched? || ev.NotFound? || ev.Idle?)
    ensures var p := ticks[0].pass;
      op in ev.calls <==> exists k: nat :: k < |p.fired| && CallsBack(p, k, cb, op)
  {
    var p := ticks[0].pass;
    var called := TimerModel.CalledBack(p, |p.fired|);
    SocketCallIn(called, cb, op);
    if op in ev.calls {
      var id :| id in called && Socket(op) in cb(id);
      TimerLaws.CalledBackMembers(p, |p.fired|, id);
      var k: nat :| k < |p.fired| && TimerLaws.FiresWithSink(p, k, id);
      assert CallsBack(p, k, cb, op);
    }
    if k: nat :| k < |p.fired| && CallsBack(p, k, cb, op) {
      TimerLaws.CalledBackMembers(p, |p.fired|, p.fired[k]);
    }
  }
}
