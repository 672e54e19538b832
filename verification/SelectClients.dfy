/** Clients of the select() reactor: what they see of its sockets and of its timers, and why a poll does not return. */
module SelectClients {
  import opened Options
  import opened PollEvents
  import opened SelectLaws
  import opened SelectModel
  import opened SelectReactor
  import opened Sequences
  import opened TimerFaults
  import opened Winsock
  import TimerLaws
  import TimerModel
  import TimerRuns

  datatype Command = Do(act: Act<PollOp>) | PollNow(result: SelectResult, h: LoopHandlers, now: int)

  /** The registry's run: what each event does to it. */
  ghost predicate IsTrace(states: seq<Registry>, events: seq<Event>) {
    && |states| == |events| + 1 && states[0] == Registry([], false, {}, {}, {})
    && forall j: nat {:trigger events[j]} :: j < |events| ==> Performs(states[j], events[j], states[j + 1])
  }

  /** The expiry pass that a poll ends with. */
  ghost predicate EndsWithPass(ticks: seq<TimerRuns.Event>, now: int) {
    && ticks != [] && ticks[|ticks| - 1].Passed? && ticks[|ticks| - 1].now == now
    && ticks[|ticks| - 1].pass.Shaped()
  }

  /** What the command does in state s: `ev` to the registry and `ticks` to the timers.  A poll makes the timer calls of
      the handlers it calls, in order, then an expiry pass, then the registry calls of the callbacks that ran in it. */
  ghost predicate Follows(s: Registry, ev: Event, ticks: seq<TimerRuns.Event>, c: Command, cb: TimeoutActs<PollOp>) {
    match c
    case Do(Socket(op)) => ev == Did(op) && ticks == []
    case Do(Timer(call)) => ev.Nothing? && ticks == [TimerRuns.Did(call)]
    case PollNow(result, h, now) =>
      if s.fds != [] && result == SocketError then ev.Nothing? && ticks == []
      else
        && ev.Polled? && ev.ready == ReadyOf(s.fds, result) && ev.h == SocketsOf(h)
        && EndsWithPass(ticks, now)
        && ticks[..|ticks| - 1] == TimerRuns.Dids(TimerScript(Log(ev.turns, ev.ready), h))
        && var p := ticks[|ticks| - 1].pass;
        ev.calls == SocketCalls(TimerModel.CalledBack(p, |p.fired|), cb)
  }

  ghost predicate Obeys(states: seq<Registry>, events: seq<Event>, ticks: seq<seq<TimerRuns.Event>>,
                        cmds: seq<Command>, cb: TimeoutActs<PollOp>, n: nat) {
    && |events| == |ticks| == n <= |cmds| && n < |states|
    && forall j: nat {:trigger events[j]} :: j < n ==> Follows(states[j], events[j], ticks[j], cmds[j], cb)
  }

  // ---------- why a call does not return ----------

  /** What a poll that does not return has done: the turns of its sweep, the calls, and the expiry pass it began. */
  datatype Broken = Broken(turns: seq<Turn>, log: seq<Call>, p: TimerModel.Pass)

  ghost predicate BreaksPoll(b: Broken, s: Registry, t: TimerModel.Timers, ready: Ready, h: LoopHandlers, now: int,
                             cb: TimeoutActs<PollOp>, stop: PollEnd) {
    var e := TimerModel.RunOps(t, TimerScript(b.log, h));
    && IsSweep(b.turns, s, ready, SocketsOf(h)) && b.log <= Log(b.turns, ready)
    && (!stop.HandlerFault? ==> b.log == Log(b.turns, ready))
    && match stop
       case HandlerFault(fault) => e.fault == Some(fault)
       case NullSink(at, stage) => |b.turns| == at + 1 && RetiredMidway(b.turns[at], at, stage, ready)
       case TimerFault(fault) =>
         e.fault.None? && TimerModel.IsPass(b.p, e.state, now, TimersOf(cb)) && b.p.end == TimerModel.Faulted(fault)
       case Hung => e.fault.None? && TimerModel.IsPass(b.p, e.state, now, TimersOf(cb)) && b.p.end.Spins?
       case _ => false
  }

  /** The command, given in these states, does not return but ends in `stop`. */
  ghost predicate Breaks(s: Registry, t: TimerModel.Timers, c: Command, cb: TimeoutActs<PollOp>, stop: PollEnd) {
    match c
    case Do(Socket(_)) => false
    case Do(Timer(call)) => stop.HandlerFault? && TimerModel.Step(t, call).fault == Some(stop.fault)
    case PollNow(result, h, now) => exists b :: BreaksPoll(b, s, t, ReadyOf(s.fds, result), h, now, cb, stop)
  }

  /** The poll has its reason in the handlers or callbacks: one that removes the socket it was called for although it
      is ready for a later stage, one that cancels a timer already cancelled, or the callback of a due timer that adds
      one already due. */
  ghost predicate Reason(b: Broken, s: Registry, t: TimerModel.Timers, ready: Ready, h: LoopHandlers, now: int,
                         cb: TimeoutActs<PollOp>, stop: PollEnd) {
    var script := TimerScript(b.log, h);
    var t' := TimerModel.RunOps(t, script).state;
    match stop
    case NullSink(at, late) =>
      at < |b.turns| && exists early :: RemovesItself(b.turns[at], at, early, late, ready, SocketsOf(h))
    case HandlerFault(fault) => fault.UseAfterFree? ==> exists j: nat :: SecondCancelIn(t, script, j)
    case TimerFault(fault) =>
      && b.p.Shaped()
      && (fault.UseAfterFree? ==> exists k: nat, j: nat :: k < |b.p.fired| && CancelsTwice(b.p, t', TimersOf(cb), k, j))
    case Hung => !TimerModel.Polite(t', TimersOf(cb), now)
    case _ => false
  }

  lemma PollHasReason(b: Broken, s: Registry, t: TimerModel.Timers, ready: Ready, h: LoopHandlers, now: int,
                      cb: TimeoutActs<PollOp>, stop: PollEnd)
    requires Consistent(s) && TimerModel.WellFormed(t) && BreaksPoll(b, s, t, ready, h, now, cb, stop)
    requires Disciplined(b.turns, ready, SocketsOf(h))
    ensures Reason(b, s, t, ready, h, now, cb, stop)
  {
    var script := TimerScript(b.log, h);
    var t' := TimerModel.RunOps(t, script).state;
    TimerLaws.RunOpsKeeps(t, script);
    match stop
    case NullSink(at, late) => CrashesExactly(b.turns, s, ready, SocketsOf(h), at, late);
    case HandlerFault(fault) =>
      if fault.UseAfterFree? { var j := SecondCancelOf(t, script); }
    case TimerFault(fault) =>
      if fault.UseAfterFree? { PassFaultsExactly(b.p, t', now, TimersOf(cb)); }
    case Hung =>
      if TimerModel.Polite(t', TimersOf(cb), now) { TimerLaws.PolitePass(b.p, t', now, TimersOf(cb)); }
  }

  /** A timer call, or a poll, that does not return has its reason in the client, provided handlers keep to their side
      of the registry in the very poll that breaks off. */
  ghost predicate HasReason(s: Registry, t: TimerModel.Timers, c: Command, cb: TimeoutActs<PollOp>, stop: PollEnd) {
    match c
    case Do(Socket(_)) => false
    case Do(Timer(call)) =>
      stop.HandlerFault? && (stop.fault.UseAfterFree? ==> call.Cancel? && call.id in t.stale)
    case PollNow(result, h, now) =>
      exists b :: ReasonIfDisciplined(b, s, t, ReadyOf(s.fds, result), h, now, cb, stop)
  }

  ghost predicate ReasonIfDisciplined(b: Broken, s: Registry, t: TimerModel.Timers, ready: Ready, h: LoopHandlers,
                                      now: int, cb: TimeoutActs<PollOp>, stop: PollEnd) {
    && BreaksPoll(b, s, t, ready, h, now, cb, stop)
    && (Disciplined(b.turns, ready, SocketsOf(h)) ==> Reason(b, s, t, ready, h, now, cb, stop))
  }

  /** The client has kept its side in every event. */
  ghost predicate Kept(states: seq<Registry>, events: seq<Event>) {
    |events| < |states| && forall j: nat {:trigger events[j]} :: j < |events| ==> Keeps(states[j], events[j])
  }

  /** A run of a client that keeps its side ends, if a call does not return, for a reason in the client's code. */
  lemma RunEndsForReason(states: seq<Registry>, events: seq<Event>, r: TimerRuns.Run, c: Command,
                         cb: TimeoutActs<PollOp>, stop: PollEnd)
    requires IsTrace(states, events) && Kept(states, events) && TimerRuns.IsRun(r, TimersOf(cb))
    requires Breaks(states[|events|], r.Last(), c, cb, stop)
    ensures HasReason(states[|events|], r.Last(), c, cb, stop)
  {
    var s, t := states[|events|], r.Last();
    AlwaysConsistent(states, events, |events|);
    TimerRuns.RunKeeps(r, TimersOf(cb), |r.events|, |r.events|);
    if c.PollNow? {
      var ready := ReadyOf(s.fds, c.result);
      var b :| BreaksPoll(b, s, t, ready, c.h, c.now, cb, stop);
      if Disciplined(b.turns, ready, SocketsOf(c.h)) { PollHasReason(b, s, t, ready, c.h, c.now, cb, stop); }
      assert ReasonIfDisciplined(b, s, t, ready, c.h, c.now, cb, stop);
    }
  }

  // ---------- the implementation takes only such runs ----------

  lemma Extend(states: seq<Registry>, events: seq<Event>, ticks: seq<seq<TimerRuns.Event>>, cmds: seq<Command>,
               cb: TimeoutActs<PollOp>, ev: Event, tick: seq<TimerRuns.Event>, s: Registry)
    requires IsTrace(states, events) && Obeys(states, events, ticks, cmds, cb, |events|) && |events| < |cmds|
    requires Performs(states[|events|], ev, s) && Follows(states[|events|], ev, tick, cmds[|events|], cb)
    ensures IsTrace(states + [s], events + [ev])
    ensures Obeys(states + [s], events + [ev], ticks + [tick], cmds, cb, |events| + 1)
    ensures Flat(ticks + [tick]) == Flat(ticks) + tick
  {
    FlatOn(ticks, tick);
  }

  /** Any client of a new poller, whatever its handlers and timer callbacks do, sees its commands done, one after the
      other, as events of the registry's model and of the timers'.  The first that does not return breaks off as `stop`
      says, and if the client has kept its side for a reason in its code. */
  method Drive(cmds: seq<Command>, cb: TimeoutActs<PollOp>)
    returns (poller: SelectPoller, stop: Option<PollEnd>, ghost states: seq<Registry>, ghost events: seq<Event>,
             ghost ticks: seq<seq<TimerRuns.Event>>, ghost r: TimerRuns.Run)
    ensures IsTrace(states, events) && Obeys(states, events, ticks, cmds, cb, |events|)
    ensures TimerRuns.IsRun(r, TimersOf(cb)) && r.events == Flat(ticks)
    ensures stop.None? ==>
      |events| == |cmds| && states[|events|] == poller.Model() && r.Last() == poller.timers.Model()
    ensures stop.Some? ==>
      |events| < |cmds| && Breaks(states[|events|], r.Last(), cmds[|events|], cb, stop.value)
    ensures stop.Some? && Kept(states, events) ==>
      HasReason(states[|events|], r.Last(), cmds[|events|], cb, stop.value)
  {
    poller, stop, states, events, ticks, r := Follow(cmds, cb);
    if stop.Some? && Kept(states, events) {
      RunEndsForReason(states, events, r, cmds[|events|], cb, stop.value);
    }
  }

  method Follow(cmds: seq<Command>, cb: TimeoutActs<PollOp>)
    returns (poller: SelectPoller, stop: Option<PollEnd>, ghost states: seq<Registry>, ghost events: seq<Event>,
             ghost ticks: seq<seq<TimerRuns.Event>>, ghost r: TimerRuns.Run)
    ensures IsTrace(states, events) && Obeys(states, events, ticks, cmds, cb, |events|)
    ensures TimerRuns.IsRun(r, TimersOf(cb)) && r.events == Flat(ticks)
    ensures stop.None? ==>
      |events| == |cmds| && states[|events|] == poller.Model() && r.Last() == poller.timers.Model()
    ensures stop.Some? ==>
      |events| < |cmds| && Breaks(states[|events|], r.Last(), cmds[|events|], cb, stop.value)
  {
    poller := new SelectPoller();
    states, events, ticks, stop := [poller.Model()], [], [], None;
    r := TimerRuns.Run([poller.timers.Model()], []);
    for k := 0 to |cmds|
      invariant fresh(poller) && fresh(poller.timers) && fresh(poller.timers.pool) && poller.Valid()
      invariant IsTrace(states, events) && Obeys(states, events, ticks, cmds, cb, k) && states[k] == poller.Model()
      invariant TimerRuns.IsRun(r, TimersOf(cb)) && r.Last() == poller.timers.Model() && r.events == Flat(ticks)
    {
      ghost var ev, tick, r';
      stop, ev, tick, r' := Obey(poller, cmds[k], cb, r);
      if stop.Some? {
        return;
      }
      Extend(states, events, ticks, cmds, cb, ev, tick, poller.Model());
      states, events, ticks, r := states + [poller.Model()], events + [ev], ticks + [tick], r';
    }
    stop := None;
  }

  /** One command.  `r` is the timers' run so far. */
  method Obey(poller: SelectPoller, c: Command, cb: TimeoutActs<PollOp>, ghost r: TimerRuns.Run)
    returns (stop: Option<PollEnd>, ghost ev: Event, ghost tick: seq<TimerRuns.Event>, ghost r': TimerRuns.Run)
    requires poller.Valid() && TimerRuns.IsRun(r, TimersOf(cb)) && r.Last() == poller.timers.Model()
    modifies poller, poller.timers, poller.timers.pool`index, poller.timers.pool`freed
    ensures old(poller.timers.pool) <= poller.timers.pool && fresh(poller.timers.pool - old(poller.timers.pool))
    ensures stop.Some? ==> Breaks(old(poller.Model()), r.Last(), c, cb, stop.value)
    ensures stop.None? ==>
      && poller.Valid() && Performs(old(poller.Model()), ev, poller.Model())
      && Follows(old(poller.Model()), ev, tick, c, cb)
      && TimerRuns.IsRun(r', TimersOf(cb)) && r'.Last() == poller.timers.Model() && r'.events == r.events + tick
  {
    match c
    case Do(act) =>
      var fault;
      fault, ev, tick, r' := DoOnce(poller, act, cb, r);
      stop := if fault.Some? then Some(HandlerFault(fault.value)) else None;
    case PollNow(result, h, now) =>
      var end;
      end, ev, tick, r' := PollOnce(poller, result, h, now, cb, r);
      stop := if end.Returned? || end.SelectFailed? then None else Some(end);
  }

  method DoOnce(poller: SelectPoller, act: Act<PollOp>, cb: TimeoutActs<PollOp>, ghost r: TimerRuns.Run)
    returns (fault: Option<TimerModel.Fault>, ghost ev: Event, ghost tick: seq<TimerRuns.Event>,
             ghost r': TimerRuns.Run)
    requires poller.Valid() && TimerRuns.IsRun(r, TimersOf(cb)) && r.Last() == poller.timers.Model()
    modifies poller, poller.timers, poller.timers.pool`index, poller.timers.pool`freed
    ensures old(poller.timers.pool) <= poller.timers.pool && fresh(poller.timers.pool - old(poller.timers.pool))
    ensures fault.Some? ==> Breaks(old(poller.Model()), r.Last(), Do(act), cb, HandlerFault(fault.value))
    ensures fault.None? ==>
      && poller.Valid() && Performs(old(poller.Model()), ev, poller.Model())
      && Follows(old(poller.Model()), ev, tick, Do(act), cb)
      && TimerRuns.IsRun(r', TimersOf(cb)) && r'.Last() == poller.timers.Model() && r'.events == r.events + tick
  {
    fault := poller.Perform(act);
    ev, tick, r' := if act.Socket? then Did(act.op) else Nothing, [], r;
    if fault.None? && act.Timer? {
      TimerRuns.LongerIsRun(r, TimersOf(cb), TimerRuns.Did(act.call), poller.timers.Model());
      tick, r' := [TimerRuns.Did(act.call)], TimerRuns.Longer(r, TimerRuns.Did(act.call), poller.timers.Model());
    }
  }

  method PollOnce(poller: SelectPoller, result: SelectResult, h: LoopHandlers, now: int, cb: TimeoutActs<PollOp>,
                  ghost r: TimerRuns.Run)
    returns (end: PollEnd, ghost ev: Event, ghost tick: seq<TimerRuns.Event>, ghost r': TimerRuns.Run)
    requires poller.Valid() && TimerRuns.IsRun(r, TimersOf(cb)) && r.Last() == poller.timers.Model()
    modifies poller, poller.timers, poller.timers.pool`index, poller.timers.pool`freed
    ensures old(poller.timers.pool) <= poller.timers.pool && fresh(poller.timers.pool - old(poller.timers.pool))
    ensures !end.Returned? && !end.SelectFailed? ==>
      Breaks(old(poller.Model()), r.Last(), PollNow(result, h, now), cb, end)
    ensures end.Returned? || end.SelectFailed? ==>
      && poller.Valid() && Performs(old(poller.Model()), ev, poller.Model())
      && Follows(old(poller.Model()), ev, tick, PollNow(result, h, now), cb)
      && TimerRuns.IsRun(r', TimersOf(cb)) && r'.Last() == poller.timers.Model() && r'.events == r.events + tick
  {
    ghost var turns, log, p;
    ghost var ready := ReadyOf(poller.fds, result);
    end, turns, log, p := poller.Poll(result, h, now, cb);
    ev, tick, r' := Nothing, [], r;
    if !end.Returned? && !end.SelectFailed? {
      assert BreaksPoll(Broken(turns, log, p), old(poller.Model()), r.Last(), ready, h, now, cb, end);
    }
    if end.Returned? {
      tick, r' := PassedAfter(r, TimerScript(log, h), now, p, TimersOf(cb));
      ev := Polled(turns, ready, SocketsOf(h), SocketCalls(TimerModel.CalledBack(p, |p.fired|), cb));
    }
  }

  /** The timers' run with the calls of handlers and then an expiry pass. */
  lemma PassedAfter(r: TimerRuns.Run, ops: seq<TimerModel.Op>, now: int, p: TimerModel.Pass, cb: TimerModel.Callbacks)
    returns (tick: seq<TimerRuns.Event>, r': TimerRuns.Run)
    requires TimerRuns.IsRun(r, cb) && TimerModel.RunOps(r.Last(), ops).fault.None?
    requires TimerModel.IsPass(p, TimerModel.RunOps(r.Last(), ops).state, now, cb) && p.end.Finished?
    ensures EndsWithPass(tick, now) && tick[..|tick| - 1] == TimerRuns.Dids(ops) && tick[|tick| - 1].pass == p
    ensures TimerRuns.IsRun(r', cb) && r'.Last() == p.Last() && r'.events == r.events + tick
  {
    TimerRuns.WithOpsIsRun(r, cb, ops);
    var r1, last := TimerRuns.WithOps(r, ops), TimerRuns.Passed(now, p);
    TimerRuns.LongerIsRun(r1, cb, last, p.Last());
    tick, r' := TimerRuns.Dids(ops) + [last], TimerRuns.Longer(r1, last, p.Last());
    assert tick[..|tick| - 1] == TimerRuns.Dids(ops);
    assert r.events + TimerRuns.Dids(ops) + [last] == r.events + tick;
  }

  // ---------- what a poll answers ----------

  /** The calls of a poll that returns are made for the sockets that select() reported, each for what was reported of
      it, and none of those is passed over that has not been retired by then. */
  lemma PollAnswers(s: Registry, ev: Event, ticks: seq<TimerRuns.Event>, c: Command, cb: TimeoutActs<PollOp>,
                    s': Registry)
    requires Sound(s) && c.PollNow? && c.result.Selected? && Follows(s, ev, ticks, c, cb) && Performs(s, ev, s')
    ensures ev.Polled? && forall call <- Log(ev.turns, ev.ready) :: Reported(c.result.ready, call)
    ensures ReadyAreServed(s.fds, ev.turns, Log(ev.turns, ev.ready), c.result.ready)
  {
    CallsAreReported(ev.turns, ev.ready, Log(ev.turns, ev.ready));
    ReportedAreCalled(ev.turns, s, ev.ready, ev.h);
  }

  /** Turn k of the poll's expiry pass fires a timer with a sink, whose callback makes this call. */
  ghost predicate CallsBack(p: TimerModel.Pass, k: nat, cb: TimeoutActs<PollOp>, op: PollOp)
    requires p.Shaped() && k < |p.fired|
  {
    TimerLaws.FiresWithSink(p, k, p.fired[k]) && Socket(op) in cb(p.fired[k])
  }

  /** The registry calls a poll makes for its timers are those of the callbacks of the timers it fires. */
  lemma TimersAreAnswered(s: Registry, ev: Event, ticks: seq<TimerRuns.Event>, c: Command, cb: TimeoutActs<PollOp>,
                          op: PollOp)
    requires c.PollNow? && Follows(s, ev, ticks, c, cb) && ev.Polled?
    ensures EndsWithPass(ticks, c.now)
    ensures var p := ticks[|ticks| - 1].pass;
      op in ev.calls <==> exists k: nat :: k < |p.fired| && CallsBack(p, k, cb, op)
  {
    var p := ticks[|ticks| - 1].pass;
    var called := TimerModel.CalledBack(p, |p.fired|);
    SocketCallIn(called, cb, op);
    if op in ev.calls {
      var id :| id in called && Socket(op) in cb(id);
      TimerLaws.CalledBackMembers(p, |p.fired|, id);
      var k: nat :| k < |p.fired| && TimerLaws.FiresWithSink(p, k, id);
      assert CallsBack(p, k, cb, op);
    }
    if k: nat :| k < |p.fired| && CallsBack(p, k, cb, op) {
      TimerLaws.CalledBackMembers(p, |p.fired|, p.fired[k]);
    }
  }

  // ---------- a poller that starves its timers ----------

  /** select() reports an error exactly if all its sets are empty. */
  ghost predicate FailsOnlyForEmptySets(s: Registry, result: SelectResult) {
    result == SocketError <==> s.rd == {} && s.wr == {} && s.ex == {}
  }

  /** The vector holds entries, and all of them are retired. */
  ghost predicate Starved(s: Registry) {
    s.fds != [] && LiveFds(s) == {}
  }

  /** A poll that returns has run the expiry pass exactly if the vector was empty or held a registered socket. */
  lemma PassIsReachedExactly(s: Registry, ev: Event, ticks: seq<TimerRuns.Event>, c: Command, cb: TimeoutActs<PollOp>)
    requires Consistent(s) && c.PollNow? && FailsOnlyForEmptySets(s, c.result) && Follows(s, ev, ticks, c, cb)
    ensures EndsWithPass(ticks, c.now) <==> !Starved(s)
  {
  }

  /** The command registers no socket, and select() fails for empty sets. */
  ghost predicate StaysShut(s: Registry, c: Command) {
    && !(c.Do? && c.act.Socket? && c.act.op.AddFd?)
    && (c.PollNow? ==> FailsOnlyForEmptySets(s, c.result))
  }

  lemma StarvedStep(states: seq<Registry>, events: seq<Event>, ticks: seq<seq<TimerRuns.Event>>,
                    cmds: seq<Command>, cb: TimeoutActs<PollOp>, k: nat)
    requires IsTrace(states, events) && Obeys(states, events, ticks, cmds, cb, |events|) && Kept(states, events)
    requires k < |events| && Starved(states[k]) && StaysShut(states[k], cmds[k])
    ensures Starved(states[k + 1]) && (cmds[k].PollNow? ==> ticks[k] == [])
  {
    var s, ev, c := states[k], events[k], cmds[k];
    AlwaysConsistent(states, events, k);
    assert Keeps(s, ev) && Performs(s, ev, states[k + 1]) && Follows(s, ev, ticks[k], c, cb);
    if c.Do? && c.act.Socket? {
      if c.act.op.RemoveFd? { FdsAfterRemove(s, c.act.op.fd); } else { FdsStay(s, states[k + 1]); }
    }
  }

  /** Once all sockets have been removed between two polls, no poll runs an expiry pass or drops the retired entries,
      and no timer fires, until a socket is registered from outside. */
  lemma {:induction false} Starves(states: seq<Registry>, events: seq<Event>, ticks: seq<seq<TimerRuns.Event>>,
                                   cmds: seq<Command>, cb: TimeoutActs<PollOp>, k: nat, n: nat)
    requires IsTrace(states, events) && Obeys(states, events, ticks, cmds, cb, |events|) && Kept(states, events)
    requires k <= n <= |events| && Starved(states[k])
    requires forall j: nat {:trigger StaysShut(states[j], cmds[j])} :: k <= j < n ==> StaysShut(states[j], cmds[j])
    ensures Starved(states[n])
    ensures forall j: nat :: k <= j < n && cmds[j].PollNow? ==> ticks[j] == []
    decreases n
  {
    if k < n {
      Starves(states, events, ticks, cmds, cb, k, n - 1);
      assert StaysShut(states[n - 1], cmds[n - 1]);
      StarvedStep(states, events, ticks, cmds, cb, n - 1);
    }
  }

  /** Registering one socket and removing it again is enough. */
  lemma StarvedAfterRemove(fd: int, sink: nat)
    requires fd != INVALID_SOCKET
    ensures var s0 := Registry([], false, {}, {}, {});
      var s1 := Step(s0, AddFd(fd, sink));
      Allowed(s0, AddFd(fd, sink)) && Allowed(s1, RemoveFd(fd)) && Starved(Step(s1, RemoveFd(fd)))
  {
    var s1 := Step(Registry([], false, {}, {}, {}), AddFd(fd, sink));
    assert s1.fds == [FdEntry(fd, Some(sink))];
    assert Step(s1, RemoveFd(fd)).fds == [DEAD];
  }
}
