/** The WSAEventSelect() reactor, and the timers it inherits. */
module EventReactor {
  import opened Compaction
  import opened EventModel
  import opened Options
  import opened PollEvents
  import opened TimerLaws
  import TimerModel
  import opened TimerScheduler
  import opened Winsock

  datatype WaitResult = WaitFailed | TimedOut | Signalled(index: nat)

  /** What WSAEnumNetworkEvents reports for the signalled socket. */
  datatype NetworkEvents = EnumFailed | Occurred(events: set<Flag>, errors: Flag -> int)

  datatype PollEnd =
    | Idle                                   // nothing was signalled; the retired entries are dropped
    | NotFound                               // a handle was signalled that leads to no entry, or to no events
    | Dispatched(at: nat)                    // the handlers of the entry at this position were called
    | HandlerFault(fault: TimerModel.Fault)  // a socket handler's timer call left defined behaviour
    | TimerFault(fault: TimerModel.Fault)    // a timer callback's did
    | Hung                                   // the expiry pass runs for ever

  class AsyncEventPoller {
    var fds: seq<EvEntry>
    var events: seq<int>
    var hasRetired: bool
    var lastErr: int
    const timers: TimerSched  // the base class

    ghost function Model(): EvRegistry
      reads this
    {
      EvRegistry(fds, hasRetired)
    }

    ghost predicate Valid()
      reads this, timers, timers.pool
    {
      timers.Valid() && timers.firing == null
    }

    constructor ()
      ensures Valid() && fresh(timers) && fresh(timers.pool)
      ensures Model() == EvRegistry([], false) && timers.Model() == TimerModel.Init()
    {
      fds, events, hasRetired, lastErr := [], [], false, 0;
      timers := new TimerSched();
    }

    method FindEntry(fd: int) returns (i: nat)
      ensures i == Find(fds, fd)
    {
      i := 0;
      while i < |fds|
        invariant i <= |fds| && forall j: nat :: j < i ==> fds[j].fd != fd
      {
        if fds[i].fd == fd {
          return;
        }
        i := i + 1;
      }
    }

    method FindEntryByEvent(hEvent: int) returns (i: nat)
      ensures i == FindEvent(fds, hEvent)
    {
      i := 0;
      while i < |fds|
        invariant i <= |fds| && forall j: nat :: j < i ==> fds[j].hEvent != hEvent
      {
        if fds[i].hEvent == hEvent {
          return;
        }
        i := i + 1;
      }
    }

    /** `hEvent` is what WSACreateEvent returns. */
    method AddFd(fd: int, sink: nat, hEvent: int) returns (rc: int)
      modifies this`fds
      ensures Model() == Step(old(Model()), EvOp.AddFd(fd, sink, hEvent))
      ensures rc == if |old(fds)| >= MAX_EVENTS || hEvent == INVALID_EVENT then -1 else 0
      ensures fds == old(fds) + if rc == 0 then [EvEntry(fd, hEvent, {}, {}, sink)] else []
    {
      if |fds| >= MAX_EVENTS {
        return -1;
      }
      if hEvent == INVALID_EVENT {
        return -1;
      }
      fds := fds + [EvEntry(fd, hEvent, {}, {}, sink)];
      return 0;
    }

    method RemoveFd(fd: int)
      modifies this`fds, this`hasRetired
      ensures Model() == Step(old(Model()), EvOp.RemoveFd(fd)) && hasRetired
    {
      var i := FindEntry(fd);
      if i < |fds| {
        fds := fds[i := fds[i].(hEvent := INVALID_EVENT)];
        fds := fds[i := fds[i].(fd := INVALID_SOCKET)];
      }
      hasRetired := true;
    }

    /** SetPollIn, ResetPollIn, SetPollOut and ResetPollOut, which differ in the bits only. */
    method ChangeInterest(fd: int, call: Interest)
      modifies this`fds
      ensures Model() == Step(old(Model()), EvOp.Poll(fd, call))
    {
      var i := FindEntry(fd);
      if i < |fds| {
        fds := fds[i := Interested(fds[i], call)];
      }
    }

    /** Any registry call; user code here ignores AddFd's return value. */
    method Apply(op: EvOp)
      modifies this`fds, this`hasRetired
      ensures Model() == Step(old(Model()), op)
    {
      match op
      case AddFd(fd, sink, hEvent) => var _ := AddFd(fd, sink, hEvent);
      case RemoveFd(fd) => RemoveFd(fd);
      case Poll(fd, call) => ChangeInterest(fd, call);
    }

    method ApplyAll(ops: seq<EvOp>)
      modifies this`fds, this`hasRetired
      ensures Model() == RunOps(old(Model()), ops)
      decreases |ops|
    {
      if ops != [] {
        Apply(ops[0]);
        ApplyAll(ops[1..]);
      }
    }

    /** One call of a handler, on the registry or on the timers. */
    method Perform(act: Act<EvOp>) returns (fault: Option<TimerModel.Fault>)
      requires Valid()
      modifies this`fds, this`hasRetired, timers, timers.pool`index, timers.pool`freed
      ensures Valid() && fresh(timers.pool - old(timers.pool)) && old(timers.pool) <= timers.pool
      ensures Follows(old(fds), fds)
      ensures match act
        case Socket(op) => fault.None? && Model() == Step(old(Model()), op) && timers.Model() == old(timers.Model())
        case Timer(call) =>
          && TimerModel.Exec(timers.Model(), fault) == TimerModel.Step(old(timers.Model()), call)
          && Model() == old(Model())
    {
      match act
      case Socket(op) =>
        RunOpsFollows(Model(), [op]);
        assert [op][1..] == [];
        Apply(op);
        return None;
      case Timer(call) =>
        fault := timers.Apply(call);
    }

    /** The user code of one handler. */
    method Handle(acts: seq<Act<EvOp>>) returns (fault: Option<TimerModel.Fault>)
      requires Valid()
      modifies this`fds, this`hasRetired, timers, timers.pool`index, timers.pool`freed
      ensures Valid() && fresh(timers.pool - old(timers.pool)) && old(timers.pool) <= timers.pool
      ensures Follows(old(fds), fds)
      ensures TimerModel.Exec(timers.Model(), fault) == TimerModel.RunOps(old(timers.Model()), TimerCalls(acts))
      ensures fault.None? ==> Model() == RunOps(old(Model()), Sockets(acts))
      decreases |acts|
    {
      fault := None;
      if acts != [] {
        FirstAct(acts);
        fault := Perform(acts[0]);
        if fault.None? {
          ghost var between := fds;
          fault := Handle(acts[1..]);
          FollowsTrans(old(fds), between, fds);
        }
      }
    }

    /** Rebuilds the array of handles to wait on. */
    method CollectEvents()
      modifies this`events
      ensures events == Snapshot(fds)
    {
      events := [];
      var i := 0;
      while i < |fds|
        invariant 0 <= i <= |fds| && events == Snapshot(fds[..i])
      {
        assert fds[..i + 1][..i] == fds[..i];
        if fds[i].fd != INVALID_SOCKET && fds[i].hEvent != INVALID_EVENT {
          events := events + [fds[i].hEvent];
        }
        i := i + 1;
      }
      assert fds[..|fds|] == fds;
    }

    /** Drops the retired entries. */
    method RemoveRetired()
      modifies this`fds, this`hasRetired
      ensures Model() == Compacted(old(Model()))
    {
      if !hasRetired {
        return;
      }
      fds := RemoveIf(fds, InUse);
      hasRetired := false;
    }

    /** Calls the handler of entry i for one event bit, with the test of the mask as it is written.  The bits `done`
        were looked at before, in a dispatch that began as `d0` and with the timers `t0`. */
    method HandleEvent(i: nat, occurred: set<Flag>, bit: Flag, callback: Callback, errors: Flag -> int, h: LoopHandlers,
                       ghost t0: TimerModel.Timers, ghost d0: Dispatch, ghost done: seq<Flag>)
      returns (fault: Option<TimerModel.Fault>)
      requires Valid() && i < |fds| && callback == CallbackFor(bit)
      requires var d := FiredAll(d0, i, occurred, done, errors, SocketsOf(h), AsWritten);
        && Model() == d.s && lastErr == d.err
        && TimerModel.Exec(timers.Model(), None) == TimerModel.RunOps(t0, TimerScript(d.on, h))
      modifies this`fds, this`hasRetired, this`lastErr, timers, timers.pool`index, timers.pool`freed
      ensures Valid() && fresh(timers.pool - old(timers.pool)) && old(timers.pool) <= timers.pool
      ensures |old(fds)| <= |fds|
      ensures var d := FiredAll(d0, i, occurred, done + [bit], errors, SocketsOf(h), AsWritten);
        && lastErr == d.err && (fault.None? ==> Model() == d.s)
        && TimerModel.Exec(timers.Model(), fault) == TimerModel.RunOps(t0, TimerScript(d.on, h))
    {
      fault := None;
      OneMoreBit(d0, i, occurred, done, bit, errors, SocketsOf(h), AsWritten);
      ghost var on := FiredAll(d0, i, occurred, done, errors, SocketsOf(h), AsWritten).on;
      if bit in occurred {
        lastErr := errors(bit);
        if fds[i].mask + {MASK_READABLE} != {} {
          ghost var call := EvCall(bit, callback, fds[i]);
          assert (on + [call])[..|on|] == on;
          RunTimersOn(t0, TimerScript(on, h), TimerCalls(h(bit)));
          fault := Handle(h(bit));
        }
      }
    }

    /** The three events of the readable side. */
    method HandleInput(i: nat, occurred: set<Flag>, errors: Flag -> int, h: LoopHandlers)
      returns (fault: Option<TimerModel.Fault>, ghost done: seq<Flag>)
      requires Valid() && i < |fds|
      modifies this`fds, this`hasRetired, this`lastErr, timers, timers.pool`index, timers.pool`freed
      ensures Valid() && fresh(timers.pool - old(timers.pool)) && old(timers.pool) <= timers.pool
      ensures done <= Order() && (fault.None? ==> |fds| > i && done == Order()[..3])
      ensures var d0 := Dispatch(old(Model()), old(lastErr), []);
        var d := FiredAll(d0, i, occurred, done, errors, SocketsOf(h), AsWritten);
        && lastErr == d.err && (fault.None? ==> Model() == d.s)
        && TimerModel.Exec(timers.Model(), fault) == TimerModel.RunOps(old(timers.Model()), TimerScript(d.on, h))
    {
      ghost var d0, t0 := Dispatch(Model(), lastErr, []), timers.Model();
      done := [];
      fault := HandleEvent(i, occurred, FD_READ, OnReadable, errors, h, t0, d0, done);
      done := done + [FD_READ];
      if fault.Some? {
        return;
      }
      fault := HandleEvent(i, occurred, FD_CLOSE, OnReadable, errors, h, t0, d0, done);
      done := done + [FD_CLOSE];
      if fault.Some? {
        return;
      }
      fault := HandleEvent(i, occurred, FD_ACCEPT, OnReadable, errors, h, t0, d0, done);
      done := done + [FD_ACCEPT];
    }

    /** Calls the handlers of entry i for the events that occurred.  `done` are the bits looked at until a fault, if
        any, stopped it. */
    method HandleEvents(i: nat, occurred: set<Flag>, errors: Flag -> int, h: LoopHandlers)
      returns (fault: Option<TimerModel.Fault>, ghost done: seq<Flag>)
      requires Valid() && i < |fds|
      modifies this`fds, this`hasRetired, this`lastErr, timers, timers.pool`index, timers.pool`freed
      ensures Valid() && fresh(timers.pool - old(timers.pool)) && old(timers.pool) <= timers.pool
      ensures done <= Order() && (fault.None? ==> done == Order())
      ensures var d0 := Dispatch(old(Model()), old(lastErr), []);
        var d := FiredAll(d0, i, occurred, done, errors, SocketsOf(h), AsWritten);
        && lastErr == d.err && (fault.None? ==> Model() == d.s)
        && TimerModel.Exec(timers.Model(), fault) == TimerModel.RunOps(old(timers.Model()), TimerScript(d.on, h))
    {
      ghost var d0, t0 := Dispatch(Model(), lastErr, []), timers.Model();
      fault, done := HandleInput(i, occurred, errors, h);
      if fault.Some? {
        return;
      }
      fault := HandleEvent(i, occurred, FD_WRITE, OnWritable, errors, h, t0, d0, done);
      done := done + [FD_WRITE];
      if fault.Some? {
        return;
      }
      fault := HandleEvent(i, occurred, FD_CONNECT, OnWritable, errors, h, t0, d0, done);
      done := done + [FD_CONNECT];
    }

    /** The expiry pass.  Timers and registry share no state, so the registry calls of the callbacks that ran are
        made after the pass, in the order of the callbacks. */
    method ExecuteTimers(now: int, cb: TimeoutActs<EvOp>) returns (end: TimerModel.PassEnd, ghost p: TimerModel.Pass)
      requires Valid()
      modifies this`fds, this`hasRetired, timers, timers.pool`index, timers.pool`freed
      ensures end.Finished? ==> Valid()
      ensures fresh(timers.pool - old(timers.pool)) && old(timers.pool) <= timers.pool
      ensures TimerModel.IsPass(p, old(timers.Model()), now, TimersOf(cb)) && p.end == end && p.Last() == timers.Model()
      ensures end.Finished? ==> Model() == RunOps(old(Model()), SocketCalls(TimerModel.CalledBack(p, |p.fired|), cb))
    {
      var called;
      end, called, p := timers.UpdateTimer(now, TimersOf(cb));
      if end.Finished? {
        MakeCalls(called, cb);
      }
    }

    method MakeCalls(called: seq<int>, cb: TimeoutActs<EvOp>)
      modifies this`fds, this`hasRetired
      ensures Model() == RunOps(old(Model()), SocketCalls(called, cb))
    {
      ghost var s := Model();
      for k := 0 to |called|
        invariant Model() == RunOps(s, SocketCalls(called[..k], cb))
      {
        assert called[..k + 1][..k] == called[..k];
        RunOpsOn(s, SocketCalls(called[..k], cb), Sockets(cb(called[k])));
        ApplyAll(Sockets(cb(called[k])));
      }
      assert called[..|called|] == called;
    }

    /** Dispatches to the entry found under the signalled handle, if any. */
    method DispatchTo(hEvent: int, net: NetworkEvents, h: LoopHandlers) returns (end: PollEnd, ghost done: seq<Flag>)
      requires Valid()
      modifies this`fds, this`hasRetired, this`lastErr, timers, timers.pool`index, timers.pool`freed
      ensures Valid() && fresh(timers.pool - old(timers.pool)) && old(timers.pool) <= timers.pool
      ensures var i := FindEvent(old(fds), hEvent);
        if i < |old(fds)| && net.Occurred? then
          var d0 := Dispatch(old(Model()), old(lastErr), []);
          var d := FiredAll(d0, i, net.events, done, net.errors, SocketsOf(h), AsWritten);
          && done <= Order() && lastErr == d.err
          && TimerModel.Exec(timers.Model(), if end.HandlerFault? then Some(end.fault) else None) ==
               TimerModel.RunOps(old(timers.Model()), TimerScript(d.on, h))
          && (!end.HandlerFault? ==> end == Dispatched(i) && done == Order() && Model() == d.s)
        else end == NotFound && Model() == old(Model()) && timers.Model() == old(timers.Model())
    {
      done := [];
      var i := FindEntryByEvent(hEvent);
      if i >= |fds| {
        return NotFound, [];
      }
      if net.EnumFailed? {
        return NotFound, [];
      }
      var fault;
      fault, done := HandleEvents(i, net.events, net.errors, h);
      end := if fault.Some? then HandlerFault(fault.value) else Dispatched(i);
    }

    /** One poll.  `wait` is what the wait on the collected handles reports, `cb` what timer callbacks do, `now` the
        clock reading of the expiry pass `p`, `net` what the signalled socket reports and `h` what its handlers do.
        `done` are the event bits the dispatch looked at, if there was one. */
    method Poll(wait: WaitResult, now: int, cb: TimeoutActs<EvOp>, net: NetworkEvents, h: LoopHandlers)
      returns (rc: int, end: PollEnd, ghost p: TimerModel.Pass, ghost done: seq<Flag>)
      requires Valid() && (wait.Signalled? ==> wait.index < |Snapshot(fds)|)
      modifies this, timers, timers.pool`index, timers.pool`freed
      ensures !end.TimerFault? && !end.Hung? ==> Valid()
      ensures fresh(timers.pool - old(timers.pool)) && old(timers.pool) <= timers.pool
      ensures events == Snapshot(old(fds)) && rc == if end.Dispatched? then 1 else 0
      ensures TimerModel.IsPass(p, old(timers.Model()), now, TimersOf(cb))
      ensures match p.end case Spins => end.Hung? case Faulted(f) => end == TimerFault(f) case Finished => true
      ensures p.end.Finished? ==>
        var s := RunOps(old(Model()), SocketCalls(TimerModel.CalledBack(p, |p.fired|), cb));
        if wait.Signalled? then
          var i := FindEvent(s.fds, Snapshot(old(fds))[wait.index]);
          if i < |s.fds| && net.Occurred? then
            var d := FiredAll(Dispatch(s, old(lastErr), []), i, net.events, done, net.errors, SocketsOf(h), AsWritten);
            && done <= Order() && lastErr == d.err
            && TimerModel.Exec(timers.Model(), if end.HandlerFault? then Some(end.fault) else None) ==
                 TimerModel.RunOps(p.Last(), TimerScript(d.on, h))
            && (!end.HandlerFault? ==> end == Dispatched(i) && done == Order() && Model() == d.s)
          else end == NotFound && Model() == s && timers.Model() == p.Last()
        else end == Idle && Model() == Compacted(s) && timers.Model() == p.Last()
    {
      rc, done := 0, [];
      CollectEvents();
      var nready := 0;
      if events != [] {
        nready := if wait.Signalled? then wait.index else -1;
      }
      var pass;
      pass, p := ExecuteTimers(now, cb);
      match pass {
        case Spins => return 0, Hung, p, [];
        case Faulted(fault) => return 0, TimerFault(fault), p, [];
        case Finished =>
      }
      if nready >= 0 && events != [] {
        end, done := DispatchTo(events[nready], net, h);
        return if end.Dispatched? then 1 else 0, end, p, done;
      }
      RemoveRetired();
      return 0, Idle, p, [];
    }
  }
}
