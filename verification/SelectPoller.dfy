/** The select() reactor: a vector of registrations with lazy retirement and three fd_sets, and the timers it
    inherits. */
module SelectReactor {
  import opened Compaction
  import opened Options
  import opened PollEvents
  import opened SelectLaws
  import opened SelectModel
  import opened TimerLaws
  import TimerModel
  import opened TimerScheduler
  import opened Winsock

  datatype PollEnd =
    | Returned(count: nat)                        // Poll came to its end
    | SelectFailed                                // select() reported an error
    | NullSink(at: nat, stage: Stage)             // a method was called on the null sink of a retired entry
    | HandlerFault(fault: TimerModel.Fault)       // a socket handler's timer call left defined behaviour
    | TimerFault(fault: TimerModel.Fault)         // a timer callback's did
    | Hung                                        // the expiry pass runs for ever

  datatype SelectResult = SocketError | Selected(ready: Ready)

  /** With no registrations select() is not called and nothing is ready. */
  function ReadyOf(fds: seq<FdEntry>, result: SelectResult): Ready {
    if fds != [] && result.Selected? then result.ready else Ready({}, {}, {})
  }

  class SelectPoller {
    var fds: seq<FdEntry>
    var hasRetired: bool
    var readfds: set<int>
    var writefds: set<int>
    var exceptfds: set<int>
    const timers: TimerSched  // the base class

    ghost function Model(): Registry
      reads this
    {
      Registry(fds, hasRetired, readfds, writefds, exceptfds)
    }

    ghost predicate Valid()
      reads this, timers, timers.pool
    {
      Sound(Model()) && timers.Valid() && timers.firing == null
    }

    constructor ()
      ensures Valid() && fresh(timers) && fresh(timers.pool)
      ensures Model() == Registry([], false, {}, {}, {}) && timers.Model() == TimerModel.Init()
    {
      fds, hasRetired, readfds, writefds, exceptfds := [], false, {}, {}, {};
      timers := new TimerSched();
    }

    /** Marks the first entry of `fd` dead. */
    method MarkRetired(fd: int)
      modifies this`fds, this`hasRetired
      ensures fds == Retire(old(fds), fd) && hasRetired
    {
      ghost var fds0 := fds;
      var i := 0;
      while i < |fds|
        invariant i <= |fds| && fds == fds0
        invariant forall j: nat :: j < i ==> fds[j].fd != fd
      {
        if fds[i].fd == fd {
          fds := fds[i := DEAD];
          break;
        }
        i := i + 1;
      }
      hasRetired := true;
      assert |fds| == |Retire(fds0, fd)| && forall j: nat :: j < |fds| ==> fds[j] == Retire(fds0, fd)[j];
    }

    method AddFd(fd: int, sink: nat) returns (rc: int)
      modifies this`fds, this`exceptfds
      ensures Model() == Step(old(Model()), PollOp.AddFd(fd, sink))
      ensures rc == if |old(fds)| >= FD_SETSIZE then -1 else 0
    {
      if |fds| >= FD_SETSIZE {
        return -1;
      }
      fds := fds + [FdEntry(fd, Some(sink))];
      exceptfds := FdSet(exceptfds, fd);
      return 0;
    }

    method RemoveFd(fd: int)
      modifies this
      ensures Model() == Step(old(Model()), PollOp.RemoveFd(fd))
    {
      MarkRetired(fd);
      readfds := readfds - {fd};
      writefds := writefds - {fd};
      exceptfds := exceptfds - {fd};
    }

    /** Any registration call a handler makes; handlers here ignore AddFd's return value. */
    method Apply(op: PollOp)
      requires Sound(Model())
      modifies this
      ensures Sound(Model()) && Model() == Step(old(Model()), op)
    {
      RunOpsOnlyRetires(Model(), [op]);
      assert [op][1..] == [];
      match op
      case AddFd(fd, sink) => var _ := AddFd(fd, sink);
      case RemoveFd(fd) => RemoveFd(fd);
      case SetPollIn(fd) => readfds := FdSet(readfds, fd);
      case ResetPollIn(fd) => readfds := readfds - {fd};
      case SetPollOut(fd) => writefds := FdSet(writefds, fd);
      case ResetPollOut(fd) => writefds := writefds - {fd};
    }

    /** One call of a handler, on the registry or on the timers. */
    method Perform(act: Act<PollOp>) returns (fault: Option<TimerModel.Fault>)
      requires Valid()
      modifies this, timers, timers.pool`index, timers.pool`freed
      ensures Valid() && fresh(timers.pool - old(timers.pool)) && old(timers.pool) <= timers.pool
      ensures OnlyRetires(old(fds), fds)
      ensures match act
        case Socket(op) => fault.None? && Model() == Step(old(Model()), op) && timers.Model() == old(timers.Model())
        case Timer(call) =>
          && TimerModel.Exec(timers.Model(), fault) == TimerModel.Step(old(timers.Model()), call)
          && Model() == old(Model())
    {
      match act
      case Socket(op) =>
        RunOpsOnlyRetires(Model(), [op]);
        assert [op][1..] == [];
        Apply(op);
        return None;
      case Timer(call) =>
        fault := timers.Apply(call);
    }

    /** The user code of one handler. */
    method Handle(acts: seq<Act<PollOp>>) returns (fault: Option<TimerModel.Fault>)
      requires Valid()
      modifies this, timers, timers.pool`index, timers.pool`freed
      ensures Valid() && fresh(timers.pool - old(timers.pool)) && old(timers.pool) <= timers.pool
      ensures OnlyRetires(old(fds), fds)
      ensures TimerModel.Exec(timers.Model(), fault) == TimerModel.RunOps(old(timers.Model()), TimerCalls(acts))
      ensures fault.None? ==> Model() == RunOps(old(Model()), Sockets(acts))
      decreases |acts|
    {
      fault := None;
      if acts != [] {
        FirstAct(acts);
        fault := Perform(acts[0]);
        if fault.None? {
          ghost var between := fds;
          fault := Handle(acts[1..]);
          OnlyRetiresTrans(old(fds), between, fds);
        }
      }
    }

    /** Drops the retired entries. */
    method RemoveRetired()
      requires Sound(Model())
      modifies this`fds, this`hasRetired
      ensures Sound(Model()) && Model() == Compacted(old(Model()))
    {
      if !hasRetired {
        return;
      }
      ghost var fds0 := fds;
      fds := RemoveIf(fds, InUse);
      hasRetired := false;
      LiveOfSound(old(Model()));
    }

    /** One stage of the dispatch loop, as written: it tests the socket read before the first stage.  `log` are the
        calls made since the timers were in state t0, each with the entry it was made on. */
    method Dispatch(i: nat, stage: Stage, callback: Callback, fd: int, ready: Ready, h: LoopHandlers,
                    ghost t0: TimerModel.Timers, ghost log: seq<Call>)
      returns (called: bool, crash: bool, fault: Option<TimerModel.Fault>, ghost log': seq<Call>)
      requires Valid() && i < |fds| && fd != INVALID_SOCKET && (fds[i].fd == fd || fds[i] == DEAD)
      requires TimerModel.Exec(timers.Model(), None) == TimerModel.RunOps(t0, TimerScript(log, h))
      modifies this, timers, timers.pool`index, timers.pool`freed
      ensures Valid() && fresh(timers.pool - old(timers.pool)) && old(timers.pool) <= timers.pool
      ensures OnlyRetires(old(fds), fds)
      ensures called <==> Called(old(Model()), i, stage, ready)
      ensures crash <==> fd in ready.At(stage) && !Live(old(Model()), i)
      ensures log' == log + if called then [Call(i, stage, callback, old(fds)[i])] else []
      ensures TimerModel.Exec(timers.Model(), fault) == TimerModel.RunOps(t0, TimerScript(log', h))
      ensures fault.None? ==> Model() == After(old(Model()), i, stage, ready, SocketsOf(h))
    {
      called, crash, fault, log' := false, false, None, log;
      if fd in ready.At(stage) {
        var entry := fds[i];
        if entry.sink.None? {
          return false, true, None, log;
        }
        log' := log + [Call(i, stage, callback, entry)];
        assert log'[..|log|] == log;
        RunTimersOn(t0, TimerScript(log, h), TimerCalls(h(i, stage)));
        fault := Handle(h(i, stage));
        called := true;
      }
    }

    /** The second and third stage of a turn `t`. */
    method DispatchLater(i: nat, fd: int, ready: Ready, h: LoopHandlers, ghost t: Turn,
                         ghost t0: TimerModel.Timers, ghost log: seq<Call>)
      returns (end: PollEnd, ghost log': seq<Call>)
      requires Valid() && i < |fds| && fd != INVALID_SOCKET && (fds[i].fd == fd || fds[i] == DEAD)
      requires TimerModel.Exec(timers.Model(), None) == TimerModel.RunOps(t0, TimerScript(log, h))
      requires Model() == t.wr && t.rd == After(t.wr, i, Write, ready, SocketsOf(h))
      requires t.end == After(t.rd, i, Read, ready, SocketsOf(h))
      modifies this, timers, timers.pool`index, timers.pool`freed
      ensures Valid() && fresh(timers.pool - old(timers.pool)) && old(timers.pool) <= timers.pool
      ensures OnlyRetires(old(fds), fds) && (end.Returned? || end.NullSink? || end.HandlerFault?)
      ensures TimerModel.Exec(timers.Model(), if end.HandlerFault? then Some(end.fault) else None) ==
              TimerModel.RunOps(t0, TimerScript(log', h))
      ensures var w, r := CallAt(t, i, Write, ready), CallAt(t, i, Read, ready);
        && (end.HandlerFault? ==> log' == log + w || log' == log + w + r)
        && (!end.HandlerFault? ==> log' == log + w + r)
        && (end.Returned? ==> Model() == t.end && end.count == |w| + |r|)
        && (end.NullSink? ==> end.at == i && end.stage != Exception && Model() == t.Before(end.stage))
        && (end.NullSink? ==> fd in ready.At(end.stage) && !Live(t.Before(end.stage), i))
        && (end.Returned? && fd in ready.wr ==> Live(t.wr, i)) && (end.Returned? && fd in ready.rd ==> Live(t.rd, i))
    {
      var w, crash, fault;
      w, crash, fault, log' := Dispatch(i, Write, OnWritable, fd, ready, h, t0, log);
      assert log' == log + CallAt(t, i, Write, ready) && (w <==> |CallAt(t, i, Write, ready)| == 1);
      if fault.Some? {
        return HandlerFault(fault.value), log';
      }
      assert Model() == t.rd;
      if crash {
        return NullSink(i, Write), log';
      }
      var r;
      r, crash, fault, log' := Dispatch(i, Read, OnReadable, fd, ready, h, t0, log');
      if fault.Some? {
        return HandlerFault(fault.value), log';
      }
      if crash {
        return NullSink(i, Read), log';
      }
      return Returned((if w then 1 else 0) + (if r then 1 else 0)), log';
    }

    /** One turn of the dispatch loop: the three stages of position i. */
    method DispatchAll(i: nat, ready: Ready, h: LoopHandlers, ghost t0: TimerModel.Timers, ghost log: seq<Call>)
      returns (end: PollEnd, ghost log': seq<Call>)
      requires Valid() && i < |fds|
      requires TimerModel.Exec(timers.Model(), None) == TimerModel.RunOps(t0, TimerScript(log, h))
      modifies this, timers, timers.pool`index, timers.pool`freed
      ensures Valid() && fresh(timers.pool - old(timers.pool)) && old(timers.pool) <= timers.pool
      ensures OnlyRetires(old(fds), fds) && (end.Returned? || end.NullSink? || end.HandlerFault?)
      ensures TimerModel.Exec(timers.Model(), if end.HandlerFault? then Some(end.fault) else None) ==
              TimerModel.RunOps(t0, TimerScript(log', h))
      ensures var t := TurnOf(old(Model()), i, ready, SocketsOf(h));
        && log' <= log + CallsIn(t, i, ready)
        && (!end.HandlerFault? ==> log' == log + CallsIn(t, i, ready))
        && (end.Returned? ==> Model() == t.end && end.count == |CallsIn(t, i, ready)|)
        && (end.Returned? ==> forall stage :: !RetiredMidway(t, i, stage, ready))
        && (end.NullSink? ==> end.at == i && Model() == t.Before(end.stage) && RetiredMidway(t, i, end.stage, ready))
    {
      log' := log;
      var fd := fds[i].fd;
      if fd == INVALID_SOCKET {
        return Returned(0), log;
      }
      ghost var t := TurnOf(Model(), i, ready, SocketsOf(h));
      SplitCalls(log, t, i, ready);
      var e, crash, fault;
      e, crash, fault, log' := Dispatch(i, Exception, OnReadable, fd, ready, h, t0, log');
      assert log' == log + CallAt(t, i, Exception, ready);
      if fault.Some? {
        return HandlerFault(fault.value), log';
      }
      assert Model() == t.wr;
      end, log' := DispatchLater(i, fd, ready, h, t, t0, log');
      if end.Returned? {
        TurnIsSmooth(t, i, ready);
        end := Returned((if e then 1 else 0) + end.count);
      }
    }

    /** One turn, as a step of the sweep that has done `turns` since the registry was s0 and the timers t0. */
    method TakeTurn(ready: Ready, h: LoopHandlers, i: nat, ghost s0: Registry, ghost t0: TimerModel.Timers,
                    ghost turns: seq<Turn>, ghost log: seq<Call>)
      returns (end: PollEnd, ghost turns': seq<Turn>, ghost log': seq<Call>)
      requires Valid() && i == |turns| < |fds| && Sweeping(turns, log, s0, Model(), ready, SocketsOf(h))
      requires TimerModel.Exec(timers.Model(), None) == TimerModel.RunOps(t0, TimerScript(log, h))
      modifies this, timers, timers.pool`index, timers.pool`freed
      ensures Valid() && fresh(timers.pool - old(timers.pool)) && old(timers.pool) <= timers.pool
      ensures |old(fds)| <= |fds| && (end.Returned? || end.NullSink? || end.HandlerFault?)
      ensures TimerModel.Exec(timers.Model(), if end.HandlerFault? then Some(end.fault) else None) ==
              TimerModel.RunOps(t0, TimerScript(log', h))
      ensures |turns'| == i + 1 && IsSweep(turns', s0, ready, SocketsOf(h))
      ensures log' <= Log(turns', ready) && (!end.HandlerFault? ==> log' == Log(turns', ready))
      ensures end.Returned? ==>
        Sweeping(turns', log', s0, Model(), ready, SocketsOf(h)) && |log| + end.count == |log'|
      ensures end.NullSink? ==>
        end.at == i && Model() == turns'[i].Before(end.stage) && RetiredMidway(turns'[i], i, end.stage, ready)
    {
      ExtendSweep(turns, log, s0, Model(), ready, SocketsOf(h));
      turns' := turns + [TurnOf(Model(), i, ready, SocketsOf(h))];
      end, log' := DispatchAll(i, ready, h, t0, log);
    }

    /** The dispatch loop over all positions, also those that handlers append while it runs. */
    method Sweep(ready: Ready, h: LoopHandlers) returns (end: PollEnd, ghost turns: seq<Turn>, ghost log: seq<Call>)
      requires Valid()
      modifies this, timers, timers.pool`index, timers.pool`freed
      ensures Valid() && fresh(timers.pool - old(timers.pool)) && old(timers.pool) <= timers.pool
      ensures end.Returned? || end.NullSink? || end.HandlerFault?
      ensures IsSweep(turns, old(Model()), ready, SocketsOf(h))
      ensures TimerModel.Exec(timers.Model(), if end.HandlerFault? then Some(end.fault) else None) ==
              TimerModel.RunOps(old(timers.Model()), TimerScript(log, h))
      ensures log <= Log(turns, ready) && (!end.HandlerFault? ==> log == Log(turns, ready))
      ensures (forall c <- log :: Reported(ready, c)) && (ready == Ready({}, {}, {}) ==> log == [])
      ensures end.Returned? ==>
        && |turns| == (if ready.Total() == 0 then 0 else |fds|) && Smooth(turns, ready)
        && Model() == EndOf(turns, old(Model())) && end.count == |log|
        && ReadyAreServed(old(fds), turns, log, ready)
      ensures end.NullSink? ==>
        && |turns| == end.at + 1 && RetiredMidway(turns[end.at], end.at, end.stage, ready)
        && Model() == turns[end.at].Before(end.stage)
    {
      var r := ready.Total();
      var count, i := 0, 0;
      turns, log := [], [];
      ghost var s0, t0 := Model(), timers.Model();
      while r > 0 && i < |fds|
        invariant 0 <= i <= |fds| && Valid() && |turns| == i && (r == 0 ==> i == 0)
        invariant fresh(timers.pool - old(timers.pool)) && old(timers.pool) <= timers.pool
        invariant Sweeping(turns, log, s0, Model(), ready, SocketsOf(h)) && count == |log|
        invariant TimerModel.Exec(timers.Model(), None) == TimerModel.RunOps(t0, TimerScript(log, h))
        decreases FD_SETSIZE - i
      {
        end, turns, log := TakeTurn(ready, h, i, s0, t0, turns, log);
        if !end.Returned? {
          CallsAreReported(turns, ready, log);
          return;
        }
        count := count + end.count;
        i := i + 1;
      }
      CallsAreReported(turns, ready, log);
      ReportedAreCalled(turns, s0, ready, SocketsOf(h));
      end := Returned(count);
    }

    /** Registry calls, one after the other. */
    method ApplyAll(ops: seq<PollOp>)
      requires Sound(Model())
      modifies this
      ensures Sound(Model()) && Model() == RunOps(old(Model()), ops)
      decreases |ops|
    {
      if ops != [] {
        Apply(ops[0]);
        ApplyAll(ops[1..]);
      }
    }

    /** The expiry pass.  Timers and registry share no state, so the registry calls of the callbacks that ran are
        made after the pass, in the order of the callbacks. */
    method ExecuteTimers(now: int, cb: TimeoutActs<PollOp>) returns (end: TimerModel.PassEnd, ghost p: TimerModel.Pass)
      requires Valid()
      modifies this, timers, timers.pool`index, timers.pool`freed
      ensures Sound(Model()) && (end.Finished? ==> Valid())
      ensures fresh(timers.pool - old(timers.pool)) && old(timers.pool) <= timers.pool
      ensures TimerModel.IsPass(p, old(timers.Model()), now, TimersOf(cb)) && p.end == end && p.Last() == timers.Model()
      ensures end.Finished? ==> Model() == RunOps(old(Model()), SocketCalls(TimerModel.CalledBack(p, |p.fired|), cb))
    {
      var called;
      end, called, p := timers.UpdateTimer(now, TimersOf(cb));
      if end.Finished? {
        MakeCalls(called, cb);
      }
    }

    method MakeCalls(called: seq<int>, cb: TimeoutActs<PollOp>)
      requires Sound(Model())
      modifies this
      ensures Sound(Model()) && Model() == RunOps(old(Model()), SocketCalls(called, cb))
    {
      ghost var s := Model();
      for k := 0 to |called|
        invariant Sound(Model()) && Model() == RunOps(s, SocketCalls(called[..k], cb))
      {
        assert called[..k + 1][..k] == called[..k];
        RunOpsOn(s, SocketCalls(called[..k], cb), Sockets(cb(called[k])));
        ApplyAll(Sockets(cb(called[k])));
      }
      assert called[..|called|] == called;
    }

    /** What follows the dispatch of a poll: the timers, then the compaction. */
    method Finish(count: nat, now: int, cb: TimeoutActs<PollOp>) returns (end: PollEnd, ghost p: TimerModel.Pass)
      requires Valid()
      modifies this, timers, timers.pool`index, timers.pool`freed
      ensures Sound(Model()) && (end.Returned? ==> Valid())
      ensures fresh(timers.pool - old(timers.pool)) && old(timers.pool) <= timers.pool
      ensures TimerModel.IsPass(p, old(timers.Model()), now, TimersOf(cb)) && p.Last() == timers.Model()
      ensures match p.end
        case Spins => end == Hung
        case Faulted(fault) => end == TimerFault(fault)
        case Finished =>
          && end == Returned(count)
          && Model() == Compacted(RunOps(old(Model()), SocketCalls(TimerModel.CalledBack(p, |p.fired|), cb)))
    {
      var pass;
      pass, p := ExecuteTimers(now, cb);
      match pass
      case Spins => end := Hung;
      case Faulted(fault) => end := TimerFault(fault);
      case Finished =>
        RemoveRetired();
        end := Returned(count);
    }

    /** One poll.  `result` is what select() reports, `h` what socket handlers do, `cb` what timer callbacks do, and
        `now` the clock reading of the expiry pass `p`. */
    method Poll(result: SelectResult, h: LoopHandlers, now: int, cb: TimeoutActs<PollOp>)
      returns (end: PollEnd, ghost turns: seq<Turn>, ghost log: seq<Call>, ghost p: TimerModel.Pass)
      requires Valid()
      modifies this, timers, timers.pool`index, timers.pool`freed
      ensures Sound(Model()) && fresh(timers.pool - old(timers.pool)) && old(timers.pool) <= timers.pool
      ensures end.Returned? || end.SelectFailed? ==> Valid()
      ensures end.SelectFailed? <==> old(fds) != [] && result == SocketError
      ensures end.SelectFailed? ==> Model() == old(Model()) && timers.Model() == old(timers.Model())
      ensures !end.SelectFailed? ==>
        && IsSweep(turns, old(Model()), ReadyOf(old(fds), result), SocketsOf(h))
        && log <= Log(turns, ReadyOf(old(fds), result))
        && (!end.HandlerFault? ==> log == Log(turns, ReadyOf(old(fds), result)))
      ensures old(fds) == [] ==> log == []
      ensures result.Selected? ==> forall c <- log :: Reported(result.ready, c)
      ensures result.Selected? && (end.Returned? || end.Hung? || end.TimerFault?) ==>
        ReadyAreServed(old(fds), turns, log, result.ready)
      ensures end.HandlerFault? ==> TimerModel.RunOps(old(timers.Model()), TimerScript(log, h)).fault == Some(end.fault)
      ensures end.NullSink? ==>
        && |turns| == end.at + 1 && RetiredMidway(turns[end.at], end.at, end.stage, ReadyOf(old(fds), result))
        && Model() == turns[end.at].Before(end.stage)
      ensures var s, t := EndOf(turns, old(Model())), TimerModel.RunOps(old(timers.Model()), TimerScript(log, h));
        end.Returned? || end.Hung? || end.TimerFault? ==>
          && |turns| == (if ReadyOf(old(fds), result).Total() == 0 then 0 else |s.fds|)
          && Smooth(turns, ReadyOf(old(fds), result))
          && t.fault.None? && TimerModel.IsPass(p, t.state, now, TimersOf(cb)) && p.Last() == timers.Model()
          && (end.Hung? ==> p.end.Spins?) && (end.TimerFault? ==> p.end == TimerModel.Faulted(end.fault))
          && (end.Returned? ==>
                && p.end.Finished? && end.count == |log|
                && Model() == Compacted(RunOps(s, SocketCalls(TimerModel.CalledBack(p, |p.fired|), cb))))
    {
      turns, log, p := [], [], TimerModel.Pass([timers.Model()], [], TimerModel.Finished);
      if fds != [] && result == SocketError {
        return SelectFailed, turns, log, p;
      }
      end, turns, log := Sweep(ReadyOf(fds, result), h);
      if !end.Returned? {
        return;
      }
      end, p := Finish(end.count, now, cb);
    }
  }
}
