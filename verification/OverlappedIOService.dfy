/** The event-based overlapped I/O service. */
module OverlappedService {
  import opened Options
  import opened OverlappedModel
  import opened Winsock

  /** `deleted` models the allocator. */
  class IoContext {
    var fd: int
    var hEvent: int
    var deleted: bool

    constructor (fd: int, hEvent: int)
      ensures this.fd == fd && this.hEvent == hEvent && !deleted
    {
      this.fd, this.hEvent, deleted := fd, hEvent, false;
    }
  }

  datatype WaitResult = WaitFailed | TimedOut | Signalled(index: nat)

  class OverlappedIOService {
    var ctxs: seq<IoContext>  // every context the application was given, in order of allocation
    var fds: map<int, nat>
    var events: seq<int>
    ghost var pool: set<IoContext>

    ghost function Model(): Io
      reads this, ctxs
    {
      Io(seq(|ctxs|, i requires 0 <= i < |ctxs| reads this, ctxs =>
           IoCtx(ctxs[i].fd, ctxs[i].hEvent, ctxs[i].deleted)),
         fds, |fds|)
    }

    ghost predicate Valid()
      reads this, ctxs
    {
      && (forall x <- ctxs :: x in pool)
      && (forall i: nat, j: nat :: i < j < |ctxs| ==> ctxs[i] != ctxs[j])
      && (forall h <- fds :: fds[h] < |ctxs|)
    }

    constructor ()
      ensures Valid() && Model() == Io([], map[], 0) && pool == {}
    {
      ctxs, fds, events, pool := [], map[], [], {};
    }

    /** `hEvent` is what WSACreateEvent returns. */
    method AllocOverlapCtx(fd: int, hEvent: int) returns (ctx: Option<nat>)
      requires Valid()
      modifies this`ctxs, this`fds, this`pool
      ensures Valid() && old(ctxs) <= ctxs && old(pool) <= pool && fresh(pool - old(pool))
      ensures Exec(Model(), false) == Step(old(Model()), Alloc(fd, hEvent))
      ensures ctx == if |old(fds)| >= MAX_EVENTS || hEvent == INVALID_EVENT then None else Some(|old(ctxs)|)
      ensures ctx.Some? ==>
        && |ctxs| == |old(ctxs)| + 1 && fds == old(fds)[hEvent := ctx.value]
        && ctxs[ctx.value].fd == fd && ctxs[ctx.value].hEvent == hEvent && !ctxs[ctx.value].deleted
      ensures ctx.None? ==> ctxs == old(ctxs) && fds == old(fds)
    {
      if |fds| >= MAX_EVENTS {
        return None;
      }
      if hEvent == INVALID_EVENT {
        return None;
      }
      ghost var before := Model().ctxs;
      StepCounts(Model(), Alloc(fd, hEvent));
      var c := new IoContext(fd, hEvent);
      ctxs, pool := ctxs + [c], pool + {c};
      fds := fds[hEvent := |ctxs| - 1];
      assert Model().ctxs == before + [IoCtx(fd, hEvent, false)];
      return Some(|ctxs| - 1);
    }

    method FreeOverlapCtx(c: nat) returns (useAfterDelete: bool)
      requires Valid() && c < |ctxs|
      modifies this`fds, ctxs[c]
      ensures Valid() && Exec(Model(), useAfterDelete) == Step(old(Model()), Free(c))
      ensures useAfterDelete <==> old(ctxs[c].deleted)
      ensures ctxs[c].deleted && fds == if useAfterDelete then old(fds) else old(fds) - {old(ctxs[c].hEvent)}
    {
      var ctx := ctxs[c];
      if ctx.deleted {
        return true;  // the source reads ctx->overlap.hEvent here
      }
      ghost var e := Step(Model(), Free(c));
      StepCounts(Model(), Free(c));
      var hEvent := ctx.hEvent;
      ctx.fd := INVALID_SOCKET;
      ctx.hEvent := INVALID_EVENT;
      fds := fds - {hEvent};
      ctx.deleted := true;
      assert fds == e.state.fds;
      assert Model().ctxs == e.state.ctxs;
      return false;
    }

    /** Application code: a callback, or the timer callbacks. */
    method Execute(ops: seq<IoOp>) returns (useAfterDelete: bool)
      requires Valid()
      modifies this`ctxs, this`fds, this`pool, pool
      ensures Valid() && old(ctxs) <= ctxs && old(pool) <= pool && fresh(pool - old(pool))
      ensures Exec(Model(), useAfterDelete) == RunOps(old(Model()), ops)
      decreases |ops|
    {
      useAfterDelete := false;
      if ops == [] {
        return;
      }
      match ops[0] {
        case Alloc(fd, hEvent) => var _ := AllocOverlapCtx(fd, hEvent);
        case Free(c) => if c < |ctxs| { useAfterDelete := FreeOverlapCtx(c); }
      }
      if !useAfterDelete {
        useAfterDelete := Execute(ops[1..]);
      }
    }

    /** Rebuilds the array of events to wait on from the keys of the map, in the order in which the map yields
        them. */
    method CollectEvents(order: seq<int>)
      requires multiset(order) == multiset(fds.Keys)
      modifies this`events
      ensures events == order
    {
      events := [];
      var iter := 0;
      while iter < |order|
        invariant 0 <= iter <= |order| && events == order[..iter]
      {
        events := events + [order[iter]];
        iter := iter + 1;
      }
    }

    /** Looks the signalled event up again and calls back the context found, if any. */
    method Serve(hEvent: int, cb: seq<IoOp>) returns (ran: Option<nat>, useAfterDelete: bool)
      requires Valid()
      modifies this`ctxs, this`fds, this`pool, pool
      ensures Valid() && old(pool) <= pool && fresh(pool - old(pool))
      ensures ran == Found(old(Model()), hEvent)
      ensures Exec(Model(), useAfterDelete) == Served(old(Model()), hEvent, cb)
    {
      if hEvent !in fds {
        return None, false;
      }
      var c := fds[hEvent];
      ran := Some(c);
      if ctxs[c].deleted {
        return ran, true;  // the source reads pContext->fd here
      }
      useAfterDelete := Execute(cb);
    }

    /** One turn of the service.  `order` is the map's iteration order, `wait` what the wait reports, `timerOps`
        what the timer callbacks do after it, `cb` what the callback of the dispatched context does.  `ran` is
        the context dispatched, if any. */
    method Run(order: seq<int>, wait: WaitResult, timerOps: seq<IoOp>, cb: seq<IoOp>)
      returns (rc: int, ran: Option<nat>, useAfterDelete: bool)
      requires Valid() && multiset(order) == multiset(fds.Keys) && (wait.Signalled? ==> wait.index < |order|)
      modifies this, pool
      ensures Valid() && old(pool) <= pool && fresh(pool - old(pool)) && events == order
      ensures var signalled := if wait.Signalled? then Some(order[wait.index]) else None;
        var t := RunOps(old(Model()), timerOps);
        && Exec(Model(), useAfterDelete) == Next(old(Model()), Ran(timerOps, signalled, cb))
        && ran == (if t.useAfterDelete || signalled.None? then None else Found(t.state, signalled.value))
        && (!useAfterDelete ==> rc == if wait.Signalled? && ran.None? then -1 else 0)
    {
      rc, ran := 0, None;
      CollectEvents(order);
      assert Model().ctxs == old(Model()).ctxs;
      var nready := 0;
      if events != [] {
        nready := if wait.Signalled? then wait.index else -1;
      }
      useAfterDelete := Execute(timerOps);
      if useAfterDelete {
        return;
      }
      if nready >= 0 && events != [] {
        ran, useAfterDelete := Serve(events[nready], cb);
        rc := if ran == None then -1 else 0;
      }
    }
  }
}
