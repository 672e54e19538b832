/** The completion-port service over heap-allocated contexts.  The fields `inflight` and `queue` are the
    kernel's. */
module CompletionPort {
  import opened Options
  import opened PortModel
  import opened Winsock

  /** `deleted` models the allocator; `freed` records the call of FreeOverlapCtx. */
  class OverlapContext {
    var fd: int
    var flags: set<Bit>
    var deleted: bool
    ghost var freed: bool

    constructor (fd: int)
      ensures this.fd == fd && flags == {} && !deleted && !freed
    {
      this.fd, flags, deleted, freed := fd, {}, false, false;
    }
  }

  /** How Run ended: a callback ran, there was no packet in time, the packet was of a failed operation, or the port
      reported an error. */
  datatype RunEnd = Called(ctx: nat) | TimedOut | OperationFailed | PortFailed

  /** How Run answers the state in which its wait ends: it fails, or finds no packet, or serves the first packet. */
  ghost predicate Answers(s: Port, portError: bool, cb: seq<Act>, e: Exec, end: RunEnd, rc: int) {
    if portError then e == Exec(s, None) && end == PortFailed && rc == -1
    else if s.queue == [] then e == Exec(s, None) && end == TimedOut && rc == 0
    else
      && s.queue[0].ctx < |s.ctxs| && e == Dequeue(s, cb)
      && end == (if s.queue[0].ok then Called(s.queue[0].ctx) else OperationFailed)
      && rc == if s.queue[0].ok then 0 else -1
  }

  class CompletionPortService {
    var ctxs: seq<OverlapContext>  // every context the application was given, in order of allocation
    var inflight: multiset<nat>
    var queue: seq<Packet>
    ghost var pool: set<OverlapContext>

    ghost function Model(): Port
      reads this, ctxs
    {
      Port(seq(|ctxs|, i requires 0 <= i < |ctxs| reads this, ctxs =>
             Ctx(ctxs[i].fd, ctxs[i].flags, ctxs[i].freed, ctxs[i].deleted)),
           inflight, queue)
    }

    ghost predicate Valid()
      reads this, ctxs
    {
      && (forall x <- ctxs :: x in pool)
      && (forall i: nat, j: nat :: i < j < |ctxs| ==> ctxs[i] != ctxs[j])
      && (forall p <- queue :: p.ctx < |ctxs|)
      && (forall c <- inflight :: c < |ctxs|)
    }

    constructor ()
      ensures Valid() && Model() == Start() && pool == {}
    {
      ctxs, inflight, queue, pool := [], multiset{}, [], {};
    }

    /** `registered` says whether CreateIoCompletionPort succeeds in associating the socket. */
    method AllocOverlapCtx(fd: int, flags: set<Bit>, registered: bool) returns (ctx: Option<nat>)
      requires Valid()
      modifies this`ctxs, this`pool
      ensures Valid() && old(ctxs) <= ctxs && old(pool) <= pool && fresh(pool - old(pool))
      ensures var ok := flags * FLAG_ASSOCIATE == {} || registered;
        && Exec(Model(), None) == Step(old(Model()), Alloc(fd, ok))
        && ctx == if ok then Some(|old(ctxs)|) else None
      ensures |ctxs| == |old(ctxs)| + 1 && inflight == old(inflight) && queue == old(queue)
      ensures var c := ctxs[|old(ctxs)|];
        if flags * FLAG_ASSOCIATE == {} || registered then c.fd == fd && c.flags == {} && !c.freed && !c.deleted
        else c.freed && c.deleted
    {
      var c := new OverlapContext(fd);
      ghost var before := Model().ctxs;
      ctxs, pool := ctxs + [c], pool + {c};
      assert Model().ctxs == before + [Ctx(fd, {}, false, false)];
      if flags * FLAG_ASSOCIATE != {} && !registered {
        var _ := FreeOverlapCtx(|ctxs| - 1);
        assert Model().ctxs == before + [Freed({})] && {} * FLAG_LAZY_DELETE == {};
        assert Model().ctxs[|ctxs| - 1] == Freed({});
        return None;
      }
      return Some(|ctxs| - 1);
    }

    /** `cancelled` says whether CancelIoEx was called, after which the kernel fails what is in flight on the
        socket. */
    method FreeOverlapCtx(c: nat) returns (cancelled: bool)
      requires Valid() && c < |ctxs| && !ctxs[c].deleted
      modifies ctxs[c]
      ensures Valid() && ctxs[c].flags == old(ctxs[c].flags)
      ensures Model() == old(Model()).(ctxs := old(Model()).ctxs[c := Freed(ctxs[c].flags)])
      ensures cancelled <==> old(ctxs[c].flags) * FLAG_CANCEL_IO != {}
    {
      var ctx := ctxs[c];
      cancelled := ctx.flags * FLAG_CANCEL_IO != {};
      ctx.fd := INVALID_SOCKET;
      ctx.freed := true;
      if ctx.flags * FLAG_LAZY_DELETE == {} {
        ctx.deleted := true;
      }
    }

    /** What the application does to the public field `flags`. */
    method SetFlags(c: nat, bits: set<Bit>) returns (fault: Option<Fault>)
      requires Valid() && c < |ctxs|
      modifies ctxs[c]
      ensures Valid() && Exec(Model(), fault) == Step(old(Model()), Flag(c, bits))
      ensures ctxs[c].flags == old(ctxs[c].flags) + if fault.None? then bits else {}
    {
      if ctxs[c].deleted {
        return Some(UseAfterDelete);
      }
      ghost var before := Model().ctxs;
      ctxs[c].flags := ctxs[c].flags + bits;
      assert Model().ctxs == before[c := before[c].(flags := before[c].flags + bits)];
      return None;
    }

    /** AsyncConnect, AsyncAccept, AsyncRead and AsyncWrite: each resets the status in the context and starts an
        operation; `started` unless the call fails with something other than WSA_IO_PENDING. */
    method Async(c: nat, started: bool) returns (fault: Option<Fault>)
      requires Valid() && c < |ctxs|
      modifies this`inflight
      ensures Valid() && Exec(Model(), fault) == Step(old(Model()), Arm(c, started))
      ensures fault.Some? <==> ctxs[c].deleted
      ensures inflight == old(inflight) + if started && fault.None? then multiset{c} else multiset{}
    {
      if ctxs[c].deleted {
        return Some(UseAfterDelete);
      }
      if started {
        inflight := inflight + multiset{c};
      }
      return None;
    }

    /** A call of the application. */
    method Perform(op: AppOp) returns (fault: Option<Fault>)
      requires Valid()
      modifies this`ctxs, this`inflight, this`pool, pool
      ensures Valid() && old(ctxs) <= ctxs && old(pool) <= pool && fresh(pool - old(pool))
      ensures Exec(Model(), fault) == Step(old(Model()), op)
    {
      fault := None;
      match op
      case Alloc(fd, associated) =>
        assert Bit0 in FLAG_ASSOCIATE * FLAG_ASSOCIATE;
        var _ := AllocOverlapCtx(fd, FLAG_ASSOCIATE, associated);
      case Arm(c, started) =>
        if c < |ctxs| { fault := Async(c, started); }
      case Flag(c, bits) =>
        if c < |ctxs| { fault := SetFlags(c, bits); }
      case Free(c) =>
        if c < |ctxs| {
          if ctxs[c].deleted {
            return Some(UseAfterDelete);
          }
          var _ := FreeOverlapCtx(c);
        }
    }

    /** The kernel completes an operation. */
    method KernelCompletes(c: nat, ok: bool) returns (fault: Option<Fault>)
      requires Valid() && c in inflight
      modifies this`inflight, this`queue
      ensures Valid() && Exec(Model(), fault) == Complete(old(Model()), c, ok)
    {
      if ctxs[c].deleted {
        return Some(KernelWrite);
      }
      inflight := inflight - multiset{c};
      queue := queue + [Packet(c, ok)];
      return None;
    }

    /** One call of the application, or one completion. */
    method Occurs(act: Act) returns (fault: Option<Fault>)
      requires Valid()
      modifies this`ctxs, this`inflight, this`queue, this`pool, pool
      ensures Valid() && old(ctxs) <= ctxs && old(pool) <= pool && fresh(pool - old(pool))
      ensures Exec(Model(), fault) == Occur(old(Model()), act)
    {
      fault := None;
      match act
      case App(op) => fault := Perform(op);
      case Kernel(c, ok) => if c in inflight { fault := KernelCompletes(c, ok); }
    }

    /** Application code, with the completions that arrive while it runs. */
    method Execute(acts: seq<Act>) returns (fault: Option<Fault>)
      requires Valid()
      modifies this`ctxs, this`inflight, this`queue, this`pool, pool
      ensures Valid() && old(ctxs) <= ctxs && old(pool) <= pool && fresh(pool - old(pool))
      ensures Exec(Model(), fault) == RunActs(old(Model()), acts)
      decreases |acts|
    {
      fault := None;
      if acts != [] {
        fault := Occurs(acts[0]);
        if fault.None? {
          fault := Execute(acts[1..]);
        }
      }
    }

    /** GetQueuedCompletionStatus has handed over a packet: the callback, then the test of the flags. */
    method Serve(p: Packet, cb: seq<Act>) returns (end: RunEnd, fault: Option<Fault>)
      requires Valid() && p.ctx < |ctxs|
      modifies this, pool
      ensures Valid() && old(pool) <= pool && fresh(pool - old(pool))
      ensures Exec(Model(), fault) == Dequeue(old(Model()).(queue := [p] + old(queue)), cb)
      ensures end == if p.ok then Called(p.ctx) else OperationFailed
    {
      ghost var s0 := Model();
      assert ([p] + queue)[1..] == queue && s0.(queue := [p] + queue).(queue := queue) == s0;
      if !p.ok {
        return OperationFailed, None;
      }
      end, fault := Called(p.ctx), None;
      var ctx := ctxs[p.ctx];
      if ctx.deleted {
        return end, Some(UseAfterDelete);
      }
      assert !s0.ctxs[p.ctx].deleted;
      fault := Execute(cb);
      if fault.Some? {
        return;
      }
      assert ctxs[p.ctx] == ctx && Model().ctxs[p.ctx] == Ctx(ctx.fd, ctx.flags, ctx.freed, ctx.deleted);
      if ctx.deleted {
        return end, Some(UseAfterDelete);  // the source reads pContext->flags here
      }
      if ctx.flags * FLAG_LAZY_DELETE != {} {
        ctx.deleted := true;
      }
    }

    /** The timer callbacks, and the wait with the completions that come in. */
    method Await(timerActs: seq<Act>, arrivals: seq<Packet>) returns (fault: Option<Fault>)
      requires Valid()
      modifies this`ctxs, this`inflight, this`queue, this`pool, pool
      ensures Valid() && old(pool) <= pool && fresh(pool - old(pool))
      ensures Exec(Model(), fault) == RunActs(old(Model()), timerActs + Arrive(arrivals))
      ensures var t := RunActs(old(Model()), timerActs);
        t.fault.None? && CanArrive(t.state, arrivals) ==>
          && fault.None?
          && Model() == Port(t.state.ctxs, t.state.inflight - CtxsOf(arrivals), t.state.queue + arrivals)
    {
      RunActsOn(Model(), timerActs, Arrive(arrivals));
      WaitOf(Model(), timerActs, arrivals);
      fault := Execute(timerActs);
      if fault.None? {
        fault := Execute(Arrive(arrivals));
      }
    }

    /** The wait is over: Run reports an error of the port, or finds no packet, or serves the one at the head. */
    method Finish(portError: bool, cb: seq<Act>) returns (rc: int, end: RunEnd, fault: Option<Fault>)
      requires Valid()
      modifies this, pool
      ensures Valid() && old(pool) <= pool && fresh(pool - old(pool))
      ensures Answers(old(Model()), portError, cb, Exec(Model(), fault), end, rc)
    {
      if portError {
        return -1, PortFailed, None;
      }
      if queue == [] {
        return 0, TimedOut, None;
      }
      var p := queue[0];
      assert p in queue;
      ghost var s := Model();
      queue := queue[1..];
      assert Model() == s.(queue := s.queue[1..]) && [p] + s.queue[1..] == s.queue;
      end, fault := Serve(p, cb);
      rc := if p.ok then 0 else -1;
    }

    /** One turn of the service: the timer callbacks `timerActs`, then the wait, during which the completions `arrivals`
        come in, then the packet at the head of the queue, if there is one by then.  `cb` is what its callback does.
        `portError` says that the wait fails. */
    method Run(timerActs: seq<Act>, arrivals: seq<Packet>, portError: bool, cb: seq<Act>)
      returns (rc: int, end: RunEnd, fault: Option<Fault>)
      requires Valid()
      modifies this, pool
      ensures Valid() && old(pool) <= pool && fresh(pool - old(pool))
      ensures var t := RunActs(old(Model()), timerActs + Arrive(arrivals));
        if t.fault.Some? then Exec(Model(), fault) == t
        else Answers(t.state, portError, cb, Exec(Model(), fault), end, rc)
      ensures var t := RunActs(old(Model()), timerActs);
        t.fault.None? && CanArrive(t.state, arrivals) ==>
          Answers(Port(t.state.ctxs, t.state.inflight - CtxsOf(arrivals), t.state.queue + arrivals), portError, cb,
                  Exec(Model(), fault), end, rc)
    {
      rc, end := 0, TimedOut;
      fault := Await(timerActs, arrivals);
      if fault.Some? {
        return;
      }
      rc, end, fault := Finish(portError, cb);
    }
  }
}
