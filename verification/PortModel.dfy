/** The completion-port service as a protocol: the application allocates contexts, starts operations on them and frees
    them; the kernel completes operations at any moment, also while a callback runs; Run dequeues completions, calls
    back and deletes.  A context is named by its position in the order of allocation. */
module PortModel {
  import opened Options
  import opened Winsock

  /** Flag words are sets of bits: FLAG_ASSOCIATE is 1, FLAG_CANCEL_IO is 2, and FLAG_LAZY_DELETE is 3, which
      has the bits of both. */
  datatype Bit = Bit0 | Bit1

  const FLAG_ASSOCIATE: set<Bit> := {Bit0}
  const FLAG_CANCEL_IO: set<Bit> := {Bit1}
  const FLAG_LAZY_DELETE: set<Bit> := {Bit0, Bit1}

  /** `freed` records that FreeOverlapCtx was called, `deleted` that the memory is gone. */
  datatype Ctx = Ctx(fd: int, flags: set<Bit>, freed: bool, deleted: bool)

  /** A completion packet in the port's queue. */
  datatype Packet = Packet(ctx: nat, ok: bool)

  /** `inflight` holds the operations the kernel has not completed yet. */
  datatype Port = Port(ctxs: seq<Ctx>, inflight: multiset<nat>, queue: seq<Packet>)

  datatype AppOp =
    | Alloc(fd: int, associated: bool)     // AllocOverlapCtx; `associated` unless CreateIoCompletionPort fails
    | Arm(ctx: nat, started: bool)         // AsyncConnect, AsyncAccept, AsyncRead, AsyncWrite
    | Flag(ctx: nat, bits: set<Bit>)       // ctx->flags |= bits
    | Free(ctx: nat)                       // FreeOverlapCtx(ctx)

  /** What may happen at any moment outside Run's own steps: a call of the application, or the kernel completing an
      operation. */
  datatype Act = App(op: AppOp) | Kernel(ctx: nat, ok: bool)

  datatype Fault =
    | UseAfterDelete   // the application or Run touches, or deletes again, a deleted context
    | KernelWrite      // the kernel writes the status into a deleted context

  datatype Exec = Exec(state: Port, fault: Option<Fault>)

  function Start(): Port { Port([], multiset{}, []) }

  /** A context after FreeOverlapCtx. */
  function Freed(flags: set<Bit>): Ctx {
    Ctx(INVALID_SOCKET, flags, true, flags * FLAG_LAZY_DELETE == {})
  }

  function Step(s: Port, op: AppOp): Exec {
    match op
    case Alloc(fd, associated) =>
      var ctx := if associated then Ctx(fd, {}, false, false) else Ctx(INVALID_SOCKET, {}, true, true);
      Exec(s.(ctxs := s.ctxs + [ctx]), None)
    case Arm(c, started) =>
      if c >= |s.ctxs| then Exec(s, None)
      else if s.ctxs[c].deleted then Exec(s, Some(UseAfterDelete))
      else Exec(if started then s.(inflight := s.inflight + multiset{c}) else s, None)
    case Flag(c, bits) =>
      if c >= |s.ctxs| then Exec(s, None)
      else if s.ctxs[c].deleted then Exec(s, Some(UseAfterDelete))
      else Exec(s.(ctxs := s.ctxs[c := s.ctxs[c].(flags := s.ctxs[c].flags + bits)]), None)
    case Free(c) =>
      if c >= |s.ctxs| then Exec(s, None)
      else if s.ctxs[c].deleted then Exec(s, Some(UseAfterDelete))
      else Exec(s.(ctxs := s.ctxs[c := Freed(s.ctxs[c].flags)]), None)
  }

  /** The kernel completes an operation in flight on context c. */
  function Complete(s: Port, c: nat, ok: bool): Exec
    requires c in s.inflight
  {
    if c < |s.ctxs| && s.ctxs[c].deleted then Exec(s, Some(KernelWrite))
    else Exec(s.(inflight := s.inflight - multiset{c}, queue := s.queue + [Packet(c, ok)]), None)
  }

  function Occur(s: Port, act: Act): Exec {
    match act
    case App(op) => Step(s, op)
    case Kernel(c, ok) => if c in s.inflight then Complete(s, c, ok) else Exec(s, None)
  }

  function RunActs(s: Port, acts: seq<Act>): Exec
    decreases |acts|
  {
    if acts == [] then Exec(s, None)
    else
      var e := Occur(s, acts[0]);
      if e.fault.Some? then e else RunActs(e.state, acts[1..])
  }

  lemma {:induction false} RunActsOn(s: Port, a: seq<Act>, b: seq<Act>)
    ensures var e := RunActs(s, a);
      RunActs(s, a + b) == if e.fault.Some? then e else RunActs(e.state, b)
    decreases |a|
  {
    if a == [] {
      assert a + b == b;
    } else {
      assert (a + b)[1..] == a[1..] + b;
      RunActsOn(Occur(s, a[0]).state, a[1..], b);
    }
  }

  /** Completions, as acts of the kernel. */
  function Arrive(packets: seq<Packet>): seq<Act> {
    seq(|packets|, i requires 0 <= i < |packets| => Kernel(packets[i].ctx, packets[i].ok))
  }

  /** The contexts of the packets, each as often as it has one. */
  function CtxsOf(packets: seq<Packet>): multiset<nat> {
    if packets == [] then multiset{} else multiset{packets[0].ctx} + CtxsOf(packets[1..])
  }

  /** The operations that complete are in flight, and none is on a deleted context. */
  predicate CanArrive(s: Port, packets: seq<Packet>) {
    && CtxsOf(packets) <= s.inflight
    && forall p <- packets :: p.ctx < |s.ctxs| ==> !s.ctxs[p.ctx].deleted
  }

  lemma FirstArrives(s: Port, packets: seq<Packet>)
    requires packets != [] && CanArrive(s, packets)
    ensures var p := packets[0];
      && var e := Occur(s, Kernel(p.ctx, p.ok));
      && e == Exec(Port(s.ctxs, s.inflight - multiset{p.ctx}, s.queue + [p]), None) && CanArrive(e.state, packets[1..])
      && e.state.inflight - CtxsOf(packets[1..]) == s.inflight - CtxsOf(packets)
  {
    assert packets[0] in packets && CtxsOf(packets)[packets[0].ctx] >= 1;
    assert forall p <- packets[1..] :: p in packets;
  }

  lemma OneByOne(queue: seq<Packet>, packets: seq<Packet>)
    requires packets != []
    ensures queue + [packets[0]] + packets[1..] == queue + packets
  {
  }

  lemma RunFirst(s: Port, acts: seq<Act>, s1: Port)
    requires acts != [] && Occur(s, acts[0]) == Exec(s1, None)
    ensures RunActs(s, acts) == RunActs(s1, acts[1..])
  {
  }

  lemma OthersArrive(s: Port, packets: seq<Packet>) returns (s1: Port)
    requires packets != [] && CanArrive(s, packets)
    ensures s1 == Port(s.ctxs, s.inflight - multiset{packets[0].ctx}, s.queue + [packets[0]])
    ensures CanArrive(s1, packets[1..]) && RunActs(s, Arrive(packets)) == RunActs(s1, Arrive(packets[1..]))
    ensures s1.inflight - CtxsOf(packets[1..]) == s.inflight - CtxsOf(packets)
  {
    s1 := Port(s.ctxs, s.inflight - multiset{packets[0].ctx}, s.queue + [packets[0]]);
    FirstArrives(s, packets);
    assert Arrive(packets)[0] == Kernel(packets[0].ctx, packets[0].ok);
    assert Arrive(packets)[1..] == Arrive(packets[1..]);
    RunFirst(s, Arrive(packets), s1);
  }

  /** Completions that arrive leave the operations in flight and join the end of the queue as they are. */
  lemma {:induction false} ArrivalsAreQueued(s: Port, packets: seq<Packet>)
    requires CanArrive(s, packets)
    ensures RunActs(s, Arrive(packets)) == Exec(Port(s.ctxs, s.inflight - CtxsOf(packets), s.queue + packets), None)
    decreases |packets|
  {
    if packets == [] {
      assert s.queue + packets == s.queue && s.inflight - CtxsOf(packets) == s.inflight;
    } else {
      var s1 := OthersArrive(s, packets);
      OneByOne(s.queue, packets);
      ArrivalsAreQueued(s1, packets[1..]);
    }
  }

  /** Acts that do not fault, and then the completions that arrive. */
  lemma WaitOf(s: Port, acts: seq<Act>, packets: seq<Packet>)
    ensures var t := RunActs(s, acts);
      t.fault.None? && CanArrive(t.state, packets) ==>
        RunActs(s, acts + Arrive(packets)) ==
          Exec(Port(t.state.ctxs, t.state.inflight - CtxsOf(packets), t.state.queue + packets), None)
  {
    var t := RunActs(s, acts);
    RunActsOn(s, acts, Arrive(packets));
    if t.fault.None? && CanArrive(t.state, packets) { ArrivalsAreQueued(t.state, packets); }
  }

  /** What Run does with the packet at the head of the queue.  A failed completion is only logged.  `cb` is what the
      callback does, and what the kernel completes meanwhile. */
  function Dequeue(s: Port, cb: seq<Act>): Exec
    requires s.queue != [] && s.queue[0].ctx < |s.ctxs|
  {
    var p, s1 := s.queue[0], s.(queue := s.queue[1..]);
    if !p.ok then Exec(s1, None)
    else if s1.ctxs[p.ctx].deleted then Exec(s1, Some(UseAfterDelete))
    else
      var e := RunActs(s1, cb);
      if e.fault.Some? then e else CheckLazy(e.state, p.ctx)
  }

  /** The test of the flags after the callback. */
  function CheckLazy(s: Port, c: nat): Exec {
    if c >= |s.ctxs| || s.ctxs[c].deleted then Exec(s, Some(UseAfterDelete))
    else if s.ctxs[c].flags * FLAG_LAZY_DELETE != {} then
      Exec(s.(ctxs := s.ctxs[c := s.ctxs[c].(deleted := true)]), None)
    else Exec(s, None)
  }
}
