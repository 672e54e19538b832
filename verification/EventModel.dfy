/** The WSAEventSelect() reactor's registry, as a value: entries with an event handle and an interest mask. */
module EventModel {
  import opened Compaction
  import opened PollEvents
  import TimerModel
  import opened Winsock

  /** The FD_* event bits and the MASK_* bits.  A bit mask is modelled as the set of its bits. */
  datatype Flag = FD_READ | FD_CLOSE | FD_ACCEPT | FD_WRITE | FD_CONNECT

  datatype MaskBit = MASK_READABLE | MASK_WRITABLE

  datatype EvEntry = EvEntry(fd: int, hEvent: int, lEvents: set<Flag>, mask: set<MaskBit>, sink: nat)

  datatype EvRegistry = EvRegistry(fds: seq<EvEntry>, hasRetired: bool)

  datatype Interest = SetIn | ResetIn | SetOut | ResetOut

  /** `hEvent` of an AddFd is what WSACreateEvent returns. */
  datatype EvOp = AddFd(fd: int, sink: nat, hEvent: int) | RemoveFd(fd: int) | Poll(fd: int, call: Interest)

  function Bits(call: Interest): set<Flag> {
    if call.SetIn? || call.ResetIn? then {FD_READ, FD_ACCEPT, FD_CLOSE} else {FD_WRITE, FD_CONNECT, FD_CLOSE}
  }

  function Interested(e: EvEntry, call: Interest): EvEntry {
    match call
    case SetIn => e.(lEvents := e.lEvents + Bits(call), mask := e.mask + {MASK_READABLE})
    case ResetIn => e.(lEvents := e.lEvents - Bits(call), mask := e.mask - {MASK_READABLE})
    case SetOut => e.(lEvents := e.lEvents + Bits(call), mask := e.mask + {MASK_WRITABLE})
    case ResetOut => e.(lEvents := e.lEvents - Bits(call), mask := e.mask - {MASK_WRITABLE})
  }

  /** The first position registered for `fd`, or the length if there is none. */
  function Find(fds: seq<EvEntry>, fd: int): (i: nat)
    ensures i <= |fds| && (i < |fds| ==> fds[i].fd == fd)
    ensures forall j: nat :: j < i ==> fds[j].fd != fd
  {
    if fds == [] || fds[0].fd == fd then 0 else 1 + Find(fds[1..], fd)
  }

  /** The first position with that event handle, or the length if there is none. */
  function FindEvent(fds: seq<EvEntry>, hEvent: int): (i: nat)
    ensures i <= |fds| && (i < |fds| ==> fds[i].hEvent == hEvent)
    ensures forall j: nat :: j < i ==> fds[j].hEvent != hEvent
  {
    if fds == [] || fds[0].hEvent == hEvent then 0 else 1 + FindEvent(fds[1..], hEvent)
  }

  function Retired(e: EvEntry): EvEntry {
    e.(fd := INVALID_SOCKET, hEvent := INVALID_EVENT)
  }

  function Step(s: EvRegistry, op: EvOp): EvRegistry {
    match op
    case AddFd(fd, sink, hEvent) =>
      if |s.fds| >= MAX_EVENTS || hEvent == INVALID_EVENT then s
      else s.(fds := s.fds + [EvEntry(fd, hEvent, {}, {}, sink)])
    case RemoveFd(fd) =>
      var i := Find(s.fds, fd);
      EvRegistry(if i < |s.fds| then s.fds[i := Retired(s.fds[i])] else s.fds, true)
    case Poll(fd, call) =>
      var i := Find(s.fds, fd);
      if i < |s.fds| then s.(fds := s.fds[i := Interested(s.fds[i], call)]) else s
  }

  function RunOps(s: EvRegistry, ops: seq<EvOp>): EvRegistry
    decreases |ops|
  {
    if ops == [] then s else RunOps(Step(s, ops[0]), ops[1..])
  }

  predicate Live(e: EvEntry) {
    e.fd != INVALID_SOCKET && e.hEvent != INVALID_EVENT
  }

  /** An entry keeps its place in the vector until it is retired. */
  predicate InUse(e: EvEntry) {
    e.fd != INVALID_SOCKET
  }

  function Handles(fds: seq<EvEntry>): seq<int> {
    seq(|fds|, i requires 0 <= i < |fds| => fds[i].hEvent)
  }

  /** The handles Poll waits on: those of the live entries, in registration order. */
  function Snapshot(fds: seq<EvEntry>): seq<int> {
    Handles(Kept(fds, Live))
  }

  function LiveOf(fds: seq<EvEntry>): seq<EvEntry> {
    Kept(fds, InUse)
  }

  function Compacted(s: EvRegistry): EvRegistry {
    if s.hasRetired then EvRegistry(LiveOf(s.fds), false) else s
  }

  // ---------- dispatching the events of one socket ----------

  /** The order in which HandleEvents looks at the event bits. */
  function Order(): seq<Flag> { [FD_READ, FD_CLOSE, FD_ACCEPT, FD_WRITE, FD_CONNECT] }

  /** The method called for an event bit. */
  function CallbackFor(bit: Flag): Callback {
    match bit
    case FD_READ => OnReadable
    case FD_CLOSE => OnReadable
    case FD_ACCEPT => OnReadable
    case FD_WRITE => OnWritable
    case FD_CONNECT => OnWritable
  }

  /** What the handler called for an event bit does to the registry. */
  type EvHandlers = Flag -> seq<EvOp>

  /** A call on a sink, with the entry as the caller found it. */
  datatype EvCall = EvCall(bit: Flag, callback: Callback, entry: EvEntry)

  /** How far the dispatch has come: the registry, last_err_, and the calls made. */
  datatype Dispatch = Dispatch(s: EvRegistry, err: int, on: seq<EvCall>)

  /** The test of the interest mask that guards a call. */
  type MaskTest = (set<MaskBit>, Flag) -> bool

  /** The test HandleEvents makes for every event bit: the bitwise or of the mask and MASK_READABLE is not zero. */
  predicate AsWritten(mask: set<MaskBit>, bit: Flag) {
    mask + {MASK_READABLE} != {}
  }

  /** The test the masks are kept for: the side of the socket that the event concerns is polled. */
  predicate AsMeant(mask: set<MaskBit>, bit: Flag) {
    (if CallbackFor(bit) == OnReadable then MASK_READABLE else MASK_WRITABLE) in mask
  }

  function Fired(d: Dispatch, i: nat, events: set<Flag>, bit: Flag, errors: Flag -> int, h: EvHandlers, test: MaskTest)
    : Dispatch
  {
    if bit !in events || i >= |d.s.fds| then d
    else if !test(d.s.fds[i].mask, bit) then d.(err := errors(bit))
    else Dispatch(RunOps(d.s, h(bit)), errors(bit), d.on + [EvCall(bit, CallbackFor(bit), d.s.fds[i])])
  }

  function FiredAll(d: Dispatch, i: nat, events: set<Flag>, order: seq<Flag>, errors: Flag -> int, h: EvHandlers,
                    test: MaskTest)
    : Dispatch
    decreases |order|
  {
    if order == [] then d
    else FiredAll(Fired(d, i, events, order[0], errors, h, test), i, events, order[1..], errors, h, test)
  }

  /** Looking at one more bit. */
  lemma {:induction false} OneMoreBit(d: Dispatch, i: nat, events: set<Flag>, order: seq<Flag>, bit: Flag,
                                      errors: Flag -> int, h: EvHandlers, test: MaskTest)
    ensures FiredAll(d, i, events, order + [bit], errors, h, test) ==
      Fired(FiredAll(d, i, events, order, errors, h, test), i, events, bit, errors, h, test)
    decreases |order|
  {
    if order == [] {
      assert order + [bit] == [bit] && [bit][1..] == [];
    } else {
      assert (order + [bit])[1..] == order[1..] + [bit];
      OneMoreBit(Fired(d, i, events, order[0], errors, h, test), i, events, order[1..], bit, errors, h, test);
    }
  }

  /** The last error before a dispatch has no effect on what it does. */
  lemma {:induction false} ErrDoesNotMatter(d: Dispatch, err: int, i: nat, events: set<Flag>, order: seq<Flag>,
                                            errors: Flag -> int, h: EvHandlers, test: MaskTest)
    ensures var a := FiredAll(d, i, events, order, errors, h, test);
      var b := FiredAll(d.(err := err), i, events, order, errors, h, test);
      a.s == b.s && a.on == b.on
    decreases |order|
  {
    if order != [] {
      var d1 := Fired(d, i, events, order[0], errors, h, test);
      var d2 := Fired(d.(err := err), i, events, order[0], errors, h, test);
      assert d2 == d1.(err := d2.err);
      ErrDoesNotMatter(d1, d2.err, i, events, order[1..], errors, h, test);
    }
  }

  // ---------- handlers that use sockets and timers ----------

  type LoopHandlers = Flag -> seq<Act<EvOp>>

  /** The handlers as the registry sees them. */
  function SocketsOf(h: LoopHandlers): EvHandlers {
    bit => Sockets(h(bit))
  }

  /** The timer calls made by the handlers called, in order. */
  function TimerScript(on: seq<EvCall>, h: LoopHandlers): seq<TimerModel.Op> {
    if on == [] then [] else TimerScript(on[..|on| - 1], h) + TimerCalls(h(on[|on| - 1].bit))
  }

  lemma {:induction false} RunOpsOn(s: EvRegistry, a: seq<EvOp>, b: seq<EvOp>)
    ensures RunOps(s, a + b) == RunOps(RunOps(s, a), b)
    decreases |a|
  {
    if a == [] {
      assert a + b == b;
    } else {
      assert (a + b)[1..] == a[1..] + b;
      RunOpsOn(Step(s, a[0]), a[1..], b);
    }
  }

  /** Between two registries of one poll entries are appended, retired, or change their interest only. */
  ghost predicate Follows(fds: seq<EvEntry>, fds': seq<EvEntry>) {
    |fds| <= |fds'| && forall j: nat {:trigger fds'[j]} :: j < |fds| ==> Successor(fds[j], fds'[j])
  }

  predicate Successor(e: EvEntry, e': EvEntry) {
    && e'.sink == e.sink
    && ((e'.fd == e.fd && e'.hEvent == e.hEvent) || (e'.fd == INVALID_SOCKET && e'.hEvent == INVALID_EVENT))
  }

  lemma FollowsTrans(a: seq<EvEntry>, b: seq<EvEntry>, c: seq<EvEntry>)
    requires Follows(a, b) && Follows(b, c)
    ensures Follows(a, c)
  {
    forall j: nat | j < |a|
      ensures Successor(a[j], c[j])
    {
      assert Successor(a[j], b[j]);
    }
  }

  lemma {:induction false} RunOpsFollows(s: EvRegistry, ops: seq<EvOp>)
    ensures Follows(s.fds, RunOps(s, ops).fds)
    decreases |ops|
  {
    if ops != [] { RunOpsFollows(Step(s, ops[0]), ops[1..]); }
  }
}
