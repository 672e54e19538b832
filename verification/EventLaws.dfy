/** Laws of the WSAEventSelect() reactor: interest masks, the event snapshot and its lookup, and dispatch. */
module EventLaws {
  import opened Compaction
  import opened EventModel
  import opened PollEvents
  import opened Sequences
  import opened Winsock

  // ---------- interest ----------

  function CallAll(e: EvEntry, calls: seq<Interest>): EvEntry {
    if calls == [] then e else Interested(CallAll(e, calls[..|calls| - 1]), calls[|calls| - 1])
  }

  /** The most recent of the calls among `on` and `off` was `on`. */
  predicate LastWas(calls: seq<Interest>, on: Interest, off: Interest) {
    calls != [] &&
    var last := calls[|calls| - 1];
    last == on || (last != off && LastWas(calls[..|calls| - 1], on, off))
  }

  /** After any calls on a new entry: read and accept interest follow the readable mask and the last of
      SetPollIn and ResetPollIn, write and connect likewise; but FD_CLOSE, which the two sides share, follows
      the most recent call of all four. */
  lemma {:induction false} InterestAfter(e: EvEntry, calls: seq<Interest>)
    requires e.lEvents == {} && e.mask == {}
    ensures var x := CallAll(e, calls);
      && (FD_READ in x.lEvents <==> LastWas(calls, SetIn, ResetIn))
      && (FD_ACCEPT in x.lEvents <==> FD_READ in x.lEvents)
      && (MASK_READABLE in x.mask <==> FD_READ in x.lEvents)
      && (FD_WRITE in x.lEvents <==> LastWas(calls, SetOut, ResetOut))
      && (FD_CONNECT in x.lEvents <==> FD_WRITE in x.lEvents)
      && (MASK_WRITABLE in x.mask <==> FD_WRITE in x.lEvents)
      && (FD_CLOSE in x.lEvents <==> calls != [] && (calls[|calls| - 1].SetIn? || calls[|calls| - 1].SetOut?))
      && x.fd == e.fd && x.hEvent == e.hEvent && x.sink == e.sink
  {
    if calls != [] { InterestAfter(e, calls[..|calls| - 1]); }
  }

  /** A connection that stops polling for output, as the echo client does once connected, no longer hears of a
      close. */
  lemma ResetOutLosesClose(e: EvEntry)
    requires e.lEvents == {} && e.mask == {}
    ensures var x := CallAll(e, [SetIn, SetOut, ResetOut]);
      MASK_READABLE in x.mask && FD_CLOSE !in x.lEvents
  {
    var calls := [SetIn, SetOut, ResetOut];
    assert calls[..2] == [SetIn, SetOut] && calls[..2][..1] == [SetIn];
    InterestAfter(e, calls);
    assert LastWas([SetIn], SetIn, ResetIn);
    assert LastWas([SetIn, SetOut], SetIn, ResetIn);
  }

  // ---------- the registry ----------

  ghost predicate Registered(s: EvRegistry, fd: int) {
    exists e <- s.fds :: e.fd == fd
  }

  ghost predicate Issued(s: EvRegistry, hEvent: int) {
    exists e <- s.fds :: e.hEvent == hEvent
  }

  /** The client registers a socket at most once at a time, and WSACreateEvent returns no handle that is in use. */
  ghost predicate Allowed(s: EvRegistry, op: EvOp) {
    op.AddFd? ==>
      && op.fd != INVALID_SOCKET && !Registered(s, op.fd)
      && (op.hEvent != INVALID_EVENT ==> !Issued(s, op.hEvent))
  }

  ghost predicate AllAllowed(s: EvRegistry, ops: seq<EvOp>)
    decreases |ops|
  {
    ops != [] ==> Allowed(s, ops[0]) && AllAllowed(Step(s, ops[0]), ops[1..])
  }

  ghost predicate Consistent(s: EvRegistry) {
    && |s.fds| <= MAX_EVENTS
    && (forall e <- s.fds :: Marked(s, e))
    && Unique(s.fds)
  }

  ghost predicate Marked(s: EvRegistry, e: EvEntry) {
    (e.fd == INVALID_SOCKET <==> e.hEvent == INVALID_EVENT) && (e.fd == INVALID_SOCKET ==> s.hasRetired)
  }

  ghost predicate Unique(fds: seq<EvEntry>) {
    forall i: nat, j: nat :: i < |fds| && j < |fds| && i != j && Live(fds[i]) ==>
      fds[i].fd != fds[j].fd && fds[i].hEvent != fds[j].hEvent
  }

  lemma StepKeepsUnique(s: EvRegistry, op: EvOp)
    requires Unique(s.fds) && Allowed(s, op)
    ensures Unique(Step(s, op).fds)
  {
    if op.AddFd? {
      forall j: nat | j < |s.fds|
        ensures s.fds[j].fd != op.fd && (op.hEvent != INVALID_EVENT ==> s.fds[j].hEvent != op.hEvent)
      {
        assert s.fds[j] in s.fds;
      }
    }
  }

  lemma StepKeeps(s: EvRegistry, op: EvOp)
    requires Consistent(s) && Allowed(s, op)
    ensures Consistent(Step(s, op))
  {
    var s' := Step(s, op);
    StepKeepsUnique(s, op);
    forall e | e in s'.fds
      ensures Marked(s', e)
    {
      var j: nat :| j < |s'.fds| && s'.fds[j] == e;
      if j < |s.fds| { assert s.fds[j] in s.fds && Marked(s, s.fds[j]); }
    }
  }

  lemma StepAt(s: EvRegistry, op: EvOp, i: nat)
    requires Consistent(s) && i < |s.fds| && Live(s.fds[i])
    ensures i < |Step(s, op).fds|
    ensures var e := Step(s, op).fds[i];
      && (Live(e) <==> op != RemoveFd(s.fds[i].fd)) && e.sink == s.fds[i].sink
      && (Live(e) ==> e.fd == s.fds[i].fd && e.hEvent == s.fds[i].hEvent)
  {
    assert Find(s.fds, s.fds[i].fd) == i;
  }

  /** A live entry outlives a script exactly if the script does not remove its socket; what remains of it is
      then the same registration at the same position. */
  lemma {:induction false} SurvivesUnlessRemoved(s: EvRegistry, ops: seq<EvOp>, i: nat)
    requires Consistent(s) && AllAllowed(s, ops) && i < |s.fds| && Live(s.fds[i])
    ensures Consistent(RunOps(s, ops)) && i < |RunOps(s, ops).fds|
    ensures var e := RunOps(s, ops).fds[i];
      && (Live(e) <==> RemoveFd(s.fds[i].fd) !in ops) && e.sink == s.fds[i].sink
      && (Live(e) ==> e.fd == s.fds[i].fd && e.hEvent == s.fds[i].hEvent)
    decreases |ops|
  {
    if ops != [] {
      var s', fd := Step(s, ops[0]), s.fds[i].fd;
      StepKeeps(s, ops[0]);
      assert ops == [ops[0]] + ops[1..];
      StepAt(s, ops[0], i);
      RunOpsFollows(s', ops[1..]);
      if ops[0] == RemoveFd(fd) {
        RunOpsKeeps(s', ops[1..]);
      } else {
        SurvivesUnlessRemoved(s', ops[1..], i);
      }
    }
  }

  lemma {:induction false} RunOpsKeeps(s: EvRegistry, ops: seq<EvOp>)
    requires Consistent(s) && AllAllowed(s, ops)
    ensures Consistent(RunOps(s, ops))
    decreases |ops|
  {
    if ops != [] {
      StepKeeps(s, ops[0]);
      RunOpsKeeps(Step(s, ops[0]), ops[1..]);
    }
  }

  lemma {:induction false} AllAllowedOn(s: EvRegistry, a: seq<EvOp>, b: seq<EvOp>)
    ensures AllAllowed(s, a + b) <==> AllAllowed(s, a) && AllAllowed(RunOps(s, a), b)
    decreases |a|
  {
    if a == [] {
      assert a + b == b;
    } else {
      assert (a + b)[1..] == a[1..] + b;
      AllAllowedOn(Step(s, a[0]), a[1..], b);
    }
  }

  // ---------- interest of a registered socket ----------

  /** The interest calls a script makes on a socket. */
  function InterestCalls(ops: seq<EvOp>, fd: int): seq<Interest> {
    if ops == [] then []
    else (if ops[0].Poll? && ops[0].fd == fd then [ops[0].call] else []) + InterestCalls(ops[1..], fd)
  }

  lemma {:induction false} CallFirst(e: EvEntry, c: Interest, calls: seq<Interest>)
    ensures CallAll(e, [c] + calls) == CallAll(Interested(e, c), calls)
  {
    var all := [c] + calls;
    if calls == [] {
      assert all == [c] && [c][..0] == [];
    } else {
      assert all[..|all| - 1] == [c] + calls[..|calls| - 1];
      CallFirst(e, c, calls[..|calls| - 1]);
    }
  }

  /** What the registry holds for a socket that stays registered is the result of the calls made on that socket,
      and of no others. */
  lemma {:induction false} EntryHistory(s: EvRegistry, ops: seq<EvOp>, i: nat)
    requires Consistent(s) && AllAllowed(s, ops) && i < |s.fds| && Live(s.fds[i]) && RemoveFd(s.fds[i].fd) !in ops
    ensures i < |RunOps(s, ops).fds|
    ensures RunOps(s, ops).fds[i] == CallAll(s.fds[i], InterestCalls(ops, s.fds[i].fd))
    decreases |ops|
  {
    if ops != [] {
      var s', fd := Step(s, ops[0]), s.fds[i].fd;
      StepKeeps(s, ops[0]);
      StepAt(s, ops[0], i);
      assert Find(s.fds, fd) == i;
      assert ops == [ops[0]] + ops[1..];
      EntryHistory(s', ops[1..], i);
      var rest := InterestCalls(ops[1..], fd);
      if ops[0].Poll? && ops[0].fd == fd {
        assert s'.fds[i] == Interested(s.fds[i], ops[0].call);
        CallFirst(s.fds[i], ops[0].call, rest);
      } else {
        assert s'.fds[i] == s.fds[i];
        assert InterestCalls(ops, fd) == rest;
      }
    }
  }

  // ---------- the wait index and its lookup ----------

  /** Position i holds the k-th live entry, counting from 0 in registration order. */
  ghost predicate IsNthLive(fds: seq<EvEntry>, i: nat, k: nat) {
    i < |fds| && Live(fds[i]) && Rank(fds, Live, i) == k
  }

  /** A wait index k stands for the k-th live entry. */
  lemma IndexMeansEntry(fds: seq<EvEntry>, k: nat) returns (i: nat)
    requires k < |Snapshot(fds)|
    ensures IsNthLive(fds, i, k) && Snapshot(fds)[k] == fds[i].hEvent
  {
    i := KeptOrigin(fds, Live, k);
  }

  ghost predicate Reissued(ops: seq<EvOp>, hEvent: int) {
    exists op <- ops :: op.AddFd? && op.hEvent == hEvent
  }

  /** Before any callback has run, looking up the k-th handle finds the k-th live entry. */
  lemma LookupFindsIt(s: EvRegistry, k: nat)
    requires Consistent(s) && k < |Snapshot(s.fds)|
    ensures IsNthLive(s.fds, FindEvent(s.fds, Snapshot(s.fds)[k]), k)
  {
    var i := IndexMeansEntry(s.fds, k);
    assert FindEvent(s.fds, s.fds[i].hEvent) == i;
  }

  /** After the timer callbacks the lookup by handle finds that same registration just if no callback removed
      it; if one did, it finds nothing, provided no new registration was given the handle it freed. */
  lemma LookupAfterTimers(s: EvRegistry, ops: seq<EvOp>, i: nat)
    requires Consistent(s) && AllAllowed(s, ops) && i < |s.fds| && Live(s.fds[i])
    ensures var s' := RunOps(s, ops);
      var j := FindEvent(s'.fds, s.fds[i].hEvent);
      && (j == i <==> RemoveFd(s.fds[i].fd) !in ops)
      && (j == i ==> i < |s'.fds| && s'.fds[i].fd == s.fds[i].fd && s'.fds[i].sink == s.fds[i].sink)
      && (j != i && !Reissued(ops, s.fds[i].hEvent) ==> j == |s'.fds|)
  {
    var s', hEvent := RunOps(s, ops), s.fds[i].hEvent;
    SurvivesUnlessRemoved(s, ops, i);
    RunOpsFollows(s, ops);
    var j := FindEvent(s'.fds, hEvent);
    if j < |s'.fds| && j != i && !Reissued(ops, hEvent) {
      HandleOrigin(s, ops, j, hEvent);
      assert false;
    }
  }

  /** A handle in the registry was there at that position before the script, or the script brought it. */
  lemma {:induction false} HandleOrigin(s: EvRegistry, ops: seq<EvOp>, j: nat, hEvent: int)
    requires j < |RunOps(s, ops).fds| && RunOps(s, ops).fds[j].hEvent == hEvent != INVALID_EVENT
    ensures Reissued(ops, hEvent) || (j < |s.fds| && s.fds[j].hEvent == hEvent)
    decreases |ops|
  {
    if ops != [] {
      HandleOrigin(Step(s, ops[0]), ops[1..], j, hEvent);
      assert ops[0] in ops && forall op <- ops[1..] :: op in ops;
    }
  }

  /** Windows may reuse a closed handle: a timer callback that removes the signalled socket and adds another
      then gets the other one dispatched, with the events that were waited for on the first. */
  lemma ReusedHandleMisleads(s: EvRegistry, i: nat, fd: int, sink: nat)
    requires Consistent(s) && i < |s.fds| < MAX_EVENTS && Live(s.fds[i])
    requires fd != INVALID_SOCKET && !Registered(s, fd)
    ensures var s1 := Step(s, RemoveFd(s.fds[i].fd));
      var s2 := Step(s1, AddFd(fd, sink, s.fds[i].hEvent));
      && Allowed(s1, AddFd(fd, sink, s.fds[i].hEvent))
      && FindEvent(s2.fds, s.fds[i].hEvent) == |s.fds| && s2.fds[|s.fds|].fd == fd
  {
    var hEvent := s.fds[i].hEvent;
    assert Find(s.fds, s.fds[i].fd) == i;
    var s1 := Step(s, RemoveFd(s.fds[i].fd));
    forall j: nat | j < |s1.fds|
      ensures s1.fds[j].hEvent != hEvent && s1.fds[j].fd != fd
    {
      assert s.fds[j] in s.fds;
    }
    var s2 := Step(s1, AddFd(fd, sink, hEvent));
    assert s2.fds[|s.fds|].hEvent == hEvent;
  }

  /** Operation k of the script registers a socket under the handle, with room in the vector, and no later operation
      removes that socket. */
  ghost predicate Reissues(s: EvRegistry, ops: seq<EvOp>, hEvent: int, k: nat) {
    && k < |ops| && ops[k].AddFd? && ops[k].hEvent == hEvent
    && |RunOps(s, ops[..k]).fds| < MAX_EVENTS && RemoveFd(ops[k].fd) !in ops[k + 1..]
  }

  /** The entry that operation k of a script adds is afterwards at the end of the vector it was added to, live exactly
      if its socket is not removed later. */
  lemma AddedAt(s: EvRegistry, ops: seq<EvOp>, k: nat)
    requires Consistent(s) && AllAllowed(s, ops) && k < |ops| && ops[k].AddFd? && ops[k].hEvent != INVALID_EVENT
    requires |RunOps(s, ops[..k]).fds| < MAX_EVENTS
    ensures var s', p := RunOps(s, ops), |RunOps(s, ops[..k]).fds|;
      && Consistent(s') && |s.fds| <= p < |s'.fds|
      && (Live(s'.fds[p]) <==> RemoveFd(ops[k].fd) !in ops[k + 1..])
      && (Live(s'.fds[p]) ==> s'.fds[p].hEvent == ops[k].hEvent)
  {
    var before, after := ops[..k], ops[k..];
    assert ops == before + after && after[1..] == ops[k + 1..];
    RunOpsOn(s, before, after);
    AllAllowedOn(s, before, after);
    RunOpsKeeps(s, before);
    RunOpsFollows(s, before);
    var t := RunOps(s, before);
    StepKeeps(t, ops[k]);
    SurvivesUnlessRemoved(Step(t, ops[k]), ops[k + 1..], |t.fds|);
  }

  /** A handle found where it was not before the script was brought there by an operation that stands. */
  lemma {:induction false} ReissuedBy(s: EvRegistry, ops: seq<EvOp>, j: nat, hEvent: int) returns (k: nat)
    requires Consistent(s) && AllAllowed(s, ops)
    requires j < |RunOps(s, ops).fds| && RunOps(s, ops).fds[j].hEvent == hEvent != INVALID_EVENT
    requires j < |s.fds| ==> s.fds[j].hEvent != hEvent
    ensures Reissues(s, ops, hEvent, k)
    decreases |ops|
  {
    var s' := Step(s, ops[0]);
    StepKeeps(s, ops[0]);
    RunOpsKeeps(s', ops[1..]);
    if j < |s'.fds| && s'.fds[j].hEvent == hEvent {
      k := 0;
      assert ops[..0] == [];
      assert s'.fds[j] in s'.fds && Marked(s', s'.fds[j]);
      var e := RunOps(s', ops[1..]);
      assert e.fds[j] in e.fds && Marked(e, e.fds[j]);
      SurvivesUnlessRemoved(s', ops[1..], j);
    } else {
      k := ReissuedBy(s', ops[1..], j, hEvent);
      assert ops[..k + 1][1..] == ops[1..][..k] && ops[k + 2..] == ops[1..][k + 1..];
      k := k + 1;
    }
  }

  /** After the timer callbacks the lookup by handle leads to another registration than the one that was signalled
      exactly if a callback removed that one and one registered a socket under the handle, with room for it, that no
      later one removed. */
  lemma LookupMisledExactly(s: EvRegistry, ops: seq<EvOp>, i: nat)
    requires Consistent(s) && AllAllowed(s, ops) && i < |s.fds| && Live(s.fds[i])
    ensures var s' := RunOps(s, ops);
      var j := FindEvent(s'.fds, s.fds[i].hEvent);
      j < |s'.fds| && j != i <==>
        RemoveFd(s.fds[i].fd) in ops && exists k: nat :: Reissues(s, ops, s.fds[i].hEvent, k)
  {
    var s', hEvent := RunOps(s, ops), s.fds[i].hEvent;
    var j := FindEvent(s'.fds, hEvent);
    LookupAfterTimers(s, ops, i);
    if j < |s'.fds| && j != i {
      var k := ReissuedBy(s, ops, j, hEvent);
    }
    if k: nat :| Reissues(s, ops, hEvent, k) {
      AddedAt(s, ops, k);
    }
  }

  // ---------- dispatch ----------

  function CalledBits(events: set<Flag>, order: seq<Flag>): seq<Flag> {
    if order == [] then []
    else (if order[0] in events then [order[0]] else []) + CalledBits(events, order[1..])
  }

  ghost predicate HandlersAllowed(s: EvRegistry, bits: seq<Flag>, h: EvHandlers)
    decreases |bits|
  {
    bits != [] ==> AllAllowed(s, h(bits[0])) && HandlersAllowed(RunOps(s, h(bits[0])), bits[1..], h)
  }

  /** Some handler called before the k-th removes the socket. */
  ghost predicate RemovedBefore(bits: seq<Flag>, h: EvHandlers, k: nat, fd: int) {
    exists l: nat :: l < k && l < |bits| && RemoveFd(fd) in h(bits[l])
  }

  /** One call for each of the bits, on the entry of position i as the handlers before it left it. */
  function CallsFor(s: EvRegistry, i: nat, bits: seq<Flag>, h: EvHandlers): seq<EvCall>
    decreases |bits|
  {
    if bits == [] || i >= |s.fds| then []
    else
      [EvCall(bits[0], CallbackFor(bits[0]), s.fds[i])] + CallsFor(RunOps(s, h(bits[0])), i, bits[1..], h)
  }

  /** HandleEvents calls one handler per event that occurred, in its fixed order, whatever the interest mask says:
      the test it makes of the mask lets every event pass. */
  lemma {:induction false} OneCallPerEvent(d: Dispatch, i: nat, events: set<Flag>, order: seq<Flag>,
                                           errors: Flag -> int, h: EvHandlers)
    requires i < |d.s.fds|
    ensures var bits := CalledBits(events, order);
      FiredAll(d, i, events, order, errors, h, AsWritten).on == d.on + CallsFor(d.s, i, bits, h)
    decreases |order|
  {
    if order != [] {
      var bits := CalledBits(events, order);
      assert MASK_READABLE in d.s.fds[i].mask + {MASK_READABLE};
      RunOpsFollows(d.s, h(order[0]));
      OneCallPerEvent(Fired(d, i, events, order[0], errors, h, AsWritten), i, events, order[1..], errors, h);
      if order[0] in events {
        assert bits[1..] == CalledBits(events, order[1..]);
        var rest := CallsFor(RunOps(d.s, h(order[0])), i, bits[1..], h);
        var call := EvCall(order[0], CallbackFor(order[0]), d.s.fds[i]);
        assert d.on + [call] + rest == d.on + ([call] + rest);
      } else {
        assert bits == CalledBits(events, order[1..]);
      }
    }
  }

  // ---------- what a dispatch is ----------

  /** The place of an event bit in the order in which events are handled. */
  function Position(bit: Flag): nat {
    match bit
    case FD_READ => 0
    case FD_CLOSE => 1
    case FD_ACCEPT => 2
    case FD_WRITE => 3
    case FD_CONNECT => 4
  }

  /** Data, the end of the stream and a new connection are read; room to write and a connect that is over are not. */
  predicate RightCall(c: EvCall) {
    && (c.callback == OnReadable <==> c.bit in {FD_READ, FD_CLOSE, FD_ACCEPT})
    && (c.callback == OnWritable <==> c.bit in {FD_WRITE, FD_CONNECT})
  }

  /** What the handlers called do to the registry, one script after the other. */
  ghost function Scripts(on: seq<EvCall>, h: EvHandlers): seq<seq<EvOp>> {
    seq(|on|, k requires 0 <= k < |on| => h(on[k].bit))
  }

  /** Only events that occurred, of the first n bits, are answered: each with the right call, on the given sink. */
  predicate AreRight(on: seq<EvCall>, events: set<Flag>, n: nat, sink: nat) {
    forall c <- on :: c.bit in events && Position(c.bit) < n && RightCall(c) && c.entry.sink == sink
  }

  predicate Answers(on: seq<EvCall>, bit: Flag) {
    exists c <- on :: c.bit == bit
  }

  predicate AreAnswered(on: seq<EvCall>, events: set<Flag>, n: nat) {
    forall bit <- events :: Position(bit) < n ==> Answers(on, bit)
  }

  predicate AreInOrder(on: seq<EvCall>) {
    forall j: nat, k: nat :: j < k < |on| ==> Position(on[j].bit) < Position(on[k].bit)
  }

  /** What a dispatch has done after the first n bits. */
  ghost predicate IsDispatch(d: Dispatch, e: Dispatch, i: nat, events: set<Flag>, n: nat, errors: Flag -> int,
                             h: EvHandlers)
    requires i < |d.s.fds|
  {
    && AreRight(e.on, events, n, d.s.fds[i].sink) && AreAnswered(e.on, events, n) && AreInOrder(e.on)
    && e.err == (if e.on == [] then d.err else errors(e.on[|e.on| - 1].bit))
    && e.s == RunOps(d.s, Flat(Scripts(e.on, h)))
  }

  lemma ScriptsMore(s: EvRegistry, on: seq<EvCall>, c: EvCall, h: EvHandlers)
    ensures RunOps(s, Flat(Scripts(on + [c], h))) == RunOps(RunOps(s, Flat(Scripts(on, h))), h(c.bit))
  {
    assert Scripts(on + [c], h) == Scripts(on, h) + [h(c.bit)];
    FlatOn(Scripts(on, h), h(c.bit));
    RunOpsOn(s, Flat(Scripts(on, h)), h(c.bit));
  }

  lemma SkipsOne(on: seq<EvCall>, events: set<Flag>, bit: Flag, sink: nat)
    requires AreRight(on, events, Position(bit), sink) && AreAnswered(on, events, Position(bit)) && bit !in events
    ensures AreRight(on, events, Position(bit) + 1, sink) && AreAnswered(on, events, Position(bit) + 1)
  {
  }

  lemma AnswersOne(on: seq<EvCall>, events: set<Flag>, c: EvCall)
    requires AreRight(on, events, Position(c.bit), c.entry.sink) && AreAnswered(on, events, Position(c.bit))
    requires AreInOrder(on) && c.bit in events && c.callback == CallbackFor(c.bit)
    ensures AreRight(on + [c], events, Position(c.bit) + 1, c.entry.sink) && AreInOrder(on + [c])
    ensures AreAnswered(on + [c], events, Position(c.bit) + 1)
  {
    assert RightCall(c);
    forall bit | bit in events && Position(bit) < Position(c.bit) + 1
      ensures Answers(on + [c], bit)
    {
      if bit == c.bit { assert c in on + [c]; } else {
        assert Answers(on, bit);
        var c' :| c' in on && c'.bit == bit;
        assert c' in on + [c];
      }
    }
  }

  lemma OneMoreFired(d: Dispatch, e: Dispatch, i: nat, events: set<Flag>, bit: Flag, errors: Flag -> int, h: EvHandlers)
    requires i < |d.s.fds| && IsDispatch(d, e, i, events, Position(bit), errors, h)
    ensures IsDispatch(d, Fired(e, i, events, bit, errors, h, AsWritten), i, events, Position(bit) + 1, errors, h)
  {
    RunOpsFollows(d.s, Flat(Scripts(e.on, h)));
    assert Successor(d.s.fds[i], e.s.fds[i]);
    if bit in events {
      assert MASK_READABLE in e.s.fds[i].mask + {MASK_READABLE};
      var c := EvCall(bit, CallbackFor(bit), e.s.fds[i]);
      AnswersOne(e.on, events, c);
      ScriptsMore(d.s, e.on, c, h);
    } else {
      SkipsOne(e.on, events, bit, d.s.fds[i].sink);
    }
  }

  lemma {:induction false} DispatchOf(d: Dispatch, e: Dispatch, i: nat, events: set<Flag>, n: nat, order: seq<Flag>,
                                      errors: Flag -> int, h: EvHandlers)
    requires i < |d.s.fds| && IsDispatch(d, e, i, events, n, errors, h)
    requires forall k: nat :: k < |order| ==> Position(order[k]) == n + k
    ensures IsDispatch(d, FiredAll(e, i, events, order, errors, h, AsWritten), i, events, n + |order|, errors, h)
    decreases |order|
  {
    if order != [] {
      OneMoreFired(d, e, i, events, order[0], errors, h);
      DispatchOf(d, Fired(e, i, events, order[0], errors, h, AsWritten), i, events, n + 1, order[1..], errors, h);
    }
  }

  /** A dispatch calls OnReadable for FD_READ, FD_CLOSE and FD_ACCEPT and OnWritable for FD_WRITE and FD_CONNECT, just
      once for each event that occurred and for no other, in that order, on the sink of the entry found; it leaves the
      error of the last of them, and the registry as the handlers called made it, one after the other. */
  lemma DispatchIsRight(d: Dispatch, i: nat, events: set<Flag>, errors: Flag -> int, h: EvHandlers)
    requires d.on == [] && i < |d.s.fds|
    ensures var e := FiredAll(d, i, events, Order(), errors, h, AsWritten);
      && (forall c <- e.on :: c.bit in events && RightCall(c) && c.entry.sink == d.s.fds[i].sink)
      && (forall bit <- events :: Answers(e.on, bit)) && AreInOrder(e.on)
      && e.err == (if e.on == [] then d.err else errors(e.on[|e.on| - 1].bit))
      && e.s == RunOps(d.s, Flat(Scripts(e.on, h)))
  {
    DispatchOf(d, d, i, events, 0, Order(), errors, h);
  }

  /** The timer calls of a dispatch are those of the handlers called, one after the other. */
  lemma {:induction false} TimerScriptIs(on: seq<EvCall>, h: LoopHandlers)
    ensures TimerScript(on, h) == Flat(seq(|on|, k requires 0 <= k < |on| => TimerCalls(h(on[k].bit))))
  {
    if on != [] {
      var n := |on| - 1;
      var parts := seq(|on|, k requires 0 <= k < |on| => TimerCalls(h(on[k].bit)));
      assert parts[..n] == seq(n, k requires 0 <= k < n => TimerCalls(h(on[..n][k].bit)));
      TimerScriptIs(on[..n], h);
    }
  }

  // ---------- the mask test ----------

  /** Every call of the dispatch is for an event whose side of the socket is polled, at the moment of the call. */
  ghost predicate AllWanted(calls: seq<EvCall>) {
    forall c <- calls :: AsMeant(c.entry.mask, c.bit)
  }

  lemma {:induction false} AtMostOneCallPerEvent(d: Dispatch, i: nat, events: set<Flag>, order: seq<Flag>,
                                                 errors: Flag -> int, h: EvHandlers, test: MaskTest)
    ensures |FiredAll(d, i, events, order, errors, h, test).on| <= |d.on| + |CalledBits(events, order)|
    decreases |order|
  {
    if order != [] {
      AtMostOneCallPerEvent(Fired(d, i, events, order[0], errors, h, test), i, events, order[1..], errors, h, test);
    }
  }

  lemma {:induction false} AsManyCallsAsBits(s: EvRegistry, i: nat, bits: seq<Flag>, h: EvHandlers)
    requires i < |s.fds|
    ensures |CallsFor(s, i, bits, h)| == |bits|
    decreases |bits|
  {
    if bits != [] {
      RunOpsFollows(s, h(bits[0]));
      AsManyCallsAsBits(RunOps(s, h(bits[0])), i, bits[1..], h);
    }
  }

  /** The dispatch as written does what the masks are kept for exactly if every event that occurred is wanted, by the
      mask the entry has when its turn comes.  If one is not, a handler is called that should not be. */
  lemma {:induction false} MaskIsIgnoredExactly(d: Dispatch, i: nat, events: set<Flag>, order: seq<Flag>,
                                                errors: Flag -> int, h: EvHandlers)
    requires i < |d.s.fds|
    ensures
      FiredAll(d, i, events, order, errors, h, AsWritten) == FiredAll(d, i, events, order, errors, h, AsMeant) <==>
      AllWanted(CallsFor(d.s, i, CalledBits(events, order), h))
    decreases |order|
  {
    if order != [] {
      var bits, rest := CalledBits(events, order), CalledBits(events, order[1..]);
      if order[0] !in events {
        assert bits == rest;
        MaskIsIgnoredExactly(d, i, events, order[1..], errors, h);
      } else {
        assert bits[0] == order[0] && bits[1..] == rest;
        assert MASK_READABLE in d.s.fds[i].mask + {MASK_READABLE};
        var call, s' := EvCall(order[0], CallbackFor(order[0]), d.s.fds[i]), RunOps(d.s, h(order[0]));
        var calls := CallsFor(s', i, rest, h);
        assert CallsFor(d.s, i, bits, h) == [call] + calls;
        assert AllWanted([call] + calls) <==> AsMeant(call.entry.mask, call.bit) && AllWanted(calls) by {
          assert forall c :: c in [call] + calls <==> c == call || c in calls;
        }
        RunOpsFollows(d.s, h(order[0]));
        if AsMeant(call.entry.mask, call.bit) {
          MaskIsIgnoredExactly(Fired(d, i, events, order[0], errors, h, AsMeant), i, events, order[1..], errors, h);
        } else {
          UnwantedIsSkipped(d, i, events, order, errors, h);
        }
      }
    }
  }

  lemma UnwantedIsSkipped(d: Dispatch, i: nat, events: set<Flag>, order: seq<Flag>, errors: Flag -> int, h: EvHandlers)
    requires i < |d.s.fds| && order != [] && order[0] in events && !AsMeant(d.s.fds[i].mask, order[0])
    ensures var meant := FiredAll(d, i, events, order, errors, h, AsMeant);
      |meant.on| < |FiredAll(d, i, events, order, errors, h, AsWritten).on|
  {
    var rest := order[1..];
    AtMostOneCallPerEvent(d.(err := errors(order[0])), i, events, rest, errors, h, AsMeant);
    OneCallPerEvent(d, i, events, order, errors, h);
    AsManyCallsAsBits(d.s, i, CalledBits(events, order), h);
  }

  /** A socket polled on both sides, on which both a read and a write event occur; the handler of the first stops
      polling for output.  The handler of the second is called nevertheless, with a mask that no longer asks for it. */
  lemma CalledWithoutInterest(errors: Flag -> int, h: EvHandlers)
    requires h(FD_READ) == [Poll(5, ResetOut)]
    ensures var s := RunOps(EvRegistry([], false), [AddFd(5, 0, 7), Poll(5, SetIn), Poll(5, SetOut)]);
      var e, d, events := PolledBothWays(), Dispatch(s, 0, []), {FD_READ, FD_WRITE};
      && FiredAll(d, 0, events, Order(), errors, h, AsWritten).on ==
           [EvCall(FD_READ, OnReadable, e), EvCall(FD_WRITE, OnWritable, Interested(e, ResetOut))]
      && FiredAll(d, 0, events, Order(), errors, h, AsMeant).on == [EvCall(FD_READ, OnReadable, e)]
  {
    var e, events := PolledBothWays(), {FD_READ, FD_WRITE};
    var s, s' := EvRegistry([e], false), EvRegistry([Interested(e, ResetOut)], false);
    BecomesPolled();
    assert [Poll(5, ResetOut)][1..] == [];
    OnOnlyEntry(e, ResetOut);
    var d, calls := Dispatch(s, 0, []), CallsFor(s, 0, [FD_READ, FD_WRITE], h);
    ReadThenWrite();
    OneCallPerEvent(d, 0, events, Order(), errors, h);
    assert [FD_READ, FD_WRITE][1..] == [FD_WRITE] && [FD_WRITE][1..] == [];
    assert CallsFor(s', 0, [FD_WRITE], h) == [EvCall(FD_WRITE, OnWritable, Interested(e, ResetOut))];
    var d1 := Fired(d, 0, events, FD_READ, errors, h, AsMeant);
    assert d1 == Dispatch(s', errors(FD_READ), [EvCall(FD_READ, OnReadable, e)]);
    UnwantedWrite(d1, events, errors, h);
  }

  lemma UnwantedWrite(d: Dispatch, events: set<Flag>, errors: Flag -> int, h: EvHandlers)
    requires events == {FD_READ, FD_WRITE} && d.s.fds != [] && MASK_WRITABLE !in d.s.fds[0].mask
    ensures FiredAll(d, 0, events, Order()[1..], errors, h, AsMeant).on == d.on
  {
    var o := Order()[1..];
    assert o == [FD_CLOSE, FD_ACCEPT, FD_WRITE, FD_CONNECT] && o[1..] == [FD_ACCEPT, FD_WRITE, FD_CONNECT];
    assert o[1..][1..] == [FD_WRITE, FD_CONNECT] && [FD_WRITE, FD_CONNECT][1..] == [FD_CONNECT];
    assert [FD_CONNECT][1..] == [];
    var d' := d.(err := errors(FD_WRITE));
    assert FiredAll(d', 0, events, [FD_CONNECT], errors, h, AsMeant) == d';
    assert FiredAll(d, 0, events, [FD_WRITE, FD_CONNECT], errors, h, AsMeant) == d';
    assert FiredAll(d, 0, events, o[1..], errors, h, AsMeant) == d';
  }

  /** The entry of socket 5 after SetPollIn and SetPollOut. */
  function PolledBothWays(): EvEntry {
    EvEntry(5, 7, {FD_READ, FD_ACCEPT, FD_CLOSE, FD_WRITE, FD_CONNECT}, {MASK_READABLE, MASK_WRITABLE}, 0)
  }

  lemma BecomesPolled()
    ensures RunOps(EvRegistry([], false), [AddFd(5, 0, 7), Poll(5, SetIn), Poll(5, SetOut)]) ==
      EvRegistry([PolledBothWays()], false)
  {
    var s0, e := EvRegistry([], false), EvEntry(5, 7, {}, {}, 0);
    var s, rest := EvRegistry([e], false), [Poll(5, SetIn), Poll(5, SetOut)];
    assert [AddFd(5, 0, 7), Poll(5, SetIn), Poll(5, SetOut)] == [AddFd(5, 0, 7)] + rest;
    TwoOps(s, Poll(5, SetIn), Poll(5, SetOut));
    assert Step(s0, AddFd(5, 0, 7)).fds == [e];
    assert ([AddFd(5, 0, 7)] + rest)[1..] == rest;
    OnOnlyEntry(e, SetIn);
    OnOnlyEntry(Interested(e, SetIn), SetOut);
    assert Interested(Interested(e, SetIn), SetOut) == PolledBothWays();
  }

  lemma OnOnlyEntry(e: EvEntry, call: Interest)
    ensures Step(EvRegistry([e], false), Poll(e.fd, call)) == EvRegistry([Interested(e, call)], false)
  {
    assert Find([e], e.fd) == 0;
  }

  lemma TwoOps(s: EvRegistry, a: EvOp, b: EvOp)
    ensures RunOps(s, [a, b]) == Step(Step(s, a), b)
    ensures AllAllowed(s, [a, b]) <==> Allowed(s, a) && Allowed(Step(s, a), b)
  {
    var s1 := Step(s, a);
    assert [a, b][1..] == [b] && [b][1..] == [];
    assert RunOps(s1, [b]) == Step(s1, b) && (AllAllowed(s1, [b]) <==> Allowed(s1, b));
  }

  lemma ReadThenWrite()
    ensures CalledBits({FD_READ, FD_WRITE}, Order()) == [FD_READ, FD_WRITE]
  {
    var o, events := Order()[1..], {FD_READ, FD_WRITE};
    assert o == [FD_CLOSE, FD_ACCEPT, FD_WRITE, FD_CONNECT] && o[1..] == [FD_ACCEPT, FD_WRITE, FD_CONNECT];
    assert o[1..][1..] == [FD_WRITE, FD_CONNECT] && [FD_WRITE, FD_CONNECT][1..] == [FD_CONNECT];
    assert [FD_CONNECT][1..] == [] && CalledBits(events, [FD_CONNECT]) == [];
    assert CalledBits(events, [FD_WRITE, FD_CONNECT]) == [FD_WRITE] && CalledBits(events, o[1..]) == [FD_WRITE];
  }

  // ---------- calls after removal ----------

  /** The k-th call of a dispatch is made on a registration that is still live exactly if no earlier handler of
      the same dispatch removed the socket. */
  lemma {:induction false} CallsLiveExactly(s: EvRegistry, i: nat, bits: seq<Flag>, h: EvHandlers, fd: int, k: nat)
    requires Consistent(s) && i < |s.fds| && HandlersAllowed(s, bits, h) && k < |bits|
    requires Live(s.fds[i]) ==> s.fds[i].fd == fd
    ensures |CallsFor(s, i, bits, h)| == |bits|
    ensures Live(CallsFor(s, i, bits, h)[k].entry) <==> Live(s.fds[i]) && !RemovedBefore(bits, h, k, fd)
    decreases |bits|
  {
    var s' := RunOps(s, h(bits[0]));
    AfterHandler(s, h(bits[0]), i);
    if |bits| > 1 {
      CallsLiveExactly(s', i, bits[1..], h, fd, if k > 0 then k - 1 else 0);
    }
    if k > 0 { ShiftRemoved(bits, h, k, fd); }
  }

  lemma ShiftRemoved(bits: seq<Flag>, h: EvHandlers, k: nat, fd: int)
    requires bits != [] && k > 0
    ensures RemovedBefore(bits, h, k, fd) <==> RemoveFd(fd) in h(bits[0]) || RemovedBefore(bits[1..], h, k - 1, fd)
  {
    if l: nat :| l < k && l < |bits| && RemoveFd(fd) in h(bits[l]) {
      if l > 0 { assert bits[1..][l - 1] == bits[l]; }
    }
    if l: nat :| l < k - 1 && l < |bits[1..]| && RemoveFd(fd) in h(bits[1..][l]) {
      assert bits[l + 1] == bits[1..][l];
    }
  }

  lemma AfterHandler(s: EvRegistry, ops: seq<EvOp>, i: nat)
    requires Consistent(s) && AllAllowed(s, ops) && i < |s.fds|
    ensures var s' := RunOps(s, ops);
      && Consistent(s') && i < |s'.fds|
      && (Live(s'.fds[i]) <==> Live(s.fds[i]) && RemoveFd(s.fds[i].fd) !in ops)
      && (Live(s'.fds[i]) ==> s'.fds[i].fd == s.fds[i].fd && s'.fds[i].hEvent == s.fds[i].hEvent)
  {
    RunOpsKeeps(s, ops);
    RunOpsFollows(s, ops);
    if Live(s.fds[i]) { SurvivesUnlessRemoved(s, ops, i); } else { assert s.fds[i] in s.fds; }
  }

  // ---------- whole runs ----------

  lemma {:induction false} FiredAllKeeps(d: Dispatch, i: nat, events: set<Flag>, order: seq<Flag>,
                                         errors: Flag -> int, h: EvHandlers)
    requires i < |d.s.fds|
    ensures var d' := FiredAll(d, i, events, order, errors, h, AsWritten);
      && Follows(d.s.fds, d'.s.fds)
      && (Consistent(d.s) && HandlersAllowed(d.s, CalledBits(events, order), h) ==> Consistent(d'.s))
    decreases |order|
  {
    if order != [] {
      var bits, d1 := CalledBits(events, order), Fired(d, i, events, order[0], errors, h, AsWritten);
      RunOpsFollows(d.s, h(order[0]));
      FiredAllKeeps(d1, i, events, order[1..], errors, h);
      FollowsTrans(d.s.fds, d1.s.fds, FiredAll(d, i, events, order, errors, h, AsWritten).s.fds);
      if order[0] in events {
        assert MASK_READABLE in d.s.fds[i].mask + {MASK_READABLE};
        assert bits[0] == order[0] && bits[1..] == CalledBits(events, order[1..]);
        if Consistent(d.s) && HandlersAllowed(d.s, bits, h) { RunOpsKeeps(d.s, h(order[0])); }
      } else {
        assert bits == CalledBits(events, order[1..]);
      }
    }
  }

  /** A registry call from outside; a poll in which timer callbacks made `calls` and that then dispatched, or found
      nothing to dispatch to, for the signalled `index`, or was idle; or something that leaves the registry alone. */
  datatype Event =
    | Did(op: EvOp)
    | Dispatched(calls: seq<EvOp>, index: nat, events: set<Flag>, errors: Flag -> int, h: EvHandlers)
    | NotFound(calls: seq<EvOp>)
    | Idle(calls: seq<EvOp>)
    | Nothing

  /** What the event does to the registry.  Only an idle poll compacts it. */
  ghost predicate Performs(s: EvRegistry, ev: Event, s': EvRegistry) {
    match ev
    case Did(op) => s' == Step(s, op)
    case NotFound(calls) => s' == RunOps(s, calls)
    case Idle(calls) => s' == Compacted(RunOps(s, calls))
    case Dispatched(calls, index, events, errors, h) =>
      var t := RunOps(s, calls);
      && index < |Snapshot(s.fds)| && FindEvent(t.fds, Snapshot(s.fds)[index]) < |t.fds|
      && var i := FindEvent(t.fds, Snapshot(s.fds)[index]);
      s' == FiredAll(Dispatch(t, 0, []), i, events, Order(), errors, h, AsWritten).s
    case Nothing => s' == s
  }

  /** The client keeps to its side in the event. */
  ghost predicate Keeps(s: EvRegistry, ev: Event) {
    match ev
    case Did(op) => Allowed(s, op)
    case NotFound(calls) => AllAllowed(s, calls)
    case Idle(calls) => AllAllowed(s, calls)
    case Dispatched(calls, _, events, _, h) =>
      AllAllowed(s, calls) && HandlersAllowed(RunOps(s, calls), CalledBits(events, Order()), h)
    case Nothing => true
  }

  ghost predicate Transition(s: EvRegistry, ev: Event, s': EvRegistry) {
    Performs(s, ev, s') && Keeps(s, ev)
  }

  /** In every reachable state live sockets and handles are pairwise distinct, retired entries have neither and
      are flagged, and there are at most 64 entries. */
  lemma {:induction false} AlwaysConsistent(states: seq<EvRegistry>, events: seq<Event>, k: nat)
    requires |states| == |events| + 1 && states[0] == EvRegistry([], false) && k <= |events|
    requires forall j: nat {:trigger events[j]} :: j < |events| ==> Transition(states[j], events[j], states[j + 1])
    ensures Consistent(states[k])
  {
    if k > 0 {
      AlwaysConsistent(states, events, k - 1);
      TransitionKeeps(states[k - 1], events[k - 1], states[k]);
    }
  }

  lemma TransitionKeeps(s: EvRegistry, ev: Event, s': EvRegistry)
    requires Consistent(s) && Transition(s, ev, s')
    ensures Consistent(s')
  {
    match ev
    case Did(op) => StepKeeps(s, op);
    case NotFound(calls) => RunOpsKeeps(s, calls);
    case Idle(calls) => RunOpsKeeps(s, calls); IdleLeavesClean(RunOps(s, calls));
    case Dispatched(calls, index, events, errors, h) =>
      var t := RunOps(s, calls);
      RunOpsKeeps(s, calls);
      FiredAllKeeps(Dispatch(t, 0, []), FindEvent(t.fds, Snapshot(s.fds)[index]), events, Order(), errors, h);
    case Nothing =>
  }

  // ---------- compaction, and the polls that skip it ----------

  /** After an idle poll the vector is exactly the live entries in registration order: the entry of position i has
      moved to the number of live entries before it. */
  lemma IdleLeavesClean(s: EvRegistry)
    requires Consistent(s)
    ensures var c := Compacted(s);
      && c.fds == LiveOf(s.fds) && !c.hasRetired && Consistent(c) && (forall e <- c.fds :: Live(e))
      && (forall i: nat {:trigger s.fds[i]} :: i < |s.fds| && Live(s.fds[i]) ==>
            Rank(s.fds, InUse, i) < |c.fds| && c.fds[Rank(s.fds, InUse, i)] == s.fds[i])
      && (forall i: nat, j: nat :: i < j < |s.fds| && Live(s.fds[i]) ==>
            Rank(s.fds, InUse, i) < Rank(s.fds, InUse, j))
  {
    var c := Compacted(s);
    forall e ensures e in LiveOf(s.fds) <==> e in s.fds && InUse(e) { KeptMembers(s.fds, InUse, e); }
    forall e | e in s.fds ensures InUse(e) <==> Live(e) { assert Marked(s, e); }
    KeptIsShorter(s.fds, InUse);
    if !s.hasRetired { KeptAll(s.fds, InUse); }
    LiveOfUnique(s);
    forall i: nat | i < |s.fds| && Live(s.fds[i])
      ensures Rank(s.fds, InUse, i) < |c.fds| && c.fds[Rank(s.fds, InUse, i)] == s.fds[i]
    {
      KeptAt(s.fds, InUse, i);
    }
    forall i: nat, j: nat | i < j < |s.fds| && Live(s.fds[i])
      ensures Rank(s.fds, InUse, i) < Rank(s.fds, InUse, j)
    {
      RankGrows(s.fds, InUse, i, j);
    }
    forall e | e in c.fds ensures Marked(c, e) { assert Marked(s, e); }
  }

  lemma LiveOfUnique(s: EvRegistry)
    requires Unique(s.fds)
    ensures Unique(LiveOf(s.fds))
  {
    var l := LiveOf(s.fds);
    forall a: nat, b: nat | a < |l| && b < |l| && a != b && Live(l[a])
      ensures l[a].fd != l[b].fd && l[a].hEvent != l[b].hEvent
    {
      var i := KeptOrigin(s.fds, InUse, a);
      var j := KeptOrigin(s.fds, InUse, b);
      assert i != j;
    }
  }

  /** Until a poll is idle nothing leaves the vector: entries keep their positions, and retired ones stay in it. */
  lemma {:induction false} NothingLeaves(states: seq<EvRegistry>, events: seq<Event>, k: nat, n: nat)
    requires |states| == |events| + 1 && k <= n <= |events|
    requires forall j: nat {:trigger events[j]} :: j < |events| ==> Performs(states[j], events[j], states[j + 1])
    requires forall j: nat {:trigger events[j]} :: k <= j < n ==> !events[j].Idle?
    ensures Follows(states[k].fds, states[n].fds)
    decreases n
  {
    if k < n {
      NothingLeaves(states, events, k, n - 1);
      BusyEventFollows(states[n - 1], events[n - 1], states[n]);
      FollowsTrans(states[k].fds, states[n - 1].fds, states[n].fds);
    }
  }

  lemma BusyEventFollows(s: EvRegistry, ev: Event, s': EvRegistry)
    requires Performs(s, ev, s') && !ev.Idle?
    ensures Follows(s.fds, s'.fds)
  {
    match ev
    case Did(op) => RunOpsFollows(s, [op]); assert [op][1..] == [];
    case NotFound(calls) => RunOpsFollows(s, calls);
    case Dispatched(calls, index, events, errors, h) =>
      var t := RunOps(s, calls);
      RunOpsFollows(s, calls);
      FiredAllKeeps(Dispatch(t, 0, []), FindEvent(t.fds, Snapshot(s.fds)[index]), events, Order(), errors, h);
      FollowsTrans(s.fds, t.fds, s'.fds);
    case Nothing =>
  }

  /** AddFd is refused although fewer than 64 sockets are registered exactly if the vector is full and holds a retired
      entry. */
  lemma RefusedTooEarlyExactly(s: EvRegistry, fd: int, sink: nat, hEvent: int)
    requires Consistent(s) && hEvent != INVALID_EVENT
    ensures Step(s, AddFd(fd, sink, hEvent)) == s && |LiveOf(s.fds)| < MAX_EVENTS <==>
      |s.fds| == MAX_EVENTS && exists e <- s.fds :: !InUse(e)
  {
    KeptIsShorter(s.fds, InUse);
  }

  /** Registers and removes n sockets, one after the other. */
  function Churn(n: nat): seq<EvOp> {
    if n == 0 then [] else Churn(n - 1) + [AddFd(n, 0, n), RemoveFd(n)]
  }

  lemma {:induction false} ChurnFills(n: nat)
    requires n <= MAX_EVENTS
    ensures var s := RunOps(EvRegistry([], false), Churn(n));
      && AllAllowed(EvRegistry([], false), Churn(n))
      && |s.fds| == n && forall e <- s.fds :: e.fd == INVALID_SOCKET && e.hEvent == INVALID_EVENT
  {
    if n > 0 {
      var s0, ops := EvRegistry([], false), [AddFd(n, 0, n), RemoveFd(n)];
      ChurnFills(n - 1);
      RunOpsOn(s0, Churn(n - 1), ops);
      AllAllowedOn(s0, Churn(n - 1), ops);
      ComeAndGo(RunOps(s0, Churn(n - 1)), n);
    }
  }

  lemma ComeAndGo(s: EvRegistry, n: nat)
    requires 0 < n <= MAX_EVENTS && |s.fds| == n - 1
    requires forall e <- s.fds :: e.fd == INVALID_SOCKET && e.hEvent == INVALID_EVENT
    ensures var ops := [AddFd(n, 0, n), RemoveFd(n)]; var s' := RunOps(s, ops);
      && AllAllowed(s, ops) && |s'.fds| == n
      && forall e <- s'.fds :: e.fd == INVALID_SOCKET && e.hEvent == INVALID_EVENT
  {
    TwoOps(s, AddFd(n, 0, n), RemoveFd(n));
    var e := EvEntry(n, n, {}, {}, 0);
    assert (s.fds + [e])[n - 1].fd == n && Find(s.fds + [e], n) == n - 1;
    assert (s.fds + [e])[n - 1 := Retired(e)] == s.fds + [Retired(e)];
  }

  /** After 64 sockets have come and gone between two idle polls none is registered and yet AddFd is refused. */
  lemma FullOfRetired(fd: int, sink: nat, hEvent: int)
    ensures var s := RunOps(EvRegistry([], false), Churn(MAX_EVENTS));
      && AllAllowed(EvRegistry([], false), Churn(MAX_EVENTS))
      && LiveOf(s.fds) == [] && Step(s, AddFd(fd, sink, hEvent)) == s
  {
    ChurnFills(MAX_EVENTS);
    var s := RunOps(EvRegistry([], false), Churn(MAX_EVENTS));
    if LiveOf(s.fds) != [] { KeptMembers(s.fds, InUse, LiveOf(s.fds)[0]); }
  }

  /** Two events pending on a socket polled both ways, and the handler of the first removes the socket: the second call
      is made on the retired entry. */
  lemma RemovedThenCalled(errors: Flag -> int, h: EvHandlers)
    requires h(FD_READ) == [RemoveFd(5)]
    ensures var s := RunOps(EvRegistry([], false), [AddFd(5, 0, 7), Poll(5, SetIn), Poll(5, SetOut)]);
      FiredAll(Dispatch(s, 0, []), 0, {FD_READ, FD_WRITE}, Order(), errors, h, AsWritten).on ==
        [EvCall(FD_READ, OnReadable, PolledBothWays()), EvCall(FD_WRITE, OnWritable, Retired(PolledBothWays()))]
  {
    var e := PolledBothWays();
    var s, events := EvRegistry([e], false), {FD_READ, FD_WRITE};
    BecomesPolled();
    ReadThenWrite();
    OneCallPerEvent(Dispatch(s, 0, []), 0, events, Order(), errors, h);
    assert [RemoveFd(5)][1..] == [] && [FD_READ, FD_WRITE][1..] == [FD_WRITE] && [FD_WRITE][1..] == [];
    assert Find(s.fds, 5) == 0;
    var s' := RunOps(s, h(FD_READ));
    assert s'.fds == [Retired(e)];
    assert CallsFor(s', 0, [FD_WRITE], h) == [EvCall(FD_WRITE, OnWritable, Retired(e))];
  }
}
