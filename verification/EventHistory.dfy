/** What the WSAEventSelect() reactor holds for a registered socket, in every reachable state: the result of the
    interest calls made on that socket since it was registered, across polls, dispatches and compactions. */
module EventHistory {
  import opened Compaction
  import opened EventLaws
  import opened EventModel
  import opened Winsock

  /** What the handlers of these event bits do, in order. */
  function HandlerOps(bits: seq<Flag>, h: EvHandlers): seq<EvOp> {
    if bits == [] then [] else h(bits[0]) + HandlerOps(bits[1..], h)
  }

  /** The registry calls made in one event, by the client, by timer callbacks and by handlers. */
  function OpsOf(ev: Event): seq<EvOp> {
    match ev
    case Did(op) => [op]
    case Dispatched(calls, _, events, _, h) => calls + HandlerOps(CalledBits(events, Order()), h)
    case NotFound(calls) => calls
    case Idle(calls) => calls
    case Nothing => []
  }

  /** The registry calls made in a run, in order. */
  function History(events: seq<Event>): seq<EvOp> {
    if events == [] then [] else History(events[..|events| - 1]) + OpsOf(events[|events| - 1])
  }

  /** The entry is the one registered by call a of the history, which no later call removes, changed by just the
      interest calls made on its socket since. */
  ghost predicate Since(e: EvEntry, ops: seq<EvOp>, a: nat) {
    && a < |ops| && ops[a] == AddFd(e.fd, e.sink, e.hEvent) && RemoveFd(e.fd) !in ops[a + 1..]
    && e == CallAll(EvEntry(e.fd, e.hEvent, {}, {}, e.sink), InterestCalls(ops[a + 1..], e.fd))
  }

  ghost predicate HasHistory(e: EvEntry, ops: seq<EvOp>) {
    exists a: nat :: Since(e, ops, a)
  }

  ghost predicate Explained(s: EvRegistry, ops: seq<EvOp>) {
    forall e <- s.fds :: Live(e) ==> HasHistory(e, ops)
  }

  lemma {:induction false} InterestCallsOn(ops: seq<EvOp>, op: EvOp, fd: int)
    ensures InterestCalls(ops + [op], fd) ==
      InterestCalls(ops, fd) + if op.Poll? && op.fd == fd then [op.call] else []
  {
    if ops == [] {
      assert ops + [op] == [op] && [op][1..] == [];
    } else {
      assert (ops + [op])[1..] == ops[1..] + [op];
      InterestCallsOn(ops[1..], op, fd);
    }
  }

  lemma InterestGrows(e: EvEntry, ops: seq<EvOp>, op: EvOp, fd: int)
    ensures var e' := CallAll(e, InterestCalls(ops, fd));
      CallAll(e, InterestCalls(ops + [op], fd)) == if op.Poll? && op.fd == fd then Interested(e', op.call) else e'
  {
    var calls := InterestCalls(ops, fd);
    InterestCallsOn(ops, op, fd);
    if op.Poll? && op.fd == fd {
      assert (calls + [op.call])[..|calls|] == calls;
    } else {
      assert calls + [] == calls;
    }
  }

  /** One more call: an entry it does not remove keeps its history. */
  lemma SinceGrows(e: EvEntry, e': EvEntry, ops: seq<EvOp>, op: EvOp, a: nat)
    requires Since(e, ops, a) && op != RemoveFd(e.fd)
    requires e' == if op.Poll? && op.fd == e.fd then Interested(e, op.call) else e
    ensures Since(e', ops + [op], a)
  {
    var later, later' := ops[a + 1..], (ops + [op])[a + 1..];
    assert later' == later + [op];
    InterestGrows(EvEntry(e.fd, e.hEvent, {}, {}, e.sink), later, op, e.fd);
    assert e'.fd == e.fd && e'.hEvent == e.hEvent && e'.sink == e.sink;
    assert RemoveFd(e'.fd) !in later' && (ops + [op])[a] == ops[a];
  }

  lemma StepExplains(s: EvRegistry, before: seq<EvOp>, op: EvOp)
    requires Consistent(s) && Allowed(s, op) && Explained(s, before)
    ensures Explained(Step(s, op), before + [op])
  {
    var s' := Step(s, op);
    forall e' | e' in s'.fds && Live(e')
      ensures HasHistory(e', before + [op])
    {
      var j: nat :| j < |s'.fds| && s'.fds[j] == e';
      if j < |s.fds| {
        assert s.fds[j] in s.fds && Marked(s, s.fds[j]) && Live(s.fds[j]);
        StepAt(s, op, j);
        assert Find(s.fds, s.fds[j].fd) == j;
        assert HasHistory(s.fds[j], before);
        var a: nat :| Since(s.fds[j], before, a);
        SinceGrows(s.fds[j], e', before, op, a);
      } else {
        assert (before + [op])[|before| + 1..] == [];
        assert Since(e', before + [op], |before|);
      }
    }
  }

  lemma {:induction false} OpsExplain(s: EvRegistry, before: seq<EvOp>, ops: seq<EvOp>)
    requires Consistent(s) && AllAllowed(s, ops) && Explained(s, before)
    ensures Explained(RunOps(s, ops), before + ops)
    decreases |ops|
  {
    if ops == [] {
      assert before + ops == before;
    } else {
      StepKeeps(s, ops[0]);
      StepExplains(s, before, ops[0]);
      OpsExplain(Step(s, ops[0]), before + [ops[0]], ops[1..]);
      assert before + [ops[0]] + ops[1..] == before + ops;
    }
  }

  /** A dispatch does to the registry what its handlers do, one after the other. */
  lemma {:induction false} DispatchIsScript(d: Dispatch, i: nat, events: set<Flag>, order: seq<Flag>,
                                            errors: Flag -> int, h: EvHandlers)
    requires i < |d.s.fds|
    ensures FiredAll(d, i, events, order, errors, h, AsWritten).s ==
      RunOps(d.s, HandlerOps(CalledBits(events, order), h))
    decreases |order|
  {
    if order != [] {
      var bits, rest := CalledBits(events, order), CalledBits(events, order[1..]);
      assert MASK_READABLE in d.s.fds[i].mask + {MASK_READABLE};
      RunOpsFollows(d.s, h(order[0]));
      DispatchIsScript(Fired(d, i, events, order[0], errors, h, AsWritten), i, events, order[1..], errors, h);
      if order[0] in events {
        assert bits[0] == order[0] && bits[1..] == rest;
        RunOpsOn(d.s, h(order[0]), HandlerOps(rest, h));
      } else {
        assert bits == rest;
      }
    }
  }

  lemma {:induction false} HandlersAreAllowed(s: EvRegistry, bits: seq<Flag>, h: EvHandlers)
    requires HandlersAllowed(s, bits, h)
    ensures AllAllowed(s, HandlerOps(bits, h))
    decreases |bits|
  {
    if bits != [] {
      HandlersAreAllowed(RunOps(s, h(bits[0])), bits[1..], h);
      AllAllowedOn(s, h(bits[0]), HandlerOps(bits[1..], h));
    }
  }

  /** An event is its registry calls, and then, if it is an idle poll, a compaction. */
  lemma EventIsScript(s: EvRegistry, ev: Event, s': EvRegistry)
    requires Transition(s, ev, s')
    ensures AllAllowed(s, OpsOf(ev))
    ensures s' == if ev.Idle? then Compacted(RunOps(s, OpsOf(ev))) else RunOps(s, OpsOf(ev))
  {
    match ev
    case Did(op) => assert [op][1..] == [];
    case Dispatched(calls, index, events, errors, h) =>
      var t, bits := RunOps(s, calls), CalledBits(events, Order());
      DispatchIsScript(Dispatch(t, 0, []), FindEvent(t.fds, Snapshot(s.fds)[index]), events, Order(), errors, h);
      RunOpsOn(s, calls, HandlerOps(bits, h));
      HandlersAreAllowed(t, bits, h);
      AllAllowedOn(s, calls, HandlerOps(bits, h));
    case _ =>
  }

  lemma CompactionExplains(s: EvRegistry, ops: seq<EvOp>)
    requires Explained(s, ops)
    ensures Explained(Compacted(s), ops)
  {
    forall e | e in Compacted(s).fds && Live(e)
      ensures HasHistory(e, ops)
    {
      if s.hasRetired { KeptMembers(s.fds, InUse, e); }
    }
  }

  /** In every reachable state the registry's entry of a registered socket is that of its registration, changed by just
      the interest calls made on the socket since. */
  lemma {:induction false} EveryEntryHasHistory(states: seq<EvRegistry>, events: seq<Event>, k: nat)
    requires |states| == |events| + 1 && states[0] == EvRegistry([], false) && k <= |events|
    requires forall j: nat {:trigger events[j]} :: j < |events| ==> Transition(states[j], events[j], states[j + 1])
    ensures Explained(states[k], History(events[..k]))
  {
    if k > 0 {
      var s, ev := states[k - 1], events[k - 1];
      EveryEntryHasHistory(states, events, k - 1);
      AlwaysConsistent(states, events, k - 1);
      EventIsScript(s, ev, states[k]);
      assert events[..k][..k - 1] == events[..k - 1];
      OpsExplain(s, History(events[..k - 1]), OpsOf(ev));
      if ev.Idle? { CompactionExplains(RunOps(s, OpsOf(ev)), History(events[..k])); }
    }
  }

  /** So in every reachable state the interest of a registered socket is what its own calls since its registration say:
      for reading and writing the last call of that side decides, and for closing the last call of all. */
  lemma InterestAlways(states: seq<EvRegistry>, events: seq<Event>, k: nat, e: EvEntry)
    returns (a: nat, calls: seq<Interest>)
    requires |states| == |events| + 1 && states[0] == EvRegistry([], false) && k <= |events|
    requires forall j: nat {:trigger events[j]} :: j < |events| ==> Transition(states[j], events[j], states[j + 1])
    requires e in states[k].fds && Live(e)
    ensures Since(e, History(events[..k]), a) && calls == InterestCalls(History(events[..k])[a + 1..], e.fd)
    ensures FD_READ in e.lEvents <==> LastWas(calls, SetIn, ResetIn)
    ensures FD_WRITE in e.lEvents <==> LastWas(calls, SetOut, ResetOut)
    ensures FD_CLOSE in e.lEvents <==> calls != [] && (calls[|calls| - 1].SetIn? || calls[|calls| - 1].SetOut?)
    ensures MASK_READABLE in e.mask <==> FD_READ in e.lEvents
    ensures MASK_WRITABLE in e.mask <==> FD_WRITE in e.lEvents
  {
    EveryEntryHasHistory(states, events, k);
    var ops := History(events[..k]);
    assert HasHistory(e, ops);
    a :| Since(e, ops, a);
    calls := InterestCalls(ops[a + 1..], e.fd);
    InterestAfter(EvEntry(e.fd, e.hEvent, {}, {}, e.sink), calls);
  }
}
