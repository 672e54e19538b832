/** The event-based overlapped I/O service: contexts found by the handle of their event.  A context is named by its
    position in the order of allocation. */
module OverlappedModel {
  import opened Options
  import opened Winsock

  datatype IoCtx = IoCtx(fd: int, hEvent: int, deleted: bool)

  /** `size` is the number of entries the map keeps (see Counted). */
  datatype Io = Io(ctxs: seq<IoCtx>, fds: map<int, nat>, size: nat)

  /** `hEvent` of an Alloc is what WSACreateEvent returns. */
  datatype IoOp = Alloc(fd: int, hEvent: int) | Free(ctx: nat)

  datatype Exec = Exec(state: Io, useAfterDelete: bool)

  function Step(s: Io, op: IoOp): Exec {
    match op
    case Alloc(fd, hEvent) =>
      if s.size >= MAX_EVENTS || hEvent == INVALID_EVENT then Exec(s, false)
      else Exec(Io(s.ctxs + [IoCtx(fd, hEvent, false)], s.fds[hEvent := |s.ctxs|],
                   if hEvent in s.fds then s.size else s.size + 1), false)
    case Free(c) =>
      if c >= |s.ctxs| then Exec(s, false)
      else if s.ctxs[c].deleted then Exec(s, true)
      else Exec(Io(s.ctxs[c := IoCtx(INVALID_SOCKET, INVALID_EVENT, true)], s.fds - {s.ctxs[c].hEvent},
                   if s.ctxs[c].hEvent in s.fds && s.size > 0 then s.size - 1 else s.size), false)
  }

  function RunOps(s: Io, ops: seq<IoOp>): Exec
    decreases |ops|
  {
    if ops == [] then Exec(s, false)
    else
      var e := Step(s, ops[0]);
      if e.useAfterDelete then e else RunOps(e.state, ops[1..])
  }

  /** WSACreateEvent returns no handle in use, and the application frees only what it has. */
  ghost predicate Allowed(s: Io, op: IoOp) {
    match op
    case Alloc(_, hEvent) => hEvent == INVALID_EVENT || hEvent !in s.fds
    case Free(c) => c < |s.ctxs| && !s.ctxs[c].deleted
  }

  ghost predicate AllAllowed(s: Io, ops: seq<IoOp>)
    decreases |ops|
  {
    ops != [] ==> Allowed(s, ops[0]) && AllAllowed(Step(s, ops[0]).state, ops[1..])
  }

  /** A key of the map leads to a context that is not deleted and has that event. */
  ghost predicate Filed(s: Io, h: int) {
    h in s.fds ==>
      && h != INVALID_EVENT && s.fds[h] < |s.ctxs|
      && !s.ctxs[s.fds[h]].deleted && s.ctxs[s.fds[h]].hEvent == h
  }

  /** A context that is not deleted is in the map under its event. */
  ghost predicate Findable(s: Io, c: nat) {
    c < |s.ctxs| && !s.ctxs[c].deleted ==> s.ctxs[c].hEvent in s.fds && s.fds[s.ctxs[c].hEvent] == c
  }

  /** The map holds exactly the contexts not deleted, each under its own event. */
  ghost predicate Consistent(s: Io) {
    && s.size <= MAX_EVENTS
    && (forall h {:trigger Filed(s, h)} :: Filed(s, h))
    && (forall c: nat {:trigger Findable(s, c)} :: Findable(s, c))
  }

  /** No two events lead to the same context. */
  lemma ContextsDistinct(s: Io, h1: int, h2: int)
    requires Consistent(s) && h1 in s.fds && h2 in s.fds && s.fds[h1] == s.fds[h2]
    ensures h1 == h2
  {
    assert Filed(s, h1) && Filed(s, h2);
  }

  ghost predicate Counted(s: Io) {
    s.size == |s.fds|
  }

  lemma StepCounts(s: Io, op: IoOp)
    requires Counted(s)
    ensures Counted(Step(s, op).state)
  {
    var s' := Step(s, op).state;
    match op
    case Alloc(fd, hEvent) =>
      if s' != s { assert s'.fds.Keys == s.fds.Keys + {hEvent}; }
    case Free(c) =>
      if c < |s.ctxs| && !s.ctxs[c].deleted {
        assert s'.fds.Keys == s.fds.Keys - {s.ctxs[c].hEvent};
      }
      assert |s'.fds| == |s'.fds.Keys| && |s.fds| == |s.fds.Keys|;
  }

  lemma {:induction false} RunOpsCounts(s: Io, ops: seq<IoOp>)
    requires Counted(s)
    ensures Counted(RunOps(s, ops).state)
    decreases |ops|
  {
    if ops != [] {
      StepCounts(s, ops[0]);
      if !Step(s, ops[0]).useAfterDelete { RunOpsCounts(Step(s, ops[0]).state, ops[1..]); }
    }
  }

  lemma StepKeeps(s: Io, op: IoOp)
    requires Consistent(s) && Allowed(s, op)
    ensures !Step(s, op).useAfterDelete && Consistent(Step(s, op).state)
  {
    var s' := Step(s, op).state;
    if op.Free? {
      assert Findable(s, op.ctx);
    }
    forall h ensures Filed(s', h) { assert Filed(s, h); }
    forall c: nat
      ensures Findable(s', c)
    {
      assert Findable(s, c);
      if op.Alloc? && c < |s.ctxs| && !s.ctxs[c].deleted { assert s.ctxs[c].hEvent != op.hEvent || s' == s; }
      if op.Free? && c != op.ctx && c < |s.ctxs| && !s.ctxs[c].deleted {
        assert s.ctxs[c].hEvent != s.ctxs[op.ctx].hEvent;
      }
    }
  }

  /** The context filed under an event, if any. */
  function Found(s: Io, hEvent: int): Option<nat> {
    if hEvent in s.fds then Some(s.fds[hEvent]) else None
  }

  /** An allocation is refused exactly if 64 contexts are filed or there is no event; otherwise it files one new
      context, with the socket and the event it was given, where none was filed before, and changes nothing else. */
  lemma AllocFiles(s: Io, fd: int, hEvent: int)
    requires Consistent(s) && Counted(s) && Allowed(s, Alloc(fd, hEvent))
    ensures var s' := Step(s, Alloc(fd, hEvent)).state;
      if |s.fds| >= 64 || hEvent == INVALID_EVENT then s' == s
      else
        && |s'.ctxs| == |s.ctxs| + 1 && s.ctxs <= s'.ctxs && s'.ctxs[|s.ctxs|] == IoCtx(fd, hEvent, false)
        && Found(s, hEvent).None? && Found(s', hEvent) == Some(|s.ctxs|)
        && forall h :: h != hEvent ==> Found(s', h) == Found(s, h)
  {
  }

  /** Freeing a context deletes it, takes its event out of the map, and changes nothing else. */
  lemma FreeUnfiles(s: Io, c: nat)
    requires Consistent(s) && Allowed(s, Free(c))
    ensures var s' := Step(s, Free(c)).state;
      && |s'.ctxs| == |s.ctxs| && s'.ctxs[c].deleted
      && (forall d: nat :: d < |s.ctxs| && d != c ==> s'.ctxs[d] == s.ctxs[d])
      && (forall h :: Found(s', h) == if Found(s, h) == Some(c) then None else Found(s, h))
  {
    assert Findable(s, c);
    forall h | Found(s, h) == Some(c)
      ensures h == s.ctxs[c].hEvent
    {
      assert Filed(s, h);
    }
  }

  ghost predicate Reissued(ops: seq<IoOp>, hEvent: int) {
    exists op <- ops :: op.Alloc? && op.hEvent == hEvent
  }

  /** Context c of `s` is gone in `s'` exactly if it was or the script frees it, and otherwise the same. */
  ghost predicate Outlives(s: Io, s': Io, ops: seq<IoOp>, c: nat) {
    c < |s.ctxs| ==>
      && c < |s'.ctxs| && (s'.ctxs[c].deleted <==> s.ctxs[c].deleted || Free(c) in ops)
      && (!s'.ctxs[c].deleted ==> s'.ctxs[c] == s.ctxs[c])
  }

  /** A script keeps the service consistent and faults nowhere. */
  lemma {:induction false} RunOpsKeeps(s: Io, ops: seq<IoOp>)
    requires Consistent(s) && AllAllowed(s, ops)
    ensures !RunOps(s, ops).useAfterDelete && Consistent(RunOps(s, ops).state)
    decreases |ops|
  {
    if ops != [] {
      StepKeeps(s, ops[0]);
      RunOpsKeeps(Step(s, ops[0]).state, ops[1..]);
    }
  }

  /** A context outlives a script, under its own event, exactly if the script does not free it. */
  lemma {:induction false} OutlivesUnlessFreed(s: Io, ops: seq<IoOp>, c: nat)
    requires Consistent(s) && AllAllowed(s, ops)
    ensures Outlives(s, RunOps(s, ops).state, ops, c) && |s.ctxs| <= |RunOps(s, ops).state.ctxs|
    decreases |ops|
  {
    if ops != [] {
      StepKeeps(s, ops[0]);
      OutlivesUnlessFreed(Step(s, ops[0]).state, ops[1..], c);
      assert ops == [ops[0]] + ops[1..];
    }
  }

  /** A context the script added sits under a handle the script was given. */
  lemma {:induction false} NewUnderNewHandle(s: Io, ops: seq<IoOp>, h: int)
    requires Consistent(s) && AllAllowed(s, ops)
    requires var s' := RunOps(s, ops).state; h in s'.fds && s'.fds[h] >= |s.ctxs|
    ensures Reissued(ops, h)
    decreases |ops|
  {
    assert Filed(s, h);
    if ops != [] {
      var s' := Step(s, ops[0]).state;
      var e := RunOps(s', ops[1..]).state;
      StepKeeps(s, ops[0]);
      RunOpsKeeps(s', ops[1..]);
      assert ops[0] in ops && forall op <- ops[1..] :: op in ops;
      if e.fds[h] < |s'.ctxs| {
        OutlivesUnlessFreed(s', ops[1..], e.fds[h]);
        assert Filed(e, h);
      } else {
        NewUnderNewHandle(s', ops[1..], h);
      }
    }
  }

  /** What a script has added and not freed has the socket and the event of one of its allocations, and is filed
      under that event. */
  lemma {:induction false} AddedByScript(s: Io, ops: seq<IoOp>, c: nat)
    requires Consistent(s) && AllAllowed(s, ops)
    requires var s' := RunOps(s, ops).state; |s.ctxs| <= c < |s'.ctxs| && !s'.ctxs[c].deleted
    ensures var s' := RunOps(s, ops).state;
      Alloc(s'.ctxs[c].fd, s'.ctxs[c].hEvent) in ops && Found(s', s'.ctxs[c].hEvent) == Some(c)
    decreases |ops|
  {
    var s1 := Step(s, ops[0]).state;
    StepKeeps(s, ops[0]);
    RunOpsKeeps(s1, ops[1..]);
    assert ops[0] in ops && forall op <- ops[1..] :: op in ops;
    assert Findable(RunOps(s, ops).state, c);
    if c < |s1.ctxs| {
      OutlivesUnlessFreed(s1, ops[1..], c);
    } else {
      AddedByScript(s1, ops[1..], c);
    }
  }

  /** Run after the timer callbacks: the context found is dereferenced and its callback does `cb`. */
  function Served(s: Io, hEvent: int, cb: seq<IoOp>): Exec {
    match Found(s, hEvent)
    case None => Exec(s, false)
    case Some(c) => if c >= |s.ctxs| || s.ctxs[c].deleted then Exec(s, true) else RunOps(s, cb)
  }

  /** The context Run dispatches is one that is still allocated, whatever the timer callbacks freed in between.
      It is the one that was waited for exactly if no callback freed that one; and if one did, none is
      dispatched, provided no new context was given the handle. */
  lemma DispatchIsSafe(s: Io, ops: seq<IoOp>, hEvent: int)
    requires Consistent(s) && AllAllowed(s, ops) && hEvent in s.fds
    ensures var s', c := RunOps(s, ops).state, s.fds[hEvent];
      && (Found(s', hEvent).Some? ==> Found(s', hEvent).value < |s'.ctxs| && !s'.ctxs[Found(s', hEvent).value].deleted)
      && (Found(s', hEvent) == Some(c) <==> Free(c) !in ops)
      && (Free(c) in ops && !Reissued(ops, hEvent) ==> Found(s', hEvent) == None)
  {
    RunOpsKeeps(s, ops);
    var s', c := RunOps(s, ops).state, s.fds[hEvent];
    assert Filed(s, hEvent) && Filed(s', hEvent) && Findable(s', c);
    OutlivesUnlessFreed(s, ops, c);
    if hEvent in s'.fds {
      var d := s'.fds[hEvent];
      OutlivesUnlessFreed(s, ops, d);
      assert Findable(s, d);
      if d >= |s.ctxs| { NewUnderNewHandle(s, ops, hEvent); }
    }
  }

  // ---------- whole runs ----------

  /** A call from outside, or Run: the timer callbacks, then, if an event was signalled, the callback of the context
      found under it. */
  datatype Event = App(op: IoOp) | Ran(timerOps: seq<IoOp>, signalled: Option<int>, cb: seq<IoOp>)

  function Next(s: Io, ev: Event): Exec {
    match ev
    case App(op) => Step(s, op)
    case Ran(timerOps, signalled, cb) =>
      var t := RunOps(s, timerOps);
      if t.useAfterDelete || signalled.None? then t else Served(t.state, signalled.value, cb)
  }

  ghost predicate Permitted(s: Io, ev: Event) {
    match ev
    case App(op) => Allowed(s, op)
    case Ran(timerOps, signalled, cb) =>
      var t := RunOps(s, timerOps).state;
      AllAllowed(s, timerOps) && (signalled.Some? && Found(t, signalled.value).Some? ==> AllAllowed(t, cb))
  }

  lemma {:induction false} RunOpsOn(s: Io, a: seq<IoOp>, b: seq<IoOp>)
    requires Consistent(s) && AllAllowed(s, a)
    ensures RunOps(s, a + b) == RunOps(RunOps(s, a).state, b)
    ensures AllAllowed(RunOps(s, a).state, b) ==> AllAllowed(s, a + b)
    decreases |a|
  {
    if a == [] {
      assert a + b == b;
    } else {
      assert (a + b)[1..] == a[1..] + b;
      StepKeeps(s, a[0]);
      RunOpsOn(Step(s, a[0]).state, a[1..], b);
    }
  }

  /** What a turn of Run does is what its timer callbacks do and then, exactly if the signalled event still leads to a
      context, what the callback of that one does. */
  lemma RanIsScript(s: Io, timerOps: seq<IoOp>, signalled: Option<int>, cb: seq<IoOp>)
    requires Consistent(s) && Permitted(s, Ran(timerOps, signalled, cb))
    ensures var ran := signalled.Some? && signalled.value in RunOps(s, timerOps).state.fds;
      var all := timerOps + if ran then cb else [];
      AllAllowed(s, all) && Next(s, Ran(timerOps, signalled, cb)) == RunOps(s, all)
  {
    var t := RunOps(s, timerOps).state;
    RunOpsKeeps(s, timerOps);
    assert timerOps + [] == timerOps;
    if signalled.Some? && signalled.value in t.fds {
      assert Filed(t, signalled.value);
      RunOpsOn(s, timerOps, cb);
    }
  }

  /** So a context is deleted after a turn exactly if it was before, or a timer callback frees it, or a context is
      dispatched whose callback frees it; and otherwise it is as before and filed under its own event. */
  lemma RanDoes(s: Io, timerOps: seq<IoOp>, signalled: Option<int>, cb: seq<IoOp>, c: nat)
    requires Consistent(s) && Permitted(s, Ran(timerOps, signalled, cb)) && c < |s.ctxs|
    ensures var s' := Next(s, Ran(timerOps, signalled, cb)).state;
      var ran := signalled.Some? && signalled.value in RunOps(s, timerOps).state.fds;
      && c < |s'.ctxs|
      && (s'.ctxs[c].deleted <==> s.ctxs[c].deleted || Free(c) in timerOps || (ran && Free(c) in cb))
      && (!s'.ctxs[c].deleted ==> s'.ctxs[c] == s.ctxs[c] && Found(s', s.ctxs[c].hEvent) == Some(c))
      && (s'.ctxs[c].deleted ==> forall h :: Found(s', h) != Some(c))
  {
    var all := timerOps + if signalled.Some? && signalled.value in RunOps(s, timerOps).state.fds then cb else [];
    RanIsScript(s, timerOps, signalled, cb);
    OutlivesUnlessFreed(s, all, c);
    RunOpsKeeps(s, all);
    var s' := RunOps(s, all).state;
    assert Findable(s', c);
    forall h ensures Found(s', h) == Some(c) ==> !s'.ctxs[c].deleted { assert Filed(s', h); }
  }

  ghost predicate Transition(s: Io, ev: Event, s': Io) {
    Permitted(s, ev) && s' == Next(s, ev).state
  }

  /** In every reachable state each key is its context's own event, contexts are distinct, the map has at most 64
      entries and leads to none that is deleted, and no event touches a deleted one. */
  lemma {:induction false} AlwaysConsistent(states: seq<Io>, events: seq<Event>, k: nat)
    requires |states| == |events| + 1 && states[0] == Io([], map[], 0) && k <= |events|
    requires forall j: nat {:trigger events[j]} :: j < |events| ==> Transition(states[j], events[j], states[j + 1])
    ensures Consistent(states[k]) && (k < |events| ==> !Next(states[k], events[k]).useAfterDelete)
    ensures Counted(states[k]) && |states[k].fds| <= MAX_EVENTS
  {
    if k > 0 {
      var j := k - 1;
      AlwaysConsistent(states, events, j);
      assert Transition(states[j], events[j], states[j + 1]);
      EventKeeps(states[j], events[j]);
    }
    if k < |events| {
      assert Transition(states[k], events[k], states[k + 1]);
      EventKeeps(states[k], events[k]);
    }
  }

  lemma EventKeeps(s: Io, ev: Event)
    requires Consistent(s) && Counted(s) && Permitted(s, ev)
    ensures !Next(s, ev).useAfterDelete && Consistent(Next(s, ev).state) && Counted(Next(s, ev).state)
  {
    match ev
    case App(op) => StepKeeps(s, op); StepCounts(s, op);
    case Ran(timerOps, signalled, cb) =>
      RunOpsKeeps(s, timerOps);
      RunOpsCounts(s, timerOps);
      var t := RunOps(s, timerOps).state;
      if signalled.Some? && signalled.value in t.fds {
        assert Filed(t, signalled.value);
        RunOpsKeeps(t, cb);
        RunOpsCounts(t, cb);
      }
  }
}
