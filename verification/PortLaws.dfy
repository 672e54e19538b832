/** Context lifetimes over every interleaving of application, kernel and Run. */
module PortLaws {
  import opened Options
  import opened PortModel
  import opened Winsock

  /** The number of operations started on c whose packets Run has not dequeued. */
  function Outstanding(s: Port, c: nat): nat {
    s.inflight[c] + Queued(s.queue, c)
  }

  function Queued(q: seq<Packet>, c: nat): nat {
    if q == [] then 0 else (if q[0].ctx == c then 1 else 0) + Queued(q[1..], c)
  }

  /** The application's side of the protocol.  `running` is the context whose callback is executing, if any: it
      starts at most one operation per context at a time and none after freeing, sets flags before freeing and frees
      once, frees without a flag only an idle context that is not the running one, and frees the running one only
      with nothing started on it. */
  ghost predicate Allowed(s: Port, op: AppOp, running: Option<nat>) {
    match op
    case Alloc(_, _) => true
    case Arm(c, _) => c < |s.ctxs| && !s.ctxs[c].freed && Outstanding(s, c) == 0
    case Flag(c, _) => c < |s.ctxs| && !s.ctxs[c].freed
    case Free(c) =>
      && c < |s.ctxs| && !s.ctxs[c].freed
      && (s.ctxs[c].flags == {} || running == Some(c) ==> Outstanding(s, c) == 0)
      && (s.ctxs[c].flags == {} ==> running != Some(c))
  }

  /** Application calls keep the protocol, and the kernel completes only what is in flight. */
  ghost predicate Possible(s: Port, act: Act, running: Option<nat>) {
    match act
    case App(op) => Allowed(s, op, running)
    case Kernel(c, _) => c in s.inflight
  }

  ghost predicate AllPossible(s: Port, acts: seq<Act>, running: Option<nat>)
    decreases |acts|
  {
    acts != [] ==> Possible(s, acts[0], running) && AllPossible(Occur(s, acts[0]).state, acts[1..], running)
  }

  /** What holds of each context at all times. */
  ghost predicate Sane(s: Port, c: nat)
    requires c < |s.ctxs|
  {
    var x := s.ctxs[c];
    && Outstanding(s, c) <= 1
    && (x.deleted ==> x.freed && Outstanding(s, c) == 0)
    && (x.freed && !x.deleted ==> x.flags != {})
  }

  ghost predicate Invariant(s: Port) {
    && (forall c: nat {:trigger Sane(s, c)} :: c < |s.ctxs| ==> Sane(s, c))
    && (forall c: nat {:trigger Outstanding(s, c)} :: c >= |s.ctxs| ==> Outstanding(s, c) == 0)
  }

  /** While its own callback runs, a context that has been freed has nothing outstanding and is not deleted. */
  ghost predicate InCallback(s: Port, c: nat) {
    c < |s.ctxs| && !s.ctxs[c].deleted && (s.ctxs[c].freed ==> Outstanding(s, c) == 0)
  }

  /** Contexts that were freed stay freed, deleted ones stay deleted, and only live ones change. */
  ghost predicate Ages(s: Port, s': Port) {
    && |s.ctxs| <= |s'.ctxs|
    && forall c: nat {:trigger s'.ctxs[c]} :: c < |s.ctxs| ==>
      && (s.ctxs[c].freed ==> s'.ctxs[c].freed && s'.ctxs[c].flags == s.ctxs[c].flags)
      && (s.ctxs[c].deleted ==> s'.ctxs[c].deleted)
  }

  /** Every flag bit is a bit of FLAG_LAZY_DELETE, so any flag at all defers the delete. */
  lemma AnyFlagIsLazy(flags: set<Bit>)
    ensures flags * FLAG_LAZY_DELETE == flags
  {
    forall b | b in flags ensures b in FLAG_LAZY_DELETE { assert b == Bit0 || b == Bit1; }
  }

  lemma StepKeeps(s: Port, op: AppOp, running: Option<nat>)
    requires Invariant(s) && Allowed(s, op, running) && (running.Some? ==> InCallback(s, running.value))
    ensures var e := Step(s, op);
      && e.fault.None? && Invariant(e.state) && Ages(s, e.state) && e.state.queue == s.queue
      && (running.Some? ==> InCallback(e.state, running.value))
      && forall c: nat :: c < |s.ctxs| && s.ctxs[c].freed ==>
        e.state.ctxs[c] == s.ctxs[c] && Outstanding(e.state, c) == Outstanding(s, c)
  {
    var s' := Step(s, op).state;
    if !op.Alloc? { assert Sane(s, op.ctx); }
    if op.Free? { AnyFlagIsLazy(s.ctxs[op.ctx].flags); }
    forall c: nat
      ensures Outstanding(s', c) == Outstanding(s, c) + if op == Arm(c, true) then 1 else 0
    {
    }
    forall c: nat | c < |s'.ctxs|
      ensures Sane(s', c)
    {
      if c < |s.ctxs| { assert Sane(s, c); } else { assert Outstanding(s, c) == 0; }
    }
  }

  lemma {:induction false} QueuedAppend(q: seq<Packet>, p: Packet, c: nat)
    ensures Queued(q + [p], c) == Queued(q, c) + if p.ctx == c then 1 else 0
  {
    if q == [] {
      assert q + [p] == [p] && [p][1..] == [];
    } else {
      assert (q + [p])[1..] == q[1..] + [p];
      QueuedAppend(q[1..], p, c);
    }
  }

  /** The kernel never completes an operation into deleted memory. */
  lemma CompleteKeeps(s: Port, c: nat, ok: bool)
    requires Invariant(s) && c in s.inflight
    ensures var e := Complete(s, c, ok);
      && e.fault.None? && Invariant(e.state) && Ages(s, e.state) && e.state.ctxs == s.ctxs
      && forall x: nat :: Outstanding(e.state, x) == Outstanding(s, x)
  {
    assert Outstanding(s, c) >= 1;
    if c < |s.ctxs| { assert Sane(s, c); }
    var s' := Complete(s, c, ok).state;
    forall x: nat
      ensures Outstanding(s', x) == Outstanding(s, x)
    {
      QueuedAppend(s.queue, Packet(c, ok), x);
    }
    forall x: nat | x < |s.ctxs|
      ensures Sane(s', x)
    {
      assert Sane(s, x);
    }
  }

  /** What may happen while a callback runs, or while none does, faults nowhere and leaves every context that was
      freed before as it is. */
  lemma ActKeeps(s: Port, act: Act, running: Option<nat>)
    requires Invariant(s) && Possible(s, act, running) && (running.Some? ==> InCallback(s, running.value))
    ensures var e := Occur(s, act);
      && e.fault.None? && Invariant(e.state) && Ages(s, e.state) && s.queue <= e.state.queue
      && (running.Some? ==> InCallback(e.state, running.value))
      && forall c: nat :: c < |s.ctxs| && s.ctxs[c].freed ==>
        e.state.ctxs[c] == s.ctxs[c] && Outstanding(e.state, c) == Outstanding(s, c)
  {
    match act
    case App(op) => StepKeeps(s, op, running);
    case Kernel(c, ok) => CompleteKeeps(s, c, ok);
  }

  lemma {:induction false} RunActsKeeps(s: Port, acts: seq<Act>, running: Option<nat>)
    requires Invariant(s) && AllPossible(s, acts, running) && (running.Some? ==> InCallback(s, running.value))
    ensures var e := RunActs(s, acts);
      && e.fault.None? && Invariant(e.state) && Ages(s, e.state) && s.queue <= e.state.queue
      && (running.Some? ==> InCallback(e.state, running.value))
      && forall c: nat :: c < |s.ctxs| && s.ctxs[c].freed ==>
        e.state.ctxs[c] == s.ctxs[c] && Outstanding(e.state, c) == Outstanding(s, c)
    decreases |acts|
  {
    if acts != [] {
      ActKeeps(s, acts[0], running);
      RunActsKeeps(Occur(s, acts[0]).state, acts[1..], running);
    }
  }

  /** The state in which the callback of the head packet starts. */
  lemma PoppedState(s: Port) returns (s1: Port)
    requires Invariant(s) && s.queue != []
    ensures s1 == s.(queue := s.queue[1..]) && Invariant(s1)
    ensures var c := s.queue[0].ctx;
      c < |s.ctxs| && !s.ctxs[c].deleted && Outstanding(s, c) == 1 && Outstanding(s1, c) == 0 && InCallback(s1, c)
    ensures forall x: nat :: x != s.queue[0].ctx ==> Outstanding(s1, x) == Outstanding(s, x)
  {
    s1 := s.(queue := s.queue[1..]);
    var c := s.queue[0].ctx;
    assert Outstanding(s, c) >= 1;
    assert Sane(s, c);
    forall x: nat
      ensures Outstanding(s1, x) <= Outstanding(s, x)
      ensures x < |s1.ctxs| ==> Sane(s1, x)
    {
      if x < |s1.ctxs| { assert Sane(s, x); }
    }
  }

  /** The callback of the head packet keeps the protocol, and when Run tests the flags they are set only if the context
      has been freed. */
  ghost predicate GoodCallback(s: Port, cb: seq<Act>)
    requires s.queue != [] && s.queue[0].ctx < |s.ctxs|
  {
    var s1, c := s.(queue := s.queue[1..]), s.queue[0].ctx;
    && AllPossible(s1, cb, Some(c))
    && var s2 := RunActs(s1, cb).state;
    c < |s2.ctxs| && (s2.ctxs[c].flags != {} ==> s2.ctxs[c].freed)
  }

  /** Run touches no deleted context and deletes none twice.  The context whose packet it dequeued is deleted
      afterwards exactly if its operation succeeded and it has been freed, before or by its own callback; and
      then it was not before. */
  lemma DequeueKeeps(s: Port, cb: seq<Act>)
    requires Invariant(s) && s.queue != [] && s.queue[0].ctx < |s.ctxs|
    requires s.queue[0].ok ==> GoodCallback(s, cb)
    ensures var e, c := Dequeue(s, cb), s.queue[0].ctx;
      && e.fault.None? && Invariant(e.state) && Ages(s, e.state)
      && !s.ctxs[c].deleted && (e.state.ctxs[c].deleted <==> s.queue[0].ok && e.state.ctxs[c].freed)
      && forall x: nat :: x < |s.ctxs| && s.ctxs[x].freed && x != c ==>
        e.state.ctxs[x] == s.ctxs[x] && Outstanding(e.state, x) == Outstanding(s, x)
  {
    var s1 := PoppedState(s);
    var c := s.queue[0].ctx;
    if s.queue[0].ok {
      RunActsKeeps(s1, cb, Some(c));
      var s2 := RunActs(s1, cb).state;
      assert Sane(s2, c);
      AnyFlagIsLazy(s2.ctxs[c].flags);
      var s3 := CheckLazy(s2, c).state;
      forall x: nat
        ensures Outstanding(s3, x) == Outstanding(s2, x)
        ensures x < |s3.ctxs| ==> Sane(s3, x)
      {
        if x < |s2.ctxs| { assert Sane(s2, x); }
      }
    }
  }

  // ---------- whole runs ----------

  /** Run's own step, dequeuing a packet with all that happens during its callback, or what happens outside it. */
  datatype Event = Acted(act: Act) | Ran(cb: seq<Act>)

  ghost predicate Permitted(s: Port, ev: Event) {
    match ev
    case Acted(act) => Possible(s, act, None)
    case Ran(cb) =>
      && s.queue != [] && s.queue[0].ctx < |s.ctxs|
      && (s.queue[0].ok ==> GoodCallback(s, cb))
  }

  function Next(s: Port, ev: Event): Exec {
    match ev
    case Acted(act) => Occur(s, act)
    case Ran(cb) => if s.queue != [] && s.queue[0].ctx < |s.ctxs| then Dequeue(s, cb) else Exec(s, None)
  }

  ghost predicate IsRun(states: seq<Port>, events: seq<Event>) {
    && |states| == |events| + 1 && states[0] == Start()
    && forall k: nat {:trigger events[k]} :: k < |events| ==>
      Permitted(states[k], events[k]) && states[k + 1] == Next(states[k], events[k]).state
  }

  /** Safety over all interleavings, with completions arriving at any moment: no event of a run faults, so no context is
      deleted twice, touched after deletion by Run or the application, or written to by the kernel after deletion. */
  lemma {:induction false} NoFaults(states: seq<Port>, events: seq<Event>, k: nat)
    requires IsRun(states, events) && k < |states|
    ensures Invariant(states[k])
    ensures k < |events| ==> Next(states[k], events[k]).fault.None? && Ages(states[k], states[k + 1])
    ensures k < |events| && events[k].Ran? ==> states[k].queue != [] && states[k].queue[0].ctx < |states[k].ctxs|
  {
    if k > 0 { NoFaults(states, events, k - 1); EventKeeps(states[k - 1], events[k - 1]); }
    if k < |events| { EventKeeps(states[k], events[k]); }
  }

  /** Run dequeues the successful packet of context c. */
  ghost predicate Serves(s: Port, ev: Event, c: nat) {
    ev.Ran? && s.queue != [] && s.queue[0] == Packet(c, true)
  }

  /** One event, for the contexts that were freed before it. */
  lemma EventKeeps(s: Port, ev: Event)
    requires Invariant(s) && Permitted(s, ev)
    ensures Next(s, ev).fault.None? && Invariant(Next(s, ev).state) && Ages(s, Next(s, ev).state)
    ensures forall c: nat :: c < |s.ctxs| && s.ctxs[c].freed && !s.ctxs[c].deleted ==>
      (Next(s, ev).state.ctxs[c].deleted <==> Serves(s, ev, c))
  {
    match ev
    case Acted(act) => ActKeeps(s, act, None);
    case Ran(cb) => DequeueKeeps(s, cb);
  }

  /** Some event from the k-th to before the n-th is Run serving the successful packet of c. */
  ghost predicate ServedBetween(states: seq<Port>, events: seq<Event>, k: nat, n: nat, c: nat)
    requires n <= |events| && n < |states|
  {
    exists m: nat :: k <= m < n && Serves(states[m], events[m], c)
  }

  lemma ServedUntil(states: seq<Port>, events: seq<Event>, k: nat, n: nat, c: nat)
    requires k <= n < |events| && n + 1 < |states|
    ensures ServedBetween(states, events, k, n + 1, c) <==>
      ServedBetween(states, events, k, n, c) || Serves(states[n], events[n], c)
  {
  }

  /** A freed context is deleted by an event exactly if that is Run serving its successful packet. */
  lemma FreedStep(states: seq<Port>, events: seq<Event>, n: nat, c: nat)
    requires IsRun(states, events) && n < |events| && c < |states[n].ctxs| && states[n].ctxs[c].freed
    ensures c < |states[n + 1].ctxs| && states[n + 1].ctxs[c].freed
    ensures states[n + 1].ctxs[c].deleted <==> states[n].ctxs[c].deleted || Serves(states[n], events[n], c)
  {
    NoFaults(states, events, n);
    EventKeeps(states[n], events[n]);
    if states[n].ctxs[c].deleted { assert Sane(states[n], c); }
  }

  lemma ServedStep(states: seq<Port>, events: seq<Event>, k: nat, n: nat, c: nat)
    requires IsRun(states, events) && k <= n < |events| && c < |states[n].ctxs| && states[n].ctxs[c].freed
    requires states[n].ctxs[c].deleted <==> ServedBetween(states, events, k, n, c)
    ensures c < |states[n + 1].ctxs| && states[n + 1].ctxs[c].freed
    ensures states[n + 1].ctxs[c].deleted <==> ServedBetween(states, events, k, n + 1, c)
  {
    FreedStep(states, events, n, c);
    ServedUntil(states, events, k, n, c);
  }

  /** Over a whole run: a context that has been freed lazily is deleted by a later state exactly if Run has served its
      successful completion in between. */
  lemma {:induction false} DeletedExactlyOnSuccess(states: seq<Port>, events: seq<Event>, k: nat, n: nat, c: nat)
    requires IsRun(states, events) && k <= n < |states| && c < |states[k].ctxs|
    requires states[k].ctxs[c].freed && !states[k].ctxs[c].deleted
    ensures c < |states[n].ctxs| && states[n].ctxs[c].freed
    ensures states[n].ctxs[c].deleted <==> ServedBetween(states, events, k, n, c)
    decreases n
  {
    if n == k {
      assert !ServedBetween(states, events, k, n, c);
    } else {
      DeletedExactlyOnSuccess(states, events, k, n - 1, c);
      ServedStep(states, events, k, n - 1, c);
    }
  }

  /** A context that was freed lazily and has nothing outstanding is never deleted: its memory is lost.  So it
      is with one whose operation completes unsuccessfully, as FreeOverlapCtx itself brings about by cancelling
      it. */
  lemma {:induction false} LeaksForEver(states: seq<Port>, events: seq<Event>, k: nat, n: nat, c: nat)
    requires IsRun(states, events) && k <= n < |states| && c < |states[k].ctxs|
    requires states[k].ctxs[c].freed && !states[k].ctxs[c].deleted && Outstanding(states[k], c) == 0
    ensures c < |states[n].ctxs| && states[n].ctxs[c] == states[k].ctxs[c] && Outstanding(states[n], c) == 0
    decreases n
  {
    if n > k {
      LeaksForEver(states, events, k, n - 1, c);
      NoFaults(states, events, n - 1);
      var s := states[n - 1];
      match events[n - 1]
      case Acted(act) => ActKeeps(s, act, None);
      case Ran(cb) => DequeueKeeps(s, cb); assert Outstanding(s, s.queue[0].ctx) >= 1;
    }
  }

  /** A failed completion of a freed context leaves exactly that situation behind. */
  lemma FailedCompletionLeaks(s: Port, cb: seq<Act>)
    requires Invariant(s) && s.queue != [] && !s.queue[0].ok
    ensures s.queue[0].ctx < |s.ctxs|
    ensures var e, c := Dequeue(s, cb), s.queue[0].ctx;
      !e.state.ctxs[c].deleted && Outstanding(e.state, c) == 0 && e.state.ctxs == s.ctxs
  {
    var s1 := PoppedState(s);
  }

  // ---------- outside the protocol ----------

  /** FLAG_CANCEL_IO alone was meant to cancel and delete; its bit is one of FLAG_LAZY_DELETE's, so nothing is
      deleted. */
  lemma CancelFlagDefersDelete(s: Port, c: nat)
    requires c < |s.ctxs| && !s.ctxs[c].deleted
    ensures var s' := Step(Step(s, Flag(c, FLAG_CANCEL_IO)).state, Free(c)).state;
      s'.ctxs[c].freed && !s'.ctxs[c].deleted
  {
    AnyFlagIsLazy(s.ctxs[c].flags + FLAG_CANCEL_IO);
    assert Bit1 in s.ctxs[c].flags + FLAG_CANCEL_IO;
  }

  lemma OneAct(s: Port, act: Act)
    ensures RunActs(s, [act]) == Occur(s, act)
  {
    assert [act][1..] == [];
  }

  lemma TwoActs(s: Port, a: Act, b: Act)
    requires Occur(s, a).fault.None?
    ensures RunActs(s, [a, b]) == Occur(Occur(s, a).state, b)
  {
    assert [a, b][1..] == [b];
    OneAct(Occur(s, a).state, b);
  }

  /** Some act sets a flag of context c. */
  ghost predicate Flags(acts: seq<Act>, c: nat) {
    exists act <- acts :: act.App? && act.op.Flag? && act.op.ctx == c && act.op.bits != {}
  }

  /** Act k frees context c, and none before it has set a flag of it. */
  ghost predicate FreesBare(acts: seq<Act>, c: nat, k: nat) {
    k < |acts| && acts[k] == App(Free(c)) && !Flags(acts[..k], c)
  }

  /** Some act starts an operation on context c. */
  ghost predicate Arms(acts: seq<Act>, c: nat) {
    App(Arm(c, true)) in acts
  }

  lemma FlagsSplits(acts: seq<Act>, c: nat)
    requires acts != []
    ensures Flags(acts, c) <==> Flags([acts[0]], c) || Flags(acts[1..], c)
  {
    assert acts == [acts[0]] + acts[1..];
    assert forall act :: act in acts <==> act == acts[0] || act in acts[1..];
    assert acts[0] in [acts[0]];
  }

  lemma FreesBareSplits(acts: seq<Act>, c: nat)
    requires acts != []
    ensures (exists k: nat :: FreesBare(acts, c, k)) <==>
      acts[0] == App(Free(c)) || (!Flags([acts[0]], c) && exists k: nat :: FreesBare(acts[1..], c, k))
  {
    if acts[0] == App(Free(c)) { assert FreesBare(acts, c, 0); }
    if k: nat :| FreesBare(acts, c, k) && k > 0 {
      FlagsSplits(acts[..k], c);
      assert acts[..k][1..] == acts[1..][..k - 1] && FreesBare(acts[1..], c, k - 1);
    }
    if k: nat :| FreesBare(acts[1..], c, k) && !Flags([acts[0]], c) {
      FlagsSplits(acts[..k + 1], c);
      assert acts[..k + 1][1..] == acts[1..][..k];
      assert FreesBare(acts, c, k + 1);
    }
  }

  /** What acts that do not fault do to a context that is not deleted: they delete it exactly if they free it while no
      flag is set; flags stay set; and what is outstanding on it is what was, and what they start. */
  lemma {:induction false} AfterActs(s: Port, acts: seq<Act>, c: nat)
    requires c < |s.ctxs| && !s.ctxs[c].deleted && RunActs(s, acts).fault.None?
    ensures var s' := RunActs(s, acts).state;
      && c < |s'.ctxs|
      && (s'.ctxs[c].deleted <==> s.ctxs[c].flags == {} && exists k: nat :: FreesBare(acts, c, k))
      && (s'.ctxs[c].flags != {} <==> s.ctxs[c].flags != {} || Flags(acts, c))
      && (Outstanding(s', c) > 0 <==> Outstanding(s, c) > 0 || Arms(acts, c))
    decreases |acts|
  {
    if acts != [] {
      var s1 := Occur(s, acts[0]).state;
      FlagsSplits(acts, c);
      FreesBareSplits(acts, c);
      AfterAct(s, acts[0], c);
      assert acts == [acts[0]] + acts[1..];
      if s1.ctxs[c].deleted {
        DeletedIsDone(s1, acts[1..], c);
      } else {
        AfterActs(s1, acts[1..], c);
      }
    }
  }

  lemma AfterAct(s: Port, act: Act, c: nat)
    requires c < |s.ctxs| && !s.ctxs[c].deleted && Occur(s, act).fault.None?
    ensures var s' := Occur(s, act).state;
      && c < |s'.ctxs|
      && (s'.ctxs[c].deleted <==> s.ctxs[c].flags == {} && act == App(Free(c)))
      && (s'.ctxs[c].flags != {} <==> s.ctxs[c].flags != {} || Flags([act], c))
      && (Outstanding(s', c) > 0 <==> Outstanding(s, c) > 0 || act == App(Arm(c, true)))
  {
    AnyFlagIsLazy(s.ctxs[c].flags);
    assert act in [act];
    OutstandingAfter(s, act, c);
  }

  lemma OutstandingAfter(s: Port, act: Act, c: nat)
    requires c < |s.ctxs| && Occur(s, act).fault.None?
    ensures Outstanding(Occur(s, act).state, c) == Outstanding(s, c) + if act == App(Arm(c, true)) then 1 else 0
  {
    if act.Kernel? { QueuedAppend(s.queue, Packet(act.ctx, act.ok), c); }
  }

  /** Acts that do not fault leave a deleted context alone. */
  lemma {:induction false} DeletedIsDone(s: Port, acts: seq<Act>, c: nat)
    requires c < |s.ctxs| && s.ctxs[c].deleted && RunActs(s, acts).fault.None?
    ensures var s' := RunActs(s, acts).state;
      && c < |s'.ctxs| && s'.ctxs[c] == s.ctxs[c] && !Flags(acts, c) && !Arms(acts, c)
      && (Outstanding(s', c) > 0 <==> Outstanding(s, c) > 0)
    decreases |acts|
  {
    if acts != [] {
      FlagsSplits(acts, c);
      assert acts == [acts[0]] + acts[1..];
      DeletedStays(s, acts[0], c);
      DeletedIsDone(Occur(s, acts[0]).state, acts[1..], c);
    }
  }

  lemma DeletedStays(s: Port, act: Act, c: nat)
    requires c < |s.ctxs| && s.ctxs[c].deleted && Occur(s, act).fault.None?
    ensures var s' := Occur(s, act).state;
      && c < |s'.ctxs| && s'.ctxs[c] == s.ctxs[c] && !Flags([act], c) && act != App(Arm(c, true))
      && Outstanding(s', c) == Outstanding(s, c)
  {
    if act.Kernel? { QueuedAppend(s.queue, Packet(act.ctx, act.ok), c); }
  }

  /** The packet at the head is gone after a turn of Run that does not fault.  If it was of a failed operation nothing
      else has happened; otherwise all that its callback does has, and no more but the delete of its context. */
  lemma DequeueDoes(s: Port, cb: seq<Act>)
    requires s.queue != [] && s.queue[0].ctx < |s.ctxs| && Dequeue(s, cb).fault.None?
    ensures var s1, s', c := s.(queue := s.queue[1..]), Dequeue(s, cb).state, s.queue[0].ctx;
      if s.queue[0].ok then
        var e := RunActs(s1, cb);
        && e.fault.None? && s'.inflight == e.state.inflight && s'.queue == e.state.queue
        && |s'.ctxs| == |e.state.ctxs| && c < |s'.ctxs|
        && (forall x: nat :: x < |s'.ctxs| && x != c ==> s'.ctxs[x] == e.state.ctxs[x])
        && s'.ctxs[c] == e.state.ctxs[c].(deleted := e.state.ctxs[c].flags != {})
      else s' == s1
  {
    if s.queue[0].ok {
      var e := RunActs(s.(queue := s.queue[1..]), cb);
      if e.fault.None? && s.queue[0].ctx < |e.state.ctxs| { AnyFlagIsLazy(e.state.ctxs[s.queue[0].ctx].flags); }
    }
  }

  /** Run reads the flags of a deleted context exactly if the callback frees its own context while no flag is set. */
  lemma FreeInOwnCallbackFaultsExactly(s: Port, cb: seq<Act>)
    requires s.queue != [] && s.queue[0].ok && s.queue[0].ctx < |s.ctxs| && !s.ctxs[s.queue[0].ctx].deleted
    requires RunActs(s.(queue := s.queue[1..]), cb).fault.None?
    ensures var c := s.queue[0].ctx;
      Dequeue(s, cb).fault ==
        if s.ctxs[c].flags == {} && exists k: nat :: FreesBare(cb, c, k) then Some(UseAfterDelete) else None
  {
    AfterActs(s.(queue := s.queue[1..]), cb, s.queue[0].ctx);
  }

  /** A turn of Run that does not fault deletes the context of a successful packet exactly if a flag was or is set on
      it, whether it has been freed or not; and it deletes it under an outstanding operation exactly if the callback
      also started one. */
  lemma RunDeletesExactly(s: Port, cb: seq<Act>)
    requires Invariant(s) && s.queue != [] && s.queue[0].ok && s.queue[0].ctx < |s.ctxs| && Dequeue(s, cb).fault.None?
    ensures var s', c := Dequeue(s, cb).state, s.queue[0].ctx;
      && c < |s'.ctxs|
      && (s'.ctxs[c].deleted <==> s.ctxs[c].flags != {} || Flags(cb, c))
      && (s'.ctxs[c].deleted && Outstanding(s', c) > 0 <==> (s.ctxs[c].flags != {} || Flags(cb, c)) && Arms(cb, c))
  {
    var s1 := PoppedState(s);
    var c := s.queue[0].ctx;
    AfterActs(s1, cb, c);
    var s2 := RunActs(s1, cb).state;
    AnyFlagIsLazy(s2.ctxs[c].flags);
    assert Outstanding(CheckLazy(s2, c).state, c) == Outstanding(s2, c);
  }

  /** A callback that frees its own context at once, as the ping-pong client does when a connect fails. */
  lemma FreeInOwnCallbackFaults(s: Port)
    requires s.queue != [] && s.queue[0].ok && s.queue[0].ctx < |s.ctxs|
    requires !s.ctxs[s.queue[0].ctx].deleted && s.ctxs[s.queue[0].ctx].flags == {}
    ensures Dequeue(s, [App(Free(s.queue[0].ctx))]).fault == Some(UseAfterDelete)
  {
    var c := s.queue[0].ctx;
    OneAct(s.(queue := s.queue[1..]), App(Free(c)));
    assert FreesBare([App(Free(c))], c, 0);
    FreeInOwnCallbackFaultsExactly(s, [App(Free(c))]);
  }

  /** A callback that starts an operation on its own context and then frees it lazily has the context deleted
      under the kernel. */
  lemma RearmAndFreeFaults(s: Port, ok: bool)
    requires Invariant(s) && s.queue != [] && s.queue[0].ok && s.queue[0].ctx < |s.ctxs|
    requires !s.ctxs[s.queue[0].ctx].freed
    ensures var c := s.queue[0].ctx;
      var e := Dequeue(s, [App(Arm(c, true)), App(Flag(c, FLAG_LAZY_DELETE)), App(Free(c))]);
      e.fault.None? && c in e.state.inflight && Complete(e.state, c, ok).fault == Some(KernelWrite)
  {
    var s1 := PoppedState(s);
    var c := s.queue[0].ctx;
    var acts := [App(Arm(c, true)), App(Flag(c, FLAG_LAZY_DELETE)), App(Free(c))];
    assert acts[1..] == [acts[1], acts[2]];
    var s2 := Occur(s1, acts[0]).state;
    TwoActs(s2, acts[1], acts[2]);
    AnyFlagIsLazy(s.ctxs[c].flags + FLAG_LAZY_DELETE);
    assert Bit0 in s.ctxs[c].flags + FLAG_LAZY_DELETE;
    assert RunActs(s1, acts) == RunActs(s2, acts[1..]);
  }

  /** A context that is flagged but not freed is deleted all the same, and freeing it later touches deleted memory. */
  lemma FlaggedIsDeleted(s: Port)
    requires Invariant(s) && s.queue != [] && s.queue[0].ok && s.queue[0].ctx < |s.ctxs|
    requires !s.ctxs[s.queue[0].ctx].freed
    ensures var c := s.queue[0].ctx;
      var e := Dequeue(s, [App(Flag(c, FLAG_LAZY_DELETE))]);
      && e.fault.None? && e.state.ctxs[c].deleted && !e.state.ctxs[c].freed
      && Step(e.state, Free(c)).fault == Some(UseAfterDelete)
  {
    var s1 := PoppedState(s);
    var c := s.queue[0].ctx;
    OneAct(s1, App(Flag(c, FLAG_LAZY_DELETE)));
    AnyFlagIsLazy(s.ctxs[c].flags + FLAG_LAZY_DELETE);
    assert Bit0 in s.ctxs[c].flags + FLAG_LAZY_DELETE;
  }

  // ---------- such states are reached ----------

  /** One context whose operation has completed; nothing has been freed. */
  function OneCompleted(): seq<Event> {
    [Acted(App(Alloc(5, true))), Acted(App(Arm(0, true))), Acted(Kernel(0, true))]
  }

  /** A context freed lazily, as its documentation asks, while its operation is in flight; the operation fails. */
  function Leak(): seq<Event> {
    [Acted(App(Alloc(5, true))), Acted(App(Arm(0, true))), Acted(App(Flag(0, FLAG_LAZY_DELETE))), Acted(App(Free(0))),
     Acted(Kernel(0, false)), Ran([])]
  }

  lemma OutstandingIs(s: Port, c: nat)
    requires s.queue == []
    ensures Outstanding(s, c) == s.inflight[c]
  {
  }

  /** From the start the faults above are three permitted events away. */
  lemma FaultsAreReachable(states: seq<Port>, ok: bool)
    requires states == [Start(), Port([Ctx(5, {}, false, false)], multiset{}, []),
                        Port([Ctx(5, {}, false, false)], multiset{0}, []),
                        Port([Ctx(5, {}, false, false)], multiset{}, [Packet(0, true)])]
    ensures IsRun(states, OneCompleted())
    ensures Dequeue(states[3], [App(Free(0))]).fault == Some(UseAfterDelete)
    ensures var e := Dequeue(states[3], [App(Arm(0, true)), App(Flag(0, FLAG_LAZY_DELETE)), App(Free(0))]);
      e.fault.None? && 0 in e.state.inflight && Complete(e.state, 0, ok).fault == Some(KernelWrite)
    ensures var e := Dequeue(states[3], [App(Flag(0, FLAG_LAZY_DELETE))]);
      e.fault.None? && Step(e.state, Free(0)).fault == Some(UseAfterDelete)
  {
    OutstandingIs(states[1], 0);
    assert multiset{0} - multiset{0} == multiset{};
    assert IsRun(states, OneCompleted());
    NoFaults(states, OneCompleted(), 3);
    FreeInOwnCallbackFaults(states[3]);
    RearmAndFreeFaults(states[3], ok);
    FlaggedIsDeleted(states[3]);
  }

  /** A run of the protocol, followed by anything, in which a context is freed and never deleted. */
  lemma LeakIsReachable(states: seq<Port>, events: seq<Event>, n: nat)
    requires IsRun(states, events) && |events| >= 6 && events[..6] == Leak() && 6 <= n < |states|
    ensures 0 < |states[n].ctxs| && states[n].ctxs[0].freed && !states[n].ctxs[0].deleted
  {
    var e := Leak();
    assert forall k: nat :: k < 6 ==> events[..6][k] == events[k];
    assert events[0] == e[0] && events[1] == e[1] && events[2] == e[2] && events[3] == e[3] && events[4] == e[4];
    assert events[5] == e[5];
    assert states[1].ctxs == [Ctx(5, {}, false, false)];
    assert states[2].inflight == multiset{0} && states[2].queue == [];
    AnyFlagIsLazy(FLAG_LAZY_DELETE);
    assert {} + FLAG_LAZY_DELETE == FLAG_LAZY_DELETE && Bit0 in FLAG_LAZY_DELETE;
    assert states[3].ctxs == [Ctx(5, FLAG_LAZY_DELETE, false, false)];
    assert states[4].ctxs == [Ctx(INVALID_SOCKET, FLAG_LAZY_DELETE, true, false)];
    assert states[5].queue == [Packet(0, false)] && states[5].ctxs == states[4].ctxs;
    NoFaults(states, events, 5);
    FailedCompletionLeaks(states[5], []);
    LeaksForEver(states, events, 6, n, 0);
  }

  lemma LeakIsPermitted() returns (states: seq<Port>)
    ensures IsRun(states, Leak())
  {
    var live, flagged := [Ctx(5, {}, false, false)], [Ctx(5, FLAG_LAZY_DELETE, false, false)];
    var freed := [Ctx(INVALID_SOCKET, FLAG_LAZY_DELETE, true, false)];
    states := [Start(), Port(live, multiset{}, []), Port(live, multiset{0}, []), Port(flagged, multiset{0}, []),
               Port(freed, multiset{0}, []), Port(freed, multiset{}, [Packet(0, false)]), Port(freed, multiset{}, [])];
    OutstandingIs(states[1], 0);
    AnyFlagIsLazy(FLAG_LAZY_DELETE);
    assert {} + FLAG_LAZY_DELETE == FLAG_LAZY_DELETE && Bit0 in FLAG_LAZY_DELETE;
    assert multiset{0} - multiset{0} == multiset{};
    assert [Packet(0, false)][1..] == [];
    assert Permitted(states[2], Leak()[2]) && Next(states[2], Leak()[2]).state == states[3];
    assert Permitted(states[3], Leak()[3]) && Next(states[3], Leak()[3]).state == states[4];
    assert Permitted(states[5], Leak()[5]) && Next(states[5], Leak()[5]).state == states[6];
  }
}
