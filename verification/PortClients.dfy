/** Clients of the completion-port service: what they see is the run of the protocol that their commands ask for. */
module PortClients {
  import opened CompletionPort
  import opened Options
  import opened PortLaws
  import opened PortModel
  import opened Sequences

  /** Something that happens outside Run, or a turn of Run: its timer callbacks, the completions that arrive in its
      wait, whether the wait fails, and what the callback of the packet does. */
  datatype Command =
    | Do(act: Act)
    | RunOnce(timerActs: seq<Act>, arrivals: seq<Packet>, portError: bool, cb: seq<Act>)

  // ---------- what commands ask for ----------

  function ActEvents(acts: seq<Act>): seq<Event> {
    seq(|acts|, i requires 0 <= i < |acts| => Acted(acts[i]))
  }

  /** The events of one command given in state s.  Run takes its own step only if there is a packet by then. */
  function EventsOf(s: Port, c: Command): seq<Event> {
    match c
    case Do(act) => [Acted(act)]
    case RunOnce(timerActs, arrivals, portError, cb) =>
      var acts := timerActs + Arrive(arrivals);
      var t := RunActs(s, acts);
      ActEvents(acts) +
      if t.fault.None? && !portError && t.state.queue != [] then [Ran(cb)] else []
  }

  /** A service in state s after some events, up to the first that faults. */
  function Play(s: Port, events: seq<Event>): Exec
    decreases |events|
  {
    if events == [] then Exec(s, None)
    else
      var e := Next(s, events[0]);
      if e.fault.Some? then e else Play(e.state, events[1..])
  }

  lemma {:induction false} PlayOn(s: Port, a: seq<Event>, b: seq<Event>)
    ensures var e := Play(s, a);
      Play(s, a + b) == if e.fault.Some? then e else Play(e.state, b)
    decreases |a|
  {
    if a == [] {
      assert a + b == b;
    } else {
      assert (a + b)[1..] == a[1..] + b;
      PlayOn(Next(s, a[0]).state, a[1..], b);
    }
  }

  lemma {:induction false} ActsPlay(s: Port, acts: seq<Act>)
    ensures Play(s, ActEvents(acts)) == RunActs(s, acts)
    decreases |acts|
  {
    if acts != [] {
      assert ActEvents(acts) == [Acted(acts[0])] + ActEvents(acts[1..]);
      ActsPlay(Occur(s, acts[0]).state, acts[1..]);
    }
  }

  /** Every command brings the service from one mark to the next, by the events it asks for there. */
  ghost predicate Follows(s: Port, part: seq<Event>, c: Command, s': Port) {
    part == EventsOf(s, c) && Play(s, part) == Exec(s', None)
  }

  ghost predicate Obeys(marks: seq<Port>, parts: seq<seq<Event>>, cmds: seq<Command>, n: nat) {
    && |parts| == n <= |cmds| && |marks| == n + 1 && marks[0] == Start()
    && forall k: nat {:trigger parts[k]} :: k < n ==> Follows(marks[k], parts[k], cmds[k], marks[k + 1])
  }

  lemma Extend(marks: seq<Port>, parts: seq<seq<Event>>, cmds: seq<Command>, part: seq<Event>, s: Port)
    requires Obeys(marks, parts, cmds, |parts|) && |parts| < |cmds|
    requires Follows(marks[|parts|], part, cmds[|parts|], s)
    ensures Obeys(marks + [s], parts + [part], cmds, |parts| + 1) && Flat(parts + [part]) == Flat(parts) + part
  {
    FlatOn(parts, part);
  }

  // ---------- traces ----------

  /** States of the protocol, and the events between them, none of which faults. */
  datatype Trace = Trace(states: seq<Port>, events: seq<Event>) {
    ghost predicate Shaped() { |states| == |events| + 1 }
    ghost function Last(): Port requires Shaped() { states[|events|] }
  }

  ghost predicate Leads(t: Trace, k: nat)
    requires t.Shaped() && k < |t.events|
  {
    Next(t.states[k], t.events[k]) == Exec(t.states[k + 1], None)
  }

  ghost predicate IsTrace(t: Trace) {
    && t.Shaped() && t.states[0] == Start()
    && forall k: nat {:trigger Leads(t, k)} :: k < |t.events| ==> Leads(t, k)
  }

  ghost function Longer(t: Trace, ev: Event): Trace
    requires t.Shaped()
  {
    Trace(t.states + [Next(t.Last(), ev).state], t.events + [ev])
  }

  lemma LongerIsTrace(t: Trace, ev: Event)
    requires IsTrace(t) && Next(t.Last(), ev).fault.None?
    ensures IsTrace(Longer(t, ev)) && Longer(t, ev).Last() == Next(t.Last(), ev).state
  {
    forall k: nat | k < |t.events| + 1
      ensures Leads(Longer(t, ev), k)
    {
      assert k < |t.events| ==> Leads(t, k);
    }
  }

  /** The trace has taken a part of the events, and the next of them faults. */
  ghost predicate StopsIn(t: Trace, events: seq<Event>, fault: Fault)
    requires t.Shaped()
  {
    && |t.events| < |events| && t.events == events[..|t.events|]
    && Next(t.Last(), events[|t.events|]).fault == Some(fault)
  }

  /** The trace with the acts of a script, up to the one that faults, if any. */
  ghost function WithActs(t: Trace, acts: seq<Act>): Trace
    requires t.Shaped()
    decreases |acts|
  {
    if acts == [] || Occur(t.Last(), acts[0]).fault.Some? then t else WithActs(Longer(t, Acted(acts[0])), acts[1..])
  }

  lemma {:induction false} WithActsIsTrace(t: Trace, acts: seq<Act>)
    requires IsTrace(t)
    ensures var t', e := WithActs(t, acts), RunActs(t.Last(), acts);
      && IsTrace(t')
      && (e.fault.None? ==> t'.events == t.events + ActEvents(acts) && t'.Last() == e.state)
      && (e.fault.Some? ==> t.events <= t'.events && StopsIn(t', t.events + ActEvents(acts), e.fault.value))
    decreases |acts|
  {
    if acts != [] {
      var e := Occur(t.Last(), acts[0]);
      assert ActEvents(acts) == [Acted(acts[0])] + ActEvents(acts[1..]);
      if e.fault.None? {
        var t1 := Longer(t, Acted(acts[0]));
        LongerIsTrace(t, Acted(acts[0]));
        assert t1.events + ActEvents(acts[1..]) == t.events + ActEvents(acts);
        WithActsIsTrace(t1, acts[1..]);
      } else {
        assert Next(t.Last(), Acted(acts[0])) == e;
      }
    } else {
      assert t.events + ActEvents(acts) == t.events;
    }
  }

  lemma StopsEarlier(t: Trace, events: seq<Event>, more: seq<Event>, fault: Fault)
    requires t.Shaped() && StopsIn(t, events, fault) && events <= more
    ensures StopsIn(t, more, fault)
  {
    assert more[..|t.events|] == events[..|t.events|];
  }

  // ---------- the implementation does what is asked ----------

  /** One command, as events of the protocol. */
  method Obey(service: CompletionPortService, c: Command, ghost t: Trace)
    returns (fault: Option<Fault>, ghost t': Trace)
    requires service.Valid() && IsTrace(t) && t.Last() == service.Model()
    modifies service, service.pool
    ensures service.Valid() && old(service.pool) <= service.pool && fresh(service.pool - old(service.pool))
    ensures IsTrace(t')
    ensures fault.None? ==>
      && t'.events == t.events + EventsOf(t.Last(), c) && t'.Last() == service.Model()
      && Follows(t.Last(), EventsOf(t.Last(), c), c, t'.Last())
    ensures fault.Some? ==> t.events <= t'.events && StopsIn(t', t.events + EventsOf(t.Last(), c), fault.value)
  {
    match c
    case Do(act) =>
      WithActsIsTrace(t, [act]);
      ActsPlay(t.Last(), [act]);
      OneAct(t.Last(), act);
      assert ActEvents([act]) == [Acted(act)];
      fault := service.Occurs(act);
      t' := WithActs(t, [act]);
    case RunOnce(timerActs, arrivals, portError, cb) =>
      fault, t' := Turn(service, c, t);
  }

  method Turn(service: CompletionPortService, c: Command, ghost t: Trace)
    returns (fault: Option<Fault>, ghost t': Trace)
    requires service.Valid() && c.RunOnce? && IsTrace(t) && t.Last() == service.Model()
    modifies service, service.pool
    ensures service.Valid() && old(service.pool) <= service.pool && fresh(service.pool - old(service.pool))
    ensures IsTrace(t')
    ensures fault.None? ==>
      && t'.events == t.events + EventsOf(t.Last(), c) && t'.Last() == service.Model()
      && Follows(t.Last(), EventsOf(t.Last(), c), c, t'.Last())
    ensures fault.Some? ==> t.events <= t'.events && StopsIn(t', t.events + EventsOf(t.Last(), c), fault.value)
  {
    ghost var s, acts := t.Last(), c.timerActs + Arrive(c.arrivals);
    ghost var e := RunActs(s, acts);
    var rc, end;
    rc, end, fault := service.Run(c.timerActs, c.arrivals, c.portError, c.cb);
    t' := WithActs(t, acts);
    WithActsIsTrace(t, acts);
    ActsPlay(s, acts);
    if e.fault.Some? {
      StopsEarlier(t', t.events + ActEvents(acts), t.events + EventsOf(s, c), fault.value);
    } else if !c.portError && e.state.queue != [] {
      assert Next(t'.Last(), Ran(c.cb)) == Exec(service.Model(), fault);
      assert t.events + EventsOf(s, c) == t'.events + [Ran(c.cb)];
      PlayOn(s, ActEvents(acts), [Ran(c.cb)]);
      if fault.None? {
        LongerIsTrace(t', Ran(c.cb));
        t' := Longer(t', Ran(c.cb));
      }
    } else {
      assert EventsOf(s, c) == ActEvents(acts);
    }
  }

  /** The client has kept its side, and the kernel has completed only what was in flight. */
  ghost predicate Kept(t: Trace)
    requires t.Shaped()
  {
    forall k: nat {:trigger t.events[k]} :: k < |t.events| ==> Permitted(t.states[k], t.events[k])
  }

  /** An event that faults is the first that breaks the protocol. */
  lemma BreaksTheProtocol(t: Trace, ev: Event)
    requires IsTrace(t) && Kept(t) && Next(t.Last(), ev).fault.Some?
    ensures IsRun(t.states, t.events) && !Permitted(t.Last(), ev)
  {
    forall k: nat | k < |t.events|
      ensures Permitted(t.states[k], t.events[k]) && t.states[k + 1] == Next(t.states[k], t.events[k]).state
    {
      assert Leads(t, k);
    }
    NoFaults(t.states, t.events, |t.events|);
    if Permitted(t.Last(), ev) { EventKeeps(t.Last(), ev); }
  }

  /** The trace has obeyed the commands up to one, which it has begun and whose next event faults. */
  ghost predicate StopsAt(t: Trace, marks: seq<Port>, parts: seq<seq<Event>>, cmds: seq<Command>, fault: Fault)
    requires t.Shaped()
  {
    && |parts| < |cmds| && |marks| == |parts| + 1 && Flat(parts) <= t.events
    && StopsIn(t, Flat(parts) + EventsOf(marks[|parts|], cmds[|parts|]), fault)
  }

  /** The event at which the trace stops. */
  ghost function Stopper(t: Trace, marks: seq<Port>, parts: seq<seq<Event>>, cmds: seq<Command>, fault: Fault): Event
    requires t.Shaped() && StopsAt(t, marks, parts, cmds, fault)
  {
    (Flat(parts) + EventsOf(marks[|parts|], cmds[|parts|]))[|t.events|]
  }

  method Follow(cmds: seq<Command>)
    returns (service: CompletionPortService, fault: Option<Fault>, ghost marks: seq<Port>,
             ghost parts: seq<seq<Event>>, ghost t: Trace)
    ensures IsTrace(t) && Obeys(marks, parts, cmds, |parts|)
    ensures fault.None? ==> |parts| == |cmds| && t.events == Flat(parts) && t.Last() == service.Model()
    ensures fault.Some? ==> StopsAt(t, marks, parts, cmds, fault.value)
  {
    service := new CompletionPortService();
    fault, marks, parts, t := None, [service.Model()], [], Trace([service.Model()], []);
    for k := 0 to |cmds|
      invariant fresh(service) && fresh(service.pool) && service.Valid() && fault.None?
      invariant IsTrace(t) && t.Last() == service.Model() && t.events == Flat(parts)
      invariant Obeys(marks, parts, cmds, k) && marks[k] == t.Last()
    {
      ghost var part := EventsOf(marks[k], cmds[k]);
      fault, t := Obey(service, cmds[k], t);
      if fault.Some? {
        return;
      }
      Extend(marks, parts, cmds, part, t.Last());
      marks, parts := marks + [t.Last()], parts + [part];
    }
  }

  /** Whatever a client, its callbacks and the kernel do, a new service takes exactly the events its commands ask for,
      command by command, up to the first that faults, which is the next one asked for; and that one breaks the
      protocol, if none before it did. */
  method Drive(cmds: seq<Command>)
    returns (service: CompletionPortService, fault: Option<Fault>, ghost marks: seq<Port>,
             ghost parts: seq<seq<Event>>, ghost t: Trace)
    ensures IsTrace(t) && Obeys(marks, parts, cmds, |parts|)
    ensures fault.None? ==> |parts| == |cmds| && t.events == Flat(parts) && t.Last() == service.Model()
    ensures fault.Some? ==> StopsAt(t, marks, parts, cmds, fault.value)
    ensures fault.Some? && Kept(t) ==> !Permitted(t.Last(), Stopper(t, marks, parts, cmds, fault.value))
  {
    service, fault, marks, parts, t := Follow(cmds);
    if fault.Some? && Kept(t) {
      BreaksTheProtocol(t, Stopper(t, marks, parts, cmds, fault.value));
    }
  }
}
