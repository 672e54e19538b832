/** Clients of the event-based overlapped I/O service: what they see is a run of the model. */
module OverlappedClients {
  import opened Options
  import opened OverlappedModel
  import opened OverlappedService

  /** `order` is the order in which the map yields its keys. */
  datatype Command =
    | Do(op: IoOp)
    | RunOnce(order: seq<int>, wait: WaitResult, timerOps: seq<IoOp>, cb: seq<IoOp>)

  /** The order is one of the keys of the map, and the wait reports one of the handles it was given. */
  predicate Realistic(fds: map<int, nat>, c: Command) {
    c.RunOnce? ==> multiset(c.order) == multiset(fds.Keys) && (c.wait.Signalled? ==> c.wait.index < |c.order|)
  }

  function EventOf(c: Command): Event
    requires c.RunOnce? && c.wait.Signalled? ==> c.wait.index < |c.order|
  {
    match c
    case Do(op) => App(op)
    case RunOnce(order, wait, timerOps, cb) =>
      Ran(timerOps, if wait.Signalled? then Some(order[wait.index]) else None, cb)
  }

  ghost predicate IsTrace(states: seq<Io>, events: seq<Event>) {
    && |states| == |events| + 1 && states[0] == Io([], map[], 0)
    && forall k: nat {:trigger events[k]} :: k < |events| ==> Next(states[k], events[k]) == Exec(states[k + 1], false)
  }

  ghost predicate Follows(s: Io, ev: Event, c: Command) {
    Realistic(s.fds, c) && ev == EventOf(c)
  }

  /** The first n events are what the first n commands ask for. */
  ghost predicate Obeys(states: seq<Io>, events: seq<Event>, cmds: seq<Command>, n: nat) {
    && |events| == n <= |cmds| && n < |states|
    && forall k: nat {:trigger events[k]} :: k < n ==> Follows(states[k], events[k], cmds[k])
  }

  lemma Extend(states: seq<Io>, events: seq<Event>, cmds: seq<Command>, s: Io)
    requires IsTrace(states, events) && Obeys(states, events, cmds, |events|) && |events| < |cmds|
    requires Realistic(states[|events|].fds, cmds[|events|])
    requires Next(states[|events|], EventOf(cmds[|events|])) == Exec(s, false)
    ensures var ev := EventOf(cmds[|events|]);
      IsTrace(states + [s], events + [ev]) && Obeys(states + [s], events + [ev], cmds, |events| + 1)
  {
  }

  /** Whatever a client and its callbacks do, a new service takes a run of the model, event by event as the client asks,
      up to the first that touches a deleted context.  It stops before a report of the system that cannot be. */
  method Drive(cmds: seq<Command>)
    returns (service: OverlappedIOService, useAfterDelete: bool, ghost states: seq<Io>, ghost events: seq<Event>)
    ensures IsTrace(states, events) && Obeys(states, events, cmds, |events|)
    ensures useAfterDelete ==>
      && |events| < |cmds| && Realistic(states[|events|].fds, cmds[|events|])
      && Next(states[|events|], EventOf(cmds[|events|])).useAfterDelete
    ensures !useAfterDelete ==> states[|events|] == service.Model()
    ensures !useAfterDelete && |events| < |cmds| ==> !Realistic(states[|events|].fds, cmds[|events|])
  {
    service := new OverlappedIOService();
    states, events, useAfterDelete := [service.Model()], [], false;
    for k := 0 to |cmds|
      invariant fresh(service) && fresh(service.pool) && service.Valid()
      invariant IsTrace(states, events) && Obeys(states, events, cmds, k) && states[k] == service.Model()
    {
      if !Realistic(service.fds, cmds[k]) {
        return;
      }
      match cmds[k] {
        case Do(op) => useAfterDelete := service.Execute([op]); OneOp(states[k], op);
        case RunOnce(order, wait, timerOps, cb) =>
          var rc, ran;
          rc, ran, useAfterDelete := service.Run(order, wait, timerOps, cb);
      }
      if useAfterDelete {
        return;
      }
      Extend(states, events, cmds, service.Model());
      states, events := states + [service.Model()], events + [EventOf(cmds[k])];
    }
  }

  lemma OneOp(s: Io, op: IoOp)
    ensures RunOps(s, [op]) == Step(s, op)
  {
    assert [op][1..] == [];
  }
}
