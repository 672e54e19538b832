/** What the timer scheduler means to its users: a map from timer id to (expire, sink).

    `stale` holds the ids that were cancelled while pending.  CancelTimer deletes the entry but leaves
    its id in the lookup table, so cancelling such an id again reads deleted memory. */
module TimerModel {
  import opened MachineInts
  import opened Options

  datatype Timer = Timer(expire: int, sink: Option<nat>)

  datatype Timers = Timers(nextId: int, live: map<int, Timer>, stale: set<int>)

  /** What user code may do to the scheduler, from outside or from a timer callback.
      `tick` is the clock reading AddTimer takes. */
  datatype Op = Add(tick: nat, millsec: int, sink: Option<nat>) | Cancel(id: int)

  /** The two ways a call leaves the defined behaviour of C++. */
  datatype Fault = UseAfterFree | IdOverflow

  datatype Exec = Exec(state: Timers, fault: Option<Fault>)

  /** The script each timer's callback performs, by timer id.  An id fires at most once (see
      TimerRuns.FiresAtMostOnce), so this covers callbacks that depend on any history. */
  type Callbacks = int -> seq<Op>

  const FIRST_ID: int := 100

  function Init(): Timers { Timers(FIRST_ID, map[], {}) }

  function Expire(tick: nat, millsec: int): int { Int64(tick + millsec) }

  ghost predicate WellFormed(s: Timers) {
    && FIRST_ID <= s.nextId <= INT_MAX
    && (forall id <- s.live :: FIRST_ID <= id < s.nextId && id !in s.stale)
    && (forall id <- s.stale :: FIRST_ID <= id < s.nextId)
  }

  function Step(s: Timers, op: Op): Exec {
    match op
    case Add(tick, millsec, sink) =>
      if s.nextId >= INT_MAX then Exec(s, Some(IdOverflow))
      else Exec(s.(nextId := s.nextId + 1, live := s.live[s.nextId := Timer(Expire(tick, millsec), sink)]), None)
    case Cancel(id) =>
      if id in s.live then Exec(s.(live := s.live - {id}, stale := s.stale + {id}), None)
      else if id in s.stale then Exec(s, Some(UseAfterFree))
      else Exec(s, None)
  }

  function RunOps(s: Timers, ops: seq<Op>): Exec
    decreases |ops|
  {
    if ops == [] then Exec(s, None)
    else
      var e := Step(s, ops[0]);
      if e.fault.Some? then e else RunOps(e.state, ops[1..])
  }

  /** One turn of the expiry loop: take the timer out, then run its callback if it has one. */
  function Fire(s: Timers, id: int, cb: Callbacks): Exec
    requires id in s.live
  {
    var s' := s.(live := s.live - {id});
    if s.live[id].sink.Some? then RunOps(s', cb(id)) else Exec(s', None)
  }

  // ---------- one expiry pass ----------

  datatype PassEnd =
    | Finished              // the loop reached its exit
    | Spins                 // the loop reached the branch that changes nothing and runs for ever
    | Faulted(fault: Fault) // a callback left defined behaviour

  /** A pass: fired[k] takes states[k] to states[k+1]. */
  datatype Pass = Pass(states: seq<Timers>, fired: seq<int>, end: PassEnd) {
    ghost predicate Shaped() { |states| == |fired| + 1 }
    ghost function Last(): Timers requires Shaped() { states[|fired|] }
  }

  ghost predicate Earliest(s: Timers, id: int) {
    id in s.live && forall other <- s.live :: s.live[id].expire <= s.live[other].expire
  }

  ghost predicate CanFire(s: Timers, now: int, lastId: int, id: int) {
    Earliest(s, id) && s.live[id].expire <= now && id <= lastId
  }

  ghost predicate NothingDue(s: Timers, now: int) {
    forall id <- s.live :: now < s.live[id].expire
  }

  /** The root is due but was created too late in this pass: the loop takes its `continue`. */
  ghost predicate Stuck(s: Timers, now: int, lastId: int, id: int) {
    Earliest(s, id) && s.live[id].expire <= now && id > lastId
  }

  /** Only the last turn of a faulted pass faults. */
  function FaultOf(p: Pass, k: nat): Option<Fault> {
    if p.end.Faulted? && k + 1 == |p.fired| then Some(p.end.fault) else None
  }

  ghost predicate Turn(p: Pass, now: int, lastId: int, cb: Callbacks, k: nat)
    requires p.Shaped() && k < |p.fired|
  {
    && CanFire(p.states[k], now, lastId, p.fired[k])
    && Fire(p.states[k], p.fired[k], cb) == Exec(p.states[k + 1], FaultOf(p, k))
  }

  /** The turns of a pass, whether or not it has come to its end. */
  ghost predicate Progress(p: Pass, s0: Timers, now: int, cb: Callbacks) {
    && p.Shaped() && p.states[0] == s0
    && forall k: nat :: k < |p.fired| ==> Turn(p, now, s0.nextId, cb, k)
  }

  /** `p` is what UpdateTimer does from `s0` when the clock reads `now`. */
  ghost predicate IsPass(p: Pass, s0: Timers, now: int, cb: Callbacks) {
    && Progress(p, s0, now, cb)
    && match p.end
       case Finished => NothingDue(p.Last(), now)
       case Spins => exists id :: Stuck(p.Last(), now, s0.nextId, id)
       case Faulted(_) => p.fired != []
  }

  /** The timers among the first k fired whose callbacks ran, in order. */
  ghost function CalledBack(p: Pass, k: nat): seq<int>
    requires p.Shaped() && k <= |p.fired|
  {
    if k == 0 then []
    else
      var id := p.fired[k - 1];
      CalledBack(p, k - 1) +
      if id in p.states[k - 1].live && p.states[k - 1].live[id].sink.Some? then [id] else []
  }

  /** Callback `k` of the pass ran and cancelled `id`. */
  ghost predicate CancelsAt(p: Pass, cb: Callbacks, k: nat, id: int)
    requires p.Shaped() && k < |p.fired|
  {
    && p.fired[k] in p.states[k].live
    && p.states[k].live[p.fired[k]].sink.Some?
    && Cancel(id) in cb(p.fired[k])
  }

  /** Every timer the script adds expires after `now`. */
  ghost predicate LateAdds(ops: seq<Op>, now: int) {
    forall j: nat :: j < |ops| && ops[j].Add? ==> now < Expire(ops[j].tick, ops[j].millsec)
  }

  /** The callbacks of the timers that are pending and due in `s` add only timers that expire after `now`. */
  ghost predicate Polite(s: Timers, cb: Callbacks, now: int) {
    forall id <- s.live :: s.live[id].expire <= now && s.live[id].sink.Some? ==> LateAdds(cb(id), now)
  }
}
