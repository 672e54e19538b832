/** The select() reactor's registry and one dispatch sweep over it, as its users are meant to see them.

    A sweep visits the positions of the vector in order, and at each the stages exception, write, read.
    Handlers run inside the sweep and may change the registry: `h(i, stage)` is what the handler called
    there does.  Each is visited once per sweep, so this covers handlers that depend on any history. */
module SelectModel {
  import opened Compaction
  import opened Options
  import opened PollEvents
  import TimerModel
  import opened Winsock

  datatype FdEntry = FdEntry(fd: int, sink: Option<nat>)

  const DEAD: FdEntry := FdEntry(INVALID_SOCKET, None)

  predicate InUse(e: FdEntry) {
    e.fd != INVALID_SOCKET
  }

  datatype Registry = Registry(fds: seq<FdEntry>, hasRetired: bool, rd: set<int>, wr: set<int>, ex: set<int>)

  datatype PollOp =
    | AddFd(fd: int, sink: nat)
    | RemoveFd(fd: int)
    | SetPollIn(fd: int)
    | ResetPollIn(fd: int)
    | SetPollOut(fd: int)
    | ResetPollOut(fd: int)

  datatype Stage = Exception | Write | Read

  type Handlers = (nat, Stage) -> seq<PollOp>

  /** FD_SET: adds unless present, and drops the request without notice when the array is full. */
  function FdSet(s: set<int>, fd: int): set<int> {
    if fd in s || |s| >= FD_SETSIZE then s else s + {fd}
  }

  /** The first entry registered for `fd` is marked dead. */
  function Retire(fds: seq<FdEntry>, fd: int): (r: seq<FdEntry>)
    ensures |r| == |fds|
    ensures forall j: nat {:trigger r[j]} :: j < |fds| ==>
      r[j] == if fds[j].fd == fd && (forall l: nat :: l < j ==> fds[l].fd != fd) then DEAD else fds[j]
  {
    if fds == [] then []
    else if fds[0].fd == fd then [DEAD] + fds[1..]
    else [fds[0]] + Retire(fds[1..], fd)
  }

  function Step(s: Registry, op: PollOp): Registry {
    match op
    case AddFd(fd, sink) =>
      if |s.fds| >= FD_SETSIZE then s
      else s.(fds := s.fds + [FdEntry(fd, Some(sink))], ex := FdSet(s.ex, fd))
    case RemoveFd(fd) =>
      Registry(Retire(s.fds, fd), true, s.rd - {fd}, s.wr - {fd}, s.ex - {fd})
    case SetPollIn(fd) => s.(rd := FdSet(s.rd, fd))
    case ResetPollIn(fd) => s.(rd := s.rd - {fd})
    case SetPollOut(fd) => s.(wr := FdSet(s.wr, fd))
    case ResetPollOut(fd) => s.(wr := s.wr - {fd})
  }

  function RunOps(s: Registry, ops: seq<PollOp>): Registry
    decreases |ops|
  {
    if ops == [] then s else RunOps(Step(s, ops[0]), ops[1..])
  }

  /** The entries not retired, in registration order. */
  function LiveOf(fds: seq<FdEntry>): seq<FdEntry> {
    Kept(fds, InUse)
  }

  function Compacted(s: Registry): Registry {
    if s.hasRetired then s.(fds := LiveOf(s.fds), hasRetired := false) else s
  }

  /** What select() reports: which sockets of the three sets are ready. */
  datatype Ready = Ready(ex: set<int>, wr: set<int>, rd: set<int>) {
    function At(stage: Stage): set<int> {
      match stage case Exception => ex case Write => wr case Read => rd
    }
    function Total(): nat { |ex| + |wr| + |rd| }
  }

  /** What select() watches at each stage. */
  function Watched(s: Registry, stage: Stage): set<int> {
    match stage case Exception => s.ex case Write => s.wr case Read => s.rd
  }

  function CallbackAt(stage: Stage): Callback {
    match stage case Exception => OnReadable case Write => OnWritable case Read => OnReadable
  }

  /** The handler of position i is called when its entry is live and ready for the stage. */
  ghost predicate Called(s: Registry, i: nat, stage: Stage, ready: Ready) {
    Live(s, i) && s.fds[i].fd in ready.At(stage)
  }

  ghost function After(s: Registry, i: nat, stage: Stage, ready: Ready, h: Handlers): Registry {
    if Called(s, i, stage, ready) then RunOps(s, h(i, stage)) else s
  }

  /** The registry before each stage of one position, and after the last. */
  datatype Turn = Turn(ex: Registry, wr: Registry, rd: Registry, end: Registry) {
    ghost function Before(stage: Stage): Registry {
      match stage case Exception => ex case Write => wr case Read => rd
    }
  }

  ghost function TurnOf(s: Registry, i: nat, ready: Ready, h: Handlers): Turn {
    var w := After(s, i, Exception, ready, h);
    var r := After(w, i, Write, ready, h);
    Turn(s, w, r, After(r, i, Read, ready, h))
  }

  /** A call on a sink, with the entry as the caller found it. */
  datatype Call = Call(at: nat, stage: Stage, callback: Callback, entry: FdEntry)

  ghost function CallAt(t: Turn, i: nat, stage: Stage, ready: Ready): seq<Call> {
    var s := t.Before(stage);
    if Called(s, i, stage, ready) then [Call(i, stage, CallbackAt(stage), s.fds[i])] else []
  }

  ghost function CallsIn(t: Turn, i: nat, ready: Ready): seq<Call> {
    CallAt(t, i, Exception, ready) + CallAt(t, i, Write, ready) + CallAt(t, i, Read, ready)
  }

  lemma SplitCalls(log: seq<Call>, t: Turn, i: nat, ready: Ready)
    ensures var e, w := CallAt(t, i, Exception, ready), CallAt(t, i, Write, ready);
      && log + e <= log + CallsIn(t, i, ready) && log + e + w <= log + CallsIn(t, i, ready)
      && log + e + w + CallAt(t, i, Read, ready) == log + CallsIn(t, i, ready)
  {
  }

  ghost function EndOf(turns: seq<Turn>, s0: Registry): Registry {
    if turns == [] then s0 else turns[|turns| - 1].end
  }

  /** Turn i starts where the turns before it ended. */
  ghost predicate InSequence(turns: seq<Turn>, s0: Registry, ready: Ready, h: Handlers, i: nat)
    requires i < |turns|
  {
    turns[i] == TurnOf(EndOf(turns[..i], s0), i, ready, h)
  }

  ghost predicate IsSweep(turns: seq<Turn>, s0: Registry, ready: Ready, h: Handlers) {
    forall i: nat {:trigger InSequence(turns, s0, ready, h, i)} :: i < |turns| ==> InSequence(turns, s0, ready, h, i)
  }

  /** The calls of a sweep, in order. */
  ghost function Log(turns: seq<Turn>, ready: Ready): seq<Call> {
    if turns == [] then []
    else Log(turns[..|turns| - 1], ready) + CallsIn(turns[|turns| - 1], |turns| - 1, ready)
  }

  /** An earlier stage's handler retired the very entry of this turn although it is ready for `stage` too. */
  ghost predicate RetiredMidway(t: Turn, i: nat, stage: Stage, ready: Ready) {
    && Live(t.ex, i) && t.ex.fds[i].fd in ready.At(stage)
    && !Live(t.Before(stage), i)
  }

  predicate Live(s: Registry, i: nat) {
    i < |s.fds| && InUse(s.fds[i])
  }

  /** No turn of the sweep retires its own entry between two stages it is ready for. */
  ghost predicate Smooth(turns: seq<Turn>, ready: Ready) {
    forall i: nat, stage :: i < |turns| ==> !RetiredMidway(turns[i], i, stage, ready)
  }

  lemma TurnIsSmooth(t: Turn, i: nat, ready: Ready)
    requires Live(t.ex, i) && t.ex.fds[i].fd in ready.wr ==> Live(t.wr, i)
    requires Live(t.ex, i) && t.ex.fds[i].fd in ready.rd ==> Live(t.rd, i)
    ensures forall stage :: !RetiredMidway(t, i, stage, ready)
  {
  }

  /** A sweep that has come to registry s with the calls `log`, and crashed nowhere. */
  ghost predicate Sweeping(turns: seq<Turn>, log: seq<Call>, s0: Registry, s: Registry, ready: Ready, h: Handlers) {
    IsSweep(turns, s0, ready, h) && EndOf(turns, s0) == s && Smooth(turns, ready) && log == Log(turns, ready)
  }

  lemma ExtendSweep(turns: seq<Turn>, log: seq<Call>, s0: Registry, s: Registry, ready: Ready, h: Handlers)
    requires Sweeping(turns, log, s0, s, ready, h)
    ensures var t, calls := TurnOf(s, |turns|, ready, h), CallsIn(TurnOf(s, |turns|, ready, h), |turns|, ready);
      && IsSweep(turns + [t], s0, ready, h) && Log(turns + [t], ready) == log + calls
      && ((forall stage :: !RetiredMidway(t, |turns|, stage, ready)) ==>
            Sweeping(turns + [t], log + calls, s0, t.end, ready, h))
  {
    var t := TurnOf(s, |turns|, ready, h);
    assert (turns + [t])[..|turns|] == turns;
    forall i: nat | i < |turns| + 1
      ensures InSequence(turns + [t], s0, ready, h, i)
    {
      assert (turns + [t])[..i] == turns[..i];
      assert i < |turns| ==> InSequence(turns, s0, ready, h, i);
    }
  }

  /** The vector never outgrows the fd_sets, and live entries have a sink. */
  ghost predicate Sound(s: Registry) {
    |s.fds| <= FD_SETSIZE && forall e <- s.fds :: InUse(e) ==> e.sink.Some?
  }

  /** Between two registries of one sweep entries are only appended or marked dead. */
  ghost predicate OnlyRetires(fds: seq<FdEntry>, fds': seq<FdEntry>) {
    |fds| <= |fds'| && forall j: nat {:trigger fds'[j]} :: j < |fds| ==> fds'[j] == fds[j] || fds'[j] == DEAD
  }

  lemma OnlyRetiresTrans(a: seq<FdEntry>, b: seq<FdEntry>, c: seq<FdEntry>)
    requires OnlyRetires(a, b) && OnlyRetires(b, c)
    ensures OnlyRetires(a, c)
  {
    forall j: nat | j < |a|
      ensures c[j] == a[j] || c[j] == DEAD
    {
      assert b[j] == a[j] || b[j] == DEAD;
    }
  }

  lemma {:induction false} RunOpsOnlyRetires(s: Registry, ops: seq<PollOp>)
    requires Sound(s)
    ensures Sound(RunOps(s, ops)) && OnlyRetires(s.fds, RunOps(s, ops).fds)
    decreases |ops|
  {
    if ops != [] {
      var s' := Step(s, ops[0]);
      assert Sound(s') && OnlyRetires(s.fds, s'.fds) by {
        forall e | e in s'.fds && InUse(e)
          ensures e.sink.Some?
        {
          var j: nat :| j < |s'.fds| && s'.fds[j] == e;
          assert j < |s.fds| ==> s.fds[j] in s.fds;
        }
      }
      RunOpsOnlyRetires(s', ops[1..]);
    }
  }

  lemma LiveOfSound(s: Registry)
    requires Sound(s)
    ensures Sound(Compacted(s))
  {
    KeptIsShorter(s.fds, InUse);
    forall e | e in LiveOf(s.fds) ensures e in s.fds { KeptMembers(s.fds, InUse, e); }
  }

  // ---------- handlers that use sockets and timers ----------

  /** What the handler called at a position and stage does. */
  type LoopHandlers = (nat, Stage) -> seq<Act<PollOp>>

  /** The handlers as the registry sees them. */
  function SocketsOf(h: LoopHandlers): Handlers {
    (i: nat, stage: Stage) => Sockets(h(i, stage))
  }

  /** The timer calls made by the handlers of a log, in order. */
  function TimerScript(log: seq<Call>, h: LoopHandlers): seq<TimerModel.Op> {
    if log == [] then []
    else
      var c := log[|log| - 1];
      TimerScript(log[..|log| - 1], h) + TimerCalls(h(c.at, c.stage))
  }

  lemma {:induction false} RunOpsOn(s: Registry, a: seq<PollOp>, b: seq<PollOp>)
    ensures RunOps(s, a + b) == RunOps(RunOps(s, a), b)
    decreases |a|
  {
    if a == [] {
      assert a + b == b;
    } else {
      assert (a + b)[1..] == a[1..] + b;
      RunOpsOn(Step(s, a[0]), a[1..], b);
    }
  }
}
