/** What user code does when the loop calls it: calls on the loop's sockets mixed with calls on its timers. */
module PollEvents {
  import opened Compaction
  import opened Options
  import opened Sequences
  import opened TimerModel

  /** The two socket callbacks of an event sink. */
  datatype Callback = OnReadable | OnWritable

  datatype Act<SocketOp> = Socket(op: SocketOp) | Timer(call: TimerModel.Op)

  /** What each timer's callback does, by timer id. */
  type TimeoutActs<SocketOp> = int -> seq<Act<SocketOp>>

  function Sockets<SocketOp>(acts: seq<Act<SocketOp>>): seq<SocketOp> {
    if acts == [] then [] else (if acts[0].Socket? then [acts[0].op] else []) + Sockets(acts[1..])
  }

  function TimerCalls<SocketOp>(acts: seq<Act<SocketOp>>): seq<TimerModel.Op> {
    if acts == [] then [] else (if acts[0].Timer? then [acts[0].call] else []) + TimerCalls(acts[1..])
  }

  /** The callbacks as the timer model sees them. */
  function TimersOf<SocketOp>(cb: TimeoutActs<SocketOp>): Callbacks {
    id => TimerCalls(cb(id))
  }

  /** The socket calls of a list of timer callbacks, in order. */
  function SocketCalls<SocketOp>(called: seq<int>, cb: TimeoutActs<SocketOp>): seq<SocketOp> {
    if called == [] then []
    else SocketCalls(called[..|called| - 1], cb) + Sockets(cb(called[|called| - 1]))
  }

  lemma FirstAct<SocketOp>(acts: seq<Act<SocketOp>>)
    requires acts != []
    ensures var s, t, rest := Sockets(acts), TimerCalls(acts), acts[1..];
      match acts[0]
      case Socket(op) => s == [op] + Sockets(rest) && s[1..] == Sockets(rest) && t == TimerCalls(rest)
      case Timer(call) => s == Sockets(rest) && t == [call] + TimerCalls(rest) && t[1..] == TimerCalls(rest)
  {
  }

  lemma {:induction false} RunTimersOn(s: Timers, a: seq<TimerModel.Op>, b: seq<TimerModel.Op>)
    ensures var e := RunOps(s, a);
      RunOps(s, a + b) == if e.fault.Some? then e else RunOps(e.state, b)
    decreases |a|
  {
    if a == [] {
      assert a + b == b;
    } else {
      assert (a + b)[1..] == a[1..] + b;
      RunTimersOn(Step(s, a[0]).state, a[1..], b);
    }
  }

  // ---------- what the parts of a script are ----------

  predicate IsSocket<SocketOp>(act: Act<SocketOp>) {
    act.Socket?
  }

  predicate IsTimer<SocketOp>(act: Act<SocketOp>) {
    act.Timer?
  }

  /** The socket calls of a script are its socket acts, all of them and in their order. */
  lemma {:induction false} SocketsAre<SocketOp>(acts: seq<Act<SocketOp>>)
    ensures |Sockets(acts)| == |Kept(acts, IsSocket)|
    ensures forall k: nat :: k < |Sockets(acts)| ==> Kept(acts, IsSocket)[k] == Socket(Sockets(acts)[k])
    decreases |acts|
  {
    if acts != [] {
      SocketsAre(acts[1..]);
      KeptFirst(acts, IsSocket);
    }
  }

  /** The timer calls of a script are its timer acts, all of them and in their order. */
  lemma {:induction false} TimerCallsAre<SocketOp>(acts: seq<Act<SocketOp>>)
    ensures |TimerCalls(acts)| == |Kept(acts, IsTimer)|
    ensures forall k: nat :: k < |TimerCalls(acts)| ==> Kept(acts, IsTimer)[k] == Act.Timer(TimerCalls(acts)[k])
    decreases |acts|
  {
    if acts != [] {
      TimerCallsAre(acts[1..]);
      KeptFirst(acts, IsTimer);
    }
  }

  lemma SocketIn<SocketOp>(acts: seq<Act<SocketOp>>, op: SocketOp)
    ensures op in Sockets(acts) <==> Socket(op) in acts
  {
    SocketsAre(acts);
    KeptMembers(acts, IsSocket, Socket(op));
    if Socket(op) in acts {
      var k: nat :| k < |Kept(acts, IsSocket)| && Kept(acts, IsSocket)[k] == Socket(op);
      assert Sockets(acts)[k] == op;
    }
  }

  lemma TimerIn<SocketOp>(acts: seq<Act<SocketOp>>, call: TimerModel.Op)
    ensures call in TimerCalls(acts) <==> Act.Timer(call) in acts
  {
    TimerCallsAre(acts);
    KeptMembers(acts, IsTimer, Act.Timer(call));
    if Act.Timer(call) in acts {
      var k: nat :| k < |Kept(acts, IsTimer)| && Kept(acts, IsTimer)[k] == Act.Timer(call);
      assert TimerCalls(acts)[k] == call;
    }
  }

  /** Each timer's callback makes the timer calls of its script, in order. */
  lemma TimersOfAre<SocketOp>(cb: TimeoutActs<SocketOp>, id: int)
    ensures |TimersOf(cb)(id)| == |Kept(cb(id), IsTimer)|
    ensures forall k: nat :: k < |TimersOf(cb)(id)| ==> Kept(cb(id), IsTimer)[k] == Act.Timer(TimersOf(cb)(id)[k])
  {
    TimerCallsAre(cb(id));
  }

  /** The registry calls of a list of callbacks are the socket calls of each, one callback after the other. */
  lemma {:induction false} SocketCallsAre<SocketOp>(called: seq<int>, cb: TimeoutActs<SocketOp>)
    ensures SocketCalls(called, cb) == Flat(seq(|called|, k requires 0 <= k < |called| => Sockets(cb(called[k]))))
  {
    if called != [] {
      var n := |called| - 1;
      var parts := seq(|called|, k requires 0 <= k < |called| => Sockets(cb(called[k])));
      assert parts[..n] == seq(n, k requires 0 <= k < n => Sockets(cb(called[..n][k])));
      SocketCallsAre(called[..n], cb);
    }
  }

  /** So they are just the socket acts of the callbacks called. */
  lemma {:induction false} SocketCallIn<SocketOp>(called: seq<int>, cb: TimeoutActs<SocketOp>, op: SocketOp)
    ensures op in SocketCalls(called, cb) <==> exists id :: id in called && Socket(op) in cb(id)
  {
    if called != [] {
      var n := |called| - 1;
      SocketCallIn(called[..n], cb, op);
      SocketIn(cb(called[n]), op);
      assert called == called[..n] + [called[n]];
      assert op in SocketCalls(called, cb) <==> op in SocketCalls(called[..n], cb) || op in Sockets(cb(called[n]));
      assert forall id :: id in called <==> id in called[..n] || id == called[n];
      if id :| id in called[..n] && Socket(op) in cb(id) { assert id in called; }
    }
  }
}
