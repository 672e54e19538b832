/** Laws of the select() reactor: what its registry keeps, what a sweep calls, and exactly when it crashes. */
module SelectLaws {
  import opened Compaction
  import opened Options
  import opened PollEvents
  import opened SelectModel
  import opened Sequences
  import opened Winsock

  ghost function LiveFds(s: Registry): set<int> {
    set e | e in s.fds && InUse(e) :: e.fd
  }

  /** The client's side: a socket is registered at most once at a time, and interest is set on registered
      sockets. */
  ghost predicate Allowed(s: Registry, op: PollOp) {
    match op
    case AddFd(fd, _) => fd != INVALID_SOCKET && fd !in LiveFds(s)
    case SetPollIn(fd) => fd in LiveFds(s)
    case SetPollOut(fd) => fd in LiveFds(s)
    case RemoveFd(_) => true
    case ResetPollIn(_) => true
    case ResetPollOut(_) => true
  }

  ghost predicate AllAllowed(s: Registry, ops: seq<PollOp>)
    decreases |ops|
  {
    ops != [] ==> Allowed(s, ops[0]) && AllAllowed(Step(s, ops[0]), ops[1..])
  }

  /** No socket has two live entries. */
  ghost predicate Unique(s: Registry) {
    forall i: nat, j: nat :: i < j < |s.fds| && Live(s, i) ==> s.fds[i].fd != s.fds[j].fd
  }

  /** A retired entry is always announced. */
  ghost predicate Flagged(s: Registry) {
    forall e <- s.fds :: InUse(e) || s.hasRetired
  }

  /** The registry's invariant: the exception set is exactly the registered sockets, the others lie inside. */
  ghost predicate Consistent(s: Registry) {
    && Sound(s)
    && Unique(s) && Flagged(s)
    && s.ex == LiveFds(s) && s.rd <= LiveFds(s) && s.wr <= LiveFds(s)
  }

  lemma {:induction false} FewerFdsThanEntries(s: Registry)
    ensures |LiveFds(s)| <= |s.fds|
    decreases |s.fds|
  {
    if s.fds != [] {
      var n := |s.fds| - 1;
      var s' := s.(fds := s.fds[..n]);
      FewerFdsThanEntries(s');
      assert s.fds == s'.fds + [s.fds[n]];
      assert LiveFds(s) == LiveFds(s') + if s.fds[n].fd == INVALID_SOCKET then {} else {s.fds[n].fd};
    }
  }

  lemma FdsStay(s: Registry, s': Registry)
    requires s'.fds == s.fds
    ensures LiveFds(s') == LiveFds(s)
  {
  }

  lemma FdsAfterAdd(s: Registry, fd: int, sink: nat)
    requires fd != INVALID_SOCKET && |s.fds| < FD_SETSIZE
    ensures LiveFds(Step(s, AddFd(fd, sink))) == LiveFds(s) + {fd}
  {
    var s' := Step(s, AddFd(fd, sink));
    assert s'.fds[|s.fds|] == FdEntry(fd, Some(sink));
    forall x
      ensures x in LiveFds(s') <==> x in LiveFds(s) || x == fd
    {
      if e :| e in s.fds && e.fd == x != INVALID_SOCKET { assert e in s'.fds; }
    }
  }

  lemma FdsAfterRemove(s: Registry, fd: int)
    requires Consistent(s)
    ensures LiveFds(Step(s, RemoveFd(fd))) == LiveFds(s) - {fd}
  {
    var s' := Step(s, RemoveFd(fd));
    forall x
      ensures x in LiveFds(s') <==> x in LiveFds(s) && x != fd
    {
      if x in LiveFds(s) && x != fd {
        var j: nat :| j < |s.fds| && s.fds[j].fd == x;
        assert s'.fds[j] == s.fds[j];
      }
      if x in LiveFds(s') {
        var j: nat :| j < |s'.fds| && s'.fds[j].fd == x;
        assert s'.fds[j] == s.fds[j] && s.fds[j] in s.fds;
      }
    }
  }

  lemma AddKeeps(s: Registry, fd: int, sink: nat)
    requires Consistent(s) && Allowed(s, AddFd(fd, sink)) && |s.fds| < FD_SETSIZE
    ensures Consistent(Step(s, AddFd(fd, sink))) && fd in Step(s, AddFd(fd, sink)).ex
  {
    FewerFdsThanEntries(s);
    FdsAfterAdd(s, fd, sink);
    AddedIsUnique(s, fd, sink);
    AddedIsSound(s, fd, sink);
  }

  lemma AddedIsSound(s: Registry, fd: int, sink: nat)
    requires Sound(s)
    ensures Sound(Step(s, AddFd(fd, sink)))
  {
    RunOpsOnlyRetires(s, [AddFd(fd, sink)]);
    assert [AddFd(fd, sink)][1..] == [];
  }

  lemma AddedIsUnique(s: Registry, fd: int, sink: nat)
    requires Unique(s) && Flagged(s) && fd !in LiveFds(s) && fd != INVALID_SOCKET && |s.fds| < FD_SETSIZE
    ensures Unique(Step(s, AddFd(fd, sink))) && Flagged(Step(s, AddFd(fd, sink)))
  {
    forall j: nat | j < |s.fds|
      ensures s.fds[j].fd != fd
    {
      assert s.fds[j] in s.fds;
    }
  }

  lemma RemoveKeeps(s: Registry, fd: int)
    requires Consistent(s)
    ensures Consistent(Step(s, RemoveFd(fd)))
  {
    var s' := Step(s, RemoveFd(fd));
    FdsAfterRemove(s, fd);
    assert Unique(s') by {
      forall i: nat, j: nat | i < j < |s.fds| && Live(s', i)
        ensures s'.fds[i].fd != s'.fds[j].fd
      {
        assert s'.fds[i] == s.fds[i] && Live(s, i);
      }
    }
    RunOpsOnlyRetires(s, [RemoveFd(fd)]);
    assert [RemoveFd(fd)][1..] == [];
  }

  /** Every allowed call keeps the registry consistent, and no FD_SET is dropped for lack of room. */
  lemma StepKeeps(s: Registry, op: PollOp)
    requires Consistent(s) && Allowed(s, op)
    ensures Consistent(Step(s, op))
    ensures op.AddFd? && |s.fds| < FD_SETSIZE ==> op.fd in Step(s, op).ex
    ensures op.SetPollIn? ==> op.fd in Step(s, op).rd
    ensures op.SetPollOut? ==> op.fd in Step(s, op).wr
  {
    var s' := Step(s, op);
    FewerFdsThanEntries(s);
    match op
    case AddFd(fd, sink) => if |s.fds| < FD_SETSIZE { AddKeeps(s, fd, sink); }
    case RemoveFd(fd) => RemoveKeeps(s, fd);
    case SetPollIn(fd) => FdsStay(s, s'); Bounded(s.rd, LiveFds(s), fd);
    case SetPollOut(fd) => FdsStay(s, s'); Bounded(s.wr, LiveFds(s), fd);
    case ResetPollIn(fd) => FdsStay(s, s');
    case ResetPollOut(fd) => FdsStay(s, s');
  }

  lemma Bounded(a: set<int>, b: set<int>, x: int)
    requires a <= b && x in b
    ensures x !in a ==> |a| < |b|
  {
    assert b == a + (b - a);
    if x !in a { assert x in b - a; }
  }

  lemma {:induction false} RunOpsKeeps(s: Registry, ops: seq<PollOp>)
    requires Consistent(s) && AllAllowed(s, ops)
    ensures Consistent(RunOps(s, ops))
    decreases |ops|
  {
    if ops != [] {
      StepKeeps(s, ops[0]);
      RunOpsKeeps(Step(s, ops[0]), ops[1..]);
    }
  }

  /** What a call of a client that keeps to its side does: AddFd with room appends an entry with the socket and its
      sink; a socket is watched for reading, or for writing, exactly if this call says so or it was and this call does
      not end it; and for errors exactly if it is registered. */
  lemma StepDoes(s: Registry, op: PollOp, fd: int)
    requires Consistent(s) && Allowed(s, op)
    ensures var s' := Step(s, op);
      && (op.AddFd? && |s.fds| < FD_SETSIZE ==> s'.fds == s.fds + [FdEntry(op.fd, Some(op.sink))])
      && (fd in s'.rd <==> op == SetPollIn(fd) || (fd in s.rd && op != ResetPollIn(fd) && op != RemoveFd(fd)))
      && (fd in s'.wr <==> op == SetPollOut(fd) || (fd in s.wr && op != ResetPollOut(fd) && op != RemoveFd(fd)))
      && (fd in s'.ex <==> fd in LiveFds(s'))
  {
    StepKeeps(s, op);
  }

  /** The most recent of a script's calls that sets or ends interest in `fd`, by `on` or else by `off` or RemoveFd, is
      the k-th and sets it. */
  ghost predicate SetLast(ops: seq<PollOp>, on: PollOp, off: PollOp, fd: int, k: nat) {
    k < |ops| && ops[k] == on && off !in ops[k + 1..] && RemoveFd(fd) !in ops[k + 1..]
  }

  /** After any script a socket is watched for reading exactly if the last of its calls that concern reading set it, or
      it was watched before and none concerns it; and so for writing. */
  lemma {:induction false} WatchedAfter(s: Registry, ops: seq<PollOp>, fd: int)
    requires Consistent(s) && AllAllowed(s, ops)
    ensures fd in RunOps(s, ops).rd <==>
      || (exists k: nat :: SetLast(ops, SetPollIn(fd), ResetPollIn(fd), fd, k))
      || (fd in s.rd && ResetPollIn(fd) !in ops && RemoveFd(fd) !in ops)
    ensures fd in RunOps(s, ops).wr <==>
      || (exists k: nat :: SetLast(ops, SetPollOut(fd), ResetPollOut(fd), fd, k))
      || (fd in s.wr && ResetPollOut(fd) !in ops && RemoveFd(fd) !in ops)
    decreases |ops|
  {
    if ops != [] {
      StepKeeps(s, ops[0]);
      StepDoes(s, ops[0], fd);
      WatchedAfter(Step(s, ops[0]), ops[1..], fd);
      SetLastSplits(ops, SetPollIn(fd), ResetPollIn(fd), fd);
      SetLastSplits(ops, SetPollOut(fd), ResetPollOut(fd), fd);
      assert ops == [ops[0]] + ops[1..];
      assert forall op :: op in ops <==> op == ops[0] || op in ops[1..];
    }
  }

  lemma SetLastSplits(ops: seq<PollOp>, on: PollOp, off: PollOp, fd: int)
    requires ops != []
    ensures (exists k: nat :: SetLast(ops, on, off, fd, k)) <==>
      || (exists k: nat :: SetLast(ops[1..], on, off, fd, k))
      || (ops[0] == on && off !in ops[1..] && RemoveFd(fd) !in ops[1..])
  {
    if k: nat :| SetLast(ops, on, off, fd, k) && k > 0 {
      assert ops[k + 1..] == ops[1..][k..] && SetLast(ops[1..], on, off, fd, k - 1);
    }
    if k: nat :| SetLast(ops[1..], on, off, fd, k) {
      assert ops[k + 2..] == ops[1..][k + 1..] && SetLast(ops, on, off, fd, k + 1);
    }
    if ops[0] == on && off !in ops[1..] && RemoveFd(fd) !in ops[1..] { assert SetLast(ops, on, off, fd, 0); }
  }

  /** A live entry outlives a script exactly if the script does not remove its socket. */
  lemma {:induction false} SurvivesUnlessRemoved(s: Registry, ops: seq<PollOp>, i: nat)
    requires Consistent(s) && AllAllowed(s, ops) && Live(s, i)
    ensures Live(RunOps(s, ops), i) <==> RemoveFd(s.fds[i].fd) !in ops
    ensures i < |RunOps(s, ops).fds| && RunOps(s, ops).fds[i] == if Live(RunOps(s, ops), i) then s.fds[i] else DEAD
    decreases |ops|
  {
    RunOpsOnlyRetires(s, ops);
    if ops != [] {
      var s' := Step(s, ops[0]);
      StepKeeps(s, ops[0]);
      RunOpsOnlyRetires(s, [ops[0]]);
      assert [ops[0]][1..] == [];
      assert ops == [ops[0]] + ops[1..];
      if ops[0] == RemoveFd(s.fds[i].fd) {
        assert s'.fds[i] == DEAD;
        RunOpsOnlyRetires(s', ops[1..]);
      } else {
        assert s'.fds[i] == s.fds[i];
        SurvivesUnlessRemoved(s', ops[1..], i);
      }
    }
  }

  // ---------- the sweep ----------

  /** Every handler the sweep calls keeps to the client's side. */
  ghost predicate Disciplined(turns: seq<Turn>, ready: Ready, h: Handlers) {
    forall i: nat, stage {:trigger turns[i].Before(stage)} ::
      i < |turns| && Called(turns[i].Before(stage), i, stage, ready) ==> AllAllowed(turns[i].Before(stage), h(i, stage))
  }

  lemma AfterKeeps(s: Registry, i: nat, stage: Stage, ready: Ready, h: Handlers)
    requires Consistent(s) && (Called(s, i, stage, ready) ==> AllAllowed(s, h(i, stage)))
    ensures Consistent(After(s, i, stage, ready, h)) && OnlyRetires(s.fds, After(s, i, stage, ready, h).fds)
  {
    if Called(s, i, stage, ready) { RunOpsKeeps(s, h(i, stage)); RunOpsOnlyRetires(s, h(i, stage)); }
  }

  /** All registries of one turn are consistent and only retire or append entries. */
  lemma TurnKeeps(turns: seq<Turn>, i: nat, s: Registry, ready: Ready, h: Handlers)
    requires i < |turns| && turns[i] == TurnOf(s, i, ready, h) && Consistent(s) && Disciplined(turns, ready, h)
    ensures forall stage :: Consistent(turns[i].Before(stage)) && OnlyRetires(s.fds, turns[i].Before(stage).fds)
    ensures Consistent(turns[i].end) && OnlyRetires(s.fds, turns[i].end.fds)
    ensures OnlyRetires(turns[i].wr.fds, turns[i].rd.fds)
  {
    var t := turns[i];
    assert t.Before(Exception) == s;
    AfterKeeps(s, i, Exception, ready, h);
    assert t.Before(Write) == t.wr;
    AfterKeeps(t.wr, i, Write, ready, h);
    assert t.Before(Read) == t.rd;
    AfterKeeps(t.rd, i, Read, ready, h);
    OnlyRetiresTrans(s.fds, t.wr.fds, t.rd.fds);
    OnlyRetiresTrans(s.fds, t.rd.fds, t.end.fds);
  }

  lemma {:induction false} SweepKeeps(turns: seq<Turn>, s0: Registry, ready: Ready, h: Handlers, n: nat)
    requires IsSweep(turns, s0, ready, h) && Consistent(s0) && Disciplined(turns, ready, h) && n <= |turns|
    ensures Consistent(EndOf(turns[..n], s0)) && OnlyRetires(s0.fds, EndOf(turns[..n], s0).fds)
  {
    if n > 0 {
      SweepKeeps(turns, s0, ready, h, n - 1);
      var s := EndOf(turns[..n - 1], s0);
      assert turns[..n][n - 1] == turns[n - 1] && EndOf(turns[..n], s0) == turns[n - 1].end;
      assert InSequence(turns, s0, ready, h, n - 1);
      TurnKeeps(turns, n - 1, s, ready, h);
      OnlyRetiresTrans(s0.fds, s.fds, turns[n - 1].end.fds);
    }
  }

  // ---------- the calls of a sweep ----------

  /** The call is what position and stage demand at their moment. */
  ghost predicate IsCall(turns: seq<Turn>, ready: Ready, c: Call) {
    && c.at < |turns| && Called(turns[c.at].Before(c.stage), c.at, c.stage, ready)
    && c.entry == turns[c.at].Before(c.stage).fds[c.at] && c.callback == CallbackAt(c.stage)
  }

  lemma {:induction false} LogMembers(turns: seq<Turn>, ready: Ready, c: Call)
    ensures c in Log(turns, ready) <==> IsCall(turns, ready, c)
  {
    if turns != [] {
      var n := |turns| - 1;
      LogMembers(turns[..n], ready, c);
      CallsOfTurn(turns[n], n, ready, c);
      assert c.at < n ==> turns[..n][c.at] == turns[c.at];
      assert c in Log(turns, ready) <==> c in Log(turns[..n], ready) || c in CallsIn(turns[n], n, ready);
    }
  }

  lemma CallsOfTurn(t: Turn, i: nat, ready: Ready, c: Call)
    ensures c in CallsIn(t, i, ready) <==>
      && c.at == i && Called(t.Before(c.stage), i, c.stage, ready)
      && c.entry == t.Before(c.stage).fds[i] && c.callback == CallbackAt(c.stage)
  {
    assert c in CallsIn(t, i, ready) <==>
      c in CallAt(t, i, Exception, ready) || c in CallAt(t, i, Write, ready) || c in CallAt(t, i, Read, ready);
  }

  predicate NotAfter(a: Stage, b: Stage) {
    a == Exception || b == Read || a == b
  }

  /** Positions in order, and at each the stages in order. */
  predicate InOrder(c: Call, d: Call) {
    c.at < d.at || (c.at == d.at && c.stage != d.stage && NotAfter(c.stage, d.stage))
  }

  /** The calls are made in order of position and stage, so no position is called twice for one stage. */
  lemma {:induction false} LogIsOrdered(turns: seq<Turn>, ready: Ready, a: nat, b: nat)
    requires a < b < |Log(turns, ready)|
    ensures InOrder(Log(turns, ready)[a], Log(turns, ready)[b])
  {
    var n := |turns| - 1;
    var before, now := Log(turns[..n], ready), CallsIn(turns[n], n, ready);
    if b < |before| {
      LogIsOrdered(turns[..n], ready, a, b);
    } else if a < |before| {
      LogMembers(turns[..n], ready, before[a]);
      CallsOfTurn(turns[n], n, ready, now[b - |before|]);
    }
  }

  /** Every call of a sweep, as it is made, goes to the entry then at that position; the entry is registered at that
      very moment and has a sink, and its socket was watched for that stage when select() ran. */
  lemma {:induction false} CallsAreLive(turns: seq<Turn>, s0: Registry, ready: Ready, h: Handlers, c: Call)
    requires IsSweep(turns, s0, ready, h) && Consistent(s0) && Disciplined(turns, ready, h)
    requires ready.ex <= s0.ex && ready.wr <= s0.wr && ready.rd <= s0.rd
    requires c in Log(turns, ready)
    ensures c.at < |turns|
    ensures var s := turns[c.at].Before(c.stage);
      && Live(s, c.at) && c.entry == s.fds[c.at] && c.entry.sink.Some? && c.entry.fd in LiveFds(s)
      && c.entry.fd in LiveFds(s0) && c.entry.fd in Watched(s0, c.stage) && c.callback == CallbackAt(c.stage)
  {
    LogMembers(turns, ready, c);
    SweepKeeps(turns, s0, ready, h, c.at);
    assert InSequence(turns, s0, ready, h, c.at);
    TurnKeeps(turns, c.at, EndOf(turns[..c.at], s0), ready, h);
    assert turns[c.at].Before(c.stage).fds[c.at] in turns[c.at].Before(c.stage).fds;
  }

  /** The socket's registration in s0 has been retired in s. */
  ghost predicate WasRetired(s0: Registry, s: Registry, fd: int) {
    exists j: nat :: j < |s0.fds| && j < |s.fds| && s0.fds[j].fd == fd && s.fds[j] == DEAD
  }

  /** Which registration a call goes to.  At a position of the original vector it is the one that select() saw.  At a
      later position it is one made during the sweep, which select() never saw; and that is so exactly if the one it
      saw of that socket has been retired. */
  lemma {:induction false} WhoIsCalled(turns: seq<Turn>, s0: Registry, ready: Ready, h: Handlers, c: Call)
    requires IsSweep(turns, s0, ready, h) && Consistent(s0) && Disciplined(turns, ready, h)
    requires ready.ex <= s0.ex && ready.wr <= s0.wr && ready.rd <= s0.rd
    requires c in Log(turns, ready)
    ensures c.at < |s0.fds| ==> c.entry == s0.fds[c.at]
    ensures c.at < |turns|
    ensures c.at >= |s0.fds| <==> WasRetired(s0, turns[c.at].Before(c.stage), c.entry.fd)
  {
    CallsAreLive(turns, s0, ready, h, c);
    var s := turns[c.at].Before(c.stage);
    SweepKeeps(turns, s0, ready, h, c.at);
    assert InSequence(turns, s0, ready, h, c.at);
    TurnKeeps(turns, c.at, EndOf(turns[..c.at], s0), ready, h);
    OnlyRetiresTrans(s0.fds, EndOf(turns[..c.at], s0).fds, s.fds);
    if c.at >= |s0.fds| {
      var j: nat :| j < |s0.fds| && s0.fds[j].fd == c.entry.fd;
      assert s.fds[j] == s0.fds[j] || s.fds[j] == DEAD;
    } else {
      assert s.fds[c.at] == s0.fds[c.at] && Live(s0, c.at);
    }
  }

  /** Nothing ready is skipped: an entry registered before the sweep is called for each stage it is ready for,
      unless a handler called earlier in the sweep retired it. */
  lemma ReadyAreCalled(turns: seq<Turn>, s0: Registry, ready: Ready, h: Handlers, i: nat, stage: Stage)
    requires IsSweep(turns, s0, ready, h) && Consistent(s0) && Disciplined(turns, ready, h) && i < |turns|
    requires Live(s0, i) && s0.fds[i].fd in ready.At(stage)
    ensures i < |turns[i].Before(stage).fds|
    ensures var e := turns[i].Before(stage).fds[i];
      && (e == s0.fds[i] || e == DEAD)
      && (Call(i, stage, CallbackAt(stage), s0.fds[i]) in Log(turns, ready) <==> e == s0.fds[i])
  {
    SweepKeeps(turns, s0, ready, h, i);
    assert InSequence(turns, s0, ready, h, i);
    TurnKeeps(turns, i, EndOf(turns[..i], s0), ready, h);
    OnlyRetiresTrans(s0.fds, EndOf(turns[..i], s0).fds, turns[i].Before(stage).fds);
    assert turns[i].Before(stage).fds[i] == s0.fds[i] || turns[i].Before(stage).fds[i] == DEAD;
    LogMembers(turns, ready, Call(i, stage, CallbackAt(stage), s0.fds[i]));
  }

  // ---------- what select() reported ----------

  /** select() reported the socket for that stage. */
  predicate IsReady(ready: Ready, stage: Stage, fd: int) {
    match stage
    case Exception => fd in ready.ex
    case Write => fd in ready.wr
    case Read => fd in ready.rd
  }

  /** The call is of the right method, for a socket that was reported for that stage. */
  predicate Reported(ready: Ready, c: Call) {
    IsReady(ready, c.stage, c.entry.fd) && (c.callback == OnWritable <==> c.stage == Write)
  }

  /** The entry of position i has been retired when its turn comes to the stage. */
  ghost predicate RetiredBefore(turns: seq<Turn>, i: nat, stage: Stage) {
    && i < |turns|
    && var s := turns[i].Before(stage);
    i < |s.fds| && s.fds[i].fd == INVALID_SOCKET
  }

  /** Every entry whose socket was reported for a stage is called for it, unless it has been retired by then. */
  ghost predicate ReadyAreServed(fds: seq<FdEntry>, turns: seq<Turn>, log: seq<Call>, ready: Ready) {
    forall i: nat, stage :: i < |fds| && fds[i].fd != INVALID_SOCKET && IsReady(ready, stage, fds[i].fd) ==>
      Call(i, stage, if stage == Write then OnWritable else OnReadable, fds[i]) in log || RetiredBefore(turns, i, stage)
  }

  lemma AfterIsSound(s: Registry, i: nat, stage: Stage, ready: Ready, h: Handlers)
    requires Sound(s)
    ensures Sound(After(s, i, stage, ready, h)) && OnlyRetires(s.fds, After(s, i, stage, ready, h).fds)
  {
    RunOpsOnlyRetires(s, if Called(s, i, stage, ready) then h(i, stage) else []);
  }

  lemma TurnIsSound(t: Turn, i: nat, s: Registry, ready: Ready, h: Handlers)
    requires t == TurnOf(s, i, ready, h) && Sound(s)
    ensures forall stage :: OnlyRetires(s.fds, t.Before(stage).fds)
    ensures Sound(t.end) && OnlyRetires(s.fds, t.end.fds)
  {
    AfterIsSound(s, i, Exception, ready, h);
    AfterIsSound(t.wr, i, Write, ready, h);
    AfterIsSound(t.rd, i, Read, ready, h);
    OnlyRetiresTrans(s.fds, t.wr.fds, t.rd.fds);
    OnlyRetiresTrans(s.fds, t.rd.fds, t.end.fds);
  }

  lemma {:induction false} SweepIsSound(turns: seq<Turn>, s0: Registry, ready: Ready, h: Handlers, n: nat)
    requires IsSweep(turns, s0, ready, h) && Sound(s0) && n <= |turns|
    ensures Sound(EndOf(turns[..n], s0)) && OnlyRetires(s0.fds, EndOf(turns[..n], s0).fds)
  {
    if n > 0 {
      SweepIsSound(turns, s0, ready, h, n - 1);
      var s := EndOf(turns[..n - 1], s0);
      assert turns[..n][n - 1] == turns[n - 1] && EndOf(turns[..n], s0) == turns[n - 1].end;
      assert InSequence(turns, s0, ready, h, n - 1);
      TurnIsSound(turns[n - 1], n - 1, s, ready, h);
      OnlyRetiresTrans(s0.fds, s.fds, turns[n - 1].end.fds);
    }
  }

  /** The calls of a sweep, however its handlers behave, are calls for reported sockets only. */
  lemma CallsAreReported(turns: seq<Turn>, ready: Ready, log: seq<Call>)
    requires log <= Log(turns, ready)
    ensures forall c <- log :: Reported(ready, c)
    ensures ready == Ready({}, {}, {}) ==> log == []
  {
    forall c | c in log
      ensures Reported(ready, c)
    {
      var k: nat :| k < |log| && log[k] == c;
      assert Log(turns, ready)[k] == c;
      LogMembers(turns, ready, c);
    }
    if log != [] { assert Reported(ready, log[0]); }
  }

  /** And a whole sweep calls every entry for everything reported of it. */
  lemma ReportedAreCalled(turns: seq<Turn>, s0: Registry, ready: Ready, h: Handlers)
    requires IsSweep(turns, s0, ready, h) && Sound(s0)
    requires |turns| == if ready.Total() == 0 then 0 else |EndOf(turns, s0).fds|
    ensures ReadyAreServed(s0.fds, turns, Log(turns, ready), ready)
  {
    SweepIsSound(turns, s0, ready, h, |turns|);
    assert turns[..|turns|] == turns;
    forall i: nat, stage | i < |s0.fds| && s0.fds[i].fd != INVALID_SOCKET && IsReady(ready, stage, s0.fds[i].fd)
      ensures RetiredBefore(turns, i, stage) ||
        Call(i, stage, if stage == Write then OnWritable else OnReadable, s0.fds[i]) in Log(turns, ready)
    {
      SomethingIsReady(ready, stage, s0.fds[i].fd);
      var s := EndOf(turns[..i], s0);
      SweepIsSound(turns, s0, ready, h, i);
      assert InSequence(turns, s0, ready, h, i);
      TurnIsSound(turns[i], i, s, ready, h);
      OnlyRetiresTrans(s0.fds, s.fds, turns[i].Before(stage).fds);
      assert turns[i].Before(stage).fds[i] == s0.fds[i] || turns[i].Before(stage).fds[i] == DEAD;
      LogMembers(turns, ready, Call(i, stage, if stage == Write then OnWritable else OnReadable, s0.fds[i]));
    }
  }

  /** select() counts what it reports: the number is positive if any set holds a socket. */
  lemma SomethingIsReady(ready: Ready, stage: Stage, fd: int)
    requires IsReady(ready, stage, fd)
    ensures ready.Total() > 0
  {
    assert fd in ready.ex ==> |ready.ex| > 0;
    assert fd in ready.wr ==> |ready.wr| > 0;
    assert fd in ready.rd ==> |ready.rd| > 0;
  }

  /** What the handlers called do to the registry, one script after the other. */
  ghost function Scripts(log: seq<Call>, h: Handlers): seq<seq<PollOp>> {
    seq(|log|, k requires 0 <= k < |log| => h(log[k].at, log[k].stage))
  }

  lemma StageRuns(s0: Registry, log: seq<Call>, s: Registry, i: nat, stage: Stage, ready: Ready, h: Handlers)
    requires s == RunOps(s0, Flat(Scripts(log, h)))
    ensures var calls := if Called(s, i, stage, ready) then [Call(i, stage, CallbackAt(stage), s.fds[i])] else [];
      After(s, i, stage, ready, h) == RunOps(s0, Flat(Scripts(log + calls, h)))
  {
    if Called(s, i, stage, ready) {
      var c := Call(i, stage, CallbackAt(stage), s.fds[i]);
      assert Scripts(log + [c], h) == Scripts(log, h) + [h(i, stage)];
      FlatOn(Scripts(log, h), h(i, stage));
      RunOpsOn(s0, Flat(Scripts(log, h)), h(i, stage));
    } else {
      assert log + [] == log;
    }
  }

  /** A sweep does to the registry just what the handlers of its calls do, one after the other. */
  lemma {:induction false} SweepRunsHandlers(turns: seq<Turn>, s0: Registry, ready: Ready, h: Handlers)
    requires IsSweep(turns, s0, ready, h)
    ensures EndOf(turns, s0) == RunOps(s0, Flat(Scripts(Log(turns, ready), h)))
  {
    if turns != [] {
      var n := |turns| - 1;
      var s, t, log := EndOf(turns[..n], s0), turns[n], Log(turns[..n], ready);
      forall i: nat | i < n ensures InSequence(turns[..n], s0, ready, h, i) {
        assert turns[..n][..i] == turns[..i] && InSequence(turns, s0, ready, h, i);
      }
      SweepRunsHandlers(turns[..n], s0, ready, h);
      assert InSequence(turns, s0, ready, h, n) && t == TurnOf(s, n, ready, h);
      StageRuns(s0, log, s, n, Exception, ready, h);
      StageRuns(s0, log + CallAt(t, n, Exception, ready), t.wr, n, Write, ready, h);
      StageRuns(s0, log + CallAt(t, n, Exception, ready) + CallAt(t, n, Write, ready), t.rd, n, Read, ready, h);
      SplitCalls(log, t, n, ready);
    }
  }

  /** The timer calls of a log are those of the handlers called, one after the other. */
  lemma {:induction false} TimerScriptIs(log: seq<Call>, h: LoopHandlers)
    ensures TimerScript(log, h) ==
      Flat(seq(|log|, k requires 0 <= k < |log| => TimerCalls(h(log[k].at, log[k].stage))))
  {
    if log != [] {
      var n := |log| - 1;
      var parts := seq(|log|, k requires 0 <= k < |log| => TimerCalls(h(log[k].at, log[k].stage)));
      assert parts[..n] == seq(n, k requires 0 <= k < n => TimerCalls(h(log[..n][k].at, log[..n][k].stage)));
      TimerScriptIs(log[..n], h);
    }
  }

  // ---------- removed sockets are not called again ----------

  ghost predicate Readds(ops: seq<PollOp>, fd: int) {
    exists op <- ops :: op.AddFd? && op.fd == fd
  }

  lemma {:induction false} StaysGone(s: Registry, ops: seq<PollOp>, fd: int)
    requires fd != INVALID_SOCKET && fd !in LiveFds(s) && !Readds(ops, fd)
    ensures fd !in LiveFds(RunOps(s, ops))
    decreases |ops|
  {
    if ops != [] {
      var s' := Step(s, ops[0]);
      forall e | e in s'.fds
        ensures e.fd != fd
      {
        var j: nat :| j < |s'.fds| && s'.fds[j] == e;
        if j < |s.fds| { assert s.fds[j] in s.fds; }
        assert ops[0] in ops;
      }
      assert forall op <- ops[1..] :: op in ops;
      StaysGone(s', ops[1..], fd);
    }
  }

  /** From turn `from` on no handler registers `fd`. */
  ghost predicate NeverReadded(turns: seq<Turn>, ready: Ready, h: Handlers, fd: int, from: nat) {
    forall i: nat, stage {:trigger turns[i].Before(stage)} ::
      from <= i < |turns| && Called(turns[i].Before(stage), i, stage, ready) ==> !Readds(h(i, stage), fd)
  }

  lemma TurnStaysGone(turns: seq<Turn>, ready: Ready, h: Handlers, fd: int, i: nat, s: Registry)
    requires i < |turns| && turns[i] == TurnOf(s, i, ready, h) && NeverReadded(turns, ready, h, fd, i)
    requires fd != INVALID_SOCKET
    ensures fd !in LiveFds(turns[i].ex) ==> fd !in LiveFds(turns[i].wr)
    ensures fd !in LiveFds(turns[i].wr) ==> fd !in LiveFds(turns[i].rd)
    ensures fd !in LiveFds(turns[i].rd) ==> fd !in LiveFds(turns[i].end)
  {
    var t := turns[i];
    assert t.Before(Exception) == t.ex && t.Before(Write) == t.wr && t.Before(Read) == t.rd;
    if fd !in LiveFds(t.ex) && Called(t.ex, i, Exception, ready) { StaysGone(t.ex, h(i, Exception), fd); }
    if fd !in LiveFds(t.wr) && Called(t.wr, i, Write, ready) { StaysGone(t.wr, h(i, Write), fd); }
    if fd !in LiveFds(t.rd) && Called(t.rd, i, Read, ready) { StaysGone(t.rd, h(i, Read), fd); }
  }

  lemma {:induction false} GoneAtTurn(turns: seq<Turn>, s0: Registry, ready: Ready, h: Handlers,
                                      fd: int, a: nat, from: Stage, b: nat)
    requires IsSweep(turns, s0, ready, h) && a < b < |turns| && fd != INVALID_SOCKET
    requires fd !in LiveFds(turns[a].Before(from)) && NeverReadded(turns, ready, h, fd, a)
    ensures fd !in LiveFds(turns[b].ex)
    decreases b
  {
    var t := turns[b - 1];
    assert turns[..b][b - 1] == t && InSequence(turns, s0, ready, h, b);
    assert InSequence(turns, s0, ready, h, b - 1);
    TurnStaysGone(turns, ready, h, fd, b - 1, EndOf(turns[..b - 1], s0));
    if a < b - 1 {
      GoneAtTurn(turns, s0, ready, h, fd, a, from, b - 1);
    } else {
      assert t.Before(Exception) == t.ex && t.Before(Write) == t.wr && t.Before(Read) == t.rd;
    }
  }

  /** A socket that is not registered at some moment of the sweep is not called at that or any later moment, unless a
      handler registers it anew. */
  lemma {:induction false} RemovedIsNotCalled(turns: seq<Turn>, s0: Registry, ready: Ready, h: Handlers,
                           fd: int, a: nat, from: Stage, c: Call)
    requires IsSweep(turns, s0, ready, h) && a < |turns|
    requires fd != INVALID_SOCKET && fd !in LiveFds(turns[a].Before(from)) && NeverReadded(turns, ready, h, fd, a)
    requires c in Log(turns, ready) && a <= c.at && (a == c.at ==> NotAfter(from, c.stage))
    ensures c.entry.fd != fd
  {
    LogMembers(turns, ready, c);
    var t := turns[c.at];
    assert InSequence(turns, s0, ready, h, c.at);
    TurnStaysGone(turns, ready, h, fd, c.at, EndOf(turns[..c.at], s0));
    assert t.Before(Exception) == t.ex && t.Before(Write) == t.wr && t.Before(Read) == t.rd;
    if a < c.at {
      GoneAtTurn(turns, s0, ready, h, fd, a, from, c.at);
    }
    assert t.Before(c.stage).fds[c.at] in t.Before(c.stage).fds;
  }

  // ---------- exactly when Poll calls a method on a null sink ----------

  /** The handler called at (i, early) removes the very socket it was called for, which is ready for `late` too. */
  ghost predicate RemovesItself(t: Turn, i: nat, early: Stage, late: Stage, ready: Ready, h: Handlers) {
    && early != late && NotAfter(early, late)
    && Called(t.Before(early), i, early, ready)
    && t.Before(early).fds[i].fd in ready.At(late) && RemoveFd(t.Before(early).fds[i].fd) in h(i, early)
  }

  /** The stale copy of the socket that Poll tests makes it crash exactly when a handler removes the socket it
      was called for while that socket is also ready for a later stage.  Removing any other socket is always
      safe. */
  lemma CrashesExactly(turns: seq<Turn>, s0: Registry, ready: Ready, h: Handlers, i: nat, late: Stage)
    requires IsSweep(turns, s0, ready, h) && Consistent(s0) && Disciplined(turns, ready, h) && i < |turns|
    ensures RetiredMidway(turns[i], i, late, ready) <==>
      exists early :: RemovesItself(turns[i], i, early, late, ready, h)
  {
    SweepKeeps(turns, s0, ready, h, i);
    assert InSequence(turns, s0, ready, h, i);
    TurnKeeps(turns, i, EndOf(turns[..i], s0), ready, h);
    var t := turns[i];
    StageCrash(turns, i, Exception, t.wr, ready, h);
    StageCrash(turns, i, Write, t.rd, ready, h);
    assert t.ex == t.Before(Exception) && t.wr == t.Before(Write) && t.rd == t.Before(Read);
    if RetiredMidway(t, i, late, ready) {
      if !Live(t.wr, i) {
        assert RemovesItself(t, i, Exception, late, ready, h);
      } else {
        assert RemovesItself(t, i, Write, late, ready, h);
      }
    }
    if early :| RemovesItself(t, i, early, late, ready, h) {
      assert !Live(if early == Exception then t.wr else t.rd, i);
    }
  }

  lemma StageCrash(turns: seq<Turn>, i: nat, stage: Stage, next: Registry, ready: Ready, h: Handlers)
    requires i < |turns| && Disciplined(turns, ready, h) && Consistent(turns[i].Before(stage))
    requires next == After(turns[i].Before(stage), i, stage, ready, h)
    ensures var s := turns[i].Before(stage);
      Live(s, i) ==>
        && i < |next.fds| && (Live(next, i) ==> next.fds[i] == s.fds[i])
        && (Live(next, i) <==> !(Called(s, i, stage, ready) && RemoveFd(s.fds[i].fd) in h(i, stage)))
  {
    var s := turns[i].Before(stage);
    if Called(s, i, stage, ready) {
      RunOpsOnlyRetires(s, h(i, stage));
      SurvivesUnlessRemoved(s, h(i, stage), i);
    }
  }

  // ---------- after the poll ----------

  /** After a poll the vector is exactly the live entries in registration order, and nothing waits to be removed: the
      entry of position i has moved to the number of live entries before it. */
  lemma PollLeavesClean(s: Registry)
    requires Consistent(s)
    ensures var c := Compacted(s);
      && c.fds == LiveOf(s.fds) && !c.hasRetired && Consistent(c) && LiveFds(c) == LiveFds(s)
      && (forall e <- c.fds :: InUse(e))
      && (forall i: nat {:trigger Live(s, i)} :: Live(s, i) ==>
            Rank(s.fds, InUse, i) < |c.fds| && c.fds[Rank(s.fds, InUse, i)] == s.fds[i])
      && (forall i: nat, j: nat :: i < j && Live(s, i) && Live(s, j) ==> Rank(s.fds, InUse, i) < Rank(s.fds, InUse, j))
  {
    var c := Compacted(s);
    forall e ensures e in LiveOf(s.fds) <==> e in s.fds && InUse(e) { KeptMembers(s.fds, InUse, e); }
    KeptIsShorter(s.fds, InUse);
    LiveOfUnique(s);
    if !s.hasRetired { KeptAll(s.fds, InUse); }
    forall i: nat | Live(s, i)
      ensures Rank(s.fds, InUse, i) < |c.fds| && c.fds[Rank(s.fds, InUse, i)] == s.fds[i]
    {
      KeptAt(s.fds, InUse, i);
    }
    forall i: nat, j: nat | i < j && Live(s, i) && Live(s, j)
      ensures Rank(s.fds, InUse, i) < Rank(s.fds, InUse, j)
    {
      RankGrows(s.fds, InUse, i, j);
    }
  }

  lemma LiveOfUnique(s: Registry)
    requires Unique(s)
    ensures forall a: nat, b: nat :: a < b < |LiveOf(s.fds)| ==> LiveOf(s.fds)[a].fd != LiveOf(s.fds)[b].fd
  {
    forall a: nat, b: nat | a < b < |LiveOf(s.fds)|
      ensures LiveOf(s.fds)[a].fd != LiveOf(s.fds)[b].fd
    {
      var i := KeptOrigin(s.fds, InUse, a);
      var j := KeptOrigin(s.fds, InUse, b);
      if j < i { RankGrows(s.fds, InUse, j, i); }
    }
  }

  // ---------- whole runs ----------

  /** A registry call from outside; a poll that came to its end, where `calls` are the registry calls of timer
      callbacks; or something that leaves the registry alone: a timer call, or a poll in which select() failed. */
  datatype Event =
    | Did(op: PollOp)
    | Polled(turns: seq<Turn>, ready: Ready, h: Handlers, calls: seq<PollOp>)
    | Nothing

  /** What the event does to the registry. */
  ghost predicate Performs(s: Registry, ev: Event, s': Registry) {
    match ev
    case Did(op) => s' == Step(s, op)
    case Polled(turns, ready, h, calls) =>
      && IsSweep(turns, s, ready, h) && Smooth(turns, ready)
      && |turns| == (if ready.Total() == 0 then 0 else |EndOf(turns, s).fds|)
      && s' == Compacted(RunOps(EndOf(turns, s), calls))
    case Nothing => s' == s
  }

  /** The client keeps to its side in the event. */
  ghost predicate Keeps(s: Registry, ev: Event) {
    match ev
    case Did(op) => Allowed(s, op)
    case Polled(turns, ready, h, calls) => Disciplined(turns, ready, h) && AllAllowed(EndOf(turns, s), calls)
    case Nothing => true
  }

  ghost predicate Transition(s: Registry, ev: Event, s': Registry) {
    Performs(s, ev, s') && Keeps(s, ev)
  }

  /** In every reachable state the exception set is exactly the registered sockets, the read and write sets lie
      inside it, sockets are registered once, and any retired entry is flagged. */
  lemma {:induction false} AlwaysConsistent(states: seq<Registry>, events: seq<Event>, k: nat)
    requires |states| == |events| + 1 && states[0] == Registry([], false, {}, {}, {}) && k < |states|
    requires forall j: nat {:trigger events[j]} :: j < |events| ==> Transition(states[j], events[j], states[j + 1])
    ensures Consistent(states[k])
    ensures k > 0 && events[k - 1].Polled? ==> !states[k].hasRetired && forall e <- states[k].fds :: InUse(e)
  {
    if k > 0 {
      AlwaysConsistent(states, events, k - 1);
      var s, ev := states[k - 1], events[k - 1];
      assert Transition(s, ev, states[k]);
      match ev
      case Did(op) => StepKeeps(s, op);
      case Nothing =>
      case Polled(turns, ready, h, calls) =>
        SweepKeeps(turns, s, ready, h, |turns|);
        assert turns[..|turns|] == turns;
        RunOpsKeeps(EndOf(turns, s), calls);
        PollLeavesClean(RunOps(EndOf(turns, s), calls));
    }
  }

  // ---------- inputs on which the code falls short ----------

  /** Registering a socket and removing it leaves a live entry of it, which nothing polls any more, exactly if it was
      registered before. */
  lemma TwiceRegisteredIsLost(s: Registry, fd: int, sink: nat)
    requires Consistent(s) && fd != INVALID_SOCKET && |s.fds| < FD_SETSIZE
    ensures var s' := Step(Step(s, AddFd(fd, sink)), RemoveFd(fd));
      && fd !in s'.ex && fd !in s'.wr && fd !in s'.rd
      && (fd in LiveFds(s') <==> fd in LiveFds(s))
  {
    var s1 := Step(s, AddFd(fd, sink));
    var s2 := Step(s1, RemoveFd(fd));
    if fd in LiveFds(s) {
      var j: nat :| j < |s.fds| && s.fds[j].fd == fd;
      assert s1.fds[j].fd == fd;
      assert s2.fds[|s.fds|] == FdEntry(fd, Some(sink));
      assert s2.fds[|s.fds|] in s2.fds;
    } else {
      forall j: nat | j < |s2.fds|
        ensures s2.fds[j].fd != fd
      {
        if j < |s.fds| { assert s.fds[j] in s.fds && s1.fds[j] == s.fds[j]; }
      }
    }
  }

  /** One socket, ready to write and in error; its handler for the error removes it.  Poll then calls a null
      sink. */
  lemma SelfRemovalCrashes(turns: seq<Turn>, h: Handlers)
    requires h(0, Exception) == [RemoveFd(5)] && turns != []
    requires IsSweep(turns, Registry([FdEntry(5, Some(0))], false, {}, {5}, {5}), Ready({5}, {5}, {}), h)
    ensures RetiredMidway(turns[0], 0, Write, Ready({5}, {5}, {}))
  {
    var s0, ready := Registry([FdEntry(5, Some(0))], false, {}, {5}, {5}), Ready({5}, {5}, {});
    assert turns[..0] == [];
    assert InSequence(turns, s0, ready, h, 0) && turns[0] == TurnOf(s0, 0, ready, h);
    assert [RemoveFd(5)][1..] == [];
    assert turns[0].wr.fds == Retire(s0.fds, 5);
  }

  /** One readable socket whose handler removes and adds it again: the new registration is called in the same sweep,
      for readiness reported to the old one. */
  lemma ReaddedIsCalled(turns: seq<Turn>, h: Handlers)
    requires h(0, Read) == [RemoveFd(5), AddFd(5, 1)] && |turns| == 2
    requires IsSweep(turns, Registry([FdEntry(5, Some(0))], false, {5}, {}, {5}), Ready({}, {}, {5}), h)
    ensures Call(1, Read, OnReadable, FdEntry(5, Some(1))) in Log(turns, Ready({}, {}, {5}))
  {
    var s0, ready := Registry([FdEntry(5, Some(0))], false, {5}, {}, {5}), Ready({}, {}, {5});
    assert turns[..0] == [] && turns[..1] == [turns[0]];
    var ops := [RemoveFd(5), AddFd(5, 1)];
    assert ops[1..] == [AddFd(5, 1)] && ops[1..][1..] == [];
    assert InSequence(turns, s0, ready, h, 0) && turns[0] == TurnOf(s0, 0, ready, h);
    var s1 := Step(s0, RemoveFd(5));
    assert s1.fds == [DEAD];
    assert turns[0].end == Step(s1, AddFd(5, 1));
    assert turns[0].end.fds == [DEAD, FdEntry(5, Some(1))];
    assert InSequence(turns, s0, ready, h, 1) && turns[1] == TurnOf(turns[0].end, 1, ready, h);
    LogMembers(turns, ready, Call(1, Read, OnReadable, FdEntry(5, Some(1))));
  }
}
