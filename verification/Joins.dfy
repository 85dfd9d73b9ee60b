/** What join guarantees its users, over every run (kernel/thread.c:118-188). */
module Joins {
  import opened Options
  import opened RunQueue
  import opened Machine
  import opened Placement
  import opened MutexProtocol
  import opened Protocol
  import opened Guarantees
  import opened Conditions

  /** Thread `u` exits in this step. */
  ghost predicate Exits(s: Kernel, step: Step, u: Tid) {
    step == Exit && s.rq.current == u
  }

  /** A joining thread goes on with the exit of the one it joins and not before; a thread
      that exits is dead, for good. */
  ghost predicate JoinStage(s: Kernel, step: Step, s': Kernel, t: Tid) {
    t in s.pc ==>
      && t in s'.pc
      && (s.pc[t].Dead? || Exits(s, step, t) ==> s'.pc[t].Dead?)
      && (s.pc[t].InJoin? ==>
            if Exits(s, step, s.pc[t].other) then s'.pc[t] == User else s'.pc[t] == s.pc[t])
  }

  ghost predicate NotOver(pc: Pc) {
    !pc.InJoin? && !pc.Dead?
  }

  /** A step that is no exit and changes at most the position of one thread, or of two, that
      neither join nor are dead. */
  lemma QuietJoin(s: Kernel, step: Step, s': Kernel, a: Tid, x: Pc, b: Tid, y: Pc, t: Tid)
    requires step != Exit && (a in s.pc ==> NotOver(s.pc[a])) && (b in s.pc ==> NotOver(s.pc[b]))
    requires s'.pc == s.pc || s'.pc == s.pc[a := x] || s'.pc == s.pc[a := x][b := y]
    ensures JoinStage(s, step, s', t)
  {
  }

  lemma CurrentNotOver(s: Kernel)
    requires PlaceInv(s, false) && s.rq.current != IDLE
    ensures s.rq.current in s.pc && NotOver(s.pc[s.rq.current])
  {
    CurrentIsLive(s.rq, s.pc);
  }

  lemma ExecuteJoin(s: Kernel, stored: bool, t: Tid)
    requires Inv(s) && s.rq.current != IDLE && AtInstruction(s)
    ensures JoinStage(s, Instruction(stored), Execute(s, stored), t)
  {
    var cur := s.rq.current;
    var pc := s.pc[cur];
    var step := Instruction(stored);
    CurrentNotOver(s);
    if pc.LockSvc? || pc.Relock? {
      LockEffect(s, pc.m);
      QuietJoin(s, step, SysLock(s, pc.m), cur, SysLock(s, pc.m).pc[cur], cur, User, t);
    } else if pc.UnlockSvc? {
      UnlockJoin(s, pc.m, step, t);
    } else {
      FastPathShape(s, stored);
      QuietJoin(s, step, FastPath(s, stored), cur, FastPath(s, stored).pc[cur], cur, User, t);
    }
  }

  lemma UnlockJoin(s: Kernel, m: Addr, step: Step, t: Tid)
    requires Inv(s) && s.rq.current != IDLE && s.pc[s.rq.current] == UnlockSvc(m) && m in s.val && step != Exit
    ensures JoinStage(s, step, SysUnlock(Position(s, User, None), m), t)
  {
    var cur := s.rq.current;
    var s1 := Position(s, User, None);
    assert PcOk(cur, s.pc, s.val, s.held, s.mutexQ, s.priv);
    CurrentNotWaiting(s);
    PositionSync(s, User, None);
    UnlockEffect(s1, m);
    FirstWaiter(s, m);
    QuietJoin(s, step, SysUnlock(s1, m), cur, User, Waiters(s, m)[0], User, t);
  }

  lemma CondWaitJoin(s: Kernel, c: Addr, m: Addr, t: Tid)
    requires Inv(s) && s.rq.current != IDLE && m in s.val && s.rq.current in s.Holders(m)
    ensures JoinStage(s, CondWait(c, m), SysCondWait(s, c, m), t)
  {
    var cur := s.rq.current;
    CurrentNotOver(s);
    CondWaitEffect(s, c, m);
    if Waiters(s, m) != [] {
      FirstWaiter(s, m);
      QuietJoin(s, CondWait(c, m), SysCondWait(s, c, m), cur, InCond(c, m), Waiters(s, m)[0], User, t);
    } else {
      QuietJoin(s, CondWait(c, m), SysCondWait(s, c, m), cur, InCond(c, m), cur, User, t);
    }
  }

  lemma SignalJoin(s: Kernel, c: Addr, t: Tid)
    requires Inv(s) && s.rq.current != IDLE
    ensures JoinStage(s, Signal(c), SysSignal(s, c), t)
  {
    var cur := s.rq.current;
    CurrentNotOver(s);
    if CondWaiters(s, c) != [] {
      FirstCondWaiter(s, c);
      SignalEffect(s, c);
      var o := CondWaiters(s, c)[0];
      QuietJoin(s, Signal(c), SysSignal(s, c), o, Relock(s.pc[o].m), cur, User, t);
    } else {
      SignalEffect(s, c);
      QuietJoin(s, Signal(c), SysSignal(s, c), cur, User, cur, User, t);
    }
  }

  lemma ExitJoin(s: Kernel, t: Tid)
    requires Inv(s) && s.rq.current != IDLE
    ensures JoinStage(s, Exit, SysExit(s), t)
  {
    var cur := s.rq.current;
    CurrentNotOver(s);
    ExitOnlyPc(s);
    assert HasJoiner(cur, s.joining, s.pc);
    assert IsJoiner(t, s.joining, s.pc);
    ExitPositions(s, SysExit(s), s.rq.current, t);
  }

  lemma ExitPositions(s: Kernel, s': Kernel, cur: Tid, t: Tid)
    requires cur == s.rq.current && cur in s.pc && NotOver(s.pc[cur])
    requires s'.pc == if cur in s.joining then s.pc[cur := Dead][s.joining[cur] := User] else s.pc[cur := Dead]
    requires HasJoiner(cur, s.joining, s.pc) && IsJoiner(t, s.joining, s.pc)
    ensures JoinStage(s, Exit, s', t)
  {
  }

  lemma StepJoin(s: Kernel, step: Step, t: Tid)
    requires Inv(s) && Enabled(s, step)
    ensures JoinStage(s, step, Next(s, step), t)
  {
    var cur := s.rq.current;
    match step
    case Tick =>
      ElectOnlySchedules(s, true);
      QuietJoin(s, Tick, Elect(s, true), IDLE, User, IDLE, User, t);
    case Yield =>
      YieldOnlySchedules(s);
      QuietJoin(s, Yield, YieldNow(s), IDLE, User, IDLE, User, t);
    case Instruction(stored) => ExecuteJoin(s, stored, t);
    case CondWait(c, m) => CondWaitJoin(s, c, m, t);
    case Signal(c) => SignalJoin(s, c, t);
    case Exit => ExitJoin(s, t);
    case Join(u) =>
      JoinOnlyPc(s, u);
      QuietJoin(s, step, SysJoin(s, u), cur, InJoin(u), cur, User, t);
    case Create(u, p) => QuietJoin(s, step, SysCreate(s, u, p), u, User, IDLE, User, t);
    case CallLock(m) => QuietJoin(s, step, Next(s, step), cur, LockLdrex(m), cur, User, t);
    case CallTry(m) => QuietJoin(s, step, Next(s, step), cur, TryLdrex(m), cur, User, t);
    case CallUnlock(m) => QuietJoin(s, step, Next(s, step), cur, UnlockLdrex(m), cur, User, t);
  }

  lemma MoveJoin(s: Kernel, step: Step, s': Kernel, t: Tid)
    requires Inv(s) && Moves(s, step, s')
    ensures JoinStage(s, step, s', t)
  {
    StepJoin(s, step, t);
  }

  lemma RunJoin(run: Run, t: Tid, i: nat)
    requires IsRun(run) && Inv(run.states[0]) && i < |run.steps|
    ensures JoinStage(run.states[i], run.steps[i], run.states[i + 1], t)
  {
    RunKeeps(run, i);
    assert MovesAt(run, i);
    MoveJoin(run.states[i], run.steps[i], run.states[i + 1], t);
  }

  // ----- the call -----

  /** The results of `thread_join`: success, or one of its errors. */
  predicate JoinSucceeds(s: Kernel, u: Tid) {
    s.Thread(u) && (u in s.joinable || u !in s.joining)
  }

  /**
   What a call of join means to its caller.  If the other thread lives and nobody joins it
   yet, the caller waits, neither running nor ready; otherwise it goes on at once, with
   success exactly if the other one is dead and was not joined before it died.
   */
  lemma JoinOutcome(s: Kernel, u: Tid)
    requires Inv(s) && Enabled(s, Join(u))
    ensures var t, s' := s.rq.current, Next(s, Join(u));
            if s.Thread(u) && !s.pc[u].Dead? && u !in s.joining
            then && JoinSucceeds(s, u) && s'.pc == s.pc[t := InJoin(u)]
                 && s'.rq.current != t && t !in Queued(s'.rq)
            else && s' == s.(monitor := None)
                 && (JoinSucceeds(s, u) <==> s.Thread(u) && s.pc[u].Dead? && u in s.joinable)
  {
    var t, s' := s.rq.current, Next(s, Join(u));
    assert DeathRecorded(u, s.joining, s.joinable, s.pc);
    if s.Thread(u) && !s.pc[u].Dead? && u !in s.joining {
      ElectOnlySchedules(s.(joining := s.joining[u := t], pc := s.pc[t := InJoin(u)]), false);
      JoinInv(s, u);
      NotRunnable(s', t);
    }
  }

  // ----- the wait -----

  lemma StageStays(s: Kernel, step: Step, s': Kernel, t: Tid, u: Tid)
    requires JoinStage(s, step, s', t) && PcOf(s, t) == InJoin(u) && !Exits(s, step, u)
    ensures PcOf(s', t) == InJoin(u)
  {
  }

  lemma {:induction false} StaysJoining(run: Run, t: Tid, u: Tid, j: nat)
    requires IsRun(run) && Inv(run.states[0]) && j < |run.states|
    requires PcOf(run.states[0], t) == InJoin(u)
    requires forall i :: 0 <= i < j ==> !Exits(run.states[i], run.steps[i], u)
    ensures PcOf(run.states[j], t) == InJoin(u)
  {
    if j > 0 {
      var i := j - 1;
      StaysJoining(run, t, u, i);
      RunJoin(run, t, i);
      StageStays(run.states[i], run.steps[i], run.states[i + 1], t, u);
    }
  }

  /** Until the other thread exits, the caller of join neither runs nor is ready. */
  lemma JoinWaits(run: Run, t: Tid, u: Tid, j: nat)
    requires IsRun(run) && Inv(run.states[0]) && j < |run.states|
    requires PcOf(run.states[0], t) == InJoin(u)
    requires forall i :: 0 <= i < j ==> !Exits(run.states[i], run.steps[i], u)
    ensures PcOf(run.states[j], t) == InJoin(u)
    ensures run.states[j].rq.current != t && t !in Queued(run.states[j].rq)
  {
    StaysJoining(run, t, u, j);
    RunKeeps(run, j);
    NotRunnable(run.states[j], t);
  }

  /** The exit of the other thread makes the caller ready or running, once. */
  lemma JoinEnds(run: Run, t: Tid, u: Tid, j: nat)
    requires IsRun(run) && Inv(run.states[0]) && j < |run.steps|
    requires PcOf(run.states[j], t) == InJoin(u) && Exits(run.states[j], run.steps[j], u)
    ensures PcOf(run.states[j + 1], t) == User && PcOf(run.states[j + 1], u) == Dead
    ensures Runnable(run.states[j + 1].rq)[t] == 1
  {
    ExitsDead(run, u, j);
    JoinerGoesOn(run, t, u, j);
    RunKeeps(run, j + 1);
    RunnableOnce(run.states[j + 1], t);
  }

  lemma JoinerGoesOn(run: Run, t: Tid, u: Tid, j: nat)
    requires IsRun(run) && Inv(run.states[0]) && j < |run.steps|
    requires PcOf(run.states[j], t) == InJoin(u) && Exits(run.states[j], run.steps[j], u)
    ensures t != IDLE && t in run.states[j + 1].pc && run.states[j + 1].pc[t] == User
  {
    RunJoin(run, t, j);
    RunKeeps(run, j);
    NotIdle(run.states[j], t, u);
  }

  lemma ExitsDead(run: Run, u: Tid, j: nat)
    requires IsRun(run) && Inv(run.states[0]) && j < |run.steps| && Exits(run.states[j], run.steps[j], u)
    ensures u in run.states[j + 1].pc && run.states[j + 1].pc[u] == Dead
  {
    RunKeeps(run, j);
    RunJoin(run, u, j);
  }

  lemma NotIdle(s: Kernel, t: Tid, u: Tid)
    requires PlaceInv(s, false) && PcOf(s, t) == InJoin(u)
    ensures t != IDLE && t in s.pc
  {
  }

  lemma RunnableOnce(s: Kernel, t: Tid)
    requires PlaceInv(s, false) && t in s.pc && s.pc[t] == User && t != IDLE
    ensures Runnable(s.rq)[t] == 1
  {
    assert Runnable(s.rq)[t] == multiset(Live(s.pc))[t];
  }

  lemma {:induction false} DeadForGood(run: Run, u: Tid, i: nat, j: nat)
    requires IsRun(run) && Inv(run.states[0]) && i <= j < |run.states|
    requires u in run.states[i].pc && run.states[i].pc[u].Dead?
    ensures u in run.states[j].pc && run.states[j].pc[u].Dead?
  {
    if i < j {
      DeadForGood(run, u, i, j - 1);
      RunJoin(run, u, j - 1);
    }
  }

  /** The step in which the other thread exits, and the wait until then. */
  lemma FirstExit(run: Run, t: Tid, u: Tid, j: nat) returns (i: nat)
    requires IsRun(run) && Inv(run.states[0]) && j < |run.states|
    requires PcOf(run.states[0], t) == InJoin(u) && PcOf(run.states[j], t) != InJoin(u)
    ensures i < j && Exits(run.states[i], run.steps[i], u)
    ensures forall k :: 0 <= k <= i ==> PcOf(run.states[k], t) == InJoin(u)
  {
    i := 0;
    while !Exits(run.states[i], run.steps[i], u)
      invariant i < j && PcOf(run.states[i], t) == InJoin(u)
      invariant forall k :: 0 <= k < i ==> PcOf(run.states[k], t) == InJoin(u)
      decreases j - i
    {
      RunJoin(run, t, i);
      StageStays(run.states[i], run.steps[i], run.states[i + 1], t, u);
      i := i + 1;
    }
  }

  /** A join that is over has waited for the exit of the other thread, which is dead. */
  lemma JoinReturns(run: Run, t: Tid, u: Tid, j: nat) returns (i: nat)
    requires IsRun(run) && Inv(run.states[0]) && j < |run.states|
    requires PcOf(run.states[0], t) == InJoin(u) && PcOf(run.states[j], t) != InJoin(u)
    ensures i < j && Exits(run.states[i], run.steps[i], u)
    ensures forall k :: 0 <= k <= i ==> PcOf(run.states[k], t) == InJoin(u)
    ensures u in run.states[j].pc && run.states[j].pc[u].Dead?
  {
    i := FirstExit(run, t, u, j);
    ExitsDead(run, u, i);
    DeadForGood(run, u, i + 1, j);
  }
}
