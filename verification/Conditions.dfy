/** What condition variables guarantee their users, over every run. */
module Conditions {
  import opened Options
  import opened Sequences
  import opened RunQueue
  import opened Machine
  import opened Placement
  import opened MutexProtocol
  import opened Protocol
  import opened Guarantees

  // ----- the wait list -----

  lemma ExecuteCondList(s: Kernel, stored: bool, c: Addr)
    requires Inv(s) && s.rq.current != IDLE && AtInstruction(s)
    ensures CondWaiters(Execute(s, stored), c) == CondWaiters(s, c)
  {
    var t := s.rq.current;
    var pc := s.pc[t];
    CurrentNotWaiting(s);
    assert PcOk(t, s.pc, s.val, s.held, s.mutexQ, s.priv);
    if pc.LockSvc? || pc.Relock? {
      LockEffect(s, pc.m);
      WaitersPriv(s.condQ, s.priv, t, pc.m, c);
    } else if pc.UnlockSvc? {
      PositionSync(s, User, None);
      UnlockEffect(Position(s, User, None), pc.m);
    } else {
      FastPathShape(s, stored);
    }
  }

  lemma SignalAdvances(s: Kernel, d: Addr, c: Addr)
    requires Inv(s) && s.rq.current != IDLE
    ensures Advances(CondWaiters(s, c), CondWaiters(SysSignal(s, d), c), c == d)
  {
    if CondWaiters(s, d) != [] {
      FirstCondWaiter(s, d);
      WaitersWithoutFirst(s.condQ, s.priv, d, c);
    }
    SignalEffect(s, d);
  }

  lemma CondWaitAdvances(s: Kernel, d: Addr, m: Addr, c: Addr)
    requires Inv(s) && s.rq.current != IDLE && m in s.val && s.rq.current in s.Holders(m)
    ensures CondWaiters(SysCondWait(s, d, m), c) == CondWaiters(s, c) + (if c == d then [s.rq.current] else [])
  {
    CurrentNotWaiting(s);
    CondWaitEffect(s, d, m);
    WaitersAppend(s.condQ, s.priv, s.rq.current, d, c);
  }

  /** Only a signal on `c` takes a thread off the list of `c`, and it takes the first. */
  lemma StepAdvances(s: Kernel, step: Step, c: Addr)
    requires Inv(s) && Enabled(s, step)
    ensures Advances(CondWaiters(s, c), CondWaiters(Next(s, step), c), step == Signal(c))
  {
    match step
    case Tick => ElectOnlySchedules(s, true);
    case Yield => YieldOnlySchedules(s);
    case Instruction(stored) => ExecuteCondList(s, stored, c);
    case CondWait(d, m) => CondWaitAdvances(s, d, m, c);
    case Signal(d) => SignalAdvances(s, d, c);
    case Exit => ExitOnlyPc(s);
    case Join(u) => JoinOnlyPc(s, u);
    case Create(t, p) => WaitersPriv(s.condQ, s.priv, t, 0, c);
    case CallLock(_) =>
    case CallTry(_) =>
    case CallUnlock(_) =>
  }

  /** Releasing the mutex and joining the list are one step: no signal can come between. */
  lemma CondWaitAtomic(s: Kernel, c: Addr, m: Addr)
    requires Inv(s) && Enabled(s, CondWait(c, m))
    ensures var s' := Next(s, CondWait(c, m));
            CondWaiters(s', c) == CondWaiters(s, c) + [s.rq.current] && s.rq.current !in s'.Holders(m)
  {
    CondWaitAdvances(s, c, m, c);
    CondWaitEffect(s, c, m);
    CurrentNotWaiting(s);
    if Waiters(s, m) != [] { WaitersMember(s.mutexQ, s.priv, m, Waiters(s, m)[0]); }
  }

  // ----- what the test of the tag BLOCKED in unlock is for -----

  /** The end of unlock as it would be without that test (kernel/mutex.c:54-60). */
  function EndUntested(s: Kernel, waiter: Option<Tid>): (r: Kernel)
    requires Wf(s) && s.rq.current != IDLE && (waiter.Some? ==> s.Thread(waiter.value))
    ensures Wf(r) && r.Thread(s.rq.current)
  {
    if waiter.Some? && s.rq.prio[s.rq.current] <= s.rq.prio[waiter.value] then YieldNow(s) else s
  }

  lemma YieldedBag(s: Kernel)
    requires Wf(s) && s.rq.current != IDLE
    ensures Runnable(YieldNow(s).rq) == Queued(s.rq) + multiset{s.rq.current}
  {
    EnqueuedBag(s.rq, s.rq.current);
    ElectedBag(Enqueued(s.rq, s.rq.current), false);
  }

  /** How often a thread that waits on a condition occurs, if it is also runnable `n` times. */
  lemma OnConditionAndRunnable(s: Kernel, t: Tid, n: nat)
    requires Wf(s) && s.Thread(t) && s.pc[t].InCond? && Runnable(s.rq)[t] == n
    requires MutexList(s.mutexQ, s.pc, s.priv) && CondList(s.condQ, s.pc, s.priv)
    ensures Occurrences(s, t) == 1 + n
  {
    OnceIfPresent(s.mutexQ, t);
    OnceIfPresent(s.condQ, t);
  }

  /**
   A caller that is already on the list of a condition would, without the test, be in
   two places: on that list, and ready if unlock has a waiter of the same or a
   numerically larger priority, or else still running.  With the test it is in one.
   */
  lemma BlockedTestNeeded(s: Kernel, waiter: Option<Tid>)
    requires PlaceInv(s, true) && s.rq.current in s.condQ && (waiter.Some? ==> s.Thread(waiter.value))
    ensures s.rq.current != IDLE && s.Thread(s.rq.current)
    ensures Occurrences(EndUntested(s, waiter), s.rq.current) == 2
    ensures Occurrences(EndUnlock(s, waiter), s.rq.current) == 1
  {
    var t := s.rq.current;
    assert s.state[t] == Blocked && t !in Live(s.pc);
    assert Queued(s.rq)[t] == multiset(Live(s.pc))[t] == 0;
    YieldedBag(s);
    YieldOnlySchedules(s);
    OnConditionAndRunnable(EndUntested(s, waiter), t, 1);
    ElectInv(s, false);
    ExactlyOnePlace(EndUnlock(s, waiter), t);
  }

  /** For a caller that is not, the test changes nothing. */
  lemma BlockedTestHarmless(s: Kernel, waiter: Option<Tid>)
    requires PlaceInv(s, false) && s.rq.current != IDLE && (waiter.Some? ==> s.Thread(waiter.value))
    ensures EndUntested(s, waiter) == EndUnlock(s, waiter)
  {
    CurrentNotWaiting(s);
  }

  /** Every `cond_wait` reaches that test with its caller on the list. */
  lemma CondWaitReachesTest(s: Kernel, c: Addr, m: Addr) returns (s2: Kernel, waiter: Option<Tid>)
    requires Inv(s) && s.rq.current != IDLE && m in s.val && s.rq.current in s.Holders(m)
    ensures PlaceInv(s2, true) && (waiter.Some? ==> s2.Thread(waiter.value))
    ensures s2.rq.current == s.rq.current && s2.rq.current in s2.condQ
    ensures SysCondWait(s, c, m) == EndUnlock(s2, waiter)
  {
    var s1 := WaitCond(s, c, m);
    waiter := NextOwner(s1, m);
    CurrentNotWaiting(s);
    WaitCondInv(s, c, m);
    WaitCondSync(s, c, m);
    SysUnlockSync(s1, m);
    ReleasePlace(s1, m, waiter, true);
    s2 := Release(s1, m, waiter);
  }

  // ----- the life of a waiting thread -----

  /** From the wait, only a signal on its own condition moves a thread on, to
      contend for the mutex; and it leaves the kernel only as a holder of it. */
  ghost predicate WaitStage(pc: Pc, pc': Pc, signal: bool, owns: bool) {
    match pc
    case InCond(_, m) => pc' == pc || (signal && pc' == Relock(m))
    case Relock(m) => pc' == pc || pc' == InLock(m) || (pc' == User && owns)
    case InLock(_) => pc' == pc || (pc' == User && owns)
    case _ => true
  }

  ghost predicate SignalsOwn(pc: Pc, step: Step) {
    pc.InCond? && step == Signal(pc.c)
  }

  ghost predicate OwnsOwn(pc: Pc, s': Kernel, t: Tid) {
    (pc.Relock? || pc.InLock?) && t in s'.Holders(pc.m)
  }

  ghost function PcOf(s: Kernel, t: Tid): Pc {
    if t in s.pc then s.pc[t] else Dead
  }

  ghost predicate StageOk(s: Kernel, step: Step, s': Kernel, t: Tid) {
    WaitStage(PcOf(s, t), PcOf(s', t), SignalsOwn(PcOf(s, t), step), OwnsOwn(PcOf(s, t), s', t))
  }

  ghost predicate NotWaiting(pc: Pc) {
    !pc.InCond? && !pc.Relock? && !pc.InLock?
  }

  /** A step that changes at most the position of one thread that is not waiting. */
  lemma QuietStage(s: Kernel, step: Step, s': Kernel, cur: Tid, x: Pc, t: Tid)
    requires s'.pc == s.pc || (s'.pc == s.pc[cur := x] && NotWaiting(PcOf(s, cur)))
    ensures StageOk(s, step, s', t)
  {
  }

  lemma TwoQuietStage(s: Kernel, step: Step, s': Kernel, cur: Tid, x: Pc, u: Tid, y: Pc, t: Tid)
    requires s'.pc == s.pc[cur := x][u := y] && NotWaiting(PcOf(s, cur)) && NotWaiting(PcOf(s, u))
    ensures StageOk(s, step, s', t)
  {
  }

  /** As before, with the mutex `m` handed to its waiter `w`. */
  lemma HandOffStage(s: Kernel, step: Step, s': Kernel, cur: Tid, x: Pc, w: Tid, m: Addr, t: Tid)
    requires cur in s.pc && NotWaiting(s.pc[cur]) && w in s.pc && s.pc[w] == InLock(m)
    requires s'.pc == s.pc[cur := x][w := User] && m in s'.held && w in s'.held[m]
    ensures StageOk(s, step, s', t)
  {
  }

  /** The lock that ends `cond_wait`. */
  lemma RelockStage(s: Kernel, step: Step, s': Kernel, cur: Tid, m: Addr, t: Tid)
    requires cur in s.pc && (s.pc[cur] == Relock(m) || s.pc[cur] == LockSvc(m))
    requires || (s'.pc == s.pc[cur := User] && m in s'.held && cur in s'.held[m])
             || s'.pc == s.pc[cur := InLock(m)]
    ensures StageOk(s, step, s', t)
  {
  }

  lemma WakeStage(s: Kernel, s': Kernel, o: Tid, c: Addr, t: Tid)
    requires o in s.pc && s.pc[o].InCond? && s.pc[o].c == c
    requires s'.pc == s.pc[o := Relock(s.pc[o].m)]
    ensures StageOk(s, Signal(c), s', t)
  {
  }

  /** The first waiter of a mutex is blocked on it. */
  lemma FirstWaiter(s: Kernel, m: Addr)
    requires PlaceInv(s, false) && Waiters(s, m) != []
    ensures var w := Waiters(s, m)[0]; w in s.pc && s.pc[w] == InLock(m)
  {
    WaitersMember(s.mutexQ, s.priv, m, Waiters(s, m)[0]);
  }

  lemma UnlockStage(s: Kernel, m: Addr, step: Step, t: Tid)
    requires Inv(s) && s.rq.current != IDLE && s.pc[s.rq.current] == UnlockSvc(m) && m in s.val
    ensures StageOk(s, step, SysUnlock(Position(s, User, None), m), t)
  {
    var cur := s.rq.current;
    var s1 := Position(s, User, None);
    assert PcOk(cur, s.pc, s.val, s.held, s.mutexQ, s.priv);
    CurrentNotWaiting(s);
    PositionSync(s, User, None);
    UnlockEffect(s1, m);
    FirstWaiter(s, m);
    HandOffStage(s, step, SysUnlock(s1, m), cur, User, Waiters(s, m)[0], m, t);
  }

  lemma ExecuteStage(s: Kernel, stored: bool, t: Tid)
    requires Inv(s) && s.rq.current != IDLE && AtInstruction(s)
    ensures StageOk(s, Instruction(stored), Execute(s, stored), t)
  {
    var cur := s.rq.current;
    var pc := s.pc[cur];
    if pc.LockSvc? || pc.Relock? {
      LockEffect(s, pc.m);
      RelockStage(s, Instruction(stored), SysLock(s, pc.m), cur, pc.m, t);
    } else if pc.UnlockSvc? {
      UnlockStage(s, pc.m, Instruction(stored), t);
    } else {
      FastPathShape(s, stored);
      QuietStage(s, Instruction(stored), FastPath(s, stored), cur, FastPath(s, stored).pc[cur], t);
    }
  }

  lemma CondWaitStage(s: Kernel, c: Addr, m: Addr, t: Tid)
    requires Inv(s) && s.rq.current != IDLE && s.pc[s.rq.current].User?
    requires m in s.val && s.rq.current in s.Holders(m)
    ensures StageOk(s, CondWait(c, m), SysCondWait(s, c, m), t)
  {
    CondWaitEffect(s, c, m);
    if Waiters(s, m) != [] {
      FirstWaiter(s, m);
      HandOffStage(s, CondWait(c, m), SysCondWait(s, c, m), s.rq.current, InCond(c, m), Waiters(s, m)[0], m, t);
    } else {
      QuietStage(s, CondWait(c, m), SysCondWait(s, c, m), s.rq.current, InCond(c, m), t);
    }
  }

  lemma SignalStage(s: Kernel, c: Addr, t: Tid)
    requires Inv(s) && s.rq.current != IDLE
    ensures StageOk(s, Signal(c), SysSignal(s, c), t)
  {
    if CondWaiters(s, c) != [] {
      FirstCondWaiter(s, c);
      SignalEffect(s, c);
      WakeStage(s, SysSignal(s, c), CondWaiters(s, c)[0], c, t);
    } else {
      SignalEffect(s, c);
      QuietStage(s, Signal(c), SysSignal(s, c), 0, User, t);
    }
  }

  lemma ExitStage(s: Kernel, t: Tid)
    requires Inv(s) && s.rq.current != IDLE && s.pc[s.rq.current].User?
    ensures StageOk(s, Exit, SysExit(s), t)
  {
    var cur := s.rq.current;
    ExitOnlyPc(s);
    if cur in s.joining {
      JoinedExit(s.joining, s.joinable, s.pc, cur);
      TwoQuietStage(s, Exit, SysExit(s), cur, Dead, s.joining[cur], User, t);
    } else {
      QuietStage(s, Exit, SysExit(s), cur, Dead, t);
    }
  }

  lemma StepStage(s: Kernel, step: Step, t: Tid)
    requires Inv(s) && Enabled(s, step)
    ensures StageOk(s, step, Next(s, step), t)
  {
    var cur := s.rq.current;
    match step
    case Tick =>
      ElectOnlySchedules(s, true);
      QuietStage(s, Tick, Elect(s, true), cur, User, t);
    case Yield =>
      YieldOnlySchedules(s);
      QuietStage(s, Yield, YieldNow(s), cur, User, t);
    case Instruction(stored) => ExecuteStage(s, stored, t);
    case CondWait(c, m) => CondWaitStage(s, c, m, t);
    case Signal(c) => SignalStage(s, c, t);
    case Exit => ExitStage(s, t);
    case Join(u) =>
      JoinOnlyPc(s, u);
      QuietStage(s, step, SysJoin(s, u), cur, InJoin(u), t);
    case Create(u, p) => QuietStage(s, step, SysCreate(s, u, p), u, User, t);
    case CallLock(m) => QuietStage(s, step, Position(s, LockLdrex(m), s.monitor), cur, LockLdrex(m), t);
    case CallTry(m) => QuietStage(s, step, Position(s, TryLdrex(m), s.monitor), cur, TryLdrex(m), t);
    case CallUnlock(m) => QuietStage(s, step, Position(s, UnlockLdrex(m), s.monitor), cur, UnlockLdrex(m), t);
  }

  lemma MoveStage(s: Kernel, step: Step, s': Kernel, t: Tid)
    requires Inv(s) && Moves(s, step, s')
    ensures StageOk(s, step, s', t)
  {
    StepStage(s, step, t);
  }

  lemma RunStage(run: Run, t: Tid, i: nat)
    requires IsRun(run) && Inv(run.states[0]) && i < |run.steps|
    ensures StageOk(run.states[i], run.steps[i], run.states[i + 1], t)
  {
    RunKeeps(run, i);
    assert MovesAt(run, i);
    MoveStage(run.states[i], run.steps[i], run.states[i + 1], t);
  }

  /** Without a signal on its condition a thread keeps waiting. */
  lemma {:induction false} NoSignalNoWakeup(run: Run, t: Tid, c: Addr, m: Addr, j: nat)
    requires IsRun(run) && Inv(run.states[0]) && j < |run.states|
    requires PcOf(run.states[0], t) == InCond(c, m)
    requires forall i :: 0 <= i < j ==> run.steps[i] != Signal(c)
    ensures PcOf(run.states[j], t) == InCond(c, m)
  {
    if j > 0 {
      NoSignalNoWakeup(run, t, c, m, j - 1);
      RunStage(run, t, j - 1);
    }
  }

  /** The thread is somewhere between its call of `cond_wait` and its return. */
  ghost predicate InWait(pc: Pc, c: Addr, m: Addr) {
    pc == InCond(c, m) || pc == Relock(m) || pc == InLock(m)
  }

  lemma LeavesOwning(pc: Pc, pc': Pc, signal: bool, owns: bool, c: Addr, m: Addr)
    requires WaitStage(pc, pc', signal, owns) && InWait(pc, c, m) && !InWait(pc', c, m)
    ensures pc' == User && owns && (pc == Relock(m) || pc == InLock(m))
  {
  }

  /** `cond_wait` returns only with the mutex held, and only after a signal on its
      own condition. */
  lemma CondWaitReturns(run: Run, t: Tid, c: Addr, m: Addr, j: nat)
    requires IsRun(run) && Inv(run.states[0]) && 0 < j < |run.states|
    requires PcOf(run.states[0], t) == InCond(c, m)
    requires InWait(PcOf(run.states[j - 1], t), c, m) && !InWait(PcOf(run.states[j], t), c, m)
    ensures PcOf(run.states[j], t) == User && t in run.states[j].Holders(m)
    ensures exists i :: 0 <= i < j && run.steps[i] == Signal(c)
  {
    var last := j - 1;
    RunStage(run, t, last);
    LeavesOwning(PcOf(run.states[last], t), PcOf(run.states[last + 1], t),
                 SignalsOwn(PcOf(run.states[last], t), run.steps[last]),
                 OwnsOwn(PcOf(run.states[last], t), run.states[last + 1], t), c, m);
    if forall i :: 0 <= i < j ==> run.steps[i] != Signal(c) {
      NoSignalNoWakeup(run, t, c, m, j);
    }
  }

  /** The waiters of `c` along a run, and the signals on it. */
  ghost function CondHistory(run: Run, c: Addr): (h: seq<Moment>)
    requires |run.states| == |run.steps| + 1
    ensures |h| == |run.states|
  {
    seq(|run.states|, i requires 0 <= i < |run.states| =>
      Moment(CondWaiters(run.states[i], c), i < |run.steps| && run.steps[i] == Signal(c)))
  }

  lemma MoveAdvances(s: Kernel, step: Step, s': Kernel, c: Addr)
    requires Inv(s) && Moves(s, step, s')
    ensures Advances(CondWaiters(s, c), CondWaiters(s', c), step == Signal(c))
  {
    StepAdvances(s, step, c);
  }

  lemma RunAdvances(run: Run, c: Addr, i: nat)
    requires IsRun(run) && Inv(run.states[0]) && i < |run.steps|
    ensures Advances(CondWaiters(run.states[i], c), CondWaiters(run.states[i + 1], c), run.steps[i] == Signal(c))
  {
    RunKeeps(run, i);
    assert MovesAt(run, i);
    MoveAdvances(run.states[i], run.steps[i], run.states[i + 1], c);
  }

  /** Signals on `c` wake its waiters first come, first served; signals on other
      conditions, which share the list, do not. */
  lemma CondFifo(run: Run, c: Addr)
    requires IsRun(run) && Inv(run.states[0])
    ensures IsFifo(CondHistory(run, c))
  {
    var h := CondHistory(run, c);
    forall i: nat | i + 1 < |h|
      ensures AdvancesAt(h, i)
    {
      RunAdvances(run, c, i);
      CondMoments(run, c, h, i);
    }
  }

  lemma CondMoments(run: Run, c: Addr, h: seq<Moment>, i: nat)
    requires |run.states| == |run.steps| + 1 && h == CondHistory(run, c) && i < |run.steps|
    ensures h[i] == Moment(CondWaiters(run.states[i], c), run.steps[i] == Signal(c))
    ensures h[i + 1].ws == CondWaiters(run.states[i + 1], c)
  {
  }

  /** The signal that follows `k` others wakes the waiter that had `k` ahead of it. */
  lemma WokenBySignal(run: Run, c: Addr, k: nat, j: nat)
    requires IsRun(run) && Inv(run.states[0]) && j < |run.steps|
    requires k < |CondWaiters(run.states[0], c)| && Served(CondHistory(run, c), j) == k && run.steps[j] == Signal(c)
    ensures PcOf(run.states[j + 1], CondWaiters(run.states[0], c)[k]).Relock?
  {
    CondFifo(run, c);
    FirstInLine(run, c, CondHistory(run, c), k, j);
    RunKeeps(run, j);
    assert MovesAt(run, j);
    SignalWakesFirst(run.states[j], run.states[j + 1], c);
  }

  lemma FirstInLine(run: Run, c: Addr, h: seq<Moment>, k: nat, j: nat)
    requires |run.states| == |run.steps| + 1 && j < |run.steps| && h == CondHistory(run, c) && IsFifo(h)
    requires k < |CondWaiters(run.states[0], c)| && Served(h, j) == k
    ensures CondWaiters(run.states[j], c) != []
    ensures CondWaiters(run.states[j], c)[0] == CondWaiters(run.states[0], c)[k]
  {
    CondMoments(run, c, h, j);
    CondMoments(run, c, h, 0);
    FifoPosition(h, k, j);
  }

  lemma SignalRelocks(s: Kernel, c: Addr)
    requires PlaceInv(s, false) && s.rq.current != IDLE && CondWaiters(s, c) != []
    ensures PcOf(SysSignal(s, c), CondWaiters(s, c)[0]).Relock?
  {
    FirstCondWaiter(s, c);
    SignalEffect(s, c);
  }

  lemma SignalWakesFirst(s: Kernel, s': Kernel, c: Addr)
    requires Inv(s) && Moves(s, Signal(c), s') && CondWaiters(s, c) != []
    ensures PcOf(s', CondWaiters(s, c)[0]).Relock?
  {
    SignalRelocks(s, c);
  }
}
