/** What the protocol guarantees its users, over every run. */
module Guarantees {
  import opened Options
  import opened Sequences
  import opened RunQueue
  import opened Machine
  import opened Placement
  import opened MutexProtocol
  import opened Protocol

  ghost function Waiters(s: Kernel, m: Addr): seq<Tid> {
    WaitersOn(s.mutexQ, s.priv, m)
  }

  ghost function CondWaiters(s: Kernel, c: Addr): seq<Tid> {
    WaitersOn(s.condQ, s.priv, c)
  }

  /** The mutex word counts: at most one holder, and one more than the word is the
      number of holders and waiters. */
  lemma MutualExclusion(s: Kernel, m: Addr)
    requires Inv(s) && m in s.val
    ensures |s.Holders(m)| <= 1
    ensures s.val[m] + 1 == |s.Holders(m)| + |Waiters(s, m)|
    ensures Waiters(s, m) != [] ==> |s.Holders(m)| == 1
  {
    assert MutexAt(m, s.val, s.held, s.mutexQ, s.priv);
  }

  /** The "No blocking threads" branch of unlock is never taken by a holder. */
  lemma UnlockFindsWaiter(s: Kernel, m: Addr)
    requires Inv(s) && s.rq.current != IDLE && m in s.val && s.rq.current in s.Holders(m) && s.val[m] >= 1
    ensures Waiters(s, m) != [] && NextOwner(s, m) == Some(Waiters(s, m)[0])
  {
    OneHolder(s.val, s.held, s.mutexQ, s.priv, s.rq.current, m);
    FirstIsFirstWaiter(s.mutexQ, s.priv, m);
    WaitersMember(s.mutexQ, s.priv, m, Waiters(s, m)[0]);
  }

  // ----- what each kernel entry does to wait lists and positions -----

  /** The parts of the state that the protocol is about. */
  ghost predicate Effect(s: Kernel, s': Kernel, held: map<Addr, set<Tid>>, mutexQ: seq<Tid>, condQ: seq<Tid>,
                         priv: map<Tid, Addr>, pc: map<Tid, Pc>)
  {
    s'.held == held && s'.mutexQ == mutexQ && s'.condQ == condQ && s'.priv == priv && s'.pc == pc
  }

  lemma LockEffect(s: Kernel, m: Addr)
    requires SyncCore(s) && s.rq.current != IDLE && m in s.val
    ensures var t := s.rq.current;
            if s.val[m] == -1
            then Effect(s, SysLock(s, m), s.held[m := {t}], s.mutexQ, s.condQ, s.priv, s.pc[t := User])
            else Effect(s, SysLock(s, m), s.held, s.mutexQ + [t], s.condQ, s.priv[t := m], s.pc[t := InLock(m)])
  {
    var t := s.rq.current;
    assert MutexAt(m, s.val, s.held, s.mutexQ, s.priv);
    if s.val[m] == -1 {
      assert {} + {t} == {t};
    } else {
      assert s.held[m := s.Holders(m)] == s.held;
      ElectOnlySchedules(WaitMutex(SetMutex(s, m, s.val[m] + 1, s.Holders(m)), m), false);
    }
  }

  lemma UnlockEffect(s: Kernel, m: Addr)
    requires Unlocking(s, m)
    requires forall t :: t in s.mutexQ ==> s.Thread(t)
    ensures var ws := Waiters(s, m);
            if ws == []
            then Effect(s, SysUnlock(s, m), s.held[m := {}], s.mutexQ, s.condQ, s.priv, s.pc)
            else Effect(s, SysUnlock(s, m), s.held[m := {ws[0]}], Without(s.mutexQ, ws[0]), s.condQ, s.priv,
                        s.pc[ws[0] := User])
  {
    ReleaseSync(s, m);
    EndUnlockOnlySchedules(Release(s, m, NextOwner(s, m)), NextOwner(s, m));
  }

  lemma CondWaitEffect(s: Kernel, c: Addr, m: Addr)
    requires Inv(s) && s.rq.current != IDLE && m in s.val && s.rq.current in s.Holders(m)
    ensures var t, ws := s.rq.current, Waiters(s, m);
            var priv, pc, condQ := s.priv[t := c], s.pc[t := InCond(c, m)], s.condQ + [t];
            if ws == []
            then Effect(s, SysCondWait(s, c, m), s.held[m := {}], s.mutexQ, condQ, priv, pc)
            else Effect(s, SysCondWait(s, c, m), s.held[m := {ws[0]}], Without(s.mutexQ, ws[0]), condQ, priv,
                        pc[ws[0] := User])
  {
    CurrentNotWaiting(s);
    WaitCondSync(s, c, m);
    WaitersPriv(s.mutexQ, s.priv, s.rq.current, c, m);
    UnlockEffect(WaitCond(s, c, m), m);
  }

  lemma FirstCondWaiter(s: Kernel, c: Addr)
    requires PlaceInv(s, false) && CondWaiters(s, c) != []
    ensures var o := CondWaiters(s, c)[0]; s.Thread(o) && o in s.condQ && s.pc[o].InCond? && s.pc[o].c == c
  {
    WaitersMember(s.condQ, s.priv, c, CondWaiters(s, c)[0]);
  }

  lemma SignalEffect(s: Kernel, c: Addr)
    requires Wf(s) && s.rq.current != IDLE
    requires CondWaiters(s, c) != [] ==> s.Thread(CondWaiters(s, c)[0]) && s.pc[CondWaiters(s, c)[0]].InCond?
    ensures var ws := CondWaiters(s, c);
            if ws == []
            then Effect(s, SysSignal(s, c), s.held, s.mutexQ, s.condQ, s.priv, s.pc)
            else Effect(s, SysSignal(s, c), s.held, s.mutexQ, Without(s.condQ, ws[0]), s.priv,
                        s.pc[ws[0] := Relock(s.pc[ws[0]].m)])
  {
    FirstIsFirstWaiter(s.condQ, s.priv, c);
    var ws := CondWaiters(s, c);
    if ws != [] { EndSignalOnlySchedules(WakeCond(s, ws[0], s.pc[ws[0]].m), ws[0]); }
  }

  /**
   What a call of lock means to its caller: it goes on with the mutex if that was free,
   or else is the last waiter, does not run, and the holder stays.
   */
  lemma LockOutcome(s: Kernel, m: Addr)
    requires Inv(s) && s.rq.current != IDLE && m in s.val
    ensures var t, s' := s.rq.current, SysLock(s, m);
            && (s.val[m] == -1 ==> s'.Holders(m) == {t} && s'.rq == s.rq && s'.pc[t] == User)
            && (s.val[m] != -1 ==>
                  && Waiters(s', m) == Waiters(s, m) + [t] && s'.Holders(m) == s.Holders(m)
                  && s'.rq.current != t && t !in Queued(s'.rq))
  {
    var t := s.rq.current;
    CurrentNotWaiting(s);
    LockEffect(s, m);
    assert MutexAt(m, s.val, s.held, s.mutexQ, s.priv);
    if s.val[m] != -1 {
      WaitersAppend(s.mutexQ, s.priv, t, m, m);
      SysLockPlace(s, m);
      NotRunnable(SysLock(s, m), t);
    }
  }

  lemma NotRunnable(s: Kernel, t: Tid)
    requires PlaceInv(s, false) && t in s.pc && !CanRun(s.pc[t])
    ensures s.rq.current != t && t !in Queued(s.rq)
  {
    assert Runnable(s.rq)[t] == multiset(Live(s.pc))[t] == 0;
  }

  /** Step `step` gives up mutex `m`. */
  ghost predicate Releases(s: Kernel, step: Step, m: Addr)
    requires Wf(s)
  {
    var pc := s.pc[s.rq.current];
    match step
    case Instruction(stored) => pc == UnlockSvc(m) || (pc == UnlockStrex(m) && stored && s.monitor == Some(m))
    case CondWait(_, n) => n == m
    case _ => false
  }

  // ----- mutexes: FIFO hand-off, no barging -----

  /** How the waiters and the holders of `m` change in one step: a release with
      waiters hands over to the first; otherwise the waiters only grow at the end
      and, as long as there are any, the holder stays. */
  ghost predicate HandsOn(ws: seq<Tid>, h: set<Tid>, ws': seq<Tid>, h': set<Tid>, release: bool) {
    && Advances(ws, ws', release)
    && (ws != [] ==> h' == if release then {ws[0]} else h)
  }

  /** A FIFO queue that is served, or else only grows at its end. */
  ghost predicate Advances(ws: seq<Tid>, ws': seq<Tid>, served: bool) {
    if served && ws != [] then ws' == ws[1..] else ws <= ws'
  }

  /** One moment of the history of a FIFO queue: who waits, and whether the next
      step serves it. */
  datatype Moment = Moment(ws: seq<Tid>, served: bool)

  ghost predicate AdvancesAt(history: seq<Moment>, i: nat)
    requires i + 1 < |history|
  {
    Advances(history[i].ws, history[i + 1].ws, history[i].served)
  }

  ghost predicate IsFifo(history: seq<Moment>) {
    forall i: nat :: i + 1 < |history| ==> AdvancesAt(history, i)
  }

  /** How often the queue is served in the first `j` steps. */
  ghost function Served(history: seq<Moment>, j: nat): nat
    requires j <= |history|
  {
    if j == 0 then 0 else Served(history, j - 1) + (if history[j - 1].served then 1 else 0)
  }

  /** Served `r <= k` times, a thread that had `k` others ahead has `k - r`. */
  lemma {:induction false} FifoPosition(history: seq<Moment>, k: nat, j: nat)
    requires IsFifo(history) && j < |history| && k < |history[0].ws| && Served(history, j) <= k
    ensures var r := Served(history, j); k - r < |history[j].ws| && history[j].ws[k - r] == history[0].ws[k]
  {
    if j > 0 {
      FifoPosition(history, k, j - 1);
      assert AdvancesAt(history, j - 1);
    }
  }

  lemma LockHandsOn(s: Kernel, m: Addr, n: Addr)
    requires SyncCore(s) && s.rq.current != IDLE && m in s.val && s.rq.current !in s.mutexQ
    ensures HandsOn(Waiters(s, n), s.Holders(n), Waiters(SysLock(s, m), n), SysLock(s, m).Holders(n), false)
  {
    LockEffect(s, m);
    assert MutexAt(m, s.val, s.held, s.mutexQ, s.priv);
    if s.val[m] != -1 { WaitersAppend(s.mutexQ, s.priv, s.rq.current, m, n); }
  }

  lemma UnlockHandsOn(s: Kernel, m: Addr, n: Addr)
    requires Unlocking(s, m)
    requires forall t :: t in s.mutexQ ==> s.Thread(t)
    ensures HandsOn(Waiters(s, n), s.Holders(n), Waiters(SysUnlock(s, m), n), SysUnlock(s, m).Holders(n), n == m)
  {
    UnlockEffect(s, m);
    if Waiters(s, m) != [] { WaitersWithoutFirst(s.mutexQ, s.priv, m, n); }
  }

  /** A step that leaves the mutex list alone. */
  lemma SameListHandsOn(s: Kernel, s': Kernel, n: Addr)
    requires s'.mutexQ == s.mutexQ && s'.priv == s.priv && s'.held == s.held
    ensures HandsOn(Waiters(s, n), s.Holders(n), Waiters(s', n), s'.Holders(n), false)
  {
  }

  lemma FastPathHandsOn(s: Kernel, stored: bool, n: Addr)
    requires SyncInv(s) && AtInstruction(s)
    ensures HandsOn(Waiters(s, n), s.Holders(n), Waiters(FastPath(s, stored), n), FastPath(s, stored).Holders(n), false)
  {
    var t := s.rq.current;
    var m := s.pc[t].m;
    assert PcOk(t, s.pc, s.val, s.held, s.mutexQ, s.priv);
    assert MutexAt(m, s.val, s.held, s.mutexQ, s.priv);
    assert FastPath(s, stored).mutexQ == s.mutexQ && FastPath(s, stored).priv == s.priv;
    if s.pc[t].UnlockStrex? { OneHolder(s.val, s.held, s.mutexQ, s.priv, t, m); }
  }

  lemma ExecuteHandsOn(s: Kernel, stored: bool, n: Addr)
    requires Inv(s) && s.rq.current != IDLE && AtInstruction(s)
    ensures var s' := Execute(s, stored);
            HandsOn(Waiters(s, n), s.Holders(n), Waiters(s', n), s'.Holders(n), Releases(s, Instruction(stored), n))
  {
    var t := s.rq.current;
    var pc := s.pc[t];
    CurrentNotWaiting(s);
    assert PcOk(t, s.pc, s.val, s.held, s.mutexQ, s.priv);
    if pc.LockSvc? || pc.Relock? {
      LockHandsOn(s, pc.m, n);
    } else if pc.UnlockSvc? {
      PositionSync(s, User, None);
      UnlockHandsOn(Position(s, User, None), pc.m, n);
    } else {
      FastPathHandsOn(s, stored, n);
      if pc.UnlockStrex? { OneHolder(s.val, s.held, s.mutexQ, s.priv, t, pc.m); }
    }
  }

  lemma CondWaitHandsOn(s: Kernel, c: Addr, m: Addr, n: Addr)
    requires Inv(s) && s.rq.current != IDLE && m in s.val && s.rq.current in s.Holders(m)
    ensures var s' := SysCondWait(s, c, m);
            HandsOn(Waiters(s, n), s.Holders(n), Waiters(s', n), s'.Holders(n), n == m)
  {
    CurrentNotWaiting(s);
    WaitCondSync(s, c, m);
    WaitersPriv(s.mutexQ, s.priv, s.rq.current, c, n);
    UnlockHandsOn(WaitCond(s, c, m), m, n);
  }

  /** Every step hands mutexes on in this way. */
  lemma StepHandsOn(s: Kernel, step: Step, n: Addr)
    requires Inv(s) && Enabled(s, step)
    ensures var s' := Next(s, step);
            HandsOn(Waiters(s, n), s.Holders(n), Waiters(s', n), s'.Holders(n), Releases(s, step, n))
  {
    match step
    case Instruction(stored) => ExecuteHandsOn(s, stored, n);
    case CondWait(c, m) => CondWaitHandsOn(s, c, m, n);
    case Create(t, p) =>
      ListsNew(s, t);
      WaitersPriv(s.mutexQ, s.priv, t, 0, n);
    case _ => OtherStepHandsOn(s, step, n);
  }

  lemma OtherStepHandsOn(s: Kernel, step: Step, n: Addr)
    requires Inv(s) && Enabled(s, step) && !step.Instruction? && !step.CondWait? && !step.Create?
    ensures var s' := Next(s, step);
            HandsOn(Waiters(s, n), s.Holders(n), Waiters(s', n), s'.Holders(n), false)
  {
    match step
    case Tick =>
      ElectOnlySchedules(s, true);
      SameListHandsOn(s, Elect(s, true), n);
    case Yield =>
      YieldOnlySchedules(s);
      SameListHandsOn(s, YieldNow(s), n);
    case Signal(c) =>
      if CondWaiters(s, c) != [] { FirstCondWaiter(s, c); }
      SignalEffect(s, c);
      SameListHandsOn(s, SysSignal(s, c), n);
    case Exit =>
      ExitOnlyPc(s);
      SameListHandsOn(s, SysExit(s), n);
    case Join(u) =>
      JoinOnlyPc(s, u);
      SameListHandsOn(s, SysJoin(s, u), n);
    case CallLock(m) => SameListHandsOn(s, Position(s, LockLdrex(m), s.monitor), n);
    case CallTry(m) => SameListHandsOn(s, Position(s, TryLdrex(m), s.monitor), n);
    case CallUnlock(m) => SameListHandsOn(s, Position(s, UnlockLdrex(m), s.monitor), n);
  }

  lemma ExitOnlyPc(s: Kernel)
    requires Wf(s) && s.rq.current != IDLE
    ensures var t := s.rq.current;
            var pc := if t in s.joining then s.pc[t := Dead][s.joining[t] := User] else s.pc[t := Dead];
            Effect(s, SysExit(s), s.held, s.mutexQ, s.condQ, s.priv, pc)
  {
    var t := s.rq.current;
    var s1 := s.(pc := s.pc[t := Dead]);
    if t in s.joining {
      ElectOnlySchedules(Enqueue(s1.(pc := s1.pc[s.joining[t] := User]), s.joining[t]), false);
    } else {
      ElectOnlySchedules(s1.(joinable := s.joinable + {t}), false);
    }
  }

  lemma JoinOnlyPc(s: Kernel, u: Tid)
    requires Wf(s) && s.rq.current != IDLE
    ensures Effect(s, SysJoin(s, u), s.held, s.mutexQ, s.condQ, s.priv, s.pc)
         || Effect(s, SysJoin(s, u), s.held, s.mutexQ, s.condQ, s.priv, s.pc[s.rq.current := InJoin(u)])
  {
    if s.Thread(u) && u !in s.joinable && u !in s.joining {
      ElectOnlySchedules(s.(joining := s.joining[u := s.rq.current], pc := s.pc[s.rq.current := InJoin(u)]), false);
    }
  }

  /** Step `i` of a run releases `m`. */
  ghost predicate ReleasesAt(run: Run, m: Addr, i: nat)
    requires i < |run.steps| && |run.states| == |run.steps| + 1
  {
    Wf(run.states[i]) && Releases(run.states[i], run.steps[i], m)
  }

  lemma MoveHandsOn(s: Kernel, step: Step, s': Kernel, m: Addr)
    requires Inv(s) && Moves(s, step, s')
    ensures HandsOn(Waiters(s, m), s.Holders(m), Waiters(s', m), s'.Holders(m), Releases(s, step, m))
  {
    StepHandsOn(s, step, m);
  }

  lemma RunHandsOn(run: Run, m: Addr, i: nat)
    requires IsRun(run) && Inv(run.states[0]) && i < |run.steps|
    ensures HandsOn(Waiters(run.states[i], m), run.states[i].Holders(m),
                    Waiters(run.states[i + 1], m), run.states[i + 1].Holders(m), ReleasesAt(run, m, i))
  {
    RunKeeps(run, i);
    assert MovesAt(run, i);
    MoveHandsOn(run.states[i], run.steps[i], run.states[i + 1], m);
  }

  /** The waiters of `m` along a run, and the steps that release it. */
  ghost function MutexHistory(run: Run, m: Addr): (h: seq<Moment>)
    requires |run.states| == |run.steps| + 1
    ensures |h| == |run.states|
  {
    seq(|run.states|, i requires 0 <= i < |run.states| =>
      Moment(Waiters(run.states[i], m), i < |run.steps| && ReleasesAt(run, m, i)))
  }

  /** Hand-off is FIFO per mutex, although all mutexes share one wait list. */
  lemma MutexFifo(run: Run, m: Addr)
    requires IsRun(run) && Inv(run.states[0])
    ensures IsFifo(MutexHistory(run, m))
  {
    var h := MutexHistory(run, m);
    forall i: nat | i + 1 < |h|
      ensures AdvancesAt(h, i)
    {
      RunHandsOn(run, m, i);
      MomentsOf(run, m, h, i);
    }
  }

  lemma MomentsOf(run: Run, m: Addr, h: seq<Moment>, i: nat)
    requires |run.states| == |run.steps| + 1 && h == MutexHistory(run, m) && i < |run.steps|
    ensures h[i] == Moment(Waiters(run.states[i], m), ReleasesAt(run, m, i))
    ensures h[i + 1].ws == Waiters(run.states[i + 1], m)
  {
  }

  /** A waiter with `k` ahead of it owns the mutex after exactly `k + 1` releases,
      and until then waits. */
  lemma OwnsAfterReleases(run: Run, m: Addr, k: nat, j: nat)
    requires IsRun(run) && Inv(run.states[0]) && j < |run.steps|
    requires k < |Waiters(run.states[0], m)| && Served(MutexHistory(run, m), j) == k && ReleasesAt(run, m, j)
    ensures run.states[j + 1].Holders(m) == {Waiters(run.states[0], m)[k]}
    ensures Waiters(run.states[0], m)[k] in Waiters(run.states[j], m)
  {
    var h := MutexHistory(run, m);
    MutexFifo(run, m);
    FifoPosition(h, k, j);
    assert h[j].ws == Waiters(run.states[j], m) && h[0].ws == Waiters(run.states[0], m);
    RunHandsOn(run, m, j);
  }

  /** No barging: while a thread waits for `m`, and until the next release, nobody
      new comes to hold it, neither by a fast path nor by trylock. */
  lemma NoBarging(run: Run, m: Addr, i: nat)
    requires IsRun(run) && Inv(run.states[0]) && i < |run.steps|
    requires Waiters(run.states[i], m) != [] && !ReleasesAt(run, m, i)
    ensures run.states[i + 1].Holders(m) == run.states[i].Holders(m)
  {
    RunHandsOn(run, m, i);
  }
}
