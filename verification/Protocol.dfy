/** The invariant of the whole machine, kept by every step of every run. */
module Protocol {
  import opened Options
  import opened Sequences
  import opened RunQueue
  import opened Machine
  import opened Placement
  import opened MutexProtocol

  ghost predicate Inv(s: Kernel) {
    PlaceInv(s, false) && SyncInv(s)
  }

  ghost predicate SyncCore(s: Kernel) {
    && Wf(s)
    && MutexesOk(s.val, s.held, s.mutexQ, s.priv)
    && PcsOk(s.pc, s.val, s.held, s.mutexQ, s.priv)
  }

  /** Scheduling alone, which also clears the monitor, keeps the mutex protocol. */
  lemma SyncSame(s: Kernel, s': Kernel)
    requires SyncCore(s) && Wf(s') && s'.monitor == None
    requires OnlyScheduled(s, s')
    ensures SyncInv(s')
  {
  }

  /** `s'` differs from `s` at most in scheduling. */
  ghost predicate OnlyScheduled(s: Kernel, s': Kernel) {
    && s'.val == s.val && s'.held == s.held && s'.mutexQ == s.mutexQ && s'.condQ == s.condQ
    && s'.priv == s.priv && s'.pc == s.pc
  }

  lemma ElectOnlySchedules(s: Kernel, tick: bool)
    requires Wf(s)
    ensures OnlyScheduled(s, Elect(s, tick)) && Elect(s, tick).monitor == None
  {
  }

  lemma YieldOnlySchedules(s: Kernel)
    requires Wf(s) && s.rq.current != IDLE
    ensures OnlyScheduled(s, YieldNow(s)) && YieldNow(s).monitor == None
  {
    ElectOnlySchedules(Enqueue(s, s.rq.current), false);
  }

  lemma EndUnlockOnlySchedules(s: Kernel, waiter: Option<Tid>)
    requires Wf(s) && s.rq.current != IDLE && (waiter.Some? ==> s.Thread(waiter.value)) && s.monitor == None
    ensures OnlyScheduled(s, EndUnlock(s, waiter)) && EndUnlock(s, waiter).monitor == None
  {
    ElectOnlySchedules(s, false);
    YieldOnlySchedules(s);
  }

  lemma EndSignalOnlySchedules(s: Kernel, o: Tid)
    requires Wf(s) && s.rq.current != IDLE && s.Thread(o) && s.monitor == None
    ensures OnlyScheduled(s, EndSignal(s, o)) && EndSignal(s, o).monitor == None
  {
    YieldOnlySchedules(s);
  }

  // ----- lock -----

  lemma SysLockPlace(s: Kernel, m: Addr)
    requires PlaceInv(s, false) && s.rq.current != IDLE && m in s.val
    ensures PlaceInv(SysLock(s, m), false)
  {
    var s1 := SetMutex(s, m, s.val[m] + 1, if s.val[m] == -1 then s.Holders(m) + {s.rq.current} else s.Holders(m));
    WordsInv(s, s1, false);
    if s.val[m] == -1 {
      LocalInv(s1, User);
    } else {
      WaitMutexInv(s1, m);
      ElectInv(WaitMutex(s1, m), false);
    }
  }

  lemma SysLockSync(s: Kernel, m: Addr)
    requires SyncCore(s) && s.rq.current != IDLE && m in s.val && s.rq.current !in s.mutexQ
    ensures SyncInv(SysLock(s, m))
  {
    var t := s.rq.current;
    assert MutexAt(m, s.val, s.held, s.mutexQ, s.priv);
    if s.val[m] == -1 {
      SyncAcquire(s.val, s.held, s.mutexQ, s.priv, s.pc, t, m);
      assert {} + {t} == {t};
    } else {
      SyncWait(s.val, s.held, s.mutexQ, s.priv, s.pc, t, m);
      assert s.held[m := s.Holders(m)] == s.held;
      ElectOnlySchedules(WaitMutex(SetMutex(s, m, s.val[m] + 1, s.Holders(m)), m), false);
      SyncSame(WaitMutex(SetMutex(s, m, s.val[m] + 1, s.Holders(m)), m), SysLock(s, m));
    }
  }

  // ----- unlock -----

  /** The caller of unlock is running normally, or is already on the list of a
      condition; the tag BLOCKED tells which. */
  ghost predicate CallerBlocked(s: Kernel)
    requires Wf(s)
  {
    s.state[s.rq.current] == Blocked
  }

  lemma ReleasePlace(s: Kernel, m: Addr, waiter: Option<Tid>, blocked: bool)
    requires PlaceInv(s, blocked) && m in s.val && (waiter.Some? ==> waiter.value in s.mutexQ && s.Thread(waiter.value))
    ensures PlaceInv(Release(s, m, waiter), blocked)
  {
    var s1 := SetMutex(s, m, s.val[m] - 1, s.Holders(m) - {s.rq.current});
    WordsInv(s, s1, blocked);
    if waiter.Some? { WakeMutexInv(s1, waiter.value, m, blocked); }
  }

  lemma EndUnlockPlace(s: Kernel, waiter: Option<Tid>)
    requires Wf(s) && PlaceInv(s, CallerBlocked(s)) && s.rq.current != IDLE
    requires waiter.Some? ==> s.Thread(waiter.value)
    ensures PlaceInv(EndUnlock(s, waiter), false)
  {
    if CallerBlocked(s) { ElectInv(s, false); } else { YieldInv(s); }
  }

  lemma SysUnlockPlace(s: Kernel, m: Addr)
    requires Wf(s) && PlaceInv(s, CallerBlocked(s)) && s.rq.current != IDLE && m in s.val
    requires s.val[m] >= 1 ==> NextOwner(s, m).Some?
    requires s.rq.current !in s.mutexQ
    ensures PlaceInv(SysUnlock(s, m), false)
  {
    var waiter := NextOwner(s, m);
    ReleasePlace(s, m, waiter, CallerBlocked(s));
    var s1 := Release(s, m, waiter);
    EndUnlockPlace(s1, waiter);
    var r := EndUnlock(s1, waiter);
    assert SysUnlock(s, m) == r;
  }

  /** What the caller of unlock must satisfy, beside holding the mutex. */
  ghost predicate Unlocking(s: Kernel, m: Addr) {
    && SyncCore(s) && s.rq.current != IDLE && m in s.val
    && s.rq.current in s.Holders(m)
    && (s.pc[s.rq.current].User? || s.pc[s.rq.current].InCond?)
  }

  lemma HandOffCore(s: Kernel, s2: Kernel, m: Addr, w: Tid)
    requires Unlocking(s, m)
    requires WaitersOn(s.mutexQ, s.priv, m) != [] && w == WaitersOn(s.mutexQ, s.priv, m)[0]
    requires Wf(s2) && s2.val == s.val[m := s.val[m] - 1] && s2.held == s.held[m := {w}]
    requires s2.mutexQ == Without(s.mutexQ, w) && s2.priv == s.priv && s2.pc == s.pc[w := User]
    ensures SyncCore(s2)
  {
    var t := s.rq.current;
    OneHolder(s.val, s.held, s.mutexQ, s.priv, t, m);
    assert PcOk(t, s.pc, s.val, s.held, s.mutexQ, s.priv);
    assert s.pc[t := s.pc[t]] == s.pc;
    SyncHandOff(s.val, s.held, s.mutexQ, s.priv, s.pc, t, m, s.pc[t], w);
  }

  lemma ReleaseCore(s: Kernel, s1: Kernel, m: Addr)
    requires Unlocking(s, m) && WaitersOn(s.mutexQ, s.priv, m) == []
    requires Wf(s1) && s1.val == s.val[m := -1] && s1.held == s.held[m := {}]
    requires s1.mutexQ == s.mutexQ && s1.priv == s.priv && s1.pc == s.pc
    ensures SyncCore(s1)
  {
    var t := s.rq.current;
    OneHolder(s.val, s.held, s.mutexQ, s.priv, t, m);
    assert PcOk(t, s.pc, s.val, s.held, s.mutexQ, s.priv);
    assert s.pc[t := s.pc[t]] == s.pc;
    SyncRelease(s.val, s.held, s.mutexQ, s.priv, s.pc, t, m, s.pc[t]);
  }

  /** The first half of unlock finds a waiter exactly when there is one; then the
      first waiter, and it alone, holds the mutex, and otherwise nobody does. */
  lemma ReleaseSync(s: Kernel, m: Addr)
    requires Unlocking(s, m)
    requires forall t :: t in s.mutexQ ==> s.Thread(t)
    ensures var ws := WaitersOn(s.mutexQ, s.priv, m);
            && NextOwner(s, m) == (if ws == [] then None else Some(ws[0]))
            && (s.val[m] >= 1 <==> ws != [])
            && SyncCore(Release(s, m, NextOwner(s, m)))
            && Release(s, m, NextOwner(s, m)).held == s.held[m := if ws == [] then {} else {ws[0]}]
  {
    var t := s.rq.current;
    var ws := WaitersOn(s.mutexQ, s.priv, m);
    OneHolder(s.val, s.held, s.mutexQ, s.priv, t, m);
    FirstIsFirstWaiter(s.mutexQ, s.priv, m);
    assert s.Holders(m) - {t} == {};
    if ws != [] {
      WaitersMember(s.mutexQ, s.priv, m, ws[0]);
      assert {} + {ws[0]} == {ws[0]};
      HandOffCore(s, Release(s, m, Some(ws[0])), m, ws[0]);
    } else {
      ReleaseCore(s, Release(s, m, None), m);
    }
  }

  lemma SysUnlockSync(s: Kernel, m: Addr)
    requires Unlocking(s, m)
    requires forall t :: t in s.mutexQ ==> s.Thread(t)
    ensures s.val[m] >= 1 ==> NextOwner(s, m).Some?
    ensures SyncInv(SysUnlock(s, m))
  {
    ReleaseSync(s, m);
    EndUnlockOnlySchedules(Release(s, m, NextOwner(s, m)), NextOwner(s, m));
    SyncSame(Release(s, m, NextOwner(s, m)), SysUnlock(s, m));
  }

  // ----- fast paths -----

  lemma PositionPlace(s: Kernel, x: Pc, monitor: Option<Addr>)
    requires PlaceInv(s, false) && s.rq.current != IDLE && CanRun(x)
    ensures PlaceInv(Position(s, x, monitor), false)
  {
    LocalInv(s, x);
    WordsInv(s.(pc := s.pc[s.rq.current := x]), Position(s, x, monitor), false);
  }

  lemma PositionSync(s: Kernel, x: Pc, monitor: Option<Addr>)
    requires SyncCore(s)
    requires PcOk(s.rq.current, map[s.rq.current := x], s.val, s.held, s.mutexQ, s.priv)
    ensures SyncCore(Position(s, x, monitor))
    ensures Armed(x, monitor, s.val) ==> SyncInv(Position(s, x, monitor))
  {
    PcsLocal(s.pc, s.val, s.held, s.mutexQ, s.priv, s.rq.current, x);
  }

  /** A fast path changes only the thread's own position, the word and the monitor. */
  lemma FastPathShape(s: Kernel, stored: bool)
    requires Wf(s) && AtInstruction(s)
    ensures var r, t := FastPath(s, stored), s.rq.current;
            && CanRun(r.pc[t])
            && r == s.(pc := s.pc[t := r.pc[t]], val := r.val, held := r.held, monitor := r.monitor)
  {
    assert s.pc[s.rq.current := s.pc[s.rq.current]] == s.pc;
  }

  lemma FastPathPlace(s: Kernel, r: Kernel)
    requires PlaceInv(s, false) && s.rq.current != IDLE
    requires Wf(r) && s.rq.current in r.pc && CanRun(r.pc[s.rq.current])
    requires r == s.(pc := s.pc[s.rq.current := r.pc[s.rq.current]], val := r.val, held := r.held, monitor := r.monitor)
    ensures PlaceInv(r, false)
  {
    LocalInv(s, r.pc[s.rq.current]);
    WordsInv(s.(pc := s.pc[s.rq.current := r.pc[s.rq.current]]), r, false);
  }

  /** A store-exclusive that succeeds stores over the value that was loaded. */
  lemma FastPathSync(s: Kernel, stored: bool)
    requires SyncInv(s) && AtInstruction(s)
    ensures SyncInv(FastPath(s, stored))
  {
    var t := s.rq.current;
    var pc := s.pc[t];
    var m := pc.m;
    var ok := stored && s.monitor == Some(m);
    assert PcOk(t, s.pc, s.val, s.held, s.mutexQ, s.priv);
    if (pc.LockStrex? || pc.TryStrex?) && ok {
      SyncAcquire(s.val, s.held, s.mutexQ, s.priv, s.pc, t, m);
      assert {} + {t} == {t};
    } else if pc.UnlockStrex? && ok {
      OneHolder(s.val, s.held, s.mutexQ, s.priv, t, m);
      assert {t} - {t} == {};
      SyncRelease(s.val, s.held, s.mutexQ, s.priv, s.pc, t, m, User);
    } else {
      NoStoreSync(s, stored);
    }
  }

  /** A load-exclusive, or a store-exclusive that fails. */
  lemma NoStoreSync(s: Kernel, stored: bool)
    requires SyncInv(s) && AtInstruction(s)
    requires IsStore(s.pc[s.rq.current]) ==> !(stored && s.monitor == Some(s.pc[s.rq.current].m))
    ensures SyncInv(FastPath(s, stored))
  {
    var t := s.rq.current;
    var pc := s.pc[t];
    assert PcOk(t, s.pc, s.val, s.held, s.mutexQ, s.priv);
    if pc.UnlockLdrex? { OneHolder(s.val, s.held, s.mutexQ, s.priv, t, pc.m); }
    var x := FastPath(s, stored).pc[t];
    assert PcOk(t, map[t := x], s.val, s.held, s.mutexQ, s.priv);
    PositionSync(s, x, FastPath(s, stored).monitor);
  }

  predicate IsStore(pc: Pc) {
    pc.LockStrex? || pc.TryStrex? || pc.UnlockStrex?
  }

  // ----- conditions -----

  lemma WaitCondSync(s: Kernel, c: Addr, m: Addr)
    requires SyncCore(s) && s.rq.current !in s.mutexQ && m in s.val
    ensures SyncCore(WaitCond(s, c, m))
  {
    var t := s.rq.current;
    PcsLocal(s.pc, s.val, s.held, s.mutexQ, s.priv, t, InCond(c, m));
    SyncPriv(s.val, s.held, s.mutexQ, s.priv, s.pc[t := InCond(c, m)], t, c);
  }

  lemma CurrentNotWaiting(s: Kernel)
    requires PlaceInv(s, false) && s.rq.current != IDLE
    ensures s.rq.current !in s.mutexQ && s.rq.current !in s.condQ
    ensures forall t :: t in s.mutexQ ==> s.Thread(t)
    ensures s.state[s.rq.current] != Blocked
  {
    CurrentIsLive(s.rq, s.pc);
  }

  lemma SysCondWaitKeeps(s: Kernel, c: Addr, m: Addr)
    requires Inv(s) && s.rq.current != IDLE && m in s.val && s.rq.current in s.Holders(m)
    ensures Inv(SysCondWait(s, c, m))
  {
    CurrentNotWaiting(s);
    WaitCondInv(s, c, m);
    WaitCondSync(s, c, m);
    SysUnlockSync(WaitCond(s, c, m), m);
    SysUnlockPlace(WaitCond(s, c, m), m);
  }

  lemma SysUnlockKeeps(s: Kernel, m: Addr)
    requires PlaceInv(s, false) && Unlocking(s, m)
    ensures Inv(SysUnlock(s, m))
  {
    CurrentNotWaiting(s);
    SysUnlockSync(s, m);
    SysUnlockPlace(s, m);
  }

  lemma EndSignalPlace(s: Kernel, o: Tid)
    requires PlaceInv(s, false) && s.rq.current != IDLE && s.Thread(o)
    ensures PlaceInv(EndSignal(s, o), false)
  {
    YieldInv(s);
  }

  lemma SignalPlace(s: Kernel, c: Addr)
    requires PlaceInv(s, false) && s.rq.current != IDLE
    ensures PlaceInv(SysSignal(s, c), false)
  {
    var found := FirstOn(s.condQ, s.priv, c);
    if found.None? {
      WordsInv(s, s.(monitor := None), false);
    } else {
      var o := found.value;
      WakeCondInv(s, o, s.pc[o].m);
      EndSignalPlace(WakeCond(s, o, s.pc[o].m), o);
    }
  }

  lemma WakeCondSync(s: Kernel, o: Tid)
    requires SyncCore(s) && s.Thread(o) && s.pc[o].InCond?
    ensures SyncInv(WakeCond(s, o, s.pc[o].m))
  {
    assert PcOk(o, s.pc, s.val, s.held, s.mutexQ, s.priv);
    PcsLocal(s.pc, s.val, s.held, s.mutexQ, s.priv, o, Relock(s.pc[o].m));
  }

  lemma SignalSync(s: Kernel, c: Addr)
    requires SyncCore(s) && s.rq.current != IDLE
    ensures SyncInv(SysSignal(s, c))
  {
    var found := FirstOn(s.condQ, s.priv, c);
    if found.None? || !s.Thread(found.value) || !s.pc[found.value].InCond? {
      SyncSame(s, s.(monitor := None));
    } else {
      var o := found.value;
      var s1 := WakeCond(s, o, s.pc[o].m);
      WakeCondSync(s, o);
      EndSignalOnlySchedules(s1, o);
      SyncSame(s1, EndSignal(s1, o));
    }
  }

  // ----- threads -----

  lemma PcSync(s: Kernel, s': Kernel, t: Tid, x: Pc)
    requires SyncCore(s) && Wf(s') && (x.User? || x.InJoin? || x.Dead?)
    requires s'.val == s.val && s'.held == s.held && s'.mutexQ == s.mutexQ && s'.priv == s.priv && s'.pc == s.pc[t := x]
    ensures SyncCore(s')
  {
    PcsLocal(s.pc, s.val, s.held, s.mutexQ, s.priv, t, x);
  }

  lemma ExitSync(s: Kernel)
    requires SyncCore(s) && s.rq.current != IDLE
    ensures SyncInv(SysExit(s))
  {
    var t := s.rq.current;
    var s1 := s.(pc := s.pc[t := Dead]);
    PcSync(s, s1, t, Dead);
    var s2 := if t in s.joining then Enqueue(s1.(pc := s1.pc[s.joining[t] := User]), s.joining[t])
              else s1.(joinable := s.joinable + {t});
    if t in s.joining { PcSync(s1, s2, s.joining[t], User); }
    ElectOnlySchedules(s2, false);
    SyncSame(s2, Elect(s2, false));
  }

  lemma JoinSync(s: Kernel, u: Tid)
    requires SyncCore(s) && s.rq.current != IDLE
    ensures SyncInv(SysJoin(s, u))
  {
    if !s.Thread(u) || u in s.joinable || u in s.joining {
      SyncSame(s, s.(monitor := None));
    } else {
      var s1 := s.(joining := s.joining[u := s.rq.current], pc := s.pc[s.rq.current := InJoin(u)]);
      PcSync(s, s1, s.rq.current, InJoin(u));
      ElectOnlySchedules(s1, false);
      SyncSame(s1, Elect(s1, false));
    }
  }

  lemma CreateSync(s: Kernel, t: Tid, p: int)
    requires SyncCore(s) && t != IDLE && !s.Thread(t) && 0 <= p < PRIORITIES && t !in s.mutexQ
    ensures SyncInv(SysCreate(s, t, p))
  {
    PcsLocal(s.pc, s.val, s.held, s.mutexQ, s.priv, t, User);
    SyncPriv(s.val, s.held, s.mutexQ, s.priv, s.pc[t := User], t, 0);
  }

  // ----- every step, every run -----

  lemma ExecuteKeeps(s: Kernel, stored: bool)
    requires Inv(s) && s.rq.current != IDLE && AtInstruction(s)
    ensures Inv(Execute(s, stored))
  {
    var t := s.rq.current;
    var pc := s.pc[t];
    if pc.LockSvc? || pc.Relock? {
      CurrentNotWaiting(s);
      SysLockPlace(s, pc.m);
      SysLockSync(s, pc.m);
    } else if pc.UnlockSvc? {
      assert PcOk(t, s.pc, s.val, s.held, s.mutexQ, s.priv);
      PositionPlace(s, User, None);
      PositionSync(s, User, None);
      SysUnlockKeeps(Position(s, User, None), pc.m);
    } else {
      FastPathShape(s, stored);
      FastPathPlace(s, FastPath(s, stored));
      FastPathSync(s, stored);
    }
  }

  lemma CallKeeps(s: Kernel, x: Pc)
    requires Inv(s) && s.rq.current != IDLE && s.pc[s.rq.current].User?
    requires (x.LockLdrex? || x.TryLdrex? || (x.UnlockLdrex? && s.rq.current in s.Holders(x.m))) && x.m in s.val
    ensures Inv(Position(s, x, s.monitor))
  {
    PositionPlace(s, x, s.monitor);
    PositionSync(s, x, s.monitor);
  }

  /** Every step keeps the invariant. */
  lemma StepKeeps(s: Kernel, step: Step)
    requires Inv(s) && Enabled(s, step)
    ensures Inv(Next(s, step))
  {
    match step
    case Tick =>
      ElectInv(s, true);
      ElectOnlySchedules(s, true);
      SyncSame(s, Elect(s, true));
    case Yield =>
      YieldInv(s);
      YieldOnlySchedules(s);
      SyncSame(s, YieldNow(s));
    case CallLock(m) => CallKeeps(s, LockLdrex(m));
    case CallTry(m) => CallKeeps(s, TryLdrex(m));
    case CallUnlock(m) => CallKeeps(s, UnlockLdrex(m));
    case Instruction(stored) => ExecuteKeeps(s, stored);
    case CondWait(c, m) => SysCondWaitKeeps(s, c, m);
    case Signal(c) =>
      SignalPlace(s, c);
      SignalSync(s, c);
    case Exit =>
      ExitInv(s);
      ExitSync(s);
    case Join(u) =>
      JoinInv(s, u);
      JoinSync(s, u);
    case Create(t, p) =>
      CreateInv(s, t, p);
      ListsNew(s, t);
      CreateSync(s, t, p);
  }

  lemma MoveKeeps(s: Kernel, step: Step, s': Kernel)
    requires Inv(s) && Moves(s, step, s')
    ensures Inv(s')
  {
    StepKeeps(s, step);
  }

  /** Every run keeps the invariant. */
  lemma {:induction false} RunKeeps(run: Run, i: nat)
    requires IsRun(run) && Inv(run.states[0]) && i < |run.states|
    ensures Inv(run.states[i])
  {
    if i > 0 {
      var j := i - 1;
      RunKeeps(run, j);
      assert MovesAt(run, j);
      MoveKeeps(run.states[j], run.steps[j], run.states[j + 1]);
    }
  }

  lemma BootScheduled(rq: Sched, pc: map<Tid, Pc>, t: Tid)
    requires t != IDLE && rq.current == t && AllEmpty(rq.active) && AllEmpty(rq.expire)
    requires pc == map[IDLE := User, t := User]
    ensures Scheduled(rq, pc, false)
  {
    FlatEmpty(rq.active);
    FlatEmpty(rq.expire);
    assert Live(pc) == {t};
  }

  lemma NobodyWaits(pc: map<Tid, Pc>, priv: map<Tid, Addr>, state: map<Tid, ThreadState>)
    requires forall t :: t in pc ==> pc[t] == User
    requires forall t :: t in state ==> state[t] == New
    ensures MutexList([], pc, priv) && CondList([], pc, priv) && Joined(map[], {}, pc) && Tagged(state, pc)
  {
  }

  lemma BootPlace(mainThread: Tid, mutexes: set<Addr>)
    requires mainThread != IDLE
    ensures PlaceInv(Boot(mainThread, mutexes), false)
  {
    BootPlaceOf(Boot(mainThread, mutexes), mainThread);
  }

  lemma BootPlaceOf(s: Kernel, t: Tid)
    requires Wf(s) && t != IDLE && s.rq.current == t && AllEmpty(s.rq.active) && AllEmpty(s.rq.expire)
    requires s.pc == map[IDLE := User, t := User] && (forall u :: u in s.state ==> s.state[u] == New)
    requires s.mutexQ == [] && s.condQ == [] && s.joining == map[] && s.joinable == {}
    ensures PlaceInv(s, false)
  {
    BootScheduled(s.rq, s.pc, t);
    NobodyWaits(s.pc, s.priv, s.state);
  }

  lemma BootSync(mainThread: Tid, mutexes: set<Addr>)
    requires mainThread != IDLE
    ensures SyncInv(Boot(mainThread, mutexes))
  {
    var s := Boot(mainThread, mutexes);
    forall m
      ensures MutexAt(m, s.val, s.held, s.mutexQ, s.priv)
    {
    }
  }

  /** Every state of every run of the system satisfies the invariant. */
  lemma ReachableInv(mainThread: Tid, mutexes: set<Addr>, run: Run, i: nat)
    requires mainThread != IDLE && IsRun(run) && run.states[0] == Boot(mainThread, mutexes) && i < |run.states|
    ensures Inv(run.states[i])
  {
    BootPlace(mainThread, mutexes);
    BootSync(mainThread, mutexes);
    RunKeeps(run, i);
  }
}
