/**
 The kernel as the C code keeps it: bitmap run queues, the fields of the threads, one
 wait list for all mutexes and one for all conditions, the mutex words.  Every entry,
 run on this state in the order of the source, takes the machine's step; so what is
 proved of the machine's runs holds of the code, and along every run the map words of
 the scheduler agree with its queues.
 */
module KernelImpl {
  import opened Options
  import opened Sequences
  import opened RunQueue
  import opened SchedImpl
  import opened Machine
  import opened Placement
  import opened Protocol
  import opened FastPaths
  import opened Joins

  class KernelState {
    /** The bitmap scheduler, with the running thread and the priorities. */
    const sched: BitmapSched
    /** `ti_state`, `ti_private`, `ti_joining` and `ti_joinable` of each thread */
    var state: map<Tid, ThreadState>
    var priv: map<Tid, Addr>
    var joining: map<Tid, Tid>
    var joinable: set<Tid>
    /** `thread_head` of the user's task, newest thread first */
    var threads: seq<Tid>
    /** `mutex_head` and `cond_head` */
    var mutexQ: seq<Tid>
    var condQ: seq<Tid>
    /** The mutex words and the local monitor. */
    var val: map<Addr, int>
    var monitor: Option<Addr>
    /** The threads' contexts: where each will go on, and which have not run yet. */
    var pc: map<Tid, Pc>
    var unstarted: set<Tid>
    /** Who was given each mutex. */
    ghost var held: map<Addr, set<Tid>>
    /** What the scheduler's maps and queues stand for. */
    ghost var rq: Sched

    /** The state of the machine that this is. */
    ghost function Abs(): Kernel
      reads this
    {
      Kernel(rq, state, priv, pc, unstarted, mutexQ, condQ, joining, joinable, val, monitor, held)
    }

    /** The scheduler is sound and stands for `rq`; the task's list has its threads. */
    ghost predicate Valid()
      reads this`rq, this`threads, sched, sched.repr
    {
      && this !in sched.repr && sched.Valid() && sched.Abs() == rq
      && (forall t :: t in threads <==> t in rq.prio && t != IDLE)
    }

    ghost function Holders(m: Addr): set<Tid>
      reads this`held
    {
      if m in held then held[m] else {}
    }

    /** `start_kernel` */
    constructor (mainThread: Tid, mutexes: set<Addr>)
      requires mainThread != IDLE
      ensures Valid() && fresh(sched.repr) && Abs() == Boot(mainThread, mutexes)
    {
      sched := new BitmapSched(mainThread, 31);
      state := map[IDLE := New, mainThread := New];
      priv := map[IDLE := 0, mainThread := 0];
      pc := map[IDLE := User, mainThread := User];
      unstarted := {IDLE};
      threads := [mainThread];
      mutexQ, condQ, joining, joinable := [], [], map[], {};
      val, held := map m | m in mutexes :: -1, map m | m in mutexes :: {};
      monitor := None;
      rq := Boot(mainThread, mutexes).rq;
      new;
      assert sched.Abs().active == NoThreads() && sched.Abs().expire == NoThreads();
    }

    /** The class hook of `sched_enqueue` */
    method EnqueueQueues(t: Tid)
      requires Valid() && t in rq.prio && t != IDLE
      modifies this`rq, sched.repr
      ensures Valid() && SchedOk(old(rq)) && rq == Enqueued(old(rq), t)
    {
      sched.Enqueue(t);
      rq := Enqueued(rq, t);
    }

    /** The class hook of `sched_elect` */
    method ElectQueues(tick: bool)
      requires Valid()
      modifies this`rq, sched.repr
      ensures Valid() && SchedOk(old(rq)) && rq == Elected(old(rq), tick)
    {
      sched.Elect(tick);
      rq := Elected(rq, tick);
    }

    method Current() returns (t: Tid)
      requires Valid()
      ensures t == rq.current
    {
      t := sched.current;
    }

    method Priority(t: Tid) returns (p: int)
      requires Valid() && t in rq.prio
      ensures p == rq.prio[t]
    {
      p := sched.prio[t];
    }

    /** `sched_enqueue` */
    method SchedEnqueue(t: Tid)
      requires Valid() && t in rq.prio && t != IDLE
      modifies this`state, this`rq, sched.repr
      ensures Valid() && SchedOk(old(rq))
      ensures Abs() == old(Abs()).(rq := Enqueued(old(rq), t), state := old(state)[t := Ready])
    {
      state := state[t := Ready];
      EnqueueQueues(t);
    }

    /** `sched_elect`.  The store after the election is made by the thread that
        resumes, in its own `sched_elect`. */
    method SchedElect(tick: bool)
      requires Valid() && Wf(Abs())
      modifies this`state, this`unstarted, this`monitor, this`rq, sched.repr
      ensures Valid() && Abs() == Elect(old(Abs()), tick)
    {
      var from := Current();
      ElectQueues(tick);
      var to := Current();
      Resumed(from, to, tick);
    }

    /** The tags of the thread that stops and of the one that goes on */
    method Resumed(from: Tid, to: Tid, tick: bool)
      requires Valid()
      modifies this`state, this`unstarted, this`monitor
      ensures Valid()
      ensures Abs() == old(Abs()).(state := Tags(old(state), from, to, to in old(unstarted), tick),
                                   unstarted := old(unstarted) - {to}, monitor := None)
    {
      if tick && from != IDLE {
        state := state[from := Ready];
      }
      if to !in unstarted {
        state := state[to := Running];
      }
      unstarted := unstarted - {to};
      monitor := None;
    }

    /** `thread_yield`, also the yields of unlock and signal */
    method ThreadYield()
      requires Valid() && Wf(Abs()) && rq.current != IDLE
      modifies this`state, this`unstarted, this`monitor, this`rq, sched.repr
      ensures Valid() && Abs() == YieldNow(old(Abs()))
    {
      var t := Current();
      SchedEnqueue(t);
      assert Abs() == Enqueue(old(Abs()), t);
      SchedElect(false);
    }

    /** `sys_pthread_mutex_lock` */
    method MutexLock(m: Addr)
      requires Valid() && Wf(Abs()) && rq.current != IDLE && m in val
      modifies this, sched.repr
      ensures Valid() && Abs() == SysLock(old(Abs()), m)
    {
      var t := Current();
      CountUp(m);
      if val[m] == 0 {
        Own(t, m);
      } else {
        assert Abs() == SetMutex(old(Abs()), m, val[m], old(Abs()).Holders(m));
        MutexWait(t, m);
      }
    }

    /** `mutex->val++` */
    method CountUp(m: Addr)
      requires Valid() && m in val
      modifies this`val, this`held, this`monitor
      ensures Valid()
      ensures Abs() == old(Abs()).(val := old(val)[m := old(val)[m] + 1],
                                   held := old(held)[m := old(Holders(m))], monitor := None)
    {
      monitor := None;
      held := held[m := Holders(m)];
      val := val[m := val[m] + 1];
    }

    /** The caller returns with the mutex. */
    method Own(t: Tid, m: Addr)
      requires Valid()
      modifies this`held, this`pc
      ensures Valid()
      ensures Abs() == old(Abs()).(held := old(held)[m := old(Holders(m)) + {t}], pc := old(pc)[t := User])
    {
      held := held[m := Holders(m) + {t}];
      pc := pc[t := User];
    }

    /** The caller waits at the end of the list. */
    method MutexWait(t: Tid, m: Addr)
      requires Valid() && Wf(Abs()) && t == rq.current
      modifies this, sched.repr
      ensures Valid() && Abs() == Elect(WaitMutex(old(Abs()), m), false)
    {
      Block(t, m);
      JoinMutexList(t, InLock(m));
      SchedElect(false);
    }

    /** `ti_private` and `ti_state` of a thread that is to wait on `a` */
    method Block(t: Tid, a: Addr)
      requires Valid()
      modifies this`priv, this`state
      ensures Valid() && Abs() == old(Abs()).(priv := old(priv)[t := a], state := old(state)[t := Blocked])
    {
      priv := priv[t := a];
      state := state[t := Blocked];
    }

    method JoinMutexList(t: Tid, x: Pc)
      requires Valid()
      modifies this`pc, this`mutexQ
      ensures Valid() && Abs() == old(Abs()).(mutexQ := old(mutexQ) + [t], pc := old(pc)[t := x])
    {
      mutexQ := mutexQ + [t];
      pc := pc[t := x];
    }

    /** `find_first_blocking_thread` and `find_other_thread` */
    method FindFirst(q: seq<Tid>, a: Addr) returns (r: Option<Tid>)
      ensures r == FirstOn(q, priv, a)
    {
      var i := 0;
      while i < |q|
        invariant i <= |q| && FirstOn(q, priv, a) == FirstOn(q[i..], priv, a)
      {
        if q[i] in priv && priv[q[i]] == a {
          return Some(q[i]);
        }
        i := i + 1;
      }
      r := None;
    }

    /** `sys_pthread_mutex_unlock`; -1 is "No blocking threads" */
    method MutexUnlock(m: Addr) returns (r: int)
      requires Valid() && Wf(Abs()) && rq.current != IDLE && m in val
      requires forall t :: t in mutexQ ==> t in rq.prio && t != IDLE
      modifies this, sched.repr
      ensures Valid() && Abs() == SysUnlock(old(Abs()), m)
      ensures r == -1 <==> old(val[m]) >= 1 && FirstOn(old(mutexQ), old(priv), m).None?
    {
      ghost var s := Abs();
      var waiter;
      waiter, r := ReleaseMutex(m);
      if r == 0 {
        assert NextOwner(s, m) == waiter;
        FinishUnlock(waiter);
      }
    }

    /** `sys_pthread_mutex_unlock` up to who runs next */
    method ReleaseMutex(m: Addr) returns (waiter: Option<Tid>, r: int)
      requires Valid() && Wf(Abs()) && m in val
      requires forall t :: t in mutexQ ==> t in rq.prio && t != IDLE
      modifies this, sched.repr
      ensures waiter == if old(val[m]) >= 1 then FirstOn(old(mutexQ), old(priv), m) else None
      ensures r == if old(val[m]) >= 1 && waiter.None? then -1 else 0
      ensures waiter.Some? ==> waiter.value in old(mutexQ)
      ensures Valid() && Abs() == Release(old(Abs()), m, waiter)
    {
      ghost var s := Abs();
      var more := val[m] >= 1;
      DropMutex(m);
      ghost var s1 := Abs();
      Dropped(s, s1, m);
      waiter := PassOn(m);
      Released(s, s1, Abs(), m, waiter);
      r := if more && waiter.None? then -1 else 0;
    }

    /** The first waiter, if the word says that there is one, is made the owner. */
    method PassOn(m: Addr) returns (waiter: Option<Tid>)
      requires Valid() && Wf(Abs()) && m in val
      requires forall t :: t in mutexQ ==> t in rq.prio && t != IDLE
      modifies this, sched.repr
      ensures waiter == if old(val[m]) >= 0 then FirstOn(old(mutexQ), old(priv), m) else None
      ensures waiter.Some? ==> waiter.value in old(mutexQ) && Abs() == WakeMutex(old(Abs()), waiter.value, m)
      ensures waiter.None? ==> Abs() == old(Abs())
      ensures Valid()
    {
      waiter := None;
      if val[m] >= 0 {
        waiter := FindFirst(mutexQ, m);
        if waiter.Some? {
          HandOver(waiter.value, m);
        }
      }
    }

    /** `mutex->val--` */
    method DropMutex(m: Addr)
      requires Valid() && m in val
      modifies this`val, this`held, this`monitor
      ensures Valid()
      ensures Abs() == old(Abs()).(val := old(val)[m := old(val)[m] - 1],
                                   held := old(held)[m := old(Holders(m)) - {rq.current}], monitor := None)
    {
      monitor := None;
      held := held[m := Holders(m) - {rq.current}];
      val := val[m := val[m] - 1];
    }

    /** `list_del(&waiter->ti_q)` and `sched_enqueue(waiter)` */
    method HandOver(w: Tid, m: Addr)
      requires Valid() && Wf(Abs()) && w in rq.prio && w != IDLE
      modifies this, sched.repr
      ensures Valid() && Abs() == WakeMutex(old(Abs()), w, m)
    {
      LeaveMutexList(w, m);
      SchedEnqueue(w);
    }

    method LeaveMutexList(w: Tid, m: Addr)
      requires Valid()
      modifies this`mutexQ, this`pc, this`held
      ensures Valid()
      ensures Abs() == old(Abs()).(mutexQ := Without(old(mutexQ), w), pc := old(pc)[w := User],
                                   held := old(held)[m := old(Holders(m)) + {w}])
    {
      mutexQ := Without(mutexQ, w);
      pc := pc[w := User];
      held := held[m := Holders(m) + {w}];
    }

    /** The end of `sys_pthread_mutex_unlock`: a caller on its way into `cond_wait` sleeps. */
    method FinishUnlock(waiter: Option<Tid>)
      requires Valid() && Wf(Abs()) && rq.current != IDLE
      requires waiter.Some? ==> waiter.value in rq.prio && waiter.value != IDLE
      modifies this, sched.repr
      ensures Valid() && Abs() == EndUnlock(old(Abs()), waiter)
    {
      var t := Current();
      if state[t] == Blocked {
        SchedElect(false);
      } else if waiter.Some? {
        var p := Priority(t);
        var q := Priority(waiter.value);
        if p <= q {
          ThreadYield();
        }
      }
    }

    /** `sys_pthread_cond_wait`, up to the election in which it sleeps */
    method CondWait(c: Addr, m: Addr)
      requires Valid() && Wf(Abs()) && rq.current != IDLE && m in val
      requires forall t :: t in mutexQ ==> t in rq.prio && t != IDLE
      modifies this, sched.repr
      ensures Valid() && Abs() == SysCondWait(old(Abs()), c, m)
    {
      var t := Current();
      Block(t, c);
      JoinCondList(t, InCond(c, m));
      assert Abs() == WaitCond(old(Abs()), c, m);
      var _ := MutexUnlock(m);
    }

    method JoinCondList(t: Tid, x: Pc)
      requires Valid()
      modifies this`condQ, this`pc
      ensures Valid() && Abs() == old(Abs()).(condQ := old(condQ) + [t], pc := old(pc)[t := x])
    {
      condQ := condQ + [t];
      pc := pc[t := x];
    }

    /** `sys_pthread_cond_signal` */
    method CondSignal(c: Addr)
      requires Valid() && Wf(Abs()) && rq.current != IDLE
      requires forall t :: t in condQ ==> t in rq.prio && t != IDLE && pc[t].InCond?
      modifies this, sched.repr
      ensures Valid() && Abs() == SysSignal(old(Abs()), c)
    {
      monitor := None;
      var other := FindFirst(condQ, c);
      if other.None? {
        return;
      }
      WakeOther(other.value);
      FinishSignal(other.value);
    }

    /** `list_del(&other->ti_q)` and `sched_enqueue(other)` */
    method WakeOther(o: Tid)
      requires Valid() && Wf(Abs()) && o in rq.prio && o != IDLE && pc[o].InCond? && monitor == None
      modifies this, sched.repr
      ensures Valid() && Abs() == WakeCond(old(Abs()), o, old(pc)[o].m)
    {
      LeaveCondList(o, Relock(pc[o].m));
      SchedEnqueue(o);
    }

    method LeaveCondList(o: Tid, x: Pc)
      requires Valid()
      modifies this`condQ, this`pc
      ensures Valid() && Abs() == old(Abs()).(condQ := Without(old(condQ), o), pc := old(pc)[o := x])
    {
      condQ := Without(condQ, o);
      pc := pc[o := x];
    }

    /** The end of `sys_pthread_cond_signal` */
    method FinishSignal(o: Tid)
      requires Valid() && Wf(Abs()) && rq.current != IDLE && o in rq.prio && o != IDLE
      modifies this, sched.repr
      ensures Valid() && Abs() == EndSignal(old(Abs()), o)
    {
      var t := Current();
      var p := Priority(t);
      var q := Priority(o);
      if q >= p {
        ThreadYield();
      }
    }

    /** `thread_exit` */
    method ThreadExit()
      requires Valid() && Wf(Abs()) && rq.current != IDLE
      modifies this, sched.repr
      ensures Valid() && Abs() == SysExit(old(Abs()))
    {
      var t := Current();
      pc := pc[t := Dead];
      if t in joining {
        WakeJoiner(joining[t]);
      } else {
        joinable := joinable + {t};
      }
      SchedElect(false);
    }

    method WakeJoiner(j: Tid)
      requires Valid() && Wf(Abs()) && j in rq.prio && j != IDLE
      modifies this, sched.repr
      ensures Valid() && Abs() == Enqueue(old(Abs()).(pc := old(pc)[j := User]), j)
    {
      pc := pc[j := User];
      SchedEnqueue(j);
    }

    /** `find_thread_by_id` */
    method FindThreadById(id: Tid) returns (found: bool)
      requires Valid()
      ensures found <==> id in rq.prio && id != IDLE
    {
      var i := 0;
      while i < |threads|
        invariant 0 <= i <= |threads| && id !in threads[..i]
      {
        if threads[i] == id {
          return true;
        }
        i := i + 1;
      }
      assert threads[..i] == threads;
      found := false;
    }

    /** `thread_join`; false stands for the error results */
    method ThreadJoin(other: Tid) returns (ok: bool)
      requires Valid() && Wf(Abs()) && rq.current != IDLE
      modifies this, sched.repr
      ensures Valid() && Abs() == SysJoin(old(Abs()), other)
      ensures ok <==> JoinSucceeds(old(Abs()), other)
    {
      var found := FindThreadById(other);
      if !found || (other !in joinable && other in joining) {
        monitor := None;
        return false;
      }
      ok := true;
      if other in joinable {
        monitor := None;
      } else {
        var t := Current();
        BecomeJoiner(t, other);
        SchedElect(false);
      }
    }

    method BecomeJoiner(t: Tid, other: Tid)
      requires Valid()
      modifies this`joining, this`pc
      ensures Valid() && Abs() == old(Abs()).(joining := old(joining)[other := t], pc := old(pc)[t := InJoin(other)])
    {
      joining := joining[other := t];
      pc := pc[t := InJoin(other)];
    }

    /** `sys_pthread_create` */
    method Create(t: Tid, p: int)
      requires Valid() && Wf(Abs()) && t !in rq.prio && 0 <= p < PRIORITIES
      modifies this, sched.repr
      ensures Valid() && t != IDLE && Abs() == SysCreate(old(Abs()), t, p)
    {
      ListThread(t, p);
      InitThread(t);
      GoOn(t, User, None);
      SchedEnqueue(t);
    }

    /** `thread_create`: the priority, and the task's list */
    method ListThread(t: Tid, p: int)
      requires Valid() && t !in rq.prio && 0 <= p < PRIORITIES
      modifies this`rq, this`threads, sched.repr
      ensures Valid() && rq == old(rq).(prio := old(rq).prio[t := p])
    {
      sched.AddThread(t, p);
      rq := rq.(prio := rq.prio[t := p]);
      threads := [t] + threads;
    }

    /** `thread_create`: the other fields */
    method InitThread(t: Tid)
      requires Valid()
      modifies this`state, this`priv, this`unstarted
      ensures Valid()
      ensures Abs() == old(Abs()).(state := old(state)[t := New], priv := old(priv)[t := 0],
                                   unstarted := old(unstarted) + {t})
    {
      state := state[t := New];
      priv := priv[t := 0];
      unstarted := unstarted + {t};
    }

    /** A load-exclusive of a fast path and the test after it */
    method LoadExclusive(m: Addr, ghost stored: bool) returns (r0: Option<int>)
      requires Valid() && Wf(Abs()) && m in val && LoadsAt(pc[rq.current], m)
      modifies this`pc, this`monitor
      ensures Valid() && Abs() == FastPath(old(Abs()), stored)
      ensures r0 == TryResult(old(Abs()), stored)
    {
      var t := Current();
      r0 := if pc[t].TryLdrex? && val[m] != -1 then Some(-1) else None;
      var r1 := val[m];
      var next :=
        if pc[t].LockLdrex? then (if r1 == -1 then LockStrex(m) else LockSvc(m))
        else if pc[t].TryLdrex? then (if r1 == -1 then TryStrex(m) else User)
        else (if r1 == 0 then UnlockStrex(m) else UnlockSvc(m));
      GoOn(t, next, Some(m));
    }

    /** The thread's own position, and the monitor */
    method GoOn(t: Tid, x: Pc, reserved: Option<Addr>)
      requires Valid()
      modifies this`pc, this`monitor
      ensures Valid() && Abs() == old(Abs()).(pc := old(pc)[t := x], monitor := reserved)
    {
      monitor := reserved;
      pc := pc[t := x];
    }

    /** A store-exclusive of a fast path and the test after it */
    method StoreExclusive(m: Addr, stored: bool) returns (r0: Option<int>)
      requires Valid() && Wf(Abs()) && m in val && StoresAt(pc[rq.current], m)
      modifies this`pc, this`val, this`held, this`monitor
      ensures Valid() && Abs() == FastPath(old(Abs()), stored)
      ensures r0 == TryResult(old(Abs()), stored)
    {
      var t := Current();
      var x := pc[t];
      r0 := if !x.TryStrex? then None else if stored && monitor == Some(m) then Some(0) else Some(-1);
      StoreOutcome(Abs(), stored);
      if stored && monitor == Some(m) {
        StoreWord(m, if x.UnlockStrex? then -1 else 0, t, !x.UnlockStrex?);
        GoOn(t, User, None);
      } else {
        GoOn(t, if x.TryStrex? then User else if x.LockStrex? then LockLdrex(m) else UnlockLdrex(m), None);
      }
    }

    method StoreWord(m: Addr, v: int, t: Tid, ghost takes: bool)
      requires Valid()
      modifies this`val, this`held
      ensures Valid()
      ensures Abs() == old(Abs()).(val := old(val)[m := v], held :=
        old(held)[m := if takes then old(Holders(m)) + {t} else old(Holders(m)) - {t}])
    {
      val := val[m := v];
      held := held[m := if takes then Holders(m) + {t} else Holders(m) - {t}];
    }

    /** The instruction or system call at which the current thread stands. */
    method NextInstruction(stored: bool) returns (r0: Option<int>)
      requires Valid() && Wf(Abs()) && rq.current != IDLE && AtInstruction(Abs())
      requires forall t :: t in mutexQ ==> t in rq.prio && t != IDLE
      modifies this, sched.repr
      ensures Valid() && Abs() == Execute(old(Abs()), stored)
      ensures r0 == TryResult(old(Abs()), stored)
    {
      r0 := None;
      var t := Current();
      var x := pc[t];
      if x.LockSvc? || x.Relock? {
        MutexLock(x.m);
      } else if x.UnlockSvc? {
        GoOn(t, User, None);
        var _ := MutexUnlock(x.m);
      } else if x.LockLdrex? || x.TryLdrex? || x.UnlockLdrex? {
        r0 := LoadExclusive(x.m, stored);
      } else {
        r0 := StoreExclusive(x.m, stored);
      }
    }

    /** A thread calls a function of the mutex library. */
    method Call(x: Pc)
      requires Valid() && Wf(Abs())
      modifies this`pc
      ensures Valid() && Abs() == Position(old(Abs()), x, old(monitor))
    {
      var t := Current();
      pc := pc[t := x];
    }

    /** Any step of any thread, run by the code above, is the machine's step. */
    method Step(step: Step)
      requires Valid() && Inv(Abs()) && Enabled(Abs(), step)
      modifies this, sched.repr
      ensures Valid() && Abs() == Next(old(Abs()), step)
    {
      ListsHoldThreads(Abs());
      match step
      case Tick => SchedElect(true);
      case Yield => ThreadYield();
      case CallLock(m) => Call(LockLdrex(m));
      case CallTry(m) => Call(TryLdrex(m));
      case CallUnlock(m) => Call(UnlockLdrex(m));
      case Instruction(stored) => var _ := NextInstruction(stored);
      case CondWait(c, m) => CondWait(c, m);
      case Signal(c) => CondSignal(c);
      case Exit => ThreadExit();
      case Join(other) => var _ := ThreadJoin(other);
      case Create(t, p) => Create(t, p);
    }
  }

  ghost predicate IsDrop(s: Kernel, s1: Kernel, m: Addr)
    requires m in s.val
  {
    s1 == s.(val := s.val[m := s.val[m] - 1], held := s.held[m := s.Holders(m) - {s.rq.current}], monitor := None)
  }

  lemma Dropped(s: Kernel, s1: Kernel, m: Addr)
    requires Wf(s) && m in s.val && IsDrop(s, s1, m)
    ensures Wf(s1) && s1 == SetMutex(s, m, s.val[m] - 1, s.Holders(m) - {s.rq.current})
  {
  }

  lemma Released(s: Kernel, s1: Kernel, s2: Kernel, m: Addr, waiter: Option<Tid>)
    requires Wf(s) && Wf(s1) && m in s.val && IsDrop(s, s1, m) && (waiter.Some? ==> s.Thread(waiter.value))
    requires s2 == if waiter.Some? then WakeMutex(s1, waiter.value, m) else s1
    ensures s2 == Release(s, m, waiter)
  {
    Dropped(s, s1, m);
  }

  lemma ListsHoldThreads(s: Kernel)
    requires PlaceInv(s, false)
    ensures forall t :: t in s.mutexQ ==> s.Thread(t)
    ensures forall t :: t in s.condQ ==> s.Thread(t) && s.pc[t].InCond?
  {
  }

  /** In both sets of run queues a map bit is set exactly when its queue is not empty. */
  ghost predicate MapsAgree(sched: BitmapSched)
    reads sched, sched.repr
  {
    && {sched.active, sched.expire, sched.active.word, sched.active.queue} <= sched.repr
    && {sched.expire.word, sched.expire.queue} <= sched.repr
    && sched.active.MapAgrees() && sched.expire.MapAgrees()
  }

  lemma ValidMapsAgree(k: KernelState)
    requires k.Valid()
    ensures MapsAgree(k.sched)
  {
    k.sched.active.MapAgreesIfValid();
    k.sched.expire.MapAgreesIfValid();
  }

  /** Step `i` of a run from boot */
  method RunStep(k: KernelState, step: Step, ghost t: Tid, ghost mutexes: set<Addr>, ghost run: Run, ghost i: nat)
    requires t != IDLE && IsRun(run) && run.states[0] == Boot(t, mutexes) && i < |run.steps| && run.steps[i] == step
    requires k.Valid() && k.Abs() == run.states[i]
    modifies k, k.sched.repr
    ensures k.Valid() && k.Abs() == run.states[i + 1]
  {
    ReachableInv(t, mutexes, run, i);
    assert MovesAt(run, i);
    k.Step(step);
  }

  /**
   Whatever the threads do from boot on, the code goes through exactly the states of the
   machine, for which `ReachableInv` and what follows from it hold, and in each of them
   the map words agree with the run queues.
   */
  method RunKernel(mainThread: Tid, mutexes: set<Addr>, steps: seq<Step>, ghost run: Run) returns (k: KernelState)
    requires mainThread != IDLE && IsRun(run) && run.steps == steps && run.states[0] == Boot(mainThread, mutexes)
    ensures k.Valid() && k.Abs() == run.states[|steps|] && MapsAgree(k.sched)
  {
    k := new KernelState(mainThread, mutexes);
    for i := 0 to |steps|
      invariant k.Valid() && fresh(k) && fresh(k.sched.repr) && k.Abs() == run.states[i]
    {
      RunStep(k, steps[i], mainThread, mutexes, run, i);
    }
    ValidMapsAgree(k);
  }
}
