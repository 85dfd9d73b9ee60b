/**
 The scheduling and synchronisation protocol of Piko/RT as a step machine.

 One step is one system call body, one tick election, or one user instruction of
 the LDREX/STREX fast paths.  System calls and ticks share one exception priority
 (kernel/main.c:90-91), so their bodies do not interleave; user instructions
 interleave freely with ticks.  Every exception clears the local exclusive
 monitor (section A3.4 of the ARMv7-M Architecture Reference Manual).
 */
module Machine {
  import opened Options
  import opened Sequences
  import opened RunQueue

  /** Address of a mutex or of a condition variable. */
  type Addr = int

  /** `ti_state`.  READY1 and READY2 are one tag: see README. */
  datatype ThreadState = New | Ready | Running | Blocked

  /** Where a thread is in its own code. */
  datatype Pc =
    | User
    | LockLdrex(m: Addr) | LockStrex(m: Addr) | LockSvc(m: Addr)
    | TryLdrex(m: Addr) | TryStrex(m: Addr)
    | UnlockLdrex(m: Addr) | UnlockStrex(m: Addr) | UnlockSvc(m: Addr)
    | InLock(m: Addr)           // blocked in sys_pthread_mutex_lock
    | InCond(c: Addr, m: Addr)  // blocked in sys_pthread_cond_wait
    | Relock(m: Addr)           // signalled, about to contend for the mutex
    | InJoin(other: Tid)        // blocked in thread_join
    | Dead

  datatype Kernel = Kernel(
    rq: Sched,                   // priorities, running thread, run queues
    state: map<Tid, ThreadState>,
    priv: map<Tid, Addr>,        // ti_private
    pc: map<Tid, Pc>,
    unstarted: set<Tid>,         // threads that have never run
    mutexQ: seq<Tid>,            // mutex_head
    condQ: seq<Tid>,             // cond_head
    joining: map<Tid, Tid>,      // ti_joining
    joinable: set<Tid>,          // ti_joinable
    val: map<Addr, int>,         // the mutex words
    monitor: Option<Addr>,       // the local exclusive monitor
    held: map<Addr, set<Tid>>)    // who was given each lock and has not released it
  {
    /** A thread other than idle. */
    predicate Thread(t: Tid) {
      t in rq.prio && t != IDLE
    }

    function Holders(m: Addr): set<Tid> {
      if m in held then held[m] else {}
    }
  }

  datatype Step =
    | Tick
    | Yield
    | CallLock(m: Addr) | CallTry(m: Addr) | CallUnlock(m: Addr)
    | Instruction(stored: bool)  // the next instruction of a fast path
    | CondWait(c: Addr, m: Addr)
    | Signal(c: Addr)
    | Exit
    | Join(other: Tid)
    | Create(t: Tid, p: int)

  /** The tables cover exactly the threads, and the queues hold only threads. */
  ghost predicate Wf(s: Kernel) {
    && SchedOk(s.rq)
    && s.state.Keys == s.rq.prio.Keys
    && s.priv.Keys == s.rq.prio.Keys
    && s.pc.Keys == s.rq.prio.Keys
    && (forall t :: t in s.joining ==> s.Thread(s.joining[t]))
  }

  /** `sched_enqueue` */
  function Enqueue(s: Kernel, t: Tid): (r: Kernel)
    requires Wf(s) && s.Thread(t)
    ensures Wf(r)
  {
    s.(rq := Enqueued(s.rq, t), state := s.state[t := Ready])
  }

  /** `sched_elect`: `tick` is the option SCHED_OPT_TICK.  Election resumes the
      elected thread inside its own `sched_elect`, which marks it running,
      unless it has never run (kernel/sched.c:67-68). */
  function Elect(s: Kernel, tick: bool): (r: Kernel)
    requires Wf(s)
    ensures Wf(r)
  {
    Resume(s, Elected(s.rq, tick), tick)
  }

  /** The tags after an election whose outcome is `rq`. */
  function Resume(s: Kernel, rq: Sched, tick: bool): (r: Kernel)
    requires Wf(s) && SchedOk(rq) && rq.prio == s.rq.prio
    ensures Wf(r)
  {
    s.(rq := rq,
       unstarted := s.unstarted - {rq.current},
       state := Tags(s.state, s.rq.current, rq.current, rq.current in s.unstarted, tick),
       monitor := None)
  }

  function Tags(state: map<Tid, ThreadState>, from: Tid, to: Tid, first: bool, tick: bool): map<Tid, ThreadState> {
    var state' := if tick && from != IDLE then state[from := Ready] else state;
    if first then state' else state'[to := Running]
  }

  /** `find_first_blocking_thread` and `find_other_thread`: the first thread of a
      wait list that waits on `a`. */
  function FirstOn(q: seq<Tid>, priv: map<Tid, Addr>, a: Addr): (r: Option<Tid>)
    ensures r.Some? ==> r.value in q && r.value in priv && priv[r.value] == a
    ensures r.None? ==> forall t :: t in q && t in priv ==> priv[t] != a
  {
    if q == [] then None
    else if q[0] in priv && priv[q[0]] == a then Some(q[0])
    else FirstOn(q[1..], priv, a)
  }

  /** The current thread joins the wait list of mutex `m` (kernel/mutex.c:18-20). */
  function WaitMutex(s: Kernel, m: Addr): (r: Kernel)
    requires Wf(s)
    ensures Wf(r)
  {
    var t := s.rq.current;
    s.(priv := s.priv[t := m], state := s.state[t := Blocked], mutexQ := s.mutexQ + [t], pc := s.pc[t := InLock(m)])
  }

  /** The current thread joins the wait list of condition `c` (kernel/cond.c:27-29). */
  function WaitCond(s: Kernel, c: Addr, m: Addr): (r: Kernel)
    requires Wf(s)
    ensures Wf(r)
  {
    var t := s.rq.current;
    s.(priv := s.priv[t := c], state := s.state[t := Blocked], condQ := s.condQ + [t], pc := s.pc[t := InCond(c, m)])
  }

  /** Hand mutex `m` to its waiter `w` (kernel/mutex.c:51-52). */
  function WakeMutex(s: Kernel, w: Tid, m: Addr): (r: Kernel)
    requires Wf(s) && s.Thread(w)
    ensures Wf(r)
  {
    Enqueue(s.(mutexQ := Without(s.mutexQ, w), pc := s.pc[w := User], held := s.held[m := s.Holders(m) + {w}]), w)
  }

  /** Wake the waiter `o` of a condition, which has yet to lock `m` (kernel/cond.c:46-47). */
  function WakeCond(s: Kernel, o: Tid, m: Addr): (r: Kernel)
    requires Wf(s) && s.Thread(o)
    ensures Wf(r)
  {
    Enqueue(s.(condQ := Without(s.condQ, o), pc := s.pc[o := Relock(m)], monitor := None), o)
  }

  /** The current thread goes back to the active queues and elects. */
  function YieldNow(s: Kernel): (r: Kernel)
    requires Wf(s) && s.rq.current != IDLE
    ensures Wf(r)
  {
    Elect(Enqueue(s, s.rq.current), false)
  }

  /** A new value of the mutex word, and who holds it, in the kernel. */
  function SetMutex(s: Kernel, m: Addr, v: int, h: set<Tid>): (r: Kernel)
    requires Wf(s)
    ensures Wf(r)
  {
    s.(val := s.val[m := v], held := s.held[m := h], monitor := None)
  }

  /** `sys_pthread_mutex_lock` for the current thread */
  function SysLock(s: Kernel, m: Addr): (r: Kernel)
    requires Wf(s) && s.rq.current != IDLE && m in s.val
    ensures Wf(r)
  {
    var t := s.rq.current;
    var v := s.val[m] + 1;
    if v == 0 then
      SetMutex(s, m, v, s.Holders(m) + {t}).(pc := s.pc[t := User])
    else
      Elect(WaitMutex(SetMutex(s, m, v, s.Holders(m)), m), false)
  }

  /** The waiter that unlock finds, if the word says that there is one. */
  function NextOwner(s: Kernel, m: Addr): (w: Option<Tid>)
    requires m in s.val
    ensures w.Some? ==> s.Thread(w.value) && s.val[m] >= 1
  {
    if s.val[m] < 1 then None
    else
      var w := FirstOn(s.mutexQ, s.priv, m);
      if w.Some? && s.Thread(w.value) then w else None
  }

  /** The first half of unlock: the word, and the hand-off (kernel/mutex.c:43-53). */
  function Release(s: Kernel, m: Addr, waiter: Option<Tid>): (r: Kernel)
    requires Wf(s) && m in s.val && (waiter.Some? ==> s.Thread(waiter.value))
    ensures Wf(r)
  {
    var s1 := SetMutex(s, m, s.val[m] - 1, s.Holders(m) - {s.rq.current});
    if waiter.Some? then WakeMutex(s1, waiter.value, m) else s1
  }

  /** The second half of unlock: who runs next (kernel/mutex.c:54-60). */
  function EndUnlock(s: Kernel, waiter: Option<Tid>): (r: Kernel)
    requires Wf(s) && s.rq.current != IDLE && (waiter.Some? ==> s.Thread(waiter.value))
    ensures Wf(r)
  {
    var t := s.rq.current;
    if s.state[t] == Blocked then Elect(s, false)
    else if waiter.Some? && s.rq.prio[t] <= s.rq.prio[waiter.value] then YieldNow(s)
    else s
  }

  /** `sys_pthread_mutex_unlock` for the current thread; with a positive word and
      no waiter it only reports an error. */
  function SysUnlock(s: Kernel, m: Addr): (r: Kernel)
    requires Wf(s) && s.rq.current != IDLE && m in s.val
    ensures Wf(r)
  {
    var waiter := NextOwner(s, m);
    if s.val[m] >= 1 && waiter.None? then Release(s, m, None)
    else EndUnlock(Release(s, m, waiter), waiter)
  }

  /** `sys_pthread_cond_wait` up to its election; it resumes at `Relock`. */
  function SysCondWait(s: Kernel, c: Addr, m: Addr): (r: Kernel)
    requires Wf(s) && s.rq.current != IDLE && m in s.val
    ensures Wf(r)
  {
    SysUnlock(WaitCond(s, c, m), m)
  }

  /** `sys_pthread_cond_signal` */
  function SysSignal(s: Kernel, c: Addr): (r: Kernel)
    requires Wf(s) && s.rq.current != IDLE
    ensures Wf(r)
  {
    var found := FirstOn(s.condQ, s.priv, c);
    if found.None? || !s.Thread(found.value) || !s.pc[found.value].InCond? then
      s.(monitor := None)
    else
      EndSignal(WakeCond(s, found.value, s.pc[found.value].m), found.value)
  }

  /** Who runs after a signal that woke `o` (kernel/cond.c:48-52). */
  function EndSignal(s: Kernel, o: Tid): (r: Kernel)
    requires Wf(s) && s.rq.current != IDLE && s.Thread(o)
    ensures Wf(r)
  {
    if s.rq.prio[o] >= s.rq.prio[s.rq.current] then YieldNow(s) else s
  }

  /** `thread_exit`, for a thread that is not detached */
  function SysExit(s: Kernel): (r: Kernel)
    requires Wf(s) && s.rq.current != IDLE
    ensures Wf(r)
  {
    var t := s.rq.current;
    var s1 := s.(pc := s.pc[t := Dead]);
    if t in s.joining then
      var j := s.joining[t];
      Elect(Enqueue(s1.(pc := s1.pc[j := User]), j), false)
    else
      Elect(s1.(joinable := s.joinable + {t}), false)
  }

  /** `thread_join` */
  function SysJoin(s: Kernel, other: Tid): (r: Kernel)
    requires Wf(s) && s.rq.current != IDLE
    ensures Wf(r)
  {
    if !s.Thread(other) || other in s.joinable || other in s.joining then
      s.(monitor := None)
    else
      Elect(s.(joining := s.joining[other := s.rq.current], pc := s.pc[s.rq.current := InJoin(other)]), false)
  }

  /** `sys_pthread_create`: thread `t` of priority `p` is enqueued, not elected. */
  function SysCreate(s: Kernel, t: Tid, p: int): (r: Kernel)
    requires Wf(s) && t != IDLE && !s.Thread(t) && 0 <= p < PRIORITIES
    ensures Wf(r)
  {
    Enqueue(s.(rq := s.rq.(prio := s.rq.prio[t := p]),
               state := s.state[t := New],
               priv := s.priv[t := 0],
               pc := s.pc[t := User],
               unstarted := s.unstarted + {t},
               monitor := None), t)
  }

  /** One load- or store-exclusive of a fast path (libc/v7m-pthread.S:15-61) and
      the test after it.  `stored` false is a store-exclusive that fails although
      the monitor is still set. */
  function FastPath(s: Kernel, stored: bool): (r: Kernel)
    requires Wf(s) && AtInstruction(s)
    ensures Wf(r)
  {
    var t := s.rq.current;
    var m := s.pc[t].m;
    var ok := stored && s.monitor == Some(m);
    match s.pc[t]
    case LockLdrex(_) => Position(s, if s.val[m] == -1 then LockStrex(m) else LockSvc(m), Some(m))
    case TryLdrex(_) => Position(s, if s.val[m] == -1 then TryStrex(m) else User, Some(m))
    case UnlockLdrex(_) => Position(s, if s.val[m] == 0 then UnlockStrex(m) else UnlockSvc(m), Some(m))
    case LockStrex(_) =>
      if ok then Position(SetMutex(s, m, 0, s.Holders(m) + {t}), User, None) else Position(s, LockLdrex(m), None)
    case TryStrex(_) =>
      if ok then Position(SetMutex(s, m, 0, s.Holders(m) + {t}), User, None) else Position(s, User, None)
    case UnlockStrex(_) =>
      if ok then Position(SetMutex(s, m, -1, s.Holders(m) - {t}), User, None) else Position(s, UnlockLdrex(m), None)
    case _ => s
  }

  /** What `pthread_mutex_trylock` returns, if this instruction ends it: 0 or -1
      (libc/v7m-pthread.S:33-43). */
  function TryResult(s: Kernel, stored: bool): Option<int>
    requires Wf(s) && AtInstruction(s)
  {
    match s.pc[s.rq.current]
    case TryLdrex(m) => if s.val[m] == -1 then None else Some(-1)
    case TryStrex(m) => if stored && s.monitor == Some(m) then Some(0) else Some(-1)
    case _ => None
  }

  /** The current thread moves on in its own code. */
  function Position(s: Kernel, x: Pc, monitor: Option<Addr>): (r: Kernel)
    requires Wf(s)
    ensures Wf(r)
  {
    s.(pc := s.pc[s.rq.current := x], monitor := monitor)
  }

  /** The next instruction: of a fast path, or the system call it ends in, or the
      lock that `cond_wait` resumes with (kernel/cond.c:33). */
  function Execute(s: Kernel, stored: bool): (r: Kernel)
    requires Wf(s) && s.rq.current != IDLE && AtInstruction(s)
    ensures Wf(r)
  {
    var pc := s.pc[s.rq.current];
    if pc.LockSvc? || pc.Relock? then SysLock(s, pc.m)
    else if pc.UnlockSvc? then SysUnlock(Position(s, User, None), pc.m)
    else FastPath(s, stored)
  }

  /** The current thread is inside a fast path, or about to contend for the
      mutex of its `cond_wait`. */
  predicate AtInstruction(s: Kernel)
    requires Wf(s)
  {
    var pc := s.pc[s.rq.current];
    && (|| pc.LockLdrex? || pc.LockStrex? || pc.LockSvc? || pc.TryLdrex? || pc.TryStrex?
        || pc.UnlockLdrex? || pc.UnlockStrex? || pc.UnlockSvc? || pc.Relock?)
    && pc.m in s.val
  }

  /** What a thread may do.  Idle only waits for ticks (kernel/main.c:187-192).
      As IEEE Std 1003.1 requires, a thread unlocks, or waits with, only a mutex
      it holds. */
  predicate Enabled(s: Kernel, step: Step)
    requires Wf(s)
  {
    var t := s.rq.current;
    match step
    case Tick => true
    case Instruction(_) => t != IDLE && AtInstruction(s)
    case _ =>
      && t != IDLE && s.pc[t].User?
      && match step
         case CallLock(m) => m in s.val
         case CallTry(m) => m in s.val
         case CallUnlock(m) => m in s.val && t in s.Holders(m)
         case CondWait(_, m) => m in s.val && t in s.Holders(m)
         case Create(u, p) => u != IDLE && !s.Thread(u) && 0 <= p < PRIORITIES
         case _ => true
  }

  function Next(s: Kernel, step: Step): (r: Kernel)
    requires Wf(s) && Enabled(s, step)
    ensures Wf(r)
  {
    match step
    case Tick => Elect(s, true)
    case Yield => YieldNow(s)
    case CallLock(m) => Position(s, LockLdrex(m), s.monitor)
    case CallTry(m) => Position(s, TryLdrex(m), s.monitor)
    case CallUnlock(m) => Position(s, UnlockLdrex(m), s.monitor)
    case Instruction(stored) => Execute(s, stored)
    case CondWait(c, m) => SysCondWait(s, c, m)
    case Signal(c) => SysSignal(s, c)
    case Exit => SysExit(s)
    case Join(other) => SysJoin(s, other)
    case Create(t, p) => SysCreate(s, t, p)
  }

  /** A run: the states passed through and the steps between them. */
  datatype Run = Run(states: seq<Kernel>, steps: seq<Step>)

  ghost predicate Moves(s: Kernel, step: Step, s': Kernel) {
    Wf(s) && Enabled(s, step) && s' == Next(s, step)
  }

  ghost predicate MovesAt(run: Run, i: nat)
    requires i < |run.steps| && |run.states| == |run.steps| + 1
  {
    Moves(run.states[i], run.steps[i], run.states[i + 1])
  }

  /** Every step is enabled where it is taken. */
  ghost predicate IsRun(run: Run) {
    && |run.states| == |run.steps| + 1
    && forall i: nat :: i < |run.steps| ==> MovesAt(run, i)
  }

  /** The machine when `start_kernel` returns: the main thread runs, and the
      mutexes in `mutexes` are initialised to -1. */
  function Boot(mainThread: Tid, mutexes: set<Addr>): (r: Kernel)
    requires mainThread != IDLE
    ensures Wf(r)
  {
    Kernel(Sched(map[IDLE := 31, mainThread := 31], mainThread, NoThreads(), NoThreads()),
           map[IDLE := New, mainThread := New], map[IDLE := 0, mainThread := 0],
           map[IDLE := User, mainThread := User], {IDLE},
           [], [], map[], {}, map m | m in mutexes :: -1, None, map m | m in mutexes :: {})
  }

  function NoThreads(): (q: Queues)
    ensures |q| == PRIORITIES && AllEmpty(q)
  {
    seq(PRIORITIES, _ => [])
  }
}
