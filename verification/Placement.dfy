/**
 Every thread is in exactly one place: running, in a run queue, in a wait list,
 blocked in a join, or dead.  One intrusive list node serves all queues
 (include/kernel/thread.h:36), so this is what keeps the kernel's lists intact.
 */
module Placement {
  import opened Sequences
  import opened RunQueue
  import opened Machine

  ghost predicate Waits(pc: Pc) {
    pc.InLock? || pc.InCond?
  }

  /** Ready or running, as far as the thread's own code goes. */
  ghost predicate CanRun(pc: Pc) {
    !Waits(pc) && !pc.InJoin? && !pc.Dead?
  }

  ghost function Live(pc: map<Tid, Pc>): set<Tid> {
    set t | t in pc && t != IDLE && CanRun(pc[t])
  }

  /** The wait list of all mutexes holds exactly the threads blocked on one. */
  ghost predicate MutexList(q: seq<Tid>, pc: map<Tid, Pc>, priv: map<Tid, Addr>) {
    && NoDup(q)
    && (forall t :: t in q <==> t in pc && pc[t].InLock?)
    && (forall t :: t in q ==> t in priv && pc[t].m == priv[t] && t != IDLE)
  }

  /** The wait list of all conditions holds exactly the threads waiting on one. */
  ghost predicate CondList(q: seq<Tid>, pc: map<Tid, Pc>, priv: map<Tid, Addr>) {
    && NoDup(q)
    && (forall t :: t in q <==> t in pc && pc[t].InCond?)
    && (forall t :: t in q ==> t in priv && pc[t].c == priv[t] && t != IDLE)
  }

  /** The tag BLOCKED marks exactly the threads in a wait list. */
  ghost predicate Tagged(state: map<Tid, ThreadState>, pc: map<Tid, Pc>) {
    forall t :: t in pc && t in state ==> (state[t] == Blocked <==> Waits(pc[t]))
  }

  /** The joiner recorded for a live thread `u` is blocked joining it. */
  ghost predicate HasJoiner(u: Tid, joining: map<Tid, Tid>, pc: map<Tid, Pc>) {
    u in joining ==> u in pc && joining[u] in pc && (!pc[u].Dead? ==> pc[joining[u]] == InJoin(u))
  }

  /** A thread `t` blocked in a join is the joiner of a live thread. */
  ghost predicate IsJoiner(t: Tid, joining: map<Tid, Tid>, pc: map<Tid, Pc>) {
    t in pc && pc[t].InJoin? ==>
      var u := pc[t].other;
      u in joining && joining[u] == t && u in pc && !pc[u].Dead?
  }

  /** A dead thread is joinable or has been joined; a joinable one is dead. */
  ghost predicate DeathRecorded(u: Tid, joining: map<Tid, Tid>, joinable: set<Tid>, pc: map<Tid, Pc>) {
    && (u in joinable ==> u in pc && pc[u].Dead?)
    && (u in pc && pc[u].Dead? ==> u in joinable || u in joining)
  }

  ghost predicate Joined(joining: map<Tid, Tid>, joinable: set<Tid>, pc: map<Tid, Pc>) {
    && (forall u :: HasJoiner(u, joining, pc))
    && (forall t :: IsJoiner(t, joining, pc))
    && (forall u :: DeathRecorded(u, joining, joinable, pc))
  }

  /** The run queues hold exactly the threads that can run, each once; the running
      thread counts too, unless it has already `left` for somewhere else. */
  ghost predicate Scheduled(rq: Sched, pc: map<Tid, Pc>, left: bool) {
    (if left then Queued(rq) else Runnable(rq)) == multiset(Live(pc))
  }

  ghost predicate PlaceInv(s: Kernel, left: bool) {
    && Wf(s)
    && s.pc[IDLE] == User
    && Scheduled(s.rq, s.pc, left)
    && MutexList(s.mutexQ, s.pc, s.priv)
    && CondList(s.condQ, s.pc, s.priv)
    && Tagged(s.state, s.pc)
    && Joined(s.joining, s.joinable, s.pc)
  }

  /** How often thread `t` occurs, over all places. */
  ghost function Occurrences(s: Kernel, t: Tid): nat
    requires Wf(s) && s.Thread(t)
  {
    (if s.rq.current == t then 1 else 0)
    + multiset(Flat(s.rq.active))[t] + multiset(Flat(s.rq.expire))[t]
    + multiset(s.mutexQ)[t] + multiset(s.condQ)[t]
    + (if s.pc[t].InJoin? then 1 else 0)
    + (if s.pc[t].Dead? then 1 else 0)
  }

  lemma ExactlyOnePlace(s: Kernel, t: Tid)
    requires PlaceInv(s, false) && s.Thread(t)
    ensures Occurrences(s, t) == 1
  {
    assert Runnable(s.rq)[t] == multiset(Live(s.pc))[t];
    OnceIfPresent(s.mutexQ, t);
    OnceIfPresent(s.condQ, t);
  }

  /** Idle is in no queue. */
  lemma IdleNeverQueued(s: Kernel)
    requires PlaceInv(s, false)
    ensures IDLE !in Flat(s.rq.active) && IDLE !in Flat(s.rq.expire) && IDLE !in s.mutexQ && IDLE !in s.condQ
  {
    assert Runnable(s.rq)[IDLE] == multiset(Live(s.pc))[IDLE] == 0;
  }

  // ----- the parts of the invariant under a change of one thread -----

  lemma JoinedPc(joining: map<Tid, Tid>, joinable: set<Tid>, pc: map<Tid, Pc>, t: Tid, x: Pc)
    requires Joined(joining, joinable, pc)
    requires t in pc && !pc[t].InJoin? && !pc[t].Dead? && !x.InJoin? && !x.Dead?
    ensures Joined(joining, joinable, pc[t := x])
  {
    var pc' := pc[t := x];
    forall u
      ensures HasJoiner(u, joining, pc')
    {
      assert HasJoiner(u, joining, pc) && IsJoiner(u, joining, pc);
    }
    forall u
      ensures IsJoiner(u, joining, pc')
    {
      assert HasJoiner(u, joining, pc) && IsJoiner(u, joining, pc);
    }
    forall u
      ensures DeathRecorded(u, joining, joinable, pc')
    {
      assert DeathRecorded(u, joining, joinable, pc);
    }
  }

  lemma JoinedBlock(joining: map<Tid, Tid>, joinable: set<Tid>, pc: map<Tid, Pc>, t: Tid, u: Tid)
    requires Joined(joining, joinable, pc)
    requires t in pc && CanRun(pc[t]) && u in pc && u !in joining && u !in joinable
    ensures Joined(joining[u := t], joinable, pc[t := InJoin(u)])
  {
    var joining', pc' := joining[u := t], pc[t := InJoin(u)];
    assert DeathRecorded(u, joining, joinable, pc);
    forall v
      ensures HasJoiner(v, joining', pc')
    {
      assert HasJoiner(v, joining, pc);
    }
    forall v
      ensures IsJoiner(v, joining', pc')
    {
      assert IsJoiner(v, joining, pc);
    }
    forall v
      ensures DeathRecorded(v, joining', joinable, pc')
    {
      assert DeathRecorded(v, joining, joinable, pc);
    }
  }

  /** A thread dies; its joiner, if any, resumes. */
  lemma JoinedExit(joining: map<Tid, Tid>, joinable: set<Tid>, pc: map<Tid, Pc>, t: Tid)
    requires Joined(joining, joinable, pc) && t in pc && CanRun(pc[t])
    ensures t in joining ==> joining[t] in pc && joining[t] != t && pc[joining[t]] == InJoin(t)
    ensures t in joining ==> Joined(joining, joinable, pc[t := Dead][joining[t] := User])
    ensures t !in joining ==> Joined(joining, joinable + {t}, pc[t := Dead])
  {
    assert HasJoiner(t, joining, pc);
    var pc' := if t in joining then pc[t := Dead][joining[t] := User] else pc[t := Dead];
    var joinable' := if t in joining then joinable else joinable + {t};
    forall v
      ensures HasJoiner(v, joining, pc')
    {
      assert HasJoiner(v, joining, pc);
    }
    forall v
      ensures IsJoiner(v, joining, pc')
    {
      assert IsJoiner(v, joining, pc);
    }
    forall v
      ensures DeathRecorded(v, joining, joinable', pc')
    {
      assert DeathRecorded(v, joining, joinable, pc);
    }
  }

  lemma JoinedNew(joining: map<Tid, Tid>, joinable: set<Tid>, pc: map<Tid, Pc>, t: Tid)
    requires Joined(joining, joinable, pc) && t !in pc && t !in joining
    ensures Joined(joining, joinable, pc[t := User])
  {
    var pc' := pc[t := User];
    forall v
      ensures HasJoiner(v, joining, pc')
    {
      assert HasJoiner(v, joining, pc);
    }
    forall v
      ensures IsJoiner(v, joining, pc')
    {
      assert IsJoiner(v, joining, pc);
    }
    forall v
      ensures DeathRecorded(v, joining, joinable, pc')
    {
      assert DeathRecorded(v, joining, joinable, pc);
    }
  }

  lemma MutexListPc(q: seq<Tid>, pc: map<Tid, Pc>, priv: map<Tid, Addr>, t: Tid, x: Pc, a: Addr)
    requires MutexList(q, pc, priv) && t in pc && !pc[t].InLock? && !x.InLock?
    ensures MutexList(q, pc[t := x], priv[t := a])
    ensures MutexList(q, pc[t := x], priv)
  {
  }

  lemma CondListPc(q: seq<Tid>, pc: map<Tid, Pc>, priv: map<Tid, Addr>, t: Tid, x: Pc, a: Addr)
    requires CondList(q, pc, priv) && t in pc && !pc[t].InCond? && !x.InCond?
    ensures CondList(q, pc[t := x], priv[t := a])
    ensures CondList(q, pc[t := x], priv)
  {
  }

  lemma MutexListAdd(q: seq<Tid>, pc: map<Tid, Pc>, priv: map<Tid, Addr>, t: Tid, m: Addr)
    requires MutexList(q, pc, priv) && t in pc && t != IDLE && !pc[t].InLock?
    ensures MutexList(q + [t], pc[t := InLock(m)], priv[t := m])
  {
  }

  lemma CondListAdd(q: seq<Tid>, pc: map<Tid, Pc>, priv: map<Tid, Addr>, t: Tid, c: Addr, m: Addr)
    requires CondList(q, pc, priv) && t in pc && t != IDLE && !pc[t].InCond?
    ensures CondList(q + [t], pc[t := InCond(c, m)], priv[t := c])
  {
  }

  lemma MutexListRemove(q: seq<Tid>, pc: map<Tid, Pc>, priv: map<Tid, Addr>, w: Tid, x: Pc)
    requires MutexList(q, pc, priv) && w in q && !x.InLock?
    ensures MutexList(Without(q, w), pc[w := x], priv)
  {
    WithoutOthers(q, w);
  }

  lemma CondListRemove(q: seq<Tid>, pc: map<Tid, Pc>, priv: map<Tid, Addr>, w: Tid, x: Pc)
    requires CondList(q, pc, priv) && w in q && !x.InCond?
    ensures CondList(Without(q, w), pc[w := x], priv)
  {
    WithoutOthers(q, w);
  }

  lemma TaggedChange(state: map<Tid, ThreadState>, pc: map<Tid, Pc>, t: Tid, x: Pc, st: ThreadState)
    requires Tagged(state, pc) && (st == Blocked <==> Waits(x))
    ensures Tagged(state[t := st], pc[t := x])
  {
  }

  lemma TaggedState(state: map<Tid, ThreadState>, pc: map<Tid, Pc>, t: Tid, st: ThreadState)
    requires Tagged(state, pc) && t in pc && !Waits(pc[t]) && st != Blocked
    ensures Tagged(state[t := st], pc)
  {
  }

  lemma ScheduledElect(rq: Sched, pc: map<Tid, Pc>, tick: bool)
    requires SchedOk(rq) && Scheduled(rq, pc, !tick)
    ensures Scheduled(Elected(rq, tick), pc, false)
  {
    ElectedBag(rq, tick);
  }

  /** The running thread is idle or one that can run. */
  lemma CurrentIsLive(rq: Sched, pc: map<Tid, Pc>)
    requires Scheduled(rq, pc, false)
    ensures rq.current == IDLE || rq.current in Live(pc)
  {
    assert Runnable(rq)[rq.current] == multiset(Live(pc))[rq.current];
  }

  lemma LivePlus(bag: multiset<Tid>, bag': multiset<Tid>, pc: map<Tid, Pc>, w: Tid, x: Pc)
    requires bag == multiset(Live(pc)) && bag' == bag + multiset{w}
    requires w in pc && w != IDLE && !CanRun(pc[w]) && CanRun(x)
    ensures bag' == multiset(Live(pc[w := x]))
  {
    assert Live(pc[w := x]) == Live(pc) + {w};
  }

  lemma RunnableEnqueued(rq: Sched, w: Tid)
    requires SchedOk(rq) && w in rq.prio && w != IDLE
    ensures Runnable(Enqueued(rq, w)) == Runnable(rq) + multiset{w}
  {
    EnqueuedBag(rq, w);
  }

  lemma ScheduledWake(rq: Sched, pc: map<Tid, Pc>, w: Tid, x: Pc, left: bool)
    requires SchedOk(rq) && w in rq.prio && w != IDLE
    requires Scheduled(rq, pc, left) && w in pc && !CanRun(pc[w]) && CanRun(x)
    ensures Scheduled(Enqueued(rq, w), pc[w := x], left)
  {
    EnqueuedBag(rq, w);
    RunnableEnqueued(rq, w);
    if left {
      LivePlus(Queued(rq), Queued(Enqueued(rq, w)), pc, w, x);
    } else {
      LivePlus(Runnable(rq), Runnable(Enqueued(rq, w)), pc, w, x);
    }
  }

  lemma ScheduledPark(rq: Sched, pc: map<Tid, Pc>, x: Pc)
    requires rq.current != IDLE && rq.current in pc && Scheduled(rq, pc, false) && !CanRun(x)
    ensures Scheduled(rq, pc[rq.current := x], true)
  {
    var t := rq.current;
    assert Runnable(rq)[t] == multiset(Live(pc))[t];
    assert Live(pc[t := x]) == Live(pc) - {t};
    assert multiset(Live(pc)) - multiset{t} == multiset(Live(pc) - {t});
    assert Runnable(rq) - multiset{t} == Queued(rq);
  }

  lemma ScheduledYield(rq: Sched, pc: map<Tid, Pc>)
    requires SchedOk(rq) && rq.current != IDLE && Scheduled(rq, pc, false)
    ensures Scheduled(Enqueued(rq, rq.current), pc, true)
  {
    EnqueuedBag(rq, rq.current);
    assert Queued(Enqueued(rq, rq.current)) == Runnable(rq);
  }

  lemma LiveSame(pc: map<Tid, Pc>, t: Tid, x: Pc)
    requires t in pc && CanRun(pc[t]) && CanRun(x)
    ensures Live(pc[t := x]) == Live(pc)
  {
  }

  // ----- the moves that all steps are made of -----

  lemma TagsKept(state: map<Tid, ThreadState>, pc: map<Tid, Pc>, from: Tid, to: Tid, first: bool, tick: bool)
    requires Tagged(state, pc) && to in pc && !Waits(pc[to])
    requires tick && from != IDLE ==> from in pc && !Waits(pc[from])
    ensures Tagged(Tags(state, from, to, first, tick), pc)
  {
  }

  lemma ResumeInv(s: Kernel, rq: Sched, tick: bool)
    requires PlaceInv(s, !tick) && SchedOk(rq) && rq.prio == s.rq.prio && Scheduled(rq, s.pc, false)
    ensures PlaceInv(Resume(s, rq, tick), false)
  {
    CurrentIsLive(rq, s.pc);
    if tick { CurrentIsLive(s.rq, s.pc); }
    TagsKept(s.state, s.pc, s.rq.current, rq.current, rq.current in s.unstarted, tick);
  }

  /** Election, by a tick or by a caller that has left for another place. */
  lemma ElectInv(s: Kernel, tick: bool)
    requires PlaceInv(s, !tick)
    ensures PlaceInv(Elect(s, tick), false)
  {
    ScheduledElect(s.rq, s.pc, tick);
    ResumeInv(s, Elected(s.rq, tick), tick);
  }

  lemma YieldInv(s: Kernel)
    requires PlaceInv(s, false) && s.rq.current != IDLE
    ensures PlaceInv(YieldNow(s), false)
  {
    CurrentIsLive(s.rq, s.pc);
    ScheduledYield(s.rq, s.pc);
    TaggedState(s.state, s.pc, s.rq.current, Ready);
    ElectInv(Enqueue(s, s.rq.current), false);
  }

  /** A step of the running thread within its own code. */
  lemma LocalInv(s: Kernel, x: Pc)
    requires PlaceInv(s, false) && s.rq.current != IDLE && CanRun(x)
    ensures PlaceInv(s.(pc := s.pc[s.rq.current := x]), false)
  {
    var t := s.rq.current;
    CurrentIsLive(s.rq, s.pc);
    LiveSame(s.pc, t, x);
    JoinedPc(s.joining, s.joinable, s.pc, t, x);
    MutexListPc(s.mutexQ, s.pc, s.priv, t, x, 0);
    CondListPc(s.condQ, s.pc, s.priv, t, x, 0);
  }

  lemma WaitMutexInv(s: Kernel, m: Addr)
    requires PlaceInv(s, false) && s.rq.current != IDLE
    ensures PlaceInv(WaitMutex(s, m), true)
  {
    var t := s.rq.current;
    CurrentIsLive(s.rq, s.pc);
    ScheduledPark(s.rq, s.pc, InLock(m));
    JoinedPc(s.joining, s.joinable, s.pc, t, InLock(m));
    MutexListAdd(s.mutexQ, s.pc, s.priv, t, m);
    CondListPc(s.condQ, s.pc, s.priv, t, InLock(m), m);
    TaggedChange(s.state, s.pc, t, InLock(m), Blocked);
  }

  lemma WaitCondInv(s: Kernel, c: Addr, m: Addr)
    requires PlaceInv(s, false) && s.rq.current != IDLE
    ensures PlaceInv(WaitCond(s, c, m), true)
  {
    var t := s.rq.current;
    CurrentIsLive(s.rq, s.pc);
    ScheduledPark(s.rq, s.pc, InCond(c, m));
    JoinedPc(s.joining, s.joinable, s.pc, t, InCond(c, m));
    MutexListPc(s.mutexQ, s.pc, s.priv, t, InCond(c, m), c);
    CondListAdd(s.condQ, s.pc, s.priv, t, c, m);
    TaggedChange(s.state, s.pc, t, InCond(c, m), Blocked);
  }

  lemma WakeMutexInv(s: Kernel, w: Tid, m: Addr, left: bool)
    requires PlaceInv(s, left) && w in s.mutexQ
    ensures PlaceInv(WakeMutex(s, w, m), left)
  {
    ScheduledWake(s.rq, s.pc, w, User, left);
    JoinedPc(s.joining, s.joinable, s.pc, w, User);
    MutexListRemove(s.mutexQ, s.pc, s.priv, w, User);
    CondListPc(s.condQ, s.pc, s.priv, w, User, 0);
    TaggedChange(s.state, s.pc, w, User, Ready);
  }

  lemma WakeCondInv(s: Kernel, o: Tid, m: Addr)
    requires PlaceInv(s, false) && o in s.condQ
    ensures PlaceInv(WakeCond(s, o, m), false)
  {
    ScheduledWake(s.rq, s.pc, o, Relock(m), false);
    JoinedPc(s.joining, s.joinable, s.pc, o, Relock(m));
    MutexListPc(s.mutexQ, s.pc, s.priv, o, Relock(m), 0);
    CondListRemove(s.condQ, s.pc, s.priv, o, Relock(m));
    TaggedChange(s.state, s.pc, o, Relock(m), Ready);
  }

  /** None of the places depends on the mutex words or on the monitor. */
  lemma WordsInv(s: Kernel, s': Kernel, left: bool)
    requires PlaceInv(s, left)
    requires s' == s.(val := s'.val, held := s'.held, monitor := s'.monitor)
    ensures PlaceInv(s', left)
  {
  }

  lemma JoinInv(s: Kernel, u: Tid)
    requires PlaceInv(s, false) && s.rq.current != IDLE
    ensures PlaceInv(SysJoin(s, u), false)
  {
    if !s.Thread(u) || u in s.joinable || u in s.joining {
      WordsInv(s, SysJoin(s, u), false);
    } else {
      var t := s.rq.current;
      CurrentIsLive(s.rq, s.pc);
      ScheduledPark(s.rq, s.pc, InJoin(u));
      JoinedBlock(s.joining, s.joinable, s.pc, t, u);
      MutexListPc(s.mutexQ, s.pc, s.priv, t, InJoin(u), 0);
      CondListPc(s.condQ, s.pc, s.priv, t, InJoin(u), 0);
      ElectInv(s.(joining := s.joining[u := t], pc := s.pc[t := InJoin(u)]), false);
    }
  }

  lemma ExitUnjoined(s: Kernel)
    requires PlaceInv(s, false) && s.rq.current != IDLE && s.rq.current !in s.joining
    ensures PlaceInv(s.(pc := s.pc[s.rq.current := Dead], joinable := s.joinable + {s.rq.current}), true)
  {
    var t := s.rq.current;
    CurrentIsLive(s.rq, s.pc);
    ScheduledPark(s.rq, s.pc, Dead);
    JoinedExit(s.joining, s.joinable, s.pc, t);
    MutexListPc(s.mutexQ, s.pc, s.priv, t, Dead, 0);
    CondListPc(s.condQ, s.pc, s.priv, t, Dead, 0);
  }

  lemma ExitJoinedParts(s: Kernel, t: Tid, j: Tid)
    requires PlaceInv(s, false) && t == s.rq.current != IDLE && t in s.joining && j == s.joining[t]
    ensures s.Thread(j) && j != t
    ensures var pc := s.pc[t := Dead][j := User];
            && Scheduled(Enqueued(s.rq, j), pc, true)
            && MutexList(s.mutexQ, pc, s.priv) && CondList(s.condQ, pc, s.priv)
            && Tagged(s.state[j := Ready], pc) && Joined(s.joining, s.joinable, pc)
  {
    var pc := s.pc[t := Dead];
    CurrentIsLive(s.rq, s.pc);
    ScheduledPark(s.rq, s.pc, Dead);
    JoinedExit(s.joining, s.joinable, s.pc, t);
    MutexListPc(s.mutexQ, s.pc, s.priv, t, Dead, 0);
    CondListPc(s.condQ, s.pc, s.priv, t, Dead, 0);
    ScheduledWake(s.rq, pc, j, User, true);
    MutexListPc(s.mutexQ, pc, s.priv, j, User, 0);
    CondListPc(s.condQ, pc, s.priv, j, User, 0);
    TaggedChange(s.state, pc, j, User, Ready);
  }

  lemma ExitJoined(s: Kernel, j: Tid)
    requires PlaceInv(s, false) && s.rq.current != IDLE && s.rq.current in s.joining && j == s.joining[s.rq.current]
    ensures PlaceInv(Enqueue(s.(pc := s.pc[s.rq.current := Dead][j := User]), j), true)
  {
    ExitJoinedParts(s, s.rq.current, j);
  }

  lemma ExitInv(s: Kernel)
    requires PlaceInv(s, false) && s.rq.current != IDLE
    ensures PlaceInv(SysExit(s), false)
  {
    var t := s.rq.current;
    if t in s.joining {
      var j := s.joining[t];
      ExitJoined(s, j);
      ElectInv(Enqueue(s.(pc := s.pc[t := Dead][j := User]), j), false);
    } else {
      ExitUnjoined(s);
      ElectInv(s.(pc := s.pc[t := Dead], joinable := s.joinable + {t}), false);
    }
  }

  lemma LiveNew(bag: multiset<Tid>, bag': multiset<Tid>, pc: map<Tid, Pc>, t: Tid)
    requires bag == multiset(Live(pc)) && bag' == bag + multiset{t} && t !in pc && t != IDLE
    ensures bag' == multiset(Live(pc[t := User]))
  {
    assert Live(pc[t := User]) == Live(pc) + {t};
  }

  lemma ListsNew(s: Kernel, t: Tid)
    requires PlaceInv(s, false) && t !in s.pc
    ensures MutexList(s.mutexQ, s.pc[t := User], s.priv[t := 0])
    ensures CondList(s.condQ, s.pc[t := User], s.priv[t := 0])
    ensures t !in s.joining && t !in s.mutexQ
  {
    assert HasJoiner(t, s.joining, s.pc);
  }

  lemma ScheduledNew(rq: Sched, rq': Sched, pc: map<Tid, Pc>, t: Tid, p: int)
    requires SchedOk(rq) && Scheduled(rq, pc, false) && rq' == rq.(prio := rq.prio[t := p])
    requires t != IDLE && t !in rq.prio && t !in pc && 0 <= p < PRIORITIES
    ensures SchedOk(rq') && Scheduled(Enqueued(rq', t), pc[t := User], false)
  {
    RunnableEnqueued(rq', t);
    LiveNew(Runnable(rq'), Runnable(Enqueued(rq', t)), pc, t);
  }

  lemma CreateParts(s: Kernel, rq: Sched, t: Tid, p: int)
    requires PlaceInv(s, false) && t != IDLE && !s.Thread(t) && 0 <= p < PRIORITIES
    requires rq == s.rq.(prio := s.rq.prio[t := p])
    ensures SchedOk(rq) && Scheduled(Enqueued(rq, t), s.pc[t := User], false)
    ensures MutexList(s.mutexQ, s.pc[t := User], s.priv[t := 0]) && CondList(s.condQ, s.pc[t := User], s.priv[t := 0])
    ensures Tagged(s.state[t := New][t := Ready], s.pc[t := User]) && Joined(s.joining, s.joinable, s.pc[t := User])
  {
    ListsNew(s, t);
    JoinedNew(s.joining, s.joinable, s.pc, t);
    ScheduledNew(s.rq, rq, s.pc, t, p);
    TaggedNew(s.state, s.pc, t);
  }

  lemma TaggedNew(state: map<Tid, ThreadState>, pc: map<Tid, Pc>, t: Tid)
    requires Tagged(state, pc)
    ensures Tagged(state[t := New][t := Ready], pc[t := User])
  {
  }

  lemma CreateInv(s: Kernel, t: Tid, p: int)
    requires PlaceInv(s, false) && t != IDLE && !s.Thread(t) && 0 <= p < PRIORITIES
    ensures PlaceInv(SysCreate(s, t, p), false)
  {
    CreateParts(s, s.rq.(prio := s.rq.prio[t := p]), t, p);
  }
}
