/** Who runs after a yield, an unlock, a signal and a creation. */
module Elections {
  import opened Options
  import opened RunQueue
  import opened Arrival
  import opened Machine
  import opened Placement
  import opened MutexProtocol
  import opened Protocol
  import opened Guarantees

  /** The more urgent of the first of `a` and of `t`, which comes later. */
  function Choice(a: seq<Tid>, t: Tid, prio: map<Tid, int>): Tid {
    if a != [] && a[0] in prio && t in prio && prio[a[0]] <= prio[t] then a[0] else t
  }

  lemma ArrivalHead(was: seq<Tid>, now: seq<Tid>, t: Tid, prio: map<Tid, int>, k: int)
    requires ArrivesAt(was, now, t, prio, k)
    ensures now[0] == Choice(was, t, prio) && (k > 0 <==> was != [] && prio[was[0]] <= prio[t])
  {
    if k > 0 { assert now[0] == was[0]; }
  }

  /**
   The running thread `t` goes back to the queues and elects: the first active thread runs
   if it is as urgent, and `t` waits behind all that are; or else `t` goes on.
   */
  lemma YieldOrder(r: Sched, t: Tid) returns (k: int)
    requires SchedOk(r) && t in r.prio && t != IDLE
    ensures var r', a := Elected(Enqueued(r, t), false), Flat(r.active);
            && r'.current == Choice(a, t, r.prio) && Flat(r'.expire) == Flat(r.expire)
            && (if a != [] && a[0] in r.prio && r.prio[a[0]] <= r.prio[t]
                then ArrivesAt(a[1..], Flat(r'.active), t, r.prio, k) else Flat(r'.active) == a)
  {
    var r1 := Enqueued(r, t);
    var k1 := EnqueuedArrives(r, t);
    var _ := ElectionOrder(r1, false);
    FirstOfArrival(Flat(r.active), Flat(r1.active), t, r.prio, k1);
    k := k1 - 1;
  }

  lemma FirstOfArrival(was: seq<Tid>, now: seq<Tid>, t: Tid, prio: map<Tid, int>, k: int)
    requires ArrivesAt(was, now, t, prio, k)
    ensures now != [] && now[0] == Choice(was, t, prio)
    ensures if was != [] && was[0] in prio && prio[was[0]] <= prio[t]
            then ArrivesAt(was[1..], now[1..], t, prio, k - 1) else now[1..] == was
  {
    ArrivalHead(was, now, t, prio, k);
    if k > 0 {
      ArrivalRest(was, now, t, prio, k);
    } else {
      assert now == [t] + was;
    }
  }

  lemma ArrivalRest(was: seq<Tid>, now: seq<Tid>, t: Tid, prio: map<Tid, int>, k: int)
    requires ArrivesAt(was, now, t, prio, k) && k > 0
    ensures ArrivesAt(was[1..], now[1..], t, prio, k - 1)
  {
    assert now[1..] == was[1..][..k - 1] + [t] + was[1..][k - 1..];
  }

  /** A yield gives way to the first active thread exactly if that is as urgent as the caller. */
  lemma YieldOutcome(s: Kernel) returns (k: int)
    requires PlaceInv(s, false) && Enabled(s, Yield)
    ensures var t, a, s' := s.rq.current, Flat(s.rq.active), Next(s, Yield);
            if a != [] && a[0] in s.rq.prio && s.rq.prio[a[0]] <= s.rq.prio[t]
            then s'.rq.current == a[0] != t && ArrivesAt(a[1..], Flat(s'.rq.active), t, s.rq.prio, k)
            else s'.rq.current == t && Flat(s'.rq.active) == a
  {
    k := YieldOrder(s.rq, s.rq.current);
    CurrentNotActive(s);
  }

  lemma CurrentNotActive(s: Kernel)
    requires PlaceInv(s, false) && s.rq.current != IDLE
    ensures s.rq.current !in Flat(s.rq.active)
  {
    assert Runnable(s.rq)[s.rq.current] == multiset(Live(s.pc))[s.rq.current] <= 1;
    assert s.rq.current !in multiset(Flat(s.rq.active));
  }

  /** After `w` was made ready and `t` yielded, the most urgent runs: the first active
      thread before `w`, and either before `t`, when they are equally urgent. */
  lemma WakeOrder(r: Sched, w: Tid, t: Tid)
    requires SchedOk(r) && t in r.prio && t != IDLE && w in r.prio && w != IDLE
    ensures Elected(Enqueued(Enqueued(r, w), t), false).current ==
            Choice([Choice(Flat(r.active), w, r.prio)], t, r.prio)
  {
    var r1 := Enqueued(r, w);
    var k1 := EnqueuedArrives(r, w);
    ArrivalHead(Flat(r.active), Flat(r1.active), w, r.prio, k1);
    var _ := YieldOrder(r1, t);
  }

  /** Who runs after an unlock. */
  lemma UnlockElects(s: Kernel, m: Addr) returns (k: int)
    requires PlaceInv(s, false) && Unlocking(s, m)
    ensures WokenOutcome(s.rq, SysUnlock(s, m).rq, Waiters(s, m), k)
  {
    var ws, r' := Waiters(s, m), SysUnlock(s, m).rq;
    UnlockQueues(s, m);
    k := Woken(s.rq, r', ws);
  }

  /**
   The running thread of `r` has made the first of `ws` ready, if there is one.  It goes on
   if there is none or if that one's priority number is smaller than its own; otherwise it
   has yielded.
   */
  ghost predicate WokenOutcome(r: Sched, r': Sched, ws: seq<Tid>, k: int) {
    if ws == [] then r' == r
    else
      && ws[0] in r.prio && r.current in r.prio
      && (if r.prio[r.current] > r.prio[ws[0]]
          then r'.current == r.current && ArrivesAt(Flat(r.active), Flat(r'.active), ws[0], r.prio, k)
          else r'.current == Choice([Choice(Flat(r.active), ws[0], r.prio)], r.current, r.prio))
  }

  /** The scheduler after `w` was woken by the running thread `t`. */
  ghost function AfterWaking(r: Sched, w: Tid): Sched
    requires SchedOk(r) && r.current != IDLE && w in r.prio && w != IDLE
  {
    if r.prio[r.current] <= r.prio[w] then Elected(Enqueued(Enqueued(r, w), r.current), false) else Enqueued(r, w)
  }

  lemma Woken(r: Sched, r': Sched, ws: seq<Tid>) returns (k: int)
    requires SchedOk(r) && r.current != IDLE && (ws != [] ==> ws[0] in r.prio && ws[0] != IDLE)
    requires r' == if ws == [] then r else AfterWaking(r, ws[0])
    ensures WokenOutcome(r, r', ws, k)
  {
    k := 0;
    if ws != [] {
      k := EnqueuedArrives(r, ws[0]);
      WakeOrder(r, ws[0], r.current);
    }
  }

  lemma EndUnlockQueues(s: Kernel, waiter: Option<Tid>)
    requires Wf(s) && s.rq.current != IDLE && (waiter.Some? ==> s.Thread(waiter.value))
    requires s.state[s.rq.current] != Blocked
    ensures EndUnlock(s, waiter).rq ==
            if waiter.Some? && s.rq.prio[s.rq.current] <= s.rq.prio[waiter.value]
            then Elected(Enqueued(s.rq, s.rq.current), false) else s.rq
  {
  }

  lemma ReleaseQueues(s: Kernel, m: Addr, waiter: Option<Tid>)
    requires Wf(s) && m in s.val && (waiter.Some? ==> s.Thread(waiter.value)) && s.state[s.rq.current] != Blocked
    ensures var s1 := Release(s, m, waiter);
            && s1.rq == (if waiter.Some? then Enqueued(s.rq, waiter.value) else s.rq)
            && s1.state[s.rq.current] != Blocked
  {
  }

  lemma UnlockQueues(s: Kernel, m: Addr)
    requires PlaceInv(s, false) && Unlocking(s, m)
    ensures var ws := Waiters(s, m);
            && (ws != [] ==> ws[0] in s.rq.prio && ws[0] != IDLE)
            && SysUnlock(s, m).rq == if ws == [] then s.rq else AfterWaking(s.rq, ws[0])
  {
    var ws := Waiters(s, m);
    var waiter := if ws == [] then None else Some(ws[0]);
    CurrentNotWaiting(s);
    ReleaseSync(s, m);
    if ws != [] { WaitersMember(s.mutexQ, s.priv, m, ws[0]); }
    ReleaseQueues(s, m, waiter);
    EndUnlockQueues(Release(s, m, waiter), waiter);
  }

  lemma SignalQueues(s: Kernel, c: Addr)
    requires PlaceInv(s, false) && s.rq.current != IDLE
    ensures var ws := CondWaiters(s, c);
            && (ws != [] ==> ws[0] in s.rq.prio && ws[0] != IDLE)
            && SysSignal(s, c).rq == if ws == [] then s.rq else AfterWaking(s.rq, ws[0])
  {
    FirstIsFirstWaiter(s.condQ, s.priv, c);
    if CondWaiters(s, c) != [] { FirstCondWaiter(s, c); }
  }

  /** Who runs after a signal, likewise. */
  lemma SignalElects(s: Kernel, c: Addr) returns (k: int)
    requires PlaceInv(s, false) && s.rq.current != IDLE
    ensures WokenOutcome(s.rq, SysSignal(s, c).rq, CondWaiters(s, c), k)
  {
    var ws, r' := CondWaiters(s, c), SysSignal(s, c).rq;
    SignalQueues(s, c);
    k := Woken(s.rq, r', ws);
  }

  /** A new thread has the priority asked for and arrives by it; nobody else is affected. */
  lemma CreateArrives(s: Kernel, u: Tid, p: int) returns (k: int)
    requires Wf(s) && Enabled(s, Create(u, p))
    ensures var s' := Next(s, Create(u, p));
            && s'.rq.prio == s.rq.prio[u := p] && s'.rq.current == s.rq.current && s'.pc == s.pc[u := User]
            && ArrivesAt(Flat(s.rq.active), Flat(s'.rq.active), u, s'.rq.prio, k)
            && Flat(s'.rq.expire) == Flat(s.rq.expire)
  {
    k := EnqueuedArrives(s.rq.(prio := s.rq.prio[u := p]), u);
  }
}
