/** In a run of ticks, every ready thread gets its turn (kernel/sched/bitmap.c:76-112). */
module Fairness {
  import opened Sequences
  import opened RunQueue
  import opened Arrival
  import opened Machine
  import opened Placement

  ghost predicate TickAt(rs: seq<Sched>, i: nat)
    requires i + 1 < |rs|
  {
    SchedOk(rs[i]) && rs[i + 1] == Elected(rs[i], true)
  }

  /** The scheduler through a run of ticks. */
  ghost predicate IsTickRun(rs: seq<Sched>) {
    && |rs| > 0 && SchedOk(rs[0])
    && forall i: nat :: i + 1 < |rs| ==> TickAt(rs, i)
  }

  lemma OneTickConserves(r: Sched, r': Sched)
    requires SchedOk(r) && r' == Elected(r, true)
    ensures Runnable(r') == Runnable(r)
  {
    ElectedBag(r, true);
  }

  /** Ticks neither lose nor duplicate a thread. */
  lemma {:induction false} TicksConserve(rs: seq<Sched>, i: nat)
    requires IsTickRun(rs) && i < |rs|
    ensures Runnable(rs[i]) == Runnable(rs[0])
  {
    if i > 0 {
      var j := i - 1;
      TicksConserve(rs, j);
      assert TickAt(rs, j);
      OneTickConserves(rs[j], rs[j + 1]);
    }
  }

  /** Idle is elected exactly when both sets of queues are empty. */
  lemma IdleOnlyWhenEmpty(r: Sched, tick: bool)
    requires SchedOk(r)
    ensures Elected(r, tick).current == IDLE <==> Flat(r.active) == [] && Flat(r.expire) == []
  {
    HeadIdle(r.active, r.prio);
    HeadIdle(r.expire, r.prio);
  }

  /** A tick with threads in the active queues elects the first of them. */
  lemma TickInRound(r: Sched, r': Sched)
    requires SchedOk(r) && Flat(r.active) != [] && r' == Elected(r, true)
    ensures && r'.current == Flat(r.active)[0]
            && Flat(r'.active) == Flat(r.active)[1..]
            && (forall t :: t in Flat(r.expire) ==> t in Flat(r'.expire))
  {
    var k := ElectionOrder(r, true);
    if r.current != IDLE {
      forall t | t in Flat(r.expire)
        ensures t in Flat(r'.expire)
      {
        ArrivalIsBehind(Flat(r.expire), Flat(r'.expire), r.current, r.prio, k, t);
      }
    }
  }

  /** A tick with no active thread swaps the queues and elects the first expired one. */
  lemma TickAtSwap(r: Sched, r': Sched)
    requires SchedOk(r) && Flat(r.active) == [] && Flat(r.expire) != [] && r' == Elected(r, true)
    ensures && r'.current == Flat(r.expire)[0]
            && Flat(r'.active) == Flat(r.expire)[1..]
  {
    var _ := ElectionOrder(r, true);
  }

  /** One round: the threads active at moment `i` are elected one after the other,
      by priority and then first come, first served, and none twice. */
  lemma {:induction false} Round(rs: seq<Sched>, i: nat, j: nat)
    requires IsTickRun(rs) && i + j < |rs| && j <= |Flat(rs[i].active)|
    ensures Flat(rs[i + j].active) == Flat(rs[i].active)[j..]
    ensures j > 0 ==> rs[i + j].current == Flat(rs[i].active)[j - 1]
    ensures forall t :: t in Flat(rs[i].expire) ==> t in Flat(rs[i + j].expire)
  {
    if j > 0 {
      var k := i + j - 1;
      Round(rs, i, j - 1);
      assert TickAt(rs, k);
      TickInRound(rs[k], rs[k + 1]);
    }
  }

  /**
   From swap to swap: when the active queues are empty and a tick swaps them, the
   threads that had expired are elected by this and the following ticks, in priority
   and then arrival order, each of them exactly once.
   */
  lemma OncePerRound(rs: seq<Sched>, i: nat, e: seq<Tid>, j: nat, j': nat)
    requires IsTickRun(rs) && i < |rs| && e == Flat(rs[i].expire) && Flat(rs[i].active) == []
    requires i + |e| < |rs| && 1 <= j < j' <= |e|
    requires forall t :: Runnable(rs[0])[t] <= 1
    ensures rs[i + j].current == e[j - 1] && Flat(rs[i + j].active) == e[j..]
    ensures rs[i + j'].current == e[j' - 1] && Flat(rs[i + j'].active) == e[j'..]
    ensures rs[i + j].current != rs[i + j'].current
  {
    ExpiredInTurn(rs, i, e, j);
    ExpiredInTurn(rs, i, e, j');
    TicksConserve(rs, i);
    ExpiredDistinct(rs[i], e, j - 1, j' - 1);
  }

  /** With nothing active, the expired threads are elected one after the other. */
  lemma ExpiredInTurn(rs: seq<Sched>, i: nat, e: seq<Tid>, j: nat)
    requires IsTickRun(rs) && i < |rs| && e == Flat(rs[i].expire) && Flat(rs[i].active) == []
    requires i + |e| < |rs| && 1 <= j <= |e|
    ensures rs[i + j].current == e[j - 1] && Flat(rs[i + j].active) == e[j..]
  {
    var a := e[1..];
    SwapAt(rs, i);
    RoundTo(rs, i + 1, j - 1, i + j, a);
    Tails(e, a, j);
  }

  lemma Tails(e: seq<Tid>, a: seq<Tid>, j: nat)
    requires 1 <= j <= |e| && a == e[1..]
    ensures a[j - 1..] == e[j..] && (j > 1 ==> a[j - 2] == e[j - 1])
  {
  }

  lemma RoundTo(rs: seq<Sched>, i: nat, j: nat, n: nat, a: seq<Tid>)
    requires IsTickRun(rs) && n == i + j && n < |rs| && a == Flat(rs[i].active) && j <= |a|
    ensures Flat(rs[n].active) == a[j..] && (j > 0 ==> rs[n].current == a[j - 1])
  {
    Round(rs, i, j);
  }

  lemma ExpiredDistinct(r: Sched, e: seq<Tid>, p: nat, p': nat)
    requires e == Flat(r.expire) && p < p' < |e| && Runnable(r)[e[p]] <= 1
    ensures e[p] != e[p']
  {
    assert multiset(e)[e[p]] <= Runnable(r)[e[p]];
    if e[p] == e[p'] { TwoPlaces(e, p, p'); }
  }

  // ----- first come, first served -----

  /** `a` is somewhere before `b`. */
  ghost predicate Before(q: seq<Tid>, a: Tid, b: Tid) {
    exists x, y :: 0 <= x < y < |q| && q[x] == a && q[y] == b
  }

  lemma ArrivalKeepsOrder(was: seq<Tid>, now: seq<Tid>, t: Tid, prio: map<Tid, int>, k: int, a: Tid, b: Tid)
    requires ArrivesAt(was, now, t, prio, k) && Before(was, a, b)
    ensures Before(now, a, b)
  {
    var x, y :| 0 <= x < y < |was| && was[x] == a && was[y] == b;
    var x', y' := if x < k then x else x + 1, if y < k then y else y + 1;
    assert now[x'] == a && now[y'] == b;
  }

  lemma ArrivalIsBehind(was: seq<Tid>, now: seq<Tid>, t: Tid, prio: map<Tid, int>, k: int, a: Tid)
    requires ArrivesAt(was, now, t, prio, k) && a in was
    ensures a in now && (a in prio && prio[a] == prio[t] ==> Before(now, a, t))
  {
    var x :| 0 <= x < |was| && was[x] == a;
    var x' := if x < k then x else x + 1;
    assert now[x'] == a && now[k] == t;
  }

  /** The thread preempted by tick `i` is among the expired until the next swap. */
  lemma {:induction false} ExpiredStays(rs: seq<Sched>, i: nat, n: nat)
    requires IsTickRun(rs) && i < n < |rs| && rs[i].current != IDLE
    requires forall m :: i < m < n ==> Flat(rs[m].active) != []
    ensures rs[i].current in Flat(rs[n].expire)
  {
    var j := n - 1;
    assert TickAt(rs, j);
    if j > i { ExpiredStays(rs, i, j); }
    ExpiredStep(rs[j], rs[j + 1], rs[i].current);
  }

  lemma ExpiredStep(r: Sched, r': Sched, a: Tid)
    requires SchedOk(r) && r' == Elected(r, true) && a != IDLE
    requires a == r.current || (Flat(r.active) != [] && a in Flat(r.expire))
    ensures a in Flat(r'.expire)
  {
    var k := ElectionOrder(r, true);
    if r.current != a && r.current != IDLE {
      ArrivalIsBehind(Flat(r.expire), Flat(r'.expire), r.current, r.prio, k, a);
    }
  }

  /** The order of two expired threads stays until the next swap. */
  lemma {:induction false} OrderStays(rs: seq<Sched>, j: nat, n: nat, a: Tid, b: Tid)
    requires IsTickRun(rs) && j <= n < |rs| && Before(Flat(rs[j].expire), a, b)
    requires forall m :: j <= m < n ==> Flat(rs[m].active) != []
    ensures Before(Flat(rs[n].expire), a, b)
  {
    if j < n {
      var m := n - 1;
      OrderStays(rs, j, m, a, b);
      assert TickAt(rs, m);
      OrderStep(rs[m], rs[m + 1], a, b);
    }
  }

  lemma OrderStep(r: Sched, r': Sched, a: Tid, b: Tid)
    requires SchedOk(r) && r' == Elected(r, true) && Flat(r.active) != [] && Before(Flat(r.expire), a, b)
    ensures Before(Flat(r'.expire), a, b)
  {
    var k := ElectionOrder(r, true);
    if r.current != IDLE {
      ArrivalKeepsOrder(Flat(r.expire), Flat(r'.expire), r.current, r.prio, k, a, b);
    }
  }

  lemma {:induction false} SamePriorities(rs: seq<Sched>, i: nat)
    requires IsTickRun(rs) && i < |rs|
    ensures rs[i].prio == rs[0].prio
  {
    if i > 0 {
      var j := i - 1;
      SamePriorities(rs, j);
      assert TickAt(rs, j);
    }
  }

  lemma ExpireInOrder(rs: seq<Sched>, i: nat, j: nat)
    requires IsTickRun(rs) && i < j && j + 1 < |rs| && rs[i].current != IDLE && rs[j].current != IDLE
    requires forall m :: i < m <= j ==> Flat(rs[m].active) != []
    requires rs[i].current in rs[0].prio && rs[j].current in rs[0].prio
    requires rs[0].prio[rs[i].current] == rs[0].prio[rs[j].current]
    ensures Before(Flat(rs[j + 1].expire), rs[i].current, rs[j].current)
  {
    ExpiredStays(rs, i, j);
    SamePriorities(rs, j);
    assert TickAt(rs, j);
    var k := ElectionOrder(rs[j], true);
    ArrivalIsBehind(Flat(rs[j].expire), Flat(rs[j + 1].expire), rs[j].current, rs[j].prio, k, rs[i].current);
  }

  /**
   First come, first served: of two threads of one priority that ticks `i` and `j` of one
   round preempt, the first is elected before the second in the next round, which the
   swap at tick `n` begins.
   */
  lemma FirstExpiredFirstElected(rs: seq<Sched>, i: nat, j: nat, n: nat) returns (x: nat, y: nat)
    requires IsTickRun(rs) && i < j < n < |rs| && rs[i].current != IDLE && rs[j].current != IDLE
    requires forall m :: i < m < n ==> Flat(rs[m].active) != []
    requires Flat(rs[n].active) == [] && n + |Flat(rs[n].expire)| < |rs|
    requires rs[i].current in rs[0].prio && rs[j].current in rs[0].prio
    requires rs[0].prio[rs[i].current] == rs[0].prio[rs[j].current]
    ensures n < x < y <= n + |Flat(rs[n].expire)|
    ensures rs[x].current == rs[i].current && rs[y].current == rs[j].current
  {
    var e, a, b := Flat(rs[n].expire), rs[i].current, rs[j].current;
    ExpireInOrder(rs, i, j);
    OrderStays(rs, j + 1, n, a, b);
    var p, q :| 0 <= p < q < |e| && e[p] == a && e[q] == b;
    ExpiredInTurn(rs, n, e, p + 1);
    ExpiredInTurn(rs, n, e, q + 1);
    x, y := n + p + 1, n + q + 1;
    assert n + (p + 1) == x && n + (q + 1) == y;
  }

  lemma BagBound(r: Sched)
    ensures |Flat(r.active)| + |Flat(r.expire)| <= |Runnable(r)|
  {
  }

  lemma SwapAt(rs: seq<Sched>, i: nat)
    requires IsTickRun(rs) && i + 1 < |rs| && Flat(rs[i].active) == [] && Flat(rs[i].expire) != []
    ensures rs[i + 1].current == Flat(rs[i].expire)[0] && Flat(rs[i + 1].active) == Flat(rs[i].expire)[1..]
  {
    assert TickAt(rs, i);
    TickAtSwap(rs[i], rs[i + 1]);
  }

  /** With nothing active, an expired thread is elected within one round. */
  lemma ElectedAfterSwap(rs: seq<Sched>, i: nat, t: Tid) returns (k: nat)
    requires IsTickRun(rs) && i + |Runnable(rs[0])| < |rs|
    requires Flat(rs[i].active) == [] && t in Flat(rs[i].expire)
    ensures 1 <= k <= |Runnable(rs[0])| && rs[i + k].current == t
  {
    TicksConserve(rs, i);
    BagBound(rs[i]);
    SwapAt(rs, i);
    k := ElectedInRound(rs, i, Flat(rs[i].expire), t);
  }

  lemma ElectedInRound(rs: seq<Sched>, i: nat, e: seq<Tid>, t: Tid) returns (k: nat)
    requires IsTickRun(rs) && i + |e| < |rs| && t in e
    requires rs[i + 1].current == e[0] && Flat(rs[i + 1].active) == e[1..]
    ensures 1 <= k <= |e| && rs[i + k].current == t
  {
    var p :| 0 <= p < |e| && e[p] == t;
    Round(rs, i + 1, p);
    k := p + 1;
    assert i + 1 + p == i + k;
  }

  /** Every queued thread is elected within twice as many ticks as there are
      threads that can run. */
  lemma ElectedWithin(rs: seq<Sched>, t: Tid) returns (j: nat)
    requires IsTickRun(rs) && t in Queued(rs[0]) && 2 * |Runnable(rs[0])| < |rs|
    ensures 1 <= j <= 2 * |Runnable(rs[0])| && rs[j].current == t
  {
    BagBound(rs[0]);
    if t in Flat(rs[0].active) {
      j := ElectedFromActive(rs, t);
    } else {
      assert t in Flat(rs[0].expire);
      j := ElectedFromExpired(rs, t);
    }
  }

  lemma ElectedFromActive(rs: seq<Sched>, t: Tid) returns (j: nat)
    requires IsTickRun(rs) && t in Flat(rs[0].active) && |Flat(rs[0].active)| < |rs|
    ensures 1 <= j <= |Flat(rs[0].active)| && rs[j].current == t
  {
    var a := Flat(rs[0].active);
    var p :| 0 <= p < |a| && a[p] == t;
    Round(rs, 0, p + 1);
    j := p + 1;
  }

  lemma ElectedFromExpired(rs: seq<Sched>, t: Tid) returns (j: nat)
    requires IsTickRun(rs) && t in Flat(rs[0].expire)
    requires |Flat(rs[0].active)| + |Runnable(rs[0])| < |rs|
    ensures 1 <= j <= |Flat(rs[0].active)| + |Runnable(rs[0])| && rs[j].current == t
  {
    var n := |Flat(rs[0].active)|;
    ActiveRunOut(rs, n, t);
    var k := ElectedAfterSwap(rs, n, t);
    j := n + k;
  }

  lemma ActiveRunOut(rs: seq<Sched>, n: nat, t: Tid)
    requires IsTickRun(rs) && n == |Flat(rs[0].active)| < |rs| && t in Flat(rs[0].expire)
    ensures Flat(rs[n].active) == [] && t in Flat(rs[n].expire)
  {
    Round(rs, 0, n);
    assert rs[0 + n] == rs[n];
  }

  /** The scheduler's view of a run of the machine in which only ticks happen. */
  ghost function Schedulers(run: Run): (rs: seq<Sched>)
    ensures |rs| == |run.states|
  {
    seq(|run.states|, i requires 0 <= i < |run.states| => run.states[i].rq)
  }

  lemma TickMove(s: Kernel, s': Kernel)
    requires Moves(s, Tick, s')
    ensures SchedOk(s.rq) && s'.rq == Elected(s.rq, true)
  {
  }

  lemma OnlyTicks(run: Run)
    requires IsRun(run) && Wf(run.states[0]) && forall i :: 0 <= i < |run.steps| ==> run.steps[i] == Tick
    ensures IsTickRun(Schedulers(run))
  {
    var rs := Schedulers(run);
    forall i: nat | i + 1 < |rs|
      ensures TickAt(rs, i)
    {
      assert MovesAt(run, i);
      TickMove(run.states[i], run.states[i + 1]);
    }
  }

  /** In a run of ticks, a thread that can run does so within twice as many ticks
      as there are such threads. */
  lemma EveryReadyThreadRuns(run: Run, t: Tid) returns (j: nat)
    requires IsRun(run) && PlaceInv(run.states[0], false)
    requires forall i :: 0 <= i < |run.steps| ==> run.steps[i] == Tick
    requires t in Live(run.states[0].pc) && t != run.states[0].rq.current
    requires 2 * |Live(run.states[0].pc)| <= |run.steps|
    ensures 1 <= j <= 2 * |Live(run.states[0].pc)| && run.states[j].rq.current == t
  {
    var rq := run.states[0].rq;
    OnlyTicks(run);
    assert Runnable(rq)[t] == multiset(Live(run.states[0].pc))[t] == 1;
    j := ElectedWithin(Schedulers(run), t);
  }
}
