/**
 The priority run queues of kernel/sched/bitmap.c as values: 32 FIFO queues of
 threads, 0 being the highest priority.
 */
module RunQueue {

  /** A thread; the idle thread is the first one created (kernel/main.c:139-142). */
  type Tid = int

  const IDLE: Tid := 0
  const PRIORITIES: nat := 32

  type Queues = seq<seq<Tid>>

  /** All threads of the queues, in the order in which they will be elected. */
  function Flat(q: Queues): seq<Tid> {
    if q == [] then [] else q[0] + Flat(q[1..])
  }

  /** The thread `find_next_thread` selects: the first of the first non-empty queue. */
  function Head(q: Queues): Tid {
    if q == [] then IDLE
    else if q[0] != [] then q[0][0]
    else Head(q[1..])
  }

  /** The queues without that thread. */
  function Pop(q: Queues): (r: Queues)
    ensures |r| == |q|
  {
    if q == [] then []
    else if q[0] != [] then [q[0][1..]] + q[1..]
    else [q[0]] + Pop(q[1..])
  }

  /** `bitmap_enqueue`: append to the queue of priority `p`. */
  function Push(q: Queues, p: int, t: Tid): (r: Queues)
    requires 0 <= p < |q|
    ensures |r| == |q|
  {
    q[p := q[p] + [t]]
  }

  predicate AllEmpty(q: Queues) {
    forall i :: 0 <= i < |q| ==> q[i] == []
  }

  /** Threads other than idle, each in the queue of its own priority. */
  predicate Sorted(q: Queues, prio: map<Tid, int>) {
    && |q| == PRIORITIES
    && forall i: int, t: Tid {:trigger t in q[i]} :: 0 <= i < |q| && t in q[i] ==>
         t != IDLE && t in prio && prio[t] == i
  }

  lemma {:induction false} FlatEmpty(q: Queues)
    ensures Flat(q) == [] <==> AllEmpty(q)
  {
    if q != [] { FlatEmpty(q[1..]); }
  }

  /** Election takes the first thread of the flattened queues. */
  lemma {:induction false} FlatPop(q: Queues)
    requires Flat(q) != []
    ensures Flat(q) == [Head(q)] + Flat(Pop(q))
  {
    if q[0] != [] {
      assert q[0] == [q[0][0]] + q[0][1..];
      assert Pop(q)[1..] == q[1..];
    } else {
      FlatPop(q[1..]);
      assert Pop(q)[1..] == Pop(q[1..]);
    }
  }

  /** Enqueueing adds one occurrence of the thread. */
  lemma {:induction false} FlatPush(q: Queues, p: int, t: Tid)
    requires 0 <= p < |q|
    ensures multiset(Flat(Push(q, p, t))) == multiset(Flat(q)) + multiset{t}
  {
    if p == 0 {
      assert Push(q, p, t)[1..] == q[1..];
    } else {
      assert Push(q, p, t)[1..] == Push(q[1..], p - 1, t);
      FlatPush(q[1..], p - 1, t);
    }
  }

  lemma {:induction false} FlatMember(q: Queues, t: Tid)
    ensures t in Flat(q) <==> exists i :: 0 <= i < |q| && t in q[i]
  {
    if q != [] {
      FlatMember(q[1..], t);
      if t in Flat(q) {
        if t in q[0] {
        } else {
          var i :| 0 <= i < |q[1..]| && t in q[1..][i];
          assert t in q[i + 1];
        }
      }
      if i :| 0 <= i < |q| && t in q[i] {
        if i > 0 { assert t in q[1..][i - 1]; }
      }
    }
  }

  /** With no idle thread queued, `Head` is idle exactly when nothing is queued. */
  lemma HeadIdle(q: Queues, prio: map<Tid, int>)
    requires Sorted(q, prio)
    ensures Head(q) == IDLE <==> Flat(q) == []
    ensures Flat(q) != [] ==> Head(q) == Flat(q)[0]
  {
    if Flat(q) == [] {
      FlatEmpty(q);
      HeadOfEmpty(q);
    } else {
      FlatPop(q);
      assert Head(q) in Flat(q);
      FlatMember(q, Head(q));
    }
  }

  lemma {:induction false} HeadOfEmpty(q: Queues)
    requires AllEmpty(q)
    ensures Head(q) == IDLE
  {
    if q != [] { HeadOfEmpty(q[1..]); }
  }

  /** The first non-empty queue, by index: what `find_first_bit` on the map finds. */
  lemma {:induction false} HeadAt(q: Queues, p: nat)
    requires 0 <= p < |q| && q[p] != [] && forall i :: 0 <= i < p ==> q[i] == []
    ensures Head(q) == q[p][0] && Pop(q) == q[p := q[p][1..]]
  {
    if p > 0 { HeadAt(q[1..], p - 1); }
  }

  lemma PopSorted(q: Queues, prio: map<Tid, int>)
    requires Sorted(q, prio)
    ensures Sorted(Pop(q), prio)
  {
    var r := Pop(q);
    forall i: int, t: Tid {:trigger t in r[i]} | 0 <= i < |r| && t in r[i]
      ensures t != IDLE && t in prio && prio[t] == i
    {
      PopKeeps(q, i, t);
    }
  }

  lemma {:induction false} PopKeeps(q: Queues, i: nat, t: Tid)
    requires i < |q| && t in Pop(q)[i]
    ensures t in q[i]
  {
    if q[0] == [] && i > 0 { PopKeeps(q[1..], i - 1, t); }
  }

  lemma PushSorted(q: Queues, prio: map<Tid, int>, t: Tid)
    requires Sorted(q, prio) && t in prio && t != IDLE && 0 <= prio[t] < PRIORITIES
    ensures Sorted(Push(q, prio[t], t), prio)
  {
  }

  /** The scheduler: the running thread and the two sets of run queues. */
  datatype Sched = Sched(prio: map<Tid, int>, current: Tid, active: Queues, expire: Queues)

  predicate SchedOk(r: Sched) {
    && IDLE in r.prio && r.current in r.prio
    && (forall t :: t in r.prio ==> 0 <= r.prio[t] < PRIORITIES)
    && Sorted(r.active, r.prio)
    && Sorted(r.expire, r.prio)
  }

  /** `sched_bitmap_enqueue` */
  function Enqueued(r: Sched, t: Tid): (r': Sched)
    requires SchedOk(r) && t in r.prio && t != IDLE
    ensures SchedOk(r') && r'.prio == r.prio && r'.current == r.current
  {
    PushSorted(r.active, r.prio, t);
    r.(active := Push(r.active, r.prio[t], t))
  }

  /** Active and expired queues change roles when only the latter have threads. */
  function Swapped(r: Sched): (r': Sched)
    requires SchedOk(r)
    ensures SchedOk(r') && r'.prio == r.prio && r'.current == r.current
  {
    if Head(r.active) == IDLE && Head(r.expire) != IDLE then r.(active := r.expire, expire := r.active) else r
  }

  /** `sched_bitmap_elect`; on a tick the preempted thread goes to the expired queues. */
  function Elected(r: Sched, tick: bool): (r': Sched)
    requires SchedOk(r)
    ensures SchedOk(r') && r'.prio == r.prio
    ensures r'.current == Head(Swapped(r).active)
  {
    var r1 := Swapped(r);
    var next := Head(r1.active);
    HeadIdle(r1.active, r.prio);
    FlatMember(r1.active, next);
    PopSorted(r1.active, r.prio);
    var r2 := if next == IDLE then r1 else r1.(active := Pop(r1.active));
    var r3 := if tick && r.current != IDLE then Expired(r2, r.current) else r2;
    r3.(current := next)
  }

  function Expired(r: Sched, t: Tid): (r': Sched)
    requires SchedOk(r) && t in r.prio && t != IDLE
    ensures SchedOk(r') && r'.prio == r.prio && r'.current == r.current && r'.active == r.active
  {
    PushSorted(r.expire, r.prio, t);
    r.(expire := Push(r.expire, r.prio[t], t))
  }

  /** All threads that are ready or running, with their multiplicities. */
  ghost function Runnable(r: Sched): multiset<Tid> {
    Solo(r.current) + Queued(r)
  }

  ghost function Queued(r: Sched): multiset<Tid> {
    multiset(Flat(r.active)) + multiset(Flat(r.expire))
  }

  /** A running thread other than idle. */
  ghost function Solo(t: Tid): multiset<Tid> {
    if t == IDLE then multiset{} else multiset{t}
  }

  lemma EnqueuedBag(r: Sched, t: Tid)
    requires SchedOk(r) && t in r.prio && t != IDLE
    ensures Queued(Enqueued(r, t)) == Queued(r) + multiset{t}
  {
    FlatPush(r.active, r.prio[t], t);
  }

  lemma PopBag(q: Queues, prio: map<Tid, int>)
    requires Sorted(q, prio)
    ensures multiset(Flat(q)) == Solo(Head(q)) + multiset(Flat(if Head(q) == IDLE then q else Pop(q)))
  {
    HeadIdle(q, prio);
    if Flat(q) != [] { FlatPop(q); }
  }

  lemma SwappedBag(r: Sched)
    requires SchedOk(r)
    ensures Queued(Swapped(r)) == Queued(r)
  {
  }

  lemma ElectedActive(r: Sched, tick: bool)
    requires SchedOk(r)
    ensures multiset(Flat(Swapped(r).active)) ==
            Solo(Elected(r, tick).current) + multiset(Flat(Elected(r, tick).active))
  {
    PopBag(Swapped(r).active, r.prio);
  }

  lemma ElectedExpire(r: Sched, tick: bool)
    requires SchedOk(r)
    ensures multiset(Flat(Elected(r, tick).expire))
         == multiset(Flat(Swapped(r).expire)) + (if tick then Solo(r.current) else multiset{})
  {
    if tick && r.current != IDLE { FlatPush(Swapped(r).expire, r.prio[r.current], r.current); }
  }

  lemma RunnableAfter(r: Sched, r1: Sched, r': Sched, tick: bool)
    requires Queued(r1) == Queued(r)
    requires multiset(Flat(r1.active)) == Solo(r'.current) + multiset(Flat(r'.active))
    requires multiset(Flat(r'.expire)) == multiset(Flat(r1.expire)) + (if tick then Solo(r.current) else multiset{})
    ensures Runnable(r') == if tick then Runnable(r) else Queued(r)
  {
  }

  /** A tick keeps the runnable threads; any other election leaves the caller out. */
  lemma ElectedBag(r: Sched, tick: bool)
    requires SchedOk(r)
    ensures Runnable(Elected(r, tick)) == if tick then Runnable(r) else Queued(r)
  {
    SwappedBag(r);
    ElectedActive(r, tick);
    ElectedExpire(r, tick);
    RunnableAfter(r, Swapped(r), Elected(r, tick), tick);
  }
}
