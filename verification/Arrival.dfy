/**
 In which order threads are elected: by priority, and first come, first served among
 threads of one priority (include/kernel/bitmap.h:19-40, kernel/sched/bitmap.c:76-112).
 The order is that of the flattened queues; here is what each operation does to it.
 */
module Arrival {
  import opened RunQueue

  /** `t` comes to place `k`, behind all that are as urgent and before all others. */
  ghost predicate ArrivesAt(was: seq<Tid>, now: seq<Tid>, t: Tid, prio: map<Tid, int>, k: int) {
    && 0 <= k <= |was| && now == was[..k] + [t] + was[k..] && t in prio
    && (forall i :: 0 <= i < k ==> was[i] in prio && prio[was[i]] <= prio[t])
    && (forall i :: k <= i < |was| ==> was[i] in prio && prio[was[i]] > prio[t])
  }

  /** Queue `i` holds threads of priority `base + i`. */
  ghost predicate Placed(q: Queues, prio: map<Tid, int>, base: int) {
    forall i: int, t: Tid {:trigger t in q[i]} :: 0 <= i < |q| && t in q[i] ==> t in prio && prio[t] == base + i
  }

  lemma PlacedRest(q: Queues, prio: map<Tid, int>, base: int)
    requires q != [] && Placed(q, prio, base)
    ensures Placed(q[1..], prio, base + 1)
    ensures forall i :: 0 <= i < |q[0]| ==> q[0][i] in prio && prio[q[0][i]] == base
  {
    forall i: int, t: Tid | 0 <= i < |q[1..]| && t in q[1..][i]
      ensures t in prio && prio[t] == base + 1 + i
    {
      assert t in q[i + 1];
    }
    forall i | 0 <= i < |q[0]|
      ensures q[0][i] in prio && prio[q[0][i]] == base
    {
      var first, u := 0, q[0][i];
      assert u in q[first];
    }
  }

  lemma {:induction false} FlatFrom(q: Queues, prio: map<Tid, int>, base: int)
    requires Placed(q, prio, base)
    ensures forall i :: 0 <= i < |Flat(q)| ==> Flat(q)[i] in prio && prio[Flat(q)[i]] >= base
  {
    if q != [] {
      PlacedRest(q, prio, base);
      FlatFrom(q[1..], prio, base + 1);
    }
  }

  lemma {:induction false} PushArrives(q: Queues, prio: map<Tid, int>, base: int, p: int, t: Tid) returns (k: int)
    requires Placed(q, prio, base) && 0 <= p < |q| && t in prio && prio[t] == base + p
    ensures ArrivesAt(Flat(q), Flat(Push(q, p, t)), t, prio, k)
  {
    var rest := q[1..];
    var now := Push(q, p, t);
    PlacedRest(q, prio, base);
    if p == 0 {
      FlatFrom(rest, prio, base + 1);
      k := |q[0]|;
      assert now[1..] == rest;
      InFront(q[0], Flat(rest), t);
    } else {
      var k' := PushArrives(rest, prio, base + 1, p - 1, t);
      k := |q[0]| + k';
      assert now[1..] == Push(rest, p - 1, t) && now[0] == q[0];
      Behind(q[0], Flat(rest), k', t);
    }
  }

  lemma InFront(a: seq<Tid>, b: seq<Tid>, t: Tid)
    ensures (a + [t]) + b == (a + b)[..|a|] + [t] + (a + b)[|a|..]
  {
  }

  lemma Behind(a: seq<Tid>, b: seq<Tid>, k: int, t: Tid)
    requires 0 <= k <= |b|
    ensures a + (b[..k] + [t] + b[k..]) == (a + b)[..|a| + k] + [t] + (a + b)[|a| + k..]
  {
  }

  /** A thread that becomes ready arrives in the active order. */
  lemma EnqueuedArrives(r: Sched, t: Tid) returns (k: int)
    requires SchedOk(r) && t in r.prio && t != IDLE
    ensures ArrivesAt(Flat(r.active), Flat(Enqueued(r, t).active), t, r.prio, k)
    ensures Flat(Enqueued(r, t).expire) == Flat(r.expire)
  {
    k := PushArrives(r.active, r.prio, 0, r.prio[t], t);
  }

  /** The order left by a swap, if one is due. */
  lemma SwappedOrder(r: Sched)
    requires SchedOk(r)
    ensures Flat(Swapped(r).active) == if Flat(r.active) == [] then Flat(r.expire) else Flat(r.active)
    ensures Flat(Swapped(r).expire) == if Flat(r.active) == [] then [] else Flat(r.expire)
  {
    HeadIdle(r.active, r.prio);
    HeadIdle(r.expire, r.prio);
  }

  /**
   An election takes the first thread of the active order, or of the expired one if no
   thread is active; the others keep their order.  On a tick the preempted thread
   arrives in the expired order.
   */
  lemma ElectionOrder(r: Sched, tick: bool) returns (k: int)
    requires SchedOk(r)
    ensures var r', ready, rest := Elected(r, tick),
              if Flat(r.active) == [] then Flat(r.expire) else Flat(r.active),
              if Flat(r.active) == [] then [] else Flat(r.expire);
            && r'.current == (if ready == [] then IDLE else ready[0])
            && Flat(r'.active) == (if ready == [] then [] else ready[1..])
            && (if tick && r.current != IDLE then ArrivesAt(rest, Flat(r'.expire), r.current, r.prio, k)
                else Flat(r'.expire) == rest)
  {
    var r1 := Swapped(r);
    SwappedOrder(r);
    HeadIdle(r1.active, r.prio);
    if Flat(r1.active) != [] { FlatPop(r1.active); }
    k := 0;
    if tick && r.current != IDLE {
      k := PushArrives(r1.expire, r.prio, 0, r.prio[r.current], r.current);
    }
  }
}
