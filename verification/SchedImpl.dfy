/**
 The bitmap scheduler as the kernel runs it: a map word with one bit per
 priority, 32 queues, and two such structures that change roles
 (include/kernel/bitmap.h, kernel/sched/bitmap.c).
 */
module SchedImpl {
  import opened Sequences
  import opened Bitops
  import opened RunQueue

  /** `struct bitmap_struct` */
  class BitmapStruct {
    /** `map`: one bit for each priority */
    const word: array<bv32>
    const queue: array<seq<Tid>>
    /** The bits set in the map word. */
    ghost var bits: set<nat>

    /** A map bit is set exactly when its queue is not empty. */
    ghost predicate Valid()
      reads this, word, queue
    {
      && word.Length == 1 && queue.Length == PRIORITIES
      && Denotes(word[..], bits)
      && (forall p: nat :: p in bits <==> p < PRIORITIES && queue[p] != [])
    }

    /** `INIT_BITMAP` */
    constructor ()
      ensures Valid() && fresh(word) && fresh(queue) && AllEmpty(queue[..])
    {
      word := new bv32[1](_ => 0);
      queue := new seq<Tid>[PRIORITIES](_ => []);
      bits := {};
      new;
      forall b: nat
        ensures !InWords(word[..], b)
      {
        if b < 32 { ZeroHasNoBits(b); }
      }
    }

    /** `bitmap_enqueue` */
    method Enqueue(t: Tid, p: int)
      requires Valid() && 0 <= p < PRIORITIES
      modifies this, word, queue
      ensures Valid() && queue[..] == Push(old(queue[..]), p, t)
      ensures queue[p] == old(queue[p]) + [t]
      ensures forall i :: 0 <= i < PRIORITIES && i != p ==> queue[i] == old(queue[i])
    {
      DenotesIsBits(word[..], bits);
      queue[p] := queue[p] + [t];
      BitmapSetBit(word, p);
      bits := bits + {p};
      DenotesIsBits(word[..], bits);
    }

    /** `find_first_bit(&bm->map, 32)` */
    method FirstPriority() returns (p: nat)
      requires Valid()
      ensures p <= PRIORITIES && forall i: nat :: i < p ==> queue[i] == []
      ensures p < PRIORITIES ==> queue[p] != []
    {
      DenotesIsBits(word[..], bits);
      p := FindFirstBit(word, 32);
    }

    /** `find_next_thread` */
    method FindNextThread() returns (t: Tid)
      requires Valid()
      ensures t == Head(queue[..])
    {
      var p := FirstPriority();
      if p == 32 {
        HeadOfEmpty(queue[..]);
        return IDLE;
      }
      HeadAt(queue[..], p);
      t := queue[p][0];
    }

    /** `bitmap_queue_del`: the map bit is cleared exactly when the queue becomes empty. */
    method QueueDel(t: Tid, p: int)
      requires Valid() && 0 <= p < PRIORITIES && t in queue[p]
      modifies this, word, queue
      ensures Valid() && queue[..] == old(queue[..])[p := Without(old(queue[p]), t)]
    {
      DenotesIsBits(word[..], bits);
      queue[p] := Without(queue[p], t);
      if queue[p] == [] {
        BitmapClearBit(word, p);
        bits := bits - {p};
        DenotesIsBits(word[..], bits);
      }
    }

    /** In terms of the map word itself. */
    ghost predicate MapAgrees()
      reads this, word, queue
    {
      && word.Length == 1 && queue.Length == PRIORITIES
      && (forall p: nat :: p < PRIORITIES ==> (Bit(word[0], p) <==> queue[p] != []))
    }

    lemma MapAgreesIfValid()
      requires Valid()
      ensures MapAgrees()
    {
      forall p: nat | p < PRIORITIES
        ensures Bit(word[0], p) <==> queue[p] != []
      {
        assert InWords(word[..], p) <==> p in bits;
      }
    }
  }

  /** The scheduler of kernel/sched/bitmap.c, with the running thread and the
      priorities it consults. */
  class BitmapSched {
    var active: BitmapStruct
    var expire: BitmapStruct
    var prio: map<Tid, int>
    var current: Tid

    /** This object and the parts of it that change. */
    ghost const repr: set<object>

    ghost predicate Valid()
      reads this, repr
    {
      && {this, active, expire, active.word, active.queue, expire.word, expire.queue} <= repr
      && active != expire && active.word != expire.word && active.queue != expire.queue
      && active.Valid() && expire.Valid()
      && SchedOk(Abs())
    }

    ghost function Abs(): Sched
      reads this, active.queue, expire.queue
    {
      Sched(prio, current, active.queue[..], expire.queue[..])
    }

    constructor (t: Tid, p: int)
      requires t != IDLE && 0 <= p < PRIORITIES
      ensures Valid() && fresh(repr)
      ensures Abs().current == t && Abs().prio == map[IDLE := 31, t := p]
      ensures AllEmpty(Abs().active) && AllEmpty(Abs().expire)
    {
      var a := new BitmapStruct();
      var b := new BitmapStruct();
      active, expire := a, b;
      prio := map[IDLE := 31, t := p];
      current := t;
      ghost var parts: set<object> := {a, b, a.word, a.queue, b.word, b.queue};
      repr := {this} + parts;
    }

    /** `sched_bitmap_enqueue` */
    method Enqueue(t: Tid)
      requires Valid() && t in prio && t != IDLE
      modifies repr
      ensures Valid() && Abs() == Enqueued(old(Abs()), t)
    {
      ghost var r := Abs();
      PushSorted(r.active, r.prio, t);
      active.Enqueue(t, prio[t]);
    }

    /** The first part of `sched_bitmap_elect`: the next thread, after a swap of the
        queues if only the expired ones hold any. */
    method SelectNext() returns (next: Tid)
      requires Valid()
      modifies this
      ensures Valid() && Abs() == Swapped(old(Abs())) && next == Head(Abs().active)
    {
      next := active.FindNextThread();
      if next == IDLE {
        var other := expire.FindNextThread();
        if other != IDLE {
          active, expire := expire, active;
          next := active.FindNextThread();
        }
      }
    }

    /** `list_del(&next->ti_q)`, and the map bit if its queue is now empty. */
    method TakeOut(next: Tid)
      requires Valid() && next == Head(Abs().active) && next != IDLE
      modifies repr
      ensures Valid() && Abs() == old(Abs()).(active := Pop(old(Abs()).active))
    {
      ghost var r := Abs();
      HeadIdle(r.active, r.prio);
      FlatMember(r.active, next);
      PopSorted(r.active, r.prio);
      FirstQueueOf(r.active, r.prio);
      active.QueueDel(next, prio[next]);
    }

    /** `thread_create` and what sets the priority of a thread before it is enqueued */
    method AddThread(t: Tid, p: int)
      requires Valid() && t !in prio && 0 <= p < PRIORITIES
      modifies this`prio
      ensures Valid() && Abs() == old(Abs()).(prio := old(prio)[t := p])
    {
      prio := prio[t := p];
    }

    /** `sched_bitmap_elect` */
    method Elect(tick: bool)
      requires Valid()
      modifies repr
      ensures Valid() && Abs() == Elected(old(Abs()), tick)
    {
      var next := SelectNext();
      HeadIdle(Abs().active, prio);
      FlatMember(Abs().active, next);
      if next != IDLE {
        TakeOut(next);
      }
      if tick && current != IDLE {
        PutBack(current);
      }
      SwitchTo(next);
    }

    /** `switch_to` and `thread_restore` */
    method SwitchTo(next: Tid)
      requires Valid() && next in prio
      modifies this`current
      ensures Valid() && Abs() == old(Abs()).(current := next)
    {
      current := next;
    }

    /** On a tick the outgoing thread goes to the expired queues. */
    method PutBack(t: Tid)
      requires Valid() && t in prio && t != IDLE
      modifies repr
      ensures Valid() && Abs() == Expired(old(Abs()), t)
    {
      ghost var r := Abs();
      PushSorted(r.expire, r.prio, t);
      expire.Enqueue(t, prio[t]);
    }
  }

  /** The head of the queues is in the queue of its own priority, and all queues
      before that one are empty. */
  lemma FirstQueueOf(q: Queues, prio: map<Tid, int>)
    requires Sorted(q, prio) && Head(q) != IDLE
    ensures Head(q) in prio && 0 <= prio[Head(q)] < PRIORITIES && Head(q) in q[prio[Head(q)]]
    ensures Pop(q) == q[prio[Head(q)] := Without(q[prio[Head(q)]], Head(q))]
  {
    var p := FirstNonEmpty(q, 0);
    if p == |q| {
      HeadOfEmpty(q);
    } else {
      HeadAt(q, p);
      assert Head(q) in q[p];
    }
  }

  function FirstNonEmpty(q: Queues, i: nat): (p: nat)
    requires i <= |q|
    ensures i <= p <= |q| && (p < |q| ==> q[p] != []) && forall j :: i <= j < p ==> q[j] == []
    decreases |q| - i
  {
    if i == |q| || q[i] != [] then i else FirstNonEmpty(q, i + 1)
  }
}
