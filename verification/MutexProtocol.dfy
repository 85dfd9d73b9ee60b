/**
 The mutex protocol: the word in user memory, the LDREX/STREX fast paths and the
 kernel's shared wait list agree on who holds and who waits.
 */
module MutexProtocol {
  import opened Options
  import opened Sequences
  import opened RunQueue
  import opened Machine

  /** The threads of a wait list that wait on `a`, in order. */
  function WaitersOn(q: seq<Tid>, priv: map<Tid, Addr>, a: Addr): seq<Tid> {
    if q == [] then []
    else (if q[0] in priv && priv[q[0]] == a then [q[0]] else []) + WaitersOn(q[1..], priv, a)
  }

  /** Free with nobody waiting, or held by one thread with `v` waiting. */
  ghost predicate MutexOk(v: int, h: set<Tid>, ws: seq<Tid>) {
    || (v == -1 && h == {} && ws == [])
    || (v == |ws| && exists t :: h == {t})
  }

  ghost predicate MutexAt(m: Addr, val: map<Addr, int>, held: map<Addr, set<Tid>>, q: seq<Tid>, priv: map<Tid, Addr>) {
    m in val ==> m in held && MutexOk(val[m], held[m], WaitersOn(q, priv, m))
  }

  ghost predicate MutexesOk(val: map<Addr, int>, held: map<Addr, set<Tid>>, q: seq<Tid>, priv: map<Tid, Addr>) {
    forall m :: MutexAt(m, val, held, q, priv)
  }

  /** What a thread's position says about the mutex it is working on.  Between
      the load that saw a positive word and the system call, the holder's mutex
      keeps a waiter. */
  ghost predicate PcOk(t: Tid, pc: map<Tid, Pc>, val: map<Addr, int>, held: map<Addr, set<Tid>>, q: seq<Tid>,
                       priv: map<Tid, Addr>)
  {
    t in pc ==>
      match pc[t]
      case User | InJoin(_) | Dead => true
      case UnlockLdrex(m) => m in val && m in held && t in held[m]
      case UnlockStrex(m) => m in val && m in held && t in held[m]
      case UnlockSvc(m) => m in val && m in held && t in held[m] && WaitersOn(q, priv, m) != []
      case _ => pc[t].m in val
  }

  ghost predicate PcsOk(pc: map<Tid, Pc>, val: map<Addr, int>, held: map<Addr, set<Tid>>, q: seq<Tid>,
                        priv: map<Tid, Addr>)
  {
    forall t :: PcOk(t, pc, val, held, q, priv)
  }

  /** A store-exclusive whose monitor is still set would store over the value
      its load saw. */
  ghost predicate Armed(pc: Pc, monitor: Option<Addr>, val: map<Addr, int>) {
    && ((pc.LockStrex? || pc.TryStrex?) && monitor == Some(pc.m) ==> pc.m in val && val[pc.m] == -1)
    && (pc.UnlockStrex? && monitor == Some(pc.m) ==> pc.m in val && val[pc.m] == 0)
  }

  ghost predicate SyncInv(s: Kernel) {
    && Wf(s)
    && MutexesOk(s.val, s.held, s.mutexQ, s.priv)
    && PcsOk(s.pc, s.val, s.held, s.mutexQ, s.priv)
    && Armed(s.pc[s.rq.current], s.monitor, s.val)
  }

  // ----- wait lists -----

  lemma {:induction false} FirstIsFirstWaiter(q: seq<Tid>, priv: map<Tid, Addr>, a: Addr)
    ensures FirstOn(q, priv, a) == if WaitersOn(q, priv, a) == [] then None else Some(WaitersOn(q, priv, a)[0])
  {
    if q != [] { FirstIsFirstWaiter(q[1..], priv, a); }
  }

  /** Removing the first waiter of `a` drops it from `a`'s waiters and no other. */
  lemma {:induction false} WaitersWithoutFirst(q: seq<Tid>, priv: map<Tid, Addr>, a: Addr, b: Addr)
    requires WaitersOn(q, priv, a) != []
    ensures var q' := Without(q, WaitersOn(q, priv, a)[0]);
            WaitersOn(q', priv, b) == if b == a then WaitersOn(q, priv, a)[1..] else WaitersOn(q, priv, b)
  {
    if q[0] in priv && priv[q[0]] == a {
    } else {
      var w := WaitersOn(q[1..], priv, a)[0];
      WaitersWithoutFirst(q[1..], priv, a, b);
      FirstIsFirstWaiter(q[1..], priv, a);
      assert Without(q, w)[1..] == Without(q[1..], w);
    }
  }

  /** A thread that joins the end of the list waits behind all others. */
  lemma {:induction false} WaitersConcat(q: seq<Tid>, q': seq<Tid>, priv: map<Tid, Addr>, a: Addr)
    ensures WaitersOn(q + q', priv, a) == WaitersOn(q, priv, a) + WaitersOn(q', priv, a)
  {
    if q == [] {
      assert q + q' == q';
    } else {
      assert (q + q')[1..] == q[1..] + q';
      WaitersConcat(q[1..], q', priv, a);
    }
  }

  lemma WaitersAppend(q: seq<Tid>, priv: map<Tid, Addr>, t: Tid, a: Addr, b: Addr)
    requires t !in q
    ensures WaitersOn(q + [t], priv[t := a], b) == WaitersOn(q, priv, b) + (if a == b then [t] else [])
  {
    WaitersConcat(q, [t], priv[t := a], b);
    WaitersPriv(q, priv, t, a, b);
    assert WaitersOn([t], priv[t := a], b) == if a == b then [t] else [];
  }

  lemma {:induction false} WaitersPriv(q: seq<Tid>, priv: map<Tid, Addr>, t: Tid, a: Addr, b: Addr)
    requires t !in q
    ensures WaitersOn(q, priv[t := a], b) == WaitersOn(q, priv, b)
  {
    if q != [] {
      assert q[0] in q;
      WaitersPriv(q[1..], priv, t, a, b);
    }
  }

  lemma {:induction false} WaitersMember(q: seq<Tid>, priv: map<Tid, Addr>, a: Addr, t: Tid)
    ensures t in WaitersOn(q, priv, a) <==> t in q && t in priv && priv[t] == a
  {
    if q != [] { WaitersMember(q[1..], priv, a, t); }
  }

  // ----- the moves -----

  lemma PcsLocal(pc: map<Tid, Pc>, val: map<Addr, int>, held: map<Addr, set<Tid>>, q: seq<Tid>, priv: map<Tid, Addr>,
                 t: Tid, x: Pc)
    requires PcsOk(pc, val, held, q, priv) && PcOk(t, map[t := x], val, held, q, priv)
    ensures PcsOk(pc[t := x], val, held, q, priv)
  {
    var pc' := pc[t := x];
    forall u
      ensures PcOk(u, pc', val, held, q, priv)
    {
      assert PcOk(u, pc, val, held, q, priv);
    }
  }

  /** `priv` of a thread off the list, or of a new thread, does not matter. */
  lemma SyncPriv(val: map<Addr, int>, held: map<Addr, set<Tid>>, q: seq<Tid>, priv: map<Tid, Addr>,
                 pc: map<Tid, Pc>, t: Tid, a: Addr)
    requires MutexesOk(val, held, q, priv) && PcsOk(pc, val, held, q, priv) && t !in q
    ensures MutexesOk(val, held, q, priv[t := a]) && PcsOk(pc, val, held, q, priv[t := a])
  {
    var priv' := priv[t := a];
    forall m
      ensures MutexAt(m, val, held, q, priv')
    {
      assert MutexAt(m, val, held, q, priv);
      WaitersPriv(q, priv, t, a, m);
    }
    forall u
      ensures PcOk(u, pc, val, held, q, priv')
    {
      assert PcOk(u, pc, val, held, q, priv);
      if u in pc && pc[u].UnlockSvc? { WaitersPriv(q, priv, t, a, pc[u].m); }
    }
  }

  /** A free mutex is taken, on the fast path or in the kernel. */
  lemma SyncAcquire(val: map<Addr, int>, held: map<Addr, set<Tid>>, q: seq<Tid>, priv: map<Tid, Addr>,
                    pc: map<Tid, Pc>, t: Tid, m: Addr)
    requires MutexesOk(val, held, q, priv) && PcsOk(pc, val, held, q, priv) && m in val && val[m] == -1
    ensures m in held && held[m] == {}
    ensures MutexesOk(val[m := 0], held[m := {t}], q, priv)
    ensures PcsOk(pc[t := User], val[m := 0], held[m := {t}], q, priv)
  {
    var val', held', pc' := val[m := 0], held[m := {t}], pc[t := User];
    assert MutexAt(m, val, held, q, priv);
    forall n
      ensures MutexAt(n, val', held', q, priv)
    {
      assert MutexAt(n, val, held, q, priv);
    }
    forall u
      ensures PcOk(u, pc', val', held', q, priv)
    {
      assert PcOk(u, pc, val, held, q, priv);
    }
  }

  /** A held mutex gains a waiter. */
  lemma SyncWait(val: map<Addr, int>, held: map<Addr, set<Tid>>, q: seq<Tid>, priv: map<Tid, Addr>,
                 pc: map<Tid, Pc>, t: Tid, m: Addr)
    requires MutexesOk(val, held, q, priv) && PcsOk(pc, val, held, q, priv) && m in val && val[m] != -1 && t !in q
    ensures MutexesOk(val[m := val[m] + 1], held, q + [t], priv[t := m])
    ensures PcsOk(pc[t := InLock(m)], val[m := val[m] + 1], held, q + [t], priv[t := m])
  {
    var val', q', priv', pc' := val[m := val[m] + 1], q + [t], priv[t := m], pc[t := InLock(m)];
    forall n
      ensures MutexAt(n, val', held, q', priv')
    {
      assert MutexAt(n, val, held, q, priv);
      WaitersAppend(q, priv, t, m, n);
    }
    forall u
      ensures PcOk(u, pc', val', held, q', priv')
    {
      assert PcOk(u, pc, val, held, q, priv);
      if u in pc && pc[u].UnlockSvc? { WaitersAppend(q, priv, t, m, pc[u].m); }
    }
  }

  /** The holder of a mutex is unique. */
  lemma OneHolder(val: map<Addr, int>, held: map<Addr, set<Tid>>, q: seq<Tid>, priv: map<Tid, Addr>, t: Tid, m: Addr)
    requires MutexesOk(val, held, q, priv) && m in val && m in held && t in held[m]
    ensures held[m] == {t} && val[m] == |WaitersOn(q, priv, m)|
  {
    assert MutexAt(m, val, held, q, priv);
  }

  /** The holder, which is not about to unlock again, releases a mutex nobody waits for. */
  lemma SyncRelease(val: map<Addr, int>, held: map<Addr, set<Tid>>, q: seq<Tid>, priv: map<Tid, Addr>,
                    pc: map<Tid, Pc>, t: Tid, m: Addr, x: Pc)
    requires MutexesOk(val, held, q, priv) && PcsOk(pc, val, held, q, priv)
    requires m in val && m in held && held[m] == {t} && val[m] == 0
    requires PcOk(t, map[t := x], val, map[], [], map[])
    ensures MutexesOk(val[m := -1], held[m := {}], q, priv)
    ensures PcsOk(pc[t := x], val[m := -1], held[m := {}], q, priv)
  {
    var val', held', pc' := val[m := -1], held[m := {}], pc[t := x];
    assert MutexAt(m, val, held, q, priv);
    forall n
      ensures MutexAt(n, val', held', q, priv)
    {
      assert MutexAt(n, val, held, q, priv);
    }
    forall u
      ensures PcOk(u, pc', val', held', q, priv)
    {
      assert PcOk(u, pc, val, held, q, priv);
    }
  }

  /** The holder hands the mutex to its first waiter `w`. */
  lemma SyncHandOff(val: map<Addr, int>, held: map<Addr, set<Tid>>, q: seq<Tid>, priv: map<Tid, Addr>,
                    pc: map<Tid, Pc>, t: Tid, m: Addr, x: Pc, w: Tid)
    requires MutexesOk(val, held, q, priv) && PcsOk(pc, val, held, q, priv)
    requires m in val && m in held && held[m] == {t}
    requires WaitersOn(q, priv, m) != [] && w == WaitersOn(q, priv, m)[0]
    requires PcOk(t, map[t := x], val, map[], [], map[])
    ensures MutexesOk(val[m := val[m] - 1], held[m := {w}], Without(q, w), priv)
    ensures PcsOk(pc[t := x][w := User], val[m := val[m] - 1], held[m := {w}], Without(q, w), priv)
  {
    var val', held', q', pc' := val[m := val[m] - 1], held[m := {w}], Without(q, w), pc[t := x][w := User];
    forall n
      ensures MutexAt(n, val', held', q', priv)
    {
      assert MutexAt(n, val, held, q, priv);
      WaitersWithoutFirst(q, priv, m, n);
    }
    forall u
      ensures PcOk(u, pc', val', held', q', priv)
    {
      assert PcOk(u, pc, val, held, q, priv);
      if u in pc && pc[u].UnlockSvc? { WaitersWithoutFirst(q, priv, m, pc[u].m); }
    }
  }
}
