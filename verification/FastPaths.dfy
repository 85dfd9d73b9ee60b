/**
 The mutex functions of libc/v7m-pthread.S as their callers see them, from the call to
 the return: load-exclusive, store-exclusive and, where these do not do, the system call.
 */
module FastPaths {
  import opened Options
  import opened RunQueue
  import opened Machine
  import opened MutexProtocol
  import opened Protocol
  import opened Guarantees

  predicate LoadsAt(x: Pc, m: Addr) {
    x == LockLdrex(m) || x == TryLdrex(m) || x == UnlockLdrex(m)
  }

  predicate StoresAt(x: Pc, m: Addr) {
    x == LockStrex(m) || x == TryStrex(m) || x == UnlockStrex(m)
  }

  /** Thread `t` is back in its own code. */
  ghost predicate Returned(s: Kernel, t: Tid) {
    t in s.pc && s.pc[t] == User
  }

  /** The instruction at which the running thread stands ends a trylock with result `r`. */
  ghost predicate TryEnds(s: Kernel, stored: bool, r: int) {
    Wf(s) && AtInstruction(s) && TryResult(s, stored) == Some(r)
  }

  // ----- single instructions -----

  /** A load goes on to the store if the word is as expected, and else to the system
      call or, in trylock, back to the caller. */
  lemma LoadOutcome(s: Kernel, m: Addr, stored: bool)
    requires Wf(s) && m in s.val && LoadsAt(s.pc[s.rq.current], m)
    ensures var t, v := s.rq.current, s.val[m];
      var x := match s.pc[t]
        case LockLdrex(_) => if v == -1 then LockStrex(m) else LockSvc(m)
        case TryLdrex(_) => if v == -1 then TryStrex(m) else User
        case _ => if v == 0 then UnlockStrex(m) else UnlockSvc(m);
      FastPath(s, stored) == s.(pc := s.pc[t := x], monitor := Some(m))
  {
  }

  /** What a store-exclusive does, by whether it takes place. */
  lemma StoreOutcome(s: Kernel, stored: bool)
    requires Wf(s) && AtInstruction(s) && StoresAt(s.pc[s.rq.current], s.pc[s.rq.current].m)
    ensures var t, x := s.rq.current, s.pc[s.rq.current];
      var h := if x.UnlockStrex? then s.Holders(x.m) - {t} else s.Holders(x.m) + {t};
      var again := if x.TryStrex? then User else if x.LockStrex? then LockLdrex(x.m) else UnlockLdrex(x.m);
      FastPath(s, stored) ==
        if stored && s.monitor == Some(x.m)
        then s.(val := s.val[x.m := if x.UnlockStrex? then -1 else 0], held := s.held[x.m := h],
                pc := s.pc[t := User], monitor := None)
        else s.(pc := s.pc[t := again], monitor := None)
  {
  }

  /**
   A store-exclusive of a fast path that takes place is a compare-and-swap: locking finds
   the mutex free and nobody waiting, unlocking finds its caller the holder and nobody
   waiting.  One that does not take place changes neither word nor holder.
   */
  lemma StoreIsCompareAndSwap(s: Kernel, stored: bool)
    requires Inv(s) && AtInstruction(s) && StoresAt(s.pc[s.rq.current], s.pc[s.rq.current].m)
    ensures var t, m, s' := s.rq.current, s.pc[s.rq.current].m, FastPath(s, stored);
            if !(stored && s.monitor == Some(m)) then s'.val == s.val && s'.held == s.held
            else && Waiters(s, m) == []
                 && (if s.pc[t].UnlockStrex?
                     then s.val[m] == 0 && s.Holders(m) == {t} && s'.val[m] == -1 && s'.Holders(m) == {}
                     else s.val[m] == -1 && s.Holders(m) == {} && s'.val[m] == 0 && s'.Holders(m) == {t})
  {
    var t, m := s.rq.current, s.pc[s.rq.current].m;
    assert PcOk(t, s.pc, s.val, s.held, s.mutexQ, s.priv);
    assert MutexAt(m, s.val, s.held, s.mutexQ, s.priv);
    if s.pc[t].UnlockStrex? { OneHolder(s.val, s.held, s.mutexQ, s.priv, t, m); }
    StoreOutcome(s, stored);
  }

  lemma CallMove(s: Kernel, step: Step, x: Pc) returns (s1: Kernel)
    requires Wf(s) && Enabled(s, step)
    requires (step.CallLock? && x == LockLdrex(step.m)) || (step.CallTry? && x == TryLdrex(step.m)) ||
             (step.CallUnlock? && x == UnlockLdrex(step.m))
    ensures Moves(s, step, s1) && s1 == s.(pc := s.pc[s.rq.current := x])
  {
    s1 := Next(s, step);
  }

  lemma InstructionMove(s: Kernel, b: bool) returns (s1: Kernel)
    requires Wf(s) && s.rq.current != IDLE && AtInstruction(s)
    requires !s.pc[s.rq.current].LockSvc? && !s.pc[s.rq.current].Relock? && !s.pc[s.rq.current].UnlockSvc?
    ensures Moves(s, Instruction(b), s1) && s1 == FastPath(s, b)
  {
    s1 := Next(s, Instruction(b));
  }

  // ----- free mutexes -----

  /** From its load, a lock or trylock takes a free mutex without a system call, if its
      store takes place. */
  lemma TakesFromLoad(s: Kernel, m: Addr, b: bool) returns (s1: Kernel, s2: Kernel)
    requires Wf(s) && s.rq.current != IDLE && m in s.val && s.val[m] == -1
    requires s.pc[s.rq.current] == LockLdrex(m) || s.pc[s.rq.current] == TryLdrex(m)
    ensures Moves(s, Instruction(b), s1) && Moves(s1, Instruction(true), s2)
    ensures s2 == s.(pc := s.pc[s.rq.current := User], val := s.val[m := 0],
                     held := s.held[m := s.Holders(m) + {s.rq.current}], monitor := None)
    ensures AtInstruction(s1) && TryResult(s, b) == None
    ensures TryResult(s1, true) == if s.pc[s.rq.current].TryLdrex? then Some(0) else None
  {
    s1 := InstructionMove(s, b);
    LoadOutcome(s, m, b);
    s2 := InstructionMove(s1, true);
    StoreOutcome(s1, true);
    assert s.pc[s.rq.current := s1.pc[s.rq.current]][s.rq.current := User] == s.pc[s.rq.current := User];
  }

  lemma FreeHasNoHolder(s: Kernel, m: Addr)
    requires Inv(s) && m in s.val && s.val[m] == -1
    ensures s.Holders(m) == {}
  {
    assert MutexAt(m, s.val, s.held, s.mutexQ, s.priv);
  }

  /** `pthread_mutex_lock` of a free mutex: its caller returns as the holder, and was
      not even stopped. */
  lemma LockTakesFree(s: Kernel, m: Addr, b: bool) returns (s1: Kernel, s2: Kernel, s3: Kernel)
    requires Inv(s) && Enabled(s, CallLock(m)) && s.val[m] == -1
    ensures Moves(s, CallLock(m), s1) && Moves(s1, Instruction(b), s2) && Moves(s2, Instruction(true), s3)
    ensures s3.Holders(m) == {s.rq.current} && Returned(s3, s.rq.current)
    ensures s3.rq == s.rq && s3.val == s.val[m := 0] && s3.mutexQ == s.mutexQ
  {
    FreeHasNoHolder(s, m);
    s1 := CallMove(s, CallLock(m), LockLdrex(m));
    s2, s3 := TakesFromLoad(s1, m, b);
  }

  /** `pthread_mutex_trylock` of a free mutex: the same, and the result is 0. */
  lemma TryTakesFree(s: Kernel, m: Addr, b: bool) returns (s1: Kernel, s2: Kernel, s3: Kernel)
    requires Inv(s) && Enabled(s, CallTry(m)) && s.val[m] == -1
    ensures Moves(s, CallTry(m), s1) && Moves(s1, Instruction(b), s2) && Moves(s2, Instruction(true), s3)
    ensures s3.Holders(m) == {s.rq.current} && Returned(s3, s.rq.current)
    ensures s3.rq == s.rq && s3.val == s.val[m := 0] && s3.mutexQ == s.mutexQ
    ensures TryEnds(s2, true, 0)
  {
    FreeHasNoHolder(s, m);
    s1 := CallMove(s, CallTry(m), TryLdrex(m));
    s2, s3 := TakesFromLoad(s1, m, b);
  }

  /** A store that does not take place: lock and unlock start again, nothing else has changed. */
  lemma StoreLost(s: Kernel, stored: bool) returns (s1: Kernel)
    requires Wf(s) && s.rq.current != IDLE && AtInstruction(s)
    requires s.pc[s.rq.current].LockStrex? || s.pc[s.rq.current].UnlockStrex?
    requires !(stored && s.monitor == Some(s.pc[s.rq.current].m))
    ensures Moves(s, Instruction(stored), s1)
    ensures var t, m := s.rq.current, s.pc[s.rq.current].m;
      s1 == s.(pc := s.pc[t := if s.pc[t].LockStrex? then LockLdrex(m) else UnlockLdrex(m)], monitor := None)
  {
    s1 := InstructionMove(s, stored);
    StoreOutcome(s, stored);
  }

  // ----- held mutexes -----

  /** `pthread_mutex_lock` of a held mutex: its caller is the last waiter and does not run. */
  lemma LockWaits(s: Kernel, m: Addr, b: bool, b': bool) returns (s1: Kernel, s2: Kernel, s3: Kernel)
    requires Inv(s) && Enabled(s, CallLock(m)) && s.val[m] != -1
    ensures Moves(s, CallLock(m), s1) && Moves(s1, Instruction(b), s2) && Moves(s2, Instruction(b'), s3)
    ensures Waiters(s3, m) == Waiters(s, m) + [s.rq.current] && s3.Holders(m) == s.Holders(m)
    ensures s3.rq.current != s.rq.current && s.rq.current !in Queued(s3.rq)
  {
    s1 := CallMove(s, CallLock(m), LockLdrex(m));
    MoveKeeps(s, CallLock(m), s1);
    s2 := InstructionMove(s1, b);
    LoadOutcome(s1, m, b);
    MoveKeeps(s1, Instruction(b), s2);
    s3 := LockCallWaits(s2, m, b');
  }

  lemma LockCallWaits(s: Kernel, m: Addr, b: bool) returns (s1: Kernel)
    requires Inv(s) && s.rq.current != IDLE && s.pc[s.rq.current] == LockSvc(m) && m in s.val && s.val[m] != -1
    ensures Moves(s, Instruction(b), s1)
    ensures Waiters(s1, m) == Waiters(s, m) + [s.rq.current] && s1.Holders(m) == s.Holders(m)
    ensures s1.rq.current != s.rq.current && s.rq.current !in Queued(s1.rq)
  {
    s1 := Next(s, Instruction(b));
    LockOutcome(s, m);
  }

  /** `pthread_mutex_trylock` of a held mutex: its caller goes on with -1 and nothing changes. */
  lemma TryFails(s: Kernel, m: Addr, b: bool) returns (s1: Kernel, s2: Kernel)
    requires Wf(s) && Enabled(s, CallTry(m)) && s.val[m] != -1
    ensures Moves(s, CallTry(m), s1) && Moves(s1, Instruction(b), s2)
    ensures s2 == s.(monitor := Some(m)) && TryEnds(s1, b, -1)
  {
    s1 := CallMove(s, CallTry(m), TryLdrex(m));
    s2 := InstructionMove(s1, b);
    LoadOutcome(s1, m, b);
    var t := s.rq.current;
    assert s.pc[t := TryLdrex(m)][t := User] == s.pc;
  }

  /** The result of `pthread_mutex_trylock` is 0 exactly if its caller has become the holder. */
  lemma TryResultExact(s: Kernel, stored: bool)
    requires Inv(s) && AtInstruction(s) && (s.pc[s.rq.current].TryLdrex? || s.pc[s.rq.current].TryStrex?)
    ensures var t, m, s' := s.rq.current, s.pc[s.rq.current].m, FastPath(s, stored);
            && (TryResult(s, stored) == Some(0) <==> t !in s.Holders(m) && t in s'.Holders(m))
            && (TryResult(s, stored) == Some(-1) <==> s'.pc[t] == User && s'.held == s.held && s'.val == s.val)
            && (TryResult(s, stored) == None <==> s'.pc[t] != User)
  {
    var t, m := s.rq.current, s.pc[s.rq.current].m;
    if s.pc[t].TryLdrex? {
      LoadOutcome(s, m, stored);
    } else {
      StoreIsCompareAndSwap(s, stored);
      StoreOutcome(s, stored);
    }
  }

  // ----- unlocking -----

  /** `pthread_mutex_unlock` with nobody waiting frees the mutex without a system call. */
  lemma UnlockFrees(s: Kernel, m: Addr, b: bool) returns (s1: Kernel, s2: Kernel, s3: Kernel)
    requires Inv(s) && Enabled(s, CallUnlock(m)) && Waiters(s, m) == []
    ensures Moves(s, CallUnlock(m), s1) && Moves(s1, Instruction(b), s2) && Moves(s2, Instruction(true), s3)
    ensures s3.Holders(m) == {} && s3.val == s.val[m := -1] && Returned(s3, s.rq.current) && s3.rq == s.rq
  {
    OneHolder(s.val, s.held, s.mutexQ, s.priv, s.rq.current, m);
    s1 := CallMove(s, CallUnlock(m), UnlockLdrex(m));
    s2 := InstructionMove(s1, b);
    LoadOutcome(s1, m, b);
    s3 := InstructionMove(s2, true);
    StoreOutcome(s2, true);
  }

  /** `pthread_mutex_unlock` with waiters makes the first of them the holder. */
  lemma UnlockHandsOver(s: Kernel, m: Addr, b: bool, b': bool) returns (s1: Kernel, s2: Kernel, s3: Kernel)
    requires Inv(s) && Enabled(s, CallUnlock(m)) && Waiters(s, m) != []
    ensures Moves(s, CallUnlock(m), s1) && Moves(s1, Instruction(b), s2) && Moves(s2, Instruction(b'), s3)
    ensures s3.Holders(m) == {Waiters(s, m)[0]} && Waiters(s3, m) == Waiters(s, m)[1..]
  {
    OneHolder(s.val, s.held, s.mutexQ, s.priv, s.rq.current, m);
    s1 := CallMove(s, CallUnlock(m), UnlockLdrex(m));
    MoveKeeps(s, CallUnlock(m), s1);
    s2 := InstructionMove(s1, b);
    LoadOutcome(s1, m, b);
    MoveKeeps(s1, Instruction(b), s2);
    s3 := Next(s2, Instruction(b'));
    MoveHandsOn(s2, Instruction(b'), s3, m);
  }

  // ----- the end of cond_wait -----

  /** A signalled thread, when it runs, contends for its mutex: it returns from its wait with
      the mutex if that is free, or else is its last waiter. */
  lemma RelockContends(s: Kernel, m: Addr, b: bool) returns (s1: Kernel)
    requires Inv(s) && s.rq.current != IDLE && s.pc[s.rq.current] == Relock(m)
    ensures Moves(s, Instruction(b), s1) && m in s.val
    ensures s.val[m] == -1 ==> s1.Holders(m) == {s.rq.current} && Returned(s1, s.rq.current) && s1.rq == s.rq
    ensures s.val[m] != -1 ==> Waiters(s1, m) == Waiters(s, m) + [s.rq.current] && s1.Holders(m) == s.Holders(m)
    ensures s.val[m] != -1 ==> s1.rq.current != s.rq.current && s.rq.current !in Queued(s1.rq)
  {
    assert PcOk(s.rq.current, s.pc, s.val, s.held, s.mutexQ, s.priv);
    s1 := Next(s, Instruction(b));
    LockOutcome(s, m);
  }
}
