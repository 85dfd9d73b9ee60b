/**
 The code of drivers/timer/systick.c and kernel/time.c, which changes the timers and
 their list in place, against the functions of TimerModel.
 */
module TimerImpl {
  import opened Options
  import opened Sequences
  import opened TimerModel

  const EAGAIN := 11
  const EINVAL := 22

  /** The entry behind `x` on a list: what `list_next_entry` reads; none is the head. */
  function NextEntry(q: seq<int>, x: int): Option<int>
    requires x in q
  {
    if q[0] != x then NextEntry(q[1..], x) else if |q| > 1 then Some(q[1]) else None
  }

  lemma {:induction false} NextEntryAt(q: seq<int>, i: int)
    requires NoDup(q) && 0 <= i < |q|
    ensures NextEntry(q, q[i]) == if i + 1 < |q| then Some(q[i + 1]) else None
  {
    if i > 0 {
      assert q[i] == q[1..][i - 1];
      NextEntryAt(q[1..], i - 1);
    }
  }

  function EntryAt(q: seq<int>, i: int): Option<int> {
    if 0 <= i < |q| then Some(q[i]) else None
  }

  class TimerState {
    var clock: int
    var listed: seq<int>
    var timers: map<int, Timer>
    /** `timer_head`, the POSIX timers, newest first */
    var posix: seq<int>
    var reserved: int

    function S(): State
      reads this
    {
      State(clock, listed, timers, reserved)
    }

    ghost predicate Ok()
      reads this
    {
      && Valid(S())
      && |posix| == reserved
      && (forall i :: 0 <= i < |posix| ==> posix[i] == reserved - 1 - i)
    }

    constructor ()
      ensures Ok() && S() == BOOT
    {
      clock, listed, timers, posix, reserved := 0, [], map[], [], 0;
    }

    /** `systick_timer_set` */
    method SystickTimerSet(id: int, length: Timespec)
      requires id in timers
      modifies this`listed, this`timers
      ensures S() == DeviceSet(old(S()), id, length)
    {
      if length.sec == 0 && length.nsec == 0 {
        listed := Without(listed, id);
      }
      if length.sec != 0 || length.nsec != 0 {
        timers := timers[id := timers[id].(start := clock)];
        timers := timers[id := timers[id].(
          expire := clock + length.sec * 1000 + length.nsec / 1_000_000)];
        listed := [id] + listed;
      }
    }

    /** `msleep_callback`, without the wake-up */
    method MsleepCallback(id: int)
      requires id in timers
      modifies this`timers
      ensures timers == old(timers)[id := old(timers)[id].(disarmed := true)]
    {
      timers := timers[id := timers[id].(disarmed := true)];
    }

    /** `timer_callback`, without the signal */
    method TimerCallback(id: int)
      requires id in timers
      modifies this`timers
      ensures timers == old(timers)[id := old(timers)[id].(
        disarmed := old(timers)[id].disarmed || old(timers)[id].kind == OneShot)]
    {
      if timers[id].kind == OneShot {
        timers := timers[id := timers[id].(disarmed := true)];
      }
    }

    /** `timer_callback_and_link`, without the signal */
    method TimerCallbackAndLink(id: int)
      requires id in timers && !Zero(timers[id].value.interval)
      modifies this`listed, this`timers
      ensures listed == [id] + old(listed)
      ensures timers == old(timers)[id :=
        Armed(old(timers)[id], clock, old(timers)[id].value.interval).(
          kind := Interval, callback := Signal)]
    {
      timers := timers[id := timers[id].(kind := Interval)];
      timers := timers[id := timers[id].(callback := Signal)];
      SystickTimerSet(id, timers[id].value.interval);
    }

    /** The body of the pass for a due timer, which is unlinked first. */
    method Expire(id: int)
      requires id in timers && TimerOk(timers[id], clock) && !timers[id].disarmed
      modifies this`listed, this`timers
      ensures timers == old(timers)[id := AfterFiring(old(timers)[id], clock)]
      ensures listed == (if Rearms(old(timers)[id]) then [id] else []) + Without(old(listed), id)
    {
      listed := Without(listed, id);
      if timers[id].kind == Interval {
        SystickTimerSet(id, timers[id].value.interval);
      }
      match timers[id].callback
      case SignalAndLink => TimerCallbackAndLink(id);
      case WakeSleeper => MsleepCallback(id);
      case Signal => TimerCallback(id);
    }

    /** The pass over the list of `s` stands before its `i`-th timer and has fired `fired`. */
    ghost predicate Stands(s: State, i: int, fired: seq<int>)
      requires 0 <= i <= |s.listed|
      reads this
    {
      && clock == s.clock && listed == Midway(s, i)
      && timers == TimersAfter(s, s.listed[..i]) && fired == Firing(s, s.listed[..i])
    }

    /** One round of the pass; the next timer is read before the list may change. */
    method VisitTimer(id: int, ghost s: State, ghost i: int, ghost j: int, fired: seq<int>)
      returns (next: Option<int>, fired': seq<int>)
      requires Valid(s) && 0 <= i < |s.listed| && id == s.listed[i] && j == i + 1 && Stands(s, i, fired)
      modifies this`listed, this`timers
      ensures Stands(s, j, fired') && next == EntryAt(s.listed, j)
    {
      MidwayStep(s, i);
      TimersStep(s, i);
      next := NextEntry(listed, id);
      fired' := fired;
      if timers[id].expire < clock {
        Expire(id);
        fired' := fired + [id];
      }
    }

    /** The loop of `systick_bh`: the list is changed while it is walked. */
    method Walk(ghost s: State) returns (fired: seq<int>)
      requires Valid(s) && clock == s.clock && listed == s.listed && timers == s.timers
      modifies this`listed, this`timers
      ensures listed == Passed(s).listed && timers == Passed(s).timers
      ensures fired == Firing(s, s.listed)
    {
      ghost var i := 0;
      fired := [];
      WalkBegins(s);
      var pos := if listed == [] then None else Some(listed[0]);
      while pos.Some?
        invariant 0 <= i <= |s.listed| && pos == EntryAt(s.listed, i) && Stands(s, i, fired)
        decreases |s.listed| - i
      {
        ghost var j := i + 1;
        var next;
        next, fired := VisitTimer(pos.value, s, i, j, fired);
        pos, i := next, j;
      }
      WalkEnds(s);
    }

    /** `systick_bh` */
    method SystickBottomHalf() returns (fired: seq<int>)
      requires Ok()
      modifies this`listed, this`timers
      ensures Ok() && S() == Apply(old(S()), Pass)
      ensures fired == FiredBy(old(S()), Pass)
    {
      PassKeeps(S());
      fired := Walk(S());
    }

    /** `systick` */
    method Systick()
      requires Ok()
      modifies this`clock
      ensures Ok() && S() == Apply(old(S()), Tick)
    {
      clock := clock + 1;
      StepKeeps(old(S()), Tick);
    }

    /** `find_timer_by_id` */
    method FindTimerById(timerid: int) returns (timer: Option<int>)
      requires Ok()
      ensures timer == if 0 <= timerid < reserved then Some(timerid) else None
    {
      var i := 0;
      assert 0 <= timerid < reserved ==> posix[reserved - 1 - timerid] == timerid;
      while i < |posix|
        invariant 0 <= i <= |posix|
        invariant forall j :: 0 <= j < i ==> posix[j] != timerid
      {
        if posix[i] == timerid {
          return Some(posix[i]);
        }
        i := i + 1;
      }
      timer := None;
    }

    /** `sys_timer_create`; the ids are never given back, so the least free one is next. */
    method SysTimerCreate() returns (err: int, timerid: int)
      requires Ok()
      modifies this
      ensures Ok() && S() == Apply(old(S()), Create)
      ensures err == if old(reserved) == BITS_PER_LONG then EAGAIN else 0
      ensures err == 0 ==> timerid == old(reserved) && timerid !in old(timers)
    {
      StepKeeps(S(), Create);
      if reserved == BITS_PER_LONG {
        return EAGAIN, 0;
      }
      err, timerid := 0, reserved;
      reserved := reserved + 1;
      timers := timers[timerid := NEW_TIMER];
      posix := [timerid] + posix;
    }

    /** The fields that the three ways of arming a timer write */
    method Start(id: int, kind: Kind, callback: Callback, length: Timespec)
      requires id in timers
      modifies this`listed, this`timers
      ensures var was := old(S());
        S() == DeviceSet(was.(timers := was.timers[id := was.timers[id].(
                 disarmed := false, kind := kind, callback := callback)]), id, length)
    {
      timers := timers[id := timers[id].(disarmed := false, kind := kind, callback := callback)];
      SystickTimerSet(id, length);
    }

    /** `sys_timer_settime` */
    method SysTimerSettime(timerid: int, value: Itimer) returns (err: int, old_value: Option<Itimer>)
      requires Ok() && Allowed(S(), SetTime(timerid, value))
      modifies this`listed, this`timers
      ensures Ok() && S() == Apply(old(S()), SetTime(timerid, value))
      ensures err == if 0 <= timerid < reserved then 0 else EINVAL
      ensures old_value == if err == 0 then Some(old(timers)[timerid].value) else None
    {
      StepKeeps(S(), SetTime(timerid, value));
      var found := FindTimerById(timerid);
      if found.None? {
        return EINVAL, None;
      }
      var id := found.value;
      err, old_value := 0, Some(timers[id].value);
      timers := timers[id := timers[id].(value := value)];
      if value.initial.sec == 0 && value.initial.nsec == 0 {
        if !timers[id].disarmed {
          SystickTimerSet(id, value.initial);
          timers := timers[id := timers[id].(disarmed := true)];
        }
        return;
      }
      if value.interval.sec != 0 || value.interval.nsec != 0 {
        if value.initial.sec == value.interval.sec && value.initial.nsec == value.interval.nsec {
          Start(id, Interval, Signal, value.interval);
        } else {
          Start(id, OneShot, SignalAndLink, value.initial);
        }
      } else {
        Start(id, OneShot, Signal, value.initial);
      }
    }

    /** `sys_msleep` up to the switch to another thread */
    method MsleepArm(key: int, ms: nat)
      requires Ok() && Allowed(S(), Sleep(key, ms))
      modifies this`listed, this`timers
      ensures Ok() && S() == Apply(old(S()), Sleep(key, ms))
    {
      StepKeeps(S(), Sleep(key, ms));
      timers := timers[key := Sleeper(ms)];
      SystickTimerSet(key, Timespec(ms / 1000, (ms % 1000) * 1_000_000));
    }

    /** `sys_msleep` after the thread was woken: the timer is freed. */
    method MsleepFree(key: int)
      requires Ok() && Allowed(S(), Wake(key))
      modifies this`timers
      ensures Ok() && S() == Apply(old(S()), Wake(key))
    {
      StepKeeps(S(), Wake(key));
      timers := timers - {key};
    }
  }

  /** The list when the pass stands before the `i`-th timer of the list it began with. */
  ghost function Midway(s: State, i: int): seq<int>
    requires 0 <= i <= |s.listed|
  {
    Relinked(s, s.listed[..i]) + Keeping(s, s.listed[..i]) + s.listed[i..]
  }

  lemma WalkBegins(s: State)
    ensures Midway(s, 0) == s.listed && TimersAfter(s, s.listed[..0]) == s.timers
    ensures Firing(s, s.listed[..0]) == []
  {
    assert s.listed[..0] == [] && s.listed[0..] == s.listed;
    assert Relinked(s, []) == [] && Keeping(s, []) == [];
    assert [] + [] + s.listed == s.listed;
  }

  lemma WalkEnds(s: State)
    ensures Midway(s, |s.listed|) == Passed(s).listed
    ensures s.listed[..|s.listed|] == s.listed
  {
    var n := |s.listed|;
    assert s.listed[..n] == s.listed && s.listed[n..] == [];
  }

  lemma MidwayStep(s: State, i: int)
    requires Valid(s) && 0 <= i < |s.listed|
    ensures s.listed[i] in Midway(s, i)
    ensures NextEntry(Midway(s, i), s.listed[i]) == EntryAt(s.listed, i + 1)
    ensures Midway(s, i + 1) ==
            if Due(s, s.listed[i])
            then (if Rearms(s.timers[s.listed[i]]) then [s.listed[i]] else []) +
                 Without(Midway(s, i), s.listed[i])
            else Midway(s, i)
  {
    var x, ids, rest := s.listed[i], s.listed[..i], s.listed[i + 1..];
    var front, back := Relinked(s, ids), Keeping(s, ids);
    MidwayNoDup(s, i);
    assert s.listed[..i + 1][..i] == ids;
    assert Midway(s, i) == (front + back) + [x] + rest;
    NextEntryAt(Midway(s, i), |front| + |back|);
    WithoutAt(front + back, x, rest);
    MidwayNext(s, i);
  }

  lemma MidwayNext(s: State, i: int)
    requires 0 <= i < |s.listed|
    ensures var x, ids, rest := s.listed[i], s.listed[..i], s.listed[i + 1..];
      var front, back := Relinked(s, ids), Keeping(s, ids);
      Midway(s, i + 1) ==
        if Due(s, x) then (if Rearms(s.timers[x]) then [x] else []) + (front + back + rest)
        else front + back + [x] + rest
  {
    var x, ids, rest := s.listed[i], s.listed[..i], s.listed[i + 1..];
    var front, back := Relinked(s, ids), Keeping(s, ids);
    var more := s.listed[..i + 1];
    assert more[..i] == ids && more[i] == x;
    if Due(s, x) {
      var again := if Rearms(s.timers[x]) then [x] else [];
      assert Relinked(s, more) == again + front && Keeping(s, more) == back;
    } else {
      assert Relinked(s, more) == front && Keeping(s, more) == back + [x];
    }
  }

  lemma MidwayNoDup(s: State, i: int)
    requires NoDup(s.listed) && 0 <= i < |s.listed|
    ensures NoDup(Midway(s, i))
    ensures s.listed[i] !in Relinked(s, s.listed[..i]) + Keeping(s, s.listed[..i])
  {
    var ids := s.listed[..i];
    RelinkedMembers(s, ids);
    KeepingMembers(s, ids);
    NoDupAppend(Relinked(s, ids), Keeping(s, ids));
    NoDupAppend(Relinked(s, ids) + Keeping(s, ids), s.listed[i..]);
  }

  lemma TimersStep(s: State, i: int)
    requires Valid(s) && 0 <= i < |s.listed|
    ensures s.listed[i] in s.timers && !s.timers[s.listed[i]].disarmed
    ensures TimersAfter(s, s.listed[..i])[s.listed[i]] == s.timers[s.listed[i]]
    ensures TimersAfter(s, s.listed[..i + 1]) ==
            if Due(s, s.listed[i])
            then TimersAfter(s, s.listed[..i])[s.listed[i] := AfterFiring(s.timers[s.listed[i]], s.clock)]
            else TimersAfter(s, s.listed[..i])
    ensures Firing(s, s.listed[..i + 1]) ==
            Firing(s, s.listed[..i]) + if Due(s, s.listed[i]) then [s.listed[i]] else []
  {
    var x, ids := s.listed[i], s.listed[..i];
    assert s.listed[..i + 1] == ids + [x] && s.listed[..i + 1][..i] == ids;
    assert x in s.listed && x !in ids;
  }

  lemma {:induction false} WithoutAt(a: seq<int>, x: int, b: seq<int>)
    requires x !in a
    ensures Without(a + [x] + b, x) == a + b
  {
    if a == [] {
      assert a + [x] + b == [x] + b;
    } else {
      WithoutAt(a[1..], x, b);
      assert (a + [x] + b)[1..] == a[1..] + [x] + b;
    }
  }
}
