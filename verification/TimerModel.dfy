/**
 The systick timers (drivers/timer/systick.c) under the timer state machine of
 kernel/time.c, as functions on a state.

 The clock counts milliseconds and does not wrap.  POSIX timers are known by the ids
 that `reserve_timer_id` hands out, 0 and up; the timer of a sleeping thread has a
 negative key of its own.
 */
module TimerModel {
  import opened Arithmetic
  import opened Sequences

  datatype Timespec = Timespec(sec: nat, nsec: nat)
  datatype Itimer = Itimer(initial: Timespec, interval: Timespec)

  datatype Kind = OneShot | Interval
  datatype Callback = Signal | SignalAndLink | WakeSleeper

  /** A `struct timer_info` with its `struct systick_timer`. */
  datatype Timer = Timer(disarmed: bool, kind: Kind, callback: Callback, value: Itimer,
                         start: int, expire: int)

  /** `listed` is the list `systick_timers`; `reserved` ids have been handed out. */
  datatype State = State(clock: int, listed: seq<int>, timers: map<int, Timer>, reserved: int)

  const BITS_PER_LONG := 32

  predicate Zero(t: Timespec) {
    t.sec == 0 && t.nsec == 0
  }

  /** The whole milliseconds of a time; the rest is cut off. */
  function Ms(t: Timespec): int {
    t.sec * 1000 + t.nsec / 1_000_000
  }

  function Ns(t: Timespec): int {
    t.sec * 1_000_000_000 + t.nsec
  }

  /** `sys_msleep`'s conversion loses nothing. */
  function OfMs(ms: nat): (t: Timespec)
    ensures Ms(t) == ms
  {
    Timespec(ms / 1000, (ms % 1000) * 1_000_000)
  }

  function Armed(t: Timer, now: int, length: Timespec): Timer {
    t.(start := now, expire := now + Ms(length))
  }

  /** `systick_timer_set`: a zero time unlinks the timer, another one links it first. */
  function DeviceSet(s: State, id: int, length: Timespec): State
    requires id in s.timers
  {
    if Zero(length) then s.(listed := Without(s.listed, id))
    else s.(listed := [id] + s.listed,
            timers := s.timers[id := Armed(s.timers[id], s.clock, length)])
  }

  // --------------------------------------------------------------- the expiry pass

  predicate Due(s: State, id: int) {
    id in s.timers && s.timers[id].expire < s.clock
  }

  predicate Rearms(t: Timer) {
    t.kind == Interval || t.callback == SignalAndLink
  }

  /** What an expiry makes of a timer: the interval starts again, or it is over. */
  function AfterFiring(t: Timer, now: int): Timer {
    if Rearms(t) then Armed(t, now, t.value.interval).(kind := Interval, callback := Signal)
    else t.(disarmed := true)
  }

  /** The due timers among `ids`, in list order: those that a pass fires. */
  function Firing(s: State, ids: seq<int>): seq<int> {
    if ids == [] then []
    else
      var n := |ids| - 1;
      Firing(s, ids[..n]) + if Due(s, ids[n]) then [ids[n]] else []
  }

  function Keeping(s: State, ids: seq<int>): seq<int> {
    if ids == [] then []
    else
      var n := |ids| - 1;
      Keeping(s, ids[..n]) + if Due(s, ids[n]) then [] else [ids[n]]
  }

  /** The due timers that start again; each goes to the front, so the last one is first. */
  function Relinked(s: State, ids: seq<int>): seq<int> {
    if ids == [] then []
    else
      var n := |ids| - 1;
      (if Due(s, ids[n]) && Rearms(s.timers[ids[n]]) then [ids[n]] else []) + Relinked(s, ids[..n])
  }

  function TimersAfter(s: State, ids: seq<int>): map<int, Timer> {
    map id | id in s.timers ::
      if id in ids && Due(s, id) then AfterFiring(s.timers[id], s.clock) else s.timers[id]
  }

  /** `systick_bh` */
  function Passed(s: State): State {
    s.(listed := Relinked(s, s.listed) + Keeping(s, s.listed), timers := TimersAfter(s, s.listed))
  }

  // ----------------------------------------------------------------------- events

  datatype Event =
    | Create
    | SetTime(id: int, value: Itimer)
    | Sleep(key: int, ms: nat)
    | Wake(key: int)
    | Tick
    | Pass

  /** `sys_timer_settime` on an existing timer. */
  function Settled(s: State, id: int, value: Itimer): State
    requires id in s.timers
  {
    var t := s.timers[id].(value := value);
    var s1 := s.(timers := s.timers[id := t]);
    if Zero(value.initial) then
      if t.disarmed then s1
      else
        var s2 := DeviceSet(s1, id, value.initial);
        s2.(timers := s2.timers[id := t.(disarmed := true)])
    else
      var once := value.initial != value.interval;
      var t1 := t.(disarmed := false, kind := if once then OneShot else Interval,
                   callback := if once && !Zero(value.interval) then SignalAndLink else Signal);
      DeviceSet(s1.(timers := s1.timers[id := t1]), id, value.initial)
  }

  const NEW_TIMER := Timer(true, OneShot, Signal, Itimer(Timespec(0, 0), Timespec(0, 0)), 0, 0)

  function Sleeper(ms: nat): Timer {
    Timer(false, OneShot, WakeSleeper, Itimer(OfMs(ms), Timespec(0, 0)), 0, 0)
  }

  /** `sys_msleep` up to the switch to another thread */
  function Slept(s: State, key: int, ms: nat): State {
    DeviceSet(s.(timers := s.timers[key := Sleeper(ms)]), key, OfMs(ms))
  }

  /**
   What callers keep to: a time is set on a disarmed timer only, nobody sleeps for no
   time, and a sleeper frees its timer after it was woken.
   */
  predicate Allowed(s: State, e: Event) {
    match e
    case SetTime(id, value) =>
      0 <= id < s.reserved ==> id in s.timers && (Zero(value.initial) || s.timers[id].disarmed)
    case Sleep(key, ms) => key < 0 && key !in s.timers && ms > 0
    case Wake(key) => key < 0 && key in s.timers && s.timers[key].disarmed
    case _ => true
  }

  function Apply(s: State, e: Event): State
    requires Allowed(s, e)
  {
    match e
    case Create =>
      if s.reserved == BITS_PER_LONG then s
      else s.(timers := s.timers[s.reserved := NEW_TIMER], reserved := s.reserved + 1)
    case SetTime(id, value) => if 0 <= id < s.reserved then Settled(s, id, value) else s
    case Sleep(key, ms) => Slept(s, key, ms)
    case Wake(key) => s.(timers := s.timers - {key})
    case Tick => s.(clock := s.clock + 1)
    case Pass => Passed(s)
  }

  function FiredBy(s: State, e: Event): seq<int> {
    if e.Pass? then Firing(s, s.listed) else []
  }

  const BOOT := State(0, [], map[], 0)

  // -------------------------------------------------------------------- invariant

  /** An armed timer runs for the time it was asked for. */
  ghost predicate TimerOk(t: Timer, now: int) {
    && t.start <= now
    && (t.kind == Interval ==> t.callback == Signal)
    && (!t.disarmed ==>
          && t.expire == t.start + Ms(Request(t))
          && (Rearms(t) ==> !Zero(t.value.interval)))
  }

  /** The time after which an armed timer is to fire next. */
  function Request(t: Timer): Timespec {
    if t.kind == Interval then t.value.interval else t.value.initial
  }

  ghost predicate TimersOk(timers: map<int, Timer>, clock: int) {
    forall id :: id in timers ==> TimerOk(timers[id], clock)
  }

  /** A timer is listed exactly when it is not disarmed. */
  ghost predicate ListedIffArmed(listed: seq<int>, timers: map<int, Timer>) {
    forall id :: id in listed <==> id in timers && !timers[id].disarmed
  }

  ghost predicate Valid(s: State) {
    && 0 <= s.clock && 0 <= s.reserved <= BITS_PER_LONG
    && (forall id :: 0 <= id ==> (id in s.timers <==> id < s.reserved))
    && NoDup(s.listed)
    && ListedIffArmed(s.listed, s.timers)
    && TimersOk(s.timers, s.clock)
  }

  lemma {:induction false} FiringMembers(s: State, ids: seq<int>)
    requires NoDup(ids)
    ensures NoDup(Firing(s, ids))
    ensures forall id :: id in Firing(s, ids) <==> id in ids && Due(s, id)
  {
    if ids != [] {
      var n := |ids| - 1;
      FiringMembers(s, ids[..n]);
      assert ids == ids[..n] + [ids[n]];
    }
  }

  lemma {:induction false} KeepingMembers(s: State, ids: seq<int>)
    requires NoDup(ids)
    ensures NoDup(Keeping(s, ids))
    ensures forall id :: id in Keeping(s, ids) <==> id in ids && !Due(s, id)
  {
    if ids != [] {
      var n := |ids| - 1;
      KeepingMembers(s, ids[..n]);
      assert ids == ids[..n] + [ids[n]];
    }
  }

  lemma {:induction false} RelinkedMembers(s: State, ids: seq<int>)
    requires NoDup(ids)
    ensures NoDup(Relinked(s, ids))
    ensures forall id :: id in Relinked(s, ids) <==> id in ids && Due(s, id) && Rearms(s.timers[id])
  {
    if ids != [] {
      var n := |ids| - 1;
      RelinkedMembers(s, ids[..n]);
      assert ids == ids[..n] + [ids[n]];
    }
  }

  lemma PassKeeps(s: State)
    requires Valid(s)
    ensures Valid(Passed(s))
  {
    KeepingMembers(s, s.listed);
    RelinkedMembers(s, s.listed);
    NoDupAppend(Relinked(s, s.listed), Keeping(s, s.listed));
  }

  lemma SetKeeps(s: State, id: int, value: Itimer)
    requires Valid(s) && id in s.timers && (Zero(value.initial) || s.timers[id].disarmed)
    ensures Valid(Settled(s, id, value))
  {
    if !s.timers[id].disarmed {
      WithoutOthers(s.listed, id);
    }
  }

  /**
   Setting a time keeps the timer list a list exactly when the timer was disarmed or
   the call disarms it: an armed timer would be linked a second time.
   */
  lemma SetKeepsExactly(s: State, id: int, value: Itimer)
    requires Valid(s) && id in s.timers
    ensures Valid(Settled(s, id, value)) <==> Zero(value.initial) || s.timers[id].disarmed
  {
    if Zero(value.initial) || s.timers[id].disarmed {
      SetKeeps(s, id, value);
    } else {
      var q := Settled(s, id, value).listed;
      assert q == [id] + s.listed;
      var i :| 0 <= i < |s.listed| && s.listed[i] == id;
      assert q[0] == q[i + 1];
    }
  }

  /** Sleeping keeps the timer list exactly for a time that is not zero. */
  lemma SleepKeepsExactly(s: State, key: int, ms: nat)
    requires Valid(s) && key < 0 && key !in s.timers
    ensures Valid(Slept(s, key, ms)) <==> ms > 0
  {
    OfMsZero(ms);
    SleepOutcome(s, Sleeper(ms), key, OfMs(ms));
  }

  /** The conversion gives zero for zero only. */
  lemma OfMsZero(ms: nat)
    ensures Zero(OfMs(ms)) <==> ms == 0
  {
  }

  lemma SleepOutcome(s: State, t: Timer, key: int, length: Timespec)
    requires Valid(s) && key < 0 && key !in s.timers
    requires !t.disarmed && !Rearms(t) && t.start <= s.clock && t.value.initial == length
    ensures Valid(DeviceSet(s.(timers := s.timers[key := t]), key, length)) <==> !Zero(length)
  {
    assert key !in s.listed;
    var r := DeviceSet(s.(timers := s.timers[key := t]), key, length);
    if Zero(length) {
      NotListed(s.listed, key);
      assert key in r.timers && !r.timers[key].disarmed && key !in r.listed;
      assert !ListedIffArmed(r.listed, r.timers);
    }
  }

  lemma {:induction false} NotListed(q: seq<int>, x: int)
    requires x !in q
    ensures x !in Without(q, x)
  {
    if q != [] { NotListed(q[1..], x); }
  }

  lemma StepKeeps(s: State, e: Event)
    requires Valid(s) && Allowed(s, e)
    ensures Valid(Apply(s, e))
  {
    match e
    case SetTime(id, value) =>
      if 0 <= id < s.reserved { SetKeeps(s, id, value); }
    case Sleep(key, ms) => SleepKeepsExactly(s, key, ms);
    case Pass => PassKeeps(s);
    case _ =>
  }

  // ------------------------------------------------------------------------- runs

  predicate IsRun(s: State, es: seq<Event>)
    decreases |es|
  {
    es == [] || (Allowed(s, es[0]) && IsRun(Apply(s, es[0]), es[1..]))
  }

  function After(s: State, es: seq<Event>): State
    requires IsRun(s, es)
    decreases |es|
  {
    if es == [] then s else After(Apply(s, es[0]), es[1..])
  }

  /** How often timer `id` fires in a run. */
  function Firings(s: State, es: seq<Event>, id: int): int
    requires IsRun(s, es)
    decreases |es|
  {
    if es == [] then 0
    else multiset(FiredBy(s, es[0]))[id] + Firings(Apply(s, es[0]), es[1..], id)
  }

  lemma {:induction false} RunKeeps(s: State, es: seq<Event>)
    requires Valid(s) && IsRun(s, es)
    ensures Valid(After(s, es))
    decreases |es|
  {
    if es != [] {
      StepKeeps(s, es[0]);
      RunKeeps(Apply(s, es[0]), es[1..]);
    }
  }

  /** In every reachable state a timer is listed exactly when it is not disarmed. */
  lemma ReachableListed(es: seq<Event>, id: int)
    requires IsRun(BOOT, es)
    ensures id in After(BOOT, es).listed <==>
            id in After(BOOT, es).timers && !After(BOOT, es).timers[id].disarmed
    ensures NoDup(After(BOOT, es).listed)
  {
    RunKeeps(BOOT, es);
  }

  /** A pass fires each armed timer whose time is over, once, and no other. */
  lemma PassFires(s: State, id: int)
    requires Valid(s)
    ensures multiset(FiredBy(s, Pass))[id] ==
            if id in s.timers && !s.timers[id].disarmed && s.timers[id].expire < s.clock then 1 else 0
  {
    FiringMembers(s, s.listed);
    OnceIfPresent(Firing(s, s.listed), id);
  }

  /** By the tick count no timer fires before the time asked for, cut-off fractions included. */
  lemma NotEarly(es: seq<Event>, id: int)
    requires IsRun(BOOT, es) && id in FiredBy(After(BOOT, es), Pass)
    ensures var s := After(BOOT, es);
            id in s.timers && (s.clock - s.timers[id].start) * 1_000_000 > Ns(Request(s.timers[id]))
  {
    RunKeeps(BOOT, es);
    var s := After(BOOT, es);
    FiringMembers(s, s.listed);
    MsIsFloor(Request(s.timers[id]));
  }

  lemma MsIsFloor(t: Timespec)
    ensures Ms(t) == Ns(t) / 1_000_000
  {
    assert Ns(t) == t.sec * 1000 * 1_000_000 + t.nsec;
  }

  /** The events that set, start or free this timer itself. */
  predicate About(e: Event, id: int) {
    match e
    case SetTime(i, _) => i == id
    case Sleep(key, _) => key == id
    case Wake(key) => key == id
    case _ => false
  }

  predicate LeftAlone(es: seq<Event>, id: int) {
    forall i :: 0 <= i < |es| ==> !About(es[i], id)
  }

  /** What one event about other matters does to a timer. */
  function Aged(t: Timer, clock: int, e: Event): Timer {
    if e.Pass? && !t.disarmed && t.expire < clock then AfterFiring(t, clock) else t
  }

  lemma StepAges(s: State, e: Event, id: int)
    requires Valid(s) && Allowed(s, e) && id in s.timers && !About(e, id)
    ensures id in Apply(s, e).timers && Apply(s, e).timers[id] == Aged(s.timers[id], s.clock, e)
  {
  }

  /** How often an event fires a timer. */
  function Shots(t: Timer, clock: int, e: Event): int {
    if e.Pass? && !t.disarmed && t.expire < clock then 1 else 0
  }

  /** One event of a run, seen by a timer that it is not about. */
  lemma RunStep(s: State, es: seq<Event>, id: int) returns (s1: State)
    requires Valid(s) && IsRun(s, es) && es != [] && id in s.timers && !About(es[0], id)
    ensures Valid(s1) && IsRun(s1, es[1..]) && After(s, es) == After(s1, es[1..])
    ensures id in s1.timers && s1.timers[id] == Aged(s.timers[id], s.clock, es[0])
    ensures s1.clock == s.clock + if es[0].Tick? then 1 else 0
    ensures Firings(s, es, id) == Shots(s.timers[id], s.clock, es[0]) + Firings(s1, es[1..], id)
  {
    s1 := Apply(s, es[0]);
    StepKeeps(s, es[0]);
    StepAges(s, es[0], id);
    PassFires(s, id);
  }

  /**
   A one-shot timer that nobody sets again fires at most once, and has fired exactly
   when it is disarmed; a disarmed timer never fires.
   */
  lemma {:induction false} OneShotFiresOnce(s: State, es: seq<Event>, id: int)
    requires Valid(s) && IsRun(s, es) && LeftAlone(es, id)
    requires id in s.timers && (s.timers[id].disarmed || !Rearms(s.timers[id]))
    ensures id in After(s, es).timers
    ensures s.timers[id].disarmed ==> After(s, es).timers[id].disarmed
    ensures Firings(s, es, id) ==
            if !s.timers[id].disarmed && After(s, es).timers[id].disarmed then 1 else 0
    decreases |es|
  {
    if es != [] {
      var s1 := RunStep(s, es, id);
      OneShotFiresOnce(s1, es[1..], id);
    }
  }

  lemma {:induction false} ClockGrows(s: State, es: seq<Event>)
    requires IsRun(s, es)
    ensures After(s, es).clock >= s.clock
    decreases |es|
  {
    if es != [] { ClockGrows(Apply(s, es[0]), es[1..]); }
  }

  /** Until the clock has passed its time, a timer does not fire, whenever the passes come. */
  lemma {:induction false} NotDueNotFired(s: State, es: seq<Event>, id: int)
    requires Valid(s) && IsRun(s, es) && LeftAlone(es, id)
    requires id in s.timers && !s.timers[id].disarmed && After(s, es).clock <= s.timers[id].expire
    ensures Firings(s, es, id) == 0
    decreases |es|
  {
    if es != [] {
      ClockGrows(s, es);
      var s1 := RunStep(s, es, id);
      NotDueNotFired(s1, es[1..], id);
    }
  }

  /** In terms of the time given to settime, for any run: no firing comes before it. */
  lemma SetTimeNotEarly(s: State, id: int, value: Itimer, es: seq<Event>) returns (s1: State)
    requires Valid(s) && 0 <= id < s.reserved && s.timers[id].disarmed && !Zero(value.initial)
    ensures Allowed(s, SetTime(id, value)) && s1 == Apply(s, SetTime(id, value))
    ensures IsRun(s1, es) && LeftAlone(es, id) && Firings(s1, es, id) > 0 ==>
            (After(s1, es).clock - s.clock) * 1_000_000 > Ns(value.initial)
  {
    s1 := Apply(s, SetTime(id, value));
    StepKeeps(s, SetTime(id, value));
    MsIsFloor(value.initial);
    if IsRun(s1, es) && LeftAlone(es, id) && After(s1, es).clock <= s1.timers[id].expire {
      NotDueNotFired(s1, es, id);
    }
  }

  // ------------------------------------------------------------- punctual passes

  /** Each tick is followed by its pass before anything else happens. */
  predicate Punctual(es: seq<Event>) {
    es == [] ||
    if es[0].Tick? then |es| >= 2 && es[1].Pass? && Punctual(es[2..])
    else !es[0].Pass? && Punctual(es[1..])
  }

  function Ticks(es: seq<Event>): int {
    if es == [] then 0 else (if es[0].Tick? then 1 else 0) + Ticks(es[1..])
  }

  /**
   The number of firings in `n` ticks: the first when the time asked for has passed
   by a tick, the next ones every interval and a tick.
   */
  function Expected(t: Timer, now: int, n: int): int
  {
    var wait := t.expire - now;
    if t.disarmed || n <= wait then 0
    else if Rearms(t) then 1 + Quotient(n - wait - 1, Ms(t.value.interval) + 1)
    else 1
  }

  /** One tick and its pass move the expected count along. */
  lemma ExpectedStep(t: Timer, now: int, n: int)
    requires n >= 1 && (t.disarmed || now <= t.expire)
    ensures Expected(t, now, n) ==
            (if !t.disarmed && t.expire < now + 1 then 1 else 0) +
            Expected(Aged(t, now + 1, Pass), now + 1, n - 1)
  {
    if !t.disarmed && t.expire == now && Rearms(t) {
      var p := Ms(t.value.interval) + 1;
      if n - 1 >= p {
        OnePeriodLess(n - 1, p);
      } else {
        DivModUnique(n - 1, p, 0, n - 1);
      }
    }
  }

  lemma OnePeriodLess(a: nat, p: nat)
    requires a >= p > 0
    ensures Quotient(a, p) == 1 + Quotient(a - p, p)
  {
    var q, r := Quotient(a - p, p), Remainder(a - p, p);
    DivModUnique(a, p, q + 1, r);
  }

  lemma TicksNat(es: seq<Event>)
    ensures Ticks(es) >= 0
  {
  }

  /**
   In a run of punctual passes every timer left alone fires as often as its times
   say, whatever happens to the others.
   */
  lemma {:induction false} PunctualFirings(s: State, es: seq<Event>, id: int)
    requires Valid(s) && IsRun(s, es) && LeftAlone(es, id) && Punctual(es)
    requires id in s.timers && (s.timers[id].disarmed || s.clock <= s.timers[id].expire)
    ensures Firings(s, es, id) == Expected(s.timers[id], s.clock, Ticks(es))
    decreases |es|
  {
    if es != [] {
      if es[0].Tick? {
        var s2 := PunctualRound(s, es, id);
        PunctualFirings(s2, es[2..], id);
      } else {
        var s1 := RunStep(s, es, id);
        PunctualFirings(s1, es[1..], id);
      }
    }
  }

  /** A tick and its pass */
  lemma PunctualRound(s: State, es: seq<Event>, id: int) returns (s2: State)
    requires Valid(s) && IsRun(s, es) && LeftAlone(es, id) && Punctual(es) && es != [] && es[0].Tick?
    requires id in s.timers && (s.timers[id].disarmed || s.clock <= s.timers[id].expire)
    ensures Valid(s2) && IsRun(s2, es[2..]) && LeftAlone(es[2..], id) && Punctual(es[2..])
    ensures id in s2.timers && (s2.timers[id].disarmed || s2.clock <= s2.timers[id].expire)
    ensures Firings(s, es, id) == Expected(s.timers[id], s.clock, Ticks(es)) -
              Expected(s2.timers[id], s2.clock, Ticks(es[2..])) + Firings(s2, es[2..], id)
  {
    var s1 := RunStep(s, es, id);
    var rest := es[1..];
    assert rest[0] == Pass && rest[1..] == es[2..];
    s2 := RunStep(s1, rest, id);
    TicksNat(es[2..]);
    assert Ticks(es) == 1 + Ticks(rest) == 1 + Ticks(es[2..]);
    ExpectedStep(s.timers[id], s.clock, Ticks(es));
  }

  /**
   What settime promises, in terms of the times given to it: no firing until the initial
   time has passed by a tick, then one, and if an interval was given, one more whenever
   the interval has passed by a tick.
   */
  lemma SetTimeFirings(s: State, id: int, value: Itimer, es: seq<Event>) returns (s1: State)
    requires Valid(s) && 0 <= id < s.reserved && s.timers[id].disarmed && !Zero(value.initial)
    ensures Allowed(s, SetTime(id, value)) && s1 == Apply(s, SetTime(id, value)) && Valid(s1)
    ensures IsRun(s1, es) && LeftAlone(es, id) && Punctual(es) ==>
            var n, first, period := Ticks(es), Ms(value.initial), Ms(value.interval) + 1;
            Firings(s1, es, id) ==
              if n <= first then 0
              else if Zero(value.interval) then 1
              else 1 + (n - first - 1) / period
  {
    s1 := Apply(s, SetTime(id, value));
    StepKeeps(s, SetTime(id, value));
    if IsRun(s1, es) && LeftAlone(es, id) && Punctual(es) {
      PunctualFirings(s1, es, id);
    }
  }

  /** Setting a timer to zero stops it. */
  lemma SetToZeroStops(s: State, id: int, value: Itimer, es: seq<Event>) returns (s1: State)
    requires Valid(s) && 0 <= id < s.reserved && Zero(value.initial)
    ensures Allowed(s, SetTime(id, value)) && s1 == Apply(s, SetTime(id, value)) && Valid(s1)
    ensures IsRun(s1, es) && LeftAlone(es, id) ==> Firings(s1, es, id) == 0
  {
    s1 := Apply(s, SetTime(id, value));
    StepKeeps(s, SetTime(id, value));
    if IsRun(s1, es) && LeftAlone(es, id) {
      OneShotFiresOnce(s1, es, id);
    }
  }

  /** A sleeper is woken once, when as many milliseconds as it asked for have passed by a tick. */
  lemma SleepFirings(s: State, key: int, ms: nat, es: seq<Event>) returns (s1: State)
    requires Valid(s) && Allowed(s, Sleep(key, ms))
    ensures s1 == Apply(s, Sleep(key, ms)) && Valid(s1)
    ensures IsRun(s1, es) && LeftAlone(es, key) && Punctual(es) ==>
            Firings(s1, es, key) == if Ticks(es) <= ms then 0 else 1
  {
    s1 := Apply(s, Sleep(key, ms));
    StepKeeps(s, Sleep(key, ms));
    SleptUntil(s, key, ms);
    if IsRun(s1, es) && LeftAlone(es, key) && Punctual(es) {
      OneShotWhenDue(s1, es, key, ms);
    }
  }

  lemma OneShotWhenDue(s: State, es: seq<Event>, id: int, wait: nat)
    requires Valid(s) && IsRun(s, es) && LeftAlone(es, id) && Punctual(es)
    requires id in s.timers && !s.timers[id].disarmed && !Rearms(s.timers[id])
    requires s.timers[id].expire == s.clock + wait
    ensures Firings(s, es, id) == if Ticks(es) <= wait then 0 else 1
  {
    PunctualFirings(s, es, id);
  }

  lemma SleptUntil(s: State, key: int, ms: nat)
    requires ms > 0
    ensures var s1 := Slept(s, key, ms);
            && key in s1.timers && s1.clock == s.clock && s1.timers[key].expire == s.clock + ms
            && !s1.timers[key].disarmed && !Rearms(s1.timers[key])
  {
    OfMsZero(ms);
    assert Ms(OfMs(ms)) == ms;
  }

  // --------------------------------------------------------------- the wall clock

  /**
   Tick `n` comes at the instant of `n` milliseconds, in nanoseconds; timer `id` has just
   been armed for `length`, at instant `t0`; the run `es` follows.
   */
  ghost predicate ArmedAt(s: State, es: seq<Event>, id: int, t0: nat, length: Timespec) {
    && Valid(s) && IsRun(s, es) && LeftAlone(es, id) && Punctual(es)
    && id in s.timers && !s.timers[id].disarmed && Request(s.timers[id]) == length
    && s.timers[id].start == s.clock == t0 / 1_000_000
  }

  /** When the run ends. */
  function Instant(s: State, es: seq<Event>): int {
    (s.clock + Ticks(es)) * 1_000_000
  }

  /** A timer armed for `length`, in whatever state and at whatever instant, has never fired early. */
  ghost predicate NeverEarly(length: Timespec) {
    forall s, es, id, t0: nat :: ArmedAt(s, es, id, t0, length) && Firings(s, es, id) > 0 ==>
      Instant(s, es) - t0 >= Ns(length)
  }

  /** A timer has fired exactly when the tick after its whole milliseconds has come. */
  lemma FirstFiring(s: State, es: seq<Event>, id: int, t0: nat, length: Timespec)
    requires ArmedAt(s, es, id, t0, length)
    ensures Firings(s, es, id) > 0 <==>
            Instant(s, es) >= (t0 / 1_000_000 + Ns(length) / 1_000_000 + 1) * 1_000_000
  {
    PunctualFirings(s, es, id);
    MsIsFloor(length);
  }

  /**
   By the wall clock a timer may fire early, because it is armed in the middle of a
   tick; it never does exactly when the part of its time below a millisecond is at
   most a nanosecond.
   */
  lemma WallClock(length: Timespec)
    requires !Zero(length)
    ensures NeverEarly(length) <==> Ns(length) % 1_000_000 <= 1
  {
    if Ns(length) % 1_000_000 <= 1 {
      forall s, es, id, t0: nat | ArmedAt(s, es, id, t0, length) && Firings(s, es, id) > 0
        ensures Instant(s, es) - t0 >= Ns(length)
      {
        FirstFiring(s, es, id, t0, length);
      }
    } else {
      var s := ArmedFromBoot(length);
      var es := Rounds(Ms(length) + 1);
      RoundsRun(s, Ms(length) + 1);
      MsIsFloor(length);
      FirstFiring(s, es, 0, 999_999, length);
      assert ArmedAt(s, es, 0, 999_999, length);
    }
  }

  /** A one-shot timer is made and armed at the first instant. */
  lemma ArmedFromBoot(length: Timespec) returns (s: State)
    requires !Zero(length)
    ensures Valid(s) && s.clock == 0 && s.timers.Keys == {0}
    ensures !s.timers[0].disarmed && Request(s.timers[0]) == length && s.timers[0].start == 0
    ensures exists es :: IsRun(BOOT, es) && s == After(BOOT, es)
  {
    var value := Itimer(length, Timespec(0, 0));
    var e1, e2 := Create, SetTime(0, value);
    var s1 := Apply(BOOT, e1);
    StepKeeps(BOOT, e1);
    s := Apply(s1, e2);
    StepKeeps(s1, e2);
    TwoEvents(BOOT, s1, e1, e2);
  }

  lemma TwoEvents(s: State, s1: State, e1: Event, e2: Event)
    requires Allowed(s, e1) && s1 == Apply(s, e1) && Allowed(s1, e2)
    ensures IsRun(s, [e1, e2]) && After(s, [e1, e2]) == Apply(s1, e2)
  {
    var es := [e1, e2];
    var rest := es[1..];
    assert rest == [e2] && rest[1..] == [];
    assert IsRun(Apply(s1, e2), []);
    assert IsRun(s1, rest) && After(s1, rest) == Apply(s1, e2);
  }

  /** `n` ticks, each with its pass. */
  function Rounds(n: nat): seq<Event> {
    if n == 0 then [] else [Tick, Pass] + Rounds(n - 1)
  }

  lemma {:induction false} RoundsRun(s: State, n: nat)
    requires Valid(s)
    ensures IsRun(s, Rounds(n)) && Punctual(Rounds(n)) && Ticks(Rounds(n)) == n && LeftAlone(Rounds(n), 0)
    decreases n
  {
    if n > 0 {
      var es := Rounds(n);
      var s1 := Apply(s, Tick);
      StepKeeps(s, Tick);
      StepKeeps(s1, Pass);
      RoundsRun(Apply(s1, Pass), n - 1);
      assert es[1..] == [Pass] + Rounds(n - 1) && es[1..][1..] == Rounds(n - 1) && es[2..] == Rounds(n - 1);
      assert IsRun(s1, es[1..]);
      assert Ticks(es[1..]) == n - 1;
    }
  }

  // ------------------------------------------------------- what callers must not do

  /** Arming an armed timer, and sleeping for no time, do break the list after boot. */
  lemma MisuseBreaks(length: Timespec) returns (s: State)
    requires !Zero(length)
    ensures exists es :: IsRun(BOOT, es) && s == After(BOOT, es)
    ensures 0 in s.timers && !Valid(Settled(s, 0, Itimer(length, length)))
    ensures !Valid(Slept(s, -1, 0))
  {
    s := ArmedFromBoot(length);
    SetKeepsExactly(s, 0, Itimer(length, length));
    SleepKeepsExactly(s, -1, 0);
  }
}
