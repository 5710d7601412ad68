/**
  What the monitor must do over whole runs: count every second of active use and no other, ask for a
  locked screen exactly when one is called for, keep a parent's lock until it is lifted, and warn at
  every threshold not yet warned at (go/monitor/monitor.go).

  Everything here is said of clock readings, settings and the platform's answers; the phases of a step
  appear only in the proofs.
  */
module Duties {
  import opened Wrappers
  import opened Policy
  import opened Monitor
  import opened MonitorRuns

  // ------------------------------------------------------------------------------------------
  // Runs by index
  // ------------------------------------------------------------------------------------------

  lemma {:induction false} RunStep(c: Fields, events: seq<Event>, n: nat)
    requires n < |events|
    ensures Run(c, events[..n + 1]) == Apply(Run(c, events[..n]), events[n])
    decreases n
  {
    hide Apply;
    assert events[..n + 1][0] == events[0];
    if n == 0 {
      assert events[..1][1..] == [];
    } else {
      assert events[..n + 1][1..] == events[1..][..n] && events[..n][1..] == events[1..][..n - 1];
      RunStep(Apply(c, events[0]), events[1..], n - 1);
    }
  }

  lemma {:induction false} OrderedAt(start: Moment, events: seq<Event>, i: nat)
    requires Ordered(start, events) && i < |events|
    ensures (if i == 0 then start else events[i - 1].now) <= events[i].now && ValidAction(events[i].action)
    decreases i
  {
    if i > 0 {
      OrderedAt(events[0].now, events[1..], i - 1);
    }
  }

  function TimeBefore(start: Moment, events: seq<Event>, n: nat): Moment
    requires n <= |events|
  {
    if n == 0 then start else events[n - 1].now
  }

  /** What every event keeps: the settings are valid times, the user the same, the stamp in the past. */
  predicate Regular(c: Fields, now: Moment) {
    c.daily.Valid() && c.runtime.stamp <= now
  }

  lemma StepKeeps(c: Fields, now: Moment, w: PlatformAnswers)
    ensures var d := AfterStep(c, now, w);
            && d.exempt == c.exempt && d.daily == c.daily && d.runtime.stamp in {c.runtime.stamp, now}
  {
    hide ShouldLock, DueWarning, UsagePeriodDate, AtLeast;
  }

  lemma ApplyKeeps(c: Fields, now: Moment, e: Event)
    requires Regular(c, now) && now <= e.now && ValidAction(e.action)
    ensures Regular(Apply(c, e), e.now) && Apply(c, e).exempt == c.exempt
  {
    hide AfterStep, UsagePeriodDate;
    if e.action.StepLoop? {
      StepKeeps(c, e.now, e.action.answers);
    }
  }

  lemma {:induction false} RunKeeps(c: Fields, start: Moment, events: seq<Event>, n: nat)
    requires Ordered(start, events) && Regular(c, start) && n <= |events|
    ensures Regular(Run(c, events[..n]), TimeBefore(start, events, n)) && Run(c, events[..n]).exempt == c.exempt
    decreases n
  {
    hide Regular, Apply;
    if n == 0 {
      assert events[..0] == [];
    } else {
      RunKeeps(c, start, events, n - 1);
      OrderedAt(start, events, n - 1);
      RunStep(c, events, n - 1);
      ApplyKeeps(Run(c, events[..n - 1]), TimeBefore(start, events, n - 1), events[n - 1]);
    }
  }

  // ------------------------------------------------------------------------------------------
  // When the counters start over
  // ------------------------------------------------------------------------------------------

  ghost predicate WakeBetween(from: Moment, to: Moment, wake: TimeOfDay) {
    exists day :: from < At(day, wake) <= to
  }

  /** The new wake time of a day has passed and the old one is still to come. */
  ghost predicate WakeMovedPast(now: Moment, before: TimeOfDay, after: TimeOfDay) {
    exists day :: At(day, after) <= now < At(day, before)
  }

  /** A new period begins at a loop step if a wake time has come since the last stamp, and when the wake
      time is moved from after now to before. */
  ghost predicate NewPeriod(c: Fields, e: Event) {
    match e.action
    case StepLoop(_) => WakeBetween(c.runtime.stamp, e.now, c.daily.wake)
    case WakeTimeSet(t) => WakeMovedPast(e.now, c.daily.wake, t)
    case _ => false
  }

  lemma NewPeriodIs(c: Fields, e: Event)
    requires Regular(c, e.now) && ValidAction(e.action)
    ensures StartsOver(c, e) <==> NewPeriod(c, e)
  {
    hide UsagePeriodDate, WakeBetween, WakeMovedPast;
    match e.action {
      case StepLoop(_) => WakeComes(c.runtime.stamp, e.now, c.daily.wake);
      case WakeTimeSet(t) => WakeMoves(e.now, c.daily.wake, t);
      case _ =>
    }
  }

  lemma WakeComes(from: Moment, to: Moment, wake: TimeOfDay)
    requires wake.Valid() && from <= to
    ensures UsagePeriodDate(from, wake) != UsagePeriodDate(to, wake) <==> WakeBetween(from, to, wake)
  {
    hide UsagePeriodDate, At;
    var a, b := UsagePeriodDate(from, wake), UsagePeriodDate(to, wake);
    PeriodMonotone(from, to, wake);
    PeriodIsInterval(from, wake, a);
    PeriodIsInterval(to, wake, b);
    if a != b {
      WakesInOrder(a + 1, b, wake);
      assert from < At(a + 1, wake) <= to;
    }
    if WakeBetween(from, to, wake) {
      var day :| from < At(day, wake) <= to;
      PeriodIsInterval(from, wake, b);
      WakesInOrder(day, a, wake);
      WakesInOrder(b + 1, day, wake);
    }
  }

  lemma WakesInOrder(a: int, b: int, wake: TimeOfDay)
    ensures a <= b ==> At(a, wake) <= At(b, wake)
  {}

  lemma WakeMoves(now: Moment, before: TimeOfDay, t: TimeOfDay)
    requires before.Valid() && t.Valid()
    ensures UsagePeriodDate(now, before) < UsagePeriodDate(now, t) <==> WakeMovedPast(now, before, t)
  {
    hide DayOf, MinuteOfDay, At;
    MinuteAgainst(now, before);
    MinuteAgainst(now, t);
    if UsagePeriodDate(now, before) < UsagePeriodDate(now, t) {
      assert At(DayOf(now), t) <= now < At(DayOf(now), before);
    }
    if WakeMovedPast(now, before, t) {
      var day :| At(day, t) <= now < At(day, before);
      TimesInDay(day, t, before, now);
    }
  }

  lemma TimesInDay(day: int, a: TimeOfDay, b: TimeOfDay, now: Moment)
    requires a.Valid() && b.Valid() && At(day, a) <= now < At(day, b)
    ensures DayOf(now) == day
  {
    SameDay(day, now);
  }

  // ------------------------------------------------------------------------------------------
  // Use
  // ------------------------------------------------------------------------------------------

  /** The monitor before the n-th event. */
  function Before(c: Fields, events: seq<Event>, n: nat): Fields
    requires n <= |events|
  {
    Run(c, events[..n])
  }

  ghost predicate Over(c: Fields, events: seq<Event>, n: nat)
    requires n < |events|
  {
    NewPeriod(Before(c, events, n), events[n])
  }

  /** The last loop step among the first n events, or -1. */
  function LastStep(events: seq<Event>, n: nat): (j: int)
    requires n <= |events|
    ensures -1 <= j < n && (j >= 0 ==> events[j].action.StepLoop?)
    ensures forall k :: j < k < n ==> !events[k].action.StepLoop?
  {
    if n == 0 then -1 else if events[n - 1].action.StepLoop? then n - 1 else LastStep(events, n - 1)
  }

  /** The n-th event is a loop step that finds the session active and nothing that calls for a locked
      screen; in a new period the counters start from nothing. */
  ghost predicate InUse(c: Fields, events: seq<Event>, n: nat)
    requires n < |events|
  {
    var s, e := Before(c, events, n), events[n];
    && e.action.StepLoop? && e.action.answers.active && !c.exempt
    && !MustBeLocked(if Over(c, events, n) then s.(runtime := Runtime(e.now, 0.0, false, 0)) else s, e.now)
  }

  /** From step j up to the first n events nothing starts over. */
  ghost predicate SamePeriodSince(c: Fields, events: seq<Event>, j: int, n: nat)
    requires n <= |events|
  {
    forall k :: 0 <= k && j < k < n ==> !Over(c, events, k)
  }

  /** The seconds between two successive loop steps in use, less than a minute apart in one period. */
  ghost function Gap(c: Fields, events: seq<Event>, n: nat): real
    requires n < |events|
  {
    var j := LastStep(events, n);
    if j >= 0 && InUse(c, events, j) && InUse(c, events, n) && SamePeriodSince(c, events, j, n + 1)
       && events[j].now < events[n].now < events[j].now + 60 * SECOND
    then (events[n].now - events[j].now) as real / 1000000.0
    else 0.0
  }

  /** All such gaps since the counters last started over, on top of what there was at the start. */
  ghost function ActiveTime(c: Fields, events: seq<Event>, n: nat): real
    requires n <= |events|
  {
    if n == 0 then c.runtime.accumulated
    else if Over(c, events, n - 1) then 0.0
    else ActiveTime(c, events, n - 1) + Gap(c, events, n - 1)
  }

  /** The gap that is open before the n-th event. */
  ghost function OpenGap(c: Fields, events: seq<Event>, n: nat): Option<Moment>
    requires n <= |events|
  {
    var j := LastStep(events, n);
    if j >= 0 && InUse(c, events, j) && SamePeriodSince(c, events, j, n) then Some(events[j].now) else None
  }

  lemma OpenGapStep(c: Fields, events: seq<Event>, n: nat)
    requires n < |events|
    ensures OpenGap(c, events, n + 1)
         == if events[n].action.StepLoop? then (if InUse(c, events, n) then Some(events[n].now) else None)
            else if Over(c, events, n) then None
            else OpenGap(c, events, n)
  {
    hide InUse, Over;
    var j := LastStep(events, n + 1);
    if !events[n].action.StepLoop? {
      assert SamePeriodSince(c, events, j, n + 1) <==> SamePeriodSince(c, events, j, n) && (j < n ==> !Over(c, events, n));
    }
  }

  lemma GapIs(c: Fields, events: seq<Event>, n: nat)
    requires n < |events|
    ensures var began := OpenGap(c, events, n);
            Gap(c, events, n)
            == if InUse(c, events, n) && !Over(c, events, n) && began.Some?
                  && began.value < events[n].now < began.value + 60 * SECOND
               then (events[n].now - began.value) as real / 1000000.0 else 0.0
  {
    hide InUse, Over, LastStep;
    var j := LastStep(events, n);
    assert SamePeriodSince(c, events, j, n + 1) <==> SamePeriodSince(c, events, j, n) && (j < n ==> !Over(c, events, n));
  }

  /** What an event does to the use and to the open gap. */
  lemma EventCounts(s: Fields, e: Event, exempt: bool)
    requires Regular(s, e.now) && ValidAction(e.action) && s.exempt == exempt
    ensures var over := NewPeriod(s, e);
            var r := if over then s.(runtime := Runtime(e.now, 0.0, false, 0)) else s;
            var inUse := e.action.StepLoop? && e.action.answers.active && !exempt && !MustBeLocked(r, e.now);
            var gap := if inUse && !over && s.lastTick.Some? && s.lastTick.value < e.now < s.lastTick.value + 60 * SECOND
                       then (e.now - s.lastTick.value) as real / 1000000.0 else 0.0;
            && Apply(s, e).runtime.accumulated == r.runtime.accumulated + gap
            && Apply(s, e).lastTick == (if e.action.StepLoop? then (if inUse then Some(e.now) else None)
                                        else if over then None else s.lastTick)
  {
    hide MustBeLocked, NewPeriod, UsagePeriodDate, Credit, AfterStep, Tick;
    NewPeriodIs(s, e);
    if e.action.StepLoop? {
      TickCounts(s, e.now, e.action.answers.active);
      StepTicks(s, e.now, e.action.answers);
    }
  }

  lemma StepTicks(c: Fields, now: Moment, w: PlatformAnswers)
    ensures var d, t := AfterStep(c, now, w), Tick(c, now, w.active);
            && d.runtime.accumulated == t.runtime.accumulated && d.lastTick == t.lastTick
            && d.runtime.manualLock == t.runtime.manualLock && d.runtime.extension == t.runtime.extension
  {
    hide Tick, Warn;
    WarnKeeps(Tick(c, now, w.active), now, w.shown);
  }

  /** In every run from a start of the monitor, the use is exactly the active time: every gap between two
      successive loop steps that find the session in use, less than a minute apart, and nothing else. */
  lemma {:induction false} UseIsActiveTime(c: Fields, start: Moment, events: seq<Event>, n: nat)
    requires Ordered(start, events) && Regular(c, start) && c.lastTick.None? && n <= |events|
    ensures Run(c, events[..n]).runtime.accumulated == ActiveTime(c, events, n)
    ensures Run(c, events[..n]).lastTick == OpenGap(c, events, n)
    decreases n
  {
    hide Apply, Regular, NewPeriod, MustBeLocked, Gap, OpenGap, ValidAction;
    if n == 0 {
      assert events[..0] == [];
      NoOpenGap(c, events);
    } else {
      var s, e := Run(c, events[..n - 1]), events[n - 1];
      UseIsActiveTime(c, start, events, n - 1);
      RunKeeps(c, start, events, n - 1);
      OrderedAt(start, events, n - 1);
      RegularLater(s, TimeBefore(start, events, n - 1), e.now);
      RunStep(c, events, n - 1);
      EventCounts(s, e, c.exempt);
      OpenGapStep(c, events, n - 1);
      GapIs(c, events, n - 1);
    }
  }

  lemma NoOpenGap(c: Fields, events: seq<Event>)
    ensures OpenGap(c, events, 0).None?
  {}

  lemma RegularLater(c: Fields, now: Moment, later: Moment)
    requires Regular(c, now) && now <= later
    ensures Regular(c, later)
  {}

  /** Loop steps from the i-th to the j-th event, each in use and less than a minute after the one before,
      in one period. */
  ghost predicate UsedThroughout(c: Fields, events: seq<Event>, i: nat, j: nat)
    requires i <= j < |events|
  {
    && (forall k :: i <= k <= j ==> InUse(c, events, k))
    && (forall k :: i < k <= j ==> !Over(c, events, k) && events[k - 1].now < events[k].now < events[k - 1].now + 60 * SECOND)
  }

  /** So a session in use all the time is charged exactly the time that passes. */
  lemma {:induction false} UseKeepsPace(c: Fields, start: Moment, events: seq<Event>, i: nat, j: nat)
    requires Ordered(start, events) && Regular(c, start) && c.lastTick.None?
    requires i <= j < |events| && UsedThroughout(c, events, i, j)
    ensures Run(c, events[..j + 1]).runtime.accumulated
         == Run(c, events[..i + 1]).runtime.accumulated + (events[j].now - events[i].now) as real / 1000000.0
    decreases j
  {
    hide Run, Regular, InUse, Over, LastStep;
    if i < j {
      UseKeepsPace(c, start, events, i, j - 1);
      UseIsActiveTime(c, start, events, j + 1);
      UseIsActiveTime(c, start, events, j);
      StepBefore(c, events, j);
      assert SamePeriodSince(c, events, j - 1, j + 1);
    }
  }

  lemma StepBefore(c: Fields, events: seq<Event>, j: nat)
    requires 0 < j < |events| && InUse(c, events, j - 1)
    ensures LastStep(events, j) == j - 1
  {
    hide MustBeLocked;
  }

  // ------------------------------------------------------------------------------------------
  // Locking
  // ------------------------------------------------------------------------------------------

  /** Whether an event asks the platform to lock. */
  predicate AsksToLock(c: Fields, e: Event) {
    match e.action
    case StepLoop(w) => Asks(c, e.now, w)
    case LockEngaged(_) => true
    case _ => false
  }

  /** The n-th event meets a call for a locked screen: a parent's lock, or a loop step that leaves a cause
      and finds the session open. */
  ghost predicate LockDue(c: Fields, events: seq<Event>, n: nat)
    requires n < |events|
  {
    match events[n].action
    case StepLoop(w) => MustBeLocked(Run(c, events[..n + 1]), events[n].now) && !w.sessionLocked
    case LockEngaged(_) => true
    case _ => false
  }

  predicate LockWorks(e: Event) {
    match e.action
    case StepLoop(w) => w.lockWorks
    case LockEngaged(works) => works
    case _ => false
  }

  /** In every run the platform is asked to lock exactly when that is due. */
  lemma LocksWhenDue(c: Fields, start: Moment, events: seq<Event>, n: nat)
    requires Ordered(start, events) && Regular(c, start) && n < |events|
    ensures AsksToLock(Run(c, events[..n]), events[n]) <==> LockDue(c, events, n)
    ensures Run(c, events[..n + 1]).isLocked
       <==> Run(c, events[..n]).isLocked || (LockDue(c, events, n) && LockWorks(events[n]))
  {
    hide Run, AfterStep, MustBeLocked, Asks, UsagePeriodDate;
    RunKeeps(c, start, events, n);
    RunStep(c, events, n);
    if events[n].action.StepLoop? {
      StepAsks(Run(c, events[..n]), events[n].now, events[n].action.answers);
    }
  }

  /** So the monitor takes the PC for locked exactly if a lock that was due has worked. */
  lemma {:induction false} LockedExactly(c: Fields, start: Moment, events: seq<Event>, n: nat)
    requires Ordered(start, events) && Regular(c, start) && n <= |events|
    ensures Run(c, events[..n]).isLocked
       <==> c.isLocked || exists k :: 0 <= k < n && LockDue(c, events, k) && LockWorks(events[k])
    decreases n
  {
    hide Apply, Regular, LockDue, LockWorks;
    if n == 0 {
      assert events[..0] == [];
    } else {
      LockedExactly(c, start, events, n - 1);
      LocksWhenDue(c, start, events, n - 1);
    }
  }

  /** What lifts a parent's lock: lifting it, granting time, a new period. */
  ghost predicate Lifts(c: Fields, events: seq<Event>, n: nat)
    requires n < |events|
  {
    events[n].action.LockCleared? || events[n].action.TimeExtended? || Over(c, events, n)
  }

  ghost predicate NotLifted(c: Fields, events: seq<Event>, from: nat, n: nat)
    requires n <= |events|
  {
    forall k :: from <= k < n ==> !Lifts(c, events, k)
  }

  /** Event k is a parent's lock, and it has not been lifted up to the n-th event. */
  ghost predicate LockedSince(c: Fields, events: seq<Event>, k: nat, n: nat)
    requires n <= |events|
  {
    k < n && events[k].action.LockEngaged? && NotLifted(c, events, k + 1, n)
  }

  /** Some parent's lock stands. */
  ghost predicate LockStands(c: Fields, events: seq<Event>, n: nat)
    requires n <= |events|
  {
    exists k: nat :: LockedSince(c, events, k, n)
  }

  lemma EventLock(s: Fields, e: Event)
    requires Regular(s, e.now) && ValidAction(e.action)
    ensures Apply(s, e).runtime.manualLock
       <==> e.action.LockEngaged?
            || (s.runtime.manualLock && !e.action.LockCleared? && !e.action.TimeExtended? && !NewPeriod(s, e))
  {
    hide NewPeriod, UsagePeriodDate, AfterStep, MustBeLocked;
    NewPeriodIs(s, e);
    if e.action.StepLoop? {
      StepTicks(s, e.now, e.action.answers);
      TickCounts(s, e.now, e.action.answers.active);
    }
  }

  /** A parent's lock is in force exactly from the moment it is set until it is lifted, time is granted, or
      a new period begins. */
  lemma {:induction false} ManualLockExactly(c: Fields, start: Moment, events: seq<Event>, n: nat)
    requires Ordered(start, events) && Regular(c, start) && n <= |events|
    ensures Run(c, events[..n]).runtime.manualLock
       <==> LockStands(c, events, n) || (c.runtime.manualLock && NotLifted(c, events, 0, n))
    decreases n
  {
    hide Apply, Regular, NewPeriod, ValidAction;
    if n == 0 {
      assert events[..0] == [];
    } else {
      var s, e := Run(c, events[..n - 1]), events[n - 1];
      ManualLockExactly(c, start, events, n - 1);
      RunKeeps(c, start, events, n - 1);
      OrderedAt(start, events, n - 1);
      RegularLater(s, TimeBefore(start, events, n - 1), e.now);
      RunStep(c, events, n - 1);
      EventLock(s, e);
      LockStep(c, events, n - 1);
    }
  }

  /** How what lifts a lock adds up, event by event. */
  lemma NotLiftedStep(c: Fields, events: seq<Event>, from: nat, n: nat)
    requires n < |events|
    ensures NotLifted(c, events, from, n + 1) <==> NotLifted(c, events, from, n) && (from <= n ==> !Lifts(c, events, n))
  {
    hide Lifts;
  }

  lemma LockStep(c: Fields, events: seq<Event>, n: nat)
    requires n < |events|
    ensures LockStands(c, events, n + 1)
       <==> events[n].action.LockEngaged? || (LockStands(c, events, n) && !Lifts(c, events, n))
    ensures NotLifted(c, events, 0, n + 1) <==> NotLifted(c, events, 0, n) && !Lifts(c, events, n)
  {
    hide Lifts, NotLifted;
    NotLiftedStep(c, events, 0, n);
    if LockStands(c, events, n + 1) {
      var k: nat :| LockedSince(c, events, k, n + 1);
      NotLiftedStep(c, events, k + 1, n);
      assert k < n ==> LockedSince(c, events, k, n);
    }
    if events[n].action.LockEngaged? {
      NothingToLift(c, events, n + 1);
      assert LockedSince(c, events, n, n + 1);
    } else if LockStands(c, events, n) {
      var k: nat :| LockedSince(c, events, k, n);
      NotLiftedStep(c, events, k + 1, n);
      assert !Lifts(c, events, n) ==> LockedSince(c, events, k, n + 1);
    }
  }

  lemma NothingToLift(c: Fields, events: seq<Event>, n: nat)
    requires n <= |events|
    ensures NotLifted(c, events, n, n)
  {}

  /** While a parent's lock stands, every moment of a monitored user calls for a locked screen, and every
      loop step that finds the session open asks for it. */
  lemma LockHolds(c: Fields, start: Moment, events: seq<Event>, k: nat, n: nat)
    requires Ordered(start, events) && Regular(c, start) && !c.exempt
    requires n <= |events| && LockedSince(c, events, k, n)
    ensures forall now :: MustBeLocked(Run(c, events[..n]), now) && Run(c, events[..n]).InLockWindow(now)
    ensures n < |events| && events[n].action.StepLoop? && !events[n].action.answers.sessionLocked && !Over(c, events, n) ==>
              AsksToLock(Run(c, events[..n]), events[n])
  {
    hide Apply, Regular, Run, Lifts, NotLifted, NewPeriod, Asks, ShouldLock, Night, UsedUp, Over;
    ManualLockExactly(c, start, events, n);
    RunKeeps(c, start, events, n);
    var s := Run(c, events[..n]);
    StillValid(s, TimeBefore(start, events, n));
    forall now ensures MustBeLocked(s, now) && s.InLockWindow(now) {
      WindowIs(s, now);
    }
    if n < |events| && events[n].action.StepLoop? && !Over(c, events, n) {
      RunKeeps(c, start, events, n + 1);
      LockedSinceStep(c, events, k, n);
      ManualLockExactly(c, start, events, n + 1);
      LocksWhenDue(c, start, events, n);
    }
  }

  lemma StillValid(c: Fields, now: Moment)
    requires Regular(c, now)
    ensures c.daily.Valid()
  {}

  lemma LockedSinceStep(c: Fields, events: seq<Event>, k: nat, n: nat)
    requires n < |events| && LockedSince(c, events, k, n)
    requires events[n].action.StepLoop? && !Over(c, events, n)
    ensures LockedSince(c, events, k, n + 1)
  {
    hide Over;
    NotLiftedStep(c, events, k + 1, n);
  }

  // ------------------------------------------------------------------------------------------
  // Granted time
  // ------------------------------------------------------------------------------------------

  /** The seconds granted since extensions were last cleared or a new period began. */
  ghost function Granted(c: Fields, events: seq<Event>, n: nat): int
    requires n <= |events|
  {
    if n == 0 then c.runtime.extension
    else
      var e := events[n - 1];
      if e.action.TimeExtended? then Granted(c, events, n - 1) + 60 * e.action.minutes
      else if e.action.ExtensionsCleared? || Over(c, events, n - 1) then 0
      else Granted(c, events, n - 1)
  }

  lemma EventGrants(s: Fields, e: Event)
    requires Regular(s, e.now) && ValidAction(e.action)
    ensures Apply(s, e).runtime.extension
         == if e.action.TimeExtended? then s.runtime.extension + 60 * e.action.minutes
            else if e.action.ExtensionsCleared? || NewPeriod(s, e) then 0
            else s.runtime.extension
  {
    hide NewPeriod, UsagePeriodDate, AfterStep, MustBeLocked;
    NewPeriodIs(s, e);
    if e.action.StepLoop? {
      StepTicks(s, e.now, e.action.answers);
      TickCounts(s, e.now, e.action.answers.active);
    }
  }

  /** In every run the extension is exactly what has been granted and not cleared in this period. */
  lemma {:induction false} ExtensionIsGranted(c: Fields, start: Moment, events: seq<Event>, n: nat)
    requires Ordered(start, events) && Regular(c, start) && n <= |events|
    ensures Run(c, events[..n]).runtime.extension == Granted(c, events, n)
    decreases n
  {
    hide Apply, Regular, NewPeriod, ValidAction;
    if n == 0 {
      assert events[..0] == [];
    } else {
      var s, e := Run(c, events[..n - 1]), events[n - 1];
      ExtensionIsGranted(c, start, events, n - 1);
      RunKeeps(c, start, events, n - 1);
      OrderedAt(start, events, n - 1);
      RegularLater(s, TimeBefore(start, events, n - 1), e.now);
      RunStep(c, events, n - 1);
      EventGrants(s, e);
    }
  }

  // ------------------------------------------------------------------------------------------
  // Warning
  // ------------------------------------------------------------------------------------------

  /** The smallest threshold the remaining minutes have reached. */
  predicate Reached(remaining: Option<real>, mins: int) {
    && mins in WARNING_INTERVALS
    && remaining.Some? && 0.0 < remaining.value <= mins as real
    && forall k :: 0 <= k < |WARNING_INTERVALS| && WARNING_INTERVALS[k] < mins ==> remaining.value > WARNING_INTERVALS[k] as real
  }

  /** Marked by the warnings shown: their thresholds and all larger ones. */
  ghost predicate MarkedBy(sent: set<int>, shown: seq<int>) {
    forall m :: m in sent <==> m in WARNING_INTERVALS && exists i :: 0 <= i < |shown| && shown[i] <= m
  }

  /** A warning is due exactly for the smallest threshold reached, and unless one as urgent was shown. */
  lemma DueExactly(c: Fields, now: Moment, shown: seq<int>, mins: int)
    requires MarkedBy(c.warningsSent, shown)
    ensures DueWarning(c, now) == Some(mins)
       <==> Reached(MinutesUntilLock(c.InputsAt(now)), mins) && forall i :: 0 <= i < |shown| ==> shown[i] > mins
  {
    hide MinutesUntilLock;
    var remaining := MinutesUntilLock(c.InputsAt(now));
    if remaining.Some? && remaining.value > 0.0 {
      FirstDueStep(c.warningsSent, remaining.value, 0);
      FirstDueStep(c.warningsSent, remaining.value, 1);
      FirstDueStep(c.warningsSent, remaining.value, 2);
      FirstDueStep(c.warningsSent, remaining.value, 3);
    }
  }

  lemma FirstDueStep(sent: set<int>, remaining: real, k: nat)
    requires k < 4
    ensures var mins := WARNING_INTERVALS[k];
            FirstDue(sent, remaining, k)
            == if mins !in sent && remaining <= mins as real then Some(mins)
               else if k == 3 then None else FirstDue(sent, remaining, k + 1)
  {}

  lemma MarkMore(sent: set<int>, shown: seq<int>, mins: int)
    requires MarkedBy(sent, shown) && mins in WARNING_INTERVALS
    ensures MarkedBy(sent + AtLeast(mins), shown + [mins])
  {
    var all := shown + [mins];
    forall m ensures m in sent + AtLeast(mins) <==> m in WARNING_INTERVALS && exists i :: 0 <= i < |all| && all[i] <= m {
      if exists i :: 0 <= i < |shown| && shown[i] <= m {
        var i :| 0 <= i < |shown| && shown[i] <= m;
        assert all[i] <= m;
      }
      assert all[|shown|] == mins;
    }
  }

  lemma NothingMarked()
    ensures MarkedBy({}, [])
  {}

  lemma MarkStep(c: Fields, shown: seq<int>, e: Event)
    requires MarkedBy(c.warningsSent, shown)
    ensures MarkedBy(Apply(c, e).warningsSent, (if ClearsWarnings(c, e) then [] else shown) + ShownBy(c, e))
  {
    hide AfterStep, Tick, UsagePeriodDate, DueWarning, MarkedBy, AtLeast;
    NothingMarked();
    var kept := if ClearsWarnings(c, e) then [] else shown;
    assert kept + [] == kept;
    if e.action.StepLoop? {
      var now, w := e.now, e.action.answers;
      TickWarnings(c, now, w.active);
      StepSent(c, now, w);
      var t := WarningsOf(Tick(c, now, w.active), now);
      DueIsNew(t, now);
      if DueWarning(t, now).Some? {
        MarkMore(t.warningsSent, kept, DueWarning(t, now).value);
      }
    }
  }

  /** In every run the warnings marked as sent are those shown since the last clear and all larger ones, so
      no warning is ever held back for one that was not shown. */
  lemma {:induction false} OnlyShownAreMarked(c: Fields, shown: seq<int>, events: seq<Event>)
    requires MarkedBy(c.warningsSent, shown)
    ensures MarkedBy(Run(c, events).warningsSent, ShownAfter(c, shown, events))
    decreases |events|
  {
    hide Apply, ShownBy, ClearsWarnings, MarkedBy;
    if events != [] {
      var e := events[0];
      MarkStep(c, shown, e);
      OnlyShownAreMarked(Apply(c, e), (if ClearsWarnings(c, e) then [] else shown) + ShownBy(c, e), events[1..]);
    }
  }

  /** After any run from a start of the monitor, a loop step raises a warning exactly for the smallest
      threshold the remaining time has reached, and unless one as urgent was shown since the last clear. */
  lemma WarnsExactly(c: Fields, events: seq<Event>, now: Moment, w: PlatformAnswers, mins: int)
    requires c.warningsSent == {}
    ensures var s, e := Run(c, events), Event(now, StepLoop(w));
            var t := Tick(s, now, w.active);
            var shown := if ClearsWarnings(s, e) then [] else ShownAfter(c, [], events);
            Popup(t, now) == Some(mins)
            <==> Reached(MinutesUntilLock(t.InputsAt(now)), mins) && forall i :: 0 <= i < |shown| ==> shown[i] > mins
  {
    hide Tick, MinutesUntilLock, UsagePeriodDate, DueWarning, MarkedBy, Reached, Run, ShownAfter;
    NothingMarked();
    OnlyShownAreMarked(c, [], events);
    var s, e := Run(c, events), Event(now, StepLoop(w));
    var t := Tick(s, now, w.active);
    TickWarnings(s, now, w.active);
    var shown := if ClearsWarnings(s, e) then [] else ShownAfter(c, [], events);
    DueExactly(WarningsOf(t, now), now, shown, mins);
  }

  // ------------------------------------------------------------------------------------------
  // Saving
  // ------------------------------------------------------------------------------------------

  /** The last periodic save among the first n events, or the one before them. */
  function LastSave(c: Fields, events: seq<Event>, n: nat): Option<Moment>
    requires n <= |events|
  {
    if n == 0 then c.lastPersist
    else if Saves(c, events, n - 1) then Some(events[n - 1].now)
    else LastSave(c, events, n - 1)
  }

  /** The n-th event is a loop step that saves. */
  predicate Saves(c: Fields, events: seq<Event>, n: nat)
    requires n < |events|
  {
    events[n].action.StepLoop? && PersistDue(Run(c, events[..n]), events[n].now)
  }

  /** A loop step saves exactly if none before it has in the last minute. */
  lemma {:induction false} SavesEachMinute(c: Fields, start: Moment, events: seq<Event>, n: nat)
    requires Ordered(start, events) && (c.lastPersist.Some? ==> c.lastPersist.value <= start) && n < |events|
    ensures var last := LastSave(c, events, n);
            Saves(c, events, n) <==> events[n].action.StepLoop? && (last.None? || events[n].now >= last.value + 60 * SECOND)
  {
    LastSaveIs(c, start, events, n);
    OrderedAt(start, events, n);
  }

  lemma {:induction false} LastSaveIs(c: Fields, start: Moment, events: seq<Event>, n: nat)
    requires Ordered(start, events) && (c.lastPersist.Some? ==> c.lastPersist.value <= start) && n <= |events|
    ensures Run(c, events[..n]).lastPersist == LastSave(c, events, n)
    ensures LastSave(c, events, n).Some? ==> LastSave(c, events, n).value <= TimeBefore(start, events, n)
    decreases n
  {
    hide Apply, PersistDue;
    if n == 0 {
      assert events[..0] == [];
    } else {
      LastSaveIs(c, start, events, n - 1);
      OrderedAt(start, events, n - 1);
      RunStep(c, events, n - 1);
      SaveNoted(Run(c, events[..n - 1]), events[n - 1]);
    }
  }

  lemma SaveNoted(c: Fields, e: Event)
    ensures Apply(c, e).lastPersist == if e.action.StepLoop? && PersistDue(c, e.now) then Some(e.now) else c.lastPersist
  {
    hide Tick, Warn, UsagePeriodDate;
    if e.action.StepLoop? {
      SamePersist(c, e.now, e.action.answers);
    }
  }
}
