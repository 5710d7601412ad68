/**
  What a crash can cost: the monitor's memory against the state files it writes
  (go/monitor/monitor.go, go/state/state.go, go/state/store.go).
  */
module Recovery {
  import opened Wrappers
  import opened Policy
  import opened Monitor
  import opened MonitorRuns
  import opened StateFile

  /** What parent actions have changed in memory since the last save: nothing, anything but the wake
      time, or the wake time too. */
  datatype Pending = Clean | Changed | WakeMoved

  /** The monitor and the contents of its two files; every save succeeds. */
  datatype World = World(c: Fields, daily: Daily, runtime: Runtime, pending: Pending)

  /** What a restart at `now` loads. */
  function LoadedRuntime(w: World, now: Moment): Runtime {
    ResetIfNeeded(w.runtime, w.daily.wake, now)
  }

  function Start(exempt: bool, daily: Daily, runtime: Runtime, now: Moment): World {
    World(Fields(exempt, daily, ResetIfNeeded(runtime, daily.wake, now), None, None, {}, UsagePeriodDate(now, daily.wake), false),
          daily, runtime, Clean)
  }

  predicate Saves(c: Fields, e: Event) {
    e.action.StateSaved? || (e.action.StepLoop? && PersistDue(c, e.now))
  }

  function PendingAfter(p: Pending, e: Event): Pending {
    if e.action.WakeTimeSet? then WakeMoved else if e.action.StepLoop? || p.WakeMoved? then p else Changed
  }

  function ApplyWorld(w: World, e: Event): World {
    var c := Apply(w.c, e);
    if Saves(w.c, e) then World(c, c.daily, Stored(c.runtime), Clean)
    else World(c, w.daily, w.runtime, PendingAfter(w.pending, e))
  }

  function RunWorld(w: World, events: seq<Event>): World
    decreases |events|
  {
    if events == [] then w else RunWorld(ApplyWorld(w, events[0]), events[1..])
  }

  /** Up to when the use in memory has been counted. */
  function CountedTo(c: Fields, now: Moment): Moment {
    if c.lastTick.Some? then c.lastTick.value else now
  }

  /** What memory keeps, saved or not: the use in it has grown from `floor` no faster than the clock
      since the last periodic save. */
  predicate InMemory(c: Fields, floor: real, now: Moment) {
    && c.daily.Valid() && c.runtime.accumulated >= 0.0 && c.runtime.extension >= 0 && floor >= 0.0
    && c.runtime.accumulated < floor + 60.0
    && Paced(c, floor, now)
  }

  /** Unless the wake time has moved, `floor` is certainly on disk, or the disk belongs to an earlier
      period than memory. */
  predicate UseOnDisk(w: World, floor: real) {
    var c, wake := w.c, w.c.daily.wake;
    && w.daily.wake == wake && w.runtime.stamp <= c.runtime.stamp
    && (if UsagePeriodDate(w.runtime.stamp, wake) == UsagePeriodDate(c.runtime.stamp, wake) then
          floor - 0.0005 <= w.runtime.accumulated <= c.runtime.accumulated + 0.0005
        else floor == 0.0)
  }

  /** With nothing pending, everything else is there exactly. */
  predicate SettingsOnDisk(w: World, now: Moment) {
    var c, wake := w.c, w.c.daily.wake;
    && w.daily == c.daily
    && UsagePeriodDate(c.runtime.stamp, wake) == UsagePeriodDate(now, wake)
    && (if UsagePeriodDate(w.runtime.stamp, wake) == UsagePeriodDate(now, wake) then
          w.runtime.manualLock == c.runtime.manualLock && w.runtime.extension == c.runtime.extension
        else c.runtime.manualLock == false && c.runtime.extension == 0)
  }

  predicate Safe(w: World, floor: real, now: Moment) {
    && w.runtime.stamp <= now && w.c.runtime.stamp <= now
    && InMemory(w.c, floor, now)
    && (!w.pending.WakeMoved? ==> UseOnDisk(w, floor))
    && (w.pending.Clean? ==> SettingsOnDisk(w, now))
  }

  predicate Paced(c: Fields, floor: real, now: Moment) {
    if c.lastPersist.None? then c.lastTick.None? && c.runtime.accumulated <= floor
    else
      && c.lastPersist.value <= CountedTo(c, now) <= now
      && c.runtime.accumulated <= floor + Seconds(c.lastPersist.value, CountedTo(c, now))
  }

  lemma StartSafe(exempt: bool, daily: Daily, runtime: Runtime, now: Moment)
    requires daily.Valid() && runtime.accumulated >= 0.0 && runtime.extension >= 0 && runtime.stamp <= now
    ensures var w := Start(exempt, daily, runtime, now);
            Safe(w, w.c.runtime.accumulated, now)
  {
    hide UsagePeriodDate;
  }

  /** A parent action leaves its change pending. */
  lemma ChangeSafe(w: World, floor: real, now: Moment, e: Event)
    requires Safe(w, floor, now) && now <= e.now && ValidAction(e.action)
    requires !e.action.StepLoop? && !e.action.StateSaved?
    ensures Safe(ApplyWorld(w, e), floor, e.now)
  {
    hide UsagePeriodDate;
  }

  /** The save after it leaves nothing pending. */
  lemma SaveSafe(w: World, floor: real, now: Moment, e: Event)
    requires Safe(w, floor, now) && now <= e.now && e.action.StateSaved?
    ensures var after := ApplyWorld(w, e);
            Safe(after, after.c.runtime.accumulated, e.now) && after.pending.Clean?
  {
    hide UsagePeriodDate, Round3;
    var c := Apply(w.c, e);
    StoredPeriod(c.runtime, c.daily.wake);
    Round3Close(c.runtime.accumulated);
    StampEarlier(e.now);
  }

  lemma StampEarlier(now: Moment)
    ensures now / SECOND * SECOND <= now
  {}

  /** A step's effect on what is saved. */
  lemma StepShape(c: Fields, now: Moment, answers: PlatformAnswers)
    ensures var d := AfterStep(c, now, answers);
            var r := Rollover(c, now);
            && d.daily == c.daily
            && d.runtime.manualLock == r.runtime.manualLock && d.runtime.extension == r.runtime.extension
            && d.runtime.stamp == (if PersistDue(c, now) then now else r.runtime.stamp)
            && d.lastPersist == (if PersistDue(c, now) then Some(now) else c.lastPersist)
            && (d.lastTick == None || d.lastTick == Some(now))
            && (Credit(c, now, answers.active).Some? ==>
                  r.lastTick == c.lastTick && c.lastTick == Credit(c, now, answers.active) && d.lastTick == Some(now)
                  && now - c.lastTick.value > 0)
  {
    hide ShouldLock, DueWarning, UsagePeriodDate, AtLeast;
  }

  function StepFloor(c: Fields, floor: real, now: Moment, answers: PlatformAnswers): real {
    if PersistDue(c, now) then AfterStep(c, now, answers).runtime.accumulated
    else if RuntimeIsCurrent(c.runtime, c.daily.wake, now) then floor
    else 0.0
  }

  lemma StepSafe(w: World, floor: real, now: Moment, e: Event)
    requires Safe(w, floor, now) && now <= e.now && e.action.StepLoop?
    ensures Safe(ApplyWorld(w, e), StepFloor(w.c, floor, e.now, e.action.answers), e.now)
    ensures ApplyWorld(w, e).pending == if PersistDue(w.c, e.now) then Clean else w.pending
  {
    hide UsagePeriodDate, Round3, AfterStep, Rollover, Credit;
    var answers, wake := e.action.answers, w.c.daily.wake;
    var d := AfterStep(w.c, e.now, answers);
    StepShape(w.c, e.now, answers);
    StepUse(w.c, e.now, answers);
    RolloverShape(w.c, e.now);
    StepPaced(w, floor, now, e);
    StampEarlier(e.now);
    if PersistDue(w.c, e.now) {
      StoredPeriod(d.runtime, wake);
      Round3Close(d.runtime.accumulated);
    } else {
      if w.runtime.stamp <= w.c.runtime.stamp {
        PeriodMonotone(w.runtime.stamp, w.c.runtime.stamp, wake);
      }
      PeriodMonotone(w.c.runtime.stamp, e.now, wake);
    }
  }

  lemma RolloverShape(c: Fields, now: Moment)
    ensures Rollover(c, now).runtime == (if RuntimeIsCurrent(c.runtime, c.daily.wake, now) then c.runtime else FreshRuntime(now))
  {}

  lemma StepPaced(w: World, floor: real, now: Moment, e: Event)
    requires InMemory(w.c, floor, now) && now <= e.now && e.action.StepLoop?
    ensures var d := AfterStep(w.c, e.now, e.action.answers);
            var after := StepFloor(w.c, floor, e.now, e.action.answers);
            && after >= 0.0 && d.runtime.accumulated >= 0.0
            && Paced(d, after, e.now)
            && d.runtime.accumulated < after + 60.0
  {
    hide UsagePeriodDate, AfterStep, Rollover, Credit;
    StepShape(w.c, e.now, e.action.answers);
    StepUse(w.c, e.now, e.action.answers);
  }

  lemma {:induction false} RunSafe(w: World, floor: real, now: Moment, events: seq<Event>) returns (last: real)
    requires Safe(w, floor, now) && Ordered(now, events)
    ensures Safe(RunWorld(w, events), last, LastTime(now, events))
    decreases |events|
  {
    hide Safe, ApplyWorld;
    last := floor;
    if events != [] {
      var e := events[0];
      if e.action.StepLoop? {
        StepSafe(w, floor, now, e);
        last := StepFloor(w.c, floor, e.now, e.action.answers);
      } else if e.action.StateSaved? {
        SaveSafe(w, floor, now, e);
        last := ApplyWorld(w, e).c.runtime.accumulated;
      } else {
        ChangeSafe(w, floor, now, e);
      }
      last := RunSafe(ApplyWorld(w, e), last, e.now, events[1..]);
    }
  }

  /** A crash after any event of any run.  Unless a new wake time is unsaved, a restart in the usage period
      memory belongs to loses less than a minute of use, give or take the rounding; and if no change of
      a parent is unsaved at all, settings, lock and extensions come back exactly. */
  lemma CrashLosesUnderAMinute(exempt: bool, daily: Daily, runtime: Runtime, start: Moment, events: seq<Event>, restart: Moment)
    requires daily.Valid() && runtime.accumulated >= 0.0 && runtime.extension >= 0 && runtime.stamp <= start
    requires Ordered(start, events) && LastTime(start, events) <= restart
    ensures var w := RunWorld(Start(exempt, daily, runtime, start), events);
            var loaded, wake := LoadedRuntime(w, restart), w.c.daily.wake;
            && (!w.pending.WakeMoved? && RuntimeIsCurrent(w.c.runtime, wake, restart) ==>
                  w.c.runtime.accumulated - 60.0005 < loaded.accumulated <= w.c.runtime.accumulated + 0.0005)
            && (w.pending.Clean? && UsagePeriodDate(LastTime(start, events), wake) == UsagePeriodDate(restart, wake) ==>
                  && RuntimeIsCurrent(w.c.runtime, wake, restart)
                  && w.daily == w.c.daily
                  && loaded.manualLock == w.c.runtime.manualLock
                  && loaded.extension == w.c.runtime.extension)
  {
    hide UsagePeriodDate, RunWorld;
    var floor := RunIsSafe(exempt, daily, runtime, start, events);
  }

  lemma RunIsSafe(exempt: bool, daily: Daily, runtime: Runtime, start: Moment, events: seq<Event>) returns (floor: real)
    requires daily.Valid() && runtime.accumulated >= 0.0 && runtime.extension >= 0 && runtime.stamp <= start
    requires Ordered(start, events)
    ensures Safe(RunWorld(Start(exempt, daily, runtime, start), events), floor, LastTime(start, events))
  {
    hide Safe;
    StartSafe(exempt, daily, runtime, start);
    var w := Start(exempt, daily, runtime, start);
    floor := RunSafe(w, w.c.runtime.accumulated, start, events);
  }

  // ------------------------------------------------------------------------------------------
  // The rollover a save can hide
  // ------------------------------------------------------------------------------------------

  /** A tick starts the counters over by comparing with the last stamp, and every save stamps.  So
      after a save the rollover comes exactly if a wake time lies between that save and the tick: one
      between the last tick and the save is never noticed. */
  lemma RolloverSinceStamp(c: Fields, e: Event, tick: Moment, answers: PlatformAnswers)
    requires e.action.StateSaved?
    ensures var d := Apply(c, e);
            StartsOver(d, Event(tick, StepLoop(answers)))
            <==> UsagePeriodDate(e.now, d.daily.wake) != UsagePeriodDate(tick, d.daily.wake)
  {
    hide UsagePeriodDate;
  }

  /** All events fall into one usage period, and none moves the wake time. */
  predicate WithinPeriod(events: seq<Event>, wake: TimeOfDay, period: int) {
    forall i :: 0 <= i < |events| ==>
      UsagePeriodDate(events[i].now, wake) == period && !events[i].action.WakeTimeSet?
  }

  /** The counters start over at some event of the run. */
  predicate StartsOverIn(c: Fields, events: seq<Event>)
    decreases |events|
  {
    events != [] && (StartsOver(c, events[0]) || StartsOverIn(Apply(c, events[0]), events[1..]))
  }

  /** A loop step comes before any save. */
  predicate StepBeforeSave(events: seq<Event>)
    decreases |events|
  {
    events != [] && (events[0].action.StepLoop? || (!events[0].action.StateSaved? && StepBeforeSave(events[1..])))
  }

  /** In a run of events of a new usage period, however long and in whatever mixture, the counters of
      the old one start over exactly if a loop step comes before the first save by a parent action. */
  lemma {:induction false} FirstStampDecides(c: Fields, events: seq<Event>, period: int)
    requires UsagePeriodDate(c.runtime.stamp, c.daily.wake) != period
    requires WithinPeriod(events, c.daily.wake, period)
    ensures StartsOverIn(c, events) <==> StepBeforeSave(events)
    decreases |events|
  {
    hide UsagePeriodDate, AfterStep;
    if events != [] {
      var d := Apply(c, events[0]);
      if events[0].action.StateSaved? {
        NoSecondStart(d, events[1..], period);
      } else if !events[0].action.StepLoop? {
        FirstStampDecides(d, events[1..], period);
      }
    }
  }

  /** Within the period of the last stamp nothing starts over. */
  lemma {:induction false} NoSecondStart(c: Fields, events: seq<Event>, period: int)
    requires UsagePeriodDate(c.runtime.stamp, c.daily.wake) == period
    requires WithinPeriod(events, c.daily.wake, period)
    ensures !StartsOverIn(c, events)
    decreases |events|
  {
    hide UsagePeriodDate, AfterStep;
    if events != [] {
      if events[0].action.StepLoop? {
        StepShape(c, events[0].now, events[0].action.answers);
        RolloverShape(c, events[0].now);
      }
      NoSecondStart(Apply(c, events[0]), events[1..], period);
    }
  }

  /** For example: an hour used up by 06:59:59, a limit confirmed and saved at 07:00:00, a tick a second
      later, and the new day starts with yesterday's hour. */
  lemma RolloverMissed(answers: PlatformAnswers)
    ensures var wake := TimeOfDay(7, 0);
            var before := 7 * 60 * MINUTE - SECOND;
            var c := Fields(false, Daily(None, wake, Some(60)), Runtime(before, 3600.0, false, 0), None, Some(before), {},
                            UsagePeriodDate(before, wake), false);
            var confirmed := Apply(Apply(c, Event(before + SECOND, LimitSet(60))), Event(before + SECOND, StateSaved));
            var next := Apply(confirmed, Event(before + 2 * SECOND, StepLoop(answers)));
            && UsagePeriodDate(before, wake) != UsagePeriodDate(before + 2 * SECOND, wake)
            && next.runtime.accumulated == 3600.0
            && next.InLockWindow(before + 2 * SECOND)
  {
    hide UsagePeriodDate, DueWarning, AfterStep;
    var wake := TimeOfDay(7, 0);
    var before := 7 * 60 * MINUTE - SECOND;
    var c := Fields(false, Daily(None, wake, Some(60)), Runtime(before, 3600.0, false, 0), None, Some(before), {},
                    UsagePeriodDate(before, wake), false);
    var confirmed := Apply(Apply(c, Event(before + SECOND, LimitSet(60))), Event(before + SECOND, StateSaved));
    PeriodIsInterval(before, wake, -1);
    PeriodIsInterval(before + SECOND, wake, 0);
    PeriodIsInterval(before + 2 * SECOND, wake, 0);
    RolloverSinceStamp(Apply(c, Event(before + SECOND, LimitSet(60))), Event(before + SECOND, StateSaved), before + 2 * SECOND, answers);
    StepUse(confirmed, before + 2 * SECOND, answers);
    StepSettings(confirmed, before + 2 * SECOND, answers);
    RolloverShape(confirmed, before + 2 * SECOND);
    NoCreditWithoutTick(confirmed, before + 2 * SECOND, answers.active);
  }

  lemma NoCreditWithoutTick(c: Fields, now: Moment, active: bool)
    requires c.lastTick.None?
    ensures Credit(c, now, active).None?
  {}
}
