/**
  A crash in the middle of a save: the monitor's runs and the files they are saved in, together
  (go/monitor/monitor.go, go/state/store.go).
  */
module CutSave {
  import opened Wrappers
  import opened Policy
  import opened Monitor
  import opened MonitorRuns
  import opened StateFile
  import opened Recovery
  import Store

  /** The settings and runtime a restart finds in the files, if both can be read. */
  function Restarted(f: Store.Files, restart: Moment): Option<LoadedState> {
    var d, r := Store.LoadedValue(f.daily), Store.LoadedValue(f.state);
    if d.None? || r.None? then None
    else Some(LoadedState(d.value, ResetIfNeeded(r.value, d.value.wake, restart)))
  }

  /** However early the power fails during a save, either file holds what it held or what was being
      saved. */
  lemma CutFiles(f: Store.Files, d: Daily, r: Runtime, oldDaily: Daily, oldRuntime: Runtime, now: Moment, power: nat)
    requires Store.Holding(f, Store.Expected(oldDaily, oldRuntime))
    ensures var g := Store.AfterSave(f, d, r, now, power);
            && Store.LoadedValue(g.daily) in {Some(oldDaily), Some(d)}
            && Store.LoadedValue(g.state) in {Some(oldRuntime), Some(Store.Saved(r, now))}
  {
    hide Store.AfterWrite;
    Store.WriteRecoverable(f.daily, d, power);
    var steps := Store.WriteSteps(f.daily);
    if power >= steps {
      Store.WriteRecoverable(f.state, Store.Saved(r, now), power - steps);
    }
  }

  /** What was last saved, against memory after the event whose save is cut off: the event adds less
      than a minute to what was unsaved before. */
  lemma OldStateBound(w: World, floor: real, before: Moment, e: Event, restart: Moment)
    requires Safe(w, floor, before) && before <= e.now && Saves(w.c, e) && !w.pending.WakeMoved?
    requires e.action.StateSaved? ==> RuntimeIsCurrent(w.c.runtime, w.c.daily.wake, e.now)
    requires UsagePeriodDate(restart, w.c.daily.wake) == UsagePeriodDate(e.now, w.c.daily.wake)
    ensures var c := Apply(w.c, e);
            var loaded := ResetIfNeeded(w.runtime, w.c.daily.wake, restart);
            && c.runtime.accumulated - 120.0005 < loaded.accumulated <= c.runtime.accumulated + 0.0005
            && (w.pending.Clean? ==>
                  loaded.manualLock == c.runtime.manualLock && loaded.extension == c.runtime.extension)
  {
    hide UsagePeriodDate, AfterStep, Rollover, Credit;
    var wake := w.c.daily.wake;
    PeriodMonotone(w.runtime.stamp, w.c.runtime.stamp, wake);
    PeriodMonotone(w.c.runtime.stamp, before, wake);
    PeriodMonotone(before, e.now, wake);
    if e.action.StepLoop? {
      StepUse(w.c, e.now, e.action.answers);
      StepShape(w.c, e.now, e.action.answers);
      RolloverShape(w.c, e.now);
      CreditShort(w.c, e.now, e.action.answers.active);
    }
  }

  lemma CreditShort(c: Fields, now: Moment, active: bool)
    ensures Credit(c, now, active).Some? ==> 0.0 <= Seconds(Credit(c, now, active).value, now) < 60.0
  {
    if Credit(c, now, active).Some? {
      CreditOutside(c, now, active);
    }
  }

  /** What was being saved, against memory. */
  lemma NewStateBound(c: Fields, now: Moment, restart: Moment)
    requires c.daily.wake.Valid() && c.runtime.stamp == now
    requires UsagePeriodDate(restart, c.daily.wake) == UsagePeriodDate(now, c.daily.wake)
    ensures var loaded := ResetIfNeeded(Store.Saved(c.runtime, now), c.daily.wake, restart);
            && c.runtime.accumulated - 0.0005 <= loaded.accumulated <= c.runtime.accumulated + 0.0005
            && loaded.manualLock == c.runtime.manualLock && loaded.extension == c.runtime.extension
  {
    hide UsagePeriodDate, Round3;
    StoredPeriod(c.runtime, c.daily.wake);
    Round3Close(c.runtime.accumulated);
    assert c.runtime.(stamp := now) == c.runtime;
  }

  /** A crash inside any save of any run, of the loop's or of a parent's, after any number of its effects,
      and a restart in the same period: the files can be read, less than two minutes of use are lost, up
      to rounding, and no setting, lock or extension unless one was being saved. */
  lemma CrashInsideSave(exempt: bool, daily: Daily, runtime: Runtime, start: Moment, events: seq<Event>, e: Event,
                        f: Store.Files, power: nat, restart: Moment)
    requires daily.Valid() && runtime.accumulated >= 0.0 && runtime.extension >= 0 && runtime.stamp <= start
    requires Ordered(start, events) && LastTime(start, events) <= e.now
    requires var w := RunWorld(Start(exempt, daily, runtime, start), events);
             && Saves(w.c, e) && !w.pending.WakeMoved?
             && (e.action.StateSaved? ==> RuntimeIsCurrent(w.c.runtime, w.c.daily.wake, e.now))
             && UsagePeriodDate(restart, w.c.daily.wake) == UsagePeriodDate(e.now, w.c.daily.wake)
             && Store.Holding(f, Store.Expected(w.daily, w.runtime))
    ensures var w := RunWorld(Start(exempt, daily, runtime, start), events);
            var c := Apply(w.c, e);
            var after := Restarted(Store.AfterSave(f, c.daily, c.runtime, e.now, power), restart);
            && after.Some?
            && c.runtime.accumulated - 120.0005 < after.value.runtime.accumulated <= c.runtime.accumulated + 0.0005
            && (w.pending.Clean? ==>
                  && after.value.daily == c.daily
                  && after.value.runtime.manualLock == c.runtime.manualLock
                  && after.value.runtime.extension == c.runtime.extension)
  {
    hide UsagePeriodDate, RunWorld, AfterStep, Store.AfterSave, Store.Saved;
    var floor := RunIsSafe(exempt, daily, runtime, start, events);
    var w := RunWorld(Start(exempt, daily, runtime, start), events);
    var c := Apply(w.c, e);
    SavedShape(w.c, e);
    CutFiles(f, c.daily, c.runtime, w.daily, w.runtime, e.now, power);
    OldStateBound(w, floor, LastTime(start, events), e, restart);
    NewStateBound(c, e.now, restart);
  }

  lemma SavedShape(c: Fields, e: Event)
    requires Saves(c, e)
    ensures Apply(c, e).daily == c.daily && Apply(c, e).runtime.stamp == e.now
  {
    hide AfterStep;
    if e.action.StepLoop? {
      StepShape(c, e.now, e.action.answers);
    }
  }
}
