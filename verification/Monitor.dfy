/**
  The monitoring loop and the parent actions that change it (go/monitor/monitor.go, go/state/state.go).

  Each public method is one atomic step that reads the clock once; what the platform answers is a
  parameter.  The pure functions say what each step does to the fields; the methods of `Control`
  are proved against them.
  */
module Monitor {
  import opened Wrappers
  import opened Policy

  // ------------------------------------------------------------------------------------------
  // Settings and runtime state
  // ------------------------------------------------------------------------------------------

  datatype Daily = Daily(bed: Option<TimeOfDay>, wake: TimeOfDay, allowance: Option<nat>) {
    predicate Valid() {
      wake.Valid() && (bed.Some? ==> bed.value.Valid())
    }
  }

  datatype Runtime = Runtime(stamp: Moment, accumulated: real, manualLock: bool, extension: int)

  /** The enforced cap in minutes, or none. */
  function EffectiveAllowance(d: Daily, r: Runtime): Option<real> {
    var extension := r.extension as real / 60.0;
    if d.allowance.None? then
      if extension <= 0.0 then None else Some(extension)
    else Some(d.allowance.value as real + extension)
  }

  function FreshRuntime(now: Moment): Runtime {
    Runtime(now, 0.0, false, 0)
  }

  predicate RuntimeIsCurrent(r: Runtime, wake: TimeOfDay, now: Moment) {
    UsagePeriodDate(r.stamp, wake) == UsagePeriodDate(now, wake)
  }

  function ResetIfNeeded(r: Runtime, wake: TimeOfDay, now: Moment): Runtime {
    if RuntimeIsCurrent(r, wake, now) then r else FreshRuntime(now)
  }

  // ------------------------------------------------------------------------------------------
  // What each step does
  // ------------------------------------------------------------------------------------------

  const PERSIST_INTERVAL: int := 60 * SECOND
  const MAX_TICK_GAP: int := 60 * SECOND
  const WARNING_INTERVALS: seq<int> := [1, 5, 15, 30]

  datatype Fields = Fields(
    exempt: bool,
    daily: Daily,
    runtime: Runtime,
    lastTick: Option<Moment>,
    lastPersist: Option<Moment>,
    warningsSent: set<int>,
    warningsDate: int,
    isLocked: bool)
  {
    function InputsAt(now: Moment): Inputs {
      Inputs(now, daily.bed, EffectiveAllowance(daily, runtime), runtime.accumulated / 60.0,
             exempt, runtime.manualLock, Some(daily.wake))
    }

    predicate InLockWindow(now: Moment) {
      ShouldLock(InputsAt(now))
    }
  }

  /** The use has reached the limit with its extensions, or the extensions alone where no limit is set;
      all in seconds. */
  predicate UsedUp(c: Fields) {
    var extension := c.runtime.extension as real;
    if c.daily.allowance.Some? then c.runtime.accumulated >= 60.0 * c.daily.allowance.value as real + extension
    else extension > 0.0 && c.runtime.accumulated >= extension
  }

  /** What calls for a locked screen, said of the monitor's fields alone. */
  ghost predicate MustBeLocked(c: Fields, now: Moment) {
    !c.exempt && (c.runtime.manualLock || Night(now, c.daily.bed, c.daily.wake) || UsedUp(c))
  }

  /** The policy's decision on what the monitor tells it calls for exactly that. */
  lemma WindowIs(c: Fields, now: Moment)
    requires c.daily.Valid()
    ensures c.InLockWindow(now) <==> MustBeLocked(c, now)
  {
    hide ShouldLock, Night;
    LockCauses(c.InputsAt(now));
    var minutes := if c.daily.allowance.Some? then c.daily.allowance.value as real else 0.0;
    InMinutes(c.runtime.accumulated, minutes, c.runtime.extension as real);
  }

  lemma InMinutes(seconds: real, minutes: real, extension: real)
    ensures seconds / 60.0 >= minutes + extension / 60.0 <==> seconds >= 60.0 * minutes + extension
    ensures seconds / 60.0 >= extension / 60.0 <==> seconds >= extension
    ensures extension / 60.0 <= 0.0 <==> extension <= 0.0
  {}

  /** The wake-time rollover at a tick: the counters start over and so does the interval. */
  function Rollover(c: Fields, now: Moment): Fields {
    if RuntimeIsCurrent(c.runtime, c.daily.wake, now) then c
    else c.(runtime := FreshRuntime(now), lastTick := None)
  }

  predicate Counts(c: Fields, now: Moment, active: bool) {
    !c.exempt && active && !c.InLockWindow(now)
  }

  /** The interval a tick adds to the use, if any. */
  function Credit(c: Fields, now: Moment, active: bool): Option<Moment> {
    var r := Rollover(c, now);
    if Counts(r, now, active) && r.lastTick.Some? && 0 < now - r.lastTick.value < MAX_TICK_GAP then r.lastTick
    else None
  }

  function Seconds(a: Moment, b: Moment): real {
    (b - a) as real / SECOND as real
  }

  function Tick(c: Fields, now: Moment, active: bool): Fields {
    var r := Rollover(c, now);
    var credit := Credit(c, now, active);
    var used := if credit.Some? then r.runtime.accumulated + Seconds(credit.value, now) else r.runtime.accumulated;
    r.(runtime := r.runtime.(accumulated := used), lastTick := if Counts(r, now, active) then Some(now) else None)
  }

  /** A tick, said of the clock, the settings and the session alone.  The gap since the last tick is
      counted to the microsecond if the session is active, nothing calls for a locked screen, and less
      than a minute has passed; any other tick that finds the session in use begins a gap, and one that
      does not ends it. */
  lemma TickCounts(c: Fields, now: Moment, active: bool)
    requires c.daily.Valid()
    ensures var current := RuntimeIsCurrent(c.runtime, c.daily.wake, now);
            var r := c.(runtime := if current then c.runtime else Runtime(now, 0.0, false, 0));
            var inUse := active && !c.exempt && !MustBeLocked(r, now);
            var gap := if inUse && current && c.lastTick.Some? && c.lastTick.value < now < c.lastTick.value + 60 * SECOND
                       then (now - c.lastTick.value) as real / 1000000.0 else 0.0;
            Tick(c, now, active)
            == r.(runtime := r.runtime.(accumulated := r.runtime.accumulated + gap), lastTick := if inUse then Some(now) else None)
  {
    hide ShouldLock, Night, UsedUp, UsagePeriodDate;
    var r := Rollover(c, now);
    WindowIs(r, now);
    SameCause(r, c.(runtime := r.runtime), now);
  }

  /** Whether the screen must be locked depends on user, settings and counters. */
  lemma SameCause(c: Fields, d: Fields, now: Moment)
    requires c.exempt == d.exempt && c.daily == d.daily
    requires c.runtime.(stamp := 0) == d.runtime.(stamp := 0)
    ensures MustBeLocked(c, now) <==> MustBeLocked(d, now)
  {
    hide Night;
    assert c.runtime.(stamp := 0).accumulated == d.runtime.(stamp := 0).accumulated;
    assert c.runtime.(stamp := 0).manualLock == d.runtime.(stamp := 0).manualLock;
    assert c.runtime.(stamp := 0).extension == d.runtime.(stamp := 0).extension;
  }

  /** Forgetting warnings of an earlier period. */
  function WarningsOf(c: Fields, now: Moment): Fields {
    var today := UsagePeriodDate(now, c.daily.wake);
    if today == c.warningsDate then c else c.(warningsSent := {}, warningsDate := today)
  }

  /** The threshold to warn at: the smallest one reached and not yet sent. */
  function DueWarning(c: Fields, now: Moment): Option<int> {
    var remaining := MinutesUntilLock(c.InputsAt(now));
    if remaining.None? || remaining.value <= 0.0 then None
    else FirstDue(c.warningsSent, remaining.value, 0)
  }

  function FirstDue(sent: set<int>, remaining: real, k: nat): Option<int>
    requires k <= |WARNING_INTERVALS|
    decreases |WARNING_INTERVALS| - k
  {
    if k == |WARNING_INTERVALS| then None
    else
      var mins := WARNING_INTERVALS[k];
      if mins in sent || remaining > mins as real then FirstDue(sent, remaining, k + 1) else Some(mins)
  }

  function AtLeast(mins: int): set<int> {
    set m | m in WARNING_INTERVALS && m >= mins
  }

  /** A shown popup marks its threshold and all larger ones. */
  function MarkSent(c: Fields, mins: int): Fields {
    c.(warningsSent := c.warningsSent + AtLeast(mins))
  }

  /** The whole warning phase, with the popup shown or failed in between. */
  function Warn(c: Fields, now: Moment, shown: bool): Fields {
    var w := WarningsOf(c, now);
    var due := DueWarning(w, now);
    if due.Some? && shown then MarkSent(w, due.value) else w
  }

  function Popup(c: Fields, now: Moment): Option<int> {
    DueWarning(WarningsOf(c, now), now)
  }

  /** Whether the enforcement phase asks the platform to lock. */
  predicate MustLock(c: Fields, now: Moment, sessionLocked: bool) {
    c.InLockWindow(now) && !sessionLocked
  }

  function Enforce(c: Fields, now: Moment, sessionLocked: bool, lockWorks: bool): Fields {
    if MustLock(c, now, sessionLocked) && lockWorks then c.(isLocked := true) else c
  }

  /** Saving stamps the runtime with the current time, whether or not a rollover is due. */
  function Stamped(c: Fields, now: Moment): Fields {
    c.(runtime := c.runtime.(stamp := now))
  }

  predicate PersistDue(c: Fields, now: Moment) {
    c.lastPersist.None? || !(0 <= now - c.lastPersist.value < PERSIST_INTERVAL)
  }

  function Persist(c: Fields, now: Moment): Fields {
    if PersistDue(c, now) then Stamped(c, now).(lastPersist := Some(now)) else c
  }

  /** What the platform answers during one step. */
  datatype PlatformAnswers = PlatformAnswers(active: bool, shown: bool, sessionLocked: bool, lockWorks: bool)

  function AfterStep(c: Fields, now: Moment, w: PlatformAnswers): Fields {
    Persist(Enforce(Warn(Tick(c, now, w.active), now, w.shown), now, w.sessionLocked, w.lockWorks), now)
  }

  /** Whether a step asks the platform to lock. */
  predicate Asks(c: Fields, now: Moment, w: PlatformAnswers) {
    MustLock(Warn(Tick(c, now, w.active), now, w.shown), now, w.sessionLocked)
  }

  lemma WarnKeeps(c: Fields, now: Moment, shown: bool)
    ensures var d := Warn(c, now, shown);
            && d.exempt == c.exempt && d.daily == c.daily && d.runtime == c.runtime && d.lastTick == c.lastTick
            && d.lastPersist == c.lastPersist && d.isLocked == c.isLocked
  {
    hide DueWarning, UsagePeriodDate, AtLeast;
  }

  /** A step asks for a lock exactly if the screen must be locked, by what the step leaves in the fields,
      and is not; and it notes the lock exactly if it asked and the platform did it. */
  lemma StepAsks(c: Fields, now: Moment, w: PlatformAnswers)
    requires c.daily.Valid()
    ensures var d := AfterStep(c, now, w);
            && (Asks(c, now, w) <==> MustBeLocked(d, now) && !w.sessionLocked)
            && (Asks(c, now, w) <==> MustBeLocked(Tick(c, now, w.active), now) && !w.sessionLocked)
            && (d.isLocked <==> c.isLocked || (MustBeLocked(d, now) && !w.sessionLocked && w.lockWorks))
  {
    hide Tick, Warn, ShouldLock, UsedUp, Night, UsagePeriodDate;
    TickKeeps(c, now, w.active);
    var t := Tick(c, now, w.active);
    var u := Warn(t, now, w.shown);
    WarnKeeps(t, now, w.shown);
    WindowIs(u, now);
    SameCause(t, u, now);
    SameCause(u, AfterStep(c, now, w), now);
  }

  lemma TickKeeps(c: Fields, now: Moment, active: bool)
    ensures var d := Tick(c, now, active);
            d.exempt == c.exempt && d.daily == c.daily && d.isLocked == c.isLocked && d.lastPersist == c.lastPersist
  {
    hide ShouldLock, UsagePeriodDate;
  }

  /** What a load of the state files returns. */
  datatype LoadedState = LoadedState(daily: Daily, runtime: Runtime)

  /** The fields, and whether the last load of the state files failed. */
  datatype Memory = Memory(c: Fields, loadFailed: bool)

  /** Saving, and whether anything is written.  After a failed load it loads again first; `reload` is
      what that returns, if it works, and until it does nothing is written. */
  function SaveOutcome(m: Memory, now: Moment, reload: Option<LoadedState>): (Memory, bool) {
    if !m.loadFailed then (Memory(Stamped(m.c, now), false), true)
    else if reload.None? then (m, false)
    else (Memory(Stamped(m.c.(daily := reload.value.daily, runtime := reload.value.runtime), now), false), true)
  }

  function PersistOutcome(m: Memory, now: Moment, reload: Option<LoadedState>): (Memory, bool) {
    if !PersistDue(m.c, now) then (m, false)
    else
      var (after, saved) := SaveOutcome(m, now, reload);
      (after.(c := after.c.(lastPersist := Some(now))), saved)
  }

  function StepOutcome(m: Memory, now: Moment, w: PlatformAnswers, reload: Option<LoadedState>): (Memory, bool) {
    var c := Enforce(Warn(Tick(m.c, now, w.active), now, w.shown), now, w.sessionLocked, w.lockWorks);
    PersistOutcome(m.(c := c), now, reload)
  }

  /** Once a load has worked, a step is AfterStep, and saves when due. */
  lemma LoadedStep(c: Fields, now: Moment, w: PlatformAnswers, reload: Option<LoadedState>)
    ensures StepOutcome(Memory(c, false), now, w, reload) == (Memory(AfterStep(c, now, w), false), PersistDue(c, now))
  {
    hide Tick, Warn;
    SamePersist(c, now, w);
  }

  /** No phase before saving changes when the last periodic save was. */
  lemma SamePersist(c: Fields, now: Moment, w: PlatformAnswers)
    ensures Warn(Tick(c, now, w.active), now, w.shown).lastPersist == c.lastPersist
  {
    hide ShouldLock, DueWarning, UsagePeriodDate, AtLeast;
  }

  function AfterSetBedTime(c: Fields, bed: Option<TimeOfDay>): Fields {
    c.(daily := c.daily.(bed := bed))
  }

  function AfterSetWakeTime(c: Fields, now: Moment, wake: TimeOfDay): Fields {
    var d := c.(daily := c.daily.(wake := wake), warningsDate := UsagePeriodDate(now, wake));
    if UsagePeriodDate(now, c.daily.wake) < UsagePeriodDate(now, wake) then
      d.(runtime := FreshRuntime(now), lastTick := None, warningsSent := {})
    else d
  }

  function AfterSetDailyAllowance(c: Fields, minutes: Option<nat>): Fields {
    c.(daily := c.daily.(allowance := minutes))
  }

  function AfterExtendTime(c: Fields, minutes: int): Fields {
    c.(runtime := c.runtime.(extension := c.runtime.extension + minutes * 60, manualLock := false), warningsSent := {})
  }

  function AfterClearExtensions(c: Fields): Fields {
    c.(runtime := c.runtime.(extension := 0))
  }

  function AfterClearWarnings(c: Fields): Fields {
    c.(warningsSent := {})
  }

  function AfterEngageManualLock(c: Fields, lockWorks: bool): Fields {
    c.(runtime := c.runtime.(manualLock := true), isLocked := c.isLocked || lockWorks)
  }

  function AfterClearManualLock(c: Fields): Fields {
    c.(runtime := c.runtime.(manualLock := false))
  }

  // ------------------------------------------------------------------------------------------
  // The object the loop and the dispatcher share
  // ------------------------------------------------------------------------------------------

  class Control {
    const exempt: bool
    var daily: Daily
    var runtime: Runtime
    var lastTickAt: Option<Moment>
    var lastPersistAt: Option<Moment>
    var isLocked: bool
    var warningsSent: set<int>
    var warningsDate: int
    var loadFailed: bool

    /** `loaded` is what the store's Load returns, if it works. */
    constructor (exempt: bool, loaded: Option<LoadedState>, now: Moment)
      ensures loadFailed <==> loaded.None?
      ensures var state := if loaded.Some? then loaded.value
                           else LoadedState(Daily(None, DEFAULT_WAKE_TIME, None), FreshRuntime(now));
              View() == Fields(exempt, state.daily, state.runtime, None, None, {},
                               UsagePeriodDate(now, state.daily.wake), false)
    {
      var d, r := Daily(None, DEFAULT_WAKE_TIME, None), FreshRuntime(now);
      if loaded.Some? {
        d, r := loaded.value.daily, loaded.value.runtime;
      }
      this.exempt := exempt;
      daily, runtime, loadFailed := d, r, loaded.None?;
      lastTickAt, lastPersistAt, isLocked := None, None, false;
      warningsSent, warningsDate := {}, UsagePeriodDate(now, d.wake);
    }

    function View(): Fields
      reads this
    {
      Fields(exempt, daily, runtime, lastTickAt, lastPersistAt, warningsSent, warningsDate, isLocked)
    }

    function Whole(): Memory
      reads this
    {
      Memory(View(), loadFailed)
    }

    method ResetRuntimeIfNeeded(now: Moment) returns (reset: bool)
      modifies this`runtime
      ensures runtime == ResetIfNeeded(old(runtime), daily.wake, now)
      ensures reset <==> !RuntimeIsCurrent(old(runtime), daily.wake, now)
    {
      reset := !RuntimeIsCurrent(runtime, daily.wake, now);
      if reset {
        runtime := FreshRuntime(now);
      }
    }

    method TickAccumulator(now: Moment, active: bool)
      modifies this`runtime, this`lastTickAt
      ensures View() == Tick(old(View()), now, active)
      ensures daily.Valid() ==>
                (lastTickAt == Some(now) <==>
                   active && !exempt
                   && !MustBeLocked(old(View()).(runtime := ResetIfNeeded(old(runtime), daily.wake, now)), now))
      ensures daily.Valid() && active && !exempt && !MustBeLocked(old(View()), now)
              && RuntimeIsCurrent(old(runtime), daily.wake, now) && old(lastTickAt).Some?
              && old(lastTickAt).value < now < old(lastTickAt).value + 60 * SECOND ==>
                runtime.accumulated == old(runtime).accumulated + (now - old(lastTickAt).value) as real / 1000000.0
      ensures lastTickAt.None? ==> runtime == ResetIfNeeded(old(runtime), daily.wake, now)
    {
      hide MustBeLocked, ShouldLock, UsagePeriodDate;
      if daily.Valid() {
        TickCounts(View(), now, active);
      }
      var reset := ResetRuntimeIfNeeded(now);
      if reset {
        lastTickAt := None;
      }
      var inLockWindow := View().InLockWindow(now);
      if !exempt && active && !inLockWindow {
        if lastTickAt.Some? {
          var delta := now - lastTickAt.value;
          if delta > 0 && delta < MAX_TICK_GAP {
            runtime := runtime.(accumulated := runtime.accumulated + Seconds(lastTickAt.value, now));
          }
        }
        lastTickAt := Some(now);
        return;
      }
      lastTickAt := None;
    }

    /** `popup` is the threshold a popup was raised for; `shown` says whether it could be shown. */
    method CheckAndSendWarnings(now: Moment, shown: bool) returns (popup: Option<int>)
      modifies this`warningsSent, this`warningsDate
      ensures View() == Warn(old(View()), now, shown)
      ensures popup == Popup(old(View()), now)
    {
      var today := UsagePeriodDate(now, daily.wake);
      if today != warningsDate {
        warningsSent := {};
        warningsDate := today;
      }
      var remaining := MinutesUntilLock(View().InputsAt(now));
      if remaining.None? || remaining.value <= 0.0 {
        return None;
      }
      ghost var sent := warningsSent;
      for k := 0 to |WARNING_INTERVALS|
        invariant warningsSent == sent
        invariant FirstDue(sent, remaining.value, 0) == FirstDue(sent, remaining.value, k)
      {
        var mins := WARNING_INTERVALS[k];
        if mins in warningsSent || remaining.value > mins as real {
          continue;
        }
        popup := Some(mins);
        if shown {
          MarkLarger(mins);
        }
        return;
      }
      return None;
    }

    method MarkLarger(mins: int)
      requires mins in WARNING_INTERVALS
      modifies this`warningsSent
      ensures warningsSent == old(warningsSent) + AtLeast(mins)
    {
      warningsSent := warningsSent + {mins};
      for j := 0 to |WARNING_INTERVALS|
        invariant warningsSent == old(warningsSent) + {mins} + set m | m in WARNING_INTERVALS[..j] && m > mins
      {
        var larger := WARNING_INTERVALS[j];
        assert WARNING_INTERVALS[..j + 1] == WARNING_INTERVALS[..j] + [larger];
        if larger > mins {
          warningsSent := warningsSent + {larger};
        }
      }
      assert WARNING_INTERVALS[..|WARNING_INTERVALS|] == WARNING_INTERVALS;
    }

    /** `asked` says whether the platform was asked to lock. */
    method EnforceLockWindow(now: Moment, sessionLocked: bool, lockWorks: bool) returns (asked: bool)
      modifies this`isLocked
      ensures View() == Enforce(old(View()), now, sessionLocked, lockWorks)
      ensures asked <==> MustLock(old(View()), now, sessionLocked)
      ensures daily.Valid() ==> (asked <==> MustBeLocked(old(View()), now) && !sessionLocked)
      ensures isLocked <==> old(isLocked) || (asked && lockWorks)
    {
      hide MustBeLocked;
      if daily.Valid() {
        WindowIs(View(), now);
      }
      asked := View().InLockWindow(now) && !sessionLocked;
      if asked && lockWorks {
        isLocked := true;
      }
    }

    /** `saved` says whether the state was written out. */
    method PersistIfDue(now: Moment, reload: Option<LoadedState>) returns (saved: bool)
      modifies this`daily, this`runtime, this`loadFailed, this`lastPersistAt
      ensures (Whole(), saved) == PersistOutcome(old(Whole()), now, reload)
    {
      if lastPersistAt.Some? {
        var elapsed := now - lastPersistAt.value;
        if elapsed >= 0 && elapsed < PERSIST_INTERVAL {
          return false;
        }
      }
      saved := SaveState(now, reload);
      lastPersistAt := Some(now);
    }

    method SaveState(now: Moment, reload: Option<LoadedState>) returns (saved: bool)
      modifies this`daily, this`runtime, this`loadFailed
      ensures (Whole(), saved) == SaveOutcome(old(Whole()), now, reload)
    {
      if loadFailed {
        LoadState(reload);
        if loadFailed {
          return false;
        }
      }
      runtime := runtime.(stamp := now);
      return true;
    }

    /** A load that fails leaves the settings in memory as they are. */
    method LoadState(loaded: Option<LoadedState>)
      modifies this`daily, this`runtime, this`loadFailed
      ensures loadFailed <==> loaded.None?
      ensures LoadedState(daily, runtime) == if loaded.Some? then loaded.value else LoadedState(old(daily), old(runtime))
    {
      if loaded.None? {
        loadFailed := true;
        return;
      }
      daily, runtime, loadFailed := loaded.value.daily, loaded.value.runtime, false;
    }

    /** One iteration of the loop. */
    method Step(now: Moment, w: PlatformAnswers, reload: Option<LoadedState>)
      returns (popup: Option<int>, asked: bool, saved: bool)
      modifies this
      ensures (Whole(), saved) == StepOutcome(old(Whole()), now, w, reload)
      ensures popup == Popup(Tick(old(View()), now, w.active), now)
      ensures asked <==> Asks(old(View()), now, w)
      ensures old(daily).Valid() ==> (asked <==> MustBeLocked(Tick(old(View()), now, w.active), now) && !w.sessionLocked)
    {
      hide Tick, Warn, Popup, MustLock, PersistOutcome, Enforce, MustBeLocked;
      if daily.Valid() {
        StepAsks(View(), now, w);
      }
      TickAccumulator(now, w.active);
      popup := CheckAndSendWarnings(now, w.shown);
      asked := EnforceLockWindow(now, w.sessionLocked, w.lockWorks);
      saved := PersistIfDue(now, reload);
    }

    method SetWakeTime(now: Moment, wake: TimeOfDay)
      modifies this`daily, this`runtime, this`lastTickAt, this`warningsSent, this`warningsDate
      ensures View() == AfterSetWakeTime(old(View()), now, wake)
    {
      var previous := daily.wake;
      daily := daily.(wake := wake);
      if UsagePeriodDate(now, previous) < UsagePeriodDate(now, daily.wake) {
        runtime := FreshRuntime(now);
        lastTickAt := None;
        warningsSent := {};
      }
      warningsDate := UsagePeriodDate(now, daily.wake);
    }

    method ExtendTime(minutes: int)
      modifies this`runtime, this`warningsSent
      ensures View() == AfterExtendTime(old(View()), minutes)
    {
      runtime := runtime.(extension := runtime.extension + minutes * 60);
      runtime := runtime.(manualLock := false);
      warningsSent := {};
    }

    method SetBedTime(bed: Option<TimeOfDay>)
      modifies this`daily
      ensures View() == AfterSetBedTime(old(View()), bed)
    {
      daily := daily.(bed := bed);
    }

    method SetDailyAllowance(minutes: Option<nat>)
      modifies this`daily
      ensures View() == AfterSetDailyAllowance(old(View()), minutes)
    {
      daily := daily.(allowance := minutes);
    }

    method ClearExtensions()
      modifies this`runtime
      ensures View() == AfterClearExtensions(old(View()))
    {
      runtime := runtime.(extension := 0);
    }

    method ClearWarnings()
      modifies this`warningsSent
      ensures View() == AfterClearWarnings(old(View()))
    {
      warningsSent := {};
    }

    method EngageManualLock(lockWorks: bool)
      modifies this`runtime, this`isLocked
      ensures View() == AfterEngageManualLock(old(View()), lockWorks)
    {
      runtime := runtime.(manualLock := true);
      if lockWorks {
        isLocked := true;
      }
    }

    method ClearManualLock()
      modifies this`runtime
      ensures View() == AfterClearManualLock(old(View()))
    {
      runtime := runtime.(manualLock := false);
    }
  }
}
