/**
  When the PC must be locked, and for how long it will stay unlocked (go/policy/policy.go).

  A moment is a naive wall-clock time in whole microseconds, counted from a midnight; minutes are
  real numbers.
  */
module Policy {
  import opened Wrappers

  type Moment = int

  const SECOND: int := 1_000_000
  const MINUTE: int := 60 * SECOND
  const DAY: int := 1440 * MINUTE

  datatype TimeOfDay = TimeOfDay(hour: int, minute: int) {
    predicate Valid() {
      0 <= hour < 24 && 0 <= minute < 60
    }

    function Minutes(): int {
      hour * 60 + minute
    }
  }

  const DEFAULT_WAKE_TIME: TimeOfDay := TimeOfDay(7, 0)

  function DayOf(now: Moment): int {
    now / DAY
  }

  function MinuteOfDay(now: Moment): (m: int)
    ensures 0 <= m < 1440
  {
    now % DAY / MINUTE
  }

  /** The moment of a time of day on a day. */
  function At(day: int, t: TimeOfDay): Moment {
    day * DAY + t.Minutes() * MINUTE
  }

  /** The usage period a moment belongs to, as the number of the day it started on. */
  function UsagePeriodDate(now: Moment, wake: TimeOfDay): int {
    if MinuteOfDay(now) < wake.Minutes() then DayOf(now) - 1 else DayOf(now)
  }

  predicate IsInBedtimeCurfew(now: Moment, bed: TimeOfDay, wake: TimeOfDay) {
    var nowM, bedM, wakeM := MinuteOfDay(now), bed.Minutes(), wake.Minutes();
    if bedM == wakeM then false
    else if bedM > wakeM then nowM >= bedM || nowM < wakeM
    else bedM <= nowM < wakeM
  }

  datatype Inputs = Inputs(
    now: Moment, bed: Option<TimeOfDay>, allowance: Option<real>, accumulated: real,
    exempt: bool, manualLock: bool, wake: Option<TimeOfDay>)
  {
    function Wake(): TimeOfDay {
      if wake.Some? then wake.value else DEFAULT_WAKE_TIME
    }

    predicate Valid() {
      (bed.Some? ==> bed.value.Valid()) && Wake().Valid()
    }

    /** The same user and settings later on, with more use on the clock. */
    function Later(when: Moment, used: real): Inputs {
      this.(now := when, accumulated := used)
    }
  }

  datatype Reason = NoLock | ManualLock | BeforeWakeUp | PastBedtime | AllowanceReached

  function LockReason(i: Inputs): Reason {
    if i.exempt then NoLock
    else if i.manualLock then ManualLock
    else if i.bed.Some? && IsInBedtimeCurfew(i.now, i.bed.value, i.Wake()) then
      if MinuteOfDay(i.now) < i.Wake().Minutes() then BeforeWakeUp else PastBedtime
    else if i.allowance.Some? && i.accumulated >= i.allowance.value then AllowanceReached
    else NoLock
  }

  predicate ShouldLock(i: Inputs) {
    LockReason(i) != NoLock
  }

  /** The first moment after now with this time of day. */
  function NextTime(now: Moment, t: TimeOfDay): Moment {
    var today := At(DayOf(now), t);
    if today > now then today else today + DAY
  }

  function MinutesBetween(a: Moment, b: Moment): real {
    (b - a) as real / MINUTE as real
  }

  function MinutesUntilLock(i: Inputs): Option<real> {
    if i.exempt then None
    else if ShouldLock(i) then Some(0.0)
    else
      var bed := if i.bed.Some? then Some(MinutesBetween(i.now, NextTime(i.now, i.bed.value))) else None;
      if i.allowance.Some? then
        var remaining := i.allowance.value - i.accumulated;
        if bed.None? || remaining < bed.value then Some(remaining) else bed
      else bed
  }

  // ------------------------------------------------------------------------------------------
  // The curfew
  // ------------------------------------------------------------------------------------------

  lemma MomentParts(now: Moment)
    ensures now == DayOf(now) * DAY + now % DAY
    ensures MinuteOfDay(now) * MINUTE <= now % DAY < (MinuteOfDay(now) + 1) * MINUTE
  {}

  lemma InItsDay(now: Moment)
    ensures DayOf(now) * DAY <= now < DayOf(now) * DAY + DAY
  {}

  /** A moment within a day, from its distance to that day's midnight. */
  lemma WithinDay(day: int, now: Moment)
    requires day * DAY <= now < (day + 1) * DAY
    ensures DayOf(now) == day && now % DAY == now - day * DAY
  {}

  /** Comparing minutes of the day is comparing moments. */
  lemma MinuteAgainst(now: Moment, t: TimeOfDay)
    ensures MinuteOfDay(now) >= t.Minutes() <==> now >= At(DayOf(now), t)
  {
    MomentParts(now);
  }

  /** When the curfew that starts at a bed time ends: the first wake time after it. */
  function CurfewEnd(day: int, bed: TimeOfDay, wake: TimeOfDay): Moment {
    if wake.Minutes() > bed.Minutes() then At(day, wake) else At(day + 1, wake)
  }

  predicate InNight(day: int, now: Moment, bed: TimeOfDay, wake: TimeOfDay) {
    At(day, bed) <= now < CurfewEnd(day, bed, wake)
  }

  /** The day whose night holds a moment of the curfew. */
  lemma CurfewNight(now: Moment, bed: TimeOfDay, wake: TimeOfDay) returns (day: int)
    requires bed.Valid() && wake.Valid() && IsInBedtimeCurfew(now, bed, wake)
    ensures bed != wake && InNight(day, now, bed, wake)
  {
    MinuteAgainst(now, bed);
    MinuteAgainst(now, wake);
    MomentParts(now);
    day := if now >= At(DayOf(now), bed) then DayOf(now) else DayOf(now) - 1;
  }

  lemma NightIsCurfew(day: int, now: Moment, bed: TimeOfDay, wake: TimeOfDay)
    requires bed.Valid() && wake.Valid() && bed != wake && InNight(day, now, bed, wake)
    ensures IsInBedtimeCurfew(now, bed, wake)
  {
    hide MinuteOfDay, DayOf;
    assert bed.Minutes() != wake.Minutes();
    if now < At(day + 1, TimeOfDay(0, 0)) {
      SameDay(day, now);
    } else {
      SameDay(day + 1, now);
    }
    MinuteAgainst(now, bed);
    MinuteAgainst(now, wake);
  }

  lemma SameDay(day: int, now: Moment)
    requires day * DAY <= now < (day + 1) * DAY
    ensures DayOf(now) == day
  {}

  /** The test on minutes of the day is membership in one of the nightly intervals, each from a bed
      time up to the next wake time; equal times mean no curfew at all. */
  lemma CurfewIsInterval(now: Moment, bed: TimeOfDay, wake: TimeOfDay)
    requires bed.Valid() && wake.Valid()
    ensures IsInBedtimeCurfew(now, bed, wake) <==> bed != wake && exists day :: InNight(day, now, bed, wake)
  {
    hide IsInBedtimeCurfew;
    if IsInBedtimeCurfew(now, bed, wake) {
      var day := CurfewNight(now, bed, wake);
    }
    if bed != wake && exists day :: InNight(day, now, bed, wake) {
      var day :| InNight(day, now, bed, wake);
      NightIsCurfew(day, now, bed, wake);
    }
  }

  // ------------------------------------------------------------------------------------------
  // Why the PC is locked
  // ------------------------------------------------------------------------------------------

  /** The moment lies in some night from a bed time to the next wake time. */
  ghost predicate Night(now: Moment, bed: Option<TimeOfDay>, wake: TimeOfDay) {
    bed.Some? && bed.value != wake && exists day :: InNight(day, now, bed.value, wake)
  }

  /** Whatever the order of its cases, the decision is to lock exactly if the user is monitored and there
      is one of three causes: a parent's lock, the night, or an allowance used up. */
  lemma LockCauses(i: Inputs)
    requires i.Valid()
    ensures ShouldLock(i) <==>
              !i.exempt && (i.manualLock || Night(i.now, i.bed, i.Wake())
                            || (i.allowance.Some? && i.accumulated >= i.allowance.value))
  {
    hide IsInBedtimeCurfew, InNight;
    if i.bed.Some? {
      CurfewIsInterval(i.now, i.bed.value, i.Wake());
    }
  }

  /** The reason given: a parent's lock before the night, the night before the allowance, and in the night
      whether today's wake time is still to come. */
  lemma ReasonGiven(i: Inputs)
    requires i.Valid() && ShouldLock(i)
    ensures LockReason(i) ==
              if i.manualLock then ManualLock
              else if !Night(i.now, i.bed, i.Wake()) then AllowanceReached
              else if i.now < At(DayOf(i.now), i.Wake()) then BeforeWakeUp
              else PastBedtime
  {
    hide IsInBedtimeCurfew, InNight, MinuteOfDay, DayOf, At;
    MinuteAgainst(i.now, i.Wake());
    if i.bed.Some? {
      CurfewIsInterval(i.now, i.bed.value, i.Wake());
    }
  }

  // ------------------------------------------------------------------------------------------
  // The usage period
  // ------------------------------------------------------------------------------------------

  /** A period is the stretch from one wake time to the next. */
  lemma PeriodIsInterval(now: Moment, wake: TimeOfDay, day: int)
    requires wake.Valid()
    ensures UsagePeriodDate(now, wake) == day <==> At(day, wake) <= now < At(day + 1, wake)
  {
    hide DayOf, MinuteOfDay;
    MinuteAgainst(now, wake);
    InItsDay(now);
  }

  lemma PeriodMonotone(a: Moment, b: Moment, wake: TimeOfDay)
    requires wake.Valid() && a <= b
    ensures UsagePeriodDate(a, wake) <= UsagePeriodDate(b, wake)
  {
    PeriodIsInterval(a, wake, UsagePeriodDate(a, wake));
    PeriodIsInterval(b, wake, UsagePeriodDate(b, wake));
  }

  /** Dropping a moment's fraction of a second moves it to no other period. */
  lemma PeriodOfWholeSecond(now: Moment, wake: TimeOfDay)
    requires wake.Valid()
    ensures UsagePeriodDate(now / SECOND * SECOND, wake) == UsagePeriodDate(now, wake)
  {
    hide UsagePeriodDate, At;
    var d := UsagePeriodDate(now, wake);
    PeriodIsInterval(now, wake, d);
    PeriodIsInterval(now / SECOND * SECOND, wake, d);
    WholeSecondAgainst(now, d, wake);
    WholeSecondAgainst(now, d + 1, wake);
  }

  lemma WholeSecondAgainst(now: Moment, day: int, t: TimeOfDay)
    ensures At(day, t) <= now <==> At(day, t) <= now / SECOND * SECOND
  {
    var k := day * 86400 + t.Minutes() * 60;
    assert At(day, t) == k * SECOND;
    hide At;
    WholeSeconds(now, k);
  }

  lemma WholeSeconds(now: Moment, k: int)
    ensures k * SECOND <= now <==> k * SECOND <= now / SECOND * SECOND
  {}

  // ------------------------------------------------------------------------------------------
  // The countdown
  // ------------------------------------------------------------------------------------------

  lemma NextTimeIsNext(now: Moment, t: TimeOfDay)
    requires t.Valid()
    ensures now < NextTime(now, t) <= now + DAY
    ensures MinuteOfDay(NextTime(now, t)) == t.Minutes()
  {
    hide DayOf, MinuteOfDay, At;
    var today := DayOf(now);
    NextDayTime(today, t);
    YesterdaysTime(now, t);
    TodaysTime(now, t);
    MinuteOfTime(today, t);
    MinuteOfTime(today + 1, t);
  }

  lemma NextDayTime(day: int, t: TimeOfDay)
    ensures At(day + 1, t) == At(day, t) + DAY
  {}

  lemma TodaysTime(now: Moment, t: TimeOfDay)
    requires t.Valid()
    ensures now < At(DayOf(now), t) + DAY
  {
    hide DayOf;
    InItsDay(now);
  }

  lemma MinuteOfTime(day: int, t: TimeOfDay)
    requires t.Valid()
    ensures MinuteOfDay(At(day, t)) == t.Minutes()
  {
    WithinDay(day, At(day, t));
  }

  /** Outside the curfew at the start, there is none until the next bed time. */
  lemma NoCurfewBeforeBed(now: Moment, later: Moment, bed: TimeOfDay, wake: TimeOfDay)
    requires bed.Valid() && wake.Valid() && !IsInBedtimeCurfew(now, bed, wake)
    requires now <= later < NextTime(now, bed)
    ensures !IsInBedtimeCurfew(later, bed, wake)
  {
    hide IsInBedtimeCurfew;
    if IsInBedtimeCurfew(later, bed, wake) {
      var day := CurfewNight(later, bed, wake);
      NoBedBetween(now, day, bed);
      NightIsCurfew(day, now, bed, wake);
    }
  }

  /** No bed time lies between now and the next one. */
  lemma NoBedBetween(now: Moment, day: int, bed: TimeOfDay)
    requires bed.Valid() && At(day, bed) < NextTime(now, bed)
    ensures At(day, bed) <= now
  {
    hide DayOf, At;
    var today := DayOf(now);
    DaysApart(day, today, bed);
    DaysApart(today, day, bed);
    YesterdaysTime(now, bed);
  }

  lemma DaysApart(a: int, b: int, t: TimeOfDay)
    ensures a < b ==> At(a, t) + DAY <= At(b, t)
  {}

  lemma YesterdaysTime(now: Moment, t: TimeOfDay)
    requires t.Valid()
    ensures At(DayOf(now), t) - DAY <= now
  {
    hide DayOf;
    InItsDay(now);
  }

  /** Nor does a new usage period begin before that bed time. */
  lemma NoRolloverBeforeBed(now: Moment, later: Moment, bed: TimeOfDay, wake: TimeOfDay)
    requires bed.Valid() && wake.Valid() && bed != wake && !IsInBedtimeCurfew(now, bed, wake)
    requires now <= later <= NextTime(now, bed)
    ensures UsagePeriodDate(later, wake) == UsagePeriodDate(now, wake)
  {
    hide IsInBedtimeCurfew, UsagePeriodDate, DayOf, At, CurfewEnd;
    var today := DayOf(now);
    var lastNight := if At(today, bed) > now then today - 1 else today;
    NextDayTime(today - 1, bed);
    TodaysTime(now, bed);
    YesterdaysTime(now, bed);
    assert At(lastNight, bed) + DAY == NextTime(now, bed) && At(lastNight, bed) <= now;
    if InNight(lastNight, now, bed, wake) {
      NightIsCurfew(lastNight, now, bed, wake);
    }
    var d := EndOfNight(lastNight, bed, wake);
    NextDayTime(d, wake);
    PeriodIsInterval(now, wake, d);
    PeriodIsInterval(later, wake, d);
  }

  /** Times of one day are less than a day apart, in the order of their minutes. */
  lemma LaterTime(day: int, a: TimeOfDay, b: TimeOfDay)
    requires a.Valid() && b.Valid()
    ensures a.Minutes() < b.Minutes() ==> At(day, a) < At(day, b) < At(day, a) + DAY
  {
    hide At, TimeOfDay.Minutes, TimeOfDay.Valid;
    MinutesInDay(a);
    MinutesInDay(b);
    Offset(day, a, a.Minutes());
    Offset(day, b, b.Minutes());
  }

  lemma MinutesInDay(t: TimeOfDay)
    requires t.Valid()
    ensures 0 <= t.Minutes() < 1440
  {}

  lemma Offset(day: int, t: TimeOfDay, minutes: int)
    requires minutes == t.Minutes()
    ensures At(day, t) - day * DAY == minutes * MINUTE
  {}

  /** A night ends at a wake time, after it began. */
  lemma EndOfNight(day: int, bed: TimeOfDay, wake: TimeOfDay) returns (d: int)
    requires bed.Valid() && wake.Valid() && bed != wake
    ensures CurfewEnd(day, bed, wake) == At(d, wake) && At(day, bed) < At(d, wake)
  {
    hide At;
    assert bed.Minutes() != wake.Minutes();
    d := if wake.Minutes() > bed.Minutes() then day else day + 1;
    LaterTime(day, bed, wake);
    LaterTime(day, wake, bed);
    NextDayTime(day, wake);
  }

  /** Never early: strictly before the announced time, with use growing no faster than the clock,
      nothing locks. */
  lemma NoLockBeforeCountdown(i: Inputs, m: real, later: Moment, used: real)
    requires i.Valid() && MinutesUntilLock(i) == Some(m)
    requires i.now <= later && MinutesBetween(i.now, later) < m
    requires used <= i.accumulated + MinutesBetween(i.now, later)
    ensures !ShouldLock(i.Later(later, used))
  {
    if i.bed.Some? {
      var bed := NextTime(i.now, i.bed.value);
      assert m <= MinutesBetween(i.now, bed);
      assert later < bed;
      NoCurfewBeforeBed(i.now, later, i.bed.value, i.Wake());
    }
  }

  /** There is a countdown exactly for a monitored user with a bed time, an allowance or a parent's lock. */
  lemma CountdownExists(i: Inputs)
    ensures MinutesUntilLock(i).Some? <==> !i.exempt && (i.bed.Some? || i.allowance.Some? || i.manualLock)
  {
    hide IsInBedtimeCurfew, NextTime, MinutesBetween;
  }

  /** The first whole microsecond not before now + m minutes. */
  function MomentAfter(now: Moment, m: real): Moment {
    var exact := m * MINUTE as real;
    now + if exact.Floor as real == exact then exact.Floor else exact.Floor + 1
  }

  /** What makes the countdown end in a lock: it runs to a bed time that is also the wake time only
      if the allowance runs out first. */
  predicate CountdownIsReal(i: Inputs) {
    || ShouldLock(i)
    || i.bed.None?
    || i.bed.value != i.Wake()
    || (i.allowance.Some? && i.allowance.value - i.accumulated <= MinutesBetween(i.now, NextTime(i.now, i.bed.value)))
  }

  lemma WholeMinutes(a: Moment, b: Moment)
    ensures MomentAfter(a, MinutesBetween(a, b)) == b
  {
    assert MinutesBetween(a, b) * MINUTE as real == (b - a) as real;
  }

  /** Never late either: at the announced time, with all of it used, the PC locks; the one exception
      is a bed time equal to the wake time, which is announced although it starts no curfew. */
  lemma LockAtCountdown(i: Inputs, m: real)
    requires i.Valid() && MinutesUntilLock(i) == Some(m)
    ensures ShouldLock(i.Later(MomentAfter(i.now, m), i.accumulated + m)) <==> CountdownIsReal(i)
  {
    var end := MomentAfter(i.now, m);
    if ShouldLock(i) {
      assert m == 0.0 && end == i.now;
    } else if i.allowance.Some? && (i.bed.None? || i.allowance.value - i.accumulated <= MinutesBetween(i.now, NextTime(i.now, i.bed.value))) {
      assert i.accumulated + m >= i.allowance.value;
    } else {
      var bed := NextTime(i.now, i.bed.value);
      NextTimeIsNext(i.now, i.bed.value);
      WholeMinutes(i.now, bed);
      assert end == bed;
      assert i.bed.value.Minutes() == i.Wake().Minutes() <==> i.bed.value == i.Wake();
    }
  }

  /** And, with a bed time that starts a curfew, the countdown stays within one usage period, so no
      rollover hands back the minutes it counts. */
  lemma CountdownWithinPeriod(i: Inputs, m: real, later: Moment)
    requires i.Valid() && MinutesUntilLock(i) == Some(m) && !ShouldLock(i)
    requires i.bed.Some? && i.bed.value != i.Wake()
    requires i.now <= later && MinutesBetween(i.now, later) <= m
    ensures UsagePeriodDate(later, i.Wake()) == UsagePeriodDate(i.now, i.Wake())
  {
    var bed := NextTime(i.now, i.bed.value);
    assert m <= MinutesBetween(i.now, bed);
    assert later <= bed;
    NoRolloverBeforeBed(i.now, later, i.bed.value, i.Wake());
  }

  /** The next wake time is the end of the current usage period. */
  lemma NextWakeEndsPeriod(now: Moment, wake: TimeOfDay)
    requires wake.Valid()
    ensures NextTime(now, wake) == At(UsagePeriodDate(now, wake) + 1, wake)
  {
    hide UsagePeriodDate, DayOf, At;
    var d := UsagePeriodDate(now, wake);
    PeriodIsInterval(now, wake, d);
    NextDayTime(d, wake);
    NextDayTime(DayOf(now), wake);
    DaysApart(d + 1, DayOf(now), wake);
    DaysApart(DayOf(now), d, wake);
    DaysApart(DayOf(now) + 1, d + 1, wake);
    TodaysTime(now, wake);
    YesterdaysTime(now, wake);
  }

  /** A later moment is in another usage period exactly from the next wake time on. */
  lemma PeriodEndsAtWake(now: Moment, later: Moment, wake: TimeOfDay)
    requires wake.Valid() && now <= later
    ensures UsagePeriodDate(later, wake) != UsagePeriodDate(now, wake) <==> later >= NextTime(now, wake)
  {
    hide UsagePeriodDate, NextTime, At;
    var d := UsagePeriodDate(now, wake);
    NextWakeEndsPeriod(now, wake);
    PeriodIsInterval(now, wake, d);
    PeriodIsInterval(later, wake, d);
  }

  /** A countdown runs across a wake time if it is not cut short by a lock that is already due or by a bed
      time that starts a curfew, and the allowance, if there is one, lasts until then. */
  predicate CrossesWake(i: Inputs) {
    && !ShouldLock(i)
    && (i.bed.None? || i.bed.value == i.Wake())
    && (i.allowance.None? ||
        MomentAfter(i.now, i.allowance.value - i.accumulated) >= NextTime(i.now, i.Wake()))
  }

  /** In general a rollover has come by the announced time exactly if the countdown reaches the next
      wake time, and that depends on the inputs alone. */
  lemma RolloverBeforeLock(i: Inputs, m: real)
    requires i.Valid() && MinutesUntilLock(i) == Some(m)
    ensures UsagePeriodDate(MomentAfter(i.now, m), i.Wake()) != UsagePeriodDate(i.now, i.Wake())
       <==> MomentAfter(i.now, m) >= NextTime(i.now, i.Wake())
    ensures UsagePeriodDate(MomentAfter(i.now, m), i.Wake()) != UsagePeriodDate(i.now, i.Wake()) <==> CrossesWake(i)
  {
    hide UsagePeriodDate, NextTime, IsInBedtimeCurfew, MomentAfter, MinutesBetween;
    CountdownNotNegative(i, m);
    PeriodEndsAtWake(i.now, MomentAfter(i.now, m), i.Wake());
    NextTimeIsNext(i.now, i.Wake());
    if ShouldLock(i) {
      NoTime(i.now);
    } else if i.bed.Some? {
      var bed := NextTime(i.now, i.bed.value);
      WholeMinutes(i.now, bed);
      if i.allowance.Some? {
        var left := i.allowance.value - i.accumulated;
        if left < MinutesBetween(i.now, bed) {
          MomentMonotone(i.now, left, MinutesBetween(i.now, bed));
        } else {
          MomentMonotone(i.now, MinutesBetween(i.now, bed), left);
        }
      }
      if i.bed.value != i.Wake() {
        NoRolloverBeforeBed(i.now, MomentAfter(i.now, m), i.bed.value, i.Wake());
      }
    }
  }

  lemma NoTime(now: Moment)
    ensures MomentAfter(now, 0.0) == now
  {}

  lemma MomentMonotone(now: Moment, a: real, b: real)
    requires a <= b
    ensures MomentAfter(now, a) <= MomentAfter(now, b)
  {
    assert a * MINUTE as real <= b * MINUTE as real;
  }

  lemma CountdownNotNegative(i: Inputs, m: real)
    requires i.Valid() && MinutesUntilLock(i) == Some(m)
    ensures m >= 0.0 && MomentAfter(i.now, m) >= i.now
  {
    hide UsagePeriodDate, NextTime, IsInBedtimeCurfew;
    if i.bed.Some? {
      NextTimeIsNext(i.now, i.bed.value);
    }
  }

  /** For example, without a bed time: a countdown of ten hours announced at six in the morning runs
      across the wake time at seven. */
  lemma RolloverInsideCountdown()
    ensures var i := Inputs(6 * 60 * MINUTE, None, Some(600.0), 0.0, false, false, Some(TimeOfDay(7, 0)));
            && MinutesUntilLock(i) == Some(600.0)
            && UsagePeriodDate(i.now + 60 * MINUTE, i.Wake()) != UsagePeriodDate(i.now, i.Wake())
  {
    WithinDay(0, 6 * 60 * MINUTE);
    WithinDay(0, 7 * 60 * MINUTE);
  }

  /** And with a bed time that is also the wake time: at six a lock in an hour is announced for seven,
      and at seven there is none. */
  lemma LockThatNeverComes()
    ensures var i := Inputs(6 * 60 * MINUTE, Some(TimeOfDay(7, 0)), None, 0.0, false, false, Some(TimeOfDay(7, 0)));
            MinutesUntilLock(i) == Some(60.0) && !ShouldLock(i.Later(i.now + 60 * MINUTE, 60.0))
  {
    WithinDay(0, 6 * 60 * MINUTE);
  }
}
