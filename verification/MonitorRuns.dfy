/**
  Whole runs of the monitor: any mixture of loop steps and parent actions (go/monitor/monitor.go).
  */
module MonitorRuns {
  import opened Wrappers
  import opened Policy
  import opened Monitor

  // ------------------------------------------------------------------------------------------
  // Runs
  // ------------------------------------------------------------------------------------------

  /** A step of the loop, or one call of a parent action.  The dispatcher follows every change with
      StateSaved, and the clearing of the bed time with WarningsCleared first, but the mutex is free
      in between, so anything may come before the save. */
  datatype Action =
    | StepLoop(answers: PlatformAnswers)
    | BedTimeSet(t: TimeOfDay)
    | BedTimeCleared
    | WakeTimeSet(t: TimeOfDay)
    | LimitSet(minutes: nat)
    | LimitCleared
    | TimeExtended(minutes: nat)
    | ExtensionsCleared
    | LockEngaged(lockWorks: bool)
    | LockCleared
    | WarningsCleared
    | StateSaved

  datatype Event = Event(now: Moment, action: Action)

  predicate ValidAction(a: Action) {
    match a
    case BedTimeSet(t) => t.Valid()
    case WakeTimeSet(t) => t.Valid()
    case _ => true
  }

  function Apply(c: Fields, e: Event): Fields {
    match e.action
    case StepLoop(answers) => AfterStep(c, e.now, answers)
    case BedTimeSet(t) => AfterSetBedTime(c, Some(t))
    case BedTimeCleared => AfterSetBedTime(c, None)
    case WakeTimeSet(t) => AfterSetWakeTime(c, e.now, t)
    case LimitSet(minutes) => AfterSetDailyAllowance(c, Some(minutes))
    case LimitCleared => AfterSetDailyAllowance(c, None)
    case TimeExtended(minutes) => AfterExtendTime(c, minutes)
    case ExtensionsCleared => AfterClearExtensions(c)
    case LockEngaged(works) => AfterEngageManualLock(c, works)
    case LockCleared => AfterClearManualLock(c)
    case WarningsCleared => AfterClearWarnings(c)
    case StateSaved => Stamped(c, e.now)
  }

  /** Events in the order of their clock readings. */
  predicate Ordered(start: Moment, events: seq<Event>)
    decreases |events|
  {
    events == []
    || (start <= events[0].now && ValidAction(events[0].action) && Ordered(events[0].now, events[1..]))
  }

  function Run(c: Fields, events: seq<Event>): Fields
    decreases |events|
  {
    if events == [] then c else Run(Apply(c, events[0]), events[1..])
  }

  // ------------------------------------------------------------------------------------------
  // Credited time
  // ------------------------------------------------------------------------------------------

  /** One credited interval, and the facts the lock decision had when it was credited. */
  datatype Credited = Credited(from: Moment, to: Moment, inputs: Inputs)

  /** The monitor with its history since the counters last started over. */
  datatype History = History(c: Fields, credits: seq<Credited>, base: real, since: Moment)

  predicate StartsOver(c: Fields, e: Event) {
    match e.action
    case StepLoop(_) => !RuntimeIsCurrent(c.runtime, c.daily.wake, e.now)
    case WakeTimeSet(t) => UsagePeriodDate(e.now, c.daily.wake) < UsagePeriodDate(e.now, t)
    case _ => false
  }

  function NewCredits(c: Fields, e: Event): seq<Credited> {
    if e.action.StepLoop? && Credit(c, e.now, e.action.answers.active).Some? then
      [Credited(Credit(c, e.now, e.action.answers.active).value, e.now, Rollover(c, e.now).InputsAt(e.now))]
    else []
  }

  function Record(h: History, e: Event): History {
    var over := StartsOver(h.c, e);
    History(
      Apply(h.c, e),
      (if over then [] else h.credits) + NewCredits(h.c, e),
      if over then 0.0 else h.base,
      if over then e.now else h.since)
  }

  function RecordAll(h: History, events: seq<Event>): History
    decreases |events|
  {
    if events == [] then h else RecordAll(Record(h, events[0]), events[1..])
  }

  function Total(credits: seq<Credited>): real {
    if credits == [] then 0.0
    else Total(credits[..|credits| - 1]) + Seconds(credits[|credits| - 1].from, credits[|credits| - 1].to)
  }

  /** Credited intervals: shorter than a minute, none overlapping another, all since the last start
      over, none ending in a lock window. */
  predicate Sound(credits: seq<Credited>, since: Moment, upTo: Moment) {
    && (forall i :: 0 <= i < |credits| ==>
          && since <= credits[i].from < credits[i].to <= upTo
          && credits[i].to - credits[i].from < 60 * SECOND
          && credits[i].inputs.now == credits[i].to && !ShouldLock(credits[i].inputs))
    && (forall i, j :: 0 <= i < j < |credits| ==> credits[i].to <= credits[j].from)
  }

  predicate HistoryHolds(h: History, now: Moment) {
    && h.since <= now
    && Sound(h.credits, h.since, now)
    && h.c.runtime.accumulated == h.base + Total(h.credits)
    && (h.c.lastTick.Some? ==>
          && h.since <= h.c.lastTick.value <= now
          && forall i :: 0 <= i < |h.credits| ==> h.credits[i].to <= h.c.lastTick.value)
  }

  lemma TotalAppend(credits: seq<Credited>, more: seq<Credited>)
    requires |more| <= 1
    ensures Total(credits + more) == Total(credits) + Total(more)
  {
    if more == [] {
      assert credits + more == credits;
    } else {
      assert (credits + more)[..|credits|] == credits;
      assert more[..0] == [];
    }
  }

  /** What one step adds to the use is exactly the credit, to a counter that may have started over. */
  lemma StepUse(c: Fields, now: Moment, answers: PlatformAnswers)
    ensures var credit := Credit(c, now, answers.active);
            && AfterStep(c, now, answers).runtime.accumulated
               == (if RuntimeIsCurrent(c.runtime, c.daily.wake, now) then c.runtime.accumulated else 0.0)
                  + (if credit.Some? then Seconds(credit.value, now) else 0.0)
            && AfterStep(c, now, answers).lastTick == Tick(c, now, answers.active).lastTick
  {
    hide ShouldLock, DueWarning, UsagePeriodDate, AtLeast;
  }

  lemma RecordHolds(h: History, e: Event, now: Moment)
    requires HistoryHolds(h, now) && now <= e.now
    ensures HistoryHolds(Record(h, e), e.now)
  {
    hide Total, ShouldLock, MinutesUntilLock, FirstDue, UsagePeriodDate;
    var kept := if StartsOver(h.c, e) then [] else h.credits;
    var more := NewCredits(h.c, e);
    TotalAppend(kept, more);
    NoCredits();
    if e.action.StepLoop? {
      StepUse(h.c, e.now, e.action.answers);
      if more != [] {
        OneCredit(more[0]);
        assert more == [more[0]];
      }
    }
  }

  lemma NoCredits()
    ensures Total([]) == 0.0
  {}

  lemma OneCredit(credit: Credited)
    ensures Total([credit]) == Seconds(credit.from, credit.to)
  {
    assert [credit][..0] == [];
  }

  lemma {:induction false} RunHolds(h: History, now: Moment, events: seq<Event>)
    requires HistoryHolds(h, now) && Ordered(now, events)
    ensures HistoryHolds(RecordAll(h, events), LastTime(now, events))
    ensures RecordAll(h, events).c == Run(h.c, events)
    decreases |events|
  {
    hide HistoryHolds, Apply;
    if events != [] {
      RecordHolds(h, events[0], now);
      RunHolds(Record(h, events[0]), events[0].now, events[1..]);
    }
  }

  function LastTime(now: Moment, events: seq<Event>): Moment
    decreases |events|
  {
    if events == [] then now else LastTime(events[0].now, events[1..])
  }

  /** Disjoint intervals inside a stretch of time add up to no more than the stretch. */
  lemma {:induction false} TotalWithin(credits: seq<Credited>, since: Moment, upTo: Moment)
    requires since <= upTo && Sound(credits, since, upTo)
    ensures 0.0 <= Total(credits) <= Seconds(since, upTo)
  {
    if credits != [] {
      var last := credits[|credits| - 1];
      var before := credits[..|credits| - 1];
      assert Sound(before, since, last.from);
      TotalWithin(before, since, last.from);
    }
  }

  /** Whatever happens, the use counted since the counters last started over is the sum of disjoint
      intervals and never exceeds the wall-clock time since then. */
  lemma UseWithinWallClock(c: Fields, start: Moment, events: seq<Event>)
    requires Ordered(start, events) && c.lastTick == None
    ensures var h := RecordAll(History(c, [], c.runtime.accumulated, start), events);
            var now := LastTime(start, events);
            && h.c == Run(c, events)
            && Sound(h.credits, h.since, now)
            && h.c.runtime.accumulated == h.base + Total(h.credits)
            && h.c.runtime.accumulated <= h.base + Seconds(h.since, now)
  {
    hide Total, ShouldLock;
    NoCredits();
    var h0 := History(c, [], c.runtime.accumulated, start);
    RunHolds(h0, start, events);
    var h := RecordAll(h0, events);
    TotalWithin(h.credits, h.since, LastTime(start, events));
  }

  // ------------------------------------------------------------------------------------------
  // Never more than a minute over the cap
  // ------------------------------------------------------------------------------------------

  function Cap(c: Fields): Option<real> {
    EffectiveAllowance(c.daily, c.runtime)
  }

  predicate WithinCap(c: Fields) {
    Cap(c).Some? ==> c.runtime.accumulated < Cap(c).value * 60.0 + 60.0
  }

  /** The cap an event leaves is below the one it found. */
  predicate LowersCap(c: Fields, e: Event) {
    var after := Cap(Apply(c, e));
    after.Some? && (Cap(c).None? || after.value < Cap(c).value)
  }

  /** Only parent actions can take minutes away; a loop step's rollover also zeroes the use. */
  predicate KeepsCap(c: Fields, e: Event) {
    e.action.StepLoop? || StartsOver(c, e) || !LowersCap(c, e)
  }

  predicate AlwaysKeepsCap(c: Fields, events: seq<Event>)
    decreases |events|
  {
    events == [] || (KeepsCap(c, events[0]) && AlwaysKeepsCap(Apply(c, events[0]), events[1..]))
  }

  predicate Sane(c: Fields) {
    c.runtime.extension >= 0 && c.runtime.accumulated >= 0.0
  }

  lemma StepSettings(c: Fields, now: Moment, answers: PlatformAnswers)
    ensures var d := AfterStep(c, now, answers);
            && d.exempt == c.exempt && d.daily == c.daily
            && d.runtime.extension == Rollover(c, now).runtime.extension
            && d.runtime.manualLock == Rollover(c, now).runtime.manualLock
  {
    hide ShouldLock, DueWarning, UsagePeriodDate, AtLeast;
  }

  lemma StepCap(c: Fields, now: Moment, answers: PlatformAnswers)
    requires Sane(c) && WithinCap(c) && !c.exempt
    ensures var d := AfterStep(c, now, answers); Sane(d) && WithinCap(d) && !d.exempt
  {
    hide AfterStep, UsagePeriodDate, ShouldLock, Counts;
    StepUse(c, now, answers);
    StepSettings(c, now, answers);
    var r := Rollover(c, now);
    var credit := Credit(c, now, answers.active);
    if credit.Some? {
      CreditOutside(c, now, answers.active);
      NotOverAllowance(r, now);
    }
  }

  lemma CreditOutside(c: Fields, now: Moment, active: bool)
    requires Credit(c, now, active).Some?
    ensures !Rollover(c, now).InLockWindow(now) && 0 < now - Credit(c, now, active).value < MAX_TICK_GAP
  {}

  /** Outside a lock window the allowance is not used up. */
  lemma NotOverAllowance(c: Fields, now: Moment)
    requires !c.InLockWindow(now) && !c.exempt
    ensures Cap(c).Some? ==> c.runtime.accumulated < Cap(c).value * 60.0
  {
    if Cap(c).Some? {
      assert c.InputsAt(now).accumulated < Cap(c).value;
    }
  }

  lemma ParentCap(c: Fields, e: Event)
    requires Sane(c) && WithinCap(c) && !e.action.StepLoop? && KeepsCap(c, e)
    ensures Sane(Apply(c, e)) && WithinCap(Apply(c, e)) && Apply(c, e).exempt == c.exempt
  {
    hide UsagePeriodDate;
  }

  /** A run that starts under cap + 1 minute of use stays there, as long as no parent action takes
      minutes away: a tick credits less than a minute, and only while the allowance lasts. */
  lemma {:induction false} CapOvershoot(c: Fields, events: seq<Event>)
    requires Sane(c) && WithinCap(c) && !c.exempt && AlwaysKeepsCap(c, events)
    ensures WithinCap(Run(c, events))
    decreases |events|
  {
    hide Apply, WithinCap, KeepsCap;
    if events != [] {
      CapStep(c, events[0]);
      CapOvershoot(Apply(c, events[0]), events[1..]);
    }
  }

  lemma CapStep(c: Fields, e: Event)
    requires Sane(c) && WithinCap(c) && !c.exempt && KeepsCap(c, e)
    ensures var d := Apply(c, e); Sane(d) && WithinCap(d) && !d.exempt
  {
    hide AfterStep, WithinCap, KeepsCap;
    if e.action.StepLoop? {
      StepCap(c, e.now, e.action.answers);
    } else {
      ParentCap(c, e);
    }
  }

  /** Exactly when granting extra time takes time away instead: where no limit was set, the grant
      becomes the limit. */
  lemma ExtensionCanLowerCap(c: Fields, now: Moment, minutes: nat)
    requires Sane(c) && minutes > 0
    ensures LowersCap(c, Event(now, TimeExtended(minutes))) <==> c.daily.allowance.None? && c.runtime.extension == 0
  {}

  // ------------------------------------------------------------------------------------------
  // Warnings
  // ------------------------------------------------------------------------------------------

  /** The warnings sent are those at or above some threshold. */
  predicate UpwardClosed(sent: set<int>) {
    && (forall m :: m in sent ==> m in WARNING_INTERVALS)
    && (forall m, n :: m in sent && n in WARNING_INTERVALS && m <= n ==> n in sent)
  }

  lemma FirstDueIs(sent: set<int>, remaining: real, k: nat)
    requires k <= |WARNING_INTERVALS|
    ensures var due := FirstDue(sent, remaining, k);
            due.Some? ==> due.value in WARNING_INTERVALS && due.value !in sent && remaining <= due.value as real
    decreases |WARNING_INTERVALS| - k
  {
    if k < |WARNING_INTERVALS| {
      FirstDueIs(sent, remaining, k + 1);
    }
  }

  lemma DueIsNew(c: Fields, now: Moment)
    ensures DueWarning(c, now).Some? ==> DueWarning(c, now).value in WARNING_INTERVALS && DueWarning(c, now).value !in c.warningsSent
  {
    hide FirstDue;
    var remaining := MinutesUntilLock(c.InputsAt(now));
    if remaining.Some? {
      FirstDueIs(c.warningsSent, remaining.value, 0);
    }
  }

  lemma MarkUpward(c: Fields, mins: int)
    requires UpwardClosed(c.warningsSent) && mins in WARNING_INTERVALS
    ensures UpwardClosed(MarkSent(c, mins).warningsSent)
  {}

  /** The warning phase split around its popup, which is shown with the mutex released: any event may
      come in between. */
  datatype Race = Act(event: Event) | Raise(now: Moment) | Finish(shown: bool)

  datatype Warner = Warner(c: Fields, raised: Option<int>)

  function Interleave(w: Warner, r: Race): Warner {
    match r
    case Act(e) => w.(c := Apply(w.c, e))
    case Raise(now) =>
      if w.raised.Some? then w
      else Warner(WarningsOf(w.c, now), Popup(w.c, now))
    case Finish(shown) =>
      Warner(if w.raised.Some? && shown then MarkSent(w.c, w.raised.value) else w.c, None)
  }

  function InterleaveAll(w: Warner, rs: seq<Race>): Warner
    decreases |rs|
  {
    if rs == [] then w else InterleaveAll(Interleave(w, rs[0]), rs[1..])
  }

  predicate WarnerHolds(w: Warner) {
    UpwardClosed(w.c.warningsSent) && (w.raised.Some? ==> w.raised.value in WARNING_INTERVALS)
  }

  lemma ApplySent(c: Fields, e: Event)
    requires UpwardClosed(c.warningsSent)
    ensures UpwardClosed(Apply(c, e).warningsSent)
  {
    hide UpwardClosed, ShouldLock, MinutesUntilLock, UsagePeriodDate, DueWarning;
    assert UpwardClosed({}) by {
      NothingSent();
    }
    match e.action {
      case StepLoop(answers) =>
        var t := Tick(c, e.now, answers.active);
        var w := WarningsOf(t, e.now);
        DueIsNew(w, e.now);
        if DueWarning(w, e.now).Some? {
          MarkUpward(w, DueWarning(w, e.now).value);
        }
      case _ =>
    }
  }

  lemma NothingSent()
    ensures UpwardClosed({})
  {}

  lemma RaceHolds(w: Warner, r: Race)
    requires WarnerHolds(w)
    ensures WarnerHolds(Interleave(w, r))
  {
    hide UpwardClosed, MinutesUntilLock, UsagePeriodDate, DueWarning, Apply;
    NothingSent();
    match r {
      case Act(e) => ApplySent(w.c, e);
      case Raise(now) => DueIsNew(WarningsOf(w.c, now), now);
      case Finish(shown) =>
        if w.raised.Some? {
          MarkUpward(w.c, w.raised.value);
        }
    }
  }

  /** In every reachable state, even when parent actions land while a popup is on screen, the
      warnings marked sent are those at or above some threshold. */
  lemma {:induction false} SentUpwardClosed(w: Warner, rs: seq<Race>)
    requires WarnerHolds(w)
    ensures WarnerHolds(InterleaveAll(w, rs))
    decreases |rs|
  {
    hide WarnerHolds, Interleave;
    if rs != [] {
      RaceHolds(w, rs[0]);
      SentUpwardClosed(Interleave(w, rs[0]), rs[1..]);
    }
  }

  // With whole steps, the popups shown since warnings were last cleared come in order.

  predicate ClearsWarnings(c: Fields, e: Event) {
    match e.action
    case StepLoop(answers) => UsagePeriodDate(e.now, c.daily.wake) != c.warningsDate
    case WakeTimeSet(t) => StartsOver(c, e)
    case TimeExtended(_) => true
    case WarningsCleared => true
    case _ => false
  }

  function ShownBy(c: Fields, e: Event): seq<int> {
    if e.action.StepLoop? && e.action.answers.shown then
      var popup := Popup(Tick(c, e.now, e.action.answers.active), e.now);
      if popup.Some? then [popup.value] else []
    else []
  }

  /** The thresholds of the popups shown since the last clear. */
  function ShownAfter(c: Fields, shown: seq<int>, events: seq<Event>): seq<int>
    decreases |events|
  {
    if events == [] then shown
    else
      var e := events[0];
      ShownAfter(Apply(c, e), (if ClearsWarnings(c, e) then [] else shown) + ShownBy(c, e), events[1..])
  }

  predicate Decreasing(shown: seq<int>) {
    forall i, j :: 0 <= i < j < |shown| ==> shown[i] > shown[j]
  }

  predicate ShownHolds(c: Fields, shown: seq<int>) {
    && UpwardClosed(c.warningsSent)
    && Decreasing(shown)
    && (forall i :: 0 <= i < |shown| ==> shown[i] in WARNING_INTERVALS)
    && (forall i :: 0 <= i < |shown| ==> shown[i] in c.warningsSent)
  }

  lemma ShownStep(c: Fields, shown: seq<int>, e: Event)
    requires ShownHolds(c, shown)
    ensures ShownHolds(Apply(c, e), (if ClearsWarnings(c, e) then [] else shown) + ShownBy(c, e))
  {
    hide AfterStep, Tick, ShouldLock, MinutesUntilLock, UsagePeriodDate, DueWarning, UpwardClosed;
    ApplySent(c, e);
    if e.action.StepLoop? {
      StepShown(c, shown, e.now, e.action.answers);
    }
  }

  lemma TickWarnings(c: Fields, now: Moment, active: bool)
    ensures var t := Tick(c, now, active);
            t.warningsSent == c.warningsSent && t.warningsDate == c.warningsDate && t.daily == c.daily
  {
    hide ShouldLock, UsagePeriodDate;
  }

  lemma StepSent(c: Fields, now: Moment, answers: PlatformAnswers)
    ensures AfterStep(c, now, answers).warningsSent == Warn(Tick(c, now, answers.active), now, answers.shown).warningsSent
  {
    hide Tick, Warn, ShouldLock, UsagePeriodDate;
  }

  lemma OwnThreshold(mins: int)
    requires mins in WARNING_INTERVALS
    ensures mins in AtLeast(mins)
  {}

  lemma StepShown(c: Fields, shown: seq<int>, now: Moment, answers: PlatformAnswers)
    requires ShownHolds(c, shown)
    ensures var e := Event(now, StepLoop(answers));
            var all := (if ClearsWarnings(c, e) then [] else shown) + ShownBy(c, e);
            && Decreasing(all)
            && (forall i :: 0 <= i < |all| ==> all[i] in WARNING_INTERVALS)
            && (forall i :: 0 <= i < |all| ==> all[i] in AfterStep(c, now, answers).warningsSent)
  {
    hide Tick, AfterStep, UsagePeriodDate, DueWarning, UpwardClosed, AtLeast;
    TickWarnings(c, now, answers.active);
    StepSent(c, now, answers);
    var e := Event(now, StepLoop(answers));
    var kept := if ClearsWarnings(c, e) then [] else shown;
    var w := WarningsOf(Tick(c, now, answers.active), now);
    DueIsNew(w, now);
    NothingSent();
    var added := ShownBy(c, e);
    var after := AfterStep(c, now, answers).warningsSent;
    assert forall i :: 0 <= i < |kept| ==> kept[i] in w.warningsSent;
    assert w.warningsSent <= after;
    if added != [] {
      NewIsSmaller(w.warningsSent, kept, added[0]);
      OwnThreshold(added[0]);
      assert added == [added[0]];
    }
    assert forall i :: 0 <= i < |kept + added| ==> (kept + added)[i] in after;
  }

  lemma NewIsSmaller(sent: set<int>, shown: seq<int>, mins: int)
    requires UpwardClosed(sent) && mins in WARNING_INTERVALS && mins !in sent
    requires forall i :: 0 <= i < |shown| ==> shown[i] in sent
    ensures forall i :: 0 <= i < |shown| ==> shown[i] > mins
  {}

  function Rank(mins: int): int {
    if mins == 1 then 0 else if mins == 5 then 1 else if mins == 15 then 2 else 3
  }

  lemma {:induction false} RankBound(shown: seq<int>, i: nat)
    requires Decreasing(shown) && forall i :: 0 <= i < |shown| ==> shown[i] in WARNING_INTERVALS
    requires i < |shown|
    ensures Rank(shown[i]) <= 3 - i
  {
    if i > 0 {
      RankBound(shown, i - 1);
      assert shown[i - 1] > shown[i];
    }
  }

  lemma AtMostFour(shown: seq<int>)
    requires Decreasing(shown) && forall i :: 0 <= i < |shown| ==> shown[i] in WARNING_INTERVALS
    ensures |shown| <= 4
  {
    if shown != [] {
      RankBound(shown, |shown| - 1);
    }
  }

  /** Between two clears at most four warnings are shown, for shorter and shorter times. */
  lemma {:induction false} WarningsShownInOrder(c: Fields, shown: seq<int>, events: seq<Event>)
    requires ShownHolds(c, shown)
    ensures var all := ShownAfter(c, shown, events);
            Decreasing(all) && |all| <= 4 && forall i :: 0 <= i < |all| ==> all[i] in WARNING_INTERVALS
    decreases |events|
  {
    hide Apply, ShownBy, ClearsWarnings, UpwardClosed;
    if events == [] {
      AtMostFour(shown);
    } else {
      var e := events[0];
      ShownStep(c, shown, e);
      WarningsShownInOrder(Apply(c, e), (if ClearsWarnings(c, e) then [] else shown) + ShownBy(c, e), events[1..]);
    }
  }

  // ------------------------------------------------------------------------------------------
  // Clears that a popup undoes
  // ------------------------------------------------------------------------------------------

  /** A parent action that clears the warnings while the loop is in its warning phase leaves them
      cleared exactly if no popup is on screen, or the one that is turns out not to have been shown:
      closing it marks its threshold and all larger ones again. */
  lemma PopupUndoesClear(w: Warner, e: Event, shown: bool)
    requires WarnerHolds(w) && !e.action.StepLoop? && ClearsWarnings(w.c, e)
    ensures var after := InterleaveAll(w, [Act(e), Finish(shown)]).c.warningsSent;
            && (after == {} <==> w.raised.None? || !shown)
            && (w.raised.Some? && shown ==> after == AtLeast(w.raised.value))
  {
    hide UsagePeriodDate, AtLeast, UpwardClosed;
    InterleaveTwo(w, Act(e), Finish(shown));
    if w.raised.Some? {
      OwnThreshold(w.raised.value);
    }
  }

  lemma InterleaveTwo(w: Warner, a: Race, b: Race)
    ensures InterleaveAll(w, [a, b]) == Interleave(Interleave(w, a), b)
  {
    hide Interleave;
    assert [a, b][1..] == [b] && [b][1..] == [];
    assert InterleaveAll(w, [a, b]) == InterleaveAll(Interleave(w, a), [b]);
  }

  /** None of the events clears the warnings, by a parent action or a new period. */
  predicate NeverClears(c: Fields, events: seq<Event>)
    decreases |events|
  {
    events == [] || (!ClearsWarnings(c, events[0]) && NeverClears(Apply(c, events[0]), events[1..]))
  }

  lemma SentStays(c: Fields, e: Event, raised: int)
    requires !ClearsWarnings(c, e) && AtLeast(raised) <= c.warningsSent
    ensures AtLeast(raised) <= Apply(c, e).warningsSent
    ensures forall i :: 0 <= i < |ShownBy(c, e)| ==> ShownBy(c, e)[i] < raised
  {
    hide Tick, AfterStep, UsagePeriodDate, DueWarning;
    if e.action.StepLoop? {
      var now, answers := e.now, e.action.answers;
      var t := Tick(c, now, answers.active);
      TickWarnings(c, now, answers.active);
      StepSent(c, now, answers);
      DueIsNew(t, now);
    }
  }

  /** Once a threshold and all larger ones are marked, every warning until the next clear is for a
      shorter time. */
  lemma {:induction false} ShownBelow(c: Fields, shown: seq<int>, events: seq<Event>, raised: int)
    requires AtLeast(raised) <= c.warningsSent && NeverClears(c, events)
    requires forall i :: 0 <= i < |shown| ==> shown[i] < raised
    ensures forall i :: 0 <= i < |ShownAfter(c, shown, events)| ==> ShownAfter(c, shown, events)[i] < raised
    decreases |events|
  {
    hide Apply, ShownBy, ClearsWarnings, AtLeast;
    if events != [] {
      SentStays(c, events[0], raised);
      ShownBelow(Apply(c, events[0]), shown + ShownBy(c, events[0]), events[1..], raised);
    }
  }

  /** So whatever follows a clear that a shown popup undid, up to the next clear: no warning at or above
      the popup's threshold is shown, however much time the action has added. */
  lemma PopupSwallowsClear(w: Warner, e: Event, events: seq<Event>)
    requires WarnerHolds(w) && w.raised.Some? && !e.action.StepLoop? && ClearsWarnings(w.c, e)
    requires NeverClears(InterleaveAll(w, [Act(e), Finish(true)]).c, events)
    ensures var shown := ShownAfter(InterleaveAll(w, [Act(e), Finish(true)]).c, [], events);
            forall i :: 0 <= i < |shown| ==> shown[i] < w.raised.value
  {
    hide Apply, AtLeast, NeverClears, InterleaveAll, ShownAfter, ClearsWarnings;
    PopupUndoesClear(w, e, true);
    ShownBelow(InterleaveAll(w, [Act(e), Finish(true)]).c, [], events, w.raised.value);
  }

  /** For example, from a fresh start at noon with 56 of 60 minutes used: the popup for 5 minutes comes
      up, a parent grants 10 minutes, and at 14 minutes left the warning for 15 is due exactly if the
      popup was not shown. */
  lemma SwallowedWarning(shown: bool)
    ensures var now, wake := 12 * 60 * MINUTE, TimeOfDay(7, 0);
            var c := Fields(false, Daily(None, wake, Some(60)), Runtime(now, 3360.0, false, 0), None, None, {},
                            UsagePeriodDate(now, wake), false);
            var w := InterleaveAll(Warner(c, None), [Raise(now), Act(Event(now, TimeExtended(10))), Finish(shown)]);
            && MinutesUntilLock(w.c.InputsAt(now)) == Some(14.0)
            && Popup(w.c, now) == if shown then None else Some(15)
  {
    hide UsagePeriodDate, InterleaveAll;
    var now, wake := 12 * 60 * MINUTE, TimeOfDay(7, 0);
    var c := Fields(false, Daily(None, wake, Some(60)), Runtime(now, 3360.0, false, 0), None, None, {},
                    UsagePeriodDate(now, wake), false);
    var e := Event(now, TimeExtended(10));
    var w := Interleave(Interleave(Warner(c, Some(5)), Act(e)), Finish(shown));
    MinutesLeft(c, now, 4.0);
    assert Popup(c, now) == Some(5);
    InterleaveThree(Warner(c, None), Raise(now), Act(e), Finish(shown));
    MinutesLeft(w.c, now, 14.0);
    assert shown ==> w.c.warningsSent == {5, 15, 30};
  }

  lemma MinutesLeft(c: Fields, now: Moment, minutes: real)
    requires !c.exempt && !c.runtime.manualLock && c.daily.bed.None? && minutes > 0.0
    requires Cap(c) == Some(c.runtime.accumulated / 60.0 + minutes)
    ensures MinutesUntilLock(c.InputsAt(now)) == Some(minutes)
  {}

  lemma InterleaveThree(w: Warner, x: Race, y: Race, z: Race)
    ensures InterleaveAll(w, [x, y, z]) == Interleave(Interleave(Interleave(w, x), y), z)
  {
    hide Interleave;
    assert [x, y, z][1..] == [y, z];
    InterleaveTwo(Interleave(w, x), y, z);
  }

  // ------------------------------------------------------------------------------------------
  // While the state files cannot be read
  // ------------------------------------------------------------------------------------------

  /** An event, and what a load made during it would return. */
  datatype Try = Try(event: Event, reload: Option<LoadedState>)

  /** The monitor and everything it has written to the state files. */
  datatype Writer = Writer(m: Memory, writes: seq<LoadedState>)

  function Attempt(w: Writer, t: Try): Writer {
    var (after, saved) :=
      match t.event.action
      case StepLoop(answers) => StepOutcome(w.m, t.event.now, answers, t.reload)
      case StateSaved => SaveOutcome(w.m, t.event.now, t.reload)
      case _ => (w.m.(c := Apply(w.m.c, t.event)), false);
    Writer(after, if saved then w.writes + [LoadedState(after.c.daily, after.c.runtime)] else w.writes)
  }

  function AttemptAll(w: Writer, tries: seq<Try>): Writer
    decreases |tries|
  {
    if tries == [] then w else AttemptAll(Attempt(w, tries[0]), tries[1..])
  }

  function EventsOf(tries: seq<Try>): (events: seq<Event>)
    ensures |events| == |tries| && forall i :: 0 <= i < |tries| ==> events[i] == tries[i].event
  {
    seq(|tries|, i requires 0 <= i < |tries| => tries[i].event)
  }

  /** What a load returned, as a save right after it writes it. */
  predicate WrittenAsRead(written: LoadedState, t: Try) {
    && t.reload.Some?
    && written == LoadedState(t.reload.value.daily, t.reload.value.runtime.(stamp := t.event.now))
  }

  /** After a load that worked, loads made later change nothing: the runs above are all there is. */
  lemma {:induction false} LoadedRun(w: Writer, tries: seq<Try>)
    requires !w.m.loadFailed
    ensures AttemptAll(w, tries).m == Memory(Run(w.m.c, EventsOf(tries)), false)
    ensures |AttemptAll(w, tries).writes| >= |w.writes| && AttemptAll(w, tries).writes[..|w.writes|] == w.writes
    decreases |tries|
  {
    hide StepOutcome, AfterStep;
    if tries != [] {
      LoadedAttempt(w, tries[0]);
      LoadedRun(Attempt(w, tries[0]), tries[1..]);
      assert EventsOf(tries)[1..] == EventsOf(tries[1..]);
    }
  }

  lemma LoadedAttempt(w: Writer, t: Try)
    requires !w.m.loadFailed
    ensures Attempt(w, t).m == Memory(Apply(w.m.c, t.event), false)
    ensures |Attempt(w, t).writes| >= |w.writes| && Attempt(w, t).writes[..|w.writes|] == w.writes
  {
    hide StepOutcome, AfterStep;
    if t.event.action.StepLoop? {
      LoadedStep(w.m.c, t.event.now, t.event.action.answers, t.reload);
    }
  }

  /** After a load that failed nothing is written until one works, and then first of all what it read:
      neither the defaults in memory nor a change a parent made to them ever reaches the files. */
  lemma {:induction false} UnreadIsNotOverwritten(m: Memory, tries: seq<Try>)
    requires m.loadFailed
    ensures var w := AttemptAll(Writer(m, []), tries);
            && (w.writes == [] <==> w.m.loadFailed)
            && (w.writes != [] ==> exists t :: t in tries && WrittenAsRead(w.writes[0], t))
    decreases |tries|
  {
    hide Apply, Tick, Warn, Enforce, WrittenAsRead;
    if tries != [] {
      var w := Attempt(Writer(m, []), tries[0]);
      FailedAttempt(m, tries[0]);
      if w.m.loadFailed {
        UnreadIsNotOverwritten(w.m, tries[1..]);
      } else {
        LoadedRun(w, tries[1..]);
      }
    }
  }

  lemma FailedAttempt(m: Memory, t: Try)
    requires m.loadFailed
    ensures var w := Attempt(Writer(m, []), t);
            if w.m.loadFailed then w.writes == [] else |w.writes| == 1 && WrittenAsRead(w.writes[0], t)
  {
    hide Apply, Tick, Warn, Enforce;
  }
}
