/**
  What a parent is told: every variable by its name, and what the ones that are computed say about the
  monitor (go/dispatcher/dispatcher.go, go/policy/policy.go).
  */
module Reports {
  import opened Text
  import opened Wrappers
  import opened Kdl
  import opened Protocol
  import opened Envelope
  import opened Exchange
  import opened Policy
  import opened Monitor
  import opened MonitorRuns
  import opened ParentActions
  import StateFile
  import Utf8

  // ------------------------------------------------------------------------------------------
  // Names
  // ------------------------------------------------------------------------------------------

  /** How long the names are, and a letter that tells those of one length apart. */
  lemma NameLengths()
    ensures |NameOf(Name)| == 4 && |NameOf(Status)| == 6 && |NameOf(CurrentUser)| == 12 && |NameOf(DailyLimit)| == 11
    ensures |NameOf(BedTime)| == 8 && |NameOf(ManualLockSet)| == 11 && |NameOf(WakeTime)| == 9
    ensures |NameOf(CumulativeExtension)| == 20 && |NameOf(AccumulatedSeconds)| == 19 && |NameOf(TimeRemaining)| == 14
    ensures |NameOf(EnforcementActive)| == 18 && |NameOf(EnforcementReason)| == 18 && |NameOf(AccessStatus)| == 13
    ensures NameOf(DailyLimit)[0] == 'd' && NameOf(ManualLockSet)[0] == 'm'
    ensures NameOf(EnforcementActive)[12] == 'a' && NameOf(EnforcementReason)[12] == 'r'
  {}

  /** Every variable has its own name. */
  lemma NamesDiffer(v: Variable, w: Variable)
    ensures NameOf(v) == NameOf(w) <==> v == w
  {
    hide NameOf;
    NameLengths();
  }

  lemma NameFound(name: string)
    ensures VariableOf(name).Some? ==> NameOf(VariableOf(name).value) == name
  {
    hide NameOf;
  }

  lemma NameKnown(v: Variable)
    ensures VariableOf(NameOf(v)).Some?
  {
    hide NameOf;
  }

  /** A name is that of a variable exactly if it is that variable's own. */
  lemma NamedExactly(name: string, v: Variable)
    ensures VariableOf(name) == Some(v) <==> name == NameOf(v)
  {
    hide NameOf, VariableOf;
    NameFound(name);
    NameKnown(v);
    NameFound(NameOf(v));
    NamesDiffer(VariableOf(NameOf(v)).value, v);
  }

  lemma SettingNames()
    ensures VariableOf("daily_limit") == Some(DailyLimit) && VariableOf("bed_time") == Some(BedTime)
    ensures VariableOf("wake_time") == Some(WakeTime) && VariableOf("manual_lock") == Some(ManualLockSet)
    ensures VariableOf("cumulative_extension") == Some(CumulativeExtension)
  {
    hide VariableOf;
    NamedExactly("daily_limit", DailyLimit);
    NamedExactly("bed_time", BedTime);
    NamedExactly("wake_time", WakeTime);
    NamedExactly("manual_lock", ManualLockSet);
    NamedExactly("cumulative_extension", CumulativeExtension);
  }

  // ------------------------------------------------------------------------------------------
  // Answers to get
  // ------------------------------------------------------------------------------------------

  /** A get of a variable answers with its value and has no effect; an unknown name is refused. */
  lemma GetAnswers(a: Agent, req: Request, v: Variable)
    requires a.c.daily.Valid() && Arrives(req) && req.action == "get" && req.variable == Some(NameOf(v))
    ensures Dispatch(a, req) == Done(Content(OKContent(Read(a, v))), [])
  {
    hide NameOf, VariableOf, OKContent, Read, Settings, Dispatch;
    DispatchSet(a, req);
    NamedExactly(NameOf(v), v);
    NotSettings(v);
  }

  lemma NotSettings(v: Variable)
    ensures NameOf(v) != "settings"
  {
    hide NameOf;
    NameLengths();
    FirstOfBedTime();
    assert |"settings"| == 8 && "settings"[0] == 's';
  }

  lemma FirstOfBedTime()
    ensures NameOf(BedTime)[0] == 'b'
  {}

  /** Looking a name up among nodes with names of their own. */
  lemma {:induction false} OwnNode(nodes: seq<Node>, k: nat)
    requires k < |nodes| && forall i :: 0 <= i < |nodes| && i != k ==> nodes[i].name != nodes[k].name
    ensures LastNode(nodes, nodes[k].name) == Some(nodes[k])
  {
    if k < |nodes| - 1 {
      OwnNode(nodes[..|nodes| - 1], k);
    }
  }

  function IndexOfVariable(v: Variable): (k: nat)
    ensures k < |ALL_VARIABLES| && ALL_VARIABLES[k] == v
  {
    match v
    case Name => 0
    case Status => 1
    case CurrentUser => 2
    case DailyLimit => 3
    case BedTime => 4
    case ManualLockSet => 5
    case WakeTime => 6
    case CumulativeExtension => 7
    case AccumulatedSeconds => 8
    case TimeRemaining => 9
    case EnforcementActive => 10
    case EnforcementReason => 11
    case AccessStatus => 12
  }

  lemma EachVariableOnce(i: nat, v: Variable)
    requires i < |ALL_VARIABLES| && ALL_VARIABLES[i] == v
    ensures i == IndexOfVariable(v)
  {}

  lemma SettingsField(a: Agent, v: Variable)
    requires a.c.daily.Valid()
    ensures LastNode(Settings(a), NameOf(v)).Some? && Field(Settings(a), NameOf(v)) == Read(a, v)
  {
    hide NameOf, Read, LastNode, IndexOfVariable;
    var nodes, k := Settings(a), IndexOfVariable(v);
    forall i | 0 <= i < |nodes| && i != k ensures nodes[i].name != nodes[k].name {
      NamesDiffer(ALL_VARIABLES[i], v);
      EachVariableOnce(i, ALL_VARIABLES[i]);
    }
    OwnNode(nodes, k);
  }

  /** A get of the settings: the panel reads every variable under its own name. */
  lemma SettingsRead(a: Agent, req: Request, v: Variable, id: string, ts: int, nonce: string)
    requires a.c.daily.Valid() && Arrives(req) && req.action == "get" && req.variable == Some("settings")
    ensures var d := Dispatch(a, req);
            && d.outcome.Content? && d.effects == []
            && var read := Carrying(d.outcome.nodes, id, a.hostname, ts, nonce);
            && read.status == "ok" && read.settings.Some?
            && NameOf(v) in read.settings.value && read.settings.value[NameOf(v)] == Read(a, v)
  {
    hide NameOf, VariableOf, Read, Settings, Dispatch, LastNode, Carrying, ChildMap;
    DispatchSet(a, req);
    SettingsCarried(Settings(a), id, a.hostname, ts, nonce);
    SettingsField(a, v);
  }

  // ------------------------------------------------------------------------------------------
  // What the computed variables say
  // ------------------------------------------------------------------------------------------

  /** Something other than a parent's lock calls for a locked screen. */
  ghost predicate ScheduleLocks(c: Fields, now: Moment) {
    !c.exempt && (Night(now, c.daily.bed, c.daily.wake) || UsedUp(c))
  }

  lemma EnforcementIs(a: Agent)
    requires a.c.daily.Valid()
    ensures Enforcement(a).Some? <==> ScheduleLocks(a.c, a.now)
    ensures Enforcement(a).Some? ==>
              Enforcement(a).value
              == if !Night(a.now, a.c.daily.bed, a.c.daily.wake) then "daily limit reached"
                 else if a.now < At(DayOf(a.now), a.c.daily.wake) then "before wake-up"
                 else "past bedtime"
  {
    hide Night, ShouldLock, LockReason, UsedUp, At, DayOf;
    var i := a.c.InputsAt(a.now).(manualLock := false);
    var c := a.c.(runtime := a.c.runtime.(manualLock := false));
    assert c.InputsAt(a.now) == i;
    WindowIs(c, a.now);
    SameUse(a.c, c);
    LockDecided(i);
    if ShouldLock(i) {
      ReasonGiven(i);
    }
  }

  lemma LockDecided(i: Inputs)
    ensures ShouldLock(i) <==> LockReason(i) != NoLock
    ensures !i.manualLock ==> LockReason(i) != ManualLock
  {}

  lemma SameUse(c: Fields, d: Fields)
    requires c.daily == d.daily && c.runtime.accumulated == d.runtime.accumulated && c.runtime.extension == d.runtime.extension
    ensures UsedUp(c) <==> UsedUp(d)
  {}

  /** Whether the schedule locks, and why. */
  lemma EnforcementTold(a: Agent)
    requires a.c.daily.Valid()
    ensures Read(a, EnforcementActive) == Bool(ScheduleLocks(a.c, a.now))
    ensures Read(a, EnforcementReason)
         == if !ScheduleLocks(a.c, a.now) then Null
            else if !Night(a.now, a.c.daily.bed, a.c.daily.wake) then Str("daily limit reached")
            else if a.now < At(DayOf(a.now), a.c.daily.wake) then Str("before wake-up")
            else Str("past bedtime")
  {
    hide Enforcement, Night, ScheduleLocks, At, DayOf;
    EnforcementIs(a);
  }

  /** The access text says "Locked". */
  predicate SaysLocked(text: string) {
    |text| >= 6 && text[..6] == "Locked"
  }

  /** The access text of a monitored user says "Locked" exactly if the screen must be locked.  In general it
      tells the truth exactly unless a lock is set for a user who is exempt: the text says "Locked", and
      nothing ever locks. */
  lemma AccessTold(a: Agent)
    requires a.c.daily.Valid()
    ensures Read(a, AccessStatus).Str?
    ensures SaysLocked(Read(a, AccessStatus).s) <==> ScheduleLocks(a.c, a.now) || a.c.runtime.manualLock
    ensures (SaysLocked(Read(a, AccessStatus).s) <==> MustBeLocked(a.c, a.now)) <==> !(a.c.exempt && a.c.runtime.manualLock)
    ensures !SaysLocked(Read(a, AccessStatus).s) ==>
              Read(a, AccessStatus) == Str(if a.screenLocked then "Screen locked" else "Unlocked")
  {
    hide Enforcement, Night, UsedUp, SaysLocked;
    EnforcementIs(a);
    LockedTexts("manual lock");
    if Enforcement(a).Some? {
      LockedTexts(Enforcement(a).value);
    }
  }

  lemma LockedTexts(reason: string)
    ensures SaysLocked("Locked " + EM_DASH + " " + reason)
    ensures !SaysLocked("Screen locked") && !SaysLocked("Unlocked")
  {
    var text := "Locked " + EM_DASH + " " + reason;
    assert text[..6] == "Locked";
    assert "Screen locked"[..6][0] == 'S' && "Unlocked"[..6][0] == 'U';
  }

  /** The remaining time is told in whole minutes, the nearest and of two the even one; nothing is told
      exactly if nothing is counted down. */
  lemma RemainingTold(a: Agent)
    requires a.c.daily.Valid()
    ensures var left, told := MinutesUntilLock(a.c.InputsAt(a.now)), Read(a, TimeRemaining);
            && (left.None? <==> told.Null?)
            && (left.Some? ==>
                  && told.Int?
                  && -0.5 <= told.n as real - left.value <= 0.5
                  && (told.n as real - left.value in {-0.5, 0.5} ==> told.n % 2 == 0))
  {
    hide MinutesUntilLock;
  }

  /** What is kept is told as it is kept: the use in whole seconds begun, the extension in seconds, times so
      that they read back as themselves, and null for what is not set. */
  lemma StoredTold(a: Agent)
    requires a.c.daily.Valid()
    ensures Read(a, AccumulatedSeconds).Int?
    ensures Read(a, AccumulatedSeconds).n as real <= a.c.runtime.accumulated < (Read(a, AccumulatedSeconds).n + 1) as real
    ensures Read(a, CumulativeExtension) == Int(a.c.runtime.extension) && Read(a, ManualLockSet) == Bool(a.c.runtime.manualLock)
    ensures Read(a, DailyLimit) == if a.c.daily.allowance.Some? then Int(a.c.daily.allowance.value) else Null
    ensures Read(a, BedTime).Null? <==> a.c.daily.bed.None?
    ensures a.c.daily.bed.Some? ==> ParseHHMM(Read(a, BedTime)) == Ok(a.c.daily.bed.value)
    ensures ParseHHMM(Read(a, WakeTime)) == Ok(a.c.daily.wake)
    ensures Read(a, Name) == Str(a.hostname) && Read(a, CurrentUser) == Str(a.user)
  {
    hide StateFile.FormatTime, StateFile.ParseTimeHHMM;
    StateFile.TimeRoundTrip(a.c.daily.wake);
    if a.c.daily.bed.Some? {
      StateFile.TimeRoundTrip(a.c.daily.bed.value);
    }
  }

  /** The screen's state is told as it is. */
  lemma StatusTold(a: Agent)
    requires a.c.daily.Valid()
    ensures Read(a, Status) == Str("LOCKED") <==> a.screenLocked
    ensures Read(a, Status) == Str("UNLOCKED") <==> !a.screenLocked
  {
    assert |"LOCKED"| == 6 && |"UNLOCKED"| == 8;
  }
}
