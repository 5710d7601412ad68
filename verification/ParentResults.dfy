/**
  What each action of a parent comes to: the text a value is given as, the answer, and every field of the
  monitor afterwards (go/dispatcher/dispatcher.go, go/policy/policy.go).
  */
module ParentResults {
  import opened Text
  import opened Wrappers
  import opened Kdl
  import opened KdlRoundTrip
  import opened Protocol
  import opened Envelope
  import opened Exchange
  import opened FieldText
  import opened Policy
  import opened Monitor
  import opened MonitorRuns
  import opened ParentActions
  import Duties
  import Reports
  import StateFile
  import Utf8

  // ------------------------------------------------------------------------------------------
  // The actions
  // ------------------------------------------------------------------------------------------

  lemma DispatchRest(a: Agent, req: Request)
    requires a.c.daily.Valid() && Arrives(req)
    ensures req.action == "lock" ==> Dispatch(a, req) == Success(Str("locked"), Saved(LockEngaged(a.lockWorks)))
    ensures req.action == "unlock" ==> Dispatch(a, req) == Success(Str("unlocked"), Saved(LockCleared))
    ensures req.action == "message" ==> Dispatch(a, req) == DoMessage(a, req)
    ensures req.action == "shutdown" ==> Dispatch(a, req) == DoShutdown(req)
  {
    hide DoSet, DoGet, DoClear, DoExtend, DoMessage, DoShutdown, DoGetLogs, Capabilities, OKContent, Saved;
    ActionLengths();
  }

  lemma ActionLengths()
    ensures |"get"| == 3 && |"set"| == 3 && |"clear"| == 5 && |"extend"| == 6 && |"lock"| == 4 && |"unlock"| == 6
    ensures |"message"| == 7 && |"get_logs"| == 8 && |"shutdown"| == 8 && |"list_capabilities"| == 17
    ensures "unlock"[0] != "extend"[0] && "get_logs"[0] != "shutdown"[0]
  {}

  /** A parent's lock is always accepted.  It is in force at once, whatever the limit and the time, and
      nothing else changes; the screen is locked if the platform does it. */
  lemma LockLocks(a: Agent, req: Request)
    requires a.c.daily.Valid() && Arrives(req) && req.action == "lock"
    ensures Dispatch(a, req).outcome == Content(OKContent(Str("locked")))
    ensures After(a, req) == a.c.(runtime := a.c.runtime.(manualLock := true, stamp := a.now), isLocked := a.c.isLocked || a.lockWorks)
    ensures !a.c.exempt ==> forall now :: MustBeLocked(After(a, req), now) && After(a, req).InLockWindow(now)
  {
    hide OKContent, Run, ParentActions.EventsOf, Dispatch, ShouldLock, Night, UsedUp;
    DispatchRest(a, req);
    RunSaved(a.c, a.now, LockEngaged(a.lockWorks));
    if !a.c.exempt {
      forall now ensures MustBeLocked(After(a, req), now) && After(a, req).InLockWindow(now) {
        WindowIs(After(a, req), now);
      }
    }
  }

  /** Lifting it is always accepted too; then what is left to lock the screen is the night or the
      allowance, and nothing else changes. */
  lemma UnlockUnlocks(a: Agent, req: Request)
    requires a.c.daily.Valid() && Arrives(req) && req.action == "unlock"
    ensures Dispatch(a, req).outcome == Content(OKContent(Str("unlocked")))
    ensures After(a, req) == a.c.(runtime := a.c.runtime.(manualLock := false, stamp := a.now))
    ensures forall now ::
              After(a, req).InLockWindow(now) <==> !a.c.exempt && (Night(now, a.c.daily.bed, a.c.daily.wake) || UsedUp(a.c))
  {
    hide OKContent, Run, ParentActions.EventsOf, Dispatch, ShouldLock, Night;
    DispatchRest(a, req);
    RunSaved(a.c, a.now, LockCleared);
    forall now
      ensures After(a, req).InLockWindow(now) <==> !a.c.exempt && (Night(now, a.c.daily.bed, a.c.daily.wake) || UsedUp(a.c))
    {
      WindowIs(After(a, req), now);
    }
  }

  /** The lock of a monitored user holds until it is lifted: whatever happens after it, up to then every
      loop step that finds the session open asks the platform to lock. */
  lemma LockStandsUntilLifted(a: Agent, req: Request, events: seq<Event>, n: nat)
    requires Duties.Regular(a.c, a.now) && Arrives(req) && req.action == "lock" && !a.c.exempt
    requires Ordered(a.now, events) && n < |events|
    requires Duties.NotLifted(After(a, req), events, 0, n)
    requires events[n].action.StepLoop? && !events[n].action.answers.sessionLocked && !Duties.Over(After(a, req), events, n)
    ensures Duties.AsksToLock(Run(After(a, req), events[..n]), events[n])
  {
    hide Run, After, Dispatch, Duties.NotLifted, Duties.Over, Duties.AsksToLock, Night, UsedUp, ShouldLock;
    LockLocks(a, req);
    var c := After(a, req);
    RegularAfterLock(a, req);
    Duties.RunKeeps(c, a.now, events, n + 1);
    StillNotLifted(c, events, n);
    Duties.ManualLockExactly(c, a.now, events, n + 1);
    Duties.LocksWhenDue(c, a.now, events, n);
  }

  lemma RegularAfterLock(a: Agent, req: Request)
    requires Duties.Regular(a.c, a.now) && Arrives(req) && req.action == "lock"
    ensures Duties.Regular(After(a, req), a.now) && After(a, req).runtime.manualLock && After(a, req).exempt == a.c.exempt
  {
    hide After, Dispatch;
    LockLocks(a, req);
  }

  lemma StillNotLifted(c: Fields, events: seq<Event>, n: nat)
    requires n < |events| && Duties.NotLifted(c, events, 0, n)
    requires events[n].action.StepLoop? && !Duties.Over(c, events, n)
    ensures Duties.NotLifted(c, events, 0, n + 1)
  {
    hide Duties.Over;
    Duties.NotLiftedStep(c, events, 0, n);
  }

  // ------------------------------------------------------------------------------------------
  // Yes and no
  // ------------------------------------------------------------------------------------------

  /** The word in any mixture of capital and small letters. */
  predicate Says(t: string, word: string) {
    |t| == |word| && forall i :: 0 <= i < |t| ==> t[i] == word[i] || ('a' <= word[i] <= 'z' && t[i] as int + 32 == word[i] as int)
  }

  ghost predicate YesText(t: string) {
    Says(t, "true") || Says(t, "yes") || t == "1"
  }

  ghost predicate NoText(t: string) {
    Says(t, "false") || Says(t, "no") || t == "0"
  }

  ghost predicate Meaning(v: Value, b: bool) {
    || v == Bool(b) || v == Int(if b then 1 else 0)
    || (v.Str? && exists t :: (if b then YesText(t) else NoText(t)) && Around(v.s, t))
  }

  lemma LowerSays(t: string, word: string)
    requires forall i :: 0 <= i < |word| ==> 'a' <= word[i] <= 'z'
    ensures Lower(t) == word <==> Says(t, word)
    ensures Says(t, word) ==> Visible(t)
  {
    if Lower(t) == word {
      assert forall i :: 0 <= i < |t| ==> Lower(t)[i] == word[i];
    }
  }

  lemma LowerDigit(t: string, d: string)
    requires |d| == 1 && IsDigit(d[0])
    ensures Lower(t) == d <==> t == d
  {
    if Lower(t) == d {
      assert Lower(t)[0] == d[0] && |t| == 1;
      assert t == [t[0]];
    }
  }

  lemma YesNoTexts(t: string)
    ensures Lower(t) in {"true", "yes", "1"} <==> YesText(t)
    ensures Lower(t) in {"false", "no", "0"} <==> NoText(t)
    ensures YesText(t) || NoText(t) ==> Visible(t)
  {
    hide Lower, Says;
    LowerSays(t, "true");
    LowerSays(t, "yes");
    LowerSays(t, "false");
    LowerSays(t, "no");
    LowerDigit(t, "1");
    LowerDigit(t, "0");
  }

  lemma OneOrZero(n: int)
    ensures FormatInt(n) in {"true", "yes", "1"} <==> n == 1
    ensures FormatInt(n) in {"false", "no", "0"} <==> n == 0
  {
    assert Digits(1) == "1" && Digits(0) == "0";
    if n >= 10 {
      assert |Digits(n / 10)| > 0;
    }
    assert FormatInt(n) != "" && (FormatInt(n)[0] == '-' || IsDigit(FormatInt(n)[0]));
  }

  /** No text says both. */
  lemma NotBoth(t: string)
    ensures !(YesText(t) && NoText(t))
  {
    assert |"true"| == 4 && |"yes"| == 3 && |"false"| == 5 && |"no"| == 2;
  }

  /** A value is taken for a yes or no exactly if it is one, a one or zero, or one of the words in any case,
      with white space around it. */
  lemma YesNoRead(v: Value, b: bool)
    ensures ParseBool(v) == Some(b) <==> Meaning(v, b)
  {
    hide TrimLeft, TrimRight, Lower, YesText, NoText, Around, FormatInt;
    if v.Int? {
      OneOrZero(v.n);
    } else if v.Str? {
      var text := Trim(v.s);
      YesNoTexts(text);
      NotBoth(text);
      if YesText(text) || NoText(text) {
        TrimFinds(v.s, text);
      }
      if exists t :: (if b then YesText(t) else NoText(t)) && Around(v.s, t) {
        var t :| (if b then YesText(t) else NoText(t)) && Around(v.s, t);
        YesNoTexts(t);
        TrimFinds(v.s, t);
      }
    }
  }

  // ------------------------------------------------------------------------------------------
  // Setting
  // ------------------------------------------------------------------------------------------

  predicate SetArrives(a: Agent, req: Request, name: string) {
    a.c.daily.Valid() && Arrives(req) && req.action == "set" && req.variable == Some(name)
  }

  predicate RefusedAs(o: Outcome, code: string, id: Option<string>) {
    o.Refused? && o.error.code == code && o.error.reqID == id
  }

  /** The value is a number from 1 to 1440. */
  ghost predicate MinutesAsked(v: Value, n: int) {
    StandsFor(v, n) && 1 <= n <= 1440
  }

  lemma MinutesRead(v: Value, id: Option<string>)
    ensures (ParseInt(v, id).Ok? && InLimits(ParseInt(v, id).value)) <==> exists n :: MinutesAsked(v, n)
    ensures forall n :: MinutesAsked(v, n) ==> ParseInt(v, id) == Ok(n)
    ensures ParseInt(v, id).Err? ==> ParseInt(v, id).error.code == "invalid_value" && ParseInt(v, id).error.reqID == id
  {
    hide ParseInt, StandsFor;
    NumberRead(v, id, 0);
    if ParseInt(v, id).Ok? {
      NumberRead(v, id, ParseInt(v, id).value);
      assert InLimits(ParseInt(v, id).value) ==> MinutesAsked(v, ParseInt(v, id).value);
    }
    forall n | MinutesAsked(v, n) ensures ParseInt(v, id) == Ok(n) {
      NumberRead(v, id, n);
    }
  }

  /** A daily limit is accepted exactly if it is a number from 1 to 1440, as an integer or as text; then it
      is the limit, and nothing else changes. */
  lemma LimitIsSet(a: Agent, req: Request)
    requires SetArrives(a, req, "daily_limit")
    ensures var o := Dispatch(a, req).outcome;
            && (o.Content? <==> exists n :: MinutesAsked(req.val, n))
            && (o.Content? || RefusedAs(o, "invalid_value", req.id))
    ensures forall n :: MinutesAsked(req.val, n) ==>
              && Dispatch(a, req).outcome == Content(OKContent(Int(n)))
              && After(a, req) == a.c.(daily := a.c.daily.(allowance := Some(n)), runtime := a.c.runtime.(stamp := a.now))
  {
    hide ParseInt, VariableOf, OKContent, Run, ParentActions.EventsOf, Dispatch, StandsFor;
    DispatchSet(a, req);
    Reports.SettingNames();
    MinutesRead(req.val, req.id);
    forall n | MinutesAsked(req.val, n)
      ensures Dispatch(a, req).outcome == Content(OKContent(Int(n)))
      ensures After(a, req) == a.c.(daily := a.c.daily.(allowance := Some(n)), runtime := a.c.runtime.(stamp := a.now))
    {
      RunSaved(a.c, a.now, LimitSet(n));
    }
  }

  /** A lock or its lifting by a set of manual_lock, likewise. */
  lemma LockIsSet(a: Agent, req: Request)
    requires SetArrives(a, req, "manual_lock")
    ensures var o := Dispatch(a, req).outcome;
            && (o.Content? <==> Meaning(req.val, true) || Meaning(req.val, false))
            && (o.Content? || RefusedAs(o, "invalid_value", req.id))
    ensures forall b :: Meaning(req.val, b) ==>
              && Dispatch(a, req).outcome == Content(OKContent(Bool(b)))
              && After(a, req) == a.c.(runtime := a.c.runtime.(manualLock := b, stamp := a.now),
                                       isLocked := a.c.isLocked || (b && a.lockWorks))
  {
    hide ParseBool, VariableOf, OKContent, Run, ParentActions.EventsOf, Dispatch, Meaning;
    DispatchSet(a, req);
    Reports.SettingNames();
    YesNoRead(req.val, true);
    YesNoRead(req.val, false);
    RunSaved(a.c, a.now, LockEngaged(a.lockWorks));
    RunSaved(a.c, a.now, LockCleared);
  }

  /** The value is the text of a time of day. */
  ghost predicate TimeAsked(v: Value, t: TimeOfDay) {
    v.Str? && t.Valid() && IsTimeText(v.s, t)
  }

  lemma TimeAskedRead(v: Value)
    ensures ParseHHMM(v).Ok? <==> exists t :: TimeAsked(v, t)
    ensures forall t :: TimeAsked(v, t) ==> ParseHHMM(v) == Ok(t)
  {
    hide StateFile.ParseTimeHHMM, IsTimeText;
    if ParseHHMM(v).Ok? {
      TimeRead(v.s, ParseHHMM(v).value);
      assert TimeAsked(v, ParseHHMM(v).value);
    }
    forall t | TimeAsked(v, t) ensures ParseHHMM(v) == Ok(t) {
      TimeRead(v.s, t);
    }
  }

  /** A bed time is accepted exactly if it is H:MM or HH:MM; then it is the bed time, and nothing else
      changes. */
  lemma BedTimeIsSet(a: Agent, req: Request)
    requires SetArrives(a, req, "bed_time")
    ensures var o := Dispatch(a, req).outcome;
            && (o.Content? <==> exists t :: TimeAsked(req.val, t))
            && (o.Content? || RefusedAs(o, "invalid_value", req.id))
    ensures forall t :: TimeAsked(req.val, t) ==>
              && Dispatch(a, req).outcome == Content(OKContent(Str(StateFile.FormatTime(t))))
              && After(a, req) == a.c.(daily := a.c.daily.(bed := Some(t)), runtime := a.c.runtime.(stamp := a.now))
  {
    hide ParseHHMM, VariableOf, OKContent, Run, ParentActions.EventsOf, Dispatch, IsTimeText, StateFile.FormatTime;
    DispatchSet(a, req);
    Reports.SettingNames();
    TimeAskedRead(req.val);
    forall t | TimeAsked(req.val, t)
      ensures Dispatch(a, req).outcome == Content(OKContent(Str(StateFile.FormatTime(t))))
      ensures After(a, req) == a.c.(daily := a.c.daily.(bed := Some(t)), runtime := a.c.runtime.(stamp := a.now))
    {
      RunSaved(a.c, a.now, BedTimeSet(t));
    }
  }

  /** A wake time likewise; but moved from after now to before, it begins a new period, with no use, lock,
      extension or warning left. */
  lemma WakeTimeIsSet(a: Agent, req: Request)
    requires SetArrives(a, req, "wake_time")
    ensures var o := Dispatch(a, req).outcome;
            && (o.Content? <==> exists t :: TimeAsked(req.val, t))
            && (o.Content? || RefusedAs(o, "invalid_value", req.id))
    ensures forall t :: TimeAsked(req.val, t) ==>
              && Dispatch(a, req).outcome == Content(OKContent(Str(StateFile.FormatTime(t))))
              && var over := Duties.WakeMovedPast(a.now, a.c.daily.wake, t);
                 After(a, req) == a.c.(daily := a.c.daily.(wake := t),
                                       runtime := if over then Runtime(a.now, 0.0, false, 0) else a.c.runtime.(stamp := a.now),
                                       lastTick := if over then None else a.c.lastTick,
                                       warningsSent := if over then {} else a.c.warningsSent,
                                       warningsDate := UsagePeriodDate(a.now, t))
  {
    hide ParseHHMM, VariableOf, OKContent, Run, ParentActions.EventsOf, Dispatch, IsTimeText, StateFile.FormatTime,
      Duties.WakeMovedPast, UsagePeriodDate;
    DispatchSet(a, req);
    Reports.SettingNames();
    TimeAskedRead(req.val);
    forall t | TimeAsked(req.val, t)
      ensures Dispatch(a, req).outcome == Content(OKContent(Str(StateFile.FormatTime(t))))
      ensures var over := Duties.WakeMovedPast(a.now, a.c.daily.wake, t);
              After(a, req) == a.c.(daily := a.c.daily.(wake := t),
                                    runtime := if over then Runtime(a.now, 0.0, false, 0) else a.c.runtime.(stamp := a.now),
                                    lastTick := if over then None else a.c.lastTick,
                                    warningsSent := if over then {} else a.c.warningsSent,
                                    warningsDate := UsagePeriodDate(a.now, t))
    {
      Duties.WakeMoves(a.now, a.c.daily.wake, t);
      RunSaved(a.c, a.now, WakeTimeSet(t));
    }
  }

  /** Nothing else can be set. */
  lemma OthersAreReadOnly(a: Agent, req: Request, name: string)
    requires SetArrives(a, req, name) && name !in {"daily_limit", "manual_lock", "bed_time", "wake_time"}
    ensures RefusedAs(Dispatch(a, req).outcome, "forbidden", req.id)
  {
    hide VariableOf, Dispatch;
    DispatchSet(a, req);
    Reports.SettingNames();
    OneName(name, DailyLimit, "daily_limit");
    OneName(name, ManualLockSet, "manual_lock");
    OneName(name, BedTime, "bed_time");
    OneName(name, WakeTime, "wake_time");
  }

  lemma OneName(name: string, v: Variable, word: string)
    requires VariableOf(word) == Some(v)
    ensures VariableOf(name) == Some(v) <==> name == word
  {
    hide NameOf, VariableOf;
    Reports.NamedExactly(name, v);
    Reports.NamedExactly(word, v);
  }

  // ------------------------------------------------------------------------------------------
  // Clearing, granting, telling
  // ------------------------------------------------------------------------------------------

  /** A clear takes away what it names, and nothing else; anything else than a limit, a bed time, a lock or
      the extensions cannot be cleared. */
  lemma ClearTakesAway(a: Agent, req: Request, name: string)
    requires a.c.daily.Valid() && Arrives(req) && req.action == "clear" && req.variable == Some(name)
    ensures var o, r := Dispatch(a, req).outcome, a.c.runtime.(stamp := a.now);
            if name in {"daily_limit", "bed_time", "cumulative_extension", "manual_lock"} then
              && o == Content(OKContent(Str("cleared")))
              && After(a, req)
                 == if name == "daily_limit" then a.c.(daily := a.c.daily.(allowance := None), runtime := r)
                    else if name == "bed_time" then a.c.(daily := a.c.daily.(bed := None), runtime := r, warningsSent := {})
                    else if name == "cumulative_extension" then a.c.(runtime := r.(extension := 0))
                    else a.c.(runtime := r.(manualLock := false))
            else RefusedAs(o, "forbidden", req.id)
  {
    hide VariableOf, OKContent, Run, ParentActions.EventsOf, Dispatch;
    DispatchSet(a, req);
    Reports.SettingNames();
    OneName(name, DailyLimit, "daily_limit");
    OneName(name, BedTime, "bed_time");
    OneName(name, CumulativeExtension, "cumulative_extension");
    OneName(name, ManualLockSet, "manual_lock");
    RunSaved(a.c, a.now, LimitCleared);
    RunSaved(a.c, a.now, ExtensionsCleared);
    RunSaved(a.c, a.now, LockCleared);
    RunClearBed(a.c, a.now);
  }

  /** Time is granted exactly for a number of minutes from 1 to 1440; it adds to the extension, lifts a
      parent's lock and forgets the warnings, and changes nothing else. */
  lemma TimeIsGranted(a: Agent, req: Request)
    requires a.c.daily.Valid() && Arrives(req) && req.action == "extend"
    ensures var o := Dispatch(a, req).outcome;
            && (o.Content? <==> exists n :: MinutesAsked(req.val, n))
            && (o.Content? || RefusedAs(o, "invalid_value", req.id))
    ensures forall n :: MinutesAsked(req.val, n) ==>
              && Dispatch(a, req).outcome == Content(OKContent(Int(n)))
              && After(a, req) == a.c.(runtime := a.c.runtime.(extension := a.c.runtime.extension + 60 * n,
                                                               manualLock := false, stamp := a.now),
                                       warningsSent := {})
  {
    hide ParseInt, OKContent, Run, ParentActions.EventsOf, Dispatch, StandsFor;
    DispatchSet(a, req);
    MinutesRead(req.val, req.id);
    forall n | MinutesAsked(req.val, n)
      ensures Dispatch(a, req).outcome == Content(OKContent(Int(n)))
      ensures After(a, req) == a.c.(runtime := a.c.runtime.(extension := a.c.runtime.extension + 60 * n,
                                                            manualLock := false, stamp := a.now),
                                    warningsSent := {})
    {
      RunSaved(a.c, a.now, TimeExtended(n));
    }
  }

  /** A message is shown exactly if it is text that is not blank, word for word; the answer says whether
      that worked. */
  lemma MessageIsShown(a: Agent, req: Request)
    requires a.c.daily.Valid() && Arrives(req) && req.action == "message"
    ensures var d := Dispatch(a, req);
            if req.val.Str? && !Blank(req.val.s) then
              && d.effects == [ParentActions.Popup(req.val.s)]
              && d.outcome == (if a.popupError.Some? then Failed(a.popupError.value) else Content(OKContent(Str("message sent"))))
            else d.effects == [] && RefusedAs(d.outcome, "invalid_value", req.id)
  {
    hide OKContent, Dispatch, TrimLeft, TrimRight, Blank;
    DispatchRest(a, req);
    if req.val.Str? {
      TrimFinds(req.val.s, "");
      AroundNothing(req.val.s);
    }
  }

  /** A shutdown is asked of the platform exactly for a number of seconds that is not negative, a minute if
      none is given. */
  lemma ShutdownIsAsked(a: Agent, req: Request)
    requires a.c.daily.Valid() && Arrives(req) && req.action == "shutdown"
    ensures var d := Dispatch(a, req);
            && (d.outcome.Content? <==> req.val.Null? || exists n :: StandsFor(req.val, n) && 0 <= n <= 0x20_0000_0000_0000)
            && (if d.outcome.Content? then
                  && |d.effects| == 1 && d.effects[0].Shutdown?
                  && d.outcome == Content(OKContent(Int(d.effects[0].seconds)))
                  && (if req.val.Null? then d.effects[0].seconds == 60 else StandsFor(req.val, d.effects[0].seconds))
                else d.effects == [] && RefusedAs(d.outcome, "invalid_value", req.id))
  {
    hide ParseInt, OKContent, Dispatch, StandsFor;
    DispatchRest(a, req);
    NumberRead(req.val, req.id, 0);
    if ParseInt(req.val, req.id).Ok? {
      NumberRead(req.val, req.id, ParseInt(req.val, req.id).value);
    }
    if n :| StandsFor(req.val, n) && 0 <= n <= 0x20_0000_0000_0000 {
      NumberRead(req.val, req.id, n);
    }
  }

  // ------------------------------------------------------------------------------------------
  // From the panel and back
  // ------------------------------------------------------------------------------------------

  /** Whatever a panel asks for that is acceptable, it reads what the agent's dispatcher made of that very
      request. */
  lemma FromPanel(p: RequestParams, mac: Mac, sent: int, requestNonce: string, now: int, a: Agent,
                  signed: int, responseNonce: string, panelNow: int)
    requires Honest(p, sent, requestNonce, a.hostname, now) && GoodAgent(a)
    requires Printable(Int(signed)) && IsValidNonce(Str(responseNonce)) && TimestampInWindow(signed, panelNow)
    ensures var reply := HandleRequest(BuildRequest(p, mac, sent, requestNonce).value, mac, p.secret, a.hostname, now,
                                       Handler(a), signed, responseNonce);
            var req := Seen(p, sent, requestNonce);
            && Arrives(req) && req.action == p.action && req.variable == Present(p.variable) && req.val == p.val
            && ParseResponse(reply, mac, p.secret, a.hostname, PROTOCOL_VERSION, panelNow)
               == Ok(Heard(Dispatch(a, req).outcome, Present(p.reqID), a.hostname, signed, responseNonce))
  {
    hide ParseResponse, HandleRequest, Heard, GoodDispatch, IsValidNonce, Utf8.Valid, Acceptable, PrintableParams,
      EnvelopeTime, EnvelopeNonce, TimestampInWindow, BuildRequest, Read, Dispatch, Printable;
    HandlerGood(a);
    SeenParts(p, sent, requestNonce, a.hostname);
    HonestExchange(p, mac, sent, requestNonce, a.hostname, now, Handler(a), signed, responseNonce, panelNow);
  }

  /** A panel locks the PC: it reads "locked", and from that moment a monitored user must be locked out,
      whatever the time and the limit. */
  lemma LockFromPanel(p: RequestParams, mac: Mac, sent: int, requestNonce: string, now: int, a: Agent,
                      signed: int, responseNonce: string, panelNow: int)
    requires Honest(p, sent, requestNonce, a.hostname, now) && GoodAgent(a) && p.action == "lock"
    requires Printable(Int(signed)) && IsValidNonce(Str(responseNonce)) && TimestampInWindow(signed, panelNow)
    ensures var reply := HandleRequest(BuildRequest(p, mac, sent, requestNonce).value, mac, p.secret, a.hostname, now,
                                       Handler(a), signed, responseNonce);
            var read := ParseResponse(reply, mac, p.secret, a.hostname, PROTOCOL_VERSION, panelNow);
            var req := Seen(p, sent, requestNonce);
            && read.Ok? && read.value.status == "ok" && read.value.result == Str("locked")
            && Arrives(req) && (!a.c.exempt ==> forall when :: MustBeLocked(After(a, req), when))
  {
    hide ParseResponse, HandleRequest, GoodDispatch, IsValidNonce, Utf8.Valid, Acceptable, PrintableParams, Carrying,
      EnvelopeTime, EnvelopeNonce, TimestampInWindow, BuildRequest, Read, Dispatch, Printable, After, MustBeLocked, OKContent,
      Honest, Seen;
    FromPanel(p, mac, sent, requestNonce, now, a, signed, responseNonce, panelNow);
    LockLocks(a, Seen(p, sent, requestNonce));
    OKCarried(Str("locked"), Echoed(Present(p.reqID)), a.hostname, signed, responseNonce);
  }
}
