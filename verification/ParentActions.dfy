/**
  What the agent's dispatcher does with a request: what it answers, and what it has the monitor do
  (go/dispatcher/dispatcher.go).
  */
module ParentActions {
  import opened Text
  import opened Wrappers
  import opened Kdl
  import opened KdlRoundTrip
  import opened Protocol
  import opened Envelope
  import opened Exchange
  import opened Policy
  import opened Monitor
  import opened MonitorRuns
  import Admission
  import LogsReply
  import Recovery
  import StateFile
  import Utf8

  // ------------------------------------------------------------------------------------------
  // The variables
  // ------------------------------------------------------------------------------------------

  datatype Variable =
    | Name | Status | CurrentUser | DailyLimit | BedTime | ManualLockSet | WakeTime
    | CumulativeExtension | AccumulatedSeconds | TimeRemaining | EnforcementActive | EnforcementReason | AccessStatus

  /** In display order. */
  const ALL_VARIABLES: seq<Variable> :=
    [Name, Status, CurrentUser, DailyLimit, BedTime, ManualLockSet, WakeTime, CumulativeExtension, AccumulatedSeconds,
     TimeRemaining, EnforcementActive, EnforcementReason, AccessStatus]

  function NameOf(v: Variable): string {
    match v
    case Name => "name"
    case Status => "status"
    case CurrentUser => "current_user"
    case DailyLimit => "daily_limit"
    case BedTime => "bed_time"
    case ManualLockSet => "manual_lock"
    case WakeTime => "wake_time"
    case CumulativeExtension => "cumulative_extension"
    case AccumulatedSeconds => "accumulated_seconds"
    case TimeRemaining => "time_remaining"
    case EnforcementActive => "enforcement_active"
    case EnforcementReason => "enforcement_reason"
    case AccessStatus => "access_status"
  }

  function VariableOf(name: string): Option<Variable> {
    if name == NameOf(Name) then Some(Name)
    else if name == NameOf(Status) then Some(Status)
    else if name == NameOf(CurrentUser) then Some(CurrentUser)
    else if name == NameOf(DailyLimit) then Some(DailyLimit)
    else if name == NameOf(BedTime) then Some(BedTime)
    else if name == NameOf(ManualLockSet) then Some(ManualLockSet)
    else if name == NameOf(WakeTime) then Some(WakeTime)
    else if name == NameOf(CumulativeExtension) then Some(CumulativeExtension)
    else if name == NameOf(AccumulatedSeconds) then Some(AccumulatedSeconds)
    else if name == NameOf(TimeRemaining) then Some(TimeRemaining)
    else if name == NameOf(EnforcementActive) then Some(EnforcementActive)
    else if name == NameOf(EnforcementReason) then Some(EnforcementReason)
    else if name == NameOf(AccessStatus) then Some(AccessStatus)
    else None
  }

  predicate Writable(v: Variable) {
    v in {DailyLimit, BedTime, ManualLockSet, WakeTime}
  }

  predicate Clearable(v: Variable) {
    v in {DailyLimit, BedTime, ManualLockSet, CumulativeExtension}
  }

  // ------------------------------------------------------------------------------------------
  // The agent as the dispatcher sees it
  // ------------------------------------------------------------------------------------------

  /** The monitor with its clock, what the platform says, the log or why it cannot be read, the error of a
      popup if it cannot be shown, and the descriptions of actions and variables. */
  datatype Agent = Agent(
    hostname: string, user: string, screenLocked: bool, c: Fields, now: Moment,
    path: string, log: Result<string, string>, popupError: Option<string>, lockWorks: bool,
    describe: string -> string)

  const EM_DASH: string := [0xE2 as char, 0x80 as char, 0x94 as char]
  const EN_DASH: string := [0xE2 as char, 0x80 as char, 0x93 as char]

  /** EnforcementState: why the schedule or the limit locks, a manual lock aside. */
  function Enforcement(a: Agent): Option<string> {
    match LockReason(a.c.InputsAt(a.now).(manualLock := false))
    case NoLock => None
    case ManualLock => None
    case BeforeWakeUp => Some("before wake-up")
    case PastBedtime => Some("past bedtime")
    case AllowanceReached => Some("daily limit reached")
  }

  function AccessText(a: Agent): string {
    if Enforcement(a).Some? then "Locked " + EM_DASH + " " + Enforcement(a).value
    else if a.c.runtime.manualLock then "Locked " + EM_DASH + " " + "manual lock"
    else if a.screenLocked then "Screen locked"
    else "Unlocked"
  }

  /** math.RoundToEven. */
  function RoundToEven(x: real): int {
    var down := x.Floor;
    var part := x - down as real;
    if part < 0.5 || (part == 0.5 && down % 2 == 0) then down else down + 1
  }

  function OptTime(t: Option<TimeOfDay>): Value
    requires t.Some? ==> t.value.Valid()
  {
    if t.Some? then Str(StateFile.FormatTime(t.value)) else Null
  }

  function Read(a: Agent, v: Variable): Value
    requires a.c.daily.Valid()
  {
    match v
    case Name => Str(a.hostname)
    case Status => Str(if a.screenLocked then "LOCKED" else "UNLOCKED")
    case CurrentUser => Str(a.user)
    case DailyLimit => if a.c.daily.allowance.Some? then Int(a.c.daily.allowance.value) else Null
    case BedTime => OptTime(a.c.daily.bed)
    case ManualLockSet => Bool(a.c.runtime.manualLock)
    case WakeTime => OptTime(Some(a.c.daily.wake))
    case CumulativeExtension => Int(a.c.runtime.extension)
    case AccumulatedSeconds => Int(a.c.runtime.accumulated.Floor)
    case TimeRemaining =>
      var m := MinutesUntilLock(a.c.InputsAt(a.now));
      if m.Some? then Int(RoundToEven(m.value)) else Null
    case EnforcementActive => Bool(Enforcement(a).Some?)
    case EnforcementReason => if Enforcement(a).Some? then Str(Enforcement(a).value) else Null
    case AccessStatus => Str(AccessText(a))
  }

  // ------------------------------------------------------------------------------------------
  // Dispatching
  // ------------------------------------------------------------------------------------------

  /** What a request has done: calls of the monitor, a popup, a shutdown. */
  datatype Effect = Change(action: Action) | Popup(text: string) | Shutdown(seconds: int)

  /** An answer and the effects behind it. */
  datatype Done = Done(outcome: Outcome, effects: seq<Effect>)

  const MIN_DAILY_LIMIT: int := 1
  const MAX_DAILY_LIMIT: int := 1440
  const DEFAULT_SHUTDOWN_SECONDS: int := 60
  const FORBIDDEN := "forbidden"

  function Fail(code: string, message: string, req: Request): Done {
    Done(Refused(ProtocolError(code, message, req.id)), [])
  }

  function Success(v: Value, effects: seq<Effect>): Done {
    Done(Content(OKContent(v)), effects)
  }

  function Saved(a: Action): seq<Effect> {
    [Change(a), Change(StateSaved)]
  }

  function VarText(req: Request): string {
    if req.variable.Some? then req.variable.value else "None"
  }

  function Scalars(names: seq<string>, value: string -> Value): (nodes: seq<Node>)
    ensures |nodes| == |names| && forall i :: 0 <= i < |names| ==> nodes[i] == N0(names[i], value(names[i]))
  {
    seq(|names|, i requires 0 <= i < |names| => N0(names[i], value(names[i])))
  }

  function Names(vs: seq<Variable>): (names: seq<string>)
    ensures |names| == |vs| && forall i :: 0 <= i < |vs| ==> names[i] == NameOf(vs[i])
  {
    seq(|vs|, i requires 0 <= i < |vs| => NameOf(vs[i]))
  }

  function Settings(a: Agent): (nodes: seq<Node>)
    requires a.c.daily.Valid()
    ensures |nodes| == |ALL_VARIABLES|
    ensures forall i :: 0 <= i < |nodes| ==> nodes[i] == N0(NameOf(ALL_VARIABLES[i]), Read(a, ALL_VARIABLES[i]))
  {
    seq(|ALL_VARIABLES|, i requires 0 <= i < |ALL_VARIABLES| => N0(NameOf(ALL_VARIABLES[i]), Read(a, ALL_VARIABLES[i])))
  }

  function DoGet(a: Agent, req: Request): Done
    requires a.c.daily.Valid()
  {
    if req.variable == Some("settings") then Done(Content(BlockContent(Block("settings", Settings(a)))), [])
    else
      match VariableOf(VarText(req))
      case Some(v) => Success(Read(a, v), [])
      case None => Done(Refused(ProtocolError(UNKNOWN_VARIABLE, "unknown variable: " + VarText(req), None)), [])
  }

  function InLimits(minutes: int): bool {
    MIN_DAILY_LIMIT <= minutes <= MAX_DAILY_LIMIT
  }

  /** strings.ToLower, as far as it matters here: no other character has one of the letters of the words
      below as its lower case. */
  function Lower(s: string): string {
    seq(|s|, i requires 0 <= i < |s| => if 'A' <= s[i] <= 'Z' then (s[i] as int + 32) as char else s[i])
  }

  function ParseBool(raw: Value): Option<bool> {
    if raw.Bool? then Some(raw.b)
    else
      var text := match raw
        case Int(n) => FormatInt(n)
        case Str(s) => Lower(TrimRight(TrimLeft(s)))
        case _ => "";
      if text in {"true", "yes", "1"} then Some(true)
      else if text in {"false", "no", "0"} then Some(false)
      else None
  }

  function ParseHHMM(raw: Value): Result<TimeOfDay, string> {
    if !raw.Str? then Err("time must be HH:MM")
    else
      match StateFile.ParseTimeHHMM(raw.s)
      case None => Err("time must be HH:MM (00:00" + EN_DASH + "23:59)")
      case Some(t) => Ok(t)
  }

  function DoSet(a: Agent, req: Request): Done {
    var v := VariableOf(VarText(req));
    if req.variable.None? || v.None? || !Writable(v.value) then Fail(FORBIDDEN, VarText(req) + " is read-only", req)
    else
      if v.value.DailyLimit? then
        match ParseInt(req.val, req.id)
        case Err(e) => Done(Refused(e), [])
        case Ok(minutes) =>
          if !InLimits(minutes) then Fail(INVALID_VALUE, "minutes must be between 1 and 1440", req)
          else Success(Int(minutes), Saved(LimitSet(minutes)))
      else if v.value.ManualLockSet? then
        match ParseBool(req.val)
        case None => Fail(INVALID_VALUE, "expected a boolean", req)
        case Some(engaged) => Success(Bool(engaged), Saved(if engaged then LockEngaged(a.lockWorks) else LockCleared))
      else
        match ParseHHMM(req.val)
        case Err(message) => Fail(INVALID_VALUE, message, req)
        case Ok(t) => Success(OptTime(Some(t)), Saved(if v.value.BedTime? then BedTimeSet(t) else WakeTimeSet(t)))
  }

  function DoClear(req: Request): Done {
    var v := VariableOf(VarText(req));
    if req.variable.None? || v.None? || !Clearable(v.value) then Fail(FORBIDDEN, VarText(req) + " cannot be cleared", req)
    else
      Success(Str("cleared"),
        if v.value.DailyLimit? then Saved(LimitCleared)
        else if v.value.BedTime? then [Change(BedTimeCleared), Change(WarningsCleared), Change(StateSaved)]
        else if v.value.CumulativeExtension? then Saved(ExtensionsCleared)
        else Saved(LockCleared))
  }

  function DoExtend(req: Request): Done {
    match ParseInt(req.val, req.id)
    case Err(e) => Done(Refused(e), [])
    case Ok(minutes) =>
      if !InLimits(minutes) then Fail(INVALID_VALUE, "minutes must be between 1 and 1440", req)
      else Success(Int(minutes), Saved(TimeExtended(minutes)))
  }

  function DoMessage(a: Agent, req: Request): Done {
    if !req.val.Str? || TrimRight(TrimLeft(req.val.s)) == "" then
      Fail(INVALID_VALUE, "message must be non-empty text", req)
    else if a.popupError.Some? then Done(Failed(a.popupError.value), [Popup(req.val.s)])
    else Success(Str("message sent"), [Popup(req.val.s)])
  }

  function DoShutdown(req: Request): Done {
    match if req.val.Null? then Ok(DEFAULT_SHUTDOWN_SECONDS) else ParseInt(req.val, req.id)
    case Err(e) => Done(Refused(e), [])
    case Ok(seconds) =>
      if seconds < 0 then Fail(INVALID_VALUE, "seconds must not be negative", req)
      else Success(Int(seconds), [Shutdown(seconds)])
  }

  function DoGetLogs(a: Agent, req: Request): Done
    requires req.tail.Some? ==> req.tail.value >= 0
  {
    match a.log
    case Err(why) => Fail(FORBIDDEN, "cannot read log file: " + why, req)
    case Ok(content) => Done(LogsReply.DoGetLogs(a.path, content, req.tail), [])
  }

  /** In display order. */
  const ACTION_LIST: seq<string> :=
    ["get", "set", "clear", "lock", "unlock", "extend", "message", "shutdown", "list_capabilities", "get_logs"]

  function Capabilities(a: Agent): seq<Node> {
    var describe := (name: string) => Str(a.describe(name));
    [N0("status", Str("ok")), Block("actions", Scalars(ACTION_LIST, describe)),
     Block("values", Scalars(Names(ALL_VARIABLES), describe))]
  }

  function Dispatch(a: Agent, req: Request): Done
    requires a.c.daily.Valid() && (req.tail.Some? ==> req.tail.value >= 0)
  {
    if req.action == "list_capabilities" then Done(Content(Capabilities(a)), [])
    else if req.action == "get_logs" then DoGetLogs(a, req)
    else if req.action == "get" then DoGet(a, req)
    else if req.action == "set" then DoSet(a, req)
    else if req.action == "clear" then DoClear(req)
    else if req.action == "extend" then DoExtend(req)
    else if req.action == "message" then DoMessage(a, req)
    else if req.action == "shutdown" then DoShutdown(req)
    else if req.action == "lock" then Success(Str("locked"), Saved(LockEngaged(a.lockWorks)))
    else if req.action == "unlock" then Success(Str("unlocked"), Saved(LockCleared))
    else Fail(UNKNOWN_ACTION, "unknown action: " + req.action, req)
  }

  // ------------------------------------------------------------------------------------------
  // Everything it answers can be sent
  // ------------------------------------------------------------------------------------------

  /** Texts are valid UTF-8 and the numbers read fit 64 bits. */
  ghost predicate GoodAgent(a: Agent) {
    && Utf8.Valid(a.hostname) && Utf8.Valid(a.user) && Utf8.Valid(a.path)
    && (a.log.Err? ==> Utf8.Valid(a.log.error)) && (a.popupError.Some? ==> Utf8.Valid(a.popupError.value))
    && (forall name :: Utf8.Valid(a.describe(name)))
    && a.c.daily.Valid()
    && Printable(Read(a, DailyLimit)) && Printable(Read(a, CumulativeExtension))
    && Printable(Read(a, AccumulatedSeconds)) && Printable(Read(a, TimeRemaining))
  }

  lemma PlainVariable(v: Variable)
    ensures PlainName(NameOf(v))
  {
    hide PlainName, NameOf;
    if v in {Name, Status, CurrentUser, DailyLimit, BedTime} {
      PlainVariable1(v);
    } else if v in {ManualLockSet, WakeTime} {
      PlainVariable2(v);
    } else if v in {CumulativeExtension, AccumulatedSeconds} {
      PlainVariable3(v);
    } else if v in {TimeRemaining, EnforcementActive} {
      PlainVariable4(v);
    } else {
      PlainVariable5(v);
    }
  }

  lemma PlainVariable1(v: Variable)
    requires v in {Name, Status, CurrentUser, DailyLimit, BedTime}
    ensures PlainName(NameOf(v))
  {
    hide PlainName;
    if v.Name? {
      ShortWordIsPlain("name");
    } else {
      WordIsPlain(NameOf(v));
    }
  }

  lemma PlainVariable2(v: Variable)
    requires v in {ManualLockSet, WakeTime}
    ensures PlainName(NameOf(v))
  {
    hide PlainName;
    WordIsPlain(NameOf(v));
  }

  lemma PlainVariable3(v: Variable)
    requires v in {CumulativeExtension, AccumulatedSeconds}
    ensures PlainName(NameOf(v))
  {
    hide PlainName;
    WordIsPlain(NameOf(v));
  }

  lemma PlainVariable4(v: Variable)
    requires v in {TimeRemaining, EnforcementActive}
    ensures PlainName(NameOf(v))
  {
    hide PlainName;
    WordIsPlain(NameOf(v));
  }

  lemma PlainVariable5(v: Variable)
    requires v in {EnforcementReason, AccessStatus}
    ensures PlainName(NameOf(v))
  {
    hide PlainName;
    WordIsPlain(NameOf(v));
  }

  lemma PlainActions()
    ensures forall i :: 0 <= i < |ACTION_LIST| ==> PlainName(ACTION_LIST[i])
  {
    hide PlainName;
    WordIsPlain("get");
    WordIsPlain("set");
    BareIsPlain("clear");
    ShortWordIsPlain("lock");
    WordIsPlain("unlock");
    WordIsPlain("extend");
    WordIsPlain("message");
    WordIsPlain("shutdown");
    WordIsPlain("list_capabilities");
    WordIsPlain("get_logs");
  }

  lemma DashesValid()
    ensures Utf8.Valid(EM_DASH) && Utf8.Valid(EN_DASH)
  {
    hide Utf8.Valid;
    assert Utf8.IsCharacter(EM_DASH) && Utf8.IsCharacter(EN_DASH);
    Utf8.CharacterValid(EM_DASH);
    Utf8.CharacterValid(EN_DASH);
  }

  lemma LockTexts()
    ensures Utf8.Valid("LOCKED") && Utf8.Valid("UNLOCKED") && Utf8.Valid("Screen locked") && Utf8.Valid("Unlocked")
  {
    hide Utf8.Valid;
    Utf8.AsciiValid("LOCKED");
    Utf8.AsciiValid("UNLOCKED");
    Utf8.AsciiValid("Screen locked");
    Utf8.AsciiValid("Unlocked");
  }

  lemma EnforcementValid(a: Agent)
    ensures Enforcement(a).Some? ==> Utf8.Valid(Enforcement(a).value)
  {
    hide Utf8.Valid, LockReason;
    Utf8.AsciiValid("before wake-up");
    Utf8.AsciiValid("past bedtime");
    Utf8.AsciiValid("daily limit reached");
  }

  lemma AccessValid(a: Agent)
    ensures Utf8.Valid(AccessText(a))
  {
    hide Utf8.Valid, Enforcement, Utf8.Ascii;
    LockTexts();
    EnforcementValid(a);
    if Enforcement(a).Some? {
      LockedBecause(Enforcement(a).value);
    } else {
      Utf8.AsciiValid("manual lock");
      LockedBecause("manual lock");
    }
  }

  lemma LockedBecause(reason: string)
    requires Utf8.Valid(reason)
    ensures Utf8.Valid("Locked " + EM_DASH + " " + reason)
  {
    hide Utf8.Valid;
    DashesValid();
    GoodText("Locked ", EM_DASH);
    GoodSuffix("Locked " + EM_DASH, " ");
    Utf8.ValidAppend("Locked " + EM_DASH + " ", reason);
  }

  lemma TimeText(t: TimeOfDay)
    requires t.Valid()
    ensures Utf8.Valid(StateFile.FormatTime(t))
  {
    hide Utf8.Valid;
    var text := StateFile.FormatTime(t);
    assert forall i :: 0 <= i < |text| ==> IsDigit(text[i]) || text[i] == ':';
    Utf8.AsciiValid(text);
  }

  /** Whatever is read of a good agent can be sent. */
  lemma ReadPrintable(a: Agent, v: Variable)
    requires GoodAgent(a)
    ensures Printable(Read(a, v))
  {
    hide Utf8.Valid, Enforcement, AccessText, StateFile.FormatTime, MinutesUntilLock;
    LockTexts();
    AccessValid(a);
    EnforcementValid(a);
    TimeText(a.c.daily.wake);
    if a.c.daily.bed.Some? {
      TimeText(a.c.daily.bed.value);
    }
  }

  lemma {:induction false} ScalarsPrintable(nodes: seq<Node>)
    requires forall i :: 0 <= i < |nodes| ==>
               PlainName(nodes[i].name) && nodes[i].children == [] && forall v :: v in nodes[i].args ==> Printable(v)
    ensures PrintableNodes(nodes)
  {
    hide PlainName, Printable;
    if nodes != [] {
      ScalarsPrintable(nodes[1..]);
      assert PrintableNodes([]);
    }
  }

  lemma ScalarBlock(name: string, children: seq<Node>)
    requires PlainName(name)
    requires forall i :: 0 <= i < |children| ==>
               PlainName(children[i].name) && children[i].children == [] && forall v :: v in children[i].args ==> Printable(v)
    ensures Sendable([Block(name, children)])
  {
    hide PlainName, Printable, PrintableNodes, Shallow;
    ScalarsPrintable(children);
    FlatShallow(children, 1);
    SendableBlock(name, children);
  }

  lemma OkSendable()
    ensures Sendable(One("status", Str("ok")))
  {
    hide PlainName, PrintableNodes, Shallow, Utf8.Valid;
    EnvelopeNames();
    StatusValid();
    SendableOne("status", Str("ok"));
  }

  lemma OkPayload(v: Value)
    requires Printable(v)
    ensures Payload(OKContent(v))
  {
    hide PlainName, PrintableNodes, Shallow, Printable;
    EnvelopeNames();
    OkSendable();
    SendableOne("result", v);
    SendableAppend(One("status", Str("ok")), One("result", v));
    assert OKContent(v) == One("status", Str("ok")) + One("result", v);
    DistinctNames();
  }

  lemma SettingsPayload(a: Agent)
    requires GoodAgent(a)
    ensures Payload(BlockContent(Block("settings", Settings(a))))
  {
    hide PlainName, PrintableNodes, Shallow, Printable, Read, NameOf;
    WordIsPlain("settings");
    var children := Settings(a);
    forall i | 0 <= i < |children|
      ensures PlainName(children[i].name) && Printable(children[i].args[0])
    {
      PlainVariable(ALL_VARIABLES[i]);
      ReadPrintable(a, ALL_VARIABLES[i]);
    }
    ScalarBlock("settings", children);
    OkSendable();
    SendableAppend(One("status", Str("ok")), [Block("settings", children)]);
    assert BlockContent(Block("settings", children)) == One("status", Str("ok")) + [Block("settings", children)];
    DistinctNames();
    assert |"settings"| == 8;
  }

  lemma CapabilitiesPayload(a: Agent)
    requires GoodAgent(a)
    ensures Payload(Capabilities(a))
  {
    hide PlainName, PrintableNodes, Shallow, Sendable, Read, NameOf, GoodAgent;
    CapabilityBlocks(a);
    var describe := (name: string) => Str(a.describe(name));
    var actions, values := Scalars(ACTION_LIST, describe), Scalars(Names(ALL_VARIABLES), describe);
    OkSendable();
    SendableAppend(One("status", Str("ok")), [Block("actions", actions)]);
    SendableAppend(One("status", Str("ok")) + [Block("actions", actions)], [Block("values", values)]);
    assert Capabilities(a) == One("status", Str("ok")) + [Block("actions", actions)] + [Block("values", values)];
    BlockNames();
  }

  /** Not one of the envelope's own names. */
  predicate OwnName(name: string) {
    name != "v" && name != "id" && name != "name" && name != "timestamp" && name != "nonce" && name != "auth"
  }

  lemma BlockNames()
    ensures OwnName("status") && OwnName("actions") && OwnName("values")
  {
    DistinctNames();
    assert |"status"| == 6 && |"actions"| == 7 && |"values"| == 6;
  }

  lemma CapabilityBlocks(a: Agent)
    requires GoodAgent(a)
    ensures var describe := (name: string) => Str(a.describe(name));
            && Sendable([Block("actions", Scalars(ACTION_LIST, describe))])
            && Sendable([Block("values", Scalars(Names(ALL_VARIABLES), describe))])
  {
    hide PlainName, Sendable, Read, NameOf;
    WordIsPlain("actions");
    WordIsPlain("values");
    PlainActions();
    var describe := (name: string) => Str(a.describe(name));
    var values := Scalars(Names(ALL_VARIABLES), describe);
    forall i | 0 <= i < |values| ensures PlainName(values[i].name) {
      PlainVariable(ALL_VARIABLES[i]);
    }
    ScalarBlock("actions", Scalars(ACTION_LIST, describe));
    ScalarBlock("values", values);
  }

  lemma RefusalTexts()
    ensures Utf8.Valid(FORBIDDEN) && Utf8.Valid("expected a boolean") && Utf8.Valid("message must be non-empty text")
    ensures Utf8.Valid("minutes must be between 1 and 1440") && Utf8.Valid("seconds must not be negative")
  {
    hide Utf8.Valid, Utf8.Ascii;
    RefusalTexts1();
    RefusalTexts2();
  }

  lemma RefusalTexts1()
    ensures Utf8.Valid(FORBIDDEN) && Utf8.Valid("expected a boolean") && Utf8.Valid("message must be non-empty text")
  {
    hide Utf8.Valid;
    Utf8.AsciiValid(FORBIDDEN);
    Utf8.AsciiValid("expected a boolean");
    Utf8.AsciiValid("message must be non-empty text");
  }

  lemma RefusalTexts2()
    ensures Utf8.Valid("minutes must be between 1 and 1440") && Utf8.Valid("seconds must not be negative")
  {
    hide Utf8.Valid;
    Utf8.AsciiValid("minutes must be between 1 and 1440");
    Utf8.AsciiValid("seconds must not be negative");
  }

  lemma TimeTexts()
    ensures Utf8.Valid("time must be HH:MM") && Utf8.Valid("time must be HH:MM (00:00" + EN_DASH + "23:59)")
  {
    hide Utf8.Valid;
    DashesValid();
    Utf8.AsciiValid("time must be HH:MM");
    GoodText("time must be HH:MM (00:00", EN_DASH);
    GoodSuffix("time must be HH:MM (00:00" + EN_DASH, "23:59)");
  }

  lemma AnswerTexts()
    ensures Utf8.Valid("cleared") && Utf8.Valid("message sent") && Utf8.Valid("locked") && Utf8.Valid("unlocked")
    ensures Utf8.Valid("None")
  {
    hide Utf8.Valid;
    Utf8.AsciiValid("cleared");
    Utf8.AsciiValid("message sent");
    Utf8.AsciiValid("locked");
    Utf8.AsciiValid("unlocked");
    Utf8.AsciiValid("None");
  }

  lemma VarTextValid(req: Request)
    requires GoodID(req.variable)
    ensures Utf8.Valid(VarText(req))
    ensures Utf8.Valid(VarText(req) + " is read-only") && Utf8.Valid(VarText(req) + " cannot be cleared")
    ensures Utf8.Valid("unknown variable: " + VarText(req))
  {
    hide Utf8.Valid;
    AnswerTexts();
    GoodSuffix(VarText(req), " is read-only");
    GoodSuffix(VarText(req), " cannot be cleared");
    GoodText("unknown variable: ", VarText(req));
  }

  lemma ParsedInt(raw: Value, reqID: Option<string>)
    requires GoodID(reqID)
    ensures var r := ParseInt(raw, reqID);
            if r.Ok? then Printable(Int(r.value)) else GoodError(r.error)
  {
    hide Utf8.Valid, TrimLeft, TrimRight, TrimSigns, SignedValue;
    CodesValid();
    TailWords();
  }

  lemma SetGood(a: Agent, req: Request)
    requires GoodAgent(a) && GoodID(req.id) && GoodID(req.variable)
    ensures GoodOutcome(DoSet(a, req).outcome)
  {
    hide Utf8.Valid, Payload, Printable, ParseInt, ParseBool, OKContent, VariableOf, VarText, Writable, StateFile.FormatTime,
      StateFile.ParseTimeHHMM;
    RefusalTexts();
    TimeTexts();
    CodesValid();
    VarTextValid(req);
    ParsedInt(req.val, req.id);
    if DoSet(a, req).outcome.Content? {
      SetResult(a, req);
    }
  }

  lemma ParsedTime(raw: Value)
    ensures ParseHHMM(raw).Ok? ==> ParseHHMM(raw).value.Valid()
  {}

  /** What a successful set answers. */
  lemma SetResult(a: Agent, req: Request)
    requires DoSet(a, req).outcome.Content?
    ensures exists v :: DoSet(a, req).outcome.nodes == OKContent(v) && Payload(OKContent(v))
  {
    hide Utf8.Valid, Payload, ParseInt, ParseBool, OKContent, VariableOf, VarText, StateFile.FormatTime,
      StateFile.ParseTimeHHMM;
    var v := VariableOf(VarText(req)).value;
    if v.DailyLimit? {
      OkPayload(Int(ParseInt(req.val, req.id).value));
    } else if v.ManualLockSet? {
      OkPayload(Bool(ParseBool(req.val).value));
    } else {
      var t := ParseHHMM(req.val).value;
      ParsedTime(req.val);
      TimeText(t);
      OkPayload(OptTime(Some(t)));
    }
  }

  lemma GetGood(a: Agent, req: Request)
    requires GoodAgent(a) && GoodID(req.id) && GoodID(req.variable)
    ensures GoodOutcome(DoGet(a, req).outcome)
  {
    hide Utf8.Valid, Payload, Printable, VariableOf, VarText, Settings, Read, OKContent;
    CodesValid();
    VarTextValid(req);
    SettingsPayload(a);
    var v := VariableOf(VarText(req));
    if v.Some? {
      ReadPrintable(a, v.value);
      OkPayload(Read(a, v.value));
    }
  }

  lemma ClearGood(req: Request)
    requires GoodID(req.id) && GoodID(req.variable)
    ensures GoodOutcome(DoClear(req).outcome)
  {
    hide Utf8.Valid, Payload, VariableOf, VarText, OKContent, Clearable;
    RefusalTexts();
    AnswerTexts();
    VarTextValid(req);
    OkPayload(Str("cleared"));
  }

  lemma NumberGood(req: Request)
    requires GoodID(req.id)
    ensures GoodOutcome(DoExtend(req).outcome) && GoodOutcome(DoShutdown(req).outcome)
  {
    hide Utf8.Valid, Payload, ParseInt, OKContent;
    RefusalTexts();
    CodesValid();
    ParsedInt(req.val, req.id);
    if DoExtend(req).outcome.Content? {
      OkPayload(Int(ParseInt(req.val, req.id).value));
    }
    if DoShutdown(req).outcome.Content? {
      OkPayload(Int(if req.val.Null? then DEFAULT_SHUTDOWN_SECONDS else ParseInt(req.val, req.id).value));
    }
  }

  lemma MessageGood(a: Agent, req: Request)
    requires GoodAgent(a) && GoodID(req.id)
    ensures GoodOutcome(DoMessage(a, req).outcome)
  {
    hide Utf8.Valid, Payload, OKContent, TrimLeft, TrimRight, Read;
    RefusalTexts();
    AnswerTexts();
    CodesValid();
    OkPayload(Str("message sent"));
  }

  lemma LogsGood(a: Agent, req: Request)
    requires GoodAgent(a) && GoodID(req.id) && (req.tail.Some? ==> req.tail.value >= 0)
    ensures GoodOutcome(DoGetLogs(a, req).outcome)
  {
    hide Utf8.Valid, Payload, Read;
    if a.log.Ok? {
      LogsReply.GetLogsGood(a.path, a.log.value, req.tail);
    } else {
      RefusalTexts();
      GoodText("cannot read log file: ", a.log.error);
    }
  }

  lemma LockGood(a: Agent)
    ensures Payload(OKContent(Str("locked"))) && Payload(OKContent(Str("unlocked")))
  {
    hide Utf8.Valid, Payload, OKContent;
    AnswerTexts();
    OkPayload(Str("locked"));
    OkPayload(Str("unlocked"));
  }

  /** For every request that can reach it, what the dispatcher answers can be sent. */
  lemma DispatchGood(a: Agent, req: Request)
    requires GoodAgent(a) && GoodRequest(req)
    ensures GoodOutcome(Dispatch(a, req).outcome)
  {
    hide Utf8.Valid, Payload, Read, Capabilities, OKContent, DoSet, DoGet, DoClear, DoExtend, DoMessage, DoShutdown,
      DoGetLogs, CheckOperands, IsValidNonce;
    CapabilitiesPayload(a);
    LogsGood(a, req);
    GetGood(a, req);
    SetGood(a, req);
    ClearGood(req);
    NumberGood(req);
    MessageGood(a, req);
    LockGood(a);
    CodesValid();
    ParsedInt(req.val, req.id);
  }

  // ------------------------------------------------------------------------------------------
  // Main results: the answers
  // ------------------------------------------------------------------------------------------

  /** A parsed request has no negative tail. */
  predicate Arrives(req: Request) {
    req.tail.Some? ==> req.tail.value >= 0
  }

  /** The dispatcher as HandleRequest is given it. */
  function Handler(a: Agent): Request -> Outcome
    requires a.c.daily.Valid()
  {
    (req: Request) => if Arrives(req) then Dispatch(a, req).outcome else Failed("")
  }

  lemma HandlerGood(a: Agent)
    requires GoodAgent(a)
    ensures GoodDispatch(Handler(a))
  {
    hide GoodOutcome, Dispatch, CheckOperands, IsValidNonce, Printable, Utf8.Valid;
    forall req | GoodRequest(req) ensures GoodOutcome(Handler(a)(req)) {
      DispatchGood(a, req);
    }
  }

  /** And of an agent that can read its log it answers get_logs as the theorem on delivered logs asks. */
  lemma HandlerServesLogs(a: Agent)
    requires a.c.daily.Valid() && a.log.Ok?
    ensures forall req :: GoodRequest(req) && req.action == "get_logs" ==>
              Handler(a)(req) == LogsReply.DoGetLogs(a.path, a.log.value, req.tail)
  {
    hide CheckOperands, IsValidNonce, Printable, Utf8.Valid, LogsReply.DoGetLogs, DoSet, DoGet, DoClear, DoExtend,
      DoMessage, DoShutdown, Capabilities, OKContent;
    assert |"get_logs"| == 8 && |"list_capabilities"| == 17;
  }

  /** The agent's own dispatcher, whatever the state of the monitor: for every body at all the reply is
      accepted by a panel that has the secret; a refused body reads as its refusal, and a request that
      arrives as what the dispatcher made of it. */
  lemma AgentAnswersEveryBody(body: string, mac: Mac, secret: string, now: int, a: Agent,
                              signed: int, newNonce: string, panelNow: int)
    requires GoodAgent(a)
    requires Printable(Int(signed)) && IsValidNonce(Str(newNonce)) && TimestampInWindow(signed, panelNow)
    ensures var r := ParseRequest(body, mac, secret, a.hostname, now);
            var read := ParseResponse(HandleRequest(body, mac, secret, a.hostname, now, Handler(a), signed, newNonce),
                                      mac, secret, a.hostname, PROTOCOL_VERSION, panelNow);
            if r.Err? then read == Ok(Failure(r.error.code, r.error.message, r.error.reqID, a.hostname, signed, newNonce))
            else Arrives(r.value)
                 && read == Ok(Heard(Dispatch(a, r.value).outcome, r.value.id, a.hostname, signed, newNonce))
  {
    hide ParseResponse, HandleRequest, ParseRequest, Heard, GoodDispatch, Dispatch, IsValidNonce, Utf8.Valid, Printable,
      CheckOperands, TimestampInWindow;
    HandlerGood(a);
    ParsedRequestGood(body, mac, secret, a.hostname, now);
    EveryBodyAnswered(body, mac, secret, a.hostname, now, Handler(a), signed, newNonce, PROTOCOL_VERSION, panelNow);
  }

  // ------------------------------------------------------------------------------------------
  // Main results: the effects
  // ------------------------------------------------------------------------------------------

  /** The monitor's part of the effects, as events of its runs. */
  function EventsOf(now: Moment, effects: seq<Effect>): seq<Event> {
    if effects == [] then []
    else (if effects[0].Change? then [Event(now, effects[0].action)] else []) + EventsOf(now, effects[1..])
  }

  /** The monitor after a request, if nothing comes in between. */
  function After(a: Agent, req: Request): Fields
    requires a.c.daily.Valid() && Arrives(req)
  {
    Run(a.c, EventsOf(a.now, Dispatch(a, req).effects))
  }

  /** A refused request has no effect, and only the actions that must name their agent have any. */
  lemma OnlyWritesAct(a: Agent, req: Request)
    requires a.c.daily.Valid() && Arrives(req)
    ensures var d := Dispatch(a, req);
            && (d.outcome.Refused? ==> d.effects == [])
            && (d.effects != [] ==> req.action in WRITE_ACTIONS)
  {
    hide ParseInt, ParseBool, ParseHHMM, VariableOf, VarText, Capabilities, Settings, Read, OKContent, OptTime;
  }

  /** So whatever is received, nothing happens unless it is a frame signed with the secret, sent within a
      minute, that names this very agent. */
  lemma OnlyNamedRequestsAct(body: string, mac: Mac, secret: string, now: int, a: Agent)
    requires a.c.daily.Valid()
    ensures var r := ParseRequest(body, mac, secret, a.hostname, now);
            r.Ok? ==>
              && Arrives(r.value)
              && (Dispatch(a, r.value).effects != [] ==>
                    && r.value.name == Some(a.hostname)
                    && Parse(body).Ok?
                    && var nodes := Parse(body).value;
                       Admission.Authentic(nodes, mac, secret) && Admission.Timely(nodes, now)
                       && OptStr(Field(nodes, "name")) == Some(a.hostname))
  {
    hide ParseRequest, Parse, Dispatch, CheckOperands, IsValidNonce, Printable, Utf8.Valid, Field, OptStr, Admission.Authentic,
      Admission.Asking;
    ParsedRequestGood(body, mac, secret, a.hostname, now);
    Admission.RequestAccepted(body, mac, secret, a.hostname, now);
    var r := ParseRequest(body, mac, secret, a.hostname, now);
    if r.Ok? {
      OnlyWritesAct(a, r.value);
    }
  }

  predicate Saves(effects: seq<Effect>, i: int) {
    0 <= i < |effects| && effects[i] == Change(StateSaved)
  }

  /** Only valid parent actions, and if any, then exactly one save, at the end. */
  ghost predicate SavedOnce(effects: seq<Effect>) {
    && (forall i :: 0 <= i < |effects| && effects[i].Change? ==>
          ValidAction(effects[i].action) && !effects[i].action.StepLoop? && Saves(effects, |effects| - 1))
    && (forall i :: Saves(effects, i) ==> i == |effects| - 1)
  }

  lemma SavedIsSavedOnce(x: Action)
    requires ValidAction(x) && !x.StepLoop? && !x.StateSaved?
    ensures SavedOnce(Saved(x))
  {}

  lemma SetSavedOnce(a: Agent, req: Request)
    ensures SavedOnce(DoSet(a, req).effects)
  {
    hide ParseInt, ParseBool, VariableOf, VarText, OKContent, StateFile.ParseTimeHHMM, StateFile.FormatTime, SavedOnce, ParseHHMM, Saved;
    ParsedTime(req.val);
    NoEffectsSavedOnce();
    var d := DoSet(a, req);
    if d.outcome.Content? {
      var v := VariableOf(VarText(req)).value;
      if v.DailyLimit? {
        SavedIsSavedOnce(LimitSet(ParseInt(req.val, req.id).value));
      } else if v.ManualLockSet? {
        SavedIsSavedOnce(if ParseBool(req.val).value then LockEngaged(a.lockWorks) else LockCleared);
      } else {
        var t := ParseHHMM(req.val).value;
        SavedIsSavedOnce(if v.BedTime? then BedTimeSet(t) else WakeTimeSet(t));
      }
    }
  }

  lemma NoEffectsSavedOnce()
    ensures SavedOnce([]) && (forall text :: SavedOnce([Popup(text)])) && (forall n :: SavedOnce([Shutdown(n)]))
  {}

  lemma ClearSavedOnce(req: Request)
    ensures SavedOnce(DoClear(req).effects)
  {
    hide VariableOf, VarText, OKContent;
  }

  /** The monitor is changed by valid actions only; if it is changed at all, the state is saved exactly
      once, at the end. */
  lemma SavedOnceAtTheEnd(a: Agent, req: Request)
    requires a.c.daily.Valid() && Arrives(req)
    ensures SavedOnce(Dispatch(a, req).effects)
  {
    hide ParseInt, DoSet, DoClear, Capabilities, Settings, Read, OKContent, SavedOnce, Saved, VariableOf;
    NoEffectsSavedOnce();
    SetSavedOnce(a, req);
    ClearSavedOnce(req);
    SavedIsSavedOnce(LockEngaged(a.lockWorks));
    SavedIsSavedOnce(LockCleared);
    if DoExtend(req).outcome.Content? {
      SavedIsSavedOnce(TimeExtended(ParseInt(req.val, req.id).value));
    }
  }

  lemma EventsOfSaved(now: Moment, x: Action)
    ensures EventsOf(now, Saved(x)) == [Event(now, x), Event(now, StateSaved)]
  {
    assert Saved(x)[1..] == [Change(StateSaved)] && [Change(StateSaved)][1..] == [];
    assert EventsOf(now, [Change(StateSaved)]) == [Event(now, StateSaved)];
  }

  lemma RunSaved(c: Fields, now: Moment, x: Action)
    ensures Run(c, EventsOf(now, Saved(x))) == Stamped(Apply(c, Event(now, x)), now)
  {
    hide Apply;
    EventsOfSaved(now, x);
    var events := [Event(now, x), Event(now, StateSaved)];
    assert events[1..] == [Event(now, StateSaved)] && events[1..][1..] == [];
    SaveStamps(Apply(c, Event(now, x)), now);
    assert Run(Apply(c, Event(now, x)), events[1..]) == Apply(Apply(c, Event(now, x)), Event(now, StateSaved));
  }

  lemma SaveStamps(c: Fields, now: Moment)
    ensures Apply(c, Event(now, StateSaved)) == Stamped(c, now)
  {}

  lemma DispatchSet(a: Agent, req: Request)
    requires a.c.daily.Valid() && Arrives(req)
    ensures req.action == "set" ==> Dispatch(a, req) == DoSet(a, req)
    ensures req.action == "get" ==> Dispatch(a, req) == DoGet(a, req)
    ensures req.action == "clear" ==> Dispatch(a, req) == DoClear(req)
    ensures req.action == "extend" ==> Dispatch(a, req) == DoExtend(req)
  {
    hide DoSet, DoGet, DoClear, DoExtend, DoMessage, DoShutdown, DoGetLogs, Capabilities;
    assert "set"[0] != "get"[0];
    assert |"set"| == 3 && |"get"| == 3 && |"clear"| == 5 && |"extend"| == 6;
    assert |"get_logs"| == 8 && |"list_capabilities"| == 17;
  }

  /** The one change a set makes. */
  function SetAction(a: Agent, v: Variable, val: Value, id: Option<string>): Option<Action> {
    if v.DailyLimit? then
      var minutes := ParseInt(val, id);
      if minutes.Ok? && InLimits(minutes.value) then Some(LimitSet(minutes.value)) else None
    else if v.ManualLockSet? then
      var engaged := ParseBool(val);
      if engaged.None? then None else Some(if engaged.value then LockEngaged(a.lockWorks) else LockCleared)
    else
      var t := ParseHHMM(val);
      if t.Err? then None else if v.BedTime? then Some(BedTimeSet(t.value)) else if v.WakeTime? then Some(WakeTimeSet(t.value)) else None
  }

  lemma SetDoes(a: Agent, req: Request, v: Variable)
    requires req.variable.Some? && VariableOf(req.variable.value) == Some(v)
    ensures var d := DoSet(a, req);
            && (d.outcome.Content? <==> Writable(v) && SetAction(a, v, req.val, req.id).Some?)
            && (d.outcome.Content? ==> d.effects == Saved(SetAction(a, v, req.val, req.id).value))
  {
    hide ParseInt, ParseBool, ParseHHMM, VariableOf, OKContent, Saved, StateFile.FormatTime;
  }

  /** A set is accepted exactly if the variable is writable and the value one it takes; then it answers
      with exactly what reading the variable gives afterwards. */
  lemma SetReadsBack(a: Agent, req: Request, v: Variable)
    requires a.c.daily.Valid() && req.action == "set"
    requires Arrives(req) && req.variable.Some? && VariableOf(req.variable.value) == Some(v)
    ensures var o := Dispatch(a, req).outcome;
            && (o.Content? <==> Writable(v) && SetAction(a, v, req.val, req.id).Some?)
            && (o.Content? ==>
                  After(a, req).daily.Valid() && o == Content(OKContent(Read(a.(c := After(a, req)), v))))
  {
    hide VariableOf, OKContent, Run, UsagePeriodDate, DoSet, Dispatch, EventsOf, SetAction;
    DispatchSet(a, req);
    SetDoes(a, req, v);
    if DoSet(a, req).outcome.Content? {
      var x := SetAction(a, v, req.val, req.id).value;
      RunSaved(a.c, a.now, x);
      SetAnswer(a, req, v);
    }
  }

  /** What a set answers is what its one change makes the variable. */
  lemma SetAnswer(a: Agent, req: Request, v: Variable)
    requires a.c.daily.Valid() && req.variable.Some? && VariableOf(req.variable.value) == Some(v)
    requires DoSet(a, req).outcome.Content? && SetAction(a, v, req.val, req.id).Some?
    ensures var c := Stamped(Apply(a.c, Event(a.now, SetAction(a, v, req.val, req.id).value)), a.now);
            c.daily.Valid() && DoSet(a, req).outcome.nodes == OKContent(Read(a.(c := c), v))
  {
    hide ParseInt, ParseBool, ParseHHMM, VariableOf, StateFile.FormatTime, OKContent, UsagePeriodDate, Read, Apply, OptTime,
      AfterSetWakeTime;
    ParsedTime(req.val);
    var c := Stamped(Apply(a.c, Event(a.now, SetAction(a, v, req.val, req.id).value)), a.now);
    if v.DailyLimit? {
      AppliedLimit(a, ParseInt(req.val, req.id).value);
    } else if v.ManualLockSet? {
      AppliedLock(a, ParseBool(req.val).value);
    } else {
      AppliedTime(a, v, ParseHHMM(req.val).value);
    }
  }

  lemma AppliedLimit(a: Agent, minutes: int)
    requires a.c.daily.Valid() && minutes >= 0
    ensures var c := Stamped(Apply(a.c, Event(a.now, LimitSet(minutes))), a.now);
            c.daily.Valid() && Read(a.(c := c), DailyLimit) == Int(minutes)
  {}

  lemma AppliedLock(a: Agent, engaged: bool)
    requires a.c.daily.Valid()
    ensures var c := Stamped(Apply(a.c, Event(a.now, if engaged then LockEngaged(a.lockWorks) else LockCleared)), a.now);
            c.daily.Valid() && Read(a.(c := c), ManualLockSet) == Bool(engaged)
  {}

  lemma AppliedTime(a: Agent, v: Variable, t: TimeOfDay)
    requires a.c.daily.Valid() && t.Valid() && v in {BedTime, WakeTime}
    ensures var c := Stamped(Apply(a.c, Event(a.now, if v.BedTime? then BedTimeSet(t) else WakeTimeSet(t))), a.now);
            c.daily.Valid() && Read(a.(c := c), v) == OptTime(Some(t))
  {
    hide StateFile.FormatTime, UsagePeriodDate;
  }

  /** Every time of day is taken, however the panel writes it as text: HH:MM comes back as it was sent. */
  lemma TimesAreTaken(a: Agent, v: Variable, t: TimeOfDay, id: Option<string>)
    requires t.Valid() && v in {BedTime, WakeTime}
    ensures SetAction(a, v, Str(StateFile.FormatTime(t)), id) == Some(if v.BedTime? then BedTimeSet(t) else WakeTimeSet(t))
  {
    hide StateFile.FormatTime, StateFile.ParseTimeHHMM;
    StateFile.TimeRoundTrip(t);
  }

  /** A clear is accepted exactly if the variable is clearable; then reading it gives nothing, zero or
      false, and a cleared bed time leaves no warning marked. */
  lemma ClearReadsBack(a: Agent, req: Request, v: Variable)
    requires a.c.daily.Valid() && req.action == "clear"
    requires Arrives(req) && req.variable.Some? && VariableOf(req.variable.value) == Some(v)
    ensures var o := Dispatch(a, req).outcome;
            && (o.Content? <==> Clearable(v))
            && (o.Content? ==>
                  var c := After(a, req);
                  && c.daily.Valid()
                  && Read(a.(c := c), v) == (if v.CumulativeExtension? then Int(0) else if v.ManualLockSet? then Bool(false) else Null)
                  && (v.BedTime? ==> c.warningsSent == {}))
  {
    hide VariableOf, OKContent, Run, EventsOf, Dispatch;
    DispatchSet(a, req);
    RunSaved(a.c, a.now, LimitCleared);
    RunSaved(a.c, a.now, ExtensionsCleared);
    RunSaved(a.c, a.now, LockCleared);
    RunClearBed(a.c, a.now);
  }

  lemma RunClearBed(c: Fields, now: Moment)
    ensures Run(c, EventsOf(now, [Change(BedTimeCleared), Change(WarningsCleared), Change(StateSaved)]))
         == Stamped(c.(daily := c.daily.(bed := None), warningsSent := {}), now)
  {
    var effects := [Change(BedTimeCleared), Change(WarningsCleared), Change(StateSaved)];
    assert effects[1..] == Saved(WarningsCleared);
    EventsOfSaved(now, WarningsCleared);
    var first := Event(now, BedTimeCleared);
    assert EventsOf(now, effects) == [first] + EventsOf(now, Saved(WarningsCleared));
    assert ([first] + EventsOf(now, Saved(WarningsCleared)))[1..] == EventsOf(now, Saved(WarningsCleared));
    RunSaved(Apply(c, first), now, WarningsCleared);
  }

  /** An extension is accepted exactly from one minute to a day; then it adds its minutes to the
      extension and lifts a manual lock. */
  lemma ExtendAdds(a: Agent, req: Request)
    requires a.c.daily.Valid() && Arrives(req) && req.action == "extend"
    ensures var o, minutes := Dispatch(a, req).outcome, ParseInt(req.val, req.id);
            && (o.Content? <==> minutes.Ok? && InLimits(minutes.value))
            && (o.Content? ==>
                  var c := After(a, req);
                  && c.runtime.extension == a.c.runtime.extension + 60 * minutes.value
                  && !c.runtime.manualLock && c.daily == a.c.daily)
  {
    hide ParseInt, OKContent, Run, EventsOf, Dispatch;
    DispatchSet(a, req);
    var minutes := ParseInt(req.val, req.id);
    if minutes.Ok? && InLimits(minutes.value) {
      RunSaved(a.c, a.now, TimeExtended(minutes.value));
    }
  }

  // ------------------------------------------------------------------------------------------
  // Main results: from the panel and back
  // ------------------------------------------------------------------------------------------

  /** A panel whose request is acceptable and on time. */
  predicate Honest(p: RequestParams, sent: int, requestNonce: string, hostname: string, now: int) {
    && (p.version == 0 || SupportedVersion(p.version))
    && PrintableParams(p, EnvelopeTime(p.timestamp, sent), EnvelopeNonce(p.nonce, requestNonce))
    && IsValidNonce(Str(EnvelopeNonce(p.nonce, requestNonce)))
    && TimestampInWindow(EnvelopeTime(p.timestamp, sent), now) && Acceptable(p, hostname)
  }

  /** A panel sets a variable: what it reads in the reply is what the variable then is. */
  lemma SetFromPanel(p: RequestParams, mac: Mac, sent: int, requestNonce: string, now: int, a: Agent, v: Variable,
                     signed: int, responseNonce: string, panelNow: int)
    requires Honest(p, sent, requestNonce, a.hostname, now) && GoodAgent(a)
    requires p.action == "set" && p.variable != "" && VariableOf(p.variable) == Some(v)
    requires Writable(v) && SetAction(a, v, p.val, Present(p.reqID)).Some?
    requires Printable(Int(signed)) && IsValidNonce(Str(responseNonce)) && TimestampInWindow(signed, panelNow)
    ensures var reply := HandleRequest(BuildRequest(p, mac, sent, requestNonce).value, mac, p.secret, a.hostname, now,
                                       Handler(a), signed, responseNonce);
            var read := ParseResponse(reply, mac, p.secret, a.hostname, PROTOCOL_VERSION, panelNow);
            var req := Seen(p, sent, requestNonce);
            && Arrives(req) && After(a, req).daily.Valid()
            && read.Ok? && read.value.status == "ok"
            && read.value.result == Read(a.(c := After(a, req)), v)
  {
    hide ParseResponse, HandleRequest, Carrying, GoodDispatch, IsValidNonce, Utf8.Valid, Acceptable, PrintableParams,
      EnvelopeTime, EnvelopeNonce, TimestampInWindow, BuildRequest, Read, After, Dispatch, VariableOf, SetAction,
      Printable, Enforcement;
    HandlerGood(a);
    SeenParts(p, sent, requestNonce, a.hostname);
    var req := Seen(p, sent, requestNonce);
    SetReadsBack(a, req, v);
    HonestExchange(p, mac, sent, requestNonce, a.hostname, now, Handler(a), signed, responseNonce, panelNow);
    OKCarried(Read(a.(c := After(a, req)), v), p.reqID, a.hostname, signed, responseNonce);
  }

  lemma SeenParts(p: RequestParams, sent: int, requestNonce: string, hostname: string)
    requires Acceptable(p, hostname)
    ensures var req := Seen(p, sent, requestNonce);
            && Arrives(req) && req.action == p.action && req.variable == Present(p.variable)
            && req.val == p.val && req.id == Present(p.reqID)
  {}

  lemma {:induction false} LastEvent(now: Moment, effects: seq<Effect>)
    requires effects != [] && effects[|effects| - 1].Change?
    ensures var es := EventsOf(now, effects);
            es != [] && es[|es| - 1] == Event(now, effects[|effects| - 1].action)
  {
    if |effects| > 1 {
      LastEvent(now, effects[1..]);
    } else {
      assert effects[1..] == [];
    }
  }

  lemma {:induction false} NoEvents(now: Moment, effects: seq<Effect>)
    requires forall i :: 0 <= i < |effects| ==> !effects[i].Change?
    ensures EventsOf(now, effects) == []
  {
    if effects != [] {
      NoEvents(now, effects[1..]);
    }
  }

  lemma {:induction false} EndsClean(w: Recovery.World, events: seq<Event>)
    requires events != [] && events[|events| - 1].action.StateSaved?
    ensures Recovery.RunWorld(w, events).pending.Clean?
    decreases |events|
  {
    hide Recovery.ApplyWorld;
    if |events| > 1 {
      assert events[1..][|events| - 2] == events[|events| - 1];
      EndsClean(Recovery.ApplyWorld(w, events[0]), events[1..]);
    } else {
      assert events[1..] == [];
      SaveCleans(w, events[0]);
    }
  }

  lemma SaveCleans(w: Recovery.World, e: Event)
    requires e.action.StateSaved?
    ensures Recovery.ApplyWorld(w, e).pending.Clean?
  {}

  /** A request served without interruption leaves no change unsaved: if it has events for the monitor
      at all, nothing is pending after them. */
  lemma NothingLeftPending(w: Recovery.World, a: Agent, req: Request)
    requires a.c.daily.Valid() && Arrives(req)
    ensures var events := EventsOf(a.now, Dispatch(a, req).effects);
            events != [] ==> Recovery.RunWorld(w, events).pending.Clean?
  {
    hide Dispatch, EventsOf, Recovery.RunWorld;
    var effects := Dispatch(a, req).effects;
    SavedOnceAtTheEnd(a, req);
    if i :| 0 <= i < |effects| && effects[i].Change? {
      LastEvent(a.now, effects);
      EndsClean(w, EventsOf(a.now, effects));
    } else {
      NoEvents(a.now, effects);
    }
  }
}
