/**
  Settings and runtime state as the JSON documents they are saved as (go/state/state.go).
  */
module StateFile {
  import opened Text
  import opened Wrappers
  import opened Policy
  import opened Monitor
  import opened Iso
  import Kdl
  import Protocol
  import Utf8

  datatype Json = JNull | JBool(b: bool) | JInt(n: int) | JReal(x: real) | JStr(s: string) | JOther

  type Document = map<string, Json>

  datatype ValueError = ValueError(field: string)

  type Loaded<+T> = Result<T, ValueError>

  const MAX_ABS_INT: int := 0x20_0000_0000_0000

  // ------------------------------------------------------------------------------------------
  // Times of day
  // ------------------------------------------------------------------------------------------

  function FormatTime(t: TimeOfDay): string
    requires t.Valid()
  {
    Powers();
    Pad(t.hour, 2) + ":" + Pad(t.minute, 2)
  }

  /** H:MM or HH:MM, ignoring surrounding whitespace. */
  function ParseTimeHHMM(value: string): Option<TimeOfDay> {
    var text := Protocol.TrimRight(Protocol.TrimLeft(value));
    var colon := Kdl.IndexOf(text, ':');
    if colon == |text| then None
    else
      var hour, minute := text[..colon], text[colon + 1..];
      if !AllDigits(hour) || |hour| > 2 || !AllDigits(minute) || |minute| != 2 then None
      else
        var t := TimeOfDay(DecimalValue(hour), DecimalValue(minute));
        if t.Valid() then Some(t) else None
  }

  lemma NotSpace(c: char)
    requires IsDigit(c)
    ensures !Protocol.IsSpace([c])
  {}

  /** Text that starts with a digit keeps its start, and text that ends with one its end. */
  lemma TrimLeftDigits(s: string)
    requires s != "" && IsDigit(s[0])
    ensures Protocol.TrimLeft(s) == s
  {
    NotSpace(s[0]);
    assert Utf8.HeadLen(s) == 1 && s[..1] == [s[0]];
  }

  lemma {:induction false} TrimRightDigits(s: string)
    requires s != "" && Utf8.Ascii(s) && IsDigit(s[|s| - 1])
    ensures Protocol.TrimRight(s) == s
    decreases |s|
  {
    hide Protocol.IsSpace, Protocol.TrimRight;
    NotSpace(s[|s| - 1]);
    TrimRightStep(s);
    if |s| > 1 {
      TrimRightDigits(s[1..]);
    } else {
      assert s[1..] == "";
      TrimRightNothing();
    }
    assert [s[0]] + s[1..] == s;
  }

  lemma TrimRightStep(s: string)
    requires s != "" && Utf8.Ascii(s)
    ensures var rest := Protocol.TrimRight(s[1..]);
            Protocol.TrimRight(s) == if rest == "" && Protocol.IsSpace([s[0]]) then "" else [s[0]] + rest
  {
    hide Protocol.IsSpace;
    assert Utf8.HeadLen(s) == 1 && s[..1] == [s[0]];
  }

  lemma TrimRightNothing()
    ensures Protocol.TrimRight("") == ""
  {}

  lemma TimeRoundTrip(t: TimeOfDay)
    requires t.Valid()
    ensures ParseTimeHHMM(FormatTime(t)) == Some(t)
  {
    hide Pad, Pow10, Protocol.TrimLeft, Protocol.TrimRight;
    Powers();
    var h, m := Pad(t.hour, 2), Pad(t.minute, 2);
    var s := FormatTime(t);
    PadValue(t.hour, 2);
    PadValue(t.minute, 2);
    TrimLeftDigits(s);
    TrimRightDigits(s);
    assert s[..2] == h && s[3..] == m;
    assert Kdl.IndexOf(s, ':') == 2 by {
      assert s[2] == ':' && ':' !in s[..2];
      FirstColon(s, 2);
    }
  }

  lemma FirstColon(s: string, k: nat)
    requires k < |s| && s[k] == ':' && ':' !in s[..k]
    ensures Kdl.IndexOf(s, ':') == k
  {
    assert s[k] !in s[..k];
  }

  // ------------------------------------------------------------------------------------------
  // Numbers
  // ------------------------------------------------------------------------------------------

  /** Rounding to three decimals, ties to the even one. */
  function Round3(x: real): real {
    var y := x * 1000.0;
    var low := y.Floor;
    var rest := y - low as real;
    (if rest < 0.5 || (rest == 0.5 && low % 2 == 0) then low as real else (low + 1) as real) / 1000.0
  }

  lemma Round3Close(x: real)
    ensures x - 0.0005 <= Round3(x) <= x + 0.0005
    ensures x >= 0.0 ==> Round3(x) >= 0.0
  {}

  /** A float in JSON: whole numbers are written without a fraction. */
  function Number(x: real): Json {
    if x.Floor as real == x then JInt(x.Floor) else JReal(x)
  }

  function ToNonNegInt(v: Json, field: string): Loaded<nat> {
    match v
    case JInt(n) => if 0 <= n <= MAX_ABS_INT then Ok(n) else Err(ValueError(field))
    case JReal(x) => if x.Floor as real == x && 0.0 <= x <= MAX_ABS_INT as real then Ok(x.Floor) else Err(ValueError(field))
    case _ => Err(ValueError(field))
  }

  function ToNonNegReal(v: Json, field: string): Loaded<real> {
    match v
    case JInt(n) => if 0 <= n <= MAX_ABS_INT then Ok(n as real) else Err(ValueError(field))
    case JReal(x) => if x >= 0.0 then Ok(x) else Err(ValueError(field))
    case _ => Err(ValueError(field))
  }

  function ToBool(v: Json, field: string): Loaded<bool> {
    match v
    case JBool(b) => Ok(b)
    case JInt(0) => Ok(false)
    case JInt(1) => Ok(true)
    case _ => Err(ValueError(field))
  }

  function ToTime(v: Json, field: string): Loaded<TimeOfDay> {
    if !v.JStr? || ParseTimeHHMM(v.s).None? then Err(ValueError(field)) else Ok(ParseTimeHHMM(v.s).value)
  }

  // ------------------------------------------------------------------------------------------
  // Documents
  // ------------------------------------------------------------------------------------------

  function Get(doc: Document, key: string): Json {
    if key in doc then doc[key] else JNull
  }

  function DailyToFile(d: Daily): Document
    requires d.Valid()
  {
    map["wake_time" := JStr(FormatTime(d.wake)),
        "allowance" := if d.allowance.Some? then JInt(d.allowance.value) else JNull,
        "bed_time" := if d.bed.Some? then JStr(FormatTime(d.bed.value)) else JNull]
  }

  function RuntimeToFile(r: Runtime): Document
    requires InCalendar(r.stamp)
  {
    map["timestamp" := JStr(FormatISOSeconds(r.stamp)),
        "accumulated_seconds" := Number(Round3(r.accumulated)),
        "manual_lock_active" := JBool(r.manualLock),
        "cumulative_extension_seconds" := JInt(r.extension)]
  }

  function LoadDaily(doc: Document): Loaded<Daily> {
    var wake :- if "wake_time" in doc then ToTime(doc["wake_time"], "wake_time") else Ok(DEFAULT_WAKE_TIME);
    var bed :- LoadBed(Get(doc, "bed_time"));
    var allowance :- LoadAllowance(Get(doc, "allowance"));
    Ok(Daily(bed, wake, allowance))
  }

  function LoadBed(v: Json): Loaded<Option<TimeOfDay>> {
    if v == JNull || v == JStr("") then Ok(None)
    else
      var bed :- ToTime(v, "bed_time");
      Ok(Some(bed))
  }

  function LoadAllowance(v: Json): Loaded<Option<nat>> {
    if v == JNull then Ok(None)
    else
      var n :- ToNonNegInt(v, "allowance");
      Ok(Some(n))
  }

  function LoadRuntime(doc: Document): Loaded<Runtime> {
    if !Get(doc, "timestamp").JStr? then Err(ValueError("timestamp"))
    else match ParseISODatetime(Get(doc, "timestamp").s)
      case Err(_) => Err(ValueError("timestamp"))
      case Ok(stamp) =>
        var used :- if "accumulated_seconds" in doc then ToNonNegReal(doc["accumulated_seconds"], "accumulated_seconds") else Ok(0.0);
        var manual :- if "manual_lock_active" in doc then ToBool(doc["manual_lock_active"], "manual_lock_active") else Ok(false);
        var extension :-
          if "cumulative_extension_seconds" in doc then ToNonNegInt(doc["cumulative_extension_seconds"], "cumulative_extension_seconds")
          else Ok(0);
        Ok(Runtime(stamp, used, manual, extension))
  }

  // ------------------------------------------------------------------------------------------
  // What survives a save
  // ------------------------------------------------------------------------------------------

  /** The runtime state a file holds: the stamp cut to seconds, the use rounded to milliseconds. */
  function Stored(r: Runtime): Runtime {
    Runtime(r.stamp / SECOND * SECOND, Round3(r.accumulated), r.manualLock, r.extension)
  }

  predicate Savable(r: Runtime) {
    && InCalendar(r.stamp)
    && 0.0 <= r.accumulated <= (MAX_ABS_INT - 1) as real
    && 0 <= r.extension <= MAX_ABS_INT
  }

  lemma NumberLoads(x: real, field: string)
    requires 0.0 <= x <= MAX_ABS_INT as real
    ensures ToNonNegReal(Number(x), field) == Ok(x)
  {}

  lemma DailyRoundTrip(d: Daily)
    requires d.Valid() && (d.allowance.Some? ==> d.allowance.value <= MAX_ABS_INT)
    ensures LoadDaily(DailyToFile(d)) == Ok(d)
  {
    hide FormatTime, ParseTimeHHMM;
    TimeRoundTrip(d.wake);
    if d.bed.Some? {
      TimeRoundTrip(d.bed.value);
      TimeNotEmpty(d.bed.value);
    }
    assert DailyToFile(d)["wake_time"] == JStr(FormatTime(d.wake)) by {
      assert "wake_time"[0] != "allowance"[0];
    }
  }

  /** What a document leaves out, or leaves empty, is seven o'clock, no bed time, no limit, nothing used, no
      lock and no extension. */
  lemma LeftOut(doc: Document)
    ensures "wake_time" !in doc && Get(doc, "bed_time") in {JNull, JStr("")} && Get(doc, "allowance") == JNull ==>
              LoadDaily(doc) == Ok(Daily(None, TimeOfDay(7, 0), None))
    ensures "accumulated_seconds" !in doc && "manual_lock_active" !in doc && "cumulative_extension_seconds" !in doc
            && LoadRuntime(doc).Ok? ==>
              LoadRuntime(doc).value.(stamp := 0) == Runtime(0, 0.0, false, 0)
  {
    hide ParseISODatetime, Get;
  }

  lemma TimeNotEmpty(t: TimeOfDay)
    requires t.Valid()
    ensures FormatTime(t) != ""
  {}

  lemma RuntimeRoundTrip(r: Runtime)
    requires Savable(r)
    ensures LoadRuntime(RuntimeToFile(r)) == Ok(Stored(r))
  {
    hide FormatISOSeconds, ParseISODatetime, Round3, FormatISO;
    StampRoundTrip(r.stamp);
    Round3Close(r.accumulated);
    NumberLoads(Round3(r.accumulated), "accumulated_seconds");
  }

  /** The stored stamp belongs to the same usage period as the moment it was cut from. */
  lemma StoredPeriod(r: Runtime, wake: TimeOfDay)
    requires wake.Valid()
    ensures UsagePeriodDate(Stored(r).stamp, wake) == UsagePeriodDate(r.stamp, wake)
  {
    PeriodOfWholeSecond(r.stamp, wake);
  }
}
