/**
  The signed envelope: building, authenticating and validating requests and responses
  (go/protocol/protocol.go, auth.go, compat.go, server.go).

  HMAC is not modelled: a `Mac` is any function from key and text to something shaped like a
  base64url SHA-256 digest.  Clock readings and new nonces are parameters.
  */
module Protocol {
  import opened Text
  import opened Wrappers
  import opened Kdl
  import Utf8

  /** Unpadded digits and letters of base64url, and one padding character at the end. */
  predicate IsSignature(s: string) {
    && |s| == 44 && s[43] == '='
    && forall i :: 0 <= i < 43 ==> IsLetter(s[i]) || IsDigit(s[i]) || s[i] == '-'
  }

  type Mac = f: (string, string) -> string | forall k, c :: IsSignature(f(k, c))
    ghost witness (k: string, c: string) => Repeat('A', 43) + "="

  datatype ProtocolError = ProtocolError(code: string, message: string, reqID: Option<string>)

  const PROTOCOL_VERSION: int := 3
  const MAX_LOG_TAIL_LINES: int := 5000
  const TIMESTAMP_WINDOW: int := 60
  const NONCE_MIN_HEX: nat := 32
  const MAX_PARSED_INT: int := 0x20_0000_0000_0000

  const INVALID_REQUEST := "invalid_request"
  const UNSUPPORTED_VERSION := "unsupported_version"
  const UNKNOWN_ACTION := "unknown_action"
  const UNKNOWN_VARIABLE := "unknown_variable"
  const INVALID_VALUE := "invalid_value"
  const INTERNAL_ERROR := "internal_error"
  const AUTHENTICATION_REQUIRED := "authentication_required"
  const AUTHENTICATION_FAILED := "authentication_failed"
  const STALE_TIMESTAMP := "stale_timestamp"

  const ACTIONS: set<string> :=
    {"get", "set", "clear", "lock", "unlock", "extend", "message", "shutdown", "list_capabilities", "get_logs"}

  const VARIABLES: set<string> :=
    {"name", "status", "current_user", "daily_limit", "bed_time", "manual_lock", "wake_time",
     "cumulative_extension", "accumulated_seconds", "time_remaining", "enforcement_active",
     "enforcement_reason", "access_status"}

  const WRITE_ACTIONS: set<string> := {"set", "clear", "lock", "unlock", "extend", "shutdown", "message"}

  predicate SupportedVersion(v: int) {
    v == PROTOCOL_VERSION
  }

  // ------------------------------------------------------------------------------------------
  // Rendering scalars
  // ------------------------------------------------------------------------------------------

  function PyStr(v: Value): string {
    match v
    case Null => "None"
    case Bool(b) => if b then "True" else "False"
    case Int(n) => FormatInt(n)
    case Str(s) => s
  }

  function HexChar(d: nat): char
    requires d < 16
  {
    if d < 10 then (d + '0' as int) as char else (d - 10 + 'a' as int) as char
  }

  function ReprChar(c: char, quote: char): string {
    if c == '\\' then "\\\\"
    else if c == '\n' then "\\n"
    else if c == '\r' then "\\r"
    else if c == '\t' then "\\t"
    else if c == quote then ['\\', c]
    else if c as int < 0x20 || c as int == 0x7f then ['\\', 'x', HexChar(c as int / 16), HexChar(c as int % 16)]
    else [c]
  }

  function PyRepr(v: Value): string {
    if !v.Str? then PyStr(v)
    else
      var quote := if '\'' in v.s && '"' !in v.s then '"' else '\'';
      [quote] + Utf8.MapBytes(v.s, c => ReprChar(c, quote)) + [quote]
  }

  predicate PyTruthy(v: Value) {
    match v
    case Null => false
    case Bool(b) => b
    case Int(n) => n != 0
    case Str(s) => s != ""
  }

  /** The whitespace that Python's str.strip removes, as UTF-8 characters. */
  predicate IsSpace(c: string) {
    || (|c| == 1 && (9 <= c[0] as int <= 13 || 0x1c <= c[0] as int <= 0x20))
    || c == Utf8.Encode(0x85) || c == Utf8.Encode(0xA0) || c == Utf8.Encode(0x1680)
    || (exists cp: nat | 0x2000 <= cp <= 0x200A :: c == Utf8.Encode(cp))
    || c == Utf8.Encode(0x2028) || c == Utf8.Encode(0x2029) || c == Utf8.Encode(0x202F)
    || c == Utf8.Encode(0x205F) || c == Utf8.Encode(0x3000)
  }

  function TrimLeft(s: string): string
    decreases |s|
  {
    var n := Utf8.HeadLen(s);
    if n > 0 && IsSpace(s[..n]) then TrimLeft(s[n..]) else s
  }

  function TrimRight(s: string): string
    decreases |s|
  {
    var n := Utf8.HeadLen(s);
    if n == 0 then s
    else
      var rest := TrimRight(s[n..]);
      if rest == "" && IsSpace(s[..n]) then "" else s[..n] + rest
  }

  /** A whole-number request field: an integer or a decimal string. */
  function ParseInt(raw: Value, reqID: Option<string>): Result<int, ProtocolError> {
    var n :- match raw
      case Int(n) => Ok(n)
      case Str(s) =>
        (var text := TrimRight(TrimLeft(s));
        var digits := TrimSigns(text);
        if |text| - |digits| > 1 || !AllDigits(digits) then
          Err(ProtocolError(INVALID_VALUE, "expected a number", reqID))
        else
          var n := SignedValue(text);
          if MIN_INT64 <= n <= MAX_INT64 then Ok(n)
          else Err(ProtocolError(INVALID_VALUE, "number out of range", reqID)))
      case _ => Err(ProtocolError(INVALID_VALUE, "expected a number", reqID));
    if n > MAX_PARSED_INT || n < -MAX_PARSED_INT then
      Err(ProtocolError(INVALID_VALUE, "number out of range", reqID))
    else Ok(n)
  }

  // ------------------------------------------------------------------------------------------
  // Fields of a frame
  // ------------------------------------------------------------------------------------------

  /** The last node of that name: later duplicates win. */
  function LastNode(nodes: seq<Node>, name: string): Option<Node> {
    if nodes == [] then None
    else if nodes[|nodes| - 1].name == name then Some(nodes[|nodes| - 1])
    else LastNode(nodes[..|nodes| - 1], name)
  }

  function Field(nodes: seq<Node>, name: string): Value {
    match LastNode(nodes, name)
    case None => Null
    case Some(n) => n.Arg()
  }

  /** The first auth node, which is split off for verification. */
  function FirstAuth(nodes: seq<Node>): Option<Node> {
    if nodes == [] then None
    else if nodes[0].name == "auth" then Some(nodes[0])
    else FirstAuth(nodes[1..])
  }

  /** The nodes without the first auth node: what the signature covers. */
  function Signed(nodes: seq<Node>): seq<Node> {
    if nodes == [] then []
    else if nodes[0].name == "auth" then nodes[1..]
    else [nodes[0]] + Signed(nodes[1..])
  }

  /** The nodes without any auth node. */
  function NonAuth(nodes: seq<Node>): seq<Node> {
    if nodes == [] then []
    else if nodes[0].name == "auth" then NonAuth(nodes[1..])
    else [nodes[0]] + NonAuth(nodes[1..])
  }

  method SplitAuth(nodes: seq<Node>) returns (auth: Option<Node>, rest: seq<Node>)
    ensures auth == FirstAuth(nodes) && rest == Signed(nodes)
  {
    hide FirstAuth, Signed;
    auth, rest := None, [];
    assert nodes[0..] == nodes;
    for i := 0 to |nodes|
      invariant auth.Some? ==> auth == FirstAuth(nodes) && rest + nodes[i..] == Signed(nodes)
      invariant auth.None? ==> FirstAuth(nodes) == FirstAuth(nodes[i..]) && Signed(nodes) == rest + Signed(nodes[i..])
    {
      SplitStep(nodes[i..]);
      assert nodes[i..][1..] == nodes[i + 1..];
      if nodes[i].name == "auth" && auth.None? {
        auth := Some(nodes[i]);
      } else {
        rest := rest + [nodes[i]];
      }
    }
    SplitNothing();
  }

  lemma SplitStep(nodes: seq<Node>)
    requires nodes != []
    ensures nodes[0].name == "auth" ==> FirstAuth(nodes) == Some(nodes[0]) && Signed(nodes) == nodes[1..]
    ensures nodes[0].name != "auth" ==>
              FirstAuth(nodes) == FirstAuth(nodes[1..]) && Signed(nodes) == [nodes[0]] + Signed(nodes[1..])
  {}

  lemma SplitNothing()
    ensures FirstAuth([]) == None && Signed([]) == []
  {}

  method LastFields(nodes: seq<Node>) returns (m: map<string, Value>)
    ensures forall name :: (if name in m then m[name] else Null) == Field(nodes, name)
    ensures forall name :: name in m <==> LastNode(nodes, name).Some?
  {
    m := map[];
    for i := 0 to |nodes|
      invariant forall name :: (if name in m then m[name] else Null) == Field(nodes[..i], name)
      invariant forall name :: name in m <==> LastNode(nodes[..i], name).Some?
    {
      assert nodes[..i + 1][..i] == nodes[..i] && nodes[..i + 1][i] == nodes[i];
      m := m[nodes[i].name := nodes[i].Arg()];
    }
    assert nodes[..|nodes|] == nodes;
  }

  lemma {:induction false} LastNodeAppend(a: seq<Node>, b: seq<Node>, name: string)
    ensures LastNode(a + b, name) == if LastNode(b, name).Some? then LastNode(b, name) else LastNode(a, name)
    decreases |b|
  {
    if b == [] {
      assert a + b == a;
    } else {
      LastNodeAppend(a, b[..|b| - 1], name);
      assert (a + b)[..|a + b| - 1] == a + b[..|b| - 1];
    }
  }

  /** Dropping auth nodes, one or all, changes no other field. */
  lemma {:induction false} FieldsAgree(nodes: seq<Node>, name: string)
    requires name != "auth"
    ensures LastNode(NonAuth(nodes), name) == LastNode(nodes, name)
    ensures LastNode(Signed(nodes), name) == LastNode(nodes, name)
  {
    if nodes != [] {
      FieldsAgree(nodes[1..], name);
      LastNodeAppend([nodes[0]], nodes[1..], name);
      LastNodeAppend([nodes[0]], NonAuth(nodes[1..]), name);
      LastNodeAppend([nodes[0]], Signed(nodes[1..]), name);
      assert [nodes[0]] + nodes[1..] == nodes;
      assert [nodes[0]][..0] == [];
    }
  }

  // ------------------------------------------------------------------------------------------
  // Authentication
  // ------------------------------------------------------------------------------------------

  function AuthNode(signed: seq<Node>, mac: Mac, secret: string): Node {
    Block("auth",
          [N0("algorithm", Str("hmac-sha256")),
           N0("key_id", Str("kid-pc-monitor-shared-secret")),
           N0("signature", Str(mac(secret, Serialize(signed))))])
  }

  predicate IsValidNonce(v: Value) {
    v.Str? && |v.s| >= NONCE_MIN_HEX && forall i :: 0 <= i < |v.s| ==> IsHex(v.s[i])
  }

  predicate TimestampInWindow(ts: int, now: int) {
    now - TIMESTAMP_WINDOW <= ts <= now + TIMESTAMP_WINDOW
  }

  function OptStr(v: Value): Option<string> {
    if v.Null? then None else Some(PyStr(v))
  }

  function VerifyFrame(nodes: seq<Node>, mac: Mac, secret: string, reqID: Option<string>, now: int)
    : (r: Result<Option<string>, ProtocolError>)
    ensures r.Ok? ==> Field(Signed(nodes), "timestamp").Int? && Field(Signed(nodes), "nonce").Str?
  {
    var rest := Signed(nodes);
    match FirstAuth(nodes)
    case None => Err(ProtocolError(AUTHENTICATION_REQUIRED, "missing auth block", reqID))
    case Some(auth) =>
      var timestamp, nonce := Field(rest, "timestamp"), Field(rest, "nonce");
      if timestamp.Null? then Err(ProtocolError(AUTHENTICATION_REQUIRED, "missing timestamp", reqID))
      else if nonce.Null? then Err(ProtocolError(AUTHENTICATION_REQUIRED, "missing nonce", reqID))
      else if !timestamp.Int? then Err(ProtocolError(INVALID_REQUEST, "timestamp must be an integer", reqID))
      else if !IsValidNonce(nonce) then Err(ProtocolError(INVALID_REQUEST, "nonce must be hex randomness", reqID))
      else
        var signature := Field(auth.children, "signature");
        if signature.Null? then Err(ProtocolError(AUTHENTICATION_REQUIRED, "missing signature", reqID))
        else if mac(secret, Serialize(rest)) != PyStr(signature) then
          Err(ProtocolError(AUTHENTICATION_FAILED, "signature did not verify.\n", reqID))
        else if !TimestampInWindow(timestamp.n, now) then
          Err(ProtocolError(STALE_TIMESTAMP, "timestamp outside allowed window", reqID))
        else Ok(OptStr(Field(rest, "name")))
  }

  // ------------------------------------------------------------------------------------------
  // Requests
  // ------------------------------------------------------------------------------------------

  /** Empty strings and zeros mean "absent", as they do in the source. */
  datatype RequestParams = RequestParams(
    action: string, secret: string, variable: string, val: Value, reqID: string, name: string,
    timestamp: int, nonce: string, version: int, tail: int)

  function OptNode(present: bool, name: string, v: Value): seq<Node> {
    if present then [N0(name, v)] else []
  }

  function One(name: string, v: Value): seq<Node> {
    [N0(name, v)]
  }

  function RequestNodes(p: RequestParams, ts: int, nonce: string): seq<Node> {
    One("v", Int(PROTOCOL_VERSION))
    + OptNode(p.reqID != "", "id", Str(p.reqID))
    + OptNode(p.name != "", "name", Str(p.name))
    + One("timestamp", Int(ts)) + One("nonce", Str(nonce)) + One("action", Str(p.action))
    + OptNode(p.variable != "", "var", Str(p.variable))
    + OptNode(!p.val.Null?, "val", p.val)
    + OptNode(p.tail != 0, "tail", Int(p.tail))
  }

  function EnvelopeTime(ts: int, now: int): int {
    if ts == 0 then now else ts
  }

  function EnvelopeNonce(nonce: string, newNonce: string): string {
    if nonce == "" then newNonce else nonce
  }

  function SignAndSerialize(nodes: seq<Node>, mac: Mac, secret: string): string {
    Serialize(nodes + [AuthNode(nodes, mac, secret)])
  }

  /** None for a version this package does not speak. */
  function BuildRequest(p: RequestParams, mac: Mac, now: int, newNonce: string): Option<string> {
    if p.version != 0 && !SupportedVersion(p.version) then None
    else
      Some(SignAndSerialize(
             RequestNodes(p, EnvelopeTime(p.timestamp, now), EnvelopeNonce(p.nonce, newNonce)), mac, p.secret))
  }

  datatype Request = Request(
    version: int, id: Option<string>, action: string, variable: Option<string>, val: Value,
    name: Option<string>, timestamp: int, nonce: string, tail: Option<int>)

  /** The checks that follow authentication: action, destination, variable, value and tail. */
  function CheckRequest(fields: seq<Node>, name: Option<string>, hostname: string, version: int): Result<Request, ProtocolError>
    requires Field(fields, "timestamp").Int? && Field(fields, "nonce").Str?
  {
    var reqID := OptStr(Field(fields, "id"));
    var rawAction := Field(fields, "action");
    if !rawAction.Str? || rawAction.s !in ACTIONS then
      Err(ProtocolError(UNKNOWN_ACTION, "unknown action: " + PyRepr(rawAction), reqID))
    else
      var action := rawAction.s;
      if name.Some? && name.value != hostname then
        Err(ProtocolError(AUTHENTICATION_FAILED, "frame addressed to a different agent", reqID))
      else if action in WRITE_ACTIONS && name.None? then
        Err(ProtocolError(AUTHENTICATION_REQUIRED, action + " requires a name " + "identifying the target agent", reqID))
      else
        var variable := OptStr(Field(fields, "var"));
        var val := Field(fields, "val");
        var _ :- CheckOperands(action, variable, val, reqID);
        var tail :- CheckTail(Field(fields, "tail"), reqID);
        Ok(Request(version, reqID, action, variable, val, name,
                   Field(fields, "timestamp").n, Field(fields, "nonce").s, tail))
  }

  function CheckOperands(action: string, variable: Option<string>, val: Value, reqID: Option<string>)
    : Result<(), ProtocolError>
  {
    if action == "get" then
      if variable.None? then Err(ProtocolError(INVALID_REQUEST, "get requires a variable", reqID))
      else if variable.value != "settings" && variable.value !in VARIABLES then
        Err(ProtocolError(UNKNOWN_VARIABLE, "unknown variable: " + variable.value, reqID))
      else Ok(())
    else if action == "set" || action == "clear" then
      if variable.None? then Err(ProtocolError(INVALID_REQUEST, action + " requires a variable", reqID))
      else if variable.value !in VARIABLES then
        Err(ProtocolError(UNKNOWN_VARIABLE, "unknown variable: " + variable.value, reqID))
      else if action == "set" && val.Null? then
        Err(ProtocolError(INVALID_REQUEST, "set requires a value", reqID))
      else Ok(())
    else if action == "extend" && val.Null? then
      Err(ProtocolError(INVALID_REQUEST, "extend requires minutes", reqID))
    else if action == "message" && val.Null? then
      Err(ProtocolError(INVALID_REQUEST, "message requires text", reqID))
    else Ok(())
  }

  function CheckTail(raw: Value, reqID: Option<string>): Result<Option<int>, ProtocolError> {
    if raw.Null? then Ok(None)
    else
      var n :- ParseInt(raw, reqID);
      if n < 1 then Err(ProtocolError(INVALID_VALUE, "tail must be at least 1", reqID))
      else if n > MAX_LOG_TAIL_LINES then Err(ProtocolError(INVALID_VALUE, "tail must be at most 5000", reqID))
      else Ok(Some(n))
  }

  function CheckVersion(raw: Value, reqID: Option<string>): Result<int, ProtocolError> {
    if raw.Null? then Err(ProtocolError(INVALID_REQUEST, "missing protocol version", reqID))
    else if !raw.Int? then Err(ProtocolError(INVALID_REQUEST, "protocol version must be an integer", reqID))
    else if !SupportedVersion(raw.n) then
      Err(ProtocolError(UNSUPPORTED_VERSION, "protocol version " + FormatInt(raw.n) + " is not supported", reqID))
    else Ok(raw.n)
  }

  function ParseRequest(body: string, mac: Mac, secret: string, hostname: string, now: int)
    : Result<Request, ProtocolError>
  {
    match Parse(body)
    case Err(_) => Err(ProtocolError(INVALID_REQUEST, "could not parse request", None))
    case Ok(nodes) =>
      var fields := NonAuth(nodes);
      var reqID := OptStr(Field(fields, "id"));
      var version :- CheckVersion(Field(fields, "v"), reqID);
      var name :- VerifyFrame(nodes, mac, secret, reqID, now);
      FieldsAgree(nodes, "timestamp");
      FieldsAgree(nodes, "nonce");
      CheckRequest(fields, name, hostname, version)
  }

  // ------------------------------------------------------------------------------------------
  // Responses
  // ------------------------------------------------------------------------------------------

  function OKContent(result: Value): seq<Node> {
    [N0("status", Str("ok")), N0("result", result)]
  }

  function BlockContent(block: Node): seq<Node> {
    [N0("status", Str("ok")), block]
  }

  function ErrorContent(code: string, message: string): seq<Node> {
    [N0("status", Str("failure")),
     Block("error", [N0("code", Str(code)), N0("message", Str(message))])]
  }

  datatype ResponseParams = ResponseParams(
    secret: string, hostname: string, reqID: string, timestamp: int, nonce: string, version: int)

  function ResponseNodes(content: seq<Node>, p: ResponseParams, ts: int, nonce: string): seq<Node> {
    One("v", Int(PROTOCOL_VERSION))
    + OptNode(p.reqID != "", "id", Str(p.reqID))
    + One("name", Str(p.hostname)) + One("timestamp", Int(ts)) + One("nonce", Str(nonce))
    + content
  }

  function SignResponse(content: seq<Node>, p: ResponseParams, mac: Mac, now: int, newNonce: string): Option<string> {
    if p.version != 0 && !SupportedVersion(p.version) then None
    else
      Some(SignAndSerialize(
             ResponseNodes(content, p, EnvelopeTime(p.timestamp, now), EnvelopeNonce(p.nonce, newNonce)), mac, p.secret))
  }

  datatype LogsResult = LogsResult(path: string, truncated: bool, lines: seq<string>)

  datatype Response = Response(
    version: int, id: Option<string>, status: string, result: Value, errorCode: Value,
    errorMessage: Value, settings: Option<map<string, Value>>, logs: Option<LogsResult>,
    name: Option<string>, timestamp: int, nonce: string)

  /** Node.ChildMap: children's names to their first arguments, the last duplicate winning. */
  function ChildMap(children: seq<Node>): (m: map<string, Value>)
    ensures forall name :: name in m <==> LastNode(children, name).Some?
    ensures forall name :: name in m ==> m[name] == Field(children, name)
  {
    if children == [] then map[]
    else
      var last := children[|children| - 1];
      ChildMap(children[..|children| - 1])[last.name := last.Arg()]
  }

  function PyStrs(vs: seq<Value>): (r: seq<string>)
    ensures |r| == |vs| && forall i :: 0 <= i < |vs| ==> r[i] == PyStr(vs[i])
  {
    seq(|vs|, i requires 0 <= i < |vs| => PyStr(vs[i]))
  }

  function FirstNode(nodes: seq<Node>, name: string): Option<Node> {
    if nodes == [] then None
    else if nodes[0].name == name then Some(nodes[0])
    else FirstNode(nodes[1..], name)
  }

  function ReadLogs(n: Node): LogsResult {
    var fields := ChildMap(n.children);
    LogsResult(
      if "path" in fields then PyStr(fields["path"]) else "",
      PyTruthy(Field(n.children, "truncated")),
      match FirstNode(n.children, "lines")
      case None => []
      case Some(lines) => PyStrs(lines.args))
  }

  /** The response a client reads out of authenticated fields. */
  function ReadResponse(fields: seq<Node>, version: int, name: Option<string>): Response {
    var error := LastNode(fields, "error");
    var settings := LastNode(fields, "settings");
    var logs := LastNode(fields, "logs");
    var status := LastNode(fields, "status");
    var ts, nonce := Field(fields, "timestamp"), Field(fields, "nonce");
    Response(
      version,
      OptStr(Field(fields, "id")),
      if status.Some? then PyStr(status.value.Arg()) else "failure",
      Field(fields, "result"),
      if error.Some? then Field(error.value.children, "code") else Null,
      if error.Some? then Field(error.value.children, "message") else Null,
      if settings.Some? then Some(ChildMap(settings.value.children)) else None,
      if logs.Some? then Some(ReadLogs(logs.value)) else None,
      name,
      if ts.Int? then ts.n else 0,
      if nonce.Str? then nonce.s else "")
  }

  /** expectedName "" and expectedVersion 0 mean no expectation. */
  function ParseResponse(body: string, mac: Mac, secret: string, expectedName: string, expectedVersion: int, now: int)
    : Result<Response, ProtocolError>
  {
    match Parse(body)
    case Err(_) => Err(ProtocolError(INVALID_REQUEST, "malformed document", None))
    case Ok(nodes) =>
      var fields := NonAuth(nodes);
      var reqID := OptStr(Field(fields, "id"));
      var rawVersion := Field(fields, "v");
      if !rawVersion.Int? || !SupportedVersion(rawVersion.n) then
        Err(ProtocolError(UNSUPPORTED_VERSION, "protocol version " + PyRepr(rawVersion) + " is not supported", reqID))
      else if expectedVersion != 0 && rawVersion.n != expectedVersion then
        Err(ProtocolError(UNSUPPORTED_VERSION,
                          "expected protocol version " + FormatInt(expectedVersion) + ", got " + FormatInt(rawVersion.n),
                          reqID))
      else
        var name :- VerifyFrame(nodes, mac, secret, reqID, now);
        if expectedName != "" && name != Some(expectedName) then
          Err(ProtocolError(AUTHENTICATION_FAILED, "response came from an unexpected agent", reqID))
        else Ok(ReadResponse(fields, rawVersion.n, name))
  }

  // ------------------------------------------------------------------------------------------
  // The agent's entry point
  // ------------------------------------------------------------------------------------------

  /** What the dispatcher makes of a request: content, a protocol error, or any other error. */
  datatype Outcome = Content(nodes: seq<Node>) | Refused(error: ProtocolError) | Failed(message: string)

  function PeekVersion(body: string): int {
    match Parse(body)
    case Err(_) => PROTOCOL_VERSION
    case Ok(nodes) => PeekNodes(nodes)
  }

  function PeekNodes(nodes: seq<Node>): (v: int)
    ensures SupportedVersion(v)
  {
    if nodes == [] then PROTOCOL_VERSION
    else if nodes[0].name == "v" && nodes[0].args != [] && nodes[0].args[0].Int? && SupportedVersion(nodes[0].args[0].n)
    then nodes[0].args[0].n
    else PeekNodes(nodes[1..])
  }

  /** The content and request id that answer a body. */
  function Answer(body: string, mac: Mac, secret: string, hostname: string, now: int, dispatch: Request -> Outcome)
    : (seq<Node>, Option<string>)
  {
    match ParseRequest(body, mac, secret, hostname, now)
    case Err(e) => (ErrorContent(e.code, e.message), e.reqID)
    case Ok(req) =>
      match dispatch(req)
      case Content(nodes) => (nodes, req.id)
      case Refused(e) => (ErrorContent(e.code, e.message), if e.reqID.Some? then e.reqID else req.id)
      case Failed(message) => (ErrorContent(INTERNAL_ERROR, message), req.id)
  }

  function AnswerVersion(body: string, mac: Mac, secret: string, hostname: string, now: int): (v: int)
    ensures SupportedVersion(v)
  {
    match ParseRequest(body, mac, secret, hostname, now)
    case Err(_) => PeekVersion(body)
    case Ok(req) => req.version
  }

  /** Never fails: the version answered at is always supported, so signing never refuses. */
  function HandleRequest(body: string, mac: Mac, secret: string, hostname: string, now: int,
                         dispatch: Request -> Outcome, signNow: int, newNonce: string): string
  {
    var (content, reqID) := Answer(body, mac, secret, hostname, now, dispatch);
    var version := AnswerVersion(body, mac, secret, hostname, now);
    var params := ResponseParams(secret, hostname, if reqID.Some? then reqID.value else "", 0, "", version);
    SignResponse(content, params, mac, signNow, newNonce).value
  }
}
