/**
  The agent answers every body whatever with a reply its panel accepts
  (go/protocol/server.go, protocol.go).
  */
module Exchange {
  import opened Text
  import opened Wrappers
  import opened Kdl
  import opened KdlRoundTrip
  import opened KdlParsed
  import opened Protocol
  import opened Envelope
  import Utf8

  // ------------------------------------------------------------------------------------------
  // Error texts are valid UTF-8, whatever the body said
  // ------------------------------------------------------------------------------------------

  predicate GoodID(id: Option<string>) {
    id.Some? ==> Utf8.Valid(id.value)
  }

  predicate GoodError(e: ProtocolError) {
    Utf8.Valid(e.code) && Utf8.Valid(e.message) && GoodID(e.reqID)
  }

  lemma {:induction false} LastReadable(nodes: seq<Node>, name: string)
    requires Readable(nodes)
    ensures LastNode(nodes, name).Some? ==> ReadableNode(LastNode(nodes, name).value)
  {
    if nodes != [] {
      InitReadable(nodes);
      LastReadable(nodes[..|nodes| - 1], name);
    }
  }

  lemma {:induction false} InitReadable(nodes: seq<Node>)
    requires Readable(nodes) && nodes != []
    ensures Readable(nodes[..|nodes| - 1]) && ReadableNode(nodes[|nodes| - 1])
  {
    if |nodes| > 1 {
      InitReadable(nodes[1..]);
      assert nodes[..|nodes| - 1][1..] == nodes[1..][..|nodes| - 2];
    }
  }

  lemma {:induction false} NonAuthReadable(nodes: seq<Node>)
    requires Readable(nodes)
    ensures Readable(NonAuth(nodes))
  {
    if nodes != [] {
      NonAuthReadable(nodes[1..]);
      assert nodes[0].name != "auth" ==> NonAuth(nodes)[1..] == NonAuth(nodes[1..]);
    }
  }

  lemma FieldPrintable(nodes: seq<Node>, name: string)
    requires Readable(nodes)
    ensures Printable(Field(nodes, name))
    ensures GoodID(OptStr(Field(nodes, name)))
  {
    hide LastNode, Readable, Utf8.Valid;
    LastReadable(nodes, name);
    PyStrValid(Field(nodes, name));
  }

  lemma PyStrValid(v: Value)
    requires Printable(v)
    ensures Utf8.Valid(PyStr(v))
  {
    hide Utf8.Valid;
    match v {
      case Null => Utf8.AsciiValid("None");
      case Bool(b) => Utf8.AsciiValid(PyStr(v));
      case Int(n) => FormatValueValid(v);
      case Str(s) =>
    }
  }

  lemma PyReprValid(v: Value)
    requires Printable(v)
    ensures Utf8.Valid(PyRepr(v))
  {
    hide Utf8.Valid;
    PyStrValid(v);
    if v.Str? {
      var quote := if '\'' in v.s && '"' !in v.s then '"' else '\'';
      var f := c => ReprChar(c, quote);
      Utf8.MapBytesValid(v.s, f);
      Utf8.AsciiValid([quote]);
      Utf8.ValidAppend([quote], Utf8.MapBytes(v.s, f));
      Utf8.ValidAppend([quote] + Utf8.MapBytes(v.s, f), [quote]);
    }
  }

  lemma GoodText(a: string, b: string)
    requires Utf8.Ascii(a) && Utf8.Valid(b)
    ensures Utf8.Valid(a + b)
  {
    Utf8.AsciiValid(a);
    Utf8.ValidAppend(a, b);
  }

  lemma GoodSuffix(a: string, b: string)
    requires Utf8.Valid(a) && Utf8.Ascii(b)
    ensures Utf8.Valid(a + b)
  {
    Utf8.AsciiValid(b);
    Utf8.ValidAppend(a, b);
  }

  // The fixed wordings.

  lemma CodesValid1()
    ensures Utf8.Valid(INVALID_REQUEST) && Utf8.Valid(UNSUPPORTED_VERSION) && Utf8.Valid(UNKNOWN_ACTION)
    ensures Utf8.Valid(UNKNOWN_VARIABLE) && Utf8.Valid(INVALID_VALUE)
  {
    hide Utf8.Valid;
    Utf8.AsciiValid(INVALID_REQUEST);
    Utf8.AsciiValid(UNSUPPORTED_VERSION);
    Utf8.AsciiValid(UNKNOWN_ACTION);
    Utf8.AsciiValid(UNKNOWN_VARIABLE);
    Utf8.AsciiValid(INVALID_VALUE);
  }

  lemma CodesValid2()
    ensures Utf8.Valid(INTERNAL_ERROR)
    ensures Utf8.Valid(AUTHENTICATION_REQUIRED) && Utf8.Valid(AUTHENTICATION_FAILED) && Utf8.Valid(STALE_TIMESTAMP)
  {
    hide Utf8.Valid;
    Utf8.AsciiValid(INTERNAL_ERROR);
    Utf8.AsciiValid(AUTHENTICATION_REQUIRED);
    Utf8.AsciiValid(AUTHENTICATION_FAILED);
    Utf8.AsciiValid(STALE_TIMESTAMP);
  }

  lemma CodesValid()
    ensures Utf8.Valid(INVALID_REQUEST) && Utf8.Valid(UNSUPPORTED_VERSION) && Utf8.Valid(UNKNOWN_ACTION)
    ensures Utf8.Valid(UNKNOWN_VARIABLE) && Utf8.Valid(INVALID_VALUE) && Utf8.Valid(INTERNAL_ERROR)
    ensures Utf8.Valid(AUTHENTICATION_REQUIRED) && Utf8.Valid(AUTHENTICATION_FAILED) && Utf8.Valid(STALE_TIMESTAMP)
  {
    hide Utf8.Valid;
    CodesValid1();
    CodesValid2();
  }

  lemma VersionWords()
    ensures Utf8.Valid("missing protocol version")
    ensures Utf8.Valid("protocol version must be an integer")
  {
    hide Utf8.Valid;
    Utf8.AsciiValid("missing protocol version");
    Utf8.AsciiValid("protocol version must be an integer");
  }

  lemma MissingWords()
    ensures Utf8.Valid("missing auth block")
    ensures Utf8.Valid("missing timestamp")
    ensures Utf8.Valid("missing nonce")
    ensures Utf8.Valid("missing signature")
  {
    hide Utf8.Valid;
    Utf8.AsciiValid("missing auth block");
    Utf8.AsciiValid("missing timestamp");
    Utf8.AsciiValid("missing nonce");
    Utf8.AsciiValid("missing signature");
  }

  lemma MalformedWords()
    ensures Utf8.Valid("timestamp must be an integer")
    ensures Utf8.Valid("nonce must be hex randomness")
  {
    hide Utf8.Valid;
    Utf8.AsciiValid("timestamp must be an integer");
    Utf8.AsciiValid("nonce must be hex randomness");
  }

  lemma RejectedWords()
    ensures Utf8.Valid("signature did not verify.\n")
    ensures Utf8.Valid("timestamp outside allowed window")
  {
    hide Utf8.Valid;
    Utf8.AsciiValid("signature did not verify.\n");
    Utf8.AsciiValid("timestamp outside allowed window");
  }

  lemma OperandWords()
    ensures Utf8.Valid("get requires a variable")
    ensures Utf8.Valid("set requires a value")
    ensures Utf8.Valid("extend requires minutes")
    ensures Utf8.Valid("message requires text")
  {
    hide Utf8.Valid;
    Utf8.AsciiValid("get requires a variable");
    Utf8.AsciiValid("set requires a value");
    Utf8.AsciiValid("extend requires minutes");
    Utf8.AsciiValid("message requires text");
  }

  lemma TailWords()
    ensures Utf8.Valid("expected a number")
    ensures Utf8.Valid("number out of range")
    ensures Utf8.Valid("tail must be at least 1")
    ensures Utf8.Valid("tail must be at most 5000")
  {
    hide Utf8.Valid;
    Utf8.AsciiValid("expected a number");
    Utf8.AsciiValid("number out of range");
    Utf8.AsciiValid("tail must be at least 1");
    Utf8.AsciiValid("tail must be at most 5000");
  }

  lemma VersionErrorGood(raw: Value, reqID: Option<string>)
    requires Printable(raw) && GoodID(reqID)
    ensures CheckVersion(raw, reqID).Err? ==> GoodError(CheckVersion(raw, reqID).error)
  {
    hide Utf8.Valid;
    CodesValid();
    VersionWords();
    if raw.Int? {
      UnsupportedWords(raw);
    }
  }

  lemma UnsupportedWords(raw: Value)
    requires raw.Int? && Printable(raw)
    ensures Utf8.Valid("protocol version " + FormatInt(raw.n) + " is not supported")
  {
    hide Utf8.Valid, FormatInt;
    NumeralValid(raw);
    FixedWords();
    GoodText("protocol version ", FormatInt(raw.n));
    GoodSuffix("protocol version " + FormatInt(raw.n), " is not supported");
  }

  lemma NumeralValid(raw: Value)
    requires raw.Int? && Printable(raw)
    ensures Utf8.Valid(FormatInt(raw.n))
  {
    hide Utf8.Valid;
    FormatValueValid(raw);
  }

  lemma FixedWords()
    ensures Utf8.Ascii("protocol version ") && Utf8.Ascii(" is not supported")
    ensures Utf8.Ascii("unknown action: ")
  {}

  lemma TargetWords()
    ensures Utf8.Ascii(" requires a name ") && Utf8.Ascii("identifying the target agent")
  {}

  lemma VerifyErrorGood(nodes: seq<Node>, mac: Mac, secret: string, reqID: Option<string>, now: int)
    requires GoodID(reqID)
    ensures var r := VerifyFrame(nodes, mac, secret, reqID, now); r.Err? ==> GoodError(r.error)
  {
    hide Utf8.Valid, LastNode, Signed, Serialize, FirstAuth, IsValidNonce;
    CodesValid();
    MissingWords();
    MalformedWords();
    RejectedWords();
  }

  lemma OperandErrorGood(action: string, variable: Option<string>, val: Value, reqID: Option<string>)
    requires Utf8.Valid(action) && GoodID(variable) && GoodID(reqID)
    ensures var r := CheckOperands(action, variable, val, reqID); r.Err? ==> GoodError(r.error)
  {
    hide Utf8.Valid;
    CodesValid();
    OperandWords();
    VariableWords(action, variable);
  }

  lemma VariableWords(action: string, variable: Option<string>)
    requires Utf8.Valid(action) && GoodID(variable)
    ensures Utf8.Valid(action + " requires a variable")
    ensures variable.Some? ==> Utf8.Valid("unknown variable: " + variable.value)
  {
    hide Utf8.Valid;
    GoodSuffix(action, " requires a variable");
    if variable.Some? {
      GoodText("unknown variable: ", variable.value);
    }
  }

  lemma TailErrorGood(raw: Value, reqID: Option<string>)
    requires GoodID(reqID)
    ensures CheckTail(raw, reqID).Err? ==> GoodError(CheckTail(raw, reqID).error)
  {
    hide Utf8.Valid, TrimLeft, TrimRight, TrimSigns, SignedValue;
    CodesValid();
    TailWords();
  }

  lemma ActionWords(action: Value)
    requires Printable(action)
    ensures Utf8.Valid("unknown action: " + PyRepr(action))
    ensures Utf8.Valid("frame addressed to a different agent")
    ensures action.Str? ==> Utf8.Valid(action.s + " requires a name " + "identifying the target agent")
  {
    hide Utf8.Valid, PyRepr;
    PyReprValid(action);
    FixedWords();
    TargetWords();
    GoodText("unknown action: ", PyRepr(action));
    Utf8.AsciiValid("frame addressed to a different agent");
    if action.Str? {
      GoodSuffix(action.s, " requires a name ");
      GoodSuffix(action.s + " requires a name ", "identifying the target agent");
    }
  }

  lemma CheckErrorGood(fields: seq<Node>, name: Option<string>, hostname: string, version: int)
    requires Field(fields, "timestamp").Int? && Field(fields, "nonce").Str?
    requires Readable(fields)
    ensures var r := CheckRequest(fields, name, hostname, version);
            if r.Err? then GoodError(r.error) else GoodID(r.value.id) && SupportedVersion(version) ==> r.value.version == version
  {
    hide Utf8.Valid, LastNode, Readable, PyRepr, CheckOperands, CheckTail, PyStr;
    CodesValid();
    FieldPrintable(fields, "id");
    FieldPrintable(fields, "action");
    FieldPrintable(fields, "var");
    var reqID, rawAction := OptStr(Field(fields, "id")), Field(fields, "action");
    ActionWords(rawAction);
    if rawAction.Str? {
      OperandErrorGood(rawAction.s, OptStr(Field(fields, "var")), Field(fields, "val"), reqID);
    }
    TailErrorGood(Field(fields, "tail"), reqID);
  }

  /** Whatever the body, the request id and every word of a refusal can be sent back. */
  lemma RequestErrorGood(body: string, mac: Mac, secret: string, hostname: string, now: int)
    ensures var r := ParseRequest(body, mac, secret, hostname, now);
            if r.Err? then GoodError(r.error) else GoodID(r.value.id)
  {
    hide Utf8.Valid, LastNode, Readable, PyRepr, CheckOperands, CheckTail, PyStr, Parse, NonAuth, Shallow, VerifyFrame, CheckVersion;
    CodesValid();
    Utf8.AsciiValid("could not parse request");
    if Parse(body).Ok? {
      var nodes := Parse(body).value;
      var fields := NonAuth(nodes);
      ParseReadable(body);
      NonAuthReadable(nodes);
      FieldPrintable(fields, "id");
      FieldPrintable(fields, "v");
      var reqID := OptStr(Field(fields, "id"));
      VersionErrorGood(Field(fields, "v"), reqID);
      VerifyErrorGood(nodes, mac, secret, reqID, now);
      FieldsAgree(nodes, "timestamp");
      FieldsAgree(nodes, "nonce");
      var verified := VerifyFrame(nodes, mac, secret, reqID, now);
      var version := CheckVersion(Field(fields, "v"), reqID);
      if version.Ok? && verified.Ok? {
        CheckErrorGood(fields, verified.value, hostname, version.value);
      }
    }
  }

  // ------------------------------------------------------------------------------------------
  // What reaches the dispatcher
  // ------------------------------------------------------------------------------------------

  /** A request as parsing leaves it: known action, checked operands and tail, a name where one is
      needed, and valid text and 64-bit integers throughout. */
  predicate GoodRequest(r: Request) {
    && SupportedVersion(r.version) && r.action in ACTIONS
    && GoodID(r.id) && GoodID(r.variable) && GoodID(r.name)
    && Printable(r.val) && Printable(Int(r.timestamp)) && IsValidNonce(Str(r.nonce))
    && CheckOperands(r.action, r.variable, r.val, r.id).Ok?
    && (r.tail.Some? ==> 1 <= r.tail.value <= MAX_LOG_TAIL_LINES)
    && (r.action in WRITE_ACTIONS ==> r.name.Some?)
  }

  lemma {:induction false} SignedReadable(nodes: seq<Node>)
    requires Readable(nodes)
    ensures Readable(Signed(nodes))
  {
    if nodes != [] && nodes[0].name != "auth" {
      SignedReadable(nodes[1..]);
      assert Signed(nodes)[1..] == Signed(nodes[1..]);
    }
  }

  lemma CheckedRequestParts(fields: seq<Node>, name: Option<string>, hostname: string, version: int)
    requires Field(fields, "timestamp").Int? && Field(fields, "nonce").Str?
    ensures var r := CheckRequest(fields, name, hostname, version);
            r.Ok? ==>
              && r.value.version == version && r.value.action in ACTIONS && r.value.name == name
              && r.value.id == OptStr(Field(fields, "id")) && r.value.variable == OptStr(Field(fields, "var"))
              && r.value.val == Field(fields, "val") && Int(r.value.timestamp) == Field(fields, "timestamp")
              && Str(r.value.nonce) == Field(fields, "nonce")
              && CheckOperands(r.value.action, r.value.variable, r.value.val, r.value.id).Ok?
              && CheckTail(Field(fields, "tail"), r.value.id) == Ok(r.value.tail)
              && (r.value.action in WRITE_ACTIONS ==> name.Some?) && (name.Some? ==> name.value == hostname)
  {
    hide Field, OptStr, PyRepr, CheckOperands, CheckTail;
  }

  lemma TailInRange(raw: Value, reqID: Option<string>)
    ensures var r := CheckTail(raw, reqID); r.Ok? && r.value.Some? ==> 1 <= r.value.value <= MAX_LOG_TAIL_LINES
  {
    hide ParseInt;
  }

  lemma CheckedRequestGood(fields: seq<Node>, name: Option<string>, hostname: string, version: int)
    requires Field(fields, "timestamp").Int? && Field(fields, "nonce").Str? && IsValidNonce(Field(fields, "nonce"))
    requires Readable(fields) && GoodID(name) && SupportedVersion(version)
    ensures var r := CheckRequest(fields, name, hostname, version);
            r.Ok? ==> GoodRequest(r.value) && r.value.name == name && (name.Some? ==> name.value == hostname)
  {
    hide Utf8.Valid, LastNode, Field, Readable, CheckRequest, CheckOperands, CheckTail, OptStr, IsValidNonce;
    CheckedRequestParts(fields, name, hostname, version);
    FieldPrintable(fields, "id");
    FieldPrintable(fields, "var");
    FieldPrintable(fields, "val");
    FieldPrintable(fields, "timestamp");
    TailInRange(Field(fields, "tail"), OptStr(Field(fields, "id")));
  }

  lemma VerifiedNonce(nodes: seq<Node>, mac: Mac, secret: string, reqID: Option<string>, now: int)
    ensures var r := VerifyFrame(nodes, mac, secret, reqID, now);
            r.Ok? ==> IsValidNonce(Field(Signed(nodes), "nonce")) && r.value == OptStr(Field(Signed(nodes), "name"))
  {
    hide Signed, LastNode, FirstAuth, Serialize, IsValidNonce;
  }

  /** Whatever the body, a request that reaches the dispatcher is good, and if it names anyone it names
      this agent. */
  lemma ParsedRequestGood(body: string, mac: Mac, secret: string, hostname: string, now: int)
    ensures var r := ParseRequest(body, mac, secret, hostname, now);
            r.Ok? ==> GoodRequest(r.value) && (r.value.name.Some? ==> r.value.name.value == hostname)
  {
    hide Utf8.Valid, LastNode, Readable, CheckRequest, Parse, NonAuth, Signed, Shallow, VerifyFrame, GoodRequest, IsValidNonce;
    if Parse(body).Ok? {
      var nodes := Parse(body).value;
      var fields := NonAuth(nodes);
      ParseReadable(body);
      NonAuthReadable(nodes);
      SignedReadable(nodes);
      FieldPrintable(Signed(nodes), "name");
      var reqID := OptStr(Field(fields, "id"));
      FieldsAgree(nodes, "timestamp");
      FieldsAgree(nodes, "nonce");
      VerifiedNonce(nodes, mac, secret, reqID, now);
      var verified := VerifyFrame(nodes, mac, secret, reqID, now);
      var version := CheckVersion(Field(fields, "v"), reqID);
      if version.Ok? && verified.Ok? {
        CheckedRequestGood(fields, verified.value, hostname, version.value);
      }
    }
  }

  // ------------------------------------------------------------------------------------------
  // Replies
  // ------------------------------------------------------------------------------------------

  /** Response content: anything that can be sent and leaves the envelope's own names alone. */
  predicate Payload(content: seq<Node>) {
    && Sendable(content)
    && NoneNamed(content, "v") && NoneNamed(content, "id") && NoneNamed(content, "name")
    && NoneNamed(content, "timestamp") && NoneNamed(content, "nonce") && NoneNamed(content, "auth")
  }

  /** What can be sent back. */
  predicate GoodOutcome(o: Outcome) {
    match o
    case Content(nodes) => Payload(nodes)
    case Refused(e) => GoodError(e)
    case Failed(message) => Utf8.Valid(message)
  }

  /** A dispatcher whose outcomes can be sent back, for every request that can reach it. */
  ghost predicate GoodDispatch(dispatch: Request -> Outcome) {
    forall req :: GoodRequest(req) ==> GoodOutcome(dispatch(req))
  }

  lemma ErrorPayload(code: string, message: string)
    requires Utf8.Valid(code) && Utf8.Valid(message)
    ensures Payload(ErrorContent(code, message))
  {
    hide PlainName, PrintableNodes, Shallow, Utf8.Valid;
    EnvelopeNames();
    StatusValid();
    SendableOne("status", Str("failure"));
    SendableOne("code", Str(code));
    SendableOne("message", Str(message));
    SendableAppend(One("code", Str(code)), One("message", Str(message)));
    var children := One("code", Str(code)) + One("message", Str(message));
    assert children == [N0("code", Str(code)), N0("message", Str(message))];
    FlatShallow(children, 1);
    SendableBlock("error", children);
    SendableAppend(One("status", Str("failure")), [Block("error", children)]);
    assert ErrorContent(code, message) == One("status", Str("failure")) + [Block("error", children)];
    DistinctNames();
  }

  lemma StatusValid()
    ensures Utf8.Valid("ok") && Utf8.Valid("failure")
  {
    hide Utf8.Valid;
    Utf8.AsciiValid("ok");
    Utf8.AsciiValid("failure");
  }

  lemma AnswerPayload(body: string, mac: Mac, secret: string, hostname: string, now: int, dispatch: Request -> Outcome)
    requires GoodDispatch(dispatch)
    ensures var (content, id) := Answer(body, mac, secret, hostname, now, dispatch); Payload(content) && GoodID(id)
  {
    hide ParseRequest, Payload, Utf8.Valid, GoodRequest;
    ParsedRequestGood(body, mac, secret, hostname, now);
    RequestErrorGood(body, mac, secret, hostname, now);
    CodesValid();
    match ParseRequest(body, mac, secret, hostname, now) {
      case Err(e) => ErrorPayload(e.code, e.message);
      case Ok(req) =>
        assert GoodOutcome(dispatch(req));
        match dispatch(req) {
          case Content(nodes) =>
          case Refused(e) => ErrorPayload(e.code, e.message);
          case Failed(message) => ErrorPayload(INTERNAL_ERROR, message);
        }
    }
  }

  /** The response that carries the given content, field by field. */
  function Carrying(content: seq<Node>, id: string, hostname: string, ts: int, nonce: string): Response {
    var error := LastNode(content, "error");
    var status := LastNode(content, "status");
    var settings := LastNode(content, "settings");
    var logs := LastNode(content, "logs");
    Response(
      PROTOCOL_VERSION, Present(id),
      if status.Some? then PyStr(status.value.Arg()) else "failure",
      Field(content, "result"),
      if error.Some? then Field(error.value.children, "code") else Null,
      if error.Some? then Field(error.value.children, "message") else Null,
      if settings.Some? then Some(ChildMap(settings.value.children)) else None,
      if logs.Some? then Some(ReadLogs(logs.value)) else None,
      Some(hostname), ts, nonce)
  }

  function ResponseNode(content: seq<Node>, p: ResponseParams, ts: int, nonce: string, name: string): Option<Node> {
    if LastNode(content, name).Some? then LastNode(content, name)
    else if name == "nonce" then Some(N0("nonce", Str(nonce)))
    else if name == "timestamp" then Some(N0("timestamp", Int(ts)))
    else if name == "name" then Some(N0("name", Str(p.hostname)))
    else if p.reqID != "" && name == "id" then Some(N0("id", Str(p.reqID)))
    else if name == "v" then Some(N0("v", Int(PROTOCOL_VERSION)))
    else None
  }

  lemma ResponseLookup(content: seq<Node>, p: ResponseParams, ts: int, nonce: string, name: string)
    ensures LastNode(ResponseNodes(content, p, ts, nonce), name) == ResponseNode(content, p, ts, nonce, name)
  {
    hide LastNode, One, OptNode;
    var a0 := One("v", Int(PROTOCOL_VERSION));
    LastNone(name, Int(PROTOCOL_VERSION), "v");
    LastOpt(a0, p.reqID != "", "id", Str(p.reqID), name);
    var a1 := a0 + OptNode(p.reqID != "", "id", Str(p.reqID));
    LastOne(a1, "name", Str(p.hostname), name);
    var a2 := a1 + One("name", Str(p.hostname));
    LastOne(a2, "timestamp", Int(ts), name);
    var a3 := a2 + One("timestamp", Int(ts));
    LastOne(a3, "nonce", Str(nonce), name);
    LastNodeAppend(a3 + One("nonce", Str(nonce)), content, name);
  }

  lemma {:induction false} Unnamed(nodes: seq<Node>, name: string)
    requires NoneNamed(nodes, name)
    ensures LastNode(nodes, name).None?
  {
    if nodes != [] {
      Unnamed(nodes[..|nodes| - 1], name);
    }
  }

  lemma ResponseFields(content: seq<Node>, p: ResponseParams, ts: int, nonce: string)
    requires Payload(content)
    ensures var nodes := ResponseNodes(content, p, ts, nonce);
            && Field(nodes, "v") == Int(PROTOCOL_VERSION)
            && Field(nodes, "timestamp") == Int(ts) && Field(nodes, "nonce") == Str(nonce)
            && OptStr(Field(nodes, "id")) == Present(p.reqID)
            && Field(nodes, "name") == Str(p.hostname)
            && LastNode(nodes, "auth").None?
            && LastNode(nodes, "status") == LastNode(content, "status")
            && LastNode(nodes, "result") == LastNode(content, "result")
            && LastNode(nodes, "error") == LastNode(content, "error")
            && LastNode(nodes, "settings") == LastNode(content, "settings")
            && LastNode(nodes, "logs") == LastNode(content, "logs")
  {
    hide LastNode, ResponseNodes, Sendable;
    DistinctNames();
    Unnamed(content, "v");
    Unnamed(content, "id");
    Unnamed(content, "name");
    Unnamed(content, "timestamp");
    Unnamed(content, "nonce");
    Unnamed(content, "auth");
    EnvelopeLookups(content, p, ts, nonce);
    PayloadLookups(content, p, ts, nonce);
  }

  lemma EnvelopeLookups(content: seq<Node>, p: ResponseParams, ts: int, nonce: string)
    ensures var nodes := ResponseNodes(content, p, ts, nonce);
            forall name :: name in {"v", "id", "name", "timestamp", "nonce", "auth"} ==>
                             LastNode(nodes, name) == ResponseNode(content, p, ts, nonce, name)
  {
    hide ResponseNodes, ResponseNode, LastNode;
    forall name ensures LastNode(ResponseNodes(content, p, ts, nonce), name) == ResponseNode(content, p, ts, nonce, name) {
      ResponseLookup(content, p, ts, nonce, name);
    }
  }

  lemma PayloadLookups(content: seq<Node>, p: ResponseParams, ts: int, nonce: string)
    ensures var nodes := ResponseNodes(content, p, ts, nonce);
            forall name :: name in {"status", "result", "error", "settings", "logs"} ==>
                             LastNode(nodes, name) == LastNode(content, name)
  {
    hide ResponseNodes, LastNode;
    DistinctNames();
    forall name | name in {"status", "result", "error", "settings", "logs"}
      ensures LastNode(ResponseNodes(content, p, ts, nonce), name) == LastNode(content, name)
    {
      ResponseLookup(content, p, ts, nonce, name);
    }
  }

  lemma ResponseSendable(content: seq<Node>, p: ResponseParams, ts: int, nonce: string)
    requires Sendable(content) && Utf8.Valid(p.reqID) && Utf8.Valid(p.hostname) && Printable(Int(ts)) && Utf8.Valid(nonce)
    ensures Sendable(ResponseNodes(content, p, ts, nonce))
  {
    hide PlainName, Sendable, One, OptNode, Utf8.Valid;
    EnvelopeNames();
    SendableOne("v", Int(PROTOCOL_VERSION));
    SendableOpt(p.reqID != "", "id", Str(p.reqID));
    SendableOne("name", Str(p.hostname));
    SendableOne("timestamp", Int(ts));
    SendableOne("nonce", Str(nonce));
    var a1 := One("v", Int(PROTOCOL_VERSION)) + OptNode(p.reqID != "", "id", Str(p.reqID));
    SendableAppend(One("v", Int(PROTOCOL_VERSION)), OptNode(p.reqID != "", "id", Str(p.reqID)));
    var a2 := a1 + One("name", Str(p.hostname));
    SendableAppend(a1, One("name", Str(p.hostname)));
    var a3 := a2 + One("timestamp", Int(ts));
    SendableAppend(a2, One("timestamp", Int(ts)));
    var a4 := a3 + One("nonce", Str(nonce));
    SendableAppend(a3, One("nonce", Str(nonce)));
    SendableAppend(a4, content);
  }

  /** Signing and reading a response: the panel gets exactly the content that was signed. */
  lemma ResponseRoundTrip(content: seq<Node>, p: ResponseParams, mac: Mac, signed: int, newNonce: string,
                          expectedVersion: int, now: int)
    requires p.version == 0 || SupportedVersion(p.version)
    requires Payload(content) && Utf8.Valid(p.reqID) && Utf8.Valid(p.hostname)
    requires Printable(Int(EnvelopeTime(p.timestamp, signed))) && Utf8.Valid(EnvelopeNonce(p.nonce, newNonce))
    requires IsValidNonce(Str(EnvelopeNonce(p.nonce, newNonce)))
    requires TimestampInWindow(EnvelopeTime(p.timestamp, signed), now)
    requires expectedVersion == 0 || expectedVersion == PROTOCOL_VERSION
    ensures SignResponse(content, p, mac, signed, newNonce).Some?
    ensures ParseResponse(SignResponse(content, p, mac, signed, newNonce).value, mac, p.secret, p.hostname, expectedVersion, now)
         == Ok(Carrying(content, p.reqID, p.hostname, EnvelopeTime(p.timestamp, signed), EnvelopeNonce(p.nonce, newNonce)))
  {
    hide Parse, Serialize, PrintableNodes, Shallow, LastNode, FirstAuth, Signed, NonAuth, IsValidNonce, ResponseNodes,
      VerifyFrame, Utf8.Valid, PyStr, ReadLogs, ChildMap;
    var ts, nonce := EnvelopeTime(p.timestamp, signed), EnvelopeNonce(p.nonce, newNonce);
    var nodes := ResponseNodes(content, p, ts, nonce);
    ResponseSendable(content, p, ts, nonce);
    ResponseFields(content, p, ts, nonce);
    NoField(nodes, "auth");
    NameField(p.hostname);
    VerifySigned(nodes, mac, p.secret, p.secret, OptStr(Field(nodes, "id")), now);
  }

  lemma NameField(hostname: string)
    ensures OptStr(Str(hostname)) == Some(hostname)
  {}

  // ------------------------------------------------------------------------------------------
  // The reply arrives
  // ------------------------------------------------------------------------------------------

  function Echoed(id: Option<string>): string {
    if id.Some? then id.value else ""
  }

  /** For every body the reply is accepted by a panel with the same secret that expects this agent, and
      carries the content and id the agent settled on. */
  lemma AnswerArrives(body: string, mac: Mac, secret: string, hostname: string, now: int,
                      dispatch: Request -> Outcome, signed: int, newNonce: string, expectedVersion: int, panelNow: int)
    requires GoodDispatch(dispatch)
    requires Utf8.Valid(hostname) && Printable(Int(signed)) && IsValidNonce(Str(newNonce)) && TimestampInWindow(signed, panelNow)
    requires expectedVersion == 0 || expectedVersion == PROTOCOL_VERSION
    ensures var (content, id) := Answer(body, mac, secret, hostname, now, dispatch);
            ParseResponse(HandleRequest(body, mac, secret, hostname, now, dispatch, signed, newNonce),
                          mac, secret, hostname, expectedVersion, panelNow)
            == Ok(Carrying(content, Echoed(id), hostname, signed, newNonce))
  {
    hide ParseResponse, SignResponse, Answer, AnswerVersion, Carrying, Payload, Utf8.Valid, IsValidNonce;
    AnswerPayload(body, mac, secret, hostname, now, dispatch);
    var (content, id) := Answer(body, mac, secret, hostname, now, dispatch);
    var version := AnswerVersion(body, mac, secret, hostname, now);
    var p := ResponseParams(secret, hostname, Echoed(id), 0, "", version);
    NonceValid(newNonce);
    EmptyValid();
    ResponseRoundTrip(content, p, mac, signed, newNonce, expectedVersion, panelNow);
  }

  lemma EmptyValid()
    ensures Utf8.Valid("")
  {}

  lemma NonceValid(nonce: string)
    requires IsValidNonce(Str(nonce))
    ensures Utf8.Valid(nonce) && nonce != ""
  {
    Utf8.AsciiValid(nonce);
  }

  /** What the panel reads out of each kind of content. */
  lemma OKCarried(result: Value, id: string, hostname: string, ts: int, nonce: string)
    ensures Carrying(OKContent(result), id, hostname, ts, nonce)
         == Response(PROTOCOL_VERSION, Present(id), "ok", result, Null, Null, None, None, Some(hostname), ts, nonce)
  {
    hide LastNode;
    var a := One("status", Str("ok"));
    assert OKContent(result) == a + One("result", result);
    DistinctNames();
    forall name ensures LastNode(OKContent(result), name)
      == if name == "result" then Some(N0("result", result)) else if name == "status" then Some(N0("status", Str("ok"))) else None
    {
      LastOne(a, "result", result, name);
      LastNone(name, Str("ok"), "status");
    }
  }

  lemma ErrorCarried(code: string, message: string, id: string, hostname: string, ts: int, nonce: string)
    ensures Carrying(ErrorContent(code, message), id, hostname, ts, nonce)
         == Response(PROTOCOL_VERSION, Present(id), "failure", Null, Str(code), Str(message), None, None,
                     Some(hostname), ts, nonce)
  {
    hide LastNode;
    var children := [N0("code", Str(code)), N0("message", Str(message))];
    BlockLookup("failure", Block("error", children), id, hostname, ts, nonce);
    assert children == One("code", Str(code)) + One("message", Str(message));
    LastOne(One("code", Str(code)), "message", Str(message), "message");
    LastOne(One("code", Str(code)), "message", Str(message), "code");
    LastNone("code", Str(code), "code");
  }

  /** Looking names up in a status followed by one block. */
  lemma BlockLookup(status: string, block: Node, id: string, hostname: string, ts: int, nonce: string)
    ensures forall name {:trigger LastNode([N0("status", Str(status)), block], name)} ::
              LastNode([N0("status", Str(status)), block], name)
              == if name == block.name then Some(block) else if name == "status" then Some(N0("status", Str(status))) else None
  {
    forall name ensures LastNode([N0("status", Str(status)), block], name)
      == if name == block.name then Some(block) else if name == "status" then Some(N0("status", Str(status))) else None
    {
      var content := [N0("status", Str(status)), block];
      assert content[..1] == One("status", Str(status));
      LastNone(name, Str(status), "status");
    }
  }

  lemma SettingsCarried(children: seq<Node>, id: string, hostname: string, ts: int, nonce: string)
    ensures Carrying(BlockContent(Block("settings", children)), id, hostname, ts, nonce)
         == Response(PROTOCOL_VERSION, Present(id), "ok", Null, Null, Null, Some(ChildMap(children)), None,
                     Some(hostname), ts, nonce)
  {
    hide LastNode, ChildMap;
    BlockLookup("ok", Block("settings", children), id, hostname, ts, nonce);
  }

  /** The request the agent sees when a panel sends p. */
  function Seen(p: RequestParams, sent: int, requestNonce: string): Request {
    Request(PROTOCOL_VERSION, Present(p.reqID), p.action, Present(p.variable), p.val, Present(p.name),
            EnvelopeTime(p.timestamp, sent), EnvelopeNonce(p.nonce, requestNonce), if p.tail == 0 then None else Some(p.tail))
  }

  lemma HonestRequestGood(p: RequestParams, mac: Mac, sent: int, requestNonce: string, hostname: string, now: int)
    requires p.version == 0 || SupportedVersion(p.version)
    requires PrintableParams(p, EnvelopeTime(p.timestamp, sent), EnvelopeNonce(p.nonce, requestNonce))
    requires IsValidNonce(Str(EnvelopeNonce(p.nonce, requestNonce)))
    requires TimestampInWindow(EnvelopeTime(p.timestamp, sent), now) && Acceptable(p, hostname)
    ensures BuildRequest(p, mac, sent, requestNonce).Some?
    ensures ParseRequest(BuildRequest(p, mac, sent, requestNonce).value, mac, p.secret, hostname, now)
         == Ok(Seen(p, sent, requestNonce))
    ensures GoodRequest(Seen(p, sent, requestNonce))
  {
    hide ParseRequest, GoodRequest, IsValidNonce, Acceptable, PrintableParams, EnvelopeTime, EnvelopeNonce, SignAndSerialize;
    RequestRoundTrip(p, mac, sent, requestNonce, hostname, now);
    ParsedRequestGood(BuildRequest(p, mac, sent, requestNonce).value, mac, p.secret, hostname, now);
  }

  lemma SeenID(p: RequestParams, sent: int, requestNonce: string)
    ensures Seen(p, sent, requestNonce).id == Present(p.reqID) && Echoed(Present(p.reqID)) == p.reqID
  {}

  // ------------------------------------------------------------------------------------------
  // Main results
  // ------------------------------------------------------------------------------------------

  /** A reply that reads as a failure with this code and message, and nothing else. */
  function Failure(code: string, message: string, id: Option<string>, hostname: string, ts: int, nonce: string): Response {
    Response(PROTOCOL_VERSION, Present(Echoed(id)), "failure", Null, Str(code), Str(message), None, None,
             Some(hostname), ts, nonce)
  }

  /** What a panel reads for an outcome of the dispatcher; a refusal may name another id. */
  function Heard(o: Outcome, id: Option<string>, hostname: string, ts: int, nonce: string): Response {
    match o
    case Content(nodes) => Carrying(nodes, Echoed(id), hostname, ts, nonce)
    case Refused(e) => Failure(e.code, e.message, if e.reqID.Some? then e.reqID else id, hostname, ts, nonce)
    case Failed(message) => Failure("internal_error", message, id, hostname, ts, nonce)
  }

  /** For every body at all, whoever wrote it and however malformed, the agent's reply is accepted by a
      panel with the same secret that expects this agent.  If the body is refused, the panel reads a
      failure with the refusal's own code and message under the id the body gave; if it is accepted, what
      the dispatcher made of that very request. */
  lemma EveryBodyAnswered(body: string, mac: Mac, secret: string, hostname: string, now: int,
                          dispatch: Request -> Outcome, signed: int, newNonce: string, expectedVersion: int, panelNow: int)
    requires GoodDispatch(dispatch)
    requires Utf8.Valid(hostname) && Printable(Int(signed)) && IsValidNonce(Str(newNonce)) && TimestampInWindow(signed, panelNow)
    requires expectedVersion == 0 || expectedVersion == PROTOCOL_VERSION
    ensures var r := ParseRequest(body, mac, secret, hostname, now);
            ParseResponse(HandleRequest(body, mac, secret, hostname, now, dispatch, signed, newNonce),
                          mac, secret, hostname, expectedVersion, panelNow)
            == Ok(if r.Err? then Failure(r.error.code, r.error.message, r.error.reqID, hostname, signed, newNonce)
                  else Heard(dispatch(r.value), r.value.id, hostname, signed, newNonce))
  {
    hide ParseResponse, HandleRequest, ParseRequest, Carrying, Payload, Utf8.Valid, IsValidNonce, GoodDispatch, Printable,
      ErrorContent, Echoed, TimestampInWindow;
    AnswerArrives(body, mac, secret, hostname, now, dispatch, signed, newNonce, expectedVersion, panelNow);
    var r := ParseRequest(body, mac, secret, hostname, now);
    if r.Err? {
      ErrorCarried(r.error.code, r.error.message, Echoed(r.error.reqID), hostname, signed, newNonce);
    } else {
      var o := dispatch(r.value);
      if o.Refused? {
        ErrorCarried(o.error.code, o.error.message, Echoed(if o.error.reqID.Some? then o.error.reqID else r.value.id),
                     hostname, signed, newNonce);
      } else if o.Failed? {
        ErrorCarried(INTERNAL_ERROR, o.message, Echoed(r.value.id), hostname, signed, newNonce);
      }
    }
  }

  /** A whole exchange: a panel that asks for something acceptable reads exactly what the agent's
      dispatcher answers to that very request, its refusals and failures included, under the id the
      panel chose, or the one a refusal names instead. */
  lemma HonestExchange(p: RequestParams, mac: Mac, sent: int, requestNonce: string, hostname: string, now: int,
                       dispatch: Request -> Outcome, signed: int, responseNonce: string, panelNow: int)
    requires p.version == 0 || SupportedVersion(p.version)
    requires PrintableParams(p, EnvelopeTime(p.timestamp, sent), EnvelopeNonce(p.nonce, requestNonce))
    requires IsValidNonce(Str(EnvelopeNonce(p.nonce, requestNonce)))
    requires TimestampInWindow(EnvelopeTime(p.timestamp, sent), now) && Acceptable(p, hostname)
    requires GoodDispatch(dispatch)
    requires Utf8.Valid(hostname) && Printable(Int(signed)) && IsValidNonce(Str(responseNonce)) && TimestampInWindow(signed, panelNow)
    ensures var reply := HandleRequest(BuildRequest(p, mac, sent, requestNonce).value, mac, p.secret, hostname, now,
                                       dispatch, signed, responseNonce);
            ParseResponse(reply, mac, p.secret, hostname, PROTOCOL_VERSION, panelNow)
            == Ok(Heard(dispatch(Seen(p, sent, requestNonce)), Present(p.reqID), hostname, signed, responseNonce))
  {
    hide ParseResponse, HandleRequest, ParseRequest, Heard, Utf8.Valid, IsValidNonce, Acceptable,
      PrintableParams, EnvelopeTime, EnvelopeNonce, SignAndSerialize, BuildRequest, Seen, GoodDispatch;
    HonestRequestGood(p, mac, sent, requestNonce, hostname, now);
    SeenID(p, sent, requestNonce);
    var body := BuildRequest(p, mac, sent, requestNonce).value;
    EveryBodyAnswered(body, mac, p.secret, hostname, now, dispatch, signed, responseNonce, PROTOCOL_VERSION, panelNow);
  }
}
