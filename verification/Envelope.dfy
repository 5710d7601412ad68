/**
  Frames that were signed honestly are accepted, and say exactly what their sender put in
  (go/protocol/protocol.go).
  */
module Envelope {
  import opened Wrappers
  import opened Kdl
  import opened KdlRoundTrip
  import opened Protocol
  import Utf8

  // ------------------------------------------------------------------------------------------
  // Lists of printable nodes
  // ------------------------------------------------------------------------------------------

  lemma {:induction false} PrintableAppend(a: seq<Node>, b: seq<Node>)
    requires PrintableNodes(a) && PrintableNodes(b)
    ensures PrintableNodes(a + b)
  {
    if a == [] {
      assert a + b == b;
    } else {
      PrintableAppend(a[1..], b);
      assert (a + b)[1..] == a[1..] + b;
    }
  }

  lemma {:induction false} ShallowAppend(a: seq<Node>, b: seq<Node>, depth: nat)
    requires Shallow(a, depth) && Shallow(b, depth)
    ensures Shallow(a + b, depth)
  {
    if a == [] {
      assert a + b == b;
    } else {
      ShallowAppend(a[1..], b, depth);
      assert (a + b)[1..] == a[1..] + b;
    }
  }

  /** A document that fits in a frame, as a list to append to. */
  predicate Sendable(nodes: seq<Node>) {
    PrintableNodes(nodes) && Shallow(nodes, 0)
  }

  lemma SendableAppend(a: seq<Node>, b: seq<Node>)
    requires Sendable(a) && Sendable(b)
    ensures Sendable(a + b)
  {
    PrintableAppend(a, b);
    ShallowAppend(a, b, 0);
  }

  lemma SendableOne(name: string, v: Value)
    requires PlainName(name) && Printable(v)
    ensures Sendable(One(name, v))
  {
    hide PlainName;
    var n := N0(name, v);
    assert One(name, v)[0] == n && One(name, v)[1..] == [];
    assert PrintableNodes([]) && Shallow([], 0);
    assert PrintableNode(n) && ShallowNode(n, 0);
  }

  lemma SendableOpt(present: bool, name: string, v: Value)
    requires PlainName(name) && (present ==> Printable(v))
    ensures Sendable(OptNode(present, name, v))
  {
    hide PlainName;
    if present {
      SendableOne(name, v);
    }
  }

  /** A word of letters and underscores. */
  predicate IsWord(name: string) {
    name != "" && forall i :: 0 <= i < |name| ==> IsLetter(name[i])
  }

  lemma WordIsPlain(name: string)
    requires IsWord(name) && |name| != 4 && |name| != 5
    ensures PlainName(name)
  {
    BareIsPlain(name);
  }

  lemma ShortWordIsPlain(name: string)
    requires IsWord(name) && |name| > 1 && name[0] != 't' && name[0] != 'f' && (name[0] != 'n' || name[1] != 'u')
    ensures PlainName(name)
  {
    assert "true"[0] == 't' && "false"[0] == 'f' && "null"[0] == 'n' && "null"[1] == 'u';
    BareIsPlain(name);
  }

  lemma EnvelopeNames1()
    ensures PlainName("v")
    ensures PlainName("id")
    ensures PlainName("name")
    ensures PlainName("timestamp")
    ensures PlainName("nonce")
  {
    hide PlainName;
    WordIsPlain("v");
    WordIsPlain("id");
    ShortWordIsPlain("name");
    WordIsPlain("timestamp");
    ShortWordIsPlain("nonce");
  }

  lemma EnvelopeNames2()
    ensures PlainName("action")
    ensures PlainName("var")
    ensures PlainName("val")
    ensures PlainName("tail")
    ensures PlainName("auth")
  {
    hide PlainName;
    WordIsPlain("action");
    WordIsPlain("var");
    WordIsPlain("val");
    assert !("tail"[1] == 'r') && "true"[1] == 'r';
    BareIsPlain("tail");
    ShortWordIsPlain("auth");
  }

  lemma EnvelopeNames3()
    ensures PlainName("algorithm")
    ensures PlainName("key_id")
    ensures PlainName("signature")
    ensures PlainName("status")
  {
    hide PlainName;
    WordIsPlain("algorithm");
    WordIsPlain("key_id");
    WordIsPlain("signature");
    WordIsPlain("status");
  }

  lemma EnvelopeNames4()
    ensures PlainName("result")
    ensures PlainName("error")
    ensures PlainName("code")
    ensures PlainName("message")
  {
    hide PlainName;
    WordIsPlain("result");
    ShortWordIsPlain("error");
    ShortWordIsPlain("code");
    WordIsPlain("message");
  }

  /** All the names the envelope itself uses. */
  lemma EnvelopeNames()
    ensures PlainName("v") && PlainName("id") && PlainName("name") && PlainName("timestamp") && PlainName("nonce")
    ensures PlainName("action") && PlainName("var") && PlainName("val") && PlainName("tail") && PlainName("auth")
    ensures PlainName("algorithm") && PlainName("key_id") && PlainName("signature") && PlainName("status")
    ensures PlainName("result") && PlainName("error") && PlainName("code") && PlainName("message")
  {
    hide PlainName;
    EnvelopeNames1();
    EnvelopeNames2();
    EnvelopeNames3();
    EnvelopeNames4();
  }

  // ------------------------------------------------------------------------------------------
  // A signed frame, taken apart by its receiver
  // ------------------------------------------------------------------------------------------

  predicate NoneNamed(nodes: seq<Node>, name: string) {
    forall i :: 0 <= i < |nodes| ==> nodes[i].name != name
  }

  lemma SignatureText(s: string)
    requires IsSignature(s)
    ensures Utf8.Valid(s)
  {
    Utf8.AsciiValid(s);
  }

  lemma AuthSendable(signed: seq<Node>, mac: Mac, secret: string)
    ensures Sendable([AuthNode(signed, mac, secret)])
    ensures Field(AuthNode(signed, mac, secret).children, "signature") == Str(mac(secret, Serialize(signed)))
  {
    hide PlainName, Serialize, PrintableNodes, Shallow, LastNode, Sendable, One;
    var signature := mac(secret, Serialize(signed));
    SignatureText(signature);
    AuthChildren(signature);
    EnvelopeNames();
    var a, k := One("algorithm", Str("hmac-sha256")), One("key_id", Str("kid-pc-monitor-shared-secret"));
    LastOne(a + k, "signature", Str(signature), "signature");
    ThreeNodes(signature);
    SendableBlock("auth", AuthNode(signed, mac, secret).children);
  }

  lemma ThreeNodes(signature: string)
    ensures [N0("algorithm", Str("hmac-sha256")), N0("key_id", Str("kid-pc-monitor-shared-secret")), N0("signature", Str(signature))]
         == One("algorithm", Str("hmac-sha256")) + One("key_id", Str("kid-pc-monitor-shared-secret")) + One("signature", Str(signature))
  {}

  lemma AuthConstants()
    ensures Utf8.Valid("hmac-sha256") && Utf8.Valid("kid-pc-monitor-shared-secret")
  {
    hide Utf8.Valid;
    Utf8.AsciiValid("hmac-sha256");
    Utf8.AsciiValid("kid-pc-monitor-shared-secret");
  }

  lemma AuthChildren(signature: string)
    requires Utf8.Valid(signature)
    ensures var children := One("algorithm", Str("hmac-sha256")) + One("key_id", Str("kid-pc-monitor-shared-secret")) + One("signature", Str(signature));
            PrintableNodes(children) && Shallow(children, 1)
  {
    hide PlainName, PrintableNodes, Shallow, Utf8.Valid;
    var a := One("algorithm", Str("hmac-sha256"));
    var k := One("key_id", Str("kid-pc-monitor-shared-secret"));
    var s := One("signature", Str(signature));
    EnvelopeNames();
    AuthConstants();
    SendableOne("algorithm", Str("hmac-sha256"));
    SendableOne("key_id", Str("kid-pc-monitor-shared-secret"));
    SendableOne("signature", Str(signature));
    SendableAppend(a, k);
    SendableAppend(a + k, s);
    FlatShallow(a + k + s, 1);
  }

  lemma SendableBlock(name: string, children: seq<Node>)
    requires PlainName(name) && PrintableNodes(children) && Shallow(children, 1)
    ensures Sendable([Block(name, children)])
  {
    hide PlainName;
    var n := Block(name, children);
    assert [n][0] == n && [n][1..] == [];
    assert PrintableNodes([]) && Shallow([], 0);
    assert PrintableNode(n) && ShallowNode(n, 0);
  }

  lemma {:induction false} FlatShallow(nodes: seq<Node>, depth: nat)
    requires forall i :: 0 <= i < |nodes| ==> nodes[i].children == []
    ensures Shallow(nodes, depth)
  {
    if nodes != [] {
      FlatShallow(nodes[1..], depth);
    }
  }

  lemma {:induction false} SplitSigned(nodes: seq<Node>, auth: Node)
    requires NoneNamed(nodes, "auth") && auth.name == "auth"
    ensures FirstAuth(nodes + [auth]) == Some(auth)
    ensures Signed(nodes + [auth]) == nodes
    ensures NonAuth(nodes + [auth]) == nodes
  {
    if nodes == [] {
      assert nodes + [auth] == [auth] && [auth][1..] == [];
    } else {
      SplitSigned(nodes[1..], auth);
      assert (nodes + [auth])[1..] == nodes[1..] + [auth];
    }
  }

  /** The whole path of a signed frame, for any fields: it parses, splits back into the signed
      nodes and the auth block, and is accepted exactly when the nonce is well formed, the
      receiver's secret gives the same signature and the clocks agree. */
  lemma VerifySigned(nodes: seq<Node>, mac: Mac, secret: string, receiver: string, reqID: Option<string>, now: int)
    requires Sendable(nodes) && NoneNamed(nodes, "auth")
    requires Field(nodes, "timestamp").Int? && Field(nodes, "nonce").Str?
    ensures var frame := nodes + [AuthNode(nodes, mac, secret)];
            && Parse(SignAndSerialize(nodes, mac, secret)) == Ok(frame)
            && NonAuth(frame) == nodes
            && VerifyFrame(frame, mac, receiver, reqID, now)
               == if !IsValidNonce(Field(nodes, "nonce")) then
                    Err(ProtocolError(INVALID_REQUEST, "nonce must be hex randomness", reqID))
                  else if mac(receiver, Serialize(nodes)) != mac(secret, Serialize(nodes)) then
                    Err(ProtocolError(AUTHENTICATION_FAILED, "signature did not verify.\n", reqID))
                  else if !TimestampInWindow(Field(nodes, "timestamp").n, now) then
                    Err(ProtocolError(STALE_TIMESTAMP, "timestamp outside allowed window", reqID))
                  else Ok(OptStr(Field(nodes, "name")))
  {
    hide Parse, Serialize, PrintableNodes, Shallow, LastNode, FirstAuth, Signed, NonAuth, IsValidNonce;
    var auth := AuthNode(nodes, mac, secret);
    AuthSendable(nodes, mac, secret);
    SendableAppend(nodes, [auth]);
    ParseSerialized(nodes + [auth]);
    SplitSigned(nodes, auth);
  }

  // ------------------------------------------------------------------------------------------
  // Reading fields back
  // ------------------------------------------------------------------------------------------

  lemma LastOne(a: seq<Node>, name: string, v: Value, wanted: string)
    ensures LastNode(a + One(name, v), wanted) == if name == wanted then Some(N0(name, v)) else LastNode(a, wanted)
  {
    LastNodeAppend(a, One(name, v), wanted);
    assert One(name, v)[..0] == [];
  }

  lemma LastOpt(a: seq<Node>, present: bool, name: string, v: Value, wanted: string)
    ensures LastNode(a + OptNode(present, name, v), wanted)
         == if present && name == wanted then Some(N0(name, v)) else LastNode(a, wanted)
  {
    if present {
      LastOne(a, name, v, wanted);
    } else {
      assert a + OptNode(present, name, v) == a;
    }
  }

  lemma LastNone(wanted: string, v: Value, name: string)
    ensures LastNode(One(name, v), wanted) == if name == wanted then Some(N0(name, v)) else None
  {
    assert One(name, v)[..0] == [];
  }

  function RequestNode(p: RequestParams, ts: int, nonce: string, name: string): Option<Node> {
    if p.tail != 0 && name == "tail" then Some(N0("tail", Int(p.tail)))
    else if !p.val.Null? && name == "val" then Some(N0("val", p.val))
    else if p.variable != "" && name == "var" then Some(N0("var", Str(p.variable)))
    else if name == "action" then Some(N0("action", Str(p.action)))
    else if name == "nonce" then Some(N0("nonce", Str(nonce)))
    else if name == "timestamp" then Some(N0("timestamp", Int(ts)))
    else if p.name != "" && name == "name" then Some(N0("name", Str(p.name)))
    else if p.reqID != "" && name == "id" then Some(N0("id", Str(p.reqID)))
    else if name == "v" then Some(N0("v", Int(PROTOCOL_VERSION)))
    else None
  }

  lemma RequestLookup(p: RequestParams, ts: int, nonce: string, name: string)
    ensures LastNode(RequestNodes(p, ts, nonce), name) == RequestNode(p, ts, nonce, name)
  {
    hide LastNode, One, OptNode;
    var a0 := One("v", Int(PROTOCOL_VERSION));
    LastNone(name, Int(PROTOCOL_VERSION), "v");
    LastOpt(a0, p.reqID != "", "id", Str(p.reqID), name);
    var a1 := a0 + OptNode(p.reqID != "", "id", Str(p.reqID));
    LastOpt(a1, p.name != "", "name", Str(p.name), name);
    var a2 := a1 + OptNode(p.name != "", "name", Str(p.name));
    LastOne(a2, "timestamp", Int(ts), name);
    var a3 := a2 + One("timestamp", Int(ts));
    LastOne(a3, "nonce", Str(nonce), name);
    var a4 := a3 + One("nonce", Str(nonce));
    LastOne(a4, "action", Str(p.action), name);
    var a5 := a4 + One("action", Str(p.action));
    LastOpt(a5, p.variable != "", "var", Str(p.variable), name);
    var a6 := a5 + OptNode(p.variable != "", "var", Str(p.variable));
    LastOpt(a6, !p.val.Null?, "val", p.val, name);
    var a7 := a6 + OptNode(!p.val.Null?, "val", p.val);
    LastOpt(a7, p.tail != 0, "tail", Int(p.tail), name);
  }

  /** Names of equal length are told apart by a letter. */
  lemma DistinctNames()
    ensures "tail" != "name" && "var" != "val" && "name" != "auth" && "tail" != "auth"
    ensures "code" != "path" && "error" != "nonce" && "status" != "result"
  {
    assert "tail"[0] != "name"[0] && "var"[2] != "val"[2] && "name"[0] != "auth"[0] && "tail"[0] != "auth"[0];
    assert "code"[0] != "path"[0] && "error"[0] != "nonce"[0] && "status"[0] != "result"[0];
  }

  predicate PrintableParams(p: RequestParams, ts: int, nonce: string) {
    && Utf8.Valid(p.action) && Utf8.Valid(p.variable) && Printable(p.val) && Utf8.Valid(p.reqID)
    && Utf8.Valid(p.name) && Printable(Int(ts)) && Utf8.Valid(nonce) && Printable(Int(p.tail))
  }

  lemma RequestSendable(p: RequestParams, ts: int, nonce: string)
    requires PrintableParams(p, ts, nonce)
    ensures Sendable(RequestNodes(p, ts, nonce))
  {
    hide PlainName, Sendable, One, OptNode;
    EnvelopeNames();
    SendableOne("v", Int(PROTOCOL_VERSION));
    SendableOpt(p.reqID != "", "id", Str(p.reqID));
    SendableOpt(p.name != "", "name", Str(p.name));
    SendableOne("timestamp", Int(ts));
    SendableOne("nonce", Str(nonce));
    SendableOne("action", Str(p.action));
    SendableOpt(p.variable != "", "var", Str(p.variable));
    SendableOpt(!p.val.Null?, "val", p.val);
    SendableOpt(p.tail != 0, "tail", Int(p.tail));
    var a1 := One("v", Int(PROTOCOL_VERSION)) + OptNode(p.reqID != "", "id", Str(p.reqID));
    SendableAppend(One("v", Int(PROTOCOL_VERSION)), OptNode(p.reqID != "", "id", Str(p.reqID)));
    var a2 := a1 + OptNode(p.name != "", "name", Str(p.name));
    SendableAppend(a1, OptNode(p.name != "", "name", Str(p.name)));
    var a3 := a2 + One("timestamp", Int(ts));
    SendableAppend(a2, One("timestamp", Int(ts)));
    var a4 := a3 + One("nonce", Str(nonce));
    SendableAppend(a3, One("nonce", Str(nonce)));
    var a5 := a4 + One("action", Str(p.action));
    SendableAppend(a4, One("action", Str(p.action)));
    var a6 := a5 + OptNode(p.variable != "", "var", Str(p.variable));
    SendableAppend(a5, OptNode(p.variable != "", "var", Str(p.variable)));
    var a7 := a6 + OptNode(!p.val.Null?, "val", p.val);
    SendableAppend(a6, OptNode(!p.val.Null?, "val", p.val));
    SendableAppend(a7, OptNode(p.tail != 0, "tail", Int(p.tail)));
  }

  /** A list with no auth field has no auth node. */
  lemma {:induction false} NoField(nodes: seq<Node>, name: string)
    requires LastNode(nodes, name).None?
    ensures NoneNamed(nodes, name)
  {
    if nodes != [] {
      NoField(nodes[..|nodes| - 1], name);
      assert forall i :: 0 <= i < |nodes| - 1 ==> nodes[i] == nodes[..|nodes| - 1][i];
    }
  }

  // ------------------------------------------------------------------------------------------
  // Main result for requests
  // ------------------------------------------------------------------------------------------

  /** What the agent demands of a correctly signed request. */
  predicate Acceptable(p: RequestParams, hostname: string) {
    && p.action in ACTIONS
    && (p.name == "" || p.name == hostname)
    && (p.action in WRITE_ACTIONS ==> p.name != "")
    && (p.action == "get" ==> p.variable == "settings" || p.variable in VARIABLES)
    && (p.action == "set" || p.action == "clear" ==> p.variable in VARIABLES)
    && (p.action in {"set", "extend", "message"} ==> !p.val.Null?)
    && (p.tail == 0 || 1 <= p.tail <= MAX_LOG_TAIL_LINES)
  }

  function Present(s: string): Option<string> {
    if s == "" then None else Some(s)
  }

  /** Building a request and parsing it: every field comes back as it was sent, strings of digits
      included, and the request is refused exactly when it fails one of the stated checks. */
  lemma RequestRoundTrip(p: RequestParams, mac: Mac, sent: int, newNonce: string, hostname: string, now: int)
    requires p.version == 0 || SupportedVersion(p.version)
    requires PrintableParams(p, EnvelopeTime(p.timestamp, sent), EnvelopeNonce(p.nonce, newNonce))
    ensures BuildRequest(p, mac, sent, newNonce).Some?
    ensures var ts, nonce := EnvelopeTime(p.timestamp, sent), EnvelopeNonce(p.nonce, newNonce);
            var r := ParseRequest(BuildRequest(p, mac, sent, newNonce).value, mac, p.secret, hostname, now);
            && (r.Ok? <==> IsValidNonce(Str(nonce)) && TimestampInWindow(ts, now) && Acceptable(p, hostname))
            && (r.Ok? ==>
                  r.value == Request(PROTOCOL_VERSION, Present(p.reqID), p.action, Present(p.variable), p.val,
                                     Present(p.name), ts, nonce, if p.tail == 0 then None else Some(p.tail)))
  {
    hide Parse, Serialize, PrintableNodes, Shallow, LastNode, FirstAuth, Signed, NonAuth, IsValidNonce, RequestNodes, VerifyFrame, CheckRequest;
    var ts, nonce := EnvelopeTime(p.timestamp, sent), EnvelopeNonce(p.nonce, newNonce);
    var nodes := RequestNodes(p, ts, nonce);
    RequestSendable(p, ts, nonce);
    RequestFields(p, ts, nonce);
    NoField(nodes, "auth");
    VerifySigned(nodes, mac, p.secret, p.secret, OptStr(Field(nodes, "id")), now);
    var frame := nodes + [AuthNode(nodes, mac, p.secret)];
    var verified := VerifyFrame(frame, mac, p.secret, OptStr(Field(nodes, "id")), now);
    if verified.Ok? {
      CheckHonest(p, ts, nonce, hostname);
    }
  }

  lemma RequestFields(p: RequestParams, ts: int, nonce: string)
    ensures var nodes := RequestNodes(p, ts, nonce);
            && Field(nodes, "v") == Int(PROTOCOL_VERSION)
            && Field(nodes, "timestamp") == Int(ts) && Field(nodes, "nonce") == Str(nonce)
            && Field(nodes, "action") == Str(p.action)
            && OptStr(Field(nodes, "id")) == Present(p.reqID)
            && OptStr(Field(nodes, "name")) == Present(p.name)
            && OptStr(Field(nodes, "var")) == Present(p.variable)
            && Field(nodes, "val") == p.val
            && Field(nodes, "tail") == (if p.tail == 0 then Null else Int(p.tail))
            && LastNode(nodes, "auth").None?
  {
    hide RequestNodes, Field, LastNode;
    FixedFields(p, ts, nonce);
    OptionalFields(p, ts, nonce);
  }

  lemma FixedFields(p: RequestParams, ts: int, nonce: string)
    ensures var nodes := RequestNodes(p, ts, nonce);
            && Field(nodes, "v") == Int(PROTOCOL_VERSION)
            && Field(nodes, "timestamp") == Int(ts) && Field(nodes, "nonce") == Str(nonce)
            && Field(nodes, "action") == Str(p.action)
            && LastNode(nodes, "auth").None?
  {
    hide RequestNodes, LastNode;
    DistinctNames();
    RequestLookup(p, ts, nonce, "v");
    RequestLookup(p, ts, nonce, "timestamp");
    RequestLookup(p, ts, nonce, "nonce");
    RequestLookup(p, ts, nonce, "action");
    RequestLookup(p, ts, nonce, "auth");
  }

  lemma OptionalFields(p: RequestParams, ts: int, nonce: string)
    ensures var nodes := RequestNodes(p, ts, nonce);
            && OptStr(Field(nodes, "id")) == Present(p.reqID)
            && OptStr(Field(nodes, "name")) == Present(p.name)
            && OptStr(Field(nodes, "var")) == Present(p.variable)
            && Field(nodes, "val") == p.val
            && Field(nodes, "tail") == (if p.tail == 0 then Null else Int(p.tail))
  {
    hide RequestNodes, LastNode;
    DistinctNames();
    RequestLookup(p, ts, nonce, "id");
    RequestLookup(p, ts, nonce, "name");
    RequestLookup(p, ts, nonce, "var");
    RequestLookup(p, ts, nonce, "val");
    RequestLookup(p, ts, nonce, "tail");
  }

  /** The checks after authentication, on honest fields. */
  lemma CheckHonest(p: RequestParams, ts: int, nonce: string, hostname: string)
    requires var nodes := RequestNodes(p, ts, nonce);
             Field(nodes, "timestamp").Int? && Field(nodes, "nonce").Str?
    ensures var nodes := RequestNodes(p, ts, nonce);
            var r := CheckRequest(nodes, Present(p.name), hostname, PROTOCOL_VERSION);
            && (r.Ok? <==> Acceptable(p, hostname))
            && (r.Ok? ==>
                  r.value == Request(PROTOCOL_VERSION, Present(p.reqID), p.action, Present(p.variable), p.val,
                                     Present(p.name), ts, nonce, if p.tail == 0 then None else Some(p.tail)))
  {
    hide RequestNodes, LastNode, PyRepr, CheckOperands, CheckTail;
    RequestFields(p, ts, nonce);
    OperandsHonest(p);
    TailHonest(p.tail, Present(p.reqID));
  }

  lemma OperandsHonest(p: RequestParams)
    ensures CheckOperands(p.action, Present(p.variable), p.val, Present(p.reqID)).Ok?
       <==> && (p.action == "get" ==> p.variable == "settings" || p.variable in VARIABLES)
            && (p.action == "set" || p.action == "clear" ==> p.variable in VARIABLES)
            && (p.action in {"set", "extend", "message"} ==> !p.val.Null?)
  {
    assert "" !in VARIABLES;
    assert "get"[0] != "set"[0];
    assert "clear"[0] != "extend"[0];
  }

  lemma TailHonest(tail: int, reqID: Option<string>)
    ensures var r := CheckTail(if tail == 0 then Null else Int(tail), reqID);
            && (r.Ok? <==> tail == 0 || 1 <= tail <= MAX_LOG_TAIL_LINES)
            && (r.Ok? ==> r.value == if tail == 0 then None else Some(tail))
  {}

  /** Nothing is signed for a version this package does not speak, and everything else is. */
  lemma SignsSupported(p: RequestParams, q: ResponseParams, content: seq<Node>, mac: Mac, now: int, newNonce: string)
    ensures BuildRequest(p, mac, now, newNonce).Some? <==> p.version == 0 || p.version == 3
    ensures SignResponse(content, q, mac, now, newNonce).Some? <==> q.version == 0 || q.version == 3
  {
    hide SignAndSerialize;
  }
}
