/**
  Which bodies are let in: for every text that can be received, exactly when it is accepted as a request
  or a response, and what is read out of it (go/protocol/protocol.go).

  A frame is described by its nodes alone: where its auth node stands, and what the fields say.
  */
module Admission {
  import opened Text
  import opened Wrappers
  import opened Kdl
  import opened Protocol
  import opened Envelope
  import opened FieldText

  // ------------------------------------------------------------------------------------------
  // Authentic frames
  // ------------------------------------------------------------------------------------------

  /** The i-th node is the first auth node, and carries the signature of all the others as they print. */
  predicate SignedAt(nodes: seq<Node>, i: nat, mac: Mac, secret: string)
    requires i < |nodes|
  {
    && nodes[i].name == "auth" && NoneNamed(nodes[..i], "auth")
    && PyStr(Field(nodes[i].children, "signature")) == mac(secret, Serialize(nodes[..i] + nodes[i + 1..]))
  }

  ghost predicate Authentic(nodes: seq<Node>, mac: Mac, secret: string) {
    exists i :: 0 <= i < |nodes| && SignedAt(nodes, i, mac, secret)
  }

  /** Sent within a minute of now. */
  predicate Timely(nodes: seq<Node>, now: int) {
    var t := Field(nodes, "timestamp");
    t.Int? && now - 60 <= t.n <= now + 60
  }

  /** At least 32 hexadecimal digits. */
  predicate HasNonce(nodes: seq<Node>) {
    var n := Field(nodes, "nonce");
    n.Str? && |n.s| >= 32 && forall i :: 0 <= i < |n.s| ==> IsHex(n.s[i])
  }

  lemma {:induction false} AuthAt(nodes: seq<Node>, i: nat)
    requires i < |nodes| && nodes[i].name == "auth" && NoneNamed(nodes[..i], "auth")
    ensures FirstAuth(nodes) == Some(nodes[i]) && Signed(nodes) == nodes[..i] + nodes[i + 1..]
    decreases i
  {
    hide FirstAuth, Signed;
    SplitStep(nodes);
    if i == 0 {
      assert nodes[..0] + nodes[1..] == nodes[1..];
    } else {
      assert nodes[..i][0] == nodes[0];
      assert nodes[1..][..i - 1] == nodes[..i][1..] && nodes[1..][i..] == nodes[i + 1..];
      AuthAt(nodes[1..], i - 1);
      assert [nodes[0]] + (nodes[1..][..i - 1] + nodes[1..][i..]) == nodes[..i] + nodes[i + 1..];
    }
  }

  /** The first auth node, wherever it stands. */
  lemma {:induction false} FindAuth(nodes: seq<Node>) returns (i: nat)
    ensures i <= |nodes| && NoneNamed(nodes[..i], "auth") && (i < |nodes| ==> nodes[i].name == "auth")
    ensures i == |nodes| ==> FirstAuth(nodes) == None
  {
    hide FirstAuth, Signed;
    i := 0;
    if nodes == [] {
      SplitNothing();
    } else {
      SplitStep(nodes);
      if nodes[0].name != "auth" {
        var k := FindAuth(nodes[1..]);
        i := k + 1;
        assert forall j :: 0 < j < i ==> nodes[..i][j] == nodes[1..][..k][j - 1];
      }
    }
  }

  /** Two first auth nodes are the same one. */
  lemma OneAuth(nodes: seq<Node>, i: nat, j: nat)
    requires i < |nodes| && nodes[i].name == "auth" && NoneNamed(nodes[..i], "auth")
    requires j < |nodes| && nodes[j].name == "auth" && NoneNamed(nodes[..j], "auth")
    ensures i == j
  {
    assert forall k :: 0 <= k < i ==> nodes[k] == nodes[..i][k];
    assert forall k :: 0 <= k < j ==> nodes[k] == nodes[..j][k];
  }

  lemma AuthenticAt(nodes: seq<Node>, i: nat, mac: Mac, secret: string)
    requires i < |nodes| && nodes[i].name == "auth" && NoneNamed(nodes[..i], "auth")
    ensures Authentic(nodes, mac, secret) <==>
              PyStr(Field(nodes[i].children, "signature")) == mac(secret, Serialize(nodes[..i] + nodes[i + 1..]))
  {
    hide Field, Serialize;
    if Authentic(nodes, mac, secret) {
      var j :| 0 <= j < |nodes| && SignedAt(nodes, j, mac, secret);
      OneAuth(nodes, i, j);
    }
    assert SignedAt(nodes, i, mac, secret) ==> Authentic(nodes, mac, secret);
  }

  lemma NothingAuthentic(nodes: seq<Node>, mac: Mac, secret: string)
    requires NoneNamed(nodes, "auth")
    ensures !Authentic(nodes, mac, secret)
  {
    hide Field, Serialize;
  }

  /** No frame without a signature passes for signed: a missing one reads as a word of four letters. */
  lemma SignatureNeeded(v: Value, mac: Mac, secret: string, text: string)
    ensures PyStr(v) == mac(secret, text) ==> !v.Null?
  {
    assert IsSignature(mac(secret, text));
    assert |PyStr(Null)| == 4;
  }

  lemma SignedFields(nodes: seq<Node>, name: string)
    requires name != "auth"
    ensures Field(Signed(nodes), name) == Field(nodes, name) && Field(NonAuth(nodes), name) == Field(nodes, name)
  {
    hide LastNode, Signed, NonAuth;
    FieldsAgree(nodes, name);
  }

  lemma FrameFields(nodes: seq<Node>)
    ensures forall name :: name in {"timestamp", "nonce", "name"} ==> Field(Signed(nodes), name) == Field(nodes, name)
  {
    hide Field, Signed;
    DistinctNames();
    SignedFields(nodes, "timestamp");
    SignedFields(nodes, "nonce");
    SignedFields(nodes, "name");
  }

  /** Every list of nodes is accepted as a frame exactly if it is authentic, on time, and has a nonce; the
      rest are refused by the first thing that is wrong with them. */
  lemma FrameAccepted(nodes: seq<Node>, mac: Mac, secret: string, reqID: Option<string>, now: int)
    ensures var r := VerifyFrame(nodes, mac, secret, reqID, now);
            var ts, nonce := Field(nodes, "timestamp"), Field(nodes, "nonce");
            && (r.Ok? <==> Authentic(nodes, mac, secret) && Timely(nodes, now) && HasNonce(nodes))
            && (r.Ok? ==> r.value == OptStr(Field(nodes, "name")))
            && (r.Err? ==>
                  && r.error.reqID == reqID
                  && r.error.code
                     == if NoneNamed(nodes, "auth") || ts.Null? || nonce.Null? then "authentication_required"
                        else if !ts.Int? || !HasNonce(nodes) then "invalid_request"
                        else if Authentic(nodes, mac, secret) then "stale_timestamp"
                        else if FirstAuth(nodes).Some? && Field(FirstAuth(nodes).value.children, "signature").Null?
                        then "authentication_required"
                        else "authentication_failed")
  {
    hide Field, Serialize, FirstAuth, Signed, Authentic, PyStr, OptStr;
    var i := FindAuth(nodes);
    FrameFields(nodes);
    if i < |nodes| {
      AuthAt(nodes, i);
      AuthenticAt(nodes, i, mac, secret);
      SignatureNeeded(Field(nodes[i].children, "signature"), mac, secret, Serialize(Signed(nodes)));
    } else {
      assert nodes[..i] == nodes;
      NothingAuthentic(nodes, mac, secret);
    }
  }

  // ------------------------------------------------------------------------------------------
  // Requests
  // ------------------------------------------------------------------------------------------

  /** The fields ask for something, of this agent. */
  ghost predicate Asking(nodes: seq<Node>, hostname: string) {
    var action, name, variable, val := Field(nodes, "action"), Field(nodes, "name"), Field(nodes, "var"), Field(nodes, "val");
    && action.Str? && action.s in ACTIONS
    && (if name.Null? then action.s in {"get", "get_logs", "list_capabilities"} else PyStr(name) == hostname)
    && (action.s == "get" ==> !variable.Null? && (PyStr(variable) == "settings" || PyStr(variable) in VARIABLES))
    && (action.s == "set" || action.s == "clear" ==> !variable.Null? && PyStr(variable) in VARIABLES)
    && (action.s in {"set", "extend", "message"} ==> !val.Null?)
    && TailAsked(Field(nodes, "tail"))
  }

  ghost predicate TailAsked(v: Value) {
    v.Null? || exists n :: 1 <= n <= 5000 && StandsFor(v, n)
  }

  /** What is read out of the fields. */
  ghost predicate ReadFrom(r: Request, nodes: seq<Node>) {
    && r.version == 3 && r.id == OptStr(Field(nodes, "id"))
    && Str(r.action) == Field(nodes, "action") && r.variable == OptStr(Field(nodes, "var")) && r.val == Field(nodes, "val")
    && r.name == OptStr(Field(nodes, "name"))
    && Int(r.timestamp) == Field(nodes, "timestamp") && Str(r.nonce) == Field(nodes, "nonce")
    && (if r.tail.None? then Field(nodes, "tail").Null?
        else 1 <= r.tail.value <= 5000 && StandsFor(Field(nodes, "tail"), r.tail.value))
  }

  /** What the checks after authentication let pass. */
  lemma OperandsExactly(action: string, variable: Option<string>, val: Value, id: Option<string>)
    ensures CheckOperands(action, variable, val, id).Ok?
       <==> && (action == "get" ==> variable.Some? && (variable.value == "settings" || variable.value in VARIABLES))
            && (action == "set" || action == "clear" ==> variable.Some? && variable.value in VARIABLES)
            && (action in {"set", "extend", "message"} ==> !val.Null?)
  {
    assert "get"[0] != "set"[0];
    assert "clear"[0] != "extend"[0];
  }

  lemma TailExactly(v: Value, id: Option<string>)
    ensures CheckTail(v, id).Ok? <==> TailAsked(v)
    ensures CheckTail(v, id).Ok? ==>
              var tail := CheckTail(v, id).value;
              if tail.None? then v.Null? else 1 <= tail.value <= 5000 && StandsFor(v, tail.value)
  {
    hide ParseInt, StandsFor;
    if ParseInt(v, id).Ok? {
      NumberRead(v, id, ParseInt(v, id).value);
    }
    if exists n :: 1 <= n <= 5000 && StandsFor(v, n) {
      var n :| 1 <= n <= 5000 && StandsFor(v, n);
      NumberRead(v, id, n);
    }
  }

  /** The actions that need no name are those that only read. */
  lemma ReadActions(action: string)
    requires action in ACTIONS
    ensures action in WRITE_ACTIONS <==> action !in {"get", "get_logs", "list_capabilities"}
  {
    assert "get"[0] != "set"[0];
    assert |"get_logs"| == 8 && |"shutdown"| == 8 && "get_logs"[0] != "shutdown"[0];
  }

  lemma CheckedExactly(fields: seq<Node>, hostname: string)
    requires Field(fields, "timestamp").Int? && Field(fields, "nonce").Str?
    ensures var r := CheckRequest(fields, OptStr(Field(fields, "name")), hostname, PROTOCOL_VERSION);
            && (r.Ok? <==> Asking(fields, hostname))
            && (r.Ok? ==> ReadFrom(r.value, fields))
  {
    hide Field, PyRepr, CheckOperands, CheckTail, TailAsked, StandsFor, PyStr;
    var action := Field(fields, "action");
    var id, variable := OptStr(Field(fields, "id")), OptStr(Field(fields, "var"));
    if action.Str? && action.s in ACTIONS {
      ReadActions(action.s);
      OperandsExactly(action.s, variable, Field(fields, "val"), id);
      TailExactly(Field(fields, "tail"), id);
    }
  }

  /** Dropping the auth nodes changes nothing that is asked or read. */
  lemma SameRequest(nodes: seq<Node>, hostname: string)
    ensures Asking(NonAuth(nodes), hostname) <==> Asking(nodes, hostname)
    ensures forall r :: ReadFrom(r, NonAuth(nodes)) <==> ReadFrom(r, nodes)
    ensures Field(NonAuth(nodes), "timestamp") == Field(nodes, "timestamp")
    ensures Field(NonAuth(nodes), "nonce") == Field(nodes, "nonce")
    ensures Field(NonAuth(nodes), "name") == Field(nodes, "name")
    ensures Field(NonAuth(nodes), "v") == Field(nodes, "v")
  {
    hide Field, NonAuth, TailAsked, StandsFor, PyStr, OptStr;
    DistinctNames();
    SignedFields(nodes, "v");
    SignedFields(nodes, "id");
    SignedFields(nodes, "name");
    SignedFields(nodes, "timestamp");
    SignedFields(nodes, "nonce");
    SignedFields(nodes, "action");
    SignedFields(nodes, "var");
    SignedFields(nodes, "val");
    SignedFields(nodes, "tail");
  }

  /** Every body at all: it is accepted as a request exactly if it parses, speaks this version, is signed
      with the secret, on time, with a nonce, and asks this agent for something; and then the request is
      what the fields say. */
  lemma RequestAccepted(body: string, mac: Mac, secret: string, hostname: string, now: int)
    ensures var r := ParseRequest(body, mac, secret, hostname, now);
            && (r.Ok? <==>
                  && Parse(body).Ok?
                  && var nodes := Parse(body).value;
                     Field(nodes, "v") == Int(3) && Authentic(nodes, mac, secret) && Timely(nodes, now)
                     && HasNonce(nodes) && Asking(nodes, hostname))
            && (r.Ok? ==> ReadFrom(r.value, Parse(body).value))
  {
    hide Parse, Field, NonAuth, VerifyFrame, CheckRequest, Authentic, Asking, ReadFrom, OptStr;
    if Parse(body).Ok? {
      var nodes := Parse(body).value;
      var fields := NonAuth(nodes);
      SameRequest(nodes, hostname);
      FrameAccepted(nodes, mac, secret, OptStr(Field(fields, "id")), now);
      if Timely(nodes, now) && HasNonce(nodes) {
        CheckedExactly(fields, hostname);
      }
    }
  }

  // ------------------------------------------------------------------------------------------
  // Responses
  // ------------------------------------------------------------------------------------------

  /** And as a response exactly if it parses, speaks the version expected, is signed with the secret, on
      time, with a nonce, and names the agent expected; and then it says who sent it and when. */
  lemma ResponseAccepted(body: string, mac: Mac, secret: string, expectedName: string, expectedVersion: int, now: int)
    ensures var r := ParseResponse(body, mac, secret, expectedName, expectedVersion, now);
            && (r.Ok? <==>
                  && Parse(body).Ok? && (expectedVersion == 0 || expectedVersion == 3)
                  && var nodes := Parse(body).value;
                     Field(nodes, "v") == Int(3) && Authentic(nodes, mac, secret) && Timely(nodes, now)
                     && HasNonce(nodes) && (expectedName == "" || OptStr(Field(nodes, "name")) == Some(expectedName)))
            && (r.Ok? ==>
                  var nodes := Parse(body).value;
                  && (expectedName != "" ==> r.value.name == Some(expectedName))
                  && r.value.name == OptStr(Field(nodes, "name")) && r.value.version == 3
                  && Int(r.value.timestamp) == Field(nodes, "timestamp") && Str(r.value.nonce) == Field(nodes, "nonce"))
  {
    hide Parse, Field, LastNode, NonAuth, VerifyFrame, Authentic, OptStr, PyStr, PyRepr, ReadLogs, ChildMap;
    if Parse(body).Ok? {
      var nodes := Parse(body).value;
      var fields := NonAuth(nodes);
      SameRequest(nodes, "");
      FrameAccepted(nodes, mac, secret, OptStr(Field(fields, "id")), now);
    }
  }
}
