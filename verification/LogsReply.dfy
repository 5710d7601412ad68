/**
  get_logs from the log file to the panel: reader, cut, signature, frame and parser together.
  */
module LogsReply {
  import opened Wrappers
  import opened Kdl
  import opened KdlRoundTrip
  import opened Protocol
  import opened Envelope
  import opened Exchange
  import opened Dispatcher
  import opened LogTail
  import Frame
  import Utf8

  const DEFAULT_LOG_TAIL_LINES: nat := 500

  predicate AllValid(lines: seq<string>) {
    forall i :: 0 <= i < |lines| ==> Utf8.Valid(lines[i])
  }

  lemma LogNames()
    ensures PlainName("logs") && PlainName("path") && PlainName("truncated") && PlainName("lines")
  {
    hide PlainName;
    ShortWordIsPlain("logs");
    ShortWordIsPlain("path");
    WordIsPlain("truncated");
    ShortWordIsPlain("lines");
  }

  lemma LinesSendable(lines: seq<string>)
    requires AllValid(lines)
    ensures PrintableNodes([Node("lines", Strs(lines), [])])
  {
    hide PlainName, Utf8.Valid;
    LogNames();
    var n := Node("lines", Strs(lines), []);
    assert [n][1..] == [] && PrintableNodes([]);
    assert PrintableNode(n);
  }

  lemma LogsPayload(path: string, cut: bool, lines: seq<string>)
    requires Utf8.Valid(path) && AllValid(lines)
    ensures Payload(BlockContent(LogsBlock(path, cut, lines)))
  {
    hide PlainName, PrintableNodes, Shallow, Utf8.Valid;
    LogNames();
    EnvelopeNames();
    StatusValid();
    LinesSendable(lines);
    SendableOne("path", Str(path));
    SendableOne("truncated", Bool(cut));
    SendableOne("status", Str("ok"));
    var p, t, l := One("path", Str(path)), One("truncated", Bool(cut)), [Node("lines", Strs(lines), [])];
    SendableAppend(p, t);
    PrintableAppend(p + t, l);
    var children := LogsBlock(path, cut, lines).children;
    assert children == p + t + l;
    FlatShallow(children, 1);
    SendableBlock("logs", children);
    SendableAppend(One("status", Str("ok")), [Block("logs", children)]);
    assert BlockContent(LogsBlock(path, cut, lines)) == One("status", Str("ok")) + [Block("logs", children)];
    DistinctNames();
    assert "logs"[0] != "name"[0] && "logs"[0] != "auth"[0];
  }

  lemma LogsCarried(path: string, cut: bool, lines: seq<string>, id: string, hostname: string, ts: int, nonce: string)
    ensures Carrying(BlockContent(LogsBlock(path, cut, lines)), id, hostname, ts, nonce)
         == Response(PROTOCOL_VERSION, Present(id), "ok", Null, Null, Null, None, Some(LogsResult(path, cut, lines)),
                     Some(hostname), ts, nonce)
  {
    hide LastNode, ReadLogs;
    BlockLookup("ok", LogsBlock(path, cut, lines), id, hostname, ts, nonce);
    LogsRead(path, cut, lines);
  }

  lemma LogsRead(path: string, cut: bool, lines: seq<string>)
    ensures ReadLogs(LogsBlock(path, cut, lines)) == LogsResult(path, cut, lines)
  {
    hide LastNode, ChildMap;
    var n := LogsBlock(path, cut, lines);
    var p, t := One("path", Str(path)), One("truncated", Bool(cut));
    var l := Node("lines", Strs(lines), []);
    assert n.children == p + t + [l];
    forall name | name == "path" || name == "truncated"
      ensures LastNode(n.children, name) == if name == "path" then Some(N0(name, Str(path))) else Some(N0(name, Bool(cut)))
    {
      LastNodeAppend(p + t, [l], name);
      LastOther(l, name);
      LastOne(p, "truncated", Bool(cut), name);
      LastNone(name, Str(path), "path");
    }
    FirstLines(n.children, l);
    assert PyStrs(Strs(lines)) == lines;
  }

  lemma LastOther(n: Node, name: string)
    requires n.name != name
    ensures LastNode([n], name) == None
  {
    assert [n][..0] == [];
  }

  lemma FirstLines(children: seq<Node>, l: Node)
    requires |children| == 3 && children[0].name == "path" && children[1].name == "truncated"
    requires children[2] == l && l.name == "lines"
    ensures FirstNode(children, "lines") == Some(l)
  {
    assert children[1..][1..][0] == l;
    assert FirstNode(children[1..][1..], "lines") == Some(l);
    assert children[1..][0].name == "truncated";
    assert FirstNode(children[1..], "lines") == Some(l);
  }

  /** The dispatcher's answer to get_logs. */
  function DoGetLogs(path: string, log: string, tail: Option<int>): Outcome
    requires tail.Some? ==> tail.value >= 0
  {
    var n: nat := if tail.Some? then tail.value else DEFAULT_LOG_TAIL_LINES;
    Content(GetLogsContent(path, DecodeAll(LastOf(LogLines(log), n)), |LogLines(log)| > n))
  }

  lemma GetLogsGood(path: string, log: string, tail: Option<int>)
    requires Utf8.Valid(path) && (tail.Some? ==> tail.value >= 0)
    ensures GoodOutcome(DoGetLogs(path, log, tail))
  {
    hide Utf8.Valid, Payload, FitByPrinting, LogLines, LogsBlock, DecodeAll, LastOf;
    var n: nat := if tail.Some? then tail.value else DEFAULT_LOG_TAIL_LINES;
    var lines, more := DecodeAll(LastOf(LogLines(log), n)), |LogLines(log)| > n;
    DeliveredLines(path, log, n);
    var (kept, cut) := FitByPrinting(path, lines, more);
    LogsPayload(path, cut, kept);
  }

  lemma DecodedValid(raw: seq<string>)
    ensures AllValid(DecodeAll(raw))
  {
    hide Utf8.Valid, DecodeReplace;
    forall i | 0 <= i < |raw| ensures Utf8.Valid(DecodeAll(raw)[i]) {
      DecodeValid(raw[i]);
    }
  }

  /** Another of the wanted lines would make the reply too big. */
  predicate OneMoreIsTooBig(path: string, log: string, kept: nat)
    requires kept < |LogLines(log)|
  {
    var all := LogLines(log);
    Estimate(path, DecodeAll(all[|all| - kept - 1..]), kept + 1 < |all|) > 64512
  }

  /** The content of a get_logs reply: a tail of the log's lines, decoded, as many as are wanted or fit,
      and a flag that says exactly whether any line of the log is missing from it. */
  lemma DeliveredLines(path: string, log: string, n: nat)
    ensures var (kept, cut) := FitByPrinting(path, DecodeAll(LastOf(LogLines(log), n)), |LogLines(log)| > n);
            && AllValid(kept)
            && |kept| <= n && |kept| <= |LogLines(log)|
            && kept == DecodeAll(LogLines(log)[|LogLines(log)| - |kept|..])
            && (cut <==> |kept| < |LogLines(log)|)
            && (|kept| < n && |kept| < |LogLines(log)| ==> OneMoreIsTooBig(path, log, |kept|))
  {
    hide FitByPrinting, LogLines, DecodeAll, Utf8.Valid, Estimate, AllValid;
    var all := LogLines(log);
    var from := if |all| <= n then 0 else |all| - n;
    assert LastOf(all, n) == all[from..];
    KeptOfAll(path, all, from);
  }

  /** The same for any lines from which the first ones have been left out. */
  lemma KeptOfAll(path: string, all: seq<string>, from: nat)
    requires from <= |all|
    ensures var (kept, cut) := FitByPrinting(path, DecodeAll(all[from..]), from > 0);
            && AllValid(kept) && |kept| <= |all| - from
            && kept == DecodeAll(all[|all| - |kept|..])
            && (cut <==> |kept| < |all|)
            && (|kept| < |all| - from ==> Estimate(path, DecodeAll(all[|all| - |kept| - 1..]), |kept| + 1 < |all|) > 64512)
  {
    hide FitByPrinting, DecodeAll, Utf8.Valid, Estimate;
    var lines := DecodeAll(all[from..]);
    FitIsLongest(path, lines, from > 0);
    var kept := FitByPrinting(path, lines, from > 0).0;
    DecodedValid(all[from..]);
    DecodeSuffix(all, from, |all| - |kept|);
    if |kept| < |all| - from {
      OneMoreDropped(path, all, from, |kept|);
    }
  }

  lemma OneMoreDropped(path: string, all: seq<string>, from: nat, kept: nat)
    requires from + kept < |all|
    requires forall k :: 0 <= k < |all| - from - kept ==> Estimate(path, DecodeAll(all[from..])[k..], from > 0 || k > 0) > 64512
    ensures Estimate(path, DecodeAll(all[|all| - kept - 1..]), kept + 1 < |all|) > 64512
  {
    hide Estimate, DecodeAll;
    var k := |all| - from - kept - 1;
    DecodeSuffix(all, from, from + k);
    assert Estimate(path, DecodeAll(all[from..])[k..], from > 0 || k > 0) > 64512;
  }

  lemma DecodeSuffix(all: seq<string>, from: nat, to: nat)
    requires from <= to <= |all|
    ensures DecodeAll(all[from..])[to - from..] == DecodeAll(all[to..])
  {
    hide DecodeReplace;
  }

  /** Every signed get_logs reply fits a frame the panel's reader takes. */
  lemma ReplyFitsFrame(path: string, lines: seq<string>, truncated: bool, p: ResponseParams, mac: Mac,
                       signed: int, newNonce: string)
    requires p.version == 0 || SupportedVersion(p.version)
    requires Utf8.Valid(path) && AllValid(lines) && Utf8.Valid(p.hostname) && Utf8.Valid(p.reqID)
    requires Printable(Int(EnvelopeTime(p.timestamp, signed)))
    requires IsValidNonce(Str(EnvelopeNonce(p.nonce, newNonce))) && |EnvelopeNonce(p.nonce, newNonce)| == NONCE_MIN_HEX
    requires VaryingSize(p.hostname, p.reqID) <= 946
    requires Estimate(path, [], false) <= BUDGET
    ensures var reply := SignResponse(GetLogsContent(path, lines, truncated), p, mac, signed, newNonce).value;
            && |reply| <= Frame.MAX_FRAME_BYTES
            && forall rest :: Frame.TakeFrame(Frame.EncodeFrame(reply) + rest) == (Ok(reply), rest)
  {
    hide Frame.TakeFrame, Frame.EncodeFrame, Utf8.Valid, Estimate, FitByPrinting, VaryingSize, Serialize, ResponseNodes, IsValidNonce;
    var (kept, cut) := FitByPrinting(path, lines, truncated);
    FitIsLongest(path, lines, truncated);
    EstimateSplits(path, [], cut);
    ReplyOverhead(path, kept, cut, p, mac, signed, newNonce);
    assert AllValid(kept) by {
      assert kept == lines[|lines| - |kept|..];
    }
    var reply := SignResponse(GetLogsContent(path, lines, truncated), p, mac, signed, newNonce).value;
    ReplyValid(path, kept, cut, p, mac, signed, newNonce);
    forall rest ensures Frame.TakeFrame(Frame.EncodeFrame(reply) + rest) == (Ok(reply), rest) {
      Frame.TakeEncoded(reply, rest);
    }
  }

  /** The printed size of the reply to a get_logs. */
  function ReplyBytes(path: string, lines: seq<string>, truncated: bool, p: ResponseParams, ts: int, nonce: string): nat {
    var (kept, cut) := FitByPrinting(path, lines, truncated);
    Estimate(path, kept, cut) + 24 + VaryingSize(p.hostname, p.reqID) + |FormatValue(Int(ts))| + |FormatValue(Str(nonce))|
  }

  /** In general it fits, and comes through the framing, exactly if that is within the cap: for every
      hostname, id, path and nonce, margin or not. */
  lemma ReplyFitsExactly(path: string, lines: seq<string>, truncated: bool, p: ResponseParams, mac: Mac,
                         signed: int, newNonce: string, rest: string)
    requires p.version == 0 || SupportedVersion(p.version)
    requires Utf8.Valid(path) && AllValid(lines) && Utf8.Valid(p.hostname) && Utf8.Valid(p.reqID)
    requires Printable(Int(EnvelopeTime(p.timestamp, signed))) && IsValidNonce(Str(EnvelopeNonce(p.nonce, newNonce)))
    ensures var reply := SignResponse(GetLogsContent(path, lines, truncated), p, mac, signed, newNonce).value;
            var size := ReplyBytes(path, lines, truncated, p, EnvelopeTime(p.timestamp, signed), EnvelopeNonce(p.nonce, newNonce));
            && |reply| == size
            && (size <= Frame.MAX_FRAME_BYTES ==> Frame.TakeFrame(Frame.EncodeFrame(reply) + rest) == (Ok(reply), rest))
            && (size > Frame.MAX_FRAME_BYTES ==> Frame.TakeFrame(Frame.EncodeFrame(reply) + rest).0.Err?)
  {
    hide Frame.TakeFrame, Frame.EncodeFrame, Utf8.Valid, Estimate, FitByPrinting, VaryingSize, SignResponse, IsValidNonce,
      FormatValue, LogsBlock, EnvelopeTime, EnvelopeNonce;
    var (kept, cut) := FitByPrinting(path, lines, truncated);
    FitIsLongest(path, lines, truncated);
    assert AllValid(kept) by {
      assert kept == lines[|lines| - |kept|..];
    }
    ReplySize(path, kept, cut, p, mac, signed, newNonce);
    ReplyValid(path, kept, cut, p, mac, signed, newNonce);
    VersionSigns(GetLogsContent(path, lines, truncated), p, mac, signed, newNonce);
    var reply := SignResponse(GetLogsContent(path, lines, truncated), p, mac, signed, newNonce).value;
    if |reply| <= Frame.MAX_FRAME_BYTES {
      Frame.TakeEncoded(reply, rest);
    } else {
      Frame.TakeOversized(reply, rest);
    }
  }

  lemma VersionSigns(content: seq<Node>, params: ResponseParams, mac: Mac, signed: int, newNonce: string)
    requires params.version == 0 || SupportedVersion(params.version)
    ensures SignResponse(content, params, mac, signed, newNonce).Some?
  {}

  /** For example, no get_logs of an agent whose hostname alone is as long as a frame gets through. */
  lemma LongNameDoesNotFit(path: string, lines: seq<string>, truncated: bool, p: ResponseParams, ts: int, nonce: string)
    requires |p.hostname| >= Frame.MAX_FRAME_BYTES
    ensures ReplyBytes(path, lines, truncated, p, ts, nonce) > Frame.MAX_FRAME_BYTES
  {
    hide Estimate, FitByPrinting;
    EscapeNotShorter(p.hostname);
  }

  lemma {:induction false} EscapeNotShorter(s: string)
    ensures |Escape(s)| >= |s|
  {
    if s != "" {
      EscapeNotShorter(s[1..]);
    }
  }

  lemma ReplyValid(path: string, kept: seq<string>, cut: bool, p: ResponseParams, mac: Mac, signed: int, newNonce: string)
    requires p.version == 0 || SupportedVersion(p.version)
    requires Utf8.Valid(path) && AllValid(kept) && Utf8.Valid(p.hostname) && Utf8.Valid(p.reqID)
    requires Printable(Int(EnvelopeTime(p.timestamp, signed))) && IsValidNonce(Str(EnvelopeNonce(p.nonce, newNonce)))
    ensures Utf8.Valid(SignResponse(BlockContent(LogsBlock(path, cut, kept)), p, mac, signed, newNonce).value)
  {
    hide Utf8.Valid, Serialize, PrintableNodes, Shallow, ResponseNodes, LogsBlock;
    var ts, nonce := EnvelopeTime(p.timestamp, signed), EnvelopeNonce(p.nonce, newNonce);
    var content := BlockContent(LogsBlock(path, cut, kept));
    LogsPayload(path, cut, kept);
    NonceValid(nonce);
    ResponseSendable(content, p, ts, nonce);
    var nodes := ResponseNodes(content, p, ts, nonce);
    AuthSendable(nodes, mac, p.secret);
    SendableAppend(nodes, [AuthNode(nodes, mac, p.secret)]);
    SerializeValid(nodes + [AuthNode(nodes, mac, p.secret)]);
  }

  /** A panel's get_logs, all the way: the reply comes through the framing, authenticates, and
      holds the log's last lines with a truthful flag. */
  lemma LogsDelivered(p: RequestParams, mac: Mac, sent: int, requestNonce: string, hostname: string, now: int,
                      dispatch: Request -> Outcome, signed: int, responseNonce: string, panelNow: int,
                      path: string, log: string)
    requires p.version == 0 || SupportedVersion(p.version)
    requires PrintableParams(p, EnvelopeTime(p.timestamp, sent), EnvelopeNonce(p.nonce, requestNonce))
    requires IsValidNonce(Str(EnvelopeNonce(p.nonce, requestNonce)))
    requires TimestampInWindow(EnvelopeTime(p.timestamp, sent), now) && Acceptable(p, hostname)
    requires p.action == "get_logs"
    requires GoodDispatch(dispatch)
    requires forall req :: GoodRequest(req) && req.action == "get_logs" ==> dispatch(req) == DoGetLogs(path, log, req.tail)
    requires Utf8.Valid(hostname) && Printable(Int(signed)) && IsValidNonce(Str(responseNonce)) && TimestampInWindow(signed, panelNow)
    requires |responseNonce| == NONCE_MIN_HEX && VaryingSize(hostname, p.reqID) <= 946
    requires Utf8.Valid(path) && Estimate(path, [], false) <= BUDGET
    ensures var reply := HandleRequest(BuildRequest(p, mac, sent, requestNonce).value, mac, p.secret, hostname, now,
                                       dispatch, signed, responseNonce);
            var wanted: int := if p.tail == 0 then 500 else p.tail;
            && (forall rest :: Frame.TakeFrame(Frame.EncodeFrame(reply) + rest) == (Ok(reply), rest))
            && var read := ParseResponse(reply, mac, p.secret, hostname, PROTOCOL_VERSION, panelNow);
            && read.Ok? && read.value.status == "ok" && read.value.logs.Some?
            && var logs := read.value.logs.value;
            && logs.path == path
            && |logs.lines| <= wanted && |logs.lines| <= |LogLines(log)|
            && logs.lines == DecodeAll(LogLines(log)[|LogLines(log)| - |logs.lines|..])
            && (logs.truncated <==> |logs.lines| < |LogLines(log)|)
            && (|logs.lines| < wanted && |logs.lines| < |LogLines(log)| ==> OneMoreIsTooBig(path, log, |logs.lines|))
  {
    hide ParseResponse, HandleRequest, BuildRequest, Carrying, Payload, Utf8.Valid, IsValidNonce,
      PrintableParams, EnvelopeTime, EnvelopeNonce, Estimate, FitByPrinting, VaryingSize, LogLines, DecodeAll, LastOf,
      Frame.TakeFrame, Frame.EncodeFrame, LogsBlock, SignResponse, ParseRequest, Acceptable, TimestampInWindow, GoodRequest,
      OneMoreIsTooBig;
    var ts, nonce := EnvelopeTime(p.timestamp, sent), EnvelopeNonce(p.nonce, requestNonce);
    var req := Seen(p, sent, requestNonce);
    HonestRequestGood(p, mac, sent, requestNonce, hostname, now);
    RequestShape(p, mac, sent, requestNonce, hostname);
    var n: nat := if p.tail == 0 then DEFAULT_LOG_TAIL_LINES else p.tail;
    var reply := HandleRequest(BuildRequest(p, mac, sent, requestNonce).value, mac, p.secret, hostname, now,
                               dispatch, signed, responseNonce);
    assert dispatch(req) == DoGetLogs(path, log, req.tail);
    var lines, more := DecodeAll(LastOf(LogLines(log), n)), |LogLines(log)| > n;
    var content := GetLogsContent(path, lines, more);
    assert ParseResponse(reply, mac, p.secret, hostname, PROTOCOL_VERSION, panelNow)
        == Ok(Carrying(content, p.reqID, hostname, signed, responseNonce)) by {
      HonestExchange(p, mac, sent, requestNonce, hostname, now, dispatch, signed, responseNonce, panelNow);
    }
    var params := ResponseParams(p.secret, hostname, p.reqID, 0, "", PROTOCOL_VERSION);
    VersionSigns(content, params, mac, signed, responseNonce);
    assert reply == SignResponse(content, params, mac, signed, responseNonce).value by {
      ReplyIs(p, mac, sent, requestNonce, hostname, now, dispatch, signed, responseNonce, req);
    }
    assert forall rest :: Frame.TakeFrame(Frame.EncodeFrame(reply) + rest) == (Ok(reply), rest) by {
      DecodedValid(LastOf(LogLines(log), n));
      EchoValid(p, ts, nonce);
      ZeroTime(signed, responseNonce);
      ReplyFitsFrame(path, lines, more, params, mac, signed, responseNonce);
    }
    DeliveredLines(path, log, n);
    var (kept, cut) := FitByPrinting(path, lines, more);
    LogsCarried(path, cut, kept, p.reqID, hostname, signed, responseNonce);
  }

  lemma RequestShape(p: RequestParams, mac: Mac, sent: int, requestNonce: string, hostname: string)
    requires Acceptable(p, hostname) && (p.version == 0 || SupportedVersion(p.version))
    ensures p.tail >= 0 && BuildRequest(p, mac, sent, requestNonce).Some?
  {}

  lemma EchoValid(p: RequestParams, ts: int, nonce: string)
    requires PrintableParams(p, ts, nonce)
    ensures Utf8.Valid(p.reqID)
  {}

  lemma ZeroTime(signed: int, newNonce: string)
    ensures EnvelopeTime(0, signed) == signed && EnvelopeNonce("", newNonce) == newNonce
  {}

  /** The text of the reply to an accepted request. */
  lemma ReplyIs(p: RequestParams, mac: Mac, sent: int, requestNonce: string, hostname: string, now: int,
                dispatch: Request -> Outcome, signed: int, responseNonce: string, req: Request)
    requires BuildRequest(p, mac, sent, requestNonce).Some?
    requires ParseRequest(BuildRequest(p, mac, sent, requestNonce).value, mac, p.secret, hostname, now) == Ok(req)
    requires req.version == PROTOCOL_VERSION && req.id == Present(p.reqID) && dispatch(req).Content?
    ensures HandleRequest(BuildRequest(p, mac, sent, requestNonce).value, mac, p.secret, hostname, now, dispatch, signed, responseNonce)
         == SignResponse(dispatch(req).nodes, ResponseParams(p.secret, hostname, p.reqID, 0, "", PROTOCOL_VERSION),
                         mac, signed, responseNonce).value
  {
    hide ParseRequest, BuildRequest, SignResponse;
  }
}
