/**
  get_logs: cutting the log lines so that the signed reply fits one frame
  (go/dispatcher/dispatcher.go).
  */
module Dispatcher {
  import opened Text
  import opened Kdl
  import opened KdlRoundTrip
  import opened Protocol
  import Frame

  const BUDGET: nat := Frame.MAX_FRAME_BYTES - 1024

  // ------------------------------------------------------------------------------------------
  // The size of a printed document
  // ------------------------------------------------------------------------------------------

  function ArgsSize(vs: seq<Value>): nat {
    if vs == [] then 0 else 1 + |FormatValue(vs[0])| + ArgsSize(vs[1..])
  }

  function NodeSize(n: Node, indent: nat): nat
    decreases n
  {
    1 + indent + |n.name| + ArgsSize(n.args)
    + if n.children == [] then 0 else 2 + Size(n.children, indent + 2) + 2 + indent
  }

  /** Bytes of the printed nodes, each line counted with its newline. */
  function Size(nodes: seq<Node>, indent: nat): nat
    decreases nodes
  {
    if nodes == [] then 0 else NodeSize(nodes[0], indent) + Size(nodes[1..], indent)
  }

  lemma {:induction false} ArgsSizeIs(vs: seq<Value>)
    ensures |Prefixed(FormatValues(vs), " ")| == ArgsSize(vs)
  {
    if vs != [] {
      ArgsSizeIs(vs[1..]);
      assert FormatValues(vs)[1..] == FormatValues(vs[1..]);
    }
  }

  lemma HeadSize(n: Node)
    ensures |Head(n)| == |n.name| + ArgsSize(n.args)
  {
    HeadSplit(n);
    ArgsSizeIs(n.args);
  }

  lemma {:induction false} NodeSizeIs(n: Node, indent: nat)
    ensures |Prefixed(NodeLines(n, indent), "\n")| == NodeSize(n, indent)
    decreases n
  {
    hide Head, Lines, ArgsSize, Size;
    HeadSize(n);
    if n.children == [] {
      LeafText(n, indent, "");
    } else {
      SizeIs(n.children, indent + 2);
      BlockText(n, indent, "");
    }
  }

  lemma {:induction false} SizeIs(nodes: seq<Node>, indent: nat)
    ensures |Prefixed(Lines(nodes, indent), "\n")| == Size(nodes, indent)
    decreases nodes
  {
    hide NodeLines, NodeSize;
    if nodes != [] {
      NodeSizeIs(nodes[0], indent);
      SizeIs(nodes[1..], indent);
      PrefixedAppend(NodeLines(nodes[0], indent), Lines(nodes[1..], indent), "\n");
    }
  }

  lemma SerializedSize(nodes: seq<Node>)
    requires nodes != []
    ensures |Serialize(nodes)| + 1 == Size(nodes, 0)
  {
    SizeIs(nodes, 0);
    assert NodeLines(nodes[0], 0) != [];
    JoinPrefixed(Lines(nodes, 0), "\n");
  }

  lemma {:induction false} SizeAppend(a: seq<Node>, b: seq<Node>, indent: nat)
    ensures Size(a + b, indent) == Size(a, indent) + Size(b, indent)
  {
    hide NodeSize;
    if a == [] {
      assert a + b == b;
    } else {
      SizeAppend(a[1..], b, indent);
      assert (a + b)[1..] == a[1..] + b;
    }
  }

  lemma SizeOne(n: Node, indent: nat)
    ensures Size([n], indent) == NodeSize(n, indent)
  {
    assert [n][1..] == [];
  }

  // ------------------------------------------------------------------------------------------
  // Cutting the lines
  // ------------------------------------------------------------------------------------------

  function Strs(lines: seq<string>): (vs: seq<Value>)
    ensures |vs| == |lines| && forall i :: 0 <= i < |lines| ==> vs[i] == Str(lines[i])
  {
    seq(|lines|, i requires 0 <= i < |lines| => Str(lines[i]))
  }

  function LogsBlock(path: string, truncated: bool, lines: seq<string>): Node {
    Block("logs", [N0("path", Str(path)), N0("truncated", Bool(truncated)), Node("lines", Strs(lines), [])])
  }

  /** The stand-in reply whose size is the estimate: a fixed host, time and nonce, and a signature
      block without its algorithm and key id. */
  function StandIn(path: string, lines: seq<string>, truncated: bool): seq<Node> {
    [N0("v", Int(3)), N0("name", Str("hostname")), N0("timestamp", Int(0)), N0("nonce", Str(Repeat('a', 32)))]
    + BlockContent(LogsBlock(path, truncated, lines))
    + [Block("auth", [N0("signature", Str(Repeat('x', 43)))])]
  }

  /** The reference implementation's estimate: print the whole reply and count. */
  function Estimate(path: string, lines: seq<string>, truncated: bool): nat {
    |Serialize(StandIn(path, lines, truncated))|
  }

  /** The plain algorithm: print the whole reply, and drop the oldest line while it is too big. */
  function FitByPrinting(path: string, lines: seq<string>, truncated: bool): (seq<string>, bool) {
    if lines != [] && Estimate(path, lines, truncated) > BUDGET then FitByPrinting(path, lines[1..], true)
    else (lines, truncated)
  }

  /** A line costs a space and its printed form; the flag costs a byte more as `false`. */
  lemma EstimateSplits(path: string, lines: seq<string>, truncated: bool)
    ensures Estimate(path, lines, truncated) == Estimate(path, [], truncated) + ArgsSize(Strs(lines))
    ensures Estimate(path, lines, false) == Estimate(path, lines, true) + 1
  {
    hide Serialize, StandIn;
    StandInSize(path, lines, truncated);
    StandInSize(path, lines, true);
    StandInSize(path, lines, false);
    StandInSize(path, [], truncated);
    assert ArgsSize(Strs([])) == 0;
  }

  function FlagSize(truncated: bool): nat {
    if truncated then 4 else 5
  }

  lemma StandInSize(path: string, lines: seq<string>, truncated: bool)
    ensures Estimate(path, lines, truncated)
         == Estimate("", [], true) - 6 + 4 + |FormatValue(Str(path))| - 4 + FlagSize(truncated) + ArgsSize(Strs(lines))
  {
    hide Serialize, Size, NodeSize, ArgsSize;
    StandInParts(path, lines, truncated);
    StandInParts("", [], true);
    LogsSize(path, lines, truncated);
    LogsSize("", [], true);
    SerializedSize(StandIn(path, lines, truncated));
    SerializedSize(StandIn("", [], true));
    EmptyArgs();
  }

  lemma EmptyArgs()
    ensures ArgsSize(Strs([])) == 0
    ensures |FormatValue(Str(""))| == 2
  {
    assert Escape("") == "";
  }

  lemma StandInParts(path: string, lines: seq<string>, truncated: bool)
    ensures Size(StandIn(path, lines, truncated), 0)
         == Size(StandInHead(), 0) + NodeSize(LogsBlock(path, truncated, lines), 0)
            + NodeSize(Block("auth", [N0("signature", Str(Repeat('x', 43)))]), 0)
  {
    hide Size, NodeSize;
    var logs, auth := LogsBlock(path, truncated, lines), Block("auth", [N0("signature", Str(Repeat('x', 43)))]);
    assert StandIn(path, lines, truncated) == StandInHead() + [logs] + [auth];
    SizeAppend(StandInHead() + [logs], [auth], 0);
    SizeAppend(StandInHead(), [logs], 0);
    SizeOne(logs, 0);
    SizeOne(auth, 0);
  }

  function StandInHead(): seq<Node> {
    [N0("v", Int(3)), N0("name", Str("hostname")), N0("timestamp", Int(0)), N0("nonce", Str(Repeat('a', 32))),
     N0("status", Str("ok"))]
  }

  lemma ScalarSize(name: string, v: Value, indent: nat)
    ensures NodeSize(N0(name, v), indent) == 2 + indent + |name| + |FormatValue(v)|
  {
    assert ArgsSize([v]) == 1 + |FormatValue(v)| by {
      assert [v][1..] == [];
    }
  }

  lemma LogsSize(path: string, lines: seq<string>, truncated: bool)
    ensures NodeSize(LogsBlock(path, truncated, lines), 0)
         == 38 + |FormatValue(Str(path))| + FlagSize(truncated) + ArgsSize(Strs(lines))
  {
    hide ArgsSize, Size;
    var p, t, l := N0("path", Str(path)), N0("truncated", Bool(truncated)), Node("lines", Strs(lines), []);
    assert [p, t, l] == [p] + [t] + [l];
    SizeAppend([p] + [t], [l], 2);
    SizeAppend([p], [t], 2);
    SizeOne(p, 2);
    SizeOne(t, 2);
    SizeOne(l, 2);
    ScalarSize("path", Str(path), 2);
    ScalarSize("truncated", Bool(truncated), 2);
    assert ArgsSize([]) == 0 by {
      EmptyArgs();
      assert Strs([]) == [];
    }
  }

  /** The source's single pass over per-line costs. */
  method FitLogLines(path: string, lines: seq<string>, truncated: bool) returns (kept: seq<string>, cut: bool)
    ensures (kept, cut) == FitByPrinting(path, lines, truncated)
  {
    hide Estimate, Serialize, FormatValue;
    var costs: seq<nat> := [];
    var size: int := Estimate(path, [], truncated);
    EstimateSplits(path, lines, truncated);
    for i := 0 to |lines|
      invariant |costs| == i
      invariant forall j :: 0 <= j < i ==> costs[j] == 1 + |FormatValue(Str(lines[j]))|
      invariant size + ArgsSize(Strs(lines[i..])) == Estimate(path, lines, truncated)
    {
      ArgsSizeStep(lines[i..]);
      assert lines[i..][1..] == lines[i + 1..];
      costs := costs + [1 + |FormatValue(Str(lines[i]))|];
      size := size + costs[i];
    }
    assert lines[|lines|..] == [] && Strs([]) == [] && lines[0..] == lines;
    var drop := 0;
    cut := truncated;
    while drop < |lines| && size > BUDGET
      invariant 0 <= drop <= |lines|
      invariant size == Estimate(path, lines[drop..], cut)
      invariant FitByPrinting(path, lines[drop..], cut) == FitByPrinting(path, lines, truncated)
    {
      var rest := lines[drop..];
      ArgsSizeStep(rest);
      EstimateSplits(path, rest, cut);
      EstimateSplits(path, rest[1..], true);
      EstimateSplits(path, [], true);
      assert rest[1..] == lines[drop + 1..];
      size := size - costs[drop];
      if !cut {
        cut := true;
        size := size + Estimate(path, [], true) - Estimate(path, [], false);
      }
      drop := drop + 1;
    }
    kept := lines[drop..];
  }

  lemma ArgsSizeStep(lines: seq<string>)
    requires lines != []
    ensures ArgsSize(Strs(lines)) == 1 + |FormatValue(Str(lines[0]))| + ArgsSize(Strs(lines[1..]))
  {
    assert Strs(lines)[1..] == Strs(lines[1..]);
  }

  /** What the cut keeps: a suffix, flagged as truncated when anything was dropped; the longest
      suffix that fits in 63 KiB, since every longer one does not. */
  lemma {:induction false} FitIsLongest(path: string, lines: seq<string>, truncated: bool)
    ensures var (kept, cut) := FitByPrinting(path, lines, truncated);
            && |kept| <= |lines| && kept == lines[|lines| - |kept|..]
            && (cut <==> truncated || |kept| < |lines|)
            && (Estimate(path, [], cut) <= 64512 ==> Estimate(path, kept, cut) <= 64512)
            && forall k :: 0 <= k < |lines| - |kept| ==> Estimate(path, lines[k..], truncated || k > 0) > 64512
  {
    hide Estimate;
    if lines != [] && Estimate(path, lines, truncated) > BUDGET {
      FitIsLongest(path, lines[1..], true);
      var kept := FitByPrinting(path, lines, truncated).0;
      assert lines[0..] == lines;
      forall k | 0 <= k < |lines| - |kept| ensures Estimate(path, lines[k..], truncated || k > 0) > 64512 {
        if k > 0 {
          assert lines[1..][k - 1..] == lines[k..];
        }
      }
    }
  }

  // ------------------------------------------------------------------------------------------
  // The signed reply
  // ------------------------------------------------------------------------------------------

  function GetLogsContent(path: string, lines: seq<string>, truncated: bool): seq<Node> {
    var (kept, cut) := FitByPrinting(path, lines, truncated);
    BlockContent(LogsBlock(path, cut, kept))
  }

  /** The printed size of what varies in the envelope besides the content. */
  function VaryingSize(hostname: string, id: string): nat {
    |FormatValue(Str(hostname))| + if id == "" then 0 else 4 + |FormatValue(Str(id))|
  }

  /** The exact size of a reply: the estimate, what hostname and id take, the printed timestamp and
      nonce, and 24 bytes more. */
  lemma ReplySize(path: string, kept: seq<string>, cut: bool, p: ResponseParams, mac: Mac, signed: int, newNonce: string)
    requires p.version == 0 || SupportedVersion(p.version)
    ensures var content := BlockContent(LogsBlock(path, cut, kept));
            |SignResponse(content, p, mac, signed, newNonce).value|
            == Estimate(path, kept, cut) + 24 + VaryingSize(p.hostname, p.reqID)
               + |FormatValue(Int(EnvelopeTime(p.timestamp, signed)))| + |FormatValue(Str(EnvelopeNonce(p.nonce, newNonce)))|
  {
    hide Serialize, Size, NodeSize, FormatValue, ResponseNodes, AuthNode, LogsBlock;
    var ts, nonce := EnvelopeTime(p.timestamp, signed), EnvelopeNonce(p.nonce, newNonce);
    var logs := LogsBlock(path, cut, kept);
    var nodes := ResponseNodes(BlockContent(logs), p, ts, nonce);
    var auth := AuthNode(nodes, mac, p.secret);
    SerializedSize(nodes + [auth]);
    SerializedSize(StandIn(path, kept, cut));
    StandInParts(path, kept, cut);
    SizeAppend(nodes, [auth], 0);
    SizeOne(auth, 0);
    AuthSize(nodes, mac, p.secret);
    EnvelopeSize(logs, p, ts, nonce);
    StandInHeadSize();
  }

  /** With a nonce of 32 digits that is at most 78 bytes besides host and id. */
  lemma ReplyOverhead(path: string, kept: seq<string>, cut: bool, p: ResponseParams, mac: Mac, signed: int, newNonce: string)
    requires p.version == 0 || SupportedVersion(p.version)
    requires Printable(Int(EnvelopeTime(p.timestamp, signed)))
    requires IsValidNonce(Str(EnvelopeNonce(p.nonce, newNonce))) && |EnvelopeNonce(p.nonce, newNonce)| == NONCE_MIN_HEX
    ensures var content := BlockContent(LogsBlock(path, cut, kept));
            |SignResponse(content, p, mac, signed, newNonce).value|
            <= Estimate(path, kept, cut) + 78 + VaryingSize(p.hostname, p.reqID)
  {
    hide SignResponse, Estimate, LogsBlock, FormatValue, IsValidNonce;
    ReplySize(path, kept, cut, p, mac, signed, newNonce);
    TimestampSize(EnvelopeTime(p.timestamp, signed));
    NonceSize(EnvelopeNonce(p.nonce, newNonce));
  }

  lemma AuthSize(nodes: seq<Node>, mac: Mac, secret: string)
    ensures NodeSize(AuthNode(nodes, mac, secret), 0)
         == NodeSize(Block("auth", [N0("signature", Str(Repeat('x', 43)))]), 0) + 65
  {
    hide Serialize, Size, FormatValue, ArgsSize;
    var signature := mac(secret, Serialize(nodes));
    var a, k, s := N0("algorithm", Str("hmac-sha256")), N0("key_id", Str("kid-pc-monitor-shared-secret")), N0("signature", Str(signature));
    assert [a, k, s] == [a] + [k] + [s];
    SizeAppend([a] + [k], [s], 2);
    SizeAppend([a], [k], 2);
    SizeOne(a, 2);
    SizeOne(k, 2);
    SizeOne(s, 2);
    ScalarSize("algorithm", Str("hmac-sha256"), 2);
    ScalarSize("key_id", Str("kid-pc-monitor-shared-secret"), 2);
    ScalarSize("signature", Str(signature), 2);
    SizeOne(N0("signature", Str(Repeat('x', 43))), 2);
    ScalarSize("signature", Str(Repeat('x', 43)), 2);
    SignatureSize(signature);
    ConstantSizes();
  }

  lemma ConstantSizes()
    ensures |FormatValue(Str("hmac-sha256"))| == 11
    ensures |FormatValue(Str("kid-pc-monitor-shared-secret"))| == 28
    ensures |FormatValue(Str(Repeat('x', 43)))| == 43
    ensures |FormatValue(Str(Repeat('a', 32)))| == 32
    ensures |FormatValue(Str("hostname"))| == 8
    ensures |FormatValue(Int(3))| == 1 && |FormatValue(Int(0))| == 1
    ensures |FormatValue(Str("ok"))| == 2
  {
    hide IsBare, Repeat;
    BareConstants();
    BareRepeats();
  }

  lemma BareConstants()
    ensures IsBare("hmac-sha256") && IsBare("kid-pc-monitor-shared-secret") && IsBare("hostname") && IsBare("ok")
  {}

  lemma BareRepeats()
    ensures IsBare(Repeat('x', 43)) && |Repeat('x', 43)| == 43
    ensures IsBare(Repeat('a', 32)) && |Repeat('a', 32)| == 32
  {}

  lemma {:induction false} PlainEscape(s: string)
    requires forall i :: 0 <= i < |s| ==> EscapeChar(s[i]) == [s[i]]
    ensures Escape(s) == s
  {
    if s != "" {
      PlainEscape(s[1..]);
    }
  }

  lemma SignatureSize(signature: string)
    requires IsSignature(signature)
    ensures |FormatValue(Str(signature))| == 46
  {
    hide Escape;
    assert !IsLetter(signature[43]) && !IsDigit(signature[43]);
    PlainEscape(signature);
  }

  lemma NonceSize(nonce: string)
    requires IsValidNonce(Str(nonce)) && |nonce| == NONCE_MIN_HEX
    ensures |FormatValue(Str(nonce))| <= 34
  {
    hide Escape;
    PlainEscape(nonce);
  }

  lemma TimestampSize(ts: int)
    requires Printable(Int(ts))
    ensures |FormatValue(Int(ts))| <= 20
  {
    var m: nat := if ts < 0 then -ts else ts;
    DigitsLength(m, 18);
    assert Pow10(19) > 0x8000_0000_0000_0000 by {
      assert Pow10(5) == 100000;
      assert Pow10(10) == 10000000000;
      assert Pow10(15) == 1000000000000000;
    }
  }

  lemma StandInHeadSize()
    ensures Size(StandInHead(), 0) == 79
  {
    hide NodeSize, FormatValue;
    var a, b, c, d, e := N0("v", Int(3)), N0("name", Str("hostname")), N0("timestamp", Int(0)),
      N0("nonce", Str(Repeat('a', 32))), N0("status", Str("ok"));
    assert StandInHead()[1..][1..][1..][1..] == [e];
    ScalarSize("v", Int(3), 0);
    ScalarSize("name", Str("hostname"), 0);
    ScalarSize("timestamp", Int(0), 0);
    ScalarSize("nonce", Str(Repeat('a', 32)), 0);
    ScalarSize("status", Str("ok"), 0);
    ConstantSizes();
    assert StandInHead() == [a] + [b] + [c] + [d] + [e];
    SizeAppend([a] + [b] + [c] + [d], [e], 0);
    SizeAppend([a] + [b] + [c], [d], 0);
    SizeAppend([a] + [b], [c], 0);
    SizeAppend([a], [b], 0);
    SizeOne(a, 0);
    SizeOne(b, 0);
    SizeOne(c, 0);
    SizeOne(d, 0);
    SizeOne(e, 0);
  }

  lemma OptSize(present: bool, name: string, v: Value)
    ensures Size(OptNode(present, name, v), 0) == if present then 2 + |name| + |FormatValue(v)| else 0
  {
    if present {
      SizeOne(N0(name, v), 0);
      ScalarSize(name, v, 0);
    }
  }

  lemma EnvelopeSize(logs: Node, p: ResponseParams, ts: int, nonce: string)
    ensures Size(ResponseNodes(BlockContent(logs), p, ts, nonce), 0)
         == 4 + (if p.reqID == "" then 0 else 4 + |FormatValue(Str(p.reqID))|) + 6 + |FormatValue(Str(p.hostname))|
            + 11 + |FormatValue(Int(ts))| + 7 + |FormatValue(Str(nonce))| + 10 + NodeSize(logs, 0)
  {
    hide Size, NodeSize, FormatValue, OptNode;
    var v, id := One("v", Int(PROTOCOL_VERSION)), OptNode(p.reqID != "", "id", Str(p.reqID));
    var n, t, x := One("name", Str(p.hostname)), One("timestamp", Int(ts)), One("nonce", Str(nonce));
    var content := BlockContent(logs);
    SizeAppend(v + id + n + t + x, content, 0);
    SizeAppend(v + id + n + t, x, 0);
    SizeAppend(v + id + n, t, 0);
    SizeAppend(v + id, n, 0);
    SizeAppend(v, id, 0);
    OneSize("v", Int(PROTOCOL_VERSION));
    OneSize("name", Str(p.hostname));
    OneSize("timestamp", Int(ts));
    OneSize("nonce", Str(nonce));
    OneSize("status", Str("ok"));
    OptSize(p.reqID != "", "id", Str(p.reqID));
    assert content == One("status", Str("ok")) + [logs];
    SizeAppend(One("status", Str("ok")), [logs], 0);
    SizeOne(logs, 0);
    ConstantSizes();
  }

  lemma OneSize(name: string, v: Value)
    ensures Size(One(name, v), 0) == 2 + |name| + |FormatValue(v)|
  {
    SizeOne(N0(name, v), 0);
    ScalarSize(name, v, 0);
  }
}
