/**
  The KDL subset of the wire protocol: documents, the printer, the tokenizer and the parser
  (go/protocol/kdl.go).
  */
module Kdl {
  import opened Text
  import opened Wrappers
  import Utf8

  datatype Value = Null | Bool(b: bool) | Int(n: int) | Str(s: string)

  datatype Node = Node(name: string, args: seq<Value>, children: seq<Node>) {
    function Arg(): Value {
      if args == [] then Null else args[0]
    }
  }

  datatype KdlError =
    | NotUtf8
    | UnterminatedString
    | UnterminatedUnicodeEscape
    | BadUnicodeEscape
    | UnsupportedEscape
    | IntegerOutOfRange
    | UnexpectedRightBrace
    | UnexpectedLeftBrace
    | NameNotIdentifier
    | NestedTooDeeply
    | MissingRightBrace

  type Parsed<+T> = Result<T, KdlError>

  const MAX_NESTING_DEPTH: nat := 32
  const MIN_INT64: int := -0x8000_0000_0000_0000
  const MAX_INT64: int := 0x7FFF_FFFF_FFFF_FFFF

  function N0(name: string, v: Value): Node {
    Node(name, [v], [])
  }

  function Block(name: string, children: seq<Node>): Node {
    Node(name, [], children)
  }

  // ------------------------------------------------------------------------------------------
  // The printer
  // ------------------------------------------------------------------------------------------

  predicate IsLetter(c: char) {
    'A' <= c <= 'Z' || 'a' <= c <= 'z' || c == '_'
  }

  predicate IsBare(s: string) {
    && s != "" && s != "true" && s != "false" && s != "null"
    && IsLetter(s[0])
    && forall i :: 1 <= i < |s| ==> IsLetter(s[i]) || IsDigit(s[i]) || s[i] in {'.', ':', '+', '-'}
  }

  function EscapeChar(c: char): string {
    if c == '\\' then "\\\\"
    else if c == '"' then "\\\""
    else if c == '\n' then "\\n"
    else if c == '\t' then "\\t"
    else if c == '\r' then "\\r"
    else [c]
  }

  function Escape(s: string): string {
    if s == "" then "" else EscapeChar(s[0]) + Escape(s[1..])
  }

  function FormatValue(v: Value): string {
    match v
    case Null => "null"
    case Bool(b) => if b then "true" else "false"
    case Int(n) => FormatInt(n)
    case Str(s) => if IsBare(s) then s else "\"" + Escape(s) + "\""
  }

  function FormatValues(vs: seq<Value>): (r: seq<string>)
    ensures |r| == |vs|
  {
    if vs == [] then [] else [FormatValue(vs[0])] + FormatValues(vs[1..])
  }

  function Head(n: Node): string {
    Join([n.name] + FormatValues(n.args), " ")
  }

  function NodeLines(n: Node, indent: nat): seq<string>
    decreases n
  {
    var pad := Repeat(' ', indent);
    if n.children == [] then [pad + Head(n)]
    else [pad + Head(n) + " {"] + Lines(n.children, indent + 2) + [pad + "}"]
  }

  /** The printed lines of a list of sibling nodes. */
  function Lines(nodes: seq<Node>, indent: nat): seq<string>
    decreases nodes
  {
    if nodes == [] then [] else NodeLines(nodes[0], indent) + Lines(nodes[1..], indent)
  }

  function Serialize(nodes: seq<Node>): string {
    Join(Lines(nodes, 0), "\n")
  }

  /** The source's line collector: `lines` is the slice every recursive call appends to. */
  method SerializeInto(nodes: seq<Node>, indent: nat, lines: seq<string>) returns (all: seq<string>)
    ensures all == lines + Lines(nodes, indent)
    decreases nodes
  {
    hide Join, Repeat, FormatValue;
    var pad := Repeat(' ', indent);
    all := lines;
    for k := 0 to |nodes|
      invariant all + Lines(nodes[k..], indent) == lines + Lines(nodes, indent)
    {
      var n := nodes[k];
      assert nodes[k..][1..] == nodes[k + 1..];
      var parts := [n.name];
      for j := 0 to |n.args|
        invariant parts + FormatValues(n.args[j..]) == [n.name] + FormatValues(n.args)
      {
        assert n.args[j..][1..] == n.args[j + 1..];
        parts := parts + [FormatValue(n.args[j])];
      }
      assert parts == [n.name] + FormatValues(n.args);
      var prefix := pad + Join(parts, " ");
      ghost var before := all;
      if |n.children| > 0 {
        all := all + [prefix + " {"];
        all := SerializeInto(n.children, indent + 2, all);
        all := all + [pad + "}"];
      } else {
        all := all + [prefix];
      }
      assert prefix == pad + Head(n);
      assert all == before + NodeLines(n, indent);
    }
  }

  // ------------------------------------------------------------------------------------------
  // The tokenizer
  // ------------------------------------------------------------------------------------------

  datatype Token = NL | LB | RB | Val(value: Value)

  predicate IsDelim(c: char) {
    c in {' ', '\t', '\n', '\r', '{', '}', ';', '"'}
  }

  predicate IsHex(c: char) {
    '0' <= c <= '9' || 'a' <= c <= 'f' || 'A' <= c <= 'F'
  }

  function HexDigit(c: char): (d: nat)
    requires IsHex(c)
    ensures d < 16
  {
    if c <= '9' then c as int - '0' as int
    else if c <= 'F' then c as int - 'A' as int + 10
    else c as int - 'a' as int + 10
  }

  function HexValue(s: string): nat
    requires forall i :: 0 <= i < |s| ==> IsHex(s[i])
  {
    if s == "" then 0
    else
      assert IsHex(s[|s| - 1]);
      HexValue(s[..|s| - 1]) * 16 + HexDigit(s[|s| - 1])
  }

  /** strings.IndexByte, with |s| in place of -1. */
  function IndexOf(s: string, c: char): (i: nat)
    ensures i <= |s| && c !in s[..i] && (i < |s| ==> s[i] == c)
  {
    if s == "" || s[0] == c then 0 else
      var i := 1 + IndexOf(s[1..], c);
      assert s[..i] == [s[0]] + s[1..][..i - 1];
      i
  }

  /** Decodes the escape whose first character (after the backslash) is s[0]; also how many
      characters it takes. */
  function Unescape(s: string): (r: Parsed<(string, nat)>)
    ensures r.Ok? ==> 1 <= r.value.1 <= |s| && |r.value.0| > 0
  {
    if s == "" then Err(UnterminatedString)
    else if s[0] == 'n' then Ok(("\n", 1))
    else if s[0] == 't' then Ok(("\t", 1))
    else if s[0] == 'r' then Ok(("\r", 1))
    else if s[0] == '"' then Ok(("\"", 1))
    else if s[0] == '\\' then Ok(("\\", 1))
    else if s[0] == '/' then Ok(("/", 1))
    else if s[0] == 'u' && |s| > 1 && s[1] == '{' then
      var end := IndexOf(s[2..], '}');
      if end == |s[2..]| then Err(UnterminatedUnicodeEscape)
      else
        var digits := s[2..][..end];
        if digits == "" || |digits| > 8 || exists i :: 0 <= i < |digits| && !IsHex(digits[i]) then
          Err(BadUnicodeEscape)
        else
          var cp := HexValue(digits);
          if cp > 0x10FFFF || 0xD800 <= cp <= 0xDFFF then Err(BadUnicodeEscape)
          else Ok((Utf8.Encode(cp), end + 3))
    else Err(UnsupportedEscape)
  }

  /** The rest of a quoted string after its opening quote: the decoded text, and what follows the
      closing quote. */
  function ReadString(s: string): (r: Parsed<(string, string)>)
    ensures r.Ok? ==> |r.value.1| < |s|
    decreases |s|
  {
    if s == "" then Err(UnterminatedString)
    else if s[0] == '"' then Ok(("", s[1..]))
    else if s[0] == '\\' then
      var (text, n) :- Unescape(s[1..]);
      PrependText(text, ReadString(s[1 + n..]))
    else PrependText([s[0]], ReadString(s[1..]))
  }

  function PrependText(text: string, r: Parsed<(string, string)>): Parsed<(string, string)> {
    if r.Ok? then Ok((text + r.value.0, r.value.1)) else r
  }

  lemma PrependTextAgain(a: string, b: string, r: Parsed<(string, string)>)
    ensures PrependText("", r) == r
    ensures PrependText(a, PrependText(b, r)) == PrependText(a + b, r)
  {
    if r.Ok? {
      assert "" + r.value.0 == r.value.0;
      assert a + (b + r.value.0) == a + b + r.value.0;
    }
  }

  /** strings.TrimLeft(word, "+-"). */
  function TrimSigns(word: string): (r: string)
    ensures |r| <= |word|
  {
    if word != "" && word[0] in {'+', '-'} then TrimSigns(word[1..]) else word
  }

  /** strconv.ParseInt(word, 10, 64) of a word with at most one sign. */
  function SignedValue(word: string): int
    requires AllDigits(TrimSigns(word))
  {
    var magnitude: int := DecimalValue(TrimSigns(word));
    if word[0] == '-' then -magnitude else magnitude
  }

  function ParseBare(word: string): Parsed<Value> {
    if word == "true" then Ok(Bool(true))
    else if word == "false" then Ok(Bool(false))
    else if word == "null" then Ok(Null)
    else
      var digits := TrimSigns(word);
      if |word| - |digits| <= 1 && AllDigits(digits) then
        var n := SignedValue(word);
        if MIN_INT64 <= n <= MAX_INT64 then Ok(Int(n)) else Err(IntegerOutOfRange)
      else Ok(Str(word))
  }

  /** The length of the bare word at the head of s. */
  function WordLen(s: string): (n: nat)
    ensures n <= |s|
    ensures forall i :: 0 <= i < n ==> !IsDelim(s[i])
    ensures n < |s| ==> IsDelim(s[n])
  {
    if s == "" || IsDelim(s[0]) then 0 else 1 + WordLen(s[1..])
  }

  /** Tokens already found in front of the outcome for the rest. */
  function Prepend(ts: seq<Token>, r: Parsed<seq<Token>>): Parsed<seq<Token>> {
    if r.Ok? then Ok(ts + r.value) else r
  }

  lemma PrependPrepend(a: seq<Token>, b: seq<Token>, r: Parsed<seq<Token>>)
    ensures Prepend([], r) == r
    ensures Prepend(a, Prepend(b, r)) == Prepend(a + b, r)
  {
    if r.Ok? {
      assert [] + r.value == r.value;
      assert a + (b + r.value) == a + b + r.value;
    }
  }

  function Tokenize(s: string): Parsed<seq<Token>>
    decreases |s|
  {
    if s == "" then Ok([])
    else if s[0] == ' ' || s[0] == '\t' then Tokenize(s[1..])
    else if s[0] == '\n' || s[0] == '\r' || s[0] == ';' then Prepend([NL], Tokenize(s[1..]))
    else if s[0] == '{' then Prepend([LB], Tokenize(s[1..]))
    else if s[0] == '}' then Prepend([RB], Tokenize(s[1..]))
    else if s[0] == '"' then
      var (text, rest) :- ReadString(s[1..]);
      Prepend([Val(Str(text))], Tokenize(rest))
    else
      var n := WordLen(s);
      var v :- ParseBare(s[..n]);
      Prepend([Val(v)], Tokenize(s[n..]))
  }

  /** The inner loop over a quoted string: `start` is just after the opening quote, `next` just
      after the closing one. */
  method ScanString(text: string, start: nat) returns (r: Parsed<string>, next: nat)
    requires start <= |text|
    ensures start <= next <= |text|
    ensures var spec := ReadString(text[start..]);
            if spec.Ok? then next > start && r == Ok(spec.value.0) && text[next..] == spec.value.1
            else r == Err(spec.error)
  {
    hide Unescape;
    var i, n := start, |text|;
    next := start;
    var buf := "";
    ghost var spec := ReadString(text[start..]);
    PrependTextAgain("", "", spec);
    while i < n && text[i] != '"'
      invariant start <= i <= n
      invariant PrependText(buf, ReadString(text[i..])) == spec
    {
      if text[i] == '\\' {
        assert text[i..][1..] == text[i + 1..];
        var u := Unescape(text[i + 1..]);
        if u.Err? {
          return Err(u.error), start;
        }
        assert text[i..][1 + u.value.1..] == text[i + 1 + u.value.1..];
        PrependTextAgain(buf, u.value.0, ReadString(text[i + 1 + u.value.1..]));
        buf := buf + u.value.0;
        i := i + 1 + u.value.1;
      } else {
        assert text[i..][1..] == text[i + 1..];
        PrependTextAgain(buf, [text[i]], ReadString(text[i + 1..]));
        buf := buf + [text[i]];
        i := i + 1;
      }
    }
    if i >= n {
      return Err(UnterminatedString), start;
    }
    assert text[i..][1..] == text[i + 1..];
    assert buf + "" == buf;
    return Ok(buf), i + 1;
  }

  /** The inner loop over a bare word. */
  method ScanWord(text: string, start: nat) returns (next: nat)
    requires start <= |text|
    ensures next == start + WordLen(text[start..])
  {
    next := start;
    while next < |text| && !IsDelim(text[next])
      invariant start <= next <= |text|
      invariant WordLen(text[start..]) == next - start + WordLen(text[next..])
    {
      assert text[next..][1..] == text[next + 1..];
      next := next + 1;
    }
  }

  /** What one token adds in front of the tokens of the rest. */
  lemma TokenizeAhead(tokens: seq<Token>, t: Token, s: string, rest: string)
    requires Tokenize(s) == Prepend([t], Tokenize(rest))
    ensures Prepend(tokens + [t], Tokenize(rest)) == Prepend(tokens, Tokenize(s))
  {
    PrependPrepend(tokens, [t], Tokenize(rest));
  }

  method TokenizeText(text: string) returns (r: Parsed<seq<Token>>)
    ensures r == Tokenize(text)
  {
    var tokens: seq<Token> := [];
    var i, n := 0, |text|;
    assert text[0..] == text;
    PrependPrepend([], [], Tokenize(text));
    while i < n
      invariant 0 <= i <= n
      invariant Prepend(tokens, Tokenize(text[i..])) == Tokenize(text)
    {
      var ch := text[i];
      ghost var start := i;
      ghost var s := text[i..];
      assert s[0] == ch && s[1..] == text[i + 1..];
      var t: Token;
      if ch == ' ' || ch == '\t' {
        i := i + 1;
        continue;
      }
      if ch == '\n' || ch == '\r' || ch == ';' {
        t, i := NL, i + 1;
      } else if ch == '{' {
        t, i := LB, i + 1;
      } else if ch == '}' {
        t, i := RB, i + 1;
      } else if ch == '"' {
        var text', next := ScanString(text, i + 1);
        if text'.Err? {
          return Err(text'.error);
        }
        t, i := Val(Str(text'.value)), next;
      } else {
        var next := ScanWord(text, i);
        assert text[i..next] == s[..WordLen(s)] && s[WordLen(s)..] == text[next..];
        var v := ParseBare(text[i..next]);
        if v.Err? {
          return Err(v.error);
        }
        t, i := Val(v.value), next;
      }
      TokenizeAhead(tokens, t, s, text[i..]);
      tokens := tokens + [t];
    }
    assert text[i..] == "" && tokens + [] == tokens;
    return Ok(tokens);
  }

  // ------------------------------------------------------------------------------------------
  // The parser
  // ------------------------------------------------------------------------------------------

  /** How many tokens at the head of ts are values. */
  function ValRun(ts: seq<Token>): (n: nat)
    ensures n <= |ts|
    ensures forall i :: 0 <= i < n ==> ts[i].Val?
    ensures n < |ts| ==> !ts[n].Val?
  {
    if ts == [] || !ts[0].Val? then 0 else 1 + ValRun(ts[1..])
  }

  function Values(ts: seq<Token>): seq<Value>
    requires forall i :: 0 <= i < |ts| ==> ts[i].Val?
  {
    seq(|ts|, i requires 0 <= i < |ts| => ts[i].value)
  }

  function PrependNodes(ns: seq<Node>, r: Parsed<(seq<Node>, seq<Token>)>): Parsed<(seq<Node>, seq<Token>)> {
    if r.Ok? then Ok((ns + r.value.0, r.value.1)) else r
  }

  lemma PrependNodesAgain(a: seq<Node>, b: seq<Node>, r: Parsed<(seq<Node>, seq<Token>)>)
    ensures PrependNodes([], r) == r
    ensures PrependNodes(a, PrependNodes(b, r)) == PrependNodes(a + b, r)
  {
    if r.Ok? {
      assert [] + r.value.0 == r.value.0;
      assert a + (b + r.value.0) == a + b + r.value.0;
    }
  }

  lemma PrependNodesLast(ns: seq<Node>, r: Parsed<(seq<Node>, seq<Token>)>)
    ensures r.Err? ==> PrependNodes(ns, r) == r
    ensures r.Ok? && r.value.0 == [] ==> PrependNodes(ns, r) == Ok((ns, r.value.1))
  {
    assert ns + [] == ns;
  }

  /** The nodes at the head of ts, up to the end (depth 0) or the closing brace of the block, and
      the tokens after them. */
  function ParseNodes(ts: seq<Token>, depth: nat): (r: Parsed<(seq<Node>, seq<Token>)>)
    ensures r.Ok? ==> |r.value.1| <= |ts| && (depth > 0 ==> |r.value.1| < |ts|)
    decreases |ts|, 1
  {
    if ts == [] then
      if depth > 0 then Err(MissingRightBrace) else Ok(([], []))
    else match ts[0]
      case NL => ParseNodes(ts[1..], depth)
      case RB => if depth == 0 then Err(UnexpectedRightBrace) else Ok(([], ts[1..]))
      case LB => Err(UnexpectedLeftBrace)
      case Val(name) =>
        if !name.Str? then Err(NameNotIdentifier)
        else
          var (node, rest) :- ParseNode(name.s, ts[1..], depth);
          PrependNodes([node], ParseNodes(rest, depth))
  }

  /** The rest of a node after its name, and the tokens after it. */
  function ParseNode(name: string, ts: seq<Token>, depth: nat): (r: Parsed<(Node, seq<Token>)>)
    ensures r.Ok? ==> |r.value.1| <= |ts|
    decreases |ts|, 2
  {
    var n := ValRun(ts);
    var args := Values(ts[..n]);
    if n == |ts| || ts[n] != LB then Ok((Node(name, args, []), ts[n..]))
    else if depth >= MAX_NESTING_DEPTH then Err(NestedTooDeeply)
    else
      var (children, rest) :- ParseNodes(ts[n + 1..], depth + 1);
      Ok((Node(name, args, children), rest))
  }

  /** One round of the loop over sibling nodes, by the token it finds. */
  lemma ParseNodesStep(ts: seq<Token>, depth: nat)
    ensures ts == [] ==> ParseNodes(ts, depth) == if depth > 0 then Err(MissingRightBrace) else Ok(([], []))
    ensures ts != [] && ts[0] == NL ==> ParseNodes(ts, depth) == ParseNodes(ts[1..], depth)
    ensures ts != [] && ts[0] == RB ==>
              ParseNodes(ts, depth) == if depth == 0 then Err(UnexpectedRightBrace) else Ok(([], ts[1..]))
    ensures ts != [] && ts[0] == LB ==> ParseNodes(ts, depth) == Err(UnexpectedLeftBrace)
    ensures ts != [] && ts[0].Val? && !ts[0].value.Str? ==> ParseNodes(ts, depth) == Err(NameNotIdentifier)
    ensures ts != [] && ts[0].Val? && ts[0].value.Str? ==>
              var r := ParseNode(ts[0].value.s, ts[1..], depth);
              ParseNodes(ts, depth)
              == if r.Err? then Err(r.error) else PrependNodes([r.value.0], ParseNodes(r.value.1, depth))
  {
    hide ParseNode;
  }

  function Parse(text: string): Parsed<seq<Node>> {
    if !Utf8.Valid(text) then Err(NotUtf8)
    else
      var tokens :- Tokenize(text);
      var (nodes, _) :- ParseNodes(tokens, 0);
      Ok(nodes)
  }

  /** The tokens of one parse and the position its recursive calls share. */
  class TokenReader {
    const tokens: seq<Token>
    var pos: nat

    constructor (tokens: seq<Token>)
      ensures this.tokens == tokens && pos == 0
    {
      this.tokens := tokens;
      pos := 0;
    }

    /** The arguments at the current position. */
    method ReadArgs() returns (args: seq<Value>)
      requires pos <= |tokens|
      modifies this
      ensures pos == old(pos) + ValRun(tokens[old(pos)..]) <= |tokens|
      ensures args == Values(tokens[old(pos)..pos])
    {
      ghost var first := pos;
      args := [];
      while pos < |tokens| && tokens[pos].Val?
        invariant first <= pos <= |tokens|
        invariant ValRun(tokens[first..]) == pos - first + ValRun(tokens[pos..])
        invariant forall i :: first <= i < pos ==> tokens[i].Val?
        invariant args == Values(tokens[first..pos])
      {
        assert tokens[pos..][1..] == tokens[pos + 1..];
        args := args + [tokens[pos].value];
        pos := pos + 1;
      }
    }

    method ReadNode(name: string, depth: nat) returns (r: Parsed<Node>)
      requires pos <= |tokens|
      modifies this
      ensures old(pos) <= pos <= |tokens|
      ensures var spec := ParseNode(name, tokens[old(pos)..], depth);
              if spec.Ok? then r == Ok(spec.value.0) && tokens[pos..] == spec.value.1 else r == Err(spec.error)
      decreases |tokens| - pos, 0
    {
      hide ValRun, ParseNodes;
      ghost var ts := tokens[pos..];
      var args := ReadArgs();
      assert args == Values(ts[..ValRun(ts)]);
      assert ts[ValRun(ts)..] == tokens[pos..];
      if pos < |tokens| && tokens[pos].LB? {
        if depth >= MAX_NESTING_DEPTH {
          return Err(NestedTooDeeply);
        }
        assert ts[ValRun(ts) + 1..] == tokens[pos + 1..];
        pos := pos + 1;
        var children := ReadNodes(depth + 1);
        if children.Err? {
          return Err(children.error);
        }
        return Ok(Node(name, args, children.value));
      }
      return Ok(Node(name, args, []));
    }

    method ReadNodes(depth: nat) returns (r: Parsed<seq<Node>>)
      requires pos <= |tokens|
      modifies this
      ensures old(pos) <= pos <= |tokens|
      ensures var spec := ParseNodes(tokens[old(pos)..], depth);
              if spec.Ok? then r == Ok(spec.value.0) && tokens[pos..] == spec.value.1 else r == Err(spec.error)
      decreases |tokens| - pos, 1
    {
      hide ParseNodes, ParseNode, PrependNodes;
      ghost var start := pos;
      var nodes: seq<Node> := [];
      PrependNodesAgain([], [], ParseNodes(tokens[start..], depth));
      while pos < |tokens|
        invariant start <= pos <= |tokens|
        invariant PrependNodes(nodes, ParseNodes(tokens[pos..], depth)) == ParseNodes(tokens[start..], depth)
      {
        assert tokens[pos..][1..] == tokens[pos + 1..];
        ParseNodesStep(tokens[pos..], depth);
        PrependNodesLast(nodes, ParseNodes(tokens[pos..], depth));
        match tokens[pos] {
          case NL =>
            pos := pos + 1;
          case RB =>
            if depth == 0 {
              return Err(UnexpectedRightBrace);
            }
            pos := pos + 1;
            return Ok(nodes);
          case LB =>
            return Err(UnexpectedLeftBrace);
          case Val(name) =>
            if !name.Str? {
              return Err(NameNotIdentifier);
            }
            pos := pos + 1;
            var node := ReadNode(name.s, depth);
            if node.Err? {
              return Err(node.error);
            }
            PrependNodesAgain(nodes, [node.value], ParseNodes(tokens[pos..], depth));
            nodes := nodes + [node.value];
        }
      }
      ParseNodesStep(tokens[pos..], depth);
      PrependNodesLast(nodes, ParseNodes(tokens[pos..], depth));
      if depth > 0 {
        return Err(MissingRightBrace);
      }
      return Ok(nodes);
    }
  }

  method ParseText(text: string) returns (r: Parsed<seq<Node>>)
    ensures r == Parse(text)
  {
    if !Utf8.Valid(text) {
      return Err(NotUtf8);
    }
    var tokens := TokenizeText(text);
    if tokens.Err? {
      return Err(tokens.error);
    }
    var reader := new TokenReader(tokens.value);
    assert tokens.value[0..] == tokens.value;
    r := reader.ReadNodes(0);
  }
}
