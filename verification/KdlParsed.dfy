/**
  What the parser can return, and which names survive the printer (go/protocol/kdl.go).
  */
module KdlParsed {
  import opened Text
  import opened Wrappers
  import opened Kdl
  import opened KdlRoundTrip
  import Utf8

  /** Everything but the plainness of names: valid UTF-8 and 64-bit integers throughout. */
  predicate Readable(nodes: seq<Node>)
    decreases nodes
  {
    nodes == [] || (ReadableNode(nodes[0]) && Readable(nodes[1..]))
  }

  predicate ReadableNode(n: Node)
    decreases n
  {
    Utf8.Valid(n.name) && (forall v :: v in n.args ==> Printable(v)) && Readable(n.children)
  }

  predicate PlainNames(nodes: seq<Node>)
    decreases nodes
  {
    nodes == [] || (PlainName(nodes[0].name) && PlainNames(nodes[0].children) && PlainNames(nodes[1..]))
  }

  lemma {:induction false} ReadablePlain(nodes: seq<Node>)
    requires Readable(nodes) && PlainNames(nodes)
    ensures PrintableNodes(nodes)
    decreases nodes
  {
    if nodes != [] {
      ReadablePlain(nodes[0].children);
      ReadablePlain(nodes[1..]);
    }
  }

  // ------------------------------------------------------------------------------------------
  // Tokens of valid text
  // ------------------------------------------------------------------------------------------

  lemma ValidSkip(s: string, k: nat)
    requires Utf8.Valid(s) && k <= |s| && Utf8.Ascii(s[..k])
    ensures Utf8.Valid(s[k..])
  {
    if k > 0 {
      assert s[k - 1] == s[..k][k - 1];
      Utf8.ValidCut(s, k - 1);
      var t := s[k - 1..];
      assert Utf8.HeadLen(t) == 1;
      assert t[1..] == s[k..];
    }
  }

  lemma {:induction false} ReadSpan(s: string, n: nat)
    requires n <= |s| && forall i :: 0 <= i < n ==> s[i] != '"' && s[i] != '\\'
    ensures ReadString(s) == PrependText(s[..n], ReadString(s[n..]))
    decreases n
  {
    if n == 0 {
      PrependTextAgain("", "", ReadString(s));
    } else {
      ReadSpan(s[1..], n - 1);
      assert s[1..][n - 1..] == s[n..];
      assert s[..n] == [s[0]] + s[1..][..n - 1];
      PrependTextAgain([s[0]], s[1..][..n - 1], ReadString(s[n..]));
    }
  }

  lemma UnescapedIsCharacter(s: string)
    requires Unescape(s).Ok?
    ensures Utf8.IsCharacter(Unescape(s).value.0)
  {}

  /** The characters an escape takes are all ASCII. */
  lemma UnescapeAscii(s: string)
    requires Unescape(s).Ok?
    ensures Utf8.Ascii(s[..Unescape(s).value.1])
    ensures Utf8.Valid(Unescape(s).value.0)
  {
    UnescapedIsCharacter(s);
    Utf8.CharacterValid(Unescape(s).value.0);
    var n := Unescape(s).value.1;
    if n > 1 {
      var end := IndexOf(s[2..], '}');
      var digits := s[2..][..end];
      assert n == end + 3;
      forall i | 0 <= i < n
        ensures s[i] as int < 0x80
      {
        if 2 <= i < end + 2 {
          assert s[i] == digits[i - 2] && IsHex(digits[i - 2]);
        } else if i == end + 2 {
          assert s[i] == s[2..][end];
        }
      }
    }
  }

  lemma {:induction false} ReadStringValid(s: string)
    requires Utf8.Valid(s) && ReadString(s).Ok?
    ensures Utf8.Valid(ReadString(s).value.0) && Utf8.Valid(ReadString(s).value.1)
    decreases |s|
  {
    var n := Utf8.HeadLen(s);
    if n == 1 {
      if s[0] == '\\' {
        var (text, k) := Unescape(s[1..]).value;
        UnescapeAscii(s[1..]);
        ValidSkip(s[1..], k);
        assert s[1..][k..] == s[1 + k..];
        ReadStringValid(s[1 + k..]);
        Utf8.ValidAppend(text, ReadString(s[1 + k..]).value.0);
      } else if s[0] != '"' {
        ReadStringValid(s[1..]);
        Utf8.AsciiValid([s[0]]);
        Utf8.ValidAppend([s[0]], ReadString(s[1..]).value.0);
      }
    } else {
      forall i | 0 <= i < n ensures s[i] != '"' && s[i] != '\\' {
        Utf8.HeadBytes(s, i);
      }
      ReadSpan(s, n);
      ReadStringValid(s[n..]);
      assert Utf8.HeadLen(s[..n]) == n && s[..n][n..] == "";
      Utf8.ValidAppend(s[..n], ReadString(s[n..]).value.0);
    }
  }

  predicate PrintableToken(t: Token) {
    t.Val? ==> Printable(t.value)
  }

  lemma {:induction false} TokenizePrintable(s: string)
    requires Utf8.Valid(s) && Tokenize(s).Ok?
    ensures forall t :: t in Tokenize(s).value ==> PrintableToken(t)
    decreases |s|
  {
    hide ParseBare, ReadString;
    if s == "" {
    } else if s[0] == '"' {
      ValidTail(s);
      ReadStringValid(s[1..]);
      TokenizePrintable(ReadString(s[1..]).value.1);
    } else if IsDelim(s[0]) {
      ValidTail(s);
      TokenizePrintable(s[1..]);
    } else {
      var n := WordLen(s);
      Utf8.ValidCut(s, n);
      TokenizePrintable(s[n..]);
      ParseBarePrintable(s[..n]);
    }
  }

  lemma ValidTail(s: string)
    requires s != "" && Utf8.Valid(s) && s[0] as int < 0x80
    ensures Utf8.Valid(s[1..])
  {
    assert Utf8.HeadLen(s) == 1;
  }

  lemma ParseBarePrintable(word: string)
    requires Utf8.Valid(word) && ParseBare(word).Ok?
    ensures Printable(ParseBare(word).value)
  {
    hide Utf8.Valid, SignedValue, TrimSigns;
  }

  // ------------------------------------------------------------------------------------------
  // Nodes of such tokens
  // ------------------------------------------------------------------------------------------

  lemma {:induction false} ParseNodeReadable(name: string, ts: seq<Token>, depth: nat)
    requires Utf8.Valid(name) && forall t :: t in ts ==> PrintableToken(t)
    requires ParseNode(name, ts, depth).Ok?
    ensures var (n, rest) := ParseNode(name, ts, depth).value;
            ReadableNode(n) && ShallowNode(n, depth) && forall t :: t in rest ==> t in ts
    decreases |ts|, 2
  {
    var k := ValRun(ts);
    assert forall i :: 0 <= i < k ==> PrintableToken(ts[i]);
    if k < |ts| && ts[k] == LB {
      ParseNodesReadable(ts[k + 1..], depth + 1);
    }
  }

  lemma {:induction false} ParseNodesReadable(ts: seq<Token>, depth: nat)
    requires forall t :: t in ts ==> PrintableToken(t)
    requires ParseNodes(ts, depth).Ok?
    ensures var (nodes, rest) := ParseNodes(ts, depth).value;
            Readable(nodes) && Shallow(nodes, depth) && forall t :: t in rest ==> t in ts
    decreases |ts|, 1
  {
    if ts != [] {
      match ts[0] {
        case NL => ParseNodesReadable(ts[1..], depth);
        case RB =>
        case LB =>
        case Val(name) =>
          assert PrintableToken(ts[0]);
          ParseNodeReadable(name.s, ts[1..], depth);
          var (node, rest) := ParseNode(name.s, ts[1..], depth).value;
          ParseNodesReadable(rest, depth);
          var more := ParseNodes(rest, depth).value.0;
          assert ([node] + more)[1..] == more;
      }
    }
  }

  /** Whatever the text, a successful parse is readable and keeps the depth limit. */
  lemma ParseReadable(text: string)
    requires Parse(text).Ok?
    ensures Readable(Parse(text).value) && Shallow(Parse(text).value, 0)
  {
    TokenizePrintable(text);
    ParseNodesReadable(Tokenize(text).value, 0);
  }

  /** Printing is a canonical form: a received document with plain names prints to a text that
      parses to the same document, however the sender spelt it. */
  lemma ParsedIsCanonical(text: string)
    requires Parse(text).Ok? && PlainNames(Parse(text).value)
    ensures Parse(Serialize(Parse(text).value)) == Parse(text)
  {
    ParseReadable(text);
    ReadablePlain(Parse(text).value);
    ParseSerialized(Parse(text).value);
  }

  // ------------------------------------------------------------------------------------------
  // Exactly which names survive
  // ------------------------------------------------------------------------------------------

  lemma {:induction false} ReadStringShorter(s: string)
    requires ReadString(s).Ok?
    ensures |ReadString(s).value.0| + |ReadString(s).value.1| < |s|
    decreases |s|
  {
    if s[0] == '\\' {
      var (text, k) := Unescape(s[1..]).value;
      UnescapeShorter(s[1..]);
      ReadStringShorter(s[1 + k..]);
    } else if s[0] != '"' {
      ReadStringShorter(s[1..]);
    }
  }

  /** No escape decodes to more bytes than it is written with. */
  lemma UnescapeShorter(s: string)
    requires Unescape(s).Ok?
    ensures |Unescape(s).value.0| <= Unescape(s).value.1
  {
    var (text, n) := Unescape(s).value;
    if n > 1 {
      assert |text| <= 4 && n >= 4;
    }
  }

  /** Every string token is shorter than the text, unless the text is one bare word. */
  lemma {:induction false} TokenLength(s: string, t: Token)
    requires Tokenize(s).Ok? && t in Tokenize(s).value && t.Val? && t.value.Str?
    ensures |t.value.s| <= |s|
    ensures |t.value.s| == |s| ==> WordLen(s) == |s| && ParseBare(s) == Ok(t.value)
    decreases |s|
  {
    if s[0] == '"' {
      var (text, rest) := ReadString(s[1..]).value;
      ReadStringShorter(s[1..]);
      if t != Val(Str(text)) {
        TokenLength(rest, t);
      }
    } else if IsDelim(s[0]) {
      TokenLength(s[1..], t);
    } else {
      var n := WordLen(s);
      if t != Val(ParseBare(s[..n]).value) {
        TokenLength(s[n..], t);
      } else {
        assert ParseBare(s[..n]).value == Str(s[..n]);
        assert n == |s| ==> s[..n] == s;
      }
    }
  }

  /** A name the parser reports is one of its tokens. */
  lemma {:induction false} FirstNameIsToken(ts: seq<Token>, depth: nat)
    requires ParseNodes(ts, depth).Ok? && ParseNodes(ts, depth).value.0 != []
    ensures Val(Str(ParseNodes(ts, depth).value.0[0].name)) in ts
    decreases |ts|
  {
    if ts[0] == NL {
      FirstNameIsToken(ts[1..], depth);
    }
  }

  /** A one-word document survives the wire exactly when its name is plain: the printer's missing
      quotes lose every other name. */
  lemma NameSurvives(name: string)
    ensures Parse(Serialize([Node(name, [], [])])) == Ok([Node(name, [], [])]) <==> PlainName(name)
  {
    hide Tokenize, ParseNodes, Serialize, ParseBare;
    var doc := [Node(name, [], [])];
    OneWordText(name);
    if PlainName(name) {
      assert PrintableNode(doc[0]) && PrintableNodes(doc);
      ParseSerialized(doc);
    }
    if Parse(name) == Ok(doc) {
      FirstNameIsToken(Tokenize(name).value, 0);
      TokenLength(name, Val(Str(name)));
      assert name != "" by {
        EmptyText();
      }
    }
  }

  lemma EmptyText()
    ensures Tokenize("") == Ok([])
  {}

  lemma OneWordText(name: string)
    ensures Serialize([Node(name, [], [])]) == name
  {
    var n := Node(name, [], []);
    assert Repeat(' ', 0) + Head(n) == name;
    assert Lines([n], 0) == [name] + [];
  }

  // ------------------------------------------------------------------------------------------
  // The reference implementation's escaping
  // ------------------------------------------------------------------------------------------

  /** str.replace of one character. */
  function ReplaceAll(s: string, c: char, with: string): string {
    if s == "" then "" else (if s[0] == c then with else [s[0]]) + ReplaceAll(s[1..], c, with)
  }

  function ChainedEscape(s: string): string {
    ReplaceAll(ReplaceAll(ReplaceAll(ReplaceAll(ReplaceAll(
      s, '\\', "\\\\"), '"', "\\\""), '\n', "\\n"), '\t', "\\t"), '\r', "\\r")
  }

  lemma ReplaceNothing(c: char, with: string)
    ensures ReplaceAll("", c, with) == ""
  {}

  lemma ReplaceStep(x: char, s: string, c: char, with: string)
    ensures ReplaceAll([x] + s, c, with) == (if x == c then with else [x]) + ReplaceAll(s, c, with)
  {
    assert ([x] + s)[1..] == s;
  }

  lemma {:induction false} ReplaceAppend(a: string, b: string, c: char, with: string)
    ensures ReplaceAll(a + b, c, with) == ReplaceAll(a, c, with) + ReplaceAll(b, c, with)
  {
    hide ReplaceAll;
    if a == "" {
      assert a + b == b;
      ReplaceNothing(c, with);
    } else {
      ReplaceAppend(a[1..], b, c, with);
      ReplaceStep(a[0], a[1..], c, with);
      ReplaceStep(a[0], a[1..] + b, c, with);
      assert [a[0]] + a[1..] == a && [a[0]] + (a[1..] + b) == a + b;
    }
  }

  lemma ChainedEscapeAppend(a: string, b: string)
    ensures ChainedEscape(a + b) == ChainedEscape(a) + ChainedEscape(b)
  {
    var a1, b1 := ReplaceAll(a, '\\', "\\\\"), ReplaceAll(b, '\\', "\\\\");
    var a2, b2 := ReplaceAll(a1, '"', "\\\""), ReplaceAll(b1, '"', "\\\"");
    var a3, b3 := ReplaceAll(a2, '\n', "\\n"), ReplaceAll(b2, '\n', "\\n");
    var a4, b4 := ReplaceAll(a3, '\t', "\\t"), ReplaceAll(b3, '\t', "\\t");
    ReplaceAppend(a, b, '\\', "\\\\");
    ReplaceAppend(a1, b1, '"', "\\\"");
    ReplaceAppend(a2, b2, '\n', "\\n");
    ReplaceAppend(a3, b3, '\t', "\\t");
    ReplaceAppend(a4, b4, '\r', "\\r");
  }

  lemma ReplaceOne(x: char, c: char, with: string)
    ensures ReplaceAll([x], c, with) == if x == c then with else [x]
  {}

  lemma ReplaceTwo(x: char, y: char, c: char, with: string)
    requires x != c && y != c
    ensures ReplaceAll([x, y], c, with) == [x, y]
  {
    assert [x, y][1..] == [y];
    ReplaceOne(y, c, with);
  }

  lemma ChainedEscapeChar(c: char)
    ensures ChainedEscape([c]) == EscapeChar(c)
  {
    ReplaceOne(c, '\\', "\\\\");
    if c == '\\' {
      ReplaceTwo('\\', '\\', '"', "\\\"");
      ReplaceTwo('\\', '\\', '\n', "\\n");
      ReplaceTwo('\\', '\\', '\t', "\\t");
      ReplaceTwo('\\', '\\', '\r', "\\r");
    } else {
      ReplaceOne(c, '"', "\\\"");
      ReplaceTwo('\\', '"', '\n', "\\n");
      ReplaceTwo('\\', '"', '\t', "\\t");
      ReplaceTwo('\\', '"', '\r', "\\r");
      ReplaceOne(c, '\n', "\\n");
      ReplaceTwo('\\', 'n', '\t', "\\t");
      ReplaceTwo('\\', 'n', '\r', "\\r");
      ReplaceOne(c, '\t', "\\t");
      ReplaceTwo('\\', 't', '\r', "\\r");
      ReplaceOne(c, '\r', "\\r");
    }
  }

  /** The reference implementation's five passes over the text equal the single pass: no later
      pass touches what an earlier one wrote. */
  lemma {:induction false} EscapeIsChained(s: string)
    ensures ChainedEscape(s) == Escape(s)
  {
    if s != "" {
      EscapeIsChained(s[1..]);
      ChainedEscapeChar(s[0]);
      ChainedEscapeAppend([s[0]], s[1..]);
      assert [s[0]] + s[1..] == s;
    }
  }
}
