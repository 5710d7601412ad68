/**
  The parser undoes the printer (go/protocol/kdl.go), which is what frame signatures rest on: the
  receiver checks a signature over its own printing of the document it parsed.
  */
module KdlRoundTrip {
  import opened Text
  import opened Wrappers
  import opened Kdl
  import Utf8

  // ------------------------------------------------------------------------------------------
  // The documents that survive the wire
  // ------------------------------------------------------------------------------------------

  /** A name that reads back as itself although the printer never quotes names. */
  predicate PlainName(name: string) {
    && name != ""
    && (forall i :: 0 <= i < |name| ==> !IsDelim(name[i]))
    && ParseBare(name) == Ok(Str(name))
    && Utf8.Valid(name)
  }

  predicate Printable(v: Value) {
    match v
    case Int(n) => MIN_INT64 <= n <= MAX_INT64
    case Str(s) => Utf8.Valid(s)
    case _ => true
  }

  predicate PrintableNode(n: Node)
    decreases n
  {
    && PlainName(n.name)
    && (forall v :: v in n.args ==> Printable(v))
    && PrintableNodes(n.children)
  }

  predicate PrintableNodes(nodes: seq<Node>)
    decreases nodes
  {
    nodes == [] || (PrintableNode(nodes[0]) && PrintableNodes(nodes[1..]))
  }

  /** No block among the nodes is opened at or below the depth limit. */
  predicate Shallow(nodes: seq<Node>, depth: nat)
    decreases nodes
  {
    nodes == [] || (ShallowNode(nodes[0], depth) && Shallow(nodes[1..], depth))
  }

  predicate ShallowNode(n: Node, depth: nat)
    decreases n
  {
    n.children == [] || (depth < MAX_NESTING_DEPTH && Shallow(n.children, depth + 1))
  }

  /** Every bare identifier is a plain name: ParseBare takes neither a keyword nor a number for it. */
  lemma BareIsPlain(name: string)
    requires IsBare(name)
    ensures PlainName(name)
  {
    assert IsLetter(name[0]) && !IsDigit(name[0]);
    assert TrimSigns(name) == name;
    assert !AllDigits(name);
    Utf8.AsciiValid(name);
  }

  // ------------------------------------------------------------------------------------------
  // Tokens of printed text
  // ------------------------------------------------------------------------------------------

  predicate Boundary(rest: string) {
    rest == "" || IsDelim(rest[0])
  }

  lemma {:induction false} WordThenBoundary(word: string, rest: string)
    requires forall i :: 0 <= i < |word| ==> !IsDelim(word[i])
    requires Boundary(rest)
    ensures WordLen(word + rest) == |word|
  {
    if word == "" {
      assert word + rest == rest;
    } else {
      WordThenBoundary(word[1..], rest);
      assert (word + rest)[1..] == word[1..] + rest;
    }
  }

  lemma TokenizeWord(word: string, rest: string)
    requires word != "" && forall i :: 0 <= i < |word| ==> !IsDelim(word[i])
    requires Boundary(rest)
    requires ParseBare(word).Ok?
    ensures Tokenize(word + rest) == Prepend([Val(ParseBare(word).value)], Tokenize(rest))
  {
    WordThenBoundary(word, rest);
    assert (word + rest)[0] == word[0] && !IsDelim(word[0]);
    assert (word + rest)[..|word|] == word;
    assert (word + rest)[|word|..] == rest;
  }

  lemma ReadEscapedChar(c: char, rest: string)
    ensures ReadString(EscapeChar(c) + rest) == PrependText([c], ReadString(rest))
  {
    var s := EscapeChar(c) + rest;
    if |EscapeChar(c)| == 1 {
      assert s[0] == c && s[1..] == rest;
    } else {
      assert s[0] == '\\' && s[1..][0] == EscapeChar(c)[1];
      assert s[2..] == rest;
      assert Unescape(s[1..]) == Ok(([c], 1));
    }
  }

  lemma {:induction false} ReadEscaped(text: string, rest: string)
    ensures ReadString(Escape(text) + "\"" + rest) == Ok((text, rest))
  {
    hide EscapeChar;
    if text == "" {
      assert (Escape(text) + "\"" + rest)[1..] == rest;
    } else {
      var tail := Escape(text[1..]) + "\"" + rest;
      ReadEscaped(text[1..], rest);
      ReadEscapedChar(text[0], tail);
      assert Escape(text) + "\"" + rest == EscapeChar(text[0]) + tail;
      assert [text[0]] + text[1..] == text;
    }
  }

  lemma TokenizeQuoted(text: string, rest: string)
    ensures Tokenize("\"" + Escape(text) + "\"" + rest) == Prepend([Val(Str(text))], Tokenize(rest))
  {
    var s := "\"" + Escape(text) + "\"" + rest;
    assert s[1..] == Escape(text) + "\"" + rest;
    ReadEscaped(text, rest);
  }

  lemma TokenizeBlank(rest: string)
    ensures Tokenize(" " + rest) == Tokenize(rest)
  {
    assert (" " + rest)[1..] == rest;
  }

  lemma TokenizeSymbol(c: char, t: Token, rest: string)
    requires (c == '\n' && t == NL) || (c == '{' && t == LB) || (c == '}' && t == RB)
    ensures Tokenize([c] + rest) == Prepend([t], Tokenize(rest))
  {
    assert ([c] + rest)[1..] == rest;
  }

  /** Two stretches of text, one after the other. */
  lemma TokenizeBoth(x: string, a: seq<Token>, y: string, b: seq<Token>, rest: string)
    requires Tokenize(x + (y + rest)) == Prepend(a, Tokenize(y + rest))
    requires Tokenize(y + rest) == Prepend(b, Tokenize(rest))
    ensures Tokenize(x + y + rest) == Prepend(a + b, Tokenize(rest))
  {
    hide Tokenize;
    assert x + y + rest == x + (y + rest);
    PrependPrepend(a, b, Tokenize(rest));
  }

  /** A printed integer is a word that ParseBare reads back. */
  lemma ParsePrintedInt(n: int)
    requires MIN_INT64 <= n <= MAX_INT64
    ensures ParseBare(FormatInt(n)) == Ok(Int(n))
  {
    var m: nat := if n < 0 then -n else n;
    var word := FormatInt(n);
    DigitsValue(m);
    TrimPrinted(n);
    NumeralNotKeyword(word);
    assert |word| - |Digits(m)| <= 1;
    assert SignedValue(word) == n;
  }

  lemma PrintedIntWord(n: int)
    ensures FormatInt(n) != ""
    ensures forall i :: 0 <= i < |FormatInt(n)| ==> !IsDelim(FormatInt(n)[i])
  {
    var ds := Digits(if n < 0 then -n else n);
    assert forall i :: 0 <= i < |ds| ==> IsDigit(ds[i]);
  }

  lemma TrimPrinted(n: int)
    ensures TrimSigns(FormatInt(n)) == Digits(if n < 0 then -n else n)
    ensures FormatInt(n)[0] == '-' <==> n < 0
    ensures IsDigit(FormatInt(n)[0]) || FormatInt(n)[0] == '-'
  {
    hide Digits;
    var ds := Digits(if n < 0 then -n else n);
    assert IsDigit(ds[0]);
    if n < 0 {
      TrimOneSign('-', ds);
    } else {
      assert TrimSigns(ds) == ds;
    }
  }

  lemma TrimOneSign(sign: char, ds: string)
    requires sign in {'+', '-'} && ds != "" && IsDigit(ds[0])
    ensures TrimSigns([sign] + ds) == ds
  {
    assert ([sign] + ds)[1..] == ds;
  }

  lemma NumeralNotKeyword(word: string)
    requires word != "" && (IsDigit(word[0]) || word[0] == '-')
    ensures word != "true" && word != "false" && word != "null"
  {
    assert "true"[0] == 't' && "false"[0] == 'f' && "null"[0] == 'n';
  }

  lemma TokenizeValue(v: Value, rest: string)
    requires Printable(v) && Boundary(rest)
    ensures Tokenize(FormatValue(v) + rest) == Prepend([Val(v)], Tokenize(rest))
  {
    hide Tokenize, Escape;
    match v {
      case Null =>
        TokenizeWord("null", rest);
      case Bool(b) =>
        TokenizeWord(FormatValue(v), rest);
      case Int(n) =>
        ParsePrintedInt(n);
        PrintedIntWord(n);
        TokenizeWord(FormatInt(n), rest);
      case Str(s) =>
        if IsBare(s) {
          BareIsPlain(s);
          TokenizeWord(s, rest);
        } else {
          TokenizeQuoted(s, rest);
        }
    }
  }

  function Vals(vs: seq<Value>): (ts: seq<Token>)
    ensures |ts| == |vs| && forall i :: 0 <= i < |vs| ==> ts[i] == Val(vs[i])
  {
    seq(|vs|, i requires 0 <= i < |vs| => Val(vs[i]))
  }

  lemma {:induction false} TokenizeArgs(vs: seq<Value>, rest: string)
    requires forall v :: v in vs ==> Printable(v)
    requires Boundary(rest)
    ensures Tokenize(Prefixed(FormatValues(vs), " ") + rest) == Prepend(Vals(vs), Tokenize(rest))
  {
    hide Tokenize, FormatValue;
    if vs == [] {
      assert Prefixed(FormatValues(vs), " ") + rest == rest;
      PrependPrepend([], [], Tokenize(rest));
    } else {
      var first, others := " " + FormatValue(vs[0]), Prefixed(FormatValues(vs[1..]), " ");
      TokenizeArgs(vs[1..], rest);
      assert FormatValues(vs)[1..] == FormatValues(vs[1..]);
      ArgsBoundary(vs[1..], rest);
      TokenizeArg(vs[0], others + rest);
      TokenizeBoth(first, [Val(vs[0])], others, Vals(vs[1..]), rest);
      assert [Val(vs[0])] + Vals(vs[1..]) == Vals(vs);
    }
  }

  lemma TokenizeArg(v: Value, rest: string)
    requires Printable(v) && Boundary(rest)
    ensures Tokenize(" " + FormatValue(v) + rest) == Prepend([Val(v)], Tokenize(rest))
  {
    hide Tokenize, FormatValue;
    TokenizeValue(v, rest);
    TokenizeBlank(FormatValue(v) + rest);
    assert " " + FormatValue(v) + rest == " " + (FormatValue(v) + rest);
  }

  lemma ArgsBoundary(vs: seq<Value>, rest: string)
    requires Boundary(rest)
    ensures Boundary(Prefixed(FormatValues(vs), " ") + rest)
  {
    if vs == [] {
      assert Prefixed(FormatValues(vs), " ") + rest == rest;
    } else {
      assert (Prefixed(FormatValues(vs), " ") + rest)[0] == ' ';
    }
  }

  lemma TokenizeHead(n: Node, rest: string)
    requires PrintableNode(n) && Boundary(rest)
    ensures Tokenize(Head(n) + rest) == Prepend([Val(Str(n.name))] + Vals(n.args), Tokenize(rest))
  {
    hide Tokenize, FormatValues, Prefixed, Head, Utf8.Valid, ParseBare, PrintableNodes, Prepend;
    var args := Prefixed(FormatValues(n.args), " ");
    HeadSplit(n);
    TokenizeArgs(n.args, rest);
    ArgsBoundary(n.args, rest);
    TokenizeWord(n.name, args + rest);
    TokenizeBoth(n.name, [Val(Str(n.name))], args, Vals(n.args), rest);
  }

  lemma HeadSplit(n: Node)
    ensures Head(n) == n.name + Prefixed(FormatValues(n.args), " ")
  {
    var parts := [n.name] + FormatValues(n.args);
    JoinPrefixed(parts, " ");
    assert parts[1..] == FormatValues(n.args);
    assert " " + Join(parts, " ") == " " + (n.name + Prefixed(FormatValues(n.args), " "));
    assert (" " + Join(parts, " "))[1..] == Join(parts, " ");
  }

  lemma {:induction false} TokenizePad(n: nat, rest: string)
    ensures Tokenize(Repeat(' ', n) + rest) == Tokenize(rest)
  {
    hide Tokenize;
    if n == 0 {
      assert Repeat(' ', n) + rest == rest;
    } else {
      TokenizePad(n - 1, rest);
      assert Repeat(' ', n) + rest == " " + (Repeat(' ', n - 1) + rest);
      TokenizeBlank(Repeat(' ', n - 1) + rest);
    }
  }

  /** The tokens of a printed node, each line led by its newline. */
  function NodeTokens(n: Node): (ts: seq<Token>)
    ensures |ts| >= 2 && ts[0] == NL && ts[1] == Val(Str(n.name))
    decreases n
  {
    [NL, Val(Str(n.name))] + Vals(n.args)
    + if n.children == [] then [] else [LB] + NodesTokens(n.children) + [NL, RB]
  }

  function NodesTokens(nodes: seq<Node>): seq<Token>
    decreases nodes
  {
    if nodes == [] then [] else NodeTokens(nodes[0]) + NodesTokens(nodes[1..])
  }

  lemma TokenizeLine(pad: nat, n: Node, rest: string)
    requires PrintableNode(n) && Boundary(rest)
    ensures Tokenize("\n" + (Repeat(' ', pad) + Head(n) + rest))
         == Prepend([NL, Val(Str(n.name))] + Vals(n.args), Tokenize(rest))
  {
    hide Tokenize, Head;
    var line := Repeat(' ', pad) + Head(n) + rest;
    TokenizeSymbol('\n', NL, line);
    assert line == Repeat(' ', pad) + (Head(n) + rest);
    TokenizePad(pad, Head(n) + rest);
    TokenizeHead(n, rest);
    PrependPrepend([NL], [Val(Str(n.name))] + Vals(n.args), Tokenize(rest));
    assert [NL] + ([Val(Str(n.name))] + Vals(n.args)) == [NL, Val(Str(n.name))] + Vals(n.args);
  }

  lemma TokenizeClose(pad: nat, rest: string)
    ensures Tokenize("\n" + (Repeat(' ', pad) + "}" + rest)) == Prepend([NL, RB], Tokenize(rest))
  {
    hide Tokenize;
    var line := Repeat(' ', pad) + "}" + rest;
    TokenizeSymbol('\n', NL, line);
    assert line == Repeat(' ', pad) + ("}" + rest);
    TokenizePad(pad, "}" + rest);
    TokenizeSymbol('}', RB, rest);
    PrependPrepend([NL], [RB], Tokenize(rest));
    assert [NL] + [RB] == [NL, RB];
  }

  predicate LineEnd(rest: string) {
    rest == "" || rest[0] == '\n'
  }

  lemma LinesLead(nodes: seq<Node>, indent: nat, rest: string)
    requires LineEnd(rest)
    ensures LineEnd(Prefixed(Lines(nodes, indent), "\n") + rest)
  {
    var lines := Lines(nodes, indent);
    if lines == [] {
      assert Prefixed(lines, "\n") + rest == rest;
    }
  }

  lemma {:induction false} TokenizeNode(n: Node, indent: nat, rest: string)
    requires PrintableNode(n) && LineEnd(rest)
    ensures Tokenize(Prefixed(NodeLines(n, indent), "\n") + rest) == Prepend(NodeTokens(n), Tokenize(rest))
    decreases n
  {
    hide Tokenize, Lines, NodeLines, Prefixed, Head, NodesTokens, Prepend, Vals;
    var pad := Repeat(' ', indent);
    if n.children == [] {
      LeafText(n, indent, rest);
      TokenizeLine(indent, n, rest);
      LeafTokens(n);
    } else {
      var close := "\n" + (pad + "}" + rest);
      var body := Prefixed(Lines(n.children, indent + 2), "\n") + close;
      BlockText(n, indent, rest);
      TokenizeNodes(n.children, indent + 2, close);
      TokenizeBlockHead(n, indent, body);
      TokenizeClose(indent, rest);
      BlockTokens(n, Tokenize(rest));
    }
  }

  lemma LeafTokens(n: Node)
    requires n.children == []
    ensures NodeTokens(n) == [NL, Val(Str(n.name))] + Vals(n.args)
  {}

  lemma BlockTokens(n: Node, r: Parsed<seq<Token>>)
    requires n.children != []
    ensures Prepend([NL, Val(Str(n.name))] + Vals(n.args) + [LB], Prepend(NodesTokens(n.children), Prepend([NL, RB], r)))
         == Prepend(NodeTokens(n), r)
  {
    var head := [NL, Val(Str(n.name))] + Vals(n.args) + [LB];
    PrependPrepend(NodesTokens(n.children), [NL, RB], r);
    PrependPrepend(head, NodesTokens(n.children) + [NL, RB], r);
    assert head + (NodesTokens(n.children) + [NL, RB]) == NodeTokens(n);
  }

  lemma LeafText(n: Node, indent: nat, rest: string)
    requires n.children == []
    ensures Prefixed(NodeLines(n, indent), "\n") + rest == "\n" + (Repeat(' ', indent) + Head(n) + rest)
  {}

  lemma BlockText(n: Node, indent: nat, rest: string)
    requires n.children != []
    ensures Prefixed(NodeLines(n, indent), "\n") + rest
         == "\n" + (Repeat(' ', indent) + Head(n) + (" {" +
            (Prefixed(Lines(n.children, indent + 2), "\n") + ("\n" + (Repeat(' ', indent) + "}" + rest)))))
  {
    hide Head, Lines;
    var pad := Repeat(' ', indent);
    var open := pad + Head(n) + " {";
    var inner := Lines(n.children, indent + 2);
    PrefixedAppend([open] + inner, [pad + "}"], "\n");
    PrefixedAppend([open], inner, "\n");
    assert Prefixed([open], "\n") == "\n" + open;
    assert Prefixed([pad + "}"], "\n") == "\n" + (pad + "}");
  }

  lemma TokenizeBlockHead(n: Node, indent: nat, body: string)
    requires PrintableNode(n)
    ensures Tokenize("\n" + (Repeat(' ', indent) + Head(n) + (" {" + body)))
         == Prepend([NL, Val(Str(n.name))] + Vals(n.args) + [LB], Tokenize(body))
  {
    hide Tokenize, Head;
    TokenizeLine(indent, n, " {" + body);
    assert " {" + body == " " + ("{" + body);
    TokenizeBlank("{" + body);
    TokenizeSymbol('{', LB, body);
    PrependPrepend([NL, Val(Str(n.name))] + Vals(n.args), [LB], Tokenize(body));
  }

  lemma {:induction false} TokenizeNodes(nodes: seq<Node>, indent: nat, rest: string)
    requires PrintableNodes(nodes) && LineEnd(rest)
    ensures Tokenize(Prefixed(Lines(nodes, indent), "\n") + rest) == Prepend(NodesTokens(nodes), Tokenize(rest))
    decreases nodes
  {
    hide Tokenize, NodeLines, NodeTokens, Head;
    if nodes == [] {
      assert Prefixed(Lines(nodes, indent), "\n") + rest == rest;
      PrependPrepend([], [], Tokenize(rest));
    } else {
      var first, others := Prefixed(NodeLines(nodes[0], indent), "\n"), Prefixed(Lines(nodes[1..], indent), "\n");
      PrefixedAppend(NodeLines(nodes[0], indent), Lines(nodes[1..], indent), "\n");
      LinesLead(nodes[1..], indent, rest);
      TokenizeNode(nodes[0], indent, others + rest);
      TokenizeNodes(nodes[1..], indent, rest);
      TokenizeBoth(first, NodeTokens(nodes[0]), others, NodesTokens(nodes[1..]), rest);
    }
  }

  /** The tokens of a printed document are the tokens of its nodes. */
  lemma TokenizeSerialized(nodes: seq<Node>)
    requires PrintableNodes(nodes)
    ensures nodes == [] ==> Tokenize(Serialize(nodes)) == Ok([])
    ensures nodes != [] ==> Prepend([NL], Tokenize(Serialize(nodes))) == Ok(NodesTokens(nodes))
  {
    if nodes != [] {
      var text := Prefixed(Lines(nodes, 0), "\n");
      assert NodeLines(nodes[0], 0) != [];
      JoinPrefixed(Lines(nodes, 0), "\n");
      assert text == "\n" + Serialize(nodes);
      assert text[1..] == Serialize(nodes);
      TokenizeNodes(nodes, 0, "");
      assert text + "" == text;
      assert NodesTokens(nodes) + [] == NodesTokens(nodes);
    }
  }

  // ------------------------------------------------------------------------------------------
  // Parsing those tokens
  // ------------------------------------------------------------------------------------------

  /** What may follow a complete node. */
  predicate NodeEnd(ts: seq<Token>) {
    ts == [] || ts[0] == NL || ts[0] == RB
  }

  lemma {:induction false} ValRunOf(vs: seq<Value>, rest: seq<Token>)
    requires rest == [] || !rest[0].Val?
    ensures ValRun(Vals(vs) + rest) == |vs|
    ensures Values((Vals(vs) + rest)[..|vs|]) == vs
  {
    if vs == [] {
      assert Vals(vs) + rest == rest;
    } else {
      ValRunOf(vs[1..], rest);
      assert (Vals(vs) + rest)[1..] == Vals(vs[1..]) + rest;
    }
  }

  lemma ParseClose(tail: seq<Token>, depth: nat)
    requires depth > 0
    ensures ParseNodes([NL, RB] + tail, depth) == Ok(([], tail))
  {
    assert ([NL, RB] + tail)[1..] == [RB] + tail && ([RB] + tail)[1..] == tail;
  }

  /** Arguments, and then whatever is not one. */
  lemma ParseNodeIs(name: string, args: seq<Value>, after: seq<Token>, depth: nat)
    requires after == [] || !after[0].Val?
    ensures ParseNode(name, Vals(args) + after, depth) ==
            if after == [] || after[0] != LB then Ok((Node(name, args, []), after))
            else if depth >= MAX_NESTING_DEPTH then Err(NestedTooDeeply)
            else
              var r := ParseNodes(after[1..], depth + 1);
              if r.Err? then Err(r.error) else Ok((Node(name, args, r.value.0), r.value.1))
  {
    hide ParseNodes, Vals, ValRun, Values;
    var ts := Vals(args) + after;
    ValRunOf(args, after);
    assert ts[|args|..] == after;
    assert after != [] ==> ts[|args|] == after[0] && ts[|args| + 1..] == after[1..];
  }

  lemma {:induction false} ParseNodeTokens(n: Node, tail: seq<Token>, depth: nat)
    requires NodeEnd(tail)
    ensures var r := ParseNode(n.name, NodeTokens(n)[2..] + tail, depth);
            if ShallowNode(n, depth) then r == Ok((n, tail)) else r == Err(NestedTooDeeply)
    decreases n, 1
  {
    hide ParseNode, ParseNodes, NodesTokens;
    if n.children == [] {
      assert NodeTokens(n)[2..] + tail == Vals(n.args) + tail;
      ParseNodeIs(n.name, n.args, tail, depth);
    } else {
      var inner := NodesTokens(n.children) + ([NL, RB] + tail);
      assert NodeTokens(n)[2..] + tail == Vals(n.args) + ([LB] + inner);
      assert ([LB] + inner)[1..] == inner;
      ParseNodeIs(n.name, n.args, [LB] + inner, depth);
      if depth < MAX_NESTING_DEPTH {
        ParseClose(tail, depth + 1);
        ParseNodesTokens(n.children, [NL, RB] + tail, depth + 1);
        assert n.children + [] == n.children;
      }
    }
  }

  lemma {:induction false} ParseNodesTokens(nodes: seq<Node>, tail: seq<Token>, depth: nat)
    requires NodeEnd(tail)
    requires ParseNodes(tail, depth).Ok?
    ensures ParseNodes(NodesTokens(nodes) + tail, depth)
         == if Shallow(nodes, depth) then PrependNodes(nodes, ParseNodes(tail, depth)) else Err(NestedTooDeeply)
    decreases nodes, 2
  {
    hide ParseNode, NodeTokens;
    if nodes == [] {
      assert NodesTokens(nodes) + tail == tail;
      PrependNodesAgain([], [], ParseNodes(tail, depth));
    } else {
      var n := nodes[0];
      var rest := NodesTokens(nodes[1..]) + tail;
      NodesTokensLead(nodes[1..], tail);
      ParseNodeTokens(n, rest, depth);
      ParseNodesTokens(nodes[1..], tail, depth);
      assert NodesTokens(nodes) + tail == NodeTokens(n) + rest;
      ParseFirst(n, rest, depth);
      PrependNodesAgain([n], nodes[1..], ParseNodes(tail, depth));
      assert [n] + nodes[1..] == nodes;
    }
  }

  lemma NodesTokensLead(nodes: seq<Node>, tail: seq<Token>)
    requires NodeEnd(tail)
    ensures NodeEnd(NodesTokens(nodes) + tail)
  {
    if nodes == [] {
      assert NodesTokens(nodes) + tail == tail;
    } else {
      assert (NodesTokens(nodes) + tail)[0] == NodeTokens(nodes[0])[0];
    }
  }

  lemma ParseFirst(n: Node, rest: seq<Token>, depth: nat)
    ensures var r := ParseNode(n.name, NodeTokens(n)[2..] + rest, depth);
            ParseNodes(NodeTokens(n) + rest, depth)
            == if r.Err? then Err(r.error) else PrependNodes([r.value.0], ParseNodes(r.value.1, depth))
  {
    hide ParseNodes, ParseNode, NodesTokens;
    var ts := NodeTokens(n) + rest;
    ParseNodesStep(ts, depth);
    ParseNodesStep(ts[1..], depth);
    assert ts[0] == NL && ts[1..][0] == Val(Str(n.name));
    assert ts[1..][1..] == NodeTokens(n)[2..] + rest;
  }

  // ------------------------------------------------------------------------------------------
  // Printed text is UTF-8
  // ------------------------------------------------------------------------------------------

  lemma {:induction false} EscapeMaps(s: string)
    ensures Escape(s) == Utf8.MapBytes(s, EscapeChar)
  {
    if s != "" {
      EscapeMaps(s[1..]);
    }
  }

  lemma EscapeValid(s: string)
    requires Utf8.Valid(s)
    ensures Utf8.Valid(Escape(s))
  {
    EscapeMaps(s);
    Utf8.MapBytesValid(s, EscapeChar);
  }

  lemma FormatValueValid(v: Value)
    requires Printable(v)
    ensures Utf8.Valid(FormatValue(v))
  {
    match v {
      case Str(s) =>
        if !IsBare(s) {
          EscapeValid(s);
          Utf8.AsciiValid("\"");
          Utf8.ValidAppend("\"", Escape(s));
          Utf8.ValidAppend("\"" + Escape(s), "\"");
        }
      case Int(n) =>
        var ds := Digits(if n < 0 then -n else n);
        assert forall i :: 0 <= i < |ds| ==> IsDigit(ds[i]);
        Utf8.AsciiValid(FormatInt(n));
      case _ =>
        Utf8.AsciiValid(FormatValue(v));
    }
  }

  lemma {:induction false} PrefixedValid(parts: seq<string>, sep: string)
    requires Utf8.Valid(sep) && forall p :: p in parts ==> Utf8.Valid(p)
    ensures Utf8.Valid(Prefixed(parts, sep))
  {
    if parts != [] {
      PrefixedValid(parts[1..], sep);
      Utf8.ValidAppend(sep, parts[0]);
      Utf8.ValidAppend(sep + parts[0], Prefixed(parts[1..], sep));
    }
  }

  lemma {:induction false} FormatValuesValid(vs: seq<Value>)
    requires forall v :: v in vs ==> Printable(v)
    ensures forall p :: p in FormatValues(vs) ==> Utf8.Valid(p)
  {
    hide Utf8.Valid, FormatValue;
    if vs != [] {
      FormatValueValid(vs[0]);
      FormatValuesValid(vs[1..]);
    }
  }

  lemma LineValid(indent: nat, n: Node)
    requires PrintableNode(n)
    ensures Utf8.Valid(Repeat(' ', indent) + Head(n))
    ensures Utf8.Valid(Repeat(' ', indent) + Head(n) + " {")
    ensures Utf8.Valid(Repeat(' ', indent) + "}")
  {
    hide Utf8.Valid, Head, FormatValues, Prefixed;
    HeadSplit(n);
    FormatValuesValid(n.args);
    Utf8.AsciiValid(" ");
    PrefixedValid(FormatValues(n.args), " ");
    Utf8.ValidAppend(n.name, Prefixed(FormatValues(n.args), " "));
    Utf8.AsciiValid(Repeat(' ', indent));
    Utf8.ValidAppend(Repeat(' ', indent), Head(n));
    Utf8.AsciiValid(" {");
    Utf8.ValidAppend(Repeat(' ', indent) + Head(n), " {");
    Utf8.AsciiValid(Repeat(' ', indent) + "}");
  }

  lemma {:induction false} LinesValid(nodes: seq<Node>, indent: nat)
    requires PrintableNodes(nodes)
    ensures forall line :: line in Lines(nodes, indent) ==> Utf8.Valid(line)
    decreases nodes
  {
    hide Utf8.Valid, Head, NodeLines;
    if nodes != [] {
      NodeLinesValid(nodes[0], indent);
      LinesValid(nodes[1..], indent);
    }
  }

  lemma {:induction false} NodeLinesValid(n: Node, indent: nat)
    requires PrintableNode(n)
    ensures forall line :: line in NodeLines(n, indent) ==> Utf8.Valid(line)
    decreases n
  {
    hide Utf8.Valid, Head, Lines;
    LineValid(indent, n);
    LinesValid(n.children, indent + 2);
  }

  lemma SerializeValid(nodes: seq<Node>)
    requires PrintableNodes(nodes)
    ensures Utf8.Valid(Serialize(nodes))
  {
    var lines := Lines(nodes, 0);
    if lines != [] {
      LinesValid(nodes, 0);
      Utf8.AsciiValid("\n");
      PrefixedValid(lines, "\n");
      JoinPrefixed(lines, "\n");
      assert Prefixed(lines, "\n")[1..] == Serialize(nodes);
    }
  }

  // ------------------------------------------------------------------------------------------
  // Main results
  // ------------------------------------------------------------------------------------------

  /** What parsing a printed document gives: the document itself, unless a block is opened too
      deep, and then exactly that error. */
  lemma ParseSerialized(nodes: seq<Node>)
    requires PrintableNodes(nodes)
    ensures Parse(Serialize(nodes)) == if Shallow(nodes, 0) then Ok(nodes) else Err(NestedTooDeeply)
  {
    SerializeValid(nodes);
    TokenizeSerialized(nodes);
    if nodes != [] {
      var ts := Tokenize(Serialize(nodes)).value;
      assert ([NL] + ts)[1..] == ts;
      assert NodesTokens(nodes) == [NL] + ts;
      ParseNodesTokens(nodes, [], 0);
      assert NodesTokens(nodes) + [] == NodesTokens(nodes);
      assert nodes + [] == nodes;
    }
  }

  /** Hence the signed text identifies the document. */
  lemma SerializeInjective(a: seq<Node>, b: seq<Node>)
    requires PrintableNodes(a) && Shallow(a, 0)
    requires PrintableNodes(b) && Shallow(b, 0)
    requires Serialize(a) == Serialize(b)
    ensures a == b
  {
    ParseSerialized(a);
    ParseSerialized(b);
  }
}
