/**
  Which documents survive the wire, although the printer never quotes names (go/protocol/kdl.go).

  The proof weighs tokens.  Parsing loses no weight; printing a document and tokenizing the text never
  adds any, and keeps all of it only if every name comes back as one token, itself.
  */
module KdlNames {
  import opened Text
  import opened Wrappers
  import opened Kdl
  import opened KdlRoundTrip
  import opened KdlParsed
  import Utf8

  predicate NoQuotes(nodes: seq<Node>)
    decreases nodes
  {
    nodes == [] || ('"' !in nodes[0].name && NoQuotes(nodes[0].children) && NoQuotes(nodes[1..]))
  }

  // ------------------------------------------------------------------------------------------
  // Weights
  // ------------------------------------------------------------------------------------------

  function Weight(v: Value): nat {
    if v.Str? then 2 * |v.s| + 1 else 1
  }

  function ArgsWeight(vs: seq<Value>): nat {
    if vs == [] then 0 else Weight(vs[0]) + ArgsWeight(vs[1..])
  }

  function NodeWeight(n: Node): nat
    decreases n
  {
    Weight(Str(n.name)) + ArgsWeight(n.args) + NodesWeight(n.children)
  }

  function NodesWeight(nodes: seq<Node>): nat
    decreases nodes
  {
    if nodes == [] then 0 else NodeWeight(nodes[0]) + NodesWeight(nodes[1..])
  }

  function TokensWeight(ts: seq<Token>): nat {
    if ts == [] then 0 else (if ts[0].Val? then Weight(ts[0].value) else 0) + TokensWeight(ts[1..])
  }

  function TextWeight(s: string): nat {
    if Tokenize(s).Ok? then TokensWeight(Tokenize(s).value) else 0
  }

  lemma {:induction false} TokensWeightAppend(a: seq<Token>, b: seq<Token>)
    ensures TokensWeight(a + b) == TokensWeight(a) + TokensWeight(b)
  {
    if a == [] {
      assert a + b == b;
    } else {
      TokensWeightAppend(a[1..], b);
      assert (a + b)[1..] == a[1..] + b;
    }
  }

  lemma {:induction false} ValsWeight(vs: seq<Value>)
    ensures TokensWeight(Vals(vs)) == ArgsWeight(vs)
  {
    if vs != [] {
      ValsWeight(vs[1..]);
      assert Vals(vs)[1..] == Vals(vs[1..]);
    }
  }

  // ------------------------------------------------------------------------------------------
  // Parsing
  // ------------------------------------------------------------------------------------------

  lemma {:induction false} ArgsOfRun(ts: seq<Token>)
    ensures TokensWeight(ts) == ArgsWeight(Values(ts[..ValRun(ts)])) + TokensWeight(ts[ValRun(ts)..])
  {
    var n := ValRun(ts);
    if n > 0 {
      ArgsOfRun(ts[1..]);
      assert Values(ts[..n])[1..] == Values(ts[1..][..n - 1]);
      assert ts[n..] == ts[1..][n - 1..];
    } else {
      assert ts[0..] == ts;
    }
  }

  lemma {:induction false} ParseNodeWeight(name: string, ts: seq<Token>, depth: nat)
    requires ParseNode(name, ts, depth).Ok?
    ensures var (n, rest) := ParseNode(name, ts, depth).value;
            Weight(Str(name)) + TokensWeight(ts) == NodeWeight(n) + TokensWeight(rest)
    decreases |ts|, 2
  {
    hide ParseNodes;
    ArgsOfRun(ts);
    var k := ValRun(ts);
    if k < |ts| && ts[k] == LB {
      ParseNodesWeight(ts[k + 1..], depth + 1);
      assert ts[k..][1..] == ts[k + 1..];
    }
  }

  lemma {:induction false} ParseNodesWeight(ts: seq<Token>, depth: nat)
    requires ParseNodes(ts, depth).Ok?
    ensures var (nodes, rest) := ParseNodes(ts, depth).value;
            TokensWeight(ts) == NodesWeight(nodes) + TokensWeight(rest)
    decreases |ts|, 1
  {
    hide ParseNodes, ParseNode, NodeWeight;
    ParseNodesStep(ts, depth);
    if ts != [] {
      match ts[0] {
        case NL => ParseNodesWeight(ts[1..], depth);
        case RB =>
        case LB =>
        case Val(name) =>
          ParseNodeWeight(name.s, ts[1..], depth);
          var (node, rest) := ParseNode(name.s, ts[1..], depth).value;
          ParseNodesWeight(rest, depth);
          var more := ParseNodes(rest, depth).value.0;
          assert ([node] + more)[1..] == more;
      }
    }
  }

  // ------------------------------------------------------------------------------------------
  // Stretches of text
  // ------------------------------------------------------------------------------------------

  /** The stretch of text in front of rest yields tokens of its own, of weight at most w, and of weight
      w only if it is plain. */
  predicate Within(text: string, rest: string, w: nat, plain: bool) {
    Tokenize(text).Ok? ==>
      && Tokenize(rest).Ok?
      && TextWeight(text) <= w + TextWeight(rest)
      && (TextWeight(text) == w + TextWeight(rest) ==> plain)
  }

  lemma WithinBoth(a: string, b: string, c: string, v: nat, w: nat, p: bool, q: bool)
    requires Within(a, b, v, p) && Within(b, c, w, q)
    ensures Within(a, c, v + w, p && q)
  {}

  /** Tokens found in front of rest. */
  lemma WithinPrepend(text: string, ts: seq<Token>, rest: string)
    requires Tokenize(text) == Prepend(ts, Tokenize(rest))
    ensures Within(text, rest, TokensWeight(ts), true)
    ensures Tokenize(text).Ok? ==> TextWeight(text) == TokensWeight(ts) + TextWeight(rest)
  {
    hide Tokenize;
    if Tokenize(rest).Ok? {
      TokensWeightAppend(ts, Tokenize(rest).value);
    }
  }

  /** Blank space and the symbols weigh nothing. */
  lemma DelimiterWeight(c: char, rest: string)
    requires IsDelim(c) && c != '"'
    ensures Tokenize([c] + rest).Ok? ==> Tokenize(rest).Ok? && TextWeight([c] + rest) == TextWeight(rest)
  {
    assert ([c] + rest)[1..] == rest;
    var r := Tokenize(rest);
    if r.Ok? {
      TokensWeightAppend([NL], r.value);
      TokensWeightAppend([LB], r.value);
      TokensWeightAppend([RB], r.value);
    }
  }

  predicate OneWord(name: string) {
    name != "" && (forall i :: 0 <= i < |name| ==> !IsDelim(name[i])) && ParseBare(name) == Ok(Str(name))
  }

  /** However a name without quotes falls apart, its pieces weigh less than the name. */
  lemma {:induction false} NameWeight(name: string, rest: string)
    requires '"' !in name && Boundary(rest)
    ensures Within(name + rest, rest, Weight(Str(name)), OneWord(name))
    ensures Tokenize(name + rest).Ok? && name != "" && IsDelim(name[0]) ==>
              Tokenize(rest).Ok? && TextWeight(name + rest) <= 2 * |name| - 1 + TextWeight(rest)
    decreases |name|
  {
    hide Tokenize, ParseBare;
    if name == "" {
      assert name + rest == rest;
    } else if IsDelim(name[0]) {
      assert name[0] in name;
      assert name + rest == [name[0]] + (name[1..] + rest);
      NameWeight(name[1..], rest);
      DelimiterWeight(name[0], name[1..] + rest);
    } else {
      var k := WordLen(name);
      var word, tail := name[..k], name[k..];
      assert name + rest == word + (tail + rest) && name == word + tail;
      WordFirst(word, tail + rest);
      if k == |name| {
        assert word == name && tail + rest == rest;
      } else {
        assert tail[0] == name[k];
        NameWeight(tail, rest);
      }
    }
  }

  /** A bare word in front of a delimiter is one token, which weighs most if it is read as a string. */
  lemma WordFirst(word: string, rest: string)
    requires word != "" && (forall i :: 0 <= i < |word| ==> !IsDelim(word[i])) && Boundary(rest)
    ensures Tokenize(word + rest).Ok? ==>
              && ParseBare(word).Ok? && Tokenize(rest).Ok?
              && TextWeight(word + rest) == Weight(ParseBare(word).value) + TextWeight(rest)
              && Weight(ParseBare(word).value) <= Weight(Str(word))
              && (Weight(ParseBare(word).value) == Weight(Str(word)) ==> ParseBare(word) == Ok(Str(word)))
  {
    hide Tokenize;
    if ParseBare(word).Err? {
      BadWord(word, rest);
    } else {
      TokenizeWord(word, rest);
      WithinPrepend(word + rest, [Val(ParseBare(word).value)], rest);
      assert [Val(ParseBare(word).value)][1..] == [];
    }
  }

  lemma BadWord(word: string, rest: string)
    requires word != "" && (forall i :: 0 <= i < |word| ==> !IsDelim(word[i])) && Boundary(rest)
    requires ParseBare(word).Err?
    ensures Tokenize(word + rest).Err?
  {
    hide ParseBare;
    WordThenBoundary(word, rest);
    assert (word + rest)[0] == word[0] && (word + rest)[..|word|] == word;
  }

  // ------------------------------------------------------------------------------------------
  // Printed documents
  // ------------------------------------------------------------------------------------------

  lemma ArgsWithin(vs: seq<Value>, rest: string)
    requires (forall v :: v in vs ==> Printable(v)) && Boundary(rest)
    ensures Within(Prefixed(FormatValues(vs), " ") + rest, rest, ArgsWeight(vs), true)
  {
    hide Within, Tokenize, FormatValues, Prefixed;
    TokenizeArgs(vs, rest);
    WithinPrepend(Prefixed(FormatValues(vs), " ") + rest, Vals(vs), rest);
    ValsWeight(vs);
  }

  /** What a printed line is in front of. */
  lemma LineWithin(pad: nat, n: Node, rest: string)
    requires '"' !in n.name && (forall v :: v in n.args ==> Printable(v)) && Boundary(rest)
    ensures Within("\n" + (Repeat(' ', pad) + Head(n) + rest), rest, Weight(Str(n.name)) + ArgsWeight(n.args), OneWord(n.name))
  {
    hide Within, Tokenize, FormatValues, Prefixed, OneWord, Weight, ArgsWeight;
    var args := Prefixed(FormatValues(n.args), " ");
    var line := Repeat(' ', pad) + Head(n) + rest;
    TokenizeSymbol('\n', NL, line);
    WithinPrepend("\n" + line, [NL], line);
    WithinSymbols();
    HeadSplit(n);
    assert line == Repeat(' ', pad) + (n.name + (args + rest));
    TokenizePad(pad, n.name + (args + rest));
    WithinSame("\n" + line, line, n.name + (args + rest));
    ArgsBoundary(n.args, rest);
    NameWeight(n.name, args + rest);
    ArgsWithin(n.args, rest);
    WithinBoth("\n" + line, n.name + (args + rest), args + rest, 0, Weight(Str(n.name)), true, OneWord(n.name));
    WithinBoth("\n" + line, args + rest, rest, Weight(Str(n.name)), ArgsWeight(n.args), OneWord(n.name), true);
  }

  lemma WithinSymbols()
    ensures TokensWeight([NL]) == 0 && TokensWeight([NL, RB]) == 0 && TokensWeight([LB]) == 0
  {
    assert [NL][1..] == [] && [LB][1..] == [] && [NL, RB][1..] == [RB] && [RB][1..] == [];
  }

  lemma WithinSame(a: string, b: string, c: string)
    requires Within(a, b, 0, true) && Tokenize(b) == Tokenize(c)
    ensures Within(a, c, 0, true)
  {}

  lemma OpenWithin(body: string)
    ensures Within(" {" + body, body, 0, true)
  {
    hide Tokenize, Within;
    assert " {" + body == " " + ("{" + body);
    TokenizeBlank("{" + body);
    TokenizeSymbol('{', LB, body);
    WithinPrepend(" {" + body, [LB], body);
    WithinSymbols();
  }

  lemma CloseWithin(pad: nat, rest: string)
    ensures Within("\n" + (Repeat(' ', pad) + "}" + rest), rest, 0, true)
  {
    hide Tokenize, Within;
    TokenizeClose(pad, rest);
    WithinPrepend("\n" + (Repeat(' ', pad) + "}" + rest), [NL, RB], rest);
    WithinSymbols();
  }

  predicate OneWordNode(n: Node)
    decreases n
  {
    OneWord(n.name) && OneWordNodes(n.children)
  }

  predicate OneWordNodes(nodes: seq<Node>)
    decreases nodes
  {
    nodes == [] || (OneWordNode(nodes[0]) && OneWordNodes(nodes[1..]))
  }

  lemma {:induction false} NodeWithin(n: Node, indent: nat, rest: string)
    requires ReadableNode(n) && '"' !in n.name && NoQuotes(n.children) && LineEnd(rest)
    ensures Within(Prefixed(NodeLines(n, indent), "\n") + rest, rest, NodeWeight(n), OneWordNode(n))
    decreases n
  {
    hide Within, Lines, NodeLines, Prefixed, Head, OneWord, Weight, ArgsWeight;
    var text := Prefixed(NodeLines(n, indent), "\n") + rest;
    var w := Weight(Str(n.name)) + ArgsWeight(n.args);
    if n.children == [] {
      LeafText(n, indent, rest);
      LineWithin(indent, n, rest);
    } else {
      var close := "\n" + (Repeat(' ', indent) + "}" + rest);
      var body := Prefixed(Lines(n.children, indent + 2), "\n") + close;
      var inner, plain := NodesWeight(n.children), OneWordNodes(n.children);
      BlockText(n, indent, rest);
      LineWithin(indent, n, " {" + body);
      OpenWithin(body);
      WithinBoth(text, " {" + body, body, w, 0, OneWord(n.name), true);
      NodesWithin(n.children, indent + 2, close);
      WithinBoth(text, body, close, w, inner, OneWord(n.name), plain);
      CloseWithin(indent, rest);
      WithinBoth(text, close, rest, w + inner, 0, OneWord(n.name) && plain, true);
    }
  }

  lemma {:induction false} NodesWithin(nodes: seq<Node>, indent: nat, rest: string)
    requires Readable(nodes) && NoQuotes(nodes) && LineEnd(rest)
    ensures Within(Prefixed(Lines(nodes, indent), "\n") + rest, rest, NodesWeight(nodes), OneWordNodes(nodes))
    decreases nodes
  {
    hide Within, NodeLines, NodeWeight, OneWordNode, Prefixed, Lines;
    var text := Prefixed(Lines(nodes, indent), "\n") + rest;
    LinesSplit(nodes, indent, rest);
    if nodes == [] {
      WithinItself(rest);
    } else {
      var others := Prefixed(Lines(nodes[1..], indent), "\n") + rest;
      LinesLead(nodes[1..], indent, rest);
      NodeWithin(nodes[0], indent, others);
      NodesWithin(nodes[1..], indent, rest);
      WithinBoth(text, others, rest, NodeWeight(nodes[0]), NodesWeight(nodes[1..]), OneWordNode(nodes[0]), OneWordNodes(nodes[1..]));
    }
  }

  lemma LinesSplit(nodes: seq<Node>, indent: nat, rest: string)
    ensures Prefixed(Lines(nodes, indent), "\n") + rest ==
            if nodes == [] then rest
            else Prefixed(NodeLines(nodes[0], indent), "\n") + (Prefixed(Lines(nodes[1..], indent), "\n") + rest)
  {
    hide NodeLines;
    if nodes != [] {
      PrefixedAppend(NodeLines(nodes[0], indent), Lines(nodes[1..], indent), "\n");
    }
  }

  lemma WithinItself(rest: string)
    ensures Within(rest, rest, 0, true)
  {}

  lemma {:induction false} OneWordsArePlain(nodes: seq<Node>)
    requires Readable(nodes) && OneWordNodes(nodes)
    ensures PlainNames(nodes)
    decreases nodes
  {
    hide ParseBare, Utf8.Valid;
    if nodes != [] {
      OneWordsArePlain(nodes[0].children);
      OneWordsArePlain(nodes[1..]);
    }
  }

  lemma SerializedWeight(nodes: seq<Node>)
    requires nodes != [] && Readable(nodes) && NoQuotes(nodes) && Tokenize(Serialize(nodes)).Ok?
    ensures TextWeight(Serialize(nodes)) <= NodesWeight(nodes)
    ensures TextWeight(Serialize(nodes)) == NodesWeight(nodes) ==> OneWordNodes(nodes)
  {
    hide Tokenize, NodesWeight, OneWordNodes, Readable, NoQuotes;
    var text := Prefixed(Lines(nodes, 0), "\n");
    assert NodeLines(nodes[0], 0) != [];
    JoinPrefixed(Lines(nodes, 0), "\n");
    assert text == "\n" + Serialize(nodes) && text + "" == text;
    TokenizeSymbol('\n', NL, Serialize(nodes));
    WithinPrepend(text, [NL], Serialize(nodes));
    WithinSymbols();
    NodesWithin(nodes, 0, "");
    NothingWeight();
  }

  lemma NothingWeight()
    ensures TextWeight("") == 0
  {}

  /** A document none of whose names contains a quote survives the wire exactly if all its names are
      plain, its strings are valid and its integers fit 64 bits, and no block is opened too deep. */
  lemma DocumentSurvives(nodes: seq<Node>)
    requires NoQuotes(nodes)
    ensures Parse(Serialize(nodes)) == Ok(nodes) <==> PrintableNodes(nodes) && Shallow(nodes, 0)
  {
    hide Tokenize, ParseNodes, Serialize, OneWordNodes, PrintableNodes, Shallow;
    if PrintableNodes(nodes) && Shallow(nodes, 0) {
      ParseSerialized(nodes);
    }
    if Parse(Serialize(nodes)) == Ok(nodes) {
      ParseReadable(Serialize(nodes));
      if nodes != [] {
        SerializedWeight(nodes);
        ParseNodesWeight(Tokenize(Serialize(nodes)).value, 0);
        OneWordsArePlain(nodes);
      }
      ReadablePlain(nodes);
    }
  }
}
