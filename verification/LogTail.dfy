/**
  Reading the end of the agent log (go/monitor/logtail.go).
  */
module LogTail {
  import opened Text
  import opened Wrappers
  import Utf8

  // ------------------------------------------------------------------------------------------
  // What the reader must return: defined on the whole file
  // ------------------------------------------------------------------------------------------

  /** bytes.Split(s, "\n"): at least one part, and one more than there are newlines. */
  function SplitLines(s: string): (parts: seq<string>)
    ensures parts != []
  {
    if s == "" then [""]
    else if s[0] == '\n' then [""] + SplitLines(s[1..])
    else
      var rest := SplitLines(s[1..]);
      [[s[0]] + rest[0]] + rest[1..]
  }

  function DropBlankTail(lines: seq<string>): (r: seq<string>)
    ensures r <= lines
  {
    if lines != [] && lines[|lines| - 1] == "" then DropBlankTail(lines[..|lines| - 1]) else lines
  }

  /** The lines of a log: the whole file split, without the blank lines at its end. */
  function LogLines(content: string): seq<string> {
    DropBlankTail(SplitLines(content))
  }

  function LastOf<T>(s: seq<T>, n: nat): seq<T> {
    if |s| <= n then s else s[|s| - n..]
  }

  lemma {:induction false} SplitIs(s: string)
    ensures Join(SplitLines(s), "\n") == s
    ensures forall i :: 0 <= i < |SplitLines(s)| ==> '\n' !in SplitLines(s)[i]
  {
    var parts := SplitLines(s);
    if s == "" {
    } else {
      var rest := SplitLines(s[1..]);
      SplitIs(s[1..]);
      JoinPrefixed(rest, "\n");
      if s[0] == '\n' {
        assert parts[1..] == rest;
        assert Join(parts, "\n") == "" + "\n" + Join(rest, "\n");
      } else {
        assert parts[1..] == rest[1..];
        JoinFirst(s[0], rest);
      }
      assert [s[0]] + s[1..] == s;
    }
  }

  lemma JoinFirst(c: char, parts: seq<string>)
    requires parts != []
    ensures Join([[c] + parts[0]] + parts[1..], "\n") == [c] + Join(parts, "\n")
  {
    var more := [[c] + parts[0]] + parts[1..];
    assert more[1..] == parts[1..];
    if |parts| > 1 {
      assert ([c] + parts[0]) + "\n" + Join(parts[1..], "\n") == [c] + (parts[0] + "\n" + Join(parts[1..], "\n"));
    }
  }

  lemma {:induction false} DropIs(lines: seq<string>)
    ensures var r := DropBlankTail(lines);
            && r <= lines && (r != [] ==> r[|r| - 1] != "")
            && forall i :: |r| <= i < |lines| ==> lines[i] == ""
  {
    if lines != [] && lines[|lines| - 1] == "" {
      var before := lines[..|lines| - 1];
      DropIs(before);
      assert forall i :: 0 <= i < |before| ==> before[i] == lines[i];
    }
  }

  /** The lines of a log, with some blank ones after them, joined by newlines are the log; none holds a
      newline, and the last is not blank. */
  lemma LogLinesAre(content: string)
    ensures var lines := LogLines(content);
            && (lines != [] ==> lines[|lines| - 1] != "")
            && (forall i :: 0 <= i < |lines| ==> '\n' !in lines[i])
            && exists blank: seq<string> :: (forall i :: 0 <= i < |blank| ==> blank[i] == "") && Join(lines + blank, "\n") == content
  {
    hide SplitLines, DropBlankTail, Join;
    var all, lines := SplitLines(content), LogLines(content);
    SplitIs(content);
    DropIs(all);
    var blank := all[|lines|..];
    assert lines + blank == all;
    assert forall i :: 0 <= i < |lines| ==> lines[i] == all[i];
    assert forall i :: 0 <= i < |blank| ==> blank[i] == "";
  }

  // ------------------------------------------------------------------------------------------
  // Decoding
  // ------------------------------------------------------------------------------------------

  /** U+FFFD in UTF-8. */
  const REPLACEMENT: string := [0xEF as char, 0xBF as char, 0xBD as char]

  /** p is the beginning, short of the whole, of some character. */
  ghost predicate IsInitial(p: string) {
    exists w: string :: Utf8.IsCharacter(w) && |p| < |w| && p == w[..|p|]
  }

  /** The maximal subpart at the head of b (section 3.9 of the Unicode Standard): the longest
      beginning of a character, or a single byte. */
  ghost predicate IsMaximalSubpart(b: string, n: nat) {
    && 1 <= n <= |b|
    && (n == 1 || IsInitial(b[..n]))
    && forall m :: n < m <= |b| ==> !IsInitial(b[..m])
  }

  predicate Begins2(a: char, b: char) {
    Utf8.Form3(a, b, 0x80 as char) || Utf8.Form4(a, b, 0x80 as char, 0x80 as char)
  }

  predicate Begins3(a: char, b: char, c: char) {
    Utf8.Form4(a, b, c, 0x80 as char)
  }

  function SubpartLen(b: string): (n: nat)
    requires b != ""
    ensures 1 <= n <= |b|
  {
    if |b| >= 3 && Begins3(b[0], b[1], b[2]) then 3
    else if |b| >= 2 && Begins2(b[0], b[1]) then 2
    else 1
  }

  lemma InitialLength(p: string)
    requires IsInitial(p)
    ensures |p| <= 3
    ensures |p| == 2 ==> Begins2(p[0], p[1])
    ensures |p| == 3 ==> Begins3(p[0], p[1], p[2]) && Begins2(p[0], p[1])
  {
    var w :| Utf8.IsCharacter(w) && |p| < |w| && p == w[..|p|];
    assert forall i :: 0 <= i < |p| ==> p[i] == w[i];
  }

  /** The length is that of the maximal subpart, and of nothing else. */
  lemma SubpartIsMaximal(b: string, n: nat)
    requires b != "" && Utf8.HeadLen(b) == 0
    ensures IsMaximalSubpart(b, n) <==> n == SubpartLen(b)
  {
    var k := SubpartLen(b);
    if k == 2 {
      var w := if Utf8.Form3(b[0], b[1], 0x80 as char) then [b[0], b[1], 0x80 as char]
               else [b[0], b[1], 0x80 as char, 0x80 as char];
      assert Utf8.IsCharacter(w) && b[..2] == w[..2];
    } else if k == 3 {
      var w := [b[0], b[1], b[2], 0x80 as char];
      assert Utf8.IsCharacter(w) && b[..3] == w[..3];
    }
    forall m | k < m <= |b| ensures !IsInitial(b[..m]) {
      if IsInitial(b[..m]) {
        InitialLength(b[..m]);
      }
    }
    assert IsMaximalSubpart(b, k);
  }

  /** The bytes of b cut into characters and maximal subparts. */
  function Pieces(b: string): seq<string>
    decreases |b|
  {
    if b == "" then []
    else
      var n := FirstLen(b);
      [b[..n]] + Pieces(b[n..])
  }

  function DecodePiece(p: string): string {
    if Utf8.IsCharacter(p) then p else REPLACEMENT
  }

  function DecodePieces(ps: seq<string>): string {
    if ps == [] then "" else DecodePiece(ps[0]) + DecodePieces(ps[1..])
  }

  function DecodeReplace(b: string): string {
    DecodePieces(Pieces(b))
  }

  lemma PiecesDecodeStep(ps: seq<string>)
    requires ps != []
    ensures DecodePieces(ps) == DecodePiece(ps[0]) + DecodePieces(ps[1..])
  {}

  lemma NoPiecesDecode()
    ensures DecodePieces([]) == ""
  {}

  /** Decoding goes piece by piece: a character stays as it is, anything else becomes the character with
      code point FFFD. */
  lemma {:induction false} DecodedPiece(ps: seq<string>, k: nat)
    requires k < |ps|
    ensures DecodePieces(ps) == DecodePieces(ps[..k]) + DecodePiece(ps[k]) + DecodePieces(ps[k + 1..])
    ensures if Utf8.IsCharacter(ps[k]) then DecodePiece(ps[k]) == ps[k]
            else Utf8.IsCharacter(DecodePiece(ps[k])) && Utf8.CodePoint(DecodePiece(ps[k])) == 0xFFFD
    decreases k
  {
    hide DecodePiece, DecodePieces;
    ReplacementPoint(ps[k]);
    PiecesDecodeStep(ps);
    if k == 0 {
      NoPiecesDecode();
      assert ps[..0] == [];
      assert "" + DecodePiece(ps[0]) == DecodePiece(ps[0]);
    } else {
      DecodedPiece(ps[1..], k - 1);
      PiecesDecodeStep(ps[..k]);
      assert ps[..k][1..] == ps[1..][..k - 1] && ps[1..][k..] == ps[k + 1..];
      Regroup(DecodePiece(ps[0]), DecodePieces(ps[..k][1..]), DecodePiece(ps[k]), DecodePieces(ps[k + 1..]));
    }
  }

  lemma Regroup(a: string, b: string, c: string, d: string)
    ensures a + (b + c + d) == a + b + c + d
  {}

  lemma ReplacementPoint(p: string)
    ensures if Utf8.IsCharacter(p) then DecodePiece(p) == p
            else Utf8.IsCharacter(DecodePiece(p)) && Utf8.CodePoint(DecodePiece(p)) == 0xFFFD
  {}

  /** The length of the first piece. */
  function FirstLen(b: string): (n: nat)
    requires b != ""
    ensures 1 <= n <= |b|
  {
    if Utf8.HeadLen(b) > 0 then Utf8.HeadLen(b) else SubpartLen(b)
  }

  lemma PiecesStep(b: string)
    requires b != ""
    ensures Pieces(b) == [b[..FirstLen(b)]] + Pieces(b[FirstLen(b)..])
  {}

  /** Every byte is in exactly one piece. */
  lemma {:induction false} PiecesPartition(b: string)
    ensures Concat(Pieces(b)) == b
    decreases |b|
  {
    hide FirstLen, Concat;
    if b == "" {
      ConcatNothing();
    } else {
      var n := FirstLen(b);
      PiecesStep(b);
      PiecesPartition(b[n..]);
      ConcatStep(b[..n], Pieces(b[n..]));
      assert b[..n] + b[n..] == b;
    }
  }

  lemma PiecesNothing()
    ensures Pieces("") == []
  {}

  /** The k-th piece stands where the pieces before it end, and there it is the next character or,
      if none begins there, the maximal subpart. */
  lemma {:induction false} PieceInPlace(b: string, k: nat)
    requires b != "" && k < |Pieces(b)|
    ensures var at, p := |Concat(Pieces(b)[..k])|, Pieces(b)[k];
            && at < |b| && p <= b[at..]
            && if Utf8.HeadLen(b[at..]) > 0 then |p| == Utf8.HeadLen(b[at..]) && Utf8.IsCharacter(p)
               else IsMaximalSubpart(b[at..], |p|)
    decreases |b|
  {
    hide Concat, Pieces, SubpartLen, IsMaximalSubpart, Utf8.HeadLen, Utf8.IsCharacter;
    PiecesStep(b);
    var n := FirstLen(b);
    if k == 0 {
      ConcatNothing();
      assert b[0..] == b && Pieces(b)[..0] == [];
      if Utf8.HeadLen(b) == 0 {
        SubpartIsMaximal(b, n);
      }
    } else {
      PiecesNothing();
      PieceInPlace(b[n..], k - 1);
      ConcatStep(b[..n], Pieces(b[n..])[..k - 1]);
      assert Pieces(b)[..k] == [b[..n]] + Pieces(b[n..])[..k - 1];
      var at := |Concat(Pieces(b[n..])[..k - 1])|;
      assert b[n..][at..] == b[n + at..];
    }
  }

  lemma {:induction false} DecodeValid(b: string)
    ensures Utf8.Valid(DecodeReplace(b))
    ensures Utf8.Valid(b) ==> DecodeReplace(b) == b
    decreases |b|
  {
    hide Utf8.Valid, DecodeReplace, DecodePiece, SubpartLen;
    Utf8.ValidUnfold(b);
    if b == "" {
      DecodeNothing();
      Utf8.ValidUnfold("");
    } else {
      var n := FirstLen(b);
      DecodeStep(b, n);
      DecodeValid(b[n..]);
      PieceValid(b[..n]);
      PieceText(b, n);
      Utf8.ValidAppend(DecodePiece(b[..n]), DecodeReplace(b[n..]));
      assert b[..n] + b[n..] == b;
    }
  }

  lemma PieceValid(p: string)
    ensures Utf8.Valid(DecodePiece(p))
  {
    assert Utf8.IsCharacter(REPLACEMENT);
    Utf8.CharacterValid(DecodePiece(p));
  }

  lemma NoForm(b: string)
    requires b != "" && Utf8.HeadLen(b) == 0
    ensures !Utf8.Form1(b[0]) && (|b| >= 2 ==> !Utf8.Form2(b[0], b[1]))
    ensures |b| >= 3 ==> !Utf8.Form3(b[0], b[1], b[2])
    ensures |b| >= 4 ==> !Utf8.Form4(b[0], b[1], b[2], b[3])
  {}

  lemma SubpartForm(b: string)
    requires b != ""
    ensures SubpartLen(b) ==
            if |b| >= 3 && Begins3(b[0], b[1], b[2]) then 3 else if |b| >= 2 && Begins2(b[0], b[1]) then 2 else 1
  {}

  /** The source's scan for the end of a maximal subpart. */
  method InvalidPrefixLen(b: string) returns (n: nat)
    requires b != "" && Utf8.HeadLen(b) == 0
    ensures n == SubpartLen(b)
  {
    hide Utf8.HeadLen, Utf8.IsCharacter, SubpartLen;
    NoForm(b);
    SubpartForm(b);
    var lo, hi, need := 0x80, 0xBF, 0;
    var lead := b[0] as int;
    if 0xC2 <= lead <= 0xDF {
      need := 1;
    } else if lead == 0xE0 {
      need, lo := 2, 0xA0;
    } else if 0xE1 <= lead <= 0xEC || lead == 0xEE || lead == 0xEF {
      need := 2;
    } else if lead == 0xED {
      need, hi := 2, 0x9F;
    } else if lead == 0xF0 {
      need, lo := 3, 0x90;
    } else if 0xF1 <= lead <= 0xF3 {
      need := 3;
    } else if lead == 0xF4 {
      need, hi := 3, 0x8F;
    } else {
      return 1;
    }
    var lo2, hi2 := lo, hi;
    n := 1;
    while n <= need && n < |b|
      invariant 1 <= n <= |b| && n <= need + 1
      invariant n == 1 ==> lo == lo2 && hi == hi2
      invariant n > 1 ==> lo == 0x80 && hi == 0xBF && lo2 <= b[1] as int <= hi2
      invariant forall i :: 2 <= i < n ==> Utf8.Tail(b[i])
      decreases |b| - n
    {
      if !(lo <= b[n] as int <= hi) {
        break;
      }
      lo, hi := 0x80, 0xBF;
      n := n + 1;
    }
  }

  method Decode(b: string) returns (s: string)
    ensures s == DecodeReplace(b)
  {
    hide DecodeReplace, Utf8.HeadLen, Utf8.Valid, SubpartLen, DecodePiece;
    if Utf8.Valid(b) {
      DecodeValid(b);
      return b;
    }
    DecodeNothing();
    s := "";
    var i := 0;
    assert b[0..] == b;
    while i < |b|
      invariant 0 <= i <= |b|
      invariant s + DecodeReplace(b[i..]) == DecodeReplace(b)
    {
      var rest := b[i..];
      var size := Utf8.HeadLen(rest);
      var piece := rest[..size];
      if size == 0 {
        size := InvalidPrefixLen(rest);
        piece := REPLACEMENT;
      }
      PieceText(rest, size);
      DecodeStep(rest, size);
      assert rest[size..] == b[i + size..];
      s := s + piece;
      i := i + size;
    }
    assert b[i..] == "" && s + "" == s;
  }

  lemma DecodeNothing()
    ensures DecodeReplace("") == ""
  {}

  lemma PieceText(b: string, n: nat)
    requires b != "" && n == FirstLen(b)
    ensures DecodePiece(b[..n]) == if Utf8.HeadLen(b) > 0 then b[..n] else REPLACEMENT
  {
    if Utf8.HeadLen(b) == 0 {
      NotCharacter(b, n);
    }
  }

  lemma NotCharacter(b: string, n: nat)
    requires Utf8.HeadLen(b) == 0 && n <= |b|
    ensures !Utf8.IsCharacter(b[..n])
  {}

  lemma DecodeStep(b: string, n: nat)
    requires b != ""
    requires n == FirstLen(b)
    ensures DecodeReplace(b) == DecodePiece(b[..n]) + DecodeReplace(b[n..])
  {
    assert Pieces(b)[1..] == Pieces(b[n..]);
  }

  // ------------------------------------------------------------------------------------------
  // The backwards reader
  // ------------------------------------------------------------------------------------------

  function Reverse<T>(s: seq<T>): (r: seq<T>)
    ensures |r| == |s| && forall i :: 0 <= i < |s| ==> r[i] == s[|s| - 1 - i]
  {
    seq(|s|, i requires 0 <= i < |s| => s[|s| - 1 - i])
  }

  /** What the loop has collected from the complete lines of a stretch at the end of the file:
      newest first, without blank lines at the end, and never more than tail + 1. */
  function Collected(lines: seq<string>, tail: nat): seq<string> {
    var newest := Reverse(DropBlankTail(lines));
    if |newest| > tail + 1 then newest[..tail + 1] else newest
  }

  /** The lines of [c] + s, from those of s. */
  function WithFirst(c: char, lines: seq<string>): seq<string>
    requires lines != []
  {
    if c == '\n' then [""] + lines else [[c] + lines[0]] + lines[1..]
  }

  lemma WithFirstAppend(c: char, lines: seq<string>, more: seq<string>)
    requires lines != []
    ensures WithFirst(c, lines + more) == WithFirst(c, lines) + more
  {}

  lemma {:induction false} SplitAppend(a: string, b: string)
    ensures SplitLines(a + b) == SplitLines(a + SplitLines(b)[0]) + SplitLines(b)[1..]
  {
    hide SplitLines, WithFirst;
    if a == "" {
      assert a + b == b && a + SplitLines(b)[0] == SplitLines(b)[0];
      FirstLineWhole(b);
    } else {
      var first, more := SplitLines(b)[0], SplitLines(b)[1..];
      SplitAppend(a[1..], b);
      SplitStep(a[0], a[1..] + b);
      SplitStep(a[0], a[1..] + first);
      assert [a[0]] + (a[1..] + b) == a + b && [a[0]] + (a[1..] + first) == a + first;
      WithFirstAppend(a[0], SplitLines(a[1..] + first), more);
    }
  }

  lemma SplitStep(c: char, s: string)
    ensures SplitLines([c] + s) == WithFirst(c, SplitLines(s))
  {
    assert ([c] + s)[1..] == s;
  }

  lemma {:induction false} NoNewline(s: string)
    requires '\n' !in s
    ensures SplitLines(s) == [s]
  {
    if s != "" {
      assert s[0] in s && forall c :: c in s[1..] ==> c in s;
      NoNewline(s[1..]);
      assert [s[0]] + s[1..] == s;
      assert [s[1..]][1..] == [];
    }
  }

  lemma {:induction false} FirstLineClean(s: string)
    ensures '\n' !in SplitLines(s)[0]
  {
    if s != "" {
      FirstLineClean(s[1..]);
    }
  }

  lemma FirstLineWhole(b: string)
    ensures SplitLines(SplitLines(b)[0]) + SplitLines(b)[1..] == SplitLines(b)
  {
    FirstLineClean(b);
    NoNewline(SplitLines(b)[0]);
  }

  lemma {:induction false} DropBlankAppend(a: seq<string>, b: seq<string>)
    ensures DropBlankTail(a + b) == if DropBlankTail(b) == [] then DropBlankTail(a) else a + DropBlankTail(b)
    decreases |b|
  {
    if b == [] {
      assert a + b == a;
    } else if b[|b| - 1] == "" {
      DropBlankAppend(a, b[..|b| - 1]);
      assert (a + b)[..|a + b| - 1] == a + b[..|b| - 1];
    } else {
      assert (a + b)[|a + b| - 1] == b[|b| - 1];
    }
  }

  /** Adding one older line to what was collected. */
  lemma CollectOlder(line: string, lines: seq<string>, tail: nat)
    requires |Collected(lines, tail)| <= tail
    ensures Collected([line] + lines, tail)
         == if line != "" || Collected(lines, tail) != [] then Collected(lines, tail) + [line] else []
  {
    DropBlankAppend([line], lines);
    var newest := Reverse(DropBlankTail(lines));
    if newest == [] {
      assert DropBlankTail([line]) == if line == "" then [] else [line] by {
        assert [line][..0] == [];
      }
    } else {
      assert Reverse([line] + DropBlankTail(lines)) == newest + [line];
    }
  }

  /** Once tail + 1 lines are in hand, older ones change nothing. */
  lemma CollectedFull(a: seq<string>, b: seq<string>, tail: nat)
    requires |Collected(b, tail)| > tail
    ensures Collected(a + b, tail) == Collected(b, tail)
  {
    DropBlankAppend(a, b);
    var newest := Reverse(DropBlankTail(b));
    assert Reverse(a + DropBlankTail(b))[..|newest|] == newest;
    assert Reverse(a + DropBlankTail(b))[..tail + 1] == newest[..tail + 1];
  }

  /** The loop over the parts of one block, newest first; it stops once tail + 1 lines are in hand. */
  method CollectParts(parts: seq<string>, ghost newer: seq<string>, raw: seq<string>, tail: nat) returns (all: seq<string>)
    requires raw == Collected(newer, tail) && |raw| <= tail
    ensures all == Collected(parts + newer, tail)
  {
    hide Collected;
    all := raw;
    var i := |parts| - 1;
    assert parts[|parts|..] + newer == newer;
    while i >= 0
      invariant -1 <= i < |parts|
      invariant all == Collected(parts[i + 1..] + newer, tail) && |all| <= tail
    {
      assert parts[i..] + newer == [parts[i]] + (parts[i + 1..] + newer);
      CollectOlder(parts[i], parts[i + 1..] + newer, tail);
      if |parts[i]| > 0 || |all| > 0 {
        all := all + [parts[i]];
      }
      if |all| > tail {
        assert parts[..i] + (parts[i..] + newer) == parts + newer;
        CollectedFull(parts[..i], parts[i..] + newer, tail);
        return;
      }
      i := i - 1;
    }
    assert parts[0..] == parts;
  }

  function DecodeAll(raw: seq<string>): (lines: seq<string>)
    ensures |lines| == |raw| && forall i :: 0 <= i < |raw| ==> lines[i] == DecodeReplace(raw[i])
  {
    seq(|raw|, i requires 0 <= i < |raw| => DecodeReplace(raw[i]))
  }

  /** The last `tail` lines of the log and whether there are more, reading the file from its end in
      blocks: the same as splitting the whole file, for every content and every block size. */
  method ReadLogTail(content: string, tail: nat, blockSize: nat) returns (lines: seq<string>, truncated: bool)
    requires blockSize >= 1
    ensures lines == DecodeAll(LastOf(LogLines(content), tail))
    ensures truncated <==> |LogLines(content)| > tail
  {
    hide SplitLines, Collected, LogLines;
    if |content| == 0 {
      EmptyLog();
      return [], false;
    }
    var remaining := |content|;
    var fragment := "";
    var raw: seq<string> := [];
    NothingRead(content, tail);
    while remaining > 0 && |raw| <= tail
      invariant 0 <= remaining <= |content|
      invariant Progress(content, remaining, fragment, raw, tail)
    {
      var size := if blockSize < remaining then blockSize else remaining;
      ghost var newer := SplitLines(content[remaining..])[1..];
      remaining := remaining - size;
      var chunk := content[remaining..remaining + size];
      BlockSplit(content, remaining, remaining + size, fragment);
      fragment := chunk + fragment;
      var parts := SplitLines(fragment);
      if remaining > 0 {
        fragment := parts[0];
        parts := parts[1..];
      } else {
        fragment := "";
      }
      raw := CollectParts(parts, newer, raw, tail);
    }
    truncated := remaining > 0 || |raw| > tail;
    FinalCut(content, remaining, fragment, raw, tail);
    if |raw| > tail {
      raw := raw[..tail];
    }
    lines := DecodeNewestFirst(raw);
  }

  /** The loop's knowledge: the stretch from `remaining` on is split; its first part may go on
      further left, and the lines after it have been collected. */
  predicate Progress(content: string, remaining: nat, fragment: string, raw: seq<string>, tail: nat)
    requires remaining <= |content|
  {
    if remaining == 0 then raw == Collected(SplitLines(content), tail)
    else
      var parts := SplitLines(content[remaining..]);
      fragment == parts[0] && raw == Collected(parts[1..], tail)
  }

  /** Splitting one more block. */
  lemma BlockSplit(content: string, from: nat, to: nat, fragment: string)
    requires from <= to <= |content|
    requires fragment == SplitLines(content[to..])[0]
    ensures var parts, newer := SplitLines(content[from..to] + fragment), SplitLines(content[to..])[1..];
            && SplitLines(content[from..]) == parts + newer
            && SplitLines(content[from..])[0] == parts[0]
            && SplitLines(content[from..])[1..] == parts[1..] + newer
            && (from == 0 ==> SplitLines(content) == parts + newer)
  {
    hide SplitLines;
    assert content[from..] == content[from..to] + content[to..];
    SplitAppend(content[from..to], content[to..]);
    assert content[0..] == content;
  }

  method DecodeNewestFirst(raw: seq<string>) returns (lines: seq<string>)
    ensures lines == DecodeAll(Reverse(raw))
  {
    hide DecodeReplace;
    lines := [];
    for k := 0 to |raw|
      invariant |lines| == k
      invariant forall j :: 0 <= j < k ==> lines[k - 1 - j] == DecodeReplace(raw[j])
    {
      var text := Decode(raw[k]);
      lines := [text] + lines;
    }
  }

  lemma EmptyLog()
    ensures LogLines("") == []
  {
    assert [""][..0] == [];
  }

  lemma NothingRead(content: string, tail: nat)
    requires content != ""
    ensures Progress(content, |content|, "", [], tail)
  {}

  /** What the collected lines say about the whole file when the loop ends. */
  lemma FinalCut(content: string, remaining: nat, fragment: string, raw: seq<string>, tail: nat)
    requires remaining <= |content| && Progress(content, remaining, fragment, raw, tail)
    requires remaining == 0 || |raw| > tail
    ensures |LogLines(content)| > tail <==> remaining > 0 || |raw| > tail
    ensures Reverse(if |raw| > tail then raw[..tail] else raw) == LastOf(LogLines(content), tail)
  {
    hide SplitLines, DropBlankTail;
    if remaining > 0 {
      var late := content[remaining..];
      assert content == content[..remaining] + late;
      SplitAppend(content[..remaining], late);
      CollectedFull(SplitLines(content[..remaining] + SplitLines(late)[0]), SplitLines(late)[1..], tail);
    }
    assert raw == Collected(SplitLines(content), tail);
  }
}
