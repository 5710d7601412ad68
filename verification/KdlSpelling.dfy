/**
  Spellings the printer never uses but the parser takes: line ends and separators, and escapes by code
  point (go/protocol/kdl.go).
  */
module KdlSpelling {
  import opened Text
  import opened Wrappers
  import opened Kdl
  import Utf8

  // ------------------------------------------------------------------------------------------
  // Separators
  // ------------------------------------------------------------------------------------------

  /** The tokens a character outside words and strings stands for. */
  function TokensOf(c: char): seq<Token> {
    if c in {'\n', '\r', ';'} then [NL] else if c == '{' then [LB] else if c == '}' then [RB] else []
  }

  lemma UnescapeExtends(s: string, more: string)
    requires Unescape(s).Ok?
    ensures Unescape(s + more) == Unescape(s)
  {
    assert forall i :: 0 <= i < |s| ==> (s + more)[i] == s[i];
    if s[0] == 'u' {
      assert (s + more)[2..] == s[2..] + more;
      IndexExtends(s[2..], more, '}');
      var end := IndexOf(s[2..], '}');
      assert (s[2..] + more)[..end] == s[2..][..end];
    }
  }

  lemma IndexExtends(s: string, more: string, c: char)
    requires IndexOf(s, c) < |s|
    ensures IndexOf(s + more, c) == IndexOf(s, c)
  {
    var k := IndexOf(s, c);
    var all := s + more;
    assert all[k] == c && all[..k] == s[..k];
    assert all[k] !in all[..k];
  }

  lemma {:induction false} ReadStringExtends(s: string, more: string)
    requires ReadString(s).Ok?
    ensures ReadString(s + more) == Ok((ReadString(s).value.0, ReadString(s).value.1 + more))
    decreases |s|
  {
    hide Unescape;
    assert (s + more)[0] == s[0] && (s + more)[1..] == s[1..] + more;
    if s[0] == '\\' {
      UnescapeExtends(s[1..], more);
      var n := Unescape(s[1..]).value.1;
      ReadStringExtends(s[1 + n..], more);
      assert (s + more)[1 + n..] == s[1 + n..] + more;
    } else if s[0] != '"' {
      ReadStringExtends(s[1..], more);
    }
  }

  lemma {:induction false} WordExtends(s: string, c: char, more: string)
    requires IsDelim(c)
    ensures WordLen(s + [c] + more) == WordLen(s)
  {
    var all := s + [c] + more;
    if s == "" {
      assert all[0] == c;
    } else {
      assert all[0] == s[0] && all[1..] == s[1..] + [c] + more;
      WordExtends(s[1..], c, more);
    }
  }

  lemma TokenizeStep(s: string)
    requires s != ""
    ensures Tokenize(s)
         == if IsDelim(s[0]) && s[0] != '"' then Prepend(TokensOf(s[0]), Tokenize(s[1..]))
            else if s[0] == '"' then
              var r := ReadString(s[1..]);
              if r.Err? then Err(r.error) else Prepend([Val(Str(r.value.0))], Tokenize(r.value.1))
            else
              var v := ParseBare(s[..WordLen(s)]);
              if v.Err? then Err(v.error) else Prepend([Val(v.value)], Tokenize(s[WordLen(s)..]))
  {
    hide ReadString, ParseBare;
    if s[0] in {' ', '\t'} && Tokenize(s[1..]).Ok? {
      assert [] + Tokenize(s[1..]).value == Tokenize(s[1..]).value;
    }
  }

  lemma PrependAgain(a: seq<Token>, b: seq<Token>, r: Parsed<seq<Token>>)
    requires r.Ok?
    ensures Prepend(a, Prepend(b, r)) == Prepend(a + b, r) && Prepend([], r) == r
    ensures Prepend(a, r).Ok? && Prepend(a, r).value == a + r.value
  {
    assert a + (b + r.value) == a + b + r.value;
    assert [] + r.value == r.value;
  }

  /** Wherever a text ends outside a string, a separator after it stands for itself, whatever follows: line
      feed, carriage return and semicolon end a node alike, space and tab only part its words, and braces
      are braces, with or without blanks around them. */
  lemma {:induction false} SeparatorStands(a: string, c: char, b: string)
    requires Tokenize(a).Ok? && IsDelim(c) && c != '"'
    ensures Tokenize(a + [c] + b) == Prepend(Tokenize(a).value + TokensOf(c), Tokenize(b))
    decreases |a|, 0
  {
    hide Tokenize, ReadString, ParseBare, WordLen, IsDelim, TokensOf, Prepend;
    var all := a + [c] + b;
    TokenizeStep(all);
    if a == "" {
      NoTokens();
      assert all[0] == c && all[1..] == b;
      assert Tokenize(a).value + TokensOf(c) == TokensOf(c);
    } else {
      TokenizeStep(a);
      assert all[0] == a[0] && all[1..] == a[1..] + [c] + b;
      if IsDelim(a[0]) && a[0] != '"' {
        Joined(a[1..], c, b, TokensOf(a[0]), Tokenize(a));
      } else if a[0] == '"' {
        var s := a[1..];
        assert a[1..] + [c] + b == s + ([c] + b);
        ReadStringExtends(s, [c] + b);
        var (text, rest) := ReadString(s).value;
        assert rest + ([c] + b) == rest + [c] + b;
        Joined(rest, c, b, [Val(Str(text))], Tokenize(a));
      } else {
        var n := WordLen(a);
        WordSome(a);
        WordExtends(a, c, b);
        assert all[..n] == a[..n] && all[n..] == a[n..] + [c] + b;
        Joined(a[n..], c, b, [Val(ParseBare(a[..n]).value)], Tokenize(a));
      }
    }
  }

  lemma Joined(rest: string, c: char, b: string, first: seq<Token>, whole: Parsed<seq<Token>>)
    requires whole.Ok? && whole == Prepend(first, Tokenize(rest)) && IsDelim(c) && c != '"'
    ensures Prepend(first, Tokenize(rest + [c] + b)) == Prepend(whole.value + TokensOf(c), Tokenize(b))
    decreases |rest|, 1
  {
    hide Tokenize, TokensOf;
    SeparatorStands(rest, c, b);
    PrependPrepend(first, Tokenize(rest).value + TokensOf(c), Tokenize(b));
    assert first + (Tokenize(rest).value + TokensOf(c)) == whole.value + TokensOf(c);
  }

  lemma NoTokens()
    ensures Tokenize("") == Ok([])
  {}

  lemma WordSome(s: string)
    requires s != "" && !IsDelim(s[0])
    ensures 0 < WordLen(s) <= |s|
  {}

  // ------------------------------------------------------------------------------------------
  // Escapes
  // ------------------------------------------------------------------------------------------

  /** The lower-case hexadecimal numeral of n. */
  function HexNumeral(n: nat): (s: string)
    ensures s != "" && forall i :: 0 <= i < |s| ==> IsHex(s[i])
  {
    if n < 16 then [HexChar(n)] else HexNumeral(n / 16) + [HexChar(n % 16)]
  }

  function HexChar(d: nat): (c: char)
    requires d < 16
    ensures IsHex(c) && HexDigit(c) == d
  {
    if d < 10 then (d + '0' as int) as char else (d - 10 + 'a' as int) as char
  }

  lemma {:induction false} HexNumeralValue(n: nat)
    ensures HexValue(HexNumeral(n)) == n
  {
    var s := HexNumeral(n);
    if n < 16 {
      assert s[..0] == "";
    } else {
      HexNumeralValue(n / 16);
      assert s[..|s| - 1] == HexNumeral(n / 16);
    }
  }

  lemma {:induction false} HexNumeralLength(n: nat, k: nat)
    requires n < Pow16(k) && k > 0
    ensures |HexNumeral(n)| <= k
    decreases k
  {
    if n >= 16 {
      assert k > 1 by { assert Pow16(1) == 16; }
      HexNumeralLength(n / 16, k - 1);
    }
  }

  function Pow16(k: nat): nat {
    if k == 0 then 1 else 16 * Pow16(k - 1)
  }

  /** The code points that one-letter escapes stand for. */
  const LETTERS: map<char, nat> := map['n' := 0x0A, 't' := 0x09, 'r' := 0x0D, '"' := 0x22, '\\' := 0x5C, '/' := 0x2F]

  /** A one-letter escape reads as its code point, and no other letter is an escape, except u before a
      brace. */
  lemma LetterEscape(c: char, rest: string)
    ensures var r := Unescape([c] + rest);
            if c in LETTERS then r.Ok? && r.value.1 == 1 && |r.value.0| == 1 && r.value.0[0] as int == LETTERS[c]
            else if c == 'u' && rest != "" && rest[0] == '{' then r != Err(UnsupportedEscape)
            else r == Err(UnsupportedEscape)
  {
    var s := [c] + rest;
    assert s[0] == c && (rest != "" ==> s[1] == rest[0]);
  }

  /** An escape by code point reads as the one character that has it, wherever it stands; one that is no
      Unicode scalar value is refused. */
  lemma EscapedCodePoint(cp: nat, rest: string)
    requires cp < 0x1_0000_0000
    ensures var digits := HexNumeral(cp);
            var r := Unescape("u{" + digits + "}" + rest);
            if Utf8.IsScalar(cp) then
              r.Ok? && Utf8.IsCharacter(r.value.0) && Utf8.CodePoint(r.value.0) == cp && r.value.1 == |digits| + 3
            else r == Err(BadUnicodeEscape)
  {
    hide HexNumeral, HexValue, Utf8.Encode, Utf8.IsCharacter, Utf8.CodePoint;
    var digits := HexNumeral(cp);
    var s := "u{" + digits + "}" + rest;
    HexNumeralValue(cp);
    assert Pow16(8) == 0x1_0000_0000 by {
      assert Pow16(4) == 0x1_0000;
    }
    HexNumeralLength(cp, 8);
    assert s[2..] == digits + ("}" + rest);
    FirstBrace(digits, "}" + rest);
    assert s[2..][..|digits|] == digits;
    if Utf8.IsScalar(cp) {
      Utf8.EncodeIs(cp, Utf8.Encode(cp));
    }
  }

  lemma FirstBrace(digits: string, rest: string)
    requires rest != "" && rest[0] == '}' && forall i :: 0 <= i < |digits| ==> IsHex(digits[i])
    ensures IndexOf(digits + rest, '}') == |digits|
  {
    var s, k := digits + rest, |digits|;
    assert s[..k] == digits;
    assert s[k] == '}' && '}' !in digits;
    assert s[k] !in s[..k];
  }
}
