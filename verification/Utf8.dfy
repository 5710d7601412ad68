/**
  UTF-8 as Table 3-7 of the Unicode Standard (section 3.9) lists it; the same rows are the
  grammar in section 4 of RFC 3629.
  */
module Utf8 {

  predicate Tail(b: char) {
    0x80 <= b as int <= 0xBF
  }

  predicate Form1(a: char) {
    a as int <= 0x7F
  }

  predicate Form2(a: char, b: char) {
    0xC2 <= a as int <= 0xDF && Tail(b)
  }

  predicate Form3(a: char, b: char, c: char) {
    && Tail(c)
    && (|| (a as int == 0xE0 && 0xA0 <= b as int <= 0xBF)
        || (0xE1 <= a as int <= 0xEC && Tail(b))
        || (a as int == 0xED && 0x80 <= b as int <= 0x9F)
        || (0xEE <= a as int <= 0xEF && Tail(b)))
  }

  predicate Form4(a: char, b: char, c: char, d: char) {
    && Tail(c) && Tail(d)
    && (|| (a as int == 0xF0 && 0x90 <= b as int <= 0xBF)
        || (0xF1 <= a as int <= 0xF3 && Tail(b))
        || (a as int == 0xF4 && 0x80 <= b as int <= 0x8F))
  }

  /** One row of Table 3-7 matches the whole of w. */
  predicate IsCharacter(w: string) {
    || (|w| == 1 && Form1(w[0]))
    || (|w| == 2 && Form2(w[0], w[1]))
    || (|w| == 3 && Form3(w[0], w[1], w[2]))
    || (|w| == 4 && Form4(w[0], w[1], w[2], w[3]))
  }

  /** The length of the character at the head of s, or 0 if there is none. */
  function HeadLen(s: string): (n: nat)
    ensures n <= |s|
    ensures n > 0 <==> exists k :: 0 <= k <= |s| && IsCharacter(s[..k])
    ensures n > 0 ==> IsCharacter(s[..n])
  {
    var n :=
      if |s| >= 1 && Form1(s[0]) then 1
      else if |s| >= 2 && Form2(s[0], s[1]) then 2
      else if |s| >= 3 && Form3(s[0], s[1], s[2]) then 3
      else if |s| >= 4 && Form4(s[0], s[1], s[2], s[3]) then 4
      else 0;
    assert n > 0 ==> IsCharacter(s[..n]);
    n
  }

  /** utf8.Valid: s is a sequence of characters. */
  predicate Valid(s: string)
    decreases |s|
  {
    s == "" || (HeadLen(s) > 0 && Valid(s[HeadLen(s)..]))
  }

  predicate Ascii(s: string) {
    forall i :: 0 <= i < |s| ==> s[i] as int < 0x80
  }

  /** The first character of a text does not depend on what follows it. */
  lemma HeadLenPrefix(a: string, b: string)
    requires HeadLen(a) > 0
    ensures HeadLen(a + b) == HeadLen(a)
  {
    assert forall i :: 0 <= i < |a| ==> (a + b)[i] == a[i];
  }

  lemma ValidUnfold(s: string)
    ensures Valid(s) <==> s == "" || (HeadLen(s) > 0 && Valid(s[HeadLen(s)..]))
  {}

  lemma {:induction false} ValidAppend(a: string, b: string)
    requires Valid(a) && Valid(b)
    ensures Valid(a + b)
    decreases |a|
  {
    hide HeadLen, Valid;
    ValidUnfold(a);
    if a == "" {
      assert a + b == b;
    } else {
      var n := HeadLen(a);
      ValidAppend(a[n..], b);
      HeadLenPrefix(a, b);
      assert (a + b)[n..] == a[n..] + b;
      ValidUnfold(a + b);
    }
  }

  lemma {:induction false} AsciiValid(s: string)
    requires Ascii(s)
    ensures Valid(s)
    decreases |s|
  {
    if s != "" {
      AsciiValid(s[1..]);
    }
  }

  /** A character of more than one byte has no ASCII byte in it. */
  lemma HeadBytes(s: string, i: nat)
    requires i < HeadLen(s)
    ensures HeadLen(s) == 1 <==> s[0] as int < 0x80
    ensures HeadLen(s) > 1 ==> s[i] as int >= 0x80
  {}

  /** Only the first byte of a character is below 0x80. */
  lemma CutAfterHead(s: string, k: nat)
    requires 0 < k <= |s| && (k < |s| ==> s[k] as int < 0x80)
    ensures k >= HeadLen(s)
  {
    if k < HeadLen(s) {
      HeadBytes(s, k);
    }
  }

  lemma Slices(s: string, n: nat, k: nat)
    requires n <= k <= |s|
    ensures s[n..][k - n..] == s[k..]
    ensures s[..k][n..] == s[n..][..k - n]
    ensures s[..k] == s[..n] + s[n..k]
  {}

  lemma HeadAlone(s: string)
    requires HeadLen(s) > 0
    ensures HeadLen(s[..HeadLen(s)]) == HeadLen(s)
  {}

  /** A valid text may be cut in front of any ASCII byte. */
  lemma {:induction false} ValidCut(s: string, k: nat)
    requires Valid(s)
    requires k <= |s| && (k < |s| ==> s[k] as int < 0x80)
    ensures Valid(s[..k]) && Valid(s[k..])
    decreases |s|
  {
    hide Valid, HeadLen, IsCharacter;
    ValidUnfold(s);
    ValidUnfold(s[..k]);
    if s == "" || k == 0 {
      assert s[..k] == "" && s[k..] == s;
    } else {
      var n := HeadLen(s);
      CutAfterHead(s, k);
      ValidCut(s[n..], k - n);
      Slices(s, n, k);
      HeadAlone(s);
      HeadLenPrefix(s[..n], s[n..k]);
    }
  }

  /** Every byte of s replaced by a string. */
  function MapBytes(s: string, f: char -> string): string {
    if s == "" then "" else f(s[0]) + MapBytes(s[1..], f)
  }

  lemma {:induction false} MapBytesSpan(s: string, n: nat, f: char -> string)
    requires n <= |s| && forall i :: 0 <= i < n ==> f(s[i]) == [s[i]]
    ensures MapBytes(s, f) == s[..n] + MapBytes(s[n..], f)
    decreases n
  {
    if n > 0 {
      MapBytesSpan(s[1..], n - 1, f);
      assert s[1..][n - 1..] == s[n..];
      calc {
        MapBytes(s, f);
        [s[0]] + MapBytes(s[1..], f);
        [s[0]] + (s[1..][..n - 1] + MapBytes(s[n..], f));
        { assert s[..n] == [s[0]] + s[1..][..n - 1]; }
        s[..n] + MapBytes(s[n..], f);
      }
    }
  }

  /** Rewriting ASCII bytes to ASCII strings, and nothing else, keeps a text valid. */
  lemma {:induction false} MapBytesValid(s: string, f: char -> string)
    requires Valid(s)
    requires forall c: char :: if c as int < 0x80 then Ascii(f(c)) else f(c) == [c]
    ensures Valid(MapBytes(s, f))
    decreases |s|
  {
    if s != "" {
      var n := HeadLen(s);
      MapBytesValid(s[n..], f);
      if n == 1 {
        AsciiValid(f(s[0]));
        ValidAppend(f(s[0]), MapBytes(s[1..], f));
      } else {
        forall i | 0 <= i < n ensures f(s[i]) == [s[i]] {
          HeadBytes(s, i);
        }
        MapBytesSpan(s, n, f);
        assert HeadLen(s[..n]) == n && s[..n][n..] == "";
        ValidAppend(s[..n], MapBytes(s[n..], f));
      }
    }
  }

  lemma CharacterValid(w: string)
    requires IsCharacter(w)
    ensures HeadLen(w) == |w| && Valid(w)
  {
    assert w[|w|..] == "";
  }

  function Encode2(cp: nat): (s: string)
    requires 0x80 <= cp < 0x800
    ensures IsCharacter(s)
  {
    [(0xC0 + cp / 0x40) as char, (0x80 + cp % 0x40) as char]
  }

  function Encode3(cp: nat): (s: string)
    requires 0x800 <= cp < 0x10000 && !(0xD800 <= cp <= 0xDFFF)
    ensures IsCharacter(s)
  {
    [(0xE0 + cp / 0x1000) as char, (0x80 + cp / 0x40 % 0x40) as char, (0x80 + cp % 0x40) as char]
  }

  function Encode4(cp: nat): (s: string)
    requires 0x10000 <= cp <= 0x10FFFF
    ensures IsCharacter(s)
  {
    [(0xF0 + cp / 0x40000) as char, (0x80 + cp / 0x1000 % 0x40) as char,
     (0x80 + cp / 0x40 % 0x40) as char, (0x80 + cp % 0x40) as char]
  }

  /** The encoding of a Unicode scalar value (Go's string(rune(cp))). */
  function Encode(cp: nat): (s: string)
    requires cp <= 0x10FFFF && !(0xD800 <= cp <= 0xDFFF)
    ensures IsCharacter(s)
  {
    if cp < 0x80 then [cp as char]
    else if cp < 0x800 then Encode2(cp)
    else if cp < 0x10000 then Encode3(cp)
    else Encode4(cp)
  }

  predicate IsScalar(cp: nat) {
    cp <= 0x10FFFF && !(0xD800 <= cp <= 0xDFFF)
  }

  /** The code point a character stands for: the bits of Table 3-6 of the Unicode Standard. */
  function CodePoint(w: string): (cp: nat)
    requires IsCharacter(w)
  {
    if |w| == 1 then w[0] as int
    else if |w| == 2 then (w[0] as int - 0xC0) * 0x40 + (w[1] as int - 0x80)
    else if |w| == 3 then (w[0] as int - 0xE0) * 0x1000 + (w[1] as int - 0x80) * 0x40 + (w[2] as int - 0x80)
    else (w[0] as int - 0xF0) * 0x40000 + (w[1] as int - 0x80) * 0x1000 + (w[2] as int - 0x80) * 0x40 + (w[3] as int - 0x80)
  }

  /** Encoding gives the one character with that code point. */
  lemma EncodeIs(cp: nat, w: string)
    requires IsScalar(cp)
    ensures w == Encode(cp) <==> IsCharacter(w) && CodePoint(w) == cp
  {
    hide CodePoint, Encode, IsCharacter, Encode2, Encode3, Encode4;
    PointOfEncoded(cp);
    if IsCharacter(w) {
      EncodedPoint(w);
    }
  }

  lemma PointOfEncoded(cp: nat)
    requires IsScalar(cp)
    ensures IsCharacter(Encode(cp)) && CodePoint(Encode(cp)) == cp
  {
    hide IsCharacter, Encode2, Encode3, Encode4, CodePoint;
    if cp < 0x80 {
      PointOf1(cp);
    } else if cp < 0x800 {
      PointOf2(cp);
    } else if cp < 0x10000 {
      PointOf3(cp);
    } else {
      PointOf4(cp);
    }
  }

  lemma PointOf1(cp: nat)
    requires cp < 0x80
    ensures IsCharacter([cp as char]) && CodePoint([cp as char]) == cp
  {}

  /** Appending a digit to the base 64, and taking it off again. */
  lemma Digit64(x: nat, d: nat)
    requires d < 0x40
    ensures (x * 0x40 + d) / 0x40 == x && (x * 0x40 + d) % 0x40 == d
  {}

  lemma Digits64(cp: nat)
    ensures cp == cp / 0x40 * 0x40 + cp % 0x40
    ensures cp / 0x1000 == cp / 0x40 / 0x40 && cp / 0x40000 == cp / 0x40 / 0x40 / 0x40
  {}

  lemma PointOf2(cp: nat)
    requires 0x80 <= cp < 0x800
    ensures CodePoint(Encode2(cp)) == cp
  {}

  lemma PointOf3(cp: nat)
    requires 0x800 <= cp < 0x10000 && !(0xD800 <= cp <= 0xDFFF)
    ensures CodePoint(Encode3(cp)) == cp
  {
    hide IsCharacter;
    var w := Encode3(cp);
    Digits64(cp);
    Digits64(cp / 0x40);
  }

  lemma PointOf4(cp: nat)
    requires 0x10000 <= cp <= 0x10FFFF
    ensures CodePoint(Encode4(cp)) == cp
  {
    hide IsCharacter;
    Digits64(cp);
    Digits64(cp / 0x40);
    Digits64(cp / 0x40 / 0x40);
    Bits4(cp, cp / 0x40, cp / 0x40 / 0x40, cp / 0x40 / 0x40 / 0x40);
    Points4(Encode4(cp));
  }

  lemma Bits4(a: nat, b: nat, c: nat, d: nat)
    requires a == b * 0x40 + a % 0x40 && b == c * 0x40 + b % 0x40 && c == d * 0x40 + c % 0x40
    ensures a == d * 0x40000 + c % 0x40 * 0x1000 + b % 0x40 * 0x40 + a % 0x40
  {}

  lemma Points4(w: string)
    requires IsCharacter(w) && |w| == 4
    ensures CodePoint(w) == (w[0] as int - 0xF0) * 0x40000 + (w[1] as int - 0x80) * 0x1000 + (w[2] as int - 0x80) * 0x40 + (w[3] as int - 0x80)
  {}

  lemma EncodedPoint(w: string)
    requires IsCharacter(w)
    ensures IsScalar(CodePoint(w)) && Encode(CodePoint(w)) == w
  {
    hide Encode2, Encode3, Encode4;
    if |w| == 2 {
      EncodedPoint2(w);
    } else if |w| == 3 {
      EncodedPoint3(w);
    } else if |w| == 4 {
      EncodedPoint4(w);
    }
  }

  lemma EncodedPoint2(w: string)
    requires IsCharacter(w) && |w| == 2
    ensures 0x80 <= CodePoint(w) < 0x800 && Encode2(CodePoint(w)) == w
  {}

  lemma EncodedPoint3(w: string)
    requires IsCharacter(w) && |w| == 3
    ensures 0x800 <= CodePoint(w) < 0x10000 && !(0xD800 <= CodePoint(w) <= 0xDFFF) && Encode3(CodePoint(w)) == w
  {
    var a, b, c := w[0] as int - 0xE0, w[1] as int - 0x80, w[2] as int - 0x80;
    Range3(w);
    Digit64(a * 0x40 + b, c);
    Digit64(a, b);
    Digits64(CodePoint(w));
    SameChars3(w, CodePoint(w), a, b, c);
  }

  lemma Range3(w: string)
    requires IsCharacter(w) && |w| == 3
    ensures var a, b, c := w[0] as int - 0xE0, w[1] as int - 0x80, w[2] as int - 0x80;
            && 0 <= a < 0x10 && 0 <= b < 0x40 && 0 <= c < 0x40
            && CodePoint(w) == (a * 0x40 + b) * 0x40 + c
            && 0x800 <= CodePoint(w) < 0x10000 && !(0xD800 <= CodePoint(w) <= 0xDFFF)
  {}

  lemma SameChars3(w: string, cp: nat, a: nat, b: nat, c: nat)
    requires |w| == 3 && w[0] as int == 0xE0 + a && w[1] as int == 0x80 + b && w[2] as int == 0x80 + c
    requires 0x800 <= cp < 0x10000 && !(0xD800 <= cp <= 0xDFFF)
    requires cp / 0x1000 == a && cp / 0x40 % 0x40 == b && cp % 0x40 == c
    ensures Encode3(cp) == w
  {
    hide IsCharacter;
  }

  lemma EncodedPoint4(w: string)
    requires IsCharacter(w) && |w| == 4
    ensures 0x10000 <= CodePoint(w) <= 0x10FFFF && Encode4(CodePoint(w)) == w
  {
    hide CodePoint, IsCharacter;
    var a, b, c, d := w[0] as int - 0xF0, w[1] as int - 0x80, w[2] as int - 0x80, w[3] as int - 0x80;
    Range4(w);
    Digit64((a * 0x40 + b) * 0x40 + c, d);
    Digit64(a * 0x40 + b, c);
    Digit64(a, b);
    Digits64(CodePoint(w));
    SameChars4(w, CodePoint(w), a, b, c, d);
  }

  lemma Range4(w: string)
    requires IsCharacter(w) && |w| == 4
    ensures var a, b, c, d := w[0] as int - 0xF0, w[1] as int - 0x80, w[2] as int - 0x80, w[3] as int - 0x80;
            && 0 <= a < 5 && 0 <= b < 0x40 && 0 <= c < 0x40 && 0 <= d < 0x40
            && CodePoint(w) == ((a * 0x40 + b) * 0x40 + c) * 0x40 + d
            && 0x10000 <= CodePoint(w) <= 0x10FFFF
  {}

  lemma SameChars4(w: string, cp: nat, a: nat, b: nat, c: nat, d: nat)
    requires |w| == 4 && w[0] as int == 0xF0 + a && w[1] as int == 0x80 + b && w[2] as int == 0x80 + c && w[3] as int == 0x80 + d
    requires 0x10000 <= cp <= 0x10FFFF
    requires cp / 0x40000 == a && cp / 0x1000 % 0x40 == b && cp / 0x40 % 0x40 == c && cp % 0x40 == d
    ensures Encode4(cp) == w
  {
    hide IsCharacter;
  }
}
