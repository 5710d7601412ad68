/**
  Byte strings and decimal numbers.

  A Go string is a sequence of bytes.  It is modelled as a Dafny `string` in which every char
  stands for the byte with that code, so that ASCII literals read as they do in the source and
  `|s|` is Go's `len(s)`.
  */
module Text {

  predicate IsDigit(c: char) {
    '0' <= c <= '9'
  }

  /** True of a non-empty run of ASCII digits. */
  predicate AllDigits(s: string) {
    s != "" && forall i :: 0 <= i < |s| ==> IsDigit(s[i])
  }

  function DigitChar(d: int): (c: char)
    requires 0 <= d < 10
    ensures IsDigit(c) && c as int - '0' as int == d
  {
    (d + '0' as int) as char
  }

  /** The decimal numeral of n, without leading zeros. */
  function Digits(n: nat): (s: string)
    ensures AllDigits(s)
    ensures n == 0 || s[0] != '0'
  {
    if n < 10 then [DigitChar(n)] else Digits(n / 10) + [DigitChar(n % 10)]
  }

  function FormatInt(n: int): string {
    if n < 0 then "-" + Digits(-n) else Digits(n)
  }

  /** The value of a run of digits, however long. */
  function DecimalValue(s: string): (n: nat)
    requires forall i :: 0 <= i < |s| ==> IsDigit(s[i])
  {
    if s == "" then 0
    else
      assert IsDigit(s[|s| - 1]);
      DecimalValue(s[..|s| - 1]) * 10 + (s[|s| - 1] as int - '0' as int)
  }

  lemma {:induction false} DigitsValue(n: nat)
    ensures DecimalValue(Digits(n)) == n
  {
    if n >= 10 {
      DigitsValue(n / 10);
      assert Digits(n)[..|Digits(n)| - 1] == Digits(n / 10);
    }
  }

  /** A numeral without leading zeros has k + 1 digits exactly when it is in [10^k, 10^(k+1)). */
  lemma {:induction false} DigitsLength(n: nat, k: nat)
    ensures |Digits(n)| <= k + 1 <==> n < Pow10(k + 1)
  {
    if n < 10 {
      Pow10AtLeast(k);
    } else if k == 0 {
    } else {
      DigitsLength(n / 10, k - 1);
    }
  }

  function Pow10(k: nat): nat {
    if k == 0 then 1 else 10 * Pow10(k - 1)
  }

  lemma Pow10AtLeast(k: nat)
    ensures Pow10(k) >= 1
  {}

  function Repeat(c: char, n: nat): (s: string)
    ensures |s| == n && forall i :: 0 <= i < n ==> s[i] == c
  {
    seq(n, _ => c)
  }

  /** strings.Join. */
  function Join(parts: seq<string>, sep: string): string {
    if parts == [] then ""
    else if |parts| == 1 then parts[0]
    else parts[0] + sep + Join(parts[1..], sep)
  }

  /** Every part with `sep` in front of it. */
  function Prefixed(parts: seq<string>, sep: string): string {
    if parts == [] then "" else sep + parts[0] + Prefixed(parts[1..], sep)
  }

  lemma {:induction false} JoinPrefixed(parts: seq<string>, sep: string)
    requires parts != []
    ensures sep + Join(parts, sep) == Prefixed(parts, sep)
  {
    if |parts| == 1 {
      assert Prefixed(parts[1..], sep) == "";
      assert Prefixed(parts, sep) == sep + parts[0] + "";
    } else {
      JoinPrefixed(parts[1..], sep);
      assert sep + Join(parts, sep) == sep + parts[0] + (sep + Join(parts[1..], sep));
    }
  }

  lemma PrefixedNothing(sep: string)
    ensures Prefixed([], sep) == ""
  {}

  lemma PrefixedStep(x: string, parts: seq<string>, sep: string)
    ensures Prefixed([x] + parts, sep) == sep + x + Prefixed(parts, sep)
  {
    assert ([x] + parts)[1..] == parts;
  }

  lemma {:induction false} PrefixedAppend(a: seq<string>, b: seq<string>, sep: string)
    ensures Prefixed(a + b, sep) == Prefixed(a, sep) + Prefixed(b, sep)
  {
    hide Prefixed;
    if a == [] {
      assert a + b == b;
      PrefixedNothing(sep);
    } else {
      PrefixedAppend(a[1..], b, sep);
      PrefixedStep(a[0], a[1..], sep);
      PrefixedStep(a[0], a[1..] + b, sep);
      assert [a[0]] + a[1..] == a && [a[0]] + (a[1..] + b) == a + b;
    }
  }

  function Concat(parts: seq<string>): string {
    if parts == [] then "" else parts[0] + Concat(parts[1..])
  }

  lemma ConcatNothing()
    ensures Concat([]) == ""
  {}

  lemma ConcatStep(x: string, parts: seq<string>)
    ensures Concat([x] + parts) == x + Concat(parts)
  {
    assert ([x] + parts)[1..] == parts;
  }

  lemma {:induction false} ConcatAppend(a: seq<string>, b: seq<string>)
    ensures Concat(a + b) == Concat(a) + Concat(b)
  {
    hide Concat;
    if a == [] {
      assert a + b == b;
      ConcatNothing();
    } else {
      ConcatAppend(a[1..], b);
      ConcatStep(a[0], a[1..]);
      ConcatStep(a[0], a[1..] + b);
      assert [a[0]] + a[1..] == a && [a[0]] + (a[1..] + b) == a + b;
    }
  }
}
