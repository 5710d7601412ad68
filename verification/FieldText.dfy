/**
  What text is taken for a number, a yes or no, or a time of day, wherever a panel may write a value as
  text (go/protocol/compat.go, go/dispatcher/dispatcher.go, go/policy/policy.go).
  */
module FieldText {
  import opened Text
  import opened Wrappers
  import opened Kdl
  import opened Protocol
  import opened Policy
  import StateFile
  import Utf8

  // ------------------------------------------------------------------------------------------
  // White space around a text
  // ------------------------------------------------------------------------------------------

  predicate Blank(s: string)
    decreases |s|
  {
    s == "" || (Utf8.HeadLen(s) > 0 && IsSpace(s[..Utf8.HeadLen(s)]) && Blank(s[Utf8.HeadLen(s)..]))
  }

  /** s is t with white space around it. */
  ghost predicate Around(s: string, t: string) {
    exists i, j :: 0 <= i <= j <= |s| && Blank(s[..i]) && s[i..j] == t && Blank(s[j..])
  }

  /** ASCII characters that can be seen. */
  predicate Visible(t: string) {
    forall i :: 0 <= i < |t| ==> '!' <= t[i] <= '~'
  }

  function Trim(s: string): string {
    TrimRight(TrimLeft(s))
  }

  lemma BlankStep(s: string)
    ensures Blank(s) <==> s == "" || (Utf8.HeadLen(s) > 0 && IsSpace(s[..Utf8.HeadLen(s)]) && Blank(s[Utf8.HeadLen(s)..]))
  {}

  lemma TrimLeftStep(s: string)
    ensures var n := Utf8.HeadLen(s);
            TrimLeft(s) == if n > 0 && IsSpace(s[..n]) then TrimLeft(s[n..]) else s
  {}

  lemma TrimRightStep(s: string)
    ensures var n := Utf8.HeadLen(s);
            TrimRight(s)
            == if n == 0 then s
               else if TrimRight(s[n..]) == "" && IsSpace(s[..n]) then ""
               else s[..n] + TrimRight(s[n..])
  {
    hide IsSpace, Utf8.HeadLen;
  }

  lemma {:induction false} TrimLeftSplit(s: string) returns (i: nat)
    ensures i <= |s| && Blank(s[..i]) && TrimLeft(s) == s[i..]
    decreases |s|
  {
    hide IsSpace, Utf8.HeadLen, Blank, TrimLeft;
    BlankNothing();
    TrimLeftStep(s);
    var n := Utf8.HeadLen(s);
    i := 0;
    if n > 0 && IsSpace(s[..n]) {
      var k := TrimLeftSplit(s[n..]);
      i := n + k;
      Utf8.Slices(s, n, i);
      Utf8.HeadAlone(s);
      Utf8.HeadLenPrefix(s[..n], s[n..i]);
      assert s[..i][..n] == s[..n];
      BlankStep(s[..i]);
    }
  }

  lemma {:induction false} TrimRightSplit(s: string) returns (j: nat)
    ensures j <= |s| && TrimRight(s) == s[..j] && Blank(s[j..])
    decreases |s|
  {
    hide IsSpace, Utf8.HeadLen, Blank, TrimRight;
    BlankNothing();
    BlankStep(s);
    TrimRightStep(s);
    var n := Utf8.HeadLen(s);
    j := |s|;
    assert s[j..] == "";
    if n > 0 {
      var k := TrimRightSplit(s[n..]);
      if k == 0 && IsSpace(s[..n]) {
        j := 0;
        assert s[0..] == s && s[n..][0..] == s[n..];
      } else {
        j := n + k;
        assert s[n..][k..] == s[j..] && s[..n] + s[n..][..k] == s[..j];
      }
    }
  }

  lemma BlankNothing()
    ensures Blank("")
  {}

  lemma VisibleHead(s: string)
    requires s != "" && '!' <= s[0] <= '~'
    ensures Utf8.HeadLen(s) == 1 && s[..1] == [s[0]] && !IsSpace(s[..1])
  {}

  lemma {:induction false} TrimLeftPast(a: string, t: string)
    requires Blank(a) && (t == "" || '!' <= t[0] <= '~')
    ensures TrimLeft(a + t) == t
    decreases |a|
  {
    hide IsSpace, Utf8.HeadLen, Blank, TrimLeft;
    BlankStep(a);
    TrimLeftStep(a + t);
    if a == "" {
      assert a + t == t;
      if t != "" {
        VisibleHead(t);
      } else {
        NothingToTrim();
      }
    } else {
      var n := Utf8.HeadLen(a);
      Utf8.HeadLenPrefix(a, t);
      TrimLeftPast(a[n..], t);
      assert (a + t)[..n] == a[..n] && (a + t)[n..] == a[n..] + t;
    }
  }

  lemma NothingToTrim()
    ensures TrimLeft("") == "" && TrimRight("") == ""
  {}

  lemma {:induction false} TrimRightBefore(t: string, b: string)
    requires Visible(t) && Blank(b)
    ensures TrimRight(t + b) == t
    decreases |t| + |b|
  {
    hide IsSpace, Utf8.HeadLen, Blank, TrimRight;
    BlankStep(b);
    TrimRightStep(t + b);
    if t != "" {
      VisibleHead(t + b);
      TrimRightBefore(t[1..], b);
      assert (t + b)[1..] == t[1..] + b && [t[0]] + t[1..] == t;
    } else if b != "" {
      var n := Utf8.HeadLen(b);
      TrimRightBefore("", b[n..]);
      assert "" + b == b && "" + b[n..] == b[n..];
    } else {
      NothingToTrim();
      assert t + b == "";
    }
  }

  /** Trimming finds exactly the visible text that has nothing but white space around it. */
  lemma TrimFinds(s: string, t: string)
    requires Visible(t)
    ensures Trim(s) == t <==> Around(s, t)
  {
    hide IsSpace, TrimLeft, TrimRight, Utf8.HeadLen, Blank;
    if Trim(s) == t {
      TrimmedAround(s);
    }
    if Around(s, t) {
      var i, j :| 0 <= i <= j <= |s| && Blank(s[..i]) && s[i..j] == t && Blank(s[j..]);
      Surrounded(s[..i], t, s[j..]);
      ThreeParts(s, i, j);
    }
  }

  lemma TrimmedAround(s: string)
    ensures Around(s, Trim(s))
  {
    hide IsSpace, TrimLeft, TrimRight, Utf8.HeadLen, Blank;
    var i := TrimLeftSplit(s);
    var j := TrimRightSplit(s[i..]);
    assert s[i..][j..] == s[i + j..];
    assert s[i..][..j] == s[i..i + j];
  }

  lemma ThreeParts(s: string, i: nat, j: nat)
    requires i <= j <= |s|
    ensures s[..i] + s[i..j] + s[j..] == s
  {}

  lemma Surrounded(a: string, t: string, b: string)
    requires Blank(a) && Visible(t) && Blank(b)
    ensures Trim(a + t + b) == t
  {
    hide IsSpace, TrimLeft, TrimRight, Utf8.HeadLen, Blank;
    if t == "" {
      assert a + t + b == a + b;
      BlankAppend(a, b);
      TrimLeftPast(a + b, "");
      assert a + b + "" == a + b;
      NothingToTrim();
    } else {
      TrimLeftPast(a, t + b);
      TrimRightBefore(t, b);
      assert a + (t + b) == a + t + b;
    }
  }

  lemma {:induction false} BlankAppend(a: string, b: string)
    requires Blank(a) && Blank(b)
    ensures Blank(a + b)
    decreases |a|
  {
    hide IsSpace, Utf8.HeadLen, Blank;
    BlankStep(a);
    BlankStep(a + b);
    if a == "" {
      assert a + b == b;
    } else {
      var n := Utf8.HeadLen(a);
      Utf8.HeadLenPrefix(a, b);
      BlankAppend(a[n..], b);
      assert (a + b)[..n] == a[..n] && (a + b)[n..] == a[n..] + b;
    }
  }

  /** Nothing is found exactly where there is nothing but white space. */
  lemma AroundNothing(s: string)
    ensures Around(s, "") <==> Blank(s)
  {
    hide Blank;
    if Around(s, "") {
      var i, j :| 0 <= i <= j <= |s| && Blank(s[..i]) && s[i..j] == "" && Blank(s[j..]);
      JoinBlank(s, i, j);
    }
    if Blank(s) {
      NothingBefore(s);
    }
  }

  lemma JoinBlank(s: string, i: nat, j: nat)
    requires i <= j <= |s| && Blank(s[..i]) && s[i..j] == "" && Blank(s[j..])
    ensures Blank(s)
  {
    hide Blank;
    BlankAppend(s[..i], s[j..]);
    assert |s[i..j]| == j - i;
    assert s[..i] + s[j..] == s;
  }

  lemma NothingBefore(s: string)
    requires Blank(s)
    ensures Around(s, "")
  {
    hide Blank;
    BlankNothing();
    assert s[..0] == "" && s[0..0] == "" && s[0..] == s;
    assert Blank(s[..0]) && Blank(s[0..]);
  }

  // ------------------------------------------------------------------------------------------
  // Numbers
  // ------------------------------------------------------------------------------------------

  /** Digits with at most one sign before them, and their value. */
  predicate NumeralOf(t: string, n: int) {
    || (AllDigits(t) && n == DecimalValue(t))
    || (t != "" && t[0] == '+' && AllDigits(t[1..]) && n == DecimalValue(t[1..]))
    || (t != "" && t[0] == '-' && AllDigits(t[1..]) && n + DecimalValue(t[1..]) == 0)
  }

  lemma DigitsStay(t: string)
    requires AllDigits(t)
    ensures TrimSigns(t) == t
  {
    assert IsDigit(t[0]);
  }

  lemma TwoSigns(t: string)
    requires |t| > 1 && t[0] in {'+', '-'} && t[1] in {'+', '-'}
    ensures |t| - |TrimSigns(t)| > 1
  {
    assert TrimSigns(t) == TrimSigns(t[1..]) == TrimSigns(t[1..][1..]);
  }

  lemma SignedNumeral(t: string, n: int)
    ensures NumeralOf(t, n) <==> |t| - |TrimSigns(t)| <= 1 && AllDigits(TrimSigns(t)) && SignedValue(t) == n
  {
    hide DecimalValue;
    if AllDigits(t) {
      DigitsStay(t);
      assert IsDigit(t[0]);
    } else if t != "" && t[0] in {'+', '-'} {
      if AllDigits(t[1..]) {
        DigitsStay(t[1..]);
      } else if |t| > 1 && t[1] in {'+', '-'} {
        TwoSigns(t);
      } else {
        assert TrimSigns(t) == t[1..];
      }
    }
  }

  lemma NumeralVisible(t: string, n: int)
    requires NumeralOf(t, n)
    ensures Visible(t)
  {
    hide DecimalValue;
    if t[0] in {'+', '-'} {
      assert forall i :: 1 <= i < |t| ==> t[i] == t[1..][i - 1];
    }
  }

  ghost predicate TextFor(s: string, n: int) {
    exists t :: NumeralOf(t, n) && Around(s, t)
  }

  /** The number a value stands for: itself, or a numeral with white space around it. */
  ghost predicate StandsFor(v: Value, n: int) {
    v == Int(n) || (v.Str? && TextFor(v.s, n))
  }

  /** A field is taken for a number exactly if it stands for one within 2^53 of zero. */
  lemma NumberRead(v: Value, id: Option<string>, n: int)
    ensures ParseInt(v, id) == Ok(n) <==> StandsFor(v, n) && -0x20_0000_0000_0000 <= n <= 0x20_0000_0000_0000
    ensures ParseInt(v, id).Err? ==> ParseInt(v, id).error.code == "invalid_value" && ParseInt(v, id).error.reqID == id
  {
    hide TrimLeft, TrimRight, TrimSigns, SignedValue, Around, NumeralOf, AllDigits;
    if v.Str? {
      var text := Trim(v.s);
      if AllDigits(TrimSigns(text)) && |text| - |TrimSigns(text)| <= 1 {
        SignedNumeral(text, SignedValue(text));
        NumeralVisible(text, SignedValue(text));
        TrimFinds(v.s, text);
      }
      if TextFor(v.s, n) {
        var t :| NumeralOf(t, n) && Around(v.s, t);
        NumeralVisible(t, n);
        TrimFinds(v.s, t);
        SignedNumeral(t, n);
      }
    }
  }

  /** A bare word of a document is a number exactly if it is a numeral of 64 bits. */
  lemma BareNumber(word: string, n: int)
    ensures ParseBare(word) == Ok(Int(n)) <==> NumeralOf(word, n) && MIN_INT64 <= n <= MAX_INT64
  {
    hide TrimSigns, SignedValue, NumeralOf, AllDigits;
    SignedNumeral(word, n);
    if AllDigits(TrimSigns(word)) && |word| - |TrimSigns(word)| <= 1 {
      SignedNumeral(word, SignedValue(word));
    }
    WordsAreNoNumerals(n);
  }

  lemma WordsAreNoNumerals(n: int)
    ensures !NumeralOf("true", n) && !NumeralOf("false", n) && !NumeralOf("null", n)
  {
    hide DecimalValue;
    assert !IsDigit("true"[0]) && !IsDigit("false"[0]) && !IsDigit("null"[0]);
  }

  // ------------------------------------------------------------------------------------------
  // Times
  // ------------------------------------------------------------------------------------------

  /** One or two digits, a colon, two digits, and the time they say. */
  predicate ClockOf(text: string, t: TimeOfDay) {
    && 4 <= |text| <= 5 && text[|text| - 3] == ':'
    && AllDigits(text[..|text| - 3]) && AllDigits(text[|text| - 2..])
    && t.hour == DecimalValue(text[..|text| - 3]) && t.minute == DecimalValue(text[|text| - 2..])
  }

  lemma ClockVisible(text: string, t: TimeOfDay)
    requires ClockOf(text, t)
    ensures Visible(text) && IndexOf(text, ':') == |text| - 3
  {
    hide DecimalValue;
    var k := |text| - 3;
    assert forall i :: 0 <= i < k ==> text[i] == text[..k][i];
    assert forall i :: k < i < |text| ==> text[i] == text[k + 1..][i - k - 1];
    StateFile.FirstColon(text, k);
  }

  lemma ClockRead(text: string, t: TimeOfDay)
    ensures var k := IndexOf(text, ':');
            ClockOf(text, t) <==>
              && k < |text| && AllDigits(text[..k]) && k <= 2 && AllDigits(text[k + 1..]) && |text| - k == 3
              && t == TimeOfDay(DecimalValue(text[..k]), DecimalValue(text[k + 1..]))
  {
    hide DecimalValue, AllDigits;
    if ClockOf(text, t) {
      ClockVisible(text, t);
    }
    SomeDigits(text[..IndexOf(text, ':')]);
  }

  lemma SomeDigits(s: string)
    ensures AllDigits(s) ==> s != ""
  {}

  ghost predicate IsTimeText(s: string, t: TimeOfDay) {
    exists text :: ClockOf(text, t) && Around(s, text)
  }

  /** A text is taken for a time of day exactly if it is H:MM or HH:MM, with white space around it, and the
      hour and minute exist. */
  lemma TimeRead(s: string, t: TimeOfDay)
    ensures StateFile.ParseTimeHHMM(s) == Some(t) <==> t.Valid() && IsTimeText(s, t)
  {
    hide TrimLeft, TrimRight, Around, ClockOf, AllDigits, IndexOf, DecimalValue, TimeOfDay.Valid;
    var text := Trim(s);
    if StateFile.ParseTimeHHMM(s) == Some(t) {
      ClockRead(text, t);
      ClockVisible(text, t);
      TrimFinds(s, text);
    }
    if IsTimeText(s, t) {
      var x :| ClockOf(x, t) && Around(s, x);
      ClockVisible(x, t);
      TrimFinds(s, x);
      ClockRead(x, t);
    }
  }
}
