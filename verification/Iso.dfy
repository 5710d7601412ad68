/**
  The proleptic Gregorian calendar, as far as the date part of a moment needs it.
  */
module Calendar {

  datatype Date = Date(year: int, month: int, day: int)

  predicate LeapYear(y: int) {
    y % 4 == 0 && (y % 100 != 0 || y % 400 == 0)
  }

  function DaysIn(y: int, m: int): (d: nat)
    ensures d <= 31
    ensures 1 <= m <= 12 ==> 28 <= d
  {
    if m in {1, 3, 5, 7, 8, 10, 12} then 31
    else if m in {4, 6, 9, 11} then 30
    else if m == 2 then if LeapYear(y) then 29 else 28
    else 0
  }

  predicate IsDate(d: Date) {
    d.year >= 1 && 1 <= d.month <= 12 && 1 <= d.day <= DaysIn(d.year, d.month)
  }

  function NextDay(d: Date): (n: Date)
    requires IsDate(d)
    ensures IsDate(n)
  {
    if d.day < DaysIn(d.year, d.month) then d.(day := d.day + 1)
    else if d.month < 12 then Date(d.year, d.month + 1, 1)
    else Date(d.year + 1, 1, 1)
  }

  /** The date n days after 0001-01-01. */
  function DateOf(n: nat): (d: Date)
    ensures IsDate(d)
  {
    if n == 0 then Date(1, 1, 1) else NextDay(DateOf(n - 1))
  }

  function DaysBeforeMonth(y: int, m: int): (n: nat)
    requires 1 <= m <= 13
    decreases m
  {
    if m == 1 then 0 else DaysBeforeMonth(y, m - 1) + DaysIn(y, m - 1)
  }

  function DaysBeforeYear(y: int): (n: nat)
    requires y >= 1
    decreases y
  {
    if y == 1 then 0 else DaysBeforeYear(y - 1) + DaysBeforeMonth(y - 1, 13)
  }

  /** The number of days from 0001-01-01 to a date. */
  function DayNumber(d: Date): (n: nat)
    requires IsDate(d)
  {
    DaysBeforeYear(d.year) + DaysBeforeMonth(d.year, d.month) + d.day - 1
  }

  lemma NextDayNumber(d: Date)
    requires IsDate(d)
    ensures DayNumber(NextDay(d)) == DayNumber(d) + 1
  {
    hide DaysBeforeMonth, DaysBeforeYear, DaysIn;
    if d.day < DaysIn(d.year, d.month) {
    } else {
      MonthStep(d.year, d.month);
      YearStep(d.year);
    }
  }

  lemma MonthStep(y: int, m: int)
    requires 1 <= m <= 12
    ensures DaysBeforeMonth(y, m + 1) == DaysBeforeMonth(y, m) + DaysIn(y, m)
  {}

  lemma YearStep(y: int)
    requires y >= 1
    ensures DaysBeforeYear(y + 1) == DaysBeforeYear(y) + DaysBeforeMonth(y, 13)
    ensures DaysBeforeMonth(y + 1, 1) == 0
  {}

  lemma {:induction false} DayNumberOf(n: nat)
    ensures DayNumber(DateOf(n)) == n
  {
    hide DayNumber, NextDay;
    if n == 0 {
      FirstDay();
    } else {
      DayNumberOf(n - 1);
      NextDayNumber(DateOf(n - 1));
    }
  }

  lemma FirstDay()
    ensures DayNumber(Date(1, 1, 1)) == 0
  {}

  /** Date.Before. */
  predicate Before(a: Date, b: Date) {
    if a.year != b.year then a.year < b.year
    else if a.month != b.month then a.month < b.month
    else a.day < b.day
  }

  lemma NextDayLater(a: Date, b: Date)
    requires IsDate(b) && (a == b || Before(a, b))
    ensures Before(a, NextDay(b))
  {}

  lemma {:induction false} LaterDayLaterDate(a: nat, b: nat)
    requires a < b
    ensures Before(DateOf(a), DateOf(b))
    decreases b
  {
    hide DateOf, Before, NextDay;
    if a < b - 1 {
      LaterDayLaterDate(a, b - 1);
    }
    DateAfter(b);
    NextDayLater(DateOf(a), DateOf(b - 1));
  }

  lemma DateAfter(n: nat)
    requires n > 0
    ensures DateOf(n) == NextDay(DateOf(n - 1))
  {}

  /** Dates are ordered and told apart as their days are, so comparing period labels is comparing day
      numbers. */
  lemma SameDateSameDay(a: nat, b: nat)
    ensures DateOf(a) == DateOf(b) <==> a == b
    ensures Before(DateOf(a), DateOf(b)) <==> a < b
  {
    hide DateOf, Before;
    if a < b {
      LaterDayLaterDate(a, b);
    } else if b < a {
      LaterDayLaterDate(b, a);
    }
    BeforeIsStrict(DateOf(a), DateOf(b));
  }

  lemma BeforeIsStrict(a: Date, b: Date)
    ensures Before(a, b) ==> a != b && !Before(b, a)
    ensures Before(b, a) ==> a != b
    ensures !Before(a, a)
  {}
}

/**
  ISO 8601 times as the state file holds them (go/state/iso.go).
  */
module Iso {
  import opened Text
  import opened Wrappers
  import opened Policy
  import opened Calendar

  datatype IsoError = InvalidFormat | OutOfRange

  type Read<+T> = Result<(T, string), IsoError>

  // ------------------------------------------------------------------------------------------
  // Writing
  // ------------------------------------------------------------------------------------------

  /** n in exactly `width` digits. */
  function Pad(n: nat, width: nat): (s: string)
    requires n < Pow10(width)
    ensures |s| == width && forall i :: 0 <= i < width ==> IsDigit(s[i])
  {
    if width == 0 then "" else Pad(n / 10, width - 1) + [DigitChar(n % 10)]
  }

  lemma {:induction false} PadValue(n: nat, width: nat)
    requires n < Pow10(width)
    ensures DecimalValue(Pad(n, width)) == n
  {
    if width > 0 {
      PadValue(n / 10, width - 1);
      assert Pad(n, width)[..width - 1] == Pad(n / 10, width - 1);
    }
  }

  lemma Powers()
    ensures Pow10(2) == 100 && Pow10(4) == 10000 && Pow10(6) == 1000000
  {
    assert Pow10(1) == 10;
    assert Pow10(3) == 1000;
    assert Pow10(5) == 100000;
  }

  /** Moments whose year has at most four digits. */
  predicate InCalendar(t: Moment) {
    t >= 0 && DateOf(DayOf(t)).year <= 9999
  }

  function Part(t: Moment, unit: int, range: int): (n: nat)
    requires unit > 0 && range > 0
    ensures n < range
  {
    t / unit % range
  }

  function FormatDate(d: Date): string
    requires IsDate(d) && d.year <= 9999
  {
    Powers();
    Pad(d.year, 4) + "-" + Pad(d.month, 2) + "-" + Pad(d.day, 2)
  }

  function FormatClock(t: Moment): string {
    Powers();
    Pad(Part(t, 60 * MINUTE, 24), 2) + ":" + Pad(Part(t, MINUTE, 60), 2) + ":" + Pad(Part(t, SECOND, 60), 2)
  }

  function FormatISOSeconds(t: Moment): string
    requires InCalendar(t)
  {
    FormatDate(DateOf(DayOf(t))) + "T" + FormatClock(t)
  }

  function FormatISO(t: Moment): string
    requires InCalendar(t)
  {
    Powers();
    FormatISOSeconds(t) + if t % SECOND == 0 then "" else "." + Pad(t % SECOND, 6)
  }

  // ------------------------------------------------------------------------------------------
  // Reading, on what is left of the text
  // ------------------------------------------------------------------------------------------

  function TakeDigits(s: string, n: nat): Option<(int, string)> {
    if n > |s| || exists i :: 0 <= i < n && !IsDigit(s[i]) then None
    else Some((DecimalValue(s[..n]), s[n..]))
  }

  predicate StartsWith(s: string, c: char) {
    s != "" && s[0] == c
  }

  /** `n` digits and then the separator. */
  function TakeField(s: string, n: nat, sep: char): Read<int> {
    var d := TakeDigits(s, n);
    if d.None? || !StartsWith(d.value.1, sep) then Err(InvalidFormat)
    else Ok((d.value.0, d.value.1[1..]))
  }

  function ReadDate(s: string): (r: Read<Date>)
    ensures r.Ok? ==> IsDate(r.value.0)
  {
    var (year, s1) :- TakeField(s, 4, '-');
    var (month, s2) :- TakeField(s1, 2, '-');
    var day := TakeDigits(s2, 2);
    if day.None? then Err(InvalidFormat)
    else
      var d := Date(year, month, day.value.0);
      if IsDate(d) then Ok((d, day.value.1)) else Err(OutOfRange)
  }

  function DigitRun(s: string): (n: nat)
    ensures n <= |s| && forall i :: 0 <= i < n ==> IsDigit(s[i])
    ensures n < |s| ==> !IsDigit(s[n])
  {
    if s == "" || !IsDigit(s[0]) then 0 else 1 + DigitRun(s[1..])
  }

  /** Microseconds of a fraction: six digits, cut or filled up with zeros. */
  function Micros(frac: string): nat
    requires forall i :: 0 <= i < |frac| ==> IsDigit(frac[i])
  {
    if |frac| >= 6 then DecimalValue(frac[..6]) else DecimalValue(frac + Repeat('0', 6 - |frac|))
  }

  function ReadFraction(s: string): Read<int> {
    if s == "" || s[0] !in {'.', ','} then Ok((0, s))
    else
      var n := DigitRun(s[1..]);
      if n == 0 then Err(InvalidFormat) else Ok((Micros(s[1..][..n]), s[1 + n..]))
  }

  lemma FractionIs(s: string)
    ensures ReadFraction(s) ==
            if s == "" || s[0] !in {'.', ','} then Ok((0, s))
            else if DigitRun(s[1..]) == 0 then Err(InvalidFormat)
            else Ok((Micros(s[1..][..DigitRun(s[1..])]), s[1 + DigitRun(s[1..])..]))
  {}

  lemma DigitRunAt(s: string, pos: nat)
    requires pos <= |s|
    ensures DigitRun(s[pos..]) == if pos < |s| && IsDigit(s[pos]) then 1 + DigitRun(s[pos + 1..]) else 0
  {
    if pos < |s| {
      assert s[pos..][1..] == s[pos + 1..];
    }
  }

  datatype Clock = Clock(hour: int, minute: int, second: int, micros: int)

  /** HH[:MM[:SS[fraction]]]. */
  function ReadClock(s: string): Read<Clock> {
    var hour := TakeDigits(s, 2);
    if hour.None? then Err(InvalidFormat)
    else
      var (h, s1) := hour.value;
      if !StartsWith(s1, ':') then Ok((Clock(h, 0, 0, 0), s1))
      else
        var minute := TakeDigits(s1[1..], 2);
        if minute.None? then Err(InvalidFormat)
        else
          var (m, s2) := minute.value;
          if !StartsWith(s2, ':') then Ok((Clock(h, m, 0, 0), s2))
          else
            var second := TakeDigits(s2[1..], 2);
            if second.None? then Err(InvalidFormat)
            else
              var (us, s3) :- ReadFraction(second.value.1);
              Ok((Clock(h, m, second.value.0, us), s3))
  }

  /** Z, ±HH, ±HH:MM or ±HHMM, or nothing; its value is discarded. */
  function SkipOffset(s: string): Result<string, IsoError> {
    if s == "" then Ok("")
    else if s[0] == 'Z' then Ok(s[1..])
    else if s[0] !in {'+', '-'} then Err(InvalidFormat)
    else
      var hh := TakeDigits(s[1..], 2);
      if hh.None? then Err(InvalidFormat)
      else
        var s1 := hh.value.1;
        if s1 == "" then if hh.value.0 > 23 then Err(OutOfRange) else Ok("")
        else
          var mm := TakeDigits(if s1[0] == ':' then s1[1..] else s1, 2);
          if mm.None? then Err(InvalidFormat)
          else if hh.value.0 > 23 || mm.value.0 > 59 then Err(OutOfRange)
          else Ok(mm.value.1)
  }

  function MomentOf(d: Date, c: Clock): Moment
    requires IsDate(d)
  {
    DayNumber(d) * DAY + (c.hour * 60 + c.minute) * MINUTE + c.second * SECOND + c.micros
  }

  function ParseISODatetime(s: string): Result<Moment, IsoError> {
    var (date, s1) :- ReadDate(s);
    if s1 == "" then Ok(MomentOf(date, Clock(0, 0, 0, 0)))
    else if s1[0] !in {'T', ' '} then Err(InvalidFormat)
    else
      var (clock, s2) :- ReadClock(s1[1..]);
      if clock.hour > 23 || clock.minute > 59 || clock.second > 59 then Err(OutOfRange)
      else
        var rest :- SkipOffset(s2);
        if rest != "" then Err(InvalidFormat) else Ok(MomentOf(date, clock))
  }

  // ------------------------------------------------------------------------------------------
  // The source's reader, which advances a position
  // ------------------------------------------------------------------------------------------

  class IsoReader {
    const s: string
    var pos: nat

    constructor (s: string)
      ensures this.s == s && pos == 0
    {
      this.s := s;
      pos := 0;
    }

    predicate Valid()
      reads this
    {
      pos <= |s|
    }

    function Rest(): string
      requires Valid()
      reads this
    {
      s[pos..]
    }

    method Digits(n: nat) returns (v: int, ok: bool)
      requires Valid()
      modifies this
      ensures Valid()
      ensures ok <==> TakeDigits(old(Rest()), n).Some?
      ensures if ok then TakeDigits(old(Rest()), n) == Some((v, Rest())) else pos == old(pos)
    {
      v := 0;
      if pos + n > |s| {
        return 0, false;
      }
      ghost var rest := Rest();
      for i := 0 to n
        invariant pos == old(pos)
        invariant forall j :: 0 <= j < i ==> IsDigit(rest[j])
        invariant v == DecimalValue(rest[..i])
      {
        var c := s[pos + i];
        assert c == rest[i];
        if c < '0' || c > '9' {
          return 0, false;
        }
        assert rest[..i + 1][..i] == rest[..i] && rest[..i + 1][i] == c;
        v := v * 10 + (c as int - '0' as int);
      }
      pos := pos + n;
      ok := true;
    }

    method Eat(c: char) returns (ok: bool)
      requires Valid()
      modifies this
      ensures Valid()
      ensures ok <==> StartsWith(old(Rest()), c)
      ensures Rest() == if ok then old(Rest())[1..] else old(Rest())
    {
      ok := pos < |s| && s[pos] == c;
      if ok {
        pos := pos + 1;
      }
    }

    method Date() returns (r: Result<Date, IsoError>)
      requires Valid()
      modifies this
      ensures Valid()
      ensures var spec := ReadDate(old(Rest()));
              if spec.Ok? then r == Ok(spec.value.0) && Rest() == spec.value.1 else r == Err(spec.error)
    {
      var year, ok := Digits(4);
      if !ok {
        return Err(InvalidFormat);
      }
      ok := Eat('-');
      if !ok {
        return Err(InvalidFormat);
      }
      var month;
      month, ok := Digits(2);
      if !ok {
        return Err(InvalidFormat);
      }
      ok := Eat('-');
      if !ok {
        return Err(InvalidFormat);
      }
      var day;
      day, ok := Digits(2);
      if !ok {
        return Err(InvalidFormat);
      }
      var d := Calendar.Date(year, month, day);
      return if IsDate(d) then Ok(d) else Err(OutOfRange);
    }

    method Fraction() returns (r: Result<int, IsoError>)
      requires Valid()
      modifies this
      ensures Valid()
      ensures var spec := ReadFraction(old(Rest()));
              if spec.Ok? then r == Ok(spec.value.0) && Rest() == spec.value.1 else r == Err(spec.error)
    {
      hide Micros, ReadFraction, DigitRun;
      FractionIs(Rest());
      if pos == |s| || s[pos] !in {'.', ','} {
        return Ok(0);
      }
      ghost var rest := Rest();
      pos := pos + 1;
      var start := pos;
      assert rest[1..] == s[start..];
      while pos < |s| && IsDigit(s[pos])
        invariant start <= pos <= |s|
        invariant DigitRun(s[start..]) == pos - start + DigitRun(s[pos..])
      {
        DigitRunAt(s, pos);
        pos := pos + 1;
      }
      DigitRunAt(s, pos);
      var frac := s[start..pos];
      ghost var n := DigitRun(rest[1..]);
      assert n == pos - start;
      assert frac == rest[1..][..n] && s[pos..] == rest[1 + n..];
      if frac == "" {
        return Err(InvalidFormat);
      }
      return Ok(Micros(frac));
    }

    method TimeOfClock() returns (r: Result<Clock, IsoError>)
      requires Valid()
      modifies this
      ensures Valid()
      ensures var spec := ReadClock(old(Rest()));
              if spec.Ok? then r == Ok(spec.value.0) && Rest() == spec.value.1 else r == Err(spec.error)
    {
      hide TakeDigits, ReadFraction;
      var minute, second, micros := 0, 0, 0;
      var hour, ok := Digits(2);
      if !ok {
        return Err(InvalidFormat);
      }
      var colon := Eat(':');
      if colon {
        minute, ok := Digits(2);
        if !ok {
          return Err(InvalidFormat);
        }
        colon := Eat(':');
        if colon {
          second, ok := Digits(2);
          if !ok {
            return Err(InvalidFormat);
          }
          var f := Fraction();
          if f.Err? {
            return Err(f.error);
          }
          micros := f.value;
        }
      }
      return Ok(Clock(hour, minute, second, micros));
    }

    method Offset() returns (r: Result<(), IsoError>)
      requires Valid()
      modifies this
      ensures Valid()
      ensures var spec := SkipOffset(old(Rest()));
              if spec.Ok? then r == Ok(()) && Rest() == spec.value else r == Err(spec.error)
    {
      hide TakeDigits;
      if pos == |s| {
        return Ok(());
      }
      var zulu := Eat('Z');
      if zulu {
        return Ok(());
      }
      if s[pos] !in {'+', '-'} {
        return Err(InvalidFormat);
      }
      assert s[pos..][1..] == s[pos + 1..];
      pos := pos + 1;
      var hh, ok := Digits(2);
      if !ok {
        return Err(InvalidFormat);
      }
      var mm := 0;
      if pos < |s| {
        var colon := Eat(':');
        mm, ok := Digits(2);
        if !ok {
          return Err(InvalidFormat);
        }
      }
      return if hh > 23 || mm > 59 then Err(OutOfRange) else Ok(());
    }
  }

  method ReadDatetime(s: string) returns (r: Result<Moment, IsoError>)
    ensures r == ParseISODatetime(s)
  {
    hide ReadDate, ReadClock, SkipOffset;
    var reader := new IsoReader(s);
    assert reader.Rest() == s;
    var date := reader.Date();
    if date.Err? {
      return Err(date.error);
    }
    if reader.pos == |reader.s| {
      return Ok(MomentOf(date.value, Clock(0, 0, 0, 0)));
    }
    if reader.s[reader.pos] !in {'T', ' '} {
      return Err(InvalidFormat);
    }
    assert reader.s[reader.pos..][1..] == reader.s[reader.pos + 1..];
    reader.pos := reader.pos + 1;
    var clock := reader.TimeOfClock();
    if clock.Err? {
      return Err(clock.error);
    }
    if clock.value.hour > 23 || clock.value.minute > 59 || clock.value.second > 59 {
      return Err(OutOfRange);
    }
    var offset := reader.Offset();
    if offset.Err? {
      return Err(offset.error);
    }
    if reader.pos < |reader.s| {
      return Err(InvalidFormat);
    }
    return Ok(MomentOf(date.value, clock.value));
  }

  // ------------------------------------------------------------------------------------------
  // Reading undoes writing
  // ------------------------------------------------------------------------------------------

  lemma TakePad(n: nat, width: nat, rest: string)
    requires n < Pow10(width)
    ensures TakeDigits(Pad(n, width) + rest, width) == Some((n, rest))
  {
    PadValue(n, width);
    var s := Pad(n, width) + rest;
    assert s[..width] == Pad(n, width) && s[width..] == rest;
    assert forall i :: 0 <= i < width ==> IsDigit(s[i]);
  }

  lemma TakeFieldPad(n: nat, width: nat, sep: char, rest: string)
    requires n < Pow10(width)
    ensures TakeField(Pad(n, width) + [sep] + rest, width, sep) == Ok((n, rest))
  {
    hide TakeDigits, Pad;
    TakePad(n, width, [sep] + rest);
    assert Pad(n, width) + [sep] + rest == Pad(n, width) + ([sep] + rest);
    assert ([sep] + rest)[1..] == rest;
  }

  lemma ReadFormattedDate(d: Date, rest: string)
    requires IsDate(d) && d.year <= 9999
    ensures ReadDate(FormatDate(d) + rest) == Ok((d, rest))
  {
    hide TakeField, TakeDigits, Pad, Pow10;
    Powers();
    var s2 := Pad(d.day, 2) + rest;
    var s1 := Pad(d.month, 2) + "-" + s2;
    assert FormatDate(d) + rest == Pad(d.year, 4) + "-" + s1;
    TakeFieldPad(d.year, 4, '-', s1);
    TakeFieldPad(d.month, 2, '-', s2);
    TakePad(d.day, 2, rest);
  }

  predicate ClockEnd(rest: string) {
    rest == "" || rest[0] != ':'
  }

  lemma ReadFormattedClock(t: Moment, rest: string)
    requires ClockEnd(rest)
    ensures var r := ReadClock(FormatClock(t) + rest);
            var f := ReadFraction(rest);
            if f.Ok? then
              r == Ok((Clock(Part(t, 60 * MINUTE, 24), Part(t, MINUTE, 60), Part(t, SECOND, 60), f.value.0), f.value.1))
            else r == Err(f.error)
  {
    hide TakeDigits, Pad, Pow10, Part, ReadFraction;
    Powers();
    var h, m, s := Part(t, 60 * MINUTE, 24), Part(t, MINUTE, 60), Part(t, SECOND, 60);
    var s2 := Pad(s, 2) + rest;
    var s1 := Pad(m, 2) + (":" + s2);
    assert FormatClock(t) + rest == Pad(h, 2) + (":" + s1);
    TakePad(h, 2, ":" + s1);
    TakePad(m, 2, ":" + s2);
    TakePad(s, 2, rest);
    assert (":" + s1)[1..] == s1 && (":" + s2)[1..] == s2;
  }

  lemma DigitRunAll(s: string)
    requires forall i :: 0 <= i < |s| ==> IsDigit(s[i])
    ensures DigitRun(s) == |s|
  {}

  lemma ReadFormattedFraction(us: nat)
    requires us < Pow10(6)
    ensures ReadFraction("." + Pad(us, 6)) == Ok((us, ""))
  {
    hide Pad, Pow10;
    PadValue(us, 6);
    var s := "." + Pad(us, 6);
    assert s[1..] == Pad(us, 6);
    DigitRunAll(Pad(us, 6));
    assert Pad(us, 6)[..6] == Pad(us, 6) && s[7..] == "";
  }

  lemma PartsOf(t: Moment)
    requires t >= 0
    ensures t == DayOf(t) * DAY + (Part(t, 60 * MINUTE, 24) * 60 + Part(t, MINUTE, 60)) * MINUTE
                 + Part(t, SECOND, 60) * SECOND + t % SECOND
  {
    var secs, mins, hours := t / SECOND, t / MINUTE, t / (60 * MINUTE);
    assert mins == secs / 60 && hours == mins / 60 && DayOf(t) == hours / 24;
  }

  /** A saved stamp reads back as its whole second, and a full rendering as the moment itself. */
  lemma StampRoundTrip(t: Moment)
    requires InCalendar(t)
    ensures ParseISODatetime(FormatISOSeconds(t)) == Ok(t / SECOND * SECOND)
    ensures ParseISODatetime(FormatISO(t)) == Ok(t)
  {
    hide ReadDate, ReadClock, FormatDate, FormatClock, ReadFraction, Pad, Pow10, Part, DayNumber, DateOf;
    Powers();
    NoFraction();
    ParseParts(t, "", 0);
    if t % SECOND != 0 {
      ReadFormattedFraction(t % SECOND);
      ParseParts(t, "." + Pad(t % SECOND, 6), t % SECOND);
      assert FormatISOSeconds(t) + "" == FormatISOSeconds(t);
    } else {
      assert FormatISO(t) == FormatISOSeconds(t) + "";
    }
    assert FormatISOSeconds(t) + "" == FormatISOSeconds(t);
  }

  lemma NoFraction()
    ensures ReadFraction("") == Ok((0, ""))
  {}

  lemma ParseParts(t: Moment, fraction: string, us: nat)
    requires InCalendar(t) && ClockEnd(fraction) && ReadFraction(fraction) == Ok((us, ""))
    ensures ParseISODatetime(FormatISOSeconds(t) + fraction) == Ok(t / SECOND * SECOND + us)
  {
    hide ReadFraction, FormatISOSeconds;
    AnySpelling(t, 'T', fraction, "", us);
    SpelledOut(t, fraction);
  }

  lemma SpelledOut(t: Moment, rest: string)
    requires InCalendar(t)
    ensures FormatISOSeconds(t) + rest == FormatDate(DateOf(DayOf(t))) + ['T'] + FormatClock(t) + rest
  {
    hide FormatDate, FormatClock;
  }

  /** A date and a clock reading with either separator, a fraction and an offset. */
  lemma AnySpelling(t: Moment, sep: char, rest: string, offset: string, us: nat)
    requires InCalendar(t) && sep in {'T', ' '} && ClockEnd(rest)
    requires ReadFraction(rest) == Ok((us, offset)) && SkipOffset(offset) == Ok("")
    ensures ParseISODatetime(FormatDate(DateOf(DayOf(t))) + [sep] + FormatClock(t) + rest) == Ok(t / SECOND * SECOND + us)
  {
    hide ReadDate, ReadClock, FormatDate, FormatClock, ReadFraction, SkipOffset, Part, DayNumber, DateOf;
    var date := DateOf(DayOf(t));
    var tail := [sep] + FormatClock(t) + rest;
    assert FormatDate(date) + [sep] + FormatClock(t) + rest == FormatDate(date) + tail;
    ReadFormattedDate(date, tail);
    assert tail[1..] == FormatClock(t) + rest;
    ReadFormattedClock(t, rest);
    DayNumberOf(DayOf(t));
    PartsOf(t);
  }

  /** An offset: Z, or a sign, hours, and minutes with or without a colon, or none. */
  ghost predicate IsOffset(s: string) {
    || s == "Z"
    || exists sign: char, h: nat, m: nat, colon: string, minutes: bool ::
         OffsetOf(s, sign, h, m, colon, minutes)
  }

  predicate OffsetOf(s: string, sign: char, h: nat, m: nat, colon: string, minutes: bool) {
    && sign in {'+', '-'} && h < 24 && m < 60 && colon in {"", ":"} && Pow10(2) == 100
    && s == [sign] + Pad(h, 2) + (if minutes then colon + Pad(m, 2) else "")
  }

  lemma OffsetSkipped(s: string)
    requires IsOffset(s)
    ensures SkipOffset(s) == Ok("") && ReadFraction(s) == Ok((0, s)) && ClockEnd(s)
  {
    hide TakeDigits, Pad, Pow10;
    if s != "Z" {
      var sign, h, m, colon, minutes :| OffsetOf(s, sign, h, m, colon, minutes);
      var after := if minutes then colon + Pad(m, 2) else "";
      assert s[1..] == Pad(h, 2) + after;
      TakePad(h, 2, after);
      if minutes {
        TakePad(m, 2, "");
        assert Pad(m, 2) + "" == Pad(m, 2);
        FirstIsDigit(m);
        assert colon == ":" ==> after[1..] == Pad(m, 2);
        assert colon == "" ==> after == Pad(m, 2);
      }
    } else {
      assert s[1..] == "";
    }
  }

  lemma FirstIsDigit(n: nat)
    requires n < Pow10(2)
    ensures IsDigit(Pad(n, 2)[0]) && Pad(n, 2)[0] != ':'
  {}

  /** A stamp reads as the same clock reading whatever offset it ends with: wall-clock time is kept, and the
      zone dropped. */
  lemma OffsetIsDropped(t: Moment, sep: char, offset: string)
    requires InCalendar(t) && sep in {'T', ' '} && IsOffset(offset)
    ensures ParseISODatetime(FormatDate(DateOf(DayOf(t))) + [sep] + FormatClock(t) + offset) == Ok(t / SECOND * SECOND)
  {
    hide FormatDate, FormatClock, DateOf, ParseISODatetime, IsOffset, SkipOffset;
    OffsetSkipped(offset);
    AnySpelling(t, sep, offset, offset, 0);
  }
}
