/**
  Length-prefixed frames over a byte stream (go/protocol/frame.go).
  */
module Frame {
  import opened Text
  import opened Wrappers
  import Kdl
  import Utf8

  const MAX_FRAME_BYTES: nat := 64 * 1024

  datatype FrameError =
    | ClosedBeforeFrame
    | PrefixTooLong
    | NotLengthPrefixed
    | FrameTooLarge
    | ClosedMidFrame
    | FrameNotUtf8

  function EncodeFrame(body: string): string {
    Digits(|body|) + "\n" + body
  }

  function TrimZeros(s: string): (r: string)
    ensures |r| <= |s| && r == s[|s| - |r|..]
    ensures r != "" ==> r[0] != '0'
  {
    if s != "" && s[0] == '0' then TrimZeros(s[1..]) else s
  }

  /** The length an all-digits prefix announces; the digit count is tested before the value, so an
      absurdly long run cannot overflow. */
  function FrameLength(head: string): Result<nat, FrameError>
    requires AllDigits(head)
  {
    var trimmed := TrimZeros(head);
    if |trimmed| > 6 then Err(FrameTooLarge)
    else if trimmed == "" then Ok(0)
    else
      assert forall i :: 0 <= i < |trimmed| ==> trimmed[i] == head[|head| - |trimmed| + i];
      var n := DecimalValue(trimmed);
      if n > MAX_FRAME_BYTES then Err(FrameTooLarge) else Ok(n)
  }

  lemma {:induction false} LeadingZero(s: string)
    requires s != "" && s[0] == '0' && forall i :: 0 <= i < |s| ==> IsDigit(s[i])
    ensures DecimalValue(s) == DecimalValue(s[1..])
    decreases |s|
  {
    if |s| > 1 {
      LeadingZero(s[..|s| - 1]);
      assert s[1..][..|s| - 2] == s[..|s| - 1][1..];
    } else {
      assert s[..0] == "";
    }
  }

  lemma {:induction false} TrimZerosValue(s: string)
    requires forall i :: 0 <= i < |s| ==> IsDigit(s[i])
    ensures forall i :: 0 <= i < |TrimZeros(s)| ==> IsDigit(TrimZeros(s)[i])
    ensures DecimalValue(TrimZeros(s)) == DecimalValue(s)
    decreases |s|
  {
    if s != "" && s[0] == '0' {
      LeadingZero(s);
      TrimZerosValue(s[1..]);
    }
  }

  lemma {:induction false} DecimalAtLeast(s: string)
    requires AllDigits(s) && s[0] != '0'
    ensures DecimalValue(s) >= Pow10(|s| - 1)
    decreases |s|
  {
    if |s| > 1 {
      DecimalAtLeast(s[..|s| - 1]);
    } else {
      assert s[..0] == "";
    }
  }

  lemma Pow10Monotone(a: nat, b: nat)
    requires a <= b
    ensures Pow10(a) <= Pow10(b)
    decreases b - a
  {
    if a < b {
      Pow10Monotone(a + 1, b);
    }
  }

  /** The test on trimmed digits is the comparison of the unbounded value with the cap. */
  lemma FrameLengthIsValue(head: string)
    requires AllDigits(head)
    ensures FrameLength(head)
         == if DecimalValue(head) <= MAX_FRAME_BYTES then Ok(DecimalValue(head)) else Err(FrameTooLarge)
  {
    var trimmed := TrimZeros(head);
    TrimZerosValue(head);
    if |trimmed| > 6 {
      DecimalAtLeast(trimmed);
      Pow10Monotone(6, |trimmed| - 1);
      assert Pow10(6) == 1000000 by {
        assert Pow10(3) == 1000;
      }
    }
  }

  // ------------------------------------------------------------------------------------------
  // Reading
  // ------------------------------------------------------------------------------------------

  /** The length prefix off the front of the stream: everything before the first newline. */
  function TakeHead(data: string): (Result<string, FrameError>, string) {
    var newline := Kdl.IndexOf(data, '\n');
    if newline > MAX_FRAME_BYTES then (Err(PrefixTooLong), data[MAX_FRAME_BYTES + 1..])
    else if newline == |data| then (Err(ClosedBeforeFrame), "")
    else (Ok(data[..newline]), data[newline + 1..])
  }

  lemma HeadFound(data: string, k: nat)
    requires k <= MAX_FRAME_BYTES && k < |data| && data[k] == '\n' && '\n' !in data[..k]
    ensures TakeHead(data) == (Ok(data[..k]), data[k + 1..])
  {
    FirstIndex(data, k);
  }

  lemma HeadNotFound(data: string, k: nat)
    requires k <= |data| && '\n' !in data[..k]
    requires k == MAX_FRAME_BYTES + 1 || (k == |data| && k <= MAX_FRAME_BYTES)
    ensures TakeHead(data) == if k > MAX_FRAME_BYTES then (Err(PrefixTooLong), data[k..]) else (Err(ClosedBeforeFrame), "")
  {
    var j := Kdl.IndexOf(data, '\n');
    assert j >= k;
  }

  /** What the payload after a length prefix is, and what is left after it. */
  function TakePayload(head: string, payload: string): (Result<string, FrameError>, string) {
    if !AllDigits(head) then (Err(NotLengthPrefixed), payload)
    else match FrameLength(head)
      case Err(e) => (Err(e), payload)
      case Ok(length) =>
        if |payload| < length then (Err(ClosedMidFrame), "")
        else if !Utf8.Valid(payload[..length]) then (Err(FrameNotUtf8), payload[length..])
        else (Ok(payload[..length]), payload[length..])
  }

  /** One frame off the front of everything the peer will ever send, and what is left. */
  function TakeFrame(data: string): (Result<string, FrameError>, string) {
    match TakeHead(data)
    case (Err(e), rest) => (Err(e), rest)
    case (Ok(head), payload) => TakePayload(head, payload)
  }

  /** A connection's incoming bytes, in order, up to its end. */
  class ByteStream {
    var data: string

    constructor (data: string)
      ensures this.data == data
    {
      this.data := data;
    }

    method ReadByte() returns (c: Option<char>)
      modifies this
      ensures old(data) == "" ==> c.None? && data == ""
      ensures old(data) != "" ==> c == Some(old(data)[0]) && data == old(data)[1..]
    {
      if data == "" {
        return None;
      }
      c := Some(data[0]);
      data := data[1..];
    }

    /** The loop that collects the length prefix. */
    method ReadHead() returns (r: Result<string, FrameError>)
      modifies this
      ensures (r, data) == TakeHead(old(data))
    {
      hide TakeHead;
      var head := "";
      ghost var all := data;
      while true
        invariant all == head + data && '\n' !in head && |head| <= MAX_FRAME_BYTES
        decreases |data|
      {
        var c := ReadByte();
        if c.None? {
          assert all[..|head|] == head;
          HeadNotFound(all, |head|);
          return Err(ClosedBeforeFrame);
        }
        if c.value == '\n' {
          assert all[|head|] == '\n' && all[..|head|] == head;
          HeadFound(all, |head|);
          assert all[|head| + 1..] == data;
          return Ok(head);
        }
        head := head + [c.value];
        if |head| > MAX_FRAME_BYTES {
          assert all[..|head|] == head;
          HeadNotFound(all, |head|);
          assert all[|head|..] == data;
          return Err(PrefixTooLong);
        }
      }
    }

    method ReadFrame() returns (r: Result<string, FrameError>)
      modifies this
      ensures (r, data) == TakeFrame(old(data))
    {
      var prefix := ReadHead();
      if prefix.Err? {
        return Err(prefix.error);
      }
      var head := prefix.value;
      if !AllDigits(head) {
        return Err(NotLengthPrefixed);
      }
      var length := FrameLength(head);
      if length.Err? {
        return Err(length.error);
      }
      if |data| < length.value {
        data := "";
        return Err(ClosedMidFrame);
      }
      var payload := data[..length.value];
      data := data[length.value..];
      if !Utf8.Valid(payload) {
        return Err(FrameNotUtf8);
      }
      return Ok(payload);
    }
  }

  // ------------------------------------------------------------------------------------------
  // Classifying a buffer
  // ------------------------------------------------------------------------------------------

  datatype Inspection =
    | FrameComplete(body: string, rest: string)
    | FrameIncomplete
    | NotFrame
    | BadFrame(error: FrameError)

  function InspectHead(buf: string): Inspection {
    var newline := Kdl.IndexOf(buf, '\n');
    if newline == |buf| then
      if AllDigits(buf) then FrameIncomplete else NotFrame
    else if !AllDigits(buf[..newline]) then NotFrame
    else match FrameLength(buf[..newline])
      case Err(e) => BadFrame(e)
      case Ok(length) =>
        var payload := buf[newline + 1..];
        if |payload| < length then FrameIncomplete
        else if !Utf8.Valid(payload[..length]) then BadFrame(FrameNotUtf8)
        else FrameComplete(payload[..length], payload[length..])
  }

  method InspectFrame(buf: string) returns (r: Inspection)
    ensures r == InspectHead(buf)
  {
    var newline: int := -1;
    for i := 0 to |buf|
      invariant newline == -1 && '\n' !in buf[..i]
    {
      if buf[i] == '\n' {
        newline := i;
        break;
      }
    }
    if newline == -1 {
      assert buf[..|buf|] == buf;
      return if AllDigits(buf) then FrameIncomplete else NotFrame;
    }
    assert Kdl.IndexOf(buf, '\n') == newline by {
      FirstIndex(buf, newline);
    }
    var head := buf[..newline];
    if !AllDigits(head) {
      return NotFrame;
    }
    var length := FrameLength(head);
    if length.Err? {
      return BadFrame(length.error);
    }
    var payload := buf[newline + 1..];
    if |payload| < length.value {
      return FrameIncomplete;
    }
    if !Utf8.Valid(payload[..length.value]) {
      return BadFrame(FrameNotUtf8);
    }
    return FrameComplete(payload[..length.value], payload[length.value..]);
  }

  lemma FirstIndex(s: string, k: nat)
    requires k < |s| && s[k] == '\n' && '\n' !in s[..k]
    ensures Kdl.IndexOf(s, '\n') == k
  {
    assert s[k] !in s[..k];
  }

  // ------------------------------------------------------------------------------------------
  // Main results
  // ------------------------------------------------------------------------------------------

  lemma EncodedHead(body: string, rest: string)
    ensures var s := EncodeFrame(body) + rest;
            && Kdl.IndexOf(s, '\n') == |Digits(|body|)|
            && s[..|Digits(|body|)|] == Digits(|body|)
            && s[|Digits(|body|)| + 1..] == body + rest
  {
    var s := EncodeFrame(body) + rest;
    var d := Digits(|body|);
    assert s[..|d|] == d && s[|d|] == '\n';
    assert forall i :: 0 <= i < |d| ==> IsDigit(d[i]);
    FirstIndex(s, |d|);
    assert s[|d| + 1..] == body + rest;
  }

  lemma ShortNumeral(n: nat)
    requires n <= MAX_FRAME_BYTES
    ensures |Digits(n)| <= 5
  {
    DigitsLength(n, 4);
    assert Pow10(5) == 100000 by {
      assert Pow10(2) == 100;
    }
  }

  /** Reading back one written frame: its body and nothing after it, or, past the cap, a refusal. */
  lemma TakeEncoded(body: string, rest: string)
    requires Utf8.Valid(body) && |body| <= MAX_FRAME_BYTES
    ensures TakeFrame(EncodeFrame(body) + rest) == (Ok(body), rest)
  {
    EncodedHead(body, rest);
    ShortNumeral(|body|);
    DigitsValue(|body|);
    FrameLengthIsValue(Digits(|body|));
    assert (body + rest)[..|body|] == body && (body + rest)[|body|..] == rest;
  }

  lemma TakeOversized(body: string, rest: string)
    requires |body| > MAX_FRAME_BYTES
    ensures TakeFrame(EncodeFrame(body) + rest).0
         == Err(if |Digits(|body|)| <= MAX_FRAME_BYTES then FrameTooLarge else PrefixTooLong)
  {
    EncodedHead(body, rest);
    DigitsValue(|body|);
    FrameLengthIsValue(Digits(|body|));
  }

  function EncodeFrames(bodies: seq<string>): string {
    if bodies == [] then "" else EncodeFrame(bodies[0]) + EncodeFrames(bodies[1..])
  }

  /** Up to n frames in a row, stopping at the first failure. */
  function TakeFrames(data: string, n: nat): (seq<string>, string) {
    if n == 0 then ([], data)
    else match TakeFrame(data)
      case (Err(_), rest) => ([], rest)
      case (Ok(body), rest) =>
        var (more, last) := TakeFrames(rest, n - 1);
        ([body] + more, last)
  }

  /** Frames keep their boundaries: any run of frames is read back one by one. */
  lemma {:induction false} TakeAllEncoded(bodies: seq<string>, rest: string)
    requires forall b :: b in bodies ==> Utf8.Valid(b) && |b| <= MAX_FRAME_BYTES
    ensures TakeFrames(EncodeFrames(bodies) + rest, |bodies|) == (bodies, rest)
  {
    if bodies == [] {
      assert EncodeFrames(bodies) + rest == rest;
    } else {
      var tail := EncodeFrames(bodies[1..]) + rest;
      TakeEncoded(bodies[0], tail);
      TakeAllEncoded(bodies[1..], rest);
      TakeOneMore(EncodeFrame(bodies[0]) + tail, bodies, tail, rest);
      assert EncodeFrames(bodies) + rest == EncodeFrame(bodies[0]) + tail;
    }
  }

  lemma TakeOneMore(data: string, bodies: seq<string>, tail: string, rest: string)
    requires bodies != []
    requires TakeFrame(data) == (Ok(bodies[0]), tail)
    requires TakeFrames(tail, |bodies| - 1) == (bodies[1..], rest)
    ensures TakeFrames(data, |bodies|) == (bodies, rest)
  {
    assert [bodies[0]] + bodies[1..] == bodies;
  }

  /** A frame still arriving is never mistaken for anything else. */
  lemma PrefixIncomplete(body: string, k: nat)
    requires |body| <= MAX_FRAME_BYTES
    requires 0 < k < |EncodeFrame(body)|
    ensures InspectHead(EncodeFrame(body)[..k]) == FrameIncomplete
  {
    var d, p := Digits(|body|), EncodeFrame(body)[..k];
    if k <= |d| {
      assert p == d[..k];
      assert forall i :: 0 <= i < k ==> IsDigit(d[i]);
      assert AllDigits(p);
      assert Kdl.IndexOf(p, '\n') == |p|;
    } else {
      assert p[|d|] == '\n' && p[..|d|] == d;
      FirstIndex(p, |d|);
      DigitsValue(|body|);
      FrameLengthIsValue(d);
    }
  }

  /** The two readers agree: a buffer is complete exactly when the stream reader, given the same
      bytes, returns that body and leaves the same rest.  They differ only on a prefix of more than
      MAX_FRAME_BYTES digits, which only the stream reader refuses. */
  lemma ReadersAgree(buf: string, body: string, rest: string)
    requires Kdl.IndexOf(buf, '\n') <= MAX_FRAME_BYTES
    ensures InspectHead(buf) == FrameComplete(body, rest) <==> TakeFrame(buf) == (Ok(body), rest)
  {
    hide Utf8.Valid, AllDigits, FrameLength;
    var newline := Kdl.IndexOf(buf, '\n');
    if newline < |buf| {
      assert TakeHead(buf) == (Ok(buf[..newline]), buf[newline + 1..]);
      assert TakeFrame(buf) == TakePayload(buf[..newline], buf[newline + 1..]);
    } else {
      assert TakeHead(buf).0.Err?;
    }
  }
}
