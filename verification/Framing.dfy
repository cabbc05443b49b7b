/** The message framing of the socket protocol: an eight byte length, then the payload, over a
    stream whose reads may return fewer bytes than asked for. */
module Framing {
  import opened Lists

  newtype byte = x: int | 0 <= x < 256

  const PACKET_SIZE := 1280
  const HEADER_SIZE := 8

  // -- big-endian numbers -----------------------------------------------------------------------------------

  function Power256(k: nat): nat {
    if k == 0 then 1 else 256 * Power256(k - 1)
  }

  /** The last `k` base 256 digits of a number, most significant first. */
  function Encode(n: nat, k: nat): (bytes: seq<byte>)
    ensures |bytes| == k
  {
    if k == 0 then [] else Encode(n / 256, k - 1) + [(n % 256) as byte]
  }

  function Decode(bytes: seq<byte>): (n: nat)
  {
    if bytes == [] then 0 else 256 * Decode(bytes[..|bytes| - 1]) + bytes[|bytes| - 1] as nat
  }

  lemma {:induction false} DecodeEncode(n: nat, k: nat)
    requires n < Power256(k)
    ensures Decode(Encode(n, k)) == n
  {
    if k > 0 {
      DecodeEncode(n / 256, k - 1);
      var bytes := Encode(n, k);
      assert bytes[..|bytes| - 1] == Encode(n / 256, k - 1);
    }
  }

  lemma {:induction false} EncodeDecode(bytes: seq<byte>)
    ensures Decode(bytes) < Power256(|bytes|)
    ensures Encode(Decode(bytes), |bytes|) == bytes
  {
    if bytes != [] {
      EncodeDecode(bytes[..|bytes| - 1]);
      assert bytes == bytes[..|bytes| - 1] + [bytes[|bytes| - 1]];
    }
  }

  /** The byte order: each byte holds the digit of its place, the highest place first. */
  lemma {:induction false} EncodeDigits(n: nat, k: nat, i: nat)
    requires i < k
    ensures Power256(k - 1 - i) > 0 && Encode(n, k)[i] as nat == (n / Power256(k - 1 - i)) % 256
    decreases k
  {
    if i < k - 1 {
      EncodeDigits(n / 256, k - 1, i);
      DivideTwice(n, Power256(k - 2 - i));
    }
  }

  lemma DivideTwice(n: nat, b: nat)
    requires b > 0
    ensures n / 256 / b == n / (256 * b)
  {
    var p := n / 256 / b;
    var t := n / 256 - p * b;
    DivisionBounds(n / 256, b);
    TimesTimes(p, b);
    QuotientIs(n, 256 * b, p, 256 * t + n % 256);
  }

  lemma DivisionBounds(n: nat, b: nat)
    requires b > 0
    ensures 0 <= n - n / b * b < b
  {
  }

  lemma TimesTimes(p: nat, b: nat)
    ensures p * (256 * b) == 256 * (p * b)
  {
  }

  lemma QuotientIs(n: nat, d: nat, q: nat, r: nat)
    requires d > 0 && n == q * d + r && r < d
    ensures n / d == q
  {
    DivisionBounds(n, d);
    NextMultiple(n / d, q, d);
    NextMultiple(q, n / d, d);
  }

  lemma NextMultiple(a: nat, b: nat, d: nat)
    ensures a < b ==> a * d + d <= b * d
  {
    if a < b {
      Distribute(a, b - a - 1, d);
    }
  }

  lemma Distribute(a: nat, m: nat, d: nat)
    ensures (a + 1 + m) * d == a * d + d + m * d
  {
  }

  // -- frames -----------------------------------------------------------------------------------------------

  /** Payloads are shorter than 2^64 bytes on every platform. */
  ghost predicate Sendable(payload: seq<byte>) {
    |payload| < Power256(HEADER_SIZE)
  }

  function Frame(payload: seq<byte>): seq<byte> {
    Encode(|payload|, HEADER_SIZE) + payload
  }

  /** A frame, byte by byte: eight for the length, most significant first, then the payload. */
  lemma FrameBytes(payload: seq<byte>, i: nat)
    requires i < |Frame(payload)|
    ensures |Frame(payload)| == 8 + |payload|
    ensures i < 8 ==> Power256(7 - i) > 0 && Frame(payload)[i] as nat == (|payload| / Power256(7 - i)) % 256
    ensures i >= 8 ==> Frame(payload)[i] == payload[i - 8]
  {
    hide Encode, Power256;
    if i < 8 { EncodeDigits(|payload|, HEADER_SIZE, i); }
  }

  function Frames(payloads: seq<seq<byte>>): seq<byte> {
    if payloads == [] then [] else Frame(payloads[0]) + Frames(payloads[1..])
  }

  datatype Received = Message(payload: seq<byte>) | TooBig(size: nat) | HeaderLost | PayloadLost

  /** What one receive makes of all bytes that are still to come, and what it leaves of them. */
  function ParseFrame(bytes: seq<byte>, maxSize: Option<nat>): (Received, seq<byte>) {
    if |bytes| < HEADER_SIZE then (HeaderLost, [])
    else
      var size := Decode(bytes[..HEADER_SIZE]);
      if maxSize.Some? && size > maxSize.value then (TooBig(size), bytes[HEADER_SIZE..])
      else if |bytes| < HEADER_SIZE + size then (PayloadLost, [])
      else (Message(bytes[HEADER_SIZE..HEADER_SIZE + size]), bytes[HEADER_SIZE + size..])
  }

  // -- the stream -------------------------------------------------------------------------------------------

  /** One end of a connection. `incoming` is everything the peer will ever have sent. */
  class Stream {
    var incoming: seq<byte>
    var sent: seq<byte>

    /** Any non-empty piece that fits the buffer; nothing only at the end. */
    method Read(capacity: nat) returns (chunk: seq<byte>)
      requires capacity > 0
      modifies this`incoming
      ensures old(incoming) == chunk + incoming
      ensures |chunk| <= capacity && (chunk == [] <==> old(incoming) == [])
    {
      if incoming == [] {
        return [];
      }
      var n: nat :| 1 <= n <= capacity && n <= |incoming|;
      chunk := incoming[..n];
      incoming := incoming[n..];
    }

    method WriteAll(bytes: seq<byte>)
      modifies this`sent
      ensures sent == old(sent) + bytes
    {
      sent := sent + bytes;
    }

    /** Reads until the buffer is full, or fails having consumed what there was. */
    method ReadExact(n: nat) returns (bytes: Option<seq<byte>>)
      modifies this`incoming
      ensures |old(incoming)| >= n ==> bytes == Some(old(incoming)[..n]) && incoming == old(incoming)[n..]
      ensures |old(incoming)| < n ==> bytes == None && incoming == []
    {
      ghost var before := incoming;
      var buffer: seq<byte> := [];
      while |buffer| < n
        invariant |buffer| <= n && before == buffer + incoming
        decreases n - |buffer|
      {
        var chunk := Read(n - |buffer|);
        if chunk == [] {
          return None;
        }
        buffer := buffer + chunk;
      }
      assert buffer == before[..n];
      return Some(buffer);
    }
  }

  /** Header first, then the payload in packets. */
  method SendBytes(stream: Stream, payload: seq<byte>)
    modifies stream`sent
    ensures stream.sent == old(stream.sent) + Frame(payload)
  {
    stream.WriteAll(Encode(|payload|, HEADER_SIZE));
    var done := 0;
    while done < |payload|
      invariant done <= |payload|
      invariant stream.sent == old(stream.sent) + Encode(|payload|, HEADER_SIZE) + payload[..done]
    {
      var next := if |payload| - done < PACKET_SIZE then |payload| else done + PACKET_SIZE;
      assert payload[..next] == payload[..done] + payload[done..next];
      stream.WriteAll(payload[done..next]);
      done := next;
    }
    assert payload[..|payload|] == payload;
  }

  /** Whatever pieces the reads return, a receive is the parse of the bytes to come. */
  method ReceiveBytes(stream: Stream, maxSize: Option<nat>) returns (r: Received)
    modifies stream`incoming
    ensures (r, stream.incoming) == ParseFrame(old(stream.incoming), maxSize)
  {
    ghost var before := stream.incoming;
    var header := stream.ReadExact(HEADER_SIZE);
    if header == None {
      return HeaderLost;
    }
    var size := Decode(header.value);
    if maxSize.Some? {
      if size > maxSize.value {
        return TooBig(size);
      }
    }
    ghost var body := before[HEADER_SIZE..];
    var payload: seq<byte> := [];
    while |payload| < size
      invariant |payload| <= size && body == payload + stream.incoming
      decreases size - |payload|
    {
      var remaining := size - |payload|;
      var chunk := stream.Read(if remaining < PACKET_SIZE then remaining else PACKET_SIZE);
      if chunk == [] {
        return PayloadLost;
      }
      payload := payload + chunk;
    }
    assert payload == body[..size] == before[HEADER_SIZE..HEADER_SIZE + size];
    assert stream.incoming == body[size..] == before[HEADER_SIZE + size..];
    return Message(payload);
  }

  // -- the round trip ---------------------------------------------------------------------------------------

  /** A receive takes exactly one frame off the stream and does not touch what follows. */
  lemma ParseOneFrame(payload: seq<byte>, rest: seq<byte>, maxSize: Option<nat>)
    requires Sendable(payload) && (maxSize.Some? ==> |payload| <= maxSize.value)
    ensures ParseFrame(Frame(payload) + rest, maxSize) == (Message(payload), rest)
  {
    var bytes := Frame(payload) + rest;
    DecodeEncode(|payload|, HEADER_SIZE);
    assert bytes[..HEADER_SIZE] == Encode(|payload|, HEADER_SIZE);
    assert bytes[HEADER_SIZE..HEADER_SIZE + |payload|] == payload;
    assert bytes[HEADER_SIZE + |payload|..] == rest;
  }

  /** A frame that is too big is refused by its header alone; the payload stays unread. */
  lemma ParseTooBig(payload: seq<byte>, rest: seq<byte>, maxSize: nat)
    requires Sendable(payload) && |payload| > maxSize
    ensures ParseFrame(Frame(payload) + rest, Some(maxSize)) == (TooBig(|payload|), payload + rest)
  {
    var bytes := Frame(payload) + rest;
    DecodeEncode(|payload|, HEADER_SIZE);
    assert bytes[..HEADER_SIZE] == Encode(|payload|, HEADER_SIZE);
    assert bytes[HEADER_SIZE..] == payload + rest;
  }

  /** Only a frame is ever parsed as a message. */
  lemma ParsedMessageIsFrame(bytes: seq<byte>, maxSize: Option<nat>)
    requires ParseFrame(bytes, maxSize).0.Message?
    ensures var (r, rest) := ParseFrame(bytes, maxSize);
      bytes == Frame(r.payload) + rest && (maxSize.Some? ==> |r.payload| <= maxSize.value)
  {
    EncodeDecode(bytes[..HEADER_SIZE]);
    var (r, rest) := ParseFrame(bytes, maxSize);
    var end := HEADER_SIZE + |r.payload|;
    assert bytes == bytes[..HEADER_SIZE] + bytes[HEADER_SIZE..end] + bytes[end..];
  }

  lemma {:induction false} FramesAppend(payloads: seq<seq<byte>>, payload: seq<byte>)
    ensures Frames(payloads + [payload]) == Frames(payloads) + Frame(payload)
  {
    if payloads == [] {
      assert payloads + [payload] == [payload];
      assert Frames([payload]) == Frame(payload) + Frames([payload][1..]);
    } else {
      assert (payloads + [payload])[1..] == payloads[1..] + [payload];
      FramesAppend(payloads[1..], payload);
    }
  }

  method SendAll(stream: Stream, payloads: seq<seq<byte>>)
    modifies stream`sent
    ensures stream.sent == old(stream.sent) + Frames(payloads)
  {
    for i := 0 to |payloads|
      invariant stream.sent == old(stream.sent) + Frames(payloads[..i])
    {
      SendBytes(stream, payloads[i]);
      FramesAppend(payloads[..i], payloads[i]);
      assert payloads[..i + 1] == payloads[..i] + [payloads[i]];
    }
    assert payloads[..|payloads|] == payloads;
  }

  lemma NextFrame(payloads: seq<seq<byte>>, i: nat, rest: seq<byte>)
    requires i < |payloads|
    ensures Frames(payloads[i..]) + rest == Frame(payloads[i]) + (Frames(payloads[i + 1..]) + rest)
  {
    hide Frame;
    assert payloads[i..][0] == payloads[i] && payloads[i..][1..] == payloads[i + 1..];
  }

  /** Repeated receives return exactly the payloads that were sent, one frame at a time, under
      any splitting of the bytes into reads, and leave the stream right behind the last frame. */
  method ReceiveAll(stream: Stream, ghost payloads: seq<seq<byte>>, ghost rest: seq<byte>, count: nat)
    returns (received: seq<seq<byte>>)
    requires count == |payloads| && forall i :: 0 <= i < |payloads| ==> Sendable(payloads[i])
    requires stream.incoming == Frames(payloads) + rest
    modifies stream`incoming
    ensures received == payloads && stream.incoming == rest
  {
    hide Frames, Frame, ParseFrame;
    received := [];
    for i := 0 to count
      invariant received == payloads[..i]
      invariant stream.incoming == Frames(payloads[i..]) + rest
    {
      NextFrame(payloads, i, rest);
      ParseOneFrame(payloads[i], Frames(payloads[i + 1..]) + rest, None);
      var r := ReceiveBytes(stream, None);
      received := received + [r.payload];
    }
    assert payloads[|payloads|..] == [];
    NoFramesLeft(rest);
  }

  lemma NoFramesLeft(rest: seq<byte>)
    ensures Frames([]) + rest == rest
  {
  }
}
