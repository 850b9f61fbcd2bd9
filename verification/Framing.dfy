/** Length-prefixed frames over a byte device. */
module Framing {
  import opened Prelude
  import opened Json

  const MAX_PAYLOAD := 16 * 1024 * 1024
  const WORD := 0x1_0000_0000

  /** The JSON library: text of an object and back. */
  datatype Codec = Codec(toText: Object -> Bytes, fromText: Bytes -> Option<Object>) {
    ghost predicate Lawful() {
      forall o :: fromText(toText(o)) == Some(o)
    }
  }

  /** The length is cut to 32 bits, as the cast in the source does. */
  function FrameBytes(payload: Bytes): Bytes {
    U32(|payload| % WORD) + payload
  }

  function Frame(c: Codec, o: Object): Bytes {
    FrameBytes(c.toText(o))
  }

  datatype Taken = Wait | Took(payload: Bytes, rest: Bytes)

  /** What readFrame takes off a buffer: nothing until a whole frame of admissible length is there. The sum of header
      and length is computed in 32 bits. */
  function Take(buffer: Bytes): Taken {
    if |buffer| < 4 then Wait
    else
      var len := FromU32(buffer[..4]);
      if len > MAX_PAYLOAD || |buffer| < (4 + len) % WORD then Wait
      else Took(buffer[4..4 + len], buffer[4 + len..])
  }

  /** A frame that is taken but does not hold an object yields nothing, yet it is gone. */
  function Unframe(c: Codec, buffer: Bytes): (Option<Object>, Bytes) {
    match Take(buffer)
    case Wait => (None, buffer)
    case Took(payload, rest) => (c.fromText(payload), rest)
  }

  lemma HeaderOf(payload: Bytes, rest: Bytes)
    ensures var b := FrameBytes(payload) + rest;
            |b| == 4 + |payload| + |rest| && FromU32(b[..4]) == |payload| % WORD && b[4..4 + |payload|] == payload
            && b[4 + |payload|..] == rest
  {
    var b := FrameBytes(payload) + rest;
    U32RoundTrip(|payload| % WORD);
    assert b[..4] == U32(|payload| % WORD);
  }

  /** A frame followed by anything reads back as its payload exactly up to 16 MiB. */
  lemma FrameRoundTrip(payload: Bytes, rest: Bytes)
    ensures Take(FrameBytes(payload) + rest) == Took(payload, rest) <==> |payload| <= MAX_PAYLOAD
  {
    HeaderOf(payload, rest);
    if |payload| > MAX_PAYLOAD {
      var t := Take(FrameBytes(payload) + rest);
      assert t.Took? ==> |t.payload| == |payload| % WORD <= MAX_PAYLOAD;
    }
  }

  /** An unfinished frame is waited for: nothing is consumed, however the bytes are cut. */
  lemma PartialFrameWaits(payload: Bytes, n: nat)
    requires |payload| <= MAX_PAYLOAD && n < |FrameBytes(payload)|
    ensures Take(FrameBytes(payload)[..n]) == Wait
  {
    HeaderOf(payload, []);
    var f := FrameBytes(payload);
    assert f + [] == f;
    if n >= 4 {
      assert f[..n][..4] == f[..4];
    }
  }

  /** A header above the limit blocks its connection for good: no later byte is ever read as a frame. */
  lemma OversizeBlocks(buffer: Bytes, more: Bytes)
    requires |buffer| >= 4 && FromU32(buffer[..4]) > MAX_PAYLOAD
    ensures Take(buffer + more) == Wait
  {
    assert (buffer + more)[..4] == buffer[..4];
  }

  /** A payload that is not a JSON object costs exactly its own frame; the next frame is read from its first byte. */
  lemma JunkCostsItsFrame(c: Codec, junk: Bytes, o: Object, rest: Bytes)
    requires c.Lawful() && |junk| <= MAX_PAYLOAD && c.fromText(junk).None? && |c.toText(o)| <= MAX_PAYLOAD
    ensures var (first, left) := Unframe(c, FrameBytes(junk) + (Frame(c, o) + rest));
            first.None? && Unframe(c, left) == (Some(o), rest)
  {
    FrameRoundTrip(junk, Frame(c, o) + rest);
    FrameRoundTrip(c.toText(o), rest);
  }

  /** The frames of several objects, one after another. */
  function Frames(c: Codec, os: seq<Object>): Bytes {
    if os == [] then [] else Frame(c, os[0]) + Frames(c, os[1..])
  }

  lemma {:induction false} FramesAppend(c: Codec, os: seq<Object>, o: Object)
    ensures Frames(c, os + [o]) == Frames(c, os) + Frame(c, o)
  {
    if os == [] {
      assert (os + [o])[1..] == [];
    } else {
      assert (os + [o])[1..] == os[1..] + [o];
      FramesAppend(c, os[1..], o);
    }
  }

  /** With the frames of `os` split anywhere into what has arrived and what has not, a read takes the first object's
      frame as soon as all of it has arrived, and nothing before. */
  lemma ReadFirst(c: Codec, os: seq<Object>, arrived: Bytes, pending: Bytes)
    requires c.Lawful() && arrived + pending == Frames(c, os)
    requires forall o | o in os :: |c.toText(o)| <= MAX_PAYLOAD
    ensures var (r, rest) := Unframe(c, arrived);
            if os != [] && |arrived| >= |Frame(c, os[0])|
            then r == Some(os[0]) && rest + pending == Frames(c, os[1..])
            else r == None && rest == arrived
  {
    if os != [] {
      var payload := c.toText(os[0]);
      var f, tail := FrameBytes(payload), Frames(c, os[1..]);
      if |arrived| >= |f| {
        assert arrived[..|f|] == (arrived + pending)[..|f|] == f;
        assert arrived == f + arrived[|f|..];
        FrameRoundTrip(payload, arrived[|f|..]);
        assert arrived[|f|..] + pending == (arrived + pending)[|f|..] == tail;
      } else {
        assert arrived == (arrived + pending)[..|arrived|] == f[..|arrived|];
        PartialFrameWaits(payload, |arrived|);
      }
    }
  }

  // ---------------------------------------------------------------- the device

  /** A socket: what has arrived and is not read yet, and what has been written to it. */
  class Device {
    var buffer: Bytes
    var written: Bytes

    constructor ()
      ensures buffer == [] && written == []
    {
      buffer, written := [], [];
    }

    method Peek(n: nat) returns (b: Bytes)
      ensures b == buffer[..Min(n, |buffer|)]
    {
      b := buffer[..Min(n, |buffer|)];
    }

    method Read(n: nat) returns (b: Bytes)
      modifies this`buffer
      ensures b == old(buffer)[..Min(n, |old(buffer)|)] && buffer == old(buffer)[Min(n, |old(buffer)|)..]
    {
      b := buffer[..Min(n, |buffer|)];
      buffer := buffer[Min(n, |buffer|)..];
    }

    method Write(b: Bytes)
      modifies this`written
      ensures written == old(written) + b
    {
      written := written + b;
    }
  }

  method ReadFrame(c: Codec, device: Device) returns (r: Option<Object>)
    modifies device`buffer
    ensures (r, device.buffer) == Unframe(c, old(device.buffer))
  {
    if |device.buffer| < 4 {
      return None;
    }
    var header := device.Peek(4);
    var len := FromU32(header);
    if len > MAX_PAYLOAD {
      return None;
    }
    if |device.buffer| < (4 + len) % WORD {
      return None;
    }
    var _ := device.Read(4);
    var payload := device.Read(len);
    assert payload == old(device.buffer)[4..4 + len];
    assert device.buffer == old(device.buffer)[4 + len..];
    return c.fromText(payload);
  }
}
