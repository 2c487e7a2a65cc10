/** The host's reader thread: bytes come in reads of any size, frames end at zeros
    (minihf_api/src/lib.rs). */
module HostReader {
  import opened Machine
  import opened Cobs
  import opened Packet
  import Uart

  /** The place of the first zero, if there is one. */
  function FirstZero(s: seq<byte>): (p: Option<nat>)
    ensures p.Some? ==> p.value < |s| && s[p.value] == 0 && NonZero(s[..p.value])
    ensures p.None? ==> NonZero(s)
  {
    if s == [] then None
    else if s[0] == 0 then Some(0)
    else
      var p := FirstZero(s[1..]);
      if p.None? then None
      else
        assert forall k :: 0 < k < p.value + 1 ==> s[k] == s[1..][..p.value][k - 1];
        Some(p.value + 1)
  }

  /** What one frame gives: nothing when it is empty, malformed or no packet. */
  function PacketOf(crc: Crc, frame: seq<byte>): seq<Packet> {
    if frame == [] || Decoded(frame).None? then []
    else match ParseOnHost(crc, Decoded(frame).value)
      case None => []
      case Some(p) => [p]
  }

  /** What is left in the buffer, and the packets found. */
  datatype Found = Found(rest: seq<byte>, packets: seq<Packet>)

  /** The bytes left when all complete frames are taken out of the buffer, and the packets they gave. */
  function Drained(crc: Crc, buf: seq<byte>): (found: Found)
    ensures NonZero(found.rest)
    decreases |buf|
  {
    match FirstZero(buf)
    case None => Found(buf, [])
    case Some(i) =>
      var rest := Drained(crc, buf[i + 1..]);
      rest.(packets := PacketOf(crc, buf[..i]) + rest.packets)
  }

  /** The buffer after some reads, and the packets in the order in which they were routed. */
  function Reads(crc: Crc, buf: seq<byte>, chunks: seq<seq<byte>>): Found
    decreases |chunks|
  {
    if chunks == [] then Found(buf, [])
    else
      var first := Drained(crc, buf + chunks[0]);
      var rest := Reads(crc, first.rest, chunks[1..]);
      rest.(packets := first.packets + rest.packets)
  }

  function Joined(chunks: seq<seq<byte>>): seq<byte> {
    if chunks == [] then [] else chunks[0] + Joined(chunks[1..])
  }

  /** Frames, each closed by a delimiter. */
  function Closed(frames: seq<seq<byte>>): seq<byte> {
    if frames == [] then [] else frames[0] + [0] + Closed(frames[1..])
  }

  function PacketsOf(crc: Crc, frames: seq<seq<byte>>): seq<Packet> {
    if frames == [] then [] else PacketOf(crc, frames[0]) + PacketsOf(crc, frames[1..])
  }

  // ---------------------------------------------------------------- the laws

  lemma FirstZeroIs(run: seq<byte>, rest: seq<byte>)
    requires NonZero(run)
    ensures FirstZero(run + [0] + rest) == Some(|run|)
    ensures (run + [0] + rest)[..|run|] == run && (run + [0] + rest)[|run| + 1..] == rest
  {
    var s := run + [0] + rest;
    assert s[|run|] == 0;
    assert forall k :: 0 <= k < |run| ==> s[k] == run[k];
    var p := FirstZero(s).value;
    assert forall k :: 0 <= k < p ==> s[..p][k] == s[k];
  }

  lemma NoZero(s: seq<byte>)
    requires NonZero(s)
    ensures FirstZero(s) == None
  {
  }

  lemma DrainedFrame(crc: Crc, run: seq<byte>, rest: seq<byte>)
    requires NonZero(run)
    ensures Drained(crc, run + [0] + rest) ==
            Drained(crc, rest).(packets := PacketOf(crc, run) + Drained(crc, rest).packets)
  {
    FirstZeroIs(run, rest);
    hide FirstZero;
    hide PacketOf;
  }

  lemma DrainedAt(crc: Crc, buf: seq<byte>, i: nat)
    requires i < |buf| && buf[i] == 0 && NonZero(buf[..i])
    ensures var rest := Drained(crc, buf[i + 1..]);
            Drained(crc, buf) == rest.(packets := PacketOf(crc, buf[..i]) + rest.packets)
  {
    assert buf == buf[..i] + [0] + buf[i + 1..];
    DrainedFrame(crc, buf[..i], buf[i + 1..]);
  }

  /** Taking out what is complete early changes nothing. */
  lemma {:induction false} DrainedEarly(crc: Crc, buf: seq<byte>, more: seq<byte>)
    ensures var now := Drained(crc, buf);
            var later := Drained(crc, now.rest + more);
            Drained(crc, buf + more) == later.(packets := now.packets + later.packets)
    decreases |buf|
  {
    hide PacketOf;
    hide Drained;
    var p := FirstZero(buf);
    hide FirstZero;
    if p.Some? {
      var run, rest := buf[..p.value], buf[p.value + 1..];
      DrainedAt(crc, buf, p.value);
      assert buf + more == run + [0] + (rest + more);
      DrainedFrame(crc, run, rest + more);
      DrainedEarly(crc, rest, more);
      var now := Drained(crc, rest);
      var later := Drained(crc, now.rest + more);
      assert PacketOf(crc, run) + (now.packets + later.packets) == PacketOf(crc, run) + now.packets + later.packets;
    } else {
      DrainedNothing(crc, buf);
      assert [] + Drained(crc, buf + more).packets == Drained(crc, buf + more).packets;
    }
  }

  /** How the bytes are split over reads does not matter. */
  lemma {:induction false} SplitsDoNotMatter(crc: Crc, buf: seq<byte>, chunks: seq<seq<byte>>)
    requires NonZero(buf)
    ensures Reads(crc, buf, chunks) == Drained(crc, buf + Joined(chunks))
    decreases |chunks|
  {
    hide Drained;
    if chunks == [] {
      DrainedNothing(crc, buf);
      assert buf + [] == buf;
    } else {
      var first := Drained(crc, buf + chunks[0]);
      SplitsDoNotMatter(crc, first.rest, chunks[1..]);
      DrainedEarly(crc, buf + chunks[0], Joined(chunks[1..]));
      assert buf + Joined(chunks) == buf + chunks[0] + Joined(chunks[1..]);
    }
  }

  lemma DrainedNothing(crc: Crc, buf: seq<byte>)
    requires NonZero(buf)
    ensures Drained(crc, buf) == Found(buf, [])
  {
    NoZero(buf);
  }

  lemma {:induction false} DrainedClosed(crc: Crc, frames: seq<seq<byte>>, tail: seq<byte>)
    requires NonZero(tail) && forall i :: 0 <= i < |frames| ==> NonZero(frames[i])
    ensures Drained(crc, Closed(frames) + tail) == Found(tail, PacketsOf(crc, frames))
    decreases |frames|
  {
    if frames == [] {
      NoZero(tail);
      assert [] + tail == tail;
    } else {
      assert Closed(frames) + tail == frames[0] + [0] + (Closed(frames[1..]) + tail);
      DrainedFrame(crc, frames[0], Closed(frames[1..]) + tail);
      DrainedClosed(crc, frames[1..], tail);
    }
  }

  /** Whatever frames arrive, damaged or not, and however the bytes are split over reads, the host routes in
      order the packet of each frame that is one, and keeps the bytes of the unfinished frame. */
  lemma HostReassembly(crc: Crc, chunks: seq<seq<byte>>, frames: seq<seq<byte>>, tail: seq<byte>)
    requires NonZero(tail) && forall i :: 0 <= i < |frames| ==> NonZero(frames[i])
    requires Joined(chunks) == Closed(frames) + tail
    ensures Reads(crc, [], chunks) == Found(tail, PacketsOf(crc, frames))
  {
    SplitsDoNotMatter(crc, [], chunks);
    assert [] + Joined(chunks) == Joined(chunks);
    DrainedClosed(crc, frames, tail);
  }

  lemma PacketOfBuilt(crc: Crc, p: Packet)
    requires Sendable(p)
    ensures NonZero(Encoded(Built(crc, p))) && PacketOf(crc, Encoded(Built(crc, p))) == [p]
  {
    FrameRoundTrip(crc, p);
    EncodedLength(Built(crc, p));
    hide Encoded;
    hide Decoded;
    hide ParseOnHost;
  }

  lemma {:induction false} DrainedStream(crc: Crc, packets: seq<Packet>, tail: seq<byte>)
    requires NonZero(tail) && forall i :: 0 <= i < |packets| ==> Sendable(packets[i])
    ensures Drained(crc, Uart.Sent(crc, packets) + tail) == Found(tail, packets)
    decreases |packets|
  {
    hide Drained;
    hide PacketOf;
    if packets == [] {
      DrainedClosed(crc, [], tail);
      assert [] + tail == tail && Closed([]) == [] && PacketsOf(crc, []) == [] && Uart.Sent(crc, packets) == [];
    } else {
      var rest := Uart.Sent(crc, packets[1..]) + tail;
      var frame := Encoded(Built(crc, packets[0]));
      assert Uart.Sent(crc, packets) + tail == frame + [0] + rest;
      PacketOfBuilt(crc, packets[0]);
      DrainedFrame(crc, frame, rest);
      DrainedStream(crc, packets[1..], tail);
      assert [packets[0]] + packets[1..] == packets;
    }
  }

  /** The device's packets reach the host: every one, in order, with its type, id and payload, behind whatever
      torn frame was in the buffer, once a delimiter has closed that. */
  lemma HostPacketsArrive(crc: Crc, torn: seq<byte>, chunks: seq<seq<byte>>, packets: seq<Packet>, tail: seq<byte>)
    requires NonZero(torn) && NonZero(tail) && forall i :: 0 <= i < |packets| ==> Sendable(packets[i])
    ensures Joined(chunks) == Uart.Sent(crc, packets) + tail ==>
            Reads(crc, [], chunks) == Found(tail, packets)
    ensures Joined(chunks) == [0] + (Uart.Sent(crc, packets) + tail) ==>
            Reads(crc, torn, chunks) == Found(tail, PacketOf(crc, torn) + packets)
  {
    hide Drained;
    hide PacketOf;
    var stream := Uart.Sent(crc, packets) + tail;
    DrainedStream(crc, packets, tail);
    SplitsDoNotMatter(crc, [], chunks);
    assert [] + Joined(chunks) == Joined(chunks);
    SplitsDoNotMatter(crc, torn, chunks);
    assert torn + ([0] + stream) == torn + [0] + stream;
    DrainedFrame(crc, torn, stream);
  }

  // ---------------------------------------------------------------- the class

  /** The thread's buffer. The packets of a read are handed back in the order in which they are routed. */
  class Reader {
    var rxBuf: seq<byte>

    constructor ()
      ensures rxBuf == []
    {
      rxBuf := [];
    }

    /** One turn of the thread's loop with the bytes that were available. */
    method OnBytes(crc: Crc, chunk: seq<byte>) returns (packets: seq<Packet>)
      requires NonZero(rxBuf)
      modifies this
      ensures Found(rxBuf, packets) == Drained(crc, old(rxBuf) + chunk) && NonZero(rxBuf)
    {
      hide PacketOf;
      hide Drained;
      hide FirstZero;
      rxBuf := rxBuf + chunk;
      packets := [];
      ghost var all := Drained(crc, rxBuf);
      assert [] + all.packets == all.packets;
      while true
        invariant all == Drained(crc, rxBuf).(packets := packets + Drained(crc, rxBuf).packets)
        decreases |rxBuf|
      {
        var idx := Position(rxBuf);
        if idx.None? {
          DrainedNothing(crc, rxBuf);
          assert packets + [] == packets;
          return;
        }
        var frame := rxBuf[..idx.value];
        DrainedAt(crc, rxBuf, idx.value);
        rxBuf := rxBuf[idx.value + 1..];
        var found := ReadFrame(crc, frame);
        assert packets + (found + Drained(crc, rxBuf).packets) == packets + found + Drained(crc, rxBuf).packets;
        packets := packets + found;
      }
    }
  }

  /** The packet of a frame; an empty frame is skipped. */
  method ReadFrame(crc: Crc, frame: seq<byte>) returns (found: seq<Packet>)
    ensures found == PacketOf(crc, frame)
  {
    if frame == [] {
      return [];
    }
    var decoded := Decoded(frame);
    if decoded.None? {
      return [];
    }
    var packet := ParseOnHost(crc, decoded.value);
    found := if packet.Some? then [packet.value] else [];
  }

  /** The scan for a delimiter. */
  method Position(s: seq<byte>) returns (p: Option<nat>)
    ensures p == FirstZero(s)
  {
    for i := 0 to |s|
      invariant NonZero(s[..i])
    {
      if s[i] == 0 {
        assert s == s[..i] + [0] + s[i + 1..];
        FirstZeroIs(s[..i], s[i + 1..]);
        return Some(i);
      }
    }
    assert s[..|s|] == s;
    NoZero(s);
    return None;
  }
}
