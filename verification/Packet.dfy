/** Packets of the serial protocol: building, framing, parsing on the device and on the host
    (src/protocol/packet_parser.c, minihf_api/src/lib.rs). The CRC is any function both ends share. */
module Packet {
  import opened Machine
  import opened Cobs

  const HEADER_BYTE: byte := 0xAA
  const HEADER_SIZE: nat := 5
  const MAX_PAYLOAD: nat := 255

  type Crc = seq<byte> -> word16

  datatype Packet = Packet(ptype: byte, id: word16, payload: seq<byte>)

  predicate Sendable(p: Packet) {
    |p.payload| <= MAX_PAYLOAD
  }

  function Le16(w: word16): (s: seq<byte>)
    ensures |s| == 2
  {
    [w % 256, w / 256]
  }

  function GetLe16(s: seq<byte>): word16
    requires |s| >= 2
  {
    s[0] as int + 256 * (s[1] as int)
  }

  /** Header byte, type, id, length and payload: what the CRC covers. */
  function Body(p: Packet): (s: seq<byte>)
    requires Sendable(p)
    ensures |s| == HEADER_SIZE + |p.payload|
  {
    [HEADER_BYTE, p.ptype] + Le16(p.id) + [|p.payload|] + p.payload
  }

  function Built(crc: Crc, p: Packet): (s: seq<byte>)
    requires Sendable(p)
    ensures HEADER_SIZE + 2 <= |s| == HEADER_SIZE + |p.payload| + 2
  {
    Body(p) + Le16(crc(Body(p)))
  }

  /** The packet byte by byte: header byte 0xAA, type, id low byte first, length, payload, and the CRC of all
      that, low byte first. */
  lemma BuiltSpelled(crc: Crc, p: Packet)
    requires Sendable(p)
    ensures var s, n := Built(crc, p), |p.payload|;
            |p.payload| <= 255 && |s| == n + 7 &&
            s[..5] == [0xAA, p.ptype, p.id % 256, p.id / 256, n] && s[5..n + 5] == p.payload &&
            s[n + 5] == crc(s[..n + 5]) % 256 && s[n + 6] == crc(s[..n + 5]) / 256
  {
    var s, n := Built(crc, p), |p.payload|;
    assert s[..n + 5] == Body(p);
  }

  /** A packet as it travels: the stuffed bytes and the delimiter. */
  function Framed(crc: Crc, p: Packet): seq<byte>
    requires Sendable(p)
  {
    Encoded(Built(crc, p)) + [0]
  }

  /** The device's parser; bytes after the CRC are ignored. */
  function ParseOnDevice(crc: Crc, data: seq<byte>): Option<Packet> {
    if |data| < HEADER_SIZE + 2 then None
    else if data[0] != HEADER_BYTE then None
    else
      var length := data[4];
      var expectedLen := HEADER_SIZE + length + 2;
      if |data| < expectedLen then None
      else if crc(data[..HEADER_SIZE + length]) != GetLe16(data[HEADER_SIZE + length..]) then None
      else Some(Packet(data[1], GetLe16(data[2..]), data[HEADER_SIZE..HEADER_SIZE + length]))
  }

  /** The host's parser. */
  function ParseOnHost(crc: Crc, raw: seq<byte>): Option<Packet> {
    if |raw| < HEADER_SIZE + 2 || raw[0] != HEADER_BYTE then None else
      var ptype, id, length := raw[1], GetLe16([raw[2], raw[3]]), raw[4];
      if |raw| < HEADER_SIZE + length + 2 then None else
        var payload := raw[HEADER_SIZE..HEADER_SIZE + length];
        var received := GetLe16([raw[HEADER_SIZE + length], raw[HEADER_SIZE + length + 1]]);
        if crc(raw[..HEADER_SIZE + length]) != received then None else Some(Packet(ptype, id, payload))
  }

  lemma Le16RoundTrip(w: word16, s: seq<byte>)
    requires |s| >= 2
    ensures GetLe16(Le16(w)) == w
    ensures s[..2] == Le16(w) <==> GetLe16(s) == w
  {
  }

  /** Both parsers accept exactly the byte strings that start with a built packet, and return that packet. */
  lemma ParseExact(crc: Crc, data: seq<byte>, p: Packet)
    ensures ParseOnDevice(crc, data) == Some(p) <==> Sendable(p) && Built(crc, p) <= data
    ensures ParseOnHost(crc, data) == ParseOnDevice(crc, data)
  {
    if Sendable(p) && Built(crc, p) <= data {
      var body, b := Body(p), Built(crc, p);
      var n := |body|;
      assert data[..n] == b[..n] == body;
      assert data[n..][..2] == b[n..] == Le16(crc(body));
      Le16RoundTrip(crc(body), data[n..]);
      assert data[2..][..2] == body[2..4] == Le16(p.id);
      Le16RoundTrip(p.id, data[2..]);
      assert data[0] == body[0] && data[1] == body[1] && data[4] == body[4];
      assert data[HEADER_SIZE..n] == body[HEADER_SIZE..] == p.payload;
    }
    if ParseOnDevice(crc, data) == Some(p) {
      var n := HEADER_SIZE + |p.payload|;
      Le16RoundTrip(p.id, data[2..]);
      assert data[..n] == Body(p);
      Le16RoundTrip(crc(Body(p)), data[n..]);
      assert data[..n + 2] == data[..n] + data[n..][..2];
    }
  }

  /** A framed packet ends with its only zero, and what stands before it arrives with type, id and payload. */
  lemma FrameRoundTrip(crc: Crc, p: Packet)
    requires Sendable(p)
    ensures var f := Framed(crc, p);
            f != [] && f[|f| - 1] == 0 && f[..|f| - 1] == Encoded(Built(crc, p))
    ensures NonZero(Encoded(Built(crc, p)))
    ensures Decoded(Encoded(Built(crc, p))) == Some(Built(crc, p))
    ensures ParseOnDevice(crc, Built(crc, p)) == Some(p) && ParseOnHost(crc, Built(crc, p)) == Some(p)
  {
    EncodedNonZero(Built(crc, p));
    RoundTrip(Built(crc, p));
    ParseExact(crc, Built(crc, p), p);
  }

  lemma FrameFits(data: seq<byte>)
    requires |data| <= HEADER_SIZE + MAX_PAYLOAD + 2
    ensures |Encoded(data)| <= |data| + 2
  {
    EncodedLength(data);
  }

  /** The packet in a buffer, CRC included. */
  method FillPacket(crc: Crc, p: Packet, buf: array<byte>) returns (rawLen: nat)
    requires Sendable(p) && buf.Length == HEADER_SIZE + MAX_PAYLOAD + 2
    modifies buf
    ensures rawLen <= buf.Length && buf[..rawLen] == Built(crc, p)
  {
    buf[0] := HEADER_BYTE;
    buf[1] := p.ptype;
    buf[2], buf[3] := p.id % 256, p.id / 256;
    buf[4] := |p.payload|;
    for i := 0 to |p.payload|
      invariant forall j :: 0 <= j < HEADER_SIZE + i ==> buf[j] == Body(p)[j]
    {
      buf[HEADER_SIZE + i] := p.payload[i];
    }
    var pktSize := HEADER_SIZE + |p.payload|;
    hide Body;
    assert buf[..pktSize] == Body(p);
    var check := crc(buf[..pktSize]);
    buf[pktSize], buf[pktSize + 1] := check % 256, check / 256;
    rawLen := pktSize + 2;
    assert buf[..rawLen] == Built(crc, p);
  }

  /** `send_packet`: nothing for an oversized payload, otherwise the frame. */
  method SendPacket(crc: Crc, cmdId: byte, payload: seq<byte>, id: word16) returns (frame: seq<byte>)
    ensures |payload| > 255 ==> frame == []
    ensures |payload| <= 255 ==> frame == Framed(crc, Packet(cmdId, id, payload))
  {
    if |payload| > MAX_PAYLOAD {
      return [];
    }
    hide Encoded;
    hide Built;
    var p := Packet(cmdId, id, payload);
    var buf := new byte[HEADER_SIZE + MAX_PAYLOAD + 2];
    var rawLen := FillPacket(crc, p, buf);
    FrameFits(Built(crc, p));
    var cobsBuf := new byte[rawLen + 2 + 1];
    var cobsLen := Encode(buf, rawLen, cobsBuf);
    cobsBuf[cobsLen] := 0;
    frame := cobsBuf[..cobsLen + 1];
  }

  // --------------------------------------------------------------- dispatch

  const CMD_TABLE: seq<byte> := [0x01, 0x02, 0x03, 0x04, 0x05, 0x06, 0x07, 0x08, 0xFD]

  /** `parse_dispatch_packet`: the packet handed to a handler, if any. */
  method ParseDispatch(crc: Crc, data: seq<byte>) returns (handled: Option<Packet>)
    ensures handled.Some? <==>
            ParseOnDevice(crc, data).Some? &&
            var ptype := ParseOnDevice(crc, data).value.ptype; 1 <= ptype <= 8 || ptype == 0xFD
    ensures handled.Some? ==> handled == ParseOnDevice(crc, data)
  {
    var parsed := ParseOnDevice(crc, data);
    if parsed.None? {
      return None;
    }
    for i := 0 to |CMD_TABLE|
      invariant parsed.value.ptype !in CMD_TABLE[..i]
    {
      if CMD_TABLE[i] == parsed.value.ptype {
        return parsed;
      }
    }
    assert CMD_TABLE[..|CMD_TABLE|] == CMD_TABLE;
    return None;
  }
}
