/** Reassembly of frames from the serial byte stream: the receive interrupt, its ring buffer, the bounded
    message queue and the worker that empties it (src/uart_handler.c). */
module Uart {
  import opened Machine
  import opened Cobs
  import opened Packet

  const RING_SIZE: nat := 512
  const COBS_BUF_MAX: nat := 302
  const DECODED_MAX: nat := 300
  const QUEUE_DEPTH: nat := 4

  /** Receive state: unfinished frame bytes, queued packets, packets already taken by the worker, whether a
      packet was ever lost to a full queue, and whether a decoding ever wrote behind its 300-byte buffer. */
  datatype Rx = Rx(
    ring: seq<byte>,
    queue: seq<seq<byte>>,
    dispatched: seq<seq<byte>>,
    overflowed: bool,
    overrun: bool)
  {
    /** Everything that got through to the device, in order. */
    function Accepted(): seq<seq<byte>> {
      dispatched + queue
    }
  }

  const EMPTY: Rx := Rx([], [], [], false, false)

  /** The first `n` bytes of a buffer, or all of them if there are fewer. */
  function Front(s: seq<byte>, n: nat): seq<byte> {
    if |s| < n then s else s[..n]
  }

  function OnByte(rx: Rx, b: byte): Rx {
    if b != 0 then
      if |rx.ring| < RING_SIZE then rx.(ring := rx.ring + [b]) else rx
    else
      var frame := Front(rx.ring, COBS_BUF_MAX);
      var rx' := rx.(ring := rx.ring[|frame|..], overrun := rx.overrun || Touched(frame) > DECODED_MAX);
      match Decoded(frame)
      case None => rx'
      case Some(raw) =>
        if !(0 < |raw| <= DECODED_MAX) then rx'
        else if |rx.queue| < QUEUE_DEPTH then rx'.(queue := rx.queue + [raw])
        else rx'.(overflowed := true)
  }

  /** The worker takes one queued packet. */
  function OnWorker(rx: Rx): Rx {
    if rx.queue == [] then rx else
      rx.(queue := rx.queue[1..], dispatched := rx.dispatched + [rx.queue[0]])
  }

  datatype Event = Byte(b: byte) | Worker

  function Step(rx: Rx, e: Event): Rx {
    match e
    case Byte(b) => OnByte(rx, b)
    case Worker => OnWorker(rx)
  }

  function Run(rx: Rx, events: seq<Event>): Rx
    decreases |events|
  {
    if events == [] then rx else Run(Step(rx, events[0]), events[1..])
  }

  function Received(fifo: seq<byte>): (events: seq<Event>)
    ensures |events| == |fifo|
    ensures forall i :: 0 <= i < |fifo| ==> events[i] == Byte(fifo[i])
  {
    seq(|fifo|, i requires 0 <= i < |fifo| => Byte(fifo[i]))
  }

  /** The bytes an event sequence delivers. */
  function BytesOf(events: seq<Event>): seq<byte> {
    if events == [] then []
    else (if events[0].Byte? then [events[0].b] else []) + BytesOf(events[1..])
  }

  // ---------------------------------------------------------------- the class

  /** The driver's static state; the interrupt and the worker update it in place. The last place of `decodedBuf`
      stands for the byte of memory behind the driver's array of 300, which a decoding of 302 bytes can reach. */
  class Handler {
    var rxRing: seq<byte>
    const cobsBuf: array<byte>
    const decodedBuf: array<byte>
    var msgq: seq<seq<byte>>
    var workPending: bool
    ghost var dispatched: seq<seq<byte>>
    ghost var overflowed: bool
    ghost var overrun: bool

    ghost function State(): Rx
      reads this
    {
      Rx(rxRing, msgq, dispatched, overflowed, overrun)
    }

    /** A queued packet always has its worker submitted. */
    ghost predicate Valid()
      reads this
    {
      cobsBuf.Length == COBS_BUF_MAX && decodedBuf.Length == DECODED_MAX + 1 && cobsBuf != decodedBuf &&
      |rxRing| <= RING_SIZE && |msgq| <= QUEUE_DEPTH && (msgq != [] ==> workPending)
    }

    constructor ()
      ensures Valid() && State() == EMPTY && !workPending && fresh(cobsBuf) && fresh(decodedBuf)
    {
      cobsBuf := new byte[COBS_BUF_MAX](_ => 0);
      decodedBuf := new byte[DECODED_MAX + 1](_ => 0);
      rxRing, msgq, workPending, dispatched, overflowed, overrun := [], [], false, [], false, false;
    }

    /** Takes at most a buffer's worth of bytes out of the ring. */
    method GetFromRing() returns (length: nat)
      requires Valid()
      modifies this`rxRing, cobsBuf
      ensures Valid() && length <= COBS_BUF_MAX
      ensures cobsBuf[..length] == Front(old(rxRing), COBS_BUF_MAX) && rxRing == old(rxRing)[length..]
    {
      length := if |rxRing| < COBS_BUF_MAX then |rxRing| else COBS_BUF_MAX;
      for i := 0 to length
        modifies cobsBuf
        invariant cobsBuf[..i] == rxRing[..i]
      {
        cobsBuf[i] := rxRing[i];
      }
      rxRing := rxRing[length..];
    }

    /** One received byte. */
    method OnRxByte(b: byte)
      requires Valid()
      modifies this, cobsBuf, decodedBuf
      ensures Valid() && State() == OnByte(old(State()), b)
    {
      if b == 0 {
        var length := GetFromRing();
        if length > 0 {
          TouchedShorter(cobsBuf[..length]);
          var decodedLen := Decode(cobsBuf, length, decodedBuf);
          overrun := overrun || Touched(cobsBuf[..length]) > DECODED_MAX;
          if 0 < decodedLen <= DECODED_MAX {
            if |msgq| < QUEUE_DEPTH {
              msgq := msgq + [decodedBuf[..decodedLen]];
              workPending := true;
            } else {
              overflowed := true;
            }
          }
        }
      } else if |rxRing| < RING_SIZE {
        rxRing := rxRing + [b];
      }
    }

    /** One interrupt: all the bytes in the receive register. */
    method Isr(fifo: seq<byte>)
      requires Valid()
      modifies this, cobsBuf, decodedBuf
      ensures Valid() && State() == Run(old(State()), Received(fifo))
    {
      ghost var events := Received(fifo);
      assert events[0..] == events;
      for k := 0 to |fifo|
        invariant Valid()
        invariant Run(old(State()), events) == Run(State(), events[k..])
      {
        assert events[k..][0] == Byte(fifo[k]) && events[k..][1..] == events[k + 1..];
        OnRxByte(fifo[k]);
      }
    }

    /** The worker runs until the queue is empty. */
    method RxDispatch()
      requires Valid()
      modifies this
      ensures Valid() && !workPending && msgq == [] && rxRing == old(rxRing)
      ensures overflowed == old(overflowed) && overrun == old(overrun)
      ensures dispatched == old(dispatched + msgq)
    {
      while msgq != []
        invariant |msgq| <= QUEUE_DEPTH && dispatched + msgq == old(dispatched + msgq)
        invariant rxRing == old(rxRing) && overflowed == old(overflowed) && overrun == old(overrun)
        decreases |msgq|
      {
        var data := msgq[0];
        msgq := msgq[1..];
        dispatched := dispatched + [data];
      }
      workPending := false;
    }
  }

  // ----------------------------------------------------------- stream theorem

  /** The stream of the frames of some raw packets. */
  function Stream(raws: seq<seq<byte>>): seq<byte> {
    if raws == [] then [] else Encoded(raws[0]) + [0] + Stream(raws[1..])
  }

  /** `a` is a subsequence of `b`: obtained by leaving out elements, order kept. */
  ghost predicate Subsequence<T>(a: seq<T>, b: seq<T>) {
    if b == [] then a == []
    else Subsequence(a, b[1..]) || (a != [] && a[0] == b[0] && Subsequence(a[1..], b[1..]))
  }

  predicate Fits(raw: seq<byte>) {
    1 <= |raw| <= 300
  }

  lemma {:induction false} NoDelimiterNoPacket(rx: Rx, events: seq<Event>)
    requires NonZero(BytesOf(events))
    ensures Run(rx, events).Accepted() == rx.Accepted() && Run(rx, events).overflowed == rx.overflowed
    ensures Run(rx, events).overrun == rx.overrun
    decreases |events|
  {
    if events != [] {
      var rx' := Step(rx, events[0]);
      assert rx'.Accepted() == rx.Accepted() && rx'.overflowed == rx.overflowed && rx'.overrun == rx.overrun by {
        if events[0].Byte? {
          assert BytesOf(events)[0] == events[0].b;
        } else if rx.queue != [] {
          assert rx.queue == [rx.queue[0]] + rx.queue[1..];
        }
      }
      assert BytesOf(events[1..]) == if events[0].Byte? then BytesOf(events)[1..] else BytesOf(events);
      NoDelimiterNoPacket(rx', events[1..]);
    }
  }

  /** An overflow or an overrun is never forgotten. */
  lemma {:induction false} FlagsStick(rx: Rx, events: seq<Event>)
    ensures rx.overflowed ==> Run(rx, events).overflowed
    ensures rx.overrun ==> Run(rx, events).overrun
    decreases |events|
  {
    if events != [] {
      FlagsStick(Step(rx, events[0]), events[1..]);
    }
  }

  /** A completed frame empties the ring and queues its packet, or drops it when the queue is full. */
  lemma FrameArrives(rx: Rx, raw: seq<byte>)
    requires rx.ring == Encoded(raw) && Fits(raw)
    ensures OnByte(rx, 0) == if |rx.queue| < 4 then rx.(ring := [], queue := rx.queue + [raw])
                             else rx.(ring := [], overflowed := true)
  {
    EncodedLength(raw);
    RoundTrip(raw);
    TouchedDecoded(Encoded(raw));
    assert Front(rx.ring, COBS_BUF_MAX) == rx.ring;
  }

  /** What is no packet is dropped without a trace: a malformed frame, an empty one, and one of over 300 bytes. */
  lemma FrameDropped(rx: Rx)
    ensures var frame, rx' := Front(rx.ring, 302), OnByte(rx, 0);
            Decoded(frame).None? || Decoded(frame).value == [] || |Decoded(frame).value| > 300 ==>
              rx' == rx.(ring := rx.ring[|frame|..], overrun := rx'.overrun)
  {
  }

  /** Other bytes wait in the ring, which holds 512; what does not fit is lost. */
  lemma RingHolds(rx: Rx, b: byte)
    requires b != 0
    ensures OnByte(rx, b) == if |rx.ring| < 512 then rx.(ring := rx.ring + [b]) else rx
  {
  }

  /** Where a byte string has its first zero is determined. */
  lemma FirstZero(s: seq<byte>, run: seq<byte>, rest: seq<byte>)
    requires s == run + [0] + rest && NonZero(run)
    ensures forall i :: 0 <= i < |s| && s[i] == 0 ==> i >= |run|
    ensures s[|run|] == 0 && run == s[..|run|] && rest == s[|run| + 1..]
  {
    assert forall i :: 0 <= i < |run| ==> s[i] == run[i];
  }

  /** The first delimiter of the rest of a stream ends the first pending frame. */
  lemma SplitAtDelimiter(ring: seq<byte>, rest: seq<byte>, raws: seq<seq<byte>>, tail: seq<byte>)
    requires NonZero(ring) && NonZero(tail) && ring + [0] + rest == Stream(raws) + tail
    ensures raws != [] && ring == Encoded(raws[0]) && rest == Stream(raws[1..]) + tail
  {
    var whole, end := ring + [0] + rest, Stream(raws) + tail;
    assert whole[|ring|] == 0;
    FirstZero(whole, ring, rest);
    if raws != [] {
      EncodedNonZero(raws[0]);
      assert end == Encoded(raws[0]) + [0] + (Stream(raws[1..]) + tail);
      FirstZero(end, Encoded(raws[0]), Stream(raws[1..]) + tail);
    }
  }

  lemma PendingFits(ring: seq<byte>, rest: seq<byte>, raws: seq<seq<byte>>, tail: seq<byte>)
    requires NonZero(ring) && raws != [] && Fits(raws[0]) && ring + rest == Stream(raws) + tail
    ensures |ring| <= COBS_BUF_MAX
  {
    var first := Encoded(raws[0]);
    EncodedLength(raws[0]);
    var end := Stream(raws) + tail;
    assert end[|first|] == 0;
    assert forall i :: 0 <= i < |ring| ==> (ring + rest)[i] == ring[i];
  }

  lemma WorkerStep(rx: Rx)
    ensures var rx' := Step(rx, Worker);
            rx'.Accepted() == rx.Accepted() && rx'.ring == rx.ring && rx'.overflowed == rx.overflowed &&
            rx'.overrun == rx.overrun
  {
    if rx.queue != [] {
      assert rx.queue == [rx.queue[0]] + rx.queue[1..];
    }
  }

  lemma DataStep(rx: Rx, b: byte)
    requires b != 0 && |rx.ring| < RING_SIZE
    ensures Step(rx, Byte(b)) == rx.(ring := rx.ring + [b])
  {
  }

  lemma BytesOfFirst(events: seq<Event>)
    requires events != []
    ensures events[0].Worker? ==> BytesOf(events) == BytesOf(events[1..])
    ensures events[0].Byte? ==> BytesOf(events) == [events[0].b] + BytesOf(events[1..])
  {
  }

  /** In every interleaving of received bytes and worker turns, the packets that get through are, in order,
      some of those sent, and all of them exactly when the queue never overflows. */
  lemma {:induction false} Reassembly(rx: Rx, events: seq<Event>, raws: seq<seq<byte>>, tail: seq<byte>)
      returns (through: seq<seq<byte>>)
    requires NonZero(rx.ring) && NonZero(tail)
    requires forall i :: 0 <= i < |raws| ==> Fits(raws[i])
    requires rx.ring + BytesOf(events) == Stream(raws) + tail
    ensures Run(rx, events).Accepted() == rx.Accepted() + through
    ensures Subsequence(through, raws)
    ensures |through| <= |raws|
    ensures !rx.overflowed ==> (Run(rx, events).overflowed <==> through != raws)
    ensures Run(rx, events).overrun == rx.overrun
    decreases |events|
  {
    hide Step;
    hide OnByte;
    hide BytesOf;
    hide Stream;
    if raws == [] {
      EmptyStream();
      assert Stream([]) + tail == tail;
      assert BytesOf(events) == tail[|rx.ring|..];
      NoDelimiterNoPacket(rx, events);
      return [];
    }
    PendingNotAll(rx.ring, raws, tail);
    NoBytes(events);
    assert rx.ring + [] == rx.ring;
    BytesOfFirst(events);
    var rx', rest := Step(rx, events[0]), events[1..];
    if events[0].Worker? {
      WorkerStep(rx);
      through := Reassembly(rx', rest, raws, tail);
    } else {
      var b := events[0].b;
      assert rx.ring + ([b] + BytesOf(rest)) == rx.ring + [b] + BytesOf(rest);
      if b == 0 {
        SplitAtDelimiter(rx.ring, BytesOf(rest), raws, tail);
        FrameStep(rx, raws[0]);
        assert [] + BytesOf(rest) == BytesOf(rest);
        through := Reassembly(rx', rest, raws[1..], tail);
        if |rx.queue| < QUEUE_DEPTH {
          SubsequenceTaken(through, raws);
          assert rx.Accepted() + [raws[0]] + through == rx.Accepted() + ([raws[0]] + through);
          through := [raws[0]] + through;
        } else {
          SubsequenceSkipped(through, raws);
          FlagsStick(rx', rest);
        }
      } else {
        PendingFits(rx.ring + [b], BytesOf(rest), raws, tail);
        DataStep(rx, b);
        through := Reassembly(rx', rest, raws, tail);
      }
    }
  }

  lemma EmptyStream()
    ensures Stream([]) == []
  {
  }

  lemma NoBytes(events: seq<Event>)
    ensures events == [] ==> BytesOf(events) == []
  {
  }

  lemma FrameStep(rx: Rx, raw: seq<byte>)
    requires rx.ring == Encoded(raw) && Fits(raw)
    ensures var rx' := Step(rx, Byte(0));
            rx'.ring == [] && rx'.overrun == rx.overrun &&
            rx'.overflowed == (rx.overflowed || |rx.queue| >= QUEUE_DEPTH) &&
            rx'.Accepted() == rx.Accepted() + if |rx.queue| < QUEUE_DEPTH then [raw] else []
  {
    FrameArrives(rx, raw);
    if |rx.queue| < QUEUE_DEPTH {
      assert rx.dispatched + (rx.queue + [raw]) == rx.dispatched + rx.queue + [raw];
    }
  }

  lemma SubsequenceTaken<T>(a: seq<T>, b: seq<T>)
    requires b != [] && Subsequence(a, b[1..])
    ensures Subsequence([b[0]] + a, b)
  {
    assert ([b[0]] + a)[1..] == a;
  }

  lemma SubsequenceSkipped<T>(a: seq<T>, b: seq<T>)
    requires b != [] && Subsequence(a, b[1..])
    ensures Subsequence(a, b)
  {
  }

  lemma PendingNotAll(ring: seq<byte>, raws: seq<seq<byte>>, tail: seq<byte>)
    requires NonZero(ring) && raws != []
    ensures ring != Stream(raws) + tail
  {
    var s := Stream(raws) + tail;
    assert s[|Encoded(raws[0])|] == 0;
  }

  // --------------------------------------------------------- packet level

  function RawOf(crc: Crc, packets: seq<Packet>): (raws: seq<seq<byte>>)
    requires forall i :: 0 <= i < |packets| ==> Sendable(packets[i])
    ensures |raws| == |packets|
    ensures forall i :: 0 <= i < |packets| ==> raws[i] == Built(crc, packets[i])
  {
    seq(|packets|, i requires 0 <= i < |packets| => Built(crc, packets[i]))
  }

  /** What the parser makes of a list of decoded frames; rejected frames leave no packet. */
  function Parsed(crc: Crc, raws: seq<seq<byte>>): seq<Packet> {
    if raws == [] then []
    else match ParseOnDevice(crc, raws[0])
      case None => Parsed(crc, raws[1..])
      case Some(p) => [p] + Parsed(crc, raws[1..])
  }

  lemma {:induction false} ParsedRawOf(crc: Crc, packets: seq<Packet>)
    requires forall i :: 0 <= i < |packets| ==> Sendable(packets[i])
    ensures Parsed(crc, RawOf(crc, packets)) == packets
  {
    hide Built;
    hide ParseOnDevice;
    if packets != [] {
      FrameRoundTrip(crc, packets[0]);
      ParsedRawOf(crc, packets[1..]);
      assert RawOf(crc, packets)[1..] == RawOf(crc, packets[1..]);
    }
  }

  lemma {:induction false} ParsedSubsequence(crc: Crc, a: seq<seq<byte>>, b: seq<seq<byte>>)
    requires Subsequence(a, b)
    ensures Subsequence(Parsed(crc, a), Parsed(crc, b))
    decreases |b|
  {
    hide ParseOnDevice;
    if b != [] {
      if Subsequence(a, b[1..]) {
        ParsedSubsequence(crc, a, b[1..]);
      } else {
        ParsedSubsequence(crc, a[1..], b[1..]);
      }
      var p := ParseOnDevice(crc, b[0]);
      if p.Some? {
        assert ([p.value] + Parsed(crc, b[1..]))[1..] == Parsed(crc, b[1..]);
        assert a != [] && a[0] == b[0] ==> ([p.value] + Parsed(crc, a[1..]))[1..] == Parsed(crc, a[1..]);
      }
    }
  }

  /** The bytes of some packets as they are sent. */
  function Sent(crc: Crc, packets: seq<Packet>): seq<byte>
    requires forall i :: 0 <= i < |packets| ==> Sendable(packets[i])
  {
    if packets == [] then [] else Framed(crc, packets[0]) + Sent(crc, packets[1..])
  }

  lemma {:induction false} SentIsStream(crc: Crc, packets: seq<Packet>)
    requires forall i :: 0 <= i < |packets| ==> Sendable(packets[i])
    ensures Sent(crc, packets) == Stream(RawOf(crc, packets))
    decreases |packets|
  {
    hide Built;
    hide Encoded;
    if packets != [] {
      SentIsStream(crc, packets[1..]);
      assert RawOf(crc, packets)[1..] == RawOf(crc, packets[1..]);
    }
  }

  /** From an idle receiver, however the bytes of some framed packets are split over interrupts and worker
      turns, the device sees an order-preserving selection of those packets, each with its type, id and
      payload, and sees every one of them unless the queue overflowed. */
  lemma {:induction false} PacketsArrive(crc: Crc, events: seq<Event>, packets: seq<Packet>, tail: seq<byte>)
    requires forall i :: 0 <= i < |packets| ==> Sendable(packets[i])
    requires NonZero(tail) && BytesOf(events) == Sent(crc, packets) + tail
    ensures var seen := Parsed(crc, Run(EMPTY, events).Accepted());
            Subsequence(seen, packets) && (!Run(EMPTY, events).overflowed ==> seen == packets) &&
            !Run(EMPTY, events).overrun
  {
    hide Run;
    hide Stream;
    hide BytesOf;
    hide Sent;
    SentIsStream(crc, packets);
    var raws := RawOf(crc, packets);
    assert [] + BytesOf(events) == BytesOf(events);
    var through := Reassembly(EMPTY, events, raws, tail);
    assert EMPTY.Accepted() + through == through;
    ParsedRawOf(crc, packets);
    ParsedSubsequence(crc, through, raws);
  }

  /** A delimiter is safe for the decoder's buffer, whatever non-zero bytes the ring holds, exactly when they
      are at most 301; the ring and the frame buffer let in one more. */
  lemma DelimiterSafe(n: nat)
    ensures (forall rx: Rx :: |rx.ring| == n && NonZero(rx.ring) && !rx.overrun ==> !OnByte(rx, 0).overrun) <==>
            n <= 301
  {
    hide Decoded;
    if n <= DECODED_MAX + 1 {
      forall rx: Rx | |rx.ring| == n && NonZero(rx.ring) && !rx.overrun ensures !OnByte(rx, 0).overrun {
        assert Front(rx.ring, COBS_BUF_MAX) == rx.ring;
        RoomExact(n, DECODED_MAX);
        assert Touched(rx.ring) <= DECODED_MAX;
      }
    } else {
      var rx := EMPTY.(ring := Repeat(1 as byte, n));
      assert Front(rx.ring, COBS_BUF_MAX) == Repeat(1 as byte, COBS_BUF_MAX);
      TouchedOnes(COBS_BUF_MAX);
      assert NonZero(rx.ring) && OnByte(rx, 0).overrun;
    }
  }

  function Delimiters(n: nat): seq<Event> {
    if n == 0 then [] else [Byte(0)] + Delimiters(n - 1)
  }

  lemma DelimitersFirst(rx: Rx, n: nat, events: seq<Event>)
    requires n > 0
    ensures Run(rx, Delimiters(n) + events) == Run(OnByte(rx, 0), Delimiters(n - 1) + events)
  {
    assert Delimiters(n) + events == [Byte(0)] + (Delimiters(n - 1) + events);
    hide OnByte;
  }

  /** Some delimiters in a row leave an empty ring exactly when the ring held no more than they take. The 512
      bytes of the ring buffer are at most two times 302. */
  lemma {:induction false} DelimitersClear(rx: Rx, n: nat)
    ensures Run(rx, Delimiters(n)).ring == [] <==> |rx.ring| <= n * 302
    decreases n
  {
    hide OnByte;
    if n > 0 {
      RingAfter(rx);
      DelimitersClear(OnByte(rx, 0), n - 1);
      DelimitersFirst(rx, n, []);
      assert Delimiters(n) + [] == Delimiters(n) && Delimiters(n - 1) + [] == Delimiters(n - 1);
    }
  }

  lemma RingAfter(rx: Rx)
    ensures |OnByte(rx, 0).ring| == if |rx.ring| <= COBS_BUF_MAX then 0 else |rx.ring| - COBS_BUF_MAX
    ensures OnByte(rx, 0).overrun == (rx.overrun || Touched(Front(rx.ring, COBS_BUF_MAX)) > DECODED_MAX)
    ensures |rx.ring| <= DECODED_MAX + 1 ==> OnByte(rx, 0).overrun == rx.overrun
  {
    hide Decoded;
    if rx.ring != [] {
      TouchedShorter(Front(rx.ring, COBS_BUF_MAX));
    }
    hide Touched;
  }

  /** Of delimiters in a row only the first can be unsafe for the decoder's buffer. */
  lemma {:induction false} DelimitersSafe(rx: Rx, n: nat)
    requires |rx.ring| <= DECODED_MAX + 1
    ensures Run(rx, Delimiters(n)).overrun == rx.overrun
    decreases n
  {
    hide OnByte;
    if n > 0 {
      RingAfter(rx);
      DelimitersSafe(OnByte(rx, 0), n - 1);
      DelimitersFirst(rx, n, []);
      assert Delimiters(n) + [] == Delimiters(n) && Delimiters(n - 1) + [] == Delimiters(n - 1);
    }
  }

  lemma {:induction false} RunTwice(rx: Rx, first: seq<Event>, second: seq<Event>)
    ensures Run(rx, first + second) == Run(Run(rx, first), second)
    decreases |first|
  {
    hide Step;
    if first == [] {
      assert first + second == second;
    } else {
      assert (first + second)[1..] == first[1..] + second;
      RunTwice(Step(rx, first[0]), first[1..], second);
    }
  }

  /** Whatever noise or torn frame the ring holds, as many delimiters as it takes to empty it, which is one for
      up to 302 bytes and two for every other, are enough to receive what follows. The decoder writes one byte
      behind its buffer exactly when the first 302 bytes are decoded to 301, never when there are at most 301. */
  lemma Resynchronises(rx: Rx, n: nat, events: seq<Event>, raws: seq<seq<byte>>, tail: seq<byte>)
      returns (through: seq<seq<byte>>)
    requires |rx.ring| <= 512 && 0 < n && |rx.ring| <= n * 302 && NonZero(tail)
    requires forall i :: 0 <= i < |raws| ==> Fits(raws[i])
    requires BytesOf(events) == Stream(raws) + tail
    ensures var rx', end := Run(rx, Delimiters(n)), Run(rx, Delimiters(n) + events);
            end.Accepted() == rx'.Accepted() + through &&
            Subsequence(through, raws) &&
            (!end.overflowed ==> through == raws) &&
            end.overrun == (rx.overrun || Touched(Front(rx.ring, 302)) > 300) &&
            (|rx.ring| <= 301 ==> end.overrun == rx.overrun)
  {
    hide Run;
    hide Decoded;
    hide Stream;
    hide BytesOf;
    hide OnByte;
    DelimitersClear(rx, n);
    RingAfter(rx);
    DelimitersSafe(OnByte(rx, 0), n - 1);
    DelimitersFirst(rx, n, []);
    assert Delimiters(n) + [] == Delimiters(n) && Delimiters(n - 1) + [] == Delimiters(n - 1);
    RunTwice(rx, Delimiters(n), events);
    assert [] + BytesOf(events) == BytesOf(events);
    through := Reassembly(Run(rx, Delimiters(n)), events, raws, tail);
    FlagsStick(Run(rx, Delimiters(n)), events);
  }

  /** Whether the worker keeps up: with `depth` packets waiting, no delimiter arrives at a full queue. */
  predicate KeepsUp(events: seq<Event>, depth: nat)
    decreases |events|
  {
    events == [] ||
    match events[0]
    case Worker => KeepsUp(events[1..], if depth == 0 then 0 else depth - 1)
    case Byte(b) => if b != 0 then KeepsUp(events[1..], depth)
                    else depth < 4 && KeepsUp(events[1..], depth + 1)
  }

  /** A worker that keeps up with the delimiters never lets the queue overflow. */
  lemma {:induction false} KeepingUpSuffices(rx: Rx, events: seq<Event>, depth: nat)
    requires |rx.queue| <= depth && !rx.overflowed && KeepsUp(events, depth)
    ensures !Run(rx, events).overflowed
    decreases |events|
  {
    hide Decoded;
    if events != [] {
      var depth' := match events[0]
        case Worker => if depth == 0 then 0 else depth - 1
        case Byte(b) => if b != 0 then depth else depth + 1;
      KeepingUpSuffices(Step(rx, events[0]), events[1..], depth');
    }
  }
}
