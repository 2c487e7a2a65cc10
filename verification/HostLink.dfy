/** The host's calls, the lossy link, the device's command worker and the replies: every interleaving of the
    caller threads, the reader thread and the device (minihf_api/src/lib.rs, src/uart_handler.c,
    src/radio/radio_cmd.c). Frames are lost whole or not at all. */
module HostLink {
  import opened Machine
  import opened Packet
  import Uart

  const RESP_ACK: byte := 0xFF
  const RESP_NACK: byte := 0xFE
  const RESET: byte := 0xFD
  const DEBUG_MSG: byte := 0xFC

  /** A packet on its way and the number of the call it belongs to. The number never travels: it is the
      model's record of where the packet came from. */
  datatype Flight = Flight(call: nat, packet: Packet)

  predicate IsReply(f: Flight) {
    f.packet.ptype != DEBUG_MSG
  }

  datatype Result = Reply(payload: seq<byte>) | Nack | Timeout | PortClosed | Io | Sent

  /** A call has its id, then its frame is written and it waits, then it is done. */
  datatype Phase = Allocated | Waiting | Done(result: Result)

  /** A call of `transact`, or of `send_only` when it does not wait. */
  datatype Call = Call(request: Packet, waits: bool, phase: Phase)

  /** One run of a command handler and the reply it sent. */
  datatype Execution = Execution(call: nat, request: Packet, reply: Option<Packet>)

  /** A reply that a polling caller removed from the map. */
  datatype Taken = Taken(caller: nat, reply: Flight)

  datatype Link = Link(
    nextId: word16,
    isOpen: bool,
    responses: map<word16, Flight>,
    calls: seq<Call>,
    toDevice: seq<Flight>,
    queue: seq<Flight>,
    executed: seq<Execution>,
    toHost: seq<Flight>,
    taken: seq<Taken>)

  const START: Link := Link(1, true, map[], [], [], [], [], [], [])

  datatype Event =
    | Begin(cmd: byte, payload: seq<byte>, waits: bool)
    | Write(c: nat)
    | WriteFails(c: nat, delivered: bool)
    | LoseRequest(i: nat)
    | Arrive
    | Execute(ok: bool, data: seq<byte>)
    | Debug(text: seq<byte>)
    | LoseReply(i: nat)
    | Read
    | Poll(c: nat)
    | Expire(c: nat)
    | Close

  function Without<T>(s: seq<T>, i: nat): seq<T> {
    if i < |s| then s[..i] + s[i + 1..] else s
  }

  predicate InPhase(s: Link, c: nat, phase: Phase) {
    c < |s.calls| && s.calls[c].phase == phase
  }

  function SetPhase(s: Link, c: nat, phase: Phase): Link
    requires c < |s.calls|
  {
    s.(calls := s.calls[c := s.calls[c].(phase := phase)])
  }

  // ------------------------------------------------------- the host's steps

  /** `next_id.fetch_add(1)`; an oversized payload is refused first. */
  function OnBegin(s: Link, cmd: byte, payload: seq<byte>, waits: bool): Link {
    if |payload| > MAX_PAYLOAD then s else
      s.(nextId := NextId(s.nextId),
         calls := s.calls + [Call(Packet(cmd, s.nextId, payload), waits, Allocated)])
  }

  function NextId(id: word16): word16 {
    (id + 1) % 0x1_0000
  }

  /** The frame is written under the port lock. */
  function OnWrite(s: Link, c: nat): Link {
    if !InPhase(s, c, Allocated) then s
    else if !s.isOpen then SetPhase(s, c, Done(PortClosed))
    else SetPhase(s, c, if s.calls[c].waits then Waiting else Done(Sent))
           .(toDevice := s.toDevice + [Flight(c, s.calls[c].request)])
  }

  /** An I/O error is reported, whether or not the frame left. */
  function OnWriteFails(s: Link, c: nat, delivered: bool): Link {
    if !InPhase(s, c, Allocated) || !s.isOpen then s else
      SetPhase(s, c, Done(Io))
        .(toDevice := s.toDevice + if delivered then [Flight(c, s.calls[c].request)] else [])
  }

  /** The reader thread logs debug packets and files replies under their id. */
  function Routed(responses: map<word16, Flight>, f: Flight): map<word16, Flight> {
    if f.packet.ptype == DEBUG_MSG then responses else responses[f.packet.id := f]
  }

  function OnRead(s: Link): Link {
    if s.toHost == [] then s else
      s.(toHost := s.toHost[1..], responses := Routed(s.responses, s.toHost[0]))
  }

  /** What a `transact` makes of a reply: type 0xFE is a NACK, everything else a payload. */
  predicate Reports(result: Result, reply: Packet) {
    (result == Nack || result.Reply?) && (result == Nack <==> reply.ptype == 0xFE) &&
    (result.Reply? ==> result.payload == reply.payload)
  }

  function ResultOf(reply: Packet): (result: Result)
    ensures Reports(result, reply)
  {
    if reply.ptype == RESP_NACK then Nack else Reply(reply.payload)
  }

  /** One look into the map, under its lock. */
  function OnPoll(s: Link, c: nat): Link {
    if !InPhase(s, c, Waiting) || s.calls[c].request.id !in s.responses then s else
      var id := s.calls[c].request.id;
      var reply := s.responses[id];
      SetPhase(s, c, Done(ResultOf(reply.packet)))
        .(responses := s.responses - {id}, taken := s.taken + [Taken(c, reply)])
  }

  function OnExpire(s: Link, c: nat): Link {
    if InPhase(s, c, Waiting) then SetPhase(s, c, Done(Timeout)) else s
  }

  // ----------------------------------------------------- the device's steps

  /** Whether the command table has a handler for the packet that replies. */
  predicate Replies(ptype: byte) {
    ptype in CMD_TABLE && ptype != RESET
  }

  predicate IsQuery(ptype: byte) {
    ptype == 0x02 || ptype == 0x04 || ptype == 0x06
  }

  /** The one reply of a handler, with the request's id: a NACK, an ACK, or the data of a query. */
  function ReplyTo(request: Packet, ok: bool, data: seq<byte>): Option<Packet> {
    if !Replies(request.ptype) then None
    else if !ok then Some(Packet(RESP_NACK, request.id, []))
    else if !IsQuery(request.ptype) then Some(Packet(RESP_ACK, request.id, []))
    else if |data| > MAX_PAYLOAD then None
    else Some(Packet(request.ptype, request.id, data))
  }

  /** The message queue takes four packets. */
  function OnArrive(s: Link): Link {
    if s.toDevice == [] then s else
      s.(toDevice := s.toDevice[1..],
         queue := if |s.queue| < Uart.QUEUE_DEPTH then s.queue + [s.toDevice[0]] else s.queue)
  }

  /** The worker runs one command; a reset loses what is queued. */
  function OnExecute(s: Link, ok: bool, data: seq<byte>): Link {
    if s.queue == [] then s else
      var f := s.queue[0];
      var reply := ReplyTo(f.packet, ok, data);
      s.(queue := if f.packet.ptype == RESET then [] else s.queue[1..],
         executed := s.executed + [Execution(f.call, f.packet, reply)],
         toHost := s.toHost + if reply.Some? then [Flight(f.call, reply.value)] else [])
  }

  function OnDebug(s: Link, text: seq<byte>): Link {
    s.(toHost := s.toHost + [Flight(0, Packet(DEBUG_MSG, 0, text))])
  }

  function Step(s: Link, e: Event): Link {
    match e
    case Begin(cmd, payload, waits) => OnBegin(s, cmd, payload, waits)
    case Write(c) => OnWrite(s, c)
    case WriteFails(c, delivered) => OnWriteFails(s, c, delivered)
    case LoseRequest(i) => s.(toDevice := Without(s.toDevice, i))
    case Arrive => OnArrive(s)
    case Execute(ok, data) => OnExecute(s, ok, data)
    case Debug(text) => OnDebug(s, text)
    case LoseReply(i) => s.(toHost := Without(s.toHost, i))
    case Read => OnRead(s)
    case Poll(c) => OnPoll(s, c)
    case Expire(c) => OnExpire(s, c)
    case Close => s.(isOpen := false, responses := map[])
  }

  function Run(s: Link, events: seq<Event>): Link
    decreases |events|
  {
    if events == [] then s else Run(Step(s, events[0]), events[1..])
  }

  // ---------------------------------------------------------- bookkeeping

  predicate RunsOnce(executed: seq<Execution>) {
    forall i, j :: 0 <= i < j < |executed| ==> executed[i].call != executed[j].call
  }

  predicate Ran(s: Link, c: nat) {
    exists k :: 0 <= k < |s.executed| && s.executed[k].call == c
  }

  /** A request on its way to the worker is its call's request, written and not yet run. */
  predicate RequestFits(s: Link, f: Flight) {
    f.call < |s.calls| && s.calls[f.call].request == f.packet && s.calls[f.call].phase != Allocated && !Ran(s, f.call)
  }

  predicate RequestsFit(s: Link, fs: seq<Flight>) {
    (forall i :: 0 <= i < |fs| ==> RequestFits(s, fs[i])) &&
    (forall i, j :: 0 <= i < j < |fs| ==> fs[i].call != fs[j].call)
  }

  /** A command that ran was its call's request, and the reply carries the request's id. */
  predicate ExecutionFits(s: Link, x: Execution) {
    x.call < |s.calls| && s.calls[x.call].request == x.request && s.calls[x.call].phase != Allocated &&
    (x.reply.Some? ==> x.reply.value.id == x.request.id)
  }

  /** Every request is in one place at most, and every command runs at most once. */
  predicate Requests(s: Link) {
    RequestsFit(s, s.queue + s.toDevice) &&
    RunsOnce(s.executed) &&
    (forall k :: 0 <= k < |s.executed| ==> ExecutionFits(s, s.executed[k]))
  }

  lemma WithoutIndex<T>(s: seq<T>, i: nat)
    requires i < |s|
    ensures |Without(s, i)| == |s| - 1
    ensures forall k :: 0 <= k < |Without(s, i)| ==> Without(s, i)[k] == s[if k < i then k else k + 1]
  {
  }

  /** The reply is the one that the worker sent when it ran that call's command. */
  predicate Produced(s: Link, f: Flight) {
    exists k :: 0 <= k < |s.executed| && s.executed[k].call == f.call && s.executed[k].reply == Some(f.packet)
  }

  /** Every reply is in one place at most: in the pipe, in the map under its id, or taken. */
  predicate Answers(s: Link) {
    (forall i :: 0 <= i < |s.toHost| && IsReply(s.toHost[i]) ==> Produced(s, s.toHost[i])) &&
    (forall id :: id in s.responses ==> Produced(s, s.responses[id]) && s.responses[id].packet.id == id) &&
    (forall k :: 0 <= k < |s.taken| ==> Produced(s, s.taken[k].reply))
  }

  predicate OnePlace(s: Link) {
    (forall i, j :: 0 <= i < j < |s.toHost| && IsReply(s.toHost[i]) && IsReply(s.toHost[j]) ==>
      s.toHost[i].call != s.toHost[j].call) &&
    (forall i, id :: 0 <= i < |s.toHost| && IsReply(s.toHost[i]) && id in s.responses ==>
      s.toHost[i].call != s.responses[id].call) &&
    (forall i, k :: 0 <= i < |s.toHost| && IsReply(s.toHost[i]) && 0 <= k < |s.taken| ==>
      s.toHost[i].call != s.taken[k].reply.call) &&
    (forall id, k :: id in s.responses && 0 <= k < |s.taken| ==> s.responses[id].call != s.taken[k].reply.call) &&
    TakenOnce(s.taken)
  }

  predicate TakenOnce(taken: seq<Taken>) {
    forall i, j :: 0 <= i < j < |taken| ==> taken[i].reply.call != taken[j].reply.call
  }

  /** A finished `transact` returned what it took from the map. */
  predicate Honest(s: Link) {
    forall c :: 0 <= c < |s.calls| && Answered(s.calls[c]) ==> TookFor(s, c, s.calls[c].phase.result)
  }

  predicate Answered(call: Call) {
    call.phase.Done? && (call.phase.result.Reply? || call.phase.result.Nack?)
  }

  predicate TookFor(s: Link, c: nat, result: Result) {
    exists k :: 0 <= k < |s.taken| && s.taken[k].caller == c && Reports(result, s.taken[k].reply.packet)
  }

  predicate Ledger(s: Link) {
    Requests(s) && Answers(s) && OnePlace(s) && Honest(s)
  }

  /** What no step undoes: calls keep their requests and stay written, and the records only grow. */
  predicate Extends(s: Link, t: Link) {
    |s.calls| <= |t.calls| && s.executed <= t.executed && s.taken <= t.taken &&
    (forall c :: 0 <= c < |s.calls| ==> Advanced(s.calls[c], t.calls[c]))
  }

  predicate Advanced(before: Call, after: Call) {
    after.request == before.request && (before.phase != Allocated ==> after.phase != Allocated) &&
    (before.phase.Done? ==> after.phase == before.phase)
  }

  lemma StepExtends(s: Link, e: Event)
    ensures Extends(s, Step(s, e))
  {
  }

  lemma ProducedLater(s: Link, t: Link, f: Flight)
    requires Extends(s, t) && Produced(s, f)
    ensures Produced(t, f)
  {
    var k :| 0 <= k < |s.executed| && s.executed[k].call == f.call && s.executed[k].reply == Some(f.packet);
    assert t.executed[k] == s.executed[k];
  }

  // ----------------------------------------------------- the request side

  lemma FitLater(s: Link, t: Link, fs: seq<Flight>)
    requires RequestsFit(s, fs) && Extends(s, t) && t.executed == s.executed
    ensures RequestsFit(t, fs)
  {
    forall i | 0 <= i < |fs| ensures RequestFits(t, fs[i]) {
      assert RequestFits(s, fs[i]);
    }
  }

  lemma FitWithout(s: Link, fs: seq<Flight>, i: nat)
    requires RequestsFit(s, fs) && i < |fs|
    ensures RequestsFit(s, Without(fs, i))
  {
    WithoutIndex(fs, i);
  }

  lemma FitSuffix(s: Link, fs: seq<Flight>, n: nat)
    requires RequestsFit(s, fs) && n <= |fs|
    ensures RequestsFit(s, fs[n..])
  {
    assert forall i :: 0 <= i < |fs| - n ==> fs[n..][i] == fs[i + n];
  }

  lemma FitAppend(s: Link, fs: seq<Flight>, f: Flight)
    requires RequestsFit(s, fs) && RequestFits(s, f) && forall i :: 0 <= i < |fs| ==> fs[i].call != f.call
    ensures RequestsFit(s, fs + [f])
  {
  }

  /** Running the first request removes it from the pipe for good. */
  lemma FitRun(s: Link, t: Link, fs: seq<Flight>, reply: Option<Packet>)
    requires fs != [] && RequestsFit(s, fs) && t.calls == s.calls
    requires t.executed == s.executed + [Execution(fs[0].call, fs[0].packet, reply)]
    ensures RequestsFit(t, fs[1..])
  {
    forall i | 0 <= i < |fs| - 1 ensures RequestFits(t, fs[1..][i]) {
      assert RequestFits(s, fs[i + 1]) && fs[0].call != fs[i + 1].call;
      assert !Ran(t, fs[i + 1].call);
    }
  }

  lemma ExecutionsLater(s: Link, t: Link)
    requires Requests(s) && Extends(s, t) && t.executed == s.executed
    ensures RunsOnce(t.executed) && forall k :: 0 <= k < |t.executed| ==> ExecutionFits(t, t.executed[k])
  {
    forall k | 0 <= k < |t.executed| ensures ExecutionFits(t, t.executed[k]) {
      assert ExecutionFits(s, s.executed[k]);
    }
  }

  lemma RequestsWrite(s: Link, t: Link, c: nat)
    requires Requests(s) && InPhase(s, c, Allocated) && Extends(s, t) && t.executed == s.executed
    requires t.queue == s.queue && t.toDevice == s.toDevice + [Flight(c, s.calls[c].request)]
    requires t.calls[c].phase != Allocated
    ensures Requests(t)
  {
    var fs := s.queue + s.toDevice;
    ExecutionsLater(s, t);
    FitLater(s, t, fs);
    assert forall i :: 0 <= i < |fs| ==> RequestFits(s, fs[i]);
    assert !Ran(t, c) by {
      assert forall k :: 0 <= k < |s.executed| ==> ExecutionFits(s, s.executed[k]);
    }
    FitAppend(t, fs, Flight(c, s.calls[c].request));
    assert t.queue + t.toDevice == fs + [Flight(c, s.calls[c].request)];
  }

  lemma RequestsExecute(s: Link, ok: bool, data: seq<byte>)
    requires Requests(s)
    ensures Requests(OnExecute(s, ok, data))
  {
    if s.queue == [] {
      return;
    }
    var t, fs, f := OnExecute(s, ok, data), s.queue + s.toDevice, s.queue[0];
    assert fs[0] == f && RequestFits(s, fs[0]);
    FitRun(s, t, fs, ReplyTo(f.packet, ok, data));
    if f.packet.ptype == RESET {
      FitSuffix(t, fs[1..], |s.queue| - 1);
      assert t.queue + t.toDevice == fs[1..][|s.queue| - 1..];
    } else {
      assert t.queue + t.toDevice == fs[1..];
    }
    forall k | 0 <= k < |t.executed| ensures ExecutionFits(t, t.executed[k]) {
      assert k < |s.executed| ==> ExecutionFits(s, s.executed[k]);
    }
  }

  /** A step that runs nothing keeps the books when the pipe is a fitting one. */
  lemma RequestsQuiet(s: Link, t: Link)
    requires Requests(s) && Extends(s, t) && t.executed == s.executed
    requires t.queue + t.toDevice == s.queue + s.toDevice || RequestsFit(t, t.queue + t.toDevice)
    ensures Requests(t)
  {
    ExecutionsLater(s, t);
    if t.queue + t.toDevice == s.queue + s.toDevice {
      FitLater(s, t, s.queue + s.toDevice);
    }
  }

  lemma RequestsLose(s: Link, t: Link, i: nat)
    requires Requests(s) && Extends(s, t) && t.executed == s.executed && i < |s.queue + s.toDevice|
    requires t.queue + t.toDevice == Without(s.queue + s.toDevice, i)
    ensures Requests(t)
  {
    FitLater(s, t, s.queue + s.toDevice);
    FitWithout(t, s.queue + s.toDevice, i);
    RequestsQuiet(s, t);
  }

  lemma WithoutLater<T>(p: seq<T>, s: seq<T>, i: nat)
    requires i < |s|
    ensures p + Without(s, i) == Without(p + s, |p| + i)
  {
  }

  lemma RequestsArrive(s: Link)
    requires Requests(s)
    ensures Requests(OnArrive(s))
  {
    var t, fs := OnArrive(s), s.queue + s.toDevice;
    if s.toDevice == [] {
    } else if |s.queue| < Uart.QUEUE_DEPTH {
      assert t.queue + t.toDevice == fs;
      RequestsQuiet(s, t);
    } else {
      assert t.queue + t.toDevice == Without(fs, |s.queue|);
      RequestsLose(s, t, |s.queue|);
    }
  }

  lemma RequestsOnWrite(s: Link, c: nat)
    requires Requests(s)
    ensures Requests(OnWrite(s, c))
  {
    StepExtends(s, Write(c));
    if InPhase(s, c, Allocated) && s.isOpen {
      RequestsWrite(s, OnWrite(s, c), c);
    } else {
      RequestsQuiet(s, OnWrite(s, c));
    }
  }

  lemma RequestsOnWriteFails(s: Link, c: nat, delivered: bool)
    requires Requests(s)
    ensures Requests(OnWriteFails(s, c, delivered))
  {
    StepExtends(s, WriteFails(c, delivered));
    if InPhase(s, c, Allocated) && s.isOpen && delivered {
      RequestsWrite(s, OnWriteFails(s, c, delivered), c);
    } else {
      assert s.toDevice + [] == s.toDevice;
      RequestsQuiet(s, OnWriteFails(s, c, delivered));
    }
  }

  lemma RequestsOnLose(s: Link, i: nat)
    requires Requests(s)
    ensures Requests(s.(toDevice := Without(s.toDevice, i)))
  {
    var t := s.(toDevice := Without(s.toDevice, i));
    StepExtends(s, LoseRequest(i));
    assert Step(s, LoseRequest(i)) == t;
    hide Step;
    hide Requests;
    hide Extends;
    if i < |s.toDevice| {
      WithoutLater(s.queue, s.toDevice, i);
      RequestsLose(s, t, |s.queue| + i);
    } else {
      assert t == s;
    }
  }

  predicate TouchesRequests(e: Event) {
    e.Execute? || e.Arrive? || e.LoseRequest? || e.Write? || e.WriteFails?
  }

  lemma StepAside(s: Link, e: Event)
    requires !TouchesRequests(e)
    ensures var t := Step(s, e);
            t.executed == s.executed && t.queue == s.queue && t.toDevice == s.toDevice
  {
  }

  lemma RequestsStep(s: Link, e: Event)
    requires Requests(s)
    ensures Requests(Step(s, e))
  {
    hide Requests;
    hide Extends;
    if TouchesRequests(e) {
      hide OnExecute;
      hide OnArrive;
      hide OnWrite;
      hide OnWriteFails;
      match e
      case Execute(ok, data) => RequestsExecute(s, ok, data);
      case LoseRequest(i) => RequestsOnLose(s, i);
      case Arrive => RequestsArrive(s);
      case Write(c) => RequestsOnWrite(s, c);
      case WriteFails(c, delivered) => RequestsOnWriteFails(s, c, delivered);
    } else {
      hide Step;
      StepExtends(s, e);
      StepAside(s, e);
      RequestsQuiet(s, Step(s, e));
    }
  }

  // ------------------------------------------------------- the reply side

  lemma AnswersStep(s: Link, e: Event)
    requires Requests(s) && Answers(s)
    ensures Answers(Step(s, e))
  {
    hide Requests;
    hide Extends;
    hide Produced;
    StepExtends(s, e);
    var t := Step(s, e);
    forall f: Flight | Produced(s, f) ensures Produced(t, f) {
      ProducedLater(s, t, f);
    }
    if e.Execute? {
      if s.queue != [] {
        ExecuteProduces(s, e.ok, e.data);
      }
    } else if e.LoseReply? {
      if e.i < |s.toHost| {
        WithoutIndex(s.toHost, e.i);
      }
    } else if e.Poll? || e.Read? || e.Debug? {
    } else {
      SidesStay(s, e);
      hide Step;
    }
  }

  lemma SidesStay(s: Link, e: Event)
    requires !e.Execute? && !e.LoseReply? && !e.Poll? && !e.Read? && !e.Debug?
    ensures var t := Step(s, e);
            t.toHost == s.toHost && t.taken == s.taken && (t.responses == s.responses || t.responses == map[])
  {
  }

  lemma ExecuteProduces(s: Link, ok: bool, data: seq<byte>)
    requires s.queue != []
    ensures var t := OnExecute(s, ok, data);
            var reply := ReplyTo(s.queue[0].packet, ok, data);
            reply.Some? ==> Produced(t, Flight(s.queue[0].call, reply.value))
  {
    var t := OnExecute(s, ok, data);
    assert t.executed[|s.executed|].call == s.queue[0].call;
  }

  lemma ProducedIds(s: Link, f: Flight)
    requires Requests(s) && Produced(s, f)
    ensures Ran(s, f.call) && f.call < |s.calls| && f.packet.id == s.calls[f.call].request.id
  {
    var k :| 0 <= k < |s.executed| && s.executed[k].call == f.call && s.executed[k].reply == Some(f.packet);
    assert ExecutionFits(s, s.executed[k]);
  }

  /** The facts about replies that keep them apart. */
  lemma Apart(s: Link)
    requires Requests(s) && Answers(s)
    ensures forall i :: 0 <= i < |s.toHost| && IsReply(s.toHost[i]) ==> Ran(s, s.toHost[i].call)
    ensures forall id :: id in s.responses ==> Ran(s, s.responses[id].call)
    ensures forall id, other :: id in s.responses && other in s.responses && id != other ==>
      s.responses[id].call != s.responses[other].call
    ensures forall k :: 0 <= k < |s.taken| ==> Ran(s, s.taken[k].reply.call)
    ensures s.queue != [] ==> !Ran(s, s.queue[0].call)
  {
    assert s.queue != [] ==> RequestFits(s, (s.queue + s.toDevice)[0]);
    hide Requests;
    hide Produced;
    hide Ran;
    forall f: Flight | Produced(s, f)
      ensures Ran(s, f.call) && f.call < |s.calls| && f.packet.id == s.calls[f.call].request.id
    {
      ProducedIds(s, f);
    }
  }

  lemma OnePlaceLose(s: Link, i: nat)
    requires OnePlace(s)
    ensures OnePlace(s.(toHost := Without(s.toHost, i)))
  {
    if i < |s.toHost| {
      WithoutIndex(s.toHost, i);
    }
    hide Without;
  }

  lemma OnePlaceDebug(s: Link, text: seq<byte>)
    requires OnePlace(s)
    ensures OnePlace(OnDebug(s, text))
  {
  }

  lemma OnePlaceClose(s: Link)
    requires OnePlace(s)
    ensures OnePlace(s.(isOpen := false, responses := map[]))
  {
  }

  lemma OnePlaceRead(s: Link)
    requires OnePlace(s)
    ensures OnePlace(OnRead(s))
  {
  }

  lemma OnePlaceExecute(s: Link, ok: bool, data: seq<byte>)
    requires Requests(s) && Answers(s) && OnePlace(s)
    ensures OnePlace(OnExecute(s, ok, data))
  {
    Apart(s);
    hide Requests;
    hide Answers;
    hide Ran;
    hide ReplyTo;
  }

  lemma OnePlaceTake(s: Link, t: Link, id: word16, c: nat)
    requires OnePlace(s) && id in s.responses
    requires forall other :: other in s.responses && other != id ==> s.responses[other].call != s.responses[id].call
    requires t.toHost == s.toHost && t.responses == s.responses - {id}
    requires t.taken == s.taken + [Taken(c, s.responses[id])]
    ensures OnePlace(t)
  {
  }

  lemma OnePlacePoll(s: Link, c: nat)
    requires Requests(s) && Answers(s) && OnePlace(s)
    ensures OnePlace(OnPoll(s, c))
  {
    hide OnePlace;
    if InPhase(s, c, Waiting) && s.calls[c].request.id in s.responses {
      var id := s.calls[c].request.id;
      Apart(s);
      hide Requests;
      hide Answers;
      OnePlaceTake(s, OnPoll(s, c), id, c);
    }
  }

  lemma OnePlaceStep(s: Link, e: Event)
    requires Requests(s) && Answers(s) && OnePlace(s)
    ensures OnePlace(Step(s, e))
  {
    hide Requests;
    hide Answers;
    hide OnePlace;
    hide OnExecute;
    hide OnPoll;
    hide OnRead;
    match e
    case Execute(ok, data) =>
      OnePlaceExecute(s, ok, data);
    case LoseReply(i) =>
      OnePlaceLose(s, i);
    case Read =>
      OnePlaceRead(s);
    case Poll(c) =>
      OnePlacePoll(s, c);
    case Debug(text) =>
      OnePlaceDebug(s, text);
    case Close =>
      OnePlaceClose(s);
    case _ =>
      SamePlaces(s, Step(s, e));
  }

  lemma SamePlaces(s: Link, t: Link)
    requires OnePlace(s) && t.toHost == s.toHost && t.responses == s.responses && t.taken == s.taken
    ensures OnePlace(t)
  {
  }

  lemma HonestStep(s: Link, e: Event)
    requires Honest(s)
    ensures Honest(Step(s, e))
  {
    var t := Step(s, e);
    StepExtends(s, e);
    forall c | 0 <= c < |t.calls| && Answered(t.calls[c]) ensures TookFor(t, c, t.calls[c].phase.result) {
      if c < |s.calls| && Answered(s.calls[c]) {
        TookLater(s, t, c, t.calls[c].phase.result);
      } else {
        assert t.taken[|s.taken|].caller == c;
      }
    }
  }

  lemma TookLater(s: Link, t: Link, c: nat, result: Result)
    requires Extends(s, t) && TookFor(s, c, result)
    ensures TookFor(t, c, result)
  {
    var k :| 0 <= k < |s.taken| && s.taken[k].caller == c && Reports(result, s.taken[k].reply.packet);
    assert t.taken[k] == s.taken[k];
  }

  // ----------------------------------------------------------- whole runs

  lemma LedgerStep(s: Link, e: Event)
    requires Ledger(s)
    ensures Ledger(Step(s, e))
  {
    hide Step;
    hide Requests;
    hide Answers;
    hide OnePlace;
    hide Honest;
    RequestsStep(s, e);
    AnswersStep(s, e);
    OnePlaceStep(s, e);
    HonestStep(s, e);
  }

  lemma {:induction false} LedgerRun(s: Link, events: seq<Event>)
    requires Ledger(s)
    ensures Ledger(Run(s, events))
    decreases |events|
  {
    hide Ledger;
    hide Step;
    if events != [] {
      LedgerStep(s, events[0]);
      LedgerRun(Step(s, events[0]), events[1..]);
    }
  }

  lemma StartLedger()
    ensures Ledger(START)
  {
  }

  /** In every run, whatever is lost and however the threads interleave, and even when ids are reused: each
      command runs at most once, no reply is consumed twice, and every reply that a caller consumed is the
      one that the device sent when it ran the request of some call with the same id. */
  lemma EveryRun(events: seq<Event>)
    ensures var s := Run(START, events);
            RunsOnce(s.executed) && TakenOnce(s.taken) &&
            forall k :: 0 <= k < |s.taken| ==> Produced(s, s.taken[k].reply)
  {
    StartLedger();
    LedgerRun(START, events);
  }

  // ------------------------------------------------- who can meet whose reply

  /** The call waits for a reply under its id, or still can. */
  predicate MayWait(s: Link, c: nat) {
    c < |s.calls| &&
    (s.calls[c].phase == Waiting || (s.calls[c].phase == Allocated && s.calls[c].waits && s.isOpen))
  }

  /** The call's request can still be written, and it is one that is replied to. */
  predicate MaySend(s: Link, c: nat) {
    InPhase(s, c, Allocated) && s.isOpen && Replies(s.calls[c].request.ptype)
  }

  predicate NoReset(fs: seq<Flight>) {
    forall i :: 0 <= i < |fs| ==> fs[i].packet.ptype != RESET
  }

  /** The worker reaches the request: no reset is queued ahead of it. */
  predicate Reached(queue: seq<Flight>, f: Flight) {
    exists j :: 0 <= j < |queue| && queue[j] == f && NoReset(queue[..j])
  }

  /** A reply, or a request that can still be replied to. */
  predicate Source(s: Link, f: Flight) {
    (MaySend(s, f.call) && f.packet == s.calls[f.call].request) ||
    (f in s.toDevice && Replies(f.packet.ptype)) ||
    (Reached(s.queue, f) && Replies(f.packet.ptype)) ||
    (f in s.toHost && IsReply(f)) ||
    f in s.responses.Values
  }

  /** What can be replied to under the id of a waiting call is that call's own. */
  ghost predicate Exclusive(s: Link) {
    forall f, c: nat :: Source(s, f) && MayWait(s, c) && s.calls[c].request.id == f.packet.id ==> f.call == c
  }

  /** The next id is not free for such a call: the port is open, and somebody else's reply can still come
      under it to a caller that waits, or somebody else waits under it for a reply that can come. */
  ghost predicate Clash(s: Link, cmd: byte, waits: bool) {
    s.isOpen &&
    ((waits && exists f :: Source(s, f) && f.packet.id == s.nextId) ||
     (Replies(cmd) && exists c: nat :: MayWait(s, c) && s.calls[c].request.id == s.nextId))
  }

  /** The event begins a call that is not refused for its size, and so takes an id. */
  predicate TakesId(e: Event) {
    e.Begin? && |e.payload| <= MAX_PAYLOAD
  }

  /** No call begins with an id that clashes. */
  ghost predicate Guarded(s: Link, events: seq<Event>)
    decreases |events|
  {
    events != [] ==>
      (TakesId(events[0]) ==> !Clash(s, events[0].cmd, events[0].waits)) && Guarded(Step(s, events[0]), events[1..])
  }

  /** Every consumed reply went to the caller whose request it answers. */
  predicate OwnReplies(s: Link) {
    forall k :: 0 <= k < |s.taken| ==> s.taken[k].caller == s.taken[k].reply.call
  }

  lemma MayWaitBefore(s: Link, e: Event, c: nat)
    requires !e.Begin? && MayWait(Step(s, e), c)
    ensures MayWait(s, c) && Step(s, e).calls[c].request == s.calls[c].request
  {
    StepExtends(s, e);
    assert |Step(s, e).calls| == |s.calls|;
    assert Advanced(s.calls[c], Step(s, e).calls[c]);
    hide Extends;
  }

  lemma NoResetLater(queue: seq<Flight>, f: Flight)
    requires queue != [] && queue[0].packet.ptype != RESET && Reached(queue[1..], f)
    ensures Reached(queue, f)
  {
    var j :| 0 <= j < |queue| - 1 && queue[1..][j] == f && NoReset(queue[1..][..j]);
    assert forall i :: 1 <= i <= j ==> queue[i] == queue[1..][..j][i - 1];
    assert queue[j + 1] == f && NoReset(queue[..j + 1]);
  }

  lemma ReachedOrLast(queue: seq<Flight>, g: Flight, f: Flight)
    requires Reached(queue + [g], f)
    ensures Reached(queue, f) || f == g
  {
    var j :| 0 <= j < |queue + [g]| && (queue + [g])[j] == f && NoReset((queue + [g])[..j]);
    if j < |queue| {
      assert (queue + [g])[..j] == queue[..j];
    }
  }

  lemma ReachedFirst(queue: seq<Flight>)
    requires queue != []
    ensures Reached(queue, queue[0])
  {
    assert NoReset(queue[..0]);
  }

  /** Whatever can be replied to after a step comes from something of the same call before it. */
  lemma SourceBefore(s: Link, e: Event, f: Flight) returns (g: Flight)
    requires !e.Begin? && Source(Step(s, e), f)
    ensures Source(s, g) && g.call == f.call && g.packet.id == f.packet.id
  {
    hide Reached;
    g := f;
    match e
    case Execute(ok, data) =>
      if s.queue != [] {
        ReachedFirst(s.queue);
        var reply := ReplyTo(s.queue[0].packet, ok, data);
        if reply.Some? && f == Flight(s.queue[0].call, reply.value) {
          g := s.queue[0];
        } else if s.queue[0].packet.ptype == RESET {
          NothingReached(f);
        } else if Reached(s.queue[1..], f) {
          NoResetLater(s.queue, f);
        }
      }
    case Arrive =>
      if s.toDevice != [] && |s.queue| < Uart.QUEUE_DEPTH && Reached(s.queue + [s.toDevice[0]], f) {
        ReachedOrLast(s.queue, s.toDevice[0], f);
      }
    case _ =>
  }

  lemma NothingReached(f: Flight)
    ensures !Reached([], f)
  {
  }

  lemma ExclusiveLater(s: Link, e: Event)
    requires Exclusive(s) && !e.Begin?
    ensures Exclusive(Step(s, e))
  {
    var t := Step(s, e);
    forall f, c: nat | Source(t, f) && MayWait(t, c) && t.calls[c].request.id == f.packet.id ensures f.call == c {
      MayWaitBefore(s, e, c);
      var g := SourceBefore(s, e, f);
    }
  }

  lemma ExclusiveBegin(s: Link, cmd: byte, payload: seq<byte>, waits: bool)
    requires Requests(s) && Answers(s) && Exclusive(s) && !Clash(s, cmd, waits)
    ensures Exclusive(OnBegin(s, cmd, payload, waits))
  {
    var t, n := OnBegin(s, cmd, payload, waits), |s.calls|;
    forall f, c: nat | Source(t, f) && MayWait(t, c) && t.calls[c].request.id == f.packet.id ensures f.call == c {
      SourceOfBegin(s, cmd, payload, waits, f);
      hide Source;
      assert c < n ==> MayWait(s, c);
    }
  }

  lemma SourceOfBegin(s: Link, cmd: byte, payload: seq<byte>, waits: bool, f: Flight)
    requires Source(OnBegin(s, cmd, payload, waits), f)
    ensures Source(s, f) || (f == Flight(|s.calls|, Packet(cmd, s.nextId, payload)) && s.isOpen && Replies(cmd))
  {
  }

  lemma ExclusiveStep(s: Link, e: Event)
    requires Requests(s) && Answers(s) && Exclusive(s) && (TakesId(e) ==> !Clash(s, e.cmd, e.waits))
    ensures Exclusive(Step(s, e))
  {
    hide Exclusive;
    hide Clash;
    if TakesId(e) {
      hide OnBegin;
      ExclusiveBegin(s, e.cmd, e.payload, e.waits);
    } else if !e.Begin? {
      ExclusiveLater(s, e);
    }
  }

  lemma OwnRepliesStep(s: Link, e: Event)
    requires Answers(s) && Exclusive(s) && OwnReplies(s)
    ensures OwnReplies(Step(s, e))
  {
    if e.Poll? && InPhase(s, e.c, Waiting) && s.calls[e.c].request.id in s.responses {
      var reply := s.responses[s.calls[e.c].request.id];
      assert Source(s, reply) && MayWait(s, e.c);
    }
  }

  lemma LedgerParts(s: Link)
    requires Ledger(s)
    ensures Requests(s) && Answers(s)
  {
  }

  lemma {:induction false} OwnRun(s: Link, events: seq<Event>)
    requires Ledger(s) && Exclusive(s) && OwnReplies(s) && Guarded(s, events)
    ensures OwnReplies(Run(s, events))
    decreases |events|
  {
    hide Ledger;
    hide Exclusive;
    hide OwnReplies;
    hide Step;
    hide Clash;
    hide Requests;
    hide Answers;
    if events != [] {
      LedgerParts(s);
      LedgerStep(s, events[0]);
      ExclusiveStep(s, events[0]);
      OwnRepliesStep(s, events[0]);
      OwnRun(Step(s, events[0]), events[1..]);
    }
  }

  /** The device ran the call's own request and its reply was `q`. */
  predicate DeviceAnswered(s: Link, c: nat, q: Packet) {
    c < |s.calls| &&
    exists k :: 0 <= k < |s.executed| && s.executed[k] == Execution(c, s.calls[c].request, Some(q))
  }

  /** When no id is reused too early, a `transact` that returns a payload or a NACK returns what the device
      replied when it ran that very request. */
  lemma TransactReturnsItsReply(events: seq<Event>, c: nat)
    requires Guarded(START, events)
    requires c < |Run(START, events).calls| && Answered(Run(START, events).calls[c])
    ensures var s := Run(START, events);
            exists q :: DeviceAnswered(s, c, q) && Reports(s.calls[c].phase.result, q)
  {
    StartLedger();
    LedgerRun(START, events);
    OwnRun(START, events);
    hide Run;
    hide Guarded;
    var s := Run(START, events);
    assert TookFor(s, c, s.calls[c].phase.result);
    var k :| 0 <= k < |s.taken| && s.taken[k].caller == c &&
      Reports(s.calls[c].phase.result, s.taken[k].reply.packet);
    var f := s.taken[k].reply;
    assert Produced(s, f);
    var j :| 0 <= j < |s.executed| && s.executed[j].call == f.call && s.executed[j].reply == Some(f.packet);
    assert ExecutionFits(s, s.executed[j]);
    assert s.executed[j] == Execution(c, s.calls[c].request, Some(f.packet));
    assert DeviceAnswered(s, c, f.packet);
  }

  // ---------------------------------------- what a caller can see beforehand

  predicate Numbered(s: Link) {
    s.nextId == (1 + |s.calls|) % 0x1_0000 &&
    forall c :: 0 <= c < |s.calls| ==> s.calls[c].request.id == (1 + c) % 0x1_0000
  }

  lemma NumberedStep(s: Link, e: Event)
    requires Numbered(s)
    ensures Numbered(Step(s, e))
  {
    StepExtends(s, e);
    var t := Step(s, e);
    if e.Begin? {
    } else {
      assert |t.calls| == |s.calls| && t.nextId == s.nextId;
      hide Step;
      forall c | 0 <= c < |t.calls| ensures t.calls[c].request.id == (1 + c) % 0x1_0000 {
        assert Advanced(s.calls[c], t.calls[c]);
      }
    }
  }

  /** Everything on its way belongs to an earlier call and carries that call's id. */
  lemma SourceIds(s: Link, f: Flight)
    requires Requests(s) && Answers(s) && Source(s, f)
    ensures f.call < |s.calls| && f.packet.id == s.calls[f.call].request.id
  {
    var fs := s.queue + s.toDevice;
    if f in s.queue || f in s.toDevice {
      assert f in fs;
      var i :| 0 <= i < |fs| && fs[i] == f;
      assert RequestFits(s, fs[i]);
    } else if !MaySend(s, f.call) || f.packet != s.calls[f.call].request {
      ProducedIds(s, f);
    }
  }

  /** No earlier call with the next id is without its answer. */
  predicate IdsAnswered(s: Link) {
    forall c :: 0 <= c < |s.calls| && s.calls[c].request.id == s.nextId ==> Answered(s.calls[c])
  }

  /** A source is a request that did not run, or a reply that nobody took. */
  lemma SourceWhere(s: Link, f: Flight)
    requires Requests(s) && Source(s, f)
    ensures InPhase(s, f.call, Allocated) || !Ran(s, f.call) || Parked(s, f)
  {
    var fs := s.queue + s.toDevice;
    if f in s.queue || f in s.toDevice {
      assert f in fs;
      var i :| 0 <= i < |fs| && fs[i] == f;
      assert RequestFits(s, fs[i]);
    }
  }

  predicate Parked(s: Link, f: Flight) {
    (f in s.toHost && IsReply(f)) || f in s.responses.Values
  }

  lemma ParkedNotTaken(s: Link, f: Flight, k: nat)
    requires OnePlace(s) && Parked(s, f) && k < |s.taken|
    ensures s.taken[k].reply.call != f.call
  {
  }

  lemma AnsweredTook(s: Link, c: nat) returns (k: nat)
    requires Requests(s) && Answers(s) && Honest(s) && OwnReplies(s)
    requires c < |s.calls| && Answered(s.calls[c])
    ensures k < |s.taken| && s.taken[k].reply.call == c && Ran(s, c)
  {
    assert TookFor(s, c, s.calls[c].phase.result);
    k :| 0 <= k < |s.taken| && s.taken[k].caller == c && Reports(s.calls[c].phase.result, s.taken[k].reply.packet);
    ProducedIds(s, s.taken[k].reply);
  }

  /** What a call got cannot be replied to again. */
  lemma AnsweredIsSpent(s: Link, f: Flight)
    requires Ledger(s) && OwnReplies(s) && Source(s, f)
    ensures f.call < |s.calls| && !Answered(s.calls[f.call])
  {
    hide Source;
    hide Requests;
    hide Answers;
    hide Honest;
    hide OnePlace;
    hide OwnReplies;
    hide Ran;
    hide Parked;
    SourceIds(s, f);
    SourceWhere(s, f);
    if Answered(s.calls[f.call]) {
      var k := AnsweredTook(s, f.call);
      ParkedNotTaken(s, f, k);
    }
  }

  /** Once every earlier call with the next id has its answer, the id does not clash: a caller's own records
      decide it. */
  lemma AnsweredIdsFree(s: Link, cmd: byte, waits: bool)
    requires Ledger(s) && OwnReplies(s) && IdsAnswered(s)
    ensures !Clash(s, cmd, waits)
  {
    forall f | Source(s, f) ensures f.packet.id != s.nextId {
      SourceIds(s, f);
      AnsweredIsSpent(s, f);
    }
  }

  /** The first 65536 ids are all new. */
  lemma FewCallsFree(s: Link)
    requires Numbered(s) && |s.calls| < 0x1_0000
    ensures IdsAnswered(s)
    ensures forall c :: 0 <= c < |s.calls| ==> s.calls[c].request.id != s.nextId
  {
  }

  /** With fewer than 65536 calls begun, no id clashes, whatever is on its way. */
  lemma FewCallsNoClash(s: Link, cmd: byte, waits: bool)
    requires Requests(s) && Answers(s) && Numbered(s) && |s.calls| < 0x1_0000
    ensures !Clash(s, cmd, waits)
  {
    FewCallsFree(s);
    forall f | Source(s, f) ensures f.packet.id != s.nextId {
      SourceIds(s, f);
    }
  }

  /** No call takes an id that an earlier call without an answer had. */
  predicate Careful(s: Link, events: seq<Event>)
    decreases |events|
  {
    events != [] ==> (TakesId(events[0]) ==> IdsAnswered(s)) && Careful(Step(s, events[0]), events[1..])
  }

  lemma {:induction false} CarefulGuarded(s: Link, events: seq<Event>)
    requires Ledger(s) && Exclusive(s) && OwnReplies(s) && Careful(s, events)
    ensures Guarded(s, events)
    decreases |events|
  {
    hide Ledger;
    hide Exclusive;
    hide OwnReplies;
    hide IdsAnswered;
    hide Step;
    hide Clash;
    hide Requests;
    hide Answers;
    if events != [] {
      if TakesId(events[0]) {
        AnsweredIdsFree(s, events[0].cmd, events[0].waits);
      }
      LedgerParts(s);
      LedgerStep(s, events[0]);
      ExclusiveStep(s, events[0]);
      OwnRepliesStep(s, events[0]);
      CarefulGuarded(Step(s, events[0]), events[1..]);
    }
  }

  lemma {:induction false} CallsGrow(s: Link, events: seq<Event>)
    ensures |s.calls| <= |Run(s, events).calls|
    decreases |events|
  {
    if events != [] {
      StepExtends(s, events[0]);
      CallsGrow(Step(s, events[0]), events[1..]);
    }
  }

  lemma TakesOne(s: Link, e: Event)
    requires TakesId(e)
    ensures |Step(s, e).calls| == |s.calls| + 1
  {
  }

  lemma {:induction false} FewCallsCareful(s: Link, events: seq<Event>)
    requires Numbered(s) && |Run(s, events).calls| <= 0x1_0000
    ensures Careful(s, events)
    decreases |events|
  {
    hide Step;
    hide Numbered;
    hide IdsAnswered;
    if events != [] {
      NumberedStep(s, events[0]);
      CallsGrow(Step(s, events[0]), events[1..]);
      if TakesId(events[0]) {
        TakesOne(s, events[0]);
        FewCallsFree(s);
      }
      FewCallsCareful(Step(s, events[0]), events[1..]);
    }
  }

  /** Every run of up to 65536 calls is guarded. */
  lemma FewCallsGuarded(events: seq<Event>)
    requires |Run(START, events).calls| <= 0x1_0000
    ensures Guarded(START, events)
  {
    StartLedger();
    FewCallsCareful(START, events);
    CarefulGuarded(START, events);
  }

  /** A host that takes an id again only when every call that had it was answered gets, for every call that
      returns a payload or a NACK, the device's reply to that very request. The first 65536 calls are such. */
  lemma CarefulHostIsServed(events: seq<Event>, c: nat)
    requires Careful(START, events) || |Run(START, events).calls| <= 0x1_0000
    requires c < |Run(START, events).calls| && Answered(Run(START, events).calls[c])
    ensures var s := Run(START, events);
            exists q :: DeviceAnswered(s, c, q) && Reports(s.calls[c].phase.result, q)
  {
    StartLedger();
    if Careful(START, events) {
      CarefulGuarded(START, events);
    } else {
      FewCallsGuarded(events);
    }
    hide Run;
    hide Guarded;
    TransactReturnsItsReply(events, c);
  }

  // ------------------------------------------------------ why the ids matter

  lemma RunFirst(s: Link, e: Event, rest: seq<Event>)
    ensures Run(s, [e] + rest) == Run(Step(s, e), rest)
  {
    assert ([e] + rest)[1..] == rest;
  }

  predicate NoBegin(events: seq<Event>) {
    forall i :: 0 <= i < |events| ==> !events[i].Begin?
  }

  /** Caller `c` consumed the reply to call `d`. */
  predicate Got(s: Link, c: nat, d: nat) {
    exists k :: 0 <= k < |s.taken| && s.taken[k].caller == c && s.taken[k].reply.call == d
  }

  /** There is a continuation in which waiting caller `c` consumes the reply to `d`. */
  predicate Delivers(s: Link, events: seq<Event>, c: nat, d: nat) {
    NoBegin(events) && Got(Run(s, events), c, d)
  }

  lemma DeliversFirst(s: Link, e: Event, rest: seq<Event>, c: nat, d: nat)
    requires !e.Begin? && Delivers(Step(s, e), rest, c, d)
    ensures Delivers(s, [e] + rest, c, d)
  {
    hide Step;
    hide Got;
    RunFirst(s, e, rest);
  }

  lemma DeliverParked(s: Link, c: nat) returns (events: seq<Event>)
    requires InPhase(s, c, Waiting) && s.calls[c].request.id in s.responses
    ensures Delivers(s, events, c, s.responses[s.calls[c].request.id].call)
  {
    events := [Poll(c)] + [];
    RunFirst(s, Poll(c), []);
    var t := Step(s, Poll(c));
    assert t.taken[|s.taken|].caller == c;
  }

  lemma {:induction false} DeliverReply(s: Link, i: nat, c: nat) returns (events: seq<Event>)
    requires InPhase(s, c, Waiting) && i < |s.toHost| && IsReply(s.toHost[i])
    requires s.toHost[i].packet.id == s.calls[c].request.id
    ensures Delivers(s, events, c, s.toHost[i].call)
    decreases i
  {
    hide Delivers;
    var e := if i == 0 then Read else LoseReply(0);
    var rest;
    if i == 0 {
      rest := DeliverParked(Step(s, e), c);
    } else {
      assert Step(s, e).toHost == s.toHost[1..];
      rest := DeliverReply(Step(s, e), i - 1, c);
    }
    DeliversFirst(s, e, rest, c, s.toHost[i].call);
    events := [e] + rest;
  }

  lemma {:induction false} DeliverQueued(s: Link, j: nat, c: nat) returns (events: seq<Event>)
    requires InPhase(s, c, Waiting) && j < |s.queue| && NoReset(s.queue[..j])
    requires s.queue[j].packet.id == s.calls[c].request.id && Replies(s.queue[j].packet.ptype)
    ensures Delivers(s, events, c, s.queue[j].call)
    decreases j
  {
    hide Delivers;
    var e := Execute(false, []);
    var t := Step(s, e);
    var rest;
    if j == 0 {
      rest := DeliverReply(t, |s.toHost|, c);
    } else {
      assert s.queue[..j][0] == s.queue[0];
      assert t.queue == s.queue[1..] && t.queue[..j - 1] == s.queue[..j][1..];
      rest := DeliverQueued(t, j - 1, c);
    }
    DeliversFirst(s, e, rest, c, s.queue[j].call);
    events := [e] + rest;
  }

  lemma {:induction false} DeliverRequest(s: Link, i: nat, c: nat) returns (events: seq<Event>)
    requires InPhase(s, c, Waiting) && i < |s.toDevice| && Replies(s.toDevice[i].packet.ptype)
    requires s.toDevice[i].packet.id == s.calls[c].request.id
    ensures Delivers(s, events, c, s.toDevice[i].call)
    decreases |s.queue|, i
  {
    hide Delivers;
    var e := if s.queue != [] then Execute(false, []) else if i > 0 then LoseRequest(0) else Arrive;
    var t := Step(s, e);
    var rest;
    if s.queue != [] {
      rest := DeliverRequest(t, i, c);
    } else if i > 0 {
      assert t.toDevice == s.toDevice[1..];
      rest := DeliverRequest(t, i - 1, c);
    } else {
      assert t.queue == [s.toDevice[0]];
      rest := DeliverQueued(t, 0, c);
    }
    DeliversFirst(s, e, rest, c, s.toDevice[i].call);
    events := [e] + rest;
  }

  /** Every source of a reply under the id of a waiting caller can end up with that caller. */
  lemma Deliver(s: Link, f: Flight, c: nat) returns (events: seq<Event>)
    requires Source(s, f) && InPhase(s, c, Waiting) && f.packet.id == s.calls[c].request.id
    requires Answers(s)
    ensures Delivers(s, events, c, f.call)
  {
    hide Delivers;
    if f in s.responses.Values {
      assert s.responses[f.packet.id] == f;
      events := DeliverParked(s, c);
    } else if f in s.toHost && IsReply(f) {
      var i :| 0 <= i < |s.toHost| && s.toHost[i] == f;
      events := DeliverReply(s, i, c);
    } else if Reached(s.queue, f) && Replies(f.packet.ptype) {
      var j :| 0 <= j < |s.queue| && s.queue[j] == f && NoReset(s.queue[..j]);
      events := DeliverQueued(s, j, c);
    } else if f in s.toDevice && Replies(f.packet.ptype) {
      var i :| 0 <= i < |s.toDevice| && s.toDevice[i] == f;
      events := DeliverRequest(s, i, c);
    } else {
      var t := Step(s, Write(f.call));
      var rest := DeliverRequest(t, |s.toDevice|, c);
      DeliversFirst(s, Write(f.call), rest, c, f.call);
      events := [Write(f.call)] + rest;
    }
  }

  lemma SourceKnown(s: Link, f: Flight)
    requires Requests(s) && Answers(s) && Source(s, f)
    ensures f.call < |s.calls|
  {
    var fs := s.queue + s.toDevice;
    if f in s.queue || f in s.toDevice {
      assert f in fs;
      var i :| 0 <= i < |fs| && fs[i] == f;
      assert RequestFits(s, fs[i]);
    } else if !MaySend(s, f.call) {
      ProducedIds(s, f);
    }
  }

  lemma SourceAfterWrite(s: Link, cmd: byte, payload: seq<byte>, f: Flight)
    requires Source(s, f) && f.call < |s.calls| && s.isOpen && |payload| <= MAX_PAYLOAD
    ensures Source(Step(Step(s, Begin(cmd, payload, true)), Write(|s.calls|)), f)
  {
    hide Reached;
  }

  lemma WritesRequest(s: Link, cmd: byte, payload: seq<byte>)
    requires s.isOpen && |payload| <= MAX_PAYLOAD
    ensures var t := Step(Step(s, Begin(cmd, payload, true)), Write(|s.calls|));
            t == s.(nextId := NextId(s.nextId),
                    calls := s.calls + [Call(Packet(cmd, s.nextId, payload), true, Waiting)],
                    toDevice := s.toDevice + [Flight(|s.calls|, Packet(cmd, s.nextId, payload))])
  {
  }

  lemma RequestArrives(s: Link, cmd: byte, payload: seq<byte>)
    requires s.isOpen && s.toDevice == [] && s.queue == [] && |payload| <= MAX_PAYLOAD
    ensures var request := Packet(cmd, s.nextId, payload);
            var t := Step(Step(Step(s, Begin(cmd, payload, true)), Write(|s.calls|)), Arrive);
            t == s.(nextId := NextId(s.nextId), calls := s.calls + [Call(request, true, Waiting)],
                    queue := [Flight(|s.calls|, request)])
  {
    WritesRequest(s, cmd, payload);
    hide OnBegin;
    hide OnWrite;
    assert [Flight(|s.calls|, Packet(cmd, s.nextId, payload))][1..] == [];
  }

  lemma ReplyComesBack(s: Link, c: nat, ok: bool, data: seq<byte>)
    requires InPhase(s, c, Waiting) && s.queue == [Flight(c, s.calls[c].request)] && s.toHost == []
    requires ReplyTo(s.calls[c].request, ok, data).Some?
    ensures var t := Step(Step(Step(s, Execute(ok, data)), Read), Poll(c));
            c < |t.calls| && t.calls[c].phase.Done? &&
            Reports(t.calls[c].phase.result, ReplyTo(s.calls[c].request, ok, data).value)
  {
    var f := Flight(c, ReplyTo(s.calls[c].request, ok, data).value);
    assert f.packet.id == s.calls[c].request.id && IsReply(f);
    hide ReplyTo;
    assert Step(s, Execute(ok, data)).toHost == [f];
    assert Step(Step(s, Execute(ok, data)), Read).responses == s.responses[f.packet.id := f];
  }

  lemma NothingComesBack(s: Link, c: nat, ok: bool, data: seq<byte>)
    requires InPhase(s, c, Waiting) && s.queue == [Flight(c, s.calls[c].request)] && s.toHost == []
    requires ReplyTo(s.calls[c].request, ok, data).None? && s.calls[c].request.id !in s.responses
    ensures InPhase(Step(Step(Step(s, Execute(ok, data)), Read), Poll(c)), c, Waiting)
  {
    hide ReplyTo;
    assert Step(s, Execute(ok, data)).toHost == [];
  }

  /** Which packets the device answers, and with what: commands 1 to 8, by 0xFE when the handler fails, otherwise
      by the data under the command's own type for the three queries and by an empty 0xFF for the other five. A
      query's data has to fit in a packet. */
  lemma ReplyKinds(request: Packet, ok: bool, data: seq<byte>)
    ensures var reply, query := ReplyTo(request, ok, data), request.ptype in {2, 4, 6};
            (reply.Some? <==> 1 <= request.ptype <= 8 && (ok && query ==> |data| <= 255)) &&
            (reply.Some? ==>
               reply.value.id == request.id &&
               (reply.value.ptype == 0xFE <==> !ok) &&
               (reply.value.ptype == 0xFF <==> ok && !query) &&
               (reply.value.ptype == request.ptype <==> ok && query) &&
               reply.value.payload == if ok && query then data else [])
  {
  }

  /** The events of a call on a quiet link, from its begin to its look into the map. */
  function Exchange(c: nat, cmd: byte, payload: seq<byte>, ok: bool, data: seq<byte>): seq<Event> {
    [Begin(cmd, payload, true)] + ([Write(c)] + ([Arrive] + ([Execute(ok, data)] + ([Read] + ([Poll(c)] + [])))))
  }

  lemma ExchangeSteps(s: Link, cmd: byte, payload: seq<byte>, ok: bool, data: seq<byte>)
    requires s.isOpen && s.toDevice == [] && s.queue == [] && s.toHost == [] && |payload| <= MAX_PAYLOAD
    ensures var c, request := |s.calls|, Packet(cmd, s.nextId, payload);
            var t := s.(nextId := NextId(s.nextId), calls := s.calls + [Call(request, true, Waiting)],
                        queue := [Flight(c, request)]);
            Run(s, Exchange(c, cmd, payload, ok, data)) == Step(Step(Step(t, Execute(ok, data)), Read), Poll(c))
  {
    hide Run;
    hide Step;
    RunSix(s, Begin(cmd, payload, true), Write(|s.calls|), Arrive, Execute(ok, data), Read, Poll(|s.calls|));
    RequestArrives(s, cmd, payload);
  }

  /** On a quiet open link without losses, a call of a command from 1 to 8 ends: with a NACK exactly when its
      handler failed, otherwise with the handler's data if it is one of the three queries, and with an empty
      payload if not. */
  lemma LosslessCall(s: Link, cmd: byte, payload: seq<byte>, ok: bool, data: seq<byte>)
    requires s.isOpen && s.toDevice == [] && s.queue == [] && s.toHost == [] && |payload| <= 255
    requires 1 <= cmd <= 8 && (cmd in {2, 4, 6} ==> |data| <= 255)
    ensures var c := |s.calls|;
            var t := Run(s, Exchange(c, cmd, payload, ok, data));
            InPhase(t, c, Done(if !ok then Nack else if cmd in {2, 4, 6} then Reply(data) else Reply([])))
  {
    hide Run;
    hide Step;
    hide ReplyTo;
    hide Exchange;
    var request := Packet(cmd, s.nextId, payload);
    ExchangeSteps(s, cmd, payload, ok, data);
    ReplyKinds(request, ok, data);
    var t := s.(nextId := NextId(s.nextId), calls := s.calls + [Call(request, true, Waiting)],
                queue := [Flight(|s.calls|, request)]);
    ReplyComesBack(t, |s.calls|, ok, data);
  }

  /** A command without a handler that replies leaves its call waiting. */
  lemma UnansweredCall(s: Link, cmd: byte, payload: seq<byte>, ok: bool, data: seq<byte>)
    requires s.isOpen && s.toDevice == [] && s.queue == [] && s.toHost == [] && |payload| <= 255
    requires s.nextId !in s.responses && !(1 <= cmd <= 8)
    ensures InPhase(Run(s, Exchange(|s.calls|, cmd, payload, ok, data)), |s.calls|, Waiting)
  {
    hide Run;
    hide Step;
    hide ReplyTo;
    hide Exchange;
    var request := Packet(cmd, s.nextId, payload);
    ExchangeSteps(s, cmd, payload, ok, data);
    ReplyKinds(request, ok, data);
    var t := s.(nextId := NextId(s.nextId), calls := s.calls + [Call(request, true, Waiting)],
                queue := [Flight(|s.calls|, request)]);
    NothingComesBack(t, |s.calls|, ok, data);
  }

  /** What every step does wherever the link is: a call takes the next of 65536 ids unless its payload is over 255
      bytes; a request that arrives is queued if fewer than four are; the worker runs the first one and sends its
      reply, and a reset loses the others; and the reader files every packet but debug messages. */
  lemma StepsSpelled(s: Link, cmd: byte, payload: seq<byte>, waits: bool, ok: bool, data: seq<byte>)
    ensures Step(s, Begin(cmd, payload, waits)) ==
            if |payload| > 255 then s
            else s.(nextId := (s.nextId + 1) % 65536,
                    calls := s.calls + [Call(Packet(cmd, s.nextId, payload), waits, Allocated)])
    ensures s.toDevice != [] ==>
            Step(s, Arrive) == s.(toDevice := s.toDevice[1..],
                                  queue := s.queue + if |s.queue| < 4 then [s.toDevice[0]] else [])
    ensures s.toHost != [] ==>
            var f := s.toHost[0];
            Step(s, Read) == s.(toHost := s.toHost[1..],
                                responses := if f.packet.ptype == 0xFC then s.responses
                                             else s.responses[f.packet.id := f])
    ensures s.queue != [] ==>
            var f, t := s.queue[0], Step(s, Execute(ok, data));
            var reply := ReplyTo(f.packet, ok, data);
            t == s.(queue := if f.packet.ptype == 0xFD then [] else s.queue[1..],
                    executed := s.executed + [Execution(f.call, f.packet, reply)],
                    toHost := s.toHost + if reply.Some? then [Flight(f.call, reply.value)] else [])
  {
    hide ReplyTo;
  }

  /** A waiting call whose reply is there takes it, whatever else goes on. */
  lemma PollTakes(s: Link, c: nat)
    requires InPhase(s, c, Waiting)
    ensures var id, t := s.calls[c].request.id, Step(s, Poll(c));
            if id in s.responses then
              t.calls[c].phase.Done? && Reports(t.calls[c].phase.result, s.responses[id].packet) &&
              t.responses == s.responses - {id} && t.taken == s.taken + [Taken(c, s.responses[id])]
            else t == s
  {
  }

  /** The other ways in which a call ends: its time runs out while it waits, the port is closed when it would
      write, writing fails, or it does not wait for a reply. */
  lemma OtherEnds(s: Link, c: nat, delivered: bool)
    requires c < |s.calls|
    ensures InPhase(s, c, Waiting) ==> InPhase(Step(s, Expire(c)), c, Done(Timeout))
    ensures InPhase(s, c, Allocated) && !s.isOpen ==>
            InPhase(Step(s, Write(c)), c, Done(PortClosed)) && Step(s, Write(c)).toDevice == s.toDevice
    ensures InPhase(s, c, Allocated) && s.isOpen ==>
            InPhase(Step(s, Write(c)), c, if s.calls[c].waits then Waiting else Done(Sent)) &&
            InPhase(Step(s, WriteFails(c, delivered)), c, Done(Io)) &&
            Step(s, Write(c)).toDevice == s.toDevice + [Flight(c, s.calls[c].request)] &&
            (!delivered ==> Step(s, WriteFails(c, delivered)).toDevice == s.toDevice)
    ensures !Step(s, Close).isOpen && Step(s, Close).responses == map[] && Step(s, Close).calls == s.calls
  {
  }

  /** A clash does harm: some continuation hands a caller another call's reply. */
  lemma ClashHarms(s: Link, cmd: byte, payload: seq<byte>, waits: bool) returns (events: seq<Event>)
    requires Requests(s) && Answers(s) && Clash(s, cmd, waits) && |payload| <= MAX_PAYLOAD
    ensures NoBegin(events) && !OwnReplies(Run(s, [Begin(cmd, payload, waits)] + events))
  {
    var n, e := |s.calls|, Begin(cmd, payload, waits);
    var u := Step(s, e);
    AnswersStep(s, e);
    RequestsStep(s, e);
    var w: nat, d: nat;
    if waits && exists f :: Source(s, f) && f.packet.id == s.nextId {
      var f :| Source(s, f) && f.packet.id == s.nextId;
      SourceKnown(s, f);
      SourceAfterWrite(s, cmd, payload, f);
      AnswersStep(u, Write(n));
      var rest := Deliver(Step(u, Write(n)), f, n);
      DeliversFirst(u, Write(n), rest, n, f.call);
      w, d, events := n, f.call, [Write(n)] + rest;
    } else {
      var c: nat :| MayWait(s, c) && s.calls[c].request.id == s.nextId;
      var f := Flight(n, u.calls[n].request);
      w, d := c, n;
      if s.calls[c].phase == Waiting {
        events := Deliver(u, f, c);
      } else {
        AnswersStep(u, Write(c));
        var rest := Deliver(Step(u, Write(c)), f, c);
        DeliversFirst(u, Write(c), rest, c, n);
        events := [Write(c)] + rest;
      }
    }
    RunFirst(s, e, events);
  }

  lemma OwnWithoutBegin(s: Link, events: seq<Event>)
    requires Ledger(s) && Exclusive(s) && OwnReplies(s) && NoBegin(events)
    ensures OwnReplies(Run(s, events))
    decreases |events|
  {
    NoBeginGuarded(s, events);
    OwnRun(s, events);
  }

  lemma {:induction false} NoBeginGuarded(s: Link, events: seq<Event>)
    requires NoBegin(events)
    ensures Guarded(s, events)
    decreases |events|
  {
    if events != [] {
      NoBeginGuarded(Step(s, events[0]), events[1..]);
    }
  }

  /** Exactly when a call may begin: a clash is what makes some continuation hand a reply to the wrong
      caller, and without one no continuation does. */
  lemma ClashExact(s: Link, cmd: byte, payload: seq<byte>, waits: bool)
    requires Ledger(s) && Exclusive(s) && OwnReplies(s) && |payload| <= MAX_PAYLOAD
    ensures Clash(s, cmd, waits) <==>
            exists events :: NoBegin(events) && !OwnReplies(Run(s, [Begin(cmd, payload, waits)] + events))
  {
    var e := Begin(cmd, payload, waits);
    LedgerParts(s);
    hide Step;
    hide Requests;
    hide Answers;
    if Clash(s, cmd, waits) {
      var events := ClashHarms(s, cmd, payload, waits);
    } else {
      LedgerStep(s, e);
      ExclusiveStep(s, e);
      OwnRepliesStep(s, e);
      forall events | NoBegin(events) ensures OwnReplies(Run(s, [e] + events)) {
        RunFirst(s, e, events);
        OwnWithoutBegin(Step(s, e), events);
      }
    }
  }

  /** `k` calls that fail to write use up `k` ids. */
  function Failures(k: nat, c: nat): seq<Event> {
    if k == 0 then [] else [Begin(0x04, [], true)] + ([WriteFails(c, false)] + Failures(k - 1, c + 1))
  }

  lemma {:induction false} FailuresRun(s: Link, k: nat)
    requires s.isOpen
    ensures var t := Run(s, Failures(k, |s.calls|));
            t.isOpen && t.responses == s.responses && t.nextId == (s.nextId + k) % 0x1_0000 &&
            |t.calls| == |s.calls| + k
    decreases k
  {
    if k > 0 {
      var c := |s.calls|;
      var rest := Failures(k - 1, c + 1);
      RunFirst(s, Begin(0x04, [], true), [WriteFails(c, false)] + rest);
      var u := Step(s, Begin(0x04, [], true));
      RunFirst(u, WriteFails(c, false), rest);
      var v := Step(u, WriteFails(c, false));
      FailuresRun(v, k - 1);
    }
  }

  lemma {:induction false} RunTwice(s: Link, first: seq<Event>, second: seq<Event>)
    ensures Run(s, first + second) == Run(Run(s, first), second)
    decreases |first|
  {
    if first == [] {
      assert first + second == second;
    } else {
      assert (first + second)[1..] == first[1..] + second;
      RunTwice(Step(s, first[0]), first[1..], second);
    }
  }

  const LATE_REPLY: seq<Event> := [Begin(0x02, [], true), Write(0), Arrive, Execute(true, [1, 2]), Expire(0), Read]

  lemma LateReplySteps()
    ensures var first := Packet(0x02, 1, []);
            var s := Step(Step(Step(START, LATE_REPLY[0]), LATE_REPLY[1]), LATE_REPLY[2]);
            s.isOpen && s.nextId == 2 && s.calls == [Call(first, true, Waiting)] && s.queue == [Flight(0, first)] &&
            s.toHost == [] && s.responses == map[] && s.toDevice == []
  {
  }

  lemma LateReplyEnds(s: Link)
    requires s.isOpen && s.nextId == 2 && s.calls == [Call(Packet(0x02, 1, []), true, Waiting)]
    requires s.queue == [Flight(0, Packet(0x02, 1, []))] && s.toHost == [] && s.responses == map[]
    ensures var t := Step(Step(Step(s, LATE_REPLY[3]), LATE_REPLY[4]), LATE_REPLY[5]);
            t.isOpen && t.nextId == 2 && |t.calls| == 1 && 1 in t.responses && t.responses[1].packet.id == 1
  {
  }

  /** The first call's reply comes after it gave up, and stays in the map. */
  lemma LateReplyParked()
    ensures var s := Run(START, LATE_REPLY);
            s.isOpen && s.nextId == 2 && |s.calls| == 1 && 1 in s.responses && s.responses[1].packet.id == 1
  {
    hide Run;
    hide Step;
    var a, b, c, d, e, f := LATE_REPLY[0], LATE_REPLY[1], LATE_REPLY[2], LATE_REPLY[3], LATE_REPLY[4], LATE_REPLY[5];
    assert LATE_REPLY == [a] + ([b] + ([c] + ([d] + ([e] + ([f] + [])))));
    RunSix(START, a, b, c, d, e, f);
    LateReplySteps();
    LateReplyEnds(Step(Step(Step(START, a), b), c));
  }

  lemma RunSix(s: Link, a: Event, b: Event, c: Event, d: Event, e: Event, f: Event)
    ensures Run(s, [a] + ([b] + ([c] + ([d] + ([e] + ([f] + [])))))) ==
            Step(Step(Step(Step(Step(Step(s, a), b), c), d), e), f)
  {
    hide Step;
    RunFirst(s, a, [b] + ([c] + ([d] + ([e] + ([f] + [])))));
    var s1 := Step(s, a);
    RunFirst(s1, b, [c] + ([d] + ([e] + ([f] + []))));
    var s2 := Step(s1, b);
    RunFirst(s2, c, [d] + ([e] + ([f] + [])));
    var s3 := Step(s2, c);
    RunFirst(s3, d, [e] + ([f] + []));
    var s4 := Step(s3, d);
    RunFirst(s4, e, [f] + []);
    var s5 := Step(s4, e);
    RunFirst(s5, f, []);
  }

  lemma ParkedClashes(s: Link, id: word16, cmd: byte)
    requires s.isOpen && s.nextId == id && id in s.responses && s.responses[id].packet.id == id
    ensures Clash(s, cmd, true)
  {
    assert Source(s, s.responses[id]);
  }

  lemma WrapsOntoLateReply()
    ensures var s := Run(START, LATE_REPLY + Failures(65535, 1));
            s.isOpen && s.nextId == 1 && |s.calls| == 0x1_0000 && 1 in s.responses && s.responses[1].packet.id == 1
  {
    hide Run;
    hide Failures;
    LateReplyParked();
    FailuresRun(Run(START, LATE_REPLY), 65535);
    RunTwice(START, LATE_REPLY, Failures(65535, 1));
  }

  /** The bound is tight: a guarded run of exactly 65536 calls, the first of which was replied to too late,
      after which the wrapped counter makes every further `transact` clash. */
  lemma IdReused() returns (events: seq<Event>)
    ensures |Run(START, events).calls| == 0x1_0000 && Guarded(START, events)
    ensures forall cmd :: Clash(Run(START, events), cmd, true)
  {
    hide Run;
    hide Failures;
    hide Guarded;
    hide Clash;
    WrapsOntoLateReply();
    events := LATE_REPLY + Failures(65535, 1);
    FewCallsGuarded(events);
    forall cmd ensures Clash(Run(START, events), cmd, true) {
      ParkedClashes(Run(START, events), 1, cmd);
    }
  }

  // ---------------------------------------------------------------- the class

  /** The host object: the sections of `transact`, `send_only`, `close` and the reader thread that run under
      one lock or one atomic operation. Each is one step of the link. */
  class MiniHf {
    var nextId: word16
    var responses: map<word16, Flight>
    var isOpen: bool
    var isRunning: bool

    /** The reader thread is told to stop when the port is closed. */
    ghost predicate Represents(s: Link)
      reads this
    {
      nextId == s.nextId && responses == s.responses && isOpen == s.isOpen && isRunning == s.isOpen
    }

    constructor ()
      ensures Represents(START)
    {
      nextId, responses, isOpen, isRunning := 1, map[], true, true;
    }

    /** Refuses an oversized payload, otherwise takes the next id. */
    method BeginCall(cmd: byte, payload: seq<byte>, waits: bool, ghost s: Link) returns (request: Option<Packet>)
      requires Represents(s)
      modifies this
      ensures Represents(Step(s, Begin(cmd, payload, waits)))
      ensures request.None? <==> |payload| > 255
      ensures request.Some? ==>
        Step(s, Begin(cmd, payload, waits)).calls == s.calls + [Call(request.value, waits, Allocated)]
    {
      if |payload| > MAX_PAYLOAD {
        return None;
      }
      var currentId := nextId;
      nextId := (nextId + 1) % 0x1_0000;
      request := Some(Packet(cmd, currentId, payload));
    }

    /** Hands the frame to the port unless it is closed. */
    method WriteFrame(request: Packet, ghost s: Link, ghost c: nat) returns (frame: Option<Packet>)
      requires Represents(s) && InPhase(s, c, Allocated) && s.calls[c].request == request
      ensures Represents(Step(s, Write(c)))
      ensures Step(s, Write(c)).toDevice == s.toDevice + if frame.Some? then [Flight(c, frame.value)] else []
      ensures frame.None? <==> InPhase(Step(s, Write(c)), c, Done(PortClosed))
    {
      if !isOpen {
        return None;
      }
      frame := Some(request);
    }

    /** One turn of the polling loop. */
    method PollOnce(id: word16, ghost s: Link, ghost c: nat) returns (result: Option<Result>)
      requires Represents(s) && InPhase(s, c, Waiting) && s.calls[c].request.id == id
      modifies this
      ensures Represents(Step(s, Poll(c)))
      ensures Step(s, Poll(c)).calls[c].phase == if result.Some? then Done(result.value) else Waiting
      ensures result.Some? <==> id in old(responses)
      ensures result.Some? ==> Reports(result.value, old(responses)[id].packet)
      ensures responses == old(responses) - {id}
    {
      if id !in responses {
        return None;
      }
      var reply := responses[id].packet;
      responses := responses - {id};
      result := Some(if reply.ptype == RESP_NACK then Nack else Reply(reply.payload));
    }

    /** The reader thread handles one parsed packet. */
    method RoutePacket(f: Flight, ghost s: Link)
      requires Represents(s) && s.toHost != [] && s.toHost[0] == f
      modifies this
      ensures Represents(Step(s, Read))
      ensures responses == if f.packet.ptype == 0xFC then old(responses) else old(responses)[f.packet.id := f]
    {
      if f.packet.ptype != DEBUG_MSG {
        responses := responses[f.packet.id := f];
      }
    }

    method ClosePort(ghost s: Link)
      requires Represents(s)
      modifies this
      ensures Represents(Step(s, Close))
      ensures !isRunning && !isOpen && responses == map[] && nextId == old(nextId)
    {
      isRunning := false;
      isOpen := false;
      responses := map[];
    }
  }
}
