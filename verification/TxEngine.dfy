/** The transmit engine: a timer interrupt that may fire between any two steps, the work item it submits, and
    start and stop, which share one work queue with that item (src/radio/tx_engine.c). */
module TxEngine {
  import opened Machine

  /** Symbols as the engine sees them: whether each keys the transmitter. */
  datatype Sequence = Sequence(keyed: seq<bool>, repeating: bool)

  /** Whether `tx_engine_stop` stops the timer before it cancels the work, as the source does. */
  datatype Order = TimerFirst | WorkFirst

  /** The steps that the timer interrupt cannot split. */
  datatype Micro =
    | StopTimer
    | CancelWork
    | TxOff
    | SetActive(active: bool)
    | ClearSequence
    | SetSequence(sequence: Sequence)
    | ResetIndex
    | ApplySymbol
    | StartTimer
    | LoadSequence
    | Advance

  /** What the work queue is running. A work item continues with one of the last four. */
  datatype Job = Idle | Stopping | Starting(sequence: Sequence) | Ticking | Orphaned | Next | Wrapping | Finishing

  /** The first two steps of a stop, in the given order. */
  function StopStep(order: Order, second: bool): Micro {
    if order.TimerFirst? == second then CancelWork else StopTimer
  }

  function Code(order: Order, job: Job): seq<Micro> {
    match job
    case Idle => []
    case Stopping => [StopStep(order, false), StopStep(order, true), TxOff, SetActive(false), ClearSequence]
    case Starting(q) =>
      [StopStep(order, false), StopStep(order, true), TxOff, SetActive(false), ClearSequence,
       SetSequence(q), ResetIndex, SetActive(true), ApplySymbol, StartTimer]
    case Ticking => [LoadSequence, Advance]
    case Orphaned => [SetActive(false)]
    case Next => [ApplySymbol, StartTimer]
    case Wrapping => [ResetIndex, ApplySymbol, StartTimer]
    case Finishing => [TxOff, SetActive(false), ClearSequence]
  }

  datatype Action = Apply(generation: nat, index: nat) | Off

  /** The engine's variables, the kernel's timer and work item, and the model's records: which start a timer,
      a pending tick and the running tick belong to, how often the timer has fired since the last start, and
      what was done to the radio. */
  datatype Engine = Engine(
    job: Job,
    at: nat,
    active: bool,
    sequence: Option<Sequence>,
    index: nat,
    timer: Option<nat>,
    work: Option<nat>,
    tick: nat,
    generation: nat,
    fired: nat,
    keyed: bool,
    log: seq<Action>)

  const INIT: Engine := Engine(Idle, 0, false, None, 0, None, None, 0, 0, 0, false, [])

  /** The work item moves the index on and goes on accordingly. */
  function Advanced(e: Engine, q: Sequence): Engine {
    var next := e.index + 1;
    e.(index := next, at := 0,
       job := if next < |q.keyed| then Next else if q.repeating then Wrapping else Finishing)
  }

  /** One micro-step's effect; `Advance` and `LoadSequence` choose how the work item goes on. */
  function Effect(e: Engine, m: Micro): Engine {
    match m
    case StopTimer => e.(timer := None)
    case CancelWork => e.(work := None)
    case TxOff => e.(keyed := false, log := e.log + [Off])
    case SetActive(b) => e.(active := b)
    case ClearSequence => e.(sequence := None)
    case SetSequence(q) => e.(sequence := Some(q), generation := e.generation + 1, fired := 0)
    case ResetIndex => e.(index := 0)
    case StartTimer => e.(timer := Some(e.generation))
    case ApplySymbol =>
      if e.sequence.None? || e.index >= |e.sequence.value.keyed| then e
      else e.(keyed := e.sequence.value.keyed[e.index], log := e.log + [Apply(e.generation, e.index)])
    case LoadSequence => if e.sequence.None? then e.(job := Orphaned, at := 0) else e
    case Advance =>
      if e.sequence.None? then e else Advanced(e, e.sequence.value)
  }

  /** The running job takes its next micro-step. */
  function Do(order: Order, e: Engine): Engine {
    var code := Code(order, e.job);
    if e.at >= |code| then e else
      var m := code[e.at];
      var done := Effect(e, m);
      if done.job != e.job then done
      else if e.at + 1 == |code| then done.(job := Idle, at := 0)
      else done.(at := e.at + 1)
  }

  datatype Event = Step | Expire | Start(sequence: Option<Sequence>) | Stop | Tick

  /** Expiry disarms the one-shot timer and submits the work item, which is a no-op when it is pending. */
  function OnExpire(e: Engine): Engine {
    if e.timer.None? then e
    else e.(timer := None, fired := e.fired + 1, work := if e.work.Some? then e.work else e.timer)
  }

  /** Jobs begin when the work queue is free; a null or empty sequence is refused. */
  function Happen(order: Order, e: Engine, event: Event): Engine {
    match event
    case Step => Do(order, e)
    case Expire => OnExpire(e)
    case Start(q) =>
      if !e.job.Idle? || q.None? || q.value.keyed == [] then e else e.(job := Starting(q.value), at := 0)
    case Stop => if e.job.Idle? then e.(job := Stopping, at := 0) else e
    case Tick => if e.job.Idle? && e.work.Some? then e.(job := Ticking, at := 0, tick := e.work.value, work := None)
                 else e
  }

  function Run(order: Order, e: Engine, events: seq<Event>): Engine
    decreases |events|
  {
    if events == [] then e else Run(order, Happen(order, e, events[0]), events[1..])
  }

  // ------------------------------------------------------------ the invariant

  predicate Quiet(e: Engine) {
    e.timer.None? && e.work.None?
  }

  /** An active engine plays a sequence within its bounds. */
  predicate Playing(e: Engine) {
    e.active && e.sequence.Some? && e.index < |e.sequence.value.keyed|
  }

  /** Between jobs: active exactly when a sequence is set, and then exactly one of timer and work is ready,
      both of this start; otherwise neither. */
  predicate AtRest(e: Engine) {
    (e.active <==> e.sequence.Some?) &&
    (e.active ==> Playing(e) && (e.timer.Some? <==> e.work.None?)) &&
    (!e.active ==> Quiet(e) && !e.keyed) &&
    (e.timer.Some? ==> e.timer.value == e.generation) &&
    (e.work.Some? ==> e.work.value == e.generation)
  }

  /** What holds at each point of stopping, which `Starting` begins with. */
  predicate StoppingAt(e: Engine) {
    (e.at == 0 ==> AtRest(e)) &&
    (e.at >= 1 ==> e.timer.None?) &&
    (e.at >= 2 ==> Quiet(e)) &&
    (e.at >= 3 ==> !e.keyed) &&
    (e.at >= 4 ==> !e.active)
  }

  predicate Inv(e: Engine) {
    e.at <= 9 &&
    match e.job
    case Idle => AtRest(e)
    case Stopping => e.at < 5 && StoppingAt(e)
    case Starting(q) =>
      q.keyed != [] &&
      if e.at <= 5 then StoppingAt(e) && (e.at == 5 ==> e.sequence.None?)
      else Quiet(e) && e.sequence == Some(q) && (e.at >= 7 ==> e.index == 0) && (e.at >= 8 ==> e.active)
    case Ticking => e.at < 2 && Quiet(e) && Playing(e) && e.tick == e.generation
    case Orphaned => false
    case Next => e.at < 2 && Quiet(e) && Playing(e)
    case Wrapping => e.at < 3 && Quiet(e) && e.active && e.sequence.Some? && e.sequence.value.keyed != [] &&
                     (e.at >= 1 ==> e.index == 0)
    case Finishing => e.at < 3 && Quiet(e) && (e.at >= 1 ==> !e.keyed) && (e.at >= 2 ==> !e.active)
  }

  lemma InvStep(e: Engine)
    requires Inv(e)
    ensures Inv(Do(TimerFirst, e))
  {
    match e.job
    case Idle =>
    case Stopping => InvStopping(e);
    case Starting(q) => InvStarting(e, q);
    case Ticking =>
    case Next =>
    case Wrapping =>
    case Finishing =>
  }

  lemma InvStopping(e: Engine)
    requires Inv(e) && e.job.Stopping?
    ensures Inv(Do(TimerFirst, e))
  {
  }

  lemma InvStarting(e: Engine, q: Sequence)
    requires Inv(e) && e.job == Starting(q)
    ensures Inv(Do(TimerFirst, e))
  {
  }

  lemma InvHappen(e: Engine, event: Event)
    requires Inv(e)
    ensures Inv(Happen(TimerFirst, e, event))
  {
    if event.Step? {
      InvStep(e);
    }
  }

  lemma {:induction false} InvRun(e: Engine, events: seq<Event>)
    requires Inv(e)
    ensures Inv(Run(TimerFirst, e, events))
    decreases |events|
  {
    hide Inv;
    hide Happen;
    if events != [] {
      InvHappen(e, events[0]);
      InvRun(Happen(TimerFirst, e, events[0]), events[1..]);
    }
  }

  /** No tick of an earlier start is about to advance the sequence. */
  predicate Fresh(e: Engine) {
    e.job.Ticking? ==> e.tick == e.generation
  }

  /** In every run, however expiries fall between the steps: between jobs the engine is at rest, every tick
      that runs belongs to the sequence that is playing, and no tick finds the engine stopped. */
  lemma EveryRun(events: seq<Event>)
    ensures var e := Run(TimerFirst, INIT, events);
            (e.job.Idle? ==> AtRest(e)) && Fresh(e) && (e.job.Ticking? ==> Playing(e)) && !e.job.Orphaned?
  {
    InvRun(INIT, events);
  }

  // ----------------------------------------------------- whole jobs at once

  function DoN(order: Order, e: Engine, n: nat): Engine
    decreases n
  {
    if n == 0 then e else DoN(order, Do(order, e), n - 1)
  }

  lemma {:induction false} RunTwice(order: Order, e: Engine, first: seq<Event>, second: seq<Event>)
    ensures Run(order, e, first + second) == Run(order, Run(order, e, first), second)
    decreases |first|
  {
    if first == [] {
      assert first + second == second;
    } else {
      assert (first + second)[1..] == first[1..] + second;
      RunTwice(order, Happen(order, e, first[0]), first[1..], second);
    }
  }

  lemma RunOne(order: Order, e: Engine, event: Event)
    ensures Run(order, e, [event]) == Happen(order, e, event)
  {
    hide Happen;
    assert [event][1..] == [];
  }

  lemma {:induction false} RunSteps(order: Order, e: Engine, n: nat)
    ensures Run(order, e, Repeat(Step, n)) == DoN(order, e, n)
    decreases n
  {
    hide Do;
    if n > 0 {
      assert Repeat(Step, n)[1..] == Repeat(Step, n - 1);
      RunSteps(order, Do(order, e), n - 1);
    }
  }

  lemma DoNPlus(order: Order, e: Engine, m: nat, n: nat)
    ensures DoN(order, e, m + n) == DoN(order, DoN(order, e, m), n)
    decreases m
  {
    hide Do;
    if m > 0 {
      DoNPlus(order, Do(order, e), m - 1, n);
    }
  }

  function Stopped(e: Engine): Engine {
    e.(job := Idle, at := 0, active := false, sequence := None, timer := None, work := None, keyed := false,
       log := e.log + [Off])
  }

  lemma DoFive(order: Order, e: Engine)
    ensures DoN(order, e, 5) == Do(order, Do(order, Do(order, Do(order, Do(order, e)))))
  {
    hide Do;
  }

  /** A stop or the first half of a start, when the timer does not fire in between. */
  lemma FiveSteps(order: Order, e: Engine)
    requires (e.job.Stopping? || e.job.Starting?) && e.at == 0
    ensures DoN(order, e, 5) == if e.job.Stopping? then Stopped(e) else Stopped(e).(job := e.job, at := 5)
  {
    hide DoN;
    hide Do;
    DoFive(order, e);
    Disarmed(order, e);
    Switched(order, Do(order, Do(order, e)));
  }

  lemma Disarmed(order: Order, e: Engine)
    requires (e.job.Stopping? || e.job.Starting?) && e.at == 0
    ensures Do(order, Do(order, e)) == e.(timer := None, work := None, at := 2)
  {
  }

  lemma Switched(order: Order, e: Engine)
    requires (e.job.Stopping? || e.job.Starting?) && e.at == 2 && e.timer.None? && e.work.None?
    ensures Do(order, Do(order, Do(order, e))) ==
            if e.job.Stopping? then Stopped(e) else Stopped(e).(job := e.job, at := 5)
  {
  }

  function Started(e: Engine, q: Sequence): Engine
    requires q.keyed != []
  {
    var g := e.generation + 1;
    Engine(Idle, 0, true, Some(q), 0, Some(g), None, e.tick, g, 0, q.keyed[0], e.log + [Off] + [Apply(g, 0)])
  }

  lemma SecondHalf(order: Order, e: Engine, q: Sequence)
    requires e.job == Starting(q) && e.at == 5 && q.keyed != []
    ensures DoN(order, e, 5) == Engine(Idle, 0, true, Some(q), 0, Some(e.generation + 1), e.work, e.tick,
      e.generation + 1, 0, q.keyed[0], e.log + [Apply(e.generation + 1, 0)])
  {
    DoFive(order, e);
    hide DoN;
    var e3 := Do(order, Do(order, Do(order, e)));
    assert e3 == e.(sequence := Some(q), generation := e.generation + 1, fired := 0, index := 0, active := true,
                    at := 8);
  }

  /** A start without expiries in between. */
  lemma TenSteps(order: Order, e: Engine, q: Sequence)
    requires e.job == Starting(q) && e.at == 0 && q.keyed != []
    ensures DoN(order, e, 10) == Started(e, q)
  {
    hide Do;
    hide DoN;
    FiveSteps(order, e);
    DoNPlus(order, e, 5, 5);
    SecondHalf(order, DoN(order, e, 5), q);
  }

  // -------------------------------------------------- why the order matters

  /** A run from `e` to `t`. */
  predicate Reaches(order: Order, e: Engine, events: seq<Event>, t: Engine) {
    Run(order, e, events) == t
  }

  lemma ThenEvent(order: Order, e: Engine, events: seq<Event>, t: Engine, event: Event)
    requires Reaches(order, e, events, t)
    ensures Reaches(order, e, events + [event], Happen(order, t, event))
  {
    hide Happen;
    RunTwice(order, e, events, [event]);
    RunOne(order, t, event);
  }

  lemma ThenSteps(order: Order, e: Engine, events: seq<Event>, t: Engine, n: nat)
    requires Reaches(order, e, events, t)
    ensures Reaches(order, e, events + Repeat(Step, n), DoN(order, t, n))
  {
    hide Happen;
    hide DoN;
    RunTwice(order, e, events, Repeat(Step, n));
    RunSteps(order, t, n);
  }

  lemma DoThree(order: Order, e: Engine)
    ensures DoN(order, e, 3) == Do(order, Do(order, Do(order, e)))
  {
    hide Do;
  }

  lemma MiddleSteps(order: Order, e: Engine, q: Sequence)
    requires e.job == Starting(q) && e.at == 2
    ensures DoN(order, e, 3) == e.(at := 5, active := false, sequence := None, keyed := false, log := e.log + [Off])
  {
    DoThree(order, e);
    hide DoN;
  }

  /** An engine playing its first start, restarted, with an expiry between the first two steps. */
  lemma ExpiryBetween(e: Engine, q: Sequence)
    requires e.job.Idle? && e.timer.Some? && e.work.None? && q.keyed != []
    ensures var o := WorkFirst;
            var t := Happen(o, Happen(o, Happen(o, Happen(o, e, Start(Some(q))), Step), Expire), Step);
            t == e.(job := Starting(q), at := 2, timer := None, work := e.timer, fired := e.fired + 1)
  {
  }

  lemma StartedAlike(e: Engine, f: Engine, q: Sequence)
    requires q.keyed != [] && e.tick == f.tick && e.generation == f.generation && e.log == f.log
    ensures Started(e, q) == Started(f, q)
  {
  }

  lemma PlayFirst(q: Sequence) returns (events: seq<Event>)
    requires q.keyed != []
    ensures Reaches(WorkFirst, INIT, events, Started(INIT, q))
  {
    hide Run;
    hide DoN;
    hide Do;
    hide Started;
    var e := Happen(WorkFirst, INIT, Start(Some(q)));
    RunOne(WorkFirst, INIT, Start(Some(q)));
    assert Reaches(WorkFirst, INIT, [Start(Some(q))], e);
    hide Reaches;
    TenSteps(WorkFirst, e, q);
    StartedAlike(e, INIT, q);
    ThenSteps(WorkFirst, INIT, [Start(Some(q))], e, 10);
    events := [Start(Some(q))] + Repeat(Step, 10);
  }

  lemma ThenExpiryBetween(events: seq<Event>, e: Engine, q: Sequence) returns (longer: seq<Event>)
    requires Reaches(WorkFirst, INIT, events, e)
    requires e.job.Idle? && e.timer.Some? && e.work.None? && q.keyed != []
    ensures Reaches(WorkFirst, INIT, longer,
      e.(job := Starting(q), at := 2, timer := None, work := e.timer, fired := e.fired + 1))
  {
    ExpiryBetween(e, q);
    hide Happen;
    hide Reaches;
    var o := WorkFirst;
    var e1 := Happen(o, e, Start(Some(q)));
    var e2 := Happen(o, e1, Step);
    var e3 := Happen(o, e2, Expire);
    ThenEvent(o, INIT, events, e, Start(Some(q)));
    longer := events + [Start(Some(q))];
    ThenEvent(o, INIT, longer, e1, Step);
    longer := longer + [Step];
    ThenEvent(o, INIT, longer, e2, Expire);
    longer := longer + [Expire];
    ThenEvent(o, INIT, longer, e3, Step);
    longer := longer + [Step];
  }

  lemma ThenLateTick(events: seq<Event>, e: Engine, q: Sequence) returns (longer: seq<Event>)
    requires Reaches(WorkFirst, INIT, events, e)
    requires e.job == Starting(q) && e.at == 2 && q.keyed != [] && e.work.Some? && e.work.value <= e.generation
    ensures !Fresh(Run(WorkFirst, INIT, longer))
  {
    var o := WorkFirst;
    MiddleSteps(o, e, q);
    var e1 := DoN(o, e, 3);
    SecondHalf(o, e1, q);
    var e2 := DoN(o, e1, 5);
    assert e2.job.Idle? && e2.work == e.work && e2.generation == e.generation + 1;
    hide DoN;
    ThenSteps(o, INIT, events, e, 3);
    ThenSteps(o, INIT, events + Repeat(Step, 3), e1, 5);
    longer := events + Repeat(Step, 3) + Repeat(Step, 5);
    ThenEvent(o, INIT, longer, e2, Tick);
    longer := longer + [Tick];
    hide Run;
    assert !Fresh(Happen(o, e2, Tick));
  }

  /** With the work cancelled before the timer is stopped, an expiry in between leaves a tick of the old
      sequence, which then advances the new one. */
  lemma WorkFirstStale(q: Sequence) returns (events: seq<Event>)
    requires q.keyed != []
    ensures !Fresh(Run(WorkFirst, INIT, events))
  {
    hide Reaches;
    hide Run;
    events := PlayFirst(q);
    events := ThenExpiryBetween(events, Started(INIT, q), q);
    var e := Started(INIT, q);
    var late := e.(job := Starting(q), at := 2, timer := None, work := e.timer, fired := e.fired + 1);
    events := ThenLateTick(events, late, q);
  }

  /** The order of the two calls is exactly what keeps stale ticks out. */
  lemma OrderMatters(order: Order)
    ensures order.TimerFirst? <==> forall events :: Fresh(Run(order, INIT, events))
  {
    if order.TimerFirst? {
      forall events ensures Fresh(Run(order, INIT, events)) {
        EveryRun(events);
      }
    } else {
      var events := WorkFirstStale(Sequence([true], false));
    }
  }

  // ------------------------------------------------------- what is played

  /** The symbol that comes at place `k`, counting round after round. */
  function Position(n: nat, k: nat): (p: nat)
    requires n > 0
    ensures p < n
  {
    k % n
  }

  lemma PositionNext(n: nat, k: nat)
    requires n > 0
    ensures Position(n, k + 1) == if Position(n, k) + 1 < n then Position(n, k) + 1 else 0
  {
    DivisionIdentity(k, n);
    if k % n + 1 < n {
      DivModUnique(k + 1, k / n, k % n + 1, n);
    } else {
      assert k + 1 == (k / n + 1) * n;
      DivModUnique(k + 1, k / n + 1, 0, n);
    }
  }

  lemma PositionFirst(n: nat)
    requires n > 0
    ensures forall k :: 0 <= k < n ==> Position(n, k) == k
  {
  }

  /** The first `k` symbols of a start of a sequence of `n`. */
  function Played(g: nat, n: nat, k: nat): (log: seq<Action>)
    requires n > 0
    ensures |log| == k
    ensures forall i :: 0 <= i < k ==> log[i] == Apply(g, Position(n, i))
  {
    seq(k, i requires 0 <= i < k => Apply(g, Position(n, i)))
  }

  /** Neither another start nor a stop begins. */
  predicate Undisturbed(events: seq<Event>) {
    forall i :: 0 <= i < |events| ==> !events[i].Start? && !events[i].Stop?
  }

  /** `k` symbols of the start with generation `g` were played on top of `base`. */
  predicate Plays(e: Engine, base: seq<Action>, g: nat, q: Sequence, k: nat)
    requires q.keyed != []
  {
    e.sequence == Some(q) && e.generation == g && e.log == base + Played(g, |q.keyed|, k) &&
    (q.repeating || k <= |q.keyed|)
  }

  predicate PlaysTo(e: Engine, base: seq<Action>, g: nat, q: Sequence, k: nat)
    requires q.keyed != []
  {
    k >= 1 && Plays(e, base, g, q, k) && e.index == Position(|q.keyed|, k - 1) && e.keyed == q.keyed[e.index]
  }

  predicate PlayedOut(e: Engine, base: seq<Action>, g: nat, q: Sequence)
    requires q.keyed != []
  {
    !q.repeating && e.generation == g && e.fired == |q.keyed| &&
    e.log == base + Played(g, |q.keyed|, |q.keyed|) + [Off]
  }

  function WorkCount(e: Engine): nat {
    if e.work.Some? then 1 else 0
  }

  /** Where a start of `q` has got to after `k` symbols: each expiry so far brought exactly one symbol or is
      still pending. */
  predicate Progress(e: Engine, base: seq<Action>, g: nat, q: Sequence, k: nat)
    requires q.keyed != []
  {
    var n := |q.keyed|;
    match e.job
    case Idle =>
      if e.active then PlaysTo(e, base, g, q, k) && e.fired + 1 == k + WorkCount(e) else PlayedOut(e, base, g, q)
    case Starting(q') =>
      q' == q && k == (if e.at < 9 then 0 else 1) &&
      (if e.at < 3 then e.log + [Off] == base else e.log == base + Played(g, n, k)) &&
      e.generation + (if e.at < 6 then 1 else 0) == g &&
      (e.at >= 6 ==> e.fired == 0) && (e.at == 9 ==> PlaysTo(e, base, g, q, k))
    case Ticking => PlaysTo(e, base, g, q, k) && e.fired == k
    case Next =>
      if e.at == 0 then Plays(e, base, g, q, k) && e.index == Position(n, k) && (q.repeating || k < n) && e.fired == k
      else PlaysTo(e, base, g, q, k) && e.fired + 1 == k
    case Wrapping =>
      q.repeating &&
      if e.at < 2 then Plays(e, base, g, q, k) && Position(n, k) == 0 && e.fired == k
      else PlaysTo(e, base, g, q, k) && e.fired + 1 == k
    case Finishing =>
      if e.at == 0 then !q.repeating && Plays(e, base, g, q, k) && k == n && e.fired == n
      else PlayedOut(e, base, g, q)
    case _ => false
  }

  lemma PlayedMore(base: seq<Action>, g: nat, n: nat, k: nat)
    requires n > 0
    ensures base + Played(g, n, k) + [Apply(g, Position(n, k))] == base + Played(g, n, k + 1)
    ensures base + Played(g, n, 0) == base
  {
  }

  function Grows(e: Engine): nat {
    if (e.job.Starting? && e.at == 8) || (e.job.Next? && e.at == 0) || (e.job.Wrapping? && e.at == 1) then 1 else 0
  }

  lemma ProgressStarting(e: Engine, base: seq<Action>, g: nat, q: Sequence, k: nat)
    requires Inv(e) && e.job == Starting(q) && Progress(e, base, g, q, k)
    ensures Progress(Do(TimerFirst, e), base, g, q, k + Grows(e))
  {
    PlayedMore(base, g, |q.keyed|, k);
    PositionFirst(|q.keyed|);
    hide Played;
  }

  lemma ProgressTicking(e: Engine, base: seq<Action>, g: nat, q: Sequence, k: nat)
    requires Inv(e) && q.keyed != [] && e.job.Ticking? && Progress(e, base, g, q, k)
    ensures Progress(Do(TimerFirst, e), base, g, q, k)
  {
    var n := |q.keyed|;
    PositionNext(n, k - 1);
    if !q.repeating {
      PositionFirst(n);
    }
    hide Played;
    hide Position;
  }

  lemma ProgressGoesOn(e: Engine, base: seq<Action>, g: nat, q: Sequence, k: nat)
    requires Inv(e) && q.keyed != [] && Progress(e, base, g, q, k)
    requires e.job.Next? || e.job.Wrapping? || e.job.Finishing?
    ensures Progress(Do(TimerFirst, e), base, g, q, k + Grows(e))
  {
    PlayedMore(base, g, |q.keyed|, k);
    hide Played;
    hide Position;
  }

  lemma ProgressStep(e: Engine, base: seq<Action>, g: nat, q: Sequence, k: nat, event: Event)
    requires Inv(e) && q.keyed != [] && Progress(e, base, g, q, k) && !event.Start? && !event.Stop?
    ensures Progress(Happen(TimerFirst, e, event), base, g, q, k + if event.Step? then Grows(e) else 0)
  {
    hide Played;
    hide Position;
    if event.Step? {
      if e.job.Starting? {
        ProgressStarting(e, base, g, q, k);
      } else if e.job.Ticking? {
        ProgressTicking(e, base, g, q, k);
      } else if !e.job.Idle? {
        ProgressGoesOn(e, base, g, q, k);
      }
    }
  }

  lemma {:induction false} ProgressRun(e: Engine, base: seq<Action>, g: nat, q: Sequence, k: nat, events: seq<Event>)
      returns (k': nat)
    requires Inv(e) && q.keyed != [] && Progress(e, base, g, q, k) && Undisturbed(events)
    ensures Progress(Run(TimerFirst, e, events), base, g, q, k')
    decreases |events|
  {
    k' := k;
    hide Inv;
    hide Progress;
    hide Happen;
    if events != [] {
      InvHappen(e, events[0]);
      ProgressStep(e, base, g, q, k, events[0]);
      var more := if events[0].Step? then Grows(e) else 0;
      k' := ProgressRun(Happen(TimerFirst, e, events[0]), base, g, q, k + more, events[1..]);
    }
  }

  /** A start of a non-empty sequence, until the next start or stop and however the expiries fall: symbol
      after symbol in order, one per expiry, the transmitter keyed as the current symbol says, round after
      round when it repeats; otherwise each symbol exactly once, and then the transmitter is switched off and
      the engine is idle. */
  lemma StartPlaysInOrder(before: seq<Event>, q: Sequence, events: seq<Event>)
    requires q.keyed != [] && Undisturbed(events) && Run(TimerFirst, INIT, before).job.Idle?
    ensures var e := Run(TimerFirst, INIT, before);
            var t := Run(TimerFirst, Happen(TimerFirst, e, Start(Some(q))), events);
            var g, n, base := e.generation + 1, |q.keyed|, e.log + [Off];
            t.job.Idle? ==>
              if t.active then
                var k := |t.log| - |base|;
                1 <= k && t.log == base + Played(g, n, k) && (q.repeating || k <= n) &&
                t.index == Position(n, k - 1) && t.keyed == q.keyed[t.index] && t.fired + 1 == k + WorkCount(t)
              else
                !q.repeating && t.log == base + Played(g, n, n) + [Off] && t.fired == n && !t.keyed
  {
    hide Run;
    hide Happen;
    hide Inv;
    hide Progress;
    hide Played;
    hide Position;
    var e := Run(TimerFirst, INIT, before);
    StartHolds();
    InvRun(INIT, before);
    var s := Happen(TimerFirst, e, Start(Some(q)));
    InvHappen(e, Start(Some(q)));
    ProgressStarts(e, q);
    var g, base := e.generation + 1, e.log + [Off];
    var k := ProgressRun(s, base, g, q, 0, events);
    InvRun(s, events);
    var t := Run(TimerFirst, s, events);
    if t.job.Idle? {
      ProgressAtRest(t, base, g, q, k);
    }
  }

  lemma StartHolds()
    ensures Inv(INIT)
  {
  }

  lemma ProgressStarts(e: Engine, q: Sequence)
    requires e.job.Idle? && q.keyed != []
    ensures Progress(Happen(TimerFirst, e, Start(Some(q))), e.log + [Off], e.generation + 1, q, 0)
  {
  }

  /** Between jobs, what was logged since the start tells how far the sequence is. */
  lemma ProgressAtRest(t: Engine, base: seq<Action>, g: nat, q: Sequence, k: nat)
    requires q.keyed != [] && Inv(t) && t.job.Idle? && Progress(t, base, g, q, k)
    ensures var n := |q.keyed|;
            if t.active then
              k == |t.log| - |base| && 1 <= k && t.log == base + Played(g, n, k) && (q.repeating || k <= n) &&
              t.index == Position(n, k - 1) && t.keyed == q.keyed[t.index] && t.fired + 1 == k + WorkCount(t)
            else
              !q.repeating && t.log == base + Played(g, n, n) + [Off] && t.fired == n && !t.keyed
  {
    hide Played;
    hide Position;
  }

  // ------------------------------------------------- that the playing goes on

  // What happens to a symbol that is left alone: the timer expires, the work item begins and takes its steps.
  const TICK_ROUND: seq<Event> := [Tick] + Repeat(Step, 5)
  const ROUND: seq<Event> := [Expire] + TICK_ROUND

  /** The work item has brought the next symbol of the sequence, the first one again if it repeats, or the end. */
  predicate WentOn(e: Engine, t: Engine)
    requires e.sequence.Some? && e.sequence.value.keyed != []
  {
    var q, n, i := e.sequence.value, |e.sequence.value.keyed|, e.index + 1;
    t.job.Idle? && t.work.None? && t.generation == e.generation &&
    if i < n || q.repeating then
      t.active && t.sequence == Some(q) && t.timer == Some(t.generation) && t.index == (if i < n then i else 0) &&
      t.keyed == q.keyed[t.index] && t.log == e.log + [Apply(e.generation, t.index)]
    else
      !t.active && !t.keyed && t.sequence.None? && t.timer.None? && t.log == e.log + [Off]
  }

  lemma RunFirst(order: Order, e: Engine, event: Event, rest: seq<Event>)
    ensures Run(order, e, [event] + rest) == Run(order, Happen(order, e, event), rest)
  {
    hide Happen;
    assert ([event] + rest)[1..] == rest;
  }

  /** A pending work item is run. */
  lemma TickGoesOn(e: Engine)
    requires AtRest(e) && e.job.Idle? && e.work.Some?
    ensures WentOn(e, Run(TimerFirst, e, TICK_ROUND))
  {
    hide Run;
    hide DoN;
    hide Ticked;
    hide WentOn;
    var t := Happen(TimerFirst, e, Tick);
    RunFirst(TimerFirst, e, Tick, Repeat(Step, 5));
    RunSteps(TimerFirst, t, 5);
    TickSteps(TimerFirst, t);
    TickedWentOn(e, t);
  }

  lemma TickedWentOn(e: Engine, t: Engine)
    requires AtRest(e) && e.job.Idle? && e.work.Some?
    requires t == e.(job := Ticking, at := 0, tick := e.work.value, work := None)
    ensures WentOn(e, Ticked(t))
  {
  }

  /** The timer's expiry leads to the next symbol or to the end. */
  lemma RoundGoesOn(e: Engine)
    requires AtRest(e) && e.job.Idle? && e.timer.Some?
    ensures WentOn(e, Run(TimerFirst, e, ROUND))
  {
    hide Run;
    RunFirst(TimerFirst, e, Expire, TICK_ROUND);
    TickGoesOn(Happen(TimerFirst, e, Expire));
  }

  function Rounds(k: nat): seq<Event> {
    if k == 0 then [] else Rounds(k - 1) + ROUND
  }

  function StartAndRounds(q: Sequence, k: nat): seq<Event> {
    [Start(Some(q))] + Repeat(Step, 10) + Rounds(k)
  }

  lemma StartSettles(e: Engine, q: Sequence)
    requires AtRest(e) && e.job.Idle? && q.keyed != []
    ensures var t := Run(TimerFirst, e, StartAndRounds(q, 0));
            AtRest(t) && t.job.Idle? && t.active && t.sequence == Some(q) && t.timer.Some? && t.index == 0 &&
            t.generation == e.generation + 1 && t.keyed == q.keyed[0] &&
            t.log == e.log + [Off] + [Apply(e.generation + 1, 0)]
  {
    hide Run;
    hide DoN;
    hide Started;
    hide AtRest;
    var t := Happen(TimerFirst, e, Start(Some(q)));
    assert StartAndRounds(q, 0) == [Start(Some(q))] + Repeat(Step, 10);
    RunFirst(TimerFirst, e, Start(Some(q)), Repeat(Step, 10));
    RunSteps(TimerFirst, t, 10);
    TenSteps(TimerFirst, t, q);
    StartedAtRest(t, q);
  }

  lemma StartedAtRest(e: Engine, q: Sequence)
    requires q.keyed != []
    ensures var t := Started(e, q);
            AtRest(t) && t.job.Idle? && t.active && t.sequence == Some(q) && t.timer.Some? && t.index == 0 &&
            t.generation == e.generation + 1 && t.keyed == q.keyed[0] &&
            t.log == e.log + [Off] + [Apply(e.generation + 1, 0)]
  {
  }

  /** The engine between expiries: `k` of them since the start, which came after `base`. */
  predicate PlayedTo(t: Engine, base: seq<Action>, g: nat, q: Sequence, k: nat)
    requires q.keyed != []
  {
    var n := |q.keyed|;
    t.job.Idle? && AtRest(t) &&
    if q.repeating || k < n then
      t.active && t.sequence == Some(q) && t.timer.Some? && t.generation == g && t.index == k % n &&
      t.keyed == q.keyed[k % n] && t.log == base + Played(g, n, k + 1)
    else
      !t.active && !t.keyed && t.sequence.None? && t.timer.None? && t.log == base + Played(g, n, n) + [Off]
  }

  /** A sequence that is left alone is played: after the start and `k` expiries its first k + 1 symbols were
      applied, round after round if it repeats; otherwise after as many expiries as it has symbols each was applied
      once, and the transmitter is off and the engine idle. */
  lemma {:induction false} PlaysThrough(e: Engine, q: Sequence, k: nat)
    requires AtRest(e) && e.job.Idle? && q.keyed != [] && (q.repeating || k <= |q.keyed|)
    ensures PlayedTo(Run(TimerFirst, e, StartAndRounds(q, k)), e.log + [Off], e.generation + 1, q, k)
    decreases k
  {
    hide Run;
    hide Rounds;
    hide WentOn;
    hide AtRest;
    if k == 0 {
      StartSettles(e, q);
      NextRemainder(0, |q.keyed|);
      assert Played(e.generation + 1, |q.keyed|, 1) == [Apply(e.generation + 1, 0)];
    } else {
      PlaysThrough(e, q, k - 1);
      var t := Run(TimerFirst, e, StartAndRounds(q, k - 1));
      MoreRounds(e, q, k);
      RoundGoesOn(t);
      RoundPlayed(t, Run(TimerFirst, t, ROUND), e.log + [Off], e.generation + 1, q, k);
    }
  }

  lemma MoreRounds(e: Engine, q: Sequence, k: nat)
    requires k > 0
    ensures Run(TimerFirst, e, StartAndRounds(q, k)) ==
            Run(TimerFirst, Run(TimerFirst, e, StartAndRounds(q, k - 1)), ROUND)
  {
    assert StartAndRounds(q, k) == StartAndRounds(q, k - 1) + ROUND;
    RunTwice(TimerFirst, e, StartAndRounds(q, k - 1), ROUND);
  }

  lemma RoundPlayed(e: Engine, t: Engine, base: seq<Action>, g: nat, q: Sequence, k: nat)
    requires k > 0 && q.keyed != [] && (q.repeating || k <= |q.keyed|)
    requires PlayedTo(e, base, g, q, k - 1) && WentOn(e, t)
    ensures PlayedTo(t, base, g, q, k)
  {
    NextRemainder(k - 1, |q.keyed|);
    PlayedMore(base, g, |q.keyed|, k);
    hide Played;
  }

  lemma NextRemainder(k: nat, n: nat)
    requires n > 0
    ensures (k + 1) % n == (if k % n + 1 < n then k % n + 1 else 0)
    ensures k < n ==> k % n == k
  {
    DivisionIdentity(k, n);
    if k % n + 1 < n {
      DivModUnique(k + 1, k / n, k % n + 1, n);
    } else {
      DivModUnique(k + 1, k / n + 1, 0, n);
    }
    if k < n {
      DivModUnique(k, 0, k, n);
    }
  }

  /** A stop that is left alone silences the transmitter. */
  lemma StopSilences(e: Engine)
    requires e.job.Idle?
    ensures var t := Run(TimerFirst, e, [Stop] + Repeat(Step, 5));
            t.job.Idle? && AtRest(t) && !t.active && !t.keyed && t.log == e.log + [Off]
  {
    var o, t := TimerFirst, Happen(TimerFirst, e, Stop);
    RunFirst(o, e, Stop, Repeat(Step, 5));
    RunSteps(o, t, 5);
    FiveSteps(o, t);
    hide Run;
    hide DoN;
  }

  // ------------------------------------------------- if the supply counts

  /** How many enables of the supply are outstanding after what was done to the radio, if the supply counts them:
      a keyed symbol adds one, switching off takes one back. */
  function Outstanding(q: Sequence, log: seq<Action>, before: nat): nat {
    if log == [] then before
    else
      var count := Outstanding(q, log[..|log| - 1], before);
      var off := if count == 0 then 0 else count - 1;
      match log[|log| - 1]
      case Off => off
      case Apply(_, i) => if i < |q.keyed| && q.keyed[i] then count + 1 else off
  }

  lemma {:induction false} OutstandingPlayed(q: Sequence, g: nat, k: nat, before: nat)
    requires q.keyed != [] && forall i :: 0 <= i < |q.keyed| ==> q.keyed[i]
    ensures Outstanding(q, Played(g, |q.keyed|, k), before) == before + k
    decreases k
  {
    if k > 0 {
      var log := Played(g, |q.keyed|, k);
      assert log[..k - 1] == Played(g, |q.keyed|, k - 1);
      OutstandingPlayed(q, g, k - 1, before);
    }
  }

  /** On a supply that counts, a sequence without pauses ends switched off exactly when it has one symbol and
      nothing was outstanding before: every symbol enables, and the end disables once. */
  lemma CountingSupplyOff(q: Sequence, g: nat, before: nat)
    requires q.keyed != [] && forall i :: 0 <= i < |q.keyed| ==> q.keyed[i]
    ensures var n := |q.keyed|;
            Outstanding(q, Played(g, n, n) + [Off], before) == 0 <==> n == 1 && before == 0
  {
    var log := Played(g, |q.keyed|, |q.keyed|);
    OutstandingPlayed(q, g, |q.keyed|, before);
    assert (log + [Off])[..|log|] == log;
  }

  // ---------------------------------------------------------------- the class

  // Between expiries the three methods of the class are the micro-steps run in one go: `StopNow` is FiveSteps,
  // `StartNow` is TenSteps and `WorkHandler` is TickSteps.

  /** What the work item does when the timer does not fire in between. */
  function Ticked(e: Engine): Engine {
    var done := e.(job := Idle, at := 0);
    if e.sequence.None? then done.(active := false)
    else
      var q := e.sequence.value;
      var next := e.index + 1;
      if next < |q.keyed| then
        done.(index := next, keyed := q.keyed[next], timer := Some(e.generation),
              log := e.log + [Apply(e.generation, next)])
      else if q.repeating && q.keyed != [] then
        done.(index := 0, keyed := q.keyed[0], timer := Some(e.generation), log := e.log + [Apply(e.generation, 0)])
      else if q.repeating then done.(index := 0, timer := Some(e.generation))
      else done.(index := next, active := false, sequence := None, keyed := false, log := e.log + [Off])
  }

  lemma FirstTwo(order: Order, e: Engine)
    requires e.job.Ticking? && e.at == 0
    ensures Do(order, Do(order, e)) ==
            if e.sequence.None? then e.(job := Idle, active := false) else Advanced(e, e.sequence.value)
  {
  }

  lemma IdleStays(order: Order, e: Engine)
    requires e.job.Idle?
    ensures Do(order, e) == e
  {
  }

  lemma TickSteps(order: Order, e: Engine)
    requires e.job.Ticking? && e.at == 0
    ensures DoN(order, e, 5) == Ticked(e)
  {
    DoFive(order, e);
    hide DoN;
    hide Do;
    FirstTwo(order, e);
    if e.sequence.None? {
      IdleStays(order, e.(job := Idle, active := false));
    } else {
      AfterAdvance(order, Advanced(e, e.sequence.value), e.sequence.value);
    }
  }

  /** The rest of the work item, once it has advanced the index. */
  function Applied(e: Engine): Engine {
    var done := e.(job := Idle, at := 0);
    match e.job
    case Next => ApplyThenArm(done)
    case Wrapping => ApplyThenArm(done.(index := 0))
    case _ => done.(keyed := false, active := false, sequence := None, log := e.log + [Off])
  }

  function ApplyThenArm(e: Engine): Engine {
    Effect(e, ApplySymbol).(timer := Some(e.generation))
  }

  lemma AfterAdvance(order: Order, e: Engine, q: Sequence)
    requires e.sequence == Some(q) && e.at == 0 && (e.job.Next? || e.job.Wrapping? || e.job.Finishing?)
    ensures Do(order, Do(order, Do(order, e))) == Applied(e)
  {
    hide Do;
    hide Applied;
    match e.job
    case Next => AfterNext(order, e, q);
    case Wrapping => AfterWrapping(order, e, q);
    case Finishing => AfterFinishing(order, e, q);
  }

  lemma AfterNext(order: Order, e: Engine, q: Sequence)
    requires e.sequence == Some(q) && e.at == 0 && e.job.Next?
    ensures Do(order, Do(order, Do(order, e))) == Applied(e)
  {
  }

  lemma AfterWrapping(order: Order, e: Engine, q: Sequence)
    requires e.sequence == Some(q) && e.at == 0 && e.job.Wrapping?
    ensures Do(order, Do(order, Do(order, e))) == Applied(e)
  {
  }

  lemma AfterFinishing(order: Order, e: Engine, q: Sequence)
    requires e.sequence == Some(q) && e.at == 0 && e.job.Finishing?
    ensures Do(order, Do(order, Do(order, e))) == Applied(e)
  {
  }

  class TxSequence {
    const keyed: seq<bool>
    const repeating: bool
    var currentIndex: nat

    constructor (keyed: seq<bool>, repeating: bool)
      ensures this.keyed == keyed && this.repeating == repeating && currentIndex == 0
    {
      this.keyed, this.repeating, currentIndex := keyed, repeating, 0;
    }

    function Value(): Sequence {
      Sequence(keyed, repeating)
    }
  }

  /** The file's static variables, with the timer, the work item and the radio's keying as fields. */
  class Transmitter {
    var activeSeq: TxSequence?
    var engineActive: bool
    var timerArmed: bool
    var workPending: bool
    var keyed: bool

    ghost predicate Represents(e: Engine)
      reads this, activeSeq
    {
      engineActive == e.active && keyed == e.keyed &&
      timerArmed == e.timer.Some? && workPending == e.work.Some? &&
      (activeSeq == null <==> e.sequence.None?) &&
      (activeSeq != null ==> e.sequence == Some(activeSeq.Value()) && activeSeq.currentIndex == e.index)
    }

    constructor ()
      ensures Represents(INIT)
    {
      activeSeq, engineActive, timerArmed, workPending, keyed := null, false, false, false, false;
    }

    method TurnOff()
      modifies `keyed
      ensures !keyed
    {
      keyed := false;
    }

    method ApplyNow(symbol: bool)
      modifies `keyed
      ensures keyed == symbol
    {
      if symbol {
        keyed := true;
      } else {
        TurnOff();
      }
    }

    method StopNow(ghost e: Engine)
      requires Represents(e) && e.job.Idle?
      modifies this
      ensures Represents(Stopped(e))
      ensures activeSeq == null && !engineActive && !timerArmed && !workPending && !keyed
    {
      timerArmed := false;
      workPending := false;
      TurnOff();
      engineActive := false;
      activeSeq := null;
    }

    method StartNow(sequence: TxSequence?, ghost e: Engine)
      requires Represents(e) && e.job.Idle?
      modifies this, if sequence == null then {} else {sequence}
      ensures sequence == null || sequence.keyed == [] ==> Represents(e)
      ensures sequence != null && sequence.keyed != [] ==>
        Represents(Started(e, sequence.Value()))
    {
      if sequence == null || |sequence.keyed| == 0 {
        return;
      }
      StopNow(e);
      activeSeq := sequence;
      activeSeq.currentIndex := 0;
      engineActive := true;
      ApplyNow(activeSeq.keyed[0]);
      timerArmed := true;
    }

    method TimerExpiry(ghost e: Engine)
      requires Represents(e) && timerArmed
      modifies this
      ensures Represents(OnExpire(e))
    {
      timerArmed := false;
      workPending := true;
    }

    method WorkHandler(ghost e: Engine)
      requires Represents(e) && e.job.Idle? && workPending
      requires activeSeq != null ==> activeSeq.keyed != []
      modifies this, activeSeq
      ensures Represents(Ticked(e).(work := None))
    {
      workPending := false;
      var sequence := activeSeq;
      if sequence == null {
        engineActive := false;
        return;
      }
      sequence.currentIndex := sequence.currentIndex + 1;
      if sequence.currentIndex >= |sequence.keyed| {
        if sequence.repeating {
          sequence.currentIndex := 0;
        } else {
          TurnOff();
          engineActive := false;
          activeSeq := null;
          return;
        }
      }
      ApplyNow(sequence.keyed[sequence.currentIndex]);
      timerArmed := true;
    }
  }
}
