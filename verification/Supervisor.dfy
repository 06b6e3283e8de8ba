/**
 The supervised launch as a labelled step system: a reader thread, a prompt writer, a child, a
 clock and the supervising loop, in every interleaving. A run is a sequence of steps.
 */
module Supervisor {
  import opened Prelude
  import opened EventStream
  import opened TrustedPrefix

  const CHANNEL_SLOTS: nat := 16

  datatype Outcome = Completed | Failed | Refused | Interrupted | Cancelled

  datatype Control = Continue | Stop(reason: string)

  /** One launch. The clock counts from the spawn, where the deadline starts. */
  datatype Config<!E> = Config(source: Source, decoder: Decoder<E>, prompt: seq<byte>, deadline: nat)

  datatype Reader<+E> =
    | NotStarted
    | Reading(pos: nat, total: nat, lines: nat)
    | DrainingPipe(failure: Option<ReadFailure>)
    | Sending(item: Item<E>, next: Reader<E>)
    | Closing
    | Finished
    | Died

  datatype Writer = Idle | Writing | Done

  /** Where the supervising loop is: a turn goes `Top`, `Checking`, `Polling`, `Receiving`. */
  datatype Phase = Spawned | Top | Checking | Polling | Receiving | Emptying | Left

  /** The loop's own variables. */
  datatype Vars<+E> = Vars(
    events: seq<E>,
    streamError: Option<StreamError>,
    readFailure: Option<ReadFailure>,
    timedOut: bool,
    ended: bool,
    stopped: Option<string>)

  /**
   `received`, `shown`, `backlog`, `turns`, `idles` and `disconnected` are history: every item
   taken off the channel, every event shown to the watch, what had been received or enqueued
   when the deadline fired, the turns begun, the turns that received nothing, and whether the
   channel was found closed.
   */
  datatype State<+E> = State(
    reader: Reader<E>,
    channel: seq<Item<E>>,
    vars: Vars<E>,
    phase: Phase,
    writer: Writer,
    written: nat,
    childExited: bool,
    now: nat,
    reading: nat,
    received: seq<Item<E>>,
    shown: seq<E>,
    backlog: seq<Item<E>>,
    turns: nat,
    idles: nat,
    disconnected: bool)

  datatype ReaderStep = Reads | Drains | Sends | Closes | Dies

  datatype OutsideStep = Writes | WriterFinishes | ChildExits | ClockTicks

  datatype LoopStep =
    | ConfirmSpawn
    | RefuseSpawn(reason: string)
    | ReadClock
    | CheckFinished
    | Poll(control: Control)
    | Receive(control: Control)
    | FindDisconnected
    | Wait
    | DrainOne
    | FindEmpty

  datatype Step = ByReader(r: ReaderStep) | ByLoop(l: LoopStep) | Outside(o: OutsideStep)

  function Initial<E>(): State<E> {
    State(NotStarted, [], Vars([], None, None, false, false, None), Spawned, Idle, 0, false, 0, 0, [], [], [], 0, 0, false)
  }

  // ---- The reader thread ----

  function AfterTurn<E>(t: Turn<E>, pos: nat, total: nat, lines: nat): Reader<E> {
    match t
    case Skip(n) => Reading(pos + n, total + n, lines + 1)
    case Deliver(event, n) => Sending(Event(event), Reading(pos + n, total + n, lines + 1))
    case DeliverLast(item) => Sending(item, DrainingPipe(None))
    case Stop(failure, drain) => if drain then DrainingPipe(failure) else Sending(Ended(failure), Closing)
  }

  /** The receiver exists from the confirmed spawn until the loop is left. */
  predicate Supervising<E>(s: State<E>) {
    s.phase != Spawned && s.phase != Left
  }

  predicate ReaderEnabled<E>(cfg: Config<E>, s: State<E>, r: ReaderStep) {
    && Supervising(s)
    && match r
       case Reads => s.reader.Reading? && s.reader.pos <= |cfg.source.bytes|
       case Drains => s.reader.DrainingPipe?
       case Sends => s.reader.Sending? && |s.channel| < CHANNEL_SLOTS
       case Closes => s.reader.Closing?
       case Dies => s.reader.Reading? || s.reader.DrainingPipe? || s.reader.Sending?
  }

  function ReaderApply<E>(cfg: Config<E>, s: State<E>, r: ReaderStep): State<E>
    requires ReaderEnabled(cfg, s, r)
  {
    match r
    case Reads =>
      var Reading(pos, total, lines) := s.reader;
      s.(reader := AfterTurn(ReadTurn(cfg.source, cfg.decoder, pos, total, lines), pos, total, lines))
    case Drains => s.(reader := Sending(Ended(Drained(cfg.source, s.reader.failure)), Closing))
    case Sends => s.(channel := s.channel + [s.reader.item], reader := s.reader.next)
    case Closes => s.(reader := Finished)
    case Dies => s.(reader := Died)
  }

  // ---- The prompt writer, the child and the clock ----

  predicate OutsideEnabled<E>(cfg: Config<E>, s: State<E>, o: OutsideStep) {
    match o
    case Writes => s.writer == Writing && s.written < |cfg.prompt|
    case WriterFinishes => s.writer == Writing
    case ChildExits => true
    case ClockTicks => true
  }

  function OutsideApply<E>(cfg: Config<E>, s: State<E>, o: OutsideStep): State<E>
    requires OutsideEnabled(cfg, s, o)
  {
    match o
    case Writes => s.(written := s.written + 1)
    case WriterFinishes => s.(writer := Done)
    case ChildExits => s.(childExited := true)
    case ClockTicks => s.(now := s.now + 1)
  }

  // ---- The supervising loop ----

  predicate ReaderGone<E>(r: Reader<E>) {
    r.Finished? || r.Died?
  }

  function Accept<E>(v: Vars<E>, item: Item<E>): Vars<E> {
    match item
    case Event(event) => v.(events := v.events + [event])
    case BadLine(e) => if v.streamError.None? then v.(streamError := Some(e)) else v
    case Ended(failure) => v.(readFailure := failure, ended := true)
  }

  /** At the deadline an `Ended` item only stops the draining; what it carries is not kept. */
  function AcceptDelivered<E>(v: Vars<E>, item: Item<E>): Vars<E> {
    if item.Ended? then v else Accept(v, item)
  }

  predicate LoopEnabled<E>(cfg: Config<E>, s: State<E>, l: LoopStep) {
    match l
    case ConfirmSpawn => s.phase == Spawned
    case RefuseSpawn(_) => s.phase == Spawned
    case ReadClock => s.phase == Top
    case CheckFinished => s.phase == Checking
    case Poll(_) => s.phase == Polling
    case Receive(_) => s.phase == Receiving && !s.vars.ended && |s.channel| > 0
    case FindDisconnected => s.phase == Receiving && !s.vars.ended && |s.channel| == 0 && ReaderGone(s.reader)
    // A wait that received nothing took time: the clock is past the turn's own reading of it.
    case Wait =>
      && s.phase == Receiving && s.now > s.reading
      && (s.vars.ended || (|s.channel| == 0 && !ReaderGone(s.reader)))
    case DrainOne => s.phase == Emptying && |s.channel| > 0
    case FindEmpty => s.phase == Emptying && |s.channel| == 0
  }

  function StartTurn<E>(cfg: Config<E>, s: State<E>): State<E> {
    if s.now >= cfg.deadline then
      s.(reading := s.now, turns := s.turns + 1, vars := s.vars.(timedOut := true),
         backlog := s.received + s.channel, phase := if s.vars.ended then Left else Emptying)
    else s.(reading := s.now, turns := s.turns + 1, phase := Checking)
  }

  function TakeItem<E>(s: State<E>, control: Control): State<E>
    requires |s.channel| > 0
  {
    var item := s.channel[0];
    var taken := s.(channel := s.channel[1..], received := s.received + [item],
                    vars := Accept(s.vars, item), phase := Top);
    if item.Event? then
      var seen := taken.(shown := s.shown + [item.event]);
      if control.Stop? then seen.(vars := seen.vars.(stopped := Some(control.reason)), phase := Left) else seen
    else taken
  }

  function TakeDelivered<E>(s: State<E>): State<E>
    requires |s.channel| > 0
  {
    var item := s.channel[0];
    s.(channel := s.channel[1..], received := s.received + [item],
       vars := AcceptDelivered(s.vars, item), phase := if item.Ended? then Left else Emptying)
  }

  function LoopApply<E>(cfg: Config<E>, s: State<E>, l: LoopStep): State<E>
    requires LoopEnabled(cfg, s, l)
  {
    match l
    case ConfirmSpawn => s.(phase := Top, reader := Reading(0, 0, 0), writer := Writing)
    case RefuseSpawn(reason) => s.(phase := Left, vars := s.vars.(stopped := Some(reason)))
    case ReadClock => StartTurn(cfg, s)
    case CheckFinished =>
      var over := s.vars.ended && s.childExited && ReaderGone(s.reader) && s.writer == Done;
      s.(phase := if over then Left else Polling)
    case Poll(control) =>
      if control.Stop? then s.(vars := s.vars.(stopped := Some(control.reason)), phase := Left)
      else s.(phase := Receiving)
    case Receive(control) => TakeItem(s, control)
    case FindDisconnected =>
      s.(vars := s.vars.(readFailure := Some(ReaderLost), ended := true), disconnected := true, phase := Top)
    case Wait => s.(idles := s.idles + 1, phase := Top)
    case DrainOne => TakeDelivered(s)
    case FindEmpty => s.(phase := Left)
  }

  // ---- Runs ----

  predicate Enabled<E>(cfg: Config<E>, s: State<E>, step: Step) {
    match step
    case ByReader(r) => ReaderEnabled(cfg, s, r)
    case ByLoop(l) => LoopEnabled(cfg, s, l)
    case Outside(o) => OutsideEnabled(cfg, s, o)
  }

  function Apply<E>(cfg: Config<E>, s: State<E>, step: Step): State<E>
    requires Enabled(cfg, s, step)
  {
    match step
    case ByReader(r) => ReaderApply(cfg, s, r)
    case ByLoop(l) => LoopApply(cfg, s, l)
    case Outside(o) => OutsideApply(cfg, s, o)
  }

  /** The state after the steps of `steps`, or `None` when one of them could not be taken. */
  function Run<E>(cfg: Config<E>, steps: seq<Step>): Option<State<E>> {
    if |steps| == 0 then Some(Initial())
    else match Run(cfg, steps[..|steps| - 1])
      case None => None
      case Some(s) => if Enabled(cfg, s, Last(steps)) then Some(Apply(cfg, s, Last(steps))) else None
  }

  // ---- What the supervisor decides once the loop is left ----

  datatype Supervised<+E> = Supervised(
    events: seq<E>,
    outcome: Outcome,
    streamError: Option<StreamError>,
    stopped: Option<string>,
    timedOut: bool)

  predicate HasTerminal<E>(d: Decoder<E>, events: seq<E>) {
    exists i | 0 <= i < |events| :: d.terminal(events[i])
  }

  function Diagnostic<E>(d: Decoder<E>, v: Vars<E>): Option<StreamError> {
    if v.streamError.Some? then v.streamError
    else if v.readFailure.Some? then Some(ReadFailed(v.readFailure.value, |v.events|))
    else if !HasTerminal(d, v.events) && !v.timedOut && v.stopped.None? then Some(NoResult(|v.events|))
    else None
  }

  function Decide<E>(d: Decoder<E>, v: Vars<E>): Supervised<E> {
    var error := Diagnostic(d, v);
    var outcome := if v.timedOut || v.stopped.Some? || error.Some? then Interrupted else Completed;
    Supervised(v.events, outcome, error, v.stopped, v.timedOut)
  }
}
