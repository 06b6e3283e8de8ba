/**
 The supervising loop as it is written: an object whose fields each turn updates. Every method
 is proved to take exactly steps of the step system.
 */
module SupervisionLoop {
  import opened Prelude
  import opened EventStream
  import opened Supervisor

  /** The state after taking `steps` from `s`, first step first. */
  function From<E>(cfg: Config<E>, s: State<E>, steps: seq<Step>): Option<State<E>>
    decreases |steps|
  {
    if |steps| == 0 then Some(s)
    else if Enabled(cfg, s, steps[0]) then From(cfg, Apply(cfg, s, steps[0]), steps[1..])
    else None
  }

  lemma {:induction false} FromThen<E>(cfg: Config<E>, s: State<E>, a: seq<Step>, b: seq<Step>)
    ensures From(cfg, s, a + b) ==
            match From(cfg, s, a) case None => None case Some(t) => From(cfg, t, b)
    decreases |a|
  {
    hide Enabled, Apply;
    if |a| == 0 {
      assert a + b == b;
    } else {
      assert (a + b)[1..] == a[1..] + b;
      if Enabled(cfg, s, a[0]) {
        FromThen(cfg, Apply(cfg, s, a[0]), a[1..], b);
      }
    }
  }

  /** Taking steps from a reached state gives a reached state. */
  lemma {:induction false} RunThen<E>(cfg: Config<E>, a: seq<Step>, b: seq<Step>)
    requires Run(cfg, a).Some?
    ensures Run(cfg, a + b) == From(cfg, Run(cfg, a).value, b)
    decreases |b|
  {
    hide Enabled, Apply;
    if |b| == 0 {
      assert a + b == a;
    } else {
      var n := |b| - 1;
      RunThen(cfg, a, b[..n]);
      FromThen(cfg, Run(cfg, a).value, b[..n], [b[n]]);
      assert b == b[..n] + [b[n]];
      assert (a + b)[..|a + b| - 1] == a + b[..n];
      if Run(cfg, a + b[..n]).Some? && Enabled(cfg, Run(cfg, a + b[..n]).value, b[n]) {
      }
    }
  }

  lemma Extend<E>(cfg: Config<E>, s: State<E>, steps: seq<Step>, at: State<E>, step: Step)
    returns (more: seq<Step>, next: State<E>)
    requires From(cfg, s, steps) == Some(at) && Enabled(cfg, at, step)
    ensures more == steps + [step] && next == Apply(cfg, at, step)
    ensures From(cfg, s, more) == Some(next)
  {
    more, next := steps + [step], Apply(cfg, at, step);
    hide Apply, Enabled;
    FromThen(cfg, s, steps, [step]);
  }

  // ---- What the other threads do while the loop is between two of its steps ----

  ghost predicate Others(steps: seq<Step>) {
    forall i :: 0 <= i < |steps| ==> !steps[i].ByLoop?
  }

  /** The other threads can take `steps` from `s`, and `arrived` is what they enqueue by them. */
  ghost predicate Meanwhile<E>(cfg: Config<E>, s: State<E>, steps: seq<Step>, arrived: seq<Item<E>>) {
    Others(steps) && From(cfg, s, steps).Some? && From(cfg, s, steps).value.channel == s.channel + arrived
  }

  /**
   What a turn that begins in `s` observes: the others take `first` before it tests for the end, which they
   have reached if `over`, and `second` before it looks at the channel, which they have closed if `gone`.
   */
  ghost predicate Interleaved<E>(cfg: Config<E>, s: State<E>, first: seq<Step>, early: seq<Item<E>>, over: bool,
                                 second: seq<Step>, late: seq<Item<E>>, gone: bool) {
    && Meanwhile(cfg, s, first, early)
    && var tested := From(cfg, s, first).value;
       && over == (tested.childExited && ReaderGone(tested.reader) && tested.writer == Done)
       && Meanwhile(cfg, tested.(phase := Receiving), second, late)
       && gone == ReaderGone(From(cfg, tested.(phase := Receiving), second).value.reader)
  }

  lemma OtherKeepsTheLoop<E>(cfg: Config<E>, s: State<E>, step: Step)
    requires Enabled(cfg, s, step) && !step.ByLoop?
    ensures var t := Apply(cfg, s, step); t.vars == s.vars && t.phase == s.phase && t.reading == s.reading && s.now <= t.now
  {
    hide ReadTurn, AfterTurn, Drained;
  }

  /** The loop's own fields and its place in the turn are no one else's to change. */
  lemma {:induction false} OthersKeepTheLoop<E>(cfg: Config<E>, s: State<E>, steps: seq<Step>)
    requires Others(steps) && From(cfg, s, steps).Some?
    ensures var t := From(cfg, s, steps).value;
      t.vars == s.vars && t.phase == s.phase && t.reading == s.reading && s.now <= t.now
    decreases |steps|
  {
    hide Enabled, Apply;
    if |steps| > 0 {
      OtherKeepsTheLoop(cfg, s, steps[0]);
      OthersKeepTheLoop(cfg, Apply(cfg, s, steps[0]), steps[1..]);
    }
  }

  /** The loop's own steps among `steps` are all of `allowed`. */
  ghost predicate LoopTakes(steps: seq<Step>, allowed: set<LoopStep>) {
    forall i :: 0 <= i < |steps| && steps[i].ByLoop? ==> steps[i].l in allowed
  }

  lemma LoopTakesBoth(a: seq<Step>, b: seq<Step>, x: set<LoopStep>, y: set<LoopStep>)
    requires LoopTakes(a, x) && LoopTakes(b, y)
    ensures LoopTakes(a + b, x + y)
  {
  }

  /** The steps that draining takes, and the ones that end a turn. */
  const DRAINING := {DrainOne, FindEmpty}

  function Looking(answered: Control): set<LoopStep> {
    {Receive(answered), FindDisconnected, Wait}
  }

  /** The steps of a turn before its deadline, with what the watch answered. */
  function Turning(polled: Control, answered: Control): set<LoopStep> {
    {CheckFinished, Poll(polled)} + Looking(answered)
  }

  class Supervision<E> {
    var channel: seq<Item<E>>
    var events: seq<E>
    var streamError: Option<StreamError>
    var readFailure: Option<ReadFailure>
    var timedOut: bool
    var ended: bool
    var stopped: Option<string>

    function Fields(): Vars<E>
      reads this
    {
      Vars(events, streamError, readFailure, timedOut, ended, stopped)
    }

    constructor ()
      ensures Fields() == Initial<E>().vars && channel == []
    {
      channel, events, streamError, readFailure := [], [], None, None;
      timedOut, ended, stopped := false, false, None;
    }

    /** Take what was delivered, without waiting, when the deadline has fired. */
    method DrainDelivered(ghost cfg: Config<E>, ghost s: State<E>) returns (ghost steps: seq<Step>, ghost t: State<E>)
      requires s.phase == Emptying && s.vars == Fields() && s.channel == channel
      modifies this
      ensures From(cfg, s, steps) == Some(t) && t.phase == Left && LoopTakes(steps, DRAINING)
      ensures Fields() == t.vars && channel == t.channel
      ensures timedOut == old(timedOut) && stopped == old(stopped)
    {
      hide ReaderEnabled, ReaderApply, OutsideEnabled, OutsideApply, StartTurn, TakeItem;
      steps, t := [], s;
      var open := true;
      while open && |channel| > 0
        invariant From(cfg, s, steps) == Some(t) && LoopTakes(steps, DRAINING)
        invariant Fields() == t.vars && channel == t.channel
        invariant t.phase == if open then Emptying else Left
        invariant timedOut == old(timedOut) && stopped == old(stopped)
        decreases |channel|
      {
        var item := channel[0];
        steps, t := Extend(cfg, s, steps, t, ByLoop(DrainOne));
        channel := channel[1..];
        match item {
          case Event(event) => events := events + [event];
          case BadLine(e) =>
            if streamError.None? {
              streamError := Some(e);
            }
          case Ended(_) => open := false;
        }
      }
      if open {
        steps, t := Extend(cfg, s, steps, t, ByLoop(FindEmpty));
      }
    }

    /** One item received from the channel, and what the watch answers when it is an event. */
    method TakeNext(ghost cfg: Config<E>, ghost s: State<E>, control: Control) returns (left: bool)
      requires s.phase == Receiving && !ended && |channel| > 0
      requires s.vars == Fields() && s.channel == channel
      modifies this
      ensures var t := LoopApply(cfg, s, Receive(control));
        Fields() == t.vars && channel == t.channel && left == (t.phase == Left)
    {
      var item := channel[0];
      channel := channel[1..];
      left := false;
      match item {
        case Event(event) =>
          events := events + [event];
          if control.Stop? {
            stopped, left := Some(control.reason), true;
          }
        case BadLine(e) =>
          if streamError.None? {
            streamError := Some(e);
          }
        case Ended(failure) => readFailure, ended := failure, true;
      }
    }

    /** What the loop does with the channel it finds: an item, a closed channel, or a wait that took a tick. */
    method LookAtChannel(ghost cfg: Config<E>, ghost s: State<E>, gone: bool, answered: Control)
      returns (left: bool, ghost steps: seq<Step>, ghost t: State<E>)
      requires s.phase == Receiving && s.vars == Fields() && s.channel == channel
      requires s.reading <= s.now && gone == ReaderGone(s.reader)
      modifies this
      ensures From(cfg, s, steps) == Some(t) && LoopTakes(steps, Looking(answered))
      ensures Fields() == t.vars && channel == t.channel
      ensures t.phase == if left then Left else Top
    {
      if ended || (|channel| == 0 && !gone) {
        ghost var ticked := Apply(cfg, s, Outside(ClockTicks));
        steps, t := Extend(cfg, s, [Outside(ClockTicks)], ticked, ByLoop(Wait));
        left := false;
      } else if |channel| > 0 {
        steps, t := [ByLoop(Receive(answered))], Apply(cfg, s, ByLoop(Receive(answered)));
        left := TakeNext(cfg, s, answered);
      } else {
        steps, t := [ByLoop(FindDisconnected)], Apply(cfg, s, ByLoop(FindDisconnected));
        readFailure, ended := Some(ReaderLost), true;
        left := false;
      }
    }

    /**
     The end of a turn: `meanwhile` is what the other threads do until the receive returns, and `arrived`
     what they enqueue by then.
     */
    method ReceiveOrWait(ghost cfg: Config<E>, ghost s: State<E>, ghost meanwhile: seq<Step>, arrived: seq<Item<E>>,
                         gone: bool, answered: Control)
      returns (left: bool, ghost steps: seq<Step>, ghost t: State<E>)
      requires s.phase == Receiving && s.vars == Fields() && s.channel == channel && s.reading <= s.now
      requires Meanwhile(cfg, s, meanwhile, arrived)
      requires gone == ReaderGone(From(cfg, s, meanwhile).value.reader)
      modifies this
      ensures From(cfg, s, steps) == Some(t) && LoopTakes(steps, Looking(answered))
      ensures Fields() == t.vars && channel == t.channel
      ensures t.phase == if left then Left else Top
    {
      hide Apply, Enabled;
      OthersKeepTheLoop(cfg, s, meanwhile);
      ghost var at, rest := From(cfg, s, meanwhile).value, [];
      channel := channel + arrived;
      left, rest, t := LookAtChannel(cfg, at, gone, answered);
      FromThen(cfg, s, meanwhile, rest);
      LoopTakesBoth(meanwhile, rest, {}, Looking(answered));
      assert {} + Looking(answered) == Looking(answered);
      steps := meanwhile + rest;
    }

    /**
     The part of a turn after the deadline was found to be in the future. The other threads take `first`
     before the end is tested and `second` before the channel is looked at.
     */
    method CheckAndReceive(ghost cfg: Config<E>, ghost s: State<E>,
                           ghost first: seq<Step>, early: seq<Item<E>>, over: bool,
                           ghost second: seq<Step>, late: seq<Item<E>>, gone: bool, polled: Control, answered: Control)
      returns (left: bool, ghost steps: seq<Step>, ghost t: State<E>)
      requires s.phase == Checking && s.vars == Fields() && s.channel == channel && s.reading <= s.now
      requires Interleaved(cfg, s, first, early, over, second, late, gone)
      modifies this
      ensures From(cfg, s, steps) == Some(t) && LoopTakes(steps, Turning(polled, answered))
      ensures Fields() == t.vars && channel == t.channel
      ensures t.phase == if left then Left else Top
    {
      hide ReaderEnabled, ReaderApply, OutsideEnabled, OutsideApply, StartTurn, TakeItem, TakeDelivered;
      OthersKeepTheLoop(cfg, s, first);
      steps, t := first, From(cfg, s, first).value;
      channel := channel + early;
      steps, t := Extend(cfg, s, steps, t, ByLoop(CheckFinished));
      if ended && over {
        left := true;
        return;
      }
      steps, t := Extend(cfg, s, steps, t, ByLoop(Poll(polled)));
      if polled.Stop? {
        stopped, left := Some(polled.reason), true;
        return;
      }
      ghost var before, rest := t, [];
      left, rest, t := ReceiveOrWait(cfg, before, second, late, gone, answered);
      FromThen(cfg, s, steps, rest);
      LoopTakesBoth(steps, rest, {CheckFinished, Poll(polled)}, Looking(answered));
      steps := steps + rest;
    }

    /**
     One turn of the loop: `now` is the clock as this turn reads it, `over` whether the child has exited and
     both threads have finished when that is tested, `gone` whether the reader has dropped its end of the
     channel when it is looked at, and `polled` and `answered` what the watch says when it is asked.
     */
    method Turn(ghost cfg: Config<E>, ghost s: State<E>, deadline: nat, now: nat,
                ghost first: seq<Step>, early: seq<Item<E>>, over: bool,
                ghost second: seq<Step>, late: seq<Item<E>>, gone: bool, polled: Control, answered: Control)
      returns (left: bool, ghost steps: seq<Step>, ghost t: State<E>)
      requires s.phase == Top && s.vars == Fields() && s.channel == channel
      requires cfg.deadline == deadline && s.now == now
      requires now < deadline ==>
                 Interleaved(cfg, Apply(cfg, s, ByLoop(ReadClock)), first, early, over, second, late, gone)
      modifies this
      ensures From(cfg, s, steps) == Some(t) && LoopTakes(steps, {ReadClock} + Turning(polled, answered) + DRAINING)
      ensures Fields() == t.vars && channel == t.channel
      ensures t.phase == if left then Left else Top
    {
      ghost var at, rest := Apply(cfg, s, ByLoop(ReadClock)), [];
      steps, t := [ByLoop(ReadClock)], at;
      if now < deadline {
        left, rest, t := CheckAndReceive(cfg, at, first, early, over, second, late, gone, polled, answered);
      } else {
        timedOut, left := true, true;
        if !ended {
          rest, t := DrainDelivered(cfg, at);
        }
      }
      FromThen(cfg, s, steps, rest);
      LoopTakesBoth(steps, rest, {ReadClock}, Turning(polled, answered) + DRAINING);
      steps := steps + rest;
    }

    /** The diagnostic and the outcome, once the loop has been left. */
    method Conclude(d: Decoder<E>) returns (r: Supervised<E>)
      ensures r == Decide(d, Fields())
      ensures r.events == events && r.stopped == stopped && r.timedOut == timedOut
      ensures r.outcome == if timedOut || stopped.Some? || r.streamError.Some? then Interrupted else Completed
    {
      var hasResult := false;
      for i := 0 to |events|
        invariant hasResult <==> exists k | 0 <= k < i :: d.terminal(events[k])
      {
        hasResult := hasResult || d.terminal(events[i]);
      }
      var error := streamError;
      if error.None? {
        if readFailure.Some? {
          error := Some(ReadFailed(readFailure.value, |events|));
        } else if !hasResult && !timedOut && stopped.None? {
          error := Some(NoResult(|events|));
        }
      }
      var outcome := Completed;
      if timedOut || stopped.Some? || error.Some? {
        outcome := Interrupted;
      }
      r := Supervised(events, outcome, error, stopped, timedOut);
    }
  }
}
