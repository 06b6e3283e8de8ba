/** What the report of a supervised launch says, in terms of the steps the run took. */
module SupervisorReport {
  import opened Prelude
  import opened EventStream
  import opened TrustedPrefix
  import opened Supervisor
  import opened SupervisorInvariant
  import opened SupervisorTheorems

  /** The step stops the launch for `reason`: a refused spawn, or the watch's answer to a poll or to an event. */
  predicate Stops<E>(s: State<E>, step: Step, reason: string) {
    || step == ByLoop(RefuseSpawn(reason))
    || step == ByLoop(Poll(Control.Stop(reason)))
    || (step == ByLoop(Receive(Control.Stop(reason))) && |s.channel| > 0 && s.channel[0].Event?)
  }

  ghost predicate StopsAt<E>(cfg: Config<E>, steps: seq<Step>, k: nat, reason: string) {
    k < |steps| && Run(cfg, steps[..k]).Some? && Stops(Run(cfg, steps[..k]).value, steps[k], reason)
  }

  lemma LoopStops<E>(cfg: Config<E>, s: State<E>, l: LoopStep, reason: string)
    requires ExitSound(cfg, s) && LoopEnabled(cfg, s, l)
    ensures LoopApply(cfg, s, l).vars.stopped == Some(reason) <==>
              s.vars.stopped == Some(reason) || Stops(s, ByLoop(l), reason)
  {
  }

  lemma StepStops<E>(cfg: Config<E>, s: State<E>, step: Step, reason: string)
    requires Inv(cfg, s) && Enabled(cfg, s, step)
    ensures Apply(cfg, s, step).vars.stopped == Some(reason) <==>
              s.vars.stopped == Some(reason) || Stops(s, step, reason)
  {
    hide LoopApply, LoopEnabled, ReaderApply, ReaderEnabled, Conserved, Tied, WatchSound, TimeSound, EndingSound,
      StartSound, ExitSound;
    match step
    case ByLoop(l) => LoopStops(cfg, s, l, reason);
    case ByReader(r) => ReaderLeavesTheLoop(cfg, s, r);
    case Outside(o) =>
  }

  /** A run is stopped for a reason exactly when one of its steps stops it for that reason. */
  lemma {:induction false} StoppedExactly<E>(cfg: Config<E>, steps: seq<Step>, reason: string)
    requires Run(cfg, steps).Some?
    ensures Run(cfg, steps).value.vars.stopped == Some(reason) <==> exists k: nat :: StopsAt(cfg, steps, k, reason)
  {
    hide Apply, Enabled, Stops, Inv;
    var n := |steps| - 1;
    if n >= 0 {
      var front := steps[..n];
      StoppedExactly(cfg, front, reason);
      InvByRun(cfg, front);
      StepStops(cfg, Run(cfg, front).value, steps[n], reason);
      forall k: nat | k < n ensures StopsAt(cfg, steps, k, reason) <==> StopsAt(cfg, front, k, reason) {
        assert front[..k] == steps[..k];
      }
      if k: nat :| StopsAt(cfg, front, k, reason) {
        assert StopsAt(cfg, steps, k, reason);
      }
      if k: nat :| StopsAt(cfg, steps, k, reason) {
        assert k < n ==> StopsAt(cfg, front, k, reason);
      }
      assert Stops(Run(cfg, front).value, steps[n], reason) ==> StopsAt(cfg, steps, n, reason);
    }
  }

  /** A run times out exactly when one of its steps reads the clock at or past the deadline. */
  lemma TimedOutExactly<E>(cfg: Config<E>, steps: seq<Step>)
    requires Run(cfg, steps).Some?
    ensures Run(cfg, steps).value.vars.timedOut <==> exists k: nat, before :: ReadsDeadline(cfg, steps, k, before)
  {
    hide Run, ReadsDeadline;
    if Run(cfg, steps).value.vars.timedOut {
      var k, before := TimeoutHasItsReading(cfg, steps);
    }
    if k: nat, before :| ReadsDeadline(cfg, steps, k, before) {
      DeadlineLeaves(cfg, steps, k, before);
    }
  }

  /**
   The report of a launch holds the events it received, all and in order, the reason it was stopped for, and
   whether the deadline was read; and it is `Completed` or `Interrupted`.
   */
  lemma ReportExactly<E>(cfg: Config<E>, steps: seq<Step>, s: State<E>)
    requires Leaves(cfg, steps, s)
    ensures var r := Decide(cfg.decoder, s.vars);
      && r.events == EventsOf(s.received)
      && (r.timedOut <==> exists k: nat, before :: ReadsDeadline(cfg, steps, k, before))
      && (forall reason :: r.stopped == Some(reason) <==> exists k: nat :: StopsAt(cfg, steps, k, reason))
      && r.outcome == if r.timedOut || r.stopped.Some? || r.streamError.Some? then Interrupted else Completed
  {
    hide Run, ReadsDeadline, StopsAt, Conserved, WatchSound, TimeSound, StartSound, EndingSound, ExitSound, HasTerminal;
    InvByRun(cfg, steps);
    TimedOutExactly(cfg, steps);
    forall reason ensures s.vars.stopped == Some(reason) <==> exists k: nat :: StopsAt(cfg, steps, k, reason) {
      StoppedExactly(cfg, steps, reason);
    }
  }

  /**
   The reported events are a prefix of the trusted prefix, and all of it when neither deadline nor watch ended
   the run and the reader did not die. The watch was shown a prefix of them, and all of them unless the deadline
   fired, when everything received or enqueued by then is reported.
   */
  lemma ReportedEventsAreTrusted<E>(cfg: Config<E>, steps: seq<Step>, s: State<E>)
    requires Leaves(cfg, steps, s)
    ensures var r := Decide(cfg.decoder, s.vars);
      && r.events <= Trusted(cfg.source, cfg.decoder)
      && (!r.timedOut && r.stopped.None? && !s.reader.Died? ==> r.events == Trusted(cfg.source, cfg.decoder))
      && s.shown <= r.events && (!r.timedOut || r.stopped.Some? ==> s.shown == r.events)
      && (r.timedOut ==> EventsOf(s.backlog) <= r.events)
      && forall i :: 0 <= i < |r.events| - 1 ==> !cfg.decoder.terminal(r.events[i])
  {
    hide Run, EventsOf, HasTerminal, FirstBad;
    KeptEventsAreTrusted(cfg, steps);
    WatchSeesWhatIsKept(cfg, steps, s);
    OnlyLastIsTerminal(cfg, steps);
  }

  // ---- What the threads may do ----

  /** The channel never holds more than sixteen items, whatever the reader sends. */
  lemma {:induction false} ChannelIsBounded<E>(cfg: Config<E>, steps: seq<Step>)
    requires Run(cfg, steps).Some?
    ensures |Run(cfg, steps).value.channel| <= 16
  {
    hide Apply, Enabled;
    if |steps| > 0 {
      ChannelIsBounded(cfg, steps[..|steps| - 1]);
      StepKeepsBound(cfg, Run(cfg, steps[..|steps| - 1]).value, Last(steps));
    }
  }

  lemma StepKeepsBound<E>(cfg: Config<E>, s: State<E>, step: Step)
    requires Enabled(cfg, s, step) && |s.channel| <= 16
    ensures |Apply(cfg, s, step).channel| <= 16
  {
    hide Accept, AcceptDelivered, ReadTurn, AfterTurn;
  }

  /** A step of the reader is its own: to send while there is room, to die at work, and nothing outside supervision. */
  lemma ReaderStepsAre<E>(cfg: Config<E>, s: State<E>)
    ensures s.phase == Spawned || s.phase == Left ==> forall r :: !ReaderEnabled(cfg, s, r)
    ensures s.phase != Spawned && s.phase != Left ==>
              && (ReaderEnabled(cfg, s, Sends) <==> s.reader.Sending? && |s.channel| < 16)
              && (ReaderEnabled(cfg, s, Dies) <==> s.reader.Reading? || s.reader.DrainingPipe? || s.reader.Sending?)
              && (ReaderEnabled(cfg, s, Drains) <==> s.reader.DrainingPipe?)
              && (ReaderEnabled(cfg, s, Closes) <==> s.reader.Closing?)
  {
  }

  /** The writer, the child and the clock each change what is theirs, and nothing of the loop's or the reader's. */
  lemma OutsideStepsAre<E>(cfg: Config<E>, s: State<E>)
    ensures OutsideEnabled(cfg, s, ChildExits) && OutsideApply(cfg, s, ChildExits) == s.(childExited := true)
    ensures OutsideEnabled(cfg, s, ClockTicks) && OutsideApply(cfg, s, ClockTicks) == s.(now := s.now + 1)
    ensures OutsideEnabled(cfg, s, WriterFinishes) <==> s.writer == Writing
    ensures s.writer == Writing ==> OutsideApply(cfg, s, WriterFinishes) == s.(writer := Done)
    ensures OutsideEnabled(cfg, s, Writes) <==> s.writer == Writing && s.written < |cfg.prompt|
    ensures s.writer == Writing && s.written < |cfg.prompt| ==>
              OutsideApply(cfg, s, Writes) == s.(written := s.written + 1)
  {
  }

  /** A loop that finds the channel empty waits while the reader lives, and otherwise notices that it was lost. */
  lemma EmptyChannelIsTold<E>(cfg: Config<E>, s: State<E>, l: LoopStep)
    requires s.phase == Receiving && !s.vars.ended && s.channel == []
    ensures LoopEnabled(cfg, s, l) <==>
              if s.reader.Finished? || s.reader.Died? then l == FindDisconnected else l == Wait && s.now > s.reading
    ensures LoopEnabled(cfg, s, l) && l == FindDisconnected ==>
              LoopApply(cfg, s, l).vars == s.vars.(readFailure := Some(ReaderLost), ended := true)
  {
  }

  /** The loop ends by itself exactly when the end was received, the child exited and both threads are over. */
  lemma EndIsTested<E>(cfg: Config<E>, s: State<E>)
    requires s.phase == Checking
    ensures LoopApply(cfg, s, CheckFinished).phase == Left <==>
              s.vars.ended && s.childExited && (s.reader.Finished? || s.reader.Died?) && s.writer == Done
  {
  }
}
