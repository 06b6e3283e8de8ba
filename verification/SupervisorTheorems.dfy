/** What a supervised launch guarantees, over every run of the step system. */
module SupervisorTheorems {
  import opened Prelude
  import opened EventStream
  import opened TrustedPrefix
  import opened Supervisor
  import opened SupervisorInvariant

  /** The state a run of `cfg` has reached when its loop has been left. */
  ghost predicate Leaves<E>(cfg: Config<E>, steps: seq<Step>, s: State<E>) {
    Run(cfg, steps) == Some(s) && s.phase == Left
  }

  lemma EventsOfPrefix<E>(a: seq<Item<E>>, b: seq<Item<E>>)
    requires a <= b
    ensures EventsOf(a) <= EventsOf(b)
  {
    EventsOfAppend(a, b[|a|..]);
    assert b == a + b[|a|..];
  }

  lemma ReceivedIsPrefix<E>(cfg: Config<E>, s: State<E>)
    requires Conserved(cfg, s)
    ensures s.received + s.channel <= AllItems(cfg.source, cfg.decoder)
    ensures s.received <= AllItems(cfg.source, cfg.decoder)
    ensures s.reader.Died? ==> |s.received| < |AllItems(cfg.source, cfg.decoder)|
  {
    hide AllItems, Pending, InBounds;
    PrefixOfAppend(s.received + s.channel, Pending(cfg, s.reader));
    PrefixOfAppend(s.received, s.channel);
  }

  /**
   In every interleaving the kept events are a prefix of the trusted prefix. They are all of it
   when the loop ended by itself and the reader did not die.
   */
  lemma KeptEventsAreTrusted<E>(cfg: Config<E>, steps: seq<Step>)
    requires Run(cfg, steps).Some?
    ensures var s := Run(cfg, steps).value;
      && s.vars.events <= Trusted(cfg.source, cfg.decoder)
      && (s.phase == Left && !s.vars.timedOut && s.vars.stopped.None? && !s.reader.Died? ==>
            s.vars.events == Trusted(cfg.source, cfg.decoder))
  {
    InvByRun(cfg, steps);
    var s := Run(cfg, steps).value;
    ReceivedIsPrefix(cfg, s);
    if s.vars.ended && !s.reader.Died? {
      NothingAfterEnded(cfg, s);
    }
    hide AllItems, Run, Conserved, WatchSound, TimeSound, StartSound;
    EventsOfPrefix(s.received, AllItems(cfg.source, cfg.decoder));
  }

  lemma {:induction false} EventIsAnItem<E>(items: seq<Item<E>>, i: nat) returns (k: nat)
    requires i < |EventsOf(items)|
    ensures k < |items| && items[k] == Event(EventsOf(items)[i])
  {
    var n := |items| - 1;
    if i < |EventsOf(items[..n])| {
      k := EventIsAnItem(items[..n], i);
    } else {
      k := n;
    }
  }

  lemma {:induction false} ItemIsAnEvent<E>(items: seq<Item<E>>, k: nat) returns (i: nat)
    requires k < |items| && items[k].Event?
    ensures i < |EventsOf(items)| && EventsOf(items)[i] == items[k].event
  {
    var n := |items| - 1;
    if k < n {
      i := ItemIsAnEvent(items[..n], k);
    } else {
      i := |EventsOf(items[..n])|;
    }
  }

  lemma {:induction false} NoBadItem<E>(items: seq<Item<E>>)
    ensures FirstBad(items).None? <==> forall k :: 0 <= k < |items| ==> !items[k].BadLine?
  {
    if |items| > 0 {
      NoBadItem(items[..|items| - 1]);
      assert forall k :: 0 <= k < |items| - 1 ==> items[..|items| - 1][k] == items[k];
    }
  }

  lemma TerminalMeansEnd<E>(d: Decoder<E>, items: seq<Item<E>>)
    requires WellShaped(d, items)
    ensures HasTerminal(d, EventsOf(items)) <==> EndsInTerminal(d, items)
    ensures EndsInTerminal(d, items) ==> FirstBad(items).None?
  {
    if HasTerminal(d, EventsOf(items)) {
      var i :| 0 <= i < |EventsOf(items)| && d.terminal(EventsOf(items)[i]);
      var k := EventIsAnItem(items, i);
    }
    if EndsInTerminal(d, items) {
      var i := ItemIsAnEvent(items, |items| - 2);
    }
    NoBadItem(items);
    hide EventsOf, FirstBad;
  }

  /** What the loop has seen when it leaves by itself. */
  lemma LeftByItself<E>(cfg: Config<E>, steps: seq<Step>, s: State<E>)
    requires Leaves(cfg, steps, s) && !s.vars.timedOut && s.vars.stopped.None?
    ensures s.childExited && ReaderGone(s.reader) && s.writer == Done && s.reading < cfg.deadline
    ensures Tied(s.vars, s.received)
    ensures if s.reader.Died? then s.vars.readFailure == Some(ReaderLost)
            else |s.received| > 0 && s.received == AllItems(cfg.source, cfg.decoder) && Last(s.received) == Ended(s.vars.readFailure)
  {
    InvByRun(cfg, steps);
    if !s.reader.Died? {
      NothingAfterEnded(cfg, s);
    } else if |s.received| > 0 && Last(s.received).Ended? {
      NothingAfterEnded(cfg, s);
    }
    hide AllItems, Run, Conserved, WatchSound, Tied;
  }

  /**
   `Completed` holds exactly when neither the deadline nor the watch ended the run, the reader
   did not die, and the stream was read to a clean end whose last item before it is terminal.
   */
  lemma CompletedExactly<E>(cfg: Config<E>, steps: seq<Step>, s: State<E>)
    requires Leaves(cfg, steps, s)
    ensures Decide(cfg.decoder, s.vars).outcome == Completed <==>
            && !s.vars.timedOut && s.vars.stopped.None? && !s.reader.Died?
            && CleanEnd(cfg.decoder, AllItems(cfg.source, cfg.decoder))
  {
    if !s.vars.timedOut && s.vars.stopped.None? {
      LeftByItself(cfg, steps, s);
      var all := AllItems(cfg.source, cfg.decoder);
      assert WellShaped(cfg.decoder, all) by { ItemsAreWellShaped(cfg.source, cfg.decoder, 0, 0, 0); }
      TerminalMeansEnd(cfg.decoder, all);
    }
    hide AllItems, Run, EventsOf, FirstBad, HasTerminal, EndsInTerminal, WellShaped;
  }

  /**
   Which diagnostic a run that ended by itself reports: a malformed line before a read failure
   before the absence of a result.
   */
  lemma DiagnosticOrder<E>(cfg: Config<E>, steps: seq<Step>, s: State<E>)
    requires Leaves(cfg, steps, s) && !s.vars.timedOut && s.vars.stopped.None?
    ensures var all := AllItems(cfg.source, cfg.decoder);
      && |all| > 0 && Last(all).Ended?
      && var error := Decide(cfg.decoder, s.vars).streamError;
      if FirstBad(s.received).Some? then error == FirstBad(s.received)
      else if s.reader.Died? then error == Some(ReadFailed(ReaderLost, |s.vars.events|))
      else if Last(all).failure.Some? then error == Some(ReadFailed(Last(all).failure.value, |Trusted(cfg.source, cfg.decoder)|))
      else if EndsInTerminal(cfg.decoder, all) then error == None
      else error == Some(NoResult(|Trusted(cfg.source, cfg.decoder)|))
  {
    LeftByItself(cfg, steps, s);
    var all := AllItems(cfg.source, cfg.decoder);
    assert WellShaped(cfg.decoder, all) by { ItemsAreWellShaped(cfg.source, cfg.decoder, 0, 0, 0); }
    TerminalMeansEnd(cfg.decoder, all);
    hide AllItems, Run, EventsOf, FirstBad, HasTerminal, EndsInTerminal;
  }

  /** A deadline or a stop alone never reads as the absence of a result. */
  lemma InterruptionIsNotNoResult<E>(cfg: Config<E>, steps: seq<Step>, s: State<E>)
    requires Leaves(cfg, steps, s) && (s.vars.timedOut || s.vars.stopped.Some?)
    ensures var r := Decide(cfg.decoder, s.vars);
      && r.outcome == Interrupted
      && r.streamError == (if FirstBad(s.received).Some? then FirstBad(s.received)
                           else if s.vars.readFailure.Some?
                           then Some(ReadFailed(s.vars.readFailure.value, |r.events|)) else None)
  {
    InvByRun(cfg, steps);
    hide Conserved, Run, EventsOf, FirstBad, HasTerminal, TimeSound, WatchSound, StartSound, EndingSound;
  }

  /**
   The watch sees the kept events, once each and in order. Only at the deadline can more be
   kept than was shown, and then everything received or enqueued when it fired is kept. After a
   stop the list ends at the last event shown.
   */
  lemma WatchSeesWhatIsKept<E>(cfg: Config<E>, steps: seq<Step>, s: State<E>)
    requires Leaves(cfg, steps, s)
    ensures s.shown <= s.vars.events
    ensures !s.vars.timedOut || s.vars.stopped.Some? ==> s.shown == s.vars.events
    ensures s.vars.timedOut ==> EventsOf(s.backlog) <= s.vars.events
    ensures s.vars.timedOut && FirstBad(s.backlog).Some? ==>
              Decide(cfg.decoder, s.vars).streamError == FirstBad(s.backlog)
  {
    InvByRun(cfg, steps);
    hide Conserved, Run, TimeSound, StartSound, EndingSound;
    if s.vars.timedOut {
      EventsOfPrefix(s.backlog, s.received);
      if FirstBad(s.backlog).Some? {
        FirstBadPrefix(s.backlog, s.received);
      }
    }
    hide EventsOf, FirstBad, HasTerminal;
  }

  lemma {:induction false} FirstBadPrefix<E>(a: seq<Item<E>>, b: seq<Item<E>>)
    requires a <= b && FirstBad(a).Some?
    ensures FirstBad(b) == FirstBad(a)
    decreases |b|
  {
    if |a| < |b| {
      FirstBadPrefix(a, b[..|b| - 1]);
    } else {
      assert a == b;
    }
  }

  /** A refused confirmation: nothing was started, nothing was written, and that is what is reported. */
  ghost predicate RefusedWith<E>(s: State<E>, reason: string) {
    && s.phase == Left && s.reader.NotStarted? && s.writer == Idle && s.written == 0
    && s.vars == Vars([], None, None, false, false, Some(reason))
  }

  lemma RefusalKept<E>(cfg: Config<E>, s: State<E>, step: Step, reason: string)
    requires Inv(cfg, s) && Enabled(cfg, s, step)
    requires step == ByLoop(RefuseSpawn(reason)) || RefusedWith(s, reason)
    ensures RefusedWith(Apply(cfg, s, step), reason)
  {
    hide Conserved, TimeSound, WatchSound, Tied, ReadTurn;
  }

  lemma RefusalReported<E>(cfg: Config<E>, s: State<E>, reason: string)
    requires RefusedWith(s, reason)
    ensures s.written == 0 && s.writer == Idle
    ensures Decide(cfg.decoder, s.vars) == Supervised([], Interrupted, None, Some(reason), false)
  {
  }

  lemma {:induction false} RefusalWritesNothing<E>(cfg: Config<E>, steps: seq<Step>, reason: string)
    requires Run(cfg, steps).Some? && ByLoop(RefuseSpawn(reason)) in steps
    ensures var s := Run(cfg, steps).value;
      && s.written == 0 && s.writer == Idle
      && Decide(cfg.decoder, s.vars) == Supervised([], Interrupted, None, Some(reason), false)
      && RefusedWith(s, reason)
  {
    hide EventsOf, RefusedWith, Decide, Inv, Apply, Enabled;
    var n := |steps| - 1;
    var before := Run(cfg, steps[..n]).value;
    InvByRun(cfg, steps[..n]);
    if steps[n] != ByLoop(RefuseSpawn(reason)) {
      RefusalWritesNothing(cfg, steps[..n], reason);
    }
    RefusalKept(cfg, before, steps[n], reason);
    RefusalReported(cfg, Run(cfg, steps).value, reason);
  }

  // ---- Termination ----

  /** However the other threads behave, the turns are bounded by the items and the clock. */
  lemma TurnsAreBounded<E>(cfg: Config<E>, steps: seq<Step>)
    requires Run(cfg, steps).Some?
    ensures var s := Run(cfg, steps).value;
      && s.turns <= |AllItems(cfg.source, cfg.decoder)| + cfg.deadline + 1
      && |s.received| <= |AllItems(cfg.source, cfg.decoder)| <= STREAM_LIMIT + 1
  {
    InvByRun(cfg, steps);
    ReceivedIsPrefix(cfg, Run(cfg, steps).value);
    ItemsAreWellShaped(cfg.source, cfg.decoder, 0, 0, 0);
    hide Conserved, Run, Tied, StartSound, WatchSound, WellShaped;
  }

  function LoopSteps(steps: seq<Step>): nat {
    if |steps| == 0 then 0
    else LoopSteps(steps[..|steps| - 1]) + One(Last(steps).ByLoop?)
  }

  /** The steps the loop may have taken by each point of a turn. */
  ghost function Budget<E>(s: State<E>): int {
    match s.phase
    case Spawned => 0
    case Top => 4 * s.turns + 1
    case Checking => 4 * s.turns - 2
    case Polling => 4 * s.turns - 1
    case Receiving => 4 * s.turns
    case Emptying => 4 * s.turns - 2 + |s.received|
    case Left => 4 * s.turns + 1 + |s.received|
  }

  lemma BudgetGrowsByLoop<E>(cfg: Config<E>, s: State<E>, l: LoopStep)
    requires LoopEnabled(cfg, s, l)
    ensures Budget(LoopApply(cfg, s, l)) >= Budget(s) + 1
  {
    hide Accept, AcceptDelivered;
  }

  lemma BudgetGrows<E>(cfg: Config<E>, s: State<E>, step: Step)
    requires Enabled(cfg, s, step)
    ensures Budget(Apply(cfg, s, step)) >= Budget(s) + One(step.ByLoop?)
  {
    match step
    case ByLoop(l) =>
      BudgetGrowsByLoop(cfg, s, l);
      hide LoopApply, LoopEnabled, Budget;
    case ByReader(r) => hide ReadTurn, AfterTurn;
    case Outside(o) =>
  }

  lemma {:induction false} LoopStepsWithinBudget<E>(cfg: Config<E>, steps: seq<Step>)
    requires Run(cfg, steps).Some?
    ensures LoopSteps(steps) <= Budget(Run(cfg, steps).value)
  {
    hide Apply, Enabled, Budget;
    if |steps| > 0 {
      LoopStepsWithinBudget(cfg, steps[..|steps| - 1]);
      BudgetGrows(cfg, Run(cfg, steps[..|steps| - 1]).value, Last(steps));
    } else {
      assert Budget(Initial<E>()) == 0 by { BudgetInitially<E>(); }
    }
  }

  lemma BudgetInitially<E>()
    ensures Budget(Initial<E>()) == 0
  {
  }

  /** No run of any length holds the supervising loop past a bound fixed before it started. */
  lemma LoopTerminates<E>(cfg: Config<E>, steps: seq<Step>)
    requires Run(cfg, steps).Some?
    ensures LoopSteps(steps) <= 5 * STREAM_LIMIT + 4 * cfg.deadline + 10
  {
    LoopStepsWithinBudget(cfg, steps);
    TurnsAreBounded(cfg, steps);
    hide Run, LoopSteps, AllItems;
  }

  /**
   The loop is never blocked by another thread: before it is left it has a step to take, at
   latest after one tick of the clock.
   */
  lemma LoopNeverBlocks<E>(cfg: Config<E>, steps: seq<Step>) returns (l: LoopStep)
    requires Run(cfg, steps).Some? && Run(cfg, steps).value.phase != Left
    ensures var s := Run(cfg, steps).value;
      LoopEnabled(cfg, s, l) || LoopEnabled(cfg, OutsideApply(cfg, s, ClockTicks), l)
  {
    var s := Run(cfg, steps).value;
    assert s.reading <= s.now by { InvByRun(cfg, steps); }
    hide Run;
    l := if s.phase == Spawned then ConfirmSpawn
         else if s.phase == Top then ReadClock
         else if s.phase == Checking then CheckFinished
         else if s.phase == Polling then Poll(Continue)
         else if s.phase == Emptying then (if |s.channel| > 0 then DrainOne else FindEmpty)
         else if s.vars.ended then Wait
         else if |s.channel| > 0 then Receive(Continue)
         else if ReaderGone(s.reader) then FindDisconnected
         else Wait;
  }

  // ---- The deadline ----

  /** The `k`-th step reads the clock at or past the deadline, from the state `before`. */
  ghost predicate ReadsDeadline<E>(cfg: Config<E>, steps: seq<Step>, k: nat, before: State<E>) {
    && k < |steps| && steps[k] == ByLoop(ReadClock)
    && Run(cfg, steps[..k]) == Some(before) && before.phase == Top && before.now >= cfg.deadline
  }

  /** What the loop still does after such a reading: it drains, and its own account of the end is final. */
  ghost predicate OnlyDrained<E>(before: State<E>, s: State<E>) {
    && s.vars.timedOut && (s.phase == Emptying || s.phase == Left)
    && s.vars.ended == before.vars.ended && s.vars.readFailure == before.vars.readFailure
    && s.disconnected == before.disconnected && before.received <= s.received
    && s.backlog == before.received + before.channel
  }

  lemma OnlyDrainedKept<E>(cfg: Config<E>, before: State<E>, s: State<E>, step: Step)
    requires OnlyDrained(before, s) && Enabled(cfg, s, step)
    ensures OnlyDrained(before, Apply(cfg, s, step))
    ensures step.ByLoop? ==> step.l == DrainOne || step.l == FindEmpty
  {
    hide LoopApply, LoopEnabled, ReaderApply, ReaderEnabled;
    match step
    case ByLoop(l) => LoopOnlyDrains(cfg, before, s, l);
    case ByReader(r) => ReaderLeavesTheLoop(cfg, s, r);
    case Outside(o) =>
  }

  lemma LoopOnlyDrains<E>(cfg: Config<E>, before: State<E>, s: State<E>, l: LoopStep)
    requires OnlyDrained(before, s) && LoopEnabled(cfg, s, l)
    ensures OnlyDrained(before, LoopApply(cfg, s, l)) && (l == DrainOne || l == FindEmpty)
  {
  }

  /**
   The first turn whose reading of the clock reaches the deadline is the last: whatever the other
   threads do, the loop takes no later step but draining, and reports a timeout.
   */
  lemma {:induction false} DeadlineLeaves<E>(cfg: Config<E>, steps: seq<Step>, k: nat, before: State<E>)
    requires Run(cfg, steps).Some? && ReadsDeadline(cfg, steps, k, before)
    ensures OnlyDrained(before, Run(cfg, steps).value)
    ensures forall m :: k < m < |steps| && steps[m].ByLoop? ==> steps[m].l == DrainOne || steps[m].l == FindEmpty
  {
    hide Apply, Enabled, OnlyDrained;
    var n := |steps| - 1;
    if k == n {
      DeadlineRead(cfg, before);
    } else {
      assert steps[..n][..k] == steps[..k];
      DeadlineLeaves(cfg, steps[..n], k, before);
      OnlyDrainedKept(cfg, before, Run(cfg, steps[..n]).value, steps[n]);
      forall m | k < m < |steps| && steps[m].ByLoop? ensures steps[m].l == DrainOne || steps[m].l == FindEmpty {
        assert m < n ==> steps[m] == steps[..n][m];
      }
    }
  }

  lemma DeadlineRead<E>(cfg: Config<E>, s: State<E>)
    requires Enabled(cfg, s, ByLoop(ReadClock)) && s.now >= cfg.deadline
    ensures OnlyDrained(s, Apply(cfg, s, ByLoop(ReadClock)))
  {
  }

  /** Every timeout comes from such a reading. */
  lemma {:induction false} TimeoutHasItsReading<E>(cfg: Config<E>, steps: seq<Step>) returns (k: nat, before: State<E>)
    requires Run(cfg, steps).Some? && Run(cfg, steps).value.vars.timedOut
    ensures ReadsDeadline(cfg, steps, k, before)
  {
    hide Apply, Enabled;
    var n := |steps| - 1;
    before := Run(cfg, steps[..n]).value;
    if before.vars.timedOut {
      k, before := TimeoutHasItsReading(cfg, steps[..n]);
      assert steps[..n][..k] == steps[..k];
    } else {
      k := n;
      OnlyDeadlineTimesOut(cfg, before, steps[n]);
    }
  }

  lemma OnlyDeadlineTimesOut<E>(cfg: Config<E>, s: State<E>, step: Step)
    requires Enabled(cfg, s, step) && !s.vars.timedOut && Apply(cfg, s, step).vars.timedOut
    ensures step == ByLoop(ReadClock) && s.phase == Top && s.now >= cfg.deadline
  {
    hide LoopApply, LoopEnabled, ReaderApply, ReaderEnabled;
    match step
    case ByLoop(l) => OnlyClockTimesOut(cfg, s, l);
    case ByReader(r) => ReaderLeavesTheLoop(cfg, s, r);
    case Outside(o) =>
  }

  lemma OnlyClockTimesOut<E>(cfg: Config<E>, s: State<E>, l: LoopStep)
    requires LoopEnabled(cfg, s, l) && !s.vars.timedOut && LoopApply(cfg, s, l).vars.timedOut
    ensures l == ReadClock && s.phase == Top && s.now >= cfg.deadline
  {
  }

  lemma ReaderLeavesTheLoop<E>(cfg: Config<E>, s: State<E>, r: ReaderStep)
    requires ReaderEnabled(cfg, s, r)
    ensures var t := ReaderApply(cfg, s, r);
      && t.vars == s.vars && t.phase == s.phase && t.received == s.received
      && t.disconnected == s.disconnected && t.backlog == s.backlog
  {
    hide AfterTurn, ReadTurn, Drained;
  }

  /** What a loop that has not timed out has received of the reader's closing item. */
  function ClosedBy<E>(received: seq<Item<E>>): Option<ReadFailure> {
    if |received| > 0 && Last(received).Ended? then Last(received).failure else None
  }

  lemma EndedAtTop<E>(cfg: Config<E>, s: State<E>)
    requires EndingSound(s) && ExitSound(cfg, s) && s.phase == Top
    ensures s.vars.readFailure == if s.disconnected then Some(ReaderLost) else ClosedBy(s.received)
  {
  }

  lemma ClosedBeforeDeadline<E>(cfg: Config<E>, steps: seq<Step>, k: nat, before: State<E>)
    requires ReadsDeadline(cfg, steps, k, before)
    ensures Inv(cfg, before)
    ensures before.vars.readFailure == if before.disconnected then Some(ReaderLost) else ClosedBy(before.received)
  {
    hide Run, Conserved, Tied, WatchSound, TimeSound, StartSound, EndingSound, ExitSound, ClosedBy;
    InvByRun(cfg, steps[..k]);
    EndedAtTop(cfg, before);
  }

  /**
   A run that the deadline ended reports a malformed line first, and a read failure exactly when the
   reader was lost, or its failing end received, before the deadline was read.
   */
  lemma ReadFailureReportedExactly<E>(cfg: Config<E>, steps: seq<Step>, s: State<E>, k: nat, before: State<E>)
    requires Leaves(cfg, steps, s) && ReadsDeadline(cfg, steps, k, before)
    ensures var error := Decide(cfg.decoder, s.vars).streamError;
      if FirstBad(s.received).Some? then error == FirstBad(s.received)
      else if before.disconnected then error == Some(ReadFailed(ReaderLost, |s.vars.events|))
      else if ClosedBy(before.received).Some?
      then error == Some(ReadFailed(ClosedBy(before.received).value, |s.vars.events|))
      else error == None
  {
    hide Run, Inv, FirstBad, ClosedBy, HasTerminal;
    DeadlineLeaves(cfg, steps, k, before);
    ClosedBeforeDeadline(cfg, steps, k, before);
    InterruptionIsNotNoResult(cfg, steps, s);
  }

  /**
   A failing end that was received at all is lost exactly when the deadline's own drain received it, and
   every line before it was well formed.
   */
  lemma ReadFailureLostExactly<E>(cfg: Config<E>, steps: seq<Step>, s: State<E>, k: nat, before: State<E>)
    requires Leaves(cfg, steps, s) && ReadsDeadline(cfg, steps, k, before) && ClosedBy(s.received).Some?
    ensures var error := Decide(cfg.decoder, s.vars).streamError;
      if FirstBad(s.received).Some? then error == FirstBad(s.received)
      else if before.received == s.received
      then error == Some(ReadFailed(ClosedBy(s.received).value, |s.vars.events|))
      else error == None
  {
    hide Run, FirstBad, HasTerminal, Conserved, Decide, AllItems, Tied, WatchSound, TimeSound, StartSound, ExitSound;
    DeadlineLeaves(cfg, steps, k, before);
    ClosedBeforeDeadline(cfg, steps, k, before);
    ReadFailureReportedExactly(cfg, steps, s, k, before);
    InvByRun(cfg, steps);
    NothingAfterEnded(cfg, s);
    if ClosedBy(before.received).Some? {
      NothingAfterEnded(cfg, before);
    }
  }

  /** A pipe that fails at once, under a deadline one tick away. */
  function FailingLaunch(): Config<bool> {
    Config(Source([], Some("reset")), Decoder(line => None, line => false, (line, n) => Ok(true), event => event), [], 1)
  }

  function FailedRead(): Item<bool> {
    Ended(Some(WhileReading("reset")))
  }

  const TO_DEADLINE := [ByLoop(ConfirmSpawn), ByReader(Reads), ByReader(Sends), Outside(ClockTicks)]

  lemma RunOneMore<E>(cfg: Config<E>, steps: seq<Step>, step: Step)
    requires Run(cfg, steps).Some? && Enabled(cfg, Run(cfg, steps).value, step)
    ensures Run(cfg, steps + [step]) == Some(Apply(cfg, Run(cfg, steps).value, step))
  {
    hide Apply, Enabled;
    assert (steps + [step])[..|steps|] == steps;
  }

  lemma FailureIsRead()
    ensures ReadTurn(FailingLaunch().source, FailingLaunch().decoder, 0, 0, 0)
         == Turn<bool>.Stop(Some(WhileReading("reset")), false)
  {
  }

  lemma FailureIsEnqueued()
    ensures var reached := Run(FailingLaunch(), TO_DEADLINE);
      && reached.Some? && reached.value.phase == Top && reached.value.now == 1
      && reached.value.received == [] && reached.value.channel == [FailedRead()]
      && reached.value.vars == Vars([], None, None, false, false, None)
  {
    hide ReadTurn, FailingLaunch;
    var cfg := FailingLaunch();
    FailureIsRead();
    assert cfg.source.bytes == [] by { FailingSource(); }
    RunOneMore(cfg, [], TO_DEADLINE[0]);
    RunOneMore(cfg, [] + [TO_DEADLINE[0]], TO_DEADLINE[1]);
    RunOneMore(cfg, [] + [TO_DEADLINE[0]] + [TO_DEADLINE[1]], TO_DEADLINE[2]);
    RunOneMore(cfg, [] + [TO_DEADLINE[0]] + [TO_DEADLINE[1]] + [TO_DEADLINE[2]], TO_DEADLINE[3]);
    assert TO_DEADLINE == [] + [TO_DEADLINE[0]] + [TO_DEADLINE[1]] + [TO_DEADLINE[2]] + [TO_DEADLINE[3]];
  }

  lemma FailingSource()
    ensures FailingLaunch().source.bytes == [] && FailingLaunch().deadline == 1
  {
  }

  /** Enqueued before the deadline and received by its drain, the failure is in no report. */
  lemma DeliveredFailureIsLost()
    ensures var left := Run(FailingLaunch(), TO_DEADLINE + [ByLoop(ReadClock), ByLoop(DrainOne)]);
      && left.Some? && left.value.phase == Left && left.value.received == [FailedRead()]
      && Decide(FailingLaunch().decoder, left.value.vars) == Supervised([], Interrupted, None, None, true)
  {
    hide Run, ReadTurn, FailingLaunch, HasTerminal;
    var cfg := FailingLaunch();
    FailureIsEnqueued();
    FailingSource();
    RunOneMore(cfg, TO_DEADLINE, ByLoop(ReadClock));
    RunOneMore(cfg, TO_DEADLINE + [ByLoop(ReadClock)], ByLoop(DrainOne));
    assert TO_DEADLINE + [ByLoop(ReadClock)] + [ByLoop(DrainOne)] == TO_DEADLINE + [ByLoop(ReadClock), ByLoop(DrainOne)];
  }

  // ---- What the adapters rely on ----

  ghost predicate TerminalEndsEvents<E>(d: Decoder<E>, items: seq<Item<E>>) {
    forall k, m :: 0 <= k < m < |items| && items[k].Event? && d.terminal(items[k].event) ==> !items[m].Event?
  }

  lemma {:induction false} TerminalOnlyLast<E>(d: Decoder<E>, items: seq<Item<E>>)
    requires TerminalEndsEvents(d, items)
    ensures forall i :: 0 <= i < |EventsOf(items)| - 1 ==> !d.terminal(EventsOf(items)[i])
  {
    if |items| > 0 {
      var n := |items| - 1;
      TerminalOnlyLast(d, items[..n]);
      var events := EventsOf(items[..n]);
      if Last(items).Event? && |events| > 0 {
        var k := EventIsAnItem(items[..n], |events| - 1);
        assert items[k] == Event(Last(events));
      }
    }
  }

  /** Among the kept events, at most the last is terminal. */
  lemma OnlyLastIsTerminal<E>(cfg: Config<E>, steps: seq<Step>)
    requires Run(cfg, steps).Some?
    ensures var events := Run(cfg, steps).value.vars.events;
      && (forall i :: 0 <= i < |events| - 1 ==> !cfg.decoder.terminal(events[i]))
      && (HasTerminal(cfg.decoder, events) ==> |events| > 0 && cfg.decoder.terminal(Last(events)))
  {
    var s := Run(cfg, steps).value;
    assert Tied(s.vars, s.received) && Conserved(cfg, s) by {
      InvByRun(cfg, steps);
      hide Conserved, Tied, TimeSound, WatchSound, EndingSound, StartSound, ExitSound;
    }
    ReceivedIsPrefix(cfg, s);
    ItemsAreWellShaped(cfg.source, cfg.decoder, 0, 0, 0);
    PrefixEndsEvents(cfg.decoder, s.received, AllItems(cfg.source, cfg.decoder));
    hide Run, AllItems, Conserved, WellShaped, TerminalEndsEvents;
    TerminalOnlyLast(cfg.decoder, s.received);
  }

  lemma PrefixEndsEvents<E>(d: Decoder<E>, a: seq<Item<E>>, all: seq<Item<E>>)
    requires a <= all && WellShaped(d, all)
    ensures TerminalEndsEvents(d, a)
  {
  }
}
