/** The Codex adapter: its reading of a whole stream, and the map of a supervised turn. */
module CodexAdapter {
  import opened Prelude
  import EventStream
  import TrustedPrefix
  import opened Supervisor
  import opened SupervisorInvariant
  import opened SupervisorTheorems

  datatype Usage = Usage(input: nat, cached: nat, output: nat)

  datatype CodexEvent =
    | ThreadStarted(id: string)
    | TurnCompleted(usage: Option<Usage>)
    | TurnFailed(error: string)
    | Error
    | Progress(kind: string, item: Option<string>)

  datatype Claim = ClaimsCompleted | ClaimsFailed

  datatype Fault =
    | NoThread
    | ThreadChanged(first: string, second: string)
    | ErrorEvent
    | TerminalTurns(count: nat)
    | UnjudgedTurnFailure

  datatype StreamReading = StreamReading(
    outcome: Outcome,
    claim: Option<Claim>,
    threadId: Option<string>,
    usage: Option<Usage>,
    faults: seq<Fault>)

  // ---- What a completed turn is, said of the whole stream ----

  predicate IsTerminal(e: CodexEvent) {
    e.TurnCompleted? || e.TurnFailed?
  }

  function Terminals(events: seq<CodexEvent>): nat {
    if |events| == 0 then 0
    else Terminals(events[..|events| - 1]) + (if IsTerminal(Last(events)) then 1 else 0)
  }

  /** One completed turn and no failed one, no error, and one thread id however often it is named. */
  ghost predicate OneCompletedTurn(events: seq<CodexEvent>) {
    && Terminals(events) == 1
    && (forall i :: 0 <= i < |events| ==> !events[i].TurnFailed? && !events[i].Error?)
    && (exists i :: 0 <= i < |events| && events[i].ThreadStarted?)
    && (forall i, j :: 0 <= i < |events| && 0 <= j < |events| && events[i].ThreadStarted? && events[j].ThreadStarted? ==>
          events[i].id == events[j].id)
  }

  function FirstThread(events: seq<CodexEvent>): Option<string> {
    if |events| == 0 then None
    else
      var earlier := FirstThread(events[..|events| - 1]);
      if earlier.None? && Last(events).ThreadStarted? then Some(Last(events).id) else earlier
  }

  lemma {:induction false} FirstThreadFound(events: seq<CodexEvent>)
    ensures FirstThread(events).None? <==> forall i :: 0 <= i < |events| ==> !events[i].ThreadStarted?
    ensures FirstThread(events).Some? ==>
              exists i :: 0 <= i < |events| && events[i] == ThreadStarted(FirstThread(events).value)
  {
    if |events| > 0 {
      var n := |events| - 1;
      FirstThreadFound(events[..n]);
      assert forall i :: 0 <= i < n ==> events[..n][i] == events[i];
      if FirstThread(events[..n]).Some? {
        var i :| 0 <= i < n && events[..n][i] == ThreadStarted(FirstThread(events).value);
        assert events[i] == ThreadStarted(FirstThread(events).value);
      }
    }
  }

  /** The provider's own claim: that of the first terminal turn. */
  function FirstClaim(events: seq<CodexEvent>): Option<Claim> {
    if |events| == 0 then None
    else
      var earlier := FirstClaim(events[..|events| - 1]);
      if earlier.Some? || !IsTerminal(Last(events)) then earlier
      else Some(if Last(events).TurnCompleted? then ClaimsCompleted else ClaimsFailed)
  }

  function FirstUsage(events: seq<CodexEvent>): Option<Usage> {
    if |events| == 0 then None
    else
      var earlier := FirstUsage(events[..|events| - 1]);
      if earlier.None? && Last(events).TurnCompleted? then Last(events).usage else earlier
  }

  /** The event is a fault where it stands, after `before`. */
  ghost predicate FaultAt(events: seq<CodexEvent>, i: nat)
    requires i < |events|
  {
    || events[i].Error?
    || (events[i].ThreadStarted? && FirstThread(events[..i]).Some? && FirstThread(events[..i]).value != events[i].id)
  }

  /** The faults the events show one by one, in their order. */
  function FaultsFound(events: seq<CodexEvent>): seq<Fault> {
    if |events| == 0 then []
    else
      var n := |events| - 1;
      var first := FirstThread(events[..n]);
      FaultsFound(events[..n])
      + (match events[n]
         case Error => [ErrorEvent]
         case ThreadStarted(id) => if first.Some? && first.value != id then [ThreadChanged(first.value, id)] else []
         case _ => [])
  }

  predicate SomeTurnFailed(events: seq<CodexEvent>) {
    exists i :: 0 <= i < |events| && events[i].TurnFailed?
  }

  lemma {:induction false} FaultsFoundAre(events: seq<CodexEvent>)
    ensures FaultsFound(events) == [] <==> forall k :: 0 <= k < |events| ==> !FaultAt(events, k)
    ensures NoThread !in FaultsFound(events) && forall n :: TerminalTurns(n) !in FaultsFound(events)
  {
    if |events| > 0 {
      var n := |events| - 1;
      FaultsFoundAre(events[..n]);
      forall k | 0 <= k < n ensures FaultAt(events[..n], k) <==> FaultAt(events, k) {
        assert events[..n][..k] == events[..k];
      }
      assert FaultsFound(events) == FaultsFound(events[..n]) <==> !FaultAt(events, n);
    }
  }

  /** Every fault of the stream: a missing thread first, then those found, then the count and the failed turn. */
  function FaultsOf(events: seq<CodexEvent>): seq<Fault> {
    (if FirstThread(events).None? then [NoThread] else []) + FaultsFound(events)
    + (if Terminals(events) != 1 then [TerminalTurns(Terminals(events))] else [])
    + (if SomeTurnFailed(events) then [UnjudgedTurnFailure] else [])
  }

  /** The mapping of a whole stream, faults in the order found. */
  method Read(events: seq<CodexEvent>) returns (r: StreamReading)
    ensures r.outcome == if |r.faults| == 0 then Completed else Interrupted
    ensures r.threadId == FirstThread(events) && r.claim == FirstClaim(events) && r.usage == FirstUsage(events)
    ensures r.faults == FaultsOf(events)
  {
    hide SomeTurnFailed;
    var faults: seq<Fault> := [];
    var threadId, terminals, claim, usage, unjudged := None, 0, None, None, false;
    NoTurnFailed();
    for i := 0 to |events|
      invariant threadId == FirstThread(events[..i]) && terminals == Terminals(events[..i])
      invariant claim == FirstClaim(events[..i]) && usage == FirstUsage(events[..i])
      invariant faults == FaultsFound(events[..i])
      invariant unjudged == SomeTurnFailed(events[..i])
    {
      assert events[..i + 1][..i] == events[..i];
      OneMoreTurn(events, i);
      match events[i] {
        case ThreadStarted(id) =>
          if threadId.None? {
            threadId := Some(id);
          } else if threadId.value != id {
            faults := faults + [ThreadChanged(threadId.value, id)];
          }
        case TurnCompleted(u) =>
          terminals := terminals + 1;
          claim := if claim.None? then Some(ClaimsCompleted) else claim;
          usage := if usage.None? then u else usage;
        case TurnFailed(_) =>
          terminals := terminals + 1;
          claim := if claim.None? then Some(ClaimsFailed) else claim;
          unjudged := true;
        case Error => faults := faults + [ErrorEvent];
        case Progress(_, _) =>
      }
    }
    assert events[..|events|] == events;
    if threadId.None? {
      faults := [NoThread] + faults;
    }
    if terminals != 1 {
      faults := faults + [TerminalTurns(terminals)];
    }
    if unjudged {
      faults := faults + [UnjudgedTurnFailure];
    }
    r := StreamReading(if |faults| == 0 then Completed else Interrupted, claim, threadId, usage, faults);
  }

  lemma NoTurnFailed()
    ensures forall events: seq<CodexEvent> :: !SomeTurnFailed(events[..0])
  {
  }

  lemma OneMoreTurn(events: seq<CodexEvent>, i: nat)
    requires i < |events|
    ensures SomeTurnFailed(events[..i + 1]) <==> SomeTurnFailed(events[..i]) || events[i].TurnFailed?
  {
    assert events[..i + 1] == events[..i] + [events[i]];
    if SomeTurnFailed(events[..i]) {
      var k :| 0 <= k < i && events[..i][k].TurnFailed?;
      assert events[..i + 1][k].TurnFailed?;
    }
    if events[i].TurnFailed? {
      assert events[..i + 1][i].TurnFailed?;
    }
  }

  /** What an empty list of faults, and the two faults the map reads, say of the stream. */
  lemma FaultsSay(events: seq<CodexEvent>)
    ensures FaultsOf(events) == [] <==>
            && FirstThread(events).Some? && Terminals(events) == 1
            && (forall i :: 0 <= i < |events| ==> !FaultAt(events, i) && !events[i].TurnFailed?)
    ensures NoThread in FaultsOf(events) <==> FirstThread(events).None?
    ensures TerminalTurns(0) in FaultsOf(events) <==> Terminals(events) == 0
  {
    hide FaultsFound, FaultAt, FirstThread, Terminals;
    FaultsFoundAre(events);
    assert SomeTurnFailed(events) <==> !(forall i :: 0 <= i < |events| ==> !events[i].TurnFailed?);
  }

  /** The loop's verdict, read back as a property of the stream. */
  lemma FaultlessMeans(events: seq<CodexEvent>)
    ensures OneCompletedTurn(events) <==>
            && FirstThread(events).Some? && Terminals(events) == 1
            && (forall i :: 0 <= i < |events| ==> !FaultAt(events, i) && !events[i].TurnFailed?)
  {
    FirstThreadFound(events);
    forall i | 0 <= i < |events|
      ensures FaultAt(events, i) <==> events[i].Error? || ChangesThread(events, i)
    {
      FirstThreadFound(events[..i]);
    }
    if forall i :: 0 <= i < |events| ==> !FaultAt(events, i) {
      SameThread(events);
    } else {
      var i :| 0 <= i < |events| && FaultAt(events, i);
      FirstThreadFound(events[..i]);
    }
  }

  ghost predicate ChangesThread(events: seq<CodexEvent>, i: nat)
    requires i < |events|
  {
    && events[i].ThreadStarted?
    && FirstThread(events[..i]).Some? && FirstThread(events[..i]).value != events[i].id
  }

  lemma {:induction false} SameThread(events: seq<CodexEvent>)
    requires forall i :: 0 <= i < |events| ==> !ChangesThread(events, i)
    ensures forall i :: 0 <= i < |events| && events[i].ThreadStarted? ==> FirstThread(events) == Some(events[i].id)
  {
    if |events| > 0 {
      var n := |events| - 1;
      forall i | 0 <= i < n ensures !ChangesThread(events[..n], i) {
        assert events[..n][..i] == events[..i];
        assert !ChangesThread(events, i);
      }
      SameThread(events[..n]);
      assert !ChangesThread(events, n);
      forall i | 0 <= i < n && events[i].ThreadStarted? ensures FirstThread(events) == Some(events[i].id) {
        assert events[..n][i] == events[i];
      }
    }
  }

  /** Something no completed turn can contain: an error, a failed turn, a second terminal, a second id. */
  ghost predicate Broken(events: seq<CodexEvent>) {
    || Terminals(events) > 1
    || (exists i :: 0 <= i < |events| && (events[i].Error? || events[i].TurnFailed?))
    || (exists i, j :: 0 <= i < |events| && 0 <= j < |events| && events[i].ThreadStarted? && events[j].ThreadStarted?
                       && events[i].id != events[j].id)
  }

  lemma {:induction false} TerminalsAppend(a: seq<CodexEvent>, b: seq<CodexEvent>)
    ensures Terminals(a + b) == Terminals(a) + Terminals(b)
  {
    if |b| == 0 {
      assert a + b == a;
    } else {
      assert (a + b)[..|a + b| - 1] == a + b[..|b| - 1];
      TerminalsAppend(a, b[..|b| - 1]);
    }
  }

  /** A stream that broke never completes, however it goes on. */
  lemma BrokenStaysBroken(events: seq<CodexEvent>, more: seq<CodexEvent>)
    requires Broken(events)
    ensures !OneCompletedTurn(events + more)
  {
    TerminalsAppend(events, more);
    var all := events + more;
    assert forall i :: 0 <= i < |events| ==> all[i] == events[i];
  }

  // ---- The supervised turn on the seam ----

  datatype SeamEvent = SeamInit | SeamResult(claim: Claim) | SeamProgress(kind: string, item: Option<string>)

  predicate StartsThread(events: seq<CodexEvent>, i: nat)
    requires i < |events|
  {
    events[i].ThreadStarted? && FirstThread(events[..i]).None?
  }

  function SeamOf(events: seq<CodexEvent>, i: nat): SeamEvent
    requires i < |events|
  {
    match events[i]
    case ThreadStarted(_) => if StartsThread(events, i) then SeamInit else SeamProgress("thread.started", None)
    case TurnCompleted(_) => SeamResult(ClaimsCompleted)
    case TurnFailed(_) => SeamResult(ClaimsFailed)
    case Error => SeamProgress("error", None)
    case Progress(kind, item) => SeamProgress(kind, item)
  }

  /** One seam event for each native one; only the first started thread is the init. */
  method ToSeam(events: seq<CodexEvent>) returns (out: seq<SeamEvent>)
    ensures |out| == |events|
    ensures forall i :: 0 <= i < |events| ==> out[i] == SeamOf(events, i)
  {
    out := [];
    var seenInit := false;
    for i := 0 to |events|
      invariant |out| == i && seenInit == FirstThread(events[..i]).Some?
      invariant forall k :: 0 <= k < i ==> out[k] == SeamOf(events, k)
    {
      assert events[..i + 1][..i] == events[..i];
      var e := match events[i]
        case ThreadStarted(_) => if seenInit then SeamProgress("thread.started", None) else SeamInit
        case TurnCompleted(_) => SeamResult(ClaimsCompleted)
        case TurnFailed(_) => SeamResult(ClaimsFailed)
        case Error => SeamProgress("error", None)
        case Progress(kind, item) => SeamProgress(kind, item);
      seenInit := seenInit || events[i].ThreadStarted?;
      out := out + [e];
    }
  }

  /** The outcome and diagnostic the map gives what the supervisor read. */
  ghost predicate MapsTo(native: Supervised<CodexEvent>, x: Supervised<SeamEvent>) {
    var readToEnd := native.streamError.Some? && native.streamError.value.NoResult?;
    && |x.events| == |native.events|
    && (forall i :: 0 <= i < |x.events| ==> x.events[i] == SeamOf(native.events, i))
    && x.stopped == native.stopped && x.timedOut == native.timedOut
    && x.outcome == (if readToEnd && OneCompletedTurn(native.events) then Completed else Interrupted)
    && x.streamError == (if !readToEnd then native.streamError
                         else if FirstThread(native.events).None? then Some(EventStream.NoInit)
                         else if Terminals(native.events) == 0 then Some(EventStream.NoResult(|native.events|))
                         else None)
  }

  method Map(native: Supervised<CodexEvent>) returns (x: Supervised<SeamEvent>, reading: Option<StreamReading>)
    ensures MapsTo(native, x)
    ensures reading.Some? <==> native.streamError.Some? && native.streamError.value.NoResult?
  {
    var readToEnd := native.streamError.Some? && native.streamError.value.NoResult?;
    var events := ToSeam(native.events);
    var outcome, error := native.outcome, native.streamError;
    reading := None;
    if readToEnd {
      var r := Read(native.events);
      FaultlessMeans(native.events);
      FaultsSay(native.events);
      reading := Some(r);
      outcome := r.outcome;
      error := if NoThread in r.faults then Some(EventStream.NoInit)
               else if TerminalTurns(0) in r.faults then Some(EventStream.NoResult(|native.events|))
               else None;
    } else {
      outcome := Interrupted;
    }
    x := Supervised(events, outcome, error, native.stopped, native.timedOut);
  }

  ghost predicate OnlyMalformed(items: seq<EventStream.Item<CodexEvent>>) {
    forall k :: 0 <= k < |items| && items[k].BadLine? ==> items[k].error.Malformed?
  }

  ghost predicate DecodesOrMalformed(d: EventStream.Decoder<CodexEvent>) {
    forall line, n :: d.decode(line, n).Err? ==> d.decode(line, n).error.Malformed?
  }

  lemma TurnIsMalformed(src: EventStream.Source, d: EventStream.Decoder<CodexEvent>, pos: nat, total: nat, lines: nat)
    requires pos <= |src.bytes| && DecodesOrMalformed(d)
    ensures var t := EventStream.ReadTurn(src, d, pos, total, lines);
      t.DeliverLast? && t.item.BadLine? ==> t.item.error.Malformed?
  {
    hide EventStream.ReadUntil;
  }

  lemma {:induction false} BadLinesAreMalformed(
    src: EventStream.Source, d: EventStream.Decoder<CodexEvent>, pos: nat, total: nat, lines: nat)
    requires pos <= |src.bytes| && DecodesOrMalformed(d)
    ensures OnlyMalformed(EventStream.Items(src, d, pos, total, lines))
    decreases |src.bytes| - pos
  {
    hide EventStream.ReadTurn, EventStream.Items, DecodesOrMalformed;
    EventStream.ItemsUnfold(src, d, pos, total, lines);
    TurnIsMalformed(src, d, pos, total, lines);
    var t := EventStream.ReadTurn(src, d, pos, total, lines);
    if t.Skip? || t.Deliver? {
      BadLinesAreMalformed(src, d, pos + t.length, total + t.length, lines + 1);
    }
  }

  lemma {:induction false} FirstBadIsMalformed(items: seq<EventStream.Item<CodexEvent>>)
    requires OnlyMalformed(items)
    ensures FirstBad(items).Some? ==> FirstBad(items).value.Malformed?
  {
    if |items| > 0 {
      FirstBadIsMalformed(items[..|items| - 1]);
    }
  }

  /** The pipe was read to a clean end with no line refused. */
  ghost predicate ReadToCleanEnd(items: seq<EventStream.Item<CodexEvent>>) {
    && |items| > 0 && items[|items| - 1] == EventStream.Ended(None)
    && forall k :: 0 <= k < |items| ==> !items[k].BadLine?
  }

  /**
   In every interleaving of a launch whose decoder calls no event terminal, the turn is completed
   exactly when the stream was read to a clean end and is one completed turn.
   */
  lemma TurnCompletedExactly(cfg: Config<CodexEvent>, steps: seq<Step>, s: State<CodexEvent>, x: Supervised<SeamEvent>)
    requires Leaves(cfg, steps, s) && MapsTo(Decide(cfg.decoder, s.vars), x)
    requires forall e :: !cfg.decoder.terminal(e)
    requires DecodesOrMalformed(cfg.decoder)
    ensures x.outcome == Completed <==>
            && !s.vars.timedOut && s.vars.stopped.None? && !s.reader.Died?
            && ReadToCleanEnd(EventStream.AllItems(cfg.source, cfg.decoder))
            && OneCompletedTurn(TrustedPrefix.Trusted(cfg.source, cfg.decoder))
  {
    var all := EventStream.AllItems(cfg.source, cfg.decoder);
    assert FirstBad(s.received).Some? ==> FirstBad(s.received).value.Malformed? by {
      ReceivedOnlyMalformed(cfg, steps, s);
      FirstBadIsMalformed(s.received);
    }
    hide EventStream.AllItems, FirstBad, Run, OneCompletedTurn;
    if s.vars.timedOut || s.vars.stopped.Some? {
      InterruptionIsNotNoResult(cfg, steps, s);
    } else {
      DiagnosticOrder(cfg, steps, s);
      LeftByItself(cfg, steps, s);
      KeptEventsAreTrusted(cfg, steps);
      NoBadItem(s.received);
    }
    hide Decide;
  }

  lemma ReceivedOnlyMalformed(cfg: Config<CodexEvent>, steps: seq<Step>, s: State<CodexEvent>)
    requires Leaves(cfg, steps, s) && DecodesOrMalformed(cfg.decoder)
    ensures OnlyMalformed(s.received)
  {
    InvByRun(cfg, steps);
    ReceivedIsPrefix(cfg, s);
    BadLinesAreMalformed(cfg.source, cfg.decoder, 0, 0, 0);
    hide DecodesOrMalformed, Run, Conserved;
  }
}
