/**
 The Claude Code adapter: its native events, their mapping onto the seam, the fixed outcome
 table, and the execution built from what the supervisor read.
 */
module ClaudeAdapter {
  import opened Prelude
  import EventStream
  import TrustedPrefix
  import opened Supervisor
  import opened SupervisorTheorems

  datatype SystemKind = InitKind | HookStarted | HookResponseKind | PermissionDenied | OtherKind(word: string)

  datatype SystemEvent = SystemEvent(
    kind: SystemKind,
    version: Option<string>,
    tool: Option<string>,
    tools: Option<seq<string>>)

  datatype ToolUse = ToolUse(id: string, name: string, fields: map<string, string>)

  datatype ToolResult = ToolResult(useId: string, isError: bool)

  datatype ToolNote = ToolNote(id: string, notExecuted: bool)

  /** The blocks of a message; `Err` when a block of that kind cannot be read. */
  datatype Message = Message(
    uses: Result<seq<ToolUse>, string>,
    results: Result<seq<ToolResult>, string>,
    notes: seq<ToolNote>)

  /** One entry of the refusal record; `input` is the tool input, verbatim. */
  datatype PermissionDenial = PermissionDenial(tool: string, useId: string, input: string)

  datatype Subtype = Success | OtherSubtype(word: string)

  datatype TerminalReason = MaxTurns | OtherReason(word: string)

  datatype ResultEvent = ResultEvent(
    subtype: Subtype,
    isError: bool,
    reason: Option<TerminalReason>,
    turns: nat,
    cost: Option<real>,
    denials: seq<PermissionDenial>)

  datatype ProviderEvent =
    | System(system: SystemEvent)
    | Assistant(message: Message)
    | User(message: Message)
    | Terminal(result: ResultEvent)
    | Unmapped

  // ---- The seam ----

  datatype Capability = HookEnforcement | OtherCapability(token: string)

  datatype Classification = ClaimsCompleted | ClaimsFailed | ClaimsStopped

  datatype Testimony = Testimony(manifestDigest: string, visible: seq<string>)

  datatype SeamEvent =
    | Init(applied: seq<Capability>, providerVersion: Option<string>, context: Option<Testimony>)
    | Progress(of: ProviderEvent)
    | Refusal(denial: PermissionDenial)
    | Result(classification: Classification, cost: Option<real>)

  function RefusalEvents(denials: seq<PermissionDenial>): seq<SeamEvent> {
    seq(|denials|, i requires 0 <= i < |denials| => Refusal(denials[i]))
  }

  /** Every refusal on a seam stream, which is what the run supervisor counts. */
  function Refusals(events: seq<SeamEvent>): seq<SeamEvent> {
    Filter((e: SeamEvent) => e.Refusal?, events)
  }

  function ProviderClaim(r: ResultEvent): Classification {
    if r.reason == Some(MaxTurns) then ClaimsStopped
    else if r.isError then ClaimsFailed
    else ClaimsCompleted
  }

  /** What a terminal event is read as, with the provider's own claim beside the outcome. */
  datatype TerminalReading = TerminalReading(
    outcome: Outcome,
    providerClaim: Classification,
    refusalEntries: nat,
    completedTurns: nat)

  function Reading(r: ResultEvent, outcome: Outcome): Option<TerminalReading> {
    Some(TerminalReading(outcome, ProviderClaim(r), |r.denials|, r.turns))
  }

  /** The fixed outcome mapping; `None` is a terminal state it does not cover. */
  function ReadTerminal(r: ResultEvent): Option<TerminalReading> {
    if r.reason == Some(MaxTurns) then Reading(r, Interrupted)
    else if r.subtype.Success? then
      if |r.denials| > 0 then Reading(r, Refused)
      else if r.isError then Reading(r, Interrupted)
      else Reading(r, Completed)
    else None
  }

  predicate IsInit(e: ProviderEvent) {
    e.System? && e.system.kind.InitKind?
  }

  predicate IsHook(e: ProviderEvent) {
    e.System? && (e.system.kind.HookStarted? || e.system.kind.HookResponseKind?)
  }

  function Applied(granted: seq<Capability>, sawHook: bool): seq<Capability> {
    if sawHook then granted else Filter((c: Capability) => !c.HookEnforcement?, granted)
  }

  /** The seam events one native event becomes. */
  function SeamOf(e: ProviderEvent, granted: seq<Capability>, delivered: Option<Testimony>, sawHook: bool)
    : seq<SeamEvent>
  {
    if IsInit(e) then [Init(Applied(granted, sawHook), e.system.version, delivered)]
    else if e.Terminal? then RefusalEvents(e.result.denials) + [Result(ProviderClaim(e.result), e.result.cost)]
    else [Progress(e)]
  }

  function SeamStream(events: seq<ProviderEvent>, granted: seq<Capability>, delivered: Option<Testimony>)
    : seq<SeamEvent>
  {
    if |events| == 0 then []
    else
      var n := |events| - 1;
      SeamStream(events[..n], granted, delivered) + SeamOf(events[n], granted, delivered, SawHook(events[..n]))
  }

  predicate SawHook(events: seq<ProviderEvent>) {
    exists i | 0 <= i < |events| :: IsHook(events[i])
  }

  /** The version the last init event names, absent when it names none or there is no init event. */
  function InitVersion(events: seq<ProviderEvent>): Option<string> {
    if |events| == 0 then None
    else if IsInit(Last(events)) then Last(events).system.version
    else InitVersion(events[..|events| - 1])
  }

  function LastResult(events: seq<ProviderEvent>): Option<ResultEvent> {
    if |events| == 0 then None
    else if Last(events).Terminal? then Some(Last(events).result)
    else LastResult(events[..|events| - 1])
  }

  /** The tools the last init event says were applied, none when it says nothing. */
  function AppliedTools(events: seq<ProviderEvent>): seq<string> {
    if |events| == 0 then []
    else if IsInit(Last(events)) then Named(Last(events).system.tools, [])
    else AppliedTools(events[..|events| - 1])
  }

  /** The tools that denials in mid-stream name, in order; they are recorded and never counted. */
  function MidStreamDenials(events: seq<ProviderEvent>): seq<string> {
    if |events| == 0 then []
    else
      MidStreamDenials(events[..|events| - 1])
      + (if Last(events).System? && Last(events).system.kind.PermissionDenied?
         then [Named(Last(events).system.tool, "")] else [])
  }

  function Named<T>(given: Option<T>, otherwise: T): T {
    match given case Some(x) => x case None => otherwise
  }

  datatype Mapped = Mapped(
    events: seq<SeamEvent>,
    result: Option<ResultEvent>,
    version: string,
    appliedTools: seq<string>,
    midStreamDenials: seq<string>)

  method MapStream(events: seq<ProviderEvent>, granted: seq<Capability>, delivered: Option<Testimony>)
    returns (r: Option<Mapped>)
    ensures r.None? <==> InitVersion(events).None?
    ensures r.Some? ==>
              r.value == Mapped(SeamStream(events, granted, delivered), LastResult(events), InitVersion(events).value,
                                AppliedTools(events), MidStreamDenials(events))
  {
    hide ProviderClaim, Applied, RefusalEvents, IsHook;
    var out: seq<SeamEvent> := [];
    var result, version := None, None;
    var appliedTools: seq<string>, denials: seq<string> := [], [];
    var sawHook := false;
    for i := 0 to |events|
      invariant out == SeamStream(events[..i], granted, delivered)
      invariant result == LastResult(events[..i]) && version == InitVersion(events[..i])
      invariant appliedTools == AppliedTools(events[..i]) && denials == MidStreamDenials(events[..i])
      invariant sawHook == SawHook(events[..i])
    {
      assert events[..i + 1][..i] == events[..i];
      var e := events[i];
      match e {
        case System(s) =>
          if s.kind.InitKind? {
            version, appliedTools := s.version, Named(s.tools, []);
            out := out + [Init(Applied(granted, sawHook), s.version, delivered)];
          } else {
            if s.kind.PermissionDenied? {
              denials := denials + [Named(s.tool, "")];
            }
            out := out + [Progress(e)];
          }
        case Terminal(native) =>
          out := out + (RefusalEvents(native.denials) + [Result(ProviderClaim(native), native.cost)]);
          result := Some(native);
        case Assistant(_) => out := out + [Progress(e)];
        case User(_) => out := out + [Progress(e)];
        case Unmapped => out := out + [Progress(e)];
      }
      sawHook := sawHook || IsHook(e);
      assert SawHook(events[..i + 1]) <==> SawHook(events[..i]) || IsHook(events[i]) by {
        assert events[..i + 1][i] == events[i];
        assert forall k | 0 <= k < i :: events[..i][k] == events[..i + 1][k];
      }
    }
    assert events[..|events|] == events;
    r := match version case None => None case Some(v) => Some(Mapped(out, result, v, appliedTools, denials));
  }

  // ---- The execution ----

  datatype Execution = Execution(
    supervised: Supervised<SeamEvent>,
    terminal: Option<TerminalReading>,
    result: Option<ResultEvent>)

  function Natives(numbered: seq<(nat, ProviderEvent)>): seq<ProviderEvent> {
    seq(|numbered|, i requires 0 <= i < |numbered| => numbered[i].1)
  }

  function FirstResult(events: seq<ProviderEvent>): Option<ResultEvent> {
    if |events| == 0 then None
    else if events[0].Terminal? then Some(events[0].result)
    else FirstResult(events[1..])
  }

  method FindResult(events: seq<ProviderEvent>) returns (r: Option<ResultEvent>)
    ensures r == FirstResult(events)
  {
    for i := 0 to |events|
      invariant FirstResult(events) == FirstResult(events[i..])
    {
      if events[i].Terminal? {
        return Some(events[i].result);
      }
    }
    r := None;
  }

  /** The physical line of the last event, one when there is none. */
  function LastLine(native: Supervised<(nat, ProviderEvent)>): nat {
    if |native.events| > 0 then Last(native.events).0 else 1
  }

  /** What the mapping of a native supervision decides. */
  ghost predicate MapsTo(native: Supervised<(nat, ProviderEvent)>, granted: seq<Capability>,
                         delivered: Option<Testimony>, x: Supervised<SeamEvent>) {
    var events := Natives(native.events);
    && x.stopped == native.stopped && x.timedOut == native.timedOut
    && (if InitVersion(events).None? then
          && x.events == (match FirstResult(events) case None => [] case Some(r) => RefusalEvents(r.denials))
          && x.streamError == (if native.streamError.None? then Some(EventStream.NoInit) else native.streamError)
        else
          && x.events == SeamStream(events, granted, delivered)
          && (var last := LastResult(events);
              var unmapped := last.Some? && ReadTerminal(last.value).None?;
              && (!unmapped ==> x.streamError == native.streamError)
              && (unmapped ==> x.streamError == Some(EventStream.Malformed(LastLine(native), last.value.subtype.word)))
              && (x.streamError.None? ==>
                    x.outcome == if native.outcome == Completed && last.Some? then ReadTerminal(last.value).value.outcome
                                 else native.outcome)))
    && (x.streamError.Some? ==> x.outcome == Interrupted)
  }

  method MapNative(native: Supervised<(nat, ProviderEvent)>, granted: seq<Capability>, delivered: Option<Testimony>)
    returns (x: Execution)
    ensures MapsTo(native, granted, delivered, x.supervised)
    ensures x.result == if InitVersion(Natives(native.events)).Some? then LastResult(Natives(native.events))
                        else FirstResult(Natives(native.events))
    ensures x.terminal == if InitVersion(Natives(native.events)).Some? && x.result.Some? then ReadTerminal(x.result.value)
                          else None
  {
    var events := Natives(native.events);
    var out: seq<SeamEvent>, outcome, error := [], native.outcome, native.streamError;
    var resultLine := LastLine(native);
    var result := FindResult(events);
    var terminal := None;
    var mapped := MapStream(events, granted, delivered);
    match mapped {
      case Some(m) =>
        out, result := m.events, m.result;
        if result.Some? {
          terminal := ReadTerminal(result.value);
          if terminal.Some? {
            if outcome == Completed {
              outcome := terminal.value.outcome;
            }
          } else {
            error := Some(EventStream.Malformed(resultLine, result.value.subtype.word));
          }
        }
      case None =>
        if result.Some? {
          out := RefusalEvents(result.value.denials);
        }
        if error.None? {
          error := Some(EventStream.NoInit);
        }
    }
    if error.Some? {
      outcome := Interrupted;
    }
    x := Execution(Supervised(out, outcome, error, native.stopped, native.timedOut), terminal, result);
  }

  // ---- What the supervisor guarantees, and what the mapping keeps of it ----

  /** What every supervised native stream satisfies: only its last event can be terminal. */
  ghost predicate HandedOver(native: Supervised<(nat, ProviderEvent)>) {
    && (forall i :: 0 <= i < |native.events| - 1 ==> !native.events[i].1.Terminal?)
    && (native.outcome == Completed || native.outcome == Interrupted)
    && (native.outcome == Completed ==> native.streamError.None?)
    && (native.outcome == Completed ==> |native.events| > 0 && Last(native.events).1.Terminal?)
  }

  lemma SupervisorHandsOver(cfg: Config<(nat, ProviderEvent)>, steps: seq<Step>, s: State<(nat, ProviderEvent)>)
    requires Leaves(cfg, steps, s)
    requires forall e :: cfg.decoder.terminal(e) <==> e.1.Terminal?
    ensures HandedOver(Decide(cfg.decoder, s.vars))
  {
    OnlyLastIsTerminal(cfg, steps);
    hide Run;
  }

  /** The terminal event's denial entries, none when there is no terminal event. */
  function Denials(events: seq<ProviderEvent>): seq<PermissionDenial> {
    if |events| > 0 && Last(events).Terminal? then Last(events).result.denials else []
  }

  lemma {:induction false} RefusalsOfRefusals(denials: seq<PermissionDenial>)
    ensures Refusals(RefusalEvents(denials)) == RefusalEvents(denials)
  {
    if |denials| > 0 {
      assert RefusalEvents(denials)[1..] == RefusalEvents(denials[1..]);
      RefusalsOfRefusals(denials[1..]);
    }
  }

  lemma RefusalsOfOne(e: ProviderEvent, granted: seq<Capability>, delivered: Option<Testimony>, sawHook: bool)
    ensures Refusals(SeamOf(e, granted, delivered, sawHook)) ==
            if e.Terminal? then RefusalEvents(e.result.denials) else []
  {
    if e.Terminal? {
      var last := [Result(ProviderClaim(e.result), e.result.cost)];
      RefusalsOfRefusals(e.result.denials);
      FilterAppend((x: SeamEvent) => x.Refusal?, RefusalEvents(e.result.denials), last);
      assert Refusals(last) == [];
    }
  }

  lemma {:induction false} RefusalsOfStream(events: seq<ProviderEvent>, granted: seq<Capability>, delivered: Option<Testimony>)
    requires forall i :: 0 <= i < |events| - 1 ==> !events[i].Terminal?
    ensures Refusals(SeamStream(events, granted, delivered)) == RefusalEvents(Denials(events))
  {
    if |events| == 0 {
    } else {
      var n := |events| - 1;
      RefusalsOfStream(events[..n], granted, delivered);
      assert Denials(events[..n]) == [];
      RefusalsOfOne(events[n], granted, delivered, SawHook(events[..n]));
      FilterAppend((x: SeamEvent) => x.Refusal?, SeamStream(events[..n], granted, delivered),
                   SeamOf(events[n], granted, delivered, SawHook(events[..n])));
    }
  }

  lemma {:induction false} ResultIsLast(events: seq<ProviderEvent>)
    requires forall i :: 0 <= i < |events| - 1 ==> !events[i].Terminal?
    ensures FirstResult(events) == LastResult(events)
    ensures LastResult(events) == if |events| > 0 && Last(events).Terminal? then Some(Last(events).result) else None
  {
    NoResultBefore(events);
    if |events| > 1 {
      ResultIsLast(events[1..]);
    }
  }

  lemma {:induction false} NoResultBefore(events: seq<ProviderEvent>)
    requires forall i :: 0 <= i < |events| - 1 ==> !events[i].Terminal?
    ensures LastResult(events) == if |events| > 0 && Last(events).Terminal? then Some(Last(events).result) else None
  {
    if |events| > 0 && !Last(events).Terminal? {
      NoResultBefore(events[..|events| - 1]);
    }
  }

  /**
   Refusals are conserved: whether or not the stream could be mapped, the seam carries exactly
   the terminal event's denial entries, once each and in order, and nothing else as a refusal.
   */
  lemma RefusalsConserved(native: Supervised<(nat, ProviderEvent)>, granted: seq<Capability>,
                          delivered: Option<Testimony>, x: Supervised<SeamEvent>)
    requires HandedOver(native) && MapsTo(native, granted, delivered, x)
    ensures Refusals(x.events) == RefusalEvents(Denials(Natives(native.events)))
  {
    var events := Natives(native.events);
    ResultIsLast(events);
    RefusalsOfStream(events, granted, delivered);
    RefusalsOfRefusals(Denials(events));
  }

  predicate CleanSuccess(r: ResultEvent) {
    r.subtype.Success? && !r.isError && |r.denials| == 0 && r.reason != Some(MaxTurns)
  }

  /**
   The execution is completed exactly when the supervision was, the last init event named a
   version, and the terminal event is an error-free, undenied success that is not a turn cap.
   */
  lemma ExecutionCompletedExactly(native: Supervised<(nat, ProviderEvent)>, granted: seq<Capability>,
                                  delivered: Option<Testimony>, x: Supervised<SeamEvent>)
    requires HandedOver(native) && MapsTo(native, granted, delivered, x)
    ensures var events := Natives(native.events);
      x.outcome == Completed <==>
      && native.outcome == Completed && InitVersion(events).Some?
      && |events| > 0 && Last(events).Terminal? && CleanSuccess(Last(events).result)
  {
    ResultIsLast(Natives(native.events));
    hide SeamStream, FirstResult, LastResult, InitVersion;
  }

  /**
   From the pipe to the execution, in every interleaving of a launch: completed is a matter of the trusted
   prefix of the pipe's own bytes, once neither deadline nor watch nor a lost reader ended the run.
   */
  lemma LaunchCompletedExactly(cfg: Config<(nat, ProviderEvent)>, steps: seq<Step>, s: State<(nat, ProviderEvent)>,
                               granted: seq<Capability>, delivered: Option<Testimony>, x: Supervised<SeamEvent>)
    requires Leaves(cfg, steps, s)
    requires forall e :: cfg.decoder.terminal(e) <==> e.1.Terminal?
    requires MapsTo(Decide(cfg.decoder, s.vars), granted, delivered, x)
    ensures Refusals(x.events) == RefusalEvents(Denials(Natives(s.vars.events)))
    ensures var events := Natives(TrustedPrefix.Trusted(cfg.source, cfg.decoder));
      x.outcome == Completed <==>
      && !s.vars.timedOut && s.vars.stopped.None? && !s.reader.Died?
      && TrustedPrefix.CleanEnd(cfg.decoder, EventStream.AllItems(cfg.source, cfg.decoder))
      && InitVersion(events).Some?
      && |events| > 0 && Last(events).Terminal? && CleanSuccess(Last(events).result)
  {
    var native := Decide(cfg.decoder, s.vars);
    SupervisorHandsOver(cfg, steps, s);
    CompletedExactly(cfg, steps, s);
    KeptEventsAreTrusted(cfg, steps);
    RefusalsConserved(native, granted, delivered, x);
    ExecutionCompletedExactly(native, granted, delivered, x);
    hide *;
  }
}
