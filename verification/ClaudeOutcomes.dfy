/** What the Claude mapping answers, told by the terminal event's fields and the events' order alone. */
module ClaudeOutcomes {
  import opened Prelude
  import EventStream
  import TrustedPrefix
  import opened Supervisor
  import opened SupervisorTheorems
  import opened ClaudeAdapter

  // ---- One terminal event ----

  predicate TurnCap(r: ResultEvent) {
    r.reason == Some(MaxTurns)
  }

  /** A success with a denial is refused; a turn cap and an undenied failing success are interrupted. */
  lemma TerminalExactly(r: ResultEvent)
    ensures ReadTerminal(r).None? <==> r.subtype != Success && !TurnCap(r)
    ensures ReadTerminal(r).Some? ==>
              var t := ReadTerminal(r).value;
              && (t.outcome == Refused <==> !TurnCap(r) && r.denials != [])
              && (t.outcome == Completed <==> !TurnCap(r) && r.denials == [] && !r.isError)
              && (t.outcome == Interrupted <==> TurnCap(r) || (r.denials == [] && r.isError))
              && t.refusalEntries == |r.denials| && t.completedTurns == r.turns
              && (t.providerClaim == ClaimsStopped <==> TurnCap(r))
              && (t.providerClaim == ClaimsFailed <==> !TurnCap(r) && r.isError)
              && (t.providerClaim == ClaimsCompleted <==> !TurnCap(r) && !r.isError)
  {
  }

  // ---- The execution ----

  predicate EndsWith(events: seq<ProviderEvent>, r: ResultEvent) {
    |events| > 0 && Last(events) == Terminal(r)
  }

  /** Neither a success nor a turn cap: a terminal state the mapping does not cover. */
  predicate Uncovered(events: seq<ProviderEvent>) {
    |events| > 0 && Last(events).Terminal? && Last(events).result.subtype != Success && !TurnCap(Last(events).result)
  }

  /** A denied success that is no turn cap. */
  predicate DeniedSuccess(events: seq<ProviderEvent>) {
    && |events| > 0 && Last(events).Terminal?
    && Last(events).result.subtype == Success && Last(events).result.denials != [] && !TurnCap(Last(events).result)
  }

  /**
   The diagnostic of an execution: the supervision's own, unless the stream names no version, when a missing
   init is reported in its place if there was none, or ends in a state the mapping does not cover.
   */
  lemma DiagnosticExactly(native: Supervised<(nat, ProviderEvent)>, granted: seq<Capability>,
                          delivered: Option<Testimony>, x: Supervised<SeamEvent>)
    requires HandedOver(native) && MapsTo(native, granted, delivered, x)
    ensures var events := Natives(native.events);
      x.streamError ==
      if InitVersion(events).None? then
        (if native.streamError.Some? then native.streamError else Some(EventStream.NoInit))
      else if Uncovered(events) then
        Some(EventStream.Malformed(Last(native.events).0, Last(events).result.subtype.word))
      else native.streamError
  {
    hide SeamStream, InitVersion, FirstResult, LastResult;
    ResultIsLast(Natives(native.events));
  }

  /** The outcome of an execution is completed, refused or interrupted, and refused for a denied success alone. */
  lemma ExecutionRefusedExactly(native: Supervised<(nat, ProviderEvent)>, granted: seq<Capability>,
                                delivered: Option<Testimony>, x: Supervised<SeamEvent>)
    requires HandedOver(native) && MapsTo(native, granted, delivered, x)
    ensures var events := Natives(native.events);
      && (x.outcome == Refused <==>
            native.outcome == Completed && InitVersion(events).Some? && DeniedSuccess(events))
      && (x.outcome == Interrupted <==> x.outcome != Refused && x.outcome != Completed)
      && x.stopped == native.stopped && x.timedOut == native.timedOut
  {
    hide SeamStream, InitVersion, FirstResult, LastResult;
    ResultIsLast(Natives(native.events));
    DiagnosticExactly(native, granted, delivered, x);
  }

  /** Over every interleaving of a launch: refused is a matter of the trusted prefix once nothing else ended the run. */
  lemma LaunchRefusedExactly(cfg: Config<(nat, ProviderEvent)>, steps: seq<Step>, s: State<(nat, ProviderEvent)>,
                             granted: seq<Capability>, delivered: Option<Testimony>, x: Supervised<SeamEvent>)
    requires Leaves(cfg, steps, s)
    requires forall e :: cfg.decoder.terminal(e) <==> e.1.Terminal?
    requires MapsTo(Decide(cfg.decoder, s.vars), granted, delivered, x)
    ensures var events := Natives(TrustedPrefix.Trusted(cfg.source, cfg.decoder));
      x.outcome == Refused <==>
      && !s.vars.timedOut && s.vars.stopped.None? && !s.reader.Died?
      && TrustedPrefix.CleanEnd(cfg.decoder, EventStream.AllItems(cfg.source, cfg.decoder))
      && InitVersion(events).Some? && DeniedSuccess(events)
  {
    var native := Decide(cfg.decoder, s.vars);
    SupervisorHandsOver(cfg, steps, s);
    CompletedExactly(cfg, steps, s);
    KeptEventsAreTrusted(cfg, steps);
    ExecutionRefusedExactly(native, granted, delivered, x);
    hide *;
  }

  // ---- The seam events ----

  /** Everything but the refusals: one for each native event. */
  function Others(events: seq<SeamEvent>): seq<SeamEvent> {
    Filter((e: SeamEvent) => !e.Refusal?, events)
  }

  /** A granted capability counts as applied unless it is hook enforcement and no hook was seen before. */
  ghost predicate AppliedFrom(applied: seq<Capability>, granted: seq<Capability>, hooked: bool) {
    && (hooked ==> applied == granted)
    && (!hooked ==> HookEnforcement !in applied
                    && forall c :: c != HookEnforcement ==> multiset(applied)[c] == multiset(granted)[c])
  }

  lemma {:induction false} AppliedExactly(granted: seq<Capability>, hooked: bool)
    ensures AppliedFrom(Applied(granted, hooked), granted, hooked)
  {
    if |granted| > 0 && !hooked {
      AppliedExactly(granted[1..], hooked);
      assert granted == [granted[0]] + granted[1..];
    }
  }

  /** What one native event becomes beside its refusals. */
  ghost predicate BecomesOne(e: ProviderEvent, hooked: bool, granted: seq<Capability>, delivered: Option<Testimony>,
                             out: SeamEvent) {
    match e
    case System(s) =>
      if s.kind == InitKind
      then out.Init? && AppliedFrom(out.applied, granted, hooked) && out.providerVersion == s.version && out.context == delivered
      else out == Progress(e)
    case Terminal(r) =>
      && out.Result? && out.cost == r.cost
      && out.classification ==
         if TurnCap(r) then ClaimsStopped else if r.isError then ClaimsFailed else ClaimsCompleted
    case _ => out == Progress(e)
  }

  /** A hook event stands before the `i`-th. */
  predicate HookedBefore(events: seq<ProviderEvent>, i: nat)
    requires i <= |events|
  {
    exists k :: 0 <= k < i && events[k].System? && events[k].system.kind in {HookStarted, HookResponseKind}
  }

  lemma LastIsTheOther(e: ProviderEvent, granted: seq<Capability>, delivered: Option<Testimony>, hooked: bool)
    ensures var out := SeamOf(e, granted, delivered, hooked);
            |out| > 0 && Others(out) == [Last(out)]
  {
    hide Applied, ProviderClaim;
    var out := SeamOf(e, granted, delivered, hooked);
    if e.Terminal? {
      var last := [Result(ProviderClaim(e.result), e.result.cost)];
      OthersAppend(RefusalEvents(e.result.denials), last);
      NoneIsOther(e.result.denials);
      assert last[1..] == [];
    } else {
      assert out[1..] == [];
    }
  }

  lemma OneBecomes(e: ProviderEvent, granted: seq<Capability>, delivered: Option<Testimony>, hooked: bool)
    ensures var out := SeamOf(e, granted, delivered, hooked);
            |out| > 0 && Others(out) == [Last(out)] && BecomesOne(e, hooked, granted, delivered, Last(out))
  {
    hide Applied, AppliedFrom, Others, Filter;
    AppliedExactly(granted, hooked);
    LastIsTheOther(e, granted, delivered, hooked);
  }

  lemma {:induction false} NoneIsOther(denials: seq<PermissionDenial>)
    ensures Others(RefusalEvents(denials)) == []
  {
    if |denials| > 0 {
      assert RefusalEvents(denials)[1..] == RefusalEvents(denials[1..]);
      NoneIsOther(denials[1..]);
    }
  }

  lemma HookedIsSeen(events: seq<ProviderEvent>, n: nat)
    requires n <= |events|
    ensures SawHook(events[..n]) <==> HookedBefore(events, n)
  {
    assert forall k :: 0 <= k < n ==> events[..n][k] == events[k];
  }

  /**
   Beside its refusals the seam carries one event for each native one, in order: an init with what was applied,
   the version and the delivered context; a result with the provider's claim and cost; or progress.
   */
  lemma {:induction false} MappedEventsAre(events: seq<ProviderEvent>, granted: seq<Capability>,
                                           delivered: Option<Testimony>)
    ensures var out := Others(SeamStream(events, granted, delivered));
      && |out| == |events|
      && forall i :: 0 <= i < |events| ==> BecomesOne(events[i], HookedBefore(events, i), granted, delivered, out[i])
  {
    hide SeamOf, SawHook, HookedBefore, BecomesOne, Others;
    if |events| > 0 {
      var n := |events| - 1;
      var front := SeamStream(events[..n], granted, delivered);
      var last := SeamOf(events[n], granted, delivered, SawHook(events[..n]));
      MappedEventsAre(events[..n], granted, delivered);
      OneBecomes(events[n], granted, delivered, SawHook(events[..n]));
      HookedIsSeen(events, n);
      OthersAppend(front, last);
      forall i | 0 <= i < n
        ensures BecomesOne(events[i], HookedBefore(events, i), granted, delivered, Others(front + last)[i])
      {
        assert events[..n][i] == events[i];
        HookedInFront(events, n, i);
      }
    } else {
      assert Others([]) == [] by { NoneIsOther([]); assert RefusalEvents([]) == []; }
    }
  }

  lemma OthersAppend(a: seq<SeamEvent>, b: seq<SeamEvent>)
    ensures Others(a + b) == Others(a) + Others(b)
  {
    FilterAppend((x: SeamEvent) => !x.Refusal?, a, b);
  }

  lemma HookedInFront(events: seq<ProviderEvent>, n: nat, i: nat)
    requires i <= n <= |events|
    ensures HookedBefore(events[..n], i) <==> HookedBefore(events, i)
  {
    assert forall k :: 0 <= k < i ==> events[..n][k] == events[k];
  }

  /** The `i`-th event is the last init. */
  predicate LastInitAt(events: seq<ProviderEvent>, i: nat) {
    && i < |events| && events[i].System? && events[i].system.kind == InitKind
    && forall k :: i < k < |events| ==> !(events[k].System? && events[k].system.kind == InitKind)
  }

  /** The version and the tools are those of the last init: its tools, or none when it names none. */
  lemma {:induction false} LastInitExactly(events: seq<ProviderEvent>, i: nat)
    requires LastInitAt(events, i)
    ensures InitVersion(events) == events[i].system.version
    ensures AppliedTools(events) == match events[i].system.tools case Some(tools) => tools case None => []
  {
    if i < |events| - 1 {
      LastInitExactly(events[..|events| - 1], i);
    }
  }

  lemma {:induction false} NoInitExactly(events: seq<ProviderEvent>)
    requires forall k :: 0 <= k < |events| ==> !(events[k].System? && events[k].system.kind == InitKind)
    ensures InitVersion(events) == None && AppliedTools(events) == []
  {
    if |events| > 0 {
      NoInitExactly(events[..|events| - 1]);
    }
  }

  /** Each denial in mid-stream adds the tool it names, or an empty name, and no other event adds any. */
  lemma MidStreamExactly(events: seq<ProviderEvent>, i: nat)
    requires i < |events|
    ensures MidStreamDenials([]) == []
    ensures MidStreamDenials(events[..i + 1]) == MidStreamDenials(events[..i])
            + (if events[i].System? && events[i].system.kind == PermissionDenied
               then [if events[i].system.tool.Some? then events[i].system.tool.value else ""] else [])
  {
    assert events[..i + 1][..i] == events[..i];
  }

  /** The terminal event's refusals stand in one run, right before the result that ends the seam. */
  lemma RefusalsStandBeforeTheResult(events: seq<ProviderEvent>, granted: seq<Capability>,
                                     delivered: Option<Testimony>, r: ResultEvent)
    requires EndsWith(events, r) && forall i :: 0 <= i < |events| - 1 ==> !events[i].Terminal?
    ensures var out, n := SeamStream(events, granted, delivered), |r.denials|;
            && |out| > n && Last(out).Result?
            && out[|out| - 1 - n..|out| - 1] == Refusals(out) == RefusalEvents(r.denials)
  {
    hide SawHook, ProviderClaim, Refusals;
    RefusalsOfStream(events, granted, delivered);
    var front, refusals := SeamStream(events[..|events| - 1], granted, delivered), RefusalEvents(r.denials);
    var out := SeamStream(events, granted, delivered);
    assert out == front + refusals + [Last(out)];
    assert (front + refusals + [Last(out)])[|front|..|front| + |refusals|] == refusals;
  }
}
