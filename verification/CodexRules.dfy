/** What the reading of a Codex stream holds, told by the places of its events. */
module CodexRules {
  import opened Prelude
  import opened CodexAdapter
  import opened Supervisor
  import EventStream

  /** The places of the turns that ended, well or badly. */
  function TurnsEnded(events: seq<CodexEvent>): set<nat> {
    set i: nat | i < |events| && (events[i].TurnCompleted? || events[i].TurnFailed?)
  }

  lemma OneMoreEnded(front: seq<CodexEvent>, e: CodexEvent)
    ensures |TurnsEnded(front + [e])| == |TurnsEnded(front)| + (if e.TurnCompleted? || e.TurnFailed? then 1 else 0)
  {
    var n, all := |front|, front + [e];
    assert forall i: nat :: i < n ==> all[i] == front[i];
    assert TurnsEnded(all) == TurnsEnded(front) + (if e.TurnCompleted? || e.TurnFailed? then {n} else {});
  }

  lemma {:induction false} TerminalsExactly(events: seq<CodexEvent>)
    ensures Terminals(events) == |TurnsEnded(events)|
  {
    hide TurnsEnded;
    if |events| > 0 {
      var n := |events| - 1;
      TerminalsExactly(events[..n]);
      OneMoreEnded(events[..n], events[n]);
      assert events == events[..n] + [events[n]];
    } else {
      NoneEnded();
    }
  }

  lemma NoneEnded()
    ensures TurnsEnded([]) == {}
  {
  }

  // ---- The first of each kind ----

  predicate StartsAt(events: seq<CodexEvent>, id: string, i: nat) {
    i < |events| && events[i] == ThreadStarted(id) && forall j :: 0 <= j < i ==> !events[j].ThreadStarted?
  }

  /** The thread is that of the first start. */
  lemma {:induction false} ThreadExactly(events: seq<CodexEvent>, id: string)
    ensures FirstThread(events) == Some(id) <==> exists i: nat :: StartsAt(events, id, i)
  {
    if |events| > 0 {
      var n := |events| - 1;
      var front := events[..n];
      ThreadExactly(front, id);
      FirstThreadFound(front);
      forall i: nat | i < n ensures StartsAt(events, id, i) <==> StartsAt(front, id, i) {
      }
      assert FirstThread(front).None? && events[n] == ThreadStarted(id) ==> StartsAt(events, id, n);
    }
  }

  predicate ClaimedAt(events: seq<CodexEvent>, claim: Claim, i: nat) {
    && i < |events| && (events[i].TurnCompleted? || events[i].TurnFailed?)
    && (claim == ClaimsCompleted <==> events[i].TurnCompleted?)
    && forall j :: 0 <= j < i ==> !events[j].TurnCompleted? && !events[j].TurnFailed?
  }

  lemma {:induction false} NoClaimExactly(events: seq<CodexEvent>)
    ensures FirstClaim(events).None? <==>
              forall i :: 0 <= i < |events| ==> !events[i].TurnCompleted? && !events[i].TurnFailed?
  {
    if |events| > 0 {
      NoClaimExactly(events[..|events| - 1]);
    }
  }

  /** The claim is that of the first turn that ended: completed, or failed. */
  lemma {:induction false} ClaimExactly(events: seq<CodexEvent>, claim: Claim)
    ensures FirstClaim(events) == Some(claim) <==> exists i: nat :: ClaimedAt(events, claim, i)
  {
    if |events| > 0 {
      var n := |events| - 1;
      var front := events[..n];
      ClaimExactly(front, claim);
      NoClaimExactly(front);
      forall i: nat | i < n ensures ClaimedAt(events, claim, i) <==> ClaimedAt(front, claim, i) {
      }
      assert FirstClaim(front).None? && ClaimedAt([events[n]], claim, 0) ==> ClaimedAt(events, claim, n);
    }
  }

  predicate UsageAt(events: seq<CodexEvent>, usage: Usage, i: nat) {
    && i < |events| && events[i] == TurnCompleted(Some(usage))
    && forall j :: 0 <= j < i ==> !(events[j].TurnCompleted? && events[j].usage.Some?)
  }

  lemma {:induction false} NoUsageExactly(events: seq<CodexEvent>)
    ensures FirstUsage(events).None? <==>
              forall i :: 0 <= i < |events| ==> !(events[i].TurnCompleted? && events[i].usage.Some?)
  {
    if |events| > 0 {
      NoUsageExactly(events[..|events| - 1]);
    }
  }

  /** The usage is the first that a completed turn states. */
  lemma {:induction false} UsageExactly(events: seq<CodexEvent>, usage: Usage)
    ensures FirstUsage(events) == Some(usage) <==> exists i: nat :: UsageAt(events, usage, i)
  {
    if |events| > 0 {
      var n := |events| - 1;
      var front := events[..n];
      UsageExactly(front, usage);
      NoUsageExactly(front);
      forall i: nat | i < n ensures UsageAt(events, usage, i) <==> UsageAt(front, usage, i) {
      }
      assert FirstUsage(front).None? && events[n] == TurnCompleted(Some(usage)) ==> UsageAt(events, usage, n);
    }
  }

  // ---- The faults ----

  /** What the event at `i` shows of itself: an error, or a thread that is not the first one. */
  ghost predicate ShowsFault(events: seq<CodexEvent>, i: nat, fault: Fault)
    requires i < |events|
  {
    || (events[i] == Error && fault == ErrorEvent)
    || exists first, second, k: nat ::
         && StartsAt(events[..i], first, k) && events[i] == ThreadStarted(second) && first != second
         && fault == ThreadChanged(first, second)
  }

  /** Events show their faults one by one: at most one each, put behind those found before. */
  lemma FaultsFoundExactly(events: seq<CodexEvent>, i: nat)
    requires i < |events|
    ensures var before, after := FaultsFound(events[..i]), FaultsFound(events[..i + 1]);
      && (forall fault :: ShowsFault(events, i, fault) ==> after == before + [fault])
      && ((forall fault :: !ShowsFault(events, i, fault)) ==> after == before)
  {
    hide FaultsFound, StartsAt, FirstThread;
    assert events[..i + 1][..i] == events[..i];
    FaultsStep(events[..i + 1]);
    var first := FirstThread(events[..i]);
    forall id ensures first == Some(id) <==> exists k: nat :: StartsAt(events[..i], id, k) {
      ThreadExactly(events[..i], id);
    }
    forall fault | ShowsFault(events, i, fault)
      ensures FaultsFound(events[..i + 1]) == FaultsFound(events[..i]) + [fault]
    {
      if events[i] != Error {
        var a, b, k: nat :| StartsAt(events[..i], a, k) && events[i] == ThreadStarted(b) && a != b && fault == ThreadChanged(a, b);
        assert first == Some(a);
      }
    }
    if events[i] == Error {
      assert ShowsFault(events, i, ErrorEvent);
    } else if events[i].ThreadStarted? && first.Some? && first.value != events[i].id {
      assert ShowsFault(events, i, ThreadChanged(first.value, events[i].id));
    }
  }

  lemma FaultsStep(events: seq<CodexEvent>)
    requires |events| > 0
    ensures var n := |events| - 1;
      var first := FirstThread(events[..n]);
      FaultsFound(events) == FaultsFound(events[..n])
      + (match events[n]
         case Error => [ErrorEvent]
         case ThreadStarted(id) => if first.Some? && first.value != id then [ThreadChanged(first.value, id)] else []
         case _ => [])
  {
    hide FirstThread;
  }

  /** The other faults: no thread ahead of those found, then a count of ended turns other than one, then a failed turn. */
  lemma FaultsExactly(events: seq<CodexEvent>)
    ensures FaultsOf(events) ==
            (if forall i :: 0 <= i < |events| ==> !events[i].ThreadStarted? then [NoThread] else [])
            + FaultsFound(events)
            + (if |TurnsEnded(events)| == 1 then [] else [TerminalTurns(|TurnsEnded(events)|)])
            + (if exists i :: 0 <= i < |events| && events[i].TurnFailed? then [UnjudgedTurnFailure] else [])
  {
    hide FaultsFound, FirstThread, Terminals, TurnsEnded;
    FirstThreadFound(events);
    TerminalsExactly(events);
  }

  // ---- The seam ----

  /** What the seam carries for the event at `i`. */
  predicate Becomes(events: seq<CodexEvent>, i: nat, out: SeamEvent)
    requires i < |events|
  {
    match events[i]
    case ThreadStarted(_) =>
      if exists j :: 0 <= j < i && events[j].ThreadStarted? then out == SeamProgress("thread.started", None)
      else out == SeamInit
    case TurnCompleted(_) => out == SeamResult(ClaimsCompleted)
    case TurnFailed(_) => out == SeamResult(ClaimsFailed)
    case Error => out == SeamProgress("error", None)
    case Progress(kind, item) => out == SeamProgress(kind, item)
  }

  /** The first started thread is the init, an ended turn is a result, and every other event is progress. */
  lemma SeamExactly(events: seq<CodexEvent>, i: nat)
    requires i < |events|
    ensures Becomes(events, i, SeamOf(events, i))
  {
    hide FirstThread;
    FirstThreadFound(events[..i]);
    assert forall j :: 0 <= j < i ==> events[..i][j] == events[j];
  }

  /** The outcome and the diagnostic of a turn that was read to its end, by the places of its events. */
  lemma MapExactly(native: Supervised<CodexEvent>, x: Supervised<SeamEvent>)
    requires MapsTo(native, x)
    ensures var read := native.streamError.Some? && native.streamError.value.NoResult?;
      && |x.events| == |native.events|
      && (forall i :: 0 <= i < |x.events| ==> Becomes(native.events, i, x.events[i]))
      && (x.outcome == Completed <==> read && OneCompletedTurn(native.events))
      && (x.outcome != Completed ==> x.outcome == Interrupted)
      && x.streamError == (if !read then native.streamError
                           else if forall i :: 0 <= i < |native.events| ==> !native.events[i].ThreadStarted?
                           then Some(EventStream.NoInit)
                           else if TurnsEnded(native.events) == {} then Some(EventStream.NoResult(|native.events|))
                           else None)
  {
    hide FirstThread, Terminals, OneCompletedTurn, SeamOf, Becomes;
    FirstThreadFound(native.events);
    TerminalsExactly(native.events);
    forall i | 0 <= i < |x.events| ensures Becomes(native.events, i, x.events[i]) {
      SeamExactly(native.events, i);
    }
  }
}
