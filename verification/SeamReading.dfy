/** Reading a typed seam stream into one result, and what it reads from a mapped Claude stream. */
module SeamReading {
  import opened Prelude
  import opened ClaudeAdapter

  datatype AdapterResult = AdapterResult(
    claim: Classification,
    applied: seq<Capability>,
    cost: Option<real>,
    version: Option<string>)

  datatype ReadError = NoInitEvent | NoResultEvent(events: nat)

  /** The last init event. */
  function LastInit(events: seq<SeamEvent>): (r: Option<SeamEvent>)
    ensures r.Some? ==> r.value.Init? && r.value in events
  {
    if |events| == 0 then None
    else if Last(events).Init? then Some(Last(events))
    else LastInit(events[..|events| - 1])
  }

  function LastClaim(events: seq<SeamEvent>): (r: Option<SeamEvent>)
    ensures r.Some? ==> r.value.Result? && r.value in events
  {
    if |events| == 0 then None
    else if Last(events).Result? then Some(Last(events))
    else LastClaim(events[..|events| - 1])
  }

  /** The last init and the last result decide; a missing init is reported before a missing result. */
  method ReadStream(events: seq<SeamEvent>) returns (r: Result<AdapterResult, ReadError>)
    ensures match r
            case Ok(read) =>
              && LastInit(events).Some? && LastClaim(events).Some?
              && read == AdapterResult(LastClaim(events).value.classification, LastInit(events).value.applied,
                                       LastClaim(events).value.cost, LastInit(events).value.providerVersion)
            case Err(NoInitEvent) => LastInit(events).None?
            case Err(NoResultEvent(n)) => LastInit(events).Some? && LastClaim(events).None? && n == |events|
  {
    var applied: Option<seq<Capability>>, version: Option<string> := None, None;
    var terminal: Option<(Classification, Option<real>)> := None;
    for i := 0 to |events|
      invariant applied.Some? <==> LastInit(events[..i]).Some?
      invariant applied.Some? ==>
        applied.value == LastInit(events[..i]).value.applied && version == LastInit(events[..i]).value.providerVersion
      invariant terminal.Some? <==> LastClaim(events[..i]).Some?
      invariant terminal.Some? ==>
        terminal.value == (LastClaim(events[..i]).value.classification, LastClaim(events[..i]).value.cost)
    {
      assert events[..i + 1][..i] == events[..i];
      match events[i] {
        case Init(a, v, _) => applied, version := Some(a), v;
        case Result(claim, cost) => terminal := Some((claim, cost));
        case Progress(_) =>
        case Refusal(_) =>
      }
    }
    assert events[..|events|] == events;
    if applied.None? {
      return Err(NoInitEvent);
    }
    if terminal.None? {
      return Err(NoResultEvent(|events|));
    }
    r := Ok(AdapterResult(terminal.value.0, applied.value, terminal.value.1, version));
  }

  lemma {:induction false} LastInitAppend(a: seq<SeamEvent>, b: seq<SeamEvent>)
    ensures LastInit(a + b) == if LastInit(b).Some? then LastInit(b) else LastInit(a)
    ensures LastClaim(a + b) == if LastClaim(b).Some? then LastClaim(b) else LastClaim(a)
    decreases |b|
  {
    if |b| == 0 {
      assert a + b == a;
    } else {
      assert (a + b)[..|a + b| - 1] == a + b[..|b| - 1];
      LastInitAppend(a, b[..|b| - 1]);
    }
  }

  lemma OneEventSays(e: ProviderEvent, granted: seq<Capability>, delivered: Option<Testimony>, sawHook: bool)
    ensures var out := SeamOf(e, granted, delivered, sawHook);
            && (LastInit(out).Some? <==> IsInit(e))
            && (LastInit(out).Some? ==> LastInit(out).value.providerVersion == e.system.version)
            && (LastClaim(out) == if e.Terminal? then Some(Result(ProviderClaim(e.result), e.result.cost)) else None)
  {
    hide Applied;
    var out := SeamOf(e, granted, delivered, sawHook);
    if e.Terminal? {
      LastInitAppend(RefusalEvents(e.result.denials), [Result(ProviderClaim(e.result), e.result.cost)]);
      assert [Result(ProviderClaim(e.result), e.result.cost)][..0] == [];
    } else {
      assert |out| == 1 && out[..0] == [];
    }
  }

  /** The mapping keeps what a reader of the seam decides by: the last init's version and the last result's claim. */
  lemma {:induction false} MappedStreamSays(events: seq<ProviderEvent>, granted: seq<Capability>,
                                            delivered: Option<Testimony>)
    ensures var out := SeamStream(events, granted, delivered);
            && (LastInit(out).None? ==> InitVersion(events).None?)
            && (LastInit(out).Some? ==> LastInit(out).value.providerVersion == InitVersion(events))
            && LastClaim(out) == match LastResult(events)
                                 case None => None
                                 case Some(r) => Some(Result(ProviderClaim(r), r.cost))
  {
    hide SeamOf, SawHook;
    if |events| > 0 {
      var n := |events| - 1;
      MappedStreamSays(events[..n], granted, delivered);
      OneEventSays(events[n], granted, delivered, SawHook(events[..n]));
      LastInitAppend(SeamStream(events[..n], granted, delivered),
                     SeamOf(events[n], granted, delivered, SawHook(events[..n])));
    }
  }
}
