/** The file-write requests of a Claude Code session, and what the stream says became of each. */
module WriteRequests {
  import opened Prelude
  import opened ClaudeAdapter

  datatype Fate = WasRefused | WasExecuted | Unresolved

  datatype Requested = Requested(tool: string, useId: string, target: string, fate: Fate)

  /** The input field that names the file a write tool writes. */
  function TargetField(tool: string): Option<string> {
    if tool == "Write" || tool == "Edit" || tool == "MultiEdit" then Some("file_path")
    else if tool == "NotebookEdit" then Some("notebook_path")
    else None
  }

  predicate Writes(u: ToolUse) {
    TargetField(u.name).Some?
  }

  predicate NamesTarget(u: ToolUse) {
    TargetField(u.name).Some? && TargetField(u.name).value in u.fields
  }

  /** The write-tool uses of the session, in the order requested. */
  function WriteUses(events: seq<ProviderEvent>): seq<ToolUse> {
    if |events| == 0 then []
    else WriteUses(events[..|events| - 1]) + UsesOf(Last(events))
  }

  function UsesOf(e: ProviderEvent): seq<ToolUse> {
    if e.Assistant? && e.message.uses.Ok? then Filter(Writes, e.message.uses.value) else []
  }

  /** No block the classification needs is unreadable, and every write names its target. */
  ghost predicate Readable(e: ProviderEvent) {
    && (e.Assistant? ==> e.message.uses.Ok? && forall u :: u in e.message.uses.value && Writes(u) ==> NamesTarget(u))
    && (e.User? ==> e.message.results.Ok?)
  }

  /** The event says the tool use did not execute. */
  ghost predicate RefusesUse(e: ProviderEvent, id: string) {
    || (e.User? && exists n :: n in e.message.notes && n.notExecuted && n.id == id)
    || (e.Terminal? && exists d :: d in e.result.denials && d.useId == id)
  }

  /** The event answers the tool use without an error. */
  ghost predicate AnswersUse(e: ProviderEvent, id: string) {
    e.User? && e.message.results.Ok? && exists r :: r in e.message.results.value && !r.isError && r.useId == id
  }

  ghost function FateOf(events: seq<ProviderEvent>, id: string): Fate {
    if exists i :: 0 <= i < |events| && RefusesUse(events[i], id) then WasRefused
    else if exists i :: 0 <= i < |events| && AnswersUse(events[i], id) then WasExecuted
    else Unresolved
  }

  /** The requests of one assistant message; `Err` names the tool whose target is not a string. */
  method RequestsOf(uses: seq<ToolUse>) returns (r: Result<seq<Requested>, string>)
    ensures r.Ok? <==> forall u :: u in uses && Writes(u) ==> NamesTarget(u)
    ensures r.Ok? ==> Unclassified(r.value, Filter(Writes, uses))
  {
    var out: seq<Requested> := [];
    for i := 0 to |uses|
      invariant forall u :: u in uses[..i] && Writes(u) ==> NamesTarget(u)
      invariant Unclassified(out, Filter(Writes, uses[..i]))
    {
      var u := uses[i];
      FilterNext(uses, i);
      if Writes(u) {
        if !NamesTarget(u) {
          return Err(u.name);
        }
        out := out + [Requested(u.name, u.id, u.fields[TargetField(u.name).value], Unresolved)];
      }
    }
    assert uses[..|uses|] == uses;
    r := Ok(out);
  }

  lemma FilterNext(uses: seq<ToolUse>, i: nat)
    requires i < |uses|
    ensures Filter(Writes, uses[..i + 1]) == Filter(Writes, uses[..i]) + if Writes(uses[i]) then [uses[i]] else []
  {
    hide Writes;
    assert uses[..i + 1] == uses[..i] + [uses[i]];
    FilterAppend(Writes, uses[..i], [uses[i]]);
  }

  ghost predicate Unclassified(requests: seq<Requested>, uses: seq<ToolUse>) {
    && |requests| == |uses|
    && forall i :: 0 <= i < |uses| ==>
         && NamesTarget(uses[i])
         && requests[i] == Requested(uses[i].name, uses[i].id, uses[i].fields[TargetField(uses[i].name).value], Unresolved)
  }

  /** The tool uses one event says were refused, and those it says were answered. */
  function RefusedBy(e: ProviderEvent): set<string> {
    match e
    case User(m) => set n | n in m.notes && n.notExecuted :: n.id
    case Terminal(r) => set d | d in r.denials :: d.useId
    case _ => {}
  }

  function AnsweredBy(e: ProviderEvent): set<string> {
    if e.User? && e.message.results.Ok? then set r | r in e.message.results.value && !r.isError :: r.useId else {}
  }

  /** Give every request the fate its tool use met. */
  method Classify(requests: seq<Requested>, refused: set<string>, executed: set<string>) returns (out: seq<Requested>)
    ensures |out| == |requests|
    ensures forall k :: 0 <= k < |out| ==>
              out[k] == requests[k].(fate := if requests[k].useId in refused then WasRefused
                                             else if requests[k].useId in executed then WasExecuted else Unresolved)
  {
    out := [];
    for i := 0 to |requests|
      invariant |out| == i
      invariant forall k :: 0 <= k < i ==>
        out[k] == requests[k].(fate := if requests[k].useId in refused then WasRefused
                                       else if requests[k].useId in executed then WasExecuted else Unresolved)
    {
      var id := requests[i].useId;
      out := out + [requests[i].(fate := if id in refused then WasRefused
                                         else if id in executed then WasExecuted else Unresolved)];
    }
  }

  lemma GatherNothing()
    ensures Unclassified([], WriteUses([])) && SaysOf([], {}, {})
  {
  }

  lemma UnclassifiedAppend(r: seq<Requested>, u: seq<ToolUse>, s: seq<Requested>, v: seq<ToolUse>)
    requires Unclassified(r, u) && Unclassified(s, v)
    ensures Unclassified(r + s, u + v)
  {
    hide TargetField;
  }

  /** The requests of one event, when it can be read. */
  method RequestsIn(e: ProviderEvent) returns (r: Result<seq<Requested>, string>)
    ensures r.Ok? <==> Readable(e)
    ensures r.Ok? ==> Unclassified(r.value, UsesOf(e))
  {
    match e {
      case Assistant(m) =>
        if m.uses.Err? {
          return Err(m.uses.error);
        }
        r := RequestsOf(m.uses.value);
      case User(m) =>
        r := if m.results.Err? then Err(m.results.error) else Ok([]);
      case System(_) => r := Ok([]);
      case Terminal(_) => r := Ok([]);
      case Unmapped => r := Ok([]);
    }
  }

  lemma SaidByOne(e: ProviderEvent)
    ensures forall id :: id in RefusedBy(e) <==> RefusesUse(e, id)
    ensures forall id :: id in AnsweredBy(e) <==> AnswersUse(e, id)
  {
  }

  /** The two sets are exactly the tool uses the events say were refused, and answered. */
  ghost predicate SaysOf(events: seq<ProviderEvent>, refused: set<string>, executed: set<string>) {
    && (forall id :: id in refused <==> exists k :: 0 <= k < |events| && RefusesUse(events[k], id))
    && (forall id :: id in executed <==> exists k :: 0 <= k < |events| && AnswersUse(events[k], id))
  }

  lemma SaysNext(events: seq<ProviderEvent>, e: ProviderEvent, refused: set<string>, executed: set<string>)
    requires SaysOf(events, refused, executed)
    ensures SaysOf(events + [e], refused + RefusedBy(e), executed + AnsweredBy(e))
  {
    SaidByOne(e);
    hide RefusesUse, AnswersUse, RefusedBy, AnsweredBy;
    var more := events + [e];
    assert forall k :: 0 <= k < |events| ==> more[k] == events[k];
    assert more[|events|] == e;
  }

  /** What the whole stream requests, refuses and answers; `Err` when some event is not readable. */
  method Gather(events: seq<ProviderEvent>)
    returns (r: Result<seq<Requested>, string>, refused: set<string>, executed: set<string>)
    ensures r.Ok? <==> forall i :: 0 <= i < |events| ==> Readable(events[i])
    ensures r.Ok? ==> Unclassified(r.value, WriteUses(events))
    ensures r.Ok? ==> SaysOf(events, refused, executed)
  {
    hide *;
    GatherNothing();
    var requests: seq<Requested> := [];
    executed, refused := {}, {};
    for i := 0 to |events|
      invariant forall k :: 0 <= k < i ==> Readable(events[k])
      invariant Unclassified(requests, WriteUses(events[..i]))
      invariant SaysOf(events[..i], refused, executed)
    {
      var e := events[i];
      var more := RequestsIn(e);
      if more.Err? {
        r := Err(more.error);
        return;
      }
      WriteUsesNext(events, i);
      UnclassifiedAppend(requests, WriteUses(events[..i]), more.value, UsesOf(e));
      requests := requests + more.value;
      SaysNext(events[..i], e, refused, executed);
      assert events[..i + 1] == events[..i] + [e];
      refused := refused + RefusedBy(e);
      executed := executed + AnsweredBy(e);
    }
    assert events[..|events|] == events;
    r := Ok(requests);
  }

  lemma WriteUsesNext(events: seq<ProviderEvent>, i: nat)
    requires i < |events|
    ensures WriteUses(events[..i + 1]) == WriteUses(events[..i]) + UsesOf(events[i])
  {
    assert events[..i + 1][..i] == events[..i];
  }

  /**
   Every write request, once each and in the order requested, with the fate the whole stream
   gives it: refused over executed over unresolved. Refused altogether when something it would
   need cannot be read.
   */
  method Collect(events: seq<ProviderEvent>) returns (r: Result<seq<Requested>, string>)
    ensures r.Ok? <==> forall i :: 0 <= i < |events| ==> Readable(events[i])
    ensures r.Ok? ==>
              && |r.value| == |WriteUses(events)|
              && forall i :: 0 <= i < |r.value| ==>
                   var u := WriteUses(events)[i];
                   && NamesTarget(u)
                   && r.value[i] == Requested(u.name, u.id, u.fields[TargetField(u.name).value], FateOf(events, u.id))
  {
    var gathered, refused, executed := Gather(events);
    hide RefusesUse, AnswersUse, TargetField, WriteUses, Readable;
    if gathered.Err? {
      return gathered;
    }
    var out := Classify(gathered.value, refused, executed);
    r := Ok(out);
  }
}
