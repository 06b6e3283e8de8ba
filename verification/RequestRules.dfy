/** Which tool uses are write requests, which field names the file, and which pages are delivered. */
module RequestRules {
  import opened Prelude
  import opened ClaudeAdapter
  import opened WriteRequests
  import Bundles

  /** The tools that write a file, and the field each names it in. */
  predicate WritesUnder(tool: string, field: string) {
    || (tool in {"Write", "Edit", "MultiEdit"} && field == "file_path")
    || (tool == "NotebookEdit" && field == "notebook_path")
  }

  lemma TargetExactly(tool: string, field: string)
    ensures TargetField(tool) == Some(field) <==> WritesUnder(tool, field)
    ensures TargetField(tool) == None <==> tool !in {"Write", "Edit", "MultiEdit", "NotebookEdit"}
  {
  }

  predicate IsWrite(u: ToolUse) {
    u.name in {"Write", "Edit", "MultiEdit", "NotebookEdit"}
  }

  /** The requests of a session are, event by event, the write uses of its readable assistant messages in their order. */
  lemma RequestedExactly(events: seq<ProviderEvent>, i: nat)
    requires i < |events|
    ensures WriteUses([]) == []
    ensures WriteUses(events[..i + 1]) == WriteUses(events[..i])
            + (match events[i]
               case Assistant(m) => if m.uses.Ok? then Filter((u: ToolUse) => IsWrite(u), m.uses.value) else []
               case _ => [])
  {
    hide TargetField;
    assert events[..i + 1][..i] == events[..i];
    forall u ensures Writes(u) <==> IsWrite(u) {
      TargetExactly(u.name, "");
    }
    if events[i].Assistant? && events[i].message.uses.Ok? {
      SameFilter(Writes, (u: ToolUse) => IsWrite(u), events[i].message.uses.value);
    }
  }

  /** A request of a session names the file in its tool's own field. */
  lemma NamedExactly(u: ToolUse)
    ensures NamesTarget(u) <==> exists field :: WritesUnder(u.name, field) && field in u.fields
    ensures forall field :: NamesTarget(u) && WritesUnder(u.name, field) ==>
              field in u.fields && u.fields[TargetField(u.name).value] == u.fields[field]
  {
    hide TargetField, WritesUnder;
    forall field ensures TargetField(u.name) == Some(field) <==> WritesUnder(u.name, field) {
      TargetExactly(u.name, field);
    }
    if NamesTarget(u) {
      assert WritesUnder(u.name, TargetField(u.name).value);
    }
  }

  /** The pages delivered are those not withheld, as often as the manifest lists them. */
  lemma {:induction false} DeliveredExactly(m: Bundles.Manifest, p: Bundles.ManifestPage)
    ensures multiset(Bundles.Delivered(m))[p] == if p.withheld then 0 else multiset(m.pages)[p]
    decreases |m.pages|
  {
    if |m.pages| > 0 {
      DeliveredExactly(m.(pages := m.pages[1..]), p);
      assert m.pages == [m.pages[0]] + m.pages[1..];
    }
  }
}
