/** What holds of a whole redacted stream. */
module RecordedStream {
  import opened Prelude
  import opened Substrings
  import opened Redaction
  import opened RedactionFacts
  import opened WorkTrees
  import opened RootsRemoved
  import opened RedactionIdempotence
  import opened NameLists
  import opened RedactionPass

  // ---- Nothing of a work tree survives ----

  lemma StampHasNoSlash(captured: string)
    requires !HasSlash(captured)
    ensures !HasSlash(Midnight(captured))
  {
    hide MIDNIGHT;
    FixedIdsHaveNoSlash();
  }

  lemma GoneFromStream(lines: seq<Line>, captured: string, root: string, i: nat)
    requires Usable(WorkTreesOf(lines)) && Absolute(root) && Unwritten(root) && Gone(root, WorkTreesOf(lines))
    requires !HasSlash(captured) && i < |RedactedStream(lines, captured)|
    ensures Free(RedactedStream(lines, captured)[i], root)
  {
    hide Fix, WorkTreesOf, Free, HasSlash, Midnight, Absolute, ListsReplaced, Gone, Unwritten;
    StampHasNoSlash(captured);
    FixFrees(Object(ListsReplaced(KeptEvents(lines)[i])), Midnight(captured), WorkTreesOf(lines), root);
  }

  /**
   No string value at any depth of any redacted event contains a work tree the stream names, when
   that work tree keeps apart from the placeholder paths and the capture date holds no slash.
   */
  lemma NoRootSurvives(lines: seq<Line>, captured: string, root: string, i: nat)
    requires root in WorkTreesOf(lines) && Clear(root) && !HasSlash(captured)
    requires i < |RedactedStream(lines, captured)|
    ensures Free(RedactedStream(lines, captured)[i], root)
  {
    hide Fix, WorkTreesOf, Clear, Free, HasSlash, Midnight, Absolute, ListsReplaced, Gone, Unwritten;
    WorkTreesAreUsable(lines);
    ClearIsGone(WorkTreesOf(lines), root);
    GoneFromStream(lines, captured, root, i);
  }

  // ---- Shape ----

  /** The same tree of arrays and objects, with the same keys in the same order, wherever redaction descends. */
  ghost predicate SameShape(v: Json, w: Json)
    decreases v
  {
    match v
    case Text(_) => w.Text?
    case Array(items) =>
      w.Array? && |w.items| == |items| && forall i :: 0 <= i < |items| ==> SameShape(items[i], w.items[i])
    case Object(fields) =>
      w.Object? && |w.fields| == |fields| && forall i :: 0 <= i < |fields| ==> SameField(fields[i], w.fields[i])
    case _ => w == v
  }

  ghost predicate SameField(f: Field, g: Field)
    decreases f
  {
    f.key == g.key && (Descends(f.key) || RoleOf(f.key).MemoryPaths? ==> SameShape(f.value, g.value))
  }

  lemma {:induction false} RememberKeepsShape(v: Json)
    ensures SameShape(v, Remember(v))
  {
    hide RoleOf, PLACEHOLDER_MEMORY;
    match v
    case Array(items) =>
      forall i | 0 <= i < |items| ensures SameShape(items[i], Remember(items[i])) {
        RememberKeepsShape(items[i]);
      }
    case Object(fields) =>
      forall i | 0 <= i < |fields| ensures SameField(fields[i], Remember(v).fields[i]) {
        RememberKeepsShape(fields[i].value);
      }
    case _ =>
  }

  lemma {:induction false} FixKeepsShape(v: Json, stamp: string, roots: seq<string>)
    requires Usable(roots)
    ensures SameShape(v, Fix(v, stamp, roots))
    decreases v
  {
    hide FixField, SameField, Rewrite;
    match v
    case Array(items) =>
      forall i | 0 <= i < |items| ensures SameShape(items[i], Fix(items[i], stamp, roots)) {
        FixKeepsShape(items[i], stamp, roots);
      }
    case Object(fields) =>
      forall i | 0 <= i < |fields| ensures SameField(fields[i], FixField(fields[i], stamp, roots)) {
        FixFieldKeepsShape(fields[i], stamp, roots);
      }
    case _ =>
  }

  lemma {:induction false} FixFieldKeepsShape(f: Field, stamp: string, roots: seq<string>)
    requires Usable(roots)
    ensures SameField(f, FixField(f, stamp, roots))
    decreases f
  {
    hide RoleOf, SameShape, Fix, Remember;
    if Descends(f.key) {
      FixKeepsShape(f.value, stamp, roots);
    } else if RoleOf(f.key).MemoryPaths? {
      RememberKeepsShape(f.value);
    }
  }

  /** Every redacted event is the kept event at its place, with that event's keys in their order. */
  lemma EventsKeepOrderAndKeys(lines: seq<Line>, captured: string, i: nat)
    requires i < |KeptEvents(lines)|
    ensures var out := RedactedStream(lines, captured);
            && |out| == |KeptEvents(lines)| && out[i].Object? && |out[i].fields| == |KeptEvents(lines)[i]|
            && forall k :: 0 <= k < |out[i].fields| ==> out[i].fields[k].key == KeptEvents(lines)[i][k].key
  {
    hide FixField, RoleOf, WorkTreesOf, PlaceholdersOf, Midnight;
    WorkTreesAreUsable(lines);
    FieldKeysStay(ListsReplaced(KeptEvents(lines)[i]), Midnight(captured), WorkTreesOf(lines));
  }

  // ---- Reading a redacted event ----

  lemma SaysIsKept(event: seq<Field>, stamp: string, roots: seq<string>, key: string, word: string)
    requires Usable(roots) && PlainKey(key) && KindWord(word)
    ensures Says(Fix(Object(event), stamp, roots).fields, key, word) <==> Says(event, key, word)
  {
    hide RoleOf, KindWord, PlainKey, FixField, HasSlash, Rewrite;
    FieldKeysStay(event, stamp, roots);
    var out := Fix(Object(event), stamp, roots).fields;
    FirstFound(event, out, key);
    if Find(event, key).Some? {
      var f := event[Find(event, key).value];
      PlainKeysAreOpen(key);
      KindWordsHaveNoSlash(word);
      WordIsKept(f, stamp, roots, word);
    }
  }

  lemma WordIsKept(f: Field, stamp: string, roots: seq<string>, word: string)
    requires Usable(roots) && RoleOf(f.key).Open? && !HasSlash(word)
    ensures FixField(f, stamp, roots).value == Text(word) <==> f.value == Text(word)
  {
    hide RoleOf, Rewrite;
    if f.value.Text? {
      RewritePlain(f.value.s, roots);
    }
  }

  lemma ListsKeepPlainKeys(event: seq<Field>, key: string)
    requires PlainKey(key)
    ensures Find(ListsReplaced(event), key) == Find(event, key)
    ensures Find(event, key).Some? ==>
              ListsReplaced(event)[Find(event, key).value] == event[Find(event, key).value]
  {
    hide RoleOf, PlaceholdersOf, PlainKey;
    FirstFound(event, ListsReplaced(event), key);
    PlainKeysAreOpen(key);
  }

  /** A redacted event says `word` under `key` exactly when the event did. */
  lemma EventSaysTheSame(event: seq<Field>, stamp: string, roots: seq<string>, key: string, word: string)
    requires Usable(roots) && PlainKey(key) && KindWord(word)
    ensures Says(RedactedEvent(event, stamp, roots).fields, key, word) <==> Says(event, key, word)
  {
    hide RoleOf, PlaceholdersOf, PlainKey, FixField, KindWord, Find, ListsReplaced;
    SaysIsKept(ListsReplaced(event), stamp, roots, key, word);
    ListsKeepPlainKeys(event, key);
  }

  lemma BlockIsKept(block: Json, stamp: string, roots: seq<string>)
    requires Usable(roots)
    ensures ThinkingBlock(Fix(block, stamp, roots)) <==> ThinkingBlock(block)
  {
    hide Says, FixField, Rewrite;
    if block.Object? {
      SaysIsKept(block.fields, stamp, roots, "type", "thinking");
    }
  }

  lemma ContentIsKept(content: Json, stamp: string, roots: seq<string>)
    requires Usable(roots) && content.Array?
    ensures Fix(content, stamp, roots).Array? && |Fix(content, stamp, roots).items| == |content.items|
    ensures forall i :: 0 <= i < |content.items| ==>
              (ThinkingBlock(Fix(content, stamp, roots).items[i]) <==> ThinkingBlock(content.items[i]))
  {
    hide ThinkingBlock, FixField, Rewrite;
    forall i | 0 <= i < |content.items|
      ensures ThinkingBlock(Fix(content.items[i], stamp, roots)) <==> ThinkingBlock(content.items[i])
    {
      BlockIsKept(content.items[i], stamp, roots);
    }
  }

  predicate AllThinking(content: Json) {
    content.Array? && content.items != [] && forall i :: 0 <= i < |content.items| ==> ThinkingBlock(content.items[i])
  }

  lemma AllThinkingIsKept(content: Json, stamp: string, roots: seq<string>)
    requires Usable(roots)
    ensures AllThinking(Fix(content, stamp, roots)) <==> AllThinking(content)
  {
    hide ThinkingBlock, Fix;
    OnlyArraysAreLists(content, stamp, roots);
    if content.Array? {
      ContentIsKept(content, stamp, roots);
    }
  }

  lemma OpenFieldIsFixed(f: Field, stamp: string, roots: seq<string>)
    requires Usable(roots) && RoleOf(f.key).Open?
    ensures FixField(f, stamp, roots) == Field(f.key, Fix(f.value, stamp, roots))
  {
    hide RoleOf, Fix;
  }

  lemma MessageIsKept(message: Json, stamp: string, roots: seq<string>)
    requires Usable(roots)
    ensures OnlyThinking(Fix(message, stamp, roots)) <==> OnlyThinking(message)
  {
    hide Fix, FixField, RoleOf, ThinkingBlock;
    OnlyArraysAreLists(message, stamp, roots);
    if message.Object? {
      var out := Fix(message, stamp, roots).fields;
      FieldKeysStay(message.fields, stamp, roots);
      FirstFound(message.fields, out, "content");
      if Find(message.fields, "content").Some? {
        var f := message.fields[Find(message.fields, "content").value];
        PlainKeysAreOpen("content");
        OpenFieldIsFixed(f, stamp, roots);
        AllThinkingIsKept(f.value, stamp, roots);
      }
    }
  }

  predicate CarriesThinking(event: seq<Field>) {
    Find(event, "message").Some? && OnlyThinking(event[Find(event, "message").value].value)
  }

  lemma CarriedMessageIsKept(event: seq<Field>, stamp: string, roots: seq<string>)
    requires Usable(roots)
    ensures CarriesThinking(RedactedEvent(event, stamp, roots).fields) <==> CarriesThinking(event)
  {
    hide Fix, FixField, RoleOf, OnlyThinking, ListsReplaced;
    var listed := ListsReplaced(event);
    ListsKeepPlainKeys(event, "message");
    FieldKeysStay(listed, stamp, roots);
    FirstFound(listed, Fix(Object(listed), stamp, roots).fields, "message");
    if Find(event, "message").Some? {
      var f := event[Find(event, "message").value];
      PlainKeysAreOpen("message");
      OpenFieldIsFixed(f, stamp, roots);
      MessageIsKept(f.value, stamp, roots);
    }
  }

  /** A second pass drops nothing the first one kept. */
  lemma DroppedIsKept(event: seq<Field>, stamp: string, roots: seq<string>)
    requires Usable(roots)
    ensures Dropped(RedactedEvent(event, stamp, roots).fields) <==> Dropped(event)
  {
    hide RedactedEvent, Says, CarriesThinking, OnlyThinking, Find;
    EventSaysTheSame(event, stamp, roots, "type", "rate_limit_event");
    EventSaysTheSame(event, stamp, roots, "type", "system");
    EventSaysTheSame(event, stamp, roots, "subtype", "thinking_tokens");
    EventSaysTheSame(event, stamp, roots, "type", "assistant");
    CarriedMessageIsKept(event, stamp, roots);
    DroppedMeans(event);
    DroppedMeans(RedactedEvent(event, stamp, roots).fields);
  }

  lemma DroppedMeans(event: seq<Field>)
    ensures Dropped(event) <==>
              || Says(event, "type", "rate_limit_event")
              || (Says(event, "type", "system") && Says(event, "subtype", "thinking_tokens"))
              || (Says(event, "type", "assistant") && CarriesThinking(event))
  {
    hide Says, OnlyThinking;
  }
}
