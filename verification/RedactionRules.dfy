/** What redaction makes of every key, word and list, over the literal words the rules name. */
module RedactionRules {
  import opened Prelude
  import opened Substrings
  import opened Redaction
  import opened RedactionFacts
  import opened WorkTrees
  import opened NameLists
  import opened RedactionPass
  import opened RecordedStream
  import Decimal

  // ---- Fields ----

  /** The first field of that key holds the value. */
  ghost predicate Holds(fields: seq<Field>, key: string, value: Json) {
    exists k: nat :: HoldsAt(fields, key, value, k)
  }

  predicate HoldsAt(fields: seq<Field>, key: string, value: Json, k: nat) {
    k < |fields| && fields[k] == Field(key, value) && forall j :: 0 <= j < k ==> fields[j].key != key
  }

  lemma {:induction false} FindsFirst(fields: seq<Field>, key: string)
    ensures Find(fields, key).Some? ==> forall j :: 0 <= j < Find(fields, key).value ==> fields[j].key != key
  {
    if |fields| > 0 && fields[0].key != key {
      FindsFirst(fields[1..], key);
      assert forall j :: 1 <= j < |fields| ==> fields[j] == fields[1..][j - 1];
    }
  }

  lemma HoldsExactly(fields: seq<Field>, key: string, value: Json)
    ensures Holds(fields, key, value) <==> Find(fields, key).Some? && fields[Find(fields, key).value].value == value
    ensures forall k: nat :: HoldsAt(fields, key, value, k) ==> Find(fields, key) == Some(k)
  {
    hide Find;
    FindsFirst(fields, key);
    if Find(fields, key).Some? && fields[Find(fields, key).value].value == value {
      assert HoldsAt(fields, key, value, Find(fields, key).value);
    }
  }

  lemma SaysExactly(fields: seq<Field>, key: string, word: string)
    ensures Says(fields, key, word) <==> Holds(fields, key, Text(word))
  {
    hide Find, Holds;
    HoldsExactly(fields, key, Text(word));
  }

  // ---- What is dropped ----

  ghost predicate Thinks(block: Json) {
    block.Object? && Holds(block.fields, "type", Text("thinking"))
  }

  ghost predicate ThinksOnly(blocks: seq<Json>) {
    blocks != [] && forall i :: 0 <= i < |blocks| ==> Thinks(blocks[i])
  }

  /** An assistant's message whose content is thinking and nothing else. */
  ghost predicate CarriesOnlyThinking(event: seq<Field>) {
    exists message, blocks ::
      Holds(event, "message", Object(message)) && Holds(message, "content", Array(blocks)) && ThinksOnly(blocks)
  }

  /** The two kinds of event that are dropped. */
  ghost predicate DropRule(event: seq<Field>) {
    || Holds(event, "type", Text("rate_limit_event"))
    || (Holds(event, "type", Text("system")) && Holds(event, "subtype", Text("thinking_tokens")))
    || (Holds(event, "type", Text("assistant")) && CarriesOnlyThinking(event))
  }

  lemma ThinksExactly(blocks: seq<Json>)
    ensures (blocks != [] && forall i :: 0 <= i < |blocks| ==> ThinkingBlock(blocks[i])) <==> ThinksOnly(blocks)
  {
    hide Says, Holds;
    forall i | 0 <= i < |blocks| ensures ThinkingBlock(blocks[i]) <==> Thinks(blocks[i]) {
      if blocks[i].Object? {
        SaysExactly(blocks[i].fields, "type", "thinking");
      }
    }
  }

  lemma OnlyThinkingExactly(message: Json)
    ensures OnlyThinking(message) <==>
              message.Object? && exists blocks :: Holds(message.fields, "content", Array(blocks)) && ThinksOnly(blocks)
  {
    hide Find, Holds, ThinkingBlock, ThinksOnly;
    if message.Object? {
      forall blocks
        ensures Holds(message.fields, "content", Array(blocks)) <==>
                  && Find(message.fields, "content").Some?
                  && message.fields[Find(message.fields, "content").value].value == Array(blocks)
      {
        HoldsExactly(message.fields, "content", Array(blocks));
      }
      forall blocks
        ensures (blocks != [] && forall i :: 0 <= i < |blocks| ==> ThinkingBlock(blocks[i])) <==> ThinksOnly(blocks)
      {
        ThinksExactly(blocks);
      }
      if OnlyThinking(message) {
        var blocks := message.fields[Find(message.fields, "content").value].value.items;
        assert Holds(message.fields, "content", Array(blocks)) && ThinksOnly(blocks);
      }
    }
  }

  lemma CarriesExactly(event: seq<Field>)
    ensures CarriesThinking(event) <==> CarriesOnlyThinking(event)
  {
    hide Find, Holds, OnlyThinking, ThinksOnly;
    forall message ensures Holds(event, "message", message) <==>
                             Find(event, "message").Some? && event[Find(event, "message").value].value == message {
      HoldsExactly(event, "message", message);
    }
    forall message ensures OnlyThinking(message) <==>
      message.Object? && exists blocks :: Holds(message.fields, "content", Array(blocks)) && ThinksOnly(blocks)
    {
      OnlyThinkingExactly(message);
    }
    if CarriesThinking(event) {
      var message := event[Find(event, "message").value].value;
      assert Holds(event, "message", Object(message.fields));
    }
  }

  /** An event is dropped if and only if it is a rate limit, counts thinking, or is an assistant that only thinks. */
  lemma DroppedExactly(event: seq<Field>)
    ensures Dropped(event) <==> DropRule(event)
  {
    hide Says, Holds, CarriesThinking, CarriesOnlyThinking, OnlyThinking, Find;
    DroppedMeans(event);
    SaysExactly(event, "type", "rate_limit_event");
    SaysExactly(event, "type", "system");
    SaysExactly(event, "subtype", "thinking_tokens");
    SaysExactly(event, "type", "assistant");
    CarriesExactly(event);
  }

  // ---- Which work trees a line names ----

  /** `path` is `tree` with nothing but slashes behind it. */
  predicate EndsInSlashes(path: string, tree: string) {
    && tree <= path && (forall i :: |tree| <= i < |path| ==> path[i] == '/')
    && (tree == "" || Last(tree) != '/')
  }

  predicate Temporary(path: string) {
    "/var/" <= path || "/tmp/" <= path
  }

  /** `x` is `tree` or the other name the system has for it. */
  predicate Spells(x: string, tree: string) {
    || x == tree
    || (tree == "/private" + x && Temporary(x))
    || (x == "/private" + tree && Temporary(tree))
  }

  ghost predicate NamesTree(event: seq<Field>, key: string, x: string) {
    exists path, tree ::
      && Holds(event, key, Text(path)) && EndsInSlashes(path, tree)
      && |tree| >= 2 && tree[0] == '/' && Spells(x, tree) && x != "/tmp/statecraft-probe"
  }

  lemma SlashesReachTheEnd(path: string, tree: string)
    requires path != ""
    ensures EndsInSlashes(path, tree) ==> tree == path || Last(path) == '/'
  {
    assert tree <= path && |tree| == |path| ==> tree == path;
  }

  lemma {:induction false} TrimmedExactly(path: string, tree: string)
    ensures EndsInSlashes(path, tree) <==> tree == TrimSlashes(path)
  {
    assert tree <= path && |tree| == |path| ==> tree == path;
    if path != "" && Last(path) == '/' {
      var front := path[..|path| - 1];
      TrimmedExactly(front, tree);
      assert forall i :: 0 <= i < |front| ==> front[i] == path[i];
    } else if path != "" {
      SlashesReachTheEnd(path, tree);
    }
  }

  lemma SpellsExactly(tree: string, x: string)
    requires tree != ""
    ensures Spells(x, tree) <==> x == tree || (x != "" && x == OtherSpelling(tree))
  {
    if tree == "/private" + x && Temporary(x) {
      assert tree[8..] == x;
    }
    if "/private" <= tree && UnderTemporary(tree[8..]) {
      assert tree == "/private" + tree[8..];
      PrivateIsNotTemporary(tree);
    }
  }

  lemma PrivateIsNotTemporary(tree: string)
    requires "/private" <= tree
    ensures !Temporary(tree)
  {
    assert tree[1] == "/private"[1] == 'p';
    assert "/var/"[1] == 'v' && "/tmp/"[1] == 't';
  }

  lemma TheTreePlaceholder()
    ensures PLACEHOLDER_CWD == "/tmp/statecraft-probe"
  {
  }

  lemma SpellingsExactly(path: string, x: string)
    ensures x in Spellings(path) <==>
              exists tree :: EndsInSlashes(path, tree) && |tree| >= 2 && tree[0] == '/' && Spells(x, tree)
                             && x != "/tmp/statecraft-probe"
  {
    hide PLACEHOLDER_CWD, OtherSpelling, TrimSlashes, EndsInSlashes, Spells;
    TheTreePlaceholder();
    var tree := TrimSlashes(path);
    forall t ensures EndsInSlashes(path, t) <==> t == tree {
      TrimmedExactly(path, t);
    }
    if Absolute(tree) {
      SpellsExactly(tree, x);
      OtherSpellingIsAbsolute(tree);
    }
  }

  lemma UnderExactly(event: seq<Field>, key: string, x: string)
    ensures x in SpellingsUnder(event, key) <==> NamesTree(event, key, x)
  {
    hide Find, Holds, Spellings, EndsInSlashes, Spells;
    forall value ensures Holds(event, key, value) <==>
                           Find(event, key).Some? && event[Find(event, key).value].value == value {
      HoldsExactly(event, key, value);
    }
    forall path
      ensures x in Spellings(path) <==>
        exists tree :: EndsInSlashes(path, tree) && |tree| >= 2 && tree[0] == '/' && Spells(x, tree)
                       && x != "/tmp/statecraft-probe"
    {
      SpellingsExactly(path, x);
    }
  }

  /** A line names a work tree if and only if it is an init event that holds it as `cwd` or `original_cwd`. */
  lemma NamedExactly(line: Line, x: string)
    ensures x in NamedBy(line) <==>
              && line.Read? && line.value.Object? && Holds(line.value.fields, "subtype", Text("init"))
              && (NamesTree(line.value.fields, "cwd", x) || NamesTree(line.value.fields, "original_cwd", x))
  {
    hide Find, Holds, Says, SpellingsUnder, NamesTree;
    if line.Read? && line.value.Object? {
      SaysExactly(line.value.fields, "subtype", "init");
      UnderExactly(line.value.fields, "cwd", x);
      UnderExactly(line.value.fields, "original_cwd", x);
    }
  }

  // ---- Every key at every depth ----

  /** Under `memory_paths` every string is the placeholder, and nothing else changes. */
  ghost predicate Remembers(v: Json, w: Json)
    decreases v
  {
    match v
    case Text(_) => w == Text("/tmp/statecraft-probe/memory")
    case Array(items) =>
      w.Array? && |w.items| == |items| && forall i :: 0 <= i < |items| ==> Remembers(items[i], w.items[i])
    case Object(fields) =>
      && w.Object? && |w.fields| == |fields|
      && forall i :: 0 <= i < |fields| ==>
           w.fields[i].key == fields[i].key && Remembers(fields[i].value, w.fields[i].value)
    case _ => w == v
  }

  /** The keys whose value does not depend on what it was, and that value. */
  function Fixed(key: string, stamp: string): Option<Json> {
    match key
    case "session_id" => Some(Text("11111111-1111-1111-1111-111111111111"))
    case "uuid" => Some(Text("00000000-0000-0000-0000-000000000000"))
    case "hook_id" => Some(Text("00000000-0000-0000-0000-000000000000"))
    case "timestamp" => Some(Text(stamp))
    case "credential_expires_at" => Some(Text(stamp))
    case "cwd" => Some(Text("/tmp/statecraft-probe"))
    case "original_cwd" => Some(Text("/tmp/statecraft-probe"))
    case "messaging_socket_path" => Some(Text("/tmp/statecraft-probe/socket"))
    case "plugins" => Some(Array([]))
    case "additional_directories" => Some(Array([]))
    case _ => None
  }

  /** `w` is `v` redacted: fixed under the keys that call for it, rewritten in every other string, and as it was elsewhere. */
  ghost predicate Redacts(v: Json, w: Json, stamp: string, roots: seq<string>)
    requires Usable(roots)
    decreases v
  {
    match v
    case Text(s) => w == Text(Rewrite(s, roots))
    case Array(items) =>
      w.Array? && |w.items| == |items| && forall i :: 0 <= i < |items| ==> Redacts(items[i], w.items[i], stamp, roots)
    case Object(fields) =>
      && w.Object? && |w.fields| == |fields|
      && forall i :: 0 <= i < |fields| ==> RedactsField(fields[i], w.fields[i], stamp, roots)
    case _ => w == v
  }

  ghost predicate RedactsField(f: Field, g: Field, stamp: string, roots: seq<string>)
    requires Usable(roots)
    decreases f
  {
    && g.key == f.key
    && if Fixed(f.key, stamp).Some? then g.value == Fixed(f.key, stamp).value
       else if f.key == "memory_paths" then Remembers(f.value, g.value)
       else Redacts(f.value, g.value, stamp, roots)
  }

  lemma TheMemoryPlaceholder()
    ensures PLACEHOLDER_MEMORY == "/tmp/statecraft-probe/memory"
  {
  }

  lemma {:induction false} RemembersExactly(v: Json)
    ensures Remembers(v, Remember(v))
  {
    hide PLACEHOLDER_MEMORY;
    match v
    case Text(_) => TheMemoryPlaceholder();
    case Array(items) =>
      forall i | 0 <= i < |items| ensures Remembers(items[i], Remember(items[i])) {
        RemembersExactly(items[i]);
      }
    case Object(fields) =>
      forall i | 0 <= i < |fields| ensures Remembers(fields[i].value, Remember(fields[i].value)) {
        RemembersExactly(fields[i].value);
      }
    case _ =>
  }

  lemma FixedExactly(key: string, v: Json, stamp: string)
    ensures Fixed(key, stamp).Some? <==> !RoleOf(key).Open? && !RoleOf(key).Names? && !RoleOf(key).MemoryPaths?
    ensures Fixed(key, stamp).Some? ==> Fixed(key, stamp).value == FixedUnder(RoleOf(key), v, stamp)
    ensures key == "memory_paths" <==> RoleOf(key).MemoryPaths?
  {
  }

  /** Redaction fixes, remembers or rewrites every value by its key, at every depth. */
  lemma {:induction false} FixExactly(v: Json, stamp: string, roots: seq<string>)
    requires Usable(roots)
    ensures Redacts(v, Fix(v, stamp, roots), stamp, roots)
    decreases v
  {
    hide FixField, RedactsField, Rewrite;
    match v
    case Array(items) =>
      forall i | 0 <= i < |items| ensures Redacts(items[i], Fix(items[i], stamp, roots), stamp, roots) {
        FixExactly(items[i], stamp, roots);
      }
    case Object(fields) =>
      forall i | 0 <= i < |fields| ensures RedactsField(fields[i], FixField(fields[i], stamp, roots), stamp, roots) {
        FieldExactly(fields[i], stamp, roots);
      }
    case _ =>
  }

  lemma {:induction false} FieldExactly(f: Field, stamp: string, roots: seq<string>)
    requires Usable(roots)
    ensures RedactsField(f, FixField(f, stamp, roots), stamp, roots)
    decreases f
  {
    hide RoleOf, FixedUnder, Fixed, Redacts, Fix, Remember, Remembers;
    FixedExactly(f.key, f.value, stamp);
    if f.key == "memory_paths" {
      RemembersExactly(f.value);
      UnderMemory(f, stamp);
    } else if Fixed(f.key, stamp).None? {
      FixExactly(f.value, stamp, roots);
    }
  }

  lemma UnderMemory(f: Field, stamp: string)
    requires RoleOf(f.key).MemoryPaths?
    ensures FixedUnder(RoleOf(f.key), f.value, stamp) == Remember(f.value)
  {
    hide RoleOf, Remember;
  }

  // ---- Name lists ----

  /** The stem of each name list's placeholders. */
  function StemOf(key: string): Option<string> {
    match key
    case "tools" => Some("tool")
    case "skills" => Some("skill")
    case "agents" => Some("agent")
    case "slash_commands" => Some("command")
    case "terminal_slash_commands" => Some("terminal-command")
    case "mcp_servers" => Some("server")
    case _ => None
  }

  lemma StemExactly(key: string)
    ensures StemOf(key).Some? <==> RoleOf(key).Names?
    ensures RoleOf(key).Names? ==> RoleOf(key).stem == StemOf(key).value && (RoleOf(key).tools <==> key == "tools")
  {
  }

  /** One of the seven tool names that stay. */
  predicate StaysAsTool(item: Json) {
    item.Text? && item.s in {"Bash", "Read", "Edit", "Write", "Glob", "Grep", "Task"}
  }

  lemma StaysExactly(item: Json)
    ensures Verbatim(true, item) <==> StaysAsTool(item)
    ensures !Verbatim(false, item)
  {
  }

  /** The entry is named `name`: as a string, or as an object in its first `name`. */
  ghost predicate NamedAs(item: Json, out: Json, name: string) {
    match item
    case Text(_) => out == Text(name)
    case Object(fields) =>
      && out.Object? && |out.fields| == |fields|
      && forall k: nat :: k < |fields| ==>
           out.fields[k] == if HoldsAt(fields, "name", fields[k].value, k) then Field("name", Text(name)) else fields[k]
    case _ => out == item
  }

  lemma NamedAsExactly(item: Json, name: string)
    ensures NamedAs(item, Rename(item, name), name)
  {
    hide Find;
    if item.Object? {
      FindsFirst(item.fields, "name");
    }
  }

  /** What a name list becomes: the tools that stay, in order, then every other entry under its number. */
  ghost predicate ListBecomes(items: seq<Json>, out: seq<Json>, stem: string, tools: bool) {
    var kept := Filter((x: Json) => tools && StaysAsTool(x), items);
    var rest := Filter((x: Json) => !(tools && StaysAsTool(x)), items);
    && |out| == |kept| + |rest| && out[..|kept|] == kept
    && forall i: nat :: i < |rest| ==> NamedAs(rest[i], out[|kept| + i], stem + "-" + Decimal.Print(i + 1))
  }

  lemma ListExactly(items: seq<Json>, stem: string, tools: bool)
    ensures ListBecomes(items, PlaceholdersOf(Array(items), stem, tools).items, stem, tools)
  {
    hide Verbatim, StaysAsTool, Rename, Filter, NamedAs, Decimal.Print;
    forall x ensures Verbatim(tools, x) <==> tools && StaysAsTool(x) {
      StaysExactly(x);
    }
    SameFilter(x => Verbatim(tools, x), x => tools && StaysAsTool(x), items);
    SameFilter(x => !Verbatim(tools, x), x => !(tools && StaysAsTool(x)), items);
    var rest := Rest(items, tools);
    forall i: nat | i < |rest| ensures NamedAs(rest[i], Renamed(rest, stem)[i], stem + "-" + Decimal.Print(i + 1)) {
      NamedAsExactly(rest[i], Name(stem, i + 1));
    }
  }

  // ---- A whole event ----

  /** The value under a key of an event, once its name list was renamed. */
  ghost predicate Listed(f: Field, v: Json) {
    if StemOf(f.key).Some? && f.value.Array?
    then v.Array? && ListBecomes(f.value.items, v.items, StemOf(f.key).value, f.key == "tools")
    else v == f.value
  }

  /** The event's own fields in their order, each with its list renamed and then redacted. */
  ghost predicate RedactsEvent(event: seq<Field>, out: Json, stamp: string, roots: seq<string>)
    requires Usable(roots)
  {
    && out.Object? && |out.fields| == |event|
    && forall k :: 0 <= k < |event| ==> RedactsEventField(event[k], out.fields[k], stamp, roots)
  }

  ghost predicate RedactsEventField(f: Field, g: Field, stamp: string, roots: seq<string>)
    requires Usable(roots)
  {
    exists v :: Listed(f, v) && RedactsField(Field(f.key, v), g, stamp, roots)
  }

  lemma ListedExactly(event: seq<Field>, k: nat)
    requires k < |event|
    ensures |ListsReplaced(event)| == |event| && ListsReplaced(event)[k].key == event[k].key
    ensures Listed(event[k], ListsReplaced(event)[k].value)
  {
    hide RoleOf, PlaceholdersOf, StemOf, ListBecomes;
    StemExactly(event[k].key);
    if StemOf(event[k].key).Some? && event[k].value.Array? {
      ListExactly(event[k].value.items, StemOf(event[k].key).value, event[k].key == "tools");
      ArraysStay(event[k].value, StemOf(event[k].key).value, event[k].key == "tools");
    } else {
      OthersStay(event[k].value);
    }
  }

  lemma ArraysStay(v: Json, stem: string, tools: bool)
    requires v.Array?
    ensures PlaceholdersOf(v, stem, tools).Array?
  {
  }

  lemma OthersStay(v: Json)
    ensures !v.Array? ==> forall stem, tools :: PlaceholdersOf(v, stem, tools) == v
  {
  }

  lemma EventExactly(event: seq<Field>, stamp: string, roots: seq<string>)
    requires Usable(roots)
    ensures RedactsEvent(event, RedactedEvent(event, stamp, roots), stamp, roots)
  {
    hide FixField, RedactsField, Listed, ListsReplaced, Fix, Rewrite, RoleOf;
    var listed, out := ListsReplaced(event), RedactedEvent(event, stamp, roots);
    ListsKeepCount(event);
    FieldKeysStay(listed, stamp, roots);
    forall k | 0 <= k < |event|
      ensures RedactsEventField(event[k], out.fields[k], stamp, roots)
    {
      ListedExactly(event, k);
      FieldExactly(listed[k], stamp, roots);
      assert listed[k] == Field(event[k].key, listed[k].value);
      assert Listed(event[k], listed[k].value);
    }
  }

  lemma ListsKeepCount(event: seq<Field>)
    ensures |ListsReplaced(event)| == |event|
  {
    hide RoleOf, PlaceholdersOf;
  }

  /**
   The redacted stream, rule by rule: its events are those no rule drops, in order, and each is its own
   event with every name list renamed and every value fixed, remembered or rewritten by its key.
   */
  lemma RedactedExactly(lines: seq<Line>, captured: string, i: nat)
    requires i < |KeptEvents(lines)|
    ensures Usable(WorkTreesOf(lines))
    ensures |RedactedStream(lines, captured)| == |KeptEvents(lines)|
    ensures RedactsEvent(KeptEvents(lines)[i], RedactedStream(lines, captured)[i],
                         captured + "T00:00:00.000Z", WorkTreesOf(lines))
  {
    hide RedactedEvent, WorkTreesOf, RedactsEvent, Absolute;
    WorkTreesAreUsable(lines);
    EventExactly(KeptEvents(lines)[i], Midnight(captured), WorkTreesOf(lines));
  }

  /** An event of the input is kept if and only if no rule drops it. */
  lemma KeptExactly(line: Line)
    ensures Keeps(line) <==> line.Read? && line.value.Object? && !DropRule(line.value.fields)
  {
    hide Dropped, DropRule;
    if line.Read? && line.value.Object? {
      DroppedExactly(line.value.fields);
    }
  }
}
