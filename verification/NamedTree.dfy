/** A stream of one `init` event that names a work tree, and what redaction makes of it. */
module NamedTree {
  import opened Prelude
  import opened Substrings
  import opened Redaction
  import opened RedactionFacts
  import opened WorkTrees
  import opened RedactionIdempotence
  import opened NameLists
  import opened RedactionPass
  import opened RecordedStream

  /** The event names `root`, perhaps a second work tree, and carries `text` under a key left open. */
  function Event(root: string, second: Option<string>, text: string): seq<Field> {
    [Field("subtype", Text("init")), Field("cwd", Text(root)), Field("note", Text(text)),
     Field("messaging_socket_path", Text("")), Field("memory_paths", Text(""))]
    + (if second.Some? then [Field("original_cwd", Text(second.value))] else [])
  }

  function Stream(root: string, second: Option<string>, text: string): seq<Line> {
    [Read(Object(Event(root, second, text)))]
  }

  predicate Keyed(event: seq<Field>, second: Option<string>) {
    && |event| == (if second.Some? then 6 else 5)
    && event[0].key == "subtype" && event[1].key == "cwd" && event[2].key == "note"
    && event[3].key == "messaging_socket_path" && event[4].key == "memory_paths"
    && (second.Some? ==> event[5].key == "original_cwd")
  }

  lemma EventIsKeyed(root: string, second: Option<string>, text: string)
    ensures Keyed(Event(root, second, text), second)
  {
  }

  lemma FindSubtype(event: seq<Field>, second: Option<string>)
    requires Keyed(event, second)
    ensures Find(event, "subtype") == Some(0)
  {
  }

  lemma FindCwd(event: seq<Field>, second: Option<string>)
    requires Keyed(event, second)
    ensures Find(event, "cwd") == Some(1)
  {
  }

  lemma FindSecond(event: seq<Field>, second: Option<string>)
    requires Keyed(event, second)
    ensures Find(event, "original_cwd") == if second.Some? then Some(5) else None
  {
  }

  lemma FindNoType(event: seq<Field>, second: Option<string>)
    requires Keyed(event, second)
    ensures Find(event, "type") == None
  {
  }

  lemma EventIsKept(root: string, second: Option<string>, text: string)
    ensures !Dropped(Event(root, second, text))
  {
    hide Find, Keyed, Event, OnlyThinking;
    EventIsKeyed(root, second, text);
    FindNoType(Event(root, second, text), second);
  }

  lemma EventIsInit(root: string, second: Option<string>, text: string)
    ensures Says(Event(root, second, text), "subtype", "init")
  {
    hide Find, Keyed;
    EventIsKeyed(root, second, text);
    FindSubtype(Event(root, second, text), second);
  }

  lemma EventNames(root: string, second: Option<string>, text: string)
    ensures NamedBy(Read(Object(Event(root, second, text))))
         == Spellings(root) + (if second.Some? then Spellings(second.value) else [])
  {
    hide Find, Keyed, Says, Spellings;
    var event := Event(root, second, text);
    EventIsKeyed(root, second, text);
    EventIsInit(root, second, text);
    FindCwd(event, second);
    FindSecond(event, second);
  }

  lemma StreamKeeps(root: string, second: Option<string>, text: string)
    ensures KeptEvents(Stream(root, second, text)) == [Event(root, second, text)]
    ensures Collected(Stream(root, second, text))
         == AddNew([], Spellings(root) + (if second.Some? then Spellings(second.value) else []))
  {
    hide Event, Dropped, NamedBy, Spellings, AddNew, Distinct;
    EventIsKept(root, second, text);
    EventNames(root, second, text);
    var lines := Stream(root, second, text);
    assert lines[..0] == [];
  }

  lemma EventRoles()
    ensures RoleOf("subtype") == Open && RoleOf("note") == Open
    ensures RoleOf("cwd") == Tree
  {
  }

  lemma PathRoles()
    ensures RoleOf("messaging_socket_path") == Socket && RoleOf("memory_paths") == MemoryPaths
  {
  }

  /** The text is rewritten, and each path field holds its placeholder whatever the work trees. */
  lemma EventRedacted(root: string, second: Option<string>, text: string, stamp: string, roots: seq<string>)
    requires Usable(roots)
    ensures var out := RedactedEvent(Event(root, second, text), stamp, roots).fields;
            && |out| >= 5
            && out[1].value == Text(PLACEHOLDER_CWD) && out[2] == Field("note", Text(Rewrite(text, roots)))
            && out[3].value == Text(PLACEHOLDER_SOCKET) && out[4].value == Text(PLACEHOLDER_MEMORY)
  {
    hide RoleOf, Rewrite, PlaceholdersOf, Fix, Keyed, PLACEHOLDER_CWD, PLACEHOLDER_SOCKET, PLACEHOLDER_MEMORY;
    var event := Event(root, second, text);
    EventRoles();
    PathRoles();
    FieldKeysStay(ListsReplaced(event), stamp, roots);
    OpenFieldIsFixed(ListsReplaced(event)[2], stamp, roots);
    TextIsRewritten(text, stamp, roots);
  }

  lemma TextIsRewritten(s: string, stamp: string, roots: seq<string>)
    requires Usable(roots)
    ensures Fix(Text(s), stamp, roots) == Text(Rewrite(s, roots))
  {
    hide Rewrite;
  }

  /** What redaction makes of the stream: the one event, redacted under the work trees it names. */
  lemma StreamRedacted(root: string, second: Option<string>, text: string, captured: string, roots: seq<string>)
    requires WorkTreesOf(Stream(root, second, text)) == roots
    ensures Usable(roots)
    ensures RedactedStream(Stream(root, second, text), captured)
         == [RedactedEvent(Event(root, second, text), Midnight(captured), roots)]
  {
    hide RedactedEvent, WorkTreesOf, Midnight, Stream, Event, Absolute;
    WorkTreesAreUsable(Stream(root, second, text));
    StreamKeeps(root, second, text);
  }
}
