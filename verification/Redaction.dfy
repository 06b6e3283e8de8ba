/**
 Redaction of a recorded provider stream: what is dropped, what becomes a fixed value, which names
 become placeholders, and the work trees the stream itself names.

 A string is its sequence of UTF-8 bytes. A line is already read as JSON that keeps key order.
 */
module Redaction {
  import opened Prelude
  import opened Substrings
  import Decimal

  datatype Json =
    | Null
    | Boolean(b: bool)
    | Number(text: string)
    | Text(s: string)
    | Array(items: seq<Json>)
    | Object(fields: seq<Field>)

  datatype Field = Field(key: string, value: Json)

  datatype Line = Blank | Unreadable | Read(value: Json)

  const FIXED_SESSION_ID := "11111111-1111-1111-1111-111111111111"
  const FIXED_ID := "00000000-0000-0000-0000-000000000000"
  const PLACEHOLDER_CWD := "/tmp/statecraft-probe"
  const PLACEHOLDER_SOCKET := "/tmp/statecraft-probe/socket"
  const PLACEHOLDER_MEMORY := "/tmp/statecraft-probe/memory"
  const MIDNIGHT := "T00:00:00.000Z"

  /** What redaction does with the value under a key. A name list counts only at the top of an event. */
  datatype Role =
    | SessionId
    | Identifier
    | Stamp
    | Tree
    | Socket
    | MemoryPaths
    | Emptied
    | Names(stem: string, tools: bool)
    | Open

  function RoleOf(key: string): Role {
    if key == "session_id" then SessionId
    else if key == "uuid" || key == "hook_id" then Identifier
    else if key == "timestamp" || key == "credential_expires_at" then Stamp
    else if key == "cwd" || key == "original_cwd" then Tree
    else if key == "messaging_socket_path" then Socket
    else if key == "memory_paths" then MemoryPaths
    else if key == "plugins" || key == "additional_directories" then Emptied
    else ListRole(key)
  }

  function ListRole(key: string): (r: Role)
    ensures r.Names? || r.Open?
  {
    if key == "tools" then Names("tool", true)
    else if key == "skills" then Names("skill", false)
    else if key == "agents" then Names("agent", false)
    else if key == "slash_commands" then Names("command", false)
    else if key == "terminal_slash_commands" then Names("terminal-command", false)
    else if key == "mcp_servers" then Names("server", false)
    else Open
  }

  predicate VerbatimTool(s: string) {
    s == "Bash" || s == "Read" || s == "Edit" || s == "Write" || s == "Glob" || s == "Grep" || s == "Task"
  }

  // ---- Reading an event ----

  function Find(fields: seq<Field>, key: string): (r: Option<nat>)
    ensures r.Some? ==> r.value < |fields| && fields[r.value].key == key
    ensures r.None? ==> forall i :: 0 <= i < |fields| ==> fields[i].key != key
  {
    if |fields| == 0 then None
    else if fields[0].key == key then Some(0)
    else
      match Find(fields[1..], key)
      case None => None
      case Some(i) => Some(i + 1)
  }

  predicate Says(fields: seq<Field>, key: string, word: string) {
    Find(fields, key).Some? && fields[Find(fields, key).value].value == Text(word)
  }

  predicate ThinkingBlock(block: Json) {
    block.Object? && Says(block.fields, "type", "thinking")
  }

  predicate OnlyThinking(message: Json) {
    message.Object?
    && var at := Find(message.fields, "content");
       at.Some?
       && var content := message.fields[at.value].value;
          content.Array? && content.items != []
          && forall i :: 0 <= i < |content.items| ==> ThinkingBlock(content.items[i])
  }

  predicate Dropped(event: seq<Field>) {
    || Says(event, "type", "rate_limit_event")
    || (Says(event, "type", "system") && Says(event, "subtype", "thinking_tokens"))
    || (Says(event, "type", "assistant")
        && Find(event, "message").Some? && OnlyThinking(event[Find(event, "message").value].value))
  }

  // ---- Work trees ----

  function TrimSlashes(path: string): (r: string)
    ensures r == "" || Last(r) != '/'
    ensures r <= path
  {
    if path != "" && Last(path) == '/' then TrimSlashes(path[..|path| - 1]) else path
  }

  predicate UnderTemporary(path: string) {
    "/var/" <= path || "/tmp/" <= path
  }

  function OtherSpelling(path: string): string {
    if "/private" <= path && UnderTemporary(path[8..]) then path[8..]
    else if UnderTemporary(path) then "/private" + path
    else ""
  }

  predicate Absolute(path: string) {
    |path| >= 2 && path[0] == '/'
  }

  /** The spellings a work tree path contributes: itself and its other one, save the placeholder. */
  function Spellings(path: string): (r: seq<string>)
    ensures forall i :: 0 <= i < |r| ==> r[i] != PLACEHOLDER_CWD
  {
    var trimmed := TrimSlashes(path);
    if !Absolute(trimmed) then []
    else Worth(trimmed) + Worth(OtherSpelling(trimmed))
  }

  function Worth(root: string): seq<string> {
    if root == "" || root == PLACEHOLDER_CWD then [] else [root]
  }

  function AddNew(roots: seq<string>, more: seq<string>): (r: seq<string>)
    ensures forall x :: x in r <==> x in roots || x in more
    ensures Distinct(roots) ==> Distinct(r)
    decreases |more|
  {
    if |more| == 0 then roots
    else
      var before := AddNew(roots, more[..|more| - 1]);
      if Last(more) in before then before else before + [Last(more)]
  }

  predicate Distinct(s: seq<string>) {
    forall i, j :: 0 <= i < j < |s| ==> s[i] != s[j]
  }

  function SpellingsUnder(event: seq<Field>, key: string): seq<string> {
    var at := Find(event, key);
    if at.Some? && event[at.value].value.Text? then Spellings(event[at.value].value.s) else []
  }

  function NamedBy(line: Line): seq<string> {
    if line.Read? && line.value.Object? && Says(line.value.fields, "subtype", "init")
    then SpellingsUnder(line.value.fields, "cwd") + SpellingsUnder(line.value.fields, "original_cwd")
    else []
  }

  function Collected(lines: seq<Line>): (r: seq<string>)
    ensures Distinct(r)
  {
    if |lines| == 0 then [] else AddNew(Collected(lines[..|lines| - 1]), NamedBy(Last(lines)))
  }

  predicate LongestFirst(s: seq<string>) {
    forall i, j :: 0 <= i < j < |s| ==> |s[i]| >= |s[j]|
  }

  /** Insertion behind every root at least as long, which keeps equal lengths in their order. */
  function InsertByLength(roots: seq<string>, root: string): (r: seq<string>)
    ensures multiset(r) == multiset(roots) + multiset{root}
  {
    if |roots| > 0 && |Last(roots)| < |root|
    then
      assert roots == roots[..|roots| - 1] + [Last(roots)];
      InsertByLength(roots[..|roots| - 1], root) + [Last(roots)]
    else roots + [root]
  }

  function SortByLength(roots: seq<string>): (r: seq<string>)
    ensures multiset(r) == multiset(roots)
  {
    if |roots| == 0 then []
    else
      assert roots == roots[..|roots| - 1] + [Last(roots)];
      InsertByLength(SortByLength(roots[..|roots| - 1]), Last(roots))
  }

  function WorkTreesOf(lines: seq<Line>): seq<string> {
    SortByLength(Collected(lines))
  }

  // ---- Rewriting ----

  predicate Usable(roots: seq<string>) {
    forall i :: 0 <= i < |roots| ==> Absolute(roots[i])
  }

  function Rewrite(text: string, roots: seq<string>): string
    requires Usable(roots)
  {
    if |roots| == 0 then text
    else Replace(Rewrite(text, roots[..|roots| - 1]), Last(roots), PLACEHOLDER_CWD)
  }

  function Remember(v: Json): Json {
    match v
    case Text(_) => Text(PLACEHOLDER_MEMORY)
    case Array(items) => Array(seq(|items|, i requires 0 <= i < |items| => Remember(items[i])))
    case Object(fields) =>
      Object(seq(|fields|, i requires 0 <= i < |fields| => Field(fields[i].key, Remember(fields[i].value))))
    case _ => v
  }

  function FixedUnder(role: Role, v: Json, stamp: string): Json
    requires !role.Names? && !role.Open?
  {
    match role
    case SessionId => Text(FIXED_SESSION_ID)
    case Identifier => Text(FIXED_ID)
    case Stamp => Text(stamp)
    case Tree => Text(PLACEHOLDER_CWD)
    case Socket => Text(PLACEHOLDER_SOCKET)
    case MemoryPaths => Remember(v)
    case Emptied => Array([])
  }

  predicate Descends(key: string) {
    RoleOf(key).Open? || RoleOf(key).Names?
  }

  function Fix(v: Json, stamp: string, roots: seq<string>): Json
    requires Usable(roots)
    decreases v
  {
    match v
    case Text(s) => Text(Rewrite(s, roots))
    case Array(items) => Array(seq(|items|, i requires 0 <= i < |items| => Fix(items[i], stamp, roots)))
    case Object(fields) =>
      Object(seq(|fields|, i requires 0 <= i < |fields| => FixField(fields[i], stamp, roots)))
    case _ => v
  }

  function FixField(f: Field, stamp: string, roots: seq<string>): Field
    requires Usable(roots)
    decreases f
  {
    if Descends(f.key) then Field(f.key, Fix(f.value, stamp, roots))
    else Field(f.key, FixedUnder(RoleOf(f.key), f.value, stamp))
  }

  function Name(stem: string, n: nat): string {
    stem + "-" + Decimal.Print(n)
  }

  function Rename(item: Json, name: string): Json {
    match item
    case Text(_) => Text(name)
    case Object(fields) =>
      (match Find(fields, "name")
       case None => item
       case Some(i) => Object(fields[i := Field("name", Text(name))]))
    case _ => item
  }

  predicate Verbatim(tools: bool, item: Json) {
    tools && item.Text? && VerbatimTool(item.s)
  }

  function Renamed(rest: seq<Json>, stem: string): seq<Json> {
    seq(|rest|, i requires 0 <= i < |rest| => Rename(rest[i], Name(stem, i + 1)))
  }

  function Kept(items: seq<Json>, tools: bool): seq<Json> {
    Filter(item => Verbatim(tools, item), items)
  }

  function Rest(items: seq<Json>, tools: bool): seq<Json> {
    Filter(item => !Verbatim(tools, item), items)
  }

  function PlaceholdersOf(v: Json, stem: string, tools: bool): Json {
    if v.Array? then Array(Kept(v.items, tools) + Renamed(Rest(v.items, tools), stem)) else v
  }

  function ListsReplaced(event: seq<Field>): seq<Field> {
    seq(|event|, i requires 0 <= i < |event| =>
          var role := RoleOf(event[i].key);
          if role.Names? then Field(event[i].key, PlaceholdersOf(event[i].value, role.stem, role.tools))
          else event[i])
  }

  function RedactedEvent(event: seq<Field>, stamp: string, roots: seq<string>): (r: Json)
    requires Usable(roots)
    ensures r.Object?
  {
    Fix(Object(ListsReplaced(event)), stamp, roots)
  }
}
