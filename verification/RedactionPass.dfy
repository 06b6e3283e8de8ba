/** The redaction pass: its loops, each proved to compute what `Redaction` defines. */
module RedactionPass {
  import opened Prelude
  import opened Substrings
  import opened Redaction
  import opened RedactionFacts
  import opened WorkTrees
  import opened NameLists

  lemma NamedByIsUsable(line: Line)
    ensures forall x :: x in NamedBy(line) ==> Absolute(x)
  {
    hide Spellings, Says, Absolute;
    if line.Read? && line.value.Object? {
      var event := line.value.fields;
      SpellingsUnderAreUsable(event, "cwd");
      SpellingsUnderAreUsable(event, "original_cwd");
    }
  }

  lemma SpellingsUnderAreUsable(event: seq<Field>, key: string)
    ensures forall x :: x in SpellingsUnder(event, key) ==> Absolute(x)
  {
    hide Spellings, Absolute;
    if Find(event, key).Some? && event[Find(event, key).value].value.Text? {
      SpellingsAreUsable(event[Find(event, key).value].value.s);
    }
  }

  lemma WorkTreesAreUsable(lines: seq<Line>)
    ensures Usable(WorkTreesOf(lines))
  {
    hide Absolute, NamedBy, Distinct, LongestFirst, WorkTreesOf;
    WorkTreesAre(lines);
    var roots := WorkTreesOf(lines);
    forall i | 0 <= i < |roots| ensures Absolute(roots[i]) {
      assert roots[i] in roots;
      var k :| 0 <= k < |lines| && roots[i] in NamedBy(lines[k]);
      NamedByIsUsable(lines[k]);
    }
  }

  method WorkTreesIn(lines: seq<Line>) returns (roots: seq<string>)
    ensures roots == WorkTreesOf(lines)
  {
    hide Spellings, Says, Distinct, SortByLength;
    roots := [];
    for i := 0 to |lines|
      invariant roots == Collected(lines[..i])
    {
      assert lines[..i + 1][..i] == lines[..i];
      var line := lines[i];
      ghost var before := roots;
      if line.Read? && line.value.Object? && Says(line.value.fields, "subtype", "init") {
        var event := line.value.fields;
        roots := AddSpellings(event, "cwd", roots);
        roots := AddSpellings(event, "original_cwd", roots);
        AddNewAppend(before, SpellingsUnder(event, "cwd"), SpellingsUnder(event, "original_cwd"));
      }
      assert roots == AddNew(before, NamedBy(line));
    }
    assert lines[..|lines|] == lines;
    roots := SortByLength(roots);
  }

  lemma {:induction false} AddNewAppend(roots: seq<string>, a: seq<string>, b: seq<string>)
    ensures AddNew(roots, a + b) == AddNew(AddNew(roots, a), b)
    decreases |b|
  {
    hide Distinct;
    if |b| == 0 {
      assert a + b == a;
    } else {
      var front := b[..|b| - 1];
      AddNewAppend(roots, a, front);
      assert (a + b)[..|a + b| - 1] == a + front && Last(a + b) == Last(b);
    }
  }

  method AddSpellings(event: seq<Field>, key: string, before: seq<string>) returns (roots: seq<string>)
    ensures roots == AddNew(before, SpellingsUnder(event, key))
  {
    hide Spellings, Distinct;
    roots := before;
    var at := Find(event, key);
    if at.None? || !event[at.value].value.Text? {
      return;
    }
    var more := Spellings(event[at.value].value.s);
    for i := 0 to |more|
      invariant roots == AddNew(before, more[..i])
    {
      assert more[..i + 1][..i] == more[..i];
      if more[i] !in roots {
        roots := roots + [more[i]];
      }
    }
    assert more[..|more|] == more;
  }

  method RewriteText(text: string, roots: seq<string>) returns (r: string)
    requires Usable(roots)
    ensures r == Rewrite(text, roots)
  {
    hide Replace, PLACEHOLDER_CWD;
    r := text;
    for i := 0 to |roots|
      invariant r == Rewrite(text, roots[..i])
    {
      assert roots[..i + 1][..i] == roots[..i];
      if Occurs(roots[i], r) {
        r := Replace(r, roots[i], PLACEHOLDER_CWD);
      } else {
        ReplaceNothing(r, roots[i], PLACEHOLDER_CWD);
      }
    }
    assert roots[..|roots|] == roots;
  }

  method RememberTree(v: Json) returns (r: Json)
    ensures r == Remember(v)
    decreases v
  {
    hide PLACEHOLDER_MEMORY;
    match v {
      case Text(_) => r := Text(PLACEHOLDER_MEMORY);
      case Array(items) =>
        var out := [];
        for i := 0 to |items|
          invariant |out| == i && forall k :: 0 <= k < i ==> out[k] == Remember(items[k])
        {
          var item := RememberTree(items[i]);
          out := out + [item];
        }
        r := Array(out);
      case Object(fields) =>
        var out := [];
        for i := 0 to |fields|
          invariant |out| == i
          invariant forall k :: 0 <= k < i ==> out[k] == Field(fields[k].key, Remember(fields[k].value))
        {
          var value := RememberTree(fields[i].value);
          out := out + [Field(fields[i].key, value)];
        }
        r := Object(out);
        assert out == Remember(v).fields;
      case _ => r := v;
    }
  }

  method FixTree(v: Json, stamp: string, roots: seq<string>) returns (r: Json)
    requires Usable(roots)
    ensures r == Fix(v, stamp, roots)
    decreases v, 0
  {
    hide Rewrite, RoleOf, FixedUnder;
    match v {
      case Text(s) =>
        var text := RewriteText(s, roots);
        r := Text(text);
      case Array(items) =>
        var out := FixItems(items, stamp, roots);
        assert out == Fix(v, stamp, roots).items;
        r := Array(out);
      case Object(fields) =>
        var out := FixFields(fields, stamp, roots);
        assert out == Fix(v, stamp, roots).fields;
        r := Object(out);
      case _ => r := v;
    }
  }

  method FixItems(items: seq<Json>, stamp: string, roots: seq<string>) returns (out: seq<Json>)
    requires Usable(roots)
    ensures |out| == |items| && forall i :: 0 <= i < |items| ==> out[i] == Fix(items[i], stamp, roots)
    decreases items, 1
  {
    hide Fix;
    out := [];
    for i := 0 to |items|
      invariant |out| == i && forall k :: 0 <= k < i ==> out[k] == Fix(items[k], stamp, roots)
    {
      var item := FixTree(items[i], stamp, roots);
      out := out + [item];
    }
  }

  method FixFields(fields: seq<Field>, stamp: string, roots: seq<string>) returns (out: seq<Field>)
    requires Usable(roots)
    ensures |out| == |fields| && forall i :: 0 <= i < |fields| ==> out[i] == FixField(fields[i], stamp, roots)
    decreases fields, 1
  {
    hide Fix, RoleOf, FixedUnder;
    out := [];
    for i := 0 to |fields|
      invariant |out| == i && forall k :: 0 <= k < i ==> out[k] == FixField(fields[k], stamp, roots)
    {
      var value := FixUnder(fields[i], stamp, roots);
      out := out + [Field(fields[i].key, value)];
    }
  }

  method FixUnder(f: Field, stamp: string, roots: seq<string>) returns (value: Json)
    requires Usable(roots)
    ensures Field(f.key, value) == FixField(f, stamp, roots)
    decreases f, 1
  {
    hide RoleOf, Fix, Remember;
    match RoleOf(f.key) {
      case SessionId => value := Text(FIXED_SESSION_ID);
      case Identifier => value := Text(FIXED_ID);
      case Stamp => value := Text(stamp);
      case Tree => value := Text(PLACEHOLDER_CWD);
      case Socket => value := Text(PLACEHOLDER_SOCKET);
      case MemoryPaths => value := RememberTree(f.value);
      case Emptied => value := Array([]);
      case _ => value := FixTree(f.value, stamp, roots);
    }
  }

  method Placeholders(v: Json, stem: string, tools: bool) returns (r: Json)
    ensures r == PlaceholdersOf(v, stem, tools)
  {
    hide Verbatim, Name, Rename, Filter, Kept, Rest;
    if !v.Array? {
      return v;
    }
    var kept, rest := Partition(v.items, tools);
    ghost var first := kept;
    for n := 0 to |rest|
      invariant kept == first + Renamed(rest, stem)[..n]
    {
      kept := kept + [Rename(rest[n], Name(stem, n + 1))];
    }
    r := Array(kept);
  }

  method Partition(items: seq<Json>, tools: bool) returns (kept: seq<Json>, rest: seq<Json>)
    ensures kept == Kept(items, tools) && rest == Rest(items, tools)
  {
    hide Verbatim, Filter, Kept, Rest;
    kept, rest := [], [];
    PartitionNothing(tools);
    assert items[..0] == [];
    for i := 0 to |items|
      invariant kept == Kept(items[..i], tools) && rest == Rest(items[..i], tools)
    {
      assert items[..i + 1] == items[..i] + [items[i]];
      PartitionStep(items[..i], items[i], tools);
      if Verbatim(tools, items[i]) {
        kept := kept + [items[i]];
      } else {
        rest := rest + [items[i]];
      }
    }
    assert items[..|items|] == items;
  }

  lemma PartitionNothing(tools: bool)
    ensures Kept([], tools) == [] && Rest([], tools) == []
  {
  }

  lemma PartitionStep(items: seq<Json>, item: Json, tools: bool)
    ensures Kept(items + [item], tools) == Kept(items, tools) + (if Verbatim(tools, item) then [item] else [])
    ensures Rest(items + [item], tools) == Rest(items, tools) + (if Verbatim(tools, item) then [] else [item])
  {
    hide Verbatim;
    FilterAppend(x => Verbatim(tools, x), items, [item]);
    FilterAppend(x => !Verbatim(tools, x), items, [item]);
  }

  // ---- The whole pass ----

  predicate Readable(line: Line) {
    line.Blank? || (line.Read? && line.value.Object?)
  }

  predicate Keeps(line: Line) {
    line.Read? && line.value.Object? && !Dropped(line.value.fields)
  }

  /** The kept events, in stream order. */
  function KeptEvents(lines: seq<Line>): seq<seq<Field>> {
    if |lines| == 0 then []
    else KeptEvents(lines[..|lines| - 1]) + (if Keeps(Last(lines)) then [Last(lines).value.fields] else [])
  }

  function Midnight(captured: string): string {
    captured + MIDNIGHT
  }

  function RedactedStream(lines: seq<Line>, captured: string): seq<Json> {
    var roots := WorkTreesOf(lines);
    var events := KeptEvents(lines);
    WorkTreesAreUsable(lines);
    seq(|events|, i requires 0 <= i < |events| => RedactedEvent(events[i], Midnight(captured), roots))
  }

  /**
   Either every line is blank or an object, and the result is the redacted kept events in order; or
   the error names, counting from one, the first line that is neither.
   */
  ghost predicate RedactSpec(lines: seq<Line>, captured: string, r: Result<seq<Json>, nat>) {
    match r
    case Ok(out) => out == RedactedStream(lines, captured) && forall i :: 0 <= i < |lines| ==> Readable(lines[i])
    case Err(n) =>
      1 <= n <= |lines| && !Readable(lines[n - 1]) && forall i :: 0 <= i < n - 1 ==> Readable(lines[i])
  }

  method Redact(lines: seq<Line>, captured: string) returns (r: Result<seq<Json>, nat>)
    ensures RedactSpec(lines, captured, r)
  {
    hide Dropped, RoleOf, Fix, WorkTreesOf, MIDNIGHT, Usable, PlaceholdersOf;
    var stamp := Midnight(captured);
    var roots := WorkTreesIn(lines);
    WorkTreesAreUsable(lines);
    var out := [];
    for index := 0 to |lines|
      invariant forall i :: 0 <= i < index ==> Readable(lines[i])
      invariant |out| == |KeptEvents(lines[..index])|
      invariant forall i :: 0 <= i < |out| ==> out[i] == RedactedEvent(KeptEvents(lines[..index])[i], stamp, roots)
    {
      assert lines[..index + 1][..index] == lines[..index];
      var line := lines[index];
      if line.Blank? {
        continue;
      }
      if line.Unreadable? || !line.value.Object? {
        return Err(index + 1);
      }
      var event := line.value.fields;
      if Dropped(event) {
        continue;
      }
      var listed := ReplaceLists(event);
      var value := FixTree(Object(listed), stamp, roots);
      out := out + [value];
    }
    assert lines[..|lines|] == lines;
    assert out == RedactedStream(lines, captured);
    r := Ok(out);
  }

  method ReplaceLists(event: seq<Field>) returns (out: seq<Field>)
    ensures out == ListsReplaced(event)
  {
    hide RoleOf, PlaceholdersOf;
    out := [];
    for i := 0 to |event|
      invariant out == ListsReplaced(event)[..i]
    {
      var role := RoleOf(event[i].key);
      var value := event[i].value;
      if role.Names? {
        value := Placeholders(value, role.stem, role.tools);
      }
      out := out + [Field(event[i].key, value)];
    }
  }
}
