/** Redacting a redacted stream again. */
module RedactionTwice {
  import opened Prelude
  import opened Substrings
  import opened Redaction
  import opened RedactionFacts
  import opened WorkTrees
  import opened RootsRemoved
  import opened RedactionIdempotence
  import opened NameLists
  import opened RedactionPass
  import opened RecordedStream
  import NamedTree

  /** The redacted events as the lines of a stream. */
  function AsLines(out: seq<Json>): (lines: seq<Line>)
    ensures |lines| == |out| && forall i :: 0 <= i < |out| ==> lines[i] == Read(out[i])
  {
    seq(|out|, i requires 0 <= i < |out| => Read(out[i]))
  }

  // ---- The lists ----

  lemma ListedField(f: Field, g: Field, stamp: string, roots: seq<string>)
    requires Usable(roots) && RoleOf(f.key).Names?
    requires g == Field(f.key, PlaceholdersOf(f.value, RoleOf(f.key).stem, RoleOf(f.key).tools))
    ensures var w := FixField(g, stamp, roots).value;
            PlaceholdersOf(w, RoleOf(f.key).stem, RoleOf(f.key).tools) == w
  {
    hide RoleOf, PlaceholdersOf, Fix, HasSlash;
    StemsHaveNoSlash(f.key);
    RenamedAgain(f.value, RoleOf(f.key).stem, RoleOf(f.key).tools, stamp, roots);
  }

  lemma ListsReplacedAgain(event: seq<Field>, stamp: string, roots: seq<string>)
    requires Usable(roots)
    ensures ListsReplaced(RedactedEvent(event, stamp, roots).fields) == RedactedEvent(event, stamp, roots).fields
  {
    hide RoleOf, PlaceholdersOf, Fix, FixField;
    var listed := ListsReplaced(event);
    var out := RedactedEvent(event, stamp, roots).fields;
    FieldKeysStay(listed, stamp, roots);
    forall k | 0 <= k < |out| ensures ListsReplaced(out)[k] == out[k] {
      if RoleOf(event[k].key).Names? {
        ListedField(event[k], listed[k], stamp, roots);
      }
    }
  }

  // ---- The work trees a second pass finds ----

  predicate NamesTree(event: seq<Field>) {
    Says(event, "subtype", "init") && (Find(event, "cwd").Some? || Find(event, "original_cwd").Some?)
  }

  lemma TreeKeyHoldsPlaceholder(event: seq<Field>, stamp: string, roots: seq<string>, key: string)
    requires Usable(roots) && RoleOf(key) == Tree
    ensures var out := RedactedEvent(event, stamp, roots).fields;
            && Find(out, key) == Find(event, key)
            && SpellingsUnder(out, key) == if Find(out, key).Some? then [Alias()] else []
  {
    hide RoleOf, PlaceholdersOf, Fix, FixField, Spellings, Alias, PLACEHOLDER_CWD;
    var listed := ListsReplaced(event);
    var out := RedactedEvent(event, stamp, roots).fields;
    FieldKeysStay(listed, stamp, roots);
    FirstFound(event, listed, key);
    FirstFound(listed, out, key);
    SpellingsOfPlaceholder();
    if Find(out, key).Some? {
      TreeFieldIsPlaceholder(listed[Find(out, key).value], stamp, roots);
    }
  }

  lemma TreeFieldIsPlaceholder(f: Field, stamp: string, roots: seq<string>)
    requires Usable(roots) && RoleOf(f.key) == Tree
    ensures FixField(f, stamp, roots) == Field(f.key, Text(PLACEHOLDER_CWD))
  {
    hide RoleOf, Fix, PLACEHOLDER_CWD;
  }

  lemma NamedByRedacted(event: seq<Field>, stamp: string, roots: seq<string>)
    requires Usable(roots)
    ensures var e := RedactedEvent(event, stamp, roots);
            forall x :: x in NamedBy(Read(e)) <==> NamesTree(e.fields) && x == Alias()
  {
    hide RedactedEvent, Find, SpellingsUnder, Says, Alias;
    TreeKeyHoldsPlaceholder(event, stamp, roots, "cwd");
    TreeKeyHoldsPlaceholder(event, stamp, roots, "original_cwd");
  }

  ghost predicate TreeNamed(out: seq<Json>) {
    exists i :: 0 <= i < |out| && out[i].Object? && NamesTree(out[i].fields)
  }

  lemma SomeOther(roots: seq<string>, x: string) returns (y: string)
    requires Distinct(roots) && |roots| > 1
    ensures y in roots && y != x
  {
    y := if roots[0] == x then roots[1] else roots[0];
  }

  lemma OnlyOne(roots: seq<string>, x: string)
    requires Distinct(roots) && forall y :: y in roots ==> y == x
    ensures roots == if x in roots then [x] else []
  {
    if |roots| > 1 {
      var y := SomeOther(roots, x);
    } else if |roots| == 1 {
      assert roots[0] in roots;
    }
  }

  /** A second pass finds the `/private` spelling of the placeholder, or nothing at all. */
  lemma TreesOfRedacted(lines: seq<Line>, captured: string)
    ensures var out := RedactedStream(lines, captured);
            WorkTreesOf(AsLines(out)) == if TreeNamed(out) then [Alias()] else []
  {
    hide RedactedEvent, WorkTreesOf, Alias, NamesTree, Distinct, LongestFirst, NamedBy, KeptEvents, Midnight;
    var out, roots := RedactedStream(lines, captured), WorkTreesOf(lines);
    WorkTreesAreUsable(lines);
    WorkTreesAre(AsLines(out));
    forall i | 0 <= i < |out|
      ensures out[i].Object?
      ensures forall x :: x in NamedBy(AsLines(out)[i]) <==> NamesTree(out[i].fields) && x == Alias()
    {
      NamedByRedacted(KeptEvents(lines)[i], Midnight(captured), roots);
    }
    var again := WorkTreesOf(AsLines(out));
    OnlyOne(again, Alias());
  }

  // ---- The second pass ----

  lemma KeepsFrom(lines: seq<Line>, i: nat)
    requires i < |KeptEvents(lines)|
    ensures !Dropped(KeptEvents(lines)[i])
    decreases |lines|
  {
    hide Dropped;
    if |lines| > 0 && i < |KeptEvents(lines[..|lines| - 1])| {
      KeepsFrom(lines[..|lines| - 1], i);
    }
  }

  lemma {:induction false} AllKept(out: seq<Json>)
    requires forall i :: 0 <= i < |out| ==> out[i].Object? && !Dropped(out[i].fields)
    ensures |KeptEvents(AsLines(out))| == |out|
    ensures forall i :: 0 <= i < |out| ==> KeptEvents(AsLines(out))[i] == out[i].fields
  {
    hide Dropped;
    if |out| > 0 {
      AllKept(out[..|out| - 1]);
      assert AsLines(out)[..|out| - 1] == AsLines(out[..|out| - 1]);
    }
  }

  lemma RedactedIsKept(lines: seq<Line>, captured: string)
    ensures var out := RedactedStream(lines, captured);
            && |KeptEvents(AsLines(out))| == |out|
            && forall i :: 0 <= i < |out| ==> out[i].Object? && KeptEvents(AsLines(out))[i] == out[i].fields
  {
    hide RedactedEvent, WorkTreesOf, Dropped, KeptEvents, AsLines, Midnight, Absolute;
    var out, roots := RedactedStream(lines, captured), WorkTreesOf(lines);
    WorkTreesAreUsable(lines);
    forall i | 0 <= i < |out| ensures out[i].Object? && !Dropped(out[i].fields) {
      KeepsFrom(lines, i);
      DroppedIsKept(KeptEvents(lines)[i], Midnight(captured), roots);
    }
    AllKept(out);
  }

  /** A redacted event redacted again, with no work tree or with the placeholder's other spelling. */
  lemma EventAgain(event: seq<Field>, stamp: string, roots: seq<string>)
    requires Usable(roots)
    ensures Usable([Alias()])
    ensures var e := RedactedEvent(event, stamp, roots);
            && RedactedEvent(e.fields, stamp, []) == e
            && (RedactedEvent(e.fields, stamp, [Alias()]) == e <==> !Mentions(e, Alias()))
  {
    hide Fix, Settled, Mentions, Alias;
    var e := RedactedEvent(event, stamp, roots);
    ListsReplacedAgain(event, stamp, roots);
    FixSettles(Object(ListsReplaced(event)), stamp, roots);
    SettledWithoutRoots(e, stamp);
    AliasIsAbsolute();
    SettledIsFixedPoint(e, stamp, Alias());
  }

  lemma AliasIsAbsolute()
    ensures Absolute(Alias())
  {
    assert Alias()[0] == '/';
  }

  /**
   Redaction for a fixed date leaves its own output as it is exactly when that output names no work
   tree, or no string in it spells the placeholder in its `/private` form.
   */
  lemma RedactingAgain(lines: seq<Line>, captured: string)
    ensures var out := RedactedStream(lines, captured);
            RedactedStream(AsLines(out), captured) == out
            <==> !TreeNamed(out) || forall i :: 0 <= i < |out| ==> !Mentions(out[i], Alias())
  {
    hide RedactedEvent, WorkTreesOf, KeptEvents, AsLines, Midnight, Absolute, Mentions, TreeNamed, Alias;
    var out, roots, stamp := RedactedStream(lines, captured), WorkTreesOf(lines), Midnight(captured);
    var again := RedactedStream(AsLines(out), captured);
    WorkTreesAreUsable(lines);
    WorkTreesAreUsable(AsLines(out));
    TreesOfRedacted(lines, captured);
    RedactedIsKept(lines, captured);
    forall i | 0 <= i < |out|
      ensures again[i] == out[i] <==> (!TreeNamed(out) || !Mentions(out[i], Alias()))
    {
      EventAgain(KeptEvents(lines)[i], stamp, roots);
    }
    assert again == out <==> forall i :: 0 <= i < |out| ==> again[i] == out[i];
  }

  // ---- A stream whose second redaction differs ----

  lemma NoteTree()
    ensures Spellings("/x") == ["/x"]
  {
    hide PLACEHOLDER_CWD;
    assert Last("/x") == 'x';
    NotThePlaceholder();
  }

  lemma NotThePlaceholder()
    ensures "/x" != PLACEHOLDER_CWD
  {
    assert |"/x"| == 2;
  }

  lemma NoteRewritten()
    ensures Usable(["/x"]) && Rewrite("/private/x", ["/x"]) == Alias()
  {
    hide PLACEHOLDER_CWD, Replace;
    var head, root := "/private", "/x";
    assert head + root + "" == "/private/x";
    forall i: nat | i < |head| ensures !At(root, head + root, i) {
      if i + 2 <= |head + root| {
        assert (head + root)[i..i + 2][1] == (head + root)[i + 1];
      }
    }
    ReplaceAfter(head, root, "", PLACEHOLDER_CWD);
    RewriteOneRoot("/private/x", root);
    assert head + PLACEHOLDER_CWD + "" == Alias();
  }

  /** One `init` event in the work tree `/x`, with a field that spells `/private/x`. */
  function PrivateNote(): seq<Line> {
    NamedTree.Stream("/x", None, "/private/x")
  }

  lemma NoteTrees()
    ensures WorkTreesOf(PrivateNote()) == ["/x"]
  {
    hide Spellings, NamedTree.Stream;
    NoteTree();
    NamedTree.StreamKeeps("/x", None, "/private/x");
    assert ["/x"][..0] == [] && ["/x"] + [] == ["/x"];
  }

  lemma NoteFixed(stamp: string)
    ensures Usable(["/x"])
    ensures var e := RedactedEvent(NamedTree.Event("/x", None, "/private/x"), stamp, ["/x"]);
            Mentions(e, Alias()) && NamesTree(e.fields)
  {
    hide RoleOf, Rewrite, Find, NamedTree.Event, Alias, SpellingsUnder, Occurs, Says, RedactedEvent, PlainKey, KindWord;
    var e := NamedTree.Event("/x", None, "/private/x");
    NoteRewritten();
    PlainWords();
    NamedTree.EventIsInit("/x", None, "/private/x");
    NamedTree.EventIsKeyed("/x", None, "/private/x");
    NamedTree.FindCwd(e, None);
    NamedTree.EventRedacted("/x", None, "/private/x", stamp, ["/x"]);
    EventSaysTheSame(e, stamp, ["/x"], "subtype", "init");
    TreeKeyHoldsPlaceholder(e, stamp, ["/x"], "cwd");
    NamedTree.EventRoles();
    var out := RedactedEvent(e, stamp, ["/x"]);
    MentionsItself(Alias());
    assert Mentions(out.fields[2].value, Alias());
  }

  lemma PlainWords()
    ensures PlainKey("subtype") && KindWord("init") && RoleOf("cwd") == Tree
  {
  }

  lemma MentionsItself(s: string)
    ensures Occurs(s, s)
  {
    assert s[0..|s|] == s;
    assert At(s, s, 0);
  }

  /** A stream for which redacting again changes the output: the first pass wrote the alias itself. */
  lemma SecondPassDiffers(captured: string)
    ensures var out := RedactedStream(PrivateNote(), captured);
            RedactedStream(AsLines(out), captured) != out
  {
    hide RedactedEvent, Mentions, NamesTree, WorkTreesOf, AsLines, Midnight, Absolute, Alias, NamedTree.Stream,
      NamedTree.Event;
    NoteTrees();
    NamedTree.StreamRedacted("/x", None, "/private/x", captured, ["/x"]);
    NoteFixed(Midnight(captured));
    RedactingAgain(PrivateNote(), captured);
  }
}
