/** Name lists: what becomes a placeholder, in which order, and why a second pass changes nothing. */
module NameLists {
  import opened Prelude
  import opened Redaction
  import opened RedactionFacts
  import opened RedactionIdempotence
  import opened Substrings
  import Decimal

  lemma {:induction false} FilterAll<T>(p: T -> bool, s: seq<T>)
    requires forall i :: 0 <= i < |s| ==> p(s[i])
    ensures Filter(p, s) == s
  {
    if |s| > 0 {
      FilterAll(p, s[1..]);
    }
  }

  lemma {:induction false} FilterNone<T>(p: T -> bool, s: seq<T>)
    requires forall i :: 0 <= i < |s| ==> !p(s[i])
    ensures Filter(p, s) == []
  {
    if |s| > 0 {
      FilterNone(p, s[1..]);
    }
  }

  lemma {:induction false} FilterParts<T>(p: T -> bool, q: T -> bool, s: seq<T>)
    requires forall x :: x in s ==> (p(x) <==> !q(x))
    ensures |Filter(p, s)| + |Filter(q, s)| == |s|
  {
    if |s| > 0 {
      FilterParts(p, q, s[1..]);
      assert s[0] in s;
    }
  }

  /** A name is dashed, so it is no verbatim tool, and it tells its number. */
  lemma NamesAreDashed(stem: string, n: nat)
    ensures '-' in Name(stem, n)
    ensures !VerbatimTool(Name(stem, n))
  {
    hide VerbatimTool, Decimal.Print;
    assert Name(stem, n)[|stem|] == '-';
    if VerbatimTool(Name(stem, n)) {
      VerbatimToolsArePlain(Name(stem, n));
    }
  }

  lemma NamesTellTheirNumber(stem: string, m: nat, n: nat)
    requires Name(stem, m) == Name(stem, n)
    ensures m == n
  {
    hide Decimal.Print, Decimal.Parse;
    var a, b := Name(stem, m), Name(stem, n);
    assert a[|stem| + 1..] == Decimal.Print(m) && b[|stem| + 1..] == Decimal.Print(n);
    Decimal.ParsePrint(m);
    Decimal.ParsePrint(n);
  }

  lemma NamesHaveNoSlash(stem: string, n: nat)
    requires !HasSlash(stem)
    ensures !HasSlash(Name(stem, n))
  {
    hide Decimal.Print;
  }

  lemma PartsMakeTheList(items: seq<Json>, tools: bool)
    ensures |Kept(items, tools)| + |Rest(items, tools)| == |items|
  {
    hide Verbatim, Filter;
    FilterParts(item => Verbatim(tools, item), item => !Verbatim(tools, item), items);
  }

  lemma KeptAndRest(items: seq<Json>, tools: bool)
    ensures forall i :: 0 <= i < |Kept(items, tools)| ==> Verbatim(tools, Kept(items, tools)[i])
    ensures forall i :: 0 <= i < |Rest(items, tools)| ==> !Verbatim(tools, Rest(items, tools)[i])
  {
    hide Verbatim;
  }

  /** The list a renaming leaves: as long as the old one, the verbatim tools first and in their order. */
  lemma ListsKeepTheirLength(items: seq<Json>, stem: string, tools: bool)
    ensures var out := PlaceholdersOf(Array(items), stem, tools).items;
            var kept := Kept(items, tools);
            && |out| == |items| && kept <= out
            && (forall i :: 0 <= i < |kept| ==> Verbatim(tools, kept[i]))
            && forall i :: |kept| <= i < |out| ==> !Verbatim(tools, out[i])
  {
    hide VerbatimTool, Name, Rename, Verbatim, Kept, Rest, Filter;
    PartsMakeTheList(items, tools);
    KeptAndRest(items, tools);
    var rest := Rest(items, tools);
    forall i | 0 <= i < |rest| ensures !Verbatim(tools, Renamed(rest, stem)[i]) {
      RenamedIsNotVerbatim(tools, rest[i], stem, i + 1);
    }
  }

  lemma RenamedIsNotVerbatim(tools: bool, item: Json, stem: string, n: nat)
    requires !Verbatim(tools, item)
    ensures !Verbatim(tools, Rename(item, Name(stem, n)))
  {
    hide VerbatimTool, Name;
    NamesAreDashed(stem, n);
  }

  /** How many of the first `i` remaining entries are strings. */
  function Rank(rest: seq<Json>, i: nat): (r: nat)
    requires i <= |rest|
    ensures r <= i
  {
    if i == 0 then 0 else Rank(rest, i - 1) + (if rest[i - 1].Text? then 1 else 0)
  }

  lemma {:induction false} RankIsPosition(rest: seq<Json>, i: nat)
    requires i <= |rest|
    ensures Rank(rest, i) == i <==> forall j :: 0 <= j < i ==> rest[j].Text?
  {
    if i > 0 {
      RankIsPosition(rest, i - 1);
    }
  }

  lemma RenamedString(rest: seq<Json>, stem: string, i: nat)
    requires i < |rest| && rest[i].Text?
    ensures |Renamed(rest, stem)| == |rest| && Renamed(rest, stem)[i] == Text(Name(stem, i + 1))
  {
    hide Name;
  }

  lemma SameNumber(stem: string, m: nat, n: nat)
    ensures Name(stem, m) == Name(stem, n) <==> m == n
  {
    hide Name;
    if Name(stem, m) == Name(stem, n) {
      NamesTellTheirNumber(stem, m, n);
    }
  }

  /**
   A remaining string entry is numbered by its rank among the remaining strings exactly when no
   entry of another kind stands before it: the count runs over every remaining entry.
   */
  lemma StringEntriesAreRanked(rest: seq<Json>, stem: string, i: nat)
    requires i < |rest| && rest[i].Text?
    ensures |Renamed(rest, stem)| == |rest|
    ensures (Renamed(rest, stem)[i] == Text(Name(stem, Rank(rest, i) + 1)))
            <==> (forall j :: 0 <= j < i ==> rest[j].Text?)
  {
    hide Name, Renamed, Rank;
    RankIsPosition(rest, i);
    RenamedString(rest, stem, i);
    SameNumber(stem, Rank(rest, i) + 1, i + 1);
  }

  /** Two remaining names, the first entry not a string: the only string is called `skill-2`. */
  lemma StringEntryNumberedPastAnother()
    ensures PlaceholdersOf(Array([Null, Text("mine")]), "skill", false) == Array([Null, Text(Name("skill", 2))])
  {
    hide VerbatimTool, Name;
    var items := [Null, Text("mine")];
    FilterNone(item => Verbatim(false, item), items);
    FilterAll(item => !Verbatim(false, item), items);
    assert Kept(items, false) == [] && Rest(items, false) == items;
    assert Renamed(items, "skill") == [Null, Text(Name("skill", 2))];
  }

  predicate SameKeys(a: seq<Field>, b: seq<Field>) {
    |a| == |b| && forall k :: 0 <= k < |a| ==> a[k].key == b[k].key
  }

  /** Renaming an object sets its first `name` and nothing else; what is neither text nor named stays. */
  ghost predicate RenamesOnly(item: Json, out: Json, name: string) {
    match item
    case Text(_) => out == Text(name)
    case Object(fields) =>
      && out.Object? && SameKeys(fields, out.fields)
      && forall k :: 0 <= k < |fields| ==>
           out.fields[k].value == if Find(fields, "name") == Some(k) then Text(name) else fields[k].value
    case _ => out == item
  }

  lemma RenameKeepsKeys(item: Json, name: string)
    ensures RenamesOnly(item, Rename(item, name), name)
  {
  }

  /** Every entry that is renamed keeps its kind and its keys, and takes the name of its number. */
  lemma EntriesKeepTheirKeys(items: seq<Json>, stem: string, tools: bool, i: nat)
    requires i < |Rest(items, tools)|
    ensures var out, k := PlaceholdersOf(Array(items), stem, tools).items, |Kept(items, tools)|;
            |out| == |items| && k + i < |out| && RenamesOnly(Rest(items, tools)[i], out[k + i], Name(stem, i + 1))
  {
    hide Kept, Rest, Verbatim, Name, Rename, RenamesOnly;
    ListsKeepTheirLength(items, stem, tools);
    RenameKeepsKeys(Rest(items, tools)[i], Name(stem, i + 1));
  }

  // ---- A second pass ----

  ghost predicate ListSettled(items: seq<Json>, stem: string, tools: bool, k: nat) {
    && k <= |items|
    && (forall i :: 0 <= i < k ==> Verbatim(tools, items[i]))
    && forall i: nat :: k <= i < |items| ==> EntrySettled(items[i], stem, tools, i - k)
  }

  ghost predicate EntrySettled(item: Json, stem: string, tools: bool, i: nat) {
    !Verbatim(tools, item) && Rename(item, Name(stem, i + 1)) == item
  }

  lemma {:induction false} FirstFound(fields: seq<Field>, other: seq<Field>, key: string)
    requires |fields| == |other| && forall i :: 0 <= i < |fields| ==> fields[i].key == other[i].key
    ensures Find(fields, key) == Find(other, key)
  {
    if |fields| > 0 {
      FirstFound(fields[1..], other[1..], key);
    }
  }

  lemma RenameTwice(item: Json, name: string)
    ensures Rename(Rename(item, name), name) == Rename(item, name)
  {
    if item.Object? && Find(item.fields, "name").Some? {
      var i := Find(item.fields, "name").value;
      var renamed := item.fields[i := Field("name", Text(name))];
      FirstFound(item.fields, renamed, "name");
      assert renamed[i := Field("name", Text(name))] == renamed;
    }
  }

  lemma ListSettles(items: seq<Json>, stem: string, tools: bool)
    ensures ListSettled(PlaceholdersOf(Array(items), stem, tools).items, stem, tools, |Kept(items, tools)|)
  {
    hide Name, Verbatim, Rename, Kept, Rest;
    var k, rest := |Kept(items, tools)|, Rest(items, tools);
    var out := PlaceholdersOf(Array(items), stem, tools).items;
    KeptAndRest(items, tools);
    forall i: nat | k <= i < |out| ensures EntrySettled(out[i], stem, tools, i - k) {
      assert out[i] == Rename(rest[i - k], Name(stem, i - k + 1));
      RenameTwice(rest[i - k], Name(stem, i - k + 1));
      RenamedIsNotVerbatim(tools, rest[i - k], stem, i - k + 1);
    }
  }

  lemma PartsOfList(a: seq<Json>, b: seq<Json>, tools: bool)
    requires forall i :: 0 <= i < |a| ==> Verbatim(tools, a[i])
    requires forall i :: 0 <= i < |b| ==> !Verbatim(tools, b[i])
    ensures Kept(a + b, tools) == a && Rest(a + b, tools) == b
  {
    hide Verbatim, Filter;
    var p, q := item => Verbatim(tools, item), item => !Verbatim(tools, item);
    FilterAppend(p, a, b);
    FilterAppend(q, a, b);
    FilterAll(p, a);
    FilterNone(p, b);
    FilterNone(q, a);
    FilterAll(q, b);
  }

  lemma SettledListIsKept(items: seq<Json>, stem: string, tools: bool, k: nat)
    requires ListSettled(items, stem, tools, k)
    ensures PlaceholdersOf(Array(items), stem, tools) == Array(items)
  {
    hide Name, Verbatim, Rename, Kept, Rest;
    var a, b := items[..k], items[k..];
    assert items == a + b;
    forall i: nat | i < |b|
      ensures !Verbatim(tools, b[i]) && Rename(b[i], Name(stem, i + 1)) == b[i]
    {
      assert EntrySettled(items[k + i], stem, tools, k + i - k);
    }
    PartsOfList(a, b, tools);
    assert Renamed(b, stem) == b;
  }

  lemma VerbatimIsFixed(tools: bool, item: Json, stamp: string, roots: seq<string>)
    requires Usable(roots) && Verbatim(tools, item)
    ensures Fix(item, stamp, roots) == item
  {
    hide VerbatimTool, Rewrite;
    VerbatimToolsArePlain(item.s);
    RewritePlain(item.s, roots);
  }

  lemma NamedFieldIsFixed(name: string, stamp: string, roots: seq<string>)
    requires Usable(roots) && !HasSlash(name)
    ensures FixField(Field("name", Text(name)), stamp, roots) == Field("name", Text(name))
  {
    hide Rewrite, RoleOf;
    PlainKeysAreOpen("name");
    RewritePlain(name, roots);
  }

  lemma EntryStaysSettled(item: Json, stem: string, tools: bool, i: nat, stamp: string, roots: seq<string>)
    requires Usable(roots) && !HasSlash(stem) && EntrySettled(item, stem, tools, i)
    ensures EntrySettled(Fix(item, stamp, roots), stem, tools, i)
  {
    hide VerbatimTool, Rewrite, Name, FixField, HasSlash, Find;
    var name := Name(stem, i + 1);
    NamesHaveNoSlash(stem, i + 1);
    RewritePlain(name, roots);
    if item.Object? {
      var out := Fix(item, stamp, roots).fields;
      FieldKeysStay(item.fields, stamp, roots);
      FirstFound(item.fields, out, "name");
      match Find(item.fields, "name")
      case None =>
      case Some(at) =>
        assert item.fields[at] == Field("name", Text(name));
        NamedFieldIsFixed(name, stamp, roots);
        assert out[at] == Field("name", Text(name));
        assert out[at := Field("name", Text(name))] == out;
    }
  }

  lemma FieldKeysStay(fields: seq<Field>, stamp: string, roots: seq<string>)
    requires Usable(roots)
    ensures Fix(Object(fields), stamp, roots).Object?
    ensures var out := Fix(Object(fields), stamp, roots).fields;
            && |out| == |fields|
            && forall i :: 0 <= i < |fields| ==>
                 out[i].key == fields[i].key && out[i] == FixField(fields[i], stamp, roots)
  {
    hide FixedUnder, RoleOf, Descends;
  }

  lemma ListStaysSettled(items: seq<Json>, stem: string, tools: bool, k: nat, stamp: string, roots: seq<string>)
    requires Usable(roots) && !HasSlash(stem) && ListSettled(items, stem, tools, k)
    ensures ListSettled(Fix(Array(items), stamp, roots).items, stem, tools, k)
  {
    hide EntrySettled, Verbatim, HasSlash;
    var out := Fix(Array(items), stamp, roots).items;
    forall i | 0 <= i < k ensures Verbatim(tools, out[i]) {
      VerbatimIsFixed(tools, items[i], stamp, roots);
    }
    forall i: nat | k <= i < |out| ensures EntrySettled(out[i], stem, tools, i - k) {
      EntryStaysSettled(items[i], stem, tools, i - k, stamp, roots);
    }
  }

  lemma OnlyArraysAreLists(v: Json, stamp: string, roots: seq<string>)
    requires Usable(roots)
    ensures Fix(v, stamp, roots).Array? <==> v.Array?
    ensures Fix(v, stamp, roots).Object? <==> v.Object?
  {
  }

  /** Renaming the names of a list that was renamed and then redacted changes nothing. */
  lemma RenamedAgain(v: Json, stem: string, tools: bool, stamp: string, roots: seq<string>)
    requires Usable(roots) && !HasSlash(stem)
    ensures var w := Fix(PlaceholdersOf(v, stem, tools), stamp, roots);
            PlaceholdersOf(w, stem, tools) == w
  {
    hide ListSettled, HasSlash, Kept, Rest;
    var u := PlaceholdersOf(v, stem, tools);
    OnlyArraysAreLists(u, stamp, roots);
    if v.Array? {
      var k := |Kept(v.items, tools)|;
      ListSettles(v.items, stem, tools);
      ListStaysSettled(u.items, stem, tools, k, stamp, roots);
      SettledListIsKept(Fix(u, stamp, roots).items, stem, tools, k);
    }
  }
}
