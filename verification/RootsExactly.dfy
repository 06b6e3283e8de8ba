/** Exactly which work trees redaction removes from every stream that names them. */
module RootsExactly {
  import opened Prelude
  import opened Substrings
  import opened Redaction
  import opened RedactionFacts
  import opened WorkTrees
  import opened RootsRemoved
  import opened RedactionPass
  import opened RecordedStream
  import NamedTree

  /** What a work tree can be: absolute, without a slash at its end, and not the placeholder itself. */
  predicate Nameable(root: string) {
    Absolute(root) && Last(root) != '/' && root != PLACEHOLDER_CWD
  }

  lemma SpellingsAre(root: string)
    requires Nameable(root)
    ensures Spellings(root) == [root] + Worth(OtherSpelling(root))
  {
    hide OtherSpelling;
  }

  /** Every work tree a line names is nameable. */
  lemma TreesAreNameable(line: Line, x: string)
    requires x in NamedBy(line)
    ensures Nameable(x)
  {
    hide Spellings, Says, Nameable;
    var event := line.value.fields;
    if x in SpellingsUnder(event, "cwd") {
      SpellingIsNameable(event[Find(event, "cwd").value].value.s, x);
    } else {
      SpellingIsNameable(event[Find(event, "original_cwd").value].value.s, x);
    }
  }

  lemma SpellingIsNameable(path: string, x: string)
    requires x in Spellings(path)
    ensures Nameable(x)
  {
    hide PLACEHOLDER_CWD;
    var trimmed := TrimSlashes(path);
    OtherSpellingIsAbsolute(trimmed);
    var i :| 0 <= i < |Spellings(path)| && Spellings(path)[i] == x;
    OtherSpellingEnds(trimmed);
  }

  lemma OtherSpellingEnds(path: string)
    requires path != ""
    ensures OtherSpelling(path) == "" || Last(OtherSpelling(path)) == Last(path)
  {
    if "/private" <= path && UnderTemporary(path[8..]) {
      assert path[8..] != "";
    } else if UnderTemporary(path) {
      assert Last("/private" + path) == Last(path);
    }
  }

  // ---- A text that brings a root back when another root is replaced ----

  /** A character no spelling of the root uses. */
  predicate Spare(c: char, root: string) {
    c != '/' && c !in root && c !in Alias()
  }

  /** A second work tree, two characters long. */
  function Mark(c: char): string {
    ['/', c]
  }

  lemma MarkIsSpelledOnce(c: char)
    requires c != '/'
    ensures Spellings(Mark(c)) == [Mark(c)]
  {
    hide PLACEHOLDER_CWD;
    assert |Mark(c)| == 2;
    PlaceholderIsLonger();
  }

  lemma PlaceholderIsLonger()
    ensures |PLACEHOLDER_CWD| > 2 && PLACEHOLDER_CWD[0] == '/'
  {
  }

  lemma OtherHasNoMark(root: string, c: char)
    requires Spare(c, root)
    ensures c !in OtherSpelling(root)
  {
    assert forall k :: 0 <= k < 8 ==> "/private"[k] == Alias()[k];
    assert c !in "/private";
    assert c !in root[|root|..];
  }

  lemma SpellingsHaveNoMark(root: string, c: char)
    requires Nameable(root) && Spare(c, root)
    ensures forall x :: x in Spellings(root) ==> c !in x && Absolute(x)
    ensures Distinct(Spellings(root)) && Mark(c) !in Spellings(root)
  {
    hide OtherSpelling, Spellings, Alias;
    SpellingsAre(root);
    OtherHasNoMark(root, c);
    OtherSpellingIsAbsolute(root);
    OtherDiffers(root);
    assert Mark(c)[1] == c;
  }

  lemma OtherDiffers(root: string)
    ensures OtherSpelling(root) != root || root == ""
  {
    assert "/private" <= root ==> |root[8..]| == |root| - 8;
  }

  lemma {:induction false} AddNewDistinct(s: seq<string>)
    requires Distinct(s)
    ensures AddNew([], s) == s
  {
    if |s| > 0 {
      AddNewDistinct(s[..|s| - 1]);
    }
  }

  lemma SortedLast(roots: seq<string>, mark: string)
    requires |mark| == 2 && forall x :: x in roots ==> |x| >= 2
    ensures SortByLength(roots + [mark]) == SortByLength(roots) + [mark]
  {
    var sorted := SortByLength(roots);
    assert (roots + [mark])[..|roots|] == roots;
    if |sorted| > 0 {
      SameMembers(sorted, roots, Last(sorted));
    }
  }

  /** A stream that names `root` and the mark replaces the mark last. */
  lemma TreesOfMarked(root: string, c: char, text: string)
    requires Nameable(root) && Spare(c, root)
    ensures WorkTreesOf(NamedTree.Stream(root, Some(Mark(c)), text)) == SortByLength(Spellings(root)) + [Mark(c)]
  {
    hide Spellings, SortByLength, AddNew, Distinct, Nameable, Spare, Mark, NamedTree.Stream, Absolute;
    NamedTree.StreamKeeps(root, Some(Mark(c)), text);
    MarkIsTwoLong(c, root);
    SpellingsHaveNoMark(root, c);
    DistinctMore(Spellings(root), Mark(c));
    AddNewDistinct(Spellings(root) + [Mark(c)]);
    LongEnough(Spellings(root));
    SortedLast(Spellings(root), Mark(c));
  }

  lemma MarkIsTwoLong(c: char, root: string)
    requires Spare(c, root)
    ensures |Mark(c)| == 2 && Spellings(Mark(c)) == [Mark(c)]
  {
    hide Spellings, Alias;
    MarkIsSpelledOnce(c);
  }

  lemma DistinctMore(s: seq<string>, x: string)
    requires Distinct(s) && x !in s
    ensures Distinct(s + [x])
  {
  }

  lemma LongEnough(roots: seq<string>)
    requires forall x :: x in roots ==> Absolute(x)
    ensures forall x :: x in roots ==> |x| >= 2
  {
  }

  lemma {:induction false} Untouched(text: string, roots: seq<string>)
    requires Usable(roots) && forall x :: x in roots ==> !Occurs(x, text)
    ensures Rewrite(text, roots) == text
  {
    hide Occurs, Replace, PLACEHOLDER_CWD;
    if |roots| > 0 {
      Untouched(text, roots[..|roots| - 1]);
      assert Last(roots) in roots;
      ReplaceNothing(text, Last(roots), PLACEHOLDER_CWD);
    }
  }

  /** Text without the mark's character is on one side of the mark or the other. */
  lemma BesideMark(x: string, head: string, c: char, tail: string)
    requires c !in x && x != "" && !Occurs(x, head + "/") && !Occurs(x, tail)
    ensures !Occurs(x, head + Mark(c) + tail)
  {
    hide Occurs;
    forall i: nat ensures !At(x, head + Mark(c) + tail, i) {
      NotAtMark(x, head, c, tail, i);
    }
    NowhereAt(x, head + Mark(c) + tail);
  }

  lemma NowhereAt(x: string, text: string)
    requires forall i: nat :: !At(x, text, i)
    ensures !Occurs(x, text)
  {
  }

  lemma NotAtMark(x: string, head: string, c: char, tail: string, i: nat)
    requires c !in x && x != "" && !Occurs(x, head + "/") && !Occurs(x, tail)
    ensures !At(x, head + Mark(c) + tail, i)
  {
    var text, at := head + Mark(c) + tail, |head| + 1;
    if i + |x| <= at {
      assert (head + "/")[i..i + |x|] == text[i..i + |x|];
      assert !At(x, head + "/", i);
    } else if at < i && i + |x| <= |text| {
      assert tail[i - at - 1..i - at - 1 + |x|] == text[i..i + |x|];
      assert !At(x, tail, i - at - 1);
    } else if i + |x| <= |text| {
      assert text[i..i + |x|][at - i] == text[at] == c;
    }
  }

  lemma MarkReplaced(head: string, c: char, tail: string)
    requires c != '/' && c !in head && c !in tail
    ensures Replace(head + Mark(c) + tail, Mark(c), PLACEHOLDER_CWD) == head + PLACEHOLDER_CWD + tail
  {
    hide Replace, PLACEHOLDER_CWD;
    forall i: nat | i < |head| ensures !At(Mark(c), head + Mark(c), i) {
      assert (head + Mark(c))[i..i + 2][1] == (head + Mark(c))[i + 1];
    }
    forall i: nat ensures !At(Mark(c), tail, i) {
      if i + 2 <= |tail| {
        assert tail[i..i + 2][1] == tail[i + 1];
      }
    }
    ReplaceAfter(head, Mark(c), tail, PLACEHOLDER_CWD);
  }

  // ---- Neither spelling of the root is in what stands around the mark ----

  lemma SlashesOfPlaceholder(d: nat)
    requires d < |PLACEHOLDER_CWD| && PLACEHOLDER_CWD[d] == '/'
    ensures d <= 4 && |PLACEHOLDER_CWD| == 21
  {
  }

  lemma PlaceholderLength()
    ensures |PLACEHOLDER_CWD| == 21 && PLACEHOLDER_CWD[0] == '/'
  {
  }

  lemma LaidOnSlash(root: string, d: int)
    requires Absolute(root) && 0 <= d < |PLACEHOLDER_CWD| && !Disagree(root, PLACEHOLDER_CWD, d)
    ensures d <= 4
  {
    hide PLACEHOLDER_CWD;
    assert root[0] == PLACEHOLDER_CWD[0 + d];
    SlashesOfPlaceholder(d);
  }

  /** Where a root runs into the placeholder it has a slash, so two characters at least are past what is ahead. */
  lemma AheadAndBehindAreShort(root: string, d: int)
    requires Nameable(root) && -|root| < d < |PLACEHOLDER_CWD| && !Disagree(root, PLACEHOLDER_CWD, d)
    ensures |Ahead(root, d)| + 2 <= |root| && Ahead(root, d) <= root
    ensures |Behind(root, PLACEHOLDER_CWD, d)| == 0 || |Behind(root, PLACEHOLDER_CWD, d)| + 17 <= |root|
  {
    hide PLACEHOLDER_CWD;
    PlaceholderLength();
    if d < 0 {
      assert root[-d] == PLACEHOLDER_CWD[-d + d];
    } else {
      LaidOnSlash(root, d);
    }
  }

  /** Behind `/private` no slash follows but the one the shorter spelling starts with. */
  lemma ShorterIsNotAhead(root: string, x: string, u: string)
    requires root == "/private" + x && UnderTemporary(x) && u <= root && |u| + 2 <= |root|
    ensures !Occurs(x, u + "/")
  {
    forall j: nat ensures !At(x, u + "/", j) {
      NotAheadAt(root, x, u, j);
    }
  }

  lemma NotAheadAt(root: string, x: string, u: string, j: nat)
    requires root == "/private" + x && UnderTemporary(x) && u <= root && |u| + 2 <= |root|
    ensures !At(x, u + "/", j)
  {
    if j + |x| <= |u| + 1 {
      var text := u + "/";
      assert j <= 7 && |x| >= 5;
      assert text[j..j + |x|][0] == text[j] == root[j];
      assert text[j..j + |x|][1] == text[j + 1] == root[j + 1];
      assert root[j] == "/private"[j];
      assert x[0] == '/' && x[1] != 'p';
      assert j == 0 || "/private"[j] != '/';
    }
  }

  lemma OtherIsShorterOrLonger(root: string)
    ensures var other := OtherSpelling(root);
            || other == ""
            || other == "/private" + root
            || (root == "/private" + other && UnderTemporary(other))
  {
  }

  lemma NotBeside(root: string, d: int, x: string)
    requires Nameable(root) && -|root| < d < |PLACEHOLDER_CWD| && !Disagree(root, PLACEHOLDER_CWD, d)
    requires x in Spellings(root)
    ensures !Occurs(x, Ahead(root, d) + "/") && !Occurs(x, Behind(root, PLACEHOLDER_CWD, d))
  {
    hide PLACEHOLDER_CWD, OtherSpelling, UnderTemporary, Disagree, Occurs, Spellings, Ahead, Behind;
    SpellingsAre(root);
    AheadAndBehindAreShort(root, d);
    OtherIsShorterOrLonger(root);
    OtherSpellingIsAbsolute(root);
    var u, v := Ahead(root, d), Behind(root, PLACEHOLDER_CWD, d);
    ShorterLacks(x, v);
    if |x| >= |root| {
      ShorterLacks(x, u + "/");
    } else {
      ShorterIsNotAhead(root, x, u);
    }
  }

  // ---- The exact conditions ----

  /** Whatever the capture date, nothing of `root` is left in the redacted stream. */
  ghost predicate RemovedFrom(lines: seq<Line>, root: string) {
    forall captured, i: nat ::
      !HasSlash(captured) && i < |RedactedStream(lines, captured)| ==> Free(RedactedStream(lines, captured)[i], root)
  }

  lemma Survives(root: string, second: Option<string>, text: string, roots: seq<string>)
    requires WorkTreesOf(NamedTree.Stream(root, second, text)) == roots && Usable(roots)
    requires Occurs(root, PLACEHOLDER_SOCKET) || Occurs(root, PLACEHOLDER_MEMORY) || Occurs(root, Rewrite(text, roots))
    ensures !RemovedFrom(NamedTree.Stream(root, second, text), root)
  {
    hide Occurs, Rewrite, WorkTreesOf, NamedTree.Stream, NamedTree.Event, Midnight, RedactedEvent, RedactedStream,
      PLACEHOLDER_CWD, PLACEHOLDER_SOCKET, PLACEHOLDER_MEMORY, Absolute;
    var lines := NamedTree.Stream(root, second, text);
    NamedTree.StreamRedacted(root, second, text, "", roots);
    NamedTree.EventRedacted(root, second, text, Midnight(""), roots);
    assert !HasSlash("");
    assert !Free(RedactedStream(lines, "")[0], root);
  }

  /** What of the root is not the placeholder's, around a second work tree. */
  function Around(root: string, d: int, c: char): string
    requires -|root| < d < |PLACEHOLDER_CWD|
  {
    Ahead(root, d) + Mark(c) + Behind(root, PLACEHOLDER_CWD, d)
  }

  lemma AroundComesBack(root: string, d: int, c: char)
    requires Nameable(root) && Spare(c, root)
    requires -|root| < d < |PLACEHOLDER_CWD| && !Disagree(root, PLACEHOLDER_CWD, d)
    ensures Usable(SortByLength(Spellings(root)) + [Mark(c)])
    ensures Occurs(root, Rewrite(Around(root, d, c), SortByLength(Spellings(root)) + [Mark(c)]))
  {
    hide PLACEHOLDER_CWD, Disagree, Occurs, Spellings, Ahead, Behind, SortByLength, Replace, Mark, Alias, Distinct;
    var sorted, text := SortByLength(Spellings(root)), Around(root, d, c);
    SpellingsHaveNoMark(root, c);
    MarkIsTwoLong(c, root);
    SpellingsAreUsable(Mark(c));
    forall x | x in sorted ensures Absolute(x) && !Occurs(x, text) {
      SameMembers(sorted, Spellings(root), x);
      NotBeside(root, d, x);
      BesideMark(x, Ahead(root, d), c, Behind(root, PLACEHOLDER_CWD, d));
    }
    Untouched(text, sorted);
    PartsAreOfRoot(root, d, c);
    MarkReplaced(Ahead(root, d), c, Behind(root, PLACEHOLDER_CWD, d));
    LaidOver(root, PLACEHOLDER_CWD, d);
    assert (sorted + [Mark(c)])[..|sorted|] == sorted;
  }

  lemma PartsAreOfRoot(root: string, d: int, c: char)
    requires c !in root && -|root| < d < |PLACEHOLDER_CWD|
    ensures c !in Ahead(root, d) && c !in Behind(root, PLACEHOLDER_CWD, d)
  {
    hide PLACEHOLDER_CWD;
  }

  /**
   A root that some stream can name is removed from every stream that names it if and only if it is
   apart from the paths redaction writes. `c` is any character its spellings do not use.
   */
  lemma NoRootSurvivesExactly(root: string, c: char)
    requires Nameable(root) && Spare(c, root)
    ensures (forall lines :: root in WorkTreesOf(lines) ==> RemovedFrom(lines, root)) <==> Clear(root)
  {
    hide RedactedStream, WorkTreesOf, Free, HasSlash, Spare, Occurs, Disagree, NamedTree.Stream,
      PLACEHOLDER_CWD, PLACEHOLDER_SOCKET, PLACEHOLDER_MEMORY, SortByLength, Spellings, Rewrite;
    if Clear(root) {
      forall lines | root in WorkTreesOf(lines) ensures RemovedFrom(lines, root) {
        RemovedWhenClear(lines, root);
      }
    } else {
      PlaceholderLength();
      var d: int := 0;
      if !Separate(root, PLACEHOLDER_CWD) {
        d :| -|root| < d < |PLACEHOLDER_CWD| && !Disagree(root, PLACEHOLDER_CWD, d);
      }
      assert -|root| < d;
      NamedAndNotRemoved(root, c, d);
    }
  }

  lemma RemovedWhenClear(lines: seq<Line>, root: string)
    requires root in WorkTreesOf(lines) && Clear(root)
    ensures RemovedFrom(lines, root)
  {
    hide RedactedStream, WorkTreesOf, Free, HasSlash, Clear;
    forall captured, i: nat | !HasSlash(captured) && i < |RedactedStream(lines, captured)|
      ensures Free(RedactedStream(lines, captured)[i], root)
    {
      NoRootSurvives(lines, captured, root, i);
    }
  }

  lemma NamedAndNotRemoved(root: string, c: char, d: int)
    requires Nameable(root) && Spare(c, root) && -|root| < d < |PLACEHOLDER_CWD|
    requires Occurs(root, PLACEHOLDER_SOCKET) || Occurs(root, PLACEHOLDER_MEMORY) || !Disagree(root, PLACEHOLDER_CWD, d)
    ensures exists lines :: root in WorkTreesOf(lines) && !RemovedFrom(lines, root)
  {
    hide RemovedFrom, Nameable, Spare, Occurs, Disagree, PLACEHOLDER_CWD, PLACEHOLDER_SOCKET, PLACEHOLDER_MEMORY,
      NamedTree.Stream, SortByLength, Rewrite, Around, Absolute, WorkTreesOf, Mark;
    var text := Around(root, d, c);
    var lines := NamedTree.Stream(root, Some(Mark(c)), text);
    var roots := SortByLength(Spellings(root)) + [Mark(c)];
    TreesOfMarked(root, c, text);
    WorkTreesAreUsable(lines);
    if !Disagree(root, PLACEHOLDER_CWD, d) {
      AroundComesBack(root, d, c);
    }
    Survives(root, Some(Mark(c)), text, roots);
    RootIsSorted(root);
    assert root in WorkTreesOf(lines) && !RemovedFrom(lines, root);
  }

  lemma RootIsSorted(root: string)
    requires Nameable(root)
    ensures root in SortByLength(Spellings(root))
  {
    hide SortByLength, Spellings, OtherSpelling;
    SpellingsAre(root);
    SameMembers(SortByLength(Spellings(root)), Spellings(root), root);
  }

  lemma LoneTree(root: string, text: string)
    requires Nameable(root) && OtherSpelling(root) == ""
    ensures WorkTreesOf(NamedTree.Stream(root, None, text)) == [root]
  {
    hide OtherSpelling, Spellings, NamedTree.Stream, PLACEHOLDER_CWD;
    NamedTree.StreamKeeps(root, None, text);
    SpellingsAre(root);
    AddNewDistinct([root]);
    assert [root][..0] == [];
  }

  lemma RemovableIsUnwritten(root: string)
    requires Absolute(root) && Removable(root, PLACEHOLDER_CWD)
    ensures !Occurs(root, PLACEHOLDER_CWD)
  {
    hide PLACEHOLDER_CWD, Disagree, HeadMatches;
    forall i: nat ensures !At(root, PLACEHOLDER_CWD, i) {
      if i < |PLACEHOLDER_CWD| {
        assert Disagree(root, PLACEHOLDER_CWD, i);
        NotWhereItDisagrees(root, PLACEHOLDER_CWD, i);
      }
    }
  }

  lemma NotWhereItDisagrees(needle: string, text: string, i: nat)
    requires Disagree(needle, text, i)
    ensures !At(needle, text, i)
  {
    var k :| 0 <= k < |needle| && 0 <= k + i < |text| && needle[k] != text[k + i];
    if i + |needle| <= |text| {
      assert text[i..i + |needle|][k] == text[k + i];
    }
  }

  /**
   A root with one spelling is removed from every stream that names it alone if and only if wherever it
   overlaps the placeholder its own part ahead would have matched earlier, and no path written holds it.
   */
  lemma LoneTreeRemovedExactly(root: string)
    requires Nameable(root) && OtherSpelling(root) == ""
    ensures (forall lines :: WorkTreesOf(lines) == [root] ==> RemovedFrom(lines, root))
       <==> Removable(root, PLACEHOLDER_CWD) && !Occurs(root, PLACEHOLDER_SOCKET) && !Occurs(root, PLACEHOLDER_MEMORY)
  {
    hide RemovedFrom, WorkTreesOf, Removable, Occurs, PLACEHOLDER_CWD, PLACEHOLDER_SOCKET, PLACEHOLDER_MEMORY,
      OtherSpelling, NamedTree.Stream, Rewrite;
    GoneExactly(root);
    var kept := Occurs(root, PLACEHOLDER_SOCKET) || Occurs(root, PLACEHOLDER_MEMORY);
    if Gone(root, [root]) && !kept {
      RemovableIsUnwritten(root);
      forall lines | WorkTreesOf(lines) == [root] ensures RemovedFrom(lines, root) {
        RemovedAlone(lines, root);
      }
    } else {
      var text: string := if kept then "" else var t :| Occurs(root, Rewrite(t, [root])); t;
      LoneTree(root, text);
      Survives(root, None, text, [root]);
    }
  }

  lemma RemovedAlone(lines: seq<Line>, root: string)
    requires WorkTreesOf(lines) == [root] && Absolute(root) && Unwritten(root) && Gone(root, [root])
    ensures RemovedFrom(lines, root)
  {
    hide RedactedStream, WorkTreesOf, Free, HasSlash, Unwritten, Gone;
    forall captured, i: nat | !HasSlash(captured) && i < |RedactedStream(lines, captured)|
      ensures Free(RedactedStream(lines, captured)[i], root)
    {
      GoneFromStream(lines, captured, root, i);
    }
  }
}
