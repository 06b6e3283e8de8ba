/** Two roots that overlap an end of the placeholder: one comes back, the other never does. */
module RootWitnesses {
  import opened Prelude
  import opened Substrings
  import opened Redaction
  import opened RedactionFacts
  import opened RootsRemoved
  import opened RedactionPass
  import opened RootsExactly
  import NamedTree

  const OVERLAPPING := "/work/t"
  const NAMING := "/work/work/t"
  const LEFT := "/work/tmp/statecraft-probe"

  lemma NotAheadInNaming()
    ensures forall i: nat :: i < 5 ==> !At(OVERLAPPING, "/work" + OVERLAPPING, i)
  {
    forall i: nat | i < 5 ensures !At(OVERLAPPING, "/work" + OVERLAPPING, i) {
      var part := ("/work" + OVERLAPPING)[i..i + 7];
      assert part[0] == NAMING[i] && part[6] == NAMING[i + 6];
      assert part[0] != '/' || part[6] != 't';
    }
  }

  /** The root begins where the text before it ends, so its replacement spells it again. */
  lemma NamingBecomesLeft()
    ensures Replace(NAMING, OVERLAPPING, PLACEHOLDER_CWD) == LEFT
    ensures Absolute(OVERLAPPING)
  {
    hide Replace, At, Occurs;
    NotAheadInNaming();
    ShorterLacks(OVERLAPPING, "");
    ReplaceAfter("/work", OVERLAPPING, "", PLACEHOLDER_CWD);
    assert "/work" + OVERLAPPING + "" == NAMING;
    assert "/work" + PLACEHOLDER_CWD + "" == LEFT;
  }

  lemma LeftNamesTheRoot()
    ensures Occurs(OVERLAPPING, LEFT)
  {
    assert LEFT[0..7] == OVERLAPPING;
    assert At(OVERLAPPING, LEFT, 0);
  }

  lemma OverlappingIsNameable()
    ensures Nameable(OVERLAPPING) && OtherSpelling(OVERLAPPING) == ""
  {
    assert OVERLAPPING[1] == 'w' && "/private"[1] == 'p' && "/var/"[1] == 'v' && "/tmp/"[1] == 't';
  }

  lemma PlaceholderHasNoW(i: nat)
    requires i < |PLACEHOLDER_CWD|
    ensures PLACEHOLDER_CWD[i] != 'w'
  {
  }

  lemma OverlapsAnEndOnly()
    ensures !Occurs(OVERLAPPING, PLACEHOLDER_CWD)
  {
    hide PLACEHOLDER_CWD;
    forall i: nat ensures !At(OVERLAPPING, PLACEHOLDER_CWD, i) {
      if i + 7 <= |PLACEHOLDER_CWD| {
        PlaceholderHasNoW(i + 1);
        assert PLACEHOLDER_CWD[i..i + 7][1] == PLACEHOLDER_CWD[i + 1];
        assert OVERLAPPING[1] == 'w';
      }
    }
  }

  /** A stream whose only work tree is not inside the placeholder, and whose redaction still names it. */
  lemma OverlappingRootSurvives()
    ensures var lines := NamedTree.Stream(OVERLAPPING, None, NAMING);
            && !Occurs(OVERLAPPING, PLACEHOLDER_CWD)
            && WorkTreesOf(lines) == [OVERLAPPING]
            && |RedactedStream(lines, "")| == 1
            && !Free(RedactedStream(lines, "")[0], OVERLAPPING)
  {
    hide OVERLAPPING, NAMING, LEFT, PLACEHOLDER_CWD, Replace, WorkTreesOf, Midnight, RedactedEvent, Occurs,
      OtherSpelling, NamedTree.Stream, NamedTree.Event, Absolute;
    OverlapsAnEndOnly();
    OverlappingIsNameable();
    LoneTree(OVERLAPPING, NAMING);
    NamedTree.StreamRedacted(OVERLAPPING, None, NAMING, "", [OVERLAPPING]);
    NamedTree.EventRedacted(OVERLAPPING, None, NAMING, Midnight(""), [OVERLAPPING]);
    NamingBecomesLeft();
    RewriteOneRoot(NAMING, OVERLAPPING);
    LeftNamesTheRoot();
  }

  const DOUBLED := "/t/t"

  lemma DoubledRunsIn()
    ensures !Disagree(DOUBLED, PLACEHOLDER_CWD, -2) && HeadMatches(DOUBLED, 2)
  {
    var text := DOUBLED[..2] + DOUBLED;
    assert text[0..4] == DOUBLED;
    assert At(DOUBLED, text, 0);
  }

  lemma DoubledDisagrees(d: int)
    requires -4 < d < |PLACEHOLDER_CWD| && d != -2
    ensures Disagree(DOUBLED, PLACEHOLDER_CWD, d)
  {
    if d < 0 {
      assert DOUBLED[-d] != PLACEHOLDER_CWD[-d + d];
    } else if d == 0 {
      assert DOUBLED[2] != PLACEHOLDER_CWD[2 + 0];
    } else if d == 4 {
      assert DOUBLED[1] != PLACEHOLDER_CWD[1 + 4];
    } else {
      assert DOUBLED[0] != PLACEHOLDER_CWD[0 + d];
    }
  }

  /** An overlap alone does not bring a root back: this one runs into the placeholder and is always removed. */
  lemma DoubledRootIsGone()
    ensures !Separate(DOUBLED, PLACEHOLDER_CWD) && Removable(DOUBLED, PLACEHOLDER_CWD)
  {
    hide Disagree, HeadMatches, PLACEHOLDER_CWD;
    DoubledRunsIn();
    assert -2 < |PLACEHOLDER_CWD|;
    forall d | -|DOUBLED| < d < |PLACEHOLDER_CWD|
      ensures Disagree(DOUBLED, PLACEHOLDER_CWD, d) || (d < 0 && HeadMatches(DOUBLED, -d))
    {
      if d != -2 {
        DoubledDisagrees(d);
      }
    }
  }
}
