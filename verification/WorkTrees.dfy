/** The work trees a stream names: each spelling once, longest first, and what replacing them does. */
module WorkTrees {
  import opened Prelude
  import opened Substrings
  import opened Redaction

  lemma {:induction false} InsertKeepsOrder(roots: seq<string>, root: string)
    requires LongestFirst(roots)
    ensures LongestFirst(InsertByLength(roots, root))
  {
    if |roots| > 0 && |Last(roots)| < |root| {
      var front := roots[..|roots| - 1];
      var r := InsertByLength(front, root);
      InsertKeepsOrder(front, root);
      forall i | 0 <= i < |r| ensures |r[i]| >= |Last(roots)| {
        assert r[i] in multiset(r);
      }
    }
  }

  lemma {:induction false} SortOrders(roots: seq<string>)
    ensures LongestFirst(SortByLength(roots))
  {
    if |roots| > 0 {
      SortOrders(roots[..|roots| - 1]);
      InsertKeepsOrder(SortByLength(roots[..|roots| - 1]), Last(roots));
    }
  }

  function HasLength(n: nat): string -> bool {
    x => |x| == n
  }

  function OfLength(n: nat, s: seq<string>): seq<string> {
    Filter(HasLength(n), s)
  }

  lemma OfLengthAppend(n: nat, s: seq<string>, x: string)
    ensures OfLength(n, s + [x]) == OfLength(n, s) + (if |x| == n then [x] else [])
  {
    FilterAppend(HasLength(n), s, [x]);
  }

  /** Roots of one length stay in the order they were first seen. */
  lemma {:induction false} InsertIsStable(roots: seq<string>, root: string, n: nat)
    ensures OfLength(n, InsertByLength(roots, root)) == OfLength(n, roots + [root])
  {
    hide OfLength;
    if |roots| > 0 && |Last(roots)| < |root| {
      var front, last := roots[..|roots| - 1], Last(roots);
      InsertIsStable(front, root, n);
      OfLengthAppend(n, InsertByLength(front, root), last);
      OfLengthAppend(n, front, root);
      OfLengthAppend(n, front, last);
      OfLengthAppend(n, roots, root);
      assert roots == front + [last];
    }
  }

  lemma {:induction false} SortIsStable(roots: seq<string>, n: nat)
    ensures OfLength(n, SortByLength(roots)) == OfLength(n, roots)
  {
    hide OfLength, InsertByLength;
    if |roots| > 0 {
      var front, last := roots[..|roots| - 1], Last(roots);
      SortIsStable(front, n);
      InsertIsStable(SortByLength(front), last, n);
      OfLengthAppend(n, SortByLength(front), last);
      OfLengthAppend(n, front, last);
      assert roots == front + [last];
    }
  }

  lemma {:induction false} CollectedAre(lines: seq<Line>, x: string)
    ensures x in Collected(lines) <==> exists i :: 0 <= i < |lines| && x in NamedBy(lines[i])
  {
    hide NamedBy, AddNew, Distinct;
    if |lines| > 0 {
      var front := lines[..|lines| - 1];
      CollectedAre(front, x);
      assert x in Collected(lines) <==> x in Collected(front) || x in NamedBy(Last(lines));
      if x in NamedBy(Last(lines)) {
        assert x in NamedBy(lines[|lines| - 1]);
      } else if i :| 0 <= i < |lines| && x in NamedBy(lines[i]) {
        assert front[i] == lines[i];
      }
    }
  }

  lemma {:induction false} NoRepeats(s: seq<string>)
    ensures Distinct(s) <==> forall x :: multiset(s)[x] <= 1
  {
    if |s| > 0 {
      var front := s[..|s| - 1];
      NoRepeats(front);
      assert s == front + [Last(s)];
      assert multiset(s) == multiset(front) + multiset{Last(s)};
      if Last(s) in multiset(front) {
        var i :| 0 <= i < |front| && front[i] == Last(s);
        assert s[i] == s[|s| - 1];
        assert multiset(s)[Last(s)] >= 2;
      } else if Distinct(front) {
        forall i, j | 0 <= i < j < |s| ensures s[i] != s[j] {
          assert s[i] in multiset(front);
        }
      } else {
        var i, j :| 0 <= i < j < |front| && front[i] == front[j];
        assert s[i] == s[j];
        var x :| multiset(front)[x] > 1;
        assert multiset(s)[x] > 1;
      }
    }
  }

  /**
   The work trees are exactly the spellings that some `init` event names, each once, with no shorter
   one ahead of a longer one, and those of one length in the order the stream first names them.
   */
  lemma WorkTreesAre(lines: seq<Line>)
    ensures var roots := WorkTreesOf(lines);
            && LongestFirst(roots) && Distinct(roots)
            && (forall x :: x in roots <==> exists i :: 0 <= i < |lines| && x in NamedBy(lines[i]))
            && forall n: nat :: OfLength(n, roots) == OfLength(n, Collected(lines))
  {
    var found, roots := Collected(lines), WorkTreesOf(lines);
    SortOrders(found);
    NoRepeats(found);
    NoRepeats(roots);
    forall x ensures x in roots <==> exists i :: 0 <= i < |lines| && x in NamedBy(lines[i]) {
      SameMembers(roots, found, x);
      CollectedAre(lines, x);
    }
    forall n: nat ensures OfLength(n, roots) == OfLength(n, found) {
      SortIsStable(found, n);
    }
  }
}
