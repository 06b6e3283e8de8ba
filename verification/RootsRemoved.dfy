/** No computed work tree survives redaction, at any depth. */
module RootsRemoved {
  import opened Prelude
  import opened Substrings
  import opened Redaction
  import opened RedactionFacts
  import opened WorkTrees

  /** No string value of `v`, at any depth, contains `root`. */
  ghost predicate Free(v: Json, root: string)
    decreases v
  {
    match v
    case Text(s) => !Occurs(root, s)
    case Array(items) => forall i :: 0 <= i < |items| ==> Free(items[i], root)
    case Object(fields) => forall i :: 0 <= i < |fields| ==> Free(fields[i].value, root)
    case _ => true
  }

  /** The paths redaction writes do not themselves contain `root`. */
  ghost predicate Unwritten(root: string) {
    !Occurs(root, PLACEHOLDER_CWD) && !Occurs(root, PLACEHOLDER_SOCKET) && !Occurs(root, PLACEHOLDER_MEMORY)
  }

  /** Replacing `roots` in turn leaves no text that contains `root`. */
  ghost predicate Gone(root: string, roots: seq<string>)
    requires Usable(roots)
  {
    forall text :: !Occurs(root, Rewrite(text, roots))
  }

  /** What keeps `root` apart from every path redaction writes. */
  ghost predicate Clear(root: string) {
    && Separate(root, PLACEHOLDER_CWD)
    && !Occurs(root, PLACEHOLDER_SOCKET)
    && !Occurs(root, PLACEHOLDER_MEMORY)
  }

  lemma SlashNeeded(root: string, text: string)
    requires Absolute(root) && !HasSlash(text)
    ensures !Occurs(root, text)
  {
    forall i: nat ensures !At(root, text, i) {
      if i + |root| <= |text| {
        assert text[i..i + |root|][0] == text[i];
      }
    }
  }

  lemma SeparateIsOutside(root: string, text: string)
    requires Absolute(root) && Separate(root, text)
    ensures !Occurs(root, text)
  {
    forall i: nat ensures !At(root, text, i) {
      if i + |root| <= |text| {
        assert text[0..|text|] == text;
        NoOverlap(root, text, text, i, 0);
      }
    }
  }

  /** Replacing the roots in turn removes each one, and no later replacement brings it back. */
  lemma {:induction false} RewriteFrees(text: string, roots: seq<string>, j: nat)
    requires Usable(roots) && j < |roots| && Separate(roots[j], PLACEHOLDER_CWD)
    ensures !Occurs(roots[j], Rewrite(text, roots))
  {
    hide Separate, PLACEHOLDER_CWD, Replace, Occurs;
    var front := roots[..|roots| - 1];
    if j < |front| {
      RewriteFrees(text, front, j);
    }
    PlaceholderHasSlash();
    ReplaceKeepsClean(Rewrite(text, front), Last(roots), PLACEHOLDER_CWD, roots[j]);
  }

  lemma {:induction false} RememberFrees(v: Json, root: string)
    requires !Occurs(root, PLACEHOLDER_MEMORY)
    ensures Free(Remember(v), root)
  {
    hide PLACEHOLDER_MEMORY, Occurs;
    match v
    case Array(items) =>
      forall i | 0 <= i < |items| ensures Free(Remember(items[i]), root) {
        RememberFrees(items[i], root);
      }
    case Object(fields) =>
      forall i | 0 <= i < |fields| ensures Free(Remember(fields[i].value), root) {
        RememberFrees(fields[i].value, root);
      }
    case _ =>
  }

  lemma FixedUnderFrees(role: Role, v: Json, stamp: string, root: string)
    requires !role.Names? && !role.Open?
    requires Absolute(root) && Unwritten(root) && !HasSlash(stamp)
    ensures Free(FixedUnder(role, v, stamp), root)
  {
    hide Occurs, Remember, HasSlash, FIXED_ID, FIXED_SESSION_ID, PLACEHOLDER_CWD, PLACEHOLDER_SOCKET,
      PLACEHOLDER_MEMORY;
    FixedIdsHaveNoSlash();
    SlashNeeded(root, FIXED_ID);
    SlashNeeded(root, FIXED_SESSION_ID);
    SlashNeeded(root, stamp);
    RememberFrees(v, root);
  }

  /** What is true of every text is true at every depth, fixed values and remembered paths included. */
  lemma {:induction false} FixFrees(v: Json, stamp: string, roots: seq<string>, root: string)
    requires Usable(roots) && Absolute(root) && Unwritten(root) && Gone(root, roots) && !HasSlash(stamp)
    ensures Free(Fix(v, stamp, roots), root)
    decreases v
  {
    hide Occurs, FixedUnder, Rewrite, HasSlash, Descends, RoleOf, Unwritten;
    match v
    case Text(s) =>
    case Array(items) =>
      forall i | 0 <= i < |items| ensures Free(Fix(items[i], stamp, roots), root) {
        FixFrees(items[i], stamp, roots, root);
      }
    case Object(fields) =>
      forall i | 0 <= i < |fields| ensures Free(Fix(v, stamp, roots).fields[i].value, root) {
        if Descends(fields[i].key) {
          FixFrees(fields[i].value, stamp, roots, root);
        } else {
          RoleIsFixed(fields[i].key);
          FixedUnderFrees(RoleOf(fields[i].key), fields[i].value, stamp, root);
        }
      }
    case _ =>
  }

  lemma ClearIsGone(roots: seq<string>, root: string)
    requires Usable(roots) && root in roots && Clear(root)
    ensures Absolute(root) && Unwritten(root) && Gone(root, roots)
  {
    hide Occurs, Separate, Rewrite;
    var j :| 0 <= j < |roots| && roots[j] == root;
    SeparateIsOutside(root, PLACEHOLDER_CWD);
    forall text ensures !Occurs(root, Rewrite(text, roots)) {
      RewriteFrees(text, roots, j);
    }
  }

  lemma RoleIsFixed(key: string)
    ensures !Descends(key) <==> !RoleOf(key).Names? && !RoleOf(key).Open?
  {
  }

  lemma RewriteOneRoot(text: string, root: string)
    requires Absolute(root)
    ensures Rewrite(text, [root]) == Replace(text, root, PLACEHOLDER_CWD)
  {
    hide Replace, PLACEHOLDER_CWD;
    assert [root][..0] == [];
    assert Rewrite(text, []) == text;
  }

  /**
   A single root is gone from every text if and only if at every offset it disagrees with the
   placeholder, or its own part ahead of the placeholder would have been replaced before.
   */
  lemma GoneExactly(root: string)
    requires Absolute(root)
    ensures Gone(root, [root]) <==> Removable(root, PLACEHOLDER_CWD)
  {
    hide Replace, PLACEHOLDER_CWD, Removable, Rewrite, Occurs;
    PlaceholderHasSlash();
    RemovedExactly(root, PLACEHOLDER_CWD);
    if Removable(root, PLACEHOLDER_CWD) {
      forall text ensures !Occurs(root, Rewrite(text, [root])) {
        RewriteOneRoot(text, root);
        assert !Occurs(root, Replace(text, root, PLACEHOLDER_CWD));
      }
    } else {
      var text :| Occurs(root, Replace(text, root, PLACEHOLDER_CWD));
      RewriteOneRoot(text, root);
      assert Occurs(root, Rewrite(text, [root]));
    }
  }

  lemma LongerIsNotInside(root: string, text: string)
    requires |root| >= |text| && root != text
    ensures !Occurs(root, text)
  {
    forall i: nat ensures !At(root, text, i) {
      if i + |root| <= |text| {
        assert text[i..i + |root|] == text;
      }
    }
  }

  /** Why the roots go longest first: each spelling as a whole becomes the placeholder, nothing around it left. */
  lemma {:induction false} EachRootBecomesThePlaceholder(roots: seq<string>, n: nat, j: nat)
    requires Usable(roots) && LongestFirst(roots) && Distinct(roots) && n <= |roots| && j < |roots|
    requires forall i :: 0 <= i < |roots| ==> !Occurs(roots[i], PLACEHOLDER_CWD)
    ensures Rewrite(roots[j], roots[..n]) == if j < n then PLACEHOLDER_CWD else roots[j]
  {
    hide PLACEHOLDER_CWD, Replace, Occurs;
    if n > 0 {
      EachRootBecomesThePlaceholder(roots, n - 1, j);
      assert roots[..n][..n - 1] == roots[..n - 1];
      var text := Rewrite(roots[j], roots[..n - 1]);
      if j < n - 1 {
        ReplaceNothing(text, roots[n - 1], PLACEHOLDER_CWD);
      } else if j == n - 1 {
        ReplaceWhole(roots[j], PLACEHOLDER_CWD);
      } else {
        LongerIsNotInside(roots[n - 1], roots[j]);
        ReplaceNothing(text, roots[n - 1], PLACEHOLDER_CWD);
      }
    }
  }
}
