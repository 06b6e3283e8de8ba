/** What a second redaction finds in what the first one wrote. */
module RedactionIdempotence {
  import opened Prelude
  import opened Substrings
  import opened Redaction
  import opened RedactionFacts
  import opened WorkTrees
  import opened RootsRemoved
  import Decimal

  // ---- Strings ----

  lemma NoSlashNoRoot(roots: seq<string>, text: string)
    requires Usable(roots) && |roots| > 0 && !HasSlash(text)
    ensures Replace(text, Last(roots), PLACEHOLDER_CWD) == text
  {
    SlashNeeded(Last(roots), text);
    ReplaceNothing(text, Last(roots), PLACEHOLDER_CWD);
  }

  lemma SlashStays(text: string, root: string)
    requires Absolute(root)
    ensures Replace(text, root, PLACEHOLDER_CWD) == text || HasSlash(Replace(text, root, PLACEHOLDER_CWD))
  {
    hide Replace;
    if Occurs(root, text) {
      ReplaceShows(text, root, PLACEHOLDER_CWD);
      PlaceholderHasSlash();
      if !HasSlash(Replace(text, root, PLACEHOLDER_CWD)) {
        SlashNeeded(PLACEHOLDER_CWD, Replace(text, root, PLACEHOLDER_CWD));
      }
    } else {
      ReplaceNothing(text, root, PLACEHOLDER_CWD);
    }
  }

  /** Text without a slash is verbatim, and no other text is rewritten into it. */
  lemma {:induction false} RewritePlain(text: string, roots: seq<string>)
    requires Usable(roots)
    ensures !HasSlash(text) ==> Rewrite(text, roots) == text
    ensures Rewrite(text, roots) == text || HasSlash(Rewrite(text, roots))
  {
    hide Replace, HasSlash, PLACEHOLDER_CWD;
    if |roots| > 0 {
      var front := roots[..|roots| - 1];
      RewritePlain(text, front);
      SlashStays(Rewrite(text, front), Last(roots));
      if !HasSlash(Rewrite(text, front)) {
        NoSlashNoRoot(roots, Rewrite(text, front));
      }
    }
  }

  // ---- Values ----

  /** `w` holds the fixed value wherever a key calls for one. */
  ghost predicate Settled(w: Json, stamp: string)
    decreases w
  {
    match w
    case Array(items) => forall i :: 0 <= i < |items| ==> Settled(items[i], stamp)
    case Object(fields) => forall i :: 0 <= i < |fields| ==> SettledField(fields[i], stamp)
    case _ => true
  }

  ghost predicate SettledField(f: Field, stamp: string)
    decreases f
  {
    if Descends(f.key) then Settled(f.value, stamp)
    else FixedUnder(RoleOf(f.key), f.value, stamp) == f.value
  }

  /** Some string that redaction would rewrite contains `root`. */
  ghost predicate Mentions(w: Json, root: string)
    decreases w
  {
    match w
    case Text(s) => Occurs(root, s)
    case Array(items) => exists i :: 0 <= i < |items| && Mentions(items[i], root)
    case Object(fields) =>
      exists i :: 0 <= i < |fields| && Descends(fields[i].key) && Mentions(fields[i].value, root)
    case _ => false
  }

  lemma {:induction false} RememberTwice(v: Json)
    ensures Remember(Remember(v)) == Remember(v)
  {
    hide PLACEHOLDER_MEMORY;
    match v
    case Array(items) =>
      forall i | 0 <= i < |items| ensures Remember(Remember(items[i])) == Remember(items[i]) {
        RememberTwice(items[i]);
      }
    case Object(fields) =>
      forall i | 0 <= i < |fields| ensures Remember(Remember(fields[i].value)) == Remember(fields[i].value) {
        RememberTwice(fields[i].value);
      }
      assert Remember(Remember(v)).fields == Remember(v).fields;
    case _ =>
  }

  lemma FixedUnderTwice(role: Role, v: Json, stamp: string)
    requires !role.Names? && !role.Open?
    ensures FixedUnder(role, FixedUnder(role, v, stamp), stamp) == FixedUnder(role, v, stamp)
  {
    hide Remember, PLACEHOLDER_CWD, PLACEHOLDER_MEMORY, PLACEHOLDER_SOCKET, FIXED_ID, FIXED_SESSION_ID;
    RememberTwice(v);
  }

  lemma {:induction false} FixSettles(v: Json, stamp: string, roots: seq<string>)
    requires Usable(roots)
    ensures Settled(Fix(v, stamp, roots), stamp)
    decreases v
  {
    hide FixField, SettledField, Rewrite;
    match v
    case Array(items) =>
      forall i | 0 <= i < |items| ensures Settled(Fix(items[i], stamp, roots), stamp) {
        FixSettles(items[i], stamp, roots);
      }
    case Object(fields) =>
      forall i | 0 <= i < |fields| ensures SettledField(FixField(fields[i], stamp, roots), stamp) {
        FixFieldSettles(fields[i], stamp, roots);
      }
    case _ =>
  }

  lemma {:induction false} FixFieldSettles(f: Field, stamp: string, roots: seq<string>)
    requires Usable(roots)
    ensures SettledField(FixField(f, stamp, roots), stamp)
    decreases f
  {
    hide RoleOf, FixedUnder, Fix, Settled;
    if Descends(f.key) {
      FixSettles(f.value, stamp, roots);
    } else {
      FixedUnderTwice(RoleOf(f.key), f.value, stamp);
    }
  }

  /** A settled value is a fixed point of redaction exactly when no string in it names a root. */
  lemma {:induction false} SettledIsFixedPoint(w: Json, stamp: string, root: string)
    requires Settled(w, stamp) && Absolute(root) && |root| > |PLACEHOLDER_CWD|
    ensures Fix(w, stamp, [root]) == w <==> !Mentions(w, root)
    decreases w
  {
    hide FixField, SettledField, Descends, Rewrite, Occurs, PLACEHOLDER_CWD;
    match w
    case Text(s) => RewriteOne(s, root);
    case Array(items) =>
      forall i | 0 <= i < |items| ensures Fix(items[i], stamp, [root]) == items[i] <==> !Mentions(items[i], root) {
        SettledIsFixedPoint(items[i], stamp, root);
      }
      var t := Fix(w, stamp, [root]).items;
      assert forall i :: 0 <= i < |items| ==> t[i] == Fix(items[i], stamp, [root]);
      assert t == items <==> forall i :: 0 <= i < |items| ==> t[i] == items[i];
    case Object(fields) =>
      forall i | 0 <= i < |fields|
        ensures FixField(fields[i], stamp, [root]) == fields[i]
           <==> !(Descends(fields[i].key) && Mentions(fields[i].value, root))
      {
        FieldIsFixedPoint(fields[i], stamp, root);
      }
      var t := Fix(w, stamp, [root]).fields;
      assert forall i :: 0 <= i < |fields| ==> t[i] == FixField(fields[i], stamp, [root]);
      assert t == fields <==> forall i :: 0 <= i < |fields| ==> t[i] == fields[i];
    case _ =>
  }

  lemma {:induction false} FieldIsFixedPoint(f: Field, stamp: string, root: string)
    requires SettledField(f, stamp) && Absolute(root) && |root| > |PLACEHOLDER_CWD|
    ensures FixField(f, stamp, [root]) == f <==> !(Descends(f.key) && Mentions(f.value, root))
    decreases f
  {
    hide RoleOf, FixedUnder, Descends, Fix, Settled, Mentions, PLACEHOLDER_CWD;
    if Descends(f.key) {
      SettledIsFixedPoint(f.value, stamp, root);
    }
  }

  lemma RewriteOne(s: string, root: string)
    requires Absolute(root) && |root| > |PLACEHOLDER_CWD|
    ensures Rewrite(s, [root]) == s <==> !Occurs(root, s)
  {
    hide Replace, PLACEHOLDER_CWD;
    assert [root][..0] == [];
    assert Rewrite(s, []) == s;
    ReplaceShortens(s, root, PLACEHOLDER_CWD);
  }

  lemma {:induction false} SettledWithoutRoots(w: Json, stamp: string)
    requires Settled(w, stamp)
    ensures Fix(w, stamp, []) == w
    decreases w
  {
    hide FixField, SettledField;
    match w
    case Array(items) =>
      forall i | 0 <= i < |items| ensures Fix(items[i], stamp, []) == items[i] {
        SettledWithoutRoots(items[i], stamp);
      }
      assert Fix(w, stamp, []).items == items;
    case Object(fields) =>
      forall i | 0 <= i < |fields| ensures FixField(fields[i], stamp, []) == fields[i] {
        FieldWithoutRoots(fields[i], stamp);
      }
      assert Fix(w, stamp, []).fields == fields;
    case _ =>
  }

  lemma {:induction false} FieldWithoutRoots(f: Field, stamp: string)
    requires SettledField(f, stamp)
    ensures FixField(f, stamp, []) == f
    decreases f
  {
    hide RoleOf, FixedUnder, Descends, Fix, Settled;
    if Descends(f.key) {
      SettledWithoutRoots(f.value, stamp);
    }
  }
}
