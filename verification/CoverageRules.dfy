/** What coverage and the child's environment decide, over the commands and the names given. */
module CoverageRules {
  import opened Prelude
  import opened CommandReading
  import opened Coverage

  /** Some command requires a program the posture does not allow. */
  ghost predicate Uncovered(commands: seq<string>, allowed: seq<string>) {
    exists i, p :: 0 <= i < |commands| && ReadingOf(commands[i]) == Program(p) && p !in allowed
  }

  ghost predicate Unread(commands: seq<string>) {
    exists i :: 0 <= i < |commands| && ReadingOf(commands[i]) == Unparsed
  }

  /** A run is refused for a required program that is not allowed, partial for a command not parsed, and else direct. */
  lemma VerdictExactly(commands: seq<string>, allowed: seq<string>)
    ensures var v := VerdictOf(Grouped(allowed, Read(commands)), Read(commands));
      && (v == RunRefused <==> Uncovered(commands, allowed))
      && (v == Partial <==> !Uncovered(commands, allowed) && Unread(commands))
      && (v == Direct <==> !Uncovered(commands, allowed) && !Unread(commands))
  {
    hide Grouped, FirstSeen, ReadingOf;
    var read := Read(commands);
    var missing := Grouped(allowed, read);
    GroupedPrograms(allowed, read);
    forall x ensures x in Programs(missing) <==>
                       exists i :: 0 <= i < |commands| && ReadingOf(commands[i]) == Program(x) && x !in allowed {
      FirstSeenAre(allowed, read, x);
      assert forall i :: 0 <= i < |commands| ==> read[i].reading == ReadingOf(commands[i]);
    }
    if missing != [] {
      assert Programs(missing)[0] in Programs(missing);
    }
    if i, p :| 0 <= i < |commands| && ReadingOf(commands[i]) == Program(p) && p !in allowed {
      assert p in Programs(missing);
    }
  }

  // ---- The names that never reach the child ----

  /** The same letter as the capital `u`, in either case, or the same other character. */
  predicate SameLetter(c: char, u: char) {
    c == u || ('A' <= u <= 'Z' && c as int == u as int + 32)
  }

  predicate StartsLike(name: string, prefix: string) {
    |prefix| <= |name| && forall i :: 0 <= i < |prefix| ==> SameLetter(name[i], prefix[i])
  }

  /** A credential or an approval, by how its name starts in whatever case. */
  predicate NeverPlaced(name: string) {
    || StartsLike(name, "GITHUB_TOKEN") || StartsLike(name, "GH_TOKEN") || StartsLike(name, "CARGO_REGISTRY_TOKEN")
    || StartsLike(name, "NPM_TOKEN") || StartsLike(name, "AWS_SECRET") || StartsLike(name, "STATECRAFT_APPROVAL")
  }

  predicate Capitals(prefix: string) {
    forall i :: 0 <= i < |prefix| ==> 'A' <= prefix[i] <= 'Z' || prefix[i] == '_'
  }

  lemma UpperIsSame(c: char, u: char)
    requires 'A' <= u <= 'Z' || u == '_'
    ensures UpperChar(c) == u <==> SameLetter(c, u)
  {
  }

  lemma OnePrefix(name: string, prefix: string)
    requires Capitals(prefix)
    ensures prefix <= Upper(name) <==> StartsLike(name, prefix)
    ensures Upper(name) == Upper(prefix) ==> prefix <= Upper(name)
  {
    hide UpperChar, SameLetter;
    forall i | 0 <= i < |prefix| && i < |name| ensures UpperChar(name[i]) == prefix[i] <==> SameLetter(name[i], prefix[i]) {
      UpperIsSame(name[i], prefix[i]);
    }
    forall i | 0 <= i < |prefix| ensures UpperChar(prefix[i]) == prefix[i] {
      CapitalStays(prefix[i]);
    }
    assert Upper(prefix) == prefix;
    if |prefix| <= |name| {
      assert Upper(name)[..|prefix|] == prefix <==> forall i :: 0 <= i < |prefix| ==> Upper(name)[i] == prefix[i];
    }
  }

  lemma CapitalStays(c: char)
    requires 'A' <= c <= 'Z' || c == '_'
    ensures UpperChar(c) == c
  {
  }

  lemma ThePrefixes()
    ensures WITHHELD_PREFIXES == ["GITHUB_TOKEN", "GH_TOKEN", "CARGO_REGISTRY_TOKEN", "NPM_TOKEN", "AWS_SECRET",
                                  "STATECRAFT_APPROVAL"]
    ensures forall k :: 0 <= k < 6 ==> Capitals(WITHHELD_PREFIXES[k])
  {
  }

  /** The name starts like one of the prefixes. */
  predicate StartsLikeOne(name: string) {
    exists k :: 0 <= k < |WITHHELD_PREFIXES| && StartsLike(name, WITHHELD_PREFIXES[k])
  }

  lemma WithheldStarts(name: string)
    ensures Withheld(name) <==> StartsLikeOne(name)
  {
    hide WITHHELD_PREFIXES, Capitals, StartsLike, UpperChar;
    ThePrefixes();
    forall k | 0 <= k < |WITHHELD_PREFIXES|
      ensures WITHHELD_PREFIXES[k] <= Upper(name) <==> StartsLike(name, WITHHELD_PREFIXES[k])
      ensures Upper(name) == Upper(WITHHELD_PREFIXES[k]) ==> WITHHELD_PREFIXES[k] <= Upper(name)
    {
      OnePrefix(name, WITHHELD_PREFIXES[k]);
    }
  }

  lemma StartsLikeOneOfSix(name: string)
    ensures StartsLikeOne(name) <==> NeverPlaced(name)
  {
    hide WITHHELD_PREFIXES, StartsLike, Capitals;
    ThePrefixes();
    var w := WITHHELD_PREFIXES;
    assert w[0] == "GITHUB_TOKEN" && w[1] == "GH_TOKEN" && w[2] == "CARGO_REGISTRY_TOKEN";
    assert w[3] == "NPM_TOKEN" && w[4] == "AWS_SECRET" && w[5] == "STATECRAFT_APPROVAL";
    assert |w| == 6;
  }

  /** A name is withheld if and only if it starts, in whatever letter case, like one of six. */
  lemma WithheldExactly(name: string)
    ensures Withheld(name) <==> NeverPlaced(name)
  {
    hide Withheld, NeverPlaced, StartsLikeOne;
    WithheldStarts(name);
    StartsLikeOneOfSix(name);
  }

  // ---- The child's variables ----

  /** The last value given for a name. */
  predicate GivenLast(given: seq<(string, string)>, name: string, value: string, k: nat) {
    && k < |given| && given[k] == (name, value)
    && forall j :: k < j < |given| ==> given[j].0 != name
  }

  /** A variable of the child has a value if and only if its name may be placed and that is the last value given. */
  lemma {:induction false} VariableExactly(given: seq<(string, string)>, name: string, value: string)
    ensures name in VariablesOf(given) && VariablesOf(given)[name] == value <==>
              !NeverPlaced(name) && exists k: nat :: GivenLast(given, name, value, k)
  {
    hide Withheld, NeverPlaced;
    WithheldExactly(name);
    if |given| > 0 {
      var n := |given| - 1;
      var front := given[..n];
      VariableExactly(front, name, value);
      WithheldExactly(given[n].0);
      if given[n].0 == name {
        assert given[n].1 == value ==> GivenLast(given, name, value, n);
      } else {
        forall k: nat | k < n ensures GivenLast(given, name, value, k) <==> GivenLast(front, name, value, k) {
        }
      }
    }
  }

  /** Degraded means that some name given may not be placed. */
  lemma DegradedExactly(given: seq<(string, string)>)
    ensures SomeWithheld(given) <==> exists i :: 0 <= i < |given| && NeverPlaced(given[i].0)
  {
    hide Withheld, NeverPlaced;
    forall i | 0 <= i < |given| ensures Withheld(given[i].0) <==> NeverPlaced(given[i].0) {
      WithheldExactly(given[i].0);
    }
  }
}
