/** When the golden a scenario is compared to is a maximum, and when the order of the manifest decides it. */
module GoldenTheorems {
  import opened Prelude
  import opened Versions
  import opened Golden

  predicate NumericGolden(g: Recorded) {
    Numeric(Components(g.capture.version))
  }

  lemma GoldenAntisymmetry(a: Recorded, b: Recorded)
    ensures CompareGoldens(b, a) == Reverse(CompareGoldens(a, b))
  {
    hide CompareText, Compare, Components;
    TextAntisymmetry(a.capture.captured, b.capture.captured);
    Antisymmetry(Components(a.capture.version), Components(b.capture.version));
  }

  /** Of one date, each at least the one before, and of versions that break. */
  ghost predicate GoldensBreak(a: Recorded, b: Recorded, c: Recorded) {
    && CompareGoldens(a, b) != Greater && CompareGoldens(b, c) != Greater
    && a.capture.captured == b.capture.captured == c.capture.captured
    && Breaks(Components(a.capture.version), Components(b.capture.version), Components(c.capture.version))
  }

  lemma GoldensOrderedExactly(a: Recorded, b: Recorded, c: Recorded)
    requires CompareGoldens(a, b) != Greater && CompareGoldens(b, c) != Greater
    ensures CompareGoldens(a, c) == Greater <==> GoldensBreak(a, b, c)
  {
    hide CompareText, Compare, Components, Breaks;
    var x, y, z := a.capture.captured, b.capture.captured, c.capture.captured;
    TextTransitivity(x, y, z);
    TextAntisymmetry(x, y);
    TextAntisymmetry(y, z);
    TextAntisymmetry(x, z);
    if x == y == z {
      VersionsOrderedExactly(Components(a.capture.version), Components(b.capture.version),
                             Components(c.capture.version));
    }
  }

  /** No three of them break. */
  ghost predicate Unbroken(goldens: seq<Recorded>) {
    forall a, b, c :: a in goldens && b in goldens && c in goldens ==> !GoldensBreak(a, b, c)
  }

  lemma NumericIsUnbroken(goldens: seq<Recorded>)
    requires forall i :: 0 <= i < |goldens| ==> NumericGolden(goldens[i])
    ensures Unbroken(goldens)
  {
    hide Numeric, Components, Breaks, Compare;
    forall a, b, c | a in goldens && b in goldens && c in goldens ensures !GoldensBreak(a, b, c) {
      var x, y, z := Components(a.capture.version), Components(b.capture.version), Components(c.capture.version);
      if Compare(x, y) != Greater && Compare(y, z) != Greater {
        NumericTransitivity(x, y, z);
        VersionsOrderedExactly(x, y, z);
      }
      OneDateComparesVersions(a, b);
      OneDateComparesVersions(b, c);
    }
  }

  lemma OneDateComparesVersions(a: Recorded, b: Recorded)
    ensures a.capture.captured == b.capture.captured ==>
              CompareGoldens(a, b) == Compare(Components(a.capture.version), Components(b.capture.version))
  {
    hide CompareText, Compare, Components;
    TextAntisymmetry(a.capture.captured, b.capture.captured);
  }

  ghost predicate IsMaximum(m: Recorded, goldens: seq<Recorded>) {
    m in goldens && forall g :: g in goldens ==> CompareGoldens(g, m) != Greater
  }

  /** Among goldens no three of which break, the chosen one is a maximum, by date and then by version. */
  lemma {:induction false} LatestIsAMaximum(goldens: seq<Recorded>)
    requires |goldens| > 0 && Unbroken(goldens)
    ensures IsMaximum(Latest(goldens).value, goldens)
  {
    hide CompareGoldens, GoldensBreak;
    var front, last := goldens[..|goldens| - 1], Last(goldens);
    assert goldens == front + [last];
    GoldenReflexive(last);
    if |front| > 0 {
      var before := Latest(front).value;
      LatestIsAMaximum(front);
      GoldenAntisymmetry(before, last);
      if CompareGoldens(before, last) != Greater {
        forall g | g in front ensures CompareGoldens(g, last) != Greater {
          GoldensOrderedExactly(g, before, last);
        }
      }
    }
  }

  lemma GoldenReflexive(g: Recorded)
    ensures CompareGoldens(g, g) == Equal
  {
    hide CompareText, Compare, Components;
    TextAntisymmetry(g.capture.captured, g.capture.captured);
    Antisymmetry(Components(g.capture.version), Components(g.capture.version));
  }

  ghost predicate NoTies(goldens: seq<Recorded>) {
    forall a, b :: a in goldens && b in goldens && CompareGoldens(a, b) == Equal ==> a == b
  }

  /** Greater than every golden but itself. */
  ghost predicate Unrivalled(m: Recorded, goldens: seq<Recorded>) {
    m in goldens && forall g :: g in goldens ==> g == m || CompareGoldens(g, m) == Less
  }

  lemma InFrontOrLast(goldens: seq<Recorded>)
    requires |goldens| > 0
    ensures forall g :: g in goldens <==> g in goldens[..|goldens| - 1] || g == Last(goldens)
  {
    assert goldens == goldens[..|goldens| - 1] + [Last(goldens)];
  }

  lemma LatestOfMore(goldens: seq<Recorded>)
    requires |goldens| > 0
    ensures var before, last := Latest(goldens[..|goldens| - 1]), Last(goldens);
            && (before.Some? ==> before.value in goldens[..|goldens| - 1])
            && Latest(goldens) == if before.Some? && CompareGoldens(before.value, last) == Greater then before
                                  else Some(last)
  {
    hide CompareGoldens;
  }

  lemma {:induction false} UnrivalledIsChosen(goldens: seq<Recorded>, m: Recorded)
    requires Unrivalled(m, goldens)
    ensures Latest(goldens) == Some(m)
  {
    hide CompareGoldens, Latest;
    var front, last := goldens[..|goldens| - 1], Last(goldens);
    InFrontOrLast(goldens);
    LatestOfMore(goldens);
    if m in front {
      UnrivalledIsChosen(front, m);
      GoldenAntisymmetry(last, m);
    }
  }

  lemma SameGoldens(a: seq<Recorded>, b: seq<Recorded>, g: Recorded)
    requires multiset(a) == multiset(b)
    ensures g in a <==> g in b
  {
    assert g in a <==> g in multiset(a);
    assert g in b <==> g in multiset(b);
  }

  /** Put last, a golden that some choice does not exceed is chosen over it. */
  lemma PutLast(goldens: seq<Recorded>, i: nat, m: Recorded)
    requires i < |goldens| && goldens[i] != m && CompareGoldens(goldens[i], m) != Less
    ensures var moved := goldens[..i] + goldens[i + 1..] + [goldens[i]];
            multiset(moved) == multiset(goldens) && Latest(moved) != Some(m)
  {
    hide CompareGoldens;
    var rest, g := goldens[..i] + goldens[i + 1..], goldens[i];
    assert goldens == goldens[..i] + [g] + goldens[i + 1..];
    assert (rest + [g])[..|rest|] == rest;
    GoldenAntisymmetry(g, m);
  }

  lemma UnrivalledInEveryOrder(a: seq<Recorded>, b: seq<Recorded>, m: Recorded)
    requires multiset(a) == multiset(b) && Unrivalled(m, a)
    ensures Latest(a) == Latest(b) == Some(m)
  {
    hide CompareGoldens, Latest;
    forall g ensures g in a <==> g in b {
      SameGoldens(a, b, g);
    }
    UnrivalledIsChosen(a, m);
    UnrivalledIsChosen(b, m);
  }

  lemma RivalledInSomeOrder(a: seq<Recorded>) returns (b: seq<Recorded>)
    requires |a| > 0 && !Unrivalled(Latest(a).value, a)
    ensures multiset(b) == multiset(a) && Latest(b) != Latest(a)
  {
    hide CompareGoldens, Latest;
    var m := Latest(a).value;
    var i :| 0 <= i < |a| && a[i] != m && CompareGoldens(a[i], m) != Less;
    PutLast(a, i, m);
    b := a[..i] + a[i + 1..] + [a[i]];
  }

  /** Every order of the manifest leads to one choice if and only if some golden is greater than all others. */
  lemma OrderDoesNotMatterExactly(a: seq<Recorded>)
    requires |a| > 0
    ensures (forall b | multiset(b) == multiset(a) :: Latest(b) == Latest(a)) <==> exists m :: Unrivalled(m, a)
  {
    hide CompareGoldens, Latest, Unrivalled;
    if m :| Unrivalled(m, a) {
      forall b | multiset(b) == multiset(a) ensures Latest(b) == Latest(a) {
        UnrivalledInEveryOrder(a, b, m);
      }
    } else {
      var b := RivalledInSomeOrder(a);
    }
  }

  lemma UntiedMaximumIsUnrivalled(m: Recorded, goldens: seq<Recorded>)
    requires NoTies(goldens)
    ensures Unrivalled(m, goldens) <==> IsMaximum(m, goldens)
  {
    hide CompareGoldens;
    GoldenReflexive(m);
  }

  /** Without ties the choice is a maximum in every order of the manifest if and only if there is a maximum. */
  lemma ChosenIsMaximumExactly(a: seq<Recorded>)
    requires |a| > 0 && NoTies(a)
    ensures (forall b | multiset(b) == multiset(a) :: Latest(b).Some? && IsMaximum(Latest(b).value, a))
       <==> exists m :: IsMaximum(m, a)
  {
    hide CompareGoldens, Latest, IsMaximum, Unrivalled;
    if m :| IsMaximum(m, a) {
      UntiedMaximumIsUnrivalled(m, a);
      UnrivalledIsChosen(a, m);
      OrderDoesNotMatterExactly(a);
    } else {
      assert !IsMaximum(Latest(a).value, a);
    }
  }

  /** When no three goldens break and no two tie, the manifest's order does not matter. */
  lemma OrderOfGoldensDoesNotMatter(a: seq<Recorded>, b: seq<Recorded>)
    requires multiset(a) == multiset(b) && Unbroken(a) && NoTies(a)
    ensures Latest(a) == Latest(b)
  {
    hide CompareGoldens, Latest, IsMaximum, Unrivalled, Unbroken, NoTies;
    assert |multiset(a)| == |a| && |multiset(b)| == |b|;
    if |a| > 0 {
      LatestIsAMaximum(a);
      UntiedMaximumIsUnrivalled(Latest(a).value, a);
      OrderDoesNotMatterExactly(a);
    }
  }

  /** One scenario's golden at a version, captured on one date. */
  function At(version: string): Recorded {
    Recorded(Capture("s", version, "p", "i", "d", version), map[])
  }

  lemma {:induction false} OneComponent(text: string)
    requires '.' !in text
    ensures Components(text) == [text]
  {
    if text != "" {
      OneComponent(text[1..]);
      assert text == [text[0]] + text[1..];
    }
  }

  /** With a version that is no number the choice is no maximum, and another order chooses otherwise. */
  lemma MixedGoldensHaveNoMaximum()
    ensures CompareGoldens(At("1a"), At("9")) == Less
    ensures Latest([At("9"), At("10"), At("1a")]) == Some(At("1a"))
    ensures Latest([At("10"), At("1a"), At("9")]) == Some(At("9"))
  {
    hide CompareText, Compare, Components;
    OneComponent("9");
    OneComponent("10");
    OneComponent("1a");
    MixedVersionsCycle();
    TextAntisymmetry("d", "d");
    var a, b := [At("9"), At("10"), At("1a")], [At("10"), At("1a"), At("9")];
    assert a[..2] == [At("9"), At("10")] && a[..2][..1] == [At("9")] && a[..1][..0] == [];
    assert b[..2] == [At("10"), At("1a")] && b[..2][..1] == [At("10")] && b[..1][..0] == [];
    assert Latest(a[..1]) == Some(At("9")) && Latest(b[..1]) == Some(At("10"));
    assert Latest(a[..2]) == Some(At("10")) && Latest(b[..2]) == Some(At("1a"));
  }
}
