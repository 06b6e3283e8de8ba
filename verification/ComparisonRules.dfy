/** What a comparison's rows, its verdict and its record say, entry by entry and field by field. */
module ComparisonRules {
  import opened Prelude
  import opened Golden
  import opened GoldenComparison

  // ---- The facts of one scenario ----

  predicate Held(c: Corpus, scenario: string) {
    exists i :: 0 <= i < |c.quarantine| && c.quarantine[i].scenario == scenario && c.quarantine[i].liftedBy == None
  }

  lemma HeldExactly(c: Corpus, scenario: string)
    ensures Quarantined(c.quarantine, scenario).Some? <==> Held(c, scenario)
  {
    var q := Quarantined(c.quarantine, scenario);
    if q.Some? {
      var i :| 0 <= i < |c.quarantine| && c.quarantine[i] == q.value;
    }
  }

  /** The field is on one side only, or differs between the two. */
  predicate Differs(golden: Meaning, capture: Meaning, field: string) {
    || (field in golden && field !in capture)
    || (field !in golden && field in capture)
    || (field in golden && field in capture && golden[field] != capture[field])
  }

  lemma DifferingExactly(golden: Meaning, capture: Meaning, field: string)
    ensures field in Differing(golden, capture) <==> Differs(golden, capture, field)
  {
  }

  /** The first capture of the scenario. */
  predicate CapturedAt(captures: seq<Recorded>, scenario: string, k: nat) {
    && k < |captures| && captures[k].capture.scenario == scenario
    && forall j :: 0 <= j < k ==> captures[j].capture.scenario != scenario
  }

  lemma {:induction false} CaptureExactly(captures: seq<Recorded>, scenario: string)
    ensures forall k: nat :: CapturedAt(captures, scenario, k) ==> CaptureFor(captures, scenario) == Some(captures[k])
    ensures CaptureFor(captures, scenario).Some? ==> exists k: nat :: CapturedAt(captures, scenario, k)
  {
    if |captures| > 0 {
      var tail := captures[1..];
      CaptureExactly(tail, scenario);
      if captures[0].capture.scenario == scenario {
        assert CapturedAt(captures, scenario, 0);
      } else {
        forall k: nat | CapturedAt(captures, scenario, k) ensures CapturedAt(tail, scenario, k - 1) {
          assert forall j :: 0 <= j < k - 1 ==> tail[j] == captures[j + 1];
        }
        if k: nat :| CapturedAt(tail, scenario, k) {
          assert forall j :: 1 <= j < k + 1 ==> captures[j] == tail[j - 1];
          assert CapturedAt(captures, scenario, k + 1);
        }
      }
    }
  }

  /** The ledger entry is of that scenario and version, and names every field that differs. */
  predicate Reviews(l: LedgerEntry, scenario: string, version: string, golden: Meaning, capture: Meaning) {
    && l.scenario == scenario && l.version == version
    && forall f :: f in golden.Keys + capture.Keys && Differs(golden, capture, f) ==> f in l.fields
  }

  lemma ReviewsExactly(l: LedgerEntry, scenario: string, version: string, golden: Meaning, capture: Meaning)
    ensures Covers(l, scenario, version, Differing(golden, capture)) <==> Reviews(l, scenario, version, golden, capture)
  {
    hide Differing, Differs;
    forall f ensures f in Differing(golden, capture) <==> Differs(golden, capture, f) {
      DifferingExactly(golden, capture, f);
    }
    assert forall f :: Differs(golden, capture, f) ==> f in golden.Keys + capture.Keys by {
      DifferingFieldsAreThere(golden, capture);
    }
  }

  lemma DifferingFieldsAreThere(golden: Meaning, capture: Meaning)
    ensures forall f :: Differs(golden, capture, f) ==> f in golden.Keys + capture.Keys
  {
  }

  /** The first ledger entry that reviews the differences. */
  predicate ReviewedAt(c: Corpus, version: string, scenario: string, golden: Meaning, capture: Meaning, k: nat) {
    && k < |c.ledger| && Reviews(c.ledger[k], scenario, version, golden, capture)
    && forall i :: 0 <= i < k ==> !Reviews(c.ledger[i], scenario, version, golden, capture)
  }

  /** The corpus names the scenario, by a golden or a quarantine entry. */
  ghost predicate NamedIn(c: Corpus, scenario: string) {
    || (exists k :: 0 <= k < |c.goldens| && c.goldens[k].capture.scenario == scenario)
    || exists k :: 0 <= k < |c.quarantine| && c.quarantine[k].scenario == scenario
  }

  /** A capture set is compared when the corpus names the scenario of every capture. */
  lemma KnownExactly(c: Corpus, taken: CaptureSet)
    ensures Known(c, taken) <==> forall g :: g in taken.captures ==> NamedIn(c, g.capture.scenario)
  {
    hide Scenarios, NamedIn;
    forall s ensures s in Scenarios(c) <==> NamedIn(c, s) {
      ScenarioIsNamed(c, s);
    }
  }

  lemma ScenarioIsNamed(c: Corpus, s: string)
    ensures s in Scenarios(c) <==> NamedIn(c, s)
  {
    hide Scenarios;
    ScenariosAreSorted(c);
  }

  // ---- One row ----

  /** What a scenario with a golden and a capture is told: it matches, or what differs and whether that was reviewed. */
  ghost predicate Told(c: Corpus, version: string, scenario: string, golden: Meaning, capture: Meaning, row: Row) {
    if golden == capture then row == Row(scenario, Matches, {}, None)
    else
      && row.scenario == scenario
      && (forall f :: f in row.differing <==> Differs(golden, capture, f))
      && if exists k: nat :: ReviewedAt(c, version, scenario, golden, capture, k)
         then row.status == DivergesReviewed && row.ledgerEntry.Some?
              && ReviewedAt(c, version, scenario, golden, capture, row.ledgerEntry.value)
         else row.status == DivergesUnreviewed && row.ledgerEntry == None
  }

  /** A row is of a quarantined scenario, of one without a capture, or told from its golden and its first capture. */
  ghost predicate RowRule(c: Corpus, taken: CaptureSet, row: Row) {
    if Held(c, row.scenario) then row == Row(row.scenario, InQuarantine, {}, None)
    else if GoldenOf(c, row.scenario).None? || !exists k: nat :: CapturedAt(taken.captures, row.scenario, k)
    then row == Row(row.scenario, Missing, {}, None)
    else exists k: nat :: CapturedAt(taken.captures, row.scenario, k)
                          && Told(c, taken.version, row.scenario, GoldenOf(c, row.scenario).value.meaning,
                                  taken.captures[k].meaning, row)
  }

  lemma {:induction false} FirstReviewed(c: Corpus, version: string, scenario: string, golden: Meaning, capture: Meaning, n: nat)
    returns (k: nat)
    requires n < |c.ledger| && Reviews(c.ledger[n], scenario, version, golden, capture)
    ensures ReviewedAt(c, version, scenario, golden, capture, k)
    decreases n
  {
    hide Reviews;
    if i :| 0 <= i < n && Reviews(c.ledger[i], scenario, version, golden, capture) {
      k := FirstReviewed(c, version, scenario, golden, capture, i);
    } else {
      k := n;
    }
  }

  lemma ToldExactly(c: Corpus, taken: CaptureSet, row: Row)
    requires RowSays(c, taken, row)
    requires Quarantined(c.quarantine, row.scenario).None? && GoldenOf(c, row.scenario).Some?
    requires CaptureFor(taken.captures, row.scenario).Some?
    requires row.differing == {} ==> row.ledgerEntry.None?
    ensures Told(c, taken.version, row.scenario, GoldenOf(c, row.scenario).value.meaning,
                 CaptureFor(taken.captures, row.scenario).value.meaning, row)
  {
    hide GoldenOf, CaptureFor, Quarantined, Differing, Covers, Reviews, Differs;
    var golden := GoldenOf(c, row.scenario).value.meaning;
    var capture := CaptureFor(taken.captures, row.scenario).value.meaning;
    forall f ensures f in Differing(golden, capture) <==> Differs(golden, capture, f) {
      DifferingExactly(golden, capture, f);
    }
    forall l ensures Covers(l, row.scenario, taken.version, Differing(golden, capture))
                     <==> Reviews(l, row.scenario, taken.version, golden, capture) {
      ReviewsExactly(l, row.scenario, taken.version, golden, capture);
    }
    if i :| 0 <= i < |c.ledger| && Reviews(c.ledger[i], row.scenario, taken.version, golden, capture) {
      var k := FirstReviewed(c, taken.version, row.scenario, golden, capture, i);
    }
  }

  /** Every row of a comparison says what the rule gives its scenario. */
  lemma RowExactly(c: Corpus, taken: CaptureSet, out: Comparison, i: nat)
    requires Judges(c, taken, out) && i < |out.rows|
    ensures out.rows[i].scenario == Scenarios(c)[i] && RowRule(c, taken, out.rows[i])
  {
    hide GoldenOf, CaptureFor, Quarantined, Passes, AllPass, Told, CapturedAt, Held, Scenarios;
    var row := out.rows[i];
    HeldExactly(c, row.scenario);
    CaptureExactly(taken.captures, row.scenario);
    if !Held(c, row.scenario) && GoldenOf(c, row.scenario).Some? && CaptureFor(taken.captures, row.scenario).Some? {
      ToldExactly(c, taken, row);
    }
  }

  /** A comparison qualifies if and only if no row diverges without review and none is missing. */
  lemma QualifiableExactly(c: Corpus, taken: CaptureSet, out: Comparison)
    requires Judges(c, taken, out)
    ensures out.qualifiable <==> forall i :: 0 <= i < |out.rows| ==> out.rows[i].status !in {DivergesUnreviewed, Missing}
    ensures forall s :: s in out.blocking <==>
              exists i :: 0 <= i < |out.rows| && out.rows[i].scenario == s && out.rows[i].status in {DivergesUnreviewed, Missing}
  {
    hide Passes, RowSays, Scenarios;
    forall i | 0 <= i < |out.rows|
      ensures out.rows[i].status in {DivergesUnreviewed, Missing} <==> !Passes(c, taken, Scenarios(c)[i])
    {
    }
  }

  // ---- The record ----

  /** The record names the adapter, this build, the suite, the date and the compared version. */
  lemma RecordExactly(out: Comparison, build: string, suite: string, date: string)
    ensures RecordCompared(out, build, suite, date)
         == if out.qualifiable
            then Ok(PairedRecord(QualificationRecord("claude-code", build, suite, date), out.version))
            else Err(NotQualifiable(out.version, out.blocking))
  {
  }

  /** An adapter is qualified for a provider exactly by a record of its own name, version, suite and provider. */
  lemma QualifiedExactly(m: AdapterManifest, suite: string, observed: string, records: seq<PairedRecord>)
    ensures QualifiedPair(m, suite, observed, records) <==>
              exists date :: PairedRecord(QualificationRecord(m.adapter, m.version, suite, date), observed) in records
  {
    hide QualifiedPair;
    QualifiedByOneRecord(m, suite, observed, records);
    if x :| PairedRecord(x, observed) in records && Names(x, m, suite) {
      assert x == QualificationRecord(m.adapter, m.version, suite, x.date);
    }
    if date :| PairedRecord(QualificationRecord(m.adapter, m.version, suite, date), observed) in records {
      assert Names(QualificationRecord(m.adapter, m.version, suite, date), m, suite);
    }
  }
}
