/** Comparing one version's captures with the goldens, and the qualification record that follows. */
module GoldenComparison {
  import opened Prelude
  import opened Versions
  import opened Golden

  datatype Status = Matches | DivergesReviewed | DivergesUnreviewed | InQuarantine | Missing

  predicate Blocks(s: Status) {
    s.DivergesUnreviewed? || s.Missing?
  }

  datatype Row = Row(scenario: string, status: Status, differing: set<string>, ledgerEntry: Option<nat>)

  datatype Comparison = Comparison(version: string, rows: seq<Row>, qualifiable: bool, blocking: seq<string>)

  datatype CompareError = UnknownScenario(file: string) | NeitherGoldenNorQuarantine(scenario: string)

  function Differing(golden: Meaning, capture: Meaning): (d: set<string>)
    ensures d == {} <==> golden == capture
  {
    var d := set k | k in golden.Keys + capture.Keys
                     && !(k in golden && k in capture && golden[k] == capture[k]);
    assert d == {} ==> golden.Keys == capture.Keys by {
      assert forall k :: k in golden.Keys + capture.Keys ==> k in d || (k in golden && k in capture);
    }
    assert d == {} ==> forall k :: k in golden ==> golden[k] == capture[k] by {
      assert forall k :: k in golden ==> k in d || (k in capture && golden[k] == capture[k]);
    }
    d
  }

  // ---- The scenarios, in order ----

  predicate Sorted(s: seq<string>) {
    forall i, j :: 0 <= i < j < |s| ==> CompareText(s[i], s[j]) == Less
  }

  function InsertName(names: seq<string>, name: string): (r: seq<string>)
    ensures forall x :: x in r <==> x in names || x == name
  {
    if |names| == 0 then [name]
    else
      assert names == [names[0]] + names[1..];
      match CompareText(name, names[0])
      case Less => [name] + names
      case Equal =>
        TextAntisymmetry(name, names[0]);
        names
      case Greater => [names[0]] + InsertName(names[1..], name)
  }

  lemma {:induction false} InsertSorts(names: seq<string>, name: string)
    requires Sorted(names)
    ensures Sorted(InsertName(names, name))
  {
    hide CompareText;
    if |names| > 0 {
      TextAntisymmetry(name, names[0]);
      var tail := names[1..];
      match CompareText(name, names[0])
      case Less =>
        forall j | 0 <= j < |names| ensures CompareText(name, names[j]) == Less {
          if j > 0 {
            LessTransitive(name, names[0], names[j]);
          }
        }
      case Equal =>
      case Greater =>
        InsertSorts(tail, name);
        var r := InsertName(tail, name);
        forall j | 0 <= j < |r| ensures CompareText(names[0], r[j]) == Less {
          assert r[j] in r;
          assert r[j] in tail || r[j] == name;
        }
    }
  }

  lemma LessTransitive(x: string, y: string, z: string)
    requires CompareText(x, y) == Less && CompareText(y, z) == Less
    ensures CompareText(x, z) == Less
  {
    hide CompareText;
    TextThree(x, y, z);
  }

  function GoldenNames(goldens: seq<Recorded>): (r: seq<string>)
    ensures forall x :: x in r <==> exists i :: 0 <= i < |goldens| && goldens[i].capture.scenario == x
  {
    if |goldens| == 0 then []
    else
      var front := goldens[..|goldens| - 1];
      assert forall i :: 0 <= i < |front| ==> goldens[i] == front[i];
      InsertName(GoldenNames(front), Last(goldens).capture.scenario)
  }

  function AllNames(names: seq<string>, entries: seq<Quarantine>): (r: seq<string>)
    ensures forall x :: x in r <==> x in names || exists i :: 0 <= i < |entries| && entries[i].scenario == x
  {
    if |entries| == 0 then names
    else
      var front := entries[..|entries| - 1];
      assert forall i :: 0 <= i < |front| ==> entries[i] == front[i];
      InsertName(AllNames(names, front), Last(entries).scenario)
  }

  /** Every scenario the corpus names, sorted, each once. */
  function Scenarios(c: Corpus): seq<string> {
    AllNames(GoldenNames(c.goldens), c.quarantine)
  }

  lemma {:induction false} GoldenNamesAreSorted(goldens: seq<Recorded>)
    ensures Sorted(GoldenNames(goldens))
  {
    hide Sorted, InsertName;
    if |goldens| > 0 {
      GoldenNamesAreSorted(goldens[..|goldens| - 1]);
      InsertSorts(GoldenNames(goldens[..|goldens| - 1]), Last(goldens).capture.scenario);
    } else {
      EmptyIsSorted();
    }
  }

  lemma EmptyIsSorted()
    ensures Sorted([])
  {
  }

  lemma {:induction false} AllNamesAreSorted(names: seq<string>, entries: seq<Quarantine>)
    requires Sorted(names)
    ensures Sorted(AllNames(names, entries))
  {
    hide Sorted, InsertName;
    if |entries| > 0 {
      AllNamesAreSorted(names, entries[..|entries| - 1]);
      InsertSorts(AllNames(names, entries[..|entries| - 1]), Last(entries).scenario);
    }
  }

  /** The scenarios come sorted, which also says each comes once. */
  lemma ScenariosAreSorted(c: Corpus)
    ensures Sorted(Scenarios(c))
    ensures forall x :: x in Scenarios(c) <==>
              || (exists i :: 0 <= i < |c.goldens| && c.goldens[i].capture.scenario == x)
              || (exists i :: 0 <= i < |c.quarantine| && c.quarantine[i].scenario == x)
  {
    hide Sorted, InsertName;
    GoldenNamesAreSorted(c.goldens);
    AllNamesAreSorted(GoldenNames(c.goldens), c.quarantine);
  }

  // ---- One scenario ----

  function CaptureFor(captures: seq<Recorded>, scenario: string): (c: Option<Recorded>)
    ensures c.Some? ==> c.value in captures && c.value.capture.scenario == scenario
    ensures c.None? ==> forall i :: 0 <= i < |captures| ==> captures[i].capture.scenario != scenario
  {
    if |captures| == 0 then None
    else if captures[0].capture.scenario == scenario then Some(captures[0])
    else CaptureFor(captures[1..], scenario)
  }

  predicate Covers(l: LedgerEntry, scenario: string, version: string, differing: set<string>) {
    l.scenario == scenario && l.version == version && forall f :: f in differing ==> f in l.fields
  }

  function Covering(ledger: seq<LedgerEntry>, scenario: string, version: string, differing: set<string>)
    : (k: Option<nat>)
    ensures k.Some? ==> FirstCover(ledger, scenario, version, differing, k.value)
    ensures k.None? ==> forall i :: 0 <= i < |ledger| ==> !Covers(ledger[i], scenario, version, differing)
  {
    if |ledger| == 0 then None
    else if Covers(ledger[0], scenario, version, differing) then Some(0)
    else
      match Covering(ledger[1..], scenario, version, differing)
      case None => assert forall i :: 1 <= i < |ledger| ==> ledger[i] == ledger[1..][i - 1]; None
      case Some(k) => assert forall i :: 1 <= i < |ledger| ==> ledger[i] == ledger[1..][i - 1]; Some(k + 1)
  }

  /**
   What lets a scenario pass: an active quarantine, or a capture that means what the golden means or
   whose every difference one ledger entry for that version covers.
   */
  ghost predicate Passes(c: Corpus, taken: CaptureSet, scenario: string) {
    || Quarantined(c.quarantine, scenario).Some?
    || (GoldenOf(c, scenario).Some? && CaptureFor(taken.captures, scenario).Some?
        && var differing := Differing(GoldenOf(c, scenario).value.meaning, CaptureFor(taken.captures, scenario).value.meaning);
           differing == {}
           || exists i :: 0 <= i < |c.ledger| && Covers(c.ledger[i], scenario, taken.version, differing))
  }

  /** What a row says: its status, the fields that differ and the first ledger entry that covers them. */
  ghost predicate RowSays(c: Corpus, taken: CaptureSet, row: Row) {
    var scenario := row.scenario;
    var capture := CaptureFor(taken.captures, scenario);
    if Quarantined(c.quarantine, scenario).Some? then row == Row(scenario, InQuarantine, {}, None)
    else if capture.None? || GoldenOf(c, scenario).None? then row == Row(scenario, Missing, {}, None)
    else
      var differing := Differing(GoldenOf(c, scenario).value.meaning, capture.value.meaning);
      && row.differing == differing
      && (row.status.Matches? <==> differing == {})
      && (row.status.DivergesReviewed? <==>
            differing != {} && exists i :: 0 <= i < |c.ledger| && Covers(c.ledger[i], scenario, taken.version, differing))
      && (row.status.Matches? || row.status.DivergesReviewed? || row.status.DivergesUnreviewed?)
      && (row.ledgerEntry.Some? <==> row.status.DivergesReviewed?)
      && (row.ledgerEntry.Some? ==> FirstCover(c.ledger, scenario, taken.version, differing, row.ledgerEntry.value))
  }

  ghost predicate FirstCover(ledger: seq<LedgerEntry>, scenario: string, version: string, differing: set<string>, k: nat) {
    && k < |ledger| && Covers(ledger[k], scenario, version, differing)
    && forall i :: 0 <= i < k ==> !Covers(ledger[i], scenario, version, differing)
  }

  method CompareScenario(c: Corpus, taken: CaptureSet, scenario: string) returns (r: Result<Row, CompareError>)
    ensures r.Err? <==> Quarantined(c.quarantine, scenario).None? && GoldenOf(c, scenario).None?
    ensures r.Err? ==> r.error == NeitherGoldenNorQuarantine(scenario)
    ensures r.Ok? ==> r.value.scenario == scenario && RowSays(c, taken, r.value)
    ensures r.Ok? ==> (Blocks(r.value.status) <==> !Passes(c, taken, scenario))
  {
    hide GoldenOf, CompareText, Differing, Quarantined;
    if Quarantined(c.quarantine, scenario).Some? {
      return Ok(Row(scenario, InQuarantine, {}, None));
    }
    var golden := GoldenOf(c, scenario);
    if golden.None? {
      return Err(NeitherGoldenNorQuarantine(scenario));
    }
    var capture := CaptureFor(taken.captures, scenario);
    if capture.None? {
      return Ok(Row(scenario, Missing, {}, None));
    }
    var differing := Differing(golden.value.meaning, capture.value.meaning);
    if differing == {} {
      return Ok(Row(scenario, Matches, {}, None));
    }
    var index := Covering(c.ledger, scenario, taken.version, differing);
    r := Ok(Row(scenario, if index.Some? then DivergesReviewed else DivergesUnreviewed, differing, index));
  }

  // ---- The comparison ----

  predicate Known(c: Corpus, taken: CaptureSet) {
    forall i :: 0 <= i < |taken.captures| ==> taken.captures[i].capture.scenario in Scenarios(c)
  }

  predicate Answered(c: Corpus, scenario: string) {
    Quarantined(c.quarantine, scenario).Some? || GoldenOf(c, scenario).Some?
  }

  ghost predicate AllPass(c: Corpus, taken: CaptureSet) {
    forall s :: s in Scenarios(c) ==> Passes(c, taken, s)
  }

  ghost predicate Judges(c: Corpus, taken: CaptureSet, out: Comparison) {
    && out.version == taken.version
    && |out.rows| == |Scenarios(c)|
    && (forall i :: 0 <= i < |out.rows| ==>
          && out.rows[i].scenario == Scenarios(c)[i] && RowSays(c, taken, out.rows[i])
          && (Blocks(out.rows[i].status) <==> !Passes(c, taken, out.rows[i].scenario)))
    && (out.qualifiable <==> AllPass(c, taken))
    && (forall s :: s in out.blocking <==> s in Scenarios(c) && !Passes(c, taken, s))
  }

  lemma NothingBlocks(c: Corpus, taken: CaptureSet, scenarios: seq<string>, blocking: seq<string>)
    requires forall s :: s in blocking <==>
               exists i :: 0 <= i < |scenarios| && scenarios[i] == s && !Passes(c, taken, s)
    ensures blocking == [] <==> forall s :: s in scenarios ==> Passes(c, taken, s)
  {
    hide Passes;
    if blocking == [] {
      forall s | s in scenarios ensures Passes(c, taken, s) {
        assert s !in blocking;
      }
    } else {
      assert blocking[0] in blocking;
    }
  }

  /** The error names the first capture of an unknown scenario, or the first scenario the corpus does not answer. */
  ghost predicate Blames(c: Corpus, taken: CaptureSet, e: CompareError) {
    match e
    case UnknownScenario(file) =>
      exists i :: 0 <= i < |taken.captures| && taken.captures[i].capture.file == file
                  && taken.captures[i].capture.scenario !in Scenarios(c)
                  && forall k :: 0 <= k < i ==> taken.captures[k].capture.scenario in Scenarios(c)
    case NeitherGoldenNorQuarantine(s) =>
      exists i :: 0 <= i < |Scenarios(c)| && Scenarios(c)[i] == s && !Answered(c, s)
                  && forall k :: 0 <= k < i ==> Answered(c, Scenarios(c)[k])
  }

  method CompareCaptures(c: Corpus, taken: CaptureSet) returns (r: Result<Comparison, CompareError>)
    ensures r.Err? && r.error.UnknownScenario? <==> !Known(c, taken)
    ensures r.Err? && r.error.NeitherGoldenNorQuarantine? <==>
              Known(c, taken) && exists s :: s in Scenarios(c) && !Answered(c, s)
    ensures r.Err? ==> Blames(c, taken, r.error)
    ensures r.Ok? ==> Judges(c, taken, r.value)
  {
    hide Scenarios, Passes, Quarantined, GoldenOf, Blocks, RowSays;
    var scenarios := Scenarios(c);
    var unknown := FirstWhere((g: Recorded) => g.capture.scenario !in scenarios, taken.captures);
    if unknown < |taken.captures| {
      return Err(UnknownScenario(taken.captures[unknown].capture.file));
    }
    var rows: seq<Row> := [];
    var blocking: seq<string> := [];
    for k := 0 to |scenarios|
      invariant |rows| == k
      invariant forall i :: 0 <= i < k ==> Answered(c, scenarios[i])
      invariant forall i :: 0 <= i < k ==>
        rows[i].scenario == scenarios[i] && RowSays(c, taken, rows[i])
        && (Blocks(rows[i].status) <==> !Passes(c, taken, scenarios[i]))
      invariant forall s :: s in blocking <==> exists i :: 0 <= i < k && scenarios[i] == s && !Passes(c, taken, s)
    {
      var row := CompareScenario(c, taken, scenarios[k]);
      if row.Err? {
        assert scenarios[k] in scenarios;
        return Err(row.error);
      }
      rows := rows + [row.value];
      if Blocks(row.value.status) {
        blocking := blocking + [scenarios[k]];
      }
    }
    var out := Comparison(taken.version, rows, blocking == [], blocking);
    NothingBlocks(c, taken, scenarios, blocking);
    r := Ok(out);
  }

  /** A loaded corpus has, for every scenario it names, an active quarantine or a golden. */
  lemma LoadedScenariosAreAnswered(r: Reading, c: Corpus, scenario: string)
    requires Sound(r, c) && scenario in Scenarios(c)
    ensures Answered(c, scenario)
  {
    hide Recordable, RecordedFrom, CompareText, Blank, Kept, IsDate, Latest;
    if Quarantined(c.quarantine, scenario).None? {
      if k :| 0 <= k < |c.quarantine| && c.quarantine[k].scenario == scenario {
        assert SoundQuarantine(r, c.goldens, c.quarantine[k]);
        var i :| 0 <= i < |c.goldens| && Lifts(c.goldens[i], c.quarantine[k], c.quarantine[k].liftedBy.value);
      } else {
        var i :| 0 <= i < |c.goldens| && c.goldens[i].capture.scenario == scenario;
      }
    }
  }

  /**
   On a loaded corpus the comparison fails only for a capture of a scenario the corpus does not
   name: the case of a scenario with neither golden nor active quarantine never arises.
   */
  method CompareLoaded(r: Reading, c: Corpus, taken: CaptureSet) returns (out: Result<Comparison, CompareError>)
    requires Sound(r, c)
    ensures out.Err? <==> !Known(c, taken)
    ensures out.Err? ==> out.error.UnknownScenario?
    ensures out.Ok? ==> Judges(c, taken, out.value)
  {
    hide Sound, Known, Judges, Answered, Scenarios;
    out := CompareCaptures(c, taken);
    forall s | s in Scenarios(c) ensures Answered(c, s) {
      LoadedScenariosAreAnswered(r, c, s);
    }
  }

  // ---- Qualification ----

  const ADAPTER := "claude-code"

  datatype QualificationRecord = QualificationRecord(adapter: string, binary: string, suite: string, date: string)

  datatype PairedRecord = PairedRecord(adapter: QualificationRecord, provider: string)

  datatype NotQualifiable = NotQualifiable(provider: string, scenarios: seq<string>)

  datatype AdapterManifest = AdapterManifest(adapter: string, version: string)

  function RecordCompared(c: Comparison, build: string, suite: string, date: string)
    : Result<PairedRecord, NotQualifiable>
  {
    if c.qualifiable then Ok(PairedRecord(QualificationRecord(ADAPTER, build, suite, date), c.version))
    else Err(NotQualifiable(c.version, c.blocking))
  }

  predicate Names(r: QualificationRecord, m: AdapterManifest, suite: string) {
    r.adapter == m.adapter && r.binary == m.version && r.suite == suite
  }

  predicate Qualified(m: AdapterManifest, suite: string, records: seq<QualificationRecord>) {
    exists i :: 0 <= i < |records| && Names(records[i], m, suite)
  }

  function Matching(records: seq<PairedRecord>, observed: string): seq<QualificationRecord> {
    if |records| == 0 then []
    else
      Matching(records[..|records| - 1], observed)
      + (if Last(records).provider == observed then [Last(records).adapter] else [])
  }

  predicate QualifiedPair(m: AdapterManifest, suite: string, observed: string, records: seq<PairedRecord>) {
    Qualified(m, suite, Matching(records, observed))
  }

  lemma {:induction false} MatchingAre(records: seq<PairedRecord>, observed: string, x: QualificationRecord)
    ensures x in Matching(records, observed) <==> PairedRecord(x, observed) in records
  {
    if |records| > 0 {
      MatchingAre(records[..|records| - 1], observed, x);
      assert records == records[..|records| - 1] + [Last(records)];
    }
  }

  /** An adapter is qualified for a provider exactly by a record that names the adapter, the suite and that provider. */
  lemma QualifiedByOneRecord(m: AdapterManifest, suite: string, observed: string, records: seq<PairedRecord>)
    ensures QualifiedPair(m, suite, observed, records) <==>
              exists x :: PairedRecord(x, observed) in records && Names(x, m, suite)
  {
    hide Names;
    var matching := Matching(records, observed);
    if i :| 0 <= i < |matching| && Names(matching[i], m, suite) {
      MatchingAre(records, observed, matching[i]);
    }
    if x :| PairedRecord(x, observed) in records && Names(x, m, suite) {
      MatchingAre(records, observed, x);
      assert x in matching;
    }
  }

  /**
   The record a comparison leads to exists exactly when every scenario passes, and it qualifies this
   build for the compared version and for no other; otherwise the refusal names the scenarios that do not.
   */
  lemma RecordQualifiesOnlyTheCompared(c: Corpus, taken: CaptureSet, out: Comparison, build: string, suite: string,
                                       date: string, observed: string)
    requires Judges(c, taken, out)
    ensures RecordCompared(out, build, suite, date).Ok? <==> AllPass(c, taken)
    ensures RecordCompared(out, build, suite, date).Ok? ==>
              (QualifiedPair(AdapterManifest(ADAPTER, build), suite, observed,
                             [RecordCompared(out, build, suite, date).value])
               <==> observed == taken.version)
    ensures RecordCompared(out, build, suite, date).Err? ==>
              var refusal := RecordCompared(out, build, suite, date).error;
              && refusal.provider == taken.version
              && forall s :: s in refusal.scenarios <==> s in Scenarios(c) && !Passes(c, taken, s)
  {
    hide AllPass, Qualified, Matching, ADAPTER, Scenarios, Passes, RowSays, Blocks;
    if out.qualifiable {
      var record := RecordCompared(out, build, suite, date).value;
      QualifiedByOneRecord(AdapterManifest(ADAPTER, build), suite, observed, [record]);
      if observed == taken.version {
        assert PairedRecord(record.adapter, observed) in [record];
      }
    }
  }
}
