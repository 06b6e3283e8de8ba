/**
 The golden corpus: what loading one checks, which golden a scenario is compared to, and what a
 comparison with one version's captures decides.
 */
module Golden {
  import opened Prelude
  import opened Versions
  import Anchors

  /** A stream's meaning: each mapped field's value, spelled. */
  type Meaning = map<string, string>

  datatype Capture = Capture(
    scenario: string,
    version: string,
    platform: string,
    invocation: string,
    captured: string,
    file: string)

  datatype Quarantine = Quarantine(
    scenario: string,
    file: string,
    reason: string,
    evidence: string,
    quarantined: string,
    liftedBy: Option<string>)

  datatype LedgerEntry = LedgerEntry(
    scenario: string,
    version: string,
    fields: seq<string>,
    reason: string,
    reviewer: string,
    date: string)

  datatype Recorded = Recorded(capture: Capture, meaning: Meaning)

  datatype Corpus = Corpus(goldens: seq<Recorded>, quarantine: seq<Quarantine>, ledger: seq<LedgerEntry>)

  datatype CaptureSet = CaptureSet(version: string, captures: seq<Recorded>)

  datatype LoadError =
    | EmptyText
    | NotADate
    | RecordedTwice
    | Unread(file: string)
    | NotAStream(file: string)
    | OtherVersion(file: string)
    | GoldenInQuarantine(file: string)
    | NotKept(file: string)
    | NotLifted(file: string)
    | NoField
    | NotMapped(field: string)
    | OutOfOrder
    | EmptySet
    | SeveralVersions
    | CapturedTwice(scenario: string)

  /** How loading reads a file, and the version and meaning of a stream. */
  datatype Reading = Reading(read: string -> Option<string>, meaning: string -> Option<(string, Meaning)>)

  /** A text that trims to nothing. */
  predicate Blank(text: string) {
    forall i :: 0 <= i < |text| ==> Anchors.White(text[i])
  }

  predicate Kept(file: string) {
    "quarantine/" <= file
  }

  predicate Mapped(field: string) {
    || field == "appliedTools" || field == "costReported" || field == "deniedTools" || field == "hookEvents"
    || field == "isError" || field == "midStreamDenials" || field == "outcome" || field == "providerClaim"
    || field == "subtype" || field == "terminalReason"
  }

  predicate IsDate(text: string) {
    |text| == 10
    && forall i :: 0 <= i < 10 ==>
         if i == 4 || i == 7 then text[i] == '-' else '0' <= text[i] <= '9'
  }

  function After(a: string, b: string): bool {
    CompareText(a, b) == Greater
  }

  // ---- Loading ----

  function KeyOf(c: Capture): (string, string, string) {
    (c.scenario, c.version, c.platform)
  }

  ghost predicate DistinctKeys(captures: seq<Capture>) {
    forall i, j :: 0 <= i < j < |captures| ==> KeyOf(captures[i]) != KeyOf(captures[j])
  }

  predicate Filled(c: Capture) {
    !Blank(c.scenario) && !Blank(c.platform) && !Blank(c.invocation) && IsDate(c.captured)
  }

  /** The stream the entry names was read, and was recorded from the entry's version. */
  predicate Streams(r: Reading, c: Capture) {
    var text := r.read(c.file);
    text.Some? && r.meaning(text.value).Some? && r.meaning(text.value).value.0 == c.version
  }

  ghost predicate RecordedFrom(r: Reading, captures: seq<Capture>, out: seq<Recorded>) {
    && |out| == |captures|
    && forall i :: 0 <= i < |captures| ==>
         && Streams(r, captures[i])
         && out[i] == Recorded(captures[i], r.meaning(r.read(captures[i].file).value).value.1)
  }

  ghost predicate Recordable(r: Reading, captures: seq<Capture>) {
    && DistinctKeys(captures)
    && forall i :: 0 <= i < |captures| ==> Filled(captures[i]) && Streams(r, captures[i])
  }

  /** The entry at `i` is the first that cannot be recorded, and `e` the first thing wrong with it. */
  ghost predicate CaptureFault(r: Reading, captures: seq<Capture>, i: nat, e: LoadError)
    requires i < |captures|
  {
    var c := captures[i];
    var own := Filled(c) && forall j :: 0 <= j < i ==> KeyOf(captures[j]) != KeyOf(c);
    && Recordable(r, captures[..i])
    && match e
       case EmptyText => Blank(c.scenario) || Blank(c.platform) || Blank(c.invocation)
       case NotADate => !Blank(c.scenario) && !Blank(c.platform) && !Blank(c.invocation) && !IsDate(c.captured)
       case RecordedTwice => Filled(c) && exists j :: 0 <= j < i && KeyOf(captures[j]) == KeyOf(c)
       case Unread(file) => own && file == c.file && r.read(file).None?
       case NotAStream(file) => own && file == c.file && r.read(file).Some? && r.meaning(r.read(file).value).None?
       case OtherVersion(file) =>
         && own && file == c.file && r.read(file).Some? && r.meaning(r.read(file).value).Some?
         && r.meaning(r.read(file).value).value.0 != c.version
       case _ => false
  }

  method Record(r: Reading, captures: seq<Capture>) returns (out: Result<seq<Recorded>, LoadError>)
    ensures out.Ok? <==> Recordable(r, captures)
    ensures out.Ok? ==> RecordedFrom(r, captures, out.value)
    ensures out.Err? ==> exists i :: 0 <= i < |captures| && CaptureFault(r, captures, i, out.error)
  {
    hide IsDate, Blank;
    var seen: set<(string, string, string)> := {};
    var list: seq<Recorded> := [];
    for k := 0 to |captures|
      invariant forall i :: 0 <= i < k ==> KeyOf(captures[i]) in seen
      invariant forall x :: x in seen ==> exists i :: 0 <= i < k && x == KeyOf(captures[i])
      invariant Recordable(r, captures[..k])
      invariant RecordedFrom(r, captures[..k], list)
    {
      var c := captures[k];
      if Blank(c.scenario) || Blank(c.platform) || Blank(c.invocation) {
        assert !Filled(captures[k]);
        assert CaptureFault(r, captures, k, EmptyText);
        return Err(EmptyText);
      }
      if !IsDate(c.captured) {
        assert !Filled(captures[k]);
        assert CaptureFault(r, captures, k, NotADate);
        return Err(NotADate);
      }
      var key := KeyOf(c);
      if key in seen {
        var i :| 0 <= i < k && key == KeyOf(captures[i]);
        assert CaptureFault(r, captures, k, RecordedTwice);
        return Err(RecordedTwice);
      }
      seen := seen + {key};
      var text := r.read(c.file);
      if text.None? {
        assert !Streams(r, captures[k]);
        assert CaptureFault(r, captures, k, Unread(c.file));
        return Err(Unread(c.file));
      }
      var read := r.meaning(text.value);
      if read.None? {
        assert !Streams(r, captures[k]);
        assert CaptureFault(r, captures, k, NotAStream(c.file));
        return Err(NotAStream(c.file));
      }
      if read.value.0 != c.version {
        assert !Streams(r, captures[k]);
        assert CaptureFault(r, captures, k, OtherVersion(c.file));
        return Err(OtherVersion(c.file));
      }
      list := list + [Recorded(c, read.value.1)];
    }
    assert captures[..|captures|] == captures;
    out := Ok(list);
  }

  /** The golden that lifts the quarantine: same scenario, captured after it. */
  predicate Lifts(g: Recorded, q: Quarantine, file: string) {
    g.capture.file == file && g.capture.scenario == q.scenario && After(g.capture.captured, q.quarantined)
  }

  predicate SoundQuarantine(r: Reading, goldens: seq<Recorded>, q: Quarantine) {
    && !Blank(q.reason) && !Blank(q.evidence) && IsDate(q.quarantined)
    && Kept(q.file) && r.read(q.file).Some?
    && (q.liftedBy.Some? ==> exists i :: 0 <= i < |goldens| && Lifts(goldens[i], q, q.liftedBy.value))
  }

  predicate SoundEntry(l: LedgerEntry) {
    && !Blank(l.reviewer) && !Blank(l.reason) && IsDate(l.date)
    && l.fields != [] && forall i :: 0 <= i < |l.fields| ==> Mapped(l.fields[i])
  }

  /** What every loaded corpus is. */
  ghost predicate Sound(r: Reading, c: Corpus) {
    && Recordable(r, Captures(c.goldens)) && RecordedFrom(r, Captures(c.goldens), c.goldens)
    && (forall i :: 0 <= i < |c.goldens| ==> !Kept(c.goldens[i].capture.file))
    && (forall i :: 0 <= i < |c.quarantine| ==> SoundQuarantine(r, c.goldens, c.quarantine[i]))
    && (forall i :: 0 <= i < |c.ledger| ==> SoundEntry(c.ledger[i]))
    && forall i :: 0 < i < |c.ledger| ==> !After(c.ledger[i - 1].date, c.ledger[i].date)
  }

  function Captures(goldens: seq<Recorded>): (r: seq<Capture>)
    ensures |r| == |goldens| && forall i :: 0 <= i < |r| ==> r[i] == goldens[i].capture
  {
    seq(|goldens|, i requires 0 <= i < |goldens| => goldens[i].capture)
  }

  /** The entry at `i` is the first that is not sound, and `e` the first thing wrong with it. */
  ghost predicate QuarantineFault(r: Reading, goldens: seq<Recorded>, entries: seq<Quarantine>, i: nat, e: LoadError)
    requires i < |entries|
  {
    var q := entries[i];
    var told := !Blank(q.reason) && !Blank(q.evidence);
    && (forall k :: 0 <= k < i ==> SoundQuarantine(r, goldens, entries[k]))
    && match e
       case EmptyText => !told
       case NotADate => told && !IsDate(q.quarantined)
       case NotKept(file) => told && IsDate(q.quarantined) && file == q.file && !Kept(file)
       case Unread(file) => told && IsDate(q.quarantined) && file == q.file && Kept(file) && r.read(file).None?
       case NotLifted(file) =>
         && told && IsDate(q.quarantined) && file == q.file && Kept(file) && r.read(file).Some?
         && q.liftedBy.Some? && forall k :: 0 <= k < |goldens| ==> !Lifts(goldens[k], q, q.liftedBy.value)
       case _ => false
  }

  method LoadQuarantine(r: Reading, goldens: seq<Recorded>, entries: seq<Quarantine>)
    returns (out: Result<(), LoadError>)
    ensures out.Ok? <==> forall i :: 0 <= i < |entries| ==> SoundQuarantine(r, goldens, entries[i])
    ensures out.Err? ==> exists i :: 0 <= i < |entries| && QuarantineFault(r, goldens, entries, i, out.error)
  {
    hide IsDate, CompareText, Blank, Kept, Mapped;
    for k := 0 to |entries|
      invariant forall i :: 0 <= i < k ==> SoundQuarantine(r, goldens, entries[i])
    {
      var q := entries[k];
      if Blank(q.reason) || Blank(q.evidence) {
        assert QuarantineFault(r, goldens, entries, k, EmptyText);
        return Err(EmptyText);
      }
      if !IsDate(q.quarantined) {
        assert QuarantineFault(r, goldens, entries, k, NotADate);
        return Err(NotADate);
      }
      if !Kept(q.file) {
        assert QuarantineFault(r, goldens, entries, k, NotKept(q.file));
        return Err(NotKept(q.file));
      }
      if r.read(q.file).None? {
        assert QuarantineFault(r, goldens, entries, k, Unread(q.file));
        return Err(Unread(q.file));
      }
      if q.liftedBy.Some? && !(exists i :: 0 <= i < |goldens| && Lifts(goldens[i], q, q.liftedBy.value)) {
        assert QuarantineFault(r, goldens, entries, k, NotLifted(q.file));
        return Err(NotLifted(q.file));
      }
    }
    out := Ok(());
  }

  /** The entry at `i` is the first that is not sound or in order, and `e` the first thing wrong with it. */
  ghost predicate EntryFault(entries: seq<LedgerEntry>, i: nat, e: LoadError)
    requires i < |entries|
  {
    var l := entries[i];
    var told := !Blank(l.reviewer) && !Blank(l.reason);
    && (forall k :: 0 <= k < i ==> SoundEntry(entries[k]))
    && (forall k :: 0 < k < i ==> !After(entries[k - 1].date, entries[k].date))
    && match e
       case EmptyText => !told
       case NotADate => told && !IsDate(l.date)
       case NoField => told && IsDate(l.date) && l.fields == []
       case NotMapped(field) => told && IsDate(l.date) && FirstUnmapped(l.fields, field)
       case OutOfOrder => SoundEntry(l) && i > 0 && After(entries[i - 1].date, l.date)
       case _ => false
  }

  ghost predicate FirstUnmapped(fields: seq<string>, field: string) {
    exists k :: 0 <= k < |fields| && fields[k] == field && !Mapped(field) && forall j :: 0 <= j < k ==> Mapped(fields[j])
  }

  method LoadLedger(entries: seq<LedgerEntry>) returns (out: Result<(), LoadError>)
    ensures out.Ok? <==>
              && (forall i :: 0 <= i < |entries| ==> SoundEntry(entries[i]))
              && forall i :: 0 < i < |entries| ==> !After(entries[i - 1].date, entries[i].date)
    ensures out.Err? ==> exists i :: 0 <= i < |entries| && EntryFault(entries, i, out.error)
  {
    hide IsDate, CompareText, Blank, Kept, Mapped;
    var last := "";
    for k := 0 to |entries|
      invariant forall i :: 0 <= i < k ==> SoundEntry(entries[i])
      invariant forall i :: 0 < i < k ==> !After(entries[i - 1].date, entries[i].date)
      invariant if k == 0 then last == "" else last == entries[k - 1].date
    {
      var l := entries[k];
      if Blank(l.reviewer) || Blank(l.reason) {
        assert EntryFault(entries, k, EmptyText);
        return Err(EmptyText);
      }
      if !IsDate(l.date) {
        assert EntryFault(entries, k, NotADate);
        return Err(NotADate);
      }
      if l.fields == [] {
        assert EntryFault(entries, k, NoField);
        return Err(NoField);
      }
      var f := FirstWhere((field: string) => !Mapped(field), l.fields);
      if f < |l.fields| {
        assert FirstUnmapped(l.fields, l.fields[f]);
        assert EntryFault(entries, k, NotMapped(l.fields[f]));
        return Err(NotMapped(l.fields[f]));
      }
      if After(last, l.date) {
        NothingPrecedesEmpty(l.date);
        assert EntryFault(entries, k, OutOfOrder);
        return Err(OutOfOrder);
      }
      last := l.date;
    }
    out := Ok(());
  }

  lemma NothingPrecedesEmpty(text: string)
    ensures !After("", text)
  {
  }

  /** What loading refuses a corpus for: the first golden kept in quarantine, then the first faulty entry, list by list. */
  ghost predicate LoadFault(r: Reading, captures: seq<Capture>, quarantine: seq<Quarantine>, ledger: seq<LedgerEntry>,
                            e: LoadError) {
    var at := FirstWhere((c: Capture) => Kept(c.file), captures);
    if at < |captures| then e == GoldenInQuarantine(captures[at].file)
    else if !Recordable(r, captures) then exists i :: 0 <= i < |captures| && CaptureFault(r, captures, i, e)
    else
      || (exists goldens, i :: RecordedFrom(r, captures, goldens) && 0 <= i < |quarantine|
                               && QuarantineFault(r, goldens, quarantine, i, e))
      || (WhollyKept(r, captures, quarantine) && exists i :: 0 <= i < |ledger| && EntryFault(ledger, i, e))
  }

  /** The whole quarantine is sound beside the goldens recorded. */
  ghost predicate WhollyKept(r: Reading, captures: seq<Capture>, quarantine: seq<Quarantine>) {
    exists goldens :: RecordedFrom(r, captures, goldens)
                      && forall k :: 0 <= k < |quarantine| ==> SoundQuarantine(r, goldens, quarantine[k])
  }

  method Load(r: Reading, captures: seq<Capture>, quarantine: seq<Quarantine>, ledger: seq<LedgerEntry>)
    returns (out: Result<Corpus, LoadError>)
    ensures out.Ok? ==> Sound(r, out.value) && Captures(out.value.goldens) == captures
    ensures out.Ok? ==> out.value.quarantine == quarantine && out.value.ledger == ledger
    ensures out.Err? ==> forall goldens :: Captures(goldens) == captures ==> !Sound(r, Corpus(goldens, quarantine, ledger))
    ensures out.Err? ==> LoadFault(r, captures, quarantine, ledger, out.error)
  {
    hide IsDate, Blank, Kept, SoundQuarantine, SoundEntry, After, Streams, Filled, CaptureFault, QuarantineFault, EntryFault;
    var at := FirstWhere((c: Capture) => Kept(c.file), captures);
    if at < |captures| {
      return Err(GoldenInQuarantine(captures[at].file));
    }
    var goldens := Record(r, captures);
    if goldens.Err? {
      return Err(goldens.error);
    }
    assert Captures(goldens.value) == captures;
    var kept := LoadQuarantine(r, goldens.value, quarantine);
    if kept.Err? {
      OneRecording(r, captures, goldens.value);
      return Err(kept.error);
    }
    var reviewed := LoadLedger(ledger);
    if reviewed.Err? {
      return Err(reviewed.error);
    }
    out := Ok(Corpus(goldens.value, quarantine, ledger));
  }

  lemma OneRecording(r: Reading, captures: seq<Capture>, goldens: seq<Recorded>)
    requires RecordedFrom(r, captures, goldens)
    ensures forall other :: RecordedFrom(r, captures, other) ==> other == goldens
  {
    hide Streams;
  }

  ghost predicate OneVersion(captures: seq<Capture>, version: string) {
    captures != [] && forall i :: 0 <= i < |captures| ==> captures[i].version == version
  }

  ghost predicate OnePerScenario(captures: seq<Capture>) {
    forall i, j :: 0 <= i < j < |captures| ==> captures[i].scenario != captures[j].scenario
  }

  /** What loading refuses a capture set for: none, several versions, the first scenario captured again, a faulty entry. */
  ghost predicate SetFault(r: Reading, captures: seq<Capture>, e: LoadError) {
    if captures == [] then e == EmptySet
    else if !OneVersion(captures, captures[0].version) then e == SeveralVersions
    else if !OnePerScenario(captures) then
      exists k :: 0 <= k < |captures| && e == CapturedTwice(captures[k].scenario) && OnePerScenario(captures[..k])
                  && exists j :: 0 <= j < k && captures[j].scenario == captures[k].scenario
    else exists i :: 0 <= i < |captures| && CaptureFault(r, captures, i, e)
  }

  method LoadSet(r: Reading, captures: seq<Capture>) returns (out: Result<CaptureSet, LoadError>)
    ensures out.Ok? <==>
              captures != [] && OneVersion(captures, captures[0].version) && OnePerScenario(captures)
              && Recordable(r, captures)
    ensures out.Ok? ==> RecordedFrom(r, captures, out.value.captures) && OneVersion(captures, out.value.version)
    ensures out.Err? ==> SetFault(r, captures, out.error)
  {
    hide Recordable, RecordedFrom, CaptureFault;
    if captures == [] {
      return Err(EmptySet);
    }
    if i :| 0 <= i < |captures| && captures[i].version != captures[0].version {
      return Err(SeveralVersions);
    }
    var seen: set<string> := {};
    for k := 0 to |captures|
      invariant forall i :: 0 <= i < k ==> captures[i].scenario in seen
      invariant forall x :: x in seen ==> exists i :: 0 <= i < k && captures[i].scenario == x
      invariant forall i, j :: 0 <= i < j < k ==> captures[i].scenario != captures[j].scenario
    {
      if captures[k].scenario in seen {
        return Err(CapturedTwice(captures[k].scenario));
      }
      seen := seen + {captures[k].scenario};
    }
    var list := Record(r, captures);
    if list.Err? {
      return Err(list.error);
    }
    out := Ok(CaptureSet(captures[0].version, list.value));
  }

  // ---- The golden of a scenario ----

  /** By date, then by version. */
  function CompareGoldens(a: Recorded, b: Recorded): Ordering {
    var dates := CompareText(a.capture.captured, b.capture.captured);
    if dates != Equal then dates else Compare(Components(a.capture.version), Components(b.capture.version))
  }

  /** The greatest, the last of those that compare equal. */
  function Latest(goldens: seq<Recorded>): (g: Option<Recorded>)
    ensures g.None? <==> |goldens| == 0
    ensures g.Some? ==> g.value in goldens
  {
    if |goldens| == 0 then None
    else
      var before := Latest(goldens[..|goldens| - 1]);
      if before.Some? && CompareGoldens(before.value, Last(goldens)) == Greater then before else Some(Last(goldens))
  }

  function Of(goldens: seq<Recorded>, scenario: string): seq<Recorded> {
    Filter((g: Recorded) => g.capture.scenario == scenario, goldens)
  }

  function GoldenOf(c: Corpus, scenario: string): Option<Recorded> {
    Latest(Of(c.goldens, scenario))
  }

  function Quarantined(entries: seq<Quarantine>, scenario: string): (q: Option<Quarantine>)
    ensures q.Some? ==> q.value in entries && q.value.scenario == scenario && q.value.liftedBy.None?
    ensures q.None? ==> forall i :: 0 <= i < |entries| && entries[i].scenario == scenario ==> entries[i].liftedBy.Some?
  {
    if |entries| == 0 then None
    else if entries[0].scenario == scenario && entries[0].liftedBy.None? then Some(entries[0])
    else Quarantined(entries[1..], scenario)
  }
}
