/** What a corpus entry must be, character by character, and which components of a version are numbers. */
module GoldenRules {
  import opened Prelude
  import opened Versions
  import opened Golden
  import Decimal
  import HeadingRules

  // ---- Texts ----

  predicate ArabicDigit(c: char) {
    48 <= c as int <= 57
  }

  predicate Digits(text: string) {
    forall i :: 0 <= i < |text| ==> ArabicDigit(text[i])
  }

  lemma DigitsExactly(text: string)
    ensures Decimal.AllDigits(text) <==> Digits(text)
  {
  }

  /** Four digits, two digits and two digits, with a dash between. */
  predicate Dated(text: string) {
    && |text| == 10 && Digits(text[..4]) && text[4] == '-' && Digits(text[5..7]) && text[7] == '-' && Digits(text[8..])
  }

  lemma DatesAre(text: string)
    ensures IsDate(text) <==> Dated(text)
  {
    hide ArabicDigit;
    if |text| == 10 {
      assert Digits(text[..4]) <==> forall i :: 0 <= i < 4 ==> ArabicDigit(text[..4][i]);
      assert forall i :: 5 <= i < 7 ==> text[i] == text[5..7][i - 5];
      assert forall i :: 8 <= i < 10 ==> text[i] == text[8..][i - 8];
      DigitCharacters(text);
    }
  }

  lemma DigitCharacters(text: string)
    ensures forall i :: 0 <= i < |text| ==> ('0' <= text[i] <= '9' <==> ArabicDigit(text[i]))
  {
  }

  /** Some character of the text is not white space. */
  predicate Written(text: string) {
    exists i :: 0 <= i < |text| && !HeadingRules.AnyWhite(text[i])
  }

  lemma BlanksAre(text: string)
    ensures Blank(text) <==> !Written(text)
  {
    hide HeadingRules.AnyWhite, Anchors.White;
    HeadingRules.SameWhite();
  }

  /** The file stands in the quarantine's own directory. */
  ghost predicate InQuarantineDirectory(file: string) {
    exists name :: file == "quarantine/" + name
  }

  lemma KeptAre(file: string)
    ensures Kept(file) <==> InQuarantineDirectory(file)
  {
    if Kept(file) {
      assert file == "quarantine/" + file[11..];
    }
  }

  /** The fields a stream's meaning has. */
  predicate MappedField(field: string) {
    field in {"appliedTools", "costReported", "deniedTools", "hookEvents", "isError", "midStreamDenials", "outcome",
              "providerClaim", "subtype", "terminalReason"}
  }

  lemma FieldsAre(field: string)
    ensures Mapped(field) <==> MappedField(field)
  {
  }

  // ---- Entries ----

  /** A capture names its scenario, platform and invocation, is dated, and was read from a stream of its version. */
  ghost predicate CaptureRule(r: Reading, c: Capture) {
    && Written(c.scenario) && Written(c.platform) && Written(c.invocation) && Dated(c.captured)
    && exists text, meaning :: r.read(c.file) == Some(text) && r.meaning(text) == Some((c.version, meaning))
  }

  lemma CaptureExactly(r: Reading, c: Capture)
    ensures Filled(c) && Streams(r, c) <==> CaptureRule(r, c)
  {
    hide Blank, Written, IsDate, Dated;
    BlanksAre(c.scenario);
    BlanksAre(c.platform);
    BlanksAre(c.invocation);
    DatesAre(c.captured);
    if Streams(r, c) {
      var text := r.read(c.file).value;
      assert r.meaning(text) == Some((c.version, r.meaning(text).value.1));
    }
  }

  /** A golden of the scenario captured on a later day. */
  ghost predicate LaterGolden(goldens: seq<Recorded>, q: Quarantine, file: string) {
    exists i :: 0 <= i < |goldens| && goldens[i].capture.file == file && goldens[i].capture.scenario == q.scenario
                && CompareText(q.quarantined, goldens[i].capture.captured) == Less
  }

  /** A quarantine entry gives its reason and evidence, is dated, keeps a readable file, and is lifted only by a later golden. */
  ghost predicate QuarantineRule(r: Reading, goldens: seq<Recorded>, q: Quarantine) {
    && Written(q.reason) && Written(q.evidence) && Dated(q.quarantined)
    && InQuarantineDirectory(q.file) && r.read(q.file) != None
    && (q.liftedBy == None || LaterGolden(goldens, q, q.liftedBy.value))
  }

  lemma QuarantineExactly(r: Reading, goldens: seq<Recorded>, q: Quarantine)
    ensures SoundQuarantine(r, goldens, q) <==> QuarantineRule(r, goldens, q)
  {
    hide Blank, Written, IsDate, Dated, Kept, InQuarantineDirectory, CompareText;
    BlanksAre(q.reason);
    BlanksAre(q.evidence);
    DatesAre(q.quarantined);
    KeptAre(q.file);
    forall g: Recorded
      ensures After(g.capture.captured, q.quarantined) <==> CompareText(q.quarantined, g.capture.captured) == Less
    {
      TextAntisymmetry(q.quarantined, g.capture.captured);
    }
  }

  /** A ledger entry names its reviewer and reason, is dated, and reviews at least one mapped field and no other. */
  ghost predicate EntryRule(l: LedgerEntry) {
    && Written(l.reviewer) && Written(l.reason) && Dated(l.date)
    && |l.fields| > 0 && forall f :: f in l.fields ==> MappedField(f)
  }

  lemma EntryExactly(l: LedgerEntry)
    ensures SoundEntry(l) <==> EntryRule(l)
  {
    hide Blank, Written, IsDate, Dated, Mapped, MappedField;
    BlanksAre(l.reviewer);
    BlanksAre(l.reason);
    DatesAre(l.date);
    forall f ensures Mapped(f) <==> MappedField(f) {
      FieldsAre(f);
    }
  }

  // ---- Versions ----

  /** A component is a number: digits, perhaps behind a plus sign, below two to the sixty-fourth. */
  ghost predicate NumberIs(text: string, n: nat) {
    && n < 0x1_0000_0000_0000_0000
    && exists digits :: digits != "" && Decimal.AllDigits(digits) && Decimal.Parse(digits) == n
                        && (text == digits || text == "+" + digits)
  }

  lemma NumberExactly(text: string, n: nat)
    ensures ParseU64(text) == Some(n) <==> NumberIs(text, n)
  {
    hide Decimal.Parse;
    if text != "" && text[0] == '+' {
      assert text == "+" + text[1..];
      assert !Decimal.AllDigits(text);
      forall digits | text == "+" + digits ensures digits == text[1..] {
      }
    }
  }
}
