/** The acceptance subject and the corrections applied to it in record order. */
module Corrections {
  import opened Prelude

  datatype Recorded<+T> = Unread | Valid(value: T)

  datatype Artifact = Artifact(path: string, digest: string)

  /** The members of the core tuple no correction can change. */
  datatype Core = Core(
    repository: string,
    trustedBase: string,
    runId: string,
    attempt: nat,
    candidate: string,
    contextManifest: string,
    task: string,
    resultSchema: string,
    evidence: seq<string>,
    policy: string)

  datatype Subject = Subject(core: Core, result: string, artifacts: seq<Artifact>)

  datatype Correction = Correction(
    digest: string,
    subject: Subject,
    changedArtifacts: seq<Artifact>,
    correctedResult: Option<string>,
    changedClaims: seq<string>)

  datatype Effect = Effect(subject: Subject, applied: seq<string>, changedClaims: seq<string>)

  function FirstAt(artifacts: seq<Artifact>, path: string): (i: nat)
    ensures i <= |artifacts|
    ensures i < |artifacts| ==> artifacts[i].path == path
    ensures forall j :: 0 <= j < i ==> artifacts[j].path != path
  {
    FirstWhere((a: Artifact) => a.path == path, artifacts)
  }

  function Changed(artifacts: seq<Artifact>, a: Artifact): seq<Artifact> {
    var i := FirstAt(artifacts, a.path);
    if i < |artifacts| then artifacts[i := Artifact(artifacts[i].path, a.digest)] else artifacts + [a]
  }

  function ChangedAll(artifacts: seq<Artifact>, changed: seq<Artifact>): seq<Artifact> {
    if |changed| == 0 then artifacts else Changed(ChangedAll(artifacts, changed[..|changed| - 1]), Last(changed))
  }

  function Corrected(s: Subject, c: Correction): Subject {
    s.(artifacts := ChangedAll(s.artifacts, c.changedArtifacts),
       result := if c.correctedResult.Some? then c.correctedResult.value else s.result)
  }

  function Apply(e: Effect, c: Recorded<Correction>): Effect {
    if c.Unread? || c.value.subject != e.subject then e
    else Effect(Corrected(e.subject, c.value), e.applied + [c.value.digest], e.changedClaims + c.value.changedClaims)
  }

  function ApplyAll(e: Effect, corrections: seq<Recorded<Correction>>): Effect {
    if |corrections| == 0 then e else Apply(ApplyAll(e, corrections[..|corrections| - 1]), Last(corrections))
  }

  function Effective(base: Subject, corrections: seq<Recorded<Correction>>): Effect {
    ApplyAll(Effect(base, [], []), corrections)
  }

  method ApplyCorrections(base: Subject, corrections: seq<Recorded<Correction>>) returns (e: Effect)
    ensures e == Effective(base, corrections)
  {
    var subject := base;
    var applied: seq<string> := [];
    var changedClaims: seq<string> := [];
    for i := 0 to |corrections|
      invariant Effect(subject, applied, changedClaims) == Effective(base, corrections[..i])
    {
      assert corrections[..i + 1][..i] == corrections[..i];
      if corrections[i].Unread? || corrections[i].value.subject != subject {
        continue;
      }
      var c := corrections[i].value;
      var artifacts := subject.artifacts;
      for k := 0 to |c.changedArtifacts|
        invariant artifacts == ChangedAll(subject.artifacts, c.changedArtifacts[..k])
      {
        assert c.changedArtifacts[..k + 1][..k] == c.changedArtifacts[..k];
        var at := FirstAt(artifacts, c.changedArtifacts[k].path);
        if at < |artifacts| {
          artifacts := artifacts[at := Artifact(artifacts[at].path, c.changedArtifacts[k].digest)];
        } else {
          artifacts := artifacts + [c.changedArtifacts[k]];
        }
      }
      assert c.changedArtifacts[..|c.changedArtifacts|] == c.changedArtifacts;
      subject := subject.(artifacts := artifacts);
      if c.correctedResult.Some? {
        subject := subject.(result := c.correctedResult.value);
      }
      changedClaims := changedClaims + c.changedClaims;
      applied := applied + [c.digest];
    }
    assert corrections[..|corrections|] == corrections;
    e := Effect(subject, applied, changedClaims);
  }

  // ---- The chain ----

  /** Whether the correction at `i` names the subject the earlier ones produced. */
  predicate Binds(base: Subject, corrections: seq<Recorded<Correction>>, i: nat)
    requires i < |corrections|
  {
    corrections[i].Valid? && corrections[i].value.subject == Effective(base, corrections[..i]).subject
  }

  /** The binding corrections, in record order. */
  function Binding(base: Subject, corrections: seq<Recorded<Correction>>): seq<Correction> {
    if |corrections| == 0 then []
    else
      Binding(base, corrections[..|corrections| - 1])
      + (if Binds(base, corrections, |corrections| - 1) then [Last(corrections).value] else [])
  }

  function Digests(cs: seq<Correction>): (r: seq<string>)
    ensures |r| == |cs| && forall i :: 0 <= i < |cs| ==> r[i] == cs[i].digest
  {
    seq(|cs|, i requires 0 <= i < |cs| => cs[i].digest)
  }

  /** `cs` is a chain from `from` to `end`: each names the subject the one before it produced. */
  ghost predicate Chain(from: Subject, cs: seq<Correction>, end: Subject) {
    if |cs| == 0 then end == from
    else exists mid :: Chain(from, cs[..|cs| - 1], mid) && Last(cs).subject == mid && end == Corrected(mid, Last(cs))
  }

  lemma ExtendChain(base: Subject, cs: seq<Correction>, mid: Subject, c: Correction)
    requires Chain(base, cs, mid) && c.subject == mid
    ensures Chain(base, cs + [c], Corrected(mid, c))
  {
    hide Corrected;
    var out := cs + [c];
    assert out[..|out| - 1] == cs;
    assert Chain(base, out[..|out| - 1], mid) && Last(out).subject == mid && Last(out) == c;
  }

  /**
   The applied corrections are the binding ones, and they form an unbroken chain from the result's
   own subject to the effective subject.
   */
  lemma {:induction false} AppliedAreAChain(base: Subject, corrections: seq<Recorded<Correction>>)
    ensures Effective(base, corrections).applied == Digests(Binding(base, corrections))
    ensures Chain(base, Binding(base, corrections), Effective(base, corrections).subject)
  {
    hide Corrected;
    if |corrections| > 0 {
      var n := |corrections| - 1;
      var front := corrections[..n];
      AppliedAreAChain(base, front);
      if Binds(base, corrections, n) {
        ExtendChain(base, Binding(base, front), Effective(base, front).subject, corrections[n].value);
        assert Binding(base, corrections) == Binding(base, front) + [corrections[n].value];
        assert Effective(base, corrections).subject == Corrected(Effective(base, front).subject, corrections[n].value);
      } else {
        assert Binding(base, corrections) == Binding(base, front);
      }
    }
  }

  lemma {:induction false} ApplyAppend(e: Effect, a: seq<Recorded<Correction>>, b: seq<Recorded<Correction>>)
    ensures ApplyAll(e, a + b) == ApplyAll(ApplyAll(e, a), b)
    decreases |b|
  {
    hide Apply;
    if |b| == 0 {
      assert a + b == a;
    } else {
      assert (a + b)[..|a + b| - 1] == a + b[..|b| - 1];
      ApplyAppend(e, a, b[..|b| - 1]);
    }
  }

  /** A correction that does not bind where it stands can be struck from the record with no effect. */
  lemma UnboundCorrectionIsInert(base: Subject, a: seq<Recorded<Correction>>, c: Recorded<Correction>,
                                 b: seq<Recorded<Correction>>)
    requires c.Unread? || c.value.subject != Effective(base, a).subject
    ensures Effective(base, a + [c] + b) == Effective(base, a + b)
  {
    hide Corrected;
    var e := Effect(base, [], []);
    ApplyAppend(e, a + [c], b);
    ApplyAppend(e, a, b);
    ApplyAppend(e, a, [c]);
    assert [c][..0] == [];
    assert ApplyAll(ApplyAll(e, a), [c]) == Apply(ApplyAll(e, a), c);
  }

  /** A correction that changes its subject cannot apply again right after itself. */
  lemma NoCorrectionAppliesTwiceRunning(base: Subject, a: seq<Recorded<Correction>>, c: Correction)
    requires Corrected(c.subject, c) != c.subject
    ensures Effective(base, a + [Valid(c)] + [Valid(c)]) == Effective(base, a + [Valid(c)])
  {
    var e := Effect(base, [], []);
    var once := a + [Valid(c)];
    assert once[..|a|] == a && (once + [Valid(c)])[..|once|] == once;
  }

  // ---- What a correction can change ----

  ghost predicate DistinctPaths(artifacts: seq<Artifact>) {
    forall i, j :: 0 <= i < j < |artifacts| ==> artifacts[i].path != artifacts[j].path
  }

  ghost predicate PathsStay(before: seq<Artifact>, after: seq<Artifact>) {
    |before| <= |after| && forall i :: 0 <= i < |before| ==> after[i].path == before[i].path
  }

  lemma {:induction false} ChangesKeepPaths(artifacts: seq<Artifact>, changed: seq<Artifact>)
    ensures PathsStay(artifacts, ChangedAll(artifacts, changed))
    ensures DistinctPaths(artifacts) ==> DistinctPaths(ChangedAll(artifacts, changed))
  {
    if |changed| > 0 {
      ChangesKeepPaths(artifacts, changed[..|changed| - 1]);
    }
  }

  /**
   Whatever the corrections, the core stays, no artifact path is removed or moved, and paths that
   were distinct stay distinct: only artifact identities and the result digest change.
   */
  lemma {:induction false} CorrectionsOnlyChangeIdentities(base: Subject, corrections: seq<Recorded<Correction>>)
    ensures var s := Effective(base, corrections).subject;
            && s.core == base.core
            && PathsStay(base.artifacts, s.artifacts)
            && (DistinctPaths(base.artifacts) ==> DistinctPaths(s.artifacts))
  {
    hide ChangedAll;
    if |corrections| > 0 {
      var front := corrections[..|corrections| - 1];
      CorrectionsOnlyChangeIdentities(base, front);
      if Last(corrections).Valid? {
        ChangesKeepPaths(Effective(base, front).subject.artifacts, Last(corrections).value.changedArtifacts);
      }
    }
  }

  function DigestAt(artifacts: seq<Artifact>, path: string): Option<string> {
    var i := FirstAt(artifacts, path);
    if i < |artifacts| then Some(artifacts[i].digest) else None
  }

  function LastGiven(changed: seq<Artifact>, path: string): Option<string> {
    if |changed| == 0 then None
    else if Last(changed).path == path then Some(Last(changed).digest)
    else LastGiven(changed[..|changed| - 1], path)
  }

  lemma OneChange(artifacts: seq<Artifact>, a: Artifact, path: string)
    ensures DigestAt(Changed(artifacts, a), path)
         == if a.path == path then Some(a.digest) else DigestAt(artifacts, path)
  {
    var before, after := FirstAt(artifacts, path), FirstAt(Changed(artifacts, a), path);
    var out := Changed(artifacts, a);
    assert before < |artifacts| ==> out[before].path == path;
    assert forall j :: 0 <= j < before ==> out[j].path == artifacts[j].path;
    if before < |artifacts| {
      assert after == before;
    } else if a.path == path {
      assert out[|artifacts|] == a;
    }
  }

  /** The changed claims are those of the binding corrections, in record order. */
  lemma {:induction false} ChangedClaimsExactly(base: Subject, corrections: seq<Recorded<Correction>>)
    ensures Effective(base, []).changedClaims == []
    ensures corrections != [] ==>
              var before := Effective(base, corrections[..|corrections| - 1]);
              Effective(base, corrections).changedClaims ==
              before.changedClaims
              + (if Last(corrections).Valid? && Last(corrections).value.subject == before.subject
                 then Last(corrections).value.changedClaims else [])
  {
    hide Corrected;
  }

  /** The result of a binding correction is the one it gives, or the one before; the core never changes. */
  lemma {:induction false} ResultExactly(base: Subject, corrections: seq<Recorded<Correction>>)
    ensures Effective(base, corrections).subject.core == base.core
    ensures corrections != [] ==>
              var before := Effective(base, corrections[..|corrections| - 1]).subject;
              Effective(base, corrections).subject.result ==
              match Last(corrections)
              case Unread => before.result
              case Valid(c) => if c.subject == before && c.correctedResult.Some? then c.correctedResult.value else before.result
  {
    hide ChangedAll;
    if corrections != [] {
      ResultExactly(base, corrections[..|corrections| - 1]);
    }
  }

  /** After a list of changes, the identity at a path is the last one they gave it, or the one it had. */
  lemma {:induction false} LastChangeWins(artifacts: seq<Artifact>, changed: seq<Artifact>, path: string)
    ensures DigestAt(ChangedAll(artifacts, changed), path)
         == if LastGiven(changed, path).Some? then LastGiven(changed, path) else DigestAt(artifacts, path)
  {
    hide Changed, DigestAt;
    if |changed| > 0 {
      LastChangeWins(artifacts, changed[..|changed| - 1], path);
      OneChange(ChangedAll(artifacts, changed[..|changed| - 1]), Last(changed), path);
    }
  }
}
