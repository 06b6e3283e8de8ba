/** Single facts of a record: what a review answers, which decision stands, which review binds, who accepts. */
module RecordFacts {
  import opened Prelude
  import opened Corrections
  import opened Acceptance
  import opened AcceptanceTheorems

  // ---- What a review says of a claim ----

  /** The first answer a review gives about a claim. */
  ghost predicate Answers(claims: seq<ClaimReview>, id: string, d: ClaimDisposition) {
    exists k: nat :: AnswersAt(claims, id, d, k)
  }

  predicate AnswersAt(claims: seq<ClaimReview>, id: string, d: ClaimDisposition, k: nat) {
    && k < |claims| && claims[k] == ClaimReview(id, d)
    && forall j :: 0 <= j < k ==> claims[j].claimId != id
  }

  predicate Silent(claims: seq<ClaimReview>, id: string) {
    forall k :: 0 <= k < |claims| ==> claims[k].claimId != id
  }

  lemma {:induction false} DispositionExactly(claims: seq<ClaimReview>, id: string, d: ClaimDisposition)
    ensures DispositionOf(claims, id) == Some(d) <==> Answers(claims, id, d)
    ensures DispositionOf(claims, id) == None <==> Silent(claims, id)
  {
    if |claims| > 0 {
      var tail := claims[1..];
      DispositionExactly(tail, id, d);
      if claims[0].claimId == id {
        assert claims[0].disposition == d ==> AnswersAt(claims, id, d, 0);
      } else {
        if k: nat :| AnswersAt(tail, id, d, k) {
          assert AnswersAt(claims, id, d, k + 1);
        }
        if k: nat :| AnswersAt(claims, id, d, k) {
          assert AnswersAt(tail, id, d, k - 1);
        }
      }
    }
  }

  // ---- The decision about a reference ----

  /** The last decision recorded for a reference. */
  ghost predicate Stands(evidence: seq<Evidence>, reference: string, d: Decision) {
    exists k: nat :: StandsAt(evidence, reference, d, k)
  }

  predicate StandsAt(evidence: seq<Evidence>, reference: string, d: Decision, k: nat) {
    && k < |evidence| && evidence[k] == Evidence(reference, d)
    && forall j :: k < j < |evidence| ==> evidence[j].reference != reference
  }

  predicate NeverDecided(evidence: seq<Evidence>, reference: string) {
    forall k :: 0 <= k < |evidence| ==> evidence[k].reference != reference
  }

  lemma {:induction false} DecisionExactly(evidence: seq<Evidence>, reference: string, d: Decision)
    ensures DecisionOf(evidence, reference) == Some(d) <==> Stands(evidence, reference, d)
    ensures DecisionOf(evidence, reference) == None <==> NeverDecided(evidence, reference)
  {
    if |evidence| > 0 {
      var front, n := evidence[..|evidence| - 1], |evidence| - 1;
      DecisionExactly(front, reference, d);
      if evidence[n].reference == reference {
        assert evidence[n].decision == d ==> StandsAt(evidence, reference, d, n);
      } else {
        if k: nat :| StandsAt(front, reference, d, k) {
          assert StandsAt(evidence, reference, d, k);
        }
        if k: nat :| StandsAt(evidence, reference, d, k) {
          assert StandsAt(front, reference, d, k);
        }
      }
    }
  }

  // ---- Time ----

  /** `a` and `b` agree up to `k`, where `a` ends or holds the smaller character. */
  predicate SortsBeforeAt(a: string, b: string, k: nat) {
    k <= |a| && k < |b| && (forall j :: 0 <= j < k ==> a[j] == b[j]) && (k == |a| || a[k] < b[k])
  }

  ghost predicate SortsBefore(a: string, b: string) {
    exists k: nat :: SortsBeforeAt(a, b, k)
  }

  lemma {:induction false} BeforeExactly(a: string, b: string)
    ensures Before(a, b) <==> SortsBefore(a, b)
  {
    if a == "" || b == "" || a[0] != b[0] {
      assert Before(a, b) ==> SortsBeforeAt(a, b, 0);
    } else {
      BeforeExactly(a[1..], b[1..]);
      if k: nat :| SortsBeforeAt(a[1..], b[1..], k) {
        forall j | 0 <= j < k + 1 ensures a[j] == b[j] {
          assert j > 0 ==> a[1..][j - 1] == b[1..][j - 1];
        }
        assert SortsBeforeAt(a, b, k + 1);
      }
      if k: nat :| SortsBeforeAt(a, b, k) {
        assert SortsBeforeAt(a[1..], b[1..], k - 1);
      }
    }
  }

  // ---- Which reviews bind ----

  /** The reviewer is the provider or the adapter that produced the result. */
  predicate ByProducerOf(i: Inputs, r: Review) {
    i.result.Ok? && r.identity in {i.result.value.provider, i.result.value.adapter}
  }

  ghost predicate GrantedAt(policy: Policy, r: Review, now: string, k: nat) {
    && k < |policy.reviewers| && OnlyGrant(policy.reviewers, r.identity, k)
    && policy.reviewers[k].authority == r.authority
    && (policy.reviewers[k].notAfter.Some? ==> !SortsBefore(policy.reviewers[k].notAfter.value, now))
  }

  /** Exactly one grant names the reviewer; it is of the authority claimed and did not end before now. */
  ghost predicate Granted(policy: Policy, r: Review, now: string) {
    exists k: nat :: GrantedAt(policy, r, now, k)
  }

  lemma GrantedExactly(policy: Policy, r: Review, now: string)
    ensures EligibleGrant(policy, r, now).Some? <==> Granted(policy, r, now)
  {
    hide Before, SortsBefore, EligibleGrant;
    EligibleExactly(policy, r, now);
    forall k | 0 <= k < |policy.reviewers| && policy.reviewers[k].notAfter.Some?
      ensures Before(policy.reviewers[k].notAfter.value, now) <==> SortsBefore(policy.reviewers[k].notAfter.value, now)
    {
      BeforeExactly(policy.reviewers[k].notAfter.value, now);
    }
    if HasOneGrant(policy, r, now) {
      var k :| 0 <= k < |policy.reviewers| && OnlyGrant(policy.reviewers, r.identity, k)
               && Serves(policy.reviewers[k], r, now);
      assert GrantedAt(policy, r, now, k);
    }
    if k: nat :| GrantedAt(policy, r, now, k) {
      assert Serves(policy.reviewers[k], r, now);
    }
  }

  /** A review of the subject judged, by a reviewer who did not produce it and whom one current grant names. */
  ghost predicate BindsResult(i: Inputs, r: Review) {
    SubjectOf(i) == Some(r.subject) && !ByProducerOf(i, r) && i.policy.Some? && Granted(i.policy.value, r, i.now)
  }

  lemma StandingExactly(i: Inputs, r: Recorded<Review>)
    ensures StandingOf(i, r).ReviewUnreadable? <==> r.Unread?
    ensures r.Valid? ==>
              && (StandingOf(i, r).Elsewhere? <==> SubjectOf(i) != Some(r.value.subject))
              && (StandingOf(i, r).ByProducer? <==> SubjectOf(i) == Some(r.value.subject) && ByProducerOf(i, r.value))
              && (StandingOf(i, r).Bound? <==> BindsResult(i, r.value))
  {
    hide SubjectOf, EligibleGrant, Granted;
    if r.Valid? && i.policy.Some? {
      GrantedExactly(i.policy.value, r.value, i.now);
    }
  }

  /** The bound reviews are those recorded that bind, as often as they are recorded. */
  lemma BoundExactly(i: Inputs, r: Review)
    ensures multiset(BoundReviews(i))[r] == if BindsResult(i, r) then multiset(i.reviews)[Valid(r)] else 0
  {
    hide BoundAmong, StandingOf, BindsResult;
    BoundMultiset(i, i.reviews, r);
    StandingExactly(i, Valid(r));
  }

  // ---- Who accepts ----

  /** The places of the reviews that recommend acceptance and request nothing. */
  function AcceptingAt(bound: seq<Review>): set<nat> {
    set k: nat | k < |bound| && bound[k].recommendation == Accept && bound[k].requested == []
  }

  lemma AcceptingGrows(front: seq<Review>, r: Review)
    ensures |AcceptingAt(front + [r])| == |AcceptingAt(front)| + (if Accepts(r) then 1 else 0)
  {
    var n, bound := |front|, front + [r];
    assert forall k: nat :: k < n ==> bound[k] == front[k];
    assert AcceptingAt(bound) == AcceptingAt(front) + (if Accepts(r) then {n} else {});
  }

  lemma {:induction false} AcceptingExactly(bound: seq<Review>)
    ensures Accepting(bound) == |AcceptingAt(bound)|
  {
    hide Accepts, Filter;
    if |bound| > 0 {
      var n, p := |bound| - 1, (r: Review) => Accepts(r);
      AcceptingExactly(bound[..n]);
      assert bound == bound[..n] + [bound[n]];
      FilterAppend(p, bound[..n], [bound[n]]);
      OneFiltered(p, bound[n]);
      AcceptingGrows(bound[..n], bound[n]);
    }
  }

  lemma OneFiltered(p: Review -> bool, r: Review)
    ensures |Filter(p, [r])| == if p(r) then 1 else 0
  {
    assert [r][1..] == [];
  }

  // ---- Citations claimed ----

  /** The citations of several claims are the citations of each. */
  lemma {:induction false} ClaimedIsASum(a: seq<Claim>, b: seq<Claim>)
    ensures Claimed(a + b) == Claimed(a) + Claimed(b)
    ensures |b| == 1 ==> Claimed(b) == b[0].citations
  {
    if |b| == 0 {
      assert a + b == a;
    } else {
      ClaimedIsASum(a, b[..|b| - 1]);
      assert (a + b)[..|a + b| - 1] == a + b[..|b| - 1];
    }
  }

  // ---- The claims and references judged ----

  /** The claims judged are the result's own; those changed are what its corrections in effect changed. */
  lemma ClaimsExactly(i: Inputs)
    ensures i.result.Ok? ==> ClaimsOf(i) == i.result.value.claims
    ensures i.result.Err? ==> ClaimsOf(i) == []
    ensures forall base :: BaseSubject(i) == Some(base) ==>
              && SubjectOf(i) == Some(Effective(base, i.corrections).subject)
              && ChangedClaims(i) == Effective(base, i.corrections).changedClaims
    ensures BaseSubject(i).None? ==> SubjectOf(i).None? && ChangedClaims(i) == []
  {
    hide BaseSubject, Effective;
  }

  /** There is a subject to judge when result, custody, candidate and policy are all recorded, and it is made of them. */
  lemma SubjectExactly(i: Inputs)
    ensures BaseSubject(i).Some? <==> i.result.Ok? && i.custody.Some? && i.candidate.Some? && i.policy.Some?
    ensures BaseSubject(i).Some? ==>
              var s := BaseSubject(i).value;
              && s.core.repository == i.repository && s.core.trustedBase == i.trustedBase
              && s.core.runId == i.task.runId && s.core.attempt == i.task.attempt
              && Some(s.core.candidate) == i.candidate && s.core.contextManifest == i.task.contextManifest
              && s.core.task == i.task.digest && s.core.resultSchema == i.task.resultSchema
              && s.core.policy == i.policy.value.digest && Some(s.result) == i.custody
              && s.artifacts == i.result.value.artifacts
              && s.core.evidence == References(i.result.value.claims)
  {
    hide References;
  }

  lemma {:induction false} AddEachExactly(seen: seq<string>, more: seq<string>)
    requires Unrepeated(seen)
    ensures Unrepeated(AddEach(seen, more)) && seen <= AddEach(seen, more)
    ensures more != [] ==> AddEach(seen, more[..|more| - 1]) <= AddEach(seen, more)
    decreases |more|
  {
    if |more| > 0 {
      AddEachExactly(seen, more[..|more| - 1]);
    }
  }

  predicate Unrepeated(s: seq<string>) {
    forall i, j :: 0 <= i < j < |s| ==> s[i] != s[j]
  }

  /** Every cited reference stands once, behind those that earlier claims cite. */
  lemma {:induction false} ReferencesExactly(claims: seq<Claim>)
    ensures Unrepeated(References(claims))
    ensures forall x :: x in References(claims) <==> Cites(claims, x)
    ensures claims != [] ==> References(claims[..|claims| - 1]) <= References(claims)
  {
    hide AddEach, Cites;
    if claims != [] {
      ReferencesExactly(claims[..|claims| - 1]);
      AddEachExactly(References(claims[..|claims| - 1]), Last(claims).evidence);
    }
    forall x ensures x in References(claims) <==> Cites(claims, x) {
      ReferencesAreCited(claims, x);
    }
  }
}
