/** What `accepted` and `rejected` mean, whatever the reviews and their order. */
module AcceptanceTheorems {
  import opened Prelude
  import opened Corrections
  import opened DimensionStates
  import opened Acceptance
  import Anchors

  // ---- Artifacts ----

  predicate SoundBytes(store: Store, a: Artifact, max: nat) {
    var bytes := store.retained(a.digest);
    && bytes.Some? && store.digest(bytes.value) == a.digest && |bytes.value| <= max
    && store.lines(bytes.value).Some?
    && Anchors.MissingOf(store.spelling, store.lines(bytes.value).value) == []
  }

  /** The artifacts are one for one with the distinct expected paths, each with sound retained bytes. */
  ghost predicate ArtifactsMatch(store: Store, artifacts: seq<Artifact>, max: nat, expected: seq<string>) {
    && DistinctPaths(artifacts)
    && (forall k :: 0 <= k < |artifacts| ==> artifacts[k].path in expected)
    && (forall p :: p in expected ==> exists k :: 0 <= k < |artifacts| && artifacts[k].path == p)
    && forall k :: 0 <= k < |artifacts| ==> SoundBytes(store, artifacts[k], max)
  }

  lemma BytesPass(store: Store, a: Artifact, max: nat)
    ensures BytesState(store, a, max) == Pass <==> SoundBytes(store, a, max)
  {
  }

  lemma {:induction false} OneAtPath(artifacts: seq<Artifact>, path: string)
    ensures |AtPath(artifacts, path)| == 1 <==>
              exists k :: 0 <= k < |artifacts| && OnlyAt(artifacts, path, k)
    ensures |AtPath(artifacts, path)| == 0 <==> forall k :: 0 <= k < |artifacts| ==> artifacts[k].path != path
    ensures |AtPath(artifacts, path)| == 1 ==> AtPath(artifacts, path)[0] in artifacts && AtPath(artifacts, path)[0].path == path
  {
    if |artifacts| > 0 {
      var tail := artifacts[1..];
      OneAtPath(tail, path);
      assert forall k :: 0 <= k < |tail| ==> artifacts[k + 1] == tail[k];
      if artifacts[0].path == path {
        assert |AtPath(artifacts, path)| == 1 + |AtPath(tail, path)|;
        if |AtPath(tail, path)| == 0 {
          assert OnlyAt(artifacts, path, 0);
        }
      } else {
        assert AtPath(artifacts, path) == AtPath(tail, path);
        if k :| 0 <= k < |tail| && OnlyAt(tail, path, k) {
          assert OnlyAt(artifacts, path, k + 1);
        }
        if k :| 0 <= k < |artifacts| && OnlyAt(artifacts, path, k) {
          assert OnlyAt(tail, path, k - 1);
        }
      }
    }
  }

  ghost predicate OnlyAt(artifacts: seq<Artifact>, path: string, k: nat)
    requires k < |artifacts|
  {
    artifacts[k].path == path && forall j :: 0 <= j < |artifacts| && j != k ==> artifacts[j].path != path
  }

  ghost predicate SoundAt(store: Store, artifacts: seq<Artifact>, max: nat, path: string) {
    exists k :: 0 <= k < |artifacts| && OnlyAt(artifacts, path, k) && SoundBytes(store, artifacts[k], max)
  }

  lemma ExpectedPass(store: Store, artifacts: seq<Artifact>, max: nat, path: string)
    ensures ExpectedState(store, artifacts, max, path) == Pass <==> SoundAt(store, artifacts, max, path)
  {
    hide SoundBytes, BytesState, AtPath;
    OneAtPath(artifacts, path);
    var found := AtPath(artifacts, path);
    if |found| == 1 {
      BytesPass(store, found[0], max);
      var k :| 0 <= k < |artifacts| && OnlyAt(artifacts, path, k);
      assert artifacts[k] == found[0];
    }
  }

  lemma MatchFromEach(store: Store, artifacts: seq<Artifact>, max: nat, expected: seq<string>)
    ensures ArtifactsMatch(store, artifacts, max, expected) <==>
              && (forall k :: 0 <= k < |artifacts| ==> artifacts[k].path in expected)
              && forall e :: 0 <= e < |expected| ==> SoundAt(store, artifacts, max, expected[e])
  {
    hide SoundBytes;
    if ArtifactsMatch(store, artifacts, max, expected) {
      forall e | 0 <= e < |expected| ensures SoundAt(store, artifacts, max, expected[e]) {
        assert expected[e] in expected;
        var k :| 0 <= k < |artifacts| && artifacts[k].path == expected[e];
        assert OnlyAt(artifacts, expected[e], k);
      }
    }
    if (forall k :: 0 <= k < |artifacts| ==> artifacts[k].path in expected)
       && forall e :: 0 <= e < |expected| ==> SoundAt(store, artifacts, max, expected[e])
    {
      forall k | 0 <= k < |artifacts|
        ensures OnlyAt(artifacts, artifacts[k].path, k) && SoundBytes(store, artifacts[k], max)
      {
        var e :| 0 <= e < |expected| && expected[e] == artifacts[k].path;
        assert SoundAt(store, artifacts, max, expected[e]);
      }
      forall j, k | 0 <= j < k < |artifacts| ensures artifacts[j].path != artifacts[k].path {
        assert OnlyAt(artifacts, artifacts[j].path, j);
      }
      forall p | p in expected ensures exists k :: 0 <= k < |artifacts| && artifacts[k].path == p {
        var e :| 0 <= e < |expected| && expected[e] == p;
        assert SoundAt(store, artifacts, max, expected[e]);
      }
    }
  }

  lemma ExtrasPass(artifacts: seq<Artifact>, expected: seq<string>)
    ensures CombineAll(ExtraStates(artifacts, expected)) == Pass
       <==> forall k :: 0 <= k < |artifacts| ==> artifacts[k].path in expected
  {
    hide CombineAll;
    var states := ExtraStates(artifacts, expected);
    PassMeansAllPass(states);
    assert forall k :: 0 <= k < |artifacts| ==> (states[k] == Pass <==> artifacts[k].path in expected);
  }

  lemma ExpectedAllPass(store: Store, artifacts: seq<Artifact>, max: nat, expected: seq<string>)
    ensures CombineAll(ExpectedStates(store, artifacts, max, expected)) == Pass
       <==> forall e :: 0 <= e < |expected| ==> SoundAt(store, artifacts, max, expected[e])
  {
    hide CombineAll, SoundAt, ExpectedState;
    var states := ExpectedStates(store, artifacts, max, expected);
    PassMeansAllPass(states);
    forall e | 0 <= e < |expected| ensures states[e] == Pass <==> SoundAt(store, artifacts, max, expected[e]) {
      ExpectedPass(store, artifacts, max, expected[e]);
    }
  }

  lemma CombinePass(a: State, b: State)
    ensures Combine(a, b) == Pass <==> a == Pass && b == Pass
    ensures Combine(a, b) == Fail <==> a == Fail || b == Fail
  {
  }

  lemma ArtifactsPass(store: Store, artifacts: seq<Artifact>, max: nat, expected: seq<string>)
    ensures ArtifactState(store, artifacts, max, expected) == Pass <==> ArtifactsMatch(store, artifacts, max, expected)
  {
    hide CombineAll, SoundAt, ArtifactsMatch, Combine;
    ExtrasPass(artifacts, expected);
    ExpectedAllPass(store, artifacts, max, expected);
    MatchFromEach(store, artifacts, max, expected);
    CombinePass(CombineAll(ExpectedStates(store, artifacts, max, expected)),
                CombineAll(ExtraStates(artifacts, expected)));
  }

  ghost predicate AllAcceptable(bound: seq<Review>) {
    forall k :: 0 <= k < |bound| ==> ArtifactsLiked(bound[k])
  }

  ghost predicate ArtifactsLiked(r: Review) {
    forall m :: 0 <= m < |r.artifacts| ==> r.artifacts[m] == Acceptable
  }

  lemma LikedPass(r: Review)
    ensures CombineAll(DispositionStates(r)) == Pass <==> ArtifactsLiked(r)
  {
    hide CombineAll;
    PassMeansAllPass(DispositionStates(r));
    assert forall m :: 0 <= m < |r.artifacts| ==> (DispositionStates(r)[m] == Pass <==> r.artifacts[m] == Acceptable);
  }

  lemma ReviewedPass(bound: seq<Review>)
    ensures CombineAll(ReviewedStates(bound)) == Pass <==> AllAcceptable(bound)
  {
    hide CombineAll, ArtifactsLiked, DispositionStates;
    PassMeansAllPass(ReviewedStates(bound));
    forall k | 0 <= k < |bound| ensures ReviewedStates(bound)[k] == Pass <==> ArtifactsLiked(bound[k]) {
      LikedPass(bound[k]);
    }
  }

  // ---- Claims ----

  ghost predicate Supports(i: Inputs, r: Review) {
    && (forall k :: 0 <= k < |ClaimsOf(i)| ==> DispositionOf(r.claims, ClaimsOf(i)[k].id) == Some(Supported))
    && forall k :: 0 <= k < |ChangedClaims(i)| ==> DispositionOf(r.claims, ChangedClaims(i)[k]).Some?
  }

  lemma ReviewPass(i: Inputs, r: Review)
    ensures ReviewState(i, r) == Pass <==> Supports(i, r)
  {
    hide CombineAll, DispositionOf, ChangedClaims, Combine;
    var claims, changed := ClaimStates(r, ClaimsOf(i)), ChangedStates(r, ChangedClaims(i));
    PassMeansAllPass(claims);
    PassMeansAllPass(changed);
    CombinePass(CombineAll(claims), CombineAll(changed));
    assert forall k :: 0 <= k < |claims| ==>
      (claims[k] == Pass <==> DispositionOf(r.claims, ClaimsOf(i)[k].id) == Some(Supported));
    assert forall k :: 0 <= k < |changed| ==>
      (changed[k] == Pass <==> DispositionOf(r.claims, ChangedClaims(i)[k]).Some?);
  }

  ghost predicate AllSupport(i: Inputs) {
    && BoundReviews(i) != []
    && forall k :: 0 <= k < |BoundReviews(i)| ==> Supports(i, BoundReviews(i)[k])
  }

  lemma SemanticPass(i: Inputs)
    ensures SemanticState(i) == Pass <==> AllSupport(i)
  {
    hide CombineAll, Supports, BoundReviews, ReviewState;
    var bound := BoundReviews(i);
    PassMeansAllPass(ReviewStates(i, bound));
    forall k | 0 <= k < |bound| ensures ReviewStates(i, bound)[k] == Pass <==> Supports(i, bound[k]) {
      ReviewPass(i, bound[k]);
    }
  }

  // ---- Citations, evidence, delivery ----

  ghost predicate CitationsResolve(i: Inputs) {
    match i.context
    case None => Claimed(ClaimsOf(i)) == 0
    case Some(c) =>
      |c.citations| == Claimed(ClaimsOf(i)) && forall k :: 0 <= k < |c.citations| ==> c.citations[k] == Resolved
  }

  lemma CitationsPass(i: Inputs)
    ensures CitationResolution(i) == Pass <==> CitationsResolve(i)
  {
    hide CombineAll, Claimed;
    if i.context.Some? {
      var c := i.context.value.citations;
      PassMeansAllPass(CitationStates(c));
      assert forall k :: 0 <= k < |c| ==> (CitationStates(c)[k] == Pass <==> c[k] == Resolved);
    }
  }

  ghost predicate Cites(claims: seq<Claim>, reference: string) {
    exists k :: 0 <= k < |claims| && reference in claims[k].evidence
  }

  lemma {:induction false} ReferencesAreCited(claims: seq<Claim>, reference: string)
    ensures reference in References(claims) <==> Cites(claims, reference)
  {
    if |claims| > 0 {
      var front := claims[..|claims| - 1];
      ReferencesAreCited(front, reference);
      if reference in Last(claims).evidence {
        assert reference in claims[|claims| - 1].evidence;
      } else if k :| 0 <= k < |claims| && reference in claims[k].evidence {
        assert front[k] == claims[k];
      }
    }
  }

  /** Every reference a claim cites is admitted by the last decision recorded for it. */
  ghost predicate EvidenceAdmits(i: Inputs) {
    forall x :: Cites(ClaimsOf(i), x) ==> i.context.Some? && DecisionOf(i.context.value.evidence, x) == Some(Admit)
  }

  lemma ReferencePass(context: Option<Context>, x: string)
    ensures ReferenceState(context, x) == Pass
       <==> context.Some? && DecisionOf(context.value.evidence, x) == Some(Admit)
  {
    hide DecisionOf;
  }

  lemma EvidencePass(i: Inputs)
    ensures EvidenceAdmission(i) == Pass <==> EvidenceAdmits(i)
  {
    hide CombineAll, ReferenceState, References, Cites, DecisionOf;
    var refs := References(ClaimsOf(i));
    PassMeansAllPass(ReferenceStates(i.context, refs));
    forall x ensures x in refs <==> Cites(ClaimsOf(i), x) {
      ReferencesAreCited(ClaimsOf(i), x);
    }
    forall x
      ensures ReferenceState(i.context, x) == Pass
         <==> i.context.Some? && DecisionOf(i.context.value.evidence, x) == Some(Admit)
    {
      ReferencePass(i.context, x);
    }
    EachInSeq(refs, ReferenceStates(i.context, refs), i.context);
  }

  lemma EachInSeq(refs: seq<string>, states: seq<State>, context: Option<Context>)
    requires states == ReferenceStates(context, refs)
    ensures (forall k :: 0 <= k < |states| ==> states[k] == Pass)
       <==> forall x :: x in refs ==> ReferenceState(context, x) == Pass
  {
    hide ReferenceState;
    assert forall k :: 0 <= k < |refs| ==> states[k] == ReferenceState(context, refs[k]);
  }

  // ---- Authority ----

  ghost predicate StandsWell(i: Inputs, r: Recorded<Review>) {
    StandingOf(i, r).Bound? || StandingOf(i, r).Elsewhere?
  }

  ghost predicate AuthorityHolds(i: Inputs) {
    && (forall k :: 0 <= k < |i.reviews| ==> StandsWell(i, i.reviews[k]))
    && i.policy.Some? && Narrowed(Accepting(BoundReviews(i))) >= i.policy.value.quorum
  }

  lemma AuthorityPass(i: Inputs)
    ensures AuthorityState(i) == Pass <==> AuthorityHolds(i)
  {
    hide CombineAll, StandingOf, Narrowed, Accepting, BoundReviews;
    PassMeansAllPass(StandingStates(i));
    assert forall k :: 0 <= k < |i.reviews| ==>
      (StandingStates(i)[k] == Pass <==> StandsWell(i, i.reviews[k]));
  }

  // ---- Accepted, exactly ----

  ghost predicate MeetsAll(i: Inputs, store: Store) {
    && SubjectOf(i).Some? && i.policy.Some? && i.result.Ok?
    && i.policy.value.transport.Optional?
    && i.context.Some? && i.context.value.manifest == i.task.contextManifest
    && i.deliveryEligible == Some(true) && i.context.value.findings == []
    && CitationsResolve(i) && EvidenceAdmits(i)
    && (i.task.semantic.Required? ==> AllSupport(i))
    && ArtifactsMatch(store, SubjectOf(i).value.artifacts, i.policy.value.maxBytes, i.task.expected)
    && AllAcceptable(BoundReviews(i))
    && i.context.value.freshness.PacketsFresh? && i.manifest.ManifestFresh?
    && AuthorityHolds(i)
    && i.changedPaths.Some? && !Applied(i.task.expected, i.changedPaths.value)
  }

  lemma ValidationPass(i: Inputs, store: Store)
    ensures ArtifactValidation(i, store) == Pass <==>
              && SubjectOf(i).Some? && i.policy.Some?
              && ArtifactsMatch(store, SubjectOf(i).value.artifacts, i.policy.value.maxBytes, i.task.expected)
              && AllAcceptable(BoundReviews(i))
  {
    hide ArtifactState, CombineAll, ArtifactsMatch, BoundReviews, SubjectOf, AllAcceptable, Combine;
    if SubjectOf(i).Some? && i.policy.Some? {
      var artifacts, max, expected := SubjectOf(i).value.artifacts, i.policy.value.maxBytes, i.task.expected;
      ArtifactsPass(store, artifacts, max, expected);
      ReviewedPass(BoundReviews(i));
      CombinePass(ArtifactState(store, artifacts, max, expected), CombineAll(ReviewedStates(BoundReviews(i))));
    }
  }

  lemma DeliveryPass(i: Inputs)
    ensures ObservedDelivery(i) == Pass <==>
              i.deliveryEligible == Some(true) && i.context.Some? && i.context.value.findings == []
  {
  }

  lemma FreshnessPass(i: Inputs)
    ensures Combine(PacketState(i.context), ManifestState(i.manifest)) == Pass <==>
              i.context.Some? && i.context.value.freshness.PacketsFresh? && i.manifest.ManifestFresh?
  {
  }

  ghost predicate AllRequiredPass(i: Inputs, store: Store) {
    forall d :: NeedOf(i, d).Required? ==> StateOf(i, store, d) == Pass
  }

  lemma RequiredPassMeans(i: Inputs, store: Store)
    requires SubjectOf(i).Some?
    ensures AllRequiredPass(i, store) <==> MeetsAll(i, store)
  {
    hide SubjectOf, CombineAll, Combine, CitationResolution, EvidenceAdmission, SemanticState, ArtifactValidation,
      AuthorityState, ObservedDelivery, PacketState, ManifestState, Applied, CitationsResolve, EvidenceAdmits,
      AllSupport, ArtifactsMatch, AllAcceptable, AuthorityHolds, BoundReviews;
    CitationsPass(i);
    EvidencePass(i);
    SemanticPass(i);
    ValidationPass(i, store);
    AuthorityPass(i);
    DeliveryPass(i);
    FreshnessPass(i);
    Unrolled(i, store);
  }

  lemma Unrolled(i: Inputs, store: Store)
    ensures AllRequiredPass(i, store) <==>
              && StateOf(i, store, TaskBinding) == Pass
              && StateOf(i, store, IntendedDelivery) == Pass
              && StateOf(i, store, AdapterObservedDelivery) == Pass
              && (i.policy.Some? && i.policy.value.transport.Optional?)
              && StateOf(i, store, SchemaValidation) == Pass
              && StateOf(i, store, CitationResolved) == Pass
              && StateOf(i, store, EvidenceAdmitted) == Pass
              && (i.task.semantic.Required? ==> StateOf(i, store, SemanticReview) == Pass)
              && StateOf(i, store, ArtifactsValid) == Pass
              && StateOf(i, store, ContextFreshness) == Pass
              && StateOf(i, store, AuthorityHeld) == Pass
              && StateOf(i, store, PublicationBoundary) == Pass
  {
    hide SubjectOf, CombineAll, Combine, CitationResolution, EvidenceAdmission, SemanticState, ArtifactValidation,
      AuthorityState, ObservedDelivery, PacketState, ManifestState, Applied;
    assert StateOf(i, store, ObservedTransport) == NotRecorded;
    assert NeedOf(i, SemanticReview) == i.task.semantic;
  }

  lemma PassedIsNotFailed(i: Inputs, store: Store)
    ensures OutcomeOf(i, store) == AcceptedDocumentation <==> AllRequiredPass(i, store) && SubjectOf(i).Some?
  {
    hide StateOf, NeedOf, SubjectOf;
    if AllRequiredPass(i, store) {
      forall d ensures !RequiredIs(i, store, d, Fail) {
      }
      forall d | NeedOf(i, d).Required? ensures RequiredIs(i, store, d, Pass) {
      }
    } else {
      var d :| NeedOf(i, d).Required? && StateOf(i, store, d) != Pass;
      assert !RequiredIs(i, store, d, Pass);
    }
  }

  /** A documentation is accepted exactly when all of `MeetsAll` holds, stated without any state or fold. */
  lemma AcceptedExactly(i: Inputs, store: Store)
    ensures OutcomeOf(i, store) == AcceptedDocumentation <==> MeetsAll(i, store)
  {
    hide OutcomeOf, MeetsAll, AllRequiredPass, SubjectOf;
    PassedIsNotFailed(i, store);
    if SubjectOf(i).Some? {
      RequiredPassMeans(i, store);
    }
    if MeetsAll(i, store) {
      MeetsAllHasSubject(i, store);
    }
  }

  lemma MeetsAllHasSubject(i: Inputs, store: Store)
    requires MeetsAll(i, store)
    ensures SubjectOf(i).Some?
  {
  }

  // ---- What acceptance tells ----

  /** Exactly one grant names the reviewer, and it grants the authority claimed and has not expired. */
  ghost predicate HasOneGrant(policy: Policy, r: Review, now: string) {
    exists k :: 0 <= k < |policy.reviewers| && OnlyGrant(policy.reviewers, r.identity, k)
                && Serves(policy.reviewers[k], r, now)
  }

  ghost predicate OnlyGrant(grants: seq<Grant>, identity: string, k: nat)
    requires k < |grants|
  {
    grants[k].identity == identity && forall j :: 0 <= j < |grants| && j != k ==> grants[j].identity != identity
  }

  lemma {:induction false} OneMatching(grants: seq<Grant>, identity: string)
    ensures |Matching(grants, identity)| == 0 <==> forall k :: 0 <= k < |grants| ==> grants[k].identity != identity
    ensures |Matching(grants, identity)| == 1 <==> exists k :: 0 <= k < |grants| && OnlyGrant(grants, identity, k)
  {
    if |grants| > 0 {
      var tail := grants[1..];
      OneMatching(tail, identity);
      assert forall k :: 0 <= k < |tail| ==> grants[k + 1] == tail[k];
      if grants[0].identity == identity {
        assert |Matching(grants, identity)| == 1 + |Matching(tail, identity)|;
        if |Matching(tail, identity)| == 0 {
          assert OnlyGrant(grants, identity, 0);
        }
      } else {
        assert Matching(grants, identity) == Matching(tail, identity);
        if k :| 0 <= k < |tail| && OnlyGrant(tail, identity, k) {
          assert OnlyGrant(grants, identity, k + 1);
        }
        if k :| 0 <= k < |grants| && OnlyGrant(grants, identity, k) {
          assert OnlyGrant(tail, identity, k - 1);
        }
      }
    }
  }

  /** A reviewer is eligible exactly when one grant, and no other, names them and serves now. */
  lemma EligibleExactly(policy: Policy, r: Review, now: string)
    ensures EligibleGrant(policy, r, now).Some? <==> HasOneGrant(policy, r, now)
  {
    hide Serves, Matching;
    var grants, matching := policy.reviewers, Matching(policy.reviewers, r.identity);
    OneMatching(grants, r.identity);
    if |matching| == 1 {
      MatchingIsIt(grants, r.identity);
    }
  }

  lemma MatchingIsIt(grants: seq<Grant>, identity: string)
    requires |Matching(grants, identity)| == 1
    ensures forall k :: 0 <= k < |grants| && OnlyGrant(grants, identity, k) ==> grants[k] == Matching(grants, identity)[0]
  {
    var g := Matching(grants, identity)[0];
    assert g in grants && g.identity == identity;
  }

  lemma NarrowedIsLess(n: nat, quorum: nat)
    requires Narrowed(n) >= quorum
    ensures n >= quorum
  {
  }

  /**
   An accepted documentation has at least `quorum` bound reviews that accept it with nothing
   requested; every review recorded is readable, and each one naming the subject comes from a
   reviewer who did not produce the result and whom exactly one current grant names.
   */
  lemma AcceptedMeansReviewed(i: Inputs, store: Store)
    requires OutcomeOf(i, store) == AcceptedDocumentation
    ensures SubjectOf(i).Some? && i.policy.Some?
    ensures Accepting(BoundReviews(i)) >= i.policy.value.quorum
    ensures forall k :: 0 <= k < |i.reviews| ==> i.reviews[k].Valid?
    ensures forall k :: 0 <= k < |i.reviews| && i.reviews[k].value.subject == SubjectOf(i).value ==>
              && !Produced(i, i.reviews[k].value)
              && HasOneGrant(i.policy.value, i.reviews[k].value, i.now)
  {
    hide OutcomeOf, HasOneGrant, EligibleGrant, Accepting, SubjectOf, BoundReviews, Narrowed;
    AcceptedExactly(i, store);
    NarrowedIsLess(Accepting(BoundReviews(i)), i.policy.value.quorum);
    forall k | 0 <= k < |i.reviews|
      ensures i.reviews[k].Valid?
      ensures i.reviews[k].value.subject == SubjectOf(i).value ==>
                && !Produced(i, i.reviews[k].value)
                && HasOneGrant(i.policy.value, i.reviews[k].value, i.now)
    {
      assert StandsWell(i, i.reviews[k]);
      if i.reviews[k].Valid? {
        EligibleExactly(i.policy.value, i.reviews[k].value, i.now);
      }
    }
  }

  /** A review can only name a subject when there is a policy, so its standing never lacks one. */
  lemma StandingNeverLacksAPolicy(i: Inputs, r: Recorded<Review>)
    ensures StandingOf(i, r) != NoPolicy
  {
    hide Effective, References, EligibleGrant;
  }

  // ---- Permuting and appending reviews ----

  lemma SameReader(i: Inputs, reviews: seq<Recorded<Review>>, r: Recorded<Review>)
    ensures StandingOf(i.(reviews := reviews), r) == StandingOf(i, r)
  {
    hide Effective, References, EligibleGrant;
  }

  lemma {:induction false} SameBound(i: Inputs, reviews: seq<Recorded<Review>>, some: seq<Recorded<Review>>)
    ensures BoundAmong(i.(reviews := reviews), some) == BoundAmong(i, some)
  {
    hide StandingOf;
    if |some| > 0 {
      SameBound(i, reviews, some[..|some| - 1]);
      SameReader(i, reviews, Last(some));
    }
  }

  lemma {:induction false} BoundMultiset(i: Inputs, reviews: seq<Recorded<Review>>, r: Review)
    ensures multiset(BoundAmong(i, reviews))[r]
         == if StandingOf(i, Valid(r)).Bound? then multiset(reviews)[Valid(r)] else 0
  {
    hide StandingOf;
    if |reviews| > 0 {
      var front, last := reviews[..|reviews| - 1], Last(reviews);
      BoundMultiset(i, front, r);
      assert reviews == front + [last];
      assert multiset(reviews)[Valid(r)] == multiset(front)[Valid(r)] + (if last == Valid(r) then 1 else 0);
      BoundIsReadable(i, last);
      if StandingOf(i, last).Bound? {
        assert BoundAmong(i, reviews) == BoundAmong(i, front) + [last.value];
      } else {
        assert BoundAmong(i, reviews) == BoundAmong(i, front);
      }
    }
  }

  lemma BoundIsReadable(i: Inputs, r: Recorded<Review>)
    ensures StandingOf(i, r).Bound? ==> r.Valid?
  {
    hide SubjectOf, EligibleGrant;
  }

  lemma SameReviewsBoundAlike(i: Inputs, a: seq<Recorded<Review>>, b: seq<Recorded<Review>>)
    requires multiset(a) == multiset(b)
    ensures multiset(BoundAmong(i, a)) == multiset(BoundAmong(i, b))
  {
    hide StandingOf;
    forall r ensures multiset(BoundAmong(i, a))[r] == multiset(BoundAmong(i, b))[r] {
      BoundMultiset(i, a, r);
      BoundMultiset(i, b, r);
    }
  }

  lemma {:induction false} FilterCount(p: Review -> bool, s: seq<Review>, r: Review)
    ensures multiset(Filter(p, s))[r] == if p(r) then multiset(s)[r] else 0
  {
    if |s| > 0 {
      FilterCount(p, s[1..], r);
      assert s == [s[0]] + s[1..];
    }
  }

  lemma AcceptingIsCounted(a: seq<Review>, b: seq<Review>)
    requires multiset(a) == multiset(b)
    ensures Accepting(a) == Accepting(b)
  {
    hide Accepts, Filter;
    var p := r => Accepts(r);
    forall r ensures multiset(Filter(p, a))[r] == multiset(Filter(p, b))[r] {
      FilterCount(p, a, r);
      FilterCount(p, b, r);
    }
    assert multiset(Filter(p, a)) == multiset(Filter(p, b));
    assert |multiset(Filter(p, a))| == |Filter(p, a)|;
    assert |multiset(Filter(p, b))| == |Filter(p, b)|;
  }

  lemma SameStandingStates(i: Inputs, reviews: seq<Recorded<Review>>)
    requires multiset(i.reviews) == multiset(reviews)
    ensures CombineAll(StandingStates(i.(reviews := reviews))) == CombineAll(StandingStates(i))
  {
    hide StandingOf, CombineAll, StandingState;
    var j := i.(reviews := reviews);
    var a, b := StandingStates(i), StandingStates(j);
    forall s ensures s in a <==> s in b {
      if s in a {
        var k :| 0 <= k < |a| && a[k] == s;
        StateIsThere(i, reviews, i.reviews[k]);
      }
      if s in b {
        var k :| 0 <= k < |b| && b[k] == s;
        SameReader(i, reviews, reviews[k]);
        SameMembers(i.reviews, reviews, reviews[k]);
        var m :| 0 <= m < |i.reviews| && i.reviews[m] == reviews[k];
        assert a[m] == s;
      }
    }
    SameStatesCombineAlike(a, b);
  }

  lemma StateIsThere(i: Inputs, reviews: seq<Recorded<Review>>, r: Recorded<Review>)
    requires multiset(i.reviews) == multiset(reviews) && r in i.reviews
    ensures StandingState(StandingOf(i, r)) in StandingStates(i.(reviews := reviews))
  {
    hide StandingOf, StandingState;
    var j := i.(reviews := reviews);
    SameReader(i, reviews, r);
    SameMembers(i.reviews, reviews, r);
    var m :| 0 <= m < |reviews| && reviews[m] == r;
    assert StandingStates(j)[m] == StandingState(StandingOf(i, r));
  }

  lemma SameMappedStates(a: seq<Review>, b: seq<Review>, f: Review -> State)
    requires multiset(a) == multiset(b)
    ensures CombineAll(Mapped(a, f)) == CombineAll(Mapped(b, f))
  {
    hide CombineAll;
    forall s ensures s in Mapped(a, f) <==> s in Mapped(b, f) {
      if s in Mapped(a, f) {
        MappedHas(a, b, f, s);
      }
      if s in Mapped(b, f) {
        MappedHas(b, a, f, s);
      }
    }
    SameStatesCombineAlike(Mapped(a, f), Mapped(b, f));
  }

  function Mapped(s: seq<Review>, f: Review -> State): (r: seq<State>)
    ensures |r| == |s| && forall k :: 0 <= k < |s| ==> r[k] == f(s[k])
  {
    seq(|s|, k requires 0 <= k < |s| => f(s[k]))
  }

  lemma MappedHas(a: seq<Review>, b: seq<Review>, f: Review -> State, s: State)
    requires multiset(a) == multiset(b) && s in Mapped(a, f)
    ensures s in Mapped(b, f)
  {
    var k :| 0 <= k < |a| && Mapped(a, f)[k] == s;
    SameMembers(a, b, a[k]);
    var m :| 0 <= m < |b| && b[m] == a[k];
    assert Mapped(b, f)[m] == s;
  }

  lemma SameReviewState(i: Inputs, reviews: seq<Recorded<Review>>, r: Review)
    ensures ReviewState(i.(reviews := reviews), r) == ReviewState(i, r)
  {
    hide Effective, References, CombineAll, ClaimStates, ChangedStates;
  }

  lemma SameSemantics(i: Inputs, reviews: seq<Recorded<Review>>)
    requires multiset(i.reviews) == multiset(reviews)
    ensures SemanticState(i.(reviews := reviews)) == SemanticState(i)
  {
    hide CombineAll, ReviewState, BoundAmong;
    var j := i.(reviews := reviews);
    SameBound(i, reviews, reviews);
    SameReviewsBoundAlike(i, i.reviews, reviews);
    var a, b, f := BoundReviews(i), BoundReviews(j), r => ReviewState(i, r);
    forall k | 0 <= k < |b| ensures ReviewState(j, b[k]) == ReviewState(i, b[k]) {
      SameReviewState(i, reviews, b[k]);
    }
    assert ReviewStates(i, a) == Mapped(a, f);
    assert ReviewStates(j, b) == Mapped(b, f);
    SameMappedStates(a, b, f);
  }

  lemma SameReviewed(a: seq<Review>, b: seq<Review>)
    requires multiset(a) == multiset(b)
    ensures CombineAll(ReviewedStates(a)) == CombineAll(ReviewedStates(b))
  {
    hide CombineAll, DispositionStates;
    var f := r => CombineAll(DispositionStates(r));
    assert ReviewedStates(a) == Mapped(a, f);
    assert ReviewedStates(b) == Mapped(b, f);
    SameMappedStates(a, b, f);
  }

  lemma SameSubject(i: Inputs, reviews: seq<Recorded<Review>>)
    ensures SubjectOf(i.(reviews := reviews)) == SubjectOf(i)
  {
    hide Effective, References;
  }

  lemma SameValidation(i: Inputs, store: Store, reviews: seq<Recorded<Review>>)
    requires multiset(i.reviews) == multiset(reviews)
    ensures ArtifactValidation(i.(reviews := reviews), store) == ArtifactValidation(i, store)
  {
    hide CombineAll, BoundAmong, ArtifactState, ReviewedStates, SubjectOf, Combine;
    SameSubject(i, reviews);
    SameBound(i, reviews, reviews);
    SameReviewsBoundAlike(i, i.reviews, reviews);
    SameReviewed(BoundReviews(i), BoundReviews(i.(reviews := reviews)));
  }

  lemma SameAuthority(i: Inputs, reviews: seq<Recorded<Review>>)
    requires multiset(i.reviews) == multiset(reviews)
    ensures AuthorityState(i.(reviews := reviews)) == AuthorityState(i)
  {
    hide CombineAll, BoundAmong, StandingStates, Accepting, Narrowed;
    SameStandingStates(i, reviews);
    SameBound(i, reviews, reviews);
    SameReviewsBoundAlike(i, i.reviews, reviews);
    AcceptingIsCounted(BoundReviews(i), BoundReviews(i.(reviews := reviews)));
  }

  lemma SameState(i: Inputs, store: Store, reviews: seq<Recorded<Review>>, d: Dimension)
    requires multiset(i.reviews) == multiset(reviews)
    ensures StateOf(i.(reviews := reviews), store, d) == StateOf(i, store, d)
  {
    hide SubjectOf, CombineAll, Combine, CitationResolution, EvidenceAdmission, SemanticState,
      ArtifactValidation, AuthorityState, PacketState, ManifestState, Applied;
    SameSubject(i, reviews);
    match d
    case SemanticReview => SameSemantics(i, reviews);
    case ArtifactsValid => SameValidation(i, store, reviews);
    case AuthorityHeld => SameAuthority(i, reviews);
    case _ => SameCitations(i, reviews);
  }

  /** The order the reviews were recorded in changes no dimension and not the outcome. */
  lemma ReviewOrderDoesNotMatter(i: Inputs, store: Store, reviews: seq<Recorded<Review>>)
    requires multiset(i.reviews) == multiset(reviews)
    ensures forall d :: StateOf(i.(reviews := reviews), store, d) == StateOf(i, store, d)
    ensures OutcomeOf(i.(reviews := reviews), store) == OutcomeOf(i, store)
  {
    hide OutcomeOf, NeedOf, SubjectOf, StateOf;
    var j := i.(reviews := reviews);
    SameSubject(i, reviews);
    SameCitations(i, reviews);
    forall d ensures StateOf(j, store, d) == StateOf(i, store, d) {
      SameState(i, store, reviews, d);
    }
    SameOutcome(i, j, store);
  }

  lemma SameCitations(i: Inputs, reviews: seq<Recorded<Review>>)
    ensures CitationResolution(i.(reviews := reviews)) == CitationResolution(i)
    ensures EvidenceAdmission(i.(reviews := reviews)) == EvidenceAdmission(i)
    ensures forall d :: NeedOf(i.(reviews := reviews), d) == NeedOf(i, d)
  {
    hide CombineAll, Claimed, References;
  }

  lemma SameOutcome(i: Inputs, j: Inputs, store: Store)
    requires SubjectOf(j) == SubjectOf(i)
    requires forall d :: StateOf(j, store, d) == StateOf(i, store, d)
    requires forall d :: NeedOf(j, d) == NeedOf(i, d)
    ensures OutcomeOf(j, store) == OutcomeOf(i, store)
  {
    hide StateOf, NeedOf, SubjectOf;
    assert forall d, s :: RequiredIs(j, store, d, s) == RequiredIs(i, store, d, s);
  }

  // ---- Rejected stays rejected ----

  lemma FailSurvives(states: seq<State>, more: seq<State>)
    requires CombineAll(states) == Fail && states <= more
    ensures CombineAll(more) == Fail
  {
    hide CombineAll;
    FailMeansSomeFail(states);
    FailMeansSomeFail(more);
    var k :| 0 <= k < |states| && states[k] == Fail;
    assert more[k] == Fail;
  }

  lemma BoundGrows(i: Inputs, r: Recorded<Review>)
    ensures BoundReviews(i) <= BoundReviews(i.(reviews := i.reviews + [r]))
  {
    hide StandingOf;
    var more := i.reviews + [r];
    SameBound(i, more, more);
    assert more[..|more| - 1] == i.reviews;
  }

  lemma SemanticFailSurvives(i: Inputs, r: Recorded<Review>)
    requires SemanticState(i) == Fail
    ensures SemanticState(i.(reviews := i.reviews + [r])) == Fail
  {
    hide CombineAll, ReviewState, BoundAmong;
    var more := i.reviews + [r];
    var j := i.(reviews := more);
    BoundGrows(i, r);
    var a, b := BoundReviews(i), BoundReviews(j);
    forall k | 0 <= k < |a| ensures ReviewState(j, b[k]) == ReviewState(i, a[k]) {
      SameReviewState(i, more, a[k]);
    }
    FailSurvives(ReviewStates(i, a), ReviewStates(j, b));
  }

  lemma ValidationFailSurvives(i: Inputs, store: Store, r: Recorded<Review>)
    requires ArtifactValidation(i, store) == Fail
    ensures ArtifactValidation(i.(reviews := i.reviews + [r]), store) == Fail
  {
    hide CombineAll, BoundAmong, ArtifactState, SubjectOf, DispositionStates;
    var more := i.reviews + [r];
    SameSubject(i, more);
    BoundGrows(i, r);
    var a, b := ReviewedStates(BoundReviews(i)), ReviewedStates(BoundReviews(i.(reviews := more)));
    assert a <= b;
    if CombineAll(a) == Fail {
      FailSurvives(a, b);
    }
  }

  lemma AuthorityFailSurvives(i: Inputs, r: Recorded<Review>)
    requires AuthorityState(i) == Fail
    ensures AuthorityState(i.(reviews := i.reviews + [r])) == Fail
  {
    hide CombineAll, BoundAmong, Accepting, Narrowed, StandingOf;
    var more := i.reviews + [r];
    var a, b := StandingStates(i), StandingStates(i.(reviews := more));
    forall k | 0 <= k < |a| ensures b[k] == a[k] {
      SameReader(i, more, i.reviews[k]);
    }
    FailSurvives(a, b);
  }

  lemma EachFailSurvives(i: Inputs, store: Store, r: Recorded<Review>, d: Dimension)
    requires StateOf(i, store, d) == Fail
    ensures StateOf(i.(reviews := i.reviews + [r]), store, d) == Fail
  {
    hide SubjectOf, CombineAll, Combine, CitationResolution, EvidenceAdmission, SemanticState,
      ArtifactValidation, AuthorityState, PacketState, ManifestState, Applied;
    SameSubject(i, i.reviews + [r]);
    SameCitations(i, i.reviews + [r]);
    match d
    case SemanticReview => SemanticFailSurvives(i, r);
    case ArtifactsValid => ValidationFailSurvives(i, store, r);
    case AuthorityHeld => AuthorityFailSurvives(i, r);
    case _ =>
  }

  /** One more review, readable or not, never lifts a rejection. */
  lemma RejectedStaysRejected(i: Inputs, store: Store, r: Recorded<Review>)
    requires OutcomeOf(i, store) == RejectedDocumentation
    ensures OutcomeOf(i.(reviews := i.reviews + [r]), store) == RejectedDocumentation
  {
    hide StateOf, NeedOf, SubjectOf;
    var d :| RequiredIs(i, store, d, Fail);
    EachFailSurvives(i, store, r, d);
    SameCitations(i, i.reviews + [r]);
    assert RequiredIs(i.(reviews := i.reviews + [r]), store, d, Fail);
  }

  // ---- Corrections ----

  /** `j` differs from `i` in corrections alone, which come to the same subject and changed claims. */
  ghost predicate SameEffect(i: Inputs, j: Inputs) {
    j == i.(corrections := j.corrections) && SubjectOf(j) == SubjectOf(i) && ChangedClaims(j) == ChangedClaims(i)
  }

  lemma SameReviewsAfter(i: Inputs, j: Inputs)
    requires SameEffect(i, j)
    ensures BoundReviews(j) == BoundReviews(i) && StandingStates(j) == StandingStates(i)
  {
    hide SubjectOf, ChangedClaims, EligibleGrant, BoundAmong;
    SameBoundAfter(i, j, i.reviews);
  }

  lemma SameJudgments(i: Inputs, j: Inputs, store: Store)
    requires SameEffect(i, j)
    ensures SemanticState(j) == SemanticState(i) && AuthorityState(j) == AuthorityState(i)
    ensures ArtifactValidation(j, store) == ArtifactValidation(i, store)
  {
    hide SubjectOf, ChangedClaims, BoundReviews, StandingStates, CombineAll, Combine, ArtifactState, ReviewedStates,
      Accepting, ClaimStates, ChangedStates;
    SameReviewsAfter(i, j);
    var bound := BoundReviews(i);
    assert forall k :: 0 <= k < |bound| ==> ReviewState(j, bound[k]) == ReviewState(i, bound[k]);
    assert ReviewStates(j, bound) == ReviewStates(i, bound);
  }

  lemma SameStateAfter(i: Inputs, j: Inputs, store: Store, d: Dimension)
    requires SameEffect(i, j)
    ensures StateOf(j, store, d) == StateOf(i, store, d) && NeedOf(j, d) == NeedOf(i, d)
  {
    hide SubjectOf, ChangedClaims, SemanticState, AuthorityState, ArtifactValidation, CombineAll, Combine, Applied,
      References, Claimed;
    SameJudgments(i, j, store);
  }

  /** Striking a correction that binds nothing where it stands changes no dimension and not the outcome. */
  lemma InertCorrectionsDoNotMatter(i: Inputs, store: Store, a: seq<Recorded<Correction>>, c: Recorded<Correction>,
                                    b: seq<Recorded<Correction>>)
    requires i.corrections == a + [c] + b
    requires BaseSubject(i).Some? && c.Valid? ==> c.value.subject != Effective(BaseSubject(i).value, a).subject
    ensures var j := i.(corrections := a + b);
            && SubjectOf(j) == SubjectOf(i) && ChangedClaims(j) == ChangedClaims(i)
            && (forall d :: StateOf(j, store, d) == StateOf(i, store, d))
            && OutcomeOf(j, store) == OutcomeOf(i, store)
  {
    hide Effective, References, StateOf, NeedOf, OutcomeOf;
    var j := i.(corrections := a + b);
    if BaseSubject(i).Some? {
      UnboundCorrectionIsInert(BaseSubject(i).value, a, c, b);
    }
    forall d ensures StateOf(j, store, d) == StateOf(i, store, d) && NeedOf(j, d) == NeedOf(i, d) {
      SameStateAfter(i, j, store, d);
    }
    SameOutcome(i, j, store);
  }

  lemma {:induction false} SameBoundAfter(i: Inputs, j: Inputs, reviews: seq<Recorded<Review>>)
    requires SubjectOf(j) == SubjectOf(i) && j.result == i.result && j.policy == i.policy && j.now == i.now
    ensures BoundAmong(j, reviews) == BoundAmong(i, reviews)
  {
    hide SubjectOf, EligibleGrant;
    if |reviews| > 0 {
      SameBoundAfter(i, j, reviews[..|reviews| - 1]);
    }
  }
}
