/** The state of every dimension, and when a documentation is rejected, from facts of the record alone. */
module AcceptanceVerdict {
  import opened Prelude
  import opened Corrections
  import opened DimensionStates
  import opened Acceptance
  import opened AcceptanceTheorems
  import opened RecordFacts
  import Anchors

  // ---- The worst of what is found ----

  /** Fail before all; then what is not recorded, not readable, not supported, not known; then pass. */
  ghost function Worst(found: State -> bool): State {
    if found(Fail) then Fail
    else if found(NotRecorded) then NotRecorded
    else if found(Unreadable) then Unreadable
    else if found(Unsupported) then Unsupported
    else if found(Unknown) then Unknown
    else Pass
  }

  lemma WorstOfTwo(a: State -> bool, b: State -> bool, both: State -> bool)
    requires forall s :: s != Pass ==> (both(s) <==> a(s) || b(s))
    ensures Combine(Worst(a), Worst(b)) == Worst(both)
  {
  }

  lemma WorstOfOne(s: State, only: State -> bool)
    requires forall t :: t != Pass ==> (only(t) <==> t == s)
    ensures s == Worst(only)
  {
  }

  lemma SameWorst(a: State -> bool, b: State -> bool)
    requires forall s :: s != Pass ==> (a(s) <==> b(s))
    ensures Worst(a) == Worst(b)
  {
  }

  /** What combining finds is what any of the parts finds. */
  lemma {:induction false} WorstOfAll(states: seq<State>, each: seq<State -> bool>, any: State -> bool)
    requires |each| == |states| && forall k :: 0 <= k < |states| ==> states[k] == Worst(each[k])
    requires forall s :: s != Pass ==> (any(s) <==> exists k :: 0 <= k < |each| && each[k](s))
    ensures CombineAll(states) == Worst(any)
  {
    hide Combine, Worst;
    if |states| == 0 {
      NothingFound(any);
    } else {
      var n := |states| - 1;
      var front := (s: State) => exists k :: 0 <= k < n && each[k](s);
      assert forall k :: 0 <= k < n ==> each[..n][k] == each[k];
      WorstOfAll(states[..n], each[..n], front);
      WorstOfTwo(front, each[n], any);
    }
  }

  lemma NothingFound(any: State -> bool)
    requires forall s :: s != Pass ==> !any(s)
    ensures Worst(any) == Pass
  {
  }

  function One(s: State): State -> bool {
    t => t == s
  }

  lemma WorstOfStates(states: seq<State>, any: State -> bool)
    requires forall s :: s != Pass ==> (any(s) <==> s in states)
    ensures CombineAll(states) == Worst(any)
  {
    hide CombineAll, Worst;
    var each := seq(|states|, k requires 0 <= k < |states| => One(states[k]));
    forall k | 0 <= k < |states| ensures states[k] == Worst(each[k]) {
      WorstOfOne(states[k], each[k]);
    }
    WorstOfAll(states, each, any);
  }

  // ---- What each dimension finds ----

  ghost predicate CitationFinds(i: Inputs, s: State) {
    var claimed := Claimed(ClaimsOf(i));
    match i.context
    case None => s == NotRecorded && claimed != 0
    case Some(c) =>
      if |c.citations| != claimed then s == NotRecorded
      else
        match s
        case Fail => Missing in c.citations || DigestMismatch in c.citations || OutsidePacket in c.citations
        case Unsupported => CitationUnsupported in c.citations
        case Unreadable => CitationUnreadable in c.citations
        case NotRecorded => CitationNotRecorded in c.citations
        case _ => false
  }

  ghost predicate ReferenceFinds(context: Option<Context>, x: string, s: State) {
    match s
    case Fail => context.Some? && Stands(context.value.evidence, x, Refuse)
    case Unknown => context.Some? && Stands(context.value.evidence, x, Undecided)
    case NotRecorded => context.None? || NeverDecided(context.value.evidence, x)
    case _ => false
  }

  ghost predicate EvidenceFinds(i: Inputs, s: State) {
    exists x :: Cites(ClaimsOf(i), x) && ReferenceFinds(i.context, x, s)
  }

  /** What the first answer of a review says of one claim. */
  ghost predicate AnswerFinds(r: Review, id: string, s: State) {
    match s
    case Fail =>
      || Answers(r.claims, id, NotSupported) || Answers(r.claims, id, Contradicted)
      || Answers(r.claims, id, InsufficientGrade) || Answers(r.claims, id, NeedsCorrection)
    case NotRecorded => Answers(r.claims, id, NotReviewed) || Silent(r.claims, id)
    case _ => false
  }

  ghost predicate ClaimsFind(i: Inputs, r: Review, s: State) {
    exists k :: 0 <= k < |ClaimsOf(i)| && AnswerFinds(r, ClaimsOf(i)[k].id, s)
  }

  ghost predicate ChangedFind(i: Inputs, r: Review, s: State) {
    s == NotRecorded && exists k :: 0 <= k < |ChangedClaims(i)| && Silent(r.claims, ChangedClaims(i)[k])
  }

  ghost predicate SemanticFinds(i: Inputs, s: State) {
    || (s == NotRecorded && BoundReviews(i) == [])
    || exists k :: 0 <= k < |BoundReviews(i)| && ReviewFinds(i, BoundReviews(i)[k], s)
  }

  ghost predicate ReviewFinds(i: Inputs, r: Review, s: State) {
    ClaimsFind(i, r, s) || ChangedFind(i, r, s)
  }

  /** Retained bytes of another digest, too many, not text, or with a link to no heading. */
  predicate Unsound(store: Store, a: Artifact, max: nat) {
    var bytes := store.retained(a.digest);
    bytes.Some?
    && (|| store.digest(bytes.value) != a.digest || |bytes.value| > max || store.lines(bytes.value).None?
        || Anchors.MissingOf(store.spelling, store.lines(bytes.value).value) != [])
  }

  ghost predicate PathFinds(store: Store, artifacts: seq<Artifact>, max: nat, path: string, s: State) {
    match s
    case Fail =>
      forall k :: 0 <= k < |artifacts| && OnlyAt(artifacts, path, k) ==> Unsound(store, artifacts[k], max)
    case NotRecorded =>
      exists k :: 0 <= k < |artifacts| && OnlyAt(artifacts, path, k) && store.retained(artifacts[k].digest).None?
    case _ => false
  }

  ghost predicate ExpectedFinds(store: Store, artifacts: seq<Artifact>, max: nat, expected: seq<string>, s: State) {
    exists e :: 0 <= e < |expected| && PathFinds(store, artifacts, max, expected[e], s)
  }

  ghost predicate ExtraFinds(artifacts: seq<Artifact>, expected: seq<string>, s: State) {
    s == Fail && exists k :: 0 <= k < |artifacts| && artifacts[k].path !in expected
  }

  ghost predicate DispositionFinds(r: Review, s: State) {
    match s
    case Fail => ToCorrect in r.artifacts || ArtifactDisposition.Rejected in r.artifacts
    case NotRecorded => Unreviewed in r.artifacts
    case _ => false
  }

  ghost predicate ReviewedFinds(bound: seq<Review>, s: State) {
    exists k :: 0 <= k < |bound| && DispositionFinds(bound[k], s)
  }

  ghost predicate ArtifactsFind(i: Inputs, store: Store, s: State) {
    if SubjectOf(i).Some? && i.policy.Some? then
      var artifacts, max := SubjectOf(i).value.artifacts, i.policy.value.maxBytes;
      || ExpectedFinds(store, artifacts, max, i.task.expected, s)
      || ExtraFinds(artifacts, i.task.expected, s)
      || ReviewedFinds(BoundReviews(i), s)
    else s == NotRecorded
  }

  ghost predicate FreshnessFinds(i: Inputs, s: State) {
    match s
    case Fail =>
      || (i.context.Some? && i.context.value.freshness in {PacketsStale, PacketsIncomplete})
      || i.manifest in {ManifestStale, ManifestIncomplete}
    case Unknown => (i.context.Some? && i.context.value.freshness == PacketsUnverified) || i.manifest == ManifestUnverified
    case Unsupported => i.manifest == ManifestUnsupported
    case Unreadable => i.manifest == ManifestUnreadable
    case NotRecorded => i.context.None? || i.manifest == ManifestNotRecorded
    case Pass => false
  }

  /** What one recorded review says against the authority behind the judgment. */
  ghost predicate StandingFinds(i: Inputs, r: Recorded<Review>, s: State) {
    match s
    case Fail => r.Valid? && SubjectOf(i) == Some(r.value.subject) && ByProducerOf(i, r.value)
    case Unreadable => r.Unread?
    case Unknown =>
      r.Valid? && SubjectOf(i) == Some(r.value.subject) && !ByProducerOf(i, r.value) && !BindsResult(i, r.value)
    case _ => false
  }

  ghost predicate SomeStandingFinds(i: Inputs, s: State) {
    exists k :: 0 <= k < |i.reviews| && StandingFinds(i, i.reviews[k], s)
  }

  /** Fewer accepting reviews than the quorum, counted in 32 bits; or no policy that says how many. */
  ghost predicate QuorumMissed(i: Inputs) {
    i.policy.None? || |AcceptingAt(BoundReviews(i))| % 0x1_0000_0000 < i.policy.value.quorum
  }

  ghost predicate AuthorityFinds(i: Inputs, s: State) {
    || SomeStandingFinds(i, s)
    || (s == NotRecorded && QuorumMissed(i) && forall t :: t != Pass ==> !SomeStandingFinds(i, t))
  }

  ghost predicate DeliveryFinds(i: Inputs, s: State) {
    match s
    case Fail => i.deliveryEligible == Some(false) || (i.context.Some? && i.context.value.findings != [])
    case NotRecorded => i.deliveryEligible.None? || i.context.None?
    case _ => false
  }

  /** What the record holds against a dimension, told as the state it leads to. */
  ghost predicate Finds(i: Inputs, store: Store, d: Dimension, s: State) {
    match d
    case TaskBinding => s == NotRecorded && SubjectOf(i).None?
    case IntendedDelivery =>
      || (s == Fail && i.context.Some? && i.context.value.manifest != i.task.contextManifest)
      || (s == NotRecorded && i.context.None?)
    case AdapterObservedDelivery => DeliveryFinds(i, s)
    case ObservedTransport => s == NotRecorded
    case SchemaValidation =>
      || (s == Fail && i.result == Err(SchemaInvalid))
      || (s == NotRecorded && i.result == Err(OtherReason))
    case CitationResolved => CitationFinds(i, s)
    case EvidenceAdmitted => EvidenceFinds(i, s)
    case SemanticReview => SemanticFinds(i, s)
    case ArtifactsValid => ArtifactsFind(i, store, s)
    case ContextFreshness => FreshnessFinds(i, s)
    case AuthorityHeld => AuthorityFinds(i, s)
    case PublicationBoundary =>
      || (s == Fail && i.changedPaths.Some? && exists p :: p in i.task.expected && p in i.changedPaths.value)
      || (s == NotRecorded && i.changedPaths.None?)
  }

  // ---- Dimension by dimension ----

  lemma CitationIsWorst(i: Inputs)
    ensures CitationResolution(i) == Worst(s => CitationFinds(i, s))
  {
    hide CombineAll, Claimed, ClaimsOf;
    if i.context.Some? && |i.context.value.citations| == Claimed(ClaimsOf(i)) {
      var c := i.context.value.citations;
      forall s | s != Pass ensures CitationFinds(i, s) <==> s in CitationStates(c) {
        CitationIsRead(c, s);
      }
      WorstOfStates(CitationStates(c), s => CitationFinds(i, s));
    }
  }

  lemma CitationIsRead(c: seq<CitationState>, s: State)
    ensures s in CitationStates(c) <==> exists k :: 0 <= k < |c| && OneCitation(c[k]) == s
  {
    assert forall k :: 0 <= k < |c| ==> CitationStates(c)[k] == OneCitation(c[k]);
    if s in CitationStates(c) {
      var k :| 0 <= k < |c| && CitationStates(c)[k] == s;
    }
  }

  lemma ReferenceIsWorst(context: Option<Context>, x: string)
    ensures ReferenceState(context, x) == Worst(s => ReferenceFinds(context, x, s))
  {
    hide DecisionOf, Stands, NeverDecided;
    if context.Some? {
      DecisionExactly(context.value.evidence, x, Admit);
      DecisionExactly(context.value.evidence, x, Refuse);
      DecisionExactly(context.value.evidence, x, Undecided);
    }
  }

  lemma EvidenceIsWorst(i: Inputs)
    ensures EvidenceAdmission(i) == Worst(s => EvidenceFinds(i, s))
  {
    hide CombineAll, Worst, References, Cites, ReferenceFinds, ReferenceState, ClaimsOf;
    var refs := References(ClaimsOf(i));
    var each := seq(|refs|, k requires 0 <= k < |refs| => (s: State) => ReferenceFinds(i.context, refs[k], s));
    forall k | 0 <= k < |refs| ensures ReferenceStates(i.context, refs)[k] == Worst(each[k]) {
      ReferenceIsWorst(i.context, refs[k]);
      SameWorst(s => ReferenceFinds(i.context, refs[k], s), each[k]);
    }
    forall s | s != Pass ensures EvidenceFinds(i, s) <==> exists k :: 0 <= k < |each| && each[k](s) {
      forall x ensures x in refs <==> Cites(ClaimsOf(i), x) {
        ReferencesAreCited(ClaimsOf(i), x);
      }
      if k :| 0 <= k < |each| && each[k](s) {
        assert Cites(ClaimsOf(i), refs[k]);
      }
      if x :| Cites(ClaimsOf(i), x) && ReferenceFinds(i.context, x, s) {
        var k :| 0 <= k < |refs| && refs[k] == x;
        assert each[k](s);
      }
    }
    WorstOfAll(ReferenceStates(i.context, refs), each, s => EvidenceFinds(i, s));
  }

  lemma AnswerIsWorst(r: Review, id: string)
    ensures ClaimState(r, id) == Worst(s => AnswerFinds(r, id, s))
  {
    hide DispositionOf, Answers, Silent;
    forall d ensures DispositionOf(r.claims, id) == Some(d) <==> Answers(r.claims, id, d) {
      DispositionExactly(r.claims, id, d);
    }
    DispositionExactly(r.claims, id, Supported);
  }

  lemma ClaimsAreWorst(i: Inputs, r: Review)
    ensures CombineAll(ClaimStates(r, ClaimsOf(i))) == Worst(s => ClaimsFind(i, r, s))
  {
    hide CombineAll, Worst, AnswerFinds, ClaimState, ClaimsOf;
    var claims := ClaimsOf(i);
    var each := seq(|claims|, k requires 0 <= k < |claims| => (s: State) => AnswerFinds(r, claims[k].id, s));
    forall k | 0 <= k < |claims| ensures ClaimStates(r, claims)[k] == Worst(each[k]) {
      AnswerIsWorst(r, claims[k].id);
      SameWorst(s => AnswerFinds(r, claims[k].id, s), each[k]);
    }
    forall s ensures ClaimsFind(i, r, s) <==> exists k :: 0 <= k < |each| && each[k](s) {
      assert forall k :: 0 <= k < |each| ==> (each[k](s) <==> AnswerFinds(r, claims[k].id, s));
    }
    WorstOfAll(ClaimStates(r, claims), each, s => ClaimsFind(i, r, s));
  }

  lemma ChangedAreWorst(i: Inputs, r: Review)
    ensures CombineAll(ChangedStates(r, ChangedClaims(i))) == Worst(s => ChangedFind(i, r, s))
  {
    hide CombineAll, Worst, DispositionOf, ChangedClaims, Silent;
    var changed := ChangedClaims(i);
    var states := ChangedStates(r, changed);
    forall k | 0 <= k < |changed| ensures states[k] == if Silent(r.claims, changed[k]) then NotRecorded else Pass {
      DispositionExactly(r.claims, changed[k], Supported);
    }
    forall s | s != Pass ensures ChangedFind(i, r, s) <==> s in states {
      if s in states {
        var k :| 0 <= k < |states| && states[k] == s;
      }
      if k :| 0 <= k < |changed| && s == NotRecorded && Silent(r.claims, changed[k]) {
        assert states[k] == s;
      }
    }
    WorstOfStates(states, s => ChangedFind(i, r, s));
  }

  lemma ReviewIsWorst(i: Inputs, r: Review)
    ensures ReviewState(i, r) == Worst(s => ReviewFinds(i, r, s))
  {
    hide CombineAll, Combine, Worst, ClaimsFind, ChangedFind, ClaimsOf, ChangedClaims;
    ClaimsAreWorst(i, r);
    ChangedAreWorst(i, r);
    WorstOfTwo(s => ClaimsFind(i, r, s), s => ChangedFind(i, r, s), s => ReviewFinds(i, r, s));
  }

  lemma SemanticIsWorst(i: Inputs)
    ensures SemanticState(i) == Worst(s => SemanticFinds(i, s))
  {
    hide CombineAll, ReviewFinds, ReviewState, BoundReviews;
    if BoundReviews(i) != [] {
      ReviewsAreWorst(i);
    }
  }

  lemma ReviewsAreWorst(i: Inputs)
    requires BoundReviews(i) != []
    ensures CombineAll(ReviewStates(i, BoundReviews(i))) == Worst(s => SemanticFinds(i, s))
  {
    hide CombineAll, Worst, ReviewFinds, ReviewState, BoundReviews;
    var bound := BoundReviews(i);
    var each := seq(|bound|, k requires 0 <= k < |bound| => (s: State) => ReviewFinds(i, bound[k], s));
    forall k | 0 <= k < |bound| ensures ReviewStates(i, bound)[k] == Worst(each[k]) {
      ReviewIsWorst(i, bound[k]);
      SameWorst(s => ReviewFinds(i, bound[k], s), each[k]);
    }
    forall s ensures SemanticFinds(i, s) <==> exists k :: 0 <= k < |each| && each[k](s) {
      assert forall k :: 0 <= k < |each| ==> (each[k](s) <==> ReviewFinds(i, bound[k], s));
    }
    WorstOfAll(ReviewStates(i, bound), each, s => SemanticFinds(i, s));
  }

  lemma BytesAre(store: Store, a: Artifact, max: nat)
    ensures BytesState(store, a, max) ==
            if store.retained(a.digest).None? then NotRecorded else if Unsound(store, a, max) then Fail else Pass
  {
  }

  lemma PathIsWorst(store: Store, artifacts: seq<Artifact>, max: nat, path: string)
    ensures ExpectedState(store, artifacts, max, path) == Worst(s => PathFinds(store, artifacts, max, path, s))
  {
    hide BytesState, AtPath, Unsound;
    OneAtPath(artifacts, path);
    var found := AtPath(artifacts, path);
    if |found| == 1 {
      var k :| 0 <= k < |artifacts| && OnlyAt(artifacts, path, k);
      assert artifacts[k] == found[0];
      assert forall j :: 0 <= j < |artifacts| && OnlyAt(artifacts, path, j) ==> j == k;
      BytesAre(store, artifacts[k], max);
      RetainedWhenUnsound(store, artifacts[k], max);
    }
  }

  lemma RetainedWhenUnsound(store: Store, a: Artifact, max: nat)
    ensures Unsound(store, a, max) ==> store.retained(a.digest).Some?
  {
  }

  lemma ExpectedAreWorst(store: Store, artifacts: seq<Artifact>, max: nat, expected: seq<string>)
    ensures CombineAll(ExpectedStates(store, artifacts, max, expected))
         == Worst(s => ExpectedFinds(store, artifacts, max, expected, s))
  {
    hide CombineAll, Worst, PathFinds, ExpectedState;
    var states := ExpectedStates(store, artifacts, max, expected);
    var each := seq(|expected|, e requires 0 <= e < |expected| =>
                      (s: State) => PathFinds(store, artifacts, max, expected[e], s));
    forall e | 0 <= e < |expected| ensures states[e] == Worst(each[e]) {
      PathIsWorst(store, artifacts, max, expected[e]);
      SameWorst(s => PathFinds(store, artifacts, max, expected[e], s), each[e]);
    }
    forall s
      ensures ExpectedFinds(store, artifacts, max, expected, s) <==> exists e :: 0 <= e < |each| && each[e](s)
    {
      assert forall e :: 0 <= e < |each| ==> (each[e](s) <==> PathFinds(store, artifacts, max, expected[e], s));
    }
    WorstOfAll(states, each, s => ExpectedFinds(store, artifacts, max, expected, s));
  }

  lemma ExtrasAreWorst(artifacts: seq<Artifact>, expected: seq<string>)
    ensures CombineAll(ExtraStates(artifacts, expected)) == Worst(s => ExtraFinds(artifacts, expected, s))
  {
    hide CombineAll, Worst;
    var states := ExtraStates(artifacts, expected);
    assert forall k :: 0 <= k < |artifacts| ==> states[k] == if artifacts[k].path in expected then Pass else Fail;
    forall s | s != Pass ensures ExtraFinds(artifacts, expected, s) <==> s in states {
      if s in states {
        var k :| 0 <= k < |states| && states[k] == s;
      }
      if k :| 0 <= k < |artifacts| && s == Fail && artifacts[k].path !in expected {
        assert states[k] == s;
      }
    }
    WorstOfStates(states, s => ExtraFinds(artifacts, expected, s));
  }

  lemma DispositionsAreWorst(r: Review)
    ensures CombineAll(DispositionStates(r)) == Worst(s => DispositionFinds(r, s))
  {
    hide CombineAll, Worst;
    var states := DispositionStates(r);
    assert forall k :: 0 <= k < |states| ==> states[k] == DispositionState(r.artifacts[k]);
    forall s | s != Pass ensures DispositionFinds(r, s) <==> s in states {
      if s in states {
        var k :| 0 <= k < |states| && states[k] == s;
        assert r.artifacts[k] in r.artifacts;
      }
      if k :| 0 <= k < |r.artifacts| && DispositionState(r.artifacts[k]) == s {
        assert states[k] == s;
      }
    }
    WorstOfStates(states, s => DispositionFinds(r, s));
  }

  lemma ReviewedIsWorst(bound: seq<Review>)
    ensures CombineAll(ReviewedStates(bound)) == Worst(s => ReviewedFinds(bound, s))
  {
    hide CombineAll, Worst, DispositionFinds, DispositionStates;
    var each := seq(|bound|, k requires 0 <= k < |bound| => (s: State) => DispositionFinds(bound[k], s));
    forall k | 0 <= k < |bound| ensures ReviewedStates(bound)[k] == Worst(each[k]) {
      DispositionsAreWorst(bound[k]);
      SameWorst(s => DispositionFinds(bound[k], s), each[k]);
    }
    forall s ensures ReviewedFinds(bound, s) <==> exists k :: 0 <= k < |each| && each[k](s) {
      assert forall k :: 0 <= k < |each| ==> (each[k](s) <==> DispositionFinds(bound[k], s));
    }
    WorstOfAll(ReviewedStates(bound), each, s => ReviewedFinds(bound, s));
  }

  lemma ArtifactsAreWorst(i: Inputs, store: Store)
    requires SubjectOf(i).Some? && i.policy.Some?
    ensures ArtifactValidation(i, store) == Worst(s => ArtifactsFind(i, store, s))
  {
    hide CombineAll, Combine, Worst, ExpectedStates, ExtraStates, ReviewedStates, ExpectedFinds, ExtraFinds,
      ReviewedFinds, SubjectOf, BoundReviews;
    var artifacts, max, expected := SubjectOf(i).value.artifacts, i.policy.value.maxBytes, i.task.expected;
    var bound := BoundReviews(i);
    var onPaths := (s: State) => ExpectedFinds(store, artifacts, max, expected, s);
    var onExtras := (s: State) => ExtraFinds(artifacts, expected, s);
    var onBoth := (s: State) => onPaths(s) || onExtras(s);
    var onReviews := (s: State) => ReviewedFinds(bound, s);
    ExpectedAreWorst(store, artifacts, max, expected);
    ExtrasAreWorst(artifacts, expected);
    ReviewedIsWorst(bound);
    WorstOfTwo(onPaths, onExtras, onBoth);
    WorstOfTwo(onBoth, onReviews, s => ArtifactsFind(i, store, s));
  }

  lemma FreshnessIsWorst(i: Inputs)
    ensures Combine(PacketState(i.context), ManifestState(i.manifest)) == Worst(s => FreshnessFinds(i, s))
  {
  }

  lemma StandingIsWorst(i: Inputs, r: Recorded<Review>)
    ensures StandingState(StandingOf(i, r)) == Worst(s => StandingFinds(i, r, s))
  {
    hide StandingOf, SubjectOf, BindsResult, ByProducerOf;
    StandingExactly(i, r);
    StandingNeverLacksAPolicy(i, r);
    if r.Valid? && BindsResult(i, r.value) {
      BindsMeans(i, r.value);
    }
  }

  lemma BindsMeans(i: Inputs, r: Review)
    requires BindsResult(i, r)
    ensures SubjectOf(i) == Some(r.subject) && !ByProducerOf(i, r)
  {
  }

  lemma StandingsAreWorst(i: Inputs)
    ensures CombineAll(StandingStates(i)) == Worst(s => SomeStandingFinds(i, s))
  {
    hide CombineAll, Worst, StandingFinds, StandingState, StandingOf;
    var each := seq(|i.reviews|, k requires 0 <= k < |i.reviews| => (s: State) => StandingFinds(i, i.reviews[k], s));
    forall k | 0 <= k < |i.reviews| ensures StandingStates(i)[k] == Worst(each[k]) {
      StandingIsWorst(i, i.reviews[k]);
      SameWorst(s => StandingFinds(i, i.reviews[k], s), each[k]);
    }
    forall s ensures SomeStandingFinds(i, s) <==> exists k :: 0 <= k < |each| && each[k](s) {
      assert forall k :: 0 <= k < |each| ==> (each[k](s) <==> StandingFinds(i, i.reviews[k], s));
    }
    WorstOfAll(StandingStates(i), each, s => SomeStandingFinds(i, s));
  }

  lemma AuthorityIsWorst(i: Inputs)
    ensures AuthorityState(i) == Worst(s => AuthorityFinds(i, s))
  {
    hide CombineAll, SomeStandingFinds, StandingStates, BoundReviews, Accepting, AcceptingAt;
    StandingsAreWorst(i);
    AcceptingExactly(BoundReviews(i));
    NoStandingIsRecorded(i);
  }

  lemma NoStandingIsRecorded(i: Inputs)
    ensures !SomeStandingFinds(i, NotRecorded) && !SomeStandingFinds(i, Unsupported)
  {
    hide SubjectOf, BindsResult, ByProducerOf;
  }

  lemma DeliveryIsWorst(i: Inputs)
    ensures ObservedDelivery(i) == Worst(s => DeliveryFinds(i, s))
  {
  }

  lemma BindingNeedsAResult(i: Inputs)
    ensures SubjectOf(i).Some? ==> i.result.Ok?
  {
    hide Effective, References;
  }

  /** Every dimension is in the state of the worst that the record holds against it, and passes without any. */
  lemma StateExactly(i: Inputs, store: Store, d: Dimension)
    ensures StateOf(i, store, d) == Worst(s => Finds(i, store, d, s))
  {
    hide SubjectOf, CombineAll, CitationResolution, EvidenceAdmission, SemanticState, ArtifactValidation, AuthorityState,
      CitationFinds, EvidenceFinds, SemanticFinds, FreshnessFinds, AuthorityFinds, Combine, PacketState, ManifestState,
      ObservedDelivery, DeliveryFinds, BoundReviews, ExpectedFinds, ExtraFinds, ReviewedFinds;
    match d
    case TaskBinding => BindingNeedsAResult(i);
    case AdapterObservedDelivery =>
      DeliveryIsWorst(i);
      SameWorst(s => DeliveryFinds(i, s), s => Finds(i, store, d, s));
    case CitationResolved =>
      CitationIsWorst(i);
      SameWorst(s => CitationFinds(i, s), s => Finds(i, store, d, s));
    case EvidenceAdmitted =>
      EvidenceIsWorst(i);
      SameWorst(s => EvidenceFinds(i, s), s => Finds(i, store, d, s));
    case SemanticReview =>
      SemanticIsWorst(i);
      SameWorst(s => SemanticFinds(i, s), s => Finds(i, store, d, s));
    case ArtifactsValid =>
      ArtifactValidationIsWorst(i, store);
      SameWorst(s => ArtifactsFind(i, store, s), s => Finds(i, store, d, s));
    case ContextFreshness =>
      FreshnessIsWorst(i);
      SameWorst(s => FreshnessFinds(i, s), s => Finds(i, store, d, s));
    case AuthorityHeld =>
      AuthorityIsWorst(i);
      SameWorst(s => AuthorityFinds(i, s), s => Finds(i, store, d, s));
    case _ =>
  }

  lemma ArtifactValidationIsWorst(i: Inputs, store: Store)
    ensures ArtifactValidation(i, store) == Worst(s => ArtifactsFind(i, store, s))
  {
    hide SubjectOf, BoundReviews, CombineAll, Combine;
    if SubjectOf(i).Some? && i.policy.Some? {
      ArtifactsAreWorst(i, store);
    }
  }

  // ---- Rejected, exactly ----

  lemma FailExactly(i: Inputs, store: Store, d: Dimension)
    ensures StateOf(i, store, d) == Fail <==> Finds(i, store, d, Fail)
  {
    hide StateOf, Finds;
    StateExactly(i, store, d);
  }

  /** A bound review answers a claim with anything that is neither support nor the absence of a review. */
  ghost predicate ClaimRefuted(i: Inputs) {
    exists k, c ::
      && 0 <= k < |BoundReviews(i)| && 0 <= c < |ClaimsOf(i)|
      && Refutes(BoundReviews(i)[k], ClaimsOf(i)[c].id)
  }

  ghost predicate Refutes(r: Review, id: string) {
    || Answers(r.claims, id, NotSupported) || Answers(r.claims, id, Contradicted)
    || Answers(r.claims, id, InsufficientGrade) || Answers(r.claims, id, NeedsCorrection)
  }

  ghost predicate CitationFailed(i: Inputs) {
    && i.context.Some? && |i.context.value.citations| == Claimed(ClaimsOf(i))
    && exists k :: 0 <= k < |i.context.value.citations|
                   && i.context.value.citations[k] in {Missing, DigestMismatch, OutsidePacket}
  }

  ghost predicate EvidenceRefused(i: Inputs) {
    i.context.Some? && exists x :: Cites(ClaimsOf(i), x) && Stands(i.context.value.evidence, x, Refuse)
  }

  ghost predicate ProducerReviewed(i: Inputs) {
    exists k :: 0 <= k < |i.reviews| && i.reviews[k].Valid?
                && SubjectOf(i) == Some(i.reviews[k].value.subject) && ByProducerOf(i, i.reviews[k].value)
  }

  /** An expected path without one sound artifact, an artifact nobody expected, or one a bound review turns down. */
  ghost predicate ArtifactFailed(i: Inputs, store: Store) {
    && SubjectOf(i).Some? && i.policy.Some?
    && (|| ExpectedFinds(store, SubjectOf(i).value.artifacts, i.policy.value.maxBytes, i.task.expected, Fail)
        || ExtraFinds(SubjectOf(i).value.artifacts, i.task.expected, Fail)
        || ReviewedFinds(BoundReviews(i), Fail))
  }

  /** The facts that reject a documentation. */
  ghost predicate FailsARequirement(i: Inputs, store: Store) {
    || (i.context.Some? && i.context.value.manifest != i.task.contextManifest)
    || i.deliveryEligible == Some(false)
    || (i.context.Some? && i.context.value.findings != [])
    || i.result == Err(SchemaInvalid)
    || CitationFailed(i)
    || EvidenceRefused(i)
    || (i.task.semantic.Required? && ClaimRefuted(i))
    || ArtifactFailed(i, store)
    || (i.context.Some? && i.context.value.freshness in {PacketsStale, PacketsIncomplete})
    || i.manifest in {ManifestStale, ManifestIncomplete}
    || ProducerReviewed(i)
    || (i.changedPaths.Some? && exists p :: p in i.task.expected && p in i.changedPaths.value)
  }

  lemma SemanticFailIs(i: Inputs)
    ensures SemanticFinds(i, Fail) <==> ClaimRefuted(i)
  {
    hide BoundReviews, ClaimsOf, Answers;
    var bound, claims := BoundReviews(i), ClaimsOf(i);
    if k :| 0 <= k < |bound| && ReviewFinds(i, bound[k], Fail) {
      var c :| 0 <= c < |claims| && AnswerFinds(bound[k], claims[c].id, Fail);
      assert Refutes(bound[k], claims[c].id);
    }
    if k, c :| 0 <= k < |bound| && 0 <= c < |claims| && Refutes(bound[k], claims[c].id) {
      assert AnswerFinds(bound[k], claims[c].id, Fail);
      assert ReviewFinds(i, bound[k], Fail);
    }
  }

  lemma CitationFailIs(i: Inputs)
    ensures CitationFinds(i, Fail) <==> CitationFailed(i)
  {
    hide Claimed, ClaimsOf;
  }

  lemma EvidenceFailIs(i: Inputs)
    ensures EvidenceFinds(i, Fail) <==> EvidenceRefused(i)
  {
    hide Cites, ClaimsOf, Stands;
    if i.context.Some? {
      assert forall x :: ReferenceFinds(i.context, x, Fail) <==> Stands(i.context.value.evidence, x, Refuse);
    }
  }

  lemma AuthorityFailIs(i: Inputs)
    ensures AuthorityFinds(i, Fail) <==> ProducerReviewed(i)
  {
    hide SubjectOf, ByProducerOf, BoundReviews;
    if k :| 0 <= k < |i.reviews| && StandingFinds(i, i.reviews[k], Fail) {
    }
    if k :| 0 <= k < |i.reviews| && i.reviews[k].Valid?
            && SubjectOf(i) == Some(i.reviews[k].value.subject) && ByProducerOf(i, i.reviews[k].value) {
      assert StandingFinds(i, i.reviews[k], Fail);
    }
  }

  /** What dimensions are not required: transport and semantic review, each where its own policy says so. */
  lemma NeedExactly(i: Inputs, d: Dimension)
    ensures NeedOf(i, d) == Optional <==>
              || (d == ObservedTransport && i.policy.Some? && i.policy.value.transport == Optional)
              || (d == SemanticReview && i.task.semantic == Optional)
  {
  }

  ghost predicate SomeFails(i: Inputs, store: Store) {
    exists d :: NeedOf(i, d) == Required && Finds(i, store, d, Fail)
  }

  lemma FailuresAre(i: Inputs, store: Store)
    ensures SomeFails(i, store) <==> FailsARequirement(i, store)
  {
    hide NeedOf, SubjectOf, BoundReviews, CitationFinds, CitationFailed, EvidenceFinds, EvidenceRefused, SemanticFinds,
      ClaimRefuted, AuthorityFinds, ProducerReviewed, ExpectedFinds, ExtraFinds, ReviewedFinds;
    CitationFailIs(i);
    EvidenceFailIs(i);
    SemanticFailIs(i);
    AuthorityFailIs(i);
    forall d ensures NeedOf(i, d) == Required <==>
                       !(d == ObservedTransport && i.policy.Some? && i.policy.value.transport == Optional)
                       && !(d == SemanticReview && i.task.semantic == Optional) {
      NeedExactly(i, d);
    }
    if FailsARequirement(i, store) {
      FailureHasADimension(i, store);
    }
  }

  lemma FailureHasADimension(i: Inputs, store: Store)
    requires FailsARequirement(i, store)
    requires CitationFinds(i, Fail) <==> CitationFailed(i)
    requires EvidenceFinds(i, Fail) <==> EvidenceRefused(i)
    requires SemanticFinds(i, Fail) <==> ClaimRefuted(i)
    requires AuthorityFinds(i, Fail) <==> ProducerReviewed(i)
    ensures SomeFails(i, store)
  {
    hide SubjectOf, BoundReviews, CitationFinds, CitationFailed, EvidenceFinds, EvidenceRefused, SemanticFinds,
      ClaimRefuted, AuthorityFinds, ProducerReviewed, ExpectedFinds, ExtraFinds, ReviewedFinds;
    var d :=
      if CitationFailed(i) then CitationResolved
      else if EvidenceRefused(i) then EvidenceAdmitted
      else if i.task.semantic.Required? && ClaimRefuted(i) then SemanticReview
      else if ArtifactFailed(i, store) then ArtifactsValid
      else if ProducerReviewed(i) then AuthorityHeld
      else if i.context.Some? && i.context.value.manifest != i.task.contextManifest then IntendedDelivery
      else if i.deliveryEligible == Some(false) || (i.context.Some? && i.context.value.findings != [])
      then AdapterObservedDelivery
      else if i.result == Err(SchemaInvalid) then SchemaValidation
      else if FreshnessFinds(i, Fail) then ContextFreshness
      else PublicationBoundary;
    assert NeedOf(i, d) == Required && Finds(i, store, d, Fail);
  }

  /** A documentation is rejected if and only if the record holds one of the facts that fail a requirement. */
  lemma RejectedExactly(i: Inputs, store: Store)
    ensures OutcomeOf(i, store) == RejectedDocumentation <==> FailsARequirement(i, store)
  {
    hide StateOf, NeedOf, Finds, FailsARequirement, SubjectOf;
    FailuresAre(i, store);
    forall d ensures StateOf(i, store, d) == Fail <==> Finds(i, store, d, Fail) {
      FailExactly(i, store, d);
    }
    if SomeFails(i, store) {
      var d :| NeedOf(i, d) == Required && Finds(i, store, d, Fail);
      assert RequiredIs(i, store, d, Fail);
    }
  }
}
