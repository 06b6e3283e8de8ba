/** The judgment itself: its loops over records, each proved to reach the state its dimension has. */
module AcceptanceJudge {
  import opened Prelude
  import opened Corrections
  import opened DimensionStates
  import opened Acceptance
  import opened AcceptanceTheorems
  import Anchors

  /** One more state read: what the combined state becomes. */
  lemma Extend(states: seq<State>, k: nat)
    requires k < |states|
    ensures CombineAll(states[..k + 1]) == Combine(CombineAll(states[..k]), states[k])
  {
    assert states[..k + 1] == states[..k] + [states[k]];
  }

  lemma Whole(states: seq<State>)
    ensures CombineAll(states[..|states|]) == CombineAll(states)
  {
    assert states[..|states|] == states;
  }

  method JudgeCitations(context: Option<Context>, claimed: nat) returns (state: State)
    ensures state == match context
                     case None => if claimed == 0 then Pass else NotRecorded
                     case Some(c) =>
                       if |c.citations| != claimed then NotRecorded else CombineAll(CitationStates(c.citations))
  {
    hide CombineAll, Combine;
    if context.None? {
      return if claimed == 0 then Pass else NotRecorded;
    }
    var c := context.value.citations;
    if |c| != claimed {
      return NotRecorded;
    }
    state := Pass;
    ghost var states := CitationStates(c);
    EmptyPasses();
    for k := 0 to |c|
      invariant state == CombineAll(states[..k])
    {
      Extend(states, k);
      CombineIsAJoin(state, Pass, Pass);
      if c[k].Resolved? {
        continue;
      }
      state := Combine(state, OneCitation(c[k]));
    }
    Whole(states);
  }

  lemma EmptyPasses()
    ensures forall states: seq<State> :: CombineAll(states[..0]) == Pass
  {
    forall states: seq<State> ensures CombineAll(states[..0]) == Pass {
      assert states[..0] == [];
    }
  }

  method JudgeEvidence(context: Option<Context>, references: seq<string>) returns (state: State)
    ensures state == CombineAll(ReferenceStates(context, references))
  {
    hide CombineAll, Combine, DecisionOf;
    state := Pass;
    ghost var states := ReferenceStates(context, references);
    EmptyPasses();
    for k := 0 to |references|
      invariant state == CombineAll(states[..k])
    {
      Extend(states, k);
      CombineIsAJoin(state, Pass, Pass);
      var decision := if context.Some? then DecisionOf(context.value.evidence, references[k]) else None;
      match decision {
        case Some(Admit) =>
        case Some(Refuse) => state := Combine(state, Fail);
        case Some(Undecided) => state := Combine(state, Unknown);
        case None => state := Combine(state, NotRecorded);
      }
    }
    Whole(states);
  }

  method JudgeReviews(i: Inputs) returns (authority: State, bound: seq<Review>)
    ensures authority == CombineAll(StandingStates(i)) && bound == BoundReviews(i)
  {
    hide CombineAll, Combine, SubjectOf, EligibleGrant;
    authority, bound := Pass, [];
    ghost var states := StandingStates(i);
    EmptyPasses();
    for k := 0 to |i.reviews|
      invariant authority == CombineAll(states[..k]) && bound == BoundAmong(i, i.reviews[..k])
    {
      assert i.reviews[..k + 1][..k] == i.reviews[..k];
      Extend(states, k);
      CombineIsAJoin(authority, Pass, Pass);
      var r := i.reviews[k];
      if r.Unread? {
        authority := Combine(authority, Unreadable);
      } else if SubjectOf(i) == Some(r.value.subject) {
        if Produced(i, r.value) {
          authority := Fail;
          continue;
        }
        if i.policy.None? {
          authority := Combine(authority, NotRecorded);
        } else if EligibleGrant(i.policy.value, r.value, i.now).Some? {
          bound := bound + [r.value];
        } else {
          authority := Combine(authority, Unknown);
        }
      }
    }
    assert i.reviews[..|i.reviews|] == i.reviews;
    Whole(states);
  }

  method JudgeClaims(i: Inputs, bound: seq<Review>) returns (state: State)
    requires bound == BoundReviews(i)
    ensures state == SemanticState(i)
  {
    hide CombineAll, Combine, ReviewState, BoundAmong;
    if bound == [] {
      return NotRecorded;
    }
    state := Pass;
    ghost var states := ReviewStates(i, bound);
    EmptyPasses();
    for k := 0 to |bound|
      invariant state == CombineAll(states[..k])
    {
      Extend(states, k);
      state := JudgeReview(i, bound[k], state);
    }
    Whole(states);
  }

  method JudgeReview(i: Inputs, r: Review, before: State) returns (state: State)
    ensures state == Combine(before, ReviewState(i, r))
  {
    hide CombineAll, Combine, DispositionOf, ChangedClaims;
    var claims, changed := ClaimsOf(i), ChangedClaims(i);
    ghost var onClaims, onChanged := ClaimStates(r, claims), ChangedStates(r, changed);
    state := before;
    EmptyPasses();
    CombineIsAJoin(before, Pass, Pass);
    for k := 0 to |claims|
      invariant state == Combine(before, CombineAll(onClaims[..k]))
    {
      Extend(onClaims, k);
      CombineIsAJoin(state, Pass, Pass);
      CombineIsAJoin(CombineAll(onClaims[..k]), Pass, Pass);
      CombineIsAJoin(before, CombineAll(onClaims[..k]), onClaims[k]);
      match DispositionOf(r.claims, claims[k].id) {
        case Some(Supported) =>
        case Some(NotReviewed) => state := Combine(state, NotRecorded);
        case None => state := Combine(state, NotRecorded);
        case Some(_) => state := Combine(state, Fail);
      }
    }
    Whole(onClaims);
    ghost var middle := state;
    CombineIsAJoin(middle, Pass, Pass);
    for k := 0 to |changed|
      invariant state == Combine(middle, CombineAll(onChanged[..k]))
    {
      Extend(onChanged, k);
      CombineIsAJoin(state, Pass, Pass);
      CombineIsAJoin(middle, CombineAll(onChanged[..k]), onChanged[k]);
      if DispositionOf(r.claims, changed[k]).None? {
        state := Combine(state, NotRecorded);
      }
    }
    Whole(onChanged);
    CombineIsAJoin(before, CombineAll(onClaims), CombineAll(onChanged));
  }

  method JudgeArtifacts(store: Store, artifacts: seq<Artifact>, max: nat, expected: seq<string>) returns (state: State)
    ensures state == ArtifactState(store, artifacts, max, expected)
  {
    hide CombineAll, Combine, BytesState, AtPath;
    ghost var each, extras := ExpectedStates(store, artifacts, max, expected), ExtraStates(artifacts, expected);
    state := Pass;
    EmptyPasses();
    for k := 0 to |expected|
      invariant state == CombineAll(each[..k])
    {
      Extend(each, k);
      CombineIsAJoin(state, Pass, Pass);
      var found := AtPath(artifacts, expected[k]);
      if |found| != 1 {
        state := Combine(state, Fail);
        continue;
      }
      state := JudgeBytes(store, found[0], max, state);
    }
    Whole(each);
    ghost var middle := state;
    CombineIsAJoin(middle, Pass, Pass);
    for k := 0 to |artifacts|
      invariant state == Combine(middle, CombineAll(extras[..k]))
    {
      Extend(extras, k);
      CombineIsAJoin(CombineAll(extras[..k]), Pass, Pass);
      CombineIsAJoin(middle, CombineAll(extras[..k]), extras[k]);
      if artifacts[k].path !in expected {
        state := Combine(state, Fail);
      }
    }
    Whole(extras);
  }

  method JudgeBytes(store: Store, a: Artifact, max: nat, before: State) returns (state: State)
    ensures state == Combine(before, BytesState(store, a, max))
  {
    hide Combine;
    CombineIsAJoin(before, Pass, Pass);
    var bytes := store.retained(a.digest);
    if bytes.None? {
      return Combine(before, NotRecorded);
    }
    if store.digest(bytes.value) != a.digest || |bytes.value| > max || store.lines(bytes.value).None? {
      return Combine(before, Fail);
    }
    var missing := Anchors.MissingAnchors(store.spelling, store.lines(bytes.value).value);
    state := before;
    for k := 0 to |missing|
      invariant state == if k == 0 then before else Combine(before, Fail)
    {
      CombineIsAJoin(state, Pass, Pass);
      state := Combine(state, Fail);
    }
  }

  method JudgeDispositions(bound: seq<Review>, before: State) returns (state: State)
    ensures state == Combine(before, CombineAll(ReviewedStates(bound)))
  {
    hide CombineAll, Combine, DispositionStates;
    ghost var states := ReviewedStates(bound);
    state := before;
    EmptyPasses();
    CombineIsAJoin(before, Pass, Pass);
    for k := 0 to |bound|
      invariant state == Combine(before, CombineAll(states[..k]))
    {
      Extend(states, k);
      CombineIsAJoin(before, CombineAll(states[..k]), states[k]);
      state := JudgeReviewArtifacts(bound[k], state);
    }
    Whole(states);
  }

  method JudgeReviewArtifacts(r: Review, before: State) returns (state: State)
    ensures state == Combine(before, CombineAll(DispositionStates(r)))
  {
    hide CombineAll, Combine;
    ghost var states := DispositionStates(r);
    state := before;
    EmptyPasses();
    CombineIsAJoin(before, Pass, Pass);
    for k := 0 to |r.artifacts|
      invariant state == Combine(before, CombineAll(states[..k]))
    {
      Extend(states, k);
      CombineIsAJoin(state, Pass, Pass);
      CombineIsAJoin(CombineAll(states[..k]), Pass, Pass);
      CombineIsAJoin(before, Pass, Pass);
      CombineIsAJoin(before, CombineAll(states[..k]), states[k]);
      match r.artifacts[k] {
        case Acceptable =>
        case Unreviewed => state := Combine(state, NotRecorded);
        case _ => state := Fail;
      }
    }
    Whole(states);
  }

  method JudgeAuthority(i: Inputs, fromReviews: State, bound: seq<Review>) returns (state: State)
    requires fromReviews == CombineAll(StandingStates(i)) && bound == BoundReviews(i)
    ensures state == AuthorityState(i)
  {
    hide CombineAll, StandingStates, BoundAmong;
    var accepting := Narrowed(Accepting(bound));
    state := fromReviews;
    if i.policy.Some? && accepting < i.policy.value.quorum && state == Pass {
      state := NotRecorded;
    }
    if i.policy.None? && state == Pass {
      state := NotRecorded;
    }
  }

  const ORDER: seq<Dimension> := [
    TaskBinding, IntendedDelivery, AdapterObservedDelivery, ObservedTransport, SchemaValidation, CitationResolved,
    EvidenceAdmitted, SemanticReview, ArtifactsValid, ContextFreshness, AuthorityHeld, PublicationBoundary]

  function Place(d: Dimension): nat {
    match d
    case TaskBinding => 0
    case IntendedDelivery => 1
    case AdapterObservedDelivery => 2
    case ObservedTransport => 3
    case SchemaValidation => 4
    case CitationResolved => 5
    case EvidenceAdmitted => 6
    case SemanticReview => 7
    case ArtifactsValid => 8
    case ContextFreshness => 9
    case AuthorityHeld => 10
    case PublicationBoundary => 11
  }

  lemma OrderIsComplete(d: Dimension)
    ensures Place(d) < |ORDER| && ORDER[Place(d)] == d
  {
  }

  ghost predicate RowsOf(i: Inputs, store: Store, rows: seq<Row>) {
    |rows| == |ORDER|
    && forall k :: 0 <= k < |rows| ==> rows[k] == Row(ORDER[k], NeedOf(i, ORDER[k]), StateOf(i, store, ORDER[k]))
  }

  method Conclude(i: Inputs, store: Store, rows: seq<Row>) returns (outcome: Outcome)
    requires RowsOf(i, store, rows)
    ensures outcome == OutcomeOf(i, store)
  {
    hide StateOf, NeedOf, SubjectOf, ORDER;
    var failed, passed := false, true;
    for k := 0 to |rows|
      invariant failed <==> exists m :: 0 <= m < k && RequiredIs(i, store, ORDER[m], Fail)
      invariant passed <==>
        forall m :: 0 <= m < k && NeedOf(i, ORDER[m]).Required? ==> RequiredIs(i, store, ORDER[m], Pass)
    {
      if rows[k].need.Required? {
        failed := failed || rows[k].state == Fail;
        passed := passed && rows[k].state == Pass;
      }
    }
    EveryDimension(i, store);
    outcome := if failed then RejectedDocumentation
               else if passed && SubjectOf(i).Some? then AcceptedDocumentation
               else NoAcceptance;
  }

  lemma EveryDimension(i: Inputs, store: Store)
    ensures (exists m :: 0 <= m < |ORDER| && RequiredIs(i, store, ORDER[m], Fail))
       <==> exists d :: RequiredIs(i, store, d, Fail)
    ensures (forall m :: 0 <= m < |ORDER| && NeedOf(i, ORDER[m]).Required? ==> RequiredIs(i, store, ORDER[m], Pass))
       <==> forall d :: NeedOf(i, d).Required? ==> RequiredIs(i, store, d, Pass)
  {
    hide RequiredIs, NeedOf, ORDER, Place;
    if d :| RequiredIs(i, store, d, Fail) {
      OrderIsComplete(d);
      assert RequiredIs(i, store, ORDER[Place(d)], Fail);
    }
    if forall m :: 0 <= m < |ORDER| && NeedOf(i, ORDER[m]).Required? ==> RequiredIs(i, store, ORDER[m], Pass) {
      forall d | NeedOf(i, d).Required? ensures RequiredIs(i, store, d, Pass) {
        OrderIsComplete(d);
        assert NeedOf(i, ORDER[Place(d)]).Required?;
      }
    }
  }

  ghost predicate HasRow(i: Inputs, store: Store, d: Dimension, row: Row) {
    row == Row(d, NeedOf(i, d), StateOf(i, store, d))
  }

  /** The rows of the dimensions that read no review. */
  ghost predicate RecordRows(i: Inputs, store: Store, rows: seq<Row>) {
    && |rows| == 7
    && HasRow(i, store, TaskBinding, rows[0]) && HasRow(i, store, IntendedDelivery, rows[1])
    && HasRow(i, store, AdapterObservedDelivery, rows[2]) && HasRow(i, store, ObservedTransport, rows[3])
    && HasRow(i, store, SchemaValidation, rows[4]) && HasRow(i, store, CitationResolved, rows[5])
    && HasRow(i, store, EvidenceAdmitted, rows[6])
  }

  /** The rows behind them. */
  ghost predicate ReviewedRows(i: Inputs, store: Store, rows: seq<Row>) {
    && |rows| == 5
    && HasRow(i, store, SemanticReview, rows[0]) && HasRow(i, store, ArtifactsValid, rows[1])
    && HasRow(i, store, ContextFreshness, rows[2]) && HasRow(i, store, AuthorityHeld, rows[3])
    && HasRow(i, store, PublicationBoundary, rows[4])
  }

  method JudgeRecords(i: Inputs, store: Store) returns (first: seq<Row>)
    ensures RecordRows(i, store, first)
  {
    hide SubjectOf, CombineAll, Claimed, References, CitationStates, ReferenceStates;
    var binding := if i.result.Ok? && SubjectOf(i).Some? then Pass else NotRecorded;
    var intended := if i.context.None? then NotRecorded
                    else if i.context.value.manifest == i.task.contextManifest then Pass else Fail;
    var observed := JudgeDelivery(i);
    var transport := if i.policy.Some? then i.policy.value.transport else Required;
    var schema := if i.result.Ok? then Pass else if i.result.error.SchemaInvalid? then Fail else NotRecorded;
    var citations := JudgeCitations(i.context, Claimed(ClaimsOf(i)));
    var evidence := JudgeEvidence(i.context, References(ClaimsOf(i)));
    first := [
      Row(TaskBinding, Required, binding), Row(IntendedDelivery, Required, intended),
      Row(AdapterObservedDelivery, Required, observed), Row(ObservedTransport, transport, NotRecorded),
      Row(SchemaValidation, Required, schema), Row(CitationResolved, Required, citations),
      Row(EvidenceAdmitted, Required, evidence)];
  }

  method JudgeDelivery(i: Inputs) returns (state: State)
    ensures state == ObservedDelivery(i)
  {
    state := Pass;
    if i.deliveryEligible.None? {
      state := NotRecorded;
    } else if !i.deliveryEligible.value {
      state := Fail;
    }
    if i.context.None? {
      state := Combine(state, NotRecorded);
    } else if i.context.value.findings != [] {
      state := Fail;
    }
  }

  method JudgeValidation(i: Inputs, store: Store, bound: seq<Review>) returns (state: State)
    requires bound == BoundReviews(i)
    ensures state == ArtifactValidation(i, store)
  {
    hide SubjectOf, CombineAll, Combine, ArtifactState, ReviewedStates, BoundAmong;
    state := NotRecorded;
    if SubjectOf(i).Some? && i.policy.Some? {
      var max := i.policy.value.maxBytes;
      state := JudgeArtifacts(store, SubjectOf(i).value.artifacts, max, i.task.expected);
      state := JudgeDispositions(bound, state);
    }
  }

  method JudgeReviewed(i: Inputs, store: Store) returns (last: seq<Row>, bound: seq<Review>)
    ensures bound == BoundReviews(i) && ReviewedRows(i, store, last)
  {
    hide SubjectOf, CombineAll, Combine, ArtifactValidation, AuthorityState, SemanticState, BoundReviews,
      PacketState, ManifestState, StandingStates;
    var fromReviews;
    fromReviews, bound := JudgeReviews(i);
    var semantic := JudgeClaims(i, bound);
    var artifacts := JudgeValidation(i, store, bound);
    var freshness := Combine(PacketState(i.context), ManifestState(i.manifest));
    var authority := JudgeAuthority(i, fromReviews, bound);
    var boundary := if i.changedPaths.None? then NotRecorded
                    else if Applied(i.task.expected, i.changedPaths.value) then Fail else Pass;
    last := [
      Row(SemanticReview, i.task.semantic, semantic), Row(ArtifactsValid, Required, artifacts),
      Row(ContextFreshness, Required, freshness), Row(AuthorityHeld, Required, authority),
      Row(PublicationBoundary, Required, boundary)];
  }

  lemma RowsInOrder(i: Inputs, store: Store, first: seq<Row>, last: seq<Row>)
    requires RecordRows(i, store, first) && ReviewedRows(i, store, last)
    ensures RowsOf(i, store, first + last)
  {
    hide StateOf, NeedOf;
    var rows := first + last;
    assert forall k :: 0 <= k < 7 ==> rows[k] == first[k];
    assert forall k :: 7 <= k < 12 ==> rows[k] == last[k - 7];
  }

  /** One judgment: every dimension in its order, the reviews that bind, and the outcome. */
  method Judge(i: Inputs, store: Store) returns (rows: seq<Row>, bound: seq<Review>, outcome: Outcome)
    ensures RowsOf(i, store, rows) && bound == BoundReviews(i)
    ensures outcome == OutcomeOf(i, store)
    ensures outcome == AcceptedDocumentation <==> MeetsAll(i, store)
  {
    hide RecordRows, ReviewedRows, RowsOf, BoundReviews, OutcomeOf, MeetsAll;
    var first := JudgeRecords(i, store);
    var last;
    last, bound := JudgeReviewed(i, store);
    RowsInOrder(i, store, first, last);
    rows := first + last;
    outcome := Conclude(i, store, rows);
    AcceptedExactly(i, store);
  }
}
