/** Independent documentation acceptance: what is judged, and the state of each dimension. */
module Acceptance {
  import opened Prelude
  import opened Corrections
  import opened DimensionStates
  import Anchors

  type Blob = seq<int>

  datatype Need = Required | Optional

  datatype Authority = RepositoryOwner | OwnerDelegatedReviewer

  datatype Grant = Grant(identity: string, authority: Authority, notAfter: Option<string>)

  datatype Policy = Policy(reviewers: seq<Grant>, quorum: nat, transport: Need, maxBytes: nat, digest: string)

  datatype ClaimDisposition =
    | Supported
    | NotSupported
    | Contradicted
    | InsufficientGrade
    | NeedsCorrection
    | NotReviewed

  datatype ClaimReview = ClaimReview(claimId: string, disposition: ClaimDisposition)

  datatype ArtifactDisposition = Acceptable | ToCorrect | Rejected | Unreviewed

  datatype Recommendation = Accept | Revise | Reject

  datatype Review = Review(
    digest: string,
    subject: Subject,
    identity: string,
    authority: Authority,
    claims: seq<ClaimReview>,
    artifacts: seq<ArtifactDisposition>,
    requested: seq<string>,
    recommendation: Recommendation)

  datatype Task = Task(
    runId: string,
    attempt: nat,
    contextManifest: string,
    digest: string,
    resultSchema: string,
    expected: seq<string>,
    semantic: Need)

  datatype Claim = Claim(id: string, citations: nat, evidence: seq<string>)

  datatype Documentation = Documentation(
    artifacts: seq<Artifact>,
    claims: seq<Claim>,
    provider: string,
    adapter: string)

  /** Why there is no bound result. */
  datatype NoResult = SchemaInvalid | OtherReason

  datatype CitationState =
    | Resolved
    | Missing
    | DigestMismatch
    | OutsidePacket
    | CitationUnsupported
    | CitationUnreadable
    | CitationNotRecorded

  datatype Decision = Admit | Refuse | Undecided

  datatype Evidence = Evidence(reference: string, decision: Decision)

  datatype PacketFreshness = PacketsFresh | PacketsStale | PacketsIncomplete | PacketsUnverified

  datatype Context = Context(
    manifest: string,
    findings: seq<string>,
    citations: seq<CitationState>,
    evidence: seq<Evidence>,
    freshness: PacketFreshness)

  datatype ManifestFreshness =
    | ManifestFresh
    | ManifestStale
    | ManifestIncomplete
    | ManifestUnverified
    | ManifestUnsupported
    | ManifestUnreadable
    | ManifestNotRecorded

  datatype Inputs = Inputs(
    repository: string,
    trustedBase: string,
    candidate: Option<string>,
    task: Task,
    deliveryEligible: Option<bool>,
    custody: Option<string>,
    result: Result<Documentation, NoResult>,
    context: Option<Context>,
    manifest: ManifestFreshness,
    reviews: seq<Recorded<Review>>,
    corrections: seq<Recorded<Correction>>,
    policy: Option<Policy>,
    changedPaths: Option<seq<string>>,
    now: string)

  /** The retained bytes by digest, the digest itself, and text read as lines. */
  datatype Store = Store(
    retained: string -> Option<Blob>,
    digest: Blob -> string,
    lines: Blob -> Option<seq<string>>,
    spelling: Anchors.Spelling)

  // ---- The subject ----

  function ClaimsOf(i: Inputs): seq<Claim> {
    if i.result.Ok? then i.result.value.claims else []
  }

  function AddEach(seen: seq<string>, more: seq<string>): (r: seq<string>)
    ensures forall x :: x in r <==> x in seen || x in more
    decreases |more|
  {
    if |more| == 0 then seen
    else
      var before := AddEach(seen, more[..|more| - 1]);
      assert forall x :: x in more <==> x in more[..|more| - 1] || x == Last(more);
      if Last(more) in before then before else before + [Last(more)]
  }

  /** Every cited evidence reference once, in the order claims first cite it. */
  function References(claims: seq<Claim>): seq<string> {
    if |claims| == 0 then [] else AddEach(References(claims[..|claims| - 1]), Last(claims).evidence)
  }

  function BaseSubject(i: Inputs): Option<Subject> {
    if i.result.Ok? && i.custody.Some? && i.candidate.Some? && i.policy.Some?
    then Some(Subject(
                Core(i.repository, i.trustedBase, i.task.runId, i.task.attempt, i.candidate.value,
                     i.task.contextManifest, i.task.digest, i.task.resultSchema,
                     References(i.result.value.claims), i.policy.value.digest),
                i.custody.value,
                i.result.value.artifacts))
    else None
  }

  function SubjectOf(i: Inputs): Option<Subject> {
    if BaseSubject(i).Some? then Some(Effective(BaseSubject(i).value, i.corrections).subject) else None
  }

  function ChangedClaims(i: Inputs): seq<string> {
    if BaseSubject(i).Some? then Effective(BaseSubject(i).value, i.corrections).changedClaims else []
  }

  // ---- Reviewers ----

  /** `a` sorts before `b`, as timestamps of one form do. */
  predicate Before(a: string, b: string) {
    if b == "" then false
    else if a == "" then true
    else a[0] < b[0] || (a[0] == b[0] && Before(a[1..], b[1..]))
  }

  function Matching(reviewers: seq<Grant>, identity: string): seq<Grant> {
    Filter((g: Grant) => g.identity == identity, reviewers)
  }

  predicate Serves(g: Grant, r: Review, now: string) {
    g.authority == r.authority && !(g.notAfter.Some? && Before(g.notAfter.value, now))
  }

  function EligibleGrant(policy: Policy, r: Review, now: string): Option<Grant> {
    var matching := Matching(policy.reviewers, r.identity);
    if |matching| == 1 && Serves(matching[0], r, now) then Some(matching[0]) else None
  }

  datatype Standing = ReviewUnreadable | Elsewhere | ByProducer | Ineligible | NoPolicy | Bound

  predicate Produced(i: Inputs, r: Review) {
    i.result.Ok? && (r.identity == i.result.value.provider || r.identity == i.result.value.adapter)
  }

  function StandingOf(i: Inputs, r: Recorded<Review>): Standing {
    if r.Unread? then ReviewUnreadable
    else if SubjectOf(i) != Some(r.value.subject) then Elsewhere
    else if Produced(i, r.value) then ByProducer
    else if i.policy.None? then NoPolicy
    else if EligibleGrant(i.policy.value, r.value, i.now).Some? then Bound
    else Ineligible
  }

  function StandingState(s: Standing): State {
    match s
    case ReviewUnreadable => Unreadable
    case ByProducer => Fail
    case Ineligible => Unknown
    case NoPolicy => NotRecorded
    case _ => Pass
  }

  function BoundAmong(i: Inputs, reviews: seq<Recorded<Review>>): seq<Review> {
    if |reviews| == 0 then []
    else
      BoundAmong(i, reviews[..|reviews| - 1])
      + (if StandingOf(i, Last(reviews)).Bound? then [Last(reviews).value] else [])
  }

  function BoundReviews(i: Inputs): seq<Review> {
    BoundAmong(i, i.reviews)
  }

  function StandingStates(i: Inputs): seq<State> {
    seq(|i.reviews|, k requires 0 <= k < |i.reviews| => StandingState(StandingOf(i, i.reviews[k])))
  }

  predicate Accepts(r: Review) {
    r.recommendation.Accept? && r.requested == []
  }

  /** A count narrowed to 32 bits. */
  function Narrowed(n: nat): nat {
    n % 0x1_0000_0000
  }

  function Accepting(bound: seq<Review>): nat {
    |Filter(r => Accepts(r), bound)|
  }

  function AuthorityState(i: Inputs): State {
    var s := CombineAll(StandingStates(i));
    if i.policy.Some? && Narrowed(Accepting(BoundReviews(i))) < i.policy.value.quorum && s == Pass then NotRecorded
    else if i.policy.None? && s == Pass then NotRecorded
    else s
  }

  // ---- Semantic review ----

  function DispositionOf(claims: seq<ClaimReview>, id: string): (d: Option<ClaimDisposition>)
    ensures d.Some? <==> exists k :: 0 <= k < |claims| && claims[k].claimId == id
  {
    if |claims| == 0 then None
    else if claims[0].claimId == id then Some(claims[0].disposition)
    else
      var d := DispositionOf(claims[1..], id);
      assert forall k :: 1 <= k < |claims| ==> claims[k] == claims[1..][k - 1];
      d
  }

  function ClaimState(r: Review, id: string): State {
    match DispositionOf(r.claims, id)
    case Some(Supported) => Pass
    case Some(NotReviewed) => NotRecorded
    case None => NotRecorded
    case _ => Fail
  }

  function ClaimStates(r: Review, claims: seq<Claim>): seq<State> {
    seq(|claims|, k requires 0 <= k < |claims| => ClaimState(r, claims[k].id))
  }

  function ChangedStates(r: Review, changed: seq<string>): seq<State> {
    seq(|changed|, k requires 0 <= k < |changed| =>
          if DispositionOf(r.claims, changed[k]).Some? then Pass else NotRecorded)
  }

  function ReviewState(i: Inputs, r: Review): State {
    Combine(CombineAll(ClaimStates(r, ClaimsOf(i))), CombineAll(ChangedStates(r, ChangedClaims(i))))
  }

  function ReviewStates(i: Inputs, bound: seq<Review>): seq<State> {
    seq(|bound|, k requires 0 <= k < |bound| => ReviewState(i, bound[k]))
  }

  function SemanticState(i: Inputs): State {
    if BoundReviews(i) == [] then NotRecorded else CombineAll(ReviewStates(i, BoundReviews(i)))
  }

  // ---- Artifacts ----

  function AtPath(artifacts: seq<Artifact>, path: string): seq<Artifact> {
    Filter((a: Artifact) => a.path == path, artifacts)
  }

  function BytesState(store: Store, a: Artifact, max: nat): State {
    var bytes := store.retained(a.digest);
    if bytes.None? then NotRecorded
    else if store.digest(bytes.value) != a.digest then Fail
    else if |bytes.value| > max then Fail
    else if store.lines(bytes.value).None? then Fail
    else if Anchors.MissingOf(store.spelling, store.lines(bytes.value).value) != [] then Fail
    else Pass
  }

  function ExpectedState(store: Store, artifacts: seq<Artifact>, max: nat, path: string): State {
    var found := AtPath(artifacts, path);
    if |found| == 1 then BytesState(store, found[0], max) else Fail
  }

  function ExpectedStates(store: Store, artifacts: seq<Artifact>, max: nat, expected: seq<string>): seq<State> {
    seq(|expected|, k requires 0 <= k < |expected| => ExpectedState(store, artifacts, max, expected[k]))
  }

  function ExtraStates(artifacts: seq<Artifact>, expected: seq<string>): seq<State> {
    seq(|artifacts|, k requires 0 <= k < |artifacts| => if artifacts[k].path in expected then Pass else Fail)
  }

  function ArtifactState(store: Store, artifacts: seq<Artifact>, max: nat, expected: seq<string>): State {
    Combine(CombineAll(ExpectedStates(store, artifacts, max, expected)), CombineAll(ExtraStates(artifacts, expected)))
  }

  function DispositionState(d: ArtifactDisposition): State {
    match d
    case Acceptable => Pass
    case Unreviewed => NotRecorded
    case _ => Fail
  }

  function DispositionStates(r: Review): seq<State> {
    seq(|r.artifacts|, k requires 0 <= k < |r.artifacts| => DispositionState(r.artifacts[k]))
  }

  function ReviewedStates(bound: seq<Review>): seq<State> {
    seq(|bound|, k requires 0 <= k < |bound| => CombineAll(DispositionStates(bound[k])))
  }

  function ArtifactValidation(i: Inputs, store: Store): State {
    if SubjectOf(i).Some? && i.policy.Some?
    then Combine(ArtifactState(store, SubjectOf(i).value.artifacts, i.policy.value.maxBytes, i.task.expected),
                 CombineAll(ReviewedStates(BoundReviews(i))))
    else NotRecorded
  }

  // ---- Citations, evidence, freshness, delivery, boundary ----

  function OneCitation(c: CitationState): State {
    match c
    case Resolved => Pass
    case CitationUnsupported => Unsupported
    case CitationUnreadable => Unreadable
    case CitationNotRecorded => NotRecorded
    case _ => Fail
  }

  function CitationStates(citations: seq<CitationState>): seq<State> {
    seq(|citations|, k requires 0 <= k < |citations| => OneCitation(citations[k]))
  }

  function Claimed(claims: seq<Claim>): nat {
    if |claims| == 0 then 0 else Claimed(claims[..|claims| - 1]) + Last(claims).citations
  }

  function CitationResolution(i: Inputs): State {
    var claimed := Claimed(ClaimsOf(i));
    match i.context
    case None => if claimed == 0 then Pass else NotRecorded
    case Some(c) => if |c.citations| != claimed then NotRecorded else CombineAll(CitationStates(c.citations))
  }

  /** The last decision recorded for a reference. */
  function DecisionOf(evidence: seq<Evidence>, reference: string): Option<Decision> {
    if |evidence| == 0 then None
    else if Last(evidence).reference == reference then Some(Last(evidence).decision)
    else DecisionOf(evidence[..|evidence| - 1], reference)
  }

  function ReferenceState(context: Option<Context>, reference: string): State {
    var decision := if context.Some? then DecisionOf(context.value.evidence, reference) else None;
    match decision
    case Some(Admit) => Pass
    case Some(Refuse) => Fail
    case Some(Undecided) => Unknown
    case None => NotRecorded
  }

  function ReferenceStates(context: Option<Context>, references: seq<string>): seq<State> {
    seq(|references|, k requires 0 <= k < |references| => ReferenceState(context, references[k]))
  }

  function EvidenceAdmission(i: Inputs): State {
    CombineAll(ReferenceStates(i.context, References(ClaimsOf(i))))
  }

  function PacketState(context: Option<Context>): State {
    match context
    case None => NotRecorded
    case Some(c) =>
      match c.freshness
      case PacketsFresh => Pass
      case PacketsUnverified => Unknown
      case _ => Fail
  }

  function ManifestState(m: ManifestFreshness): State {
    match m
    case ManifestFresh => Pass
    case ManifestStale => Fail
    case ManifestIncomplete => Fail
    case ManifestUnverified => Unknown
    case ManifestUnsupported => Unsupported
    case ManifestUnreadable => Unreadable
    case ManifestNotRecorded => NotRecorded
  }

  function ObservedDelivery(i: Inputs): State {
    var first := if i.deliveryEligible.None? then NotRecorded
                 else if i.deliveryEligible.value then Pass else Fail;
    match i.context
    case None => Combine(first, NotRecorded)
    case Some(c) => if c.findings != [] then Fail else first
  }

  predicate Applied(expected: seq<string>, changed: seq<string>) {
    exists k :: 0 <= k < |expected| && expected[k] in changed
  }

  // ---- The twelve dimensions ----

  datatype Dimension =
    | TaskBinding
    | IntendedDelivery
    | AdapterObservedDelivery
    | ObservedTransport
    | SchemaValidation
    | CitationResolved
    | EvidenceAdmitted
    | SemanticReview
    | ArtifactsValid
    | ContextFreshness
    | AuthorityHeld
    | PublicationBoundary

  datatype Row = Row(dimension: Dimension, need: Need, state: State)

  function NeedOf(i: Inputs, d: Dimension): Need {
    if d.ObservedTransport? then (if i.policy.Some? then i.policy.value.transport else Required)
    else if d.SemanticReview? then i.task.semantic
    else Required
  }

  function StateOf(i: Inputs, store: Store, d: Dimension): State {
    match d
    case TaskBinding => if i.result.Ok? && SubjectOf(i).Some? then Pass else NotRecorded
    case IntendedDelivery =>
      if i.context.None? then NotRecorded
      else if i.context.value.manifest == i.task.contextManifest then Pass else Fail
    case AdapterObservedDelivery => ObservedDelivery(i)
    case ObservedTransport => NotRecorded
    case SchemaValidation =>
      if i.result.Ok? then Pass else if i.result.error.SchemaInvalid? then Fail else NotRecorded
    case CitationResolved => CitationResolution(i)
    case EvidenceAdmitted => EvidenceAdmission(i)
    case SemanticReview => SemanticState(i)
    case ArtifactsValid => ArtifactValidation(i, store)
    case ContextFreshness => Combine(PacketState(i.context), ManifestState(i.manifest))
    case AuthorityHeld => AuthorityState(i)
    case PublicationBoundary =>
      if i.changedPaths.None? then NotRecorded
      else if Applied(i.task.expected, i.changedPaths.value) then Fail else Pass
  }

  datatype Outcome = AcceptedDocumentation | RejectedDocumentation | NoAcceptance

  ghost predicate RequiredIs(i: Inputs, store: Store, d: Dimension, s: State) {
    NeedOf(i, d).Required? && StateOf(i, store, d) == s
  }

  ghost function OutcomeOf(i: Inputs, store: Store): Outcome {
    if exists d :: RequiredIs(i, store, d, Fail) then RejectedDocumentation
    else if (forall d :: NeedOf(i, d).Required? ==> RequiredIs(i, store, d, Pass)) && SubjectOf(i).Some?
    then AcceptedDocumentation
    else NoAcceptance
  }
}
