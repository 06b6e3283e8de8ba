/** A correction that a bound review requests: when an accepted record can still hold one. */
module AcceptanceRequests {
  import opened Prelude
  import opened Corrections
  import opened DimensionStates
  import opened Acceptance
  import opened AcceptanceTheorems
  import Anchors

  ghost predicate AnyRequests(i: Inputs) {
    exists k :: 0 <= k < |BoundReviews(i)| && BoundReviews(i)[k].requested != []
  }

  /** Accepted under a policy of quorum `q`, with `n` bound reviews. */
  ghost predicate AcceptedBy(i: Inputs, store: Store, q: nat, n: nat) {
    && OutcomeOf(i, store) == AcceptedDocumentation
    && i.policy.Some? && i.policy.value.quorum == q && |BoundReviews(i)| == n
  }

  lemma {:induction false} FilterKeepsAll(s: seq<Review>, k: nat)
    requires Accepting(s) == |s| && k < |s|
    ensures Accepts(s[k])
  {
    if k > 0 {
      FilterKeepsAll(s[1..], k - 1);
    }
  }

  /** With no more bound reviews than the quorum asks for, each of them accepts and requests nothing. */
  lemma NoRequestsWithinQuorum(i: Inputs, store: Store, q: nat, n: nat)
    requires AcceptedBy(i, store, q, n) && n <= q
    ensures !AnyRequests(i)
  {
    hide OutcomeOf, BoundReviews, Accepting, Narrowed, StandsWell;
    AcceptedExactly(i, store);
    NarrowedIsLess(Accepting(BoundReviews(i)), q);
    AcceptingIsPart(BoundReviews(i));
    forall k | 0 <= k < |BoundReviews(i)| ensures BoundReviews(i)[k].requested == [] {
      FilterKeepsAll(BoundReviews(i), k);
    }
  }

  lemma AcceptingIsPart(bound: seq<Review>)
    ensures Accepting(bound) <= |bound|
  {
  }

  // ---- A record with a quorum and one request more ----

  const NAMED := Subject(Core("repository", "base", "run", 0, "candidate", "manifest", "task", "schema", [], "policy"),
                         "result", [])

  /** The first `q` reviews accept and the others ask for a correction too. */
  function ReviewAt(q: nat, k: nat): Review {
    Review("review", NAMED, "owner", RepositoryOwner, [], [], if k < q then [] else ["correction"], Accept)
  }

  function Reviews(q: nat, n: nat): seq<Recorded<Review>> {
    seq(n, k requires 0 <= k < n => Valid(ReviewAt(q, k)))
  }

  function Sample(q: nat, n: nat): Inputs {
    Inputs("repository", "base", Some("candidate"), Task("run", 0, "manifest", "task", "schema", [], Required),
           Some(true), Some("result"), Ok(Documentation([], [], "provider", "adapter")),
           Some(Context("manifest", [], [], [], PacketsFresh)), ManifestFresh, Reviews(q, n), [],
           Some(Policy([Grant("owner", RepositoryOwner, None)], q, Optional, 0, "policy")), Some([]), "now")
  }

  lemma SampleSubject(q: nat, n: nat)
    ensures SubjectOf(Sample(q, n)) == Some(NAMED) && ChangedClaims(Sample(q, n)) == []
  {
  }

  lemma SampleIsEligible(q: nat, n: nat, k: nat)
    ensures EligibleGrant(Sample(q, n).policy.value, ReviewAt(q, k), Sample(q, n).now).Some?
    ensures !Produced(Sample(q, n), ReviewAt(q, k))
  {
    hide SubjectOf, Before;
    var grants := Sample(q, n).policy.value.reviewers;
    assert grants[1..] == [];
    assert Matching(grants, "owner") == [grants[0]];
    assert "owner"[0] != "provider"[0] && "owner"[0] != "adapter"[0];
  }

  lemma SampleStanding(q: nat, n: nat, k: nat)
    ensures StandingOf(Sample(q, n), Valid(ReviewAt(q, k))) == Bound
  {
    hide SubjectOf, EligibleGrant, Produced, NAMED;
    SampleSubject(q, n);
    SampleIsEligible(q, n, k);
  }

  lemma {:induction false} SampleBound(q: nat, n: nat, m: nat)
    requires m <= n
    ensures BoundAmong(Sample(q, n), Reviews(q, n)[..m]) == seq(m, k requires 0 <= k < m => ReviewAt(q, k))
  {
    hide StandingOf, Sample, ReviewAt;
    if m > 0 {
      SampleBound(q, n, m - 1);
      SampleStanding(q, n, m - 1);
      assert Reviews(q, n)[..m][..m - 1] == Reviews(q, n)[..m - 1];
    }
  }

  lemma SampleReviews(q: nat, n: nat)
    ensures BoundReviews(Sample(q, n)) == seq(n, k requires 0 <= k < n => ReviewAt(q, k))
  {
    hide BoundAmong, ReviewAt;
    SampleBound(q, n, n);
    assert Reviews(q, n)[..n] == Reviews(q, n);
  }

  lemma {:induction false} SampleAccepting(q: nat, m: nat)
    ensures Accepting(seq(m, k requires 0 <= k < m => ReviewAt(q, k))) == if m < q then m else q
  {
    if m > 0 {
      var all := seq(m, k requires 0 <= k < m => ReviewAt(q, k));
      var front := seq(m - 1, k requires 0 <= k < m - 1 => ReviewAt(q, k));
      SampleAccepting(q, m - 1);
      assert all == front + [ReviewAt(q, m - 1)];
      FilterAppend(r => Accepts(r), front, [ReviewAt(q, m - 1)]);
      assert [ReviewAt(q, m - 1)][1..] == [];
    }
  }

  lemma SampleAuthority(q: nat, n: nat)
    requires q <= n && q < 0x1_0000_0000
    ensures AuthorityHolds(Sample(q, n))
  {
    hide BoundReviews, Accepting, StandingOf, ReviewAt;
    SampleReviews(q, n);
    SampleAccepting(q, n);
    forall k | 0 <= k < n ensures StandsWell(Sample(q, n), Sample(q, n).reviews[k]) {
      SampleStanding(q, n, k);
    }
  }

  lemma SampleIsSupported(q: nat, n: nat)
    requires n > 0
    ensures AllSupport(Sample(q, n)) && AllAcceptable(BoundReviews(Sample(q, n)))
  {
    hide BoundReviews, SubjectOf, BaseSubject, Effective, NAMED;
    SampleReviews(q, n);
    SampleSubject(q, n);
  }

  lemma SampleHoldsTheRest(q: nat, n: nat, store: Store)
    ensures CitationsResolve(Sample(q, n)) && EvidenceAdmits(Sample(q, n))
    ensures ArtifactsMatch(store, [], 0, []) && !Applied([], [])
  {
    hide SubjectOf, Reviews;
  }

  lemma SampleIsAccepted(q: nat, n: nat, store: Store)
    requires q < n && q < 0x1_0000_0000
    ensures AcceptedBy(Sample(q, n), store, q, n) && AnyRequests(Sample(q, n))
  {
    hide BoundReviews, AuthorityHolds, AllSupport, AllAcceptable, SubjectOf, OutcomeOf, CitationsResolve,
      EvidenceAdmits, ArtifactsMatch, Applied, Reviews;
    SampleReviews(q, n);
    SampleSubject(q, n);
    SampleAuthority(q, n);
    SampleIsSupported(q, n);
    SampleHoldsTheRest(q, n, store);
    AcceptedExactly(Sample(q, n), store);
    assert BoundReviews(Sample(q, n))[q].requested != [];
  }

  /** A store that retains nothing; the sample names no artifact. */
  function Empty(): Store {
    Store(digest => None, bytes => "", bytes => None, Anchors.Spelling(line => line, anchor => anchor))
  }

  /**
   No accepted record with quorum `q` and `n` bound reviews holds a request if and only if the reviews are
   no more than the quorum, or the quorum is past the 32 bits the accepting ones are counted in.
   */
  lemma RequestsExcludedExactly(q: nat, n: nat)
    ensures (forall i, store :: AcceptedBy(i, store, q, n) ==> !AnyRequests(i)) <==> n <= q || q >= 0x1_0000_0000
  {
    hide AnyRequests, AcceptedBy;
    if n <= q || q >= 0x1_0000_0000 {
      forall i, store | AcceptedBy(i, store, q, n) ensures !AnyRequests(i) {
        if n <= q {
          NoRequestsWithinQuorum(i, store, q, n);
        } else {
          QuorumIsCountable(i, store, q, n);
        }
      }
    } else {
      SampleIsAccepted(q, n, Empty());
    }
  }

  lemma QuorumIsCountable(i: Inputs, store: Store, q: nat, n: nat)
    requires AcceptedBy(i, store, q, n)
    ensures q < 0x1_0000_0000
  {
    hide OutcomeOf, BoundReviews, Accepting, StandsWell;
    AcceptedExactly(i, store);
  }
}
