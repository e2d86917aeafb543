/** What an empty list of policy errors means (publication.py:67-143). */
module PublicationPolicy {
  import opened Common
  import opened Sentences
  import opened Desk
  import opened Publication

  /** The claim states that each section may show. */
  const SHOWN: BySection<set<ClaimState>> :=
    BySection({StateConfirmed, StateCorroborated, StateSingleOfficial}, {StateReported, StateDisputed}, {StateUnverified, StateDisputed},
              {StateConfirmed, StateReported, StateUnverified, StateCorroborated, StateSingleOfficial, StateDisputed})

  /** The draft selects evidence of the claim from a record that passed the security scan. */
  ghost predicate IsBacked(db: Database, content: Content, c: ClaimId) {
    exists e | e in content.evidence :: e < |db.evidence| && db.evidence[e].claim == c && db.evidence[e].record !in db.unsafeRecords
  }

  lemma BackedExactly(db: Database, content: Content, c: ClaimId)
    ensures HasSafeEvidence(db, content, c) <==> IsBacked(db, content, c)
  {
    if HasSafeEvidence(db, content, c) {
      var i :| 0 <= i < |content.evidence| && IsSafe(db, content.evidence[i], c);
      assert content.evidence[i] in content.evidence;
    }
  }

  /** The claim may appear in this section of the event's release. */
  ghost predicate Releasable(db: Database, event: EventId, content: Content, section: Section, c: ClaimId, now: int) {
    && c < |db.claims|
    && var body := db.claims[c].body;
    && body.event == event
    && body.state in SHOWN.Of(section)
    && (body.state in SHOWN.confirmed ==> IsBacked(db, content, c))
    && (body.proposedBy.ModelActor? ==> body.reviewedBy.Some?)
    && (body.reviewedBy.Some? ==> !body.reviewedBy.value.ModelActor?)
    && (body.flags != [] ==> SecondReviewValid(db, c, now))
  }

  ghost predicate Publishable(db: Database, event: EventId, draft: Draft, now: int)
    requires event in db.events
  {
    && !draft.publishedBy.ModelActor?
    && (db.events[event].severity >= 3 ==> draft.signedOffBy.Some?)
    && (draft.signedOffBy.Some? ==> !draft.signedOffBy.value.ModelActor? && draft.signedOffBy.value != draft.publishedBy)
    && forall i, c | 0 <= i < |draft.content.sentences| && c in draft.content.sentences[i].claims ::
         Releasable(db, event, draft.content, draft.content.sentences[i].section, c, now)
  }

  /** The nine checks of a citation together say that the claim may be released. */
  lemma NoProblems(db: Database, event: EventId, content: Content, section: Section, c: ClaimId, now: int)
    requires c < |db.claims|
    ensures Problems(db, event, section, c, HasSafeEvidence(db, content, c), now) == [] <==> Releasable(db, event, content, section, c, now)
  {
    BackedExactly(db, content, c);
    if SecondReviewValid(db, c, now) {
      assert db.claims[c].secondReviewedBy.value.DeskActor?;
      assert db.claims[c].body.reviewedBy != db.claims[c].secondReviewedBy;
    }
  }

  ghost predicate CitesReleasable(db: Database, event: EventId, content: Content, s: Sentence, n: nat, now: int)
    requires n <= |s.claims|
  {
    forall i | 0 <= i < n && s.claims[i] < |db.claims| :: Releasable(db, event, content, s.section, s.claims[i], now)
  }

  lemma {:induction false} NoCitationErrors(db: Database, event: EventId, content: Content, s: Sentence, n: nat, now: int)
    requires n <= |s.claims|
    ensures CitationErrors(db, event, content, s, n, now) == [] <==> CitesReleasable(db, event, content, s, n, now)
  {
    hide Problems, Releasable, HasSafeEvidence;
    if n > 0 {
      NoCitationErrors(db, event, content, s, n - 1, now);
      if s.claims[n - 1] < |db.claims| {
        NoProblems(db, event, content, s.section, s.claims[n - 1], now);
      }
    }
  }

  lemma {:induction false} NoSentenceErrors(db: Database, event: EventId, content: Content, n: nat, now: int)
    requires n <= |content.sentences|
    ensures SentenceErrors(db, event, content, n, now) == []
            <==> forall i | 0 <= i < n :: CitesReleasable(db, event, content, content.sentences[i], |content.sentences[i].claims|, now)
  {
    hide CitationErrors, CitesReleasable;
    if n > 0 {
      NoSentenceErrors(db, event, content, n - 1, now);
      NoCitationErrors(db, event, content, content.sentences[n - 1], |content.sentences[n - 1].claims|, now);
    }
  }

  /** A draft has no policy error exactly when it is publishable. */
  lemma NoErrorsMeansPublishable(db: Database, event: EventId, draft: Draft, now: int)
    requires event in db.events
    ensures PolicyErrors(db, event, draft, now) == [] <==> Publishable(db, event, draft, now)
  {
    var sentences := draft.content.sentences;
    NoSentenceErrors(db, event, draft.content, |sentences|, now);
    if PolicyErrors(db, event, draft, now) == [] {
      forall i, c | 0 <= i < |sentences| && c in sentences[i].claims
        ensures Releasable(db, event, draft.content, sentences[i].section, c, now)
      {
        var k :| 0 <= k < |sentences[i].claims| && sentences[i].claims[k] == c;
        assert CitesReleasable(db, event, draft.content, sentences[i], |sentences[i].claims|, now);
      }
    }
  }

  // ---------------------------------------------------------------------------------------
  // Which errors are reported
  // ---------------------------------------------------------------------------------------

  /** What a problem says about a claim cited in a section. */
  ghost predicate HasProblem(db: Database, event: EventId, content: Content, section: Section, c: ClaimId, problem: Problem, now: int)
    requires c < |db.claims|
  {
    var claim, body := db.claims[c], db.claims[c].body;
    match problem
    case ForeignClaim => body.event != event
    case StateConflict(s) => s == section && body.state !in SHOWN.Of(section)
    case NoSafeEvidence => body.state in SHOWN.confirmed && !IsBacked(db, content, c)
    case UnreviewedModelClaim => body.proposedBy.ModelActor? && body.reviewedBy.None?
    case ModelReviewer => body.reviewedBy.Some? && body.reviewedBy.value.ModelActor?
    case SecondReviewMissing => body.flags != [] && claim.secondReviewedBy.None?
    case ModelSecondReviewer => body.flags != [] && claim.secondReviewedBy.Some? && claim.secondReviewedBy.value.ModelActor?
    case SameSecondReviewer => body.flags != [] && claim.secondReviewedBy.Some? && claim.secondReviewedBy == body.reviewedBy
    case SecondReviewUnbound => body.flags != [] && claim.secondReviewedBy.Some? && !SecondReviewValid(db, c, now)
  }

  /** Some sentence cites the claim in a section where it has the problem. */
  ghost predicate IsProblematic(db: Database, event: EventId, content: Content, n: nat, c: ClaimId, problem: Problem, now: int)
    requires n <= |content.sentences| && c < |db.claims|
  {
    exists i | 0 <= i < n :: c in content.sentences[i].claims && HasProblem(db, event, content, content.sentences[i].section, c, problem, now)
  }

  /** What a policy error says about a draft. */
  ghost predicate IsViolated(db: Database, event: EventId, draft: Draft, e: PolicyError, now: int)
    requires event in db.events
  {
    match e
    case UnknownClaims => exists i, c | 0 <= i < |draft.content.sentences| && c in draft.content.sentences[i].claims :: c >= |db.claims|
    case ModelPublisher => draft.publishedBy.ModelActor?
    case SignOffMissing => db.events[event].severity >= 3 && draft.signedOffBy.None?
    case ModelSignOff => draft.signedOffBy.Some? && draft.signedOffBy.value.ModelActor?
    case SelfSignOff => draft.signedOffBy.Some? && draft.signedOffBy.value == draft.publishedBy
    case ClaimError(c, problem) => c < |db.claims| && IsProblematic(db, event, draft.content, |draft.content.sentences|, c, problem, now)
  }

  lemma SectionProblemsAre(body: ClaimBody, event: EventId, section: Section, safe: bool, problem: Problem)
    ensures problem in SectionProblems(body, event, section, safe) <==>
              || (problem == ForeignClaim && body.event != event)
              || (problem == StateConflict(section) && body.state !in SHOWN.Of(section))
              || (problem == NoSafeEvidence && body.state in SHOWN.confirmed && !safe)
  {
  }

  lemma PrimaryProblemsAre(body: ClaimBody, problem: Problem)
    ensures problem in PrimaryProblems(body) <==>
              || (problem == UnreviewedModelClaim && body.proposedBy.ModelActor? && body.reviewedBy.None?)
              || (problem == ModelReviewer && body.reviewedBy.Some? && body.reviewedBy.value.ModelActor?)
  {
  }

  lemma SecondProblemsAre(reviewedBy: Option<Actor>, second: Option<Actor>, valid: bool, problem: Problem)
    ensures problem in SecondProblems(reviewedBy, second, valid) <==>
              if second.None? then problem == SecondReviewMissing
              else
                || (problem == ModelSecondReviewer && second.value.ModelActor?)
                || (problem == SameSecondReviewer && second == reviewedBy)
                || (problem == SecondReviewUnbound && !valid)
  {
  }

  lemma ProblemsExactly(db: Database, event: EventId, content: Content, section: Section, c: ClaimId, problem: Problem, now: int)
    requires c < |db.claims|
    ensures problem in Problems(db, event, section, c, HasSafeEvidence(db, content, c), now) <==> HasProblem(db, event, content, section, c, problem, now)
  {
    hide SecondReviewValid, HasSafeEvidence, IsBacked, SectionProblems, PrimaryProblems, SecondProblems;
    var claim, body := db.claims[c], db.claims[c].body;
    BackedExactly(db, content, c);
    SectionProblemsAre(body, event, section, HasSafeEvidence(db, content, c), problem);
    PrimaryProblemsAre(body, problem);
    SecondProblemsAre(body.reviewedBy, claim.secondReviewedBy, SecondReviewValid(db, c, now), problem);
  }

  lemma TaggedExactly(c: ClaimId, problems: seq<Problem>, e: PolicyError)
    ensures e in Tagged(c, problems) <==> e.ClaimError? && e.claim == c && e.problem in problems
  {
    var tagged := Tagged(c, problems);
    if e.ClaimError? && e.claim == c && e.problem in problems {
      var i :| 0 <= i < |problems| && problems[i] == e.problem;
      assert tagged[i] == e;
    }
  }

  ghost predicate CitedProblem(db: Database, event: EventId, content: Content, s: Sentence, n: nat, e: PolicyError, now: int)
    requires n <= |s.claims|
  {
    e.ClaimError? && e.claim in s.claims[..n] && e.claim < |db.claims| && HasProblem(db, event, content, s.section, e.claim, e.problem, now)
  }

  lemma {:induction false} CitationErrorsExactly(db: Database, event: EventId, content: Content, s: Sentence, n: nat, e: PolicyError, now: int)
    requires n <= |s.claims|
    ensures e in CitationErrors(db, event, content, s, n, now) <==> CitedProblem(db, event, content, s, n, e, now)
  {
    hide Problems, HasProblem, HasSafeEvidence, Tagged;
    if n > 0 {
      CitationErrorsExactly(db, event, content, s, n - 1, e, now);
      assert s.claims[..n] == s.claims[..n - 1] + [s.claims[n - 1]];
      var c := s.claims[n - 1];
      if c < |db.claims| {
        TaggedExactly(c, Problems(db, event, s.section, c, HasSafeEvidence(db, content, c), now), e);
        if e.ClaimError? {
          ProblemsExactly(db, event, content, s.section, c, e.problem, now);
        }
      }
    }
  }

  lemma {:induction false} SentenceErrorsExactly(db: Database, event: EventId, content: Content, n: nat, e: PolicyError, now: int)
    requires n <= |content.sentences|
    ensures e in SentenceErrors(db, event, content, n, now) <==>
              e.ClaimError? && e.claim < |db.claims| && IsProblematic(db, event, content, n, e.claim, e.problem, now)
  {
    hide CitationErrors, HasProblem;
    if n > 0 {
      SentenceErrorsExactly(db, event, content, n - 1, e, now);
      var s := content.sentences[n - 1];
      CitationErrorsExactly(db, event, content, s, |s.claims|, e, now);
      assert s.claims[..|s.claims|] == s.claims;
    }
  }

  /** The policy reports exactly what is wrong: every reported error holds of the draft, and every error that holds is reported. */
  lemma ErrorsExactly(db: Database, event: EventId, draft: Draft, e: PolicyError, now: int)
    requires event in db.events
    ensures e in PolicyErrors(db, event, draft, now) <==> IsViolated(db, event, draft, e, now)
  {
    hide SentenceErrors, IsProblematic;
    SentenceErrorsExactly(db, event, draft.content, |draft.content.sentences|, e, now);
  }
}
