/** The policy checks as the code runs them (publication.py:67-143, 182-222). */
module PolicyChecks {
  import opened Common
  import opened Sentences
  import opened Desk
  import opened Publication

  /** What `_publication_errors` sees of a claim (`ClaimPolicyView`). */
  datatype View = View(claim: Claim, evidenceCount: nat, secondReviewValid: bool)

  // ---------------------------------------------------------------------------------------
  // Evidence counts
  // ---------------------------------------------------------------------------------------

  predicate IsSelected(db: Database, content: Content, e: EvidenceId)
    requires e < |db.evidence|
  {
    e in content.evidence && db.evidence[e].record !in db.unsafeRecords
  }

  /** How many of the first `n` evidence rows are selected, safe, and support the claim. */
  function SelectedCount(db: Database, content: Content, c: ClaimId, n: nat): nat
    requires n <= |db.evidence|
  {
    if n == 0 then 0
    else SelectedCount(db, content, c, n - 1)
         + if IsSelected(db, content, n - 1) && db.evidence[n - 1].claim == c then 1 else 0
  }

  /** How many of the first `n` evidence rows support the claim. */
  function StoredCount(rows: seq<Evidence>, c: ClaimId, n: nat): nat
    requires n <= |rows|
  {
    if n == 0 then 0 else StoredCount(rows, c, n - 1) + if rows[n - 1].claim == c then 1 else 0
  }

  function CountIn(counts: map<ClaimId, nat>, c: ClaimId): nat {
    if c in counts then counts[c] else 0
  }

  function Min(a: nat, b: nat): nat {
    if a <= b then a else b
  }

  lemma {:induction false} SelectedCountPositive(db: Database, content: Content, c: ClaimId, n: nat)
    requires n <= |db.evidence|
    ensures SelectedCount(db, content, c, n) > 0 <==> exists e | 0 <= e < n :: IsSelected(db, content, e) && db.evidence[e].claim == c
    ensures SelectedCount(db, content, c, n) <= StoredCount(db.evidence, c, n)
  {
    hide IsSelected;
    if n > 0 {
      SelectedCountPositive(db, content, c, n - 1);
    }
  }

  /** The selected evidence rows of a claim whose records passed the security scan, among the first `n`. */
  ghost function SafeRows(db: Database, content: Content, c: ClaimId, n: nat): set<EvidenceId>
    requires n <= |db.evidence|
  {
    set e: EvidenceId | e < n && e in content.evidence && db.evidence[e].claim == c && db.evidence[e].record !in db.unsafeRecords
  }

  /** The selected count of a claim is the number of its selected, safe evidence rows. */
  lemma {:induction false} SelectedCountExactly(db: Database, content: Content, c: ClaimId, n: nat)
    requires n <= |db.evidence|
    ensures SelectedCount(db, content, c, n) == |SafeRows(db, content, c, n)|
  {
    if n > 0 {
      SelectedCountExactly(db, content, c, n - 1);
      var row := db.evidence[n - 1];
      var own := if n - 1 in content.evidence && row.claim == c && row.record !in db.unsafeRecords then {n - 1} else {};
      assert SafeRows(db, content, c, n) == SafeRows(db, content, c, n - 1) + own;
    }
  }

  /** The policy's count of a claim is positive exactly when the draft selects safe evidence for it. */
  lemma CountMeansSafeEvidence(db: Database, content: Content, c: ClaimId)
    ensures Min(StoredCount(db.evidence, c, |db.evidence|), SelectedCount(db, content, c, |db.evidence|)) > 0
            <==> HasSafeEvidence(db, content, c)
  {
    SelectedCountPositive(db, content, c, |db.evidence|);
    if HasSafeEvidence(db, content, c) {
      var i :| 0 <= i < |content.evidence| && IsSafe(db, content.evidence[i], c);
      assert IsSelected(db, content, content.evidence[i]);
    } else {
      forall e | 0 <= e < |db.evidence| && IsSelected(db, content, e) ensures db.evidence[e].claim != c {
        var i :| 0 <= i < |content.evidence| && content.evidence[i] == e;
        assert !IsSafe(db, content.evidence[i], c);
      }
    }
  }

  /** The views show the policy everything it needs of the cited claims among the first `n`. */
  ghost predicate FaithfulUpTo(db: Database, content: Content, views: map<ClaimId, View>, n: nat, now: int)
    requires n <= |db.claims|
  {
    forall c: ClaimId ::
      && (c in views <==> c < n && Cites(content, c))
      && (c in views ==>
            && views[c].claim == db.claims[c]
            && (views[c].evidenceCount > 0 <==> HasSafeEvidence(db, content, c))
            && (views[c].claim.body.flags != [] ==> views[c].secondReviewValid == SecondReviewValid(db, c, now)))
  }

  ghost predicate Faithful(db: Database, content: Content, views: map<ClaimId, View>, now: int) {
    FaithfulUpTo(db, content, views, |db.claims|, now)
  }

  // ---------------------------------------------------------------------------------------
  // Policy errors (publication.py, `_publication_errors`)
  // ---------------------------------------------------------------------------------------

  method CheckSection(body: ClaimBody, event: EventId, section: Section, evidenceCount: nat) returns (problems: seq<Problem>)
    ensures problems == SectionProblems(body, event, section, evidenceCount > 0)
  {
    problems := [];
    if body.event != event {
      problems := problems + [ForeignClaim];
    }
    if !Allowed(section, body.state) {
      problems := problems + [StateConflict(section)];
    }
    if IsFirm(body.state) && evidenceCount == 0 {
      problems := problems + [NoSafeEvidence];
    }
  }

  method CheckPrimaryReview(body: ClaimBody) returns (problems: seq<Problem>)
    ensures problems == PrimaryProblems(body)
  {
    problems := [];
    if body.proposedBy.ModelActor? && body.reviewedBy.None? {
      problems := problems + [UnreviewedModelClaim];
    }
    if body.reviewedBy.Some? && body.reviewedBy.value.ModelActor? {
      problems := problems + [ModelReviewer];
    }
  }

  method CheckSecondReview(reviewedBy: Option<Actor>, second: Option<Actor>, valid: bool) returns (problems: seq<Problem>)
    ensures problems == SecondProblems(reviewedBy, second, valid)
  {
    problems := [];
    if second.None? {
      problems := problems + [SecondReviewMissing];
    } else {
      if second.value.ModelActor? {
        problems := problems + [ModelSecondReviewer];
      }
      if reviewedBy == second {
        problems := problems + [SameSecondReviewer];
      }
      if !valid {
        problems := problems + [SecondReviewUnbound];
      }
    }
  }

  /** One citation of a loaded claim, check by check. */
  method CheckCitation(event: EventId, section: Section, c: ClaimId, view: View, ghost db: Database, ghost content: Content, ghost now: int)
    returns (errors: seq<PolicyError>)
    requires c < |db.claims| && view.claim == db.claims[c]
    requires view.evidenceCount > 0 <==> HasSafeEvidence(db, content, c)
    requires view.claim.body.flags != [] ==> view.secondReviewValid == SecondReviewValid(db, c, now)
    ensures errors == Tagged(c, Problems(db, event, section, c, HasSafeEvidence(db, content, c), now))
  {
    hide HasSafeEvidence, SecondReviewValid, SectionProblems, PrimaryProblems, SecondProblems, Tagged;
    var problems := CheckSection(view.claim.body, event, section, view.evidenceCount);
    var more := CheckPrimaryReview(view.claim.body);
    problems := problems + more;
    if view.claim.body.flags != [] {
      more := CheckSecondReview(view.claim.body.reviewedBy, view.claim.secondReviewedBy, view.secondReviewValid);
      problems := problems + more;
    }
    assert problems == Problems(db, event, section, c, HasSafeEvidence(db, content, c), now);
    errors := Tagged(c, problems);
  }

  method CheckHeader(row: Event, draft: Draft, views: map<ClaimId, View>, ghost db: Database, ghost now: int) returns (errors: seq<PolicyError>)
    requires Faithful(db, draft.content, views, now)
    ensures errors == HeaderErrors(db, row.severity, draft)
  {
    hide If, Faithful;
    var sentences := draft.content.sentences;
    MissingAreUnknown(db, draft.content, views, now);
    errors := If(exists i | 0 <= i < |sentences| :: exists c | c in sentences[i].claims :: c !in views, UnknownClaims);
    errors := errors + If(draft.publishedBy.ModelActor?, ModelPublisher);
    errors := errors + If(row.severity >= 3 && draft.signedOffBy.None?, SignOffMissing);
    errors := errors + If(draft.signedOffBy.Some? && draft.signedOffBy.value.ModelActor?, ModelSignOff);
    errors := errors + If(draft.signedOffBy == Some(draft.publishedBy), SelfSignOff);
  }

  method CheckSentence(event: EventId, content: Content, i: nat, views: map<ClaimId, View>, ghost db: Database, ghost now: int)
    returns (errors: seq<PolicyError>)
    requires i < |content.sentences| && Faithful(db, content, views, now)
    ensures errors == CitationErrors(db, event, content, content.sentences[i], |content.sentences[i].claims|, now)
  {
    hide Problems, Tagged, HasSafeEvidence, SecondReviewValid, Faithful;
    var sentence := content.sentences[i];
    errors := [];
    for j := 0 to |sentence.claims|
      invariant errors == CitationErrors(db, event, content, sentence, j, now)
    {
      var c := sentence.claims[j];
      ViewOf(db, content, views, i, j, now);
      if c in views {
        var found := CheckCitation(event, sentence.section, c, views[c], db, content, now);
        errors := errors + found;
      }
    }
  }

  method PublicationErrors(event: EventId, row: Event, draft: Draft, views: map<ClaimId, View>, ghost db: Database, ghost now: int)
    returns (errors: seq<PolicyError>)
    requires event in db.events && db.events[event] == row && Faithful(db, draft.content, views, now)
    ensures errors == PolicyErrors(db, event, draft, now)
  {
    hide HeaderErrors, CitationErrors, Faithful;
    var header := CheckHeader(row, draft, views, db, now);
    var body: seq<PolicyError> := [];
    for i := 0 to |draft.content.sentences|
      invariant body == SentenceErrors(db, event, draft.content, i, now)
    {
      var found := CheckSentence(event, draft.content, i, views, db, now);
      body := body + found;
    }
    errors := header + body;
  }

  /** What a faithful view says of one citation. */
  lemma ViewOf(db: Database, content: Content, views: map<ClaimId, View>, i: nat, j: nat, now: int)
    requires Faithful(db, content, views, now)
    requires i < |content.sentences| && j < |content.sentences[i].claims|
    ensures var c := content.sentences[i].claims[j];
            && (c in views <==> c < |db.claims|)
            && (c in views ==>
                  && views[c].claim == db.claims[c]
                  && (views[c].evidenceCount > 0 <==> HasSafeEvidence(db, content, c))
                  && (views[c].claim.body.flags != [] ==> views[c].secondReviewValid == SecondReviewValid(db, c, now)))
  {
    hide HasSafeEvidence, SecondReviewValid;
    assert Cites(content, content.sentences[i].claims[j]);
  }

  lemma MissingAreUnknown(db: Database, content: Content, views: map<ClaimId, View>, now: int)
    requires Faithful(db, content, views, now)
    ensures (exists i | 0 <= i < |content.sentences| :: exists c | c in content.sentences[i].claims :: c !in views)
            <==> (exists i | 0 <= i < |content.sentences| :: exists c | c in content.sentences[i].claims :: c >= |db.claims|)
  {
    hide HasSafeEvidence, SecondReviewValid;
    forall i, c | 0 <= i < |content.sentences| && c in content.sentences[i].claims
      ensures c !in views <==> c >= |db.claims|
    {
      assert Cites(content, c);
    }
  }
}
