/**
 * What each operation of the editorial desk accepts and what it then changes, said in terms of
 * the rows alone: who may do it, when, and what the tables hold afterwards.
 */
module DeskLaws {
  import opened Common
  import opened Lines
  import opened Sentences
  import opened Desk
  import opened Publication
  import opened PublicationPolicy
  import opened PublicationLaws

  // ---------------------------------------------------------------------------------------
  // Publishing
  // ---------------------------------------------------------------------------------------

  /** Some sentence of the content cites the claim. */
  ghost predicate IsCited(content: Content, c: ClaimId) {
    exists i | 0 <= i < |content.sentences| :: c in content.sentences[i].claims
  }

  /** All selected evidence is there and belongs to cited claims. */
  ghost predicate OwnEvidence(db: Database, content: Content) {
    forall e | e in content.evidence :: e < |db.evidence| && IsCited(content, db.evidence[e].claim)
  }

  /** The maps hold exactly the cited claims and the selected evidence, as they are in the tables. */
  ghost predicate ShowsRows(db: Database, content: Content, claims: map<ClaimId, Claim>, evidence: map<EvidenceId, Evidence>) {
    && (forall c: ClaimId :: c in claims <==> c < |db.claims| && IsCited(content, c))
    && (forall c | c in claims :: claims[c] == db.claims[c])
    && (forall e: EvidenceId :: e in evidence <==> e < |db.evidence| && e in content.evidence)
    && (forall e | e in evidence :: evidence[e] == db.evidence[e])
  }

  /** The approval is of this hash, for these two people, both still entitled, and has not lapsed. */
  ghost predicate IsLive(db: Database, event: EventId, hash: Hash, draft: Draft, id: ApprovalId, now: int) {
    && id < |db.approvals|
    && var a := db.approvals[id];
    && a.kind == EventPublication && a.target == event && a.binding == hash && now < a.expiresAt
    && draft.publishedBy == DeskActor(a.primary) && draft.signedOffBy == Some(DeskActor(a.approver)) && a.primary != a.approver
    && a.assurance in {Mfa, PhishingResistant}
    && a.primary in db.users && db.users[a.primary].active && db.users[a.primary].role in {Analyst, SeniorAnalyst, Administrator}
    && a.approver in db.users && db.users[a.approver].active && db.users[a.approver].role in {SeniorAnalyst, Administrator}
  }

  /** The version is the draft, over the event, claims and evidence as they are now. */
  ghost predicate Publishes(db: Database, event: EventId, draft: Draft, hash: Hash, approval: Option<ApprovalId>, now: int, v: Version) {
    && event in db.events && v.event == event && v.snapshot == db.events[event] && v.hash == hash && v.publishedAt == now
    && v.title == draft.content.title && v.policy == draft.content.policy && v.models == draft.content.models
    && v.publishedBy == draft.publishedBy && v.signedOffBy == draft.signedOffBy && v.approval == approval
    && v.summaries == Summaries(Layout(draft.content.sentences).sections) && v.claimMap == Layout(draft.content.sentences).claimMap
    && ShowsRows(db, draft.content, v.claims, v.evidence)
    && v.versionNo == NextNo(db.versions, event)
  }

  /**
   * The publish endpoint commits a ticket exactly if the event exists, the selected evidence is
   * its cited claims' own, the draft is publishable, the hash is that of the release as it is
   * now and, from severity 3 on, the ticket's approval is live and bound to all this.  It then
   * appends exactly one version.
   */
  lemma CommitSucceedsExactly(db: Database, t: Ticket, content: Content, now: int)
    ensures var draft, r := Trusted(content, t.user, t.authorization), Commit(db, t, content, now);
            && (r.Ok? <==>
                  && t.event in db.events && OwnEvidence(db, content) && Publishable(db, t.event, draft, now)
                  && t.previewHash == ReleaseHash(Canonical(db, t.event, draft))
                  && (db.events[t.event].severity >= 3 ==>
                        t.authorization.approval.Some? && IsLive(db, t.event, t.previewHash, draft, t.authorization.approval.value, now)))
            && (r.Ok? ==>
                  && |r.value.versions| == |db.versions| + 1
                  && r.value == db.(versions := db.versions + [r.value.versions[|db.versions|]])
                  && Publishes(db, t.event, draft, t.previewHash, t.authorization.approval, now, r.value.versions[|db.versions|]))
  {
    hide PolicyErrors, Publishable, Canonical, Layout, NextNo;
    OwnEvidenceIsLoadable(db, content);
    if t.event in db.events {
      var draft := Trusted(content, t.user, t.authorization);
      NoErrorsMeansPublishable(db, t.event, draft, now);
      RowsAreShown(db, content);
    }
  }

  lemma OwnEvidenceIsLoadable(db: Database, content: Content)
    ensures Loadable(db, content) <==> OwnEvidence(db, content)
  {
    if Loadable(db, content) {
      forall e | e in content.evidence ensures e < |db.evidence| && IsCited(content, db.evidence[e].claim) {
        var i :| 0 <= i < |content.evidence| && content.evidence[i] == e;
      }
    }
    if OwnEvidence(db, content) {
      forall i | 0 <= i < |content.evidence|
        ensures content.evidence[i] < |db.evidence| && Cites(content, db.evidence[content.evidence[i]].claim)
      {
        assert content.evidence[i] in content.evidence;
      }
    }
  }

  lemma RowsAreShown(db: Database, content: Content)
    ensures ShowsRows(db, content, CitedClaims(db, content), SelectedEvidence(db, content))
  {
  }

  /**
   * Below severity 3 no approval is asked for: a publishable draft that is requested under its
   * current preview hash and committed at once is published, signed off by nobody.
   */
  lemma LowSeverityGoesThrough(db: Database, principal: Principal, event: EventId, content: Content, at: int, now: int)
    requires event in db.events && db.events[event].severity < 3 && OwnEvidence(db, content)
    requires Publishable(db, event, Draft(content, DeskActor(principal.user), None), now)
    ensures var draft := Draft(content, DeskActor(principal.user), None);
            var hash := ReleaseHash(Canonical(db, event, draft));
            && Authorize(db, principal, event, hash, at) == Ok(Authorization(None, None))
            && var r := Commit(db, Ticket(principal.user, event, hash, Authorization(None, None)), content, now);
            && r.Ok? && |r.value.versions| == |db.versions| + 1
            && Publishes(db, event, draft, hash, None, now, r.value.versions[|db.versions|])
  {
    hide Publishable, Canonical, Commit, Publishes;
    var hash := ReleaseHash(Canonical(db, event, Draft(content, DeskActor(principal.user), None)));
    CommitSucceedsExactly(db, Ticket(principal.user, event, hash, Authorization(None, None)), content, now);
  }

  // ---------------------------------------------------------------------------------------
  // Authorizing
  // ---------------------------------------------------------------------------------------

  /** The approval is of this preview for this publisher. */
  ghost predicate Covers(a: Approval, event: EventId, hash: Hash, user: UserId) {
    a.kind == EventPublication && a.target == event && a.binding == hash && a.primary == user
  }

  /** Of all approvals of this preview for this publisher, the one given last. */
  ghost predicate IsLastApproval(approvals: seq<Approval>, event: EventId, hash: Hash, user: UserId, id: ApprovalId) {
    && id < |approvals| && Covers(approvals[id], event, hash, user)
    && forall j | 0 <= j < |approvals| && j != id && Covers(approvals[j], event, hash, user) ::
         approvals[j].approvedAt < approvals[id].approvedAt || (approvals[j].approvedAt == approvals[id].approvedAt && j < id)
  }

  lemma {:induction false} LastApprovalIsLatest(approvals: seq<Approval>, event: EventId, hash: Hash, user: UserId, id: ApprovalId)
    ensures LatestApproval(approvals, event, hash, user) == Some(id) <==> IsLastApproval(approvals, event, hash, user, id)
  {
    if approvals != [] {
      var front := approvals[..|approvals| - 1];
      var earlier := LatestApproval(front, event, hash, user);
      LastApprovalIsLatest(front, event, hash, user, id);
      if earlier.Some? {
        LastApprovalIsLatest(front, event, hash, user, earlier.value);
      }
      assert forall j | 0 <= j < |front| :: front[j] == approvals[j];
      assert forall j | 0 <= j < |front| && Covers(approvals[j], event, hash, user) :: Matches(front[j], event, hash, user);
    }
  }

  /** The publisher may rely on the approval now: it has not lapsed, and another, entitled person gave it for this publisher's draft. */
  ghost predicate MayRelyOn(db: Database, a: Approval, user: UserId, now: int) {
    && now < a.expiresAt && a.assurance in {Mfa, PhishingResistant} && a.approver != user
    && a.approver in db.users && db.users[a.approver].active && db.users[a.approver].role in {SeniorAnalyst, Administrator}
    && a.draft.Some? && a.draft.value.publishedBy == DeskActor(user) && a.draft.value.signedOffBy == Some(DeskActor(a.approver))
  }

  /**
   * Publication is authorized exactly below severity 3, where no approval is looked for, and from
   * severity 3 on if the publisher may rely on the last approval of this preview.
   */
  lemma AuthorizedExactly(db: Database, principal: Principal, event: EventId, hash: Hash, now: int, authorization: Authorization)
    ensures Authorize(db, principal, event, hash, now) == Ok(authorization) <==>
              && event in db.events
              && if db.events[event].severity < 3 then authorization == Authorization(None, None)
                 else
                   && authorization.approval.Some?
                   && var id := authorization.approval.value;
                   && IsLastApproval(db.approvals, event, hash, principal.user, id) && MayRelyOn(db, db.approvals[id], principal.user, now)
                   && authorization.signedOffBy == Some(DeskActor(db.approvals[id].approver))
  {
    hide LatestApproval, IsLastApproval;
    var latest := LatestApproval(db.approvals, event, hash, principal.user);
    if latest.Some? {
      LastApprovalIsLatest(db.approvals, event, hash, principal.user, latest.value);
    }
    if authorization.approval.Some? {
      LastApprovalIsLatest(db.approvals, event, hash, principal.user, authorization.approval.value);
      assert IsLastApproval(db.approvals, event, hash, principal.user, authorization.approval.value) ==> authorization.approval.value < |db.approvals| by {
        var id := authorization.approval.value;
        assert IsLastApproval(db.approvals, event, hash, principal.user, id) ==> LatestApproval(db.approvals, event, hash, principal.user) == Some(id);
      }
    }
  }

  // ---------------------------------------------------------------------------------------
  // Approving
  // ---------------------------------------------------------------------------------------

  /** A person who may approve, strongly authenticated. */
  ghost predicate MayDecide(principal: Principal) {
    principal.role in {SeniorAnalyst, Administrator} && principal.assurance in {Mfa, PhishingResistant}
  }

  ghost predicate IsActivePublisher(db: Database, user: UserId) {
    user in db.users && db.users[user].active && db.users[user].role in {Analyst, SeniorAnalyst, Administrator}
  }

  /**
   * A release is approved exactly by an entitled person other than its publisher, from severity 3
   * on, and if it is publishable under both names; the one row that is added binds the release as
   * it is now for a quarter of an hour.
   */
  lemma ApprovedExactly(db: Database, principal: Principal, event: EventId, publisher: UserId, content: Content, now: int)
    ensures var draft, r := Draft(content, DeskActor(publisher), Some(DeskActor(principal.user))), Approve(db, principal, event, publisher, content, now);
            && (r.Ok? <==>
                  && MayDecide(principal) && event in db.events && db.events[event].severity >= 3
                  && IsActivePublisher(db, publisher) && publisher != principal.user
                  && OwnEvidence(db, content) && Publishable(db, event, draft, now))
            && (r.Ok? ==>
                  r.value == db.(approvals := db.approvals
                                 + [Approval(EventPublication, event, ReleaseHash(Canonical(db, event, draft)), publisher, principal.user,
                                             principal.assurance, now, now + 900, Some(draft))]))
  {
    hide PolicyErrors, Publishable, Canonical, Loadable, OwnEvidence;
    OwnEvidenceIsLoadable(db, content);
    if event in db.events {
      NoErrorsMeansPublishable(db, event, Draft(content, DeskActor(publisher), Some(DeskActor(principal.user))), now);
    }
  }

  // ---------------------------------------------------------------------------------------
  // Second reviews
  // ---------------------------------------------------------------------------------------

  /**
   * A second review is stored exactly if an entitled person gives it on a sensitive claim of the
   * event that has none yet and that another, active desk user reviewed first.
   */
  lemma SecondReviewedExactly(db: Database, principal: Principal, event: EventId, c: ClaimId, now: int)
    ensures var r := SecondReview(db, principal, event, c, now);
            && (r.Ok? <==>
                  && MayDecide(principal) && c < |db.claims| && db.claims[c].body.event == event
                  && db.claims[c].body.flags != [] && db.claims[c].secondApproval.None?
                  && db.claims[c].body.reviewedBy.Some? && db.claims[c].body.reviewedBy.value.DeskActor?
                  && IsActivePublisher(db, db.claims[c].body.reviewedBy.value.user)
                  && db.claims[c].body.reviewedBy.value.user != principal.user)
            && (r.Ok? ==>
                  && |r.value.approvals| == |db.approvals| + 1 && db.approvals < r.value.approvals
                  && r.value == db.(approvals := r.value.approvals,
                                    claims := db.claims[c := db.claims[c].(secondReviewedBy := Some(DeskActor(principal.user)),
                                                                           secondApproval := Some(|db.approvals|))]))
  {
    hide ReviewSnapshot;
  }

  /** A stored second review counts at once, and for a quarter of an hour, if its reviewer is a registered approver. */
  lemma SecondReviewCountsAtOnce(db: Database, principal: Principal, event: EventId, c: ClaimId, now: int, later: int)
    requires SecondReview(db, principal, event, c, now).Ok?
    ensures SecondReviewValid(SecondReview(db, principal, event, c, now).value, c, later) <==> later < now + 900 && Approver(db, principal.user)
  {
    hide EvidenceOf;
  }

  // ---------------------------------------------------------------------------------------
  // Editing
  // ---------------------------------------------------------------------------------------

  ghost predicate IsHuman(actor: Actor) {
    !actor.ModelActor?
  }

  /** The update sets something besides its reviewer. */
  ghost predicate SetsSomething(p: Patch) {
    p.text.Some? || p.claimant.Some? || p.state.Some? || p.occurredAt.Some? || p.flags.Some? || p.second.Some?
  }

  /** Each named field has its new value, every other field is as it was. */
  ghost predicate IsPatched(before: ClaimBody, p: Patch, reviewer: Actor, now: int, after: ClaimBody) {
    && (if p.text.Some? then after.text == p.text.value else after.text == before.text)
    && (if p.claimant.Some? then after.claimant == p.claimant.value else after.claimant == before.claimant)
    && (if p.state.Some? then after.state == p.state.value else after.state == before.state)
    && (if p.occurredAt.Some? then after.occurredAt == p.occurredAt.value else after.occurredAt == before.occurredAt)
    && (if p.flags.Some? then after.flags == p.flags.value else after.flags == before.flags)
    && after.event == before.event && after.quantity == before.quantity && after.proposedBy == before.proposedBy
    && after.reviewedBy == Some(reviewer) && after.reviewedAt == Some(now)
  }

  /**
   * A claim update is accepted exactly from a human reviewer, with something to set, on a claim of
   * the event, unless it names the reviewer again as the second one.  Whatever it sets, no second
   * review is linked afterwards, and none counts.
   */
  lemma UpdatedExactly(db: Database, event: EventId, c: ClaimId, p: Patch, reviewer: Actor, now: int)
    ensures var r := Update(db, event, c, p, reviewer, now);
            && (r.Ok? <==>
                  && IsHuman(reviewer) && (p.second.Some? && p.second.value.Some? ==> IsHuman(p.second.value.value)) && SetsSomething(p)
                  && c < |db.claims| && db.claims[c].body.event == event && !(p.second == Some(Some(reviewer)) && p.sameSpelling))
            && (r.Ok? ==>
                  && |r.value.claims| == |db.claims| && r.value == db.(claims := db.claims[c := r.value.claims[c]])
                  && IsPatched(db.claims[c].body, p, reviewer, now, r.value.claims[c].body)
                  && r.value.claims[c].firstSeenAt == db.claims[c].firstSeenAt
                  && (p.second.Some? ==> r.value.claims[c].secondReviewedBy == p.second.value)
                  && forall later :: !SecondReviewValid(r.value, c, later))
  {
    hide ReviewBacks;
  }

  /** The claim has an evidence row from the record. */
  ghost predicate HasEvidenceFrom(db: Database, c: ClaimId, record: RecordId) {
    exists e | e in db.evidence :: e.claim == c && e.record == record
  }

  /**
   * Evidence is linked exactly by a human, to a claim of the event, from a known, safe record that
   * is assigned to the event, is not linked yet, and whose rights allow this use: quoting, if there
   * is an excerpt.  No second review of the claim counts after that.
   */
  lemma LinkedExactly(db: Database, event: EventId, row: Evidence, reviewer: Actor, facts: RecordFacts)
    ensures var r := Link(db, event, row, reviewer, facts);
            && (r.Ok? <==>
                  && IsHuman(reviewer) && row.claim < |db.claims| && db.claims[row.claim].body.event == event
                  && facts.known && facts.onEvent && row.record !in db.unsafeRecords && !HasEvidenceFrom(db, row.claim, row.record)
                  && (if row.excerpt.Some? && exists x | x in row.excerpt.value :: !IsSpace(x) then facts.mayQuote else facts.mayAutomate))
            && (r.Ok? ==>
                  && r.value.evidence == db.evidence + [row] && |r.value.claims| == |db.claims|
                  && r.value.claims[row.claim] == db.claims[row.claim].(secondReviewedBy := None, secondApproval := None)
                  && r.value == db.(evidence := r.value.evidence, claims := db.claims[row.claim := r.value.claims[row.claim]])
                  && forall later :: !SecondReviewValid(r.value, row.claim, later))
  {
    hide ReviewBacks, Strip;
    if row.excerpt.Some? {
      BlankExactly(row.excerpt.value);
    }
    if HasEvidenceFrom(db, row.claim, row.record) {
      var e :| e in db.evidence && e.claim == row.claim && e.record == row.record;
      var i :| 0 <= i < |db.evidence| && db.evidence[i] == e;
    }
  }

  lemma {:induction false} BlankExactly(text: string)
    ensures Strip(text) != "" <==> exists x | x in text :: !IsSpace(x)
  {
    StripLeftExactly(text);
    if Strip(text) != "" {
      assert Strip(text)[0] in text;
    }
    if x :| x in text && !IsSpace(x) {
      StripRightExactly(StripLeft(text));
    }
  }

  lemma {:induction false} StripLeftExactly(text: string)
    ensures StripLeft(text) == "" <==> forall x | x in text :: IsSpace(x)
  {
    if text != "" && IsSpace(text[0]) {
      StripLeftExactly(text[1..]);
      assert text == [text[0]] + text[1..];
    }
  }

  lemma {:induction false} StripRightExactly(text: string)
    ensures text != "" && !IsSpace(text[0]) ==> StripRight(text) != ""
  {
    if text != "" && IsSpace(text[|text| - 1]) {
      StripRightExactly(text[..|text| - 1]);
    }
  }

  /** A claim is created exactly by a human for an existing event; its author is its proposer and first reviewer. */
  lemma CreatedExactly(db: Database, body: ClaimBody, reviewer: Actor, now: int)
    ensures var r := Create(db, body, reviewer, now);
            && (r.Ok? <==> IsHuman(reviewer) && body.event in db.events)
            && (r.Ok? ==>
                  && |r.value.claims| == |db.claims| + 1
                  && r.value == db.(claims := db.claims + [r.value.claims[|db.claims|]])
                  && var claim := r.value.claims[|db.claims|];
                  && claim.body.event == body.event && claim.body.text == body.text && claim.body.claimant == body.claimant && claim.body.state == body.state
                  && claim.body.occurredAt == body.occurredAt && claim.body.flags == body.flags && claim.body.quantity == ""
                  && claim.body.proposedBy == reviewer && claim.body.reviewedBy == Some(reviewer) && claim.body.reviewedAt == Some(now)
                  && claim.secondReviewedBy.None? && claim.secondApproval.None? && claim.firstSeenAt == now)
  {
  }
}
