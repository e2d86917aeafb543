/**
 * The publication protocol as a state machine, and what holds in every reachable state.
 *
 * Any number of desk users edit, review, approve and publish in any order and at any times.
 * The publish endpoint is two steps: an authorization, which leaves a ticket, and the commit
 * under the event lock, which may come after anything else has happened.
 */
module PublicationLaws {
  import opened Common
  import opened Sentences
  import opened Desk
  import opened Publication
  import opened PublicationPolicy

  datatype Ticket = Ticket(user: UserId, event: EventId, previewHash: Hash, authorization: Authorization)

  datatype World = World(db: Database, tickets: set<Ticket>)

  datatype Action =
    | EditEvent(event: EventId, row: Event)
    | Scan(record: RecordId, isUnsafe: bool)
    | SetUser(user: UserId, account: User)
    | CreateClaim(body: ClaimBody, reviewer: Actor, now: int)
    | UpdateClaim(event: EventId, claim: ClaimId, patch: Patch, reviewer: Actor, now: int)
    | LinkEvidence(event: EventId, evidence: Evidence, reviewer: Actor, facts: RecordFacts)
    | ReviewClaim(principal: Principal, event: EventId, claim: ClaimId, now: int)
    | ApproveRelease(principal: Principal, event: EventId, publisher: UserId, content: Content, now: int)
    | RequestPublish(principal: Principal, event: EventId, previewHash: Hash, now: int)
    | CommitPublish(ticket: Ticket, content: Content, now: int)

  function Keep(w: World, result: Result<Database, Refusal>): World {
    if result.Ok? then w.(db := result.value) else w
  }

  function Step(w: World, a: Action): World {
    match a
    case EditEvent(event, row) => w.(db := w.db.(events := w.db.events[event := row]))
    case Scan(record, isUnsafe) =>
      w.(db := w.db.(unsafeRecords := if isUnsafe then w.db.unsafeRecords + {record} else w.db.unsafeRecords - {record}))
    case SetUser(user, account) => w.(db := w.db.(users := w.db.users[user := account]))
    case CreateClaim(body, reviewer, now) => Keep(w, Create(w.db, body, reviewer, now))
    case UpdateClaim(event, c, patch, reviewer, now) => Keep(w, Update(w.db, event, c, patch, reviewer, now))
    case LinkEvidence(event, row, reviewer, facts) => Keep(w, Link(w.db, event, row, reviewer, facts))
    case ReviewClaim(principal, event, c, now) => Keep(w, SecondReview(w.db, principal, event, c, now))
    case ApproveRelease(principal, event, publisher, content, now) => Keep(w, Approve(w.db, principal, event, publisher, content, now))
    case RequestPublish(principal, event, hash, now) =>
      var authorization := Authorize(w.db, principal, event, hash, now);
      if authorization.Ok? then w.(tickets := w.tickets + {Ticket(principal.user, event, hash, authorization.value)}) else w
    case CommitPublish(t, content, now) => if t in w.tickets then Keep(w, Commit(w.db, t, content, now)) else w
  }

  /** The second half of the endpoint: publish under the identities the ticket vouches for. */
  function Commit(db: Database, t: Ticket, content: Content, now: int): Result<Database, Refusal> {
    Publish(db, t.event, Trusted(content, t.user, t.authorization), t.previewHash, t.authorization.approval, now)
  }

  function RunAll(w: World, actions: seq<Action>): World
    decreases |actions|
  {
    if actions == [] then w else RunAll(Step(w, actions[0]), actions[1..])
  }

  /** A desk that has neither approved nor published anything yet. */
  ghost predicate Initial(w: World) {
    && w.db.approvals == [] && w.db.versions == [] && w.tickets == {}
    && forall c | 0 <= c < |w.db.claims| :: w.db.claims[c].secondApproval.None?
  }

  // ---------------------------------------------------------------------------------------
  // The invariant
  // ---------------------------------------------------------------------------------------

  /** The release is what the draft says, for the version and event state it names. */
  ghost predicate Renders(r: Release, d: Draft) {
    var layout := Layout(d.content.sentences);
    && r.title == d.content.title && r.sections == layout.sections && r.sentences == layout.snapshots
    && r.publishedBy == d.publishedBy && r.signedOffBy == d.signedOffBy
    && r.policy == d.content.policy && r.models == d.content.models
  }

  ghost predicate ApprovalOk(a: Approval) {
    && a.primary != a.approver && Strong(a.assurance) && a.expiresAt == a.approvedAt + VALIDITY
    && match a.kind
       case EventPublication =>
         && a.binding.ReleaseHash? && a.draft.Some?
         && var r := a.binding.release;
         && r.event == a.target && 3 <= r.snapshot.severity && Renders(r, a.draft.value)
         && r.publishedBy == DeskActor(a.primary) && r.signedOffBy == Some(DeskActor(a.approver))
       case ClaimSecondReview =>
         && a.binding.ReviewHash?
         && var r := a.binding.review;
         && r.claim == a.target && r.body.flags != [] && r.body.reviewedBy == Some(DeskActor(a.primary))
  }

  /** A linked second review saw exactly the claim and evidence as they are now. */
  ghost predicate ClaimOk(approvals: seq<Approval>, claim: Claim, c: ClaimId, evidence: seq<Evidence>) {
    claim.secondApproval.Some? ==>
      && claim.secondApproval.value < |approvals|
      && var a := approvals[claim.secondApproval.value];
      && a.kind == ClaimSecondReview && a.target == c
      && a.binding == ReviewHash(Reviewed(c, claim.body, EvidenceOf(evidence, c)))
      && claim.secondReviewedBy == Some(DeskActor(a.approver))
  }

  /** A published sensitive claim carries the live review of exactly its published content. */
  ghost predicate SensitiveOk(approvals: seq<Approval>, v: Version, c: ClaimId)
    requires c in v.claims
  {
    var claim := v.claims[c];
    claim.body.flags != [] ==>
      && claim.secondApproval.Some? && claim.secondApproval.value < |approvals|
      && var a := approvals[claim.secondApproval.value];
      && a.kind == ClaimSecondReview && a.target == c && v.publishedAt < a.expiresAt
      && a.binding.ReviewHash? && a.binding.review.claim == c && a.binding.review.body == claim.body
      && claim.body.reviewedBy == Some(DeskActor(a.primary)) && claim.secondReviewedBy == Some(DeskActor(a.approver))
      && forall e | e in v.evidence && v.evidence[e].claim == c ::
           e in a.binding.review.evidence && a.binding.review.evidence[e] == v.evidence[e]
  }

  /** The stored row is what its hash commits to. */
  ghost predicate Commits(v: Version) {
    && v.hash.ReleaseHash?
    && var r := v.hash.release;
    && r.event == v.event && r.versionNo == v.versionNo && r.snapshot == v.snapshot && r.title == v.title
    && v.summaries == Summaries(r.sections) && v.claimMap == ClaimMapOf(r.sentences) && r.claims == v.claims && r.evidence == v.evidence
    && r.publishedBy == v.publishedBy && r.signedOffBy == v.signedOffBy && r.policy == v.policy && r.models == v.models
  }

  ghost predicate ApprovalUsedOk(approvals: seq<Approval>, v: Version) {
    && (v.approval.Some? <==> 3 <= v.snapshot.severity)
    && (v.approval.Some? ==>
          && v.approval.value < |approvals|
          && var a := approvals[v.approval.value];
          && a.kind == EventPublication && a.target == v.event && a.binding == v.hash && v.publishedAt < a.expiresAt)
  }

  ghost predicate VersionOk(approvals: seq<Approval>, v: Version) {
    && Commits(v) && ApprovalUsedOk(approvals, v)
    && forall c | c in v.claims :: v.claims[c].body.event == v.event && SensitiveOk(approvals, v, c)
  }

  /** Every version continues the numbered, hash-linked chain of its event. */
  ghost predicate Chained(versions: seq<Version>) {
    forall i | 0 <= i < |versions| ::
      && versions[i].hash.ReleaseHash?
      && versions[i].versionNo == NextNo(versions[..i], versions[i].event)
      && versions[i].hash.release.previous == LatestHash(versions[..i], versions[i].event)
  }

  ghost predicate TicketOk(approvals: seq<Approval>, t: Ticket) {
    t.authorization.approval.Some? ==>
      t.authorization.approval.value < |approvals| && Matches(approvals[t.authorization.approval.value], t.event, t.previewHash, t.user)
  }

  ghost predicate Inv(w: World) {
    && (forall i | 0 <= i < |w.db.approvals| :: ApprovalOk(w.db.approvals[i]))
    && (forall c | 0 <= c < |w.db.claims| :: ClaimOk(w.db.approvals, w.db.claims[c], c, w.db.evidence))
    && (forall i | 0 <= i < |w.db.versions| :: VersionOk(w.db.approvals, w.db.versions[i]))
    && Chained(w.db.versions)
    && (forall t | t in w.tickets :: TicketOk(w.db.approvals, t))
  }

  /** Approvals, versions and evidence are only ever appended. */
  ghost predicate AppendOnly(before: Database, after: Database) {
    && before.approvals <= after.approvals && before.versions <= after.versions && before.evidence <= after.evidence
    && |before.claims| <= |after.claims|
  }

  // ---------------------------------------------------------------------------------------
  // Every step keeps the invariant
  // ---------------------------------------------------------------------------------------

  lemma MoreApprovals(w: World, more: seq<Approval>, t: World)
    requires Inv(w) && w.db.approvals <= more
    requires t.db.claims == w.db.claims && t.db.evidence == w.db.evidence && t.db.versions == w.db.versions && t.tickets == w.tickets
    requires t.db.approvals == more
    requires forall i | |w.db.approvals| <= i < |more| :: ApprovalOk(more[i])
    ensures Inv(t)
  {
    hide ApprovalOk, EvidenceOf, NextNo, LatestHash, Commits;
    forall i | 0 <= i < |w.db.approvals| ensures ApprovalOk(more[i]) {
      assert more[i] == w.db.approvals[i];
    }
    forall i | 0 <= i < |w.db.versions| ensures VersionOk(more, w.db.versions[i]) {
      assert VersionOk(w.db.approvals, w.db.versions[i]);
    }
    forall c | 0 <= c < |w.db.claims| ensures ClaimOk(more, w.db.claims[c], c, w.db.evidence) {
      assert ClaimOk(w.db.approvals, w.db.claims[c], c, w.db.evidence);
    }
    forall x | x in w.tickets ensures TicketOk(more, x) {
      assert TicketOk(w.db.approvals, x);
    }
  }

  /** Adding a row leaves the evidence of every other claim as it was. */
  lemma EvidenceOfOthers(rows: seq<Evidence>, row: Evidence, c: ClaimId)
    requires row.claim != c
    ensures EvidenceOf(rows + [row], c) == EvidenceOf(rows, c)
  {
  }

  ghost predicate ClaimsOk(db: Database) {
    forall c | 0 <= c < |db.claims| :: ClaimOk(db.approvals, db.claims[c], c, db.evidence)
  }

  lemma EditsPreserve(w: World, a: Action)
    requires Inv(w) && (a.CreateClaim? || a.UpdateClaim? || a.LinkEvidence?)
    ensures Inv(Step(w, a)) && AppendOnly(w.db, Step(w, a).db)
  {
    hide ApprovalOk, VersionOk, Chained, TicketOk, Patched, IsLinked;
    var t := Step(w, a);
    assert ClaimsOk(t.db) by {
      forall c | 0 <= c < |t.db.claims| ensures ClaimOk(t.db.approvals, t.db.claims[c], c, t.db.evidence) {
        if t.db.claims[c].secondApproval.Some? {
          assert ClaimOk(w.db.approvals, w.db.claims[c], c, w.db.evidence);
          if a.LinkEvidence? && t != w {
            EvidenceOfOthers(w.db.evidence, a.evidence, c);
          }
        }
      }
    }
  }

  lemma ReviewPreserves(w: World, principal: Principal, event: EventId, c: ClaimId, now: int)
    requires Inv(w)
    ensures var t := Step(w, ReviewClaim(principal, event, c, now)); Inv(t) && AppendOnly(w.db, t.db)
  {
    hide VersionOk, Chained, TicketOk, EvidenceOf;
    var result := SecondReview(w.db, principal, event, c, now);
    if result.Ok? {
      var more := result.value.approvals;
      var row := more[|w.db.approvals|];
      assert ApprovalOk(row);
      MoreApprovals(w, more, w.(db := w.db.(approvals := more)));
      var t := w.(db := result.value);
      forall d | 0 <= d < |t.db.claims| ensures ClaimOk(more, t.db.claims[d], d, t.db.evidence) {
        if d != c {
          assert ClaimOk(more, w.db.claims[d], d, w.db.evidence);
        }
      }
    }
  }

  lemma ApprovePreserves(w: World, principal: Principal, event: EventId, publisher: UserId, content: Content, now: int)
    requires Inv(w)
    ensures var t := Step(w, ApproveRelease(principal, event, publisher, content, now)); Inv(t) && AppendOnly(w.db, t.db)
  {
    hide VersionOk, Chained, TicketOk, ClaimOk, PolicyErrors, Loadable;
    var result := Approve(w.db, principal, event, publisher, content, now);
    if result.Ok? {
      var more := result.value.approvals;
      assert ApprovalOk(more[|w.db.approvals|]);
      MoreApprovals(w, more, w.(db := result.value));
    }
  }

  lemma RequestPreserves(w: World, principal: Principal, event: EventId, hash: Hash, now: int)
    requires Inv(w)
    ensures Inv(Step(w, RequestPublish(principal, event, hash, now)))
  {
    hide VersionOk, Chained, ClaimOk, ApprovalOk;
  }

  /** The claims of a release are exactly the ones its draft cites, all of them releasable. */
  lemma CitedAreReleasable(db: Database, event: EventId, draft: Draft, now: int, c: ClaimId) returns (section: Section)
    requires event in db.events && PolicyErrors(db, event, draft, now) == []
    requires c in CitedClaims(db, draft.content)
    ensures Releasable(db, event, draft.content, section, c, now)
  {
    hide PolicyErrors, Releasable;
    NoErrorsMeansPublishable(db, event, draft, now);
    var i :| 0 <= i < |draft.content.sentences| && c in draft.content.sentences[i].claims;
    section := draft.content.sentences[i].section;
  }

  /** What the second-review gate leaves behind on a published claim. */
  lemma PublishedSensitiveOk(db: Database, event: EventId, draft: Draft, approval: Option<ApprovalId>, now: int, c: ClaimId)
    requires event in db.events && PolicyErrors(db, event, draft, now) == []
    requires c in CitedClaims(db, draft.content)
    ensures var v := NewVersion(db, event, draft, approval, now);
            v.claims[c].body.event == v.event && SensitiveOk(db.approvals, v, c)
  {
    hide PolicyErrors, Layout;
    var section := CitedAreReleasable(db, event, draft, now, c);
  }

  /** A commit that succeeds appends a version that satisfies the invariant. */
  lemma NewVersionOk(w: World, t: Ticket, content: Content, now: int)
    requires Inv(w) && t in w.tickets && Commit(w.db, t, content, now).Ok?
    ensures var draft := Trusted(content, t.user, t.authorization);
            VersionOk(w.db.approvals, NewVersion(w.db, t.event, draft, t.authorization.approval, now))
  {
    hide PolicyErrors, Layout, Chained, ClaimOk, SensitiveOk, ClaimMapOf;
    var draft := Trusted(content, t.user, t.authorization);
    var v := NewVersion(w.db, t.event, draft, t.authorization.approval, now);
    LayoutClaimMap(content.sentences);
    forall c | c in v.claims ensures v.claims[c].body.event == v.event && SensitiveOk(w.db.approvals, v, c) {
      PublishedSensitiveOk(w.db, t.event, draft, t.authorization.approval, now, c);
    }
    assert TicketOk(w.db.approvals, t);
    if t.authorization.approval.Some? {
      assert ApprovalOk(w.db.approvals[t.authorization.approval.value]);
    }
  }

  lemma CommitPreserves(w: World, t: Ticket, content: Content, now: int)
    requires Inv(w)
    ensures var u := Step(w, CommitPublish(t, content, now)); Inv(u) && AppendOnly(w.db, u.db)
  {
    hide PolicyErrors, Layout, ClaimOk, VersionOk, ApprovalOk, Loadable, TicketOk;
    if t in w.tickets && Commit(w.db, t, content, now).Ok? {
      NewVersionOk(w, t, content, now);
      var draft := Trusted(content, t.user, t.authorization);
      var v := NewVersion(w.db, t.event, draft, t.authorization.approval, now);
      var versions := w.db.versions + [v];
      forall i | 0 <= i < |versions|
        ensures VersionOk(w.db.approvals, versions[i])
        ensures versions[i].hash.ReleaseHash?
        ensures versions[i].versionNo == NextNo(versions[..i], versions[i].event)
        ensures versions[i].hash.release.previous == LatestHash(versions[..i], versions[i].event)
      {
        if i < |w.db.versions| {
          assert versions[..i] == w.db.versions[..i] && versions[i] == w.db.versions[i];
        } else {
          assert versions[..i] == w.db.versions;
        }
      }
    }
  }

  lemma StepPreserves(w: World, a: Action)
    requires Inv(w)
    ensures Inv(Step(w, a)) && AppendOnly(w.db, Step(w, a).db)
  {
    hide ApprovalOk, VersionOk, Chained, TicketOk, ClaimOk;
    match a
    case EditEvent(event, row) =>
    case Scan(record, isUnsafe) =>
    case SetUser(user, account) =>
    case CreateClaim(body, reviewer, now) => EditsPreserve(w, a);
    case UpdateClaim(event, c, patch, reviewer, now) => EditsPreserve(w, a);
    case LinkEvidence(_, _, _, _) => EditsPreserve(w, a);
    case ReviewClaim(principal, event, c, now) => ReviewPreserves(w, principal, event, c, now);
    case ApproveRelease(principal, event, publisher, content, now) =>
      ApprovePreserves(w, principal, event, publisher, content, now);
    case RequestPublish(principal, event, hash, now) => RequestPreserves(w, principal, event, hash, now);
    case CommitPublish(t, content, now) => CommitPreserves(w, t, content, now);
  }

  lemma {:induction false} RunPreserves(w: World, actions: seq<Action>)
    requires Inv(w)
    ensures Inv(RunAll(w, actions)) && AppendOnly(w.db, RunAll(w, actions).db)
    decreases |actions|
  {
    hide Inv, Step;
    if actions != [] {
      StepPreserves(w, actions[0]);
      RunPreserves(Step(w, actions[0]), actions[1..]);
    }
  }
}
