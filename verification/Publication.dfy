/**
 * Content-bound publication (publication.py, approvals.py, approval_bindings.py, workspace.py):
 * what each operation must do, as functions on the database value.
 *
 * Time is a parameter of each operation.  A refused operation changes nothing.
 */
module Publication {
  import opened Common
  import opened Lines
  import opened Sentences
  import opened Desk

  // ---------------------------------------------------------------------------------------
  // Second reviews (approval_bindings.py)
  // ---------------------------------------------------------------------------------------

  /** The full evidence set of a claim. */
  function EvidenceOf(rows: seq<Evidence>, c: ClaimId): map<EvidenceId, Evidence> {
    map e: EvidenceId | 0 <= e < |rows| && rows[e].claim == c :: rows[e]
  }

  function ReviewSnapshot(db: Database, c: ClaimId): Reviewed
    requires c < |db.claims|
  {
    Reviewed(c, db.claims[c].body, EvidenceOf(db.evidence, c))
  }

  /** `desk_actor_user_id`. */
  function DeskUser(actor: Option<Actor>): Option<UserId> {
    if actor.Some? && actor.value.DeskActor? then Some(actor.value.user) else None
  }

  predicate Publisher(db: Database, user: UserId) {
    user in db.users && db.users[user].active && MayPublish(db.users[user].role)
  }

  predicate Approver(db: Database, user: UserId) {
    user in db.users && db.users[user].active && MayApprove(db.users[user].role)
  }

  /** The approval row is a live second review by `approver` of what `primary` reviewed. */
  predicate ReviewBacks(db: Database, a: Approval, c: ClaimId, primary: UserId, approver: UserId, now: int)
    requires c < |db.claims|
  {
    && a.kind == ClaimSecondReview && a.target == c
    && a.primary == primary && a.approver == approver && primary != approver
    && Strong(a.assurance) && now < a.expiresAt
    && Publisher(db, primary) && Approver(db, approver)
    && a.binding == ReviewHash(ReviewSnapshot(db, c))
  }

  predicate SecondReviewValid(db: Database, c: ClaimId, now: int)
    requires c < |db.claims|
  {
    var claim := db.claims[c];
    var primary, approver := DeskUser(claim.body.reviewedBy), DeskUser(claim.secondReviewedBy);
    && claim.secondApproval.Some? && claim.secondApproval.value < |db.approvals|
    && primary.Some? && approver.Some?
    && ReviewBacks(db, db.approvals[claim.secondApproval.value], c, primary.value, approver.value, now)
  }

  // ---------------------------------------------------------------------------------------
  // Publication policy (publication.py, `_publication_errors`)
  // ---------------------------------------------------------------------------------------

  predicate Cites(content: Content, c: ClaimId) {
    exists i | 0 <= i < |content.sentences| :: c in content.sentences[i].claims
  }

  /** The draft's evidence exists and belongs to its exact claim set. */
  predicate Loadable(db: Database, content: Content) {
    forall i | 0 <= i < |content.evidence| ::
      content.evidence[i] < |db.evidence| && Cites(content, db.evidence[content.evidence[i]].claim)
  }

  /** The selected evidence row supports the claim and its record passed the security scan. */
  predicate IsSafe(db: Database, e: EvidenceId, c: ClaimId) {
    e < |db.evidence| && db.evidence[e].claim == c && db.evidence[e].record !in db.unsafeRecords
  }

  predicate HasSafeEvidence(db: Database, content: Content, c: ClaimId) {
    exists i | 0 <= i < |content.evidence| :: IsSafe(db, content.evidence[i], c)
  }

  predicate IsFirm(state: ClaimState) {
    state.StateConfirmed? || state.StateCorroborated? || state.StateSingleOfficial?
  }

  predicate Allowed(section: Section, state: ClaimState) {
    match section
    case Confirmed => IsFirm(state)
    case Reported => state.StateReported? || state.StateDisputed?
    case Unknown => state.StateUnverified? || state.StateDisputed?
    case Changed => true
  }

  datatype Problem =
    | ForeignClaim
    | StateConflict(section: Section)
    | NoSafeEvidence
    | UnreviewedModelClaim
    | ModelReviewer
    | SecondReviewMissing
    | ModelSecondReviewer
    | SameSecondReviewer
    | SecondReviewUnbound

  datatype PolicyError =
    | UnknownClaims
    | ModelPublisher
    | SignOffMissing
    | ModelSignOff
    | SelfSignOff
    | ClaimError(claim: ClaimId, problem: Problem)

  function If<T>(condition: bool, error: T): seq<T> {
    if condition then [error] else []
  }

  function HeaderErrors(db: Database, severity: nat, draft: Draft): seq<PolicyError> {
    If(exists i | 0 <= i < |draft.content.sentences| :: exists c | c in draft.content.sentences[i].claims :: c >= |db.claims|, UnknownClaims)
    + If(draft.publishedBy.ModelActor?, ModelPublisher)
    + If(severity >= 3 && draft.signedOffBy.None?, SignOffMissing)
    + If(draft.signedOffBy.Some? && draft.signedOffBy.value.ModelActor?, ModelSignOff)
    + If(draft.signedOffBy == Some(draft.publishedBy), SelfSignOff)
  }

  /** Does the claim belong in this section of this event's release? */
  function SectionProblems(body: ClaimBody, event: EventId, section: Section, safe: bool): seq<Problem> {
    If(body.event != event, ForeignClaim)
    + If(!Allowed(section, body.state), StateConflict(section))
    + If(IsFirm(body.state) && !safe, NoSafeEvidence)
  }

  function PrimaryProblems(body: ClaimBody): seq<Problem> {
    If(body.proposedBy.ModelActor? && body.reviewedBy.None?, UnreviewedModelClaim)
    + If(body.reviewedBy.Some? && body.reviewedBy.value.ModelActor?, ModelReviewer)
  }

  /** The second-review checks, which only a sensitive claim has to pass. */
  function SecondProblems(reviewedBy: Option<Actor>, second: Option<Actor>, valid: bool): seq<Problem> {
    if second.None? then [SecondReviewMissing]
    else
      If(second.value.ModelActor?, ModelSecondReviewer)
      + If(reviewedBy == second, SameSecondReviewer)
      + If(!valid, SecondReviewUnbound)
  }

  /** The checks of one claim cited in one section, in the order the code appends them. */
  function Problems(db: Database, event: EventId, section: Section, c: ClaimId, safe: bool, now: int): seq<Problem>
    requires c < |db.claims|
  {
    var claim, body := db.claims[c], db.claims[c].body;
    SectionProblems(body, event, section, safe)
    + PrimaryProblems(body)
    + if body.flags == [] then [] else SecondProblems(body.reviewedBy, claim.secondReviewedBy, SecondReviewValid(db, c, now))
  }

  function Tagged(c: ClaimId, problems: seq<Problem>): seq<PolicyError> {
    seq(|problems|, i requires 0 <= i < |problems| => ClaimError(c, problems[i]))
  }

  /** The errors of the first `n` claims a sentence cites. */
  function CitationErrors(db: Database, event: EventId, content: Content, s: Sentence, n: nat, now: int): seq<PolicyError>
    requires n <= |s.claims|
  {
    if n == 0 then []
    else
      var c := s.claims[n - 1];
      CitationErrors(db, event, content, s, n - 1, now)
      + if c < |db.claims| then Tagged(c, Problems(db, event, s.section, c, HasSafeEvidence(db, content, c), now)) else []
  }

  /** The errors of the first `n` sentences. */
  function SentenceErrors(db: Database, event: EventId, content: Content, n: nat, now: int): seq<PolicyError>
    requires n <= |content.sentences|
  {
    if n == 0 then []
    else
      var s := content.sentences[n - 1];
      SentenceErrors(db, event, content, n - 1, now) + CitationErrors(db, event, content, s, |s.claims|, now)
  }

  function PolicyErrors(db: Database, event: EventId, draft: Draft, now: int): seq<PolicyError>
    requires event in db.events
  {
    HeaderErrors(db, db.events[event].severity, draft)
    + SentenceErrors(db, event, draft.content, |draft.content.sentences|, now)
  }

  // ---------------------------------------------------------------------------------------
  // The canonical release
  // ---------------------------------------------------------------------------------------

  function CitedClaims(db: Database, content: Content): map<ClaimId, Claim> {
    map c: ClaimId | 0 <= c < |db.claims| && Cites(content, c) :: db.claims[c]
  }

  function SelectedEvidence(db: Database, content: Content): map<EvidenceId, Evidence> {
    map e: EvidenceId | 0 <= e < |db.evidence| && e in content.evidence :: db.evidence[e]
  }

  /** The event's version with the greatest number. */
  function Latest(versions: seq<Version>, event: EventId): (latest: Option<Version>)
    ensures latest.Some? ==> latest.value in versions && latest.value.event == event
  {
    if versions == [] then None
    else
      var earlier, last := Latest(versions[..|versions| - 1], event), versions[|versions| - 1];
      if last.event == event && (earlier.None? || earlier.value.versionNo < last.versionNo) then Some(last) else earlier
  }

  function LatestHash(versions: seq<Version>, event: EventId): Option<Hash> {
    var latest := Latest(versions, event);
    if latest.Some? then Some(latest.value.hash) else None
  }

  function NextNo(versions: seq<Version>, event: EventId): nat {
    var latest := Latest(versions, event);
    if latest.Some? then latest.value.versionNo + 1 else 1
  }

  function Canonical(db: Database, event: EventId, draft: Draft): Release
    requires event in db.events
  {
    var layout := Layout(draft.content.sentences);
    Release(event, NextNo(db.versions, event), LatestHash(db.versions, event), db.events[event], draft.content.title,
            layout.sections, layout.snapshots, CitedClaims(db, draft.content), SelectedEvidence(db, draft.content),
            draft.publishedBy, draft.signedOffBy, draft.content.policy, draft.content.models)
  }

  // ---------------------------------------------------------------------------------------
  // Approving, authorizing and publishing
  // ---------------------------------------------------------------------------------------

  datatype Refusal =
    | NotFound
    | EvidenceMismatch
    | PolicyFailed(error: PolicyError)
    | StalePreview
    | ApprovalRecordRequired
    | ApprovalNotBound
    | RoleTooLow
    | WeakAssurance
    | SeverityTooLow
    | NotAPublisher
    | SamePerson
    | NoApproval
    | ApprovalExpired
    | BindingInvalid
    | NotSensitive
    | AlreadyReviewed
    | PrimaryNotBound
    | NoChanges
    | UnsafeRecord
    | AlreadyLinked
    | NotAdmissible
    | NotAssigned
    | NoRights

  /** The approval row backs this exact release (publication.py:502-540). */
  predicate ApprovalBacks(db: Database, event: EventId, draft: Draft, hash: Hash, id: ApprovalId, now: int) {
    && id < |db.approvals|
    && var a := db.approvals[id];
    && a.kind == EventPublication && a.target == event && a.binding == hash
    && draft.publishedBy == DeskActor(a.primary)
    && draft.signedOffBy == Some(DeskActor(a.approver))
    && a.primary != a.approver
    && Publisher(db, a.primary) && Approver(db, a.approver)
    && Strong(a.assurance) && now < a.expiresAt
  }

  function Publish(db: Database, event: EventId, draft: Draft, previewHash: Hash, approval: Option<ApprovalId>, now: int): Result<Database, Refusal> {
    if event !in db.events then Err(NotFound)
    else if !Loadable(db, draft.content) then Err(EvidenceMismatch)
    else
      var errors := PolicyErrors(db, event, draft, now);
      var hash := ReleaseHash(Canonical(db, event, draft));
      if errors != [] then Err(PolicyFailed(errors[0]))
      else if previewHash != hash then Err(StalePreview)
      else if db.events[event].severity >= 3 && approval.None? then Err(ApprovalRecordRequired)
      else if db.events[event].severity >= 3 && !ApprovalBacks(db, event, draft, hash, approval.value, now) then Err(ApprovalNotBound)
      else Ok(db.(versions := db.versions + [NewVersion(db, event, draft, approval, now)]))
  }

  function NewVersion(db: Database, event: EventId, draft: Draft, approval: Option<ApprovalId>, now: int): Version
    requires event in db.events
  {
    var layout := Layout(draft.content.sentences);
    Version(event, NextNo(db.versions, event), draft.content.title, Summaries(layout.sections), layout.claimMap,
            db.events[event], CitedClaims(db, draft.content), SelectedEvidence(db, draft.content),
            draft.publishedBy, draft.signedOffBy, approval, draft.content.policy, draft.content.models,
            ReleaseHash(Canonical(db, event, draft)), now)
  }

  function Approve(db: Database, principal: Principal, event: EventId, publisher: UserId, content: Content, now: int): Result<Database, Refusal> {
    if !MayApprove(principal.role) then Err(RoleTooLow)
    else if !Strong(principal.assurance) then Err(WeakAssurance)
    else if event !in db.events then Err(NotFound)
    else if db.events[event].severity < 3 then Err(SeverityTooLow)
    else if !Publisher(db, publisher) then Err(NotAPublisher)
    else if publisher == principal.user then Err(SamePerson)
    else if !Loadable(db, content) then Err(EvidenceMismatch)
    else
      var draft := Draft(content, DeskActor(publisher), Some(DeskActor(principal.user)));
      var errors := PolicyErrors(db, event, draft, now);
      if errors != [] then Err(PolicyFailed(errors[0]))
      else Ok(db.(approvals := db.approvals
                  + [Approval(EventPublication, event, ReleaseHash(Canonical(db, event, draft)), publisher, principal.user,
                              principal.assurance, now, now + VALIDITY, Some(draft))]))
  }

  predicate Matches(a: Approval, event: EventId, hash: Hash, user: UserId) {
    a.kind == EventPublication && a.target == event && a.binding == hash && a.primary == user
  }

  /** The most recent matching approval; the later row wins a tie. */
  function LatestApproval(approvals: seq<Approval>, event: EventId, hash: Hash, user: UserId): (id: Option<ApprovalId>)
    ensures id.Some? ==> id.value < |approvals| && Matches(approvals[id.value], event, hash, user)
    ensures id.None? ==> forall i | 0 <= i < |approvals| :: !Matches(approvals[i], event, hash, user)
  {
    if approvals == [] then None
    else
      var n := |approvals| - 1;
      var earlier := LatestApproval(approvals[..n], event, hash, user);
      if Matches(approvals[n], event, hash, user) && (earlier.None? || approvals[earlier.value].approvedAt <= approvals[n].approvedAt)
      then Some(n) else earlier
  }

  datatype Authorization = Authorization(approval: Option<ApprovalId>, signedOffBy: Option<Actor>)

  function Authorize(db: Database, principal: Principal, event: EventId, previewHash: Hash, now: int): Result<Authorization, Refusal> {
    if event !in db.events then Err(NotFound)
    else if db.events[event].severity < 3 then Ok(Authorization(None, None))
    else
      var id := LatestApproval(db.approvals, event, previewHash, principal.user);
      if id.None? then Err(NoApproval)
      else
        var a := db.approvals[id.value];
        if a.expiresAt <= now then Err(ApprovalExpired)
        else if !Strong(a.assurance) then Err(WeakAssurance)
        else if !Approver(db, a.approver) then Err(RoleTooLow)
        else if a.approver == principal.user then Err(SamePerson)
        else if a.draft.None? || a.draft.value.publishedBy != DeskActor(principal.user)
                || a.draft.value.signedOffBy != Some(DeskActor(a.approver)) then Err(BindingInvalid)
        else Ok(Authorization(id, Some(DeskActor(a.approver))))
  }

  /** The draft the endpoint publishes: the caller's content under trusted identities. */
  function Trusted(content: Content, user: UserId, authorization: Authorization): Draft {
    Draft(content, DeskActor(user), authorization.signedOffBy)
  }

  // ---------------------------------------------------------------------------------------
  // Editing
  // ---------------------------------------------------------------------------------------

  function SecondReview(db: Database, principal: Principal, event: EventId, c: ClaimId, now: int): Result<Database, Refusal> {
    if !MayApprove(principal.role) then Err(RoleTooLow)
    else if !Strong(principal.assurance) then Err(WeakAssurance)
    else if c >= |db.claims| || db.claims[c].body.event != event then Err(NotFound)
    else if db.claims[c].body.flags == [] then Err(NotSensitive)
    else if db.claims[c].secondApproval.Some? then Err(AlreadyReviewed)
    else
      var primary := DeskUser(db.claims[c].body.reviewedBy);
      if primary.None? then Err(PrimaryNotBound)
      else if !Publisher(db, primary.value) then Err(NotAPublisher)
      else if primary.value == principal.user then Err(SamePerson)
      else
        var row := Approval(ClaimSecondReview, c, ReviewHash(ReviewSnapshot(db, c)), primary.value, principal.user,
                            principal.assurance, now, now + VALIDITY, None);
        var claim := db.claims[c].(secondReviewedBy := Some(DeskActor(principal.user)), secondApproval := Some(|db.approvals|));
        Ok(db.(approvals := db.approvals + [row], claims := db.claims[c := claim]))
  }

  /**
   * The fields a claim update sets; `None` leaves a field alone.  `sameSpelling` says whether its
   * two names, if they are the same actor, are the same letter by letter: only then are they
   * found to be equal.
   */
  datatype Patch = Patch(text: Option<string>, claimant: Option<Option<string>>, state: Option<ClaimState>,
                         occurredAt: Option<Option<int>>, flags: Option<seq<string>>, second: Option<Option<Actor>>, sameSpelling: bool)

  predicate ChangesContent(p: Patch) {
    p.text.Some? || p.claimant.Some? || p.state.Some? || p.occurredAt.Some? || p.flags.Some?
  }

  function Or<T>(change: Option<T>, current: T): T {
    if change.Some? then change.value else current
  }

  function Patched(body: ClaimBody, p: Patch, reviewer: Actor, now: int): ClaimBody {
    body.(text := Or(p.text, body.text), claimant := Or(p.claimant, body.claimant), state := Or(p.state, body.state),
          occurredAt := Or(p.occurredAt, body.occurredAt), flags := Or(p.flags, body.flags),
          reviewedBy := Some(reviewer), reviewedAt := Some(now))
  }

  function Update(db: Database, event: EventId, c: ClaimId, p: Patch, reviewer: Actor, now: int): Result<Database, Refusal> {
    if reviewer.ModelActor? || (p.second.Some? && p.second.value.Some? && p.second.value.value.ModelActor?) then Err(NotAdmissible)
    else if !ChangesContent(p) && p.second.None? then Err(NoChanges)
    else if c >= |db.claims| || db.claims[c].body.event != event then Err(NotFound)
    else if p.second == Some(Some(reviewer)) && p.sameSpelling then Err(SamePerson)
    else
      var claim := db.claims[c];
      var second := if p.second.Some? then p.second.value else if ChangesContent(p) then None else claim.secondReviewedBy;
      Ok(db.(claims := db.claims[c := Claim(Patched(claim.body, p, reviewer, now), second, None, claim.firstSeenAt)]))
  }

  predicate IsLinked(db: Database, c: ClaimId, record: RecordId) {
    exists e | 0 <= e < |db.evidence| :: db.evidence[e].claim == c && db.evidence[e].record == record
  }

  /** Facts about a source record: whether it exists, is assigned to the event, and what its source's rights allow. */
  datatype RecordFacts = RecordFacts(known: bool, onEvent: bool, mayQuote: bool, mayAutomate: bool)

  /** Quoting needs another right than using the record without an excerpt. */
  predicate RightsAllow(facts: RecordFacts, excerpt: Option<string>) {
    if excerpt.Some? && Strip(excerpt.value) != "" then facts.mayQuote else facts.mayAutomate
  }

  function Link(db: Database, event: EventId, row: Evidence, reviewer: Actor, facts: RecordFacts): Result<Database, Refusal> {
    if reviewer.ModelActor? then Err(NotAdmissible)
    else if row.claim >= |db.claims| || db.claims[row.claim].body.event != event || !facts.known then Err(NotFound)
    else if row.record in db.unsafeRecords then Err(UnsafeRecord)
    else if !facts.onEvent then Err(NotAssigned)
    else if IsLinked(db, row.claim, row.record) then Err(AlreadyLinked)
    else if !RightsAllow(facts, row.excerpt) then Err(NoRights)
    else
      var claim := db.claims[row.claim].(secondReviewedBy := None, secondApproval := None);
      Ok(db.(claims := db.claims[row.claim := claim], evidence := db.evidence + [row]))
  }

  function Create(db: Database, body: ClaimBody, reviewer: Actor, now: int): Result<Database, Refusal> {
    if reviewer.ModelActor? then Err(NotAdmissible)
    else if body.event !in db.events then Err(NotFound)
    else
      var reviewed := body.(quantity := "", proposedBy := reviewer, reviewedBy := Some(reviewer), reviewedAt := Some(now));
      Ok(db.(claims := db.claims + [Claim(reviewed, None, None, now)]))
  }
}
