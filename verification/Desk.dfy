/**
 * The editorial desk's rows and identities (models.py), as values.
 *
 * Rows of append-only tables are numbered by insertion.  An actor string is kept as what the
 * code can observe in it: an authenticated desk identity, a model, or some other name, equal
 * exactly when the case-folded strings are.  Hashes are free constructors over the canonical
 * documents they digest, which is the collision-freeness the design relies on.
 */
module Desk {
  import opened Common
  import opened Sentences

  type UserId = nat
  type EventId = nat
  type EvidenceId = nat
  type RecordId = nat
  type ApprovalId = nat

  datatype Role = Analyst | SeniorAnalyst | Administrator | Security | Compliance | ServiceRole

  datatype Assurance = Password | Mfa | PhishingResistant | ServiceAssurance

  predicate MayPublish(role: Role) {
    role.Analyst? || role.SeniorAnalyst? || role.Administrator?
  }

  predicate MayApprove(role: Role) {
    role.SeniorAnalyst? || role.Administrator?
  }

  predicate Strong(assurance: Assurance) {
    assurance.Mfa? || assurance.PhishingResistant?
  }

  datatype User = User(role: Role, active: bool)

  datatype Principal = Principal(user: UserId, role: Role, assurance: Assurance)

  datatype Actor = DeskActor(user: UserId) | ModelActor(name: string) | OtherActor(name: string)

  datatype ClaimState = StateConfirmed | StateReported | StateUnverified | StateCorroborated | StateSingleOfficial | StateDisputed

  /** `details` stands for the event's other published attributes. */
  datatype Event = Event(severity: nat, details: string)

  /** What the primary review covers. */
  datatype ClaimBody = ClaimBody(event: EventId, text: string, claimant: Option<string>, state: ClaimState,
                                 occurredAt: Option<int>, quantity: string, proposedBy: Actor,
                                 reviewedBy: Option<Actor>, reviewedAt: Option<int>, flags: seq<string>)

  datatype Claim = Claim(body: ClaimBody, secondReviewedBy: Option<Actor>, secondApproval: Option<ApprovalId>, firstSeenAt: int)

  datatype Evidence = Evidence(claim: ClaimId, record: RecordId, primary: bool, root: nat, excerpt: Option<string>,
                               capture: Option<string>, rights: string)

  datatype Content = Content(title: string, sentences: seq<Sentence>, evidence: seq<EvidenceId>, policy: string, models: map<string, string>)

  datatype Draft = Draft(content: Content, publishedBy: Actor, signedOffBy: Option<Actor>)

  /** The document whose hash a publication approval is bound to. */
  datatype Release = Release(event: EventId, versionNo: nat, previous: Option<Hash>, snapshot: Event, title: string,
                             sections: BySection<seq<string>>, sentences: seq<Snapshot>,
                             claims: map<ClaimId, Claim>, evidence: map<EvidenceId, Evidence>,
                             publishedBy: Actor, signedOffBy: Option<Actor>, policy: string, models: map<string, string>)

  /** The document whose hash a second review is bound to. */
  datatype Reviewed = Reviewed(claim: ClaimId, body: ClaimBody, evidence: map<EvidenceId, Evidence>)

  datatype Hash = ReleaseHash(release: Release) | ReviewHash(review: Reviewed)

  datatype ApprovalKind = EventPublication | ClaimSecondReview

  datatype Approval = Approval(kind: ApprovalKind, target: nat, binding: Hash, primary: UserId, approver: UserId,
                               assurance: Assurance, approvedAt: int, expiresAt: int, draft: Option<Draft>)

  datatype Version = Version(event: EventId, versionNo: nat, title: string, summaries: BySection<string>,
                             claimMap: map<Key, seq<ClaimId>>, snapshot: Event,
                             claims: map<ClaimId, Claim>, evidence: map<EvidenceId, Evidence>,
                             publishedBy: Actor, signedOffBy: Option<Actor>, approval: Option<ApprovalId>,
                             policy: string, models: map<string, string>, hash: Hash, publishedAt: int)

  datatype Database = Database(events: map<EventId, Event>, claims: seq<Claim>, evidence: seq<Evidence>,
                               unsafeRecords: set<RecordId>, users: map<UserId, User>,
                               approvals: seq<Approval>, versions: seq<Version>)

  const VALIDITY: int := 15 * 60
}
