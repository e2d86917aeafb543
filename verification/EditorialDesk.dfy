/**
 * The editorial desk as the code runs it (publication.py, approvals.py, workspace.py): rows held
 * in fields that its methods update in place, each method proved to do exactly what the
 * specification functions of `Publication` say.
 */
module EditorialDesk {
  import opened Common
  import opened Lines
  import opened Sentences
  import opened Desk
  import opened Publication
  import opened PolicyChecks

  datatype Context = Context(row: Event, views: map<ClaimId, View>, claims: map<ClaimId, Claim>,
                             evidence: map<EvidenceId, Evidence>, latest: Option<Version>)

  datatype Preview = Preview(hash: Hash, errors: seq<PolicyError>, layout: Artifacts, context: Context)

  /** The context shows the draft's event, rows and policy views as they are in the database. */
  ghost predicate Loaded(db: Database, event: EventId, content: Content, now: int, x: Context) {
    && event in db.events && x.row == db.events[event] && Faithful(db, content, x.views, now)
    && x.claims == CitedClaims(db, content) && x.evidence == SelectedEvidence(db, content)
    && x.latest == Latest(db.versions, event)
  }

  /** The release a context and a layout make up. */
  function ReleaseOf(event: EventId, draft: Draft, layout: Artifacts, x: Context): Release {
    Release(event, if x.latest.Some? then x.latest.value.versionNo + 1 else 1,
            if x.latest.Some? then Some(x.latest.value.hash) else None,
            x.row, draft.content.title, layout.sections, layout.snapshots, x.claims, x.evidence,
            draft.publishedBy, draft.signedOffBy, draft.content.policy, draft.content.models)
  }

  class Session {
    var events: map<EventId, Event>
    var claims: seq<Claim>
    var evidence: seq<Evidence>
    var unsafeRecords: set<RecordId>
    var users: map<UserId, User>
    var approvals: seq<Approval>
    var versions: seq<Version>

    ghost function Contents(): Database
      reads this
    {
      Database(events, claims, evidence, unsafeRecords, users, approvals, versions)
    }

    // -------------------------------------------------------------------------------------
    // Queries
    // -------------------------------------------------------------------------------------

    method LatestVersion(event: EventId) returns (latest: Option<Version>)
      ensures latest == Latest(versions, event)
    {
      latest := None;
      for i := 0 to |versions|
        invariant latest == Latest(versions[..i], event)
      {
        assert versions[..i + 1][..i] == versions[..i];
        if versions[i].event == event && (latest.None? || latest.value.versionNo < versions[i].versionNo) {
          latest := Some(versions[i]);
        }
      }
      assert versions[..|versions|] == versions;
    }

    method FindApproval(event: EventId, hash: Hash, user: UserId) returns (id: Option<ApprovalId>)
      ensures id == LatestApproval(approvals, event, hash, user)
    {
      id := None;
      for i := 0 to |approvals|
        invariant id == LatestApproval(approvals[..i], event, hash, user)
      {
        assert approvals[..i + 1][..i] == approvals[..i];
        if Matches(approvals[i], event, hash, user) && (id.None? || approvals[id.value].approvedAt <= approvals[i].approvedAt) {
          id := Some(i);
        }
      }
      assert approvals[..|approvals|] == approvals;
    }

    predicate IsPublisher(user: UserId)
      reads this
    {
      user in users && users[user].active && MayPublish(users[user].role)
    }

    predicate IsApprover(user: UserId)
      reads this
    {
      user in users && users[user].active && MayApprove(users[user].role)
    }

    method ClaimSecondReviewIsValid(c: ClaimId, now: int) returns (valid: bool)
      requires c < |claims|
      ensures valid == SecondReviewValid(Contents(), c, now)
    {
      var claim := claims[c];
      if claim.secondApproval.None? || claim.secondApproval.value >= |approvals| {
        return false;
      }
      var approval := approvals[claim.secondApproval.value];
      var primary, approver := DeskUser(claim.body.reviewedBy), DeskUser(claim.secondReviewedBy);
      if primary.None? || approver.None? {
        return false;
      }
      if approval.kind != ClaimSecondReview || approval.target != c || approval.primary != primary.value
         || approval.approver != approver.value || primary == approver || !Strong(approval.assurance) || approval.expiresAt <= now {
        return false;
      }
      return IsPublisher(primary.value) && IsApprover(approver.value) && approval.binding == ReviewHash(Reviewed(c, claim.body, EvidenceOf(evidence, c)));
    }

    method SelectedCounts(content: Content) returns (counts: map<ClaimId, nat>)
      ensures forall c :: CountIn(counts, c) == SelectedCount(Contents(), content, c, |evidence|)
    {
      counts := map[];
      for e := 0 to |evidence|
        invariant forall c :: CountIn(counts, c) == SelectedCount(Contents(), content, c, e)
      {
        if e !in content.evidence || evidence[e].record in unsafeRecords {
          continue;
        }
        counts := counts[evidence[e].claim := CountIn(counts, evidence[e].claim) + 1];
      }
    }

    method StoredCounts() returns (counts: map<ClaimId, nat>)
      ensures forall c :: CountIn(counts, c) == StoredCount(evidence, c, |evidence|)
    {
      counts := map[];
      for e := 0 to |evidence|
        invariant forall c :: CountIn(counts, c) == StoredCount(evidence, c, e)
      {
        counts := counts[evidence[e].claim := CountIn(counts, evidence[e].claim) + 1];
      }
    }

    method PolicyViews(content: Content, now: int) returns (views: map<ClaimId, View>)
      ensures Faithful(Contents(), content, views, now)
    {
      var selected := SelectedCounts(content);
      var stored := StoredCounts();
      views := map[];
      for c := 0 to |claims|
        invariant FaithfulUpTo(Contents(), content, views, c, now)
      {
        if Cites(content, c) {
          var valid := false;
          if claims[c].body.flags != [] {
            valid := ClaimSecondReviewIsValid(c, now);
          }
          CountMeansSafeEvidence(Contents(), content, c);
          views := views[c := View(claims[c], Min(CountIn(stored, c), CountIn(selected, c)), valid)];
        }
      }
    }

    // -------------------------------------------------------------------------------------
    // Previewing and publishing (publication.py)
    // -------------------------------------------------------------------------------------

    method LoadContext(event: EventId, content: Content, now: int) returns (result: Result<Context, Refusal>)
      ensures match result
              case Ok(x) => event in events && Loadable(Contents(), content) && Loaded(Contents(), event, content, now, x)
              case Err(e) => (e == NotFound && event !in events) || (e == EvidenceMismatch && event in events && !Loadable(Contents(), content))
    {
      hide Faithful, HasSafeEvidence;
      if event !in events {
        return Err(NotFound);
      }
      for i := 0 to |content.evidence|
        invariant forall k | 0 <= k < i :: content.evidence[k] < |evidence| && Cites(content, evidence[content.evidence[k]].claim)
      {
        if content.evidence[i] >= |evidence| || !Cites(content, evidence[content.evidence[i]].claim) {
          return Err(EvidenceMismatch);
        }
      }
      var views := PolicyViews(content, now);
      var latest := LatestVersion(event);
      var cited := map c: ClaimId | 0 <= c < |claims| && Cites(content, c) :: claims[c];
      var selected := map e: EvidenceId | 0 <= e < |evidence| && e in content.evidence :: evidence[e];
      return Ok(Context(events[event], views, cited, selected, latest));
    }

    method PreviewEventVersion(event: EventId, draft: Draft, now: int) returns (result: Result<Preview, Refusal>)
      ensures match result
              case Ok(p) =>
                && event in events && Loadable(Contents(), draft.content)
                && p.errors == PolicyErrors(Contents(), event, draft, now)
                && p.hash == ReleaseHash(Canonical(Contents(), event, draft))
                && p.layout == Layout(draft.content.sentences) && Loaded(Contents(), event, draft.content, now, p.context)
              case Err(e) =>
                (e == NotFound && event !in events) || (e == EvidenceMismatch && event in events && !Loadable(Contents(), draft.content))
    {
      hide Faithful, PolicyErrors, Loadable, CitedClaims, SelectedEvidence, Layout, Latest;
      var loaded := LoadContext(event, draft.content, now);
      if loaded.Err? {
        return Err(loaded.error);
      }
      var layout := DraftArtifacts(draft.content.sentences);
      var errors := PublicationErrors(event, loaded.value.row, draft, loaded.value.views, Contents(), now);
      var hash := ReleaseHash(ReleaseOf(event, draft, layout, loaded.value));
      return Ok(Preview(hash, errors, layout, loaded.value));
    }

    /** The re-check of the approval record under the event lock (publication.py:502-540). */
    method ApprovalIsBound(event: EventId, draft: Draft, hash: Hash, id: ApprovalId, now: int) returns (bound: bool)
      ensures bound == ApprovalBacks(Contents(), event, draft, hash, id, now)
    {
      if id >= |approvals| {
        return false;
      }
      var a := approvals[id];
      if a.kind != EventPublication || a.target != event || a.binding != hash || draft.publishedBy != DeskActor(a.primary)
         || draft.signedOffBy != Some(DeskActor(a.approver)) || a.primary == a.approver || !Strong(a.assurance) || a.expiresAt <= now {
        return false;
      }
      return IsPublisher(a.primary) && IsApprover(a.approver);
    }

    method PublishEventVersion(event: EventId, draft: Draft, previewHash: Hash, approval: Option<ApprovalId>, now: int)
      returns (result: Result<Version, Refusal>)
      modifies this`versions
      ensures match Publish(old(Contents()), event, draft, previewHash, approval, now)
              case Ok(db) => Contents() == db && db.versions != [] && result == Ok(db.versions[|db.versions| - 1])
              case Err(e) => Contents() == old(Contents()) && result == Err(e)
    {
      hide PolicyErrors, Loadable, CitedClaims, SelectedEvidence, Layout, Latest, Faithful, ApprovalBacks;
      var previewed := PreviewEventVersion(event, draft, now);
      if previewed.Err? {
        return Err(previewed.error);
      }
      var preview := previewed.value;
      if preview.errors != [] {
        return Err(PolicyFailed(preview.errors[0]));
      }
      if previewHash != preview.hash {
        return Err(StalePreview);
      }
      var x := preview.context;
      if x.row.severity >= 3 {
        if approval.None? {
          return Err(ApprovalRecordRequired);
        }
        var bound := ApprovalIsBound(event, draft, preview.hash, approval.value, now);
        if !bound {
          return Err(ApprovalNotBound);
        }
      }
      var version := Version(event, if x.latest.Some? then x.latest.value.versionNo + 1 else 1, draft.content.title,
                             Summaries(preview.layout.sections), preview.layout.claimMap, x.row, x.claims, x.evidence,
                             draft.publishedBy, draft.signedOffBy, approval, draft.content.policy, draft.content.models,
                             preview.hash, now);
      versions := versions + [version];
      return Ok(version);
    }

    // -------------------------------------------------------------------------------------
    // Approving (approvals.py)
    // -------------------------------------------------------------------------------------

    method ApproveEventPublication(principal: Principal, event: EventId, publisher: UserId, content: Content, now: int)
      returns (result: Result<ApprovalId, Refusal>)
      modifies this`approvals
      ensures match Approve(old(Contents()), principal, event, publisher, content, now)
              case Ok(db) => Contents() == db && result == Ok(|old(approvals)|)
              case Err(e) => Contents() == old(Contents()) && result == Err(e)
    {
      hide PolicyErrors, Loadable, Canonical, Loaded, Layout, Strong, MayApprove;
      if !MayApprove(principal.role) {
        return Err(RoleTooLow);
      }
      if !Strong(principal.assurance) {
        return Err(WeakAssurance);
      }
      if event !in events {
        return Err(NotFound);
      }
      if events[event].severity < 3 {
        return Err(SeverityTooLow);
      }
      if !IsPublisher(publisher) {
        return Err(NotAPublisher);
      }
      if publisher == principal.user {
        return Err(SamePerson);
      }
      var draft := Draft(content, DeskActor(publisher), Some(DeskActor(principal.user)));
      var previewed := PreviewEventVersion(event, draft, now);
      if previewed.Err? {
        return Err(previewed.error);
      }
      if previewed.value.errors != [] {
        return Err(PolicyFailed(previewed.value.errors[0]));
      }
      approvals := approvals + [Approval(EventPublication, event, previewed.value.hash, publisher, principal.user,
                                         principal.assurance, now, now + VALIDITY, Some(draft))];
      return Ok(|approvals| - 1);
    }

    method AuthorizeEventPublication(principal: Principal, event: EventId, previewHash: Hash, now: int)
      returns (result: Result<Authorization, Refusal>)
      ensures result == Authorize(Contents(), principal, event, previewHash, now)
    {
      hide LatestApproval;
      if event !in events {
        return Err(NotFound);
      }
      if events[event].severity < 3 {
        return Ok(Authorization(None, None));
      }
      var id := FindApproval(event, previewHash, principal.user);
      if id.None? {
        return Err(NoApproval);
      }
      var a := approvals[id.value];
      if a.expiresAt <= now {
        return Err(ApprovalExpired);
      }
      if !Strong(a.assurance) {
        return Err(WeakAssurance);
      }
      if !IsApprover(a.approver) {
        return Err(RoleTooLow);
      }
      if a.approver == principal.user {
        return Err(SamePerson);
      }
      if a.draft.None? || a.draft.value.publishedBy != DeskActor(principal.user)
         || a.draft.value.signedOffBy != Some(DeskActor(a.approver)) {
        return Err(BindingInvalid);
      }
      return Ok(Authorization(id, Some(DeskActor(a.approver))));
    }

    method ApproveSensitiveClaim(principal: Principal, event: EventId, c: ClaimId, now: int) returns (result: Result<ApprovalId, Refusal>)
      modifies this`approvals, this`claims
      ensures match SecondReview(old(Contents()), principal, event, c, now)
              case Ok(db) => Contents() == db && result == Ok(|old(approvals)|)
              case Err(e) => Contents() == old(Contents()) && result == Err(e)
    {
      if !MayApprove(principal.role) {
        return Err(RoleTooLow);
      }
      if !Strong(principal.assurance) {
        return Err(WeakAssurance);
      }
      if c >= |claims| || claims[c].body.event != event {
        return Err(NotFound);
      }
      if claims[c].body.flags == [] {
        return Err(NotSensitive);
      }
      if claims[c].secondApproval.Some? {
        return Err(AlreadyReviewed);
      }
      var primary := DeskUser(claims[c].body.reviewedBy);
      if primary.None? {
        return Err(PrimaryNotBound);
      }
      if !IsPublisher(primary.value) {
        return Err(NotAPublisher);
      }
      if primary.value == principal.user {
        return Err(SamePerson);
      }
      var snapshot := Reviewed(c, claims[c].body, EvidenceOf(evidence, c));
      var id := |approvals|;
      approvals := approvals + [Approval(ClaimSecondReview, c, ReviewHash(snapshot), primary.value, principal.user,
                                         principal.assurance, now, now + VALIDITY, None)];
      claims := claims[c := claims[c].(secondReviewedBy := Some(DeskActor(principal.user)), secondApproval := Some(id))];
      return Ok(id);
    }

    // -------------------------------------------------------------------------------------
    // Editing (workspace.py)
    // -------------------------------------------------------------------------------------

    method CreateClaim(body: ClaimBody, reviewer: Actor, now: int) returns (result: Result<ClaimId, Refusal>)
      modifies this`claims
      ensures match Create(old(Contents()), body, reviewer, now)
              case Ok(db) => Contents() == db && result == Ok(|old(claims)|)
              case Err(e) => Contents() == old(Contents()) && result == Err(e)
    {
      if reviewer.ModelActor? {
        return Err(NotAdmissible);
      }
      if body.event !in events {
        return Err(NotFound);
      }
      var reviewed := body.(quantity := "", proposedBy := reviewer, reviewedBy := Some(reviewer), reviewedAt := Some(now));
      claims := claims + [Claim(reviewed, None, None, now)];
      return Ok(|claims| - 1);
    }

    /** Sets the patched fields and restamps the primary review. */
    static method PatchFields(claim: Claim, p: Patch, reviewer: Actor, now: int) returns (patched: Claim)
      ensures patched == claim.(body := Patched(claim.body, p, reviewer, now))
    {
      var body := claim.body;
      if p.text.Some? {
        body := body.(text := p.text.value);
      }
      if p.claimant.Some? {
        body := body.(claimant := p.claimant.value);
      }
      if p.state.Some? {
        body := body.(state := p.state.value);
      }
      if p.occurredAt.Some? {
        body := body.(occurredAt := p.occurredAt.value);
      }
      if p.flags.Some? {
        body := body.(flags := p.flags.value);
      }
      patched := claim.(body := body.(reviewedBy := Some(reviewer), reviewedAt := Some(now)));
    }

    method UpdateClaim(event: EventId, c: ClaimId, p: Patch, reviewer: Actor, now: int) returns (result: Result<Claim, Refusal>)
      modifies this`claims
      ensures match Update(old(Contents()), event, c, p, reviewer, now)
              case Ok(db) => Contents() == db && c < |claims| && result == Ok(claims[c])
              case Err(e) => Contents() == old(Contents()) && result == Err(e)
    {
      hide Patched;
      if reviewer.ModelActor? || (p.second.Some? && p.second.value.Some? && p.second.value.value.ModelActor?) {
        return Err(NotAdmissible);
      }
      if !ChangesContent(p) && p.second.None? {
        return Err(NoChanges);
      }
      if c >= |claims| || claims[c].body.event != event {
        return Err(NotFound);
      }
      if p.second == Some(Some(reviewer)) && p.sameSpelling {
        return Err(SamePerson);
      }
      var claim := PatchFields(claims[c], p, reviewer, now);
      if ChangesContent(p) {
        claim := claim.(secondReviewedBy := None, secondApproval := None);
      }
      if p.second.Some? {
        claim := claim.(secondReviewedBy := p.second.value, secondApproval := None);
      }
      claims := claims[c := claim];
      return Ok(claim);
    }

    method LinkEvidence(event: EventId, row: Evidence, reviewer: Actor, facts: RecordFacts) returns (result: Result<EvidenceId, Refusal>)
      modifies this`claims, this`evidence
      ensures match Link(old(Contents()), event, row, reviewer, facts)
              case Ok(db) => Contents() == db && result == Ok(|old(evidence)|)
              case Err(e) => Contents() == old(Contents()) && result == Err(e)
    {
      hide Strip;
      if reviewer.ModelActor? {
        return Err(NotAdmissible);
      }
      if row.claim >= |claims| || claims[row.claim].body.event != event || !facts.known {
        return Err(NotFound);
      }
      if row.record in unsafeRecords {
        return Err(UnsafeRecord);
      }
      if !facts.onEvent {
        return Err(NotAssigned);
      }
      for e := 0 to |evidence|
        invariant claims == old(claims) && evidence == old(evidence)
        invariant forall k | 0 <= k < e :: evidence[k].claim != row.claim || evidence[k].record != row.record
      {
        if evidence[e].claim == row.claim && evidence[e].record == row.record {
          return Err(AlreadyLinked);
        }
      }
      var quotes := row.excerpt.Some? && Strip(row.excerpt.value) != "";
      var allowed := if quotes then facts.mayQuote else facts.mayAutomate;
      if !allowed {
        return Err(NoRights);
      }
      claims := claims[row.claim := claims[row.claim].(secondReviewedBy := None, secondApproval := None)];
      evidence := evidence + [row];
      return Ok(|evidence| - 1);
    }
  }
}
