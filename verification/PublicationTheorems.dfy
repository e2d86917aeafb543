/** The promises of the publication protocol, over every run from an initial desk. */
module PublicationTheorems {
  import opened Common
  import opened Sentences
  import opened Desk
  import opened Publication
  import opened PublicationPolicy
  import opened PublicationLaws

  lemma Reachable(w: World, actions: seq<Action>)
    requires Initial(w)
    ensures Inv(RunAll(w, actions))
  {
    hide VersionOk, ApprovalOk;
    RunPreserves(w, actions);
  }

  // ---------------------------------------------------------------------------------------
  // Numbering and the hash chain
  // ---------------------------------------------------------------------------------------

  /** The versions of one event, oldest innermost. */
  datatype History = Unpublished | Followed(earlier: History, last: Version)

  function HistoryOf(versions: seq<Version>, event: EventId): History {
    if versions == [] then Unpublished
    else
      var earlier, last := HistoryOf(versions[..|versions| - 1], event), versions[|versions| - 1];
      if last.event == event then Followed(earlier, last) else earlier
  }

  function Count(h: History): nat {
    if h.Unpublished? then 0 else Count(h.earlier) + 1
  }

  function LastHash(h: History): Option<Hash> {
    if h.Unpublished? then None else Some(h.last.hash)
  }

  /** Numbered 1, 2, 3, ... without gaps, every hash committing to the one before it. */
  ghost predicate Continuous(h: History, event: EventId) {
    h.Followed? ==>
      && h.last.event == event && h.last.versionNo == Count(h)
      && h.last.hash.ReleaseHash? && h.last.hash.release.previous == LastHash(h.earlier)
      && Continuous(h.earlier, event)
  }

  lemma ChainedPrefix(versions: seq<Version>)
    requires Chained(versions) && versions != []
    ensures Chained(versions[..|versions| - 1])
  {
    hide NextNo, LatestHash;
    var front := versions[..|versions| - 1];
    forall i | 0 <= i < |front|
      ensures front[i].hash.ReleaseHash?
      ensures front[i].versionNo == NextNo(front[..i], front[i].event)
      ensures front[i].hash.release.previous == LatestHash(front[..i], front[i].event)
    {
      assert front[..i] == versions[..i] && front[i] == versions[i];
    }
  }

  lemma ChainedLast(versions: seq<Version>)
    requires Chained(versions) && versions != []
    ensures var front, last := versions[..|versions| - 1], versions[|versions| - 1];
            && last.hash.ReleaseHash? && last.versionNo == NextNo(front, last.event)
            && last.hash.release.previous == LatestHash(front, last.event)
  {
    hide NextNo, LatestHash;
  }

  /** What the version with the greatest number is, in terms of an event's history. */
  ghost predicate LatestIsLast(latest: Option<Version>, h: History) {
    if h.Unpublished? then latest.None? else latest == Some(h.last) && h.last.versionNo == Count(h)
  }

  /**
   * In a chained table each event's versions are numbered from one without gaps and linked by
   * their hashes, and the one with the greatest number is the one published last.
   */
  lemma {:induction false} ChainIsContinuous(versions: seq<Version>, event: EventId)
    requires Chained(versions)
    ensures Continuous(HistoryOf(versions, event), event) && LatestIsLast(Latest(versions, event), HistoryOf(versions, event))
  {
    hide Chained;
    if versions != [] {
      ChainedPrefix(versions);
      ChainedLast(versions);
      ChainIsContinuous(versions[..|versions| - 1], event);
      var earlier, last := HistoryOf(versions[..|versions| - 1], event), versions[|versions| - 1];
      assert HistoryOf(versions, event) == if last.event == event then Followed(earlier, last) else earlier;
      assert last.event == event ==> Count(Followed(earlier, last)) == last.versionNo;
    }
  }

  ghost predicate SameHashes(left: History, right: History) {
    LastHash(left) == LastHash(right) && (left.Followed? ==> SameHashes(left.earlier, right.earlier))
  }

  lemma {:induction false} LastHashDeterminesHistory(left: History, right: History, event: EventId)
    requires Continuous(left, event) && Continuous(right, event) && LastHash(left) == LastHash(right)
    ensures SameHashes(left, right)
  {
    if left.Followed? {
      LastHashDeterminesHistory(left.earlier, right.earlier, event);
    }
  }

  /**
   * The latest hash determines the whole history: two desks whose latest versions of an event
   * carry the same hash have published the same releases of it, all the way back.
   */
  lemma LatestHashDeterminesHistory(left: seq<Version>, right: seq<Version>, event: EventId)
    requires Chained(left) && Chained(right)
    requires LatestHash(left, event) == LatestHash(right, event)
    ensures SameHashes(HistoryOf(left, event), HistoryOf(right, event))
  {
    hide Chained, Continuous, Latest, HistoryOf;
    ChainIsContinuous(left, event);
    ChainIsContinuous(right, event);
    LastHashDeterminesHistory(HistoryOf(left, event), HistoryOf(right, event), event);
  }

  /** A later version of the same event has a greater number than an earlier one. */
  lemma {:induction false} NumbersIncrease(versions: seq<Version>, i: nat, j: nat)
    requires Chained(versions) && i < j < |versions| && versions[i].event == versions[j].event
    ensures versions[i].versionNo < versions[j].versionNo
  {
    hide LatestHash;
    NextNoExceeds(versions[..j], i);
    assert versions[..j][i] == versions[i];
  }

  lemma {:induction false} NextNoExceeds(versions: seq<Version>, i: nat)
    requires i < |versions|
    ensures versions[i].versionNo < NextNo(versions, versions[i].event)
  {
    if i < |versions| - 1 {
      NextNoExceeds(versions[..|versions| - 1], i);
    }
  }

  // ---------------------------------------------------------------------------------------
  // An approval is spent by its content
  // ---------------------------------------------------------------------------------------

  /** No two stored versions have the same hash. */
  lemma HashesAreDistinct(w: World, i: nat, j: nat)
    requires Inv(w) && i < j < |w.db.versions|
    ensures w.db.versions[i].hash != w.db.versions[j].hash
  {
    hide ApprovalOk, ClaimOk, TicketOk, SensitiveOk, ApprovalUsedOk;
    var vs := w.db.versions;
    assert VersionOk(w.db.approvals, vs[i]) && VersionOk(w.db.approvals, vs[j]);
    if vs[i].event == vs[j].event {
      NumbersIncrease(vs, i, j);
    }
  }

  /** One approval record backs at most one version, in every run. */
  lemma OneApprovalBacksOneVersion(start: World, actions: seq<Action>, i: nat, j: nat)
    requires Initial(start)
    requires var vs := RunAll(start, actions).db.versions;
             i < j < |vs| && vs[i].approval.Some? && vs[j].approval.Some?
    ensures var vs := RunAll(start, actions).db.versions;
            vs[i].approval != vs[j].approval
  {
    hide ApprovalOk, ClaimOk, TicketOk, SensitiveOk, Commits, Chained, RunAll;
    Reachable(start, actions);
    var w := RunAll(start, actions);
    HashesAreDistinct(w, i, j);
    assert VersionOk(w.db.approvals, w.db.versions[i]) && VersionOk(w.db.approvals, w.db.versions[j]);
  }

  /** A preview hash that has been published can never be published again, by any ticket. */
  lemma PreviewIsSpent(w: World, later: seq<Action>, i: nat, t: Ticket, content: Content, now: int)
    requires Inv(w) && i < |w.db.versions| && t.previewHash == w.db.versions[i].hash
    ensures Commit(RunAll(w, later).db, t, content, now).Err?
  {
    hide ApprovalOk, ClaimOk, TicketOk, SensitiveOk, ApprovalUsedOk, RunAll, PolicyErrors, Loadable, Layout;
    RunPreserves(w, later);
    var u := RunAll(w, later);
    var v := w.db.versions[i];
    assert u.db.versions[i] == v;
    assert VersionOk(u.db.approvals, u.db.versions[i]);
    NextNoExceeds(u.db.versions, i);
  }

  // ---------------------------------------------------------------------------------------
  // No stale release
  // ---------------------------------------------------------------------------------------

  /** The two states show the same release material to the two drafts. */
  ghost predicate SameMaterial(seen: Database, d: Draft, current: Database, e: Draft, event: EventId) {
    && event in seen.events && event in current.events && seen.events[event] == current.events[event]
    && CitedClaims(seen, d.content) == CitedClaims(current, e.content)
    && SelectedEvidence(seen, d.content) == SelectedEvidence(current, e.content)
    && LatestHash(seen.versions, event) == LatestHash(current.versions, event)
    && NextNo(seen.versions, event) == NextNo(current.versions, event)
    && d.content.title == e.content.title && d.content.policy == e.content.policy && d.content.models == e.content.models
    && Layout(d.content.sentences).snapshots == Layout(e.content.sentences).snapshots
    && d.publishedBy == e.publishedBy && d.signedOffBy == e.signedOffBy
  }

  /**
   * If a release is approved in one state and published, under that approval, in a later one,
   * then nothing it shows has changed in between: the event row (its severity included), every
   * cited claim, every selected evidence row and the latest version are what the approver saw.
   */
  lemma NoStaleRelease(start: World, before: seq<Action>, principal: Principal, event: EventId, publisher: UserId, approved: Content,
                       approvedAt: int, between: seq<Action>, t: Ticket, content: Content, now: int)
    requires Initial(start)
    requires var w := RunAll(start, before);
             var a := Step(w, ApproveRelease(principal, event, publisher, approved, approvedAt));
             var u := RunAll(a, between);
             && Approve(w.db, principal, event, publisher, approved, approvedAt).Ok?
             && t in u.tickets && t.authorization.approval == Some(|w.db.approvals|)
             && Commit(u.db, t, content, now).Ok?
    ensures var w := RunAll(start, before);
            var u := RunAll(Step(w, ApproveRelease(principal, event, publisher, approved, approvedAt)), between);
            && t.event == event
            && SameMaterial(w.db, Draft(approved, DeskActor(publisher), Some(DeskActor(principal.user))),
                            u.db, Trusted(content, t.user, t.authorization), event)
  {
    hide Approve, Commit, Step, RunAll, SameMaterial, Inv, Trusted;
    Reachable(start, before);
    var w := RunAll(start, before);
    var approve := ApproveRelease(principal, event, publisher, approved, approvedAt);
    var a := Step(w, approve);
    StepPreserves(w, approve);
    RunPreserves(a, between);
    ApprovalIsBound(w, principal, event, publisher, approved, approvedAt);
    BoundTicket(a, RunAll(a, between), t, |w.db.approvals|);
    CommitMatchesPreview(RunAll(a, between).db, t, content, now);
    SameRelease(w.db, Draft(approved, DeskActor(publisher), Some(DeskActor(principal.user))),
                RunAll(a, between).db, Trusted(content, t.user, t.authorization), event);
  }

  /** The row an approval appends. */
  lemma ApprovalIsBound(w: World, principal: Principal, event: EventId, publisher: UserId, content: Content, now: int)
    requires Approve(w.db, principal, event, publisher, content, now).Ok?
    ensures var rows := Step(w, ApproveRelease(principal, event, publisher, content, now)).db.approvals;
            && |rows| == |w.db.approvals| + 1 && event in w.db.events
            && rows[|w.db.approvals|].target == event
            && rows[|w.db.approvals|].binding
               == ReleaseHash(Canonical(w.db, event, Draft(content, DeskActor(publisher), Some(DeskActor(principal.user)))))
  {
    hide PolicyErrors, Canonical, Loadable;
  }

  /** Publishing recomputes the hash that the ticket names. */
  lemma CommitMatchesPreview(db: Database, t: Ticket, content: Content, now: int)
    requires Commit(db, t, content, now).Ok?
    ensures t.event in db.events
    ensures t.previewHash == ReleaseHash(Canonical(db, t.event, Trusted(content, t.user, t.authorization)))
  {
    hide PolicyErrors, Canonical, Loadable, ApprovalBacks, NewVersion;
  }

  /** Two drafts with one canonical release show the same material. */
  lemma SameRelease(seen: Database, d: Draft, current: Database, e: Draft, event: EventId)
    requires event in seen.events && event in current.events && Canonical(seen, event, d) == Canonical(current, event, e)
    ensures SameMaterial(seen, d, current, e, event)
  {
    hide Layout, CitedClaims, SelectedEvidence, LatestHash, NextNo;
  }

  /** A ticket that names an approval carries the hash that the approval was bound to. */
  lemma BoundTicket(a: World, u: World, t: Ticket, id: ApprovalId)
    requires Inv(u) && AppendOnly(a.db, u.db) && id < |a.db.approvals|
    requires t in u.tickets && t.authorization.approval == Some(id)
    ensures u.db.approvals[id] == a.db.approvals[id]
    ensures Matches(u.db.approvals[id], t.event, t.previewHash, t.user)
  {
    hide ApprovalOk, ClaimOk, VersionOk, Chained;
    assert TicketOk(u.db.approvals, t);
  }

  /** An authorization taken on one side of severity 3 cannot publish on the other. */
  lemma SeverityCrossingIsRefused(w: World, t: Ticket, content: Content, now: int)
    requires Inv(w) && t in w.tickets && t.event in w.db.events
    requires t.authorization.approval.Some? <==> w.db.events[t.event].severity < 3
    ensures Commit(w.db, t, content, now).Err?
  {
    hide PolicyErrors, Layout, Loadable, ClaimOk, VersionOk, Chained;
    assert TicketOk(w.db.approvals, t);
    if t.authorization.approval.Some? {
      assert ApprovalOk(w.db.approvals[t.authorization.approval.value]);
    }
  }

  // ---------------------------------------------------------------------------------------
  // What every stored version guarantees
  // ---------------------------------------------------------------------------------------

  /**
   * Every stored version of severity 3 or 4 is the approved draft: an approver other than the
   * publisher, strongly authenticated, approved exactly its content, and it was published
   * before that approval lapsed.  Lower severities carry no approval.
   */
  lemma HighSeverityIsTheApprovedDraft(start: World, actions: seq<Action>, i: nat)
    requires Initial(start) && i < |RunAll(start, actions).db.versions|
    ensures var db := RunAll(start, actions).db;
            var v := db.versions[i];
            if v.snapshot.severity < 3 then v.approval.None?
            else
              && v.approval.Some? && v.approval.value < |db.approvals|
              && var a := db.approvals[v.approval.value];
              && a.target == v.event && a.binding == v.hash && a.draft.Some? && Strong(a.assurance)
              && v.publishedBy == DeskActor(a.primary) && v.signedOffBy == Some(DeskActor(a.approver)) && a.primary != a.approver
              && v.title == a.draft.value.content.title
              && v.summaries == Summaries(Layout(a.draft.value.content.sentences).sections)
              && v.publishedAt < a.approvedAt + VALIDITY
  {
    hide ClaimOk, TicketOk, SensitiveOk, Chained, RunAll, Layout, Summaries;
    Reachable(start, actions);
    var w := RunAll(start, actions);
    var v := w.db.versions[i];
    assert VersionOk(w.db.approvals, v);
    if v.approval.Some? {
      assert ApprovalOk(w.db.approvals[v.approval.value]);
    }
  }

  /**
   * Reading any stored version of severity 3 or 4 back in the workspace returns the approved
   * sentences, grouped by section and each with its own claims, exactly when every one of them
   * is storable: a stripped, non-empty line of legal length that cites a legal number of claims.
   */
  lemma ReadingBackTheApprovedDraft(start: World, actions: seq<Action>, i: nat)
    requires Initial(start) && i < |RunAll(start, actions).db.versions| && 3 <= RunAll(start, actions).db.versions[i].snapshot.severity
    ensures var db := RunAll(start, actions).db;
            var v := db.versions[i];
            && v.approval.Some? && v.approval.value < |db.approvals| && db.approvals[v.approval.value].draft.Some?
            && var sentences := db.approvals[v.approval.value].draft.value.content.sentences;
            ReadSections(SECTIONS, v.summaries, v.claimMap) == Some(Grouped(sentences, SECTIONS)) <==> AllStorable(sentences)
  {
    hide ClaimOk, TicketOk, SensitiveOk, Chained, RunAll, Layout, Summaries, ReadSections, Grouped, ClaimMapOf;
    Reachable(start, actions);
    var w := RunAll(start, actions);
    var v := w.db.versions[i];
    assert VersionOk(w.db.approvals, v);
    var a := w.db.approvals[v.approval.value];
    assert ApprovalOk(a);
    var sentences := a.draft.value.content.sentences;
    LayoutClaimMap(sentences);
    RoundTripExactly(sentences);
  }

  /**
   * Every sensitive claim in a published version carries a second review, live at publication,
   * by a different analyst than the primary reviewer, of exactly the claim and evidence shown.
   */
  lemma SensitiveClaimsWereReviewed(start: World, actions: seq<Action>, i: nat, c: ClaimId)
    requires Initial(start)
    requires var vs := RunAll(start, actions).db.versions;
             i < |vs| && c in vs[i].claims && vs[i].claims[c].body.flags != []
    ensures var db := RunAll(start, actions).db;
            var v := db.versions[i];
            var claim := v.claims[c];
            && claim.secondApproval.Some? && claim.secondApproval.value < |db.approvals|
            && var a := db.approvals[claim.secondApproval.value];
            && a.kind == ClaimSecondReview && Strong(a.assurance) && a.primary != a.approver && v.publishedAt < a.expiresAt
            && claim.body.reviewedBy == Some(DeskActor(a.primary)) && claim.secondReviewedBy == Some(DeskActor(a.approver))
            && a.binding.ReviewHash? && a.binding.review.claim == c && a.binding.review.body == claim.body
            && forall e | e in v.evidence && v.evidence[e].claim == c ::
                 e in a.binding.review.evidence && a.binding.review.evidence[e] == v.evidence[e]
  {
    hide ClaimOk, TicketOk, Commits, ApprovalUsedOk, Chained, RunAll;
    Reachable(start, actions);
    var w := RunAll(start, actions);
    assert VersionOk(w.db.approvals, w.db.versions[i]);
    assert SensitiveOk(w.db.approvals, w.db.versions[i], c);
    assert ApprovalOk(w.db.approvals[w.db.versions[i].claims[c].secondApproval.value]);
  }

  // ---------------------------------------------------------------------------------------
  // Second reviews
  // ---------------------------------------------------------------------------------------

  /**
   * In every reachable state a second review counts exactly while it is linked, unexpired and
   * both people are still entitled: the link alone already guarantees the content.
   */
  lemma ReviewCountsExactlyWhileLinked(start: World, actions: seq<Action>, c: ClaimId, now: int)
    requires Initial(start) && c < |RunAll(start, actions).db.claims|
    ensures var db := RunAll(start, actions).db;
            SecondReviewValid(db, c, now) <==>
              && db.claims[c].secondApproval.Some? && db.claims[c].secondApproval.value < |db.approvals|
              && var a := db.approvals[db.claims[c].secondApproval.value];
              && now < a.expiresAt && Publisher(db, a.primary) && Approver(db, a.approver)
  {
    hide VersionOk, TicketOk, Chained, RunAll, EvidenceOf;
    Reachable(start, actions);
    var w := RunAll(start, actions);
    assert ClaimOk(w.db.approvals, w.db.claims[c], c, w.db.evidence);
    if w.db.claims[c].secondApproval.Some? {
      assert ApprovalOk(w.db.approvals[w.db.claims[c].secondApproval.value]);
    }
  }

  /** While a claim stays linked to one review, neither it nor its evidence has changed. */
  lemma ReviewedClaimIsUntouched(w: World, later: seq<Action>, c: ClaimId)
    requires Inv(w) && c < |w.db.claims| && w.db.claims[c].secondApproval.Some?
    requires var u := RunAll(w, later).db;
             c < |u.claims| && u.claims[c].secondApproval == w.db.claims[c].secondApproval
    ensures var u := RunAll(w, later).db;
            ReviewSnapshot(u, c) == ReviewSnapshot(w.db, c) && u.claims[c].secondReviewedBy == w.db.claims[c].secondReviewedBy
  {
    hide VersionOk, TicketOk, Chained, RunAll, EvidenceOf, ApprovalOk;
    RunPreserves(w, later);
    var u := RunAll(w, later);
    assert ClaimOk(w.db.approvals, w.db.claims[c], c, w.db.evidence);
    assert ClaimOk(u.db.approvals, u.db.claims[c], c, u.db.evidence);
    assert u.db.approvals[w.db.claims[c].secondApproval.value] == w.db.approvals[w.db.claims[c].secondApproval.value];
  }

  // ---------------------------------------------------------------------------------------
  // The protocol is usable
  // ---------------------------------------------------------------------------------------

  /**
   * An approved release that is requested and committed at once goes through, provided the
   * approver is a registered approver and the clock has not gone back.
   */
  lemma ApprovedReleaseGoesThrough(db: Database, principal: Principal, publisher: Principal, event: EventId, content: Content, now: int)
    requires Approve(db, principal, event, publisher.user, content, now).Ok?
    requires Approver(db, principal.user)
    requires forall i | 0 <= i < |db.approvals| :: db.approvals[i].approvedAt <= now
    requires forall c | 0 <= c < |db.claims| && db.claims[c].secondApproval.Some? :: db.claims[c].secondApproval.value < |db.approvals|
    ensures var approved := Approve(db, principal, event, publisher.user, content, now).value;
            var hash := approved.approvals[|db.approvals|].binding;
            var authorization := Authorize(approved, publisher, event, hash, now);
            && authorization.Ok?
            && Commit(approved, Ticket(publisher.user, event, hash, authorization.value), content, now).Ok?
  {
    hide PolicyErrors, Layout;
    var approved := Approve(db, principal, event, publisher.user, content, now).value;
    var draft := Draft(content, DeskActor(publisher.user), Some(DeskActor(principal.user)));
    assert approved.approvals[..|db.approvals|] == db.approvals;
    PolicyIgnoresNewApprovals(db, approved, event, draft, now);
    assert Canonical(approved, event, draft) == Canonical(db, event, draft);
    assert LatestApproval(approved.approvals, event, ReleaseHash(Canonical(db, event, draft)), publisher.user) == Some(|db.approvals|);
  }

  /** A draft free of policy errors stays free of them when approvals are added. */
  lemma PolicyIgnoresNewApprovals(db: Database, approved: Database, event: EventId, draft: Draft, now: int)
    requires approved == db.(approvals := approved.approvals) && db.approvals <= approved.approvals
    requires event in db.events && PolicyErrors(db, event, draft, now) == []
    ensures PolicyErrors(approved, event, draft, now) == []
  {
    hide PolicyErrors;
    NoErrorsMeansPublishable(db, event, draft, now);
    forall i, c | 0 <= i < |draft.content.sentences| && c in draft.content.sentences[i].claims
      ensures Releasable(approved, event, draft.content, draft.content.sentences[i].section, c, now)
    {
      assert Releasable(db, event, draft.content, draft.content.sentences[i].section, c, now);
    }
    NoErrorsMeansPublishable(approved, event, draft, now);
  }
}
