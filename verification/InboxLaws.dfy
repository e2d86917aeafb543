/**
 * What the approval inbox keeps in every run, interleaved with everything else the desk does.
 */
module InboxLaws {
  import opened Common
  import opened Desk
  import opened Publication
  import opened PublicationPolicy
  import opened PublicationLaws
  import opened DeskLaws
  import opened ApprovalInbox

  datatype Office = Office(world: World, requests: seq<Request>)

  datatype Act =
    | DeskAct(action: Action)
    | AskAct(principal: Principal, subject: Subject, target: EventId, planned: bool, checked: int, now: int)
    | DecideAct(principal: Principal, id: RequestId, approve: bool, correction: Option<nat>, now: int)

  function Do(o: Office, a: Act): Office {
    match a
    case DeskAct(action) => o.(world := Step(o.world, action))
    case AskAct(principal, subject, target, planned, checked, now) =>
      o.(requests := Ask(o.world.db, o.requests, principal, subject, target, planned, checked, now).requests)
    case DecideAct(principal, id, approve, correction, now) =>
      var d := Decide(o.world.db, o.requests, principal, id, approve, correction, now);
      Office(o.world.(db := d.db), d.requests)
  }

  function DoAll(o: Office, acts: seq<Act>): Office
    decreases |acts|
  {
    if acts == [] then o else DoAll(Do(o, acts[0]), acts[1..])
  }

  // ---------------------------------------------------------------------------------------
  // The inbox gives nobody a power that the desk does not
  // ---------------------------------------------------------------------------------------

  /** What an act amounts to for the desk: at most one direct approval by the decider. */
  function DeskPart(o: Office, a: Act): seq<Action> {
    match a
    case DeskAct(action) => [action]
    case AskAct(_, _, _, _, _, _) => []
    case DecideAct(principal, id, approve, correction, now) =>
      if id < |o.requests| && o.requests[id].subject.ReleaseOf? && approve && Effective(o.requests[id], now) == Pending
         && o.requests[id].requester != principal.user
      then [ApproveRelease(principal, o.requests[id].target, o.requests[id].requester, o.requests[id].subject.content, now)]
      else []
  }

  function DeskParts(o: Office, acts: seq<Act>): seq<Action>
    decreases |acts|
  {
    if acts == [] then [] else DeskPart(o, acts[0]) + DeskParts(Do(o, acts[0]), acts[1..])
  }

  lemma DoIsDeskPart(o: Office, a: Act)
    ensures Do(o, a).world == RunAll(o.world, DeskPart(o, a))
  {
    hide PolicyErrors, Loadable, Canonical, Create, Update, Link, SecondReview, Authorize, Commit, PendingDraft;
    match a
    case DeskAct(action) =>
      assert RunAll(o.world, [action]) == RunAll(Step(o.world, action), []);
    case AskAct(_, _, _, _, _, _) =>
    case DecideAct(principal, id, approve, correction, now) =>
      if DeskPart(o, a) != [] {
        var action := DeskPart(o, a)[0];
        assert RunAll(o.world, [action]) == RunAll(Step(o.world, action), []);
      }
  }

  lemma {:induction false} RunInParts(w: World, before: seq<Action>, after: seq<Action>)
    ensures RunAll(w, before + after) == RunAll(RunAll(w, before), after)
    decreases |before|
  {
    hide Step;
    if before == [] {
      assert before + after == after;
    } else {
      assert (before + after)[1..] == before[1..] + after;
      RunInParts(Step(w, before[0]), before[1..], after);
    }
  }

  /**
   * Every run of the office is, for the desk, a run of the publication protocol, so that
   * everything proved of the latter holds when approvals go through the inbox.
   */
  lemma {:induction false} InboxRunsAreDeskRuns(o: Office, acts: seq<Act>)
    ensures DoAll(o, acts).world == RunAll(o.world, DeskParts(o, acts))
    decreases |acts|
  {
    hide Do, DeskPart;
    if acts == [] {
      assert DeskParts(o, acts) == [];
    } else {
      DoIsDeskPart(o, acts[0]);
      RunInParts(o.world, DeskPart(o, acts[0]), DeskParts(Do(o, acts[0]), acts[1..]));
      InboxRunsAreDeskRuns(Do(o, acts[0]), acts[1..]);
    }
  }

  // ---------------------------------------------------------------------------------------
  // The invariant
  // ---------------------------------------------------------------------------------------

  /** At most one pending request per type, target and requester. */
  ghost predicate OnePending(requests: seq<Request>) {
    forall i, j | 0 <= i < j < |requests| && requests[i].status == Pending && requests[j].status == Pending ::
      !SameKey(requests[i], requests[j].subject, requests[j].target, requests[j].requester)
  }

  /** An approved publication request names the approval record of exactly its draft. */
  ghost predicate BoundTo(approvals: seq<Approval>, r: Request)
    requires r.decider.Some? && r.subject.ReleaseOf?
  {
    && r.approval.Some? && r.approval.value < |approvals|
    && var a := approvals[r.approval.value];
    && a.kind == EventPublication && a.target == r.target && a.primary == r.requester && a.approver == r.decider.value
    && a.draft == Some(Draft(r.subject.content, DeskActor(r.requester), Some(DeskActor(r.decider.value))))
  }

  ghost predicate RequestOk(approvals: seq<Approval>, r: Request) {
    && (r.decider.Some? <==> r.status == Approved || r.status == Rejected)
    && (r.decider.Some? ==> r.decider.value != r.requester)
    && (r.status == Approved && r.subject.ReleaseOf? ==> BoundTo(approvals, r))
  }

  ghost predicate RequestsOk(approvals: seq<Approval>, requests: seq<Request>) {
    forall i | 0 <= i < |requests| :: RequestOk(approvals, requests[i])
  }

  ghost predicate OfficeInv(o: Office) {
    Inv(o.world) && OnePending(o.requests) && RequestsOk(o.world.db.approvals, o.requests)
  }

  ghost predicate Opening(o: Office) {
    Initial(o.world) && o.requests == []
  }

  /** Only time stamps of expired rows move once a request is no longer pending. */
  ghost predicate Settled(before: Request, after: Request) {
    before.status != Pending ==>
      after == (if before.status == Expired then before.(decidedAt := after.decidedAt) else before)
  }

  ghost predicate AllSettled(before: seq<Request>, after: seq<Request>) {
    |before| <= |after| && forall i | 0 <= i < |before| :: Settled(before[i], after[i])
  }

  lemma AskPreserves(db: Database, requests: seq<Request>, principal: Principal, subject: Subject, target: EventId, planned: bool,
                     checked: int, now: int)
    requires OnePending(requests) && RequestsOk(db.approvals, requests)
    ensures var after := Ask(db, requests, principal, subject, target, planned, checked, now).requests;
            OnePending(after) && RequestsOk(db.approvals, after) && AllSettled(requests, after)
  {
    hide AskRefusal, BoundTo;
  }

  lemma DecidePreserves(o: Office, principal: Principal, id: RequestId, approve: bool, correction: Option<nat>, now: int)
    requires OnePending(o.requests) && RequestsOk(o.world.db.approvals, o.requests)
    ensures var d := Decide(o.world.db, o.requests, principal, id, approve, correction, now);
            OnePending(d.requests) && RequestsOk(d.db.approvals, d.requests) && AllSettled(o.requests, d.requests)
  {
    hide PolicyErrors, Loadable, Canonical;
    var d := Decide(o.world.db, o.requests, principal, id, approve, correction, now);
    forall i | 0 <= i < |d.requests| ensures RequestOk(d.db.approvals, d.requests[i]) {
      if i != id {
        assert RequestOk(o.world.db.approvals, o.requests[i]);
      }
    }
  }

  lemma DoPreserves(o: Office, a: Act)
    requires OfficeInv(o)
    ensures OfficeInv(Do(o, a)) && AllSettled(o.requests, Do(o, a).requests)
  {
    hide Inv, OnePending, Ask, Decide;
    DoIsDeskPart(o, a);
    RunPreserves(o.world, DeskPart(o, a));
    match a
    case DeskAct(action) => MoreApprovalsKeep(o.world.db.approvals, Do(o, a).world.db.approvals, o.requests);
    case AskAct(principal, subject, target, planned, checked, now) =>
      AskPreserves(o.world.db, o.requests, principal, subject, target, planned, checked, now);
    case DecideAct(principal, id, approve, correction, now) =>
      DecidePreserves(o, principal, id, approve, correction, now);
  }

  lemma MoreApprovalsKeep(before: seq<Approval>, after: seq<Approval>, requests: seq<Request>)
    requires RequestsOk(before, requests) && before <= after
    ensures RequestsOk(after, requests)
  {
    forall i | 0 <= i < |requests| ensures RequestOk(after, requests[i]) {
      assert RequestOk(before, requests[i]);
    }
  }

  lemma SettledTwice(first: seq<Request>, second: seq<Request>, third: seq<Request>)
    requires AllSettled(first, second) && AllSettled(second, third)
    ensures AllSettled(first, third)
  {
    forall i | 0 <= i < |first| ensures Settled(first[i], third[i]) {
      assert Settled(first[i], second[i]) && Settled(second[i], third[i]);
    }
  }

  lemma {:induction false} DoAllPreserves(o: Office, acts: seq<Act>)
    requires OfficeInv(o)
    ensures OfficeInv(DoAll(o, acts)) && AllSettled(o.requests, DoAll(o, acts).requests)
    decreases |acts|
  {
    if acts != [] {
      hide OfficeInv, Do, AllSettled;
      DoPreserves(o, acts[0]);
      DoAllPreserves(Do(o, acts[0]), acts[1..]);
      SettledTwice(o.requests, Do(o, acts[0]).requests, DoAll(o, acts).requests);
    }
  }

  // ---------------------------------------------------------------------------------------
  // The promises of the inbox
  // ---------------------------------------------------------------------------------------

  /**
   * In every run there is at most one pending request per type, target and requester; whoever
   * decided a request did not make it; and an approved publication request has an approval
   * record of exactly its draft, naming its two people.
   */
  lemma OnePendingAndTwoPeople(start: Office, acts: seq<Act>)
    requires Opening(start)
    ensures var o := DoAll(start, acts); OnePending(o.requests) && RequestsOk(o.world.db.approvals, o.requests)
  {
    hide DoAll, Opening, RequestOk;
    OpeningHolds(start);
    DoAllPreserves(start, acts);
  }

  /** A request that has been decided, cancelled or expired stays that way, whatever happens. */
  lemma SettledForever(start: Office, before: seq<Act>, later: seq<Act>, i: RequestId)
    requires Opening(start) && i < |DoAll(start, before).requests| && DoAll(start, before).requests[i].status != Pending
    ensures var o := DoAll(start, before);
            var u := DoAll(o, later);
            && i < |u.requests| && u.requests[i].status == o.requests[i].status && u.requests[i].decider == o.requests[i].decider
            && (o.requests[i].status != Expired ==> u.requests[i] == o.requests[i])
  {
    hide DoAll, Inv, Initial, OnePending, RequestsOk;
    OpeningHolds(start);
    DoAllPreserves(start, before);
    var o := DoAll(start, before);
    DoAllPreserves(o, later);
    assert Settled(o.requests[i], DoAll(o, later).requests[i]);
  }

  lemma OpeningHolds(o: Office)
    requires Opening(o)
    ensures OfficeInv(o)
  {
    hide VersionOk, ApprovalOk;
  }

  /**
   * A decision attempt rewrites an already expired request exactly when the attempt passes the
   * role checks at another time: it restamps the moment of the "decision".
   */
  lemma ExpiredRequestIsRestamped(db: Database, requests: seq<Request>, principal: Principal, id: RequestId, approve: bool,
                                  correction: Option<nat>, now: int)
    requires id < |requests| && requests[id].status == Expired
    ensures Decide(db, requests, principal, id, approve, correction, now).requests != requests
            <==> MayApprove(principal.role) && Strong(principal.assurance) && requests[id].decidedAt != Some(now)
  {
    var r := requests[id].(status := Expired, decidedAt := Some(now));
    assert requests[id := r][id] == r;
    if r == requests[id] {
      assert requests[id := r] == requests;
    }
  }

  /** Asking again for the same approval, while it is pending, files nothing and finds the request. */
  lemma AskingTwiceFilesOnce(db: Database, requests: seq<Request>, principal: Principal, subject: Subject, target: EventId,
                             planned: bool, checked: int, now: int, later: int, again: int)
    requires OnePending(requests)
    requires Ask(db, requests, principal, subject, target, planned, checked, now).result.Ok?
    requires AskRefusal(db, principal, subject, target, planned, later).None?
    requires var first := Ask(db, requests, principal, subject, target, planned, checked, now);
             later < first.requests[first.result.value].expiresAt
    ensures var first := Ask(db, requests, principal, subject, target, planned, checked, now);
            Ask(db, first.requests, principal, subject, target, planned, later, again) == first
  {
    hide AskRefusal;
    var first := Ask(db, requests, principal, subject, target, planned, checked, now);
    var found := FindPending(first.requests, subject, target, principal.user);
    var mine := first.requests[first.result.value];
    assert mine.status == Pending && SameHash(mine, subject, target, principal.user);
    assert found.Some?;
  }

  // ---------------------------------------------------------------------------------------
  // What asking and deciding do
  // ---------------------------------------------------------------------------------------

  /** The request may be filed: by a publisher, for a plannable correction or for a release that needs approval and could get it. */
  ghost predicate MayAsk(db: Database, principal: Principal, subject: Subject, target: EventId, planned: bool, now: int) {
    && principal.role in {Analyst, SeniorAnalyst, Administrator}
    && match subject
       case CorrectionOf(_) => planned
       case ReleaseOf(content) =>
         && target in db.events && db.events[target].severity >= 3 && OwnEvidence(db, content)
         && Publishable(db, target, Draft(content, DeskActor(principal.user), Some(OtherActor("approval:pending"))), now)
  }

  /** The same request is waiting for a decision and has not lapsed. */
  ghost predicate IsWaiting(requests: seq<Request>, subject: Subject, target: EventId, requester: UserId, now: int, id: RequestId) {
    && id < |requests| && requests[id].status == Pending && now < requests[id].expiresAt
    && requests[id].subject == subject && requests[id].target == target && requests[id].requester == requester
  }

  /** A waiting request of this type, target and requester is cancelled, any other stays as it is. */
  ghost predicate IsSuperseded(before: Request, subject: Subject, target: EventId, requester: UserId, now: int, after: Request) {
    if before.status == Pending && before.target == target && before.requester == requester && (before.subject.ReleaseOf? <==> subject.ReleaseOf?)
    then after == before.(status := Cancelled, decidedAt := Some(now)) else after == before
  }

  /**
   * Asking succeeds exactly if the request may be filed.  If the same request is waiting, it is
   * found and nothing changes; otherwise requests of its key that are still waiting are cancelled,
   * and one new request is filed for a day.
   */
  lemma AskedExactly(db: Database, requests: seq<Request>, principal: Principal, subject: Subject, target: EventId, planned: bool, checked: int, now: int)
    requires OnePending(requests)
    ensures var a := Ask(db, requests, principal, subject, target, planned, checked, now);
            && (a.result.Ok? <==> MayAsk(db, principal, subject, target, planned, checked))
            && (a.result.Err? ==> a.requests == requests)
            && (a.result.Ok? ==>
                  if exists id :: IsWaiting(requests, subject, target, principal.user, checked, id)
                  then a.requests == requests && IsWaiting(requests, subject, target, principal.user, checked, a.result.value)
                  else
                    && |a.requests| == |requests| + 1 && a.result.value == |requests|
                    && (forall i | 0 <= i < |requests| :: IsSuperseded(requests[i], subject, target, principal.user, now, a.requests[i]))
                    && a.requests[|requests|] == Request(subject, target, principal.user, Pending, now + 86400, None, None, None))
  {
    hide PolicyErrors, Publishable, Loadable, OwnEvidence;
    MayAskExactly(db, principal, subject, target, planned, checked);
    var existing := FindPending(requests, subject, target, principal.user);
    if id :| IsWaiting(requests, subject, target, principal.user, checked, id) {
      assert existing.Some?;
      assert existing.value == id;
    } else if existing.Some? {
      assert !IsWaiting(requests, subject, target, principal.user, checked, existing.value);
    }
  }

  lemma MayAskExactly(db: Database, principal: Principal, subject: Subject, target: EventId, planned: bool, now: int)
    ensures AskRefusal(db, principal, subject, target, planned, now).None? <==> MayAsk(db, principal, subject, target, planned, now)
  {
    hide PolicyErrors, Publishable, Loadable, OwnEvidence;
    if subject.ReleaseOf? {
      OwnEvidenceIsLoadable(db, subject.content);
      if target in db.events {
        NoErrorsMeansPublishable(db, target, PendingDraft(subject.content, principal.user), now);
      }
    }
  }

  /** The person may decide on this request now: someone else's, waiting and not lapsed. */
  ghost predicate MayDecideOn(principal: Principal, r: Request, now: int) {
    MayDecide(principal) && r.status == Pending && now < r.expiresAt && r.requester != principal.user
  }

  /** A rejection is accepted exactly from a person who may decide on the request, and recorded with the decider's name and time. */
  lemma RejectedExactly(db: Database, requests: seq<Request>, principal: Principal, id: RequestId, correction: Option<nat>, now: int)
    ensures var d := Decide(db, requests, principal, id, false, correction, now);
            && (d.result.Ok? <==> id < |requests| && MayDecideOn(principal, requests[id], now))
            && (d.result.Ok? ==>
                  && d.result.value == Rejected && d.db == db
                  && d.requests == requests[id := requests[id].(status := Rejected, decidedAt := Some(now), decider := Some(principal.user))])
  {
  }

  /**
   * An approval is accepted exactly from a person who may decide on the request, if a correction's
   * own checks pass, or if the desk accepts the direct approval of the same release; it names
   * the approval record, which for a release is the one that the desk adds.
   */
  lemma ApprovedOnRequestExactly(db: Database, requests: seq<Request>, principal: Principal, id: RequestId, correction: Option<nat>, now: int)
    ensures var d := Decide(db, requests, principal, id, true, correction, now);
            && (d.result.Ok? <==>
                  && id < |requests| && MayDecideOn(principal, requests[id], now)
                  && match requests[id].subject
                     case CorrectionOf(_) => correction.Some?
                     case ReleaseOf(content) => Publication.Approve(db, principal, requests[id].target, requests[id].requester, content, now).Ok?)
            && (d.result.Ok? ==>
                  && d.result.value == Approved
                  && var r := requests[id];
                  var approval := if r.subject.CorrectionOf? then correction else Some(|db.approvals|);
                  && d.requests == requests[id := r.(status := Approved, decidedAt := Some(now), decider := Some(principal.user), approval := approval)]
                  && if r.subject.CorrectionOf? then d.db == db
                     else Publication.Approve(db, principal, r.target, r.requester, r.subject.content, now) == Result.Ok(d.db))
  {
    hide Publication.Approve;
  }

  /** An attempt that decides nothing leaves the desk as it is; a person entitled to decide marks a lapsed request as expired. */
  lemma RefusedDecisionChangesOnly(db: Database, requests: seq<Request>, principal: Principal, id: RequestId, approve: bool, correction: Option<nat>, now: int)
    ensures var d := Decide(db, requests, principal, id, approve, correction, now);
            d.result.Err? ==>
              && d.db == db
              && if MayDecide(principal) && id < |requests| && (requests[id].status == Expired || (requests[id].status == Pending && requests[id].expiresAt <= now))
                 then d.requests == requests[id := requests[id].(status := Expired, decidedAt := Some(now))] else d.requests == requests
  {
    hide Publication.Approve;
  }
}
