/**
 * The approval inbox (approval_requests.py): analysts ask for a second person's approval of an
 * exact draft, and a second person decides.  Approving runs the same checks as a direct
 * approval and is refused, leaving the request pending, when they fail.
 */
module ApprovalInbox {
  import opened Common
  import opened Desk
  import opened Publication
  import opened EditorialDesk

  /** `plan` stands for the correction draft, whose own approval is not part of this model. */
  datatype Subject = ReleaseOf(content: Content) | CorrectionOf(plan: string)

  datatype Status = Pending | Approved | Rejected | Cancelled | Expired

  datatype Request = Request(subject: Subject, target: EventId, requester: UserId, status: Status, expiresAt: int,
                             decidedAt: Option<int>, decider: Option<UserId>, approval: Option<nat>)

  type RequestId = nat

  datatype InboxRefusal = DeskRefusal(reason: Refusal) | NotPlanned | RequestExpired | AlreadyDecided

  const REQUEST_VALIDITY: int := 24 * 60 * 60

  /** The uniqueness key of a pending request: its type, target and requester. */
  predicate SameKey(r: Request, subject: Subject, target: EventId, requester: UserId) {
    r.subject.ReleaseOf? == subject.ReleaseOf? && r.target == target && r.requester == requester
  }

  /** The request hash covers the key and the whole draft. */
  predicate SameHash(r: Request, subject: Subject, target: EventId, requester: UserId) {
    r.subject == subject && r.target == target && r.requester == requester
  }

  /** The status a reader sees (`_effective_status`). */
  function Effective(r: Request, now: int): Status {
    if r.status == Pending && r.expiresAt <= now then Expired else r.status
  }

  // ---------------------------------------------------------------------------------------
  // Asking
  // ---------------------------------------------------------------------------------------

  function PendingDraft(content: Content, requester: UserId): Draft {
    Draft(content, DeskActor(requester), Some(OtherActor("approval:pending")))
  }

  /** Why a publication request is not even filed; `planned` says that a correction could be planned. */
  function AskRefusal(db: Database, principal: Principal, subject: Subject, target: EventId, planned: bool, now: int): Option<InboxRefusal> {
    if !MayPublish(principal.role) then Some(DeskRefusal(RoleTooLow))
    else if subject.CorrectionOf? then if planned then None else Some(NotPlanned)
    else if target !in db.events then Some(DeskRefusal(NotFound))
    else if db.events[target].severity < 3 then Some(DeskRefusal(SeverityTooLow))
    else if !Loadable(db, subject.content) then Some(DeskRefusal(EvidenceMismatch))
    else
      var errors := PolicyErrors(db, target, PendingDraft(subject.content, principal.user), now);
      if errors != [] then Some(DeskRefusal(PolicyFailed(errors[0]))) else None
  }

  function Cancel(r: Request, subject: Subject, target: EventId, requester: UserId, now: int): Request {
    if r.status == Pending && SameKey(r, subject, target, requester) then r.(status := Cancelled, decidedAt := Some(now)) else r
  }

  function Superseded(requests: seq<Request>, subject: Subject, target: EventId, requester: UserId, now: int): (r: seq<Request>)
    ensures |r| == |requests|
  {
    seq(|requests|, i requires 0 <= i < |requests| => Cancel(requests[i], subject, target, requester, now))
  }

  /** The first pending request with this hash. */
  function FindPending(requests: seq<Request>, subject: Subject, target: EventId, requester: UserId): (id: Option<RequestId>)
    ensures id.Some? ==>
              && id.value < |requests| && requests[id.value].status == Pending
              && SameHash(requests[id.value], subject, target, requester)
    ensures id.None? ==>
              forall i | 0 <= i < |requests| :: requests[i].status != Pending || !SameHash(requests[i], subject, target, requester)
  {
    if requests == [] then None
    else
      var n := |requests| - 1;
      var earlier := FindPending(requests[..n], subject, target, requester);
      if earlier.Some? then earlier
      else if requests[n].status == Pending && SameHash(requests[n], subject, target, requester) then Some(n) else None
  }

  datatype Asked = Asked(requests: seq<Request>, result: Result<RequestId, InboxRefusal>)

  /** `checked` and `now` are the two clock readings of one call. */
  function Ask(db: Database, requests: seq<Request>, principal: Principal, subject: Subject, target: EventId, planned: bool,
               checked: int, now: int): Asked
  {
    var refusal := AskRefusal(db, principal, subject, target, planned, checked);
    if refusal.Some? then Asked(requests, Err(refusal.value))
    else
      var existing := FindPending(requests, subject, target, principal.user);
      if existing.Some? && Effective(requests[existing.value], checked) == Pending then Asked(requests, Ok(existing.value))
      else
        var row := Request(subject, target, principal.user, Pending, now + REQUEST_VALIDITY, None, None, None);
        Asked(Superseded(requests, subject, target, principal.user, now) + [row], Ok(|requests|))
  }

  // ---------------------------------------------------------------------------------------
  // Deciding
  // ---------------------------------------------------------------------------------------

  datatype Decided = Decided(requests: seq<Request>, db: Database, result: Result<Status, InboxRefusal>)

  /** `correction` is the approval record a correction's own checks produce, if they pass. */
  function Decide(db: Database, requests: seq<Request>, principal: Principal, id: RequestId, approve: bool, correction: Option<nat>, now: int): Decided {
    if !MayApprove(principal.role) then Decided(requests, db, Err(DeskRefusal(RoleTooLow)))
    else if !Strong(principal.assurance) then Decided(requests, db, Err(DeskRefusal(WeakAssurance)))
    else if id >= |requests| then Decided(requests, db, Err(DeskRefusal(NotFound)))
    else
      var r := requests[id];
      if Effective(r, now) == Expired
      then Decided(requests[id := r.(status := Expired, decidedAt := Some(now))], db, Err(RequestExpired))
      else if r.status != Pending then Decided(requests, db, Err(AlreadyDecided))
      else if r.requester == principal.user then Decided(requests, db, Err(DeskRefusal(SamePerson)))
      else
        var decided := r.(decidedAt := Some(now), decider := Some(principal.user));
        if !approve then Decided(requests[id := decided.(status := Rejected)], db, Ok(Rejected))
        else if r.subject.CorrectionOf? then
          if correction.None? then Decided(requests, db, Err(NotPlanned))
          else Decided(requests[id := decided.(status := Approved, approval := correction)], db, Ok(Approved))
        else
          match Publication.Approve(db, principal, r.target, r.requester, r.subject.content, now)
          case Err(e) => Decided(requests, db, Err(DeskRefusal(e)))
          case Ok(approved) =>
            Decided(requests[id := decided.(status := Approved, approval := Some(|db.approvals|))], approved, Ok(Approved))
  }

  // ---------------------------------------------------------------------------------------
  // The inbox as the code runs it
  // ---------------------------------------------------------------------------------------

  class Inbox {
    var requests: seq<Request>
    const desk: Session

    constructor (desk: Session)
      ensures this.desk == desk && requests == []
    {
      this.desk := desk;
      requests := [];
    }

    method FindExisting(subject: Subject, target: EventId, requester: UserId) returns (id: Option<RequestId>)
      ensures id == FindPending(requests, subject, target, requester)
    {
      id := None;
      for i := 0 to |requests|
        invariant id == FindPending(requests[..i], subject, target, requester)
      {
        assert requests[..i + 1][..i] == requests[..i];
        if id.None? && requests[i].status == Pending && SameHash(requests[i], subject, target, requester) {
          id := Some(i);
        }
      }
      assert requests[..|requests|] == requests;
    }

    method SupersedePendingRequests(subject: Subject, target: EventId, requester: UserId, now: int)
      modifies this`requests
      ensures requests == Superseded(old(requests), subject, target, requester, now)
    {
      for i := 0 to |requests|
        invariant |requests| == |old(requests)|
        invariant forall k | 0 <= k < i :: requests[k] == Cancel(old(requests[k]), subject, target, requester, now)
        invariant forall k | i <= k < |requests| :: requests[k] == old(requests[k])
      {
        if requests[i].status == Pending && SameKey(requests[i], subject, target, requester) {
          requests := requests[i := requests[i].(status := Cancelled, decidedAt := Some(now))];
        }
      }
    }

    method CreateRequest(principal: Principal, subject: Subject, target: EventId, planned: bool, checked: int, now: int)
      returns (result: Result<RequestId, InboxRefusal>)
      modifies this`requests
      ensures Asked(requests, result) == Ask(desk.Contents(), old(requests), principal, subject, target, planned, checked, now)
    {
      hide FindPending, Superseded, PolicyErrors, Loadable, Loaded, Canonical;
      if !MayPublish(principal.role) {
        return Err(DeskRefusal(RoleTooLow));
      }
      if subject.CorrectionOf? {
        if !planned {
          return Err(NotPlanned);
        }
      } else {
        if target !in desk.events {
          return Err(DeskRefusal(NotFound));
        }
        if desk.events[target].severity < 3 {
          return Err(DeskRefusal(SeverityTooLow));
        }
        var previewed := desk.PreviewEventVersion(target, PendingDraft(subject.content, principal.user), checked);
        if previewed.Err? {
          return Err(DeskRefusal(previewed.error));
        }
        if previewed.value.errors != [] {
          return Err(DeskRefusal(PolicyFailed(previewed.value.errors[0])));
        }
      }
      var existing := FindExisting(subject, target, principal.user);
      if existing.Some? && Effective(requests[existing.value], checked) == Pending {
        return Ok(existing.value);
      }
      SupersedePendingRequests(subject, target, principal.user, now);
      requests := requests + [Request(subject, target, principal.user, Pending, now + REQUEST_VALIDITY, None, None, None)];
      return Ok(|requests| - 1);
    }

    method DecideRequest(principal: Principal, id: RequestId, approve: bool, correction: Option<nat>, now: int)
      returns (result: Result<Status, InboxRefusal>)
      modifies this`requests, desk`approvals
      ensures Decided(requests, desk.Contents(), result)
              == Decide(old(desk.Contents()), old(requests), principal, id, approve, correction, now)
    {
      hide Publication.Approve;
      if !MayApprove(principal.role) {
        return Err(DeskRefusal(RoleTooLow));
      }
      if !Strong(principal.assurance) {
        return Err(DeskRefusal(WeakAssurance));
      }
      if id >= |requests| {
        return Err(DeskRefusal(NotFound));
      }
      var request := requests[id];
      if Effective(request, now) == Expired {
        requests := requests[id := request.(status := Expired, decidedAt := Some(now))];
        return Err(RequestExpired);
      }
      if request.status != Pending {
        return Err(AlreadyDecided);
      }
      if request.requester == principal.user {
        return Err(DeskRefusal(SamePerson));
      }
      if !approve {
        requests := requests[id := request.(status := Rejected, decidedAt := Some(now), decider := Some(principal.user))];
        return Ok(Rejected);
      }
      var approval := correction;
      if request.subject.ReleaseOf? {
        var approved := desk.ApproveEventPublication(principal, request.target, request.requester, request.subject.content, now);
        if approved.Err? {
          return Err(DeskRefusal(approved.error));
        }
        approval := Some(approved.value);
      } else if correction.None? {
        return Err(NotPlanned);
      }
      requests := requests[id := request.(status := Approved, decidedAt := Some(now), decider := Some(principal.user), approval := approval)];
      return Ok(Approved);
    }
  }
}
