/**
 * Lineage roots (lineage.py, `review_lineage_proposal` and `_assign_to_root`; workspace.py,
 * the fallback root of `link_evidence`).
 *
 * Rows of the proposal, root and review tables are numbered by insertion.  `Ledger` is the
 * value of the tables; the functions on it specify the operations, and `LineageDesk` performs
 * them in place.
 */
module Lineage {
  import opened Common

  type RecordId = nat
  type RootId = nat

  datatype Record = Record(source: nat, seenAt: int)

  datatype ProposalStatus = Pending | Accepted | Rejected | Superseded

  datatype Proposal = Proposal(subject: RecordId, candidate: Option<RecordId>, originSource: Option<nat>, status: ProposalStatus)

  datatype Root = Root(originSource: nat, firstSeen: int)

  datatype Decision = Accept | Reject

  datatype Review = Review(proposal: nat, decision: Decision, reviewer: string)

  datatype ReviewError =
    | ModelReviewer
    | ReasonRequired
    | ProposalNotFound
    | AlreadyDecided
    | RecordMissing
    | WouldMergeRoots
    | DifferentRoot

  datatype Ledger = Ledger(records: map<RecordId, Record>, proposals: seq<Proposal>,
                           lineage: map<RecordId, RootId>, roots: seq<Root>, reviews: seq<Review>)

  // ---------------------------------------------------------------------------------------
  // Specification of the operations
  // ---------------------------------------------------------------------------------------

  /** The records a proposal names. */
  function Members(p: Proposal): set<RecordId> {
    {p.subject} + if p.candidate.Some? then {p.candidate.value} else {}
  }

  /** The root that accepting `p` would use, if a member already has one. */
  function EstablishedRoot(lineage: map<RecordId, RootId>, p: Proposal): Option<RootId> {
    if p.subject in lineage then Some(lineage[p.subject])
    else if p.candidate.Some? && p.candidate.value in lineage then Some(lineage[p.candidate.value])
    else None
  }

  predicate MergesRoots(lineage: map<RecordId, RootId>, p: Proposal) {
    && p.subject in lineage
    && p.candidate.Some? && p.candidate.value in lineage
    && lineage[p.subject] != lineage[p.candidate.value]
  }

  function ReviewRefusal(l: Ledger, i: nat, decision: Decision, reviewer: string, reason: Option<string>): Option<ReviewError> {
    if IsModel(reviewer) then Some(ModelReviewer)
    else if decision.Reject? && (reason.None? || reason.value == "") then Some(ReasonRequired)
    else if i >= |l.proposals| then Some(ProposalNotFound)
    else if !l.proposals[i].status.Pending? then Some(AlreadyDecided)
    else if decision.Accept? && !(Members(l.proposals[i]) <= l.records.Keys) then Some(RecordMissing)
    else if decision.Accept? && MergesRoots(l.lineage, l.proposals[i]) then Some(WouldMergeRoots)
    else None
  }

  /** The ledger after a review that is not refused. */
  ghost function Reviewed(l: Ledger, i: nat, decision: Decision, reviewer: string): (l': Ledger)
    requires i < |l.proposals| && (decision.Accept? ==> Members(l.proposals[i]) <= l.records.Keys)
  {
    var p := l.proposals[i];
    var log := l.reviews + [Review(i, decision, reviewer)];
    if decision.Reject? then
      l.(proposals := l.proposals[i := p.(status := Rejected)], reviews := log)
    else
      var established := EstablishedRoot(l.lineage, p);
      var root := if established.Some? then established.value else |l.roots|;
      Ledger(l.records,
             l.proposals[i := p.(status := Accepted)],
             map r | r in l.lineage.Keys + Members(p) :: if r in l.lineage then l.lineage[r] else root,
             if established.Some? then l.roots else l.roots + [NewRoot(l.records, p)],
             log)
  }

  function NewRoot(records: map<RecordId, Record>, p: Proposal): Root
    requires Members(p) <= records.Keys
  {
    var subject := records[p.subject];
    var origin := if p.candidate.Some? then records[p.candidate.value] else subject;
    Root(if p.originSource.Some? then p.originSource.value else origin.source,
         if origin.seenAt < subject.seenAt then origin.seenAt else subject.seenAt)
  }

  /** Linking a record as evidence gives it a root of its own when it has none. */
  function Linked(l: Ledger, record: RecordId): Ledger
    requires record in l.records
  {
    if record in l.lineage then l
    else l.(lineage := l.lineage[record := |l.roots|], roots := l.roots + [Root(l.records[record].source, l.records[record].seenAt)])
  }

  // ---------------------------------------------------------------------------------------
  // The operations in place
  // ---------------------------------------------------------------------------------------

  class LineageDesk {
    var records: map<RecordId, Record>
    var proposals: seq<Proposal>
    var lineage: map<RecordId, RootId>
    var roots: seq<Root>
    var reviews: seq<Review>

    ghost function Contents(): Ledger
      reads this
    {
      Ledger(records, proposals, lineage, roots, reviews)
    }

    method AssignToRoot(record: RecordId, root: RootId) returns (error: Option<ReviewError>)
      modifies this`lineage
      ensures error == if record in old(lineage) && old(lineage)[record] != root then Some(DifferentRoot) else None
      ensures lineage == if record in old(lineage) then old(lineage) else old(lineage)[record := root]
    {
      if record in lineage {
        return if lineage[record] != root then Some(DifferentRoot) else None;
      }
      lineage := lineage[record := root];
      return None;
    }

    /** The accepting branch: choose or create the root, assign both records, mark the row. */
    method Accept(i: nat)
      requires i < |proposals| && Members(proposals[i]) <= records.Keys && !MergesRoots(lineage, proposals[i])
      modifies this
      ensures Contents() == Reviewed(old(Contents()), i, Decision.Accept, "").(reviews := old(reviews))
    {
      var p := proposals[i];
      var root;
      if p.subject in lineage {
        root := lineage[p.subject];
      } else if p.candidate.Some? && p.candidate.value in lineage {
        root := lineage[p.candidate.value];
      } else {
        root := |roots|;
        roots := roots + [NewRoot(records, p)];
      }
      var error := AssignToRoot(p.subject, root);
      if p.candidate.Some? {
        error := AssignToRoot(p.candidate.value, root);
      }
      proposals := proposals[i := p.(status := Accepted)];
    }

    method ReviewProposal(i: nat, decision: Decision, reviewer: string, reason: Option<string>)
      returns (error: Option<ReviewError>)
      modifies this
      ensures error == ReviewRefusal(old(Contents()), i, decision, reviewer, reason)
      ensures error.Some? ==> Contents() == old(Contents())
      ensures error.None? ==> Contents() == Reviewed(old(Contents()), i, decision, reviewer)
    {
      if IsModel(reviewer) {
        return Some(ModelReviewer);
      }
      if decision.Reject? && (reason.None? || reason.value == "") {
        return Some(ReasonRequired);
      }
      if i >= |proposals| {
        return Some(ProposalNotFound);
      }
      var p := proposals[i];
      if !p.status.Pending? {
        return Some(AlreadyDecided);
      }
      if decision.Accept? {
        if p.subject !in records || (p.candidate.Some? && p.candidate.value !in records) {
          return Some(RecordMissing);
        }
        if MergesRoots(lineage, p) {
          return Some(WouldMergeRoots);
        }
        Accept(i);
      } else {
        proposals := proposals[i := p.(status := Rejected)];
      }
      reviews := reviews + [Review(i, decision, reviewer)];
      error := None;
    }

    /** The root that `link_evidence` records on the evidence row. */
    method RootForEvidence(record: RecordId) returns (root: Option<RootId>)
      modifies this
      ensures root.None? <==> record !in old(records)
      ensures root.None? ==> Contents() == old(Contents())
      ensures root.Some? ==> Contents() == Linked(old(Contents()), record) && record in lineage && root.value == lineage[record]
    {
      if record !in records {
        return None;
      }
      if record !in lineage {
        roots := roots + [Root(records[record].source, records[record].seenAt)];
        lineage := lineage[record := |roots| - 1];
      }
      return Some(lineage[record]);
    }
  }
}
