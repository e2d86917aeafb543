/** Lineage roots are exactly connectivity, and a root once assigned never changes. */
module LineageLaws {
  import opened Common
  import opened Lineage

  // ---------------------------------------------------------------------------------------
  // Chains of accepted record pairs
  // ---------------------------------------------------------------------------------------

  predicate Joins(p: Proposal, a: RecordId, b: RecordId) {
    && p.status.Accepted? && p.candidate.Some?
    && ((p.subject == a && p.candidate.value == b) || (p.subject == b && p.candidate.value == a))
  }

  ghost predicate Adjacent(proposals: seq<Proposal>, a: RecordId, b: RecordId) {
    exists p | p in proposals :: Joins(p, a, b)
  }

  ghost predicate IsChain(proposals: seq<Proposal>, chain: seq<RecordId>) {
    chain != [] && forall k | 0 < k < |chain| :: Adjacent(proposals, chain[k - 1], chain[k])
  }

  ghost predicate Connected(proposals: seq<Proposal>, a: RecordId, b: RecordId) {
    exists chain :: IsChain(proposals, chain) && chain[0] == a && chain[|chain| - 1] == b
  }

  lemma ConnectedBasics(proposals: seq<Proposal>, a: RecordId, b: RecordId)
    ensures Connected(proposals, a, a)
    ensures Adjacent(proposals, a, b) ==> Connected(proposals, a, b) && Connected(proposals, b, a)
  {
    assert IsChain(proposals, [a]);
    if p :| p in proposals && Joins(p, a, b) {
      assert Joins(p, b, a);
      assert Adjacent(proposals, b, a);
      assert IsChain(proposals, [a, b]) && IsChain(proposals, [b, a]);
    }
  }

  lemma ConnectedTransitive(proposals: seq<Proposal>, a: RecordId, b: RecordId, c: RecordId)
    requires Connected(proposals, a, b) && Connected(proposals, b, c)
    ensures Connected(proposals, a, c)
  {
    var left :| IsChain(proposals, left) && left[0] == a && left[|left| - 1] == b;
    var right :| IsChain(proposals, right) && right[0] == b && right[|right| - 1] == c;
    var chain := left + right[1..];
    forall k | 0 < k < |chain| ensures Adjacent(proposals, chain[k - 1], chain[k]) {
      if k >= |left| {
        assert chain[k] == right[k - |left| + 1] && chain[k - 1] == right[k - |left|];
      }
    }
    assert IsChain(proposals, chain);
  }

  lemma {:induction false} ConnectedSymmetric(proposals: seq<Proposal>, a: RecordId, b: RecordId)
    requires Connected(proposals, a, b)
    ensures Connected(proposals, b, a)
  {
    var chain :| IsChain(proposals, chain) && chain[0] == a && chain[|chain| - 1] == b;
    var back := seq(|chain|, k requires 0 <= k < |chain| => chain[|chain| - 1 - k]);
    forall k | 0 < k < |back| ensures Adjacent(proposals, back[k - 1], back[k]) {
      var j := |chain| - k;
      assert Adjacent(proposals, chain[j - 1], chain[j]);
      var p :| p in proposals && Joins(p, chain[j - 1], chain[j]);
      assert Joins(p, chain[j], chain[j - 1]);
    }
    assert IsChain(proposals, back);
  }

  /** More accepted pairs never disconnect anything. */
  lemma ConnectedMonotone(before: seq<Proposal>, after: seq<Proposal>, a: RecordId, b: RecordId)
    requires forall p | p in before && p.status.Accepted? :: p in after
    requires Connected(before, a, b)
    ensures Connected(after, a, b)
  {
    var chain :| IsChain(before, chain) && chain[0] == a && chain[|chain| - 1] == b;
    forall k | 0 < k < |chain| ensures Adjacent(after, chain[k - 1], chain[k]) {
      assert Adjacent(before, chain[k - 1], chain[k]);
      var p :| p in before && Joins(p, chain[k - 1], chain[k]);
      assert p in after;
    }
    assert IsChain(after, chain);
  }

  // ---------------------------------------------------------------------------------------
  // The state machine
  // ---------------------------------------------------------------------------------------

  datatype Action =
    | AddRecord(id: RecordId, record: Record)
    | Propose(subject: RecordId, candidate: Option<RecordId>, originSource: Option<nat>)
    | ReviewAction(proposal: nat, decision: Decision, reviewer: string, reason: Option<string>)
    | LinkEvidence(linked: RecordId)

  ghost function Step(l: Ledger, a: Action): Ledger {
    match a
    case AddRecord(id, record) => if id in l.records then l else l.(records := l.records[id := record])
    case Propose(s, c, o) => l.(proposals := l.proposals + [Proposal(s, c, o, Pending)])
    case ReviewAction(i, d, reviewer, reason) =>
      if ReviewRefusal(l, i, d, reviewer, reason).Some? then l else Reviewed(l, i, d, reviewer)
    case LinkEvidence(record) => if record in l.records then Linked(l, record) else l
  }

  ghost function RunAll(l: Ledger, actions: seq<Action>): Ledger
    decreases |actions|
  {
    if actions == [] then l else RunAll(Step(l, actions[0]), actions[1..])
  }

  const EMPTY := Ledger(map[], [], map[], [], [])

  ghost predicate AcceptedPairsShareARoot(l: Ledger) {
    forall p | p in l.proposals && p.status.Accepted? ::
      && Members(p) <= l.lineage.Keys
      && forall r | r in Members(p) :: l.lineage[r] == l.lineage[p.subject]
  }

  ghost predicate RootsAreConnected(l: Ledger) {
    forall a, b | a in l.lineage && b in l.lineage && l.lineage[a] == l.lineage[b] :: Connected(l.proposals, a, b)
  }

  ghost predicate Inv(l: Ledger) {
    && (forall r | r in l.lineage :: l.lineage[r] < |l.roots|)
    && AcceptedPairsShareARoot(l)
    && RootsAreConnected(l)
  }

  lemma AcceptPreserves(l: Ledger, i: nat, reviewer: string, reason: Option<string>)
    requires Inv(l) && ReviewRefusal(l, i, Accept, reviewer, reason).None?
    ensures Inv(Reviewed(l, i, Accept, reviewer))
  {
    var p := l.proposals[i];
    var q := p.(status := Accepted);
    var l' := Reviewed(l, i, Accept, reviewer);
    var established := EstablishedRoot(l.lineage, p);
    var root := if established.Some? then established.value else |l.roots|;
    assert l'.proposals[i] == q;
    forall x | x in l.proposals && x.status.Accepted? ensures x in l'.proposals {
      var k :| 0 <= k < |l.proposals| && l.proposals[k] == x;
      assert l'.proposals[k] == x;
    }
    assert l'.lineage[p.subject] == root;
    forall x | x in l'.proposals && x.status.Accepted?
      ensures Members(x) <= l'.lineage.Keys && forall r | r in Members(x) :: l'.lineage[r] == l'.lineage[x.subject]
    {
      if x != q {
        assert x in l.proposals;
      }
    }
    forall m | m in Members(p) ensures Connected(l'.proposals, m, p.subject) && Connected(l'.proposals, p.subject, m) {
      if m != p.subject {
        assert Joins(q, m, p.subject);
        assert Adjacent(l'.proposals, m, p.subject);
      }
      ConnectedBasics(l'.proposals, m, p.subject);
    }
    forall a, b | a in l'.lineage && b in l'.lineage && l'.lineage[a] == l'.lineage[b]
      ensures Connected(l'.proposals, a, b)
    {
      if l'.lineage[a] == root {
        ReachesSubject(l, l', p, root, a);
        ReachesSubject(l, l', p, root, b);
        ConnectedSymmetric(l'.proposals, b, p.subject);
        ConnectedTransitive(l'.proposals, a, p.subject, b);
      } else {
        ConnectedMonotone(l.proposals, l'.proposals, a, b);
      }
    }
  }

  /** After an acceptance every record under its root has a chain to the proposal's subject. */
  lemma ReachesSubject(l: Ledger, l': Ledger, p: Proposal, root: RootId, a: RecordId)
    requires Inv(l)
    requires forall x | x in l.proposals && x.status.Accepted? :: x in l'.proposals
    requires forall m | m in Members(p) :: Connected(l'.proposals, m, p.subject)
    requires EstablishedRoot(l.lineage, p) == Some(root) || (EstablishedRoot(l.lineage, p).None? && root == |l.roots|)
    requires a in l.lineage.Keys + Members(p)
    requires a in l.lineage ==> l.lineage[a] == root
    ensures Connected(l'.proposals, a, p.subject)
  {
    if a !in Members(p) {
      var m := if p.subject in l.lineage then p.subject else p.candidate.value;
      assert m in Members(p) && l.lineage[m] == root;
      assert Connected(l.proposals, a, m);
      ConnectedMonotone(l.proposals, l'.proposals, a, m);
      ConnectedTransitive(l'.proposals, a, m, p.subject);
    }
  }

  lemma LinkPreserves(l: Ledger, record: RecordId)
    requires Inv(l) && record in l.records
    ensures Inv(Linked(l, record))
  {
    ConnectedBasics(l.proposals, record, record);
  }

  lemma StepPreserves(l: Ledger, action: Action)
    requires Inv(l)
    ensures Inv(Step(l, action))
    ensures WriteOnce(l, Step(l, action))
  {
    var l' := Step(l, action);
    match action
    case AddRecord(id, record) =>
    case LinkEvidence(record) =>
      if record in l.records {
        LinkPreserves(l, record);
      }
    case Propose(s, c, o) =>
      SamePairs(l, l');
    case ReviewAction(i, decision, reviewer, reason) =>
      if ReviewRefusal(l, i, decision, reviewer, reason).None? {
        if decision.Accept? {
          AcceptPreserves(l, i, reviewer, reason);
        } else {
          forall x | x in l.proposals && x.status.Accepted? ensures x in l'.proposals {
            var k :| 0 <= k < |l.proposals| && l.proposals[k] == x;
            assert l'.proposals[k] == x;
          }
          SamePairs(l, l');
        }
      }
  }

  lemma SamePairs(l: Ledger, l': Ledger)
    requires Inv(l) && l'.lineage == l.lineage && l'.roots == l.roots
    requires forall p: Proposal | p.status.Accepted? :: p in l'.proposals <==> p in l.proposals
    ensures Inv(l')
  {
    forall a, b | a in l'.lineage && b in l'.lineage && l'.lineage[a] == l'.lineage[b]
      ensures Connected(l'.proposals, a, b)
    {
      ConnectedMonotone(l.proposals, l'.proposals, a, b);
    }
  }

  ghost predicate WriteOnce(before: Ledger, after: Ledger) {
    forall r | r in before.lineage :: r in after.lineage && after.lineage[r] == before.lineage[r]
  }

  lemma {:induction false} RunPreserves(l: Ledger, actions: seq<Action>)
    requires Inv(l)
    ensures Inv(RunAll(l, actions)) && WriteOnce(l, RunAll(l, actions))
    decreases |actions|
  {
    if actions != [] {
      StepPreserves(l, actions[0]);
      RunPreserves(Step(l, actions[0]), actions[1..]);
    }
  }

  // ---------------------------------------------------------------------------------------
  // Main results
  // ---------------------------------------------------------------------------------------

  lemma {:induction false} ChainKeepsRoot(l: Ledger, chain: seq<RecordId>)
    requires Inv(l) && IsChain(l.proposals, chain) && chain[0] in l.lineage
    ensures chain[|chain| - 1] in l.lineage && l.lineage[chain[|chain| - 1]] == l.lineage[chain[0]]
  {
    if |chain| > 1 {
      var front := chain[..|chain| - 1];
      assert IsChain(l.proposals, front);
      ChainKeepsRoot(l, front);
      assert Adjacent(l.proposals, chain[|chain| - 2], chain[|chain| - 1]);
    }
  }

  /**
   * In every reachable ledger two mapped records share a root if and only if a chain of
   * accepted record pairs connects them.
   */
  lemma RootsAreExactlyConnectivity(actions: seq<Action>, a: RecordId, b: RecordId)
    requires a in RunAll(EMPTY, actions).lineage && b in RunAll(EMPTY, actions).lineage
    ensures var l := RunAll(EMPTY, actions);
            l.lineage[a] == l.lineage[b] <==> Connected(l.proposals, a, b)
  {
    RunPreserves(EMPTY, actions);
    var l := RunAll(EMPTY, actions);
    if Connected(l.proposals, a, b) {
      var chain :| IsChain(l.proposals, chain) && chain[0] == a && chain[|chain| - 1] == b;
      ChainKeepsRoot(l, chain);
    }
  }

  /** Whatever happens later, the root recorded for a piece of evidence stays its record's root. */
  lemma RootNeverChanges(earlier: seq<Action>, later: seq<Action>, r: RecordId)
    requires r in RunAll(EMPTY, earlier).lineage
    ensures r in RunAll(EMPTY, earlier + later).lineage
    ensures RunAll(EMPTY, earlier + later).lineage[r] == RunAll(EMPTY, earlier).lineage[r]
  {
    RunPreserves(EMPTY, earlier);
    RunPreserves(RunAll(EMPTY, earlier), later);
    RunConcat(EMPTY, earlier, later);
  }

  lemma {:induction false} RunConcat(l: Ledger, earlier: seq<Action>, later: seq<Action>)
    ensures RunAll(l, earlier + later) == RunAll(RunAll(l, earlier), later)
    decreases |earlier|
  {
    if earlier == [] {
      assert earlier + later == later;
    } else {
      assert (earlier + later)[1..] == earlier[1..] + later;
      RunConcat(Step(l, earlier[0]), earlier[1..], later);
    }
  }

  /**
   * A human acceptance of a pending pair between existing records is refused exactly when both
   * records already have roots and no chain of accepted pairs connects them.
   */
  lemma RefusedExactlyWhenClustersAreSeparate(actions: seq<Action>, i: nat, reviewer: string, reason: Option<string>)
    requires var l := RunAll(EMPTY, actions);
             && !IsModel(reviewer) && i < |l.proposals| && l.proposals[i].status.Pending? && l.proposals[i].candidate.Some?
             && Members(l.proposals[i]) <= l.records.Keys
    ensures var l := RunAll(EMPTY, actions);
            var p := l.proposals[i];
            ReviewRefusal(l, i, Accept, reviewer, reason).Some? <==>
              && p.subject in l.lineage && p.candidate.value in l.lineage
              && !Connected(l.proposals, p.subject, p.candidate.value)
  {
    var l := RunAll(EMPTY, actions);
    var p := l.proposals[i];
    if p.subject in l.lineage && p.candidate.value in l.lineage {
      RootsAreExactlyConnectivity(actions, p.subject, p.candidate.value);
    }
  }

  // ---------------------------------------------------------------------------------------
  // What a review and a link change
  // ---------------------------------------------------------------------------------------

  /**
   * A review is accepted exactly if a human gives it on a pending proposal, a rejection with a reason,
   * and an acceptance only if its records exist and no two roots would merge.
   */
  lemma ReviewedExactly(l: Ledger, i: nat, decision: Decision, reviewer: string, reason: Option<string>)
    ensures ReviewRefusal(l, i, decision, reviewer, reason).None? <==>
              && !IsModel(reviewer) && i < |l.proposals| && l.proposals[i].status == Pending
              && (decision == Reject ==> reason.Some? && reason.value != "")
              && (decision == Accept ==>
                    var p := l.proposals[i];
                    && p.subject in l.records && (p.candidate.Some? ==> p.candidate.value in l.records)
                    && !(p.candidate.Some? && p.subject in l.lineage && p.candidate.value in l.lineage
                         && l.lineage[p.subject] != l.lineage[p.candidate.value]))
  {
  }

  /** A rejection is recorded on the proposal and in the log, with its reviewer, and changes no root or mapping. */
  lemma RejectionRecorded(l: Ledger, i: nat, reviewer: string)
    requires i < |l.proposals|
    ensures var after := Reviewed(l, i, Reject, reviewer);
            && after.proposals == l.proposals[i := l.proposals[i].(status := Rejected)]
            && after.reviews == l.reviews + [Review(i, Reject, reviewer)]
            && after.records == l.records && after.lineage == l.lineage && after.roots == l.roots
  {
  }

  /** The time is the earlier of two. */
  ghost predicate IsEarlier(time: int, a: int, b: int) {
    (time == a || time == b) && time <= a && time <= b
  }

  /**
   * An acceptance is recorded on the proposal and in the log.  Its records that had no root get
   * that of the other one, or, if neither had one, a new root: from the proposed origin source, else from the
   * candidate's source, else from the subject's, and seen as early as either record.
   */
  lemma AcceptanceRecorded(l: Ledger, i: nat, reviewer: string, reason: Option<string>)
    requires ReviewRefusal(l, i, Accept, reviewer, reason).None?
    ensures var p, after := l.proposals[i], Reviewed(l, i, Accept, reviewer);
            var subject, other := l.records[p.subject], l.records[if p.candidate.Some? then p.candidate.value else p.subject];
            && after.proposals == l.proposals[i := p.(status := Accepted)]
            && after.reviews == l.reviews + [Review(i, Accept, reviewer)] && after.records == l.records
            && (forall r :: r in after.lineage <==> r in l.lineage || r == p.subject || p.candidate == Some(r))
            && (forall r | r in l.lineage :: after.lineage[r] == l.lineage[r])
            && (p.candidate.Some? ==> after.lineage[p.candidate.value] == after.lineage[p.subject])
            && if p.subject in l.lineage || (p.candidate.Some? && p.candidate.value in l.lineage) then after.roots == l.roots
               else
                 && |after.roots| == |l.roots| + 1 && l.roots < after.roots && after.lineage[p.subject] == |l.roots|
                 && var root := after.roots[|l.roots|];
                 && root.originSource == (if p.originSource.Some? then p.originSource.value else other.source)
                 && IsEarlier(root.firstSeen, subject.seenAt, other.seenAt)
  {
  }

  /** Linking an unmapped record gives it a new root from its own source and time; a mapped one keeps everything as it is. */
  lemma LinkedRecordHasRoot(l: Ledger, record: RecordId)
    requires record in l.records
    ensures var after := Linked(l, record);
            if record in l.lineage then after == l
            else
              && after == l.(lineage := l.lineage[record := |l.roots|], roots := after.roots)
              && |after.roots| == |l.roots| + 1 && l.roots < after.roots
              && after.roots[|l.roots|].originSource == l.records[record].source && after.roots[|l.roots|].firstSeen == l.records[record].seenAt
  {
  }
}
