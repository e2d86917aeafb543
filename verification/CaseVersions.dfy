/**
 * The version chain of reconciliation cases (reconciliation_case.py:274-299, 408-420;
 * reconciliation_dispatch.py:198-229).  Hashes are taken to be injective, so a content hash
 * is the payload that it digests.
 */
module CaseVersions {
  import opened Common

  type CaseId = nat
  type VersionId = nat

  /** A case result's payload and evidence, as far as versions depend on them. */
  datatype Payload = Payload(document: nat)
  datatype EvidenceHash = EvidenceHash(document: nat)
  datatype ContentHash = ContentHash(payload: Payload)

  datatype Result = Result(payload: Payload, evidence: EvidenceHash)

  datatype Version = Version(caseId: CaseId, revision: nat, evidence: EvidenceHash, content: ContentHash, payload: Payload,
                             supersedes: Option<VersionId>)

  // ---------------------------------------------------------------------------------------
  // What the operations do
  // ---------------------------------------------------------------------------------------

  /** The case's version with the greatest revision. */
  function Latest(versions: seq<Version>, c: CaseId): (id: Option<VersionId>)
    ensures id.Some? ==> id.value < |versions| && versions[id.value].caseId == c
    ensures id.None? ==> forall i | 0 <= i < |versions| :: versions[i].caseId != c
  {
    if versions == [] then None
    else
      var n := |versions| - 1;
      var earlier := Latest(versions[..n], c);
      if versions[n].caseId == c && (earlier.None? || versions[earlier.value].revision < versions[n].revision) then Some(n) else earlier
  }

  /** The case's first version with the content. */
  function Find(versions: seq<Version>, c: CaseId, content: ContentHash): (id: Option<VersionId>)
    ensures id.Some? ==> id.value < |versions| && versions[id.value].caseId == c && versions[id.value].content == content
    ensures id.None? ==> forall i | 0 <= i < |versions| :: versions[i].caseId != c || versions[i].content != content
  {
    if versions == [] then None
    else
      var n := |versions| - 1;
      var earlier := Find(versions[..n], c, content);
      if earlier.Some? then earlier else if versions[n].caseId == c && versions[n].content == content then Some(n) else None
  }

  function NewVersion(versions: seq<Version>, c: CaseId, r: Result): Version {
    var prior := Latest(versions, c);
    Version(c, if prior.None? then 1 else versions[prior.value].revision + 1, r.evidence, ContentHash(r.payload), r.payload, prior)
  }

  datatype Committed = Committed(versions: seq<Version>, id: VersionId)

  function VersionFor(versions: seq<Version>, c: CaseId, r: Result): (committed: Committed)
    ensures versions <= committed.versions && committed.id < |committed.versions|
  {
    var existing := Find(versions, c, ContentHash(r.payload));
    if existing.Some? then Committed(versions, existing.value) else Committed(versions + [NewVersion(versions, c, r)], |versions|)
  }

  predicate ReadsBack(versions: seq<Version>, id: VersionId) {
    id < |versions| && ContentHash(versions[id].payload) == versions[id].content
  }

  // ---------------------------------------------------------------------------------------
  // The table as the code runs it
  // ---------------------------------------------------------------------------------------

  class VersionTable {
    var versions: seq<Version>

    method LatestVersion(c: CaseId) returns (id: Option<VersionId>)
      ensures id == Latest(versions, c)
    {
      id := None;
      for i := 0 to |versions|
        invariant id == Latest(versions[..i], c)
      {
        assert versions[..i + 1][..i] == versions[..i];
        if versions[i].caseId == c && (id.None? || versions[id.value].revision < versions[i].revision) {
          id := Some(i);
        }
      }
      assert versions[..|versions|] == versions;
    }

    method FindVersion(c: CaseId, content: ContentHash) returns (id: Option<VersionId>)
      ensures id == Find(versions, c, content)
    {
      id := None;
      for i := 0 to |versions|
        invariant id == Find(versions[..i], c, content)
      {
        assert versions[..i + 1][..i] == versions[..i];
        if id.None? && versions[i].caseId == c && versions[i].content == content {
          id := Some(i);
        }
      }
      assert versions[..|versions|] == versions;
    }

    method CommitCaseVersion(c: CaseId, r: Result) returns (id: VersionId)
      modifies this
      ensures versions == old(versions) + [NewVersion(old(versions), c, r)] && id == |old(versions)|
    {
      var prior := LatestVersion(c);
      var revision := 1;
      if prior.Some? {
        revision := versions[prior.value].revision + 1;
      }
      versions := versions + [Version(c, revision, r.evidence, ContentHash(r.payload), r.payload, prior)];
      id := |versions| - 1;
    }

    method CommitOnce(c: CaseId, r: Result) returns (id: VersionId)
      modifies this
      ensures Committed(versions, id) == VersionFor(old(versions), c, r)
    {
      var existing := FindVersion(c, ContentHash(r.payload));
      if existing.Some? {
        return existing.value;
      }
      id := CommitCaseVersion(c, r);
    }

    method ReadBack(id: VersionId) returns (same: bool)
      ensures same == ReadsBack(versions, id)
    {
      if id >= |versions| {
        return false;
      }
      var recomputed := ContentHash(versions[id].payload);
      return recomputed == versions[id].content;
    }
  }

  // ---------------------------------------------------------------------------------------
  // Every run
  // ---------------------------------------------------------------------------------------

  datatype Reconcile = Reconcile(caseId: CaseId, result: Result)

  /** The table after the first `n` reconciliations of any cases, in any order. */
  function Run(steps: seq<Reconcile>, n: nat): seq<Version>
    requires n <= |steps|
  {
    if n == 0 then [] else VersionFor(Run(steps, n - 1), steps[n - 1].caseId, steps[n - 1].result).versions
  }

  function CountOf(versions: seq<Version>, c: CaseId): nat {
    if versions == [] then 0
    else CountOf(versions[..|versions| - 1], c) + if versions[|versions| - 1].caseId == c then 1 else 0
  }

  /** Each version continues its case's chain: it supersedes the last one and counts on from it. */
  ghost predicate ContinuesChain(versions: seq<Version>, i: nat)
    requires i < |versions|
  {
    var v, earlier := versions[i], versions[..i];
    && v.revision == CountOf(earlier, v.caseId) + 1
    && v.supersedes == Latest(earlier, v.caseId)
    && (v.supersedes.Some? ==> earlier[v.supersedes.value].revision == v.revision - 1)
    && Find(earlier, v.caseId, v.content).None?
    && ContentHash(v.payload) == v.content
  }

  ghost predicate Chained(versions: seq<Version>) {
    forall i | 0 <= i < |versions| :: ContinuesChain(versions, i)
  }

  /** The last version of a case carries the number of its versions. */
  lemma {:induction false} LatestIsCount(versions: seq<Version>, c: CaseId)
    requires Chained(versions)
    ensures var latest := Latest(versions, c);
            if latest.None? then CountOf(versions, c) == 0 else versions[latest.value].revision == CountOf(versions, c)
  {
    if versions != [] {
      var front := versions[..|versions| - 1];
      ChainedPrefix(versions);
      LatestIsCount(front, c);
      assert ContinuesChain(versions, |versions| - 1);
    }
  }

  lemma ChainedPrefix(versions: seq<Version>)
    requires versions != [] && Chained(versions)
    ensures Chained(versions[..|versions| - 1])
  {
    hide CountOf, Latest, Find;
    var front := versions[..|versions| - 1];
    forall i | 0 <= i < |front| ensures ContinuesChain(front, i) {
      assert front[..i] == versions[..i] && front[i] == versions[i];
      assert ContinuesChain(versions, i);
    }
  }

  lemma VersionForKeepsChain(versions: seq<Version>, c: CaseId, r: Result)
    requires Chained(versions)
    ensures Chained(VersionFor(versions, c, r).versions)
  {
    hide CountOf, Latest, Find;
    var after := VersionFor(versions, c, r).versions;
    LatestIsCount(versions, c);
    forall i | 0 <= i < |after| ensures ContinuesChain(after, i) {
      if i < |versions| {
        assert after[..i] == versions[..i] && after[i] == versions[i];
        assert ContinuesChain(versions, i);
      } else {
        assert after[..i] == versions;
      }
    }
  }

  /**
   * In every run each case's versions are numbered 1, 2, 3, ..., each supersedes the one before
   * it, no content is committed twice, and every version reads back.
   */
  lemma {:induction false} RunIsChained(steps: seq<Reconcile>, n: nat)
    requires n <= |steps|
    ensures Chained(Run(steps, n))
    ensures forall id | 0 <= id < |Run(steps, n)| :: ReadsBack(Run(steps, n), id)
  {
    hide VersionFor, CountOf, Latest, Find;
    if n > 0 {
      RunIsChained(steps, n - 1);
      VersionForKeepsChain(Run(steps, n - 1), steps[n - 1].caseId, steps[n - 1].result);
    }
    forall id | 0 <= id < |Run(steps, n)| ensures ReadsBack(Run(steps, n), id) {
      assert ContinuesChain(Run(steps, n), id);
    }
  }

  /** Reconciling a case to a result it already has commits nothing, and returns that version. */
  lemma ReplayAppendsNothing(versions: seq<Version>, c: CaseId, r: Result, later: Result)
    requires later.payload == r.payload
    ensures var first := VersionFor(versions, c, r);
            VersionFor(first.versions, c, later) == first
  {
    var first := VersionFor(versions, c, r);
    if Find(versions, c, ContentHash(r.payload)).None? {
      assert first.versions[..|versions|] == versions;
    }
  }

  /** Two places of a chained table never hold one case's content twice. */
  lemma ContentIsUnique(versions: seq<Version>, i: nat, j: nat)
    requires Chained(versions) && i < j < |versions| && versions[i].caseId == versions[j].caseId
    ensures versions[i].content != versions[j].content
  {
    hide CountOf, Latest;
    assert ContinuesChain(versions, j);
    assert versions[..j][i] == versions[i];
  }

  /**
   * The version that a result maps to is the one the publication stage will publish, exactly
   * if the result is new for the case or is the case's latest: a case that returns to an
   * earlier result keeps publishing the superseded-by version.
   */
  lemma ReturnsLatestExactly(versions: seq<Version>, c: CaseId, r: Result)
    requires Chained(versions)
    ensures var committed := VersionFor(versions, c, r);
            var latest := Latest(versions, c);
            Latest(committed.versions, c) == Some(committed.id) <==>
              Find(versions, c, ContentHash(r.payload)).None?
              || (latest.Some? && versions[latest.value].content == ContentHash(r.payload))
  {
    hide CountOf;
    var committed, latest := VersionFor(versions, c, r), Latest(versions, c);
    var existing := Find(versions, c, ContentHash(r.payload));
    if existing.None? {
      assert committed.versions[..|versions|] == versions;
    } else if versions[latest.value].content == ContentHash(r.payload) && existing.value != latest.value {
      var i, j := if existing.value < latest.value then existing.value else latest.value, if existing.value < latest.value then latest.value else existing.value;
      ContentIsUnique(versions, i, j);
    }
  }

  /**
   * A case that goes from result `a` to a new result `b` and back: reconciling finds the
   * version of `a`, while the latest version, which the publication stage takes, is that of `b`.
   */
  lemma ReturnToEarlierResult(versions: seq<Version>, c: CaseId, a: Result, b: Result)
    requires Chained(versions) && Latest(versions, c).Some? && versions[Latest(versions, c).value].content == ContentHash(a.payload)
    requires Find(versions, c, ContentHash(b.payload)).None?
    ensures var after := VersionFor(versions, c, b).versions;
            VersionFor(after, c, a) == Committed(after, Latest(versions, c).value) && Latest(after, c) == Some(|versions|)
  {
    hide Find, Latest, CountOf;
    var after := VersionFor(versions, c, b).versions;
    VersionForKeepsChain(versions, c, b);
    ReturnsLatestExactly(versions, c, b);
    var i, j := Find(after, c, ContentHash(a.payload)), Latest(versions, c).value;
    assert after[j] == versions[j];
    if i.Some? && i.value != j {
      ContentIsUnique(after, if i.value < j then i.value else j, if i.value < j then j else i.value);
    }
  }

  /**
   * Reconciling returns a version of the case with the result's payload.  If there was none, it is
   * a new one, with the result's evidence; otherwise nothing is added.
   */
  lemma CommittedExactly(versions: seq<Version>, c: CaseId, r: Result)
    ensures var committed := VersionFor(versions, c, r);
            var v := committed.versions[committed.id];
            && v.caseId == c && v.content == ContentHash(r.payload)
            && if exists i | 0 <= i < |versions| :: versions[i].caseId == c && versions[i].content == ContentHash(r.payload)
               then committed.versions == versions
               else |committed.versions| == |versions| + 1 && committed.id == |versions| && v.payload == r.payload && v.evidence == r.evidence
  {
    hide Latest;
  }
}
