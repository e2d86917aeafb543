/** A generation pass is keyed, points backwards in time, is bounded per subject and idempotent. */
module ProposalBatchLaws {
  import opened Common
  import opened ProposalBatch

  predicate Distinct<T(==)>(items: seq<T>) {
    forall i, j | 0 <= i < j < |items| :: items[i] != items[j]
  }

  lemma DistinctConcat<T>(a: seq<T>, b: seq<T>)
    requires Distinct(a) && Distinct(b) && forall i, j | 0 <= i < |a| && 0 <= j < |b| :: a[i] != b[j]
    ensures Distinct(a + b)
  {
  }

  /** The batch's records: distinct ids, in time order. */
  ghost predicate Ordered(records: seq<Record>) {
    forall i, j | 0 <= i < j < |records| :: records[i].id != records[j].id && records[i].seenAt <= records[j].seenAt
  }

  ghost predicate DistinctCredits(inputs: Inputs) {
    forall r :: Distinct(inputs.credits(r))
  }

  ghost predicate Names(records: seq<Record>, id: RecordId) {
    exists i | 0 <= i < |records| :: records[i].id == id
  }

  lemma {:induction false} EligibleOrdered(records: seq<Record>)
    requires Ordered(records)
    ensures Ordered(Eligible(records))
    ensures forall r | r in Eligible(records) :: r in records
  {
    if records != [] {
      var front, last := records[..|records| - 1], records[|records| - 1];
      EligibleOrdered(front);
      forall r | r in Eligible(front) ensures r.id != last.id && r.seenAt <= last.seenAt {
        var i :| 0 <= i < |front| && front[i] == r;
        assert records[i] == r;
      }
    }
  }

  // ---------------------------------------------------------------------------------------
  // Keys are pairwise distinct
  // ---------------------------------------------------------------------------------------

  ghost predicate SubjectsNamed(keys: seq<Key>, records: seq<Record>) {
    forall k | 0 <= k < |keys| :: Names(records, keys[k].subject)
  }

  /** Keys of earlier records differ from the keys of a new record. */
  lemma AppendSubject(records: seq<Record>, before: seq<Key>, own: seq<Key>)
    requires Ordered(records) && records != []
    requires SubjectsNamed(before, records[..|records| - 1]) && Distinct(before)
    requires Distinct(own) && forall k | 0 <= k < |own| :: own[k].subject == records[|records| - 1].id
    ensures SubjectsNamed(before + own, records) && Distinct(before + own)
    ensures forall k | 0 <= k < |before| :: before[k].subject != records[|records| - 1].id
  {
    var n := |records| - 1;
    forall k | 0 <= k < |before| ensures before[k].subject != records[n].id && Names(records, before[k].subject) {
      var j :| 0 <= j < n && records[..n][j].id == before[k].subject;
      assert records[j].id == before[k].subject;
    }
    assert Names(records, records[n].id);
    DistinctConcat(before, own);
  }

  lemma OwnOriginKeysDistinct(r: Record, inputs: Inputs)
    requires DistinctCredits(inputs)
    ensures var own := RegistryKeys(r, inputs) + CreditKeys(r, inputs, inputs.credits(r.id));
            Distinct(own) && forall k | 0 <= k < |own| :: own[k].subject == r.id && own[k].candidate.None?
  {
    assert Distinct(inputs.credits(r.id));
    DistinctConcat(RegistryKeys(r, inputs), CreditKeys(r, inputs, inputs.credits(r.id)));
  }

  lemma {:induction false} OriginKeysDistinct(records: seq<Record>, inputs: Inputs)
    requires Ordered(records) && DistinctCredits(inputs)
    ensures Distinct(OriginKeys(records, inputs)) && SubjectsNamed(OriginKeys(records, inputs), records)
    ensures forall k | 0 <= k < |OriginKeys(records, inputs)| :: OriginKeys(records, inputs)[k].candidate.None?
  {
    if records != [] {
      var front, r := records[..|records| - 1], records[|records| - 1];
      OriginKeysDistinct(front, inputs);
      OwnOriginKeysDistinct(r, inputs);
      var before, own := OriginKeys(front, inputs), RegistryKeys(r, inputs) + CreditKeys(r, inputs, inputs.credits(r.id));
      AppendSubject(records, before, own);
      assert OriginKeys(records, inputs) == before + own;
    }
  }

  ghost predicate DistinctRecords(candidates: seq<Candidate>) {
    forall i, j | 0 <= i < j < |candidates| :: candidates[i].record != candidates[j].record
  }

  ghost predicate RecordsNamed(candidates: seq<Candidate>, records: seq<Record>) {
    forall k | 0 <= k < |candidates| :: Names(records, candidates[k].record)
  }

  lemma {:induction false} CandidateLaws(subject: Record, earlier: seq<Record>, inputs: Inputs)
    requires Ordered(earlier)
    ensures DistinctRecords(Candidates(subject, earlier, inputs)) && RecordsNamed(Candidates(subject, earlier, inputs), earlier)
  {
    if earlier != [] {
      var n := |earlier| - 1;
      var front := earlier[..n];
      CandidateLaws(subject, front, inputs);
      var cs := Candidates(subject, front, inputs);
      forall k | 0 <= k < |cs| ensures Names(earlier, cs[k].record) && cs[k].record != earlier[n].id {
        var j :| 0 <= j < n && front[j].id == cs[k].record;
        assert earlier[j].id == cs[k].record;
      }
      assert Names(earlier, earlier[n].id);
    }
  }

  ghost predicate Falling(candidates: seq<Candidate>) {
    forall i, j | 0 <= i < j < |candidates| :: candidates[i].score.cosine >= candidates[j].score.cosine
  }

  /** The element of falling list `a + b` that belongs between `a` and `b` keeps it falling. */
  lemma InsertBetween(a: seq<Candidate>, c: Candidate, b: seq<Candidate>)
    requires Falling(a) && Falling(b)
    requires forall i | 0 <= i < |a| :: a[i].score.cosine >= c.score.cosine
    requires forall i | 0 <= i < |b| :: c.score.cosine >= b[i].score.cosine
    ensures Falling(a + [c] + b)
  {
  }

  /** `Insert` splits its list at the first element that the new one beats. */
  lemma {:induction false} InsertSplits(sorted: seq<Candidate>, c: Candidate) returns (a: seq<Candidate>, b: seq<Candidate>)
    ensures sorted == a + b && Insert(sorted, c) == a + [c] + b
    ensures a != [] ==> a[|a| - 1].score.cosine >= c.score.cosine
    ensures forall i | 0 <= i < |b| :: b[i].score.cosine < c.score.cosine
  {
    if sorted == [] || sorted[|sorted| - 1].score.cosine >= c.score.cosine {
      a, b := sorted, [];
    } else {
      a, b := InsertSplits(sorted[..|sorted| - 1], c);
      b := b + [sorted[|sorted| - 1]];
    }
  }

  lemma InsertFalling(sorted: seq<Candidate>, c: Candidate) returns (a: seq<Candidate>, b: seq<Candidate>)
    requires Falling(sorted)
    ensures sorted == a + b && Insert(sorted, c) == a + [c] + b
    ensures Falling(Insert(sorted, c))
  {
    a, b := InsertSplits(sorted, c);
    FallingHalves(a, b);
    forall i | 0 <= i < |a| ensures a[i].score.cosine >= c.score.cosine {
      assert i < |a| - 1 ==> a[i].score.cosine >= a[|a| - 1].score.cosine;
    }
    InsertBetween(a, c, b);
  }

  lemma FallingHalves(a: seq<Candidate>, b: seq<Candidate>)
    requires Falling(a + b)
    ensures Falling(a) && Falling(b)
  {
    forall i, j | 0 <= i < j < |a| ensures a[i].score.cosine >= a[j].score.cosine {
      assert (a + b)[i] == a[i] && (a + b)[j] == a[j];
    }
    forall i, j | 0 <= i < j < |b| ensures b[i].score.cosine >= b[j].score.cosine {
      assert (a + b)[|a| + i] == b[i] && (a + b)[|a| + j] == b[j];
    }
  }

  /** Sorting permutes the candidates into falling cosine. */
  lemma {:induction false} SortLaws(candidates: seq<Candidate>)
    ensures Falling(SortByCosine(candidates))
    ensures multiset(SortByCosine(candidates)) == multiset(candidates)
  {
    if candidates != [] {
      var front, last := candidates[..|candidates| - 1], candidates[|candidates| - 1];
      SortLaws(front);
      var a, b := InsertFalling(SortByCosine(front), last);
      assert candidates == front + [last];
    }
  }

  lemma InsertDistinct(a: seq<Candidate>, c: Candidate, b: seq<Candidate>, records: seq<Record>)
    requires DistinctRecords(a + b) && RecordsNamed(a + b, records) && Names(records, c.record)
    requires forall i | 0 <= i < |a + b| :: (a + b)[i].record != c.record
    ensures DistinctRecords(a + [c] + b) && RecordsNamed(a + [c] + b, records)
  {
    assert forall i | 0 <= i < |a| :: a[i] == (a + b)[i];
    assert forall i | 0 <= i < |b| :: b[i] == (a + b)[|a| + i];
    DistinctHalves(a, b);
    forall i, j | 0 <= i < j < |a + [c] + b| ensures (a + [c] + b)[i].record != (a + [c] + b)[j].record {
      assert i > |a| ==> (a + [c] + b)[i] == b[i - |a| - 1];
      assert j > |a| ==> (a + [c] + b)[j] == b[j - |a| - 1];
    }
  }

  lemma DistinctHalves(a: seq<Candidate>, b: seq<Candidate>)
    requires DistinctRecords(a + b)
    ensures DistinctRecords(a) && DistinctRecords(b)
    ensures forall i, j | 0 <= i < |a| && 0 <= j < |b| :: a[i].record != b[j].record
  {
    forall i, j | 0 <= i < j < |a| ensures a[i].record != a[j].record {
      assert (a + b)[i] == a[i] && (a + b)[j] == a[j];
    }
    forall i, j | 0 <= i < j < |b| ensures b[i].record != b[j].record {
      assert (a + b)[|a| + i] == b[i] && (a + b)[|a| + j] == b[j];
    }
    forall i, j | 0 <= i < |a| && 0 <= j < |b| ensures a[i].record != b[j].record {
      assert (a + b)[i] == a[i] && (a + b)[|a| + j] == b[j];
    }
  }

  lemma {:induction false} SortKeepsRecords(candidates: seq<Candidate>, records: seq<Record>)
    requires DistinctRecords(candidates) && RecordsNamed(candidates, records)
    ensures DistinctRecords(SortByCosine(candidates)) && RecordsNamed(SortByCosine(candidates), records)
  {
    if candidates != [] {
      var front, last := candidates[..|candidates| - 1], candidates[|candidates| - 1];
      SortKeepsRecords(front, records);
      SortLaws(front);
      var sorted := SortByCosine(front);
      FreshAfterSort(sorted, front, last.record);
      var a, b := InsertFalling(sorted, last);
      InsertDistinct(a, last, b, records);
    }
  }

  lemma FreshAfterSort(sorted: seq<Candidate>, candidates: seq<Candidate>, added: RecordId)
    requires multiset(sorted) == multiset(candidates)
    requires forall i | 0 <= i < |candidates| :: candidates[i].record != added
    ensures forall i | 0 <= i < |sorted| :: sorted[i].record != added
  {
    forall i | 0 <= i < |sorted| ensures sorted[i].record != added {
      assert sorted[i] in multiset(sorted);
      var j :| 0 <= j < |candidates| && candidates[j] == sorted[i];
    }
  }

  ghost predicate KeepsBest(candidates: seq<Candidate>, kept: seq<Candidate>, dropped: seq<Candidate>) {
    && multiset(candidates) == multiset(kept + dropped)
    && Falling(kept + dropped)
    && |kept| <= 3 && (dropped != [] ==> |kept| == 3)
  }

  /** The kept candidates are a best three: the rest, put after them, continues the fall. */
  lemma BestKeepsTheBest(candidates: seq<Candidate>) returns (dropped: seq<Candidate>)
    ensures KeepsBest(candidates, Best(candidates), dropped)
  {
    SortLaws(candidates);
    var sorted := SortByCosine(candidates);
    dropped := if |sorted| <= 3 then [] else sorted[3..];
    assert sorted == Best(candidates) + dropped;
  }

  lemma OwnPairKeysDistinct(r: Record, earlier: seq<Record>, inputs: Inputs)
    requires Ordered(earlier)
    ensures var own := PairsFor(r, earlier, inputs);
            && |own| <= 3 && Distinct(own)
            && forall k | 0 <= k < |own| ::
                 own[k].subject == r.id && own[k].candidate.Some? && Names(earlier, own[k].candidate.value)
  {
    CandidateLaws(r, earlier, inputs);
    SortKeepsRecords(Candidates(r, earlier, inputs), earlier);
  }

  /** The key links a subject to a record that comes before it in time order. */
  ghost predicate PointsBack(records: seq<Record>, k: Key) {
    exists i, j | 0 <= i < j < |records| ::
      k.subject == records[j].id && k.candidate == Some(records[i].id) && records[i].seenAt <= records[j].seenAt
  }

  ghost predicate AllPointBack(keys: seq<Key>, records: seq<Record>) {
    forall k | 0 <= k < |keys| :: keys[k].candidate.Some? && PointsBack(records, keys[k])
  }

  /** Pair keys are distinct and every one points backwards in time, so they form no cycle. */
  lemma {:induction false} PairKeysLaws(records: seq<Record>, inputs: Inputs)
    requires Ordered(records)
    ensures Distinct(PairKeys(records, inputs)) && SubjectsNamed(PairKeys(records, inputs), records)
    ensures AllPointBack(PairKeys(records, inputs), records)
  {
    if records != [] {
      var n := |records| - 1;
      var front, r := records[..n], records[n];
      PairKeysLaws(front, inputs);
      OwnPairKeysDistinct(r, front, inputs);
      var before, own := PairKeys(front, inputs), PairsFor(r, front, inputs);
      AppendSubject(records, before, own);
      forall k | 0 <= k < |before| ensures PointsBack(records, before[k]) {
        assert PointsBack(front, before[k]);
        var i, j :| 0 <= i < j < n && before[k].subject == front[j].id && before[k].candidate == Some(front[i].id);
        assert records[i] == front[i] && records[j] == front[j];
      }
      forall k | 0 <= k < |own| ensures PointsBack(records, own[k]) {
        var i :| 0 <= i < n && front[i].id == own[k].candidate.value;
        assert records[i] == front[i] && records[i].id == own[k].candidate.value && records[n].id == r.id;
      }
      assert PairKeys(records, inputs) == before + own;
    }
  }

  /** No key occurs twice in a batch, so the pass never violates the table's unique key. */
  lemma BatchKeysDistinct(records: seq<Record>, inputs: Inputs)
    requires Ordered(records) && DistinctCredits(inputs)
    ensures Distinct(BatchKeys(records, inputs))
  {
    EligibleOrdered(records);
    var eligible := Eligible(records);
    OriginKeysDistinct(eligible, inputs);
    PairKeysLaws(eligible, inputs);
    DistinctConcat(OriginKeys(eligible, inputs), PairKeys(eligible, inputs));
  }

  lemma {:induction false} MissingLaws(keys: seq<Key>, table: set<Key>)
    ensures forall k :: k in Missing(keys, table) <==> k in keys && k !in table
    ensures Distinct(keys) ==> Distinct(Missing(keys, table))
  {
    if keys != [] {
      var front, last := keys[..|keys| - 1], keys[|keys| - 1];
      MissingLaws(front, table);
      assert keys == front + [last];
      if Distinct(keys) {
        assert Distinct(front);
        forall i | 0 <= i < |Missing(front, table)| ensures Missing(front, table)[i] != last {
          assert Missing(front, table)[i] in front;
        }
      }
    }
  }

  /** The rows a pass commits are new and pairwise distinct: the unique key always holds. */
  lemma CommitRespectsUniqueKey(records: seq<Record>, inputs: Inputs, table: set<Key>)
    requires Ordered(records) && DistinctCredits(inputs)
    ensures var pending := Missing(BatchKeys(records, inputs), table);
            Distinct(pending) && forall k | k in pending :: k !in table
  {
    BatchKeysDistinct(records, inputs);
    MissingLaws(BatchKeys(records, inputs), table);
  }

  /** A second pass over the same records creates nothing. */
  lemma SecondPassCreatesNothing(records: seq<Record>, inputs: Inputs, table: set<Key>)
    ensures var pending := Missing(BatchKeys(records, inputs), table);
            Missing(BatchKeys(records, inputs), table + set k | k in pending) == []
  {
    MissingLaws(BatchKeys(records, inputs), table);
    NothingMissing(BatchKeys(records, inputs), table + set k | k in Missing(BatchKeys(records, inputs), table));
  }

  lemma {:induction false} NothingMissing(keys: seq<Key>, table: set<Key>)
    requires forall k | k in keys :: k in table
    ensures Missing(keys, table) == []
  {
    if keys != [] {
      NothingMissing(keys[..|keys| - 1], table);
    }
  }

  function PairsOf(keys: seq<Key>, subject: RecordId): nat {
    if keys == [] then 0
    else PairsOf(keys[..|keys| - 1], subject)
         + if keys[|keys| - 1].subject == subject && keys[|keys| - 1].candidate.Some? then 1 else 0
  }

  lemma {:induction false} PairsOfConcat(a: seq<Key>, b: seq<Key>, subject: RecordId)
    ensures PairsOf(a + b, subject) == PairsOf(a, subject) + PairsOf(b, subject)
    ensures PairsOf(b, subject) <= |b|
  {
    if b == [] {
      assert a + b == a;
    } else {
      assert (a + b)[..|a + b| - 1] == a + b[..|b| - 1];
      PairsOfConcat(a, b[..|b| - 1], subject);
    }
  }

  /** No record is the subject of more than three pair proposals in a batch. */
  lemma {:induction false} AtMostThreePairs(records: seq<Record>, inputs: Inputs, subject: RecordId)
    requires Ordered(records)
    ensures PairsOf(PairKeys(records, inputs), subject) <= 3
  {
    if records != [] {
      var front, r := records[..|records| - 1], records[|records| - 1];
      AtMostThreePairs(front, inputs, subject);
      PairKeysLaws(front, inputs);
      OwnPairKeysDistinct(r, front, inputs);
      var before, own := PairKeys(front, inputs), PairsFor(r, front, inputs);
      AppendSubject(records, before, own);
      PairsOfConcat(before, own, subject);
      if r.id == subject {
        NoPairs(before, subject);
      } else {
        NoPairs(own, subject);
      }
    }
  }

  lemma {:induction false} NoPairs(keys: seq<Key>, subject: RecordId)
    requires forall k | 0 <= k < |keys| :: keys[k].subject != subject
    ensures PairsOf(keys, subject) == 0
  {
    if keys != [] {
      NoPairs(keys[..|keys| - 1], subject);
    }
  }
}
