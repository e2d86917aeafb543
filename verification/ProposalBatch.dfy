/**
 * One pass of proposal generation (lineage.py:150-205 and 223-363).
 *
 * The session does not flush between additions (database.py:9), so the existence query of
 * `_add_proposal` sees only rows committed before the pass: nothing but the keys themselves
 * keeps a batch from violating the table's unique key.
 *
 * Credit lines, origin matching and scoring are parameters.
 */
module ProposalBatch {
  import opened Common

  type RecordId = nat
  type SourceId = nat

  datatype Record = Record(id: RecordId, source: SourceId, seenAt: int, tokenCount: nat, excluded: bool)

  datatype Score = Score(cosine: real, version: string)

  datatype Key = Key(subject: RecordId, candidate: Option<RecordId>, originSource: Option<SourceId>, originName: string, version: string)

  /** What one pass reads besides the records. */
  datatype Inputs = Inputs(syndicatesFrom: SourceId -> Option<SourceId>, nameOf: SourceId -> string,
                           credits: RecordId -> seq<string>, originOf: string -> Option<SourceId>,
                           nearDuplicate: (RecordId, RecordId) -> Option<Score>, windowSeconds: int)

  const REGISTRY := "registry-lineage-v1"
  const CREDIT := "credit-line-v1"
  const MINIMUM_TOKENS: nat := 20

  // ---------------------------------------------------------------------------------------
  // Specification: the keys a pass proposes
  // ---------------------------------------------------------------------------------------

  function RegistryKeys(r: Record, inputs: Inputs): seq<Key> {
    match inputs.syndicatesFrom(r.source)
    case None => []
    case Some(origin) => [Key(r.id, None, Some(origin), inputs.nameOf(origin), REGISTRY)]
  }

  function CreditKeys(r: Record, inputs: Inputs, names: seq<string>): seq<Key> {
    seq(|names|, i requires 0 <= i < |names| => Key(r.id, None, inputs.originOf(names[i]), names[i], CREDIT))
  }

  function OriginKeys(records: seq<Record>, inputs: Inputs): seq<Key> {
    if records == [] then []
    else
      var r := records[|records| - 1];
      OriginKeys(records[..|records| - 1], inputs) + RegistryKeys(r, inputs) + CreditKeys(r, inputs, inputs.credits(r.id))
  }

  datatype Candidate = Candidate(record: RecordId, score: Score)

  /** The earlier record is compared with the subject and passes every filter and the score. */
  predicate IsCandidate(subject: Record, earlier: Record, inputs: Inputs) {
    && earlier.source != subject.source
    && subject.seenAt - earlier.seenAt <= inputs.windowSeconds
    && MINIMUM_TOKENS <= subject.tokenCount && MINIMUM_TOKENS <= earlier.tokenCount
    && 7 * Max(subject.tokenCount, earlier.tokenCount) <= 10 * Min(subject.tokenCount, earlier.tokenCount)
    && inputs.nearDuplicate(subject.id, earlier.id).Some?
  }

  function Max(a: nat, b: nat): nat { if a < b then b else a }

  function Min(a: nat, b: nat): nat { if a < b then a else b }

  function Candidates(subject: Record, earlier: seq<Record>, inputs: Inputs): seq<Candidate> {
    if earlier == [] then []
    else
      var e := earlier[|earlier| - 1];
      Candidates(subject, earlier[..|earlier| - 1], inputs)
      + if IsCandidate(subject, e, inputs) then [Candidate(e.id, inputs.nearDuplicate(subject.id, e.id).value)] else []
  }

  /** Inserts into a list sorted by falling cosine, after its equals. */
  function Insert(sorted: seq<Candidate>, c: Candidate): seq<Candidate> {
    if sorted == [] || sorted[|sorted| - 1].score.cosine >= c.score.cosine then sorted + [c]
    else Insert(sorted[..|sorted| - 1], c) + [sorted[|sorted| - 1]]
  }

  /** `sorted(candidates, reverse=True, key=cosine)`, which keeps equals in order. */
  function SortByCosine(candidates: seq<Candidate>): seq<Candidate> {
    if candidates == [] then []
    else Insert(SortByCosine(candidates[..|candidates| - 1]), candidates[|candidates| - 1])
  }

  function Best(candidates: seq<Candidate>): seq<Candidate> {
    var sorted := SortByCosine(candidates);
    if |sorted| <= 3 then sorted else sorted[..3]
  }

  function KeysFor(subject: RecordId, chosen: seq<Candidate>): seq<Key> {
    seq(|chosen|, i requires 0 <= i < |chosen| => Key(subject, Some(chosen[i].record), None, "", chosen[i].score.version))
  }

  /** The pair keys of one subject against the records before it. */
  function PairsFor(subject: Record, earlier: seq<Record>, inputs: Inputs): seq<Key> {
    KeysFor(subject.id, Best(Candidates(subject, earlier, inputs)))
  }

  function PairKeys(records: seq<Record>, inputs: Inputs): seq<Key> {
    if records == [] then []
    else
      var n := |records| - 1;
      PairKeys(records[..n], inputs) + PairsFor(records[n], records[..n], inputs)
  }

  function Eligible(records: seq<Record>): seq<Record> {
    if records == [] then []
    else
      var r := records[|records| - 1];
      Eligible(records[..|records| - 1]) + if r.excluded then [] else [r]
  }

  function BatchKeys(records: seq<Record>, inputs: Inputs): seq<Key> {
    OriginKeys(Eligible(records), inputs) + PairKeys(Eligible(records), inputs)
  }

  /** The keys of a batch that are not in the table yet, in order. */
  function Missing(keys: seq<Key>, table: set<Key>): seq<Key> {
    if keys == [] then []
    else Missing(keys[..|keys| - 1], table) + if keys[|keys| - 1] in table then [] else [keys[|keys| - 1]]
  }

  lemma {:induction false} MissingConcat(a: seq<Key>, b: seq<Key>, table: set<Key>)
    ensures Missing(a + b, table) == Missing(a, table) + Missing(b, table)
  {
    if b == [] {
      assert a + b == a;
    } else {
      assert (a + b)[..|a + b| - 1] == a + b[..|b| - 1];
      MissingConcat(a, b[..|b| - 1], table);
    }
  }

  // ---------------------------------------------------------------------------------------
  // The pass
  // ---------------------------------------------------------------------------------------

  /** `_add_proposal` for a list of keys: queries the committed table, appends to the session. */
  method AddAll(keys: seq<Key>, table: set<Key>, pending0: seq<Key>, created0: nat) returns (pending: seq<Key>, created: nat)
    requires created0 == |pending0|
    ensures pending == pending0 + Missing(keys, table) && created == |pending|
  {
    pending, created := pending0, created0;
    for i := 0 to |keys|
      invariant pending == pending0 + Missing(keys[..i], table) && created == |pending|
    {
      assert keys[..i + 1][..i] == keys[..i];
      if keys[i] !in table {
        pending := pending + [keys[i]];
        created := created + 1;
      }
    }
    assert keys[..|keys|] == keys;
  }

  method FindCandidates(subject: Record, earlier: seq<Record>, inputs: Inputs) returns (candidates: seq<Candidate>)
    ensures candidates == Candidates(subject, earlier, inputs)
  {
    candidates := [];
    if subject.tokenCount < MINIMUM_TOKENS {
      ShortSubjectHasNone(subject, earlier, inputs);
      return;
    }
    for i := 0 to |earlier|
      invariant candidates == Candidates(subject, earlier[..i], inputs)
    {
      assert earlier[..i + 1][..i] == earlier[..i];
      var candidate := earlier[i];
      if candidate.source == subject.source || subject.seenAt - candidate.seenAt > inputs.windowSeconds {
        continue;
      }
      if candidate.tokenCount < MINIMUM_TOKENS {
        continue;
      }
      if 10 * Min(subject.tokenCount, candidate.tokenCount) < 7 * Max(subject.tokenCount, candidate.tokenCount) {
        continue;
      }
      var score := inputs.nearDuplicate(subject.id, candidate.id);
      if score.Some? {
        candidates := candidates + [Candidate(candidate.id, score.value)];
      }
    }
    assert earlier[..|earlier|] == earlier;
  }

  lemma {:induction false} ShortSubjectHasNone(subject: Record, earlier: seq<Record>, inputs: Inputs)
    requires subject.tokenCount < MINIMUM_TOKENS
    ensures Candidates(subject, earlier, inputs) == []
  {
    if earlier != [] {
      ShortSubjectHasNone(subject, earlier[..|earlier| - 1], inputs);
    }
  }

  /** The registry and credit-line loop. */
  method ProposeOrigins(eligible: seq<Record>, inputs: Inputs, table: set<Key>) returns (pending: seq<Key>, created: nat)
    ensures pending == Missing(OriginKeys(eligible, inputs), table) && created == |pending|
  {
    pending, created := [], 0;
    for i := 0 to |eligible|
      invariant pending == Missing(OriginKeys(eligible[..i], inputs), table) && created == |pending|
    {
      var r := eligible[i];
      assert eligible[..i + 1][..i] == eligible[..i];
      MissingConcat(OriginKeys(eligible[..i], inputs), RegistryKeys(r, inputs), table);
      MissingConcat(OriginKeys(eligible[..i], inputs) + RegistryKeys(r, inputs), CreditKeys(r, inputs, inputs.credits(r.id)), table);
      pending, created := AddAll(RegistryKeys(r, inputs), table, pending, created);
      pending, created := AddAll(CreditKeys(r, inputs, inputs.credits(r.id)), table, pending, created);
    }
    assert eligible[..|eligible|] == eligible;
  }

  lemma PairKeysSnoc(records: seq<Record>, inputs: Inputs, n: nat, table: set<Key>)
    requires n < |records|
    ensures Missing(PairKeys(records[..n + 1], inputs), table)
         == Missing(PairKeys(records[..n], inputs), table) + Missing(PairsFor(records[n], records[..n], inputs), table)
  {
    assert records[..n + 1][..n] == records[..n];
    MissingConcat(PairKeys(records[..n], inputs), PairsFor(records[n], records[..n], inputs), table);
  }

  method ProposeFor(subject: Record, earlier: seq<Record>, inputs: Inputs) returns (keys: seq<Key>)
    ensures keys == PairsFor(subject, earlier, inputs)
  {
    var candidates := FindCandidates(subject, earlier, inputs);
    keys := KeysFor(subject.id, Best(candidates));
  }

  /** The pairwise loop: each subject against the records before it. */
  method ProposePairs(eligible: seq<Record>, inputs: Inputs, table: set<Key>, pending0: seq<Key>, created0: nat)
    returns (pending: seq<Key>, created: nat)
    requires created0 == |pending0|
    ensures pending == pending0 + Missing(PairKeys(eligible, inputs), table) && created == |pending|
  {
    pending, created := pending0, created0;
    ghost var added: seq<Key> := [];
    for index := 0 to |eligible|
      invariant pending == pending0 + added && created == |pending|
      invariant added == Missing(PairKeys(eligible[..index], inputs), table)
    {
      var keys := ProposeFor(eligible[index], eligible[..index], inputs);
      pending, created := AddAll(keys, table, pending, created);
      PairKeysSnoc(eligible, inputs, index, table);
      added := added + Missing(keys, table);
    }
    assert eligible[..|eligible|] == eligible;
  }

  method GenerateProposals(records: seq<Record>, inputs: Inputs, table: set<Key>) returns (pending: seq<Key>, created: nat)
    ensures pending == Missing(BatchKeys(records, inputs), table) && created == |pending|
  {
    var eligible := Eligible(records);
    pending, created := ProposeOrigins(eligible, inputs, table);
    pending, created := ProposePairs(eligible, inputs, table, pending, created);
    MissingConcat(OriginKeys(eligible, inputs), PairKeys(eligible, inputs), table);
  }
}
