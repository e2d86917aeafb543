/** Exactly which proposals one generation pass makes, in terms of its records alone. */
module ProposalBatchTheorems {
  import opened Common
  import opened ProposalBatch
  import opened ProposalBatchLaws

  // ---------------------------------------------------------------------------------------
  // Near duplicates and their rivals
  // ---------------------------------------------------------------------------------------

  /**
   * Record `i` comes before record `j`, from another source and at most the window apart; both
   * have at least twenty tokens, the shorter at least seven tenths of the longer; and the pair's
   * score qualifies.
   */
  predicate IsNear(records: seq<Record>, inputs: Inputs, i: nat, j: nat) {
    && i < j < |records|
    && records[i].source != records[j].source
    && records[j].seenAt - records[i].seenAt <= inputs.windowSeconds
    && records[i].tokenCount >= 20 && records[j].tokenCount >= 20
    && 10 * records[i].tokenCount >= 7 * records[j].tokenCount && 10 * records[j].tokenCount >= 7 * records[i].tokenCount
    && inputs.nearDuplicate(records[j].id, records[i].id).Some?
  }

  function ScoreOf(records: seq<Record>, inputs: Inputs, i: nat, j: nat): Score
    requires IsNear(records, inputs, i, j)
  {
    inputs.nearDuplicate(records[j].id, records[i].id).value
  }

  /** For subject `j`, near record `h` goes before near record `i`: by a greater cosine, or as the earlier one. */
  predicate IsAhead(records: seq<Record>, inputs: Inputs, h: nat, i: nat, j: nat) {
    && IsNear(records, inputs, h, j) && IsNear(records, inputs, i, j)
    && var c, d := ScoreOf(records, inputs, h, j).cosine, ScoreOf(records, inputs, i, j).cosine;
       c > d || (c == d && h < i)
  }

  /** The near records that go before `i` for subject `j`. */
  ghost function Rivals(records: seq<Record>, inputs: Inputs, i: nat, j: nat): set<nat> {
    set h: nat | h < |records| && IsAhead(records, inputs, h, i, j)
  }

  /** Those of them among the first `n` records. */
  ghost function RivalsBelow(records: seq<Record>, inputs: Inputs, i: nat, j: nat, n: nat): set<nat> {
    set h: nat | h < n && IsAhead(records, inputs, h, i, j)
  }

  /** The pair proposal of record `j` and the earlier record `i`. */
  function PairKey(records: seq<Record>, inputs: Inputs, i: nat, j: nat): Key
    requires IsNear(records, inputs, i, j)
  {
    Key(records[j].id, Some(records[i].id), None, "", ScoreOf(records, inputs, i, j).version)
  }

  // ---------------------------------------------------------------------------------------
  // A candidate's place is the number of its rivals
  // ---------------------------------------------------------------------------------------

  lemma CandidateIsNear(records: seq<Record>, inputs: Inputs, i: nat, j: nat)
    requires i < j < |records|
    ensures IsCandidate(records[j], records[i], inputs) <==> IsNear(records, inputs, i, j)
  {
  }

  function Nominee(records: seq<Record>, inputs: Inputs, i: nat, j: nat): Candidate
    requires IsNear(records, inputs, i, j)
  {
    Candidate(records[i].id, ScoreOf(records, inputs, i, j))
  }

  /** The subject's candidates among the first `n` records, best first. */
  function Ranked(records: seq<Record>, inputs: Inputs, j: nat, n: nat): seq<Candidate>
    requires n <= j < |records|
  {
    SortByCosine(Candidates(records[j], records[..n], inputs))
  }

  lemma RankedStep(records: seq<Record>, inputs: Inputs, j: nat, n: nat)
    requires n < j < |records|
    ensures Ranked(records, inputs, j, n + 1)
         == if IsNear(records, inputs, n, j) then Insert(Ranked(records, inputs, j, n), Nominee(records, inputs, n, j)) else Ranked(records, inputs, j, n)
  {
    hide IsCandidate, IsNear;
    CandidateIsNear(records, inputs, n, j);
    assert records[..n + 1][..n] == records[..n];
    var before, after := Candidates(records[j], records[..n], inputs), Candidates(records[j], records[..n + 1], inputs);
    if IsNear(records, inputs, n, j) {
      assert IsCandidate(records[j], records[n], inputs) ==> inputs.nearDuplicate(records[j].id, records[n].id).Some? by {
        CandidateHasScore(records[j], records[n], inputs);
      }
      assert after == before + [Nominee(records, inputs, n, j)] by {
        NomineeIs(records, inputs, n, j);
      }
      assert after[..|after| - 1] == before;
    } else {
      assert after == before;
    }
  }

  lemma CandidateHasScore(subject: Record, earlier: Record, inputs: Inputs)
    ensures IsCandidate(subject, earlier, inputs) ==> inputs.nearDuplicate(subject.id, earlier.id).Some?
  {
  }

  lemma NomineeIs(records: seq<Record>, inputs: Inputs, i: nat, j: nat)
    requires IsNear(records, inputs, i, j)
    ensures Nominee(records, inputs, i, j) == Candidate(records[i].id, inputs.nearDuplicate(records[j].id, records[i].id).value)
  {
  }

  /** How many of the list have at least this cosine. */
  function AtLeast(ranked: seq<Candidate>, cosine: real): nat {
    if ranked == [] then 0 else AtLeast(ranked[..|ranked| - 1], cosine) + if ranked[|ranked| - 1].score.cosine >= cosine then 1 else 0
  }

  lemma {:induction false} AtLeastConcat(a: seq<Candidate>, b: seq<Candidate>, cosine: real)
    ensures AtLeast(a + b, cosine) == AtLeast(a, cosine) + AtLeast(b, cosine)
  {
    if b == [] {
      assert a + b == a;
    } else {
      assert (a + b)[..|a + b| - 1] == a + b[..|b| - 1];
      AtLeastConcat(a, b[..|b| - 1], cosine);
    }
  }

  lemma {:induction false} AllAtLeast(ranked: seq<Candidate>, cosine: real)
    ensures (forall k | 0 <= k < |ranked| :: ranked[k].score.cosine >= cosine) ==> AtLeast(ranked, cosine) == |ranked|
    ensures (forall k | 0 <= k < |ranked| :: ranked[k].score.cosine < cosine) ==> AtLeast(ranked, cosine) == 0
  {
    if ranked != [] {
      AllAtLeast(ranked[..|ranked| - 1], cosine);
    }
  }

  /** In a falling list the new candidate goes behind all that have at least its cosine. */
  lemma InsertPlaces(ranked: seq<Candidate>, c: Candidate) returns (a: seq<Candidate>, b: seq<Candidate>)
    requires Falling(ranked)
    ensures ranked == a + b && Insert(ranked, c) == a + [c] + b
    ensures |a| == AtLeast(ranked, c.score.cosine)
    ensures forall k | 0 <= k < |a| :: a[k].score.cosine >= c.score.cosine
    ensures forall k | 0 <= k < |b| :: b[k].score.cosine < c.score.cosine
  {
    a, b := InsertSplits(ranked, c);
    FallingHalves(a, b);
    forall k | 0 <= k < |a| ensures a[k].score.cosine >= c.score.cosine {
      assert k < |a| - 1 ==> a[k].score.cosine >= a[|a| - 1].score.cosine;
    }
    AllAtLeast(a, c.score.cosine);
    AllAtLeast(b, c.score.cosine);
    AtLeastConcat(a, b, c.score.cosine);
  }

  /** The near records among the first `n` with at least this cosine. */
  ghost function NearAtLeast(records: seq<Record>, inputs: Inputs, j: nat, n: nat, cosine: real): set<nat> {
    set h: nat | h < n && IsNear(records, inputs, h, j) && ScoreOf(records, inputs, h, j).cosine >= cosine
  }

  lemma RankedFalls(records: seq<Record>, inputs: Inputs, j: nat, n: nat)
    requires n <= j < |records|
    ensures Falling(Ranked(records, inputs, j, n))
  {
    SortLaws(Candidates(records[j], records[..n], inputs));
  }

  lemma NearAtLeastStep(records: seq<Record>, inputs: Inputs, j: nat, m: nat, cosine: real)
    ensures |NearAtLeast(records, inputs, j, m + 1, cosine)|
         == |NearAtLeast(records, inputs, j, m, cosine)|
            + if IsNear(records, inputs, m, j) && ScoreOf(records, inputs, m, j).cosine >= cosine then 1 else 0
  {
    hide IsNear, ScoreOf;
    var own := if IsNear(records, inputs, m, j) && ScoreOf(records, inputs, m, j).cosine >= cosine then {m} else {};
    assert NearAtLeast(records, inputs, j, m + 1, cosine) == NearAtLeast(records, inputs, j, m, cosine) + own;
  }

  lemma RivalsStep(records: seq<Record>, inputs: Inputs, i: nat, j: nat, m: nat)
    requires i < m && IsNear(records, inputs, i, j)
    ensures |RivalsBelow(records, inputs, i, j, m + 1)|
         == |RivalsBelow(records, inputs, i, j, m)|
            + if IsNear(records, inputs, m, j) && ScoreOf(records, inputs, m, j).cosine > ScoreOf(records, inputs, i, j).cosine then 1 else 0
  {
    hide IsNear, ScoreOf;
    var own := if IsNear(records, inputs, m, j) && ScoreOf(records, inputs, m, j).cosine > ScoreOf(records, inputs, i, j).cosine then {m} else {};
    assert RivalsBelow(records, inputs, i, j, m + 1) == RivalsBelow(records, inputs, i, j, m) + own;
  }

  lemma RivalsOfNewest(records: seq<Record>, inputs: Inputs, j: nat, m: nat)
    requires IsNear(records, inputs, m, j)
    ensures RivalsBelow(records, inputs, m, j, m + 1) == NearAtLeast(records, inputs, j, m, ScoreOf(records, inputs, m, j).cosine)
  {
    hide IsNear, ScoreOf;
  }

  lemma InsertCounts(ranked: seq<Candidate>, c: Candidate, cosine: real)
    requires Falling(ranked)
    ensures AtLeast(Insert(ranked, c), cosine) == AtLeast(ranked, cosine) + if c.score.cosine >= cosine then 1 else 0
  {
    hide Falling, Insert;
    var a, b := InsertPlaces(ranked, c);
    AtLeastConcat(a, b, cosine);
    AtLeastConcat(a, [c] + b, cosine);
    AtLeastConcat([c], b, cosine);
    assert a + [c] + b == a + ([c] + b);
    assert AtLeast([c], cosine) == if c.score.cosine >= cosine then 1 else 0;
  }

  lemma {:induction false} RankedCounts(records: seq<Record>, inputs: Inputs, j: nat, n: nat, cosine: real)
    requires n <= j < |records|
    ensures AtLeast(Ranked(records, inputs, j, n), cosine) == |NearAtLeast(records, inputs, j, n, cosine)|
  {
    hide IsNear, Ranked, NearAtLeast, AtLeast, Insert;
    if n == 0 {
      NothingRanked(records, inputs, j, cosine);
    } else {
      RankedCounts(records, inputs, j, n - 1, cosine);
      RankedStep(records, inputs, j, n - 1);
      RankedFalls(records, inputs, j, n - 1);
      NearAtLeastStep(records, inputs, j, n - 1, cosine);
      if IsNear(records, inputs, n - 1, j) {
        InsertCounts(Ranked(records, inputs, j, n - 1), Nominee(records, inputs, n - 1, j), cosine);
      }
    }
  }

  lemma NothingRanked(records: seq<Record>, inputs: Inputs, j: nat, cosine: real)
    requires j < |records|
    ensures AtLeast(Ranked(records, inputs, j, 0), cosine) == |NearAtLeast(records, inputs, j, 0, cosine)|
  {
    assert NearAtLeast(records, inputs, j, 0, cosine) == {};
  }

  lemma RankedNone(records: seq<Record>, inputs: Inputs, j: nat)
    requires j < |records|
    ensures Ranked(records, inputs, j, 0) == []
  {
  }

  /** Where the candidates of the first `m` records and the next one stand once it is inserted. */
  lemma PlacesAfterInsert(ranked: seq<Candidate>, c: Candidate, place: nat)
    requires Falling(ranked)
    ensures |Insert(ranked, c)| == |ranked| + 1
    ensures AtLeast(ranked, c.score.cosine) <= |ranked| && Insert(ranked, c)[AtLeast(ranked, c.score.cosine)] == c
    ensures place < |ranked| ==> Insert(ranked, c)[if c.score.cosine > ranked[place].score.cosine then place + 1 else place] == ranked[place]
  {
    hide Falling, Insert, AtLeast;
    var a, b := InsertPlaces(ranked, c);
    if place < |a| {
      assert a[place] == ranked[place];
    } else if place < |ranked| {
      assert b[place - |a|] == ranked[place];
    }
  }

  /** The place of a near record in the ranking is the number of its rivals so far. */
  lemma {:induction false} PlaceIsRivals(records: seq<Record>, inputs: Inputs, j: nat, n: nat, i: nat)
    requires i < n <= j < |records| && IsNear(records, inputs, i, j)
    ensures var place := |RivalsBelow(records, inputs, i, j, n)|;
            place < |Ranked(records, inputs, j, n)| && Ranked(records, inputs, j, n)[place] == Nominee(records, inputs, i, j)
  {
    hide IsNear, Ranked, RivalsBelow, Insert, AtLeast, NearAtLeast, Falling;
    var m := n - 1;
    RankedStep(records, inputs, j, m);
    RankedFalls(records, inputs, j, m);
    if i == m {
      RankedCounts(records, inputs, j, m, ScoreOf(records, inputs, m, j).cosine);
      RivalsOfNewest(records, inputs, j, m);
      PlacesAfterInsert(Ranked(records, inputs, j, m), Nominee(records, inputs, m, j), 0);
    } else {
      PlaceIsRivals(records, inputs, j, m, i);
      RivalsStep(records, inputs, i, j, m);
      if IsNear(records, inputs, m, j) {
        PlacesAfterInsert(Ranked(records, inputs, j, m), Nominee(records, inputs, m, j), |RivalsBelow(records, inputs, i, j, m)|);
      }
    }
  }

  /** Every place of the ranking is taken by a near record with that many rivals. */
  lemma {:induction false} RankedAreNear(records: seq<Record>, inputs: Inputs, j: nat, n: nat, place: nat) returns (i: nat)
    requires n <= j < |records| && place < |Ranked(records, inputs, j, n)|
    ensures i < n && IsNear(records, inputs, i, j) && place == |RivalsBelow(records, inputs, i, j, n)|
    ensures Ranked(records, inputs, j, n)[place] == Nominee(records, inputs, i, j)
  {
    hide IsNear, Ranked, RivalsBelow, Insert, AtLeast, NearAtLeast, Falling;
    if n == 0 {
      RankedNone(records, inputs, j);
    } else {
      var m := n - 1;
      RankedStep(records, inputs, j, m);
      RankedFalls(records, inputs, j, m);
      if IsNear(records, inputs, m, j) {
        var ranked, c := Ranked(records, inputs, j, m), Nominee(records, inputs, m, j);
        var own := AtLeast(ranked, c.score.cosine);
        RankedCounts(records, inputs, j, m, c.score.cosine);
        RivalsOfNewest(records, inputs, j, m);
        PlacesAfterInsert(ranked, c, 0);
        if place == own {
          i := m;
        } else {
          var before := BehindInsert(ranked, c, place);
          i := RankedAreNear(records, inputs, j, m, before);
          RivalsStep(records, inputs, i, j, m);
        }
      } else {
        i := RankedAreNear(records, inputs, j, m, place);
        RivalsStep(records, inputs, i, j, m);
      }
    }
  }

  /** Any place but the new candidate's was taken before. */
  lemma BehindInsert(ranked: seq<Candidate>, c: Candidate, place: nat) returns (before: nat)
    requires Falling(ranked) && place < |Insert(ranked, c)| && place != AtLeast(ranked, c.score.cosine)
    ensures before < |ranked| && Insert(ranked, c)[place] == ranked[before]
    ensures place == if c.score.cosine > ranked[before].score.cosine then before + 1 else before
  {
    hide Falling, Insert, AtLeast;
    var a, b := InsertPlaces(ranked, c);
    before := if place < |a| then place else place - 1;
    assert place < |a| ==> a[place] == ranked[before];
    assert place > |a| ==> b[place - 1 - |a|] == ranked[before];
  }

  // ---------------------------------------------------------------------------------------
  // Which pairs are proposed
  // ---------------------------------------------------------------------------------------

  lemma RivalsComeBefore(records: seq<Record>, inputs: Inputs, i: nat, j: nat)
    requires j < |records|
    ensures Rivals(records, inputs, i, j) == RivalsBelow(records, inputs, i, j, j)
  {
  }

  /** The pair is proposed: the records are near, and fewer than three others go before. */
  ghost predicate IsProposed(records: seq<Record>, inputs: Inputs, i: nat, j: nat) {
    IsNear(records, inputs, i, j) && |Rivals(records, inputs, i, j)| < 3
  }

  lemma OwnPairsExactly(records: seq<Record>, inputs: Inputs, j: nat, k: Key)
    requires j < |records|
    ensures k in PairsFor(records[j], records[..j], inputs) <==> exists i :: IsProposed(records, inputs, i, j) && k == PairKey(records, inputs, i, j)
  {
    hide IsNear, Candidates, SortByCosine;
    var ranked, own := Ranked(records, inputs, j, j), PairsFor(records[j], records[..j], inputs);
    if i :| IsProposed(records, inputs, i, j) && k == PairKey(records, inputs, i, j) {
      NearIsBefore(records, inputs, i, j);
      PlaceIsRivals(records, inputs, j, j, i);
      RivalsComeBefore(records, inputs, i, j);
      assert own[|Rivals(records, inputs, i, j)|] == k;
    }
    if k in own {
      var place :| 0 <= place < |own| && own[place] == k;
      var i := RankedAreNear(records, inputs, j, j, place);
      RivalsComeBefore(records, inputs, i, j);
      assert IsProposed(records, inputs, i, j) && k == PairKey(records, inputs, i, j);
    }
  }

  lemma NearIsBefore(records: seq<Record>, inputs: Inputs, i: nat, j: nat)
    requires IsNear(records, inputs, i, j)
    ensures i < j < |records|
  {
  }

  /** The key proposes a pair of near records, the later one as its subject, that fewer than three others go before. */
  ghost predicate IsPairOf(records: seq<Record>, inputs: Inputs, k: Key) {
    exists i: nat, j: nat :: IsProposed(records, inputs, i, j) && k == PairKey(records, inputs, i, j)
  }

  lemma {:induction false} PairKeysBelow(records: seq<Record>, inputs: Inputs, n: nat, k: Key)
    requires n <= |records|
    ensures k in PairKeys(records[..n], inputs) <==> exists i: nat, j: nat | j < n :: IsProposed(records, inputs, i, j) && k == PairKey(records, inputs, i, j)
  {
    hide IsProposed, PairsFor;
    if n > 0 {
      PairKeysBelow(records, inputs, n - 1, k);
      OwnPairsExactly(records, inputs, n - 1, k);
      assert records[..n][..n - 1] == records[..n - 1];
    }
  }

  /**
   * A pair is proposed exactly if its records are near and fewer than three others go before: a
   * source never with itself, never across the window, always backwards in time, and of more than
   * three the three of the greatest cosine, earlier ones first.
   */
  lemma PairKeysExactly(records: seq<Record>, inputs: Inputs, k: Key)
    ensures k in PairKeys(records, inputs) <==> IsPairOf(records, inputs, k)
  {
    hide PairKeys, IsNear, Rivals;
    PairKeysBelow(records, inputs, |records|, k);
    assert records[..|records|] == records;
    if i: nat, j: nat :| IsProposed(records, inputs, i, j) && k == PairKey(records, inputs, i, j) {
      NearIsBefore(records, inputs, i, j);
    }
  }

  // ---------------------------------------------------------------------------------------
  // Which origins are proposed
  // ---------------------------------------------------------------------------------------

  /** The registry says whom the record's source syndicates, or a credit line of the record names its origin. */
  ghost predicate IsOriginOf(r: Record, inputs: Inputs, k: Key) {
    && k.subject == r.id && k.candidate.None?
    && if k.version == REGISTRY then
         k.originSource.Some? && inputs.syndicatesFrom(r.source) == k.originSource && k.originName == inputs.nameOf(k.originSource.value)
       else
         k.version == CREDIT && k.originName in inputs.credits(r.id) && k.originSource == inputs.originOf(k.originName)
  }

  /** The key proposes an origin of one of the records. */
  ghost predicate IsOrigin(records: seq<Record>, inputs: Inputs, k: Key) {
    exists r | r in records && !r.excluded :: IsOriginOf(r, inputs, k)
  }

  lemma OwnOriginsExactly(r: Record, inputs: Inputs, k: Key)
    ensures k in RegistryKeys(r, inputs) + CreditKeys(r, inputs, inputs.credits(r.id)) <==> IsOriginOf(r, inputs, k)
  {
    var names := inputs.credits(r.id);
    var credits := CreditKeys(r, inputs, names);
    if k.originName in names {
      var i :| 0 <= i < |names| && names[i] == k.originName;
      assert credits[i] == Key(r.id, None, inputs.originOf(k.originName), k.originName, CREDIT);
    }
  }

  lemma {:induction false} OriginKeysExactly(records: seq<Record>, inputs: Inputs, k: Key)
    ensures k in OriginKeys(records, inputs) <==> exists r | r in records :: IsOriginOf(r, inputs, k)
  {
    hide IsOriginOf, RegistryKeys, CreditKeys;
    if records != [] {
      var front, last := records[..|records| - 1], records[|records| - 1];
      OriginKeysExactly(front, inputs, k);
      OwnOriginsExactly(last, inputs, k);
      assert records == front + [last];
      assert OriginKeys(records, inputs) == OriginKeys(front, inputs) + (RegistryKeys(last, inputs) + CreditKeys(last, inputs, inputs.credits(last.id)));
    }
  }

  lemma {:induction false} EligibleExactly(records: seq<Record>, r: Record)
    ensures r in Eligible(records) <==> r in records && !r.excluded
  {
    if records != [] {
      EligibleExactly(records[..|records| - 1], r);
      assert records == records[..|records| - 1] + [records[|records| - 1]];
    }
  }

  /**
   * A pass proposes exactly: for every record that is not excluded, the origins that the registry
   * and its credit lines name; and among these records, every near pair with fewer than three rivals.
   */
  lemma BatchExactly(records: seq<Record>, inputs: Inputs, k: Key)
    ensures k in BatchKeys(records, inputs) <==> IsOrigin(records, inputs, k) || IsPairOf(Eligible(records), inputs, k)
  {
    hide IsOriginOf, PairKeys, OriginKeys, Eligible, IsPairOf;
    OriginKeysExactly(Eligible(records), inputs, k);
    PairKeysExactly(Eligible(records), inputs, k);
    forall r ensures r in Eligible(records) <==> r in records && !r.excluded {
      EligibleExactly(records, r);
    }
  }
}
