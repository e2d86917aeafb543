/** Conservation, isolation and independence of order of the reference-set scores. */
module GoldLaws {
  import opened Common
  import opened GoldEvaluation

  // ---------------------------------------------------------------------------------------
  // One document
  // ---------------------------------------------------------------------------------------

  predicate Anchored(text: Text, document: string, c: Claim) {
    c.start.At? && c.end.At? && SpanResolves(text, document, c.start.value, c.end.value, text.normalize(c.quote))
  }

  /** The claim has a quote and both offsets or neither; in the reference, offsets must resolve. */
  predicate ClaimOk(text: Text, document: string, isGold: bool, c: Claim) {
    && !text.blank(c.quote)
    && ((c.start.Absent? && c.end.Absent?) || if isGold then Anchored(text, document, c) else c.start.At? && c.end.At?)
  }

  predicate ClaimsOk(text: Text, document: string, isGold: bool, claims: seq<Claim>, n: nat)
    requires n <= |claims|
  {
    forall i | 0 <= i < n :: ClaimOk(text, document, isGold, claims[i])
  }

  /**
   * Extraction succeeds exactly on well-formed claims, and every claim is counted exactly once,
   * as grounded or as ungrounded; reference claims are all grounded.
   */
  lemma {:induction false} ExtractExactly(text: Text, claims: seq<Claim>, document: string, isGold: bool, n: nat)
    requires n <= |claims|
    ensures Extract(text, claims, document, isGold, n).Ok? <==> ClaimsOk(text, document, isGold, claims, n)
    ensures var r := Extract(text, claims, document, isGold, n);
            r.Ok? ==> |r.value.grounded| + r.value.ungrounded == n && (isGold ==> r.value.ungrounded == 0)
  {
    hide SpanResolves;
    if n > 0 {
      ExtractExactly(text, claims, document, isGold, n - 1);
    }
  }

  predicate Conserves(c: Counts) {
    && c.truePositive + c.falsePositive == c.predicted && c.truePositive + c.falseNegative == c.expected
    && c.truePositive >= 0 && c.falsePositive >= 0 && c.falseNegative >= 0
  }

  /** The counts of one document add up, and every expected and every predicted claim is in them. */
  lemma ScoreConserves(text: Text, gold: Gold, prediction: Prediction)
    requires Score(text, gold, prediction).Ok?
    ensures var c := Score(text, gold, prediction).value;
            Conserves(c) && c.expected == |gold.claims| && c.predicted == |prediction.claims|
  {
    hide Extract;
    ExtractExactly(text, gold.claims, gold.document, true, |gold.claims|);
    ExtractExactly(text, prediction.claims, gold.document, false, |prediction.claims|);
    var a := Extract(text, gold.claims, gold.document, true, |gold.claims|).value.grounded;
    var b := Extract(text, prediction.claims, gold.document, false, |prediction.claims|).value.grounded;
    assert a == a * b + (a - b) && b == a * b + (b - a);
  }

  lemma {:induction false} GroundedQuotes(text: Text, claims: seq<Claim>, document: string, isGold: bool, n: nat, q: string)
    requires n <= |claims| && Extract(text, claims, document, isGold, n).Ok?
    requires q in Extract(text, claims, document, isGold, n).value.grounded
    ensures exists i | 0 <= i < n :: text.normalize(claims[i].quote) == q
  {
    hide SpanResolves;
    if q in Extract(text, claims, document, isGold, n - 1).value.grounded {
      GroundedQuotes(text, claims, document, isGold, n - 1, q);
    } else {
      assert text.normalize(claims[n - 1].quote) == q;
    }
  }

  /** Predictions that quote nothing of their own document's reference score nothing. */
  lemma ForeignQuotesScoreNothing(text: Text, gold: Gold, prediction: Prediction)
    requires Score(text, gold, prediction).Ok?
    requires forall i, j | 0 <= i < |gold.claims| && 0 <= j < |prediction.claims| ::
               text.normalize(gold.claims[i].quote) != text.normalize(prediction.claims[j].quote)
    ensures var c := Score(text, gold, prediction).value; c.truePositive == 0 && c.falsePositive == |prediction.claims|
  {
    hide Extract;
    var expected := Extract(text, gold.claims, gold.document, true, |gold.claims|).value.grounded;
    var predicted := Extract(text, prediction.claims, gold.document, false, |prediction.claims|).value.grounded;
    forall q | q in expected ensures q !in predicted {
      GroundedQuotes(text, gold.claims, gold.document, true, |gold.claims|, q);
      if q in predicted {
        GroundedQuotes(text, prediction.claims, gold.document, false, |prediction.claims|, q);
      }
    }
    assert expected * predicted == multiset{};
    ScoreConserves(text, gold, prediction);
  }

  lemma {:induction false} GoldClaimsExtractAlike(text: Text, claims: seq<Claim>, document: string, n: nat)
    requires n <= |claims| && Extract(text, claims, document, true, n).Ok?
    ensures Extract(text, claims, document, false, n) == Extract(text, claims, document, true, n)
  {
    hide SpanResolves;
    if n > 0 {
      GoldClaimsExtractAlike(text, claims, document, n - 1);
    }
  }

  /** Predicting exactly the reference is a perfect score. */
  lemma PerfectScore(text: Text, gold: Gold)
    requires Extract(text, gold.claims, gold.document, true, |gold.claims|).Ok?
    ensures Score(text, gold, Prediction(gold.id, gold.claims)) == Ok(Counts(|gold.claims|, |gold.claims|, |gold.claims|, 0, 0))
  {
    hide Extract;
    GoldClaimsExtractAlike(text, gold.claims, gold.document, |gold.claims|);
    ExtractExactly(text, gold.claims, gold.document, true, |gold.claims|);
    var grounded := Extract(text, gold.claims, gold.document, true, |gold.claims|).value.grounded;
    assert grounded * grounded == grounded;
  }

  // ---------------------------------------------------------------------------------------
  // Sums over records
  // ---------------------------------------------------------------------------------------

  function Sum<T>(s: seq<T>, f: T -> Counts): Counts {
    if s == [] then ZERO else Sum(s[..|s| - 1], f).Plus(f(s[|s| - 1]))
  }

  lemma {:induction false} SumWithout<T>(s: seq<T>, f: T -> Counts, i: nat)
    requires i < |s|
    ensures Sum(s, f) == Sum(s[..i] + s[i + 1..], f).Plus(f(s[i]))
  {
    var front := s[..|s| - 1];
    var rest := s[..i] + s[i + 1..];
    if i == |s| - 1 {
      assert rest == front;
    } else {
      SumWithout(front, f, i);
      assert rest[..|rest| - 1] == front[..i] + front[i + 1..];
      assert rest[|rest| - 1] == s[|s| - 1];
    }
  }

  /** A sum does not depend on the order of its terms. */
  lemma {:induction false} SumPermutes<T>(s: seq<T>, t: seq<T>, f: T -> Counts)
    requires multiset(s) == multiset(t)
    ensures Sum(s, f) == Sum(t, f)
  {
    if s == [] {
      assert |multiset(t)| == 0;
    } else {
      var front, last := s[..|s| - 1], s[|s| - 1];
      assert s == front + [last];
      assert last in multiset(s);
      assert last in multiset(t);
      var i :| 0 <= i < |t| && t[i] == last;
      var rest := t[..i] + t[i + 1..];
      assert t == t[..i] + [last] + t[i + 1..];
      assert multiset(rest) == multiset(t) - multiset{last};
      SumPermutes(front, rest, f);
      SumWithout(t, f, i);
    }
  }

  lemma {:induction false} SumConserves<T>(s: seq<T>, f: T -> Counts)
    requires forall i | 0 <= i < |s| :: Conserves(f(s[i]))
    ensures Conserves(Sum(s, f))
  {
    if s != [] {
      SumConserves(s[..|s| - 1], f);
    }
  }

  const ONE := Counts(1, 0, 0, 0, 0)

  function Indicator<T>(p: T -> bool): T -> Counts {
    x => if p(x) then ONE else ZERO
  }

  /** How many elements satisfy the predicate. */
  function Number<T>(s: seq<T>, p: T -> bool): int {
    Sum(s, Indicator(p)).expected
  }

  lemma {:induction false} NumberBasics<T>(s: seq<T>, p: T -> bool)
    ensures 0 <= Number(s, p) <= |s|
    ensures Number(s, p) > 0 <==> exists i | 0 <= i < |s| :: p(s[i])
  {
    if s != [] {
      NumberBasics(s[..|s| - 1], p);
    }
  }

  lemma NumberStep<T>(s: seq<T>, p: T -> bool, n: nat)
    requires n < |s|
    ensures Number(s[..n + 1], p) == Number(s[..n], p) + if p(s[n]) then 1 else 0
  {
    assert s[..n + 1][..n] == s[..n];
  }

  // ---------------------------------------------------------------------------------------
  // What is extracted, and which records are valid
  // ---------------------------------------------------------------------------------------

  /** The claim declares no offsets, or the document has its quote there, up to normalization. */
  ghost predicate IsGrounded(text: Text, document: string, c: Claim) {
    || (c.start.Absent? && c.end.Absent?)
    || (c.start.At? && c.end.At? && 0 <= c.start.value < c.end.value <= |document|
        && text.normalize(document[c.start.value..c.end.value]) == text.normalize(c.quote))
  }

  /** The grounded ones of the first `n` claims with this normalized quote. */
  ghost function GroundedWith(text: Text, claims: seq<Claim>, document: string, n: nat, q: string): set<nat>
    requires n <= |claims|
  {
    set i: nat | i < n && IsGrounded(text, document, claims[i]) && text.normalize(claims[i].quote) == q
  }

  /** The claims that declare offsets at which the document does not have their quote. */
  ghost function Ungrounded(text: Text, claims: seq<Claim>, document: string, n: nat): set<nat>
    requires n <= |claims|
  {
    set i: nat | i < n && !IsGrounded(text, document, claims[i])
  }

  lemma GroundedWithOneMore(text: Text, claims: seq<Claim>, document: string, n: nat, q: string)
    requires n < |claims|
    ensures |GroundedWith(text, claims, document, n + 1, q)|
         == |GroundedWith(text, claims, document, n, q)| + if IsGrounded(text, document, claims[n]) && text.normalize(claims[n].quote) == q then 1 else 0
  {
    hide IsGrounded;
    var own := if IsGrounded(text, document, claims[n]) && text.normalize(claims[n].quote) == q then {n} else {};
    assert GroundedWith(text, claims, document, n + 1, q) == GroundedWith(text, claims, document, n, q) + own;
  }

  lemma UngroundedOneMore(text: Text, claims: seq<Claim>, document: string, n: nat)
    requires n < |claims|
    ensures |Ungrounded(text, claims, document, n + 1)| == |Ungrounded(text, claims, document, n)| + if IsGrounded(text, document, claims[n]) then 0 else 1
  {
    hide IsGrounded;
    var own := if IsGrounded(text, document, claims[n]) then {} else {n};
    assert Ungrounded(text, claims, document, n + 1) == Ungrounded(text, claims, document, n) + own;
  }

  /** Each grounded claim counts once under its normalized quote, and each ungrounded one once. */
  lemma {:induction false} ExtractedExactly(text: Text, claims: seq<Claim>, document: string, isGold: bool, n: nat, q: string)
    requires n <= |claims| && Extract(text, claims, document, isGold, n).Ok?
    ensures var r := Extract(text, claims, document, isGold, n).value;
            r.grounded[q] == |GroundedWith(text, claims, document, n, q)| && r.ungrounded == |Ungrounded(text, claims, document, n)|
  {
    if n > 0 {
      StepIsGrounded(text, claims, document, isGold, n);
      hide Extract, IsGrounded, GroundedWith, Ungrounded;
      ExtractedExactly(text, claims, document, isGold, n - 1, q);
      GroundedWithOneMore(text, claims, document, n - 1, q);
      UngroundedOneMore(text, claims, document, n - 1);
    }
  }

  lemma StepIsGrounded(text: Text, claims: seq<Claim>, document: string, isGold: bool, n: nat)
    requires 0 < n <= |claims| && Extract(text, claims, document, isGold, n).Ok?
    ensures var before, after, c := Extract(text, claims, document, isGold, n - 1), Extract(text, claims, document, isGold, n), claims[n - 1];
            before.Ok? && after.value == if IsGrounded(text, document, c) then before.value.(grounded := before.value.grounded + multiset{text.normalize(c.quote)})
                                         else before.value.(ungrounded := before.value.ungrounded + 1)
  {
  }

  /**
   * A reference record is valid exactly if it has an id, a supported language, a document and well-formed claims
   * that resolve in it, and, if it is approved, two different reviewers.  Valid records count if
   * they are approved, or unapproved ones are included.
   */
  lemma ValidExactly(text: Text, g: Gold, includeUnreviewed: bool)
    ensures var r := ValidateGold(text, g, includeUnreviewed);
            && (r.Ok? <==>
                  && g.id != "" && g.language in {English, Greek, Turkish, Arabic} && !text.blank(g.document)
                  && (forall i | 0 <= i < |g.claims| :: !text.blank(g.claims[i].quote) && IsGrounded(text, g.document, g.claims[i]))
                  && (g.approved ==> exists a, b :: a in g.reviewers && b in g.reviewers && a != b))
            && (r.Ok? ==> (r.value <==> g.approved || includeUnreviewed))
  {
    hide Extract;
    ExtractExactly(text, g.claims, g.document, true, |g.claims|);
    TwoExactly(g.reviewers);
  }

  lemma TwoExactly(names: seq<string>)
    ensures |set r | r in names| >= 2 <==> exists a, b :: a in names && b in names && a != b
  {
    var distinct := set r | r in names;
    if |distinct| >= 2 {
      var a :| a in distinct;
      assert |distinct - {a}| >= 1;
      var b :| b in distinct - {a};
      assert a in names && b in names && a != b;
    }
    if a, b :| a in names && b in names && a != b {
      assert {a, b} <= distinct;
      SubsetSize({a, b}, distinct);
    }
  }

  lemma {:induction false} SubsetSize<T>(a: set<T>, b: set<T>)
    requires a <= b
    ensures |a| <= |b|
  {
    assert b == a + (b - a);
  }
}
