/**
 * Scoring of extracted claims against a reviewed reference set (gold_evaluation.py).
 *
 * Quote normalization and the test for blank text (regular expressions and case folding) are
 * a parameter, `Text`; everything computed from their results is modelled.
 */
module GoldEvaluation {
  import opened Common

  datatype Text = Text(normalize: string -> string, blank: string -> bool)

  /** One declared offset of a claim: not there, not an integer, or an integer. */
  datatype Offset = Absent | Malformed | At(value: int)

  datatype Claim = Claim(quote: string, start: Offset, end: Offset)

  datatype Gold = Gold(id: string, language: Language, document: string, claims: seq<Claim>, approved: bool, reviewers: seq<string>)

  datatype Prediction = Prediction(id: string, claims: seq<Claim>)

  datatype Language = English | Greek | Turkish | Arabic | Unsupported(code: string)

  datatype GoldError =
    | NoId
    | UnsupportedLanguage
    | NoDocument
    | BlankQuote
    | MalformedSpan
    | UnresolvedGoldSpan
    | TooFewReviewers
    | DuplicateGold
    | NothingEligible
    | UnknownPrediction
    | DuplicatePrediction
    | MissingPrediction

  datatype Counts = Counts(expected: int, predicted: int, truePositive: int, falsePositive: int, falseNegative: int) {
    function Plus(other: Counts): Counts {
      Counts(expected + other.expected, predicted + other.predicted, truePositive + other.truePositive,
             falsePositive + other.falsePositive, falseNegative + other.falseNegative)
    }
  }

  const ZERO := Counts(0, 0, 0, 0, 0)

  // ---------------------------------------------------------------------------------------
  // One document
  // ---------------------------------------------------------------------------------------

  predicate SpanResolves(text: Text, document: string, start: int, end: int, normalized: string) {
    0 <= start < end <= |document| && text.normalize(document[start..end]) == normalized
  }

  datatype Extracted = Extracted(grounded: multiset<string>, ungrounded: nat)

  /** The quotes of the first `n` claims that ground to the document, or the first error. */
  function Extract(text: Text, claims: seq<Claim>, document: string, isGold: bool, n: nat): Result<Extracted, GoldError>
    requires n <= |claims|
  {
    if n == 0 then Ok(Extracted(multiset{}, 0))
    else
      var before, c := Extract(text, claims, document, isGold, n - 1), claims[n - 1];
      var normalized := text.normalize(c.quote);
      if before.Err? then before
      else if text.blank(c.quote) then Err(BlankQuote)
      else if c.start.Absent? && c.end.Absent? then Ok(Extracted(before.value.grounded + multiset{normalized}, before.value.ungrounded))
      else if !c.start.At? || !c.end.At? then Err(MalformedSpan)
      else if SpanResolves(text, document, c.start.value, c.end.value, normalized)
      then Ok(Extracted(before.value.grounded + multiset{normalized}, before.value.ungrounded))
      else if isGold then Err(UnresolvedGoldSpan)
      else Ok(before.value.(ungrounded := before.value.ungrounded + 1))
  }

  function DocumentCounts(expected: multiset<string>, predicted: Extracted): Counts {
    var truePositive, all := |expected * predicted.grounded|, |predicted.grounded| + predicted.ungrounded;
    Counts(|expected|, all, truePositive, all - truePositive, |expected| - truePositive)
  }

  /** One document's counts, when its claims and its predictions are well formed. */
  function Score(text: Text, gold: Gold, prediction: Prediction): Result<Counts, GoldError> {
    var expected := Extract(text, gold.claims, gold.document, true, |gold.claims|);
    var predicted := Extract(text, prediction.claims, gold.document, false, |prediction.claims|);
    if expected.Err? then Err(expected.error)
    else if predicted.Err? then Err(predicted.error)
    else Ok(DocumentCounts(expected.value.grounded, predicted.value))
  }

  // ---------------------------------------------------------------------------------------
  // The reference set
  // ---------------------------------------------------------------------------------------

  /** Whether a record is eligible, or why the set is refused. */
  function ValidateGold(text: Text, g: Gold, includeUnreviewed: bool): Result<bool, GoldError> {
    if g.id == "" then Err(NoId)
    else if g.language.Unsupported? then Err(UnsupportedLanguage)
    else if text.blank(g.document) then Err(NoDocument)
    else
      var extracted := Extract(text, g.claims, g.document, true, |g.claims|);
      if extracted.Err? then Err(extracted.error)
      else if g.approved then if |set r | r in g.reviewers| < 2 then Err(TooFewReviewers) else Ok(true)
      else Ok(includeUnreviewed)
  }

  datatype Cohort = Cohort(eligible: seq<Gold>, excluded: nat)

  predicate HasGold(eligible: seq<Gold>, id: string) {
    exists i | 0 <= i < |eligible| :: eligible[i].id == id
  }

  /** The eligible records among the first `n`, in order. */
  function Select(text: Text, golds: seq<Gold>, includeUnreviewed: bool, n: nat): Result<Cohort, GoldError>
    requires n <= |golds|
  {
    if n == 0 then Ok(Cohort([], 0))
    else
      var before := Select(text, golds, includeUnreviewed, n - 1);
      if before.Err? then before
      else
        var valid := ValidateGold(text, golds[n - 1], includeUnreviewed);
        if valid.Err? then Err(valid.error)
        else if !valid.value then Ok(before.value.(excluded := before.value.excluded + 1))
        else if HasGold(before.value.eligible, golds[n - 1].id) then Err(DuplicateGold)
        else Ok(before.value.(eligible := before.value.eligible + [golds[n - 1]]))
  }

  type Predictions = map<string, Prediction>

  /** The first `n` predictions by record. */
  function Match(eligible: seq<Gold>, predictions: seq<Prediction>, n: nat): Result<Predictions, GoldError>
    requires n <= |predictions|
  {
    if n == 0 then Ok(map[])
    else
      var before, p := Match(eligible, predictions, n - 1), predictions[n - 1];
      if before.Err? then before
      else if !HasGold(eligible, p.id) then Err(UnknownPrediction)
      else if p.id in before.value then Err(DuplicatePrediction)
      else Ok(before.value[p.id := p])
  }

  predicate AllPredicted(eligible: seq<Gold>, predictions: Predictions) {
    forall i | 0 <= i < |eligible| :: eligible[i].id in predictions
  }

  // ---------------------------------------------------------------------------------------
  // The whole evaluation
  // ---------------------------------------------------------------------------------------

  datatype Totals = Totals(overall: Counts, perLanguage: map<Language, Counts>)

  function CountsOf(perLanguage: map<Language, Counts>, language: Language): Counts {
    if language in perLanguage then perLanguage[language] else ZERO
  }

  /** The totals of the first `n` eligible records. */
  function Total(text: Text, eligible: seq<Gold>, predictions: Predictions, n: nat): Result<Totals, GoldError>
    requires n <= |eligible| && AllPredicted(eligible, predictions)
  {
    if n == 0 then Ok(Totals(ZERO, map[]))
    else
      var before, g := Total(text, eligible, predictions, n - 1), eligible[n - 1];
      if before.Err? then before
      else
        var counts := Score(text, g, predictions[g.id]);
        if counts.Err? then Err(counts.error)
        else
          var per := before.value.perLanguage;
          Ok(Totals(before.value.overall.Plus(counts.value), per[g.language := CountsOf(per, g.language).Plus(counts.value)]))
  }

  datatype Report = Report(eligible: nat, excluded: nat, totals: Totals)

  function Evaluate(text: Text, golds: seq<Gold>, predictions: seq<Prediction>, includeUnreviewed: bool): Result<Report, GoldError> {
    var cohort := Select(text, golds, includeUnreviewed, |golds|);
    if cohort.Err? then Err(cohort.error)
    else if cohort.value.eligible == [] then Err(NothingEligible)
    else
      var matched := Match(cohort.value.eligible, predictions, |predictions|);
      if matched.Err? then Err(matched.error)
      else if !AllPredicted(cohort.value.eligible, matched.value) then Err(MissingPrediction)
      else
        var totals := Total(text, cohort.value.eligible, matched.value, |cohort.value.eligible|);
        if totals.Err? then Err(totals.error) else Ok(Report(|cohort.value.eligible|, cohort.value.excluded, totals.value))
  }

  // ---------------------------------------------------------------------------------------
  // The evaluation as the code runs it
  // ---------------------------------------------------------------------------------------

  method ExtractClaims(text: Text, claims: seq<Claim>, document: string, isGold: bool) returns (result: Result<Extracted, GoldError>)
    ensures result == Extract(text, claims, document, isGold, |claims|)
  {
    var grounded: multiset<string> := multiset{};
    var ungrounded := 0;
    for i := 0 to |claims|
      invariant Extract(text, claims, document, isGold, i) == Ok(Extracted(grounded, ungrounded))
    {
      var c := claims[i];
      if text.blank(c.quote) {
        StaysErr(text, claims, document, isGold, i + 1, |claims|);
        return Err(BlankQuote);
      }
      var normalized := text.normalize(c.quote);
      if !(c.start.Absent? && c.end.Absent?) {
        if !c.start.At? || !c.end.At? {
          StaysErr(text, claims, document, isGold, i + 1, |claims|);
          return Err(MalformedSpan);
        }
        if !SpanResolves(text, document, c.start.value, c.end.value, normalized) {
          if isGold {
            StaysErr(text, claims, document, isGold, i + 1, |claims|);
            return Err(UnresolvedGoldSpan);
          }
          ungrounded := ungrounded + 1;
          continue;
        }
      }
      grounded := grounded + multiset{normalized};
    }
    return Ok(Extracted(grounded, ungrounded));
  }

  lemma {:induction false} StaysErr(text: Text, claims: seq<Claim>, document: string, isGold: bool, m: nat, n: nat)
    requires m <= n <= |claims| && Extract(text, claims, document, isGold, m).Err?
    ensures Extract(text, claims, document, isGold, n) == Extract(text, claims, document, isGold, m)
  {
    if m < n {
      StaysErr(text, claims, document, isGold, m, n - 1);
    }
  }

  method ValidateRecord(text: Text, g: Gold, includeUnreviewed: bool) returns (result: Result<bool, GoldError>)
    ensures result == ValidateGold(text, g, includeUnreviewed)
  {
    if g.id == "" {
      return Err(NoId);
    }
    if g.language.Unsupported? {
      return Err(UnsupportedLanguage);
    }
    if text.blank(g.document) {
      return Err(NoDocument);
    }
    var extracted := ExtractClaims(text, g.claims, g.document, true);
    if extracted.Err? {
      return Err(extracted.error);
    }
    if g.approved {
      var distinct := set r | r in g.reviewers;
      if |distinct| < 2 {
        return Err(TooFewReviewers);
      }
      return Ok(true);
    }
    return Ok(includeUnreviewed);
  }

  method SelectCohort(text: Text, golds: seq<Gold>, includeUnreviewed: bool) returns (result: Result<Cohort, GoldError>)
    ensures result == Select(text, golds, includeUnreviewed, |golds|)
  {
    hide ValidateGold;
    var eligible: seq<Gold> := [];
    var excluded := 0;
    for i := 0 to |golds|
      invariant Select(text, golds, includeUnreviewed, i) == Ok(Cohort(eligible, excluded))
    {
      var valid := ValidateRecord(text, golds[i], includeUnreviewed);
      if valid.Err? {
        SelectStaysErr(text, golds, includeUnreviewed, i + 1, |golds|);
        return Err(valid.error);
      }
      if valid.value {
        if HasGold(eligible, golds[i].id) {
          SelectStaysErr(text, golds, includeUnreviewed, i + 1, |golds|);
          return Err(DuplicateGold);
        }
        eligible := eligible + [golds[i]];
      } else {
        excluded := excluded + 1;
      }
    }
    return Ok(Cohort(eligible, excluded));
  }

  lemma {:induction false} SelectStaysErr(text: Text, golds: seq<Gold>, includeUnreviewed: bool, m: nat, n: nat)
    requires m <= n <= |golds| && Select(text, golds, includeUnreviewed, m).Err?
    ensures Select(text, golds, includeUnreviewed, n) == Select(text, golds, includeUnreviewed, m)
  {
    hide ValidateGold;
    if m < n {
      SelectStaysErr(text, golds, includeUnreviewed, m, n - 1);
    }
  }

  method MatchPredictions(eligible: seq<Gold>, predictions: seq<Prediction>) returns (result: Result<Predictions, GoldError>)
    ensures result == Match(eligible, predictions, |predictions|)
  {
    var matched: Predictions := map[];
    for i := 0 to |predictions|
      invariant Match(eligible, predictions, i) == Ok(matched)
    {
      var p := predictions[i];
      if !HasGold(eligible, p.id) {
        MatchStaysErr(eligible, predictions, i + 1, |predictions|);
        return Err(UnknownPrediction);
      }
      if p.id in matched {
        MatchStaysErr(eligible, predictions, i + 1, |predictions|);
        return Err(DuplicatePrediction);
      }
      matched := matched[p.id := p];
    }
    return Ok(matched);
  }

  lemma {:induction false} MatchStaysErr(eligible: seq<Gold>, predictions: seq<Prediction>, m: nat, n: nat)
    requires m <= n <= |predictions| && Match(eligible, predictions, m).Err?
    ensures Match(eligible, predictions, n) == Match(eligible, predictions, m)
  {
    if m < n {
      MatchStaysErr(eligible, predictions, m, n - 1);
    }
  }

  method EvaluateRecords(text: Text, golds: seq<Gold>, predictions: seq<Prediction>, includeUnreviewed: bool)
    returns (result: Result<Report, GoldError>)
    ensures result == Evaluate(text, golds, predictions, includeUnreviewed)
  {
    hide Select, Match, Extract, DocumentCounts;
    var cohort := SelectCohort(text, golds, includeUnreviewed);
    if cohort.Err? {
      return Err(cohort.error);
    }
    var eligible := cohort.value.eligible;
    if eligible == [] {
      return Err(NothingEligible);
    }
    var matched := MatchPredictions(eligible, predictions);
    if matched.Err? {
      return Err(matched.error);
    }
    if !AllPredicted(eligible, matched.value) {
      return Err(MissingPrediction);
    }
    var overall, per := ZERO, map[];
    for i := 0 to |eligible|
      invariant Total(text, eligible, matched.value, i) == Ok(Totals(overall, per))
    {
      var g := eligible[i];
      var expected := ExtractClaims(text, g.claims, g.document, true);
      if expected.Err? {
        TotalStaysErr(text, eligible, matched.value, i + 1, |eligible|);
        return Err(expected.error);
      }
      var predicted := ExtractClaims(text, matched.value[g.id].claims, g.document, false);
      if predicted.Err? {
        TotalStaysErr(text, eligible, matched.value, i + 1, |eligible|);
        return Err(predicted.error);
      }
      var counts := DocumentCounts(expected.value.grounded, predicted.value);
      per := per[g.language := CountsOf(per, g.language).Plus(counts)];
      overall := overall.Plus(counts);
    }
    return Ok(Report(|eligible|, cohort.value.excluded, Totals(overall, per)));
  }

  lemma {:induction false} TotalStaysErr(text: Text, eligible: seq<Gold>, predictions: Predictions, m: nat, n: nat)
    requires AllPredicted(eligible, predictions) && m <= n <= |eligible| && Total(text, eligible, predictions, m).Err?
    ensures Total(text, eligible, predictions, n) == Total(text, eligible, predictions, m)
  {
    hide Score;
    if m < n {
      TotalStaysErr(text, eligible, predictions, m, n - 1);
    }
  }
}
