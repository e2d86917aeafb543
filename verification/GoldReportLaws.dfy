/** What a reference-set report says: when there is one, and what its totals are sums of. */
module GoldReportLaws {
  import opened Common
  import opened GoldEvaluation
  import opened GoldLaws

  predicate IsEligible(text: Text, unreviewed: bool, g: Gold) {
    ValidateGold(text, g, unreviewed) == Ok(true)
  }

  function EligibleWith(text: Text, unreviewed: bool, id: string): Gold -> bool {
    (g: Gold) => IsEligible(text, unreviewed, g) && g.id == id
  }

  function EligibleIn(text: Text, unreviewed: bool, language: Language): Gold -> bool {
    (g: Gold) => IsEligible(text, unreviewed, g) && g.language == language
  }

  function Eligible(text: Text, unreviewed: bool): Gold -> bool {
    (g: Gold) => IsEligible(text, unreviewed, g)
  }

  function WithId(id: string): Prediction -> bool {
    (p: Prediction) => p.id == id
  }

  function Lookup(predictions: seq<Prediction>, id: string): Option<Prediction> {
    if predictions == [] then None
    else
      var earlier, last := Lookup(predictions[..|predictions| - 1], id), predictions[|predictions| - 1];
      if earlier.Some? then earlier else if last.id == id then Some(last) else None
  }

  /** What a record adds to the totals, or to the totals of one language. */
  function Contribution(text: Text, unreviewed: bool, predictions: seq<Prediction>, language: Option<Language>): Gold -> Counts {
    (g: Gold) =>
      var p := Lookup(predictions, g.id);
      if IsEligible(text, unreviewed, g) && (language.None? || g.language == language.value) && p.Some? && Score(text, g, p.value).Ok?
      then Score(text, g, p.value).value else ZERO
  }

  // ---------------------------------------------------------------------------------------
  // When an evaluation succeeds
  // ---------------------------------------------------------------------------------------

  ghost predicate GoldsOk(text: Text, golds: seq<Gold>, unreviewed: bool) {
    && (forall i | 0 <= i < |golds| :: ValidateGold(text, golds[i], unreviewed).Ok?)
    && (forall id :: Number(golds, EligibleWith(text, unreviewed, id)) <= 1)
  }

  ghost predicate PredictionsOk(text: Text, golds: seq<Gold>, unreviewed: bool, predictions: seq<Prediction>) {
    && (forall i | 0 <= i < |predictions| :: Number(golds, EligibleWith(text, unreviewed, predictions[i].id)) >= 1)
    && (forall id :: Number(predictions, WithId(id)) <= 1)
  }

  /** The record has a prediction, whose claims are well formed. */
  ghost predicate IsPredicted(text: Text, g: Gold, predictions: seq<Prediction>) {
    var p := Lookup(predictions, g.id);
    p.Some? && ClaimsOk(text, g.document, false, p.value.claims, |p.value.claims|)
  }

  ghost predicate Acceptable(text: Text, golds: seq<Gold>, unreviewed: bool, predictions: seq<Prediction>) {
    && GoldsOk(text, golds, unreviewed)
    && Number(golds, Eligible(text, unreviewed)) >= 1
    && PredictionsOk(text, golds, unreviewed, predictions)
    && forall i | 0 <= i < |golds| && IsEligible(text, unreviewed, golds[i]) :: IsPredicted(text, golds[i], predictions)
  }

  // ---------------------------------------------------------------------------------------
  // Selecting
  // ---------------------------------------------------------------------------------------

  /** The cohort is the eligible records, in order. */
  ghost predicate Selected(text: Text, golds: seq<Gold>, unreviewed: bool, cohort: Cohort) {
    && |cohort.eligible| + cohort.excluded == |golds|
    && |cohort.eligible| == Number(golds, Eligible(text, unreviewed))
    && (forall j | 0 <= j < |cohort.eligible| :: IsEligible(text, unreviewed, cohort.eligible[j]))
    && (forall id :: HasGold(cohort.eligible, id) <==> Number(golds, EligibleWith(text, unreviewed, id)) >= 1)
  }

  lemma {:induction false} SelectExactly(text: Text, golds: seq<Gold>, unreviewed: bool, n: nat)
    requires n <= |golds|
    ensures var r := Select(text, golds, unreviewed, n);
            && (r.Ok? <==> GoldsOk(text, golds[..n], unreviewed))
            && (r.Ok? ==> Selected(text, golds[..n], unreviewed, r.value))
  {
    hide ValidateGold, Number;
    if n == 0 {
      NoneSelected(text, unreviewed);
    } else {
      SelectExactly(text, golds, unreviewed, n - 1);
      var before, after, g := golds[..n - 1], golds[..n], golds[n - 1];
      assert after[..n - 1] == before;
      NumberStep(golds, Eligible(text, unreviewed), n - 1);
      forall id ensures Number(after, EligibleWith(text, unreviewed, id))
                        == Number(before, EligibleWith(text, unreviewed, id)) + if EligibleWith(text, unreviewed, id)(g) then 1 else 0
      {
        NumberStep(golds, EligibleWith(text, unreviewed, id), n - 1);
      }
      var r := Select(text, golds, unreviewed, n - 1);
      if r.Ok? && ValidateGold(text, g, unreviewed).Ok? {
        SelectStep(text, before, g, unreviewed, r.value, after);
      } else {
        assert !GoldsOk(text, after, unreviewed) by {
          if r.Err? {
            NotOkStays(text, before, g, unreviewed, after);
          } else {
            assert after[n - 1] == g;
          }
        }
      }
    }
  }

  lemma NoneSelected(text: Text, unreviewed: bool)
    ensures GoldsOk(text, [], unreviewed) && Selected(text, [], unreviewed, Cohort([], 0))
  {
  }

  lemma NotOkStays(text: Text, before: seq<Gold>, g: Gold, unreviewed: bool, after: seq<Gold>)
    requires !GoldsOk(text, before, unreviewed) && after == before + [g]
    requires forall id :: Number(after, EligibleWith(text, unreviewed, id))
                          == Number(before, EligibleWith(text, unreviewed, id)) + if EligibleWith(text, unreviewed, id)(g) then 1 else 0
    ensures !GoldsOk(text, after, unreviewed)
  {
    hide ValidateGold, Number, EligibleWith;
    if i :| 0 <= i < |before| && ValidateGold(text, before[i], unreviewed).Err? {
      assert after[i] == before[i];
    } else {
      var id :| Number(before, EligibleWith(text, unreviewed, id)) > 1;
      assert Number(after, EligibleWith(text, unreviewed, id)) > 1;
    }
  }

  lemma SelectStep(text: Text, before: seq<Gold>, g: Gold, unreviewed: bool, cohort: Cohort, after: seq<Gold>)
    requires GoldsOk(text, before, unreviewed) && Selected(text, before, unreviewed, cohort) && after == before + [g]
    requires ValidateGold(text, g, unreviewed).Ok?
    requires Number(after, Eligible(text, unreviewed)) == Number(before, Eligible(text, unreviewed)) + if IsEligible(text, unreviewed, g) then 1 else 0
    requires forall id :: Number(after, EligibleWith(text, unreviewed, id))
                          == Number(before, EligibleWith(text, unreviewed, id)) + if EligibleWith(text, unreviewed, id)(g) then 1 else 0
    ensures GoldsOk(text, after, unreviewed) <==> !(IsEligible(text, unreviewed, g) && HasGold(cohort.eligible, g.id))
    ensures !IsEligible(text, unreviewed, g) ==> Selected(text, after, unreviewed, cohort.(excluded := cohort.excluded + 1))
    ensures IsEligible(text, unreviewed, g) ==> Selected(text, after, unreviewed, cohort.(eligible := cohort.eligible + [g]))
  {
    hide ValidateGold, Number;
    if IsEligible(text, unreviewed, g) {
      var more := cohort.eligible + [g];
      forall id ensures HasGold(more, id) <==> HasGold(cohort.eligible, id) || g.id == id {
        OneMoreGold(cohort.eligible, g, id);
      }
      NumberBasics(before, EligibleWith(text, unreviewed, g.id));
      if HasGold(cohort.eligible, g.id) {
        assert EligibleWith(text, unreviewed, g.id)(g);
        assert Number(after, EligibleWith(text, unreviewed, g.id)) > 1;
      }
    }
  }

  lemma OneMoreGold(eligible: seq<Gold>, g: Gold, id: string)
    ensures HasGold(eligible + [g], id) <==> HasGold(eligible, id) || g.id == id
  {
    var more := eligible + [g];
    if HasGold(eligible, id) {
      var i :| 0 <= i < |eligible| && eligible[i].id == id;
      assert more[i].id == id;
    }
    if g.id == id {
      assert more[|eligible|].id == id;
    }
  }

  // ---------------------------------------------------------------------------------------
  // Matching predictions
  // ---------------------------------------------------------------------------------------

  ghost predicate KnownAndDistinct(eligible: seq<Gold>, predictions: seq<Prediction>) {
    && (forall i | 0 <= i < |predictions| :: HasGold(eligible, predictions[i].id))
    && (forall id :: Number(predictions, WithId(id)) <= 1)
  }

  /** The map holds the predictions by record. */
  ghost predicate Matched(predictions: seq<Prediction>, m: Predictions) {
    forall id :: (id in m <==> Number(predictions, WithId(id)) >= 1) && Lookup(predictions, id) == if id in m then Some(m[id]) else None
  }

  lemma {:induction false} MatchExactly(eligible: seq<Gold>, predictions: seq<Prediction>, n: nat)
    requires n <= |predictions|
    ensures var r := Match(eligible, predictions, n);
            && (r.Ok? <==> KnownAndDistinct(eligible, predictions[..n]))
            && (r.Ok? ==> Matched(predictions[..n], r.value))
  {
    hide Number, HasGold;
    if n == 0 {
      NoneMatched();
    } else {
      MatchExactly(eligible, predictions, n - 1);
      var before, after, p := predictions[..n - 1], predictions[..n], predictions[n - 1];
      assert after[..n - 1] == before && after == before + [p];
      forall id ensures Number(after, WithId(id)) == Number(before, WithId(id)) + if p.id == id then 1 else 0 {
        NumberStep(predictions, WithId(id), n - 1);
        assert WithId(id)(p) <==> p.id == id;
      }
      forall id ensures Number(before, WithId(id)) >= 0 {
        NumberBasics(before, WithId(id));
      }
      var r := Match(eligible, predictions, n - 1);
      if r.Ok? {
        MatchStep(eligible, before, p, r.value, after);
      } else {
        UnknownStays(eligible, before, p, after);
      }
    }
  }

  lemma NoneMatched()
    ensures forall eligible: seq<Gold> :: KnownAndDistinct(eligible, [])
    ensures Matched([], map[])
  {
  }

  lemma UnknownStays(eligible: seq<Gold>, before: seq<Prediction>, p: Prediction, after: seq<Prediction>)
    requires !KnownAndDistinct(eligible, before) && after == before + [p]
    requires forall id :: Number(after, WithId(id)) == Number(before, WithId(id)) + if p.id == id then 1 else 0
    ensures !KnownAndDistinct(eligible, after)
  {
    hide Number, HasGold, WithId;
    if i :| 0 <= i < |before| && !HasGold(eligible, before[i].id) {
      assert after[i] == before[i];
    } else {
      var id :| Number(before, WithId(id)) > 1;
      assert Number(after, WithId(id)) > 1;
    }
  }

  lemma MatchStep(eligible: seq<Gold>, before: seq<Prediction>, p: Prediction, m: Predictions, after: seq<Prediction>)
    requires KnownAndDistinct(eligible, before) && Matched(before, m) && after == before + [p]
    requires forall id :: Number(after, WithId(id)) == Number(before, WithId(id)) + if p.id == id then 1 else 0
    requires forall id :: Number(before, WithId(id)) >= 0
    ensures KnownAndDistinct(eligible, after) <==> HasGold(eligible, p.id) && p.id !in m
    ensures p.id !in m ==> Matched(after, m[p.id := p])
  {
    hide Number, HasGold, WithId;
    assert after[..|before|] == before;
    assert after[|before|] == p;
    forall id ensures Lookup(after, id) == if Lookup(before, id).Some? then Lookup(before, id) else if p.id == id then Some(p) else None {
    }
    if p.id in m {
      assert Number(after, WithId(p.id)) > 1;
    }
  }

  // ---------------------------------------------------------------------------------------
  // Totalling
  // ---------------------------------------------------------------------------------------

  /** What a record scores, overall or for one language. */
  function ScoreIn(text: Text, predictions: Predictions, language: Option<Language>): Gold -> Counts {
    (g: Gold) =>
      if (language.None? || g.language == language.value) && g.id in predictions && Score(text, g, predictions[g.id]).Ok?
      then Score(text, g, predictions[g.id]).value else ZERO
  }

  predicate Occurs(eligible: seq<Gold>, language: Language) {
    exists j | 0 <= j < |eligible| :: eligible[j].language == language
  }

  ghost predicate LanguageTotalled(text: Text, eligible: seq<Gold>, predictions: Predictions, per: map<Language, Counts>, l: Language) {
    (l in per <==> Occurs(eligible, l)) && CountsOf(per, l) == Sum(eligible, ScoreIn(text, predictions, Some(l)))
  }

  /** The totals are the sums of the scores, per language and overall, for the languages that occur. */
  ghost predicate Totalled(text: Text, eligible: seq<Gold>, predictions: Predictions, totals: Totals) {
    && totals.overall == Sum(eligible, ScoreIn(text, predictions, None))
    && forall l :: LanguageTotalled(text, eligible, predictions, totals.perLanguage, l)
  }

  lemma {:induction false} TotalExactly(text: Text, eligible: seq<Gold>, predictions: Predictions, n: nat)
    requires n <= |eligible| && AllPredicted(eligible, predictions)
    ensures var r := Total(text, eligible, predictions, n);
            && (r.Ok? <==> forall j | 0 <= j < n :: Score(text, eligible[j], predictions[eligible[j].id]).Ok?)
            && (r.Ok? ==> Totalled(text, eligible[..n], predictions, r.value))
  {
    hide Score, Totalled;
    if n == 0 {
      NothingTotalled(text, predictions);
    } else {
      TotalExactly(text, eligible, predictions, n - 1);
      var r, g := Total(text, eligible, predictions, n - 1), eligible[n - 1];
      if r.Ok? && Score(text, g, predictions[g.id]).Ok? {
        TotalStep(text, eligible[..n - 1], predictions, g, r.value, Score(text, g, predictions[g.id]).value);
        assert eligible[..n] == eligible[..n - 1] + [g];
      }
    }
  }

  lemma NothingTotalled(text: Text, predictions: Predictions)
    ensures Totalled(text, [], predictions, Totals(ZERO, map[]))
  {
  }

  lemma OneMoreOccurs(eligible: seq<Gold>, g: Gold, language: Language)
    ensures Occurs(eligible + [g], language) <==> Occurs(eligible, language) || g.language == language
  {
    var more := eligible + [g];
    if Occurs(eligible, language) {
      var i :| 0 <= i < |eligible| && eligible[i].language == language;
      assert more[i].language == language;
    }
    if g.language == language {
      assert more[|eligible|].language == language;
    }
  }

  lemma SumOneMore<T>(s: seq<T>, x: T, f: T -> Counts)
    ensures Sum(s + [x], f) == Sum(s, f).Plus(f(x))
  {
    assert (s + [x])[..|s|] == s;
  }

  lemma LanguageStep(text: Text, before: seq<Gold>, predictions: Predictions, g: Gold, per: map<Language, Counts>, counts: Counts, l: Language)
    requires LanguageTotalled(text, before, predictions, per, l)
    requires g.id in predictions && Score(text, g, predictions[g.id]) == Ok(counts)
    ensures LanguageTotalled(text, before + [g], predictions, per[g.language := CountsOf(per, g.language).Plus(counts)], l)
  {
    hide Score, Sum, Occurs, Counts.Plus;
    var f := ScoreIn(text, predictions, Some(l));
    OneMoreOccurs(before, g, l);
    SumOneMore(before, g, f);
    PlusZero(CountsOf(per, l));
    assert f(g) == if g.language == l then counts else ZERO;
  }

  lemma PlusZero(c: Counts)
    ensures c.Plus(ZERO) == c
  {
  }

  lemma TotalStep(text: Text, before: seq<Gold>, predictions: Predictions, g: Gold, totals: Totals, counts: Counts)
    requires Totalled(text, before, predictions, totals)
    requires g.id in predictions && Score(text, g, predictions[g.id]) == Ok(counts)
    ensures var per := totals.perLanguage;
            Totalled(text, before + [g], predictions,
                     Totals(totals.overall.Plus(counts), per[g.language := CountsOf(per, g.language).Plus(counts)]))
  {
    hide Score, Sum, LanguageTotalled;
    SumOneMore(before, g, ScoreIn(text, predictions, None));
    var per := totals.perLanguage[g.language := CountsOf(totals.perLanguage, g.language).Plus(counts)];
    var after := before + [g];
    forall l ensures LanguageTotalled(text, after, predictions, per, l) {
      LanguageStep(text, before, predictions, g, totals.perLanguage, counts, l);
    }
  }
}
