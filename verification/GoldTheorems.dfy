/** The promises of a reference-set report. */
module GoldTheorems {
  import opened Common
  import opened GoldEvaluation
  import opened GoldLaws
  import opened GoldReportLaws

  lemma {:induction false} SelectMembers(text: Text, golds: seq<Gold>, unreviewed: bool, n: nat)
    requires n <= |golds| && Select(text, golds, unreviewed, n).Ok?
    ensures forall g :: g in Select(text, golds, unreviewed, n).value.eligible <==> g in golds[..n] && IsEligible(text, unreviewed, g)
  {
    hide ValidateGold, HasGold;
    if n > 0 {
      SelectMembers(text, golds, unreviewed, n - 1);
      assert golds[..n] == golds[..n - 1] + [golds[n - 1]];
    }
  }

  lemma {:induction false} SelectSums(text: Text, golds: seq<Gold>, unreviewed: bool, n: nat, f: Gold -> Counts)
    requires n <= |golds| && Select(text, golds, unreviewed, n).Ok?
    requires forall g :: !IsEligible(text, unreviewed, g) ==> f(g) == ZERO
    ensures Sum(Select(text, golds, unreviewed, n).value.eligible, f) == Sum(golds[..n], f)
  {
    hide ValidateGold, HasGold, Sum;
    if n == 0 {
      assert golds[..0] == [];
    } else {
      SelectSums(text, golds, unreviewed, n - 1, f);
      assert golds[..n] == golds[..n - 1] + [golds[n - 1]];
      SumOneMore(golds[..n - 1], golds[n - 1], f);
      SumOneMore(Select(text, golds, unreviewed, n - 1).value.eligible, golds[n - 1], f);
    }
  }

  lemma {:induction false} SumAgrees<T>(s: seq<T>, f: T -> Counts, g: T -> Counts)
    requires forall i | 0 <= i < |s| :: f(s[i]) == g(s[i])
    ensures Sum(s, f) == Sum(s, g)
  {
    if s != [] {
      SumAgrees(s[..|s| - 1], f, g);
    }
  }

  /** A valid reference record scores exactly the well-formed predictions. */
  lemma ScoreOk(text: Text, unreviewed: bool, g: Gold, p: Prediction)
    requires ValidateGold(text, g, unreviewed).Ok?
    ensures Score(text, g, p).Ok? <==> ClaimsOk(text, g.document, false, p.claims, |p.claims|)
  {
    hide Extract, ClaimsOk;
    ExtractExactly(text, p.claims, g.document, false, |p.claims|);
  }

  /** The report adds up what the records contribute. */
  ghost predicate Summed(text: Text, golds: seq<Gold>, unreviewed: bool, predictions: seq<Prediction>, r: Report) {
    && r.eligible == Number(golds, Eligible(text, unreviewed)) && r.eligible + r.excluded == |golds|
    && r.totals.overall == Sum(golds, Contribution(text, unreviewed, predictions, None))
    && forall l :: SummedIn(text, golds, unreviewed, predictions, r, l)
  }

  ghost predicate SummedIn(text: Text, golds: seq<Gold>, unreviewed: bool, predictions: seq<Prediction>, r: Report, l: Language) {
    && CountsOf(r.totals.perLanguage, l) == Sum(golds, Contribution(text, unreviewed, predictions, Some(l)))
    && (l in r.totals.perLanguage <==> Number(golds, EligibleIn(text, unreviewed, l)) >= 1)
  }

  /** Predictions match the cohort exactly when they match the eligible records. */
  lemma MatchesCohort(text: Text, golds: seq<Gold>, unreviewed: bool, predictions: seq<Prediction>, cohort: Cohort)
    requires Selected(text, golds, unreviewed, cohort)
    ensures KnownAndDistinct(cohort.eligible, predictions) <==> PredictionsOk(text, golds, unreviewed, predictions)
  {
    hide Number, HasGold, IsEligible;
  }

  ghost predicate AllScored(text: Text, eligible: seq<Gold>, m: Predictions) {
    && AllPredicted(eligible, m)
    && forall j | 0 <= j < |eligible| :: Score(text, eligible[j], m[eligible[j].id]).Ok?
  }

  lemma ScoresCohort(text: Text, golds: seq<Gold>, unreviewed: bool, predictions: seq<Prediction>, eligible: seq<Gold>, m: Predictions)
    requires Matched(predictions, m)
    requires forall g :: g in eligible <==> g in golds && IsEligible(text, unreviewed, g)
    ensures AllScored(text, eligible, m) <==> forall i | 0 <= i < |golds| && IsEligible(text, unreviewed, golds[i]) :: IsPredicted(text, golds[i], predictions)
  {
    hide Number, ValidateGold, Score, ClaimsOk;
    forall g | g in eligible ensures IsPredicted(text, g, predictions) <==> g.id in m && Score(text, g, m[g.id]).Ok? {
      if g.id in m {
        ScoreOk(text, unreviewed, g, m[g.id]);
      }
    }
    if AllScored(text, eligible, m) {
      forall i | 0 <= i < |golds| && IsEligible(text, unreviewed, golds[i]) ensures IsPredicted(text, golds[i], predictions) {
        assert golds[i] in eligible;
        var j :| 0 <= j < |eligible| && eligible[j] == golds[i];
      }
    } else if forall i | 0 <= i < |golds| && IsEligible(text, unreviewed, golds[i]) :: IsPredicted(text, golds[i], predictions) {
      forall j | 0 <= j < |eligible| ensures eligible[j].id in m && Score(text, eligible[j], m[eligible[j].id]).Ok? {
        assert eligible[j] in golds;
        var i :| 0 <= i < |golds| && golds[i] == eligible[j];
      }
      assert false;
    }
  }

  lemma SumsOfCohort(text: Text, golds: seq<Gold>, unreviewed: bool, predictions: seq<Prediction>, m: Predictions, language: Option<Language>)
    requires Select(text, golds, unreviewed, |golds|).Ok? && Matched(predictions, m)
    ensures Sum(Select(text, golds, unreviewed, |golds|).value.eligible, ScoreIn(text, m, language))
            == Sum(golds, Contribution(text, unreviewed, predictions, language))
  {
    hide Number, Score, ValidateGold, Select, Sum;
    var eligible := Select(text, golds, unreviewed, |golds|).value.eligible;
    SelectMembers(text, golds, unreviewed, |golds|);
    assert golds[..|golds|] == golds;
    var f, h := ScoreIn(text, m, language), Contribution(text, unreviewed, predictions, language);
    forall i | 0 <= i < |eligible| ensures f(eligible[i]) == h(eligible[i]) {
      assert eligible[i] in eligible;
    }
    SumAgrees(eligible, f, h);
    SelectSums(text, golds, unreviewed, |golds|, h);
  }

  lemma LanguagesOfCohort(text: Text, golds: seq<Gold>, unreviewed: bool, l: Language)
    requires Select(text, golds, unreviewed, |golds|).Ok?
    ensures Occurs(Select(text, golds, unreviewed, |golds|).value.eligible, l) <==> Number(golds, EligibleIn(text, unreviewed, l)) >= 1
  {
    hide ValidateGold, Select, Sum;
    var eligible := Select(text, golds, unreviewed, |golds|).value.eligible;
    var p := EligibleIn(text, unreviewed, l);
    SelectMembers(text, golds, unreviewed, |golds|);
    assert golds[..|golds|] == golds;
    SelectSums(text, golds, unreviewed, |golds|, Indicator(p));
    NumberBasics(eligible, p);
    forall j | 0 <= j < |eligible| ensures p(eligible[j]) <==> eligible[j].language == l {
      assert eligible[j] in eligible;
    }
  }

  lemma TotalsAreSums(text: Text, golds: seq<Gold>, unreviewed: bool, predictions: seq<Prediction>, m: Predictions, r: Report)
    requires Select(text, golds, unreviewed, |golds|).Ok? && Matched(predictions, m)
    requires var cohort := Select(text, golds, unreviewed, |golds|).value;
             && |cohort.eligible| == Number(golds, Eligible(text, unreviewed)) && |cohort.eligible| + cohort.excluded == |golds|
             && r.eligible == |cohort.eligible| && r.excluded == cohort.excluded
             && Totalled(text, cohort.eligible, m, r.totals)
    ensures Summed(text, golds, unreviewed, predictions, r)
  {
    hide Select, Number, Sum, Occurs;
    var eligible := Select(text, golds, unreviewed, |golds|).value.eligible;
    SumsOfCohort(text, golds, unreviewed, predictions, m, None);
    forall l ensures SummedIn(text, golds, unreviewed, predictions, r, l) {
      SumsOfCohort(text, golds, unreviewed, predictions, m, Some(l));
      LanguagesOfCohort(text, golds, unreviewed, l);
      assert LanguageTotalled(text, eligible, m, r.totals.perLanguage, l);
    }
  }

  /**
   * An evaluation succeeds exactly on acceptable inputs, and then its totals are the sums of
   * what the reference records contribute, over all of them and language by language.
   */
  lemma EvaluateExactly(text: Text, golds: seq<Gold>, unreviewed: bool, predictions: seq<Prediction>)
    ensures var r := Evaluate(text, golds, predictions, unreviewed);
            && (r.Ok? <==> Acceptable(text, golds, unreviewed, predictions))
            && (r.Ok? ==> Summed(text, golds, unreviewed, predictions, r.value))
  {
    hide Select, Match, Total, KnownAndDistinct, PredictionsOk, GoldsOk, IsPredicted, Number, AllPredicted, Totalled, Summed;
    var selected := Select(text, golds, unreviewed, |golds|);
    SelectExactly(text, golds, unreviewed, |golds|);
    assert golds[..|golds|] == golds;
    if selected.Ok? {
      var eligible := selected.value.eligible;
      MatchExactly(eligible, predictions, |predictions|);
      assert predictions[..|predictions|] == predictions;
      MatchesCohort(text, golds, unreviewed, predictions, selected.value);
      var matched := Match(eligible, predictions, |predictions|);
      if matched.Ok? {
        SelectMembers(text, golds, unreviewed, |golds|);
        ScoresCohort(text, golds, unreviewed, predictions, eligible, matched.value);
        if AllPredicted(eligible, matched.value) {
          TotalExactly(text, eligible, matched.value, |eligible|);
          assert eligible[..|eligible|] == eligible;
          if Evaluate(text, golds, predictions, unreviewed).Ok? {
            TotalsAreSums(text, golds, unreviewed, predictions, matched.value, Evaluate(text, golds, predictions, unreviewed).value);
          }
        }
      }
    }
  }

  // ---------------------------------------------------------------------------------------
  // Order
  // ---------------------------------------------------------------------------------------

  lemma {:induction false} LookupFinds(predictions: seq<Prediction>, id: string)
    ensures var p := Lookup(predictions, id);
            && (p.Some? ==> p.value in predictions && p.value.id == id)
            && (p.None? ==> Number(predictions, WithId(id)) == 0)
  {
    if predictions != [] {
      LookupFinds(predictions[..|predictions| - 1], id);
    }
  }

  /** Two different places of a sequence cannot both satisfy a predicate that holds once. */
  lemma OnlyOnce<T>(s: seq<T>, p: T -> bool, i: nat, j: nat)
    requires Number(s, p) <= 1 && i < |s| && j < |s| && i != j && p(s[i])
    ensures !p(s[j])
  {
    var rest := s[..i] + s[i + 1..];
    SumWithout(s, Indicator(p), i);
    NumberBasics(rest, p);
    assert rest[if j < i then j else j - 1] == s[j];
  }

  lemma LookupPermutes(s: seq<Prediction>, t: seq<Prediction>, id: string)
    requires multiset(s) == multiset(t) && Number(s, WithId(id)) <= 1
    ensures Lookup(s, id) == Lookup(t, id)
  {
    hide Lookup, Number;
    LookupFinds(s, id);
    LookupFinds(t, id);
    SameElements(s, t);
    SameNumber(s, t, WithId(id));
    if Lookup(s, id).Some? {
      var i :| 0 <= i < |s| && s[i] == Lookup(s, id).value;
      NumberBasics(s, WithId(id));
      assert WithId(id)(s[i]);
      SameNumber(s, t, WithId(id));
      assert Lookup(t, id).Some?;
      var j :| 0 <= j < |s| && s[j] == Lookup(t, id).value;
      if i != j {
        OnlyOnce(s, WithId(id), i, j);
      }
    } else {
      SameNumber(s, t, WithId(id));
      NumberBasics(t, WithId(id));
    }
  }

  lemma SameNumber<T>(s: seq<T>, t: seq<T>, p: T -> bool)
    requires multiset(s) == multiset(t)
    ensures Number(s, p) == Number(t, p)
  {
    SumPermutes(s, t, Indicator(p));
  }

  lemma AcceptablePermutes(text: Text, golds: seq<Gold>, golds': seq<Gold>, unreviewed: bool, predictions: seq<Prediction>, predictions': seq<Prediction>)
    requires multiset(golds) == multiset(golds') && multiset(predictions) == multiset(predictions')
    requires Acceptable(text, golds, unreviewed, predictions)
    ensures Acceptable(text, golds', unreviewed, predictions')
  {
    hide ValidateGold, Number, Lookup, ClaimsOk;
    SameElements(golds, golds');
    SameElements(predictions, predictions');
    forall id ensures Number(golds, EligibleWith(text, unreviewed, id)) == Number(golds', EligibleWith(text, unreviewed, id)) {
      SameNumber(golds, golds', EligibleWith(text, unreviewed, id));
    }
    forall id ensures Number(predictions, WithId(id)) == Number(predictions', WithId(id)) && Lookup(predictions, id) == Lookup(predictions', id) {
      SameNumber(predictions, predictions', WithId(id));
      LookupPermutes(predictions, predictions', id);
    }
    SameNumber(golds, golds', Eligible(text, unreviewed));
    forall i | 0 <= i < |golds'| ensures ValidateGold(text, golds'[i], unreviewed).Ok? {
      assert golds'[i] in golds;
    }
    forall i | 0 <= i < |golds'| && IsEligible(text, unreviewed, golds'[i]) ensures IsPredicted(text, golds'[i], predictions') {
      assert golds'[i] in golds;
      var k :| 0 <= k < |golds| && golds[k] == golds'[i];
      assert IsPredicted(text, golds[k], predictions);
    }
    forall i | 0 <= i < |predictions'| ensures Number(golds', EligibleWith(text, unreviewed, predictions'[i].id)) >= 1 {
      assert predictions'[i] in predictions;
    }
  }

  lemma ContributionPermutes(text: Text, golds: seq<Gold>, golds': seq<Gold>, unreviewed: bool, predictions: seq<Prediction>, predictions': seq<Prediction>,
                             language: Option<Language>)
    requires multiset(golds) == multiset(golds') && multiset(predictions) == multiset(predictions')
    requires forall id :: Number(predictions, WithId(id)) <= 1
    ensures Sum(golds, Contribution(text, unreviewed, predictions, language)) == Sum(golds', Contribution(text, unreviewed, predictions', language))
  {
    hide ValidateGold, Number, Lookup, Score, Sum;
    var f, h := Contribution(text, unreviewed, predictions, language), Contribution(text, unreviewed, predictions', language);
    SumPermutes(golds, golds', f);
    forall i | 0 <= i < |golds'| ensures f(golds'[i]) == h(golds'[i]) {
      LookupPermutes(predictions, predictions', golds'[i].id);
    }
    SumAgrees(golds', f, h);
  }

  lemma SummedDetermines(text: Text, golds: seq<Gold>, golds': seq<Gold>, unreviewed: bool, predictions: seq<Prediction>, predictions': seq<Prediction>,
                         r: Report, r': Report)
    requires multiset(golds) == multiset(golds') && multiset(predictions) == multiset(predictions')
    requires forall id :: Number(predictions, WithId(id)) <= 1
    requires Summed(text, golds, unreviewed, predictions, r) && Summed(text, golds', unreviewed, predictions', r')
    ensures r == r'
  {
    hide Number, Sum, Contribution, EligibleIn, Eligible;
    SameElements(golds, golds');
    SameNumber(golds, golds', Eligible(text, unreviewed));
    ContributionPermutes(text, golds, golds', unreviewed, predictions, predictions', None);
    var per, per' := r.totals.perLanguage, r'.totals.perLanguage;
    forall l ensures (l in per <==> l in per') && CountsOf(per, l) == CountsOf(per', l) {
      SameNumber(golds, golds', EligibleIn(text, unreviewed, l));
      ContributionPermutes(text, golds, golds', unreviewed, predictions, predictions', Some(l));
      assert SummedIn(text, golds, unreviewed, predictions, r, l) && SummedIn(text, golds', unreviewed, predictions', r', l);
    }
    assert per == per' by {
      forall l | l in per ensures per[l] == per'[l] {
        assert CountsOf(per, l) == CountsOf(per', l);
      }
    }
  }

  /** The order of the records and of the predictions does not matter. */
  lemma OrderIsIrrelevant(text: Text, golds: seq<Gold>, golds': seq<Gold>, unreviewed: bool, predictions: seq<Prediction>, predictions': seq<Prediction>)
    requires multiset(golds) == multiset(golds') && multiset(predictions) == multiset(predictions')
    ensures var r, r' := Evaluate(text, golds, predictions, unreviewed), Evaluate(text, golds', predictions', unreviewed);
            (r.Ok? <==> r'.Ok?) && (r.Ok? ==> r == r')
  {
    hide Evaluate, Summed, GoldsOk, IsPredicted, IsEligible, Number;
    EvaluateExactly(text, golds, unreviewed, predictions);
    EvaluateExactly(text, golds', unreviewed, predictions');
    if Acceptable(text, golds, unreviewed, predictions) {
      AcceptablePermutes(text, golds, golds', unreviewed, predictions, predictions');
      SummedDetermines(text, golds, golds', unreviewed, predictions, predictions',
                       Evaluate(text, golds, predictions, unreviewed).value, Evaluate(text, golds', predictions', unreviewed).value);
    } else if Acceptable(text, golds', unreviewed, predictions') {
      AcceptablePermutes(text, golds', golds, unreviewed, predictions', predictions);
    }
  }

  // ---------------------------------------------------------------------------------------
  // Conservation and isolation
  // ---------------------------------------------------------------------------------------

  /** Overall and for every language the counts add up. */
  lemma ReportConserves(text: Text, golds: seq<Gold>, unreviewed: bool, predictions: seq<Prediction>, l: Language)
    requires Evaluate(text, golds, predictions, unreviewed).Ok?
    ensures var totals := Evaluate(text, golds, predictions, unreviewed).value.totals;
            Conserves(totals.overall) && Conserves(CountsOf(totals.perLanguage, l))
  {
    hide Evaluate, Acceptable, Number, Sum;
    EvaluateExactly(text, golds, unreviewed, predictions);
    assert SummedIn(text, golds, unreviewed, predictions, Evaluate(text, golds, predictions, unreviewed).value, l);
    ContributionsConserve(text, golds, unreviewed, predictions, None);
    ContributionsConserve(text, golds, unreviewed, predictions, Some(l));
  }

  lemma ContributionsConserve(text: Text, golds: seq<Gold>, unreviewed: bool, predictions: seq<Prediction>, language: Option<Language>)
    ensures Conserves(Sum(golds, Contribution(text, unreviewed, predictions, language)))
  {
    hide Sum, ValidateGold, Score, Lookup;
    var f := Contribution(text, unreviewed, predictions, language);
    forall i | 0 <= i < |golds| ensures Conserves(f(golds[i])) {
      var p := Lookup(predictions, golds[i].id);
      if p.Some? && Score(text, golds[i], p.value).Ok? {
        ScoreConserves(text, golds[i], p.value);
      }
    }
    SumConserves(golds, f);
  }

  function Quad(a: Counts, b: Counts, c: Counts, d: Counts): Counts {
    a.Plus(b).Plus(c).Plus(d)
  }

  lemma QuadPlus(a: Counts, b: Counts, c: Counts, d: Counts, a': Counts, b': Counts, c': Counts, d': Counts)
    ensures Quad(a, b, c, d).Plus(Quad(a', b', c', d')) == Quad(a.Plus(a'), b.Plus(b'), c.Plus(c'), d.Plus(d'))
  {
  }

  lemma QuadOfZeros()
    ensures Quad(ZERO, ZERO, ZERO, ZERO) == ZERO
  {
  }

  lemma {:induction false} SumOfFour<T>(s: seq<T>, f: T -> Counts, a: T -> Counts, b: T -> Counts, c: T -> Counts, d: T -> Counts)
    requires forall i | 0 <= i < |s| :: f(s[i]) == Quad(a(s[i]), b(s[i]), c(s[i]), d(s[i]))
    ensures Sum(s, f) == Quad(Sum(s, a), Sum(s, b), Sum(s, c), Sum(s, d))
  {
    hide Quad, Counts.Plus;
    if s == [] {
      QuadOfZeros();
    } else {
      var front, x := s[..|s| - 1], s[|s| - 1];
      assert f(x) == Quad(a(x), b(x), c(x), d(x));
      SumOfFour(front, f, a, b, c, d);
      QuadPlus(Sum(front, a), Sum(front, b), Sum(front, c), Sum(front, d), a(x), b(x), c(x), d(x));
    }
  }

  lemma ContributionSplits(text: Text, unreviewed: bool, predictions: seq<Prediction>, g: Gold)
    ensures Contribution(text, unreviewed, predictions, None)(g)
            == Quad(Contribution(text, unreviewed, predictions, Some(English))(g), Contribution(text, unreviewed, predictions, Some(Greek))(g),
                    Contribution(text, unreviewed, predictions, Some(Turkish))(g), Contribution(text, unreviewed, predictions, Some(Arabic))(g))
  {
    hide Score, Lookup, Extract;
    var c := Contribution(text, unreviewed, predictions, None)(g);
    assert Quad(c, ZERO, ZERO, ZERO) == c && Quad(ZERO, c, ZERO, ZERO) == c && Quad(ZERO, ZERO, c, ZERO) == c && Quad(ZERO, ZERO, ZERO, c) == c;
    hide Quad, Counts.Plus;
  }

  /** The overall counts are the sum of the counts of the four supported languages. */
  lemma OverallIsSumOfLanguages(text: Text, golds: seq<Gold>, unreviewed: bool, predictions: seq<Prediction>)
    requires Evaluate(text, golds, predictions, unreviewed).Ok?
    ensures var totals := Evaluate(text, golds, predictions, unreviewed).value.totals;
            var per := totals.perLanguage;
            totals.overall == Quad(CountsOf(per, English), CountsOf(per, Greek), CountsOf(per, Turkish), CountsOf(per, Arabic))
  {
    hide Evaluate, Acceptable, Number, Sum, Quad, Contribution, CountsOf;
    EvaluateExactly(text, golds, unreviewed, predictions);
    var r := Evaluate(text, golds, predictions, unreviewed).value;
    assert SummedIn(text, golds, unreviewed, predictions, r, English) && SummedIn(text, golds, unreviewed, predictions, r, Greek);
    assert SummedIn(text, golds, unreviewed, predictions, r, Turkish) && SummedIn(text, golds, unreviewed, predictions, r, Arabic);
    forall i | 0 <= i < |golds|
      ensures Contribution(text, unreviewed, predictions, None)(golds[i])
              == Quad(Contribution(text, unreviewed, predictions, Some(English))(golds[i]), Contribution(text, unreviewed, predictions, Some(Greek))(golds[i]),
                      Contribution(text, unreviewed, predictions, Some(Turkish))(golds[i]), Contribution(text, unreviewed, predictions, Some(Arabic))(golds[i]))
    {
      ContributionSplits(text, unreviewed, predictions, golds[i]);
    }
    SumOfFour(golds, Contribution(text, unreviewed, predictions, None),
              Contribution(text, unreviewed, predictions, Some(English)), Contribution(text, unreviewed, predictions, Some(Greek)),
              Contribution(text, unreviewed, predictions, Some(Turkish)), Contribution(text, unreviewed, predictions, Some(Arabic)));
  }

  lemma {:induction false} LookupOfOthers(predictions: seq<Prediction>, i: nat, p: Prediction, id: string)
    requires i < |predictions| && p.id == predictions[i].id && p.id != id
    ensures Lookup(predictions[i := p], id) == Lookup(predictions, id)
  {
    var changed := predictions[i := p];
    if i == |predictions| - 1 {
      assert changed[..i] == predictions[..i];
    } else {
      assert changed[..|predictions| - 1] == predictions[..|predictions| - 1][i := p];
      LookupOfOthers(predictions[..|predictions| - 1], i, p, id);
    }
  }

  /** Overall or in one language, changing one record's predictions exchanges exactly that record's contribution. */
  lemma OneContributionChanges(text: Text, golds: seq<Gold>, unreviewed: bool, predictions: seq<Prediction>, i: nat, p: Prediction, k: nat,
                               language: Option<Language>)
    requires i < |predictions| && p.id == predictions[i].id
    requires k < |golds| && IsEligible(text, unreviewed, golds[k]) && golds[k].id == p.id && GoldsOk(text, golds, unreviewed)
    ensures var f, h := Contribution(text, unreviewed, predictions, language), Contribution(text, unreviewed, predictions[i := p], language);
            Sum(golds, f).Plus(h(golds[k])) == Sum(golds, h).Plus(f(golds[k]))
  {
    hide Number, Sum, Score, Lookup, ValidateGold;
    var changed := predictions[i := p];
    var f, h := Contribution(text, unreviewed, predictions, language), Contribution(text, unreviewed, changed, language);
    var rest := golds[..k] + golds[k + 1..];
    SumWithout(golds, f, k);
    SumWithout(golds, h, k);
    forall j | 0 <= j < |rest| ensures f(rest[j]) == h(rest[j]) {
      var m := if j < k then j else j + 1;
      assert rest[j] == golds[m];
      if IsEligible(text, unreviewed, golds[m]) {
        OnlyOnce(golds, EligibleWith(text, unreviewed, p.id), k, m);
        LookupOfOthers(predictions, i, p, golds[m].id);
      }
    }
    SumAgrees(rest, f, h);
  }

  /**
   * Changing one record's predictions changes nothing outside that record's language; in its
   * language, and overall, it exchanges exactly the record's own contribution.
   */
  lemma OneRecordMovesOnlyItself(text: Text, golds: seq<Gold>, unreviewed: bool, predictions: seq<Prediction>, i: nat, p: Prediction, k: nat, l: Language)
    requires i < |predictions| && p.id == predictions[i].id
    requires k < |golds| && IsEligible(text, unreviewed, golds[k]) && golds[k].id == p.id
    requires Evaluate(text, golds, predictions, unreviewed).Ok? && Evaluate(text, golds, predictions[i := p], unreviewed).Ok?
    ensures var totals, totals' := Evaluate(text, golds, predictions, unreviewed).value.totals, Evaluate(text, golds, predictions[i := p], unreviewed).value.totals;
            var per, per' := CountsOf(totals.perLanguage, l), CountsOf(totals'.perLanguage, l);
            var was, becomes := Contribution(text, unreviewed, predictions, None)(golds[k]), Contribution(text, unreviewed, predictions[i := p], None)(golds[k]);
            && totals.overall.Plus(becomes) == totals'.overall.Plus(was)
            && if golds[k].language == l then per.Plus(becomes) == per'.Plus(was) else per == per'
  {
    hide Evaluate, Number, Sum, Score, Lookup, ValidateGold, PredictionsOk, IsPredicted, GoldsOk;
    var changed := predictions[i := p];
    EvaluateExactly(text, golds, unreviewed, predictions);
    EvaluateExactly(text, golds, unreviewed, changed);
    assert SummedIn(text, golds, unreviewed, predictions, Evaluate(text, golds, predictions, unreviewed).value, l);
    assert SummedIn(text, golds, unreviewed, changed, Evaluate(text, golds, changed, unreviewed).value, l);
    OneContributionChanges(text, golds, unreviewed, predictions, i, p, k, None);
    OneContributionChanges(text, golds, unreviewed, predictions, i, p, k, Some(l));
  }

  // ---------------------------------------------------------------------------------------
  // Per document against pooled
  // ---------------------------------------------------------------------------------------

  function Quotes(text: Text, claims: seq<Claim>, document: string, isGold: bool): multiset<string> {
    var extracted := Extract(text, claims, document, isGold, |claims|);
    if extracted.Ok? then extracted.value.grounded else multiset{}
  }

  /** The expected quotes of the first `n` records, pooled. */
  function PoolExpected(text: Text, eligible: seq<Gold>, n: nat): multiset<string>
    requires n <= |eligible|
  {
    if n == 0 then multiset{}
    else PoolExpected(text, eligible, n - 1) + Quotes(text, eligible[n - 1].claims, eligible[n - 1].document, true)
  }

  function PoolPredicted(text: Text, eligible: seq<Gold>, predictions: Predictions, n: nat): multiset<string>
    requires n <= |eligible| && AllPredicted(eligible, predictions)
  {
    if n == 0 then multiset{}
    else PoolPredicted(text, eligible, predictions, n - 1) + Quotes(text, predictions[eligible[n - 1].id].claims, eligible[n - 1].document, false)
  }

  // ---------------------------------------------------------------------------------------
  // What pooling would credit wrongly
  // ---------------------------------------------------------------------------------------

  /** The expected quotes of a record that its predictions miss. */
  function Missed(text: Text, g: Gold, p: Prediction): multiset<string> {
    Quotes(text, g.claims, g.document, true) - Quotes(text, p.claims, g.document, false)
  }

  /** The grounded predictions of a record that it does not expect. */
  function Wrong(text: Text, g: Gold, p: Prediction): multiset<string> {
    Quotes(text, p.claims, g.document, false) - Quotes(text, g.claims, g.document, true)
  }

  /** Quotes that cross between the `n`-th record and the pool of those before it: missed on one side, wrong on the other. */
  function Crossing(text: Text, eligible: seq<Gold>, predictions: Predictions, n: nat): nat
    requires n < |eligible| && AllPredicted(eligible, predictions)
  {
    var expected, predicted := PoolExpected(text, eligible, n), PoolPredicted(text, eligible, predictions, n);
    var g := eligible[n];
    |(expected - predicted) * Wrong(text, g, predictions[g.id])| + |Missed(text, g, predictions[g.id]) * (predicted - expected)|
  }

  function Crossings(text: Text, eligible: seq<Gold>, predictions: Predictions, n: nat): nat
    requires n <= |eligible| && AllPredicted(eligible, predictions)
  {
    if n == 0 then 0 else Crossings(text, eligible, predictions, n - 1) + Crossing(text, eligible, predictions, n - 1)
  }

  lemma PooledIntersection(a: multiset<string>, b: multiset<string>, c: multiset<string>, d: multiset<string>)
    ensures |(a + c) * (b + d)| == |a * b| + |c * d| + |(a - b) * (d - c)| + |(c - d) * (b - a)|
  {
    assert (a + c) * (b + d) == a * b + c * d + ((a - b) * (d - c) + (c - d) * (b - a));
  }

  /** Pooling credits what the documents credit one by one, and in addition exactly what crosses between documents. */
  lemma {:induction false} PoolingGainsWhatCrosses(text: Text, eligible: seq<Gold>, predictions: Predictions, n: nat)
    requires n <= |eligible| && AllPredicted(eligible, predictions) && Total(text, eligible, predictions, n).Ok?
    ensures |PoolExpected(text, eligible, n) * PoolPredicted(text, eligible, predictions, n)|
            == Total(text, eligible, predictions, n).value.overall.truePositive + Crossings(text, eligible, predictions, n)
  {
    hide Extract;
    if n > 0 {
      PoolingGainsWhatCrosses(text, eligible, predictions, n - 1);
      var g := eligible[n - 1];
      PooledIntersection(PoolExpected(text, eligible, n - 1), PoolPredicted(text, eligible, predictions, n - 1),
                         Quotes(text, g.claims, g.document, true), Quotes(text, predictions[g.id].claims, g.document, false));
    }
  }

  /** Scoring document by document never credits more than pooling the documents' quotes would. */
  lemma PoolingNeverScoresLower(text: Text, eligible: seq<Gold>, predictions: Predictions, n: nat)
    requires n <= |eligible| && AllPredicted(eligible, predictions) && Total(text, eligible, predictions, n).Ok?
    ensures Total(text, eligible, predictions, n).value.overall.truePositive
            <= |PoolExpected(text, eligible, n) * PoolPredicted(text, eligible, predictions, n)|
  {
    hide *;
    PoolingGainsWhatCrosses(text, eligible, predictions, n);
  }

  /** One of the first `n` records misses the quote. */
  predicate MissedBefore(text: Text, eligible: seq<Gold>, predictions: Predictions, n: nat, q: string)
    requires n <= |eligible| && AllPredicted(eligible, predictions)
  {
    exists i | 0 <= i < n :: q in Missed(text, eligible[i], predictions[eligible[i].id])
  }

  /** One of the first `n` records is wrongly predicted the quote. */
  predicate WrongBefore(text: Text, eligible: seq<Gold>, predictions: Predictions, n: nat, q: string)
    requires n <= |eligible| && AllPredicted(eligible, predictions)
  {
    exists i | 0 <= i < n :: q in Wrong(text, eligible[i], predictions[eligible[i].id])
  }

  /** Among the first `n` records, no quote is missed in one document and wrongly predicted in another. */
  ghost predicate NothingCrosses(text: Text, eligible: seq<Gold>, predictions: Predictions, n: nat)
    requires n <= |eligible| && AllPredicted(eligible, predictions)
  {
    forall q :: MissedBefore(text, eligible, predictions, n, q) ==> !WrongBefore(text, eligible, predictions, n, q)
  }

  /** The pool misses exactly what some document misses, and is wrong exactly where some document is. */
  ghost predicate PoolRemembers(text: Text, eligible: seq<Gold>, predictions: Predictions, n: nat)
    requires n <= |eligible| && AllPredicted(eligible, predictions)
  {
    var expected, predicted := PoolExpected(text, eligible, n), PoolPredicted(text, eligible, predictions, n);
    forall q ::
      && (q in expected - predicted <==> MissedBefore(text, eligible, predictions, n, q))
      && (q in predicted - expected <==> WrongBefore(text, eligible, predictions, n, q))
  }

  lemma OneMoreRecord(text: Text, eligible: seq<Gold>, predictions: Predictions, n: nat, q: string)
    requires n < |eligible| && AllPredicted(eligible, predictions)
    ensures var g := eligible[n];
            && (MissedBefore(text, eligible, predictions, n + 1, q) <==>
                  MissedBefore(text, eligible, predictions, n, q) || q in Missed(text, g, predictions[g.id]))
            && (WrongBefore(text, eligible, predictions, n + 1, q) <==>
                  WrongBefore(text, eligible, predictions, n, q) || q in Wrong(text, g, predictions[g.id]))
            && !(q in Missed(text, g, predictions[g.id]) && q in Wrong(text, g, predictions[g.id]))
  {
    hide Quotes;
    var g := eligible[n];
    assert !(q in Missed(text, g, predictions[g.id]) && q in Wrong(text, g, predictions[g.id]));
    hide Missed, Wrong;
  }

  /** A quote that does not cross keeps its side when two pools are joined. */
  lemma JoinPools(a: multiset<string>, b: multiset<string>, c: multiset<string>, d: multiset<string>, q: string)
    requires !(q in a - b && q in d - c) && !(q in c - d && q in b - a)
    ensures q in (a + c) - (b + d) <==> q in a - b || q in c - d
    ensures q in (b + d) - (a + c) <==> q in b - a || q in d - c
  {
  }

  lemma DisjointExactly(a: multiset<string>, b: multiset<string>)
    ensures |a * b| == 0 <==> forall q | q in a :: q !in b
  {
    if forall q | q in a :: q !in b {
      assert a * b == multiset{};
    } else {
      var q :| q in a && q in b;
      assert q in a * b;
    }
  }

  /** Nothing crosses between the pool of the first `n` records and the next one. */
  ghost predicate NextUncrossed(text: Text, eligible: seq<Gold>, predictions: Predictions, n: nat)
    requires n < |eligible| && AllPredicted(eligible, predictions)
  {
    var g := eligible[n];
    forall q ::
      && !(MissedBefore(text, eligible, predictions, n, q) && q in Wrong(text, g, predictions[g.id]))
      && !(q in Missed(text, g, predictions[g.id]) && WrongBefore(text, eligible, predictions, n, q))
  }

  lemma CrossingExactly(text: Text, eligible: seq<Gold>, predictions: Predictions, n: nat)
    requires n < |eligible| && AllPredicted(eligible, predictions) && PoolRemembers(text, eligible, predictions, n)
    ensures Crossing(text, eligible, predictions, n) == 0 <==> NextUncrossed(text, eligible, predictions, n)
  {
    hide PoolExpected, PoolPredicted, Missed, Wrong, MissedBefore, WrongBefore;
    var expected, predicted := PoolExpected(text, eligible, n), PoolPredicted(text, eligible, predictions, n);
    var g := eligible[n];
    DisjointExactly(expected - predicted, Wrong(text, g, predictions[g.id]));
    DisjointExactly(Missed(text, g, predictions[g.id]), predicted - expected);
  }

  lemma UncrossedExactly(text: Text, eligible: seq<Gold>, predictions: Predictions, n: nat)
    requires n < |eligible| && AllPredicted(eligible, predictions) && NothingCrosses(text, eligible, predictions, n)
    ensures NextUncrossed(text, eligible, predictions, n) <==> NothingCrosses(text, eligible, predictions, n + 1)
  {
    hide Missed, Wrong, MissedBefore, WrongBefore;
    var g, m := eligible[n], n + 1;
    if NextUncrossed(text, eligible, predictions, n) {
      forall q | MissedBefore(text, eligible, predictions, m, q) ensures !WrongBefore(text, eligible, predictions, m, q) {
        OneMoreRecord(text, eligible, predictions, n, q);
      }
    } else {
      var q :| || (MissedBefore(text, eligible, predictions, n, q) && q in Wrong(text, g, predictions[g.id]))
               || (q in Missed(text, g, predictions[g.id]) && WrongBefore(text, eligible, predictions, n, q));
      OneMoreRecord(text, eligible, predictions, n, q);
    }
  }

  lemma PoolStillRemembers(text: Text, eligible: seq<Gold>, predictions: Predictions, n: nat)
    requires n < |eligible| && AllPredicted(eligible, predictions)
    requires PoolRemembers(text, eligible, predictions, n) && NextUncrossed(text, eligible, predictions, n)
    ensures PoolRemembers(text, eligible, predictions, n + 1)
  {
    hide Quotes, MissedBefore, WrongBefore;
    var g := eligible[n];
    var e, p := Quotes(text, g.claims, g.document, true), Quotes(text, predictions[g.id].claims, g.document, false);
    var expected, predicted := PoolExpected(text, eligible, n), PoolPredicted(text, eligible, predictions, n);
    forall q
      ensures q in (expected + e) - (predicted + p) <==> MissedBefore(text, eligible, predictions, n + 1, q)
      ensures q in (predicted + p) - (expected + e) <==> WrongBefore(text, eligible, predictions, n + 1, q)
    {
      OneMoreRecord(text, eligible, predictions, n, q);
      JoinPools(expected, predicted, e, p, q);
    }
  }

  lemma {:induction false} CrossingsExactly(text: Text, eligible: seq<Gold>, predictions: Predictions, n: nat)
    requires n <= |eligible| && AllPredicted(eligible, predictions)
    ensures Crossings(text, eligible, predictions, n) == 0 <==> NothingCrosses(text, eligible, predictions, n)
    ensures NothingCrosses(text, eligible, predictions, n) ==> PoolRemembers(text, eligible, predictions, n)
  {
    hide Crossing, PoolRemembers, NothingCrosses, NextUncrossed;
    if n == 0 {
      NothingPooled(text, eligible, predictions);
    } else {
      CrossingsExactly(text, eligible, predictions, n - 1);
      if NothingCrosses(text, eligible, predictions, n - 1) {
        CrossingExactly(text, eligible, predictions, n - 1);
        UncrossedExactly(text, eligible, predictions, n - 1);
        if NextUncrossed(text, eligible, predictions, n - 1) {
          PoolStillRemembers(text, eligible, predictions, n - 1);
        }
      } else {
        CrossedStaysCrossed(text, eligible, predictions, n - 1);
      }
    }
  }

  lemma NothingPooled(text: Text, eligible: seq<Gold>, predictions: Predictions)
    requires AllPredicted(eligible, predictions)
    ensures NothingCrosses(text, eligible, predictions, 0) && PoolRemembers(text, eligible, predictions, 0)
  {
  }

  lemma CrossedStaysCrossed(text: Text, eligible: seq<Gold>, predictions: Predictions, n: nat)
    requires n < |eligible| && AllPredicted(eligible, predictions) && !NothingCrosses(text, eligible, predictions, n)
    ensures !NothingCrosses(text, eligible, predictions, n + 1)
  {
    hide MissedBefore, WrongBefore;
    var q :| MissedBefore(text, eligible, predictions, n, q) && WrongBefore(text, eligible, predictions, n, q);
    OneMoreRecord(text, eligible, predictions, n, q);
  }

  /** The pooled score is the honest one exactly if no quote is missed in one document and wrongly predicted in another. */
  lemma PoolingIsHonestExactly(text: Text, eligible: seq<Gold>, predictions: Predictions)
    requires AllPredicted(eligible, predictions) && Total(text, eligible, predictions, |eligible|).Ok?
    ensures |PoolExpected(text, eligible, |eligible|) * PoolPredicted(text, eligible, predictions, |eligible|)|
            == Total(text, eligible, predictions, |eligible|).value.overall.truePositive
            <==> NothingCrosses(text, eligible, predictions, |eligible|)
  {
    hide *;
    PoolingGainsWhatCrosses(text, eligible, predictions, |eligible|);
    CrossingsExactly(text, eligible, predictions, |eligible|);
  }

  predicate Unanchored(claims: seq<Claim>) {
    forall i | 0 <= i < |claims| :: claims[i].start.Absent? && claims[i].end.Absent?
  }

  /** Claims without offsets ground to every document alike. */
  lemma {:induction false} UnanchoredGroundAnywhere(text: Text, claims: seq<Claim>, document: string, document': string, isGold: bool, isGold': bool, n: nat)
    requires n <= |claims| && Unanchored(claims)
    ensures Extract(text, claims, document, isGold, n) == Extract(text, claims, document', isGold', n)
  {
    if n > 0 {
      UnanchoredGroundAnywhere(text, claims, document, document', isGold, isGold', n - 1);
    }
  }

  /**
   * Two documents with different quotes whose predictions were exchanged score nothing, whatever
   * their quotes are, while the pooled score would be perfect.
   */
  lemma PoolingHidesExchangedQuotes(text: Text, g: Gold, h: Gold)
    requires g.id != h.id && Unanchored(g.claims) && Unanchored(h.claims)
    requires Extract(text, g.claims, g.document, true, |g.claims|).Ok? && Extract(text, h.claims, h.document, true, |h.claims|).Ok?
    requires forall i, j | 0 <= i < |g.claims| && 0 <= j < |h.claims| :: text.normalize(g.claims[i].quote) != text.normalize(h.claims[j].quote)
    ensures var exchanged := map[g.id := Prediction(g.id, h.claims), h.id := Prediction(h.id, g.claims)];
            && Total(text, [g, h], exchanged, 2).Ok?
            && Total(text, [g, h], exchanged, 2).value.overall.truePositive == 0
            && |PoolExpected(text, [g, h], 2) * PoolPredicted(text, [g, h], exchanged, 2)| == |g.claims| + |h.claims|
  {
    hide Extract;
    UnanchoredGroundAnywhere(text, h.claims, h.document, g.document, true, false, |h.claims|);
    UnanchoredGroundAnywhere(text, g.claims, g.document, h.document, true, false, |g.claims|);
    ForeignQuotesScoreNothing(text, g, Prediction(g.id, h.claims));
    ForeignQuotesScoreNothing(text, h, Prediction(h.id, g.claims));
    ExtractExactly(text, g.claims, g.document, true, |g.claims|);
    ExtractExactly(text, h.claims, h.document, true, |h.claims|);
    var exchanged := map[g.id := Prediction(g.id, h.claims), h.id := Prediction(h.id, g.claims)];
    assert Total(text, [g, h], exchanged, 0).Ok?;
    assert Total(text, [g, h], exchanged, 1).Ok?;
    var a, b := Quotes(text, g.claims, g.document, true), Quotes(text, h.claims, h.document, true);
    assert PoolExpected(text, [g, h], 0) == multiset{} && PoolPredicted(text, [g, h], exchanged, 0) == multiset{};
    assert PoolExpected(text, [g, h], 1) == a && PoolPredicted(text, [g, h], exchanged, 1) == b;
    assert PoolExpected(text, [g, h], 2) == a + b && PoolPredicted(text, [g, h], exchanged, 2) == b + a;
    assert (a + b) * (b + a) == a + b;
  }
}
