/**
 * Grounding of model output (claim_extraction.py, `_validate_output_grounding`).
 *
 * Case folding and the two regular expressions are a parameter, the `Lexer`; everything the
 * check decides from their results is modelled.
 */
module Grounding {
  import opened Common

  datatype Location = Location(name: string, unlocode: Option<string>)

  datatype Quantity = Quantity(amount: string, unit: string, what: string)

  datatype Claim = Claim(text: string, claimant: Option<string>, occurred: Option<int>, location: Option<Location>,
                         quantities: seq<Quantity>, hedging: bool, quote: string)

  datatype Output = Output(claims: seq<Claim>, injectionSuspected: bool)

  datatype Lexer = Lexer(fold: string -> string, tokens: string -> set<string>, numbers: string -> set<string>)

  datatype GroundingError =
    | QuoteNotInDocument
    | ClaimantUnsupported
    | LocationUnsupported
    | UnlocodeUnsupported
    | NumberIntroduced
    | QuantityValueUnsupported
    | QuantityUnitUnsupported
    | NotMateriallySupported
    | NegationChanged

  const STOPWORDS: set<string> :=
    {"the", "and", "that", "this", "with", "from", "for", "was", "were", "has", "have", "had",
     "are", "but", "its", "into",
     "\U{03c3}\U{03c4}\U{03b7}\U{03bd}", "\U{03c3}\U{03c4}\U{03bf}\U{03bd}", "\U{03ba}\U{03b1}\U{03b9}",
     "bir", "ile", "ve",
     "\U{0645}\U{0646}", "\U{0641}\U{064a}", "\U{0639}\U{0644}\U{0649}"}

  const NEGATIONS: set<string> :=
    {"not", "no", "never", "without", "neither", "nor", "denied", "denies",
     "\U{03b4}\U{03b5}\U{03bd}", "\U{03c7}\U{03c9}\U{03c1}\U{03af}\U{03c2}", "\U{03bf}\U{03cd}\U{03c4}\U{03b5}",
     "de\U{011f}il", "yok", "olmadan",
     "\U{0644}\U{0627}", "\U{0644}\U{0645}", "\U{0644}\U{0646}", "\U{0644}\U{064a}\U{0633}", "\U{062f}\U{0648}\U{0646}"}

  predicate StartsAt(hay: string, needle: string, i: int) {
    0 <= i <= |hay| - |needle| && hay[i..i + |needle|] == needle
  }

  /** Python's `needle in hay` on strings. */
  predicate Contains(hay: string, needle: string) {
    exists i | 0 <= i <= |hay| :: StartsAt(hay, needle, i)
  }

  /** The claim's words that count: long enough and not a stop word. */
  function ClaimTokens(lexer: Lexer, claim: Claim): set<string> {
    set t | t in lexer.tokens(lexer.fold(claim.text)) && |t| >= 3 && t !in STOPWORDS
  }

  function QuoteTokens(lexer: Lexer, claim: Claim): set<string> {
    lexer.tokens(lexer.fold(claim.quote))
  }

  /** How many of `n` claim words the quote must share. */
  function RequiredOverlap(n: nat): nat {
    var third := if (n + 2) / 3 > 2 then (n + 2) / 3 else 2;
    if n < third then n else third
  }

  predicate ClaimantSupported(lexer: Lexer, claim: Claim) {
    claim.claimant.Some? && claim.claimant.value != "" ==> Contains(lexer.fold(claim.quote), lexer.fold(claim.claimant.value))
  }

  predicate PlaceSupported(lexer: Lexer, claim: Claim) {
    claim.location.Some? ==> Contains(lexer.fold(claim.quote), lexer.fold(claim.location.value.name))
  }

  predicate UnlocodeSupported(lexer: Lexer, claim: Claim) {
    claim.location.Some? && claim.location.value.unlocode.Some? && claim.location.value.unlocode.value != "" ==>
      Contains(lexer.fold(claim.quote), lexer.fold(claim.location.value.unlocode.value))
  }

  predicate QuantitySupported(lexer: Lexer, folded: string, quantity: Quantity) {
    Contains(folded, lexer.fold(quantity.amount)) && Contains(folded, lexer.fold(quantity.unit))
  }

  predicate QuantitiesSupported(lexer: Lexer, claim: Claim) {
    forall q | q in claim.quantities :: QuantitySupported(lexer, lexer.fold(claim.quote), q)
  }

  /** The quote says where, who and how much, as far as the claim does. */
  predicate DetailsSupported(lexer: Lexer, claim: Claim) {
    ClaimantSupported(lexer, claim) && PlaceSupported(lexer, claim) && UnlocodeSupported(lexer, claim) && QuantitiesSupported(lexer, claim)
  }

  predicate NumbersSupported(lexer: Lexer, claim: Claim) {
    lexer.numbers(lexer.fold(claim.text)) <= lexer.numbers(lexer.fold(claim.quote))
  }

  predicate Overlaps(lexer: Lexer, claim: Claim) {
    RequiredOverlap(|ClaimTokens(lexer, claim)|) <= |ClaimTokens(lexer, claim) * QuoteTokens(lexer, claim)|
  }

  predicate PolarityKept(lexer: Lexer, claim: Claim) {
    (ClaimTokens(lexer, claim) * NEGATIONS != {}) <==> (QuoteTokens(lexer, claim) * NEGATIONS != {})
  }

  predicate Grounded(lexer: Lexer, claim: Claim, document: string) {
    && Contains(document, claim.quote) && DetailsSupported(lexer, claim)
    && NumbersSupported(lexer, claim) && Overlaps(lexer, claim) && PolarityKept(lexer, claim)
  }

  /** The error of the first quantity that the quote does not support. */
  ghost predicate IsQuantityError(lexer: Lexer, claim: Claim, error: GroundingError) {
    var folded := lexer.fold(claim.quote);
    exists i | 0 <= i < |claim.quantities| ::
      && (forall j | 0 <= j < i :: QuantitySupported(lexer, folded, claim.quantities[j]))
      && !QuantitySupported(lexer, folded, claim.quantities[i])
      && error == if Contains(folded, lexer.fold(claim.quantities[i].amount)) then QuantityUnitUnsupported else QuantityValueUnsupported
  }

  /** Which error an ungrounded claim is refused with: each says what is wrong and what was still right. */
  ghost predicate IsClaimError(lexer: Lexer, claim: Claim, document: string, error: GroundingError) {
    match error
    case QuoteNotInDocument => !Contains(document, claim.quote)
    case ClaimantUnsupported => Contains(document, claim.quote) && !ClaimantSupported(lexer, claim)
    case LocationUnsupported => Contains(document, claim.quote) && ClaimantSupported(lexer, claim) && !PlaceSupported(lexer, claim)
    case UnlocodeUnsupported =>
      Contains(document, claim.quote) && ClaimantSupported(lexer, claim) && PlaceSupported(lexer, claim) && !UnlocodeSupported(lexer, claim)
    case NumberIntroduced =>
      && Contains(document, claim.quote) && ClaimantSupported(lexer, claim) && PlaceSupported(lexer, claim) && UnlocodeSupported(lexer, claim)
      && !NumbersSupported(lexer, claim)
    case NotMateriallySupported =>
      Contains(document, claim.quote) && DetailsSupported(lexer, claim) && NumbersSupported(lexer, claim) && !Overlaps(lexer, claim)
    case NegationChanged =>
      && Contains(document, claim.quote) && DetailsSupported(lexer, claim) && NumbersSupported(lexer, claim) && Overlaps(lexer, claim)
      && !PolarityKept(lexer, claim)
    case _ =>
      && Contains(document, claim.quote) && ClaimantSupported(lexer, claim) && PlaceSupported(lexer, claim) && UnlocodeSupported(lexer, claim)
      && NumbersSupported(lexer, claim) && IsQuantityError(lexer, claim, error)
  }

  method CheckQuantities(lexer: Lexer, claim: Claim) returns (error: Option<GroundingError>)
    ensures error.None? <==> QuantitiesSupported(lexer, claim)
    ensures error.Some? ==> error.value in {QuantityValueUnsupported, QuantityUnitUnsupported} && IsQuantityError(lexer, claim, error.value)
  {
    var folded := lexer.fold(claim.quote);
    for i := 0 to |claim.quantities|
      invariant forall j | 0 <= j < i :: QuantitySupported(lexer, folded, claim.quantities[j])
    {
      var quantity := claim.quantities[i];
      if !Contains(folded, lexer.fold(quantity.amount)) {
        assert !QuantitySupported(lexer, folded, quantity);
        return Some(QuantityValueUnsupported);
      }
      if !Contains(folded, lexer.fold(quantity.unit)) {
        assert !QuantitySupported(lexer, folded, quantity);
        return Some(QuantityUnitUnsupported);
      }
    }
    return None;
  }

  /** The checks of one claim, in the order the code raises them. */
  method CheckClaim(lexer: Lexer, claim: Claim, document: string) returns (error: Option<GroundingError>)
    ensures error.None? <==> Grounded(lexer, claim, document)
    ensures error.Some? ==> IsClaimError(lexer, claim, document, error.value)
  {
    hide Contains, QuantitySupported, ClaimTokens, QuoteTokens;
    if !Contains(document, claim.quote) {
      return Some(QuoteNotInDocument);
    }
    var folded := lexer.fold(claim.quote);
    if claim.claimant.Some? && claim.claimant.value != "" && !Contains(folded, lexer.fold(claim.claimant.value)) {
      return Some(ClaimantUnsupported);
    }
    if claim.location.Some? {
      if !Contains(folded, lexer.fold(claim.location.value.name)) {
        return Some(LocationUnsupported);
      }
      var unlocode := claim.location.value.unlocode;
      if unlocode.Some? && unlocode.value != "" && !Contains(folded, lexer.fold(unlocode.value)) {
        return Some(UnlocodeUnsupported);
      }
    }
    if !(lexer.numbers(lexer.fold(claim.text)) <= lexer.numbers(folded)) {
      return Some(NumberIntroduced);
    }
    var quantityError := CheckQuantities(lexer, claim);
    if quantityError.Some? {
      return quantityError;
    }
    var claimTokens, quoteTokens := ClaimTokens(lexer, claim), QuoteTokens(lexer, claim);
    if claimTokens != {} && |claimTokens * quoteTokens| < RequiredOverlap(|claimTokens|) {
      return Some(NotMateriallySupported);
    }
    if (claimTokens * NEGATIONS != {}) != (quoteTokens * NEGATIONS != {}) {
      return Some(NegationChanged);
    }
    return None;
  }

  predicate AllGrounded(lexer: Lexer, output: Output, document: string) {
    forall c | c in output.claims :: Grounded(lexer, c, document)
  }

  /** The error of the first claim that is not grounded. */
  ghost predicate IsFirstError(lexer: Lexer, output: Output, document: string, error: GroundingError) {
    exists i | 0 <= i < |output.claims| ::
      && (forall j | 0 <= j < i :: Grounded(lexer, output.claims[j], document))
      && !Grounded(lexer, output.claims[i], document) && IsClaimError(lexer, output.claims[i], document, error)
  }

  /** `_validate_output_grounding`: the first error over all claims, or none. */
  method ValidateOutput(lexer: Lexer, output: Output, document: string) returns (error: Option<GroundingError>)
    ensures error.None? <==> AllGrounded(lexer, output, document)
    ensures error.Some? ==> IsFirstError(lexer, output, document, error.value)
  {
    hide Grounded, IsClaimError;
    for i := 0 to |output.claims|
      invariant forall j | 0 <= j < i :: Grounded(lexer, output.claims[j], document)
    {
      error := CheckClaim(lexer, output.claims[i], document);
      if error.Some? {
        return;
      }
    }
    error := None;
  }

  /** A claim, and so an output, has one error only: the contracts leave no choice. */
  lemma FirstErrorIsUnique(lexer: Lexer, output: Output, document: string, error: GroundingError, error': GroundingError)
    requires IsFirstError(lexer, output, document, error) && IsFirstError(lexer, output, document, error')
    ensures error == error'
  {
    hide Contains, QuantitySupported, ClaimTokens, QuoteTokens, RequiredOverlap;
  }

  // ---------------------------------------------------------------------------------------
  // What the checks mean
  // ---------------------------------------------------------------------------------------

  lemma NegationsAreNotStopwords()
    ensures STOPWORDS !! NEGATIONS
  {
  }

  lemma RequiredOverlapBounds(n: nat)
    ensures n <= 3 * RequiredOverlap(n) && RequiredOverlap(n) <= n
    ensures 2 <= n ==> 2 <= RequiredOverlap(n)
    ensures 0 < n ==> 0 < RequiredOverlap(n)
  {
  }

  /** An accepted claim shares at least a third of its words with its quote, at least one, and two if it has two. */
  lemma OverlapIsMaterial(lexer: Lexer, claim: Claim, document: string)
    requires Grounded(lexer, claim, document)
    ensures var words, shared := |ClaimTokens(lexer, claim)|, |ClaimTokens(lexer, claim) * QuoteTokens(lexer, claim)|;
            words <= 3 * shared && (1 <= words ==> 1 <= shared) && (2 <= words ==> 2 <= shared)
  {
    hide Contains, ClaimTokens, QuoteTokens;
    RequiredOverlapBounds(|ClaimTokens(lexer, claim)|);
  }

  /**
   * The check is not reflexive.  A claim that repeats its quote word for word, with details that
   * the quote supports, is accepted exactly when the quote has no negation word, or has one of
   * at least three letters: the length filter hides short negations ("no") on the claim side only.
   */
  lemma VerbatimClaimAccepted(lexer: Lexer, claim: Claim, document: string)
    requires claim.text == claim.quote
    ensures Grounded(lexer, claim, document) <==>
              && Contains(document, claim.quote) && DetailsSupported(lexer, claim)
              && (QuoteTokens(lexer, claim) * NEGATIONS == {} || exists t | t in QuoteTokens(lexer, claim) :: t in NEGATIONS && |t| >= 3)
  {
    hide Contains, DetailsSupported;
    var tokens := QuoteTokens(lexer, claim);
    NegationsAreNotStopwords();
    LongNegations(tokens, STOPWORDS, NEGATIONS);
    assert ClaimTokens(lexer, claim) * tokens == ClaimTokens(lexer, claim);
    RequiredOverlapBounds(|ClaimTokens(lexer, claim)|);
  }

  lemma LongNegations(tokens: set<string>, stopwords: set<string>, negations: set<string>)
    requires stopwords !! negations
    ensures (set t | t in tokens && |t| >= 3 && t !in stopwords) * negations != {} <==>
              exists t | t in tokens :: t in negations && |t| >= 3
    ensures tokens * negations == {} ==> !exists t | t in tokens :: t in negations && |t| >= 3
  {
    if t :| t in tokens && t in negations && |t| >= 3 {
      assert t in (set u | u in tokens && |u| >= 3 && u !in stopwords) * negations;
      assert t in tokens * negations;
    }
  }

  /** The claim that repeats a quote and adds no details. */
  function Verbatim(quote: string): Claim {
    Claim(quote, None, None, None, [], false, quote)
  }

  lemma BerthIsAnOrdinaryWord()
    ensures "berth" !in STOPWORDS && "berth" !in NEGATIONS && "no" in NEGATIONS && "no" != "berth"
  {
  }

  lemma ContainsItself(text: string)
    ensures Contains(text, text)
  {
    assert StartsAt(text, text, 0);
  }

  /** Of one short negation and one ordinary word, the length filter keeps the word only. */
  lemma ShortNegationDropsOut(tokens: set<string>, short: string, long: string, stopwords: set<string>, negations: set<string>)
    requires tokens == {short, long} && |short| < 3 <= |long| && short in negations && long !in stopwords && long !in negations
    ensures var kept := set t | t in tokens && |t| >= 3 && t !in stopwords;
            |kept| == 1 == |kept * tokens| && kept * negations == {} && tokens * negations != {}
  {
    var kept := set t | t in tokens && |t| >= 3 && t !in stopwords;
    assert kept == {long} == kept * tokens;
    assert short in tokens * negations;
  }

  /** A claim that repeats a quote and only hides its negation is refused for just that. */
  lemma HiddenNegationRejected(lexer: Lexer, quote: string)
    requires var claim := Verbatim(quote);
             && |ClaimTokens(lexer, claim)| == 1 == |ClaimTokens(lexer, claim) * QuoteTokens(lexer, claim)|
             && ClaimTokens(lexer, claim) * NEGATIONS == {} && QuoteTokens(lexer, claim) * NEGATIONS != {}
    ensures !Grounded(lexer, Verbatim(quote), quote) && IsClaimError(lexer, Verbatim(quote), quote, NegationChanged)
  {
    hide Contains, ClaimTokens, QuoteTokens;
    ContainsItself(quote);
  }

  /** The input that fails: "no berth", quoted and claimed word for word, is refused for changing its polarity. */
  lemma VerbatimClaimRejected(lexer: Lexer)
    requires lexer.fold("no berth") == "no berth" && lexer.tokens("no berth") == {"no", "berth"} && lexer.numbers("no berth") == {}
    ensures !Grounded(lexer, Verbatim("no berth"), "no berth") && IsClaimError(lexer, Verbatim("no berth"), "no berth", NegationChanged)
  {
    hide Grounded, IsClaimError;
    BerthIsAnOrdinaryWord();
    ShortNegationDropsOut({"no", "berth"}, "no", "berth", STOPWORDS, NEGATIONS);
    HiddenNegationRejected(lexer, "no berth");
  }

  // ---------------------------------------------------------------------------------------
  // Exactly which claims are accepted
  // ---------------------------------------------------------------------------------------

  /** The needle stands somewhere in the hay. */
  ghost predicate Occurs(hay: string, needle: string) {
    exists i: nat, j: nat | i <= j <= |hay| :: hay[i..j] == needle
  }

  lemma ContainsExactly(hay: string, needle: string)
    ensures Contains(hay, needle) <==> Occurs(hay, needle)
  {
    if Contains(hay, needle) {
      var i :| 0 <= i <= |hay| && StartsAt(hay, needle, i);
      assert hay[i..i + |needle|] == needle;
    }
    if i: nat, j: nat :| i <= j <= |hay| && hay[i..j] == needle {
      assert StartsAt(hay, needle, i);
    }
  }

  /** Every name, code, value and unit that the claim gives stands in its quote, case apart. */
  ghost predicate DetailsOccur(lexer: Lexer, claim: Claim) {
    var folded := lexer.fold(claim.quote);
    && (claim.claimant.Some? && claim.claimant.value != "" ==> Occurs(folded, lexer.fold(claim.claimant.value)))
    && (claim.location.Some? ==>
          && Occurs(folded, lexer.fold(claim.location.value.name))
          && (claim.location.value.unlocode.Some? && claim.location.value.unlocode.value != "" ==>
                Occurs(folded, lexer.fold(claim.location.value.unlocode.value))))
    && forall i | 0 <= i < |claim.quantities| ::
         Occurs(folded, lexer.fold(claim.quantities[i].amount)) && Occurs(folded, lexer.fold(claim.quantities[i].unit))
  }

  lemma DetailsExactly(lexer: Lexer, claim: Claim)
    ensures DetailsSupported(lexer, claim) <==> DetailsOccur(lexer, claim)
  {
    hide Contains, Occurs;
    var folded := lexer.fold(claim.quote);
    forall needle ensures Contains(folded, needle) <==> Occurs(folded, needle) {
      ContainsExactly(folded, needle);
    }
    if DetailsSupported(lexer, claim) {
      forall i | 0 <= i < |claim.quantities| ensures QuantitySupported(lexer, folded, claim.quantities[i]) {
        assert claim.quantities[i] in claim.quantities;
      }
    }
  }

  /** The words of the claim that count: of three letters or more, and no stop words. */
  ghost function Words(lexer: Lexer, claim: Claim): set<string> {
    set t | t in lexer.tokens(lexer.fold(claim.text)) && |t| > 2 && t !in STOPWORDS
  }

  /** Some of the words is a negation. */
  ghost predicate Negates(words: set<string>) {
    exists t :: t in words && t in NEGATIONS
  }

  lemma NegatesExactly(words: set<string>, negations: set<string>)
    ensures words * negations != {} <==> exists t :: t in words && t in negations
  {
    if t :| t in words && t in negations {
      assert t in words * negations;
    }
  }

  /**
   * A claim is accepted exactly if its quote stands in the document, its details stand in the
   * quote, it has no number that the quote has not, the quote has at least a third of its words,
   * and two if it has two, and both negate or neither does.
   */
  lemma GroundedExactly(lexer: Lexer, claim: Claim, document: string)
    ensures var words, quoted := Words(lexer, claim), lexer.tokens(lexer.fold(claim.quote));
            var shared := |words * quoted|;
            Grounded(lexer, claim, document) <==>
              && Occurs(document, claim.quote) && DetailsOccur(lexer, claim)
              && (forall x | x in lexer.numbers(lexer.fold(claim.text)) :: x in lexer.numbers(lexer.fold(claim.quote)))
              && |words| <= 3 * shared && (|words| >= 1 ==> shared >= 1) && (|words| >= 2 ==> shared >= 2)
              && (Negates(words) <==> Negates(quoted))
  {
    hide Contains, Occurs, DetailsSupported, DetailsOccur;
    var words, quoted := Words(lexer, claim), lexer.tokens(lexer.fold(claim.quote));
    ContainsExactly(document, claim.quote);
    DetailsExactly(lexer, claim);
    assert ClaimTokens(lexer, claim) == words && QuoteTokens(lexer, claim) == quoted;
    NegatesExactly(words, NEGATIONS);
    NegatesExactly(quoted, NEGATIONS);
    hide ClaimTokens, QuoteTokens;
    OverlapExactly(|words|, |words * quoted|);
  }

  lemma OverlapExactly(n: nat, shared: nat)
    ensures RequiredOverlap(n) <= shared <==> n <= 3 * shared && (n >= 1 ==> shared >= 1) && (n >= 2 ==> shared >= 2)
  {
  }
}
