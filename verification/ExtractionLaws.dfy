/** The life of an extraction run, over every document and every list of provider replies. */
module ExtractionLaws {
  import opened Common
  import opened Lines
  import opened Grounding
  import opened Segmentation
  import opened SegmentationLaws
  import opened ExtractionRun

  ghost predicate Distinct(claims: seq<Claim>) {
    forall i, j | 0 <= i < j < |claims| :: claims[i] != claims[j]
  }

  /** Position of the first `claim` in `claims`. */
  function FirstIndex(claims: seq<Claim>, claim: Claim): (i: nat)
    requires claim in claims
    ensures i < |claims| && claims[i] == claim && claim !in claims[..i]
  {
    if claims[0] == claim then 0 else 1 + FirstIndex(claims[1..], claim)
  }

  ghost predicate InOrderOfAppearance(kept: seq<Claim>, claims: seq<Claim>) {
    && (forall c | c in kept :: c in claims)
    && forall i, j | 0 <= i < j < |kept| :: FirstIndex(claims, kept[i]) < FirstIndex(claims, kept[j])
  }

  /** De-duplication keeps every claim once, in the order of first appearance. */
  lemma {:induction false} FirstOccurrencesLaws(claims: seq<Claim>)
    ensures Distinct(FirstOccurrences(claims))
    ensures forall c :: c in FirstOccurrences(claims) <==> c in claims
    ensures InOrderOfAppearance(FirstOccurrences(claims), claims)
  {
    if claims != [] {
      var front, last := claims[..|claims| - 1], claims[|claims| - 1];
      FirstOccurrencesLaws(front);
      var earlier, kept := FirstOccurrences(front), FirstOccurrences(claims);
      assert claims == front + [last];
      forall c ensures c in kept <==> c in claims {
        assert c in claims <==> c in front || c == last;
      }
      forall c | c in front ensures FirstIndex(claims, c) == FirstIndex(front, c) {
        FirstIndexExtends(front, last, c);
      }
      forall i, j | 0 <= i < j < |kept| ensures FirstIndex(claims, kept[i]) < FirstIndex(claims, kept[j]) {
        if j < |earlier| {
          assert kept[i] == earlier[i] && kept[j] == earlier[j];
          assert kept[i] in front && kept[j] in front;
          assert FirstIndex(front, earlier[i]) < FirstIndex(front, earlier[j]);
        } else {
          assert kept[i] == earlier[i] && kept[i] in front && kept[j] == last && last !in front;
          assert FirstIndex(claims, kept[i]) < |front|;
          assert claims[FirstIndex(claims, last)] == last;
        }
      }
    }
  }

  lemma {:induction false} FirstIndexExtends(front: seq<Claim>, last: Claim, c: Claim)
    requires c in front
    ensures FirstIndex(front + [last], c) == FirstIndex(front, c)
  {
    if front[0] != c {
      assert (front + [last])[1..] == front[1..] + [last];
      FirstIndexExtends(front[1..], last, c);
    }
  }

  /** What the run record says about itself. */
  ghost predicate Lawful(document: string, limits: Limits, run: Run) {
    && (run.status != Running)
    && (run.error != Some(CoverageIncomplete) && run.error != Some(ProposalQuoteMissing))
    && (run.status != Succeeded ==> run.proposals == [])
    && (run.status == Succeeded ==>
              && run.processedChars == |document| && run.coverageComplete && !run.injectionSuspected && run.error.None?
              && |run.proposals| <= limits.maxProposals)
    && (run.injectionSuspected ==> run.status == Skipped)
    && (run.status == Failed <==> run.error.Some? && run.error != Some(SegmentLimitExceeded))
    && (run.processedChars <= |document|)
  }

  /**
   * What a succeeded run proposes: for the document's segmentation, each proposal lies inside the
   * segment that it names and slices the document to its quote, and the proposed claims are the
   * first occurrences of the replies' claims, in order.
   */
  ghost predicate Proposes(document: string, limits: Limits, provider: nat -> Reply, segments: seq<Segment>, proposals: seq<Proposal>) {
    var claims := AllClaims(Replies(provider, |segments|));
    && LegalSizes(limits.maxChars, limits.overlapChars)
    && IsSegmentation(document, limits.maxChars, limits.overlapChars, segments)
    && AllLocated(document, segments, proposals) && (forall p | p in proposals :: p.start + |p.claim.quote| == p.end)
    && Distinct(ClaimsOf(proposals)) && InOrderOfAppearance(ClaimsOf(proposals), claims) && forall c | c in claims :: c in ClaimsOf(proposals)
  }

  /**
   * The lifecycle law.  A succeeded run has read the whole document and its proposals are the
   * located, pairwise distinct first occurrences of the provider's claims, in order; a skipped or
   * failed run has none; and the two internal errors of the success path cannot be the outcome.
   */
  lemma RunLifecycle(document: string, lexer: Lexer, limits: Limits, provider: nat -> Reply, run: Run)
    requires Completed(document, lexer, limits, provider, run)
    ensures Lawful(document, limits, run)
    ensures run.status == Succeeded ==> exists segments :: Proposes(document, limits, provider, segments, run.proposals)
  {
    hide Ends, IsSegmentation, Lawful, Proposes;
    var segments :| IsSegmentation(document, limits.maxChars, limits.overlapChars, segments)
                    && Ends(document, lexer, limits, segments, Replies(provider, |segments|), run);
    SegmentsEndInside(document, limits, segments);
    EndingLaws(document, lexer, limits, segments, Replies(provider, |segments|), run);
    if run.status == Succeeded {
      EndsInSuccess(document, lexer, limits, segments, Replies(provider, |segments|), run);
      FirstOccurrencesProposed(document, limits, provider, segments, run.proposals);
    }
  }

  lemma SegmentsEndInside(document: string, limits: Limits, segments: seq<Segment>)
    requires LegalSizes(limits.maxChars, limits.overlapChars)
    requires IsSegmentation(document, limits.maxChars, limits.overlapChars, segments)
    ensures forall i | 0 <= i < |segments| :: segments[i].end <= |document|
  {
    hide IsCut;
  }

  lemma FirstOccurrencesProposed(document: string, limits: Limits, provider: nat -> Reply, segments: seq<Segment>, proposals: seq<Proposal>)
    requires LegalSizes(limits.maxChars, limits.overlapChars)
    requires IsSegmentation(document, limits.maxChars, limits.overlapChars, segments)
    requires AllLocated(document, segments, proposals) && ClaimsOf(proposals) == FirstOccurrences(AllClaims(Replies(provider, |segments|)))
    ensures Proposes(document, limits, provider, segments, proposals)
  {
    hide IsSegmentation, Distinct, InOrderOfAppearance, AllClaims, FirstOccurrences, Replies, ClaimsOf;
    FirstOccurrencesLaws(AllClaims(Replies(provider, |segments|)));
    forall p | p in proposals ensures p.start + |p.claim.quote| == p.end {
      assert Located(document, segments, p);
    }
  }

  lemma EndingLaws(document: string, lexer: Lexer, limits: Limits, segments: seq<Segment>, replies: seq<Reply>, run: Run)
    requires |replies| == |segments| && Ends(document, lexer, limits, segments, replies, run)
    requires forall i | 0 <= i < |segments| :: segments[i].end <= |document|
    ensures Lawful(document, limits, run)
  {
    hide AllClaims, FirstOccurrences, AllLocated, IsFirstError;
    if run.status == Succeeded {
      assert |ClaimsOf(run.proposals)| == |run.proposals|;
    }
  }

  /** The segments a run used are the document's only segmentation. */
  lemma EndsWith(document: string, lexer: Lexer, limits: Limits, segments: seq<Segment>, provider: nat -> Reply, run: Run)
    requires LegalSizes(limits.maxChars, limits.overlapChars)
    requires IsSegmentation(document, limits.maxChars, limits.overlapChars, segments)
    requires Completed(document, lexer, limits, provider, run)
    ensures Ends(document, lexer, limits, segments, Replies(provider, |segments|), run)
  {
    var used :| IsSegmentation(document, limits.maxChars, limits.overlapChars, used)
                && Ends(document, lexer, limits, used, Replies(provider, |used|), run);
    SegmentationUnique(document, limits.maxChars, limits.overlapChars, used, segments);
  }

  /**
   * Success is exactly this: few enough segments, every reply clean, few enough distinct claims.
   * One ungrounded claim, one injection flag or one provider failure anywhere prevents it.
   */
  lemma SucceedsExactlyWhen(document: string, lexer: Lexer, limits: Limits, segments: seq<Segment>, provider: nat -> Reply, run: Run)
    requires LegalSizes(limits.maxChars, limits.overlapChars)
    requires IsSegmentation(document, limits.maxChars, limits.overlapChars, segments)
    requires Completed(document, lexer, limits, provider, run)
    ensures run.status == Succeeded <==>
              && |segments| <= limits.maxSegments
              && (forall i | 0 <= i < |segments| :: IsClean(lexer, segments[i], provider(i)))
              && |FirstOccurrences(AllClaims(Replies(provider, |segments|)))| <= limits.maxProposals
  {
    hide Ends, IsSegmentation, Completed, IsClean, AllClaims, FirstOccurrences;
    EndsWith(document, lexer, limits, segments, provider, run);
    EndsInSuccess(document, lexer, limits, segments, Replies(provider, |segments|), run);
  }

  lemma EndsInSuccess(document: string, lexer: Lexer, limits: Limits, segments: seq<Segment>, replies: seq<Reply>, run: Run)
    requires |replies| == |segments| && Ends(document, lexer, limits, segments, replies, run)
    ensures run.status == Succeeded <==>
              && |segments| <= limits.maxSegments
              && (forall i | 0 <= i < |segments| :: IsClean(lexer, segments[i], replies[i]))
              && |FirstOccurrences(AllClaims(replies))| <= limits.maxProposals
    ensures run.status == Succeeded ==>
              ClaimsOf(run.proposals) == FirstOccurrences(AllClaims(replies)) && AllLocated(document, segments, run.proposals)
  {
    hide AllLocated, FirstOccurrences, AllClaims, IsFirstError;
  }

  /** Every claim of a succeeded run's replies is proposed, and nothing else is. */
  lemma NothingDroppedNothingInvented(document: string, lexer: Lexer, limits: Limits, segments: seq<Segment>, provider: nat -> Reply, run: Run, claim: Claim)
    requires LegalSizes(limits.maxChars, limits.overlapChars)
    requires IsSegmentation(document, limits.maxChars, limits.overlapChars, segments)
    requires Completed(document, lexer, limits, provider, run) && run.status == Succeeded
    ensures claim in ClaimsOf(run.proposals) <==>
              exists i | 0 <= i < |segments| :: provider(i).Replied? && claim in provider(i).output.claims
  {
    EndsWith(document, lexer, limits, segments, provider, run);
    EndsInSuccess(document, lexer, limits, segments, Replies(provider, |segments|), run);
    FirstOccurrencesLaws(AllClaims(Replies(provider, |segments|)));
    AllClaimsMember(provider, |segments|, claim);
  }

  lemma {:induction false} AllClaimsMember(provider: nat -> Reply, n: nat, claim: Claim)
    ensures claim in AllClaims(Replies(provider, n)) <==>
              exists i | 0 <= i < n :: provider(i).Replied? && claim in provider(i).output.claims
  {
    if n > 0 {
      AllClaimsMember(provider, n - 1, claim);
      assert Replies(provider, n)[..n - 1] == Replies(provider, n - 1);
    }
  }

  // ---------------------------------------------------------------------------------------
  // Which runs are started and how they end
  // ---------------------------------------------------------------------------------------

  /**
   * A document is taken up exactly if its source is active and effectively approved by somebody, it
   * is not quarantined and not blank, and the sizes are legal.
   */
  lemma AdmittedExactly(document: string, source: Source, quarantined: bool, now: int, limits: Limits)
    ensures Admissible(document, source, quarantined, now, limits) <==>
              && source.active && source.approvedAt.Some? && source.approvedAt.value <= now && source.approvedBy != ""
              && !quarantined && (exists c | c in document :: !IsSpace(c))
              && limits.maxChars > 0 && 0 <= 4 * limits.overlapChars <= limits.maxChars
  {
  }

  /** The provider answered the segment, without a flag and with grounded claims only. */
  ghost predicate IsGoodReply(lexer: Lexer, segment: Segment, reply: Reply) {
    reply.Replied? && !reply.output.injectionSuspected && forall c | c in reply.output.claims :: Grounded(lexer, c, segment.text)
  }

  /** The first segment without a good reply. */
  ghost predicate IsFirstBad(lexer: Lexer, segments: seq<Segment>, provider: nat -> Reply, n: nat) {
    n < |segments| && !IsGoodReply(lexer, segments[n], provider(n)) && forall i | 0 <= i < n :: IsGoodReply(lexer, segments[i], provider(i))
  }

  /**
   * How a run ends.  Too many segments: skipped before anything is sent.  A first bad reply: failed
   * before its segment if the provider raised; skipped as suspected injection if it is flagged; else failed
   * for the error of its first ungrounded claim.  All replies good: failed if there are too many distinct
   * claims, and otherwise succeeded.  What was sent is recorded as processed.
   */
  lemma OutcomeExactly(document: string, lexer: Lexer, limits: Limits, segments: seq<Segment>, provider: nat -> Reply, run: Run, n: nat)
    requires LegalSizes(limits.maxChars, limits.overlapChars)
    requires IsSegmentation(document, limits.maxChars, limits.overlapChars, segments)
    requires Completed(document, lexer, limits, provider, run)
    ensures |segments| > limits.maxSegments ==> run == Run(Skipped, 0, false, false, Some(SegmentLimitExceeded), [])
    ensures |segments| <= limits.maxSegments && IsFirstBad(lexer, segments, provider, n) ==>
              if provider(n).Raised? then run == Run(Failed, if n == 0 then 0 else segments[n - 1].end, false, false, Some(ProviderFailed), [])
              else if provider(n).output.injectionSuspected then run == Run(Skipped, segments[n].end, segments[n].end == |document|, true, None, [])
              else
                && run.status == Failed && run.processedChars == segments[n].end && !run.coverageComplete && !run.injectionSuspected && run.proposals == []
                && run.error.Some? && run.error.value.Ungrounded?
                && IsFirstError(lexer, provider(n).output, segments[n].text, run.error.value.cause)
    ensures |segments| <= limits.maxSegments && (forall i | 0 <= i < |segments| :: IsGoodReply(lexer, segments[i], provider(i))) ==>
              run.processedChars == |document|
              && run.status == (if |FirstOccurrences(AllClaims(Replies(provider, |segments|)))| > limits.maxProposals then Failed else Succeeded)
              && (run.status == Failed ==> run.error == Some(ProposalLimitExceeded))
  {
    hide IsSegmentation, AllClaims, FirstOccurrences, IsFirstError, Grounded, AllLocated, Completed;
    EndsWith(document, lexer, limits, segments, provider, run);
    var replies := Replies(provider, |segments|);
    assert forall i | 0 <= i < |segments| :: replies[i] == provider(i) && (IsClean(lexer, segments[i], replies[i]) <==> IsGoodReply(lexer, segments[i], provider(i)));
  }
}
