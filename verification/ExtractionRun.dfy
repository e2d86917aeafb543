/**
 * One claim-extraction run over a document (claim_extraction.py, `process_source_record`).
 *
 * The model provider is a list of replies, one per segment, about which nothing is assumed:
 * each reply either raises or carries an output.
 */
module ExtractionRun {
  import opened Common
  import opened Lines
  import opened Grounding
  import opened Segmentation
  import opened SegmentationLaws

  datatype Reply = Raised | Replied(output: Output)

  datatype Proposal = Proposal(claim: Claim, start: nat, end: nat, segmentIndex: nat)

  datatype RunStatus = Running | Succeeded | Skipped | Failed

  datatype RunError =
    | SegmentLimitExceeded
    | ProviderFailed
    | Ungrounded(cause: GroundingError)
    | CoverageIncomplete
    | ProposalQuoteMissing
    | ProposalLimitExceeded

  datatype Run = Run(status: RunStatus, processedChars: nat, coverageComplete: bool, injectionSuspected: bool,
                     error: Option<RunError>, proposals: seq<Proposal>)

  datatype Limits = Limits(maxChars: int, overlapChars: int, maxSegments: nat, maxProposals: nat)

  // ---------------------------------------------------------------------------------------
  // Specification
  // ---------------------------------------------------------------------------------------

  predicate IsClean(lexer: Lexer, segment: Segment, reply: Reply) {
    reply.Replied? && !reply.output.injectionSuspected && AllGrounded(lexer, reply.output, segment.text)
  }

  /** How many leading segments were answered cleanly before the run had to stop. */
  function CleanPrefix(lexer: Lexer, segments: seq<Segment>, replies: seq<Reply>): (n: nat)
    requires |replies| == |segments|
    ensures n <= |segments|
    ensures forall i | 0 <= i < n :: IsClean(lexer, segments[i], replies[i])
    ensures n < |segments| ==> !IsClean(lexer, segments[n], replies[n])
  {
    if segments == [] || !IsClean(lexer, segments[0], replies[0]) then 0
    else 1 + CleanPrefix(lexer, segments[1..], replies[1..])
  }

  /** All claims of the replies, in the order the segments were sent. */
  function AllClaims(replies: seq<Reply>): seq<Claim> {
    if replies == [] then []
    else
      var last := replies[|replies| - 1];
      AllClaims(replies[..|replies| - 1]) + (if last.Replied? then last.output.claims else [])
  }

  /** The first occurrence of every claim, in order. */
  function FirstOccurrences(claims: seq<Claim>): seq<Claim> {
    if claims == [] then []
    else
      var earlier := FirstOccurrences(claims[..|claims| - 1]);
      if claims[|claims| - 1] in claims[..|claims| - 1] then earlier else earlier + [claims[|claims| - 1]]
  }

  function ClaimsOf(proposals: seq<Proposal>): seq<Claim> {
    seq(|proposals|, i requires 0 <= i < |proposals| => proposals[i].claim)
  }

  /** The proposal's offsets slice the document to its quote, inside the segment it names. */
  ghost predicate Located(document: string, segments: seq<Segment>, p: Proposal) {
    && p.segmentIndex < |segments|
    && segments[p.segmentIndex].start <= p.start <= p.end <= segments[p.segmentIndex].end <= |document|
    && document[p.start..p.end] == p.claim.quote
  }

  /** The error of the first claim of a reply that its segment does not support. */
  ghost predicate IsUngrounded(lexer: Lexer, segment: Segment, reply: Reply, error: Option<RunError>) {
    error.Some? && error.value.Ungrounded? && reply.Replied? && IsFirstError(lexer, reply.output, segment.text, error.value.cause)
  }

  /** Which of the three endings a run has, decided by the segments and the replies alone. */
  ghost predicate Ends(document: string, lexer: Lexer, limits: Limits, segments: seq<Segment>, replies: seq<Reply>, run: Run)
    requires |replies| == |segments|
  {
    var n := CleanPrefix(lexer, segments, replies);
    if |segments| > limits.maxSegments then
      run == Run(Skipped, 0, false, false, Some(SegmentLimitExceeded), [])
    else if n < |segments| && replies[n].Raised? then
      run == Run(Failed, if n == 0 then 0 else segments[n - 1].end, false, false, Some(ProviderFailed), [])
    else if n < |segments| && replies[n].output.injectionSuspected then
      run == Run(Skipped, segments[n].end, segments[n].end == |document|, true, None, [])
    else if n < |segments| then
      run == Run(Failed, segments[n].end, false, false, run.error, []) && IsUngrounded(lexer, segments[n], replies[n], run.error)
    else
      var claims := FirstOccurrences(AllClaims(replies));
      if |claims| > limits.maxProposals then
        run == Run(Failed, |document|, false, false, Some(ProposalLimitExceeded), [])
      else
        && run == Run(Succeeded, |document|, true, false, None, run.proposals)
        && ClaimsOf(run.proposals) == claims
        && AllLocated(document, segments, run.proposals)
  }

  // ---------------------------------------------------------------------------------------
  // The run itself
  // ---------------------------------------------------------------------------------------

  /** Python's `text.find(needle)`. */
  method Find(text: string, needle: string) returns (found: int)
    ensures found == -1 <==> !Contains(text, needle)
    ensures found != -1 ==> StartsAt(text, needle, found)
  {
    found := 0;
    while found <= |text| - |needle|
      invariant 0 <= found
      invariant forall i | 0 <= i < found :: !StartsAt(text, needle, i)
    {
      if text[found..found + |needle|] == needle {
        assert StartsAt(text, needle, found);
        return;
      }
      found := found + 1;
    }
    found := -1;
  }

  /** The provider loop: stops at the first reply that raises, is flagged or is ungrounded. */
  method CallProvider(lexer: Lexer, segments: seq<Segment>, replies: seq<Reply>)
    returns (completed: nat, processedUntil: nat, injection: bool, error: Option<RunError>)
    requires |replies| == |segments|
    requires forall i | 0 < i < |segments| :: segments[i - 1].end < segments[i].end
    ensures var n := CleanPrefix(lexer, segments, replies);
            if n == |segments| then
              completed == n && !injection && error.None?
              && processedUntil == if n == 0 then 0 else segments[n - 1].end
            else if replies[n].Raised? then
              completed == n && !injection && error == Some(ProviderFailed)
              && processedUntil == if n == 0 then 0 else segments[n - 1].end
            else
              completed == n + 1 && processedUntil == segments[n].end && injection == replies[n].output.injectionSuspected
              && (if injection then error.None? else IsUngrounded(lexer, segments[n], replies[n], error))
  {
    completed, processedUntil, injection, error := 0, 0, false, None;
    while completed < |segments|
      invariant 0 <= completed <= CleanPrefix(lexer, segments, replies)
      invariant processedUntil == if completed == 0 then 0 else segments[completed - 1].end
    {
      var segment, reply := segments[completed], replies[completed];
      if reply.Raised? {
        error := Some(ProviderFailed);
        return;
      }
      completed := completed + 1;
      processedUntil := if processedUntil < segment.end then segment.end else processedUntil;
      if reply.output.injectionSuspected {
        injection := true;
        return;
      }
      var cause := ValidateOutput(lexer, reply.output, segment.text);
      if cause.Some? {
        error := Some(Ungrounded(cause.value));
        return;
      }
    }
  }

  lemma FirstOccurrencesSnoc(claims: seq<Claim>, claim: Claim)
    ensures FirstOccurrences(claims + [claim])
         == if claim in claims then FirstOccurrences(claims) else FirstOccurrences(claims) + [claim]
  {
    assert (claims + [claim])[..|claims|] == claims;
  }

  lemma AllClaimsSnoc(replies: seq<Reply>, i: nat)
    requires i < |replies| && replies[i].Replied?
    ensures AllClaims(replies[..i + 1]) == AllClaims(replies[..i]) + replies[i].output.claims
  {
    assert replies[..i + 1][..i] == replies[..i];
  }

  ghost predicate Slices(document: string, segments: seq<Segment>) {
    forall i | 0 <= i < |segments| ::
      && segments[i].index == i
      && segments[i].start <= segments[i].end <= |document|
      && segments[i].text == document[segments[i].start..segments[i].end]
  }

  /** A quote found inside a segment is found in the document, shifted by the segment's start. */
  lemma LocalToDocument(document: string, segments: seq<Segment>, i: nat, quote: string, local: nat)
    requires Slices(document, segments) && i < |segments|
    requires StartsAt(segments[i].text, quote, local)
    ensures var start := segments[i].start + local;
            start + |quote| <= segments[i].end <= |document| && document[start..start + |quote|] == quote
  {
    var s := segments[i];
    assert document[s.start..s.end][local..local + |quote|] == document[s.start + local..s.start + local + |quote|];
  }

  /** One claim of the proposal loop. */
  method Propose(document: string, lexer: Lexer, segments: seq<Segment>, i: nat, claim: Claim)
    returns (proposal: Proposal, missing: bool)
    requires Slices(document, segments) && i < |segments| && Contains(segments[i].text, claim.quote)
    ensures !missing && proposal.claim == claim && Located(document, segments, proposal)
  {
    var segment := segments[i];
    var localStart := Find(segment.text, claim.quote);
    missing := localStart < 0;
    LocalToDocument(document, segments, i, claim.quote, localStart);
    var sourceStart := segment.start + localStart;
    proposal := Proposal(claim, sourceStart, sourceStart + |claim.quote|, segment.index);
  }

  /** The claims of one segment, appended to what earlier segments proposed. */
  method ProposeAll(document: string, lexer: Lexer, segments: seq<Segment>, i: nat, claims: seq<Claim>,
                    seen0: set<Claim>, proposals0: seq<Proposal>, ghost before: seq<Claim>)
    returns (seen: set<Claim>, proposals: seq<Proposal>, missing: bool)
    requires Slices(document, segments) && i < |segments|
    requires forall c | c in claims :: Contains(segments[i].text, c.quote)
    requires Recorded(seen0, proposals0, before) && AllLocated(document, segments, proposals0)
    ensures !missing && Recorded(seen, proposals, before + claims) && AllLocated(document, segments, proposals)
  {
    seen, proposals, missing := seen0, proposals0, false;
    assert before + claims[..0] == before;
    for j := 0 to |claims|
      invariant !missing && Recorded(seen, proposals, before + claims[..j])
      invariant AllLocated(document, segments, proposals)
    {
      var claim := claims[j];
      assert before + claims[..j + 1] == (before + claims[..j]) + [claim];
      FirstOccurrencesSnoc(before + claims[..j], claim);
      if claim !in seen {
        seen := seen + {claim};
        assert claim in claims;
        var proposal;
        proposal, missing := Propose(document, lexer, segments, i, claim);
        proposals := proposals + [proposal];
      }
    }
    assert claims[..|claims|] == claims;
  }

  /** `seen` and `proposals` record exactly the claims met so far. */
  ghost predicate Recorded(seen: set<Claim>, proposals: seq<Proposal>, claims: seq<Claim>) {
    && (forall c :: c in seen <==> c in claims)
    && ClaimsOf(proposals) == FirstOccurrences(claims)
  }

  ghost predicate AllLocated(document: string, segments: seq<Segment>, proposals: seq<Proposal>) {
    forall p | p in proposals :: Located(document, segments, p)
  }

  /** The proposal loop: skips claims already seen and turns quotes into document offsets. */
  method CollectProposals(document: string, lexer: Lexer, segments: seq<Segment>, replies: seq<Reply>)
    returns (proposals: seq<Proposal>, missing: bool)
    requires |replies| == |segments| && Slices(document, segments)
    requires forall i | 0 <= i < |segments| :: IsClean(lexer, segments[i], replies[i])
    ensures !missing && ClaimsOf(proposals) == FirstOccurrences(AllClaims(replies))
    ensures AllLocated(document, segments, proposals)
  {
    proposals, missing := [], false;
    var seen: set<Claim> := {};
    for i := 0 to |segments|
      invariant !missing && Recorded(seen, proposals, AllClaims(replies[..i]))
      invariant AllLocated(document, segments, proposals)
    {
      assert IsClean(lexer, segments[i], replies[i]);
      AllClaimsSnoc(replies, i);
      seen, proposals, missing :=
        ProposeAll(document, lexer, segments, i, replies[i].output.claims, seen, proposals, AllClaims(replies[..i]));
    }
    assert replies[..|segments|] == replies;
  }

  datatype Source = Source(active: bool, approvedAt: Option<int>, approvedBy: string)

  datatype Preflight = SourceInactive | NotApproved | ApprovalNotEffective | Quarantined | NoText | BadSizes

  /** Python's `not text.strip()`. */
  predicate Blank(text: string) {
    forall c | c in text :: IsSpace(c)
  }

  type RunKey = (nat, string)

  function Replies(provider: nat -> Reply, n: nat): seq<Reply> {
    seq(n, i requires 0 <= i => provider(i))
  }

  /** The run is one of the endings that the document and the provider's replies allow. */
  ghost predicate Completed(document: string, lexer: Lexer, limits: Limits, provider: nat -> Reply, run: Run) {
    LegalSizes(limits.maxChars, limits.overlapChars) &&
    exists segments ::
      && IsSegmentation(document, limits.maxChars, limits.overlapChars, segments)
      && Ends(document, lexer, limits, segments, Replies(provider, |segments|), run)
  }

  predicate Admissible(document: string, source: Source, quarantined: bool, now: int, limits: Limits) {
    && source.active && !quarantined && !Blank(document)
    && source.approvedAt.Some? && source.approvedAt.value <= now && source.approvedBy != ""
    && LegalSizes(limits.maxChars, limits.overlapChars)
  }

  method Prepare(document: string, source: Source, quarantined: bool, now: int, limits: Limits)
    returns (result: Result<seq<Segment>, Preflight>)
    ensures result.Ok? <==> Admissible(document, source, quarantined, now, limits)
    ensures result.Ok? ==> IsSegmentation(document, limits.maxChars, limits.overlapChars, result.value)
  {
    if !source.active {
      return Err(SourceInactive);
    }
    if source.approvedAt.None? || source.approvedBy == "" {
      return Err(NotApproved);
    }
    if source.approvedAt.value > now {
      return Err(ApprovalNotEffective);
    }
    if quarantined {
      return Err(Quarantined);
    }
    if Blank(document) {
      return Err(NoText);
    }
    var segmented := SegmentDocument(document, limits.maxChars, limits.overlapChars);
    return if segmented.Err? then Err(BadSizes) else Ok(segmented.value);
  }

  class ExtractionDesk {
    var runs: map<RunKey, Run>

    method ProcessSourceRecord(key: RunKey, document: string, source: Source, quarantined: bool, now: int,
                               lexer: Lexer, limits: Limits, provider: nat -> Reply)
      returns (result: Result<Run, Preflight>)
      modifies this
      ensures key in old(runs) ==> result == Ok(old(runs)[key]) && runs == old(runs)
      ensures key !in old(runs) ==>
                if Admissible(document, source, quarantined, now, limits) then
                  && result.Ok?
                  && runs == old(runs)[key := result.value]
                  && Completed(document, lexer, limits, provider, result.value)
                else result.Err? && runs == old(runs)
    {
      hide IsSegmentation, CleanPrefix, AllClaims, FirstOccurrences, AllLocated, IsUngrounded;
      if key in runs {
        return Ok(runs[key]);
      }
      var prepared := Prepare(document, source, quarantined, now, limits);
      if prepared.Err? {
        return Err(prepared.error);
      }
      var segments := prepared.value;
      var run := Run(Running, 0, false, false, None, []);
      runs := runs[key := run];
      if |segments| > limits.maxSegments {
        run := run.(status := Skipped, error := Some(SegmentLimitExceeded));
      } else {
        run := Extract(document, lexer, limits, segments, Replies(provider, |segments|));
      }
      runs := runs[key := run];
      return Ok(run);
    }
  }

  /** The body of the run once it is stored: the two loops, then the status it ends with. */
  method Extract(document: string, lexer: Lexer, limits: Limits, segments: seq<Segment>, replies: seq<Reply>)
    returns (run: Run)
    requires LegalSizes(limits.maxChars, limits.overlapChars)
    requires IsSegmentation(document, limits.maxChars, limits.overlapChars, segments)
    requires |replies| == |segments| <= limits.maxSegments
    ensures Ends(document, lexer, limits, segments, replies, run)
  {
    forall i | 0 < i < |segments| ensures segments[i - 1].end < segments[i].end {
      NeighboursOverlapAndAdvance(document, limits.maxChars, limits.overlapChars, segments, i - 1);
    }
    run := Run(Running, 0, false, false, None, []);
    var completed, processedUntil, injection, error := CallProvider(lexer, segments, replies);
    if error.None? {
      run := run.(processedChars := processedUntil, coverageComplete := processedUntil >= |document|, injectionSuspected := injection);
      if injection {
        run := run.(status := Skipped);
      } else if !run.coverageComplete {
        error := Some(CoverageIncomplete);
      } else {
        var proposals, missing := CollectProposals(document, lexer, segments, replies);
        if missing {
          error := Some(ProposalQuoteMissing);
        } else if |proposals| > limits.maxProposals {
          error := Some(ProposalLimitExceeded);
        } else {
          run := run.(status := Succeeded, proposals := proposals);
        }
      }
    }
    if error.Some? {
      run := Run(Failed, processedUntil, false, false, error, []);
    }
  }
}
