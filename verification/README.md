# East Med Desk: a verified model of its editorial and operational core

East Med Desk is an intelligence desk: it collects source records, extracts claims from them,
has analysts review and publish event versions, sends alerts to customers, and keeps AI
capabilities under human control. This project states, in Dafny, what the parts of that system
with the most state and branching do, and proves what they promise.

Each component has one or two modules with its rows, the functions that specify its operations,
and the operations themselves: code that updates rows in loops is a class or a method with loops,
proved equal to its specification function; code that only computes is functions. The `...Laws`
and `...Theorems` modules prove properties of the specification functions, over every input or
over every run of a state machine whose steps are those functions. Lemmas whose names end in `Exactly`
characterize an operation without its own steps: when it succeeds, if and only if, and everything
it then changes.

| component | modules |
|---|---|
| content-bound publication | `Lines`, `Sentences`, `Desk`, `Publication`, `PublicationPolicy`, `PolicyChecks`, `EditorialDesk`, `PublicationLaws`, `PublicationTheorems`, `DeskLaws` |
| approval inbox | `ApprovalInbox`, `InboxLaws` |
| lineage roots, similarity, proposal batches | `Lineage`, `LineageLaws`, `Similarity`, `ProposalBatch`, `ProposalBatchLaws`, `ProposalBatchTheorems` |
| claim extraction | `Segmentation`, `SegmentationLaws`, `Grounding`, `ExtractionRun`, `ExtractionLaws` |
| deliveries, provider webhook, alerts | `Delivery`, `DeliveryLaws`, `Alerts`, `AlertLaws` |
| gold scoring | `GoldEvaluation`, `GoldLaws`, `GoldReportLaws`, `GoldTheorems` |
| fuel reconciliation | `Reconciliation`, `ReconciliationLaws`, `LeftoverLaws`, `CaseVersions` |
| AI stop switches and incidents | `AiGovernance`, `AiGovernanceLaws`, `AiGovernanceTheorems` |
| vessel position cache | `AisCache` |

## Conventions

- Time is a parameter of each operation, in seconds. A call reads the clock once, or twice where it
  takes two readings. Clocks may go back unless a theorem says otherwise.
- SHA-256 over canonical JSON is an injective constructor over the hashed document.
- One call is one atomic step, as the row locks and transactions of the code make it; the publish
  endpoint, which authorizes before it locks, is two steps with anything in between.
- Rows of append-only tables are identified by their position. Where the code breaks ties by a
  random UUID or leaves the order of a query open, the model breaks them by position.
- Regular expressions, Unicode case folding, token patterns, provider answers and geographic
  intersection are parameters of the operations that use them.

## Where the code and its promises differ

These are theorems about the code as it is, each with the exact condition under which the
promise holds.

- **Reconciliation uses a leftover variable.** `compute_case_result` passes `actual`, left over
  from an earlier loop, to the calculator (reconciliation_case.py:228) instead of
  `current_actual`. `LeftoverLaws.WrittenIsIntendedExactly` says when this makes no difference,
  `WrittenDependsOnOrder` shows two orders of the same rows with different results,
  `TwoGroupsNeverComplete` that no job with two grades or two intervals can ever complete, and
  `CompletedIsIntendedExactly` that the independent verifier stops every wrong value but not a
  wrong unit.
- **A case can publish a superseded result.** After results A, B, A the reconcile stage finds
  version A while the publish stage takes the latest version, B
  (`CaseVersions.ReturnsLatestExactly`, `ReturnToEarlierResult`).
- **A long incident report stops nothing.** The stop of a high or critical incident repeats title
  and summary in a reason of at most 2000 characters, while a summary may have 5000; above 1966
  characters together neither incident nor stop is stored
  (`AiGovernanceLaws.HighReportIsStoredExactly`, and `AcceptedReportIsRefused` at the boundary). Escalating an incident later never stops
  anything (`EventsNeverTouchControls`).
- **The sentence round trip needs more than the draft contract checks.** Texts that strip to
  nothing or contain separators other than line feed and carriage return are accepted, but reading
  them back drops them, splits them or fails. `Sentences.RoundTripExactly` gives the condition for
  every draft, `RoundTripExactlyWhenOneLine` for those the contract accepts, and
  `ContractDoesNotGuaranteeTheRoundTrip` two accepted drafts that are lost.
- **The grounding check is not reflexive.** A claim that repeats its quote, with details that the
  quote supports, is refused exactly if the quote's only negations are shorter than three letters
  (`Grounding.VerbatimClaimAccepted`); "no berth" is such a quote (`VerbatimClaimRejected`).
- **The paragraph search of the segmenter never decides a cut**
  (`Segmentation.ParagraphNeverWins`).
- **An early delivery report is lost for good** (`DeliveryLaws.EarlyReportIsLost`). A new report
  takes effect exactly if its reference is already stored on a row that is not terminal
  (`ReportReachesItsRowExactly`, `WebhookChangesRowExactly`); `EarlyReportScenario` reaches the
  loss in three steps. "Sent" reports never change anything (`SentReportsDoNothing`).
- **A dispatcher with an old batch does not wait.** A refused row waits for its backoff exactly as
  long as no attempt on it comes out of a batch selected earlier (`OnlyAStaleAttemptSkipsTheWait`,
  `RunKeepsTheWait`, `DispatchChangesOnlyDueRows`); such an attempt skips the wait exactly until the
  backoff has passed (`StaleBatchSkipsTheWait`).
- **An expired approval request is restamped** by every later decision attempt
  (`InboxLaws.ExpiredRequestIsRestamped`); every other settled request is immutable.

## Model

| member | source | states |
|---|---|---|
| `Sentences.DraftArtifacts` | apps/api/eastmed_api/publication.py:307-331 | the loop lays a draft out by section, with one key per sentence numbered within its section and one snapshot per sentence |
| `Sentences.LayoutBySection` | apps/api/eastmed_api/publication.py:307-331 | every section holds exactly its own sentences in draft order, and each position's key maps to that sentence's claims |
| `Sentences.LayoutClaimMap` | apps/api/eastmed_api/publication.py:317-331 | the stored claim map says nothing that the hashed sentence snapshots do not |
| `Sentences.VersionSentences` | apps/api/eastmed_api/workspace.py:42-62 | the nested loops read the four summaries back line by line, dropping empty lines, with the fallback from indexed to bare-text keys, and fail when a sentence read back does not meet its contract |
| `Lines.SplitUndoesJoin` | apps/api/eastmed_api/workspace.py:51 | splitting a joined summary and dropping empty lines returns exactly its non-empty lines |
| `Sentences.RoundTripExactly` | apps/api/eastmed_api/workspace.py:42-62 | for every draft whatever, reading back returns its sentences, stably grouped, if and only if each is storable: one stripped, non-empty line of at most 5000 characters with 1 to 50 claims |
| `Sentences.RoundTripExactlyWhenOneLine` | apps/api/eastmed_api/workspace.py:42-62 | for every draft that the contract accepts, reading back returns its sentences, stably grouped by section and with their own claims, if and only if each text is one non-empty line |
| `Sentences.ContractDoesNotGuaranteeTheRoundTrip` | apps/api/eastmed_api/contracts.py:1046-1052 | the contract accepts a blank sentence and one with a line separator, and neither comes back |
| `Sentences.OldVersionsReadByText` | apps/api/eastmed_api/workspace.py:53-55 | a version whose claim map has bare texts for keys is read back with the claims of each line's text |
| `PolicyChecks.CheckCitation` | apps/api/eastmed_api/publication.py:95-133 | the checks of one cited claim, in the order of the code, equal the specified problems |
| `PolicyChecks.PublicationErrors` | apps/api/eastmed_api/publication.py:67-135 | the nested loops produce exactly the specified list of policy errors |
| `PolicyChecks.CountMeansSafeEvidence` | apps/api/eastmed_api/publication.py:182-206 | the smaller of the two evidence counts is positive if and only if the draft selects safe evidence of the claim |
| `PolicyChecks.SelectedCountExactly` | apps/api/eastmed_api/publication.py:182-190 | the selected count of a claim is the number of its selected, safe evidence rows |
| `PublicationPolicy.NoErrorsMeansPublishable` | apps/api/eastmed_api/publication.py:67-143 | a draft has no policy error if and only if it is publishable: human distinct sign-off, every cited claim of this event, in an allowed section, safely evidenced, humanly reviewed and, if sensitive, validly second-reviewed |
| `PublicationPolicy.ErrorsExactly` | apps/api/eastmed_api/publication.py:67-135 | an error is reported if and only if the draft has it: each of the five header errors and nine claim problems |
| `EditorialDesk.Session.ClaimSecondReviewIsValid` | apps/api/eastmed_api/approval_bindings.py:75-106 | the chain of early returns decides exactly whether a live approval by another entitled person covers the claim and its full evidence |
| `EditorialDesk.Session.SelectedCounts` | apps/api/eastmed_api/publication.py:182-190 | the counting loop with its skip holds, per claim, the number of selected safe evidence rows |
| `EditorialDesk.Session.PolicyViews` | apps/api/eastmed_api/publication.py:182-222 | the views show the policy every cited claim that exists, whether it has safe evidence, and whether its second review is valid |
| `EditorialDesk.Session.LoadContext` | apps/api/eastmed_api/publication.py:146-257 | refuses an unknown event or evidence outside the draft's claims, and otherwise loads exactly the event, cited claims, selected evidence and latest version |
| `EditorialDesk.Session.PreviewEventVersion` | apps/api/eastmed_api/publication.py:428-472 | a preview carries the hash of the canonical release and exactly the policy errors |
| `EditorialDesk.Session.PublishEventVersion` | apps/api/eastmed_api/publication.py:475-592 | appends exactly the specified version or refuses and changes nothing |
| `EditorialDesk.Session.ApproveEventPublication` | apps/api/eastmed_api/approvals.py:300-386 | appends exactly one approval bound to the draft under both identities, or refuses and changes nothing |
| `EditorialDesk.Session.AuthorizeEventPublication` | apps/api/eastmed_api/approvals.py:389-440 | the latest approval of this preview and publisher decides, through the specified refusals |
| `EditorialDesk.Session.ApproveSensitiveClaim` | apps/api/eastmed_api/approvals.py:214-287 | stores the approval and links it to the claim together, or changes nothing |
| `EditorialDesk.Session.UpdateClaim` | apps/api/eastmed_api/workspace.py:251-305 | sets exactly the patched fields, restamps the primary review and drops the second one as specified |
| `EditorialDesk.Session.LinkEvidence` | apps/api/eastmed_api/workspace.py:308-381 | appends the evidence row and drops the claim's second review, or changes nothing |
| `EditorialDesk.Session.CreateClaim` | apps/api/eastmed_api/workspace.py:212-248 | appends a claim reviewed by its author, or refuses an unknown event |
| `PublicationLaws.StepPreserves` | apps/api/eastmed_api/publication.py:475-592 | every edit, link, review, approval, request and commit keeps the protocol's invariant, and approvals, versions and evidence are only appended |
| `PublicationLaws.RunPreserves` | apps/api/eastmed_api/publication.py:475-592 | the invariant holds after every interleaving of those steps |
| `PublicationLaws.PublishedSensitiveOk` | apps/api/eastmed_api/publication.py:121-133 | a sensitive claim that passes the policy carries the live review of exactly its published content |
| `PublicationTheorems.ChainIsContinuous` | apps/api/eastmed_api/publication.py:225-257 | each event's versions are numbered 1, 2, 3, ... and hash-linked, and the greatest number is the last one published |
| `PublicationTheorems.LatestHashDeterminesHistory` | apps/api/eastmed_api/publication.py:344-368 | equal latest hashes mean equal published histories, all the way back |
| `PublicationTheorems.HashesAreDistinct` | apps/api/eastmed_api/publication.py:344-368 | no two stored versions have the same hash |
| `PublicationTheorems.OneApprovalBacksOneVersion` | apps/api/eastmed_api/approvals.py:402-440 | in every run one approval record backs at most one version |
| `PublicationTheorems.PreviewIsSpent` | apps/api/eastmed_api/publication.py:497-501 | a published preview hash can never be published again, whatever happens in between |
| `PublicationTheorems.NoStaleRelease` | apps/api/eastmed_api/publication.py:482-540 | if an approved release is published under its approval, then the event with its severity, every cited claim, every selected evidence row and the latest version are what the approver saw |
| `PublicationTheorems.SeverityCrossingIsRefused` | apps/api/eastmed_api/publication.py:502-506 | an authorization taken on one side of severity 3 cannot publish on the other |
| `PublicationTheorems.HighSeverityIsTheApprovedDraft` | apps/api/eastmed_api/publication.py:502-559 | every stored version of severity 3 or 4 is its approved draft, by an approver other than its publisher, strongly authenticated and in time |
| `PublicationTheorems.ReadingBackTheApprovedDraft` | apps/api/eastmed_api/workspace.py:42-62 | in every run, reading such a version back gives the approved sentences grouped by section, if and only if each is storable |
| `PublicationTheorems.SensitiveClaimsWereReviewed` | apps/api/eastmed_api/publication.py:121-133 | every sensitive claim of a published version had, at publication, a live review by a second person of exactly the claim and evidence shown |
| `PublicationTheorems.ReviewCountsExactlyWhileLinked` | apps/api/eastmed_api/approval_bindings.py:75-106 | in every reachable state a second review is valid if and only if it is linked, unexpired and both people are entitled: edits unlink it |
| `PublicationTheorems.ReviewedClaimIsUntouched` | apps/api/eastmed_api/workspace.py:271-281 | while a claim stays linked to one review, neither it nor its evidence has changed |
| `PublicationTheorems.ApprovedReleaseGoesThrough` | apps/api/eastmed_api/approvals.py:389-440 | an approved release that is requested and committed at once is published |
| `DeskLaws.CommitSucceedsExactly` | apps/api/eastmed_api/publication.py:475-592 | a requested publication is committed if and only if the event exists, evidence and policy are in order, the hash is that of the release as it is now and, from severity 3, its approval is live and bound; it appends exactly one version, which shows exactly the cited claims and selected evidence |
| `DeskLaws.LowSeverityGoesThrough` | apps/api/eastmed_api/publication.py:501-506 | below severity 3 a publishable draft that is requested under its current hash and committed at once is published without approval or sign-off |
| `DeskLaws.AuthorizedExactly` | apps/api/eastmed_api/approvals.py:389-440 | authorization is given below severity 3 without an approval, and otherwise if and only if the publisher may rely on the last approval of this preview |
| `DeskLaws.ApprovedExactly` | apps/api/eastmed_api/approvals.py:300-386 | a release is approved if and only if an entitled person other than its active publisher does so, from severity 3, on a publishable draft; the approval binds it for 15 minutes |
| `DeskLaws.SecondReviewedExactly` | apps/api/eastmed_api/approvals.py:214-287 | a second review is stored if and only if an entitled person gives it on a sensitive, not yet second-reviewed claim whose first reviewer is another active desk user |
| `DeskLaws.SecondReviewCountsAtOnce` | apps/api/eastmed_api/approvals.py:214-287 | a stored second review counts at once and for 15 minutes, if and only if its reviewer is a registered approver |
| `DeskLaws.UpdatedExactly` | apps/api/eastmed_api/workspace.py:251-305 | when a claim update is accepted; each named field gets its value, every other keeps it, and no second review counts afterwards |
| `DeskLaws.LinkedExactly` | apps/api/eastmed_api/workspace.py:308-381 | when evidence is linked, and that no second review of the claim counts afterwards |
| `DeskLaws.CreatedExactly` | apps/api/eastmed_api/workspace.py:212-248 | when a claim is created, and with which fields |
| `ApprovalInbox.Inbox.SupersedePendingRequests` | apps/api/eastmed_api/approval_requests.py:76-93 | cancels exactly the pending requests of one type, target and requester |
| `ApprovalInbox.Inbox.CreateRequest` | apps/api/eastmed_api/approval_requests.py:96-259 | returns the same pending request, or supersedes and files one that lapses after a day |
| `ApprovalInbox.Inbox.DecideRequest` | apps/api/eastmed_api/approval_requests.py:262-364 | expires, refuses, rejects or approves exactly as specified, running the full publication approval |
| `InboxLaws.InboxRunsAreDeskRuns` | apps/api/eastmed_api/approval_requests.py:306-338 | every run through the inbox is, for the desk, a run of the publication protocol, so its theorems carry over |
| `InboxLaws.OnePendingAndTwoPeople` | apps/api/eastmed_api/approval_requests.py:76-158 | in every run at most one request is pending per type, target and requester, no one decides their own, and an approved one names the approval record of exactly its draft |
| `InboxLaws.SettledForever` | apps/api/eastmed_api/approval_requests.py:275-300 | a decided, cancelled or expired request keeps its status and decider for ever, and unless expired does not change at all |
| `InboxLaws.ExpiredRequestIsRestamped` | apps/api/eastmed_api/approval_requests.py:285-290 | an expired request changes if and only if an entitled person attempts a decision at another time |
| `InboxLaws.AskingTwiceFilesOnce` | apps/api/eastmed_api/approval_requests.py:128-136 | asking again while the request is pending files nothing |
| `InboxLaws.AskedExactly` | apps/api/eastmed_api/approval_requests.py:96-259 | asking succeeds if and only if the request may be filed; it finds the waiting request, or cancels those of its key and files one for a day |
| `InboxLaws.RejectedExactly` | apps/api/eastmed_api/approval_requests.py:275-347 | a rejection succeeds if and only if the person may decide on the request, and is recorded |
| `InboxLaws.ApprovedOnRequestExactly` | apps/api/eastmed_api/approval_requests.py:275-364 | an approval succeeds if and only if the person may decide and the direct approval succeeds, and names its record |
| `InboxLaws.RefusedDecisionChangesOnly` | apps/api/eastmed_api/approval_requests.py:275-300 | a refused decision changes nothing, except that a lapsed request is marked as expired |
| `Lineage.LineageDesk.AssignToRoot` | packages/pipeline/eastmed_pipeline/lineage.py:370-392 | a mapping is written once; another root is refused |
| `Lineage.LineageDesk.ReviewProposal` | packages/pipeline/eastmed_pipeline/lineage.py:395-499 | one review changes exactly the proposal, its records' mappings and the new root, or nothing |
| `Lineage.LineageDesk.RootForEvidence` | apps/api/eastmed_api/workspace.py:348-366 | linking an unmapped record gives it a root of its own |
| `LineageLaws.RootsAreExactlyConnectivity` | packages/pipeline/eastmed_pipeline/lineage.py:416-472 | in every reachable ledger two mapped records share a root if and only if a chain of accepted pairs connects them |
| `LineageLaws.RootNeverChanges` | packages/pipeline/eastmed_pipeline/lineage.py:379-383 | a record's root never changes once assigned |
| `LineageLaws.RefusedExactlyWhenClustersAreSeparate` | packages/pipeline/eastmed_pipeline/lineage.py:426-433 | a human acceptance of a pending pair is refused if and only if both records have roots and no chain connects them |
| `LineageLaws.ReviewedExactly` | packages/pipeline/eastmed_pipeline/lineage.py:395-433 | when a review is accepted |
| `LineageLaws.RejectionRecorded` | packages/pipeline/eastmed_pipeline/lineage.py:473-499 | a rejection is recorded on the proposal and in the log and changes no root or mapping |
| `LineageLaws.AcceptanceRecorded` | packages/pipeline/eastmed_pipeline/lineage.py:416-499 | an acceptance maps both records to one root; a new root comes from the proposed origin, else the candidate, else the subject, at the earlier of the two times |
| `LineageLaws.LinkedRecordHasRoot` | apps/api/eastmed_api/workspace.py:348-366 | the fallback root carries the record's own source and time |
| `Similarity.CountLaws` | packages/pipeline/eastmed_pipeline/lineage.py:110-112 | the counter of a token list holds each token's multiplicity |
| `Similarity.CosineAtMostOne` | packages/pipeline/eastmed_pipeline/lineage.py:115-121 | the squared dot product never exceeds the product of the squared norms |
| `Similarity.DotSymmetric` | packages/pipeline/eastmed_pipeline/lineage.py:118 | iterating either side gives the same dot product |
| `Similarity.SelfCosineIsOne` | packages/pipeline/eastmed_pipeline/lineage.py:115-121 | a text compared with itself scores exactly one |
| `Similarity.CosineIgnoresOrder` | packages/pipeline/eastmed_pipeline/lineage.py:110-121 | texts with the same words score alike against everything |
| `Similarity.MinhashSignature` | packages/pipeline/eastmed_pipeline/lineage.py:91-107 | the loops compute, per seed, the least hash over the set of shingles |
| `Similarity.MinhashIsASimilarity` | packages/pipeline/eastmed_pipeline/lineage.py:133-136 | the score is symmetric, within zero and one, and one only for equal signatures |
| `Similarity.EqualShinglesScoreOne` | packages/pipeline/eastmed_pipeline/lineage.py:91-136 | texts with the same shingle set have the same signature and score one |
| `Similarity.SignatureOfUnion` | packages/pipeline/eastmed_pipeline/lineage.py:96-106 | the signature of a union is the pointwise minimum |
| `Similarity.QualifiesIsSymmetric` | packages/pipeline/eastmed_pipeline/lineage.py:71-73 | the threshold does not care which text is the subject |
| `Similarity.QualifiesIsReflexive` | packages/pipeline/eastmed_pipeline/lineage.py:71-73 | every text with a token passes the threshold against itself |
| `Similarity.ShinglesExactly` | packages/pipeline/eastmed_pipeline/lineage.py:81-89 | the shingles are the runs of five tokens, or the whole text if it is shorter |
| `Similarity.QualifiesExactly` | packages/pipeline/eastmed_pipeline/lineage.py:71-73 | two texts pass if and only if their cosine is at least 0.92 and their signatures agree at three quarters of the positions |
| `ProposalBatch.FindCandidates` | packages/pipeline/eastmed_pipeline/lineage.py:293-328 | the filter loop keeps exactly the earlier records that pass every test |
| `ProposalBatch.GenerateProposals` | packages/pipeline/eastmed_pipeline/lineage.py:223-363 | one pass adds exactly the batch's keys that the table does not hold, and counts them |
| `ProposalBatchLaws.BatchKeysDistinct` | packages/pipeline/eastmed_pipeline/lineage.py:150-167 | the keys of one batch are pairwise distinct |
| `ProposalBatchLaws.CommitRespectsUniqueKey` | apps/api/eastmed_api/database.py:9 | without autoflush the committed rows are still new and pairwise distinct |
| `ProposalBatchLaws.PairKeysLaws` | packages/pipeline/eastmed_pipeline/lineage.py:291-347 | every pair points from a later record to an earlier one in time order |
| `ProposalBatchLaws.AtMostThreePairs` | packages/pipeline/eastmed_pipeline/lineage.py:329-331 | no record is the subject of more than three pairs |
| `ProposalBatchLaws.BestKeepsTheBest` | packages/pipeline/eastmed_pipeline/lineage.py:329-331 | the kept candidates are a best three: none dropped has a higher cosine |
| `ProposalBatchLaws.SecondPassCreatesNothing` | packages/pipeline/eastmed_pipeline/lineage.py:188-191 | a second pass over the same records creates nothing |
| `ProposalBatchTheorems.PairKeysExactly` | packages/pipeline/eastmed_pipeline/lineage.py:291-347 | a pair is proposed if and only if the earlier record is of another source, within the window, both are long enough and of like length, the score qualifies, and fewer than three other such records have a greater cosine or come first with the same |
| `ProposalBatchTheorems.BatchExactly` | packages/pipeline/eastmed_pipeline/lineage.py:223-363 | a pass proposes exactly the registry and credit-line origins of its records and those pairs |
| `Segmentation.SegmentDocument` | packages/pipeline/eastmed_pipeline/claim_extraction.py:354-391 | for every document and legal sizes the loop returns a segmentation; the "failed to advance" error is unreachable |
| `Segmentation.FindCut` | packages/pipeline/eastmed_pipeline/claim_extraction.py:367-376 | the three backward searches find the last legal break of the window's second half |
| `Segmentation.ParagraphNeverWins` | packages/pipeline/eastmed_pipeline/claim_extraction.py:371-374 | the line search always finds a break at least as late as the paragraph search |
| `SegmentationLaws.NeighboursOverlapAndAdvance` | packages/pipeline/eastmed_pipeline/claim_extraction.py:387-390 | neighbours share exactly the overlap and each adds a character |
| `SegmentationLaws.EndsIncrease` | packages/pipeline/eastmed_pipeline/claim_extraction.py:366-390 | segment ends strictly increase |
| `SegmentationLaws.DocumentRebuilt` | packages/pipeline/eastmed_pipeline/claim_extraction.py:354-391 | dropping the overlaps rebuilds the document, and every segment has a legal size |
| `SegmentationLaws.ShortQuoteNeverSplit` | packages/pipeline/eastmed_pipeline/claim_extraction.py:387-390 | every substring of at most the overlap plus one lies inside some segment |
| `SegmentationLaws.LongerQuoteSplitAtEveryCut` | packages/pipeline/eastmed_pipeline/claim_extraction.py:387-390 | that length is exact: every cut splits a quote one longer |
| `SegmentationLaws.SegmentCountBounded` | packages/pipeline/eastmed_pipeline/claim_extraction.py:366-390 | a document of n characters has at most 1 + (n-1) / (max/2 + 1 - overlap) segments |
| `SegmentationLaws.SegmentationUnique` | packages/pipeline/eastmed_pipeline/claim_extraction.py:354-391 | the stated properties determine the segments |
| `SegmentationLaws.CutsAtLastBreak` | packages/pipeline/eastmed_pipeline/claim_extraction.py:367-376 | a segment that is not the last ends right after the last line feed or full stop with a blank in the second half of its window, or at its end if there is none |
| `Grounding.ValidateOutput` | packages/pipeline/eastmed_pipeline/claim_extraction.py:753-803 | the checks accept if and only if every claim is grounded, and otherwise raise the error of the first ungrounded claim, which is that of its first failing check |
| `Grounding.FirstErrorIsUnique` | packages/pipeline/eastmed_pipeline/claim_extraction.py:753-803 | that leaves no choice: an output has one error only |
| `Grounding.OverlapIsMaterial` | packages/pipeline/eastmed_pipeline/claim_extraction.py:786-800 | an accepted claim shares at least a third of its words with its quote, at least one if it has any, and two if it has two |
| `Grounding.GroundedExactly` | packages/pipeline/eastmed_pipeline/claim_extraction.py:753-803 | a claim is accepted if and only if its quote stands in the document, its details in the quote, it adds no number, shares enough words and keeps the polarity |
| `Grounding.VerbatimClaimAccepted` | packages/pipeline/eastmed_pipeline/claim_extraction.py:753-803 | a claim that repeats its quote is accepted if and only if the quote is in the document, supports the claim's details, and has no negation or one of three letters or more |
| `Grounding.VerbatimClaimRejected` | packages/pipeline/eastmed_pipeline/claim_extraction.py:786-803 | "no berth", quoted and claimed word for word, is refused for changing its polarity |
| `ExtractionRun.CallProvider` | packages/pipeline/eastmed_pipeline/claim_extraction.py:585-596 | the provider loop stops at the first failure, flag or ungrounded answer, with the error of that answer's first ungrounded claim |
| `ExtractionRun.CollectProposals` | packages/pipeline/eastmed_pipeline/claim_extraction.py:622-637 | the nested loops keep first occurrences and locate each quote in the document |
| `ExtractionRun.ExtractionDesk.ProcessSourceRecord` | packages/pipeline/eastmed_pipeline/claim_extraction.py:459-732 | a stored run is returned as it is; otherwise one run is stored under the key with the outcome its segments and replies determine |
| `ExtractionLaws.FirstOccurrencesLaws` | packages/pipeline/eastmed_pipeline/claim_extraction.py:623-629 | de-duplication keeps every claim once, in order of first appearance |
| `ExtractionLaws.RunLifecycle` | packages/pipeline/eastmed_pipeline/claim_extraction.py:585-730 | a succeeded run has processed the whole document, each proposal lies inside its recorded segment and slices the document to its quote, and the proposed claims are the distinct first occurrences in order; skipped and failed runs have none; the internal errors of the success path are unreachable |
| `ExtractionLaws.SucceedsExactlyWhen` | packages/pipeline/eastmed_pipeline/claim_extraction.py:559-640 | a run succeeds if and only if the segments are few enough, every reply is clean and the distinct claims are few enough |
| `ExtractionLaws.AdmittedExactly` | packages/pipeline/eastmed_pipeline/claim_extraction.py:459-520 | which documents are taken up |
| `ExtractionLaws.OutcomeExactly` | packages/pipeline/eastmed_pipeline/claim_extraction.py:559-730 | how a run ends for each first bad reply: status, error and number of characters processed |
| `ExtractionLaws.NothingDroppedNothingInvented` | packages/pipeline/eastmed_pipeline/claim_extraction.py:622-666 | a succeeded run proposes exactly the claims of its replies |
| `Delivery.Outbox.DeliverRow` | packages/pipeline/eastmed_pipeline/delivery.py:259-334 | one attempt changes exactly its row, as specified, and only while it is queued |
| `Delivery.Outbox.DispatchPending` | packages/pipeline/eastmed_pipeline/delivery.py:337-373 | a dispatch attempts its batch in order and counts the accepted ones; disabled, it does nothing |
| `Delivery.Outbox.Apply` | apps/api/eastmed_api/whatsapp.py:93-124 | one report changes its row exactly as specified and says whether it did |
| `Delivery.Outbox.ProcessWebhook` | apps/api/eastmed_api/whatsapp.py:127-222 | the webhook's loops drop repeats and known events, apply the rest by reference and count them |
| `DeliveryLaws.BackoffBounds` | packages/pipeline/eastmed_pipeline/delivery.py:331 | waits start at a minute, double, never shrink, and stay at an hour from the seventh attempt on |
| `DeliveryLaws.RunOk` | packages/pipeline/eastmed_pipeline/delivery.py:269-334 | under any interleaving attempts stay within the greatest configured maximum, statuses never move back, terminal rows never change, queued rows have no reference and only they wait |
| `DeliveryLaws.SentReportsDoNothing` | apps/api/eastmed_api/whatsapp.py:104-108 | a "sent" report, anywhere in any webhook, changes no row and is not counted: the queued-to-sent transition never fires |
| `DeliveryLaws.DeliveryTimeInOrderExactlyWhen` | apps/api/eastmed_api/whatsapp.py:109-114 | a report's delivery time is no earlier than the send time if and only if its own or its receipt's time is not |
| `DeliveryLaws.RunInOrder` | apps/api/eastmed_api/whatsapp.py:109-114 | in every run whose clock does not go back, rows are sent no later than delivered |
| `DeliveryLaws.WebhookReplay` | apps/api/eastmed_api/whatsapp.py:138-169 | a replayed webhook is a no-op that counts all its events as duplicates, whatever happened since |
| `DeliveryLaws.EarlyReportIsLost` | apps/api/eastmed_api/whatsapp.py:160-194 | a report that comes before its reference is stored changes nothing and is consumed for good |
| `DeliveryLaws.WebhookChangesRowExactly` | apps/api/eastmed_api/whatsapp.py:160-203 | a webhook changes a row if and only if the row is not terminal and a new report other than "sent" names the reference stored on it |
| `DeliveryLaws.ReportReachesItsRowExactly` | apps/api/eastmed_api/whatsapp.py:160-203 | a new report takes effect if and only if its reference is by then stored on a row that is not terminal |
| `DeliveryLaws.EarlyReportScenario` | apps/api/eastmed_api/whatsapp.py:160-194 | queue, report, attempt: the row stays sent however often the report is repeated; queue, attempt, report: it is delivered |
| `DeliveryLaws.WebhookDecidesRow` | apps/api/eastmed_api/whatsapp.py:93-124 | the first new report on a row that is not terminal decides it: "failed" leaves it failed, "delivered" or "read" delivered at the report's time, or the receipt's if that is missing or before the send time |
| `DeliveryLaws.FirstReportDecides` | apps/api/eastmed_api/whatsapp.py:93-124 | a sent row ends failed, without a delivery time, if and only if its first new report is a failed one, and delivered if and only if it is a delivered or read one |
| `DeliveryLaws.DeliveredOnlyIfReported` | apps/api/eastmed_api/whatsapp.py:93-203 | in every run a WhatsApp row becomes delivered only if a webhook reports its reference as delivered or read |
| `DeliveryLaws.TargetExactly` | apps/api/eastmed_api/whatsapp.py:171-194 | a report is about the last alert delivery with its reference, or else the last such correction delivery |
| `DeliveryLaws.SummaryExactly` | apps/api/eastmed_api/whatsapp.py:134-222 | the summary counts the rows changed, the new events without a row, and the events that were not new |
| `DeliveryLaws.SummaryAddsUp` | apps/api/eastmed_api/whatsapp.py:218-222 | no event is counted twice in the summary |
| `DeliveryLaws.BatchIsOldestDue` | packages/pipeline/eastmed_pipeline/delivery.py:349-361 | a batch is made of distinct due rows, and no due row outside it is older than one inside |
| `DeliveryLaws.DispatchTriesTheBatch` | packages/pipeline/eastmed_pipeline/delivery.py:362-373 | a dispatch tries every row of its batch exactly once and touches no other |
| `DeliveryLaws.DispatchOutcome` | packages/pipeline/eastmed_pipeline/delivery.py:269-373 | every due row of the kind in a batch that is not full is sent, delivered, queued again with its wait, or failed when no attempt is left, as the provider answers |
| `DeliveryLaws.AttemptOutcome` | packages/pipeline/eastmed_pipeline/delivery.py:269-334 | the same for one attempt on a queued row |
| `DeliveryLaws.DispatchCounts` | packages/pipeline/eastmed_pipeline/delivery.py:362-373 | a dispatch counts the rows of its batch that the providers accepted |
| `DeliveryLaws.OnlyReportsDeliverWhatsApp` | packages/pipeline/eastmed_pipeline/delivery.py:314-319 | an attempt leaves a WhatsApp row at most sent, and any other row at once delivered or not sent at all |
| `DeliveryLaws.StaleBatchSkipsTheWait` | packages/pipeline/eastmed_pipeline/delivery.py:271-276 | an attempt out of an older batch tries a refused row again, whatever its answer and time, and skips the wait if and only if the backoff has not passed |
| `DeliveryLaws.DispatchChangesOnlyDueRows` | packages/pipeline/eastmed_pipeline/delivery.py:349-373 | a dispatch changes a row if and only if it is in the batch, and so only rows that are due at that moment |
| `DeliveryLaws.RefusedRowIsDueExactly` | packages/pipeline/eastmed_pipeline/delivery.py:325-332 | after a refusal with attempts left a row is not due exactly until the backoff has passed |
| `DeliveryLaws.OnlyAStaleAttemptSkipsTheWait` | packages/pipeline/eastmed_pipeline/delivery.py:271-276 | while a row waits, a step changes it if and only if it is an attempt on this row out of an older batch |
| `DeliveryLaws.RunKeepsTheWait` | packages/pipeline/eastmed_pipeline/delivery.py:337-373 | every run without such an attempt leaves a waiting row as it is |
| `Alerts.AlertDesk.BuildAlertPlan` | apps/api/eastmed_api/alerts.py:229-394 | the loops over accounts, users and channels build exactly the specified audience, previews, blockers and hash |
| `Alerts.AlertDesk.ReleaseAlert` | apps/api/eastmed_api/alerts.py:397-502 | adds exactly one alert with the planned deliveries, replays, or refuses and adds nothing |
| `AlertLaws.AudienceExactly` | apps/api/eastmed_api/alerts.py:292-353 | a user is planned on a channel if and only if their account is matched and not throttled and they can be reached on it |
| `AlertLaws.MatchedExactly` | apps/api/eastmed_api/alerts.py:229-300 | an account matches through its own active profile if and only if tier, severity, dates, corridors, event types, ports and geometry all fit |
| `AlertLaws.ThrottledExactly` | apps/api/eastmed_api/alerts.py:120-127 | an account is throttled if and only if the alerts that reached it since the day began are as many as its cap and the event does not bypass it |
| `AlertLaws.OldAlertsDoNotMatter` | apps/api/eastmed_api/alerts.py:296-303 | books that differ only in alerts of earlier days have the same audience and previews |
| `AlertLaws.RoomMeansServed` | apps/api/eastmed_api/alerts.py:292-353 | a reachable user of a matched account with room since the day began is planned |
| `AlertLaws.PreviewExactly` | apps/api/eastmed_api/alerts.py:292-353 | what an account's line of the preview shows: matches, users, alerts of the day, cap, throttling |
| `AlertLaws.LinesExactly` | apps/api/eastmed_api/alerts.py:292-353 | the preview has exactly the lines of the matched accounts |
| `AlertLaws.CountsAddUp` | apps/api/eastmed_api/alerts.py:313-353 | the accounts' delivery counts add up to the planned deliveries |
| `AlertLaws.ReachedAccountHadRoom` | apps/api/eastmed_api/alerts.py:120-127 | an account that a release reaches was under its cap or bypassed it |
| `AlertLaws.DailyCapHolds` | apps/api/eastmed_api/alerts.py:120-127 | over every run, with clocks that may go back, the alerts reaching an account on one day, apart from severity-4 bypasses, never exceed its cap |
| `AlertLaws.ReplayAddsNothing` | apps/api/eastmed_api/alerts.py:406-430 | a repeated release adds neither alert nor delivery, whatever happened in between |
| `AlertLaws.ReleasedAsPreviewed` | apps/api/eastmed_api/alerts.py:432-447 | a release goes to exactly the audience that its preview showed |
| `AlertLaws.ReleasedExactly` | apps/api/eastmed_api/alerts.py:397-502 | a new alert is released if and only if the preview is current and somebody is reached; a repeated one is answered if and only if channels, analyst, note and preview agree |
| `GoldEvaluation.ExtractClaims` | packages/pipeline/eastmed_pipeline/gold_evaluation.py:119-156 | the loop collects the grounded quotes and counts the ungrounded ones, or stops at the first error |
| `GoldEvaluation.EvaluateRecords` | packages/pipeline/eastmed_pipeline/gold_evaluation.py:210-275 | the evaluation equals its specification, errors included |
| `GoldLaws.ExtractExactly` | packages/pipeline/eastmed_pipeline/gold_evaluation.py:90-156 | extraction succeeds if and only if every claim is well formed, and counts every claim exactly once |
| `GoldLaws.ExtractedExactly` | packages/pipeline/eastmed_pipeline/gold_evaluation.py:119-156 | a quote counts once for each of its claims that declares no offsets or the right ones, and each claim with wrong offsets counts as ungrounded |
| `GoldLaws.ValidExactly` | packages/pipeline/eastmed_pipeline/gold_evaluation.py:159-181 | when a reference record is valid, and whether it counts |
| `GoldLaws.ScoreConserves` | packages/pipeline/eastmed_pipeline/gold_evaluation.py:184-207 | true and false positives are the predictions, true positives and false negatives the expectations |
| `GoldLaws.ForeignQuotesScoreNothing` | packages/pipeline/eastmed_pipeline/gold_evaluation.py:191-197 | predictions that quote nothing of their own document's reference score nothing |
| `GoldLaws.PerfectScore` | packages/pipeline/eastmed_pipeline/gold_evaluation.py:184-207 | predicting exactly the reference is a perfect score |
| `GoldTheorems.EvaluateExactly` | packages/pipeline/eastmed_pipeline/gold_evaluation.py:210-275 | an evaluation succeeds if and only if its inputs are acceptable, and its totals are sums of the records' contributions, overall and per language |
| `GoldTheorems.OrderIsIrrelevant` | packages/pipeline/eastmed_pipeline/gold_evaluation.py:217-261 | permuting records and predictions changes neither success nor any number |
| `GoldTheorems.ReportConserves` | packages/pipeline/eastmed_pipeline/gold_evaluation.py:247-261 | the counts add up overall and for every language |
| `GoldTheorems.OverallIsSumOfLanguages` | packages/pipeline/eastmed_pipeline/gold_evaluation.py:258-261 | the overall counts are the sum of the languages' |
| `GoldTheorems.OneRecordMovesOnlyItself` | packages/pipeline/eastmed_pipeline/gold_evaluation.py:244-261 | changing one record's predictions exchanges exactly its own contribution, overall and in its own language, and moves no other language |
| `GoldTheorems.PoolingNeverScoresLower` | packages/pipeline/eastmed_pipeline/gold_evaluation.py:191-199 | the summed per-document true positives never exceed the pooled multiset score |
| `GoldTheorems.PoolingHidesExchangedQuotes` | packages/pipeline/eastmed_pipeline/gold_evaluation.py:191-199 | two documents with different quotes and exchanged predictions have no true positive, while their pooled score would be perfect |
| `GoldTheorems.PoolingGainsWhatCrosses` | packages/pipeline/eastmed_pipeline/gold_evaluation.py:191-199 | the pooled score is the summed per-document one plus exactly the quotes that cross between documents |
| `GoldTheorems.PoolingIsHonestExactly` | packages/pipeline/eastmed_pipeline/gold_evaluation.py:191-199 | the pooled score is the per-document one if and only if no quote is missed in one document and wrongly predicted in another |
| `Reconciliation.ResolveRows` | packages/pipeline/eastmed_pipeline/reconciliation_case.py:97-113 | the loops find the row with the newest revision, or none |
| `Reconciliation.FindPlans` | packages/pipeline/eastmed_pipeline/reconciliation_case.py:116-167 | the loop keeps the plans of the report's vessel, voyage and interval, and none if two lineages compete |
| `Reconciliation.ComputeCaseResult` | packages/pipeline/eastmed_pipeline/reconciliation_case.py:170-252 | the loops compute the written result, with the leftover variable of line 228 |
| `Reconciliation.ReconstructEvidence` | packages/pipeline/eastmed_pipeline/reconciliation_case.py:302-343 | the loops rebuild one fact per resolved group |
| `ReconciliationLaws.PlansExactly` | packages/pipeline/eastmed_pipeline/reconciliation_case.py:116-167 | the plans of an observation are exactly those of the same vessel, voyage, grade and interval, in force over it, or none if its report is not the job's or they come from several documents |
| `ReconciliationLaws.KeysExactly` | packages/pipeline/eastmed_pipeline/reconciliation_case.py:192-196 | there is a group for each grade and interval of the job's observations |
| `ReconciliationLaws.GroupsExactly` | packages/pipeline/eastmed_pipeline/reconciliation_case.py:192-215 | a group holds all observations of its grade and interval |
| `ReconciliationLaws.LineExactly` | packages/pipeline/eastmed_pipeline/reconciliation_case.py:202-236 | what each group's line says, with the reason when it is unresolved, and which rows are its evidence |
| `ReconciliationLaws.VarianceExactly` | packages/shared/eastmed_shared/reconciliation/calculator.py:125-180 | what the calculator answers and refuses |
| `ReconciliationLaws.RoundedExactly` | packages/shared/eastmed_shared/reconciliation/calculator.py:73-74 | rounding to hundredths, halves away from zero |
| `ReconciliationLaws.ResolveExactly` | packages/pipeline/eastmed_pipeline/reconciliation_case.py:97-113 | an observation is chosen if and only if it is the only one or has the unique greatest integer revision |
| `ReconciliationLaws.ResolvePermutes` | packages/pipeline/eastmed_pipeline/reconciliation_case.py:97-113 | the choice does not depend on the order of the rows |
| `ReconciliationLaws.IntendedIgnoresOrder` | packages/pipeline/eastmed_pipeline/reconciliation_case.py:170-252 | the intended result and the evidence, with the written result's evidence, are the same for every order of the rows |
| `LeftoverLaws.WrittenIsIntendedExactly` | packages/pipeline/eastmed_pipeline/reconciliation_case.py:228 | the written result is the intended one if and only if the last row agrees with every calculated group's current one |
| `LeftoverLaws.SingleObservationIsIntended` | packages/pipeline/eastmed_pipeline/reconciliation_case.py:228 | a job with at most one observation is not affected |
| `LeftoverLaws.IntendedCompletesExactly` | packages/shared/eastmed_shared/reconciliation/verifier.py:136-196 | the intended result completes if and only if there is a group and every group has comparable quantities |
| `LeftoverLaws.WrittenCompletesExactly` | packages/shared/eastmed_shared/reconciliation/verifier.py:136-196 | the written result completes if and only if there is one group and the last row has its current value and its plan's unit |
| `LeftoverLaws.TwoGroupsNeverComplete` | packages/pipeline/eastmed_pipeline/reconciliation_case.py:228 | no job with two grades or intervals completes |
| `LeftoverLaws.CompletedIsIntendedExactly` | packages/shared/eastmed_shared/reconciliation/verifier.py:105-133 | a completed written result is the intended one if and only if the current observation has the plan's unit |
| `LeftoverLaws.WrittenDependsOnOrder` | packages/pipeline/eastmed_pipeline/reconciliation_case.py:192-228 | the same rows in two orders: one result completes as intended, the other uses the superseded value |
| `CaseVersions.VersionTable.CommitCaseVersion` | packages/pipeline/eastmed_pipeline/reconciliation_case.py:274-299 | appends one version that counts on from and supersedes the latest |
| `CaseVersions.VersionTable.CommitOnce` | packages/pipeline/eastmed_pipeline/reconciliation_dispatch.py:198-215 | returns the version with this content or commits one |
| `CaseVersions.VersionTable.ReadBack` | packages/pipeline/eastmed_pipeline/reconciliation_case.py:408-420 | true exactly for a version whose payload hashes to its content hash |
| `CaseVersions.RunIsChained` | packages/pipeline/eastmed_pipeline/reconciliation_case.py:274-299 | in every run a case's versions are numbered 1..n, each supersedes the one before, no content is committed twice and every version reads back |
| `CaseVersions.CommittedExactly` | packages/pipeline/eastmed_pipeline/reconciliation_dispatch.py:198-215 | a reconciliation returns a version with the result's payload, new if and only if there was none |
| `CaseVersions.ReplayAppendsNothing` | packages/pipeline/eastmed_pipeline/reconciliation_dispatch.py:198-215 | reconciling to a result the case already has commits nothing |
| `CaseVersions.ReturnsLatestExactly` | packages/pipeline/eastmed_pipeline/reconciliation_dispatch.py:198-228 | the returned version is the one to be published if and only if the result is new or is the latest |
| `CaseVersions.ReturnToEarlierResult` | packages/pipeline/eastmed_pipeline/reconciliation_dispatch.py:364-373 | going back to an earlier result leaves the later one to be published |
| `AiGovernance.GovernanceDesk.SetCapabilityControl` | apps/api/eastmed_api/ai_governance.py:338-401 | appends exactly the next control of the scope, or refuses and changes nothing |
| `AiGovernance.GovernanceDesk.CapabilityDecision` | apps/api/eastmed_api/ai_governance.py:404-476 | the cascade of returns decides as specified |
| `AiGovernance.GovernanceDesk.CreateAiIncident` | apps/api/eastmed_api/ai_incidents.py:133-190 | stores the incident, and with high severity the stop, together or not at all |
| `AiGovernance.GovernanceDesk.AppendIncidentEvent` | apps/api/eastmed_api/ai_incidents.py:193-246 | appends the next lifecycle entry or refuses and changes nothing |
| `AiGovernanceLaws.RunOk` | apps/api/eastmed_api/ai_governance.py:300-372 | in every run controls are appended and numbered 1..n per scope, no automated mode is stored, enabling ones are set under MFA for at most thirty days, and incidents close only by the rules |
| `AiGovernanceLaws.StopsDominate` | apps/api/eastmed_api/ai_incidents.py:148-170 | after a stored high or critical incident every decision that its scope governs is denied until a control owner re-enables it under MFA |
| `AiGovernanceLaws.EventsNeverTouchControls` | apps/api/eastmed_api/ai_incidents.py:193-246 | no incident event changes a control |
| `AiGovernanceLaws.AllowedIsRecent` | apps/api/eastmed_api/ai_governance.py:404-485 | an allowed decision lies within thirty days of both governing controls' change times and matches the bound fingerprint |
| `AiGovernanceTheorems.AllowedExactly` | apps/api/eastmed_api/ai_governance.py:404-485 | a call is allowed if and only if the global control in force is enabled and unexpired and, for a capability, so is its own and the fingerprint is that of its system |
| `AiGovernanceTheorems.GrantsHold` | apps/api/eastmed_api/ai_governance.py:338-485 | after a control owner has enabled all calls and a capability, every decision under the system's fingerprint is allowed until one of the two controls expires or is changed |
| `AiGovernanceTheorems.ControlAcceptedExactly` | apps/api/eastmed_api/ai_governance.py:300-401 | when a change of a control is accepted, and the control it appends |
| `AiGovernanceTheorems.IncidentStoredExactly` | apps/api/eastmed_api/ai_incidents.py:133-190 | when an incident is stored, its first entry and the control that stops the scope |
| `AiGovernanceTheorems.EventAcceptedExactly` | apps/api/eastmed_api/ai_incidents.py:193-246 | when a lifecycle entry is accepted, and the entry it appends |
| `AiGovernanceLaws.HighReportIsStoredExactly` | apps/api/eastmed_api/ai_incidents.py:150-168 | a high report by a person is stored if and only if title and summary together have at most 1966 characters |
| `AiGovernanceLaws.AcceptedReportIsRefused` | apps/api/eastmed_api/ai_incidents.py:150-168 | with a title of 5 characters, both within the report contract, a summary of 1961 is stored and one of 1962 is refused and leaves nothing stopped |
| `AisCache.CorridorForPosition` | packages/pipeline/eastmed_pipeline/ais_cache.py:75-82 | the first box that contains the position names the corridor, and without one there is none |
| `AisCache.BoxesOverlapOnlyAtSuez` | packages/pipeline/eastmed_pipeline/ais_cache.py:30-37 | only the Suez approaches lie in two boxes |
| `AisCache.MessageTime` | packages/pipeline/eastmed_pipeline/ais_cache.py:99-113 | a message time is the parsed time, or the time of receipt if there is none or it is more than five minutes ahead |
| `AisCache.PositionCache.CacheObservation` | packages/pipeline/eastmed_pipeline/ais_cache.py:184-209 | a row is created, or overwritten by an observation that is not older |
| `AisCache.CacheHoldsTheWinner` | packages/pipeline/eastmed_pipeline/ais_cache.py:204-209 | per vessel the cache holds the last to arrive among the observations with the greatest message time |
| `AisCache.OrderIsIrrelevant` | packages/pipeline/eastmed_pipeline/ais_cache.py:184-209 | with distinct message times the order of arrival does not matter |
| `AisCache.TiesGoToTheLastArrival` | packages/pipeline/eastmed_pipeline/ais_cache.py:204 | with equal message times it does |
| `AisCache.CachedTimeNeverGoesBack` | packages/pipeline/eastmed_pipeline/ais_cache.py:204 | a vessel's cached message time never goes back |

## Left out

- HTTP routes, identity providers, the web application, scripts and read models: they contain no protocol of their own.
- Provider calls (language model, e-mail, Telegram, WhatsApp, position stream): each is a parameter that says what was answered.
- SHA-256, JSON encoding, regular expressions and Unicode tables: see Conventions. `Common.Fold` folds ASCII letters only.
- Audit log rows: written beside each change and read by none of the modelled decisions.
- Concurrency below a call: two inbox requests filed at the same moment are ordered, as a serializable database would order them. The unique constraint on a version's approval is not modelled, because it is proved never to fire.
- Corrections: their approval, issue and preview repeat the publication protocol with less state; the approval of a correction is a parameter of the inbox, and their deliveries share `Delivery`.
- An event's attributes other than its severity, and a claim's coordinates, are one opaque value that the canonical release contains whole.
- The message texts of errors, the removal of duplicate messages (publication.py:135) and the display checks derived from them (publication.py:371-425), whose search words do not cover every message; a refused approval reports the first policy error instead of the first failed display check.
- EditorialDesk.Session.LinkEvidence: a record's existence, its assignment to the event and what its source's rights allow are facts given to the call.
- ProposalBatch.GenerateProposals: cosine over embedding vectors and the clamped, rounded scores stored for display are a parameter.
- ExtractionRun.ExtractionDesk.ProcessSourceRecord: token totals, response hashes and the race on the run's unique key, which returns the other worker's run.
- Delivery.Outbox.DeliverRow: message rendering, the last error text and a row whose alert is missing, which a foreign key excludes.
- Delivery.Outbox.ProcessWebhook: the payload is already parsed into events, with its limits on length.
- Alerts.AlertDesk.BuildAlertPlan: what a user's channel settings resolve to is a map from channels to addresses; the fallback from a version's snapshot to the current event is left out.
- GoldEvaluation.EvaluateRecords: a quote or field of the wrong JSON type counts as blank, missing or malformed; ratios, which divide the modelled counts, are left out.
- Reconciliation.ComputeCaseResult: one account's rows only; Decimal quantities are reals, so a division is exact before it is rounded to hundredths.
- Reconciliation's leases, fencing, publication executor and stage driver are not part of this model.
- CaseVersions.VersionTable.CommitOnce: payloads and evidence are opaque documents; which of several equal versions a query returns does not arise, since content is proved unique per case.
- AiGovernance.GovernanceDesk.SetCapabilityControl: scope strings are given as what normalization and the scope pattern make of them; approval references are left out.
- AisCache.PositionCache.CacheObservation: parsing of stream messages is left out apart from the message time and the corridor.
