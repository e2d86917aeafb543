/**
 * Complete-document segmentation (claim_extraction.py, `segment_document`).
 *
 * The segmenter walks forward over a document.  It prefers to cut a window just after a line or
 * sentence break found in the window's second half, and it backs up by a fixed overlap
 * before opening the next window.
 */
module Segmentation {
  import opened Common

  datatype Segment = Segment(index: nat, start: nat, end: nat, text: string)

  datatype SegmentError = SizeNotPositive | OverlapOutOfRange | FailedToAdvance

  const PARAGRAPH := "\n\n"
  const LINE := "\n"
  const SENTENCE := ". "

  predicate LegalSizes(maxChars: int, overlapChars: int) {
    0 < maxChars && 0 <= overlapChars && overlapChars * 4 <= maxChars
  }

  // ---------------------------------------------------------------------------------------
  // Where a window is cut
  // ---------------------------------------------------------------------------------------

  /** `needle` occupies positions `i ..` of `text`, wholly inside the window `[lo, hi)`. */
  predicate OccursAt(text: string, needle: string, lo: nat, hi: nat, i: int) {
    lo <= i && i + |needle| <= hi <= |text| && text[i..i + |needle|] == needle
  }

  /** Position `p` directly follows a line or sentence break that begins at or after `lo`. */
  predicate FollowsBreak(text: string, lo: nat, p: nat)
    requires p <= |text|
  {
    || (lo + 1 <= p && text[p - 1] == '\n')
    || (lo + 2 <= p && text[p - 2] == '.' && text[p - 1] == ' ')
  }

  function HardEnd(text: string, maxChars: nat, start: nat): nat {
    if start + maxChars < |text| then start + maxChars else |text|
  }

  /** `end` is the cut the segmenter promises for the window that opens at `start`. */
  ghost predicate IsCut(text: string, maxChars: nat, start: nat, end: nat) {
    var hard := HardEnd(text, maxChars, start);
    var lo := start + maxChars / 2;
    if hard == |text| || forall p | lo < p <= hard :: !FollowsBreak(text, lo, p) then
      end == hard
    else
      && lo < end <= hard
      && FollowsBreak(text, lo, end)
      && forall p | end < p <= hard :: !FollowsBreak(text, lo, p)
  }

  // ---------------------------------------------------------------------------------------
  // What the whole list of segments promises
  // ---------------------------------------------------------------------------------------

  ghost predicate Chained(text: string, maxChars: nat, overlapChars: nat, segments: seq<Segment>) {
    && (forall i | 0 <= i < |segments| ::
          && segments[i].index == i
          && segments[i].start < segments[i].end <= |text|
          && segments[i].text == text[segments[i].start..segments[i].end]
          && IsCut(text, maxChars, segments[i].start, segments[i].end))
    && (segments != [] ==> segments[0].start == 0)
    && (forall i | 0 < i < |segments| :: segments[i].start == segments[i - 1].end - overlapChars)
    && (forall i | 0 <= i < |segments| - 1 :: segments[i].end < |text|)
  }

  ghost predicate IsSegmentation(text: string, maxChars: nat, overlapChars: nat, segments: seq<Segment>) {
    && Chained(text, maxChars, overlapChars, segments)
    && (text == "" <==> segments == [])
    && (segments != [] ==> segments[|segments| - 1].end == |text|)
  }

  /** What Python's `str.rfind(needle, lo, hi)` returns. */
  ghost predicate LastOccurrence(text: string, needle: string, lo: nat, hi: nat, found: int) {
    && (found == -1 || OccursAt(text, needle, lo, hi, found))
    && forall i | found < i && lo <= i :: !OccursAt(text, needle, lo, hi, i)
  }

  method RFind(text: string, needle: string, lo: nat, hi: nat) returns (found: int)
    requires lo <= hi <= |text| && needle != ""
    ensures LastOccurrence(text, needle, lo, hi, found)
  {
    found := hi - |needle|;
    while lo <= found
      invariant forall i | found < i && lo <= i :: !OccursAt(text, needle, lo, hi, i)
    {
      if text[found..found + |needle|] == needle {
        return;
      }
      found := found - 1;
    }
    found := -1;
  }

  function Max(a: int, b: int): int {
    if a >= b then a else b
  }

  /** The largest of the three candidate breaks is the promised cut. */
  lemma BoundaryIsCut(text: string, maxChars: nat, start: nat, paragraph: int, line: int, sentence: int)
    requires 0 < maxChars && start + maxChars < |text|
    requires LastOccurrence(text, PARAGRAPH, start + maxChars / 2, start + maxChars, paragraph)
    requires LastOccurrence(text, LINE, start + maxChars / 2, start + maxChars, line)
    requires LastOccurrence(text, SENTENCE, start + maxChars / 2, start + maxChars, sentence)
    ensures var boundary := Max(paragraph + 2, Max(line + 1, sentence + 2));
            IsCut(text, maxChars, start,
                  if boundary > start + maxChars / 2 then boundary else start + maxChars)
  {
    var lo, hard := start + maxChars / 2, start + maxChars;
    var boundary := Max(paragraph + 2, Max(line + 1, sentence + 2));
    ParagraphNeverWins(text, lo, hard, paragraph, line);
    if line != -1 {
      assert text[line..line + 1][0] == '\n';
      assert FollowsBreak(text, lo, line + 1);
    }
    if sentence != -1 {
      assert text[sentence..sentence + 2][0] == '.' && text[sentence..sentence + 2][1] == ' ';
      assert FollowsBreak(text, lo, sentence + 2);
    }
    forall p | lo < p <= hard && FollowsBreak(text, lo, p)
      ensures p <= boundary
    {
      if lo + 1 <= p && text[p - 1] == '\n' {
        assert OccursAt(text, LINE, lo, hard, p - 1);
      } else {
        assert OccursAt(text, SENTENCE, lo, hard, p - 2);
      }
    }
  }

  /**
   * The paragraph search never decides a cut: a paragraph break ends in a line break, so the
   * line search already finds a boundary at least as late.
   */
  lemma ParagraphNeverWins(text: string, lo: nat, hi: nat, paragraph: int, line: int)
    requires LastOccurrence(text, PARAGRAPH, lo, hi, paragraph)
    requires LastOccurrence(text, LINE, lo, hi, line)
    ensures paragraph + 2 <= Max(line + 1, 1)
  {
    if paragraph != -1 {
      assert text[paragraph..paragraph + 2][1] == '\n';
      assert OccursAt(text, LINE, lo, hi, paragraph + 1);
    }
  }

  /** A cut leaves more than half a window behind it unless the document ends there. */
  lemma CutAdvances(text: string, maxChars: nat, start: nat, end: nat)
    requires 0 < maxChars && start < |text| && IsCut(text, maxChars, start, end)
    ensures start < end <= |text| && end <= start + maxChars
    ensures end < |text| ==> start + maxChars / 2 < end
  {
  }

  lemma ExtendChain(text: string, maxChars: nat, overlapChars: nat, segments: seq<Segment>, next: Segment)
    requires Chained(text, maxChars, overlapChars, segments)
    requires next.index == |segments| && next.start < next.end <= |text| && next.text == text[next.start..next.end]
    requires IsCut(text, maxChars, next.start, next.end)
    requires segments == [] ==> next.start == 0
    requires segments != [] ==>
               && segments[|segments| - 1].end < |text|
               && next.start == segments[|segments| - 1].end - overlapChars
    ensures Chained(text, maxChars, overlapChars, segments + [next])
  {
    var extended := segments + [next];
    forall i | 0 <= i < |extended|
      ensures IsCut(text, maxChars, extended[i].start, extended[i].end)
    {
      if i < |segments| {
        assert extended[i] == segments[i];
      }
    }
  }

  method FindCut(document: string, maxChars: nat, start: nat) returns (end: nat)
    requires 0 < maxChars && start < |document|
    ensures IsCut(document, maxChars, start, end)
  {
    var hardEnd := HardEnd(document, maxChars, start);
    end := hardEnd;
    if hardEnd < |document| {
      var minimumBoundary := start + maxChars / 2;
      var paragraph := RFind(document, PARAGRAPH, minimumBoundary, hardEnd);
      var line := RFind(document, LINE, minimumBoundary, hardEnd);
      var sentence := RFind(document, SENTENCE, minimumBoundary, hardEnd);
      var boundary := Max(paragraph + 2, Max(line + 1, sentence + 2));
      BoundaryIsCut(document, maxChars, start, paragraph, line, sentence);
      if boundary > minimumBoundary {
        end := boundary;
      }
    }
  }

  method SegmentDocument(document: string, maxChars: int, overlapChars: int)
    returns (result: Result<seq<Segment>, SegmentError>)
    ensures maxChars <= 0 ==> result == Err(SizeNotPositive)
    ensures 0 < maxChars && !LegalSizes(maxChars, overlapChars) ==> result == Err(OverlapOutOfRange)
    ensures LegalSizes(maxChars, overlapChars) ==>
              result.Ok? && IsSegmentation(document, maxChars, overlapChars, result.value)
  {
    if maxChars <= 0 {
      return Err(SizeNotPositive);
    }
    if overlapChars < 0 || overlapChars * 4 > maxChars {
      return Err(OverlapOutOfRange);
    }
    if document == "" {
      return Ok([]);
    }
    var segments: seq<Segment> := [];
    var start := 0;
    var failed := false;
    while start < |document| && !failed
      invariant 0 <= start < |document| && !failed
      invariant Chained(document, maxChars, overlapChars, segments)
      invariant start == if segments == [] then 0 else segments[|segments| - 1].end - overlapChars
      invariant segments != [] ==> segments[|segments| - 1].end < |document|
      decreases |document| - start
    {
      var end := FindCut(document, maxChars, start);
      CutAdvances(document, maxChars, start, end);
      var next := Segment(|segments|, start, end, document[start..end]);
      ExtendChain(document, maxChars, overlapChars, segments, next);
      segments := segments + [next];
      if end == |document| {
        break;
      }
      var nextStart := end - overlapChars;
      failed := nextStart <= start;
      start := nextStart;
    }
    result := if failed then Err(FailedToAdvance) else Ok(segments);
  }
}
