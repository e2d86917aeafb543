/** What every segmentation of a document guarantees (claim_extraction.py:354-391). */
module SegmentationLaws {
  import opened Common
  import opened Segmentation

  /** Drops from every segment the overlap it shares with its predecessor and joins the rest. */
  function Rejoin(segments: seq<Segment>, overlapChars: nat): string
    requires forall i | 0 < i < |segments| :: overlapChars <= |segments[i].text|
  {
    if segments == [] then ""
    else if |segments| == 1 then segments[0].text
    else Rejoin(segments[..|segments| - 1], overlapChars) + segments[|segments| - 1].text[overlapChars..]
  }

  /** Neighbours share exactly the overlap, and each adds at least one new character. */
  lemma NeighboursOverlapAndAdvance(text: string, maxChars: nat, overlapChars: nat, segments: seq<Segment>, i: nat)
    requires LegalSizes(maxChars, overlapChars) && Chained(text, maxChars, overlapChars, segments)
    requires i + 1 < |segments|
    ensures segments[i].start < segments[i + 1].start < segments[i].end + 1
    ensures segments[i].end < segments[i + 1].end <= segments[i + 1].start + maxChars
    ensures segments[i].end - segments[i + 1].start == overlapChars
    ensures segments[i].text[|segments[i].text| - overlapChars..] == segments[i + 1].text[..overlapChars]
    ensures segments[i].start + maxChars / 2 + 1 - overlapChars <= segments[i + 1].start
  {
    var s, t := segments[i], segments[i + 1];
    assert t.start == segments[i + 1 - 1].end - overlapChars;
    CutAdvances(text, maxChars, s.start, s.end);
    CutAdvances(text, maxChars, t.start, t.end);
    assert t.start + overlapChars == s.end < t.end;
    assert text[s.start..s.end][|s.text| - overlapChars..] == text[t.start..s.end] == text[t.start..t.end][..overlapChars];
  }

  lemma {:induction false} EndsIncrease(text: string, maxChars: nat, overlapChars: nat, segments: seq<Segment>, i: nat, j: nat)
    requires LegalSizes(maxChars, overlapChars) && Chained(text, maxChars, overlapChars, segments)
    requires i < j < |segments|
    ensures segments[i].start < segments[j].start && segments[i].end < segments[j].end
    decreases j
  {
    NeighboursOverlapAndAdvance(text, maxChars, overlapChars, segments, j - 1);
    if i < j - 1 {
      EndsIncrease(text, maxChars, overlapChars, segments, i, j - 1);
    }
  }

  lemma LongerThanOverlap(text: string, maxChars: nat, overlapChars: nat, segments: seq<Segment>)
    requires LegalSizes(maxChars, overlapChars) && Chained(text, maxChars, overlapChars, segments)
    ensures forall i | 0 < i < |segments| :: overlapChars < |segments[i].text|
  {
    forall i | 0 < i < |segments| ensures overlapChars < |segments[i].text| {
      NeighboursOverlapAndAdvance(text, maxChars, overlapChars, segments, i - 1);
    }
  }

  /** Nothing is lost: dropping the overlaps rebuilds the document. */
  lemma {:induction false} RejoinRebuilds(text: string, maxChars: nat, overlapChars: nat, segments: seq<Segment>)
    requires LegalSizes(maxChars, overlapChars) && Chained(text, maxChars, overlapChars, segments)
    requires segments != []
    requires forall i | 0 < i < |segments| :: overlapChars < |segments[i].text|
    ensures Rejoin(segments, overlapChars) == text[..segments[|segments| - 1].end]
  {
    var n := |segments|;
    var front, last := segments[..n - 1], segments[n - 1];
    if n == 1 {
      assert last.start == 0 && last.text == text[last.start..last.end];
    } else {
      ChainedPrefix(text, maxChars, overlapChars, segments);
      RejoinRebuilds(text, maxChars, overlapChars, front);
      assert last.start == segments[n - 2].end - overlapChars;
      Seam(text, last.start, overlapChars, last.end);
    }
  }

  lemma Seam(text: string, start: nat, overlapChars: nat, end: nat)
    requires start + overlapChars <= end <= |text|
    ensures text[..start + overlapChars] + text[start..end][overlapChars..] == text[..end]
  {
  }

  lemma ChainedPrefix(text: string, maxChars: nat, overlapChars: nat, segments: seq<Segment>)
    requires Chained(text, maxChars, overlapChars, segments) && segments != []
    ensures Chained(text, maxChars, overlapChars, segments[..|segments| - 1])
  {
  }

  /** The whole document comes back, and the recorded segments are all legal in size. */
  lemma DocumentRebuilt(text: string, maxChars: nat, overlapChars: nat, segments: seq<Segment>)
    requires LegalSizes(maxChars, overlapChars) && IsSegmentation(text, maxChars, overlapChars, segments)
    ensures forall i | 0 < i < |segments| :: overlapChars < |segments[i].text|
    ensures Rejoin(segments, overlapChars) == text
    ensures forall s | s in segments :: 0 < |s.text| <= maxChars
  {
    LongerThanOverlap(text, maxChars, overlapChars, segments);
    if segments != [] {
      RejoinRebuilds(text, maxChars, overlapChars, segments);
    }
    forall s | s in segments ensures 0 < |s.text| <= maxChars {
      CutAdvances(text, maxChars, s.start, s.end);
    }
  }

  ghost predicate Inside(segments: seq<Segment>, a: nat, b: nat) {
    exists i | 0 <= i < |segments| :: segments[i].start <= a && b <= segments[i].end
  }

  /** A quote no longer than the overlap plus one is never split by a cut. */
  lemma ShortQuoteNeverSplit(text: string, maxChars: nat, overlapChars: nat, segments: seq<Segment>, a: nat, b: nat)
    requires LegalSizes(maxChars, overlapChars) && IsSegmentation(text, maxChars, overlapChars, segments)
    requires a < b <= |text| && b - a <= overlapChars + 1
    ensures Inside(segments, a, b)
  {
    var i := |segments| - 1;
    while i > 0 && b <= segments[i - 1].end
      invariant 0 <= i < |segments| && b <= segments[i].end
    {
      i := i - 1;
    }
    assert i > 0 ==> segments[i].start == segments[i - 1].end - overlapChars;
    assert segments[i].start <= a;
  }

  /** That length is the exact limit: every interior cut splits a quote one character longer. */
  lemma LongerQuoteSplitAtEveryCut(text: string, maxChars: nat, overlapChars: nat, segments: seq<Segment>, i: nat)
    requires LegalSizes(maxChars, overlapChars) && IsSegmentation(text, maxChars, overlapChars, segments)
    requires i + 1 < |segments|
    ensures var a, b := segments[i].end - overlapChars - 1, segments[i].end + 1;
            0 <= a && b <= |text| && b - a == overlapChars + 2 && !Inside(segments, a, b)
  {
    var a, b := segments[i].end - overlapChars - 1, segments[i].end + 1;
    NeighboursOverlapAndAdvance(text, maxChars, overlapChars, segments, i);
    forall j | 0 <= j < |segments| ensures !(segments[j].start <= a && b <= segments[j].end) {
      if j < i {
        EndsIncrease(text, maxChars, overlapChars, segments, j, i);
      } else if j > i + 1 {
        EndsIncrease(text, maxChars, overlapChars, segments, i + 1, j);
      }
    }
  }

  lemma {:induction false} StartLowerBound(text: string, maxChars: nat, overlapChars: nat, segments: seq<Segment>, i: nat)
    requires LegalSizes(maxChars, overlapChars) && Chained(text, maxChars, overlapChars, segments)
    requires i < |segments|
    ensures i * (maxChars / 2 + 1 - overlapChars) <= segments[i].start
  {
    if i > 0 {
      StartLowerBound(text, maxChars, overlapChars, segments, i - 1);
      NeighboursOverlapAndAdvance(text, maxChars, overlapChars, segments, i - 1);
      assert i * (maxChars / 2 + 1 - overlapChars)
          == (i - 1) * (maxChars / 2 + 1 - overlapChars) + (maxChars / 2 + 1 - overlapChars);
    }
  }

  /** The number of provider calls a document can cause is bounded by its length. */
  lemma SegmentCountBounded(text: string, maxChars: nat, overlapChars: nat, segments: seq<Segment>)
    requires LegalSizes(maxChars, overlapChars) && IsSegmentation(text, maxChars, overlapChars, segments)
    requires text != ""
    ensures 1 <= |segments| <= 1 + (|text| - 1) / (maxChars / 2 + 1 - overlapChars)
  {
    var step, n := maxChars / 2 + 1 - overlapChars, |segments| - 1;
    StartLowerBound(text, maxChars, overlapChars, segments, n);
    assert n * step <= |text| - 1;
    QuotientBound(n, step, |text| - 1);
  }

  lemma QuotientBound(n: nat, step: nat, total: nat)
    requires 0 < step && n * step <= total
    ensures n <= total / step
  {
    var q := total / step;
    assert total < (q + 1) * step;
    if q + 1 <= n {
      MulMonotone(q + 1, n, step);
    }
  }

  /** The promises determine the list: any two segmentations of a document are the same. */
  lemma SegmentationUnique(text: string, maxChars: nat, overlapChars: nat, left: seq<Segment>, right: seq<Segment>)
    requires LegalSizes(maxChars, overlapChars)
    requires IsSegmentation(text, maxChars, overlapChars, left)
    requires IsSegmentation(text, maxChars, overlapChars, right)
    ensures left == right
  {
    forall i | 0 <= i < |left| && i < |right| ensures left[i] == right[i] {
      SameSegment(text, maxChars, overlapChars, left, right, i);
    }
  }

  lemma {:induction false} SameSegment(text: string, maxChars: nat, overlapChars: nat, left: seq<Segment>, right: seq<Segment>, i: nat)
    requires Chained(text, maxChars, overlapChars, left) && Chained(text, maxChars, overlapChars, right)
    requires i < |left| && i < |right|
    ensures left[i] == right[i]
  {
    if i > 0 {
      SameSegment(text, maxChars, overlapChars, left, right, i - 1);
    }
    CutUnique(text, maxChars, left[i].start, left[i].end, right[i].end);
  }

  lemma CutUnique(text: string, maxChars: nat, start: nat, e: nat, f: nat)
    requires IsCut(text, maxChars, start, e) && IsCut(text, maxChars, start, f)
    ensures e == f
  {
  }

  /** A full stop with a blank after it. */
  ghost predicate IsStop(text: string, p: nat) {
    p + 2 <= |text| && text[p..p + 2] == ". "
  }

  lemma StopIs(text: string, p: nat)
    ensures IsStop(text, p) <==> p + 2 <= |text| && text[p] == '.' && text[p + 1] == ' '
  {
    if p + 2 <= |text| {
      assert text[p..p + 2] == [text[p], text[p + 1]];
    }
  }

  /**
   * Where a segment ends that is not the last.  If the second half of its window has no line feed and
   * no full stop with a blank, at the end of the window; otherwise right after the last of these.
   */
  lemma CutsAtLastBreak(text: string, maxChars: nat, overlapChars: nat, segments: seq<Segment>, i: nat)
    requires LegalSizes(maxChars, overlapChars) && IsSegmentation(text, maxChars, overlapChars, segments) && i + 1 < |segments|
    ensures var lo, hard, end := segments[i].start + maxChars / 2, segments[i].start + maxChars, segments[i].end;
            && hard <= |text|
            && if (forall p | lo <= p < hard :: text[p] != '\n') && (forall p | lo <= p < hard - 1 :: !IsStop(text, p)) then end == hard
               else
                 && lo < end <= hard && (text[end - 1] == '\n' || (lo + 2 <= end && IsStop(text, end - 2)))
                 && (forall p | end <= p < hard :: text[p] != '\n')
                 && (forall p | lo <= p && end - 1 <= p < hard - 1 :: !IsStop(text, p))
  {
    hide IsStop, FollowsBreak, IsSegmentation;
    var s := segments[i];
    CutBeforeEnd(text, maxChars, overlapChars, segments, i);
    LastBreak(text, s.start + maxChars / 2, s.start + maxChars, s.end);
  }

  /** What it means that a cut is the last position that follows a break, or the hard end if there is none. */
  lemma LastBreak(text: string, lo: nat, hard: nat, end: nat)
    requires lo < hard <= |text| && end <= |text|
    requires if forall p | lo < p <= hard :: !FollowsBreak(text, lo, p) then end == hard
             else lo < end <= hard && FollowsBreak(text, lo, end) && forall p | end < p <= hard :: !FollowsBreak(text, lo, p)
    ensures if (forall p | lo <= p < hard :: text[p] != '\n') && (forall p | lo <= p < hard - 1 :: !IsStop(text, p)) then end == hard
            else
              && lo < end <= hard && (text[end - 1] == '\n' || (lo + 2 <= end && IsStop(text, end - 2)))
              && (forall p | end <= p < hard :: text[p] != '\n')
              && (forall p | lo <= p && end - 1 <= p < hard - 1 :: !IsStop(text, p))
  {
    hide IsStop, FollowsBreak;
    forall p | lo <= p < hard && text[p] == '\n' ensures FollowsBreak(text, lo, p + 1) && p + 1 <= end {
      BreakAfter(text, lo, p + 1);
    }
    forall p | lo <= p < hard - 1 && IsStop(text, p) ensures FollowsBreak(text, lo, p + 2) && p + 2 <= end {
      BreakAfter(text, lo, p + 2);
    }
    BreakAfter(text, lo, end);
  }

  lemma BreakAfter(text: string, lo: nat, p: nat)
    requires p <= |text|
    ensures FollowsBreak(text, lo, p) <==> (lo < p && text[p - 1] == '\n') || (lo + 2 <= p && IsStop(text, p - 2))
  {
    if p >= 2 {
      StopIs(text, p - 2);
    }
  }

  lemma CutBeforeEnd(text: string, maxChars: nat, overlapChars: nat, segments: seq<Segment>, i: nat)
    requires IsSegmentation(text, maxChars, overlapChars, segments) && i + 1 < |segments|
    ensures segments[i].start < segments[i].end < |text| && IsCut(text, maxChars, segments[i].start, segments[i].end)
  {
    hide IsCut;
  }
}
