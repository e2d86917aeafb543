/**
 * Sentences of a version: how a draft is laid out for storage (publication.py,
 * `_draft_artifacts`) and how the workspace reads it back (workspace.py, `_version_sentences`).
 */
module Sentences {
  import opened Common
  import opened Lines

  type ClaimId = nat

  datatype Section = Confirmed | Reported | Unknown | Changed

  datatype Sentence = Sentence(section: Section, text: string, claims: seq<ClaimId>)

  /** A key of the sentence-claim map: `"section:index"`, or a bare text in older versions. */
  datatype Key = Indexed(section: Section, index: nat) | Legacy(text: string)

  datatype Snapshot = Snapshot(key: Key, section: Section, text: string, claims: seq<ClaimId>)

  /** One value per section. */
  datatype BySection<T> = BySection(confirmed: T, reported: T, unknown: T, changed: T) {
    function Of(section: Section): T {
      match section
      case Confirmed => confirmed
      case Reported => reported
      case Unknown => unknown
      case Changed => changed
    }

    function With(section: Section, value: T): BySection<T> {
      match section
      case Confirmed => this.(confirmed := value)
      case Reported => this.(reported := value)
      case Unknown => this.(unknown := value)
      case Changed => this.(changed := value)
    }
  }

  datatype Artifacts = Artifacts(sections: BySection<seq<string>>, claimMap: map<Key, seq<ClaimId>>, snapshots: seq<Snapshot>)

  const SECTIONS: seq<Section> := [Confirmed, Reported, Unknown, Changed]

  // ---------------------------------------------------------------------------------------
  // Laying a draft out
  // ---------------------------------------------------------------------------------------

  /** The layout of a draft, one sentence at a time. */
  function Layout(sentences: seq<Sentence>): Artifacts {
    if sentences == [] then Artifacts(BySection([], [], [], []), map[], [])
    else
      var a, s := Layout(sentences[..|sentences| - 1]), sentences[|sentences| - 1];
      var key := Indexed(s.section, |a.sections.Of(s.section)|);
      Artifacts(a.sections.With(s.section, a.sections.Of(s.section) + [s.text]),
                a.claimMap[key := s.claims],
                a.snapshots + [Snapshot(key, s.section, s.text, s.claims)])
  }

  method DraftArtifacts(sentences: seq<Sentence>) returns (a: Artifacts)
    ensures a == Layout(sentences)
  {
    var sections: BySection<seq<string>> := BySection([], [], [], []);
    var indexes: BySection<nat> := BySection(0, 0, 0, 0);
    var claimMap: map<Key, seq<ClaimId>> := map[];
    var snapshots: seq<Snapshot> := [];
    for i := 0 to |sentences|
      invariant Layout(sentences[..i]) == Artifacts(sections, claimMap, snapshots)
      invariant indexes.confirmed == |sections.confirmed| && indexes.reported == |sections.reported|
      invariant indexes.unknown == |sections.unknown| && indexes.changed == |sections.changed|
    {
      var sentence := sentences[i];
      var index := indexes.Of(sentence.section);
      indexes := indexes.With(sentence.section, index + 1);
      var key := Indexed(sentence.section, index);
      sections := sections.With(sentence.section, sections.Of(sentence.section) + [sentence.text]);
      claimMap := claimMap[key := sentence.claims];
      snapshots := snapshots + [Snapshot(key, sentence.section, sentence.text, sentence.claims)];
      assert sentences[..i + 1][..i] == sentences[..i];
    }
    assert sentences[..|sentences|] == sentences;
    a := Artifacts(sections, claimMap, snapshots);
  }

  /** The claim map that a list of sentence snapshots makes up. */
  function ClaimMapOf(snapshots: seq<Snapshot>): map<Key, seq<ClaimId>> {
    if snapshots == [] then map[]
    else
      var last := snapshots[|snapshots| - 1];
      ClaimMapOf(snapshots[..|snapshots| - 1])[last.key := last.claims]
  }

  /** The claim map says nothing that the snapshots do not. */
  lemma {:induction false} LayoutClaimMap(sentences: seq<Sentence>)
    ensures Layout(sentences).claimMap == ClaimMapOf(Layout(sentences).snapshots)
  {
    if sentences != [] {
      LayoutClaimMap(sentences[..|sentences| - 1]);
      var before, after := Layout(sentences[..|sentences| - 1]).snapshots, Layout(sentences).snapshots;
      assert after[..|after| - 1] == before;
    }
  }

  /** The sentences of one section, in draft order. */
  function InSection(sentences: seq<Sentence>, section: Section): seq<Sentence> {
    if sentences == [] then []
    else
      var last := sentences[|sentences| - 1];
      InSection(sentences[..|sentences| - 1], section) + if last.section == section then [last] else []
  }

  function Texts(sentences: seq<Sentence>): seq<string> {
    seq(|sentences|, i requires 0 <= i < |sentences| => sentences[i].text)
  }

  /** The layout files every text under its section and every claim list under its position. */
  lemma {:induction false} LayoutBySection(sentences: seq<Sentence>, section: Section)
    ensures Layout(sentences).sections.Of(section) == Texts(InSection(sentences, section))
    ensures forall i | 0 <= i < |InSection(sentences, section)| ::
              && Indexed(section, i) in Layout(sentences).claimMap
              && Layout(sentences).claimMap[Indexed(section, i)] == InSection(sentences, section)[i].claims
    ensures forall k | k in Layout(sentences).claimMap ::
              k.Indexed? && (k.section == section ==> k.index < |InSection(sentences, section)|)
  {
    if sentences != [] {
      LayoutBySection(sentences[..|sentences| - 1], section);
    }
  }

  // ---------------------------------------------------------------------------------------
  // Reading a version back
  // ---------------------------------------------------------------------------------------

  function ClaimsFor(claimMap: map<Key, seq<ClaimId>>, section: Section, index: nat, text: string): seq<ClaimId> {
    if Indexed(section, index) in claimMap then claimMap[Indexed(section, index)]
    else if Legacy(text) in claimMap then claimMap[Legacy(text)]
    else []
  }

  /**
   * A sentence as the publication contract builds it, or nothing if it refuses to: the lengths are
   * checked first, then the text is stripped, and what is left may have no line break.
   */
  function Validated(section: Section, text: string, claims: seq<ClaimId>): Option<Sentence> {
    if !(1 <= |text| <= 5000) || !(1 <= |claims| <= 50) || '\n' in Strip(text) || '\r' in Strip(text) then None
    else Some(Sentence(section, Strip(text), claims))
  }

  function ReadSection(section: Section, lines: seq<string>, claimMap: map<Key, seq<ClaimId>>): Option<seq<Sentence>> {
    if lines == [] then Some([])
    else
      var n := |lines| - 1;
      var before, last := ReadSection(section, lines[..n], claimMap), Validated(section, lines[n], ClaimsFor(claimMap, section, n, lines[n]));
      if before.None? || last.None? then None else Some(before.value + [last.value])
  }

  function ReadSections(sections: seq<Section>, summaries: BySection<string>, claimMap: map<Key, seq<ClaimId>>): Option<seq<Sentence>> {
    if sections == [] then Some([])
    else
      var section := sections[|sections| - 1];
      var before := ReadSections(sections[..|sections| - 1], summaries, claimMap);
      var last := ReadSection(section, NonEmpty(SplitLines(summaries.Of(section))), claimMap);
      if before.None? || last.None? then None else Some(before.value + last.value)
  }

  lemma {:induction false} ReadSectionStaysNone(section: Section, lines: seq<string>, claimMap: map<Key, seq<ClaimId>>, n: nat)
    requires n <= |lines| && ReadSection(section, lines[..n], claimMap).None?
    ensures ReadSection(section, lines, claimMap).None?
  {
    if n < |lines| {
      assert lines[..|lines| - 1][..n] == lines[..n];
      ReadSectionStaysNone(section, lines[..|lines| - 1], claimMap, n);
    } else {
      assert lines[..n] == lines;
    }
  }

  lemma {:induction false} ReadSectionsStayNone(sections: seq<Section>, summaries: BySection<string>, claimMap: map<Key, seq<ClaimId>>, n: nat)
    requires n <= |sections| && ReadSections(sections[..n], summaries, claimMap).None?
    ensures ReadSections(sections, summaries, claimMap).None?
  {
    hide ReadSection, SplitLines, NonEmpty;
    if n < |sections| {
      assert sections[..|sections| - 1][..n] == sections[..n];
      ReadSectionsStayNone(sections[..|sections| - 1], summaries, claimMap, n);
    } else {
      assert sections[..n] == sections;
    }
  }

  method SectionSentences(section: Section, lines: seq<string>, claimMap: map<Key, seq<ClaimId>>) returns (sentences: Option<seq<Sentence>>)
    ensures sentences == ReadSection(section, lines, claimMap)
  {
    hide Validated, ClaimsFor;
    var read := [];
    for index := 0 to |lines|
      invariant ReadSection(section, lines[..index], claimMap) == Some(read)
    {
      var sentence := Validated(section, lines[index], ClaimsFor(claimMap, section, index, lines[index]));
      assert lines[..index + 1][..index] == lines[..index];
      if sentence.None? {
        ReadSectionStaysNone(section, lines, claimMap, index + 1);
        return None;
      }
      read := read + [sentence.value];
    }
    assert lines[..|lines|] == lines;
    return Some(read);
  }

  /** The sentences of a version, or nothing when one of them is not a valid sentence. */
  method VersionSentences(summaries: BySection<string>, claimMap: map<Key, seq<ClaimId>>) returns (sentences: Option<seq<Sentence>>)
    ensures sentences == ReadSections(SECTIONS, summaries, claimMap)
  {
    hide ReadSection, SplitLines, NonEmpty;
    var all := [];
    for s := 0 to |SECTIONS|
      invariant ReadSections(SECTIONS[..s], summaries, claimMap) == Some(all)
    {
      var read := SectionSentences(SECTIONS[s], NonEmpty(SplitLines(summaries.Of(SECTIONS[s]))), claimMap);
      assert SECTIONS[..s + 1][..s] == SECTIONS[..s];
      if read.None? {
        ReadSectionsStayNone(SECTIONS, summaries, claimMap, s + 1);
        return None;
      }
      all := all + read.value;
    }
    assert SECTIONS[..|SECTIONS|] == SECTIONS;
    return Some(all);
  }

  /** The summaries that publishing stores. */
  function Summaries(sections: BySection<seq<string>>): BySection<string> {
    BySection(JoinLines(sections.confirmed), JoinLines(sections.reported), JoinLines(sections.unknown), JoinLines(sections.changed))
  }

  function ReadBack(sentences: seq<Sentence>): Option<seq<Sentence>> {
    ReadSections(SECTIONS, Summaries(Layout(sentences).sections), Layout(sentences).claimMap)
  }

  // ---------------------------------------------------------------------------------------
  // The round trip
  // ---------------------------------------------------------------------------------------

  /** The draft's sentences, stably grouped by section. */
  function Grouped(sentences: seq<Sentence>, sections: seq<Section>): seq<Sentence> {
    if sections == [] then []
    else Grouped(sentences, sections[..|sections| - 1]) + InSection(sentences, sections[|sections| - 1])
  }

  /** What every sentence that is read back looks like. */
  predicate ReadShape(s: Sentence) {
    NoBreak(s.text) && IsStripped(s.text) && |s.text| <= 5000 && 1 <= |s.claims| <= 50
  }

  /** What a sentence needs to be read back. */
  predicate Storable(s: Sentence) {
    s.text != "" && ReadShape(s)
  }

  predicate AllStorable(sentences: seq<Sentence>) {
    forall i | 0 <= i < |sentences| :: Storable(sentences[i])
  }

  /** Reading a section gives these sentences exactly if each line gives its sentence. */
  lemma {:induction false} ReadSectionExactly(section: Section, lines: seq<string>, claimMap: map<Key, seq<ClaimId>>, sentences: seq<Sentence>)
    ensures ReadSection(section, lines, claimMap) == Some(sentences) <==>
              && |sentences| == |lines|
              && forall i | 0 <= i < |lines| :: Validated(section, lines[i], ClaimsFor(claimMap, section, i, lines[i])) == Some(sentences[i])
  {
    hide Validated, ClaimsFor;
    if lines != [] {
      var n := |lines| - 1;
      if sentences != [] {
        var front := sentences[..|sentences| - 1];
        ReadSectionExactly(section, lines[..n], claimMap, front);
        assert sentences == front + [sentences[|sentences| - 1]];
        assert forall i | 0 <= i < n :: lines[..n][i] == lines[i];
      }
    }
  }

  /** A line without separators gives a storable sentence, except that stripping may leave nothing of it. */
  lemma ValidatedLine(section: Section, line: string, claims: seq<ClaimId>)
    requires NoBreak(line)
    ensures var s := Validated(section, line, claims);
            s.Some? ==> ReadShape(s.value)
    ensures Storable(Sentence(section, line, claims)) ==> Validated(section, line, claims) == Some(Sentence(section, line, claims))
  {
    var text := Strip(line);
    forall i | 0 <= i < |text| ensures !EndsLine(text[i]) {
      assert text[i] in line;
    }
  }

  lemma {:induction false} InSectionLaws(sentences: seq<Sentence>, section: Section)
    ensures forall s :: s in InSection(sentences, section) <==> s in sentences && s.section == section
  {
    if sentences != [] {
      var front, last := sentences[..|sentences| - 1], sentences[|sentences| - 1];
      InSectionLaws(front, section);
      assert sentences == front + [last];
    }
  }

  lemma SectionRoundTrip(sentences: seq<Sentence>, section: Section)
    requires AllStorable(sentences)
    ensures var a := Layout(sentences);
            ReadSection(section, NonEmpty(SplitLines(Summaries(a.sections).Of(section))), a.claimMap) == Some(InSection(sentences, section))
  {
    hide Storable, Layout, InSection, SplitLines, JoinLines, NonEmpty, Validated, ReadSection;
    var own := InSection(sentences, section);
    var texts := Texts(own);
    LayoutBySection(sentences, section);
    InSectionLaws(sentences, section);
    forall i | 0 <= i < |own| ensures own[i].section == section && Storable(own[i]) && OneLine(texts[i]) {
      assert own[i] in own;
      StorableIsOneLine(own[i]);
    }
    SplitUndoesJoin(texts);
    NonEmptyKeepsAllExactly(texts);
    var claimMap := Layout(sentences).claimMap;
    forall i | 0 <= i < |texts| ensures Validated(section, texts[i], ClaimsFor(claimMap, section, i, texts[i])) == Some(own[i]) {
      ValidatedLine(section, texts[i], own[i].claims);
      assert own[i] == Sentence(section, texts[i], own[i].claims);
    }
    ReadSectionExactly(section, texts, claimMap, own);
  }

  lemma StorableIsOneLine(s: Sentence)
    requires Storable(s)
    ensures OneLine(s.text)
  {
  }

  lemma {:induction false} SectionsRoundTrip(sentences: seq<Sentence>, sections: seq<Section>)
    requires AllStorable(sentences)
    ensures var a := Layout(sentences);
            ReadSections(sections, Summaries(a.sections), a.claimMap) == Some(Grouped(sentences, sections))
  {
    hide ReadSection, Layout, Summaries, InSection, SplitLines, NonEmpty;
    if sections != [] {
      SectionsRoundTrip(sentences, sections[..|sections| - 1]);
      SectionRoundTrip(sentences, sections[|sections| - 1]);
    }
  }

  lemma ReadSectionShape(section: Section, text: string, claimMap: map<Key, seq<ClaimId>>)
    requires ReadSection(section, NonEmpty(SplitLines(text)), claimMap).Some?
    ensures var lines, read := NonEmpty(SplitLines(text)), ReadSection(section, NonEmpty(SplitLines(text)), claimMap).value;
            |read| == |lines| && forall s | s in read :: ReadShape(s)
  {
    hide SplitLines, NonEmpty, Validated, ClaimsFor, ReadSection, OneLine, ReadShape;
    var lines := NonEmpty(SplitLines(text));
    var read := ReadSection(section, lines, claimMap).value;
    SplitGivesLines(text);
    ReadSectionExactly(section, lines, claimMap, read);
    forall s | s in read ensures ReadShape(s) {
      var i :| 0 <= i < |read| && read[i] == s;
      assert OneLine(lines[i]);
      ReadLineShape(section, lines[i], ClaimsFor(claimMap, section, i, lines[i]));
    }
  }

  lemma ReadLineShape(section: Section, line: string, claims: seq<ClaimId>)
    requires OneLine(line) && Validated(section, line, claims).Some?
    ensures ReadShape(Validated(section, line, claims).value)
  {
    hide Validated;
    ValidatedLine(section, line, claims);
  }

  lemma {:induction false} ReadTextsShape(sections: seq<Section>, summaries: BySection<string>, claimMap: map<Key, seq<ClaimId>>)
    requires ReadSections(sections, summaries, claimMap).Some?
    ensures forall s | s in ReadSections(sections, summaries, claimMap).value :: ReadShape(s)
  {
    hide ReadShape, ReadSection, SplitLines, NonEmpty;
    if sections != [] {
      ReadTextsShape(sections[..|sections| - 1], summaries, claimMap);
      ReadSectionShape(sections[|sections| - 1], summaries.Of(sections[|sections| - 1]), claimMap);
    }
  }

  lemma {:induction false} GroupedMembers(sentences: seq<Sentence>, sections: seq<Section>, s: Sentence)
    ensures s in Grouped(sentences, sections) <==> s in sentences && s.section in sections
  {
    hide InSection;
    if sections != [] {
      var front, last := sections[..|sections| - 1], sections[|sections| - 1];
      GroupedMembers(sentences, front, s);
      InSectionLaws(sentences, last);
      assert sections == front + [last];
    }
  }

  /** A section is read back with no more sentences than it has, and with as many only if none is empty. */
  lemma SectionCount(sentences: seq<Sentence>, section: Section)
    requires forall s | s in sentences :: NoBreak(s.text)
    ensures var n, own := |NonEmpty(SplitLines(Summaries(Layout(sentences).sections).Of(section)))|, InSection(sentences, section);
            n <= |own| && (n == |own| ==> forall s | s in own :: s.text != "")
  {
    hide NoBreak, Layout, InSection, SplitLines, JoinLines, NonEmpty;
    var own := InSection(sentences, section);
    var texts := Texts(own);
    LayoutBySection(sentences, section);
    InSectionLaws(sentences, section);
    forall i | 0 <= i < |texts| ensures NoBreak(texts[i]) {
      assert own[i] in own;
    }
    SplitUndoesJoin(texts);
    NonEmptyKeepsAllExactly(texts);
    forall s | s in own && |NonEmpty(texts)| == |texts| ensures s.text != "" {
      var i :| 0 <= i < |own| && own[i] == s;
      assert texts[i] == s.text;
    }
  }

  lemma {:induction false} SectionsCount(sentences: seq<Sentence>, sections: seq<Section>)
    requires forall s | s in sentences :: NoBreak(s.text)
    requires ReadSections(sections, Summaries(Layout(sentences).sections), Layout(sentences).claimMap).Some?
    ensures var read, grouped := ReadSections(sections, Summaries(Layout(sentences).sections), Layout(sentences).claimMap).value, Grouped(sentences, sections);
            |read| <= |grouped| && (|read| == |grouped| ==> forall s | s in grouped :: s.text != "")
  {
    hide NoBreak, Layout, InSection, Summaries, SplitLines, NonEmpty, ReadSection;
    if sections != [] {
      var front, last := sections[..|sections| - 1], sections[|sections| - 1];
      SectionsCount(sentences, front);
      SectionCount(sentences, last);
      ReadSectionShape(last, Summaries(Layout(sentences).sections).Of(last), Layout(sentences).claimMap);
      var read := ReadSections(front, Summaries(Layout(sentences).sections), Layout(sentences).claimMap).value;
      assert Grouped(sentences, sections) == Grouped(sentences, front) + InSection(sentences, last);
    }
  }

  lemma InSections(section: Section)
    ensures section in SECTIONS
  {
    assert SECTIONS[0] == Confirmed && SECTIONS[1] == Reported && SECTIONS[2] == Unknown && SECTIONS[3] == Changed;
  }

  /**
   * Reading a published version back returns the draft's sentences, stably grouped by section
   * and each with its own claims, exactly when every sentence is storable.
   */
  lemma RoundTripExactly(sentences: seq<Sentence>)
    ensures ReadBack(sentences) == Some(Grouped(sentences, SECTIONS)) <==> AllStorable(sentences)
  {
    hide Layout, Summaries, ReadSections, Grouped, InSection;
    if AllStorable(sentences) {
      SectionsRoundTrip(sentences, SECTIONS);
    }
    if ReadBack(sentences) == Some(Grouped(sentences, SECTIONS)) {
      ReadTextsShape(SECTIONS, Summaries(Layout(sentences).sections), Layout(sentences).claimMap);
      forall s | s in sentences ensures s in Grouped(sentences, SECTIONS) && ReadShape(s) {
        InSections(s.section);
        GroupedMembers(sentences, SECTIONS, s);
      }
      SectionsCount(sentences, SECTIONS);
      forall i | 0 <= i < |sentences| ensures Storable(sentences[i]) {
        assert sentences[i] in sentences;
      }
    }
  }

  /** A sentence that the publication contract lets through. */
  ghost predicate AcceptedByContract(s: Sentence) {
    exists raw :: Validated(s.section, raw, s.claims) == Some(s)
  }

  /** A draft that the contract accepts comes back exactly when every text is one non-empty line. */
  lemma RoundTripExactlyWhenOneLine(sentences: seq<Sentence>)
    requires forall s | s in sentences :: AcceptedByContract(s)
    ensures ReadBack(sentences) == Some(Grouped(sentences, SECTIONS)) <==> forall s | s in sentences :: OneLine(s.text)
  {
    hide ReadBack, Grouped;
    RoundTripExactly(sentences);
    forall s | s in sentences ensures Storable(s) <==> OneLine(s.text) {
      var raw :| Validated(s.section, raw, s.claims) == Some(s);
    }
    if AllStorable(sentences) {
      forall s | s in sentences ensures OneLine(s.text) {
        var i :| 0 <= i < |sentences| && sentences[i] == s;
        assert Storable(sentences[i]);
      }
    } else {
      var i :| 0 <= i < |sentences| && !Storable(sentences[i]);
      assert sentences[i] in sentences;
    }
  }

  lemma BlankIsAccepted(claims: seq<ClaimId>)
    requires 1 <= |claims| <= 50
    ensures AcceptedByContract(Sentence(Reported, "", claims))
  {
    assert StripLeft(" ") == "";
    assert Validated(Reported, " ", claims) == Some(Sentence(Reported, "", claims));
  }

  lemma StrippedIsAccepted(s: Sentence)
    requires IsStripped(s.text) && 1 <= |s.text| <= 5000 && 1 <= |s.claims| <= 50
    requires forall i | 0 <= i < |s.text| :: s.text[i] != '\n' && s.text[i] != '\r'
    ensures AcceptedByContract(s)
  {
    hide Strip, StripLeft, StripRight, IsSpace;
    var text := Strip(s.text);
    assert text == s.text;
    assert '\n' !in text && '\r' !in text;
    hide IsStripped;
    assert Validated(s.section, s.text, s.claims) == Some(s);
  }

  lemma SeparatorIsAccepted(text: string, claims: seq<ClaimId>)
    requires 1 <= |claims| <= 50 && text == ['a', '\U{2028}', 'b']
    ensures AcceptedByContract(Sentence(Reported, text, claims)) && !OneLine(text)
  {
    hide AcceptedByContract;
    assert EndsLine(text[1]);
    StrippedIsAccepted(Sentence(Reported, text, claims));
  }

  lemma NotOneLineIsLost(s: Sentence)
    requires !OneLine(s.text)
    ensures ReadBack([s]) != Some(Grouped([s], SECTIONS))
  {
    hide ReadBack, Grouped;
    RoundTripExactly([s]);
    assert !Storable([s][0]);
  }

  /** Two drafts that the contract lets through and reading back does not return. */
  lemma ContractDoesNotGuaranteeTheRoundTrip(claims: seq<ClaimId>)
    requires 1 <= |claims| <= 50
    ensures var blank, split := Sentence(Reported, "", claims), Sentence(Reported, "a\U{2028}b", claims);
            && AcceptedByContract(blank) && ReadBack([blank]) != Some(Grouped([blank], SECTIONS))
            && AcceptedByContract(split) && ReadBack([split]) != Some(Grouped([split], SECTIONS))
  {
    hide ReadBack, Grouped, AcceptedByContract;
    BlankIsAccepted(claims);
    assert "a\U{2028}b" == ['a', '\U{2028}', 'b'];
    SeparatorIsAccepted("a\U{2028}b", claims);
    NotOneLineIsLost(Sentence(Reported, "", claims));
    NotOneLineIsLost(Sentence(Reported, "a\U{2028}b", claims));
  }

  /** The key of a claim map that stands for a sentence by its text. */
  ghost predicate HasOldKeysOnly(claimMap: map<Key, seq<ClaimId>>) {
    forall k | k in claimMap :: k.Legacy?
  }

  /** A version whose map has bare texts for keys is read back too: each line with the claims of its text, and none without. */
  lemma OldVersionsReadByText(section: Section, lines: seq<string>, claimMap: map<Key, seq<ClaimId>>, sentences: seq<Sentence>)
    requires HasOldKeysOnly(claimMap)
    ensures ReadSection(section, lines, claimMap) == Some(sentences) <==>
              && |sentences| == |lines|
              && forall i | 0 <= i < |lines| ::
                   Legacy(lines[i]) in claimMap && Validated(section, lines[i], claimMap[Legacy(lines[i])]) == Some(sentences[i])
  {
    hide Strip, ReadSection;
    ReadSectionExactly(section, lines, claimMap, sentences);
    forall i | 0 <= i < |lines| && Legacy(lines[i]) !in claimMap ensures Validated(section, lines[i], ClaimsFor(claimMap, section, i, lines[i])).None? {
    }
  }
}
