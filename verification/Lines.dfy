/** Joining texts into a stored summary and splitting it again (Python's `join`, `splitlines`). */
module Lines {

  /** `"\n".join(lines)`. */
  function JoinLines(lines: seq<string>): string {
    if lines == [] then ""
    else if |lines| == 1 then lines[0]
    else lines[0] + "\n" + JoinLines(lines[1..])
  }

  /** The characters at which Python's `splitlines` ends a line. */
  predicate EndsLine(c: char) {
    || c == '\n' || c == '\r' || c == '\U{000B}' || c == '\U{000C}'
    || c == '\U{001C}' || c == '\U{001D}' || c == '\U{001E}'
    || c == '\U{0085}' || c == '\U{2028}' || c == '\U{2029}'
  }

  function LineLength(text: string): (n: nat)
    ensures n <= |text|
    ensures forall i | 0 <= i < n :: !EndsLine(text[i])
    ensures n < |text| ==> EndsLine(text[n])
  {
    if text == "" || EndsLine(text[0]) then 0 else 1 + LineLength(text[1..])
  }

  /** Where the next line starts; a carriage return and line feed end one line together. */
  function NextLine(text: string, n: nat): (next: nat)
    requires n < |text|
    ensures n < next <= |text|
  {
    if text[n] == '\r' && n + 1 < |text| && text[n + 1] == '\n' then n + 2 else n + 1
  }

  /** Python's `text.splitlines()`. */
  function SplitLines(text: string): seq<string> {
    if text == "" then []
    else
      var n := LineLength(text);
      if n == |text| then [text] else [text[..n]] + SplitLines(text[NextLine(text, n)..])
  }

  /** `filter(None, lines)`. */
  function NonEmpty(lines: seq<string>): seq<string> {
    if lines == [] then []
    else if lines[0] == "" then NonEmpty(lines[1..])
    else [lines[0]] + NonEmpty(lines[1..])
  }

  /** Python's `str.isspace` on one character. */
  predicate IsSpace(c: char) {
    || '\U{0009}' <= c <= '\U{000D}' || '\U{001C}' <= c <= ' ' || c == '\U{0085}' || c == '\U{00A0}' || c == '\U{1680}'
    || '\U{2000}' <= c <= '\U{200A}' || c == '\U{2028}' || c == '\U{2029}' || c == '\U{202F}' || c == '\U{205F}' || c == '\U{3000}'
  }

  predicate IsStripped(text: string) {
    text == "" || (!IsSpace(text[0]) && !IsSpace(text[|text| - 1]))
  }

  function StripLeft(text: string): (r: string)
    ensures |r| <= |text| && r == text[|text| - |r|..]
    ensures r == "" || !IsSpace(r[0])
  {
    if text != "" && IsSpace(text[0]) then StripLeft(text[1..]) else text
  }

  function StripRight(text: string): (r: string)
    ensures r <= text
    ensures r == "" || !IsSpace(r[|r| - 1])
  {
    if text != "" && IsSpace(text[|text| - 1]) then StripRight(text[..|text| - 1]) else text
  }

  /** Python's `text.strip()`. */
  function Strip(text: string): (r: string)
    ensures |r| <= |text| && IsStripped(r) && (forall c | c in r :: c in text)
    ensures IsStripped(text) ==> r == text
  {
    StripRight(StripLeft(text))
  }

  predicate NoBreak(text: string) {
    forall i | 0 <= i < |text| :: !EndsLine(text[i])
  }

  /** A text that survives storage: one non-empty line. */
  predicate OneLine(text: string) {
    text != "" && NoBreak(text)
  }

  predicate AllOneLine(lines: seq<string>) {
    forall i | 0 <= i < |lines| :: OneLine(lines[i])
  }

  lemma {:induction false} LineLengthOf(line: string, rest: string)
    requires NoBreak(line) && (rest == "" || EndsLine(rest[0]))
    ensures LineLength(line + rest) == |line|
  {
    if line == "" {
      assert line + rest == rest;
    } else {
      assert (line + rest)[1..] == line[1..] + rest;
      LineLengthOf(line[1..], rest);
    }
  }

  lemma SplitFirst(first: string, tail: string)
    requires NoBreak(first)
    ensures NonEmpty(SplitLines(first + "\n" + tail)) == NonEmpty([first] + SplitLines(tail))
  {
    var text := first + "\n" + tail;
    assert text == first + ("\n" + tail);
    LineLengthOf(first, "\n" + tail);
    assert text[|first|] == '\n';
    assert text[|first| + 1..] == tail && text[..|first|] == first;
    assert SplitLines(text) == [first] + SplitLines(tail);
  }

  /** A joined text gives its lines back, except the empty ones. */
  lemma {:induction false} SplitUndoesJoin(lines: seq<string>)
    requires forall i | 0 <= i < |lines| :: NoBreak(lines[i])
    ensures NonEmpty(SplitLines(JoinLines(lines))) == NonEmpty(lines)
  {
    if lines == [] {
    } else if |lines| == 1 {
      assert lines[0] + "" == lines[0];
      LineLengthOf(lines[0], "");
      assert lines == [lines[0]];
    } else {
      SplitUndoesJoin(lines[1..]);
      SplitFirst(lines[0], JoinLines(lines[1..]));
    }
  }

  lemma {:induction false} NonEmptyKeepsAllExactly(lines: seq<string>)
    ensures |NonEmpty(lines)| <= |lines|
    ensures |NonEmpty(lines)| == |lines| <==> forall i | 0 <= i < |lines| :: lines[i] != ""
    ensures (forall i | 0 <= i < |lines| :: lines[i] != "") ==> NonEmpty(lines) == lines
  {
    if lines != [] {
      NonEmptyKeepsAllExactly(lines[1..]);
      if lines[0] != "" && forall i | 0 <= i < |lines[1..]| :: lines[1..][i] != "" {
        assert forall i | 0 < i < |lines| :: lines[i] == lines[1..][i - 1];
      } else if j :| 0 <= j < |lines[1..]| && lines[1..][j] == "" {
        assert lines[j + 1] == "";
      }
    }
  }

  /** Whatever text is stored, every line read back is single and non-empty. */
  lemma {:induction false} SplitGivesLines(text: string)
    ensures AllOneLine(NonEmpty(SplitLines(text)))
    decreases |text|
  {
    if text != "" && LineLength(text) < |text| {
      SplitGivesLines(text[NextLine(text, LineLength(text))..]);
    }
  }
}
