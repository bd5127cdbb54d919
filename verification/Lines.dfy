/** Text as lines: splitting at every line boundary Python's splitlines knows, and joining with newlines. */
module Lines {
  predicate IsSeparator(c: char) {
    c == '\n' || c == '\r' || c == '\U{0B}' || c == '\U{0C}' || c == '\U{1C}' || c == '\U{1D}' || c == '\U{1E}' ||
    c == '\U{85}' || c == '\U{2028}' || c == '\U{2029}'
  }

  predicate SeparatorFree(s: string) {
    forall c :: c in s ==> !IsSeparator(c)
  }

  /** The index of the first separator, or the length. */
  function LineEnd(text: string): (k: nat)
    ensures k <= |text| && SeparatorFree(text[..k]) && (k < |text| ==> IsSeparator(text[k]))
  {
    if text == "" || IsSeparator(text[0]) then 0
    else
      var k := 1 + LineEnd(text[1..]);
      assert text[..k] == [text[0]] + text[1..][..k - 1];
      k
  }

  /** A carriage return followed by a newline is one boundary. */
  function BoundaryLength(text: string, k: nat): (n: nat)
    requires k < |text|
    ensures 1 <= n && k + n <= |text|
  {
    if text[k] == '\r' && k + 1 < |text| && text[k + 1] == '\n' then 2 else 1
  }

  function SplitLines(text: string): seq<string>
    decreases |text|
  {
    if text == "" then []
    else
      var k := LineEnd(text);
      if k == |text| then [text]
      else [text[..k]] + SplitLines(text[k + BoundaryLength(text, k)..])
  }

  function Intersperse(lines: seq<string>): string
    requires lines != []
  {
    if |lines| == 1 then lines[0] else lines[0] + "\n" + Intersperse(lines[1..])
  }

  /** Every line is followed by a newline; no lines make the empty text. */
  function JoinLines(lines: seq<string>): string {
    if lines == [] then "" else Intersperse(lines) + "\n"
  }

  lemma JoinFirst(lines: seq<string>)
    requires lines != []
    ensures JoinLines(lines) == lines[0] + "\n" + JoinLines(lines[1..])
  {
    if |lines| > 1 {
      assert lines[0] + "\n" + Intersperse(lines[1..]) + "\n" == lines[0] + "\n" + (Intersperse(lines[1..]) + "\n");
    }
  }

  lemma JoinCons(line: string, rest: seq<string>)
    ensures JoinLines([line] + rest) == line + "\n" + JoinLines(rest)
  {
    JoinFirst([line] + rest);
    assert ([line] + rest)[1..] == rest;
  }

  ghost predicate AllSeparatorFree(lines: seq<string>) {
    forall i :: 0 <= i < |lines| ==> SeparatorFree(lines[i])
  }

  lemma {:induction false} SplitGivesSeparatorFree(text: string)
    ensures AllSeparatorFree(SplitLines(text))
    decreases |text|
  {
    if text != "" {
      var k := LineEnd(text);
      assert text[..k] == text || k < |text|;
      if k < |text| {
        SplitGivesSeparatorFree(text[k + BoundaryLength(text, k)..]);
      }
    }
  }

  lemma {:induction false} LineEndBefore(line: string, c: char, rest: string)
    requires SeparatorFree(line) && IsSeparator(c)
    ensures LineEnd(line + [c] + rest) == |line|
  {
    var text := line + [c] + rest;
    if line != "" {
      assert line[0] in line;
      forall d | d in line[1..] ensures !IsSeparator(d) {
        assert d in line;
      }
      LineEndBefore(line[1..], c, rest);
      assert text[1..] == line[1..] + [c] + rest;
    }
  }

  /** Lines that contain no separator survive being joined and split again. */
  lemma {:induction false} SplitAfterJoin(lines: seq<string>)
    requires AllSeparatorFree(lines)
    ensures SplitLines(JoinLines(lines)) == lines
  {
    if lines != [] {
      JoinFirst(lines);
      var line, rest := lines[0], JoinLines(lines[1..]);
      assert SeparatorFree(line);
      LineEndBefore(line, '\n', rest);
      assert forall i :: 0 <= i < |lines[1..]| ==> lines[1..][i] == lines[i + 1];
      SplitAfterJoin(lines[1..]);
      hide LineEnd, SeparatorFree, JoinLines, AllSeparatorFree;
      SplitJoinedLine(line, rest);
    }
  }

  lemma SplitJoinedLine(line: string, rest: string)
    requires LineEnd(line + "\n" + rest) == |line|
    ensures SplitLines(line + "\n" + rest) == [line] + SplitLines(rest)
  {
    hide LineEnd, SeparatorFree;
    var text := line + "\n" + rest;
    assert text[|line|] == '\n' && text[..|line|] == line && text[|line| + 1..] == rest;
  }

  /** Only newlines separate, and the last line is finished. */
  predicate Plain(text: string) {
    && (forall i :: 0 <= i < |text| && IsSeparator(text[i]) ==> text[i] == '\n')
    && (text == "" || text[|text| - 1] == '\n')
  }

  lemma {:induction false} JoinIsPlain(lines: seq<string>)
    requires AllSeparatorFree(lines)
    ensures Plain(JoinLines(lines))
  {
    if lines != [] {
      JoinFirst(lines);
      assert SeparatorFree(lines[0]);
      assert forall i :: 0 <= i < |lines[1..]| ==> lines[1..][i] == lines[i + 1];
      JoinIsPlain(lines[1..]);
      var line, rest, text := lines[0], JoinLines(lines[1..]), JoinLines(lines);
      assert forall i :: 0 <= i < |line| ==> line[i] in line && text[i] == line[i];
      forall i | 0 <= i < |text| && IsSeparator(text[i]) ensures text[i] == '\n' {
        if i > |line| {
          assert text[i] == rest[i - |line| - 1];
        }
      }
    }
  }

  lemma RestOfPlain(text: string, k: nat)
    requires Plain(text) && k < |text|
    ensures Plain(text[k + 1..])
  {
    var rest := text[k + 1..];
    assert forall i :: 0 <= i < |rest| ==> rest[i] == text[i + k + 1];
  }

  lemma PlainHasLineEnd(text: string)
    requires Plain(text) && text != ""
    ensures LineEnd(text) < |text|
  {
    assert IsSeparator(text[|text| - 1]);
    assert text[|text| - 1] in text[..|text|];
    hide IsSeparator;
  }

  lemma FirstLineOfPlain(text: string)
    requires Plain(text) && text != ""
    ensures var k := LineEnd(text); k < |text| && text[k] == '\n' && Plain(text[k + 1..])
  {
    PlainHasLineEnd(text);
    RestOfPlain(text, LineEnd(text));
    hide IsSeparator;
  }

  lemma SplitFirstLine(text: string)
    requires text != "" && LineEnd(text) < |text| && text[LineEnd(text)] == '\n'
    ensures var k := LineEnd(text);
      && SplitLines(text) == [text[..k]] + SplitLines(text[k + 1..])
      && text == text[..k] + "\n" + text[k + 1..]
  {
    hide LineEnd, SeparatorFree;
    CutAtNewline(text, LineEnd(text));
  }

  lemma CutAtNewline(text: string, k: nat)
    requires k < |text| && text[k] == '\n'
    ensures text == text[..k] + "\n" + text[k + 1..]
  {
  }

  lemma {:induction false} PlainSurvives(text: string)
    requires Plain(text)
    ensures JoinLines(SplitLines(text)) == text
    decreases |text|
  {
    hide Plain, LineEnd, JoinLines;
    if text == "" {
      EmptyText();
    } else {
      FirstLineOfPlain(text);
      SplitFirstLine(text);
      var k := LineEnd(text);
      hide SplitLines;
      PlainSurvives(text[k + 1..]);
      JoinCons(text[..k], SplitLines(text[k + 1..]));
    }
  }

  lemma EmptyText()
    ensures JoinLines(SplitLines("")) == ""
  {
  }

  /** Splitting and joining gives the text back exactly when it is plain. */
  lemma JoinAfterSplit(text: string)
    ensures JoinLines(SplitLines(text)) == text <==> Plain(text)
  {
    SplitGivesSeparatorFree(text);
    JoinIsPlain(SplitLines(text));
    if Plain(text) {
      PlainSurvives(text);
    }
  }

  // ---- where a text is split, in the characters themselves ----

  lemma {:induction false} NoLineEnd(line: string)
    requires SeparatorFree(line)
    ensures LineEnd(line) == |line|
  {
    if line != "" {
      assert line[0] in line;
      forall d | d in line[1..] ensures !IsSeparator(d) {
        assert d in line;
      }
      NoLineEnd(line[1..]);
    }
  }

  /** Each of these boundaries ends a line, a carriage return with a newline behind it as one. */
  lemma SplitsAtBoundary(line: string, boundary: string, rest: string)
    requires forall c :: c in line ==>
      c !in {'\n', '\r', '\U{0B}', '\U{0C}', '\U{1C}', '\U{1D}', '\U{1E}', '\U{85}', '\U{2028}', '\U{2029}'}
    requires boundary in {"\n", "\r", "\r\n", ['\U{0B}'], ['\U{0C}'], ['\U{1C}'], ['\U{1D}'], ['\U{1E}'],
                          ['\U{85}'], ['\U{2028}'], ['\U{2029}']}
    requires boundary == "\r" && rest != "" ==> rest[0] != '\n'
    ensures SplitLines(line + boundary + rest) == [line] + SplitLines(rest)
  {
    assert SeparatorFree(line) && IsSeparator(boundary[0]);
    hide LineEnd, SeparatorFree, IsSeparator, SplitLines, BoundaryLength;
    LineEndBefore(line, boundary[0], boundary[1..] + rest);
    Pieces(line, boundary, rest);
    SplitFirst(line + boundary + rest, |line|, |boundary|);
  }

  /** A text cut up again at the ends of its pieces. */
  lemma Pieces(line: string, boundary: string, rest: string)
    requires boundary != ""
    ensures var text := line + boundary + rest;
      && text == line + [boundary[0]] + (boundary[1..] + rest)
      && text[..|line|] == line && text[|line| + |boundary|..] == rest
      && text[|line|] == boundary[0]
      && (|boundary| > 1 ==> text[|line| + 1] == boundary[1])
      && (|boundary| == 1 && rest != "" ==> text[|line| + 1] == rest[0])
  {
    assert boundary == [boundary[0]] + boundary[1..];
  }

  lemma SplitFirst(text: string, k: nat, n: nat)
    requires LineEnd(text) == k < |text| && 1 <= n <= 2 && k + n <= |text|
    requires text[k] == '\r' && k + 1 < |text| && text[k + 1] == '\n' <==> n == 2
    ensures SplitLines(text) == [text[..k]] + SplitLines(text[k + n..])
  {
    assert BoundaryLength(text, k) == n;
    hide LineEnd, BoundaryLength;
    SplitUnfolded(text);
  }

  lemma SplitUnfolded(text: string)
    requires LineEnd(text) < |text|
    ensures var k := LineEnd(text);
      SplitLines(text) == [text[..k]] + SplitLines(text[k + BoundaryLength(text, k)..])
  {
    hide LineEnd, BoundaryLength, SeparatorFree, IsSeparator;
  }

  /** No other character ends a line, and behind the last boundary there is a line only if there is text. */
  lemma SplitsNowhereElse(line: string)
    requires forall c :: c in line ==>
      c !in {'\n', '\r', '\U{0B}', '\U{0C}', '\U{1C}', '\U{1D}', '\U{1E}', '\U{85}', '\U{2028}', '\U{2029}'}
    ensures SplitLines(line) == if line == "" then [] else [line]
  {
    NoLineEnd(line);
  }
}
