/** Occurrences in a text and in its lines: a needle without separators lies within one line. */
module LineOccurrences {
  import opened Substitution
  import opened Lines

  /** An occurrence does not reach over a newline. */
  lemma NotAcrossNewline(text: string, needle: string, i: nat, k: nat)
    requires SeparatorFree(needle) && OccursAt(text, needle, i) && k < |text| && text[k] == '\n'
    ensures k < i || i + |needle| <= k
  {
    assert forall j :: 0 <= j < |needle| ==> needle[j] in needle && text[i + j] == needle[j];
  }

  lemma OccursInFirst(line: string, rest: string, needle: string, i: nat)
    requires needle != "" && SeparatorFree(needle) && OccursAt(line + "\n" + rest, needle, i)
    ensures if i <= |line| then OccursAt(line, needle, i) else OccursAt(rest, needle, i - |line| - 1)
  {
    var text := line + "\n" + rest;
    NotAcrossNewline(text, needle, i, |line|);
    if i > |line| {
      assert text[|line| + 1..] == rest;
      OccursInRest(text, needle, i, |line| + 1);
    } else {
      assert text[i..i + |needle|] == line[i..i + |needle|];
    }
  }

  /** What occurs in the joined text occurs in one of the lines. */
  lemma {:induction false} OccursInALine(lines: seq<string>, needle: string) returns (k: nat)
    requires needle != "" && SeparatorFree(needle) && Occurs(JoinLines(lines), needle)
    ensures k < |lines| && Occurs(lines[k], needle)
  {
    var i: nat :| OccursAt(JoinLines(lines), needle, i);
    JoinFirst(lines);
    OccursInFirst(lines[0], JoinLines(lines[1..]), needle, i);
    if i <= |lines[0]| {
      k := 0;
    } else {
      var j := OccursInALine(lines[1..], needle);
      k := j + 1;
    }
  }

  /** What occurs in a line occurs in the text. */
  lemma {:induction false} OccursInText(text: string, needle: string, k: nat)
    requires k < |SplitLines(text)| && Occurs(SplitLines(text)[k], needle)
    ensures Occurs(text, needle)
    decreases k
  {
    if k == 0 {
      FirstLineIsPrefix(text);
      var i: nat :| OccursAt(SplitLines(text)[0], needle, i);
      hide SplitLines, LineEnd;
      OccursInPrefix(text, LineEnd(text), needle, i);
    } else {
      var from := LineEnd(text) + BoundaryLength(text, LineEnd(text));
      OccursInText(text[from..], needle, k - 1);
      var i: nat :| OccursAt(text[from..], needle, i);
      hide SplitLines, LineEnd;
      OccursInRest(text, needle, i + from, from);
      assert OccursAt(text, needle, i + from);
    }
  }

  lemma FirstLineIsPrefix(text: string)
    requires SplitLines(text) != []
    ensures SplitLines(text)[0] == text[..LineEnd(text)]
  {
    hide LineEnd;
    assert text[..|text|] == text;
  }

  lemma OccursInPrefix(text: string, end: nat, needle: string, i: nat)
    requires end <= |text| && OccursAt(text[..end], needle, i)
    ensures OccursAt(text, needle, i)
  {
    assert text[..end][i..i + |needle|] == text[i..i + |needle|];
  }
}
