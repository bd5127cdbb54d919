/** Counted, non-overlapping literal substitution, scanning from the left. */
module Substitution {
  /** Occurrences met by a left-to-right scan that skips each one it meets. */
  function Count(text: string, needle: string): nat
    requires needle != ""
    decreases |text|
  {
    if |text| < |needle| then 0
    else if needle <= text then 1 + Count(text[|needle|..], needle)
    else Count(text[1..], needle)
  }

  /** text with the first k occurrences the scan meets replaced. */
  function Replace(text: string, needle: string, replacement: string, k: nat): string
    requires needle != ""
    decreases |text|
  {
    if k == 0 || |text| < |needle| then text
    else if needle <= text then replacement + Replace(text[|needle|..], needle, replacement, k - 1)
    else [text[0]] + Replace(text[1..], needle, replacement, k)
  }

  predicate OccursAt(text: string, needle: string, i: nat) {
    i + |needle| <= |text| && text[i..i + |needle|] == needle
  }

  ghost predicate Occurs(text: string, needle: string) {
    exists i :: OccursAt(text, needle, i)
  }

  lemma OccursInRest(text: string, needle: string, i: nat, j: nat)
    requires j <= i && i <= |text|
    ensures OccursAt(text, needle, i) <==> OccursAt(text[j..], needle, i - j)
  {
    if i + |needle| <= |text| {
      assert text[j..][i - j..i - j + |needle|] == text[i..i + |needle|];
    }
  }

  /** The scan finds something exactly when there is something, at any position. */
  lemma {:induction false} CountZeroIffAbsent(text: string, needle: string)
    requires needle != ""
    ensures Count(text, needle) == 0 <==> !Occurs(text, needle)
    decreases |text|
  {
    if |text| >= |needle| {
      if needle <= text {
        assert OccursAt(text, needle, 0);
      } else {
        CountZeroIffAbsent(text[1..], needle);
        if i: nat :| OccursAt(text, needle, i) {
          OccursInRest(text, needle, i, 1);
          assert OccursAt(text[1..], needle, i - 1);
        }
        if i: nat :| OccursAt(text[1..], needle, i) {
          OccursInRest(text, needle, i + 1, 1);
          assert OccursAt(text, needle, i + 1);
        }
      }
    }
  }

  /** positions are occurrences of needle from index from on, in order and without overlap. */
  predicate Disjoint(text: string, needle: string, positions: seq<nat>, from: nat)
    decreases positions
  {
    positions == [] || (from <= positions[0] && OccursAt(text, needle, positions[0]) &&
                        Disjoint(text, needle, positions[1..], positions[0] + |needle|))
  }

  lemma DisjointFromEarlier(text: string, needle: string, positions: seq<nat>, from: nat, earlier: nat)
    requires Disjoint(text, needle, positions, from) && (positions == [] || earlier <= positions[0])
    ensures Disjoint(text, needle, positions, earlier)
  {
  }

  /** The greedy scan is optimal: no choice of non-overlapping occurrences is larger than Count. */
  lemma {:induction false} CountIsMaximal(text: string, needle: string, positions: seq<nat>, offset: nat)
    requires needle != "" && offset <= |text| && Disjoint(text, needle, positions, offset)
    ensures |positions| <= Count(text[offset..], needle)
    decreases |text| - offset
  {
    if positions != [] {
      var rest, first := text[offset..], positions[0];
      assert offset <= first && first + |needle| <= |text|;
      if needle <= rest {
        // the scan takes this one and skips over it, which can cost only the first chosen occurrence
        DisjointFromEarlier(text, needle, positions[1..], first + |needle|, offset + |needle|);
        CountIsMaximal(text, needle, positions[1..], offset + |needle|);
        assert rest[|needle|..] == text[offset + |needle|..];
      } else {
        assert first != offset by {
          assert text[offset..offset + |needle|] == rest[..|needle|];
        }
        DisjointFromEarlier(text, needle, positions, offset, offset + 1);
        CountIsMaximal(text, needle, positions, offset + 1);
        assert rest[1..] == text[offset + 1..];
      }
    }
  }

  /** The scan itself picks that many non-overlapping occurrences. */
  lemma {:induction false} CountIsReached(text: string, needle: string, offset: nat,
      whole: string) returns (positions: seq<nat>)
    requires needle != "" && offset <= |whole| && text == whole[offset..]
    ensures |positions| == Count(text, needle) && Disjoint(whole, needle, positions, offset)
    decreases |text|
  {
    positions := [];
    if |text| >= |needle| {
      if needle <= text {
        var rest := CountIsReached(text[|needle|..], needle, offset + |needle|, whole);
        positions := [offset] + rest;
        assert positions[1..] == rest;
        OccursInRest(whole, needle, offset, offset);
        assert OccursAt(text, needle, 0);
      } else {
        positions := CountIsReached(text[1..], needle, offset + 1, whole);
        DisjointFromEarlier(whole, needle, positions, offset + 1, offset);
      }
    }
  }

  function Min(a: nat, b: nat): nat {
    if a < b then a else b
  }

  /** Each replacement made changes the length by the same amount. */
  lemma {:induction false} ReplaceLength(text: string, needle: string, replacement: string, k: nat)
    requires needle != ""
    ensures |Replace(text, needle, replacement, k)| ==
            |text| + Min(k, Count(text, needle)) * (|replacement| - |needle|)
    decreases |text|
  {
    var d := |replacement| - |needle|;
    if k > 0 && |text| >= |needle| {
      if needle <= text {
        ReplaceLength(text[|needle|..], needle, replacement, k - 1);
        MulSucc(Min(k - 1, Count(text[|needle|..], needle)), d);
      } else {
        ReplaceLength(text[1..], needle, replacement, k);
      }
    } else {
      assert Min(k, Count(text, needle)) == 0;
    }
  }

  lemma MulSucc(m: nat, d: int)
    ensures (m + 1) * d == m * d + d
  {
  }

  /** Replacing changes nothing exactly when there is nothing to replace or it is replaced by itself. */
  lemma ReplaceIsIdentity(text: string, needle: string, replacement: string, k: nat)
    requires needle != "" && k > 0
    ensures Replace(text, needle, replacement, k) == text <==> Count(text, needle) == 0 || replacement == needle
  {
    ReplaceLength(text, needle, replacement, k);
    if replacement == needle {
      ReplaceByItself(text, needle, k);
    } else if Count(text, needle) == 0 {
      ReplaceNothing(text, needle, replacement, k);
    } else if |replacement| == |needle| {
      ReplaceDiffers(text, needle, replacement, k);
    } else {
      ProductNotZero(Min(k, Count(text, needle)), |replacement| - |needle|);
    }
  }

  lemma ProductNotZero(m: nat, d: int)
    requires m != 0 && d != 0
    ensures m * d != 0
  {
  }

  lemma {:induction false} ReplaceByItself(text: string, needle: string, k: nat)
    requires needle != ""
    ensures Replace(text, needle, needle, k) == text
    decreases |text|
  {
    if k > 0 && |text| >= |needle| {
      if needle <= text {
        ReplaceByItself(text[|needle|..], needle, k - 1);
        assert text == needle + text[|needle|..];
      } else {
        ReplaceByItself(text[1..], needle, k);
        assert text == [text[0]] + text[1..];
      }
    }
  }

  lemma {:induction false} ReplaceNothing(text: string, needle: string, replacement: string, k: nat)
    requires needle != "" && Count(text, needle) == 0
    ensures Replace(text, needle, replacement, k) == text
    decreases |text|
  {
    if k > 0 && |text| >= |needle| {
      ReplaceNothing(text[1..], needle, replacement, k);
    }
  }

  /** With equal lengths the first occurrence is where old and new text first differ. */
  lemma {:induction false} ReplaceDiffers(text: string, needle: string, replacement: string, k: nat)
    requires needle != "" && k > 0 && Count(text, needle) > 0
    requires |replacement| == |needle| && replacement != needle
    ensures Replace(text, needle, replacement, k) != text
    decreases |text|
  {
    var after := Replace(text, needle, replacement, k);
    if needle <= text {
      assert after[..|needle|] == replacement;
      assert text[..|needle|] == needle;
    } else {
      ReplaceDiffers(text[1..], needle, replacement, k);
      assert after[1..] == Replace(text[1..], needle, replacement, k);
    }
  }

  // ---- substitution as split and join ----

  /** The stretches of text between the occurrences the scan meets. */
  function Pieces(text: string, needle: string): (pieces: seq<string>)
    requires needle != ""
    ensures |pieces| == Count(text, needle) + 1
    decreases |text|
  {
    if |text| < |needle| then [text]
    else if needle <= text then [""] + Pieces(text[|needle|..], needle)
    else
      var rest := Pieces(text[1..], needle);
      [[text[0]] + rest[0]] + rest[1..]
  }

  /** The pieces put together again with first between the first k gaps and then with second. */
  function Join(pieces: seq<string>, first: string, second: string, k: nat): string
    requires pieces != []
  {
    if |pieces| == 1 then pieces[0]
    else pieces[0] + (if k > 0 then first else second) + Join(pieces[1..], first, second, if k > 0 then k - 1 else 0)
  }

  lemma JoinLonger(pieces: seq<string>, c: char, first: string, second: string, k: nat)
    requires pieces != []
    ensures Join([[c] + pieces[0]] + pieces[1..], first, second, k) == [c] + Join(pieces, first, second, k)
  {
    var longer := [[c] + pieces[0]] + pieces[1..];
    assert longer[1..] == pieces[1..];
  }

  lemma JoinOneMore(pieces: seq<string>, first: string, second: string, k: nat)
    requires pieces != []
    ensures Join([""] + pieces, first, second, k) ==
            (if k > 0 then first else second) + Join(pieces, first, second, if k > 0 then k - 1 else 0)
  {
    assert ([""] + pieces)[1..] == pieces;
  }

  /** Replace is splitting at the occurrences and joining again, with the replacement in the first k gaps
      and the needle in the others. */
  lemma {:induction false} ReplaceIsSplitAndJoin(text: string, needle: string, replacement: string, k: nat)
    requires needle != ""
    ensures Join(Pieces(text, needle), replacement, needle, k) == Replace(text, needle, replacement, k)
    decreases |text|, k
  {
    hide Join;
    if |text| < |needle| {
      JoinOne(text, replacement, needle, k);
    } else if needle <= text {
      ReplaceIsSplitAndJoin(text[|needle|..], needle, replacement, if k > 0 then k - 1 else 0);
      JoinOneMore(Pieces(text[|needle|..], needle), replacement, needle, k);
      assert text == needle + text[|needle|..];
      assert k == 0 ==> Replace(text[|needle|..], needle, replacement, 0) == text[|needle|..];
    } else {
      ReplaceIsSplitAndJoin(text[1..], needle, replacement, k);
      JoinLonger(Pieces(text[1..], needle), text[0], replacement, needle, k);
      assert text == [text[0]] + text[1..];
      assert k == 0 ==> Replace(text[1..], needle, replacement, 0) == text[1..];
    }
  }

  lemma JoinOne(piece: string, first: string, second: string, k: nat)
    ensures Join([piece], first, second, k) == piece
  {
  }

  // ---- convergence ----

  predicate NoSharedChar(a: string, b: string) {
    forall c :: c in a ==> c !in b
  }

  /** Where the new text spells something free of the replacement's characters, the old text spelled it. */
  lemma {:induction false} SpelledBefore(text: string, needle: string, replacement: string, k: nat, spelled: string)
    requires needle != "" && replacement != "" && NoSharedChar(spelled, replacement)
    requires spelled <= Replace(text, needle, replacement, k)
    ensures spelled <= text
    decreases |text|
  {
    var after := Replace(text, needle, replacement, k);
    if spelled != "" && k > 0 && |text| >= |needle| {
      assert spelled[0] in spelled && spelled[0] == after[0];
      assert replacement[0] in replacement && after[0] != replacement[0];
      if !(needle <= text) {
        assert after[1..] == Replace(text[1..], needle, replacement, k);
        assert spelled[1..] <= after[1..];
        SpelledBefore(text[1..], needle, replacement, k, spelled[1..]);
        assert spelled == [spelled[0]] + spelled[1..];
        assert text == [text[0]] + text[1..];
      }
    }
  }

  /** Replacing every occurrence by something non-empty that shares no character with the needle leaves no
      occurrence anywhere, not even across the seams. */
  lemma {:induction false} ReplaceAllConverges(text: string, needle: string, replacement: string, k: nat)
    requires needle != "" && replacement != "" && NoSharedChar(needle, replacement)
    requires k >= Count(text, needle)
    ensures Count(Replace(text, needle, replacement, k), needle) == 0
    decreases |text|
  {
    var after := Replace(text, needle, replacement, k);
    if k > 0 && |text| >= |needle| {
      if needle <= text {
        ReplaceAllConverges(text[|needle|..], needle, replacement, k - 1);
        NoneAfterPrefix(replacement, Replace(text[|needle|..], needle, replacement, k - 1), needle);
      } else {
        ReplaceAllConverges(text[1..], needle, replacement, k);
        if needle <= after {
          SpelledBefore(text, needle, replacement, k, needle);
        }
        assert after[1..] == Replace(text[1..], needle, replacement, k);
      }
    }
  }

  lemma {:induction false} NoneAfterPrefix(prefix: string, rest: string, needle: string)
    requires needle != "" && NoSharedChar(needle, prefix) && Count(rest, needle) == 0
    ensures Count(prefix + rest, needle) == 0
  {
    if prefix == "" {
      assert prefix + rest == rest;
    } else {
      NoneAfterPrefix(prefix[1..], rest, needle);
      assert (prefix + rest)[1..] == prefix[1..] + rest;
      assert prefix[0] in prefix && needle[0] in needle;
      assert (prefix + rest)[0] != needle[0];
    }
  }
}
