/** What every operation of the two text changers answers and leaves, case by case: by the entry at the path,
    the failing reads and writes, and where the line or the needle stands. */
module Verdicts {
  import opened Outcomes
  import opened Registry
  import opened Workers
  import opened Transactions
  import opened Files
  import opened Substitution
  import opened Lines
  import R = ReplaceInFile
  import E = EnsureLine

  // ---- where a line stands ----

  /** a is the only line on which the pattern is found. */
  ghost predicate Only(lines: seq<string>, found: string -> bool, a: nat) {
    a < |lines| && found(lines[a]) && forall j :: 0 <= j < |lines| && j != a ==> !found(lines[j])
  }

  /** The placement names a place: the start, the end, or one beside the only line its pattern is found on. */
  ghost predicate HasPlace(lines: seq<string>, placement: E.Placement) {
    match placement
    case AtStart => true
    case AtEnd => true
    case AfterRegex(pattern) => pattern.valid && exists a: nat :: Only(lines, pattern.found, a)
    case BeforeRegex(pattern) => pattern.valid && exists a: nat :: Only(lines, pattern.found, a)
  }

  /** i is the index of the line that stands at the place. */
  ghost predicate AtPlace(lines: seq<string>, placement: E.Placement, i: nat) {
    && i < |lines|
    && match placement
       case AtStart => i == 0
       case AtEnd => i == |lines| - 1
       case AfterRegex(pattern) => pattern.valid && i > 0 && Only(lines, pattern.found, i - 1)
       case BeforeRegex(pattern) => pattern.valid && Only(lines, pattern.found, i + 1)
  }

  ghost predicate InPlace(lines: seq<string>, placement: E.Placement, line: string) {
    exists i: nat :: AtPlace(lines, placement, i) && lines[i] == line
  }

  /** longer is lines with the line put at the place. */
  ghost predicate PutAtPlace(lines: seq<string>, placement: E.Placement, line: string, longer: seq<string>) {
    match placement
    case AtStart => longer == [line] + lines
    case AtEnd => longer == lines + [line]
    case AfterRegex(pattern) =>
      exists a: nat :: Only(lines, pattern.found, a) && longer == lines[..a + 1] + [line] + lines[a + 1..]
    case BeforeRegex(pattern) =>
      exists a: nat :: Only(lines, pattern.found, a) && longer == lines[..a] + [line] + lines[a..]
  }

  lemma ResolvedExactly(lines: seq<string>, placement: E.Placement)
    ensures E.Resolved(placement, lines) <==> HasPlace(lines, placement)
    ensures placement.Anchored() && E.Resolved(placement, lines) ==>
              && E.ResolveAnchor(placement, lines).Anchor? && placement.pattern.valid
              && Only(lines, placement.pattern.found, E.ResolveAnchor(placement, lines).index)
              && E.FindAnchors(lines, placement.pattern.found) == [E.ResolveAnchor(placement, lines).index]
  {
    hide E.FindAnchors;
    if placement.Anchored() {
      var found := placement.pattern.found;
      var indices := E.FindAnchors(lines, found);
      if |indices| == 1 {
        assert indices == [indices[0]];
        E.OneAnchor(lines, found, indices[0]);
        assert Only(lines, found, indices[0]);
      }
      if a: nat :| Only(lines, found, a) {
        E.OneAnchor(lines, found, a);
      }
    }
  }

  lemma OnlyOne(lines: seq<string>, found: string -> bool, a: nat, b: nat)
    requires Only(lines, found, a) && Only(lines, found, b)
    ensures a == b
  {
  }

  /** The inverse's search finds the line exactly if it stands at the place, and says where. */
  lemma SearchExactly(lines: seq<string>, placement: E.Placement, line: string)
    ensures match E.PlacementLineIndex(lines, placement, line)
      case None => !InPlace(lines, placement, line)
      case Some(i) => AtPlace(lines, placement, i) && lines[i] == line
  {
    hide E.FindAnchors, Only;
    ResolvedExactly(lines, placement);
    forall i: nat, j: nat | AtPlace(lines, placement, i) && AtPlace(lines, placement, j) ensures i == j {
      SamePlace(lines, placement, i, j);
    }
    if placement.Anchored() && HasPlace(lines, placement) {
      var a := E.ResolveAnchor(placement, lines).index;
      InRange(lines, placement.pattern.found, a);
      forall i: nat | AtPlace(lines, placement, i) ensures if placement.AfterRegex? then i == a + 1 else i + 1 == a {
        OnlyOne(lines, placement.pattern.found, a, if placement.AfterRegex? then i - 1 else i + 1);
      }
    }
  }

  lemma InRange(lines: seq<string>, found: string -> bool, a: nat)
    requires Only(lines, found, a)
    ensures a < |lines|
  {
  }

  lemma SamePlace(lines: seq<string>, placement: E.Placement, i: nat, j: nat)
    requires AtPlace(lines, placement, i) && AtPlace(lines, placement, j)
    ensures i == j
  {
  }

  lemma InPlaceIsIn(lines: seq<string>, placement: E.Placement, line: string)
    ensures InPlace(lines, placement, line) ==> line in lines
  {
    hide Only;
  }

  /** What assessing the lines comes to. A line that stands elsewhere is an obstacle where the anchor is
      strict, and good enough where it is not. */
  lemma LinesVerdict(lines: seq<string>, p: E.Parameters)
    ensures E.AssessLines(lines, p) == AlreadyApplied <==>
              || InPlace(lines, p.placement, p.line)
              || (HasPlace(lines, p.placement) && !p.strictAnchor && p.line in lines)
    ensures E.AssessLines(lines, p) == Invalid <==>
              || !HasPlace(lines, p.placement)
              || (p.strictAnchor && p.line in lines && !InPlace(lines, p.placement, p.line))
    ensures E.AssessLines(lines, p) == Ready <==> HasPlace(lines, p.placement) && p.line !in lines
  {
    hide E.FindAnchors, E.PlacementLineIndex, AtPlace, HasPlace, E.Present;
    ResolvedExactly(lines, p.placement);
    SearchExactly(lines, p.placement, p.line);
    E.BackwardAgreesWithForward(lines, p);
    E.ResolvedInRange(p.placement, lines);
  }

  /** The same by the inverse's search. */
  lemma LinesVerdictBySearch(lines: seq<string>, p: E.Parameters)
    ensures var index := E.PlacementLineIndex(lines, p.placement, p.line);
      && (E.AssessLines(lines, p) == AlreadyApplied <==>
            index.Some? || (HasPlace(lines, p.placement) && !p.strictAnchor && p.line in lines))
      && (E.AssessLines(lines, p) == Invalid <==>
            !HasPlace(lines, p.placement) || (p.strictAnchor && p.line in lines && index.None?))
      && (E.AssessLines(lines, p) == Ready <==> HasPlace(lines, p.placement) && p.line !in lines)
  {
    hide E.FindAnchors, E.PlacementLineIndex, AtPlace, HasPlace;
    LinesVerdict(lines, p);
    SearchExactly(lines, p.placement, p.line);
  }

  lemma InsertedExactly(lines: seq<string>, p: E.Parameters)
    requires HasPlace(lines, p.placement)
    ensures E.Resolved(p.placement, lines) && PutAtPlace(lines, p.placement, p.line, E.Inserted(lines, p))
  {
    hide E.FindAnchors, Only;
    ResolvedExactly(lines, p.placement);
    E.ResolvedInRange(p.placement, lines);
  }

  // ---- ensure_line_in_file ----

  predicate WritableFile(fs: Fs, path: string) {
    path in fs.entries && fs.entries[path].File? && fs.entries[path].writable
  }

  lemma EnsureAssess(p: E.Parameters, fs: Fs)
    ensures var (a, after) := E.Assess(p, fs);
      && after.entries == fs.entries && after.faults == fs.faults
      && if !WritableFile(fs, p.path) || '\n' in p.line || '\r' in p.line || fs.faults(fs.clock) then
           a == Assessment(Invalid)
         else
           var lines := SplitLines(fs.entries[p.path].text);
           if InPlace(lines, p.placement, p.line) then a == Assessment(AlreadyApplied)
           else if !HasPlace(lines, p.placement) then a == Assessment(Invalid)
           else if p.line !in lines then a == Assessment(Ready)
           else a == Assessment(if p.strictAnchor then Invalid else AlreadyApplied)
  {
    hide SplitLines, E.AssessLines, HasPlace, InPlace;
    if WritableFile(fs, p.path) {
      LinesVerdict(SplitLines(fs.entries[p.path].text), p);
    }
  }

  lemma EnsureTransition(p: E.Parameters, fs: Fs)
    ensures var (r, after) := E.Transition(p, fs);
      && after.faults == fs.faults
      && if p.path !in fs.entries || !fs.entries[p.path].File? || fs.faults(fs.clock) then
           r == Result(Failed, "READ_FAILED", map[]) && after.entries == fs.entries
         else if !HasPlace(SplitLines(fs.entries[p.path].text), p.placement) then
           r == Result(Failed, "ANCHOR_VANISHED", map[]) && after.entries == fs.entries
         else if !fs.entries[p.path].writable || fs.faults(fs.clock + 1) then
           r == Result(Failed, "WRITE_FAILED", map[]) && after.entries == fs.entries
         else
           && r == Result(Succeeded, "OK", map[])
           && exists longer ::
                && PutAtPlace(SplitLines(fs.entries[p.path].text), p.placement, p.line, longer)
                && after.entries == fs.entries[p.path := File(JoinLines(longer), true)]
  {
    hide SplitLines, JoinLines, E.Inserted, E.Resolved, HasPlace, PutAtPlace;
    if p.path in fs.entries && fs.entries[p.path].File? {
      var lines := SplitLines(fs.entries[p.path].text);
      ResolvedExactly(lines, p.placement);
      if HasPlace(lines, p.placement) {
        InsertedExactly(lines, p);
      }
    }
  }

  lemma EnsureUndo(p: E.Parameters, fs: Fs)
    ensures var (r, after) := E.Undo(p, fs);
      && after.faults == fs.faults
      && if p.path !in fs.entries then r == Result(Skipped, "SKIPPED", map[]) && after.entries == fs.entries
         else if !fs.entries[p.path].File? || fs.faults(fs.clock) then
           r == Result(Failed, "READ_FAILED", map[]) && after.entries == fs.entries
         else
           var lines := SplitLines(fs.entries[p.path].text);
           if !InPlace(lines, p.placement, p.line) then
             r == Result(Skipped, "SKIPPED", map[]) && after.entries == fs.entries
           else if !fs.entries[p.path].writable || fs.faults(fs.clock + 1) then
             r == Result(Failed, "WRITE_FAILED", map[]) && after.entries == fs.entries
           else
             && r == Result(Succeeded, "OK", map[])
             && exists i: nat ::
                  && AtPlace(lines, p.placement, i) && lines[i] == p.line
                  && after.entries == fs.entries[p.path := File(JoinLines(lines[..i] + lines[i + 1..]), true)]
  {
    hide SplitLines, JoinLines, E.PlacementLineIndex, AtPlace;
    if p.path in fs.entries && fs.entries[p.path].File? {
      SearchExactly(SplitLines(fs.entries[p.path].text), p.placement, p.line);
    }
  }

  lemma EnsureAssessUndo(p: E.Parameters, fs: Fs)
    ensures var (a, after) := E.AssessUndo(p, fs);
      && after.entries == fs.entries && after.faults == fs.faults
      && if p.path !in fs.entries then a == Assessment(AlreadyApplied)
         else if !WritableFile(fs, p.path) || fs.faults(fs.clock) then a == Assessment(Invalid)
         else if InPlace(SplitLines(fs.entries[p.path].text), p.placement, p.line) then a == Assessment(Ready)
         else a == Assessment(AlreadyApplied)
  {
    hide SplitLines, E.PlacementLineIndex, AtPlace;
    if p.path in fs.entries && fs.entries[p.path].File? {
      SearchExactly(SplitLines(fs.entries[p.path].text), p.placement, p.line);
    }
  }

  /** What the inverse would answer if it were assessed foretells what its transition, which the engine runs
      without assessing it, comes to as long as nothing fails: ready means that the line is taken out, applied
      that there is nothing to do, invalid that nothing is changed. */
  lemma EnsureInverseForetells(p: E.Parameters, fs: Fs)
    requires NoFaults(fs)
    ensures var (a, after) := E.AssessUndo(p, fs);
      var (r, end) := E.Undo(p, after);
      match a.state
      case Ready => r == Result(Succeeded, "OK", map[])
      case AlreadyApplied => r == Result(Skipped, "SKIPPED", map[]) && end.entries == fs.entries
      case Invalid => r.status != Succeeded && end.entries == fs.entries
  {
    hide E.AssessUndo, E.Undo, InPlace, AtPlace, SplitLines, JoinLines;
    EnsureAssessUndo(p, fs);
    EnsureUndo(p, E.AssessUndo(p, fs).1);
  }

  /** How the engine's work on one such node ends when nothing fails, in every case. A line that stands elsewhere
      ends the node as invalid where the anchor is strict and as already applied where it is not; in either
      case no file is changed. */
  lemma EnsureOutcome(p: E.Parameters, values: Bindings, fs: Fs)
    requires NoFaults(fs)
    ensures var end, name := E.Run(p, values, fs), "ensure-line-in-file:" + p.path;
      var invalid := NodeReport(name, FailedInvalid, Some(Assessment(Invalid)), None, None, None);
      var applied := NodeReport(name, SkippedAlreadyApplied, Some(Assessment(AlreadyApplied)), None, None, None);
      var after := end.world.entries;
      && end.local.Finished? && end.values == values
      && if !WritableFile(fs, p.path) || '\n' in p.line || '\r' in p.line then
           end.local.report == invalid && after == fs.entries
         else
           var lines := SplitLines(fs.entries[p.path].text);
           if InPlace(lines, p.placement, p.line) then end.local.report == applied && after == fs.entries
           else if !HasPlace(lines, p.placement) then end.local.report == invalid && after == fs.entries
           else if p.line in lines then
             end.local.report == (if p.strictAnchor then invalid else applied) && after == fs.entries
           else
             && (exists longer :: && PutAtPlace(lines, p.placement, p.line, longer)
                                  && after == fs.entries[p.path := File(JoinLines(longer), true)])
             && EndsReady(p, end.local.report)
  {
    assert !fs.faults(fs.clock);
    hide NoFaults, SplitLines, JoinLines, InPlace, HasPlace, PutAtPlace, Transact, EndsReady, E.Assess, E.Run;
    E.RunIsTransaction(p, values, fs);
    EnsureAssess(p, fs);
    if WritableFile(fs, p.path) {
      InPlaceIsIn(SplitLines(fs.entries[p.path].text), p.placement, p.line);
    }
    if && WritableFile(fs, p.path) && '\n' !in p.line && '\r' !in p.line
       && HasPlace(SplitLines(fs.entries[p.path].text), p.placement)
       && p.line !in SplitLines(fs.entries[p.path].text)
    {
      EnsureReady(p, fs);
    } else {
      EnsureSettled(p, fs);
    }
  }

  lemma EnsureSettled(p: E.Parameters, fs: Fs)
    requires NoFaults(fs)
    requires E.Assess(p, fs).0.state != Ready
    ensures var (report, after) := Transact(E.AsChanger(p), fs);
      && after.entries == fs.entries
      && report == NodeReport("ensure-line-in-file:" + p.path,
                              if E.Assess(p, fs).0.state == Invalid then FailedInvalid else SkippedAlreadyApplied,
                              Some(E.Assess(p, fs).0), None, None, None)
  {
    EnsureAssess(p, fs);
    hide E.Assess, InPlace, HasPlace, SplitLines;
  }

  lemma EnsureReady(p: E.Parameters, fs: Fs)
    requires NoFaults(fs) && WritableFile(fs, p.path) && '\n' !in p.line && '\r' !in p.line
    requires HasPlace(SplitLines(fs.entries[p.path].text), p.placement)
    requires p.line !in SplitLines(fs.entries[p.path].text)
    ensures var (report, after) := Transact(E.AsChanger(p), fs);
      && (exists longer :: && PutAtPlace(SplitLines(fs.entries[p.path].text), p.placement, p.line, longer)
                           && after.entries == fs.entries[p.path := File(JoinLines(longer), true)])
      && EndsReady(p, report)
  {
    hide SplitLines, JoinLines, HasPlace, PutAtPlace, SeparatorFree, E.AnchorMatchesLine, E.Inserted, E.Resolved,
        Transact;
    var lines := SplitLines(fs.entries[p.path].text);
    LinesVerdict(lines, p);
    InsertedExactly(lines, p);
    assert !fs.faults(fs.clock) && !fs.faults(fs.clock + 1) && !fs.faults(fs.clock + 2) && !fs.faults(fs.clock + 3);
    E.InsertAndCheck(p, fs);
    E.LeftInPlace(p, fs);
    hide NoFaults;
  }

  /** The report on a line that was put in its place: it succeeds exactly if it is found there afterwards. */
  ghost predicate EndsReady(p: E.Parameters, report: NodeReport) {
    var name := "ensure-line-in-file:" + p.path;
    if SeparatorFree(p.line) && !E.AnchorMatchesLine(p) then
      report == NodeReport(name, Success, Some(Assessment(Ready)), Some(Result(Succeeded, "OK", map[])),
                           Some(Assessment(AlreadyApplied)), None)
    else
      && report.postAssess.Some? && report.postAssess.value.state != AlreadyApplied
      && report == NodeReport(name, FailedTransition, Some(Assessment(Ready)),
                              Some(Result(Failed, "POST_ASSESS_MISMATCH", map[])), report.postAssess,
                              Some(Result(Skipped, "SKIPPED", map[])))
  }

  // ---- replace_in_file ----

  /** The text has nothing left to replace. */
  ghost predicate NothingLeft(text: string, m: R.LiteralMatch) {
    m.expectedCount == 0 || m.needle == m.replacement || !exists i: nat :: OccursAt(text, m.needle, i)
  }

  lemma ReplaceAssess(p: R.Parameters, env: R.Env)
    ensures var (a, after) := R.Assess(p, env);
      var fs, m := env.fs, p.match_;
      && after.fs.entries == fs.entries && after.fs.faults == fs.faults && after.preImage == env.preImage
      && if !WritableFile(fs, p.path) || m.needle == "" || m.expectedCount < 0 || fs.faults(fs.clock) then
           a == Assessment(Invalid)
         else if NothingLeft(fs.entries[p.path].text, m) then a == Assessment(AlreadyApplied)
         else if Count(fs.entries[p.path].text, m.needle) == m.expectedCount then a == Assessment(Ready)
         else a == Assessment(Invalid)
  {
    hide Count, Replace, OccursAt;
    if WritableFile(env.fs, p.path) && p.match_.needle != "" && p.match_.expectedCount >= 0 {
      R.AlreadyAppliedExactly(env.fs.entries[p.path].text, p.match_);
    }
  }

  /** The number of matches that is compared with the expected one; an empty needle has none. */
  function Matches(text: string, needle: string): nat {
    if needle == "" then 0 else Count(text, needle)
  }

  lemma ReplaceTransition(p: R.Parameters, env: R.Env)
    ensures var (r, after) := R.Transition(p, env);
      var fs, m := env.fs, p.match_;
      && after.fs.faults == fs.faults
      && if p.path !in fs.entries || !fs.entries[p.path].File? || fs.faults(fs.clock) then
           r == Result(Failed, "READ_FAILED", map[]) && after.fs.entries == fs.entries && after.preImage == env.preImage
         else
           var text := fs.entries[p.path].text;
           if Matches(text, m.needle) != m.expectedCount then
             && r == Result(Failed, "MATCH_VANISHED", map[])
             && after.fs.entries == fs.entries && after.preImage == env.preImage
           else if NothingLeft(text, m) then
             && r == Result(Skipped, "SKIPPED", map[])
             && after.fs.entries == fs.entries && after.preImage == env.preImage
           else if !fs.entries[p.path].writable || fs.faults(fs.clock + 1) then
             && r == Result(Failed, "WRITE_FAILED", map[])
             && after.fs.entries == fs.entries && after.preImage == env.preImage
           else
             && r == Result(Succeeded, "OK", map["pre_sha256" := p.digest(text)])
             && after.preImage == Some(text)
             && after.fs.entries ==
                  fs.entries[p.path := File(Replace(text, m.needle, m.replacement, m.expectedCount), true)]
  {
    hide Count, Replace, OccursAt;
    if && p.path in env.fs.entries && env.fs.entries[p.path].File?
       && p.match_.needle != "" && p.match_.expectedCount >= 0
    {
      R.AlreadyAppliedExactly(env.fs.entries[p.path].text, p.match_);
    }
  }

  /** The captured text is written back whatever is found there. */
  lemma ReplaceUndo(p: R.Parameters, env: R.Env)
    ensures var (r, after) := R.Undo(p, env);
      var fs := env.fs;
      && after.fs.faults == fs.faults && after.preImage == env.preImage
      && if env.preImage.None? || p.path !in fs.entries then
           r == Result(Skipped, "SKIPPED", map[]) && after.fs.entries == fs.entries
         else if !fs.entries[p.path].File? || fs.faults(fs.clock) then
           r == Result(Failed, "READ_FAILED", map[]) && after.fs.entries == fs.entries
         else if !fs.entries[p.path].writable || fs.faults(fs.clock + 1) then
           r == Result(Failed, "WRITE_FAILED", map[]) && after.fs.entries == fs.entries
         else
           && r == Result(Succeeded, "OK", map[])
           && after.fs.entries == fs.entries[p.path := File(env.preImage.value, true)]
  {
  }

  /** text with the replacement put before each of its characters. */
  function Spread(text: string, replacement: string): string {
    if text == "" then "" else replacement + [text[0]] + Spread(text[1..], replacement)
  }

  /** Replacing an empty needle, which only an inverse built for one can come to: it is found before each of the
      first k characters and, if there are more than that to replace, at the end. */
  lemma {:induction false} EmptyNeedleReplaced(text: string, replacement: string, k: nat)
    ensures R.ApplyMatch(text, R.LiteralMatch("", k, replacement)) ==
              if k <= |text| then Spread(text[..k], replacement) + text[k..]
              else Spread(text, replacement) + replacement
    decreases |text|
  {
    if k == 0 {
      assert Spread(text[..0], replacement) == "";
    } else if text != "" {
      var head, rest := replacement + [text[0]], text[1..];
      EmptyNeedleReplaced(rest, replacement, k - 1);
      assert R.ReplaceEmpty(text, replacement, k) == head + R.ApplyMatch(rest, R.LiteralMatch("", k - 1, replacement));
      if k <= |text| {
        assert text[..k][1..] == rest[..k - 1] && text[k..] == rest[k - 1..];
        Regroup(head, Spread(rest[..k - 1], replacement), text[k..]);
      } else {
        Regroup(head, Spread(rest, replacement), replacement);
      }
    }
  }

  lemma Regroup(a: string, b: string, c: string)
    ensures a + (b + c) == (a + b) + c
  {
  }

  /** What the match makes of a text. */
  function Made(text: string, m: R.LiteralMatch): string {
    if m.expectedCount <= 0 then text
    else if m.needle != "" then Replace(text, m.needle, m.replacement, m.expectedCount)
    else if m.expectedCount <= |text| then Spread(text[..m.expectedCount], m.replacement) + text[m.expectedCount..]
    else Spread(text, m.replacement) + m.replacement
  }

  lemma ReplaceAssessUndo(p: R.Parameters, env: R.Env)
    ensures var (a, after) := R.AssessUndo(p, env);
      var fs, m := env.fs, p.match_;
      && after.fs.entries == fs.entries && after.fs.faults == fs.faults && after.preImage == env.preImage
      && if env.preImage.None? || p.path !in fs.entries then a == Assessment(AlreadyApplied)
         else if !WritableFile(fs, p.path) || fs.faults(fs.clock) then a == Assessment(Invalid)
         else
           var text, before := fs.entries[p.path].text, env.preImage.value;
           if text == before then a == Assessment(AlreadyApplied)
           else if text == Made(before, m) then a == Assessment(Ready)
           else a == Assessment(Invalid)
  {
    hide Replace, Spread, R.ReplaceEmpty;
    var m := p.match_;
    if env.preImage.Some? && m.needle == "" && m.expectedCount >= 0 {
      EmptyNeedleReplaced(env.preImage.value, m.replacement, m.expectedCount);
    }
  }

  /** A text that is neither the captured one nor what the match makes of it is not for the inverse to
      overwrite, says its assessment; its transition, which the engine runs without assessing it, overwrites
      it all the same. */
  lemma DriftIsOverwritten(p: R.Parameters, env: R.Env)
    requires NoFaults(env.fs) && WritableFile(env.fs, p.path) && env.preImage.Some?
    ensures var text, before := env.fs.entries[p.path].text, env.preImage.value;
      var (a, after) := R.AssessUndo(p, env);
      var (r, end) := R.Undo(p, after);
      && (a.state == Invalid <==> text != before && text != Made(before, p.match_))
      && (a.state == Ready <==> text != before && text == Made(before, p.match_))
      && r == Result(Succeeded, "OK", map[]) && end.fs.entries == env.fs.entries[p.path := File(before, true)]
  {
    hide R.AssessUndo, R.Undo, Made;
    ReplaceAssessUndo(p, env);
    ReplaceUndo(p, R.AssessUndo(p, env).1);
  }

  /** How the engine's work on one such node ends when nothing fails, in every case. */
  lemma ReplaceOutcome(p: R.Parameters, values: Bindings, fs: Fs)
    requires NoFaults(fs)
    ensures var end, name, m := R.Run(p, values, fs), "replace-in-file:" + p.path, p.match_;
      var invalid := NodeReport(name, FailedInvalid, Some(Assessment(Invalid)), None, None, None);
      && end.local.Finished? && end.values == values
      && var report, after := end.local.report, end.world.fs.entries;
      if !WritableFile(fs, p.path) || m.needle == "" || m.expectedCount < 0 then
        report == invalid && after == fs.entries
      else
        var text := fs.entries[p.path].text;
        if NothingLeft(text, m) then
          && report == NodeReport(name, SkippedAlreadyApplied, Some(Assessment(AlreadyApplied)), None, None, None)
          && after == fs.entries
        else if Count(text, m.needle) != m.expectedCount then report == invalid && after == fs.entries
        else EndsReplaced(p, fs, text, report, after)
  {
    assert !fs.faults(fs.clock);
    hide NoFaults, NothingLeft, R.Assess, Transact, EndsReplaced, Count, OccursAt;
    EngineRunIsTransaction(R.AsChanger(p), values, R.Env(fs, None));
    ReplaceAssess(p, R.Env(fs, None));
    if R.Assess(p, R.Env(fs, None)).0.state == Ready {
      ReplaceReady(p, fs);
    } else {
      ReplaceSettled(p, fs);
    }
  }

  lemma ReplaceSettled(p: R.Parameters, fs: Fs)
    requires R.Assess(p, R.Env(fs, None)).0.state != Ready
    ensures var (a, after) := R.Assess(p, R.Env(fs, None));
      Transact(R.AsChanger(p), R.Env(fs, None)) ==
        (NodeReport("replace-in-file:" + p.path,
                    if a.state == Invalid then FailedInvalid else SkippedAlreadyApplied, Some(a), None, None, None),
         after)
  {
    hide R.Assess;
  }

  /** The end of a node whose match was replaced: it succeeds exactly if no occurrence is left, and otherwise
      the captured text is written back. */
  ghost predicate EndsReplaced(p: R.Parameters, fs: Fs, text: string, report: NodeReport, after: map<string, Entry>)
    requires p.match_.needle != "" && p.match_.expectedCount >= 0
  {
    var name, m := "replace-in-file:" + p.path, p.match_;
    var replaced := Replace(text, m.needle, m.replacement, m.expectedCount);
    if !exists i: nat :: OccursAt(replaced, m.needle, i) then
      && report == NodeReport(name, Success, Some(Assessment(Ready)),
                              Some(Result(Succeeded, "OK", map["pre_sha256" := p.digest(text)])),
                              Some(Assessment(AlreadyApplied)), None)
      && after == fs.entries[p.path := File(replaced, true)]
    else
      && report == NodeReport(name, FailedTransition, Some(Assessment(Ready)),
                              Some(Result(Failed, "POST_ASSESS_MISMATCH", map[])),
                              Some(Assessment(if Count(replaced, m.needle) == m.expectedCount then Ready else Invalid)),
                              Some(Result(Succeeded, "OK", map[])))
      && after == fs.entries
  }

  lemma ReplaceReady(p: R.Parameters, fs: Fs)
    requires NoFaults(fs) && WritableFile(fs, p.path) && p.match_.needle != "" && p.match_.expectedCount >= 0
    requires !NothingLeft(fs.entries[p.path].text, p.match_)
    requires Count(fs.entries[p.path].text, p.match_.needle) == p.match_.expectedCount
    ensures var (report, after) := Transact(R.AsChanger(p), R.Env(fs, None));
      EndsReplaced(p, fs, fs.entries[p.path].text, report, after.fs.entries)
  {
    var c, text, m := R.AsChanger(p), fs.entries[p.path].text, p.match_;
    var replaced := Replace(text, m.needle, m.replacement, m.expectedCount);
    hide R.Assess, R.Transition, R.Undo, Count, Replace, OccursAt, Transact, NothingLeft, NoFaults, WritableFile;
    var env := R.Env(fs, None);
    var (a, env1) := R.Assess(p, env);
    ReplacesWithoutFaults(p, env);
    var (r, env2) := R.Transition(p, env1);
    var (post, env3) := R.Assess(p, env2);
    LeftAfterReplacing(text, replaced, m);
    if post.state == AlreadyApplied {
      PassedCheck(c, env, a, env1, r, env2, post, env3);
    } else {
      RestoresWithoutFaults(p, env3, fs.entries, replaced);
      FailedCheck(c, env, a, env1, r, env2, post, env3);
    }
  }

  /** Assessment, transition and check of a node that is ready. */
  lemma ReplacesWithoutFaults(p: R.Parameters, env: R.Env)
    requires NoFaults(env.fs) && WritableFile(env.fs, p.path) && p.match_.needle != "" && p.match_.expectedCount >= 0
    requires !NothingLeft(env.fs.entries[p.path].text, p.match_)
    requires Count(env.fs.entries[p.path].text, p.match_.needle) == p.match_.expectedCount
    ensures var text, m := env.fs.entries[p.path].text, p.match_;
      var replaced := Replace(text, m.needle, m.replacement, m.expectedCount);
      var (a, env1) := R.Assess(p, env);
      var (r, env2) := R.Transition(p, env1);
      var (post, env3) := R.Assess(p, env2);
      && a == Assessment(Ready) && r == Result(Succeeded, "OK", map["pre_sha256" := p.digest(text)])
      && post == Assessment(if NothingLeft(replaced, m) then AlreadyApplied
                            else if Count(replaced, m.needle) == m.expectedCount then Ready
                            else Invalid)
      && env3.fs.entries == env.fs.entries[p.path := File(replaced, true)]
      && env3.preImage == Some(text) && NoFaults(env3.fs)
  {
    hide R.Assess, R.Transition, R.Undo, Count, Replace, NothingLeft;
    ReplaceAssess(p, env);
    ReplaceTransition(p, R.Assess(p, env).1);
    ReplaceAssess(p, R.Transition(p, R.Assess(p, env).1).1);
  }

  lemma RestoresWithoutFaults(p: R.Parameters, env: R.Env, entries: map<string, Entry>, replaced: string)
    requires NoFaults(env.fs) && p.path in entries && env.fs.entries == entries[p.path := File(replaced, true)]
    requires env.preImage.Some? && entries[p.path] == File(env.preImage.value, true)
    ensures var (r, after) := R.Undo(p, env); r == Result(Succeeded, "OK", map[]) && after.fs.entries == entries
  {
    hide R.Undo;
    ReplaceUndo(p, env);
    assert entries[p.path := File(replaced, true)][p.path := entries[p.path]] == entries;
  }

  lemma LeftAfterReplacing(text: string, replaced: string, m: R.LiteralMatch)
    requires !NothingLeft(text, m)
    ensures NothingLeft(replaced, m) <==> !exists i: nat :: OccursAt(replaced, m.needle, i)
  {
  }
}
