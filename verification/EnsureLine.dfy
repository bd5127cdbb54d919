/** The changer that puts a line at a given place of a file, its inverse that takes the line out again by
    looking for it there, and what the engine makes of the two. */
module EnsureLine {
  import opened Outcomes
  import opened Registry
  import opened Workers
  import opened Transactions
  import opened Files
  import opened Lines

  /** A regular expression: whether it compiles, and on which lines it is found. */
  datatype Pattern = Pattern(valid: bool, found: string -> bool)

  datatype Placement = AfterRegex(pattern: Pattern) | BeforeRegex(pattern: Pattern) | AtEnd | AtStart {
    predicate Anchored() {
      AfterRegex? || BeforeRegex?
    }
  }

  datatype Parameters = Parameters(path: string, line: string, placement: Placement, strictAnchor: bool)

  function FindAnchors(lines: seq<string>, found: string -> bool): (indices: seq<nat>)
    ensures forall i :: i in indices <==> 0 <= i < |lines| && found(lines[i])
    ensures forall a, b :: 0 <= a < b < |indices| ==> indices[a] < indices[b]
  {
    if lines == [] then []
    else
      var last := |lines| - 1;
      var before := FindAnchors(lines[..last], found);
      assert forall k :: 0 <= k < |before| ==> before[k] in before;
      before + if found(lines[last]) then [last] else []
  }

  datatype Anchor = NoAnchor | Anchor(index: nat) | Issue

  function ResolveAnchor(placement: Placement, lines: seq<string>): Anchor {
    if !placement.Anchored() then NoAnchor
    else if !placement.pattern.valid then Issue
    else
      var indices := FindAnchors(lines, placement.pattern.found);
      if |indices| == 1 then Anchor(indices[0]) else Issue
  }

  /** An anchor was resolved and its index, if the placement has one, is that of a line. */
  predicate Resolved(placement: Placement, lines: seq<string>) {
    ResolveAnchor(placement, lines) != Issue
  }

  lemma ResolvedInRange(placement: Placement, lines: seq<string>)
    ensures ResolveAnchor(placement, lines).Anchor? ==>
              placement.Anchored() && ResolveAnchor(placement, lines).index < |lines|
    ensures ResolveAnchor(placement, lines).NoAnchor? <==> !placement.Anchored()
  {
    if placement.Anchored() {
      var indices := FindAnchors(lines, placement.pattern.found);
      assert |indices| == 1 ==> indices[0] in indices;
    }
  }

  predicate Present(lines: seq<string>, placement: Placement, anchor: Anchor, line: string)
    requires placement.Anchored() ==> anchor.Anchor?
  {
    match placement
    case AtStart => |lines| > 0 && lines[0] == line
    case AtEnd => |lines| > 0 && lines[|lines| - 1] == line
    case AfterRegex(_) => anchor.index + 1 < |lines| && lines[anchor.index + 1] == line
    case BeforeRegex(_) => 0 < anchor.index <= |lines| && lines[anchor.index - 1] == line
  }

  function InsertionIndex(lines: seq<string>, placement: Placement, anchor: Anchor): nat
    requires placement.Anchored() ==> anchor.Anchor?
  {
    match placement
    case AtStart => 0
    case AtEnd => |lines|
    case AfterRegex(_) => anchor.index + 1
    case BeforeRegex(_) => anchor.index
  }

  function AssessLines(lines: seq<string>, p: Parameters): ExistingState {
    ResolvedInRange(p.placement, lines);
    var anchor := ResolveAnchor(p.placement, lines);
    if anchor == Issue then Invalid
    else if Present(lines, p.placement, anchor, p.line) then AlreadyApplied
    else if p.line in lines then (if p.strictAnchor then Invalid else AlreadyApplied)
    else Ready
  }

  function Inserted(lines: seq<string>, p: Parameters): seq<string>
    requires Resolved(p.placement, lines)
  {
    ResolvedInRange(p.placement, lines);
    var i := InsertionIndex(lines, p.placement, ResolveAnchor(p.placement, lines));
    lines[..i] + [p.line] + lines[i..]
  }

  /** Where the inverse looks for the line, written without the resolution used going forward. */
  function PlacementLineIndex(lines: seq<string>, placement: Placement, line: string): Option<nat> {
    match placement
    case AtStart => if lines != [] && lines[0] == line then Some(0) else None
    case AtEnd => if lines != [] && lines[|lines| - 1] == line then Some(|lines| - 1) else None
    case AfterRegex(pattern) =>
      var indices := if pattern.valid then FindAnchors(lines, pattern.found) else [];
      if |indices| == 1 && indices[0] + 1 < |lines| && lines[indices[0] + 1] == line then Some(indices[0] + 1) else None
    case BeforeRegex(pattern) =>
      var indices := if pattern.valid then FindAnchors(lines, pattern.found) else [];
      if |indices| == 1 && 0 < indices[0] <= |lines| && lines[indices[0] - 1] == line then Some(indices[0] - 1)
      else None
  }

  /** The two pieces of code agree: the inverse finds the line exactly when the forward check would call it
      present, and what it points at is the line. */
  lemma BackwardAgreesWithForward(lines: seq<string>, p: Parameters)
    ensures ResolveAnchor(p.placement, lines) == Issue ==> PlacementLineIndex(lines, p.placement, p.line) == None
    ensures Resolved(p.placement, lines) ==>
              (p.placement.Anchored() ==> ResolveAnchor(p.placement, lines).Anchor?) &&
              (PlacementLineIndex(lines, p.placement, p.line).Some? <==>
               Present(lines, p.placement, ResolveAnchor(p.placement, lines), p.line))
    ensures PlacementLineIndex(lines, p.placement, p.line).Some? ==>
              var i := PlacementLineIndex(lines, p.placement, p.line).value; i < |lines| && lines[i] == p.line
  {
    ResolvedInRange(p.placement, lines);
  }

  // ---- inserting and taking out again ----

  /** The anchor pattern is found on the very line that is inserted. */
  predicate AnchorMatchesLine(p: Parameters) {
    p.placement.Anchored() && p.placement.pattern.found(p.line)
  }

  ghost predicate OnlyAnchor(lines: seq<string>, found: string -> bool, a: nat) {
    a < |lines| && found(lines[a]) && forall j :: 0 <= j < |lines| && found(lines[j]) ==> j == a
  }

  /** There is one anchor, a, exactly when the pattern is found on line a and on no other. */
  lemma OneAnchor(lines: seq<string>, found: string -> bool, a: nat)
    ensures FindAnchors(lines, found) == [a] <==> OnlyAnchor(lines, found, a)
  {
    if FindAnchors(lines, found) == [a] {
      OneFoundIsOnly(lines, found, a);
    }
    if OnlyAnchor(lines, found, a) {
      OnlyIsOneFound(lines, found, a);
    }
  }

  lemma OneFoundIsOnly(lines: seq<string>, found: string -> bool, a: nat)
    requires FindAnchors(lines, found) == [a]
    ensures OnlyAnchor(lines, found, a)
  {
    var indices := FindAnchors(lines, found);
    assert a in indices;
    forall j: nat | j < |lines| && found(lines[j]) ensures j == a {
      assert j in indices;
    }
  }

  lemma FirstTwoDiffer(indices: seq<nat>)
    requires forall a, b :: 0 <= a < b < |indices| ==> indices[a] < indices[b]
    ensures |indices| > 1 ==> indices[0] < indices[1]
  {
  }

  lemma OnlyIsOneFound(lines: seq<string>, found: string -> bool, a: nat)
    requires OnlyAnchor(lines, found, a)
    ensures FindAnchors(lines, found) == [a]
  {
    var indices := FindAnchors(lines, found);
    assert a in indices;
    forall k | 0 <= k < |indices| ensures indices[k] == a {
      assert indices[k] in indices;
    }
    hide FindAnchors;
    FirstTwoDiffer(indices);
  }

  lemma AnchorsAfterInsertion(lines: seq<string>, i: nat, line: string, found: string -> bool, anchor: nat)
    requires i <= |lines| && FindAnchors(lines, found) == [anchor]
    ensures found(line) ==> |FindAnchors(lines[..i] + [line] + lines[i..], found)| != 1
    ensures !found(line) ==>
              FindAnchors(lines[..i] + [line] + lines[i..], found) == [if anchor < i then anchor else anchor + 1]
  {
    hide FindAnchors;
    OneAnchor(lines, found, anchor);
    MovedAnchor(lines, i, line, found, anchor);
    var after := lines[..i] + [line] + lines[i..];
    var moved := if anchor < i then anchor else anchor + 1;
    if found(line) {
      TwoAnchors(FindAnchors(after, found), moved, i);
    } else {
      OneAnchor(after, found, moved);
    }
  }

  lemma MovedAnchor(lines: seq<string>, i: nat, line: string, found: string -> bool, anchor: nat)
    requires i <= |lines| && OnlyAnchor(lines, found, anchor)
    ensures var after, moved := lines[..i] + [line] + lines[i..], if anchor < i then anchor else anchor + 1;
      && moved < |after| && found(after[moved]) && after[i] == line && moved != i
      && (!found(line) ==> OnlyAnchor(after, found, moved))
  {
    LinesMoved(lines, i, line);
    var after := lines[..i] + [line] + lines[i..];
    var moved := if anchor < i then anchor else anchor + 1;
    assert after[moved] == lines[anchor];
    forall j | 0 <= j < |after| && found(after[j]) && !found(line) ensures j == moved {
      if j < i {
        assert after[j] == lines[j];
      } else if j > i {
        assert after[j] == lines[j - 1];
      }
    }
  }

  lemma TwoAnchors(indices: seq<nat>, a: nat, b: nat)
    requires a in indices && b in indices && a != b
    ensures |indices| != 1
  {
  }

  lemma LinesMoved(lines: seq<string>, i: nat, line: string)
    requires i <= |lines|
    ensures var after := lines[..i] + [line] + lines[i..];
      && |after| == |lines| + 1 && after[i] == line
      && (forall j :: 0 <= j < i ==> after[j] == lines[j])
      && (forall j :: i < j <= |lines| ==> after[j] == lines[j - 1])
      && Removed(after, i) == lines
  {
    assert lines == lines[..i] + lines[i..];
  }

  function Removed(lines: seq<string>, i: nat): seq<string>
    requires i < |lines|
  {
    lines[..i] + lines[i + 1..]
  }

  /** After the insertion the line is where it should be, or the anchor has become ambiguous: the latter
      exactly when the anchor pattern is found on the inserted line. */
  lemma AfterInsertion(lines: seq<string>, p: Parameters)
    requires AssessLines(lines, p) == Ready
    ensures Resolved(p.placement, lines)
    ensures AnchorMatchesLine(p) ==> ResolveAnchor(p.placement, Inserted(lines, p)) == Issue
    ensures !AnchorMatchesLine(p) ==>
              PlacementLineIndex(Inserted(lines, p), p.placement, p.line)
                == Some(InsertionIndex(lines, p.placement, ResolveAnchor(p.placement, lines)))
  {
    hide FindAnchors;
    ResolvedInRange(p.placement, lines);
    assert ResolveAnchor(p.placement, lines) != Issue;
    hide AssessLines;
    if p.placement.Anchored() {
      AfterAnchoredInsertion(lines, p);
    } else {
      LinesMoved(lines, InsertionIndex(lines, p.placement, NoAnchor), p.line);
    }
  }

  lemma AfterAnchoredInsertion(lines: seq<string>, p: Parameters)
    requires p.placement.Anchored() && ResolveAnchor(p.placement, lines).Anchor?
    ensures AnchorMatchesLine(p) ==> ResolveAnchor(p.placement, Inserted(lines, p)) == Issue
    ensures !AnchorMatchesLine(p) ==>
              PlacementLineIndex(Inserted(lines, p), p.placement, p.line)
                == Some(InsertionIndex(lines, p.placement, ResolveAnchor(p.placement, lines)))
  {
    hide FindAnchors;
    ResolvedInRange(p.placement, lines);
    var anchor := ResolveAnchor(p.placement, lines);
    var i := InsertionIndex(lines, p.placement, anchor);
    var found := p.placement.pattern.found;
    assert FindAnchors(lines, found) == [anchor.index];
    AnchorsAfterInsertion(lines, i, p.line, found, anchor.index);
    if !found(p.line) {
      LinesMoved(lines, i, p.line);
      hide Removed, PlacementLineIndex;
      FoundBesideAnchor(Inserted(lines, p), p, if anchor.index < i then anchor.index else anchor.index + 1, i);
    }
  }

  lemma FoundBesideAnchor(lines: seq<string>, p: Parameters, anchor: nat, i: nat)
    requires p.placement.Anchored() && p.placement.pattern.valid
    requires FindAnchors(lines, p.placement.pattern.found) == [anchor] && i < |lines| && lines[i] == p.line
    requires if p.placement.AfterRegex? then i == anchor + 1 else i + 1 == anchor < |lines|
    ensures PlacementLineIndex(lines, p.placement, p.line) == Some(i)
  {
    hide FindAnchors;
  }

  lemma LineNotAmong(lines: seq<string>, line: string)
    requires AllSeparatorFree(lines) && !SeparatorFree(line)
    ensures line !in lines
  {
  }

  lemma InsertedSeparatorFree(lines: seq<string>, p: Parameters)
    requires AllSeparatorFree(lines) && Resolved(p.placement, lines) && SeparatorFree(p.line)
    ensures AllSeparatorFree(Inserted(lines, p))
  {
    ResolvedInRange(p.placement, lines);
  }

  /** What the transition writes, from the text it reads. */
  function InsertedText(text: string, p: Parameters): string
    requires Resolved(p.placement, SplitLines(text))
  {
    JoinLines(Inserted(SplitLines(text), p))
  }

  /** Insertion converges exactly when the line has no separator of any kind and the anchor, if there is
      one, is not found on it. With a separator-free line the only other verdict is invalid. */
  lemma ConvergesExactly(text: string, p: Parameters)
    requires AssessLines(SplitLines(text), p) == Ready
    ensures Resolved(p.placement, SplitLines(text))
    ensures AssessLines(SplitLines(InsertedText(text, p)), p) == AlreadyApplied
       <==> SeparatorFree(p.line) && !AnchorMatchesLine(p)
    ensures SeparatorFree(p.line) && AnchorMatchesLine(p) ==>
              AssessLines(SplitLines(InsertedText(text, p)), p) == Invalid
  {
    var lines := SplitLines(text);
    SplitGivesSeparatorFree(text);
    AfterInsertion(lines, p);
    var after := SplitLines(InsertedText(text, p));
    if SeparatorFree(p.line) {
      InsertedSeparatorFree(lines, p);
      SplitAfterJoin(Inserted(lines, p));
      BackwardAgreesWithForward(after, p);
    } else {
      SplitGivesSeparatorFree(InsertedText(text, p));
      LineNotAmong(after, p.line);
      BackwardAgreesWithForward(after, p);
      ResolvedInRange(p.placement, after);
      assert forall i :: 0 <= i < |after| ==> after[i] != p.line;
    }
  }

  lemma RemovedInserted(lines: seq<string>, p: Parameters)
    requires Resolved(p.placement, lines)
    ensures p.placement.Anchored() ==> ResolveAnchor(p.placement, lines).Anchor?
    ensures var i := InsertionIndex(lines, p.placement, ResolveAnchor(p.placement, lines));
      i < |Inserted(lines, p)| && Removed(Inserted(lines, p), i) == lines
  {
    ResolvedInRange(p.placement, lines);
    hide FindAnchors, Removed;
    LinesMoved(lines, InsertionIndex(lines, p.placement, ResolveAnchor(p.placement, lines)), p.line);
  }

  /** Taking the line out again restores the exact list of lines, when the insertion converged; when it did
      not, the inverse finds nothing to take out, and the line stays. */
  lemma RemovalUndoesInsertion(text: string, p: Parameters)
    requires AssessLines(SplitLines(text), p) == Ready
    ensures Resolved(p.placement, SplitLines(text))
    ensures var after := SplitLines(InsertedText(text, p));
      var i := PlacementLineIndex(after, p.placement, p.line);
      if SeparatorFree(p.line) && !AnchorMatchesLine(p) then
        i.Some? && i.value < |after| && Removed(after, i.value) == SplitLines(text)
      else i == None
  {
    var lines := SplitLines(text);
    SplitGivesSeparatorFree(text);
    AfterInsertion(lines, p);
    var after := SplitLines(InsertedText(text, p));
    BackwardAgreesWithForward(after, p);
    if SeparatorFree(p.line) {
      InsertedSeparatorFree(lines, p);
      SplitAfterJoin(Inserted(lines, p));
      RemovedInserted(lines, p);
    } else {
      SplitGivesSeparatorFree(InsertedText(text, p));
      LineNotAmong(after, p.line);
    }
  }

  /** Where nothing was inserted the inverse finds nothing to take out. */
  lemma NothingToRemove(text: string, p: Parameters)
    requires AssessLines(SplitLines(text), p) == Ready
    ensures PlacementLineIndex(SplitLines(text), p.placement, p.line) == None
  {
    BackwardAgreesWithForward(SplitLines(text), p);
  }

  // ---- what each operation does, on the files ----

  predicate HasNewline(line: string) {
    '\n' in line || '\r' in line
  }

  function Assess(p: Parameters, fs: Fs): (Assessment, Fs) {
    if !IsFile(fs, p.path) || !IsWritable(fs, p.path) || HasNewline(p.line) then (Assessment(Invalid), fs)
    else
      var (read, fs') := ReadText(fs, p.path);
      (Assessment(if read.Text? then AssessLines(SplitLines(read.text), p) else Invalid), fs')
  }

  function Transition(p: Parameters, fs: Fs): (Result, Fs) {
    var (read, fs') := ReadText(fs, p.path);
    if !read.Text? then (FailureResult("READ_FAILED"), fs')
    else if !Resolved(p.placement, SplitLines(read.text)) then (FailureResult("ANCHOR_VANISHED"), fs')
    else
      var (ok, fs'') := WriteText(fs', p.path, InsertedText(read.text, p));
      (if ok then SuccessResult() else FailureResult("WRITE_FAILED"), fs'')
  }

  /** The inverse's transition. */
  function Undo(p: Parameters, fs: Fs): (Result, Fs) {
    var (read, fs') := ReadText(fs, p.path);
    if read.NotFound? then (SkippedResult(), fs')
    else if read.OtherError? then (FailureResult("READ_FAILED"), fs')
    else
      var lines := SplitLines(read.text);
      BackwardAgreesWithForward(lines, p);
      match PlacementLineIndex(lines, p.placement, p.line)
      case None => (SkippedResult(), fs')
      case Some(target) =>
        var (ok, fs'') := WriteText(fs', p.path, JoinLines(Removed(lines, target)));
        (if ok then SuccessResult() else FailureResult("WRITE_FAILED"), fs'')
  }

  /** The inverse's assessment: ready exactly when the line is where it would have been put. */
  function AssessUndo(p: Parameters, fs: Fs): (Assessment, Fs) {
    if !Exists(fs, p.path) then (Assessment(AlreadyApplied), fs)
    else if !IsWritable(fs, p.path) then (Assessment(Invalid), fs)
    else
      var (read, fs') := ReadText(fs, p.path);
      (Assessment(if read.Text? then AssessUndoLines(SplitLines(read.text), p) else Invalid), fs')
  }

  function AssessUndoLines(lines: seq<string>, p: Parameters): ExistingState {
    if PlacementLineIndex(lines, p.placement, p.line).Some? then Ready else AlreadyApplied
  }

  // ---- the changer objects ----

  class EnsureLineInFileStateChanger {
    const params: Parameters
    const fileSystem: FileSystem

    constructor (params: Parameters, fileSystem: FileSystem)
      ensures this.params == params && this.fileSystem == fileSystem
    {
      this.params, this.fileSystem := params, fileSystem;
    }

    method AssessState() returns (a: Assessment)
      modifies fileSystem
      ensures (a, fileSystem.fs) == Assess(params, old(fileSystem.fs))
    {
      var path, line, placement := params.path, params.line, params.placement;
      var fs := fileSystem.fs;
      if !Exists(fs, path) || !IsFile(fs, path) || !IsWritable(fs, path) || HasNewline(line) {
        return Assessment(Invalid);
      }
      var read := fileSystem.ReadTextFile(path);
      if !read.Text? {
        return Assessment(Invalid);
      }
      var lines := SplitLines(read.text);
      var anchor := ResolveAnchor(placement, lines);
      ResolvedInRange(placement, lines);
      if anchor == Issue {
        return Assessment(Invalid);
      }
      if Present(lines, placement, anchor, line) {
        return Assessment(AlreadyApplied);
      }
      if line in lines {
        return Assessment(if params.strictAnchor then Invalid else AlreadyApplied);
      }
      a := Assessment(Ready);
    }

    method TransitionNow() returns (r: Result)
      modifies fileSystem
      ensures (r, fileSystem.fs) == Transition(params, old(fileSystem.fs))
    {
      var path, placement := params.path, params.placement;
      var read := fileSystem.ReadTextFile(path);
      if !read.Text? {
        return FailureResult("READ_FAILED");
      }
      var lines := SplitLines(read.text);
      var anchor := ResolveAnchor(placement, lines);
      ResolvedInRange(placement, lines);
      if anchor == Issue {
        return FailureResult("ANCHOR_VANISHED");
      }
      var i := InsertionIndex(lines, placement, anchor);
      var newLines := lines[..i] + [params.line] + lines[i..];
      var ok := fileSystem.WriteTextFile(path, JoinLines(newLines));
      if !ok {
        return FailureResult("WRITE_FAILED");
      }
      r := SuccessResult();
    }

    method Rollback() returns (inverse: EnsureLineInFileRollbackStateChanger)
      ensures fresh(inverse) && inverse.params == params && inverse.fileSystem == fileSystem
    {
      inverse := new EnsureLineInFileRollbackStateChanger(params, fileSystem);
    }
  }

  class EnsureLineInFileRollbackStateChanger {
    const params: Parameters
    const fileSystem: FileSystem

    constructor (params: Parameters, fileSystem: FileSystem)
      ensures this.params == params && this.fileSystem == fileSystem
    {
      this.params, this.fileSystem := params, fileSystem;
    }

    method AssessState() returns (a: Assessment)
      modifies fileSystem
      ensures (a, fileSystem.fs) == AssessUndo(params, old(fileSystem.fs))
    {
      var path := params.path;
      if !Exists(fileSystem.fs, path) {
        return Assessment(AlreadyApplied);
      }
      if !IsFile(fileSystem.fs, path) || !IsWritable(fileSystem.fs, path) {
        return Assessment(Invalid);
      }
      var read := fileSystem.ReadTextFile(path);
      if !read.Text? {
        return Assessment(Invalid);
      }
      var target := PlacementLineIndex(SplitLines(read.text), params.placement, params.line);
      a := Assessment(if target == None then AlreadyApplied else Ready);
    }

    method TransitionNow() returns (r: Result)
      modifies fileSystem
      ensures (r, fileSystem.fs) == Undo(params, old(fileSystem.fs))
    {
      var path := params.path;
      var read := fileSystem.ReadTextFile(path);
      if read.NotFound? {
        return SkippedResult();
      }
      if read.OtherError? {
        return FailureResult("READ_FAILED");
      }
      var lines := SplitLines(read.text);
      var target := PlacementLineIndex(lines, params.placement, params.line);
      BackwardAgreesWithForward(lines, params);
      if target == None {
        return SkippedResult();
      }
      var newLines := lines[..target.value] + lines[target.value + 1..];
      var ok := fileSystem.WriteTextFile(path, JoinLines(newLines));
      if !ok {
        return FailureResult("WRITE_FAILED");
      }
      r := SuccessResult();
    }
  }

  // ---- through the engine ----

  function AsChanger(p: Parameters): Changer<Fs> {
    Changer("ensure-line-in-file:" + p.path, fs => Assess(p, fs), fs => Transition(p, fs), Some(fs => Undo(p, fs)),
            fs => map[])
  }

  ghost function Run(p: Parameters, values: Bindings, fs: Fs): Core<Fs> {
    EngineRun(AsChanger(p), values, fs)
  }

  lemma RunIsTransaction(p: Parameters, values: Bindings, fs: Fs)
    ensures var end, (report, after) := Run(p, values, fs), Transact(AsChanger(p), fs);
      end.local == Finished(report) && end.world == after && end.values == values
  {
    EngineRunIsTransaction(AsChanger(p), values, fs);
    hide Transact;
  }

  lemma AssessEffect(p: Parameters, fs: Fs)
    ensures var (a, after) := Assess(p, fs);
      && after.entries == fs.entries
      && (a.state != Invalid ==>
            && IsWritable(fs, p.path) && !HasNewline(p.line)
            && a.state == AssessLines(SplitLines(fs.entries[p.path].text), p))
  {
  }

  lemma TransitionEffect(p: Parameters, fs: Fs)
    ensures var (r, after) := Transition(p, fs);
      && r.status != Skipped
      && (r.status == Failed ==> after.entries == fs.entries && r.code != "POST_ASSESS_MISMATCH")
      && (r.status == Succeeded ==>
            && IsFile(fs, p.path) && Resolved(p.placement, SplitLines(fs.entries[p.path].text))
            && after.entries == fs.entries[p.path := File(InsertedText(fs.entries[p.path].text, p), true)])
  {
  }

  lemma UndoEffect(p: Parameters, fs: Fs)
    requires IsFile(fs, p.path)
    ensures var (r, after) := Undo(p, fs);
      var lines := SplitLines(fs.entries[p.path].text);
      var target := PlacementLineIndex(lines, p.placement, p.line);
      && (r.status != Succeeded ==> after.entries == fs.entries)
      && (r.status == Succeeded ==>
            && target.Some? && target.value < |lines|
            && after.entries == fs.entries[p.path := File(JoinLines(Removed(lines, target.value)), true)])
  {
    BackwardAgreesWithForward(SplitLines(fs.entries[p.path].text), p);
  }

  /** The end of a run on a file whose line is not in place yet. */
  ghost predicate ProperEnd(p: Parameters, fs: Fs, report: NodeReport, after: map<string, Entry>)
    requires IsFile(fs, p.path) && Resolved(p.placement, SplitLines(fs.entries[p.path].text))
  {
    var text := fs.entries[p.path].text;
    match report.outcome
    case Success =>
      SeparatorFree(p.line) && !AnchorMatchesLine(p) && after == fs.entries[p.path := File(InsertedText(text, p), true)]
    case FailedTransition =>
      && report.rollbackResult.Some? && report.result.Some?
      && if report.result.value.code != "POST_ASSESS_MISMATCH" then
           report.rollbackResult.value.status != Succeeded && after == fs.entries
         else if report.rollbackResult.value.status == Succeeded then
           after == fs.entries[p.path := File(JoinLines(SplitLines(text)), true)]
         else after == fs.entries[p.path := File(InsertedText(text, p), true)]
    case FailedInvalid => after == fs.entries
    case _ => false
  }

  lemma EndAfterFailure(p: Parameters, fs: Fs, fs2: Fs, report: NodeReport)
    requires IsFile(fs, p.path) && AssessLines(SplitLines(fs.entries[p.path].text), p) == Ready
    requires Resolved(p.placement, SplitLines(fs.entries[p.path].text)) && fs2.entries == fs.entries
    requires report.outcome == FailedTransition
    requires report.result.Some? && report.result.value.code != "POST_ASSESS_MISMATCH"
    ensures var (end, after) := Undone(AsChanger(p), report, fs2); ProperEnd(p, fs, end, after.entries)
  {
    UndoAfterFailure(p, fs2);
  }

  lemma EndAfterMismatch(p: Parameters, fs: Fs, fs3: Fs, report: NodeReport)
    requires IsFile(fs, p.path) && AssessLines(SplitLines(fs.entries[p.path].text), p) == Ready
    requires Resolved(p.placement, SplitLines(fs.entries[p.path].text))
    requires fs3.entries == fs.entries[p.path := File(InsertedText(fs.entries[p.path].text, p), true)]
    requires report.outcome == FailedTransition && report.result == Some(FailureResult("POST_ASSESS_MISMATCH"))
    ensures var (end, after) := Undone(AsChanger(p), report, fs3); ProperEnd(p, fs, end, after.entries)
  {
    UndoAfterInsertion(p, fs3, fs.entries[p.path].text);
    hide Undo, InsertedText, SplitLines, JoinLines, AssessLines, PlacementLineIndex, SeparatorFree, AnchorMatchesLine;
  }

  /** What can come of a node whose line is not in place yet, with reads and writes failing anywhere. It
      ends well only where the insertion converges. A transition that fails leaves the file alone and so
      does its rollback. After a failed second assessment a rollback that succeeds leaves the original
      lines, and one that does not leaves the inserted line where it is. */
  lemma EveryEnd(p: Parameters, values: Bindings, fs: Fs)
    requires IsWritable(fs, p.path) && AssessLines(SplitLines(fs.entries[p.path].text), p) == Ready
    ensures Resolved(p.placement, SplitLines(fs.entries[p.path].text)) && Run(p, values, fs).local.Finished?
    ensures ProperEnd(p, fs, Run(p, values, fs).local.report, Run(p, values, fs).world.entries)
  {
    var c, text := AsChanger(p), fs.entries[p.path].text;
    ConvergesExactly(text, p);
    EngineRunIsTransaction(c, values, fs);
    AssessEffect(p, fs);
    hide Assess, Transition, Undo, InsertedText, SplitLines, JoinLines, AssessLines, PlacementLineIndex,
        SeparatorFree, AnchorMatchesLine;
    var (a, fs1) := Assess(p, fs);
    TransitionEffect(p, fs1);
    var (r, fs2) := Transition(p, fs1);
    if a.state == Ready {
      if r.status == Succeeded {
        AssessAfterInsertion(p, fs2, text);
        var (post, fs3) := Assess(p, fs2);
        EndAfterMismatch(p, fs, fs3,
          TransitionReport(c.name, a, FailedTransition, FailureResult("POST_ASSESS_MISMATCH"), Some(post)));
      } else {
        EndAfterFailure(p, fs, fs2, TransitionReport(c.name, a, FailedTransition, r, None));
      }
      hide Undone;
    }
  }

  lemma UndoAfterFailure(p: Parameters, fs: Fs)
    requires IsFile(fs, p.path) && AssessLines(SplitLines(fs.entries[p.path].text), p) == Ready
    ensures Undo(p, fs).0.status != Succeeded && Undo(p, fs).1.entries == fs.entries
  {
    UndoEffect(p, fs);
    NothingToRemove(fs.entries[p.path].text, p);
  }

  lemma AssessAfterInsertion(p: Parameters, fs: Fs, text: string)
    requires AssessLines(SplitLines(text), p) == Ready && Resolved(p.placement, SplitLines(text))
    requires p.path in fs.entries && fs.entries[p.path] == File(InsertedText(text, p), true)
    ensures var (post, after) := Assess(p, fs);
      && after.entries == fs.entries
      && (post.state == AlreadyApplied ==> SeparatorFree(p.line) && !AnchorMatchesLine(p))
  {
    AssessEffect(p, fs);
    ConvergesExactly(text, p);
  }

  lemma UndoAfterInsertion(p: Parameters, fs: Fs, text: string)
    requires AssessLines(SplitLines(text), p) == Ready && Resolved(p.placement, SplitLines(text))
    requires p.path in fs.entries && fs.entries[p.path] == File(InsertedText(text, p), true)
    ensures var (r, after) := Undo(p, fs);
      && (r.status != Succeeded ==> after.entries == fs.entries)
      && (r.status == Succeeded ==> SeparatorFree(p.line) && !AnchorMatchesLine(p) &&
                                    after.entries == fs.entries[p.path := File(JoinLines(SplitLines(text)), true)])
      && (!(SeparatorFree(p.line) && !AnchorMatchesLine(p)) && NoFaults(fs) ==> r.status == Skipped)
  {
    UndoEffect(p, fs);
    RemovalUndoesInsertion(text, p);
    hide InsertedText, SplitLines, JoinLines, PlacementLineIndex, SeparatorFree, AnchorMatchesLine, Removed,
        AssessLines, Undo;
    if NoFaults(fs) {
      UndoWithoutFaults(p, fs);
    }
  }

  lemma UndoWithoutFaults(p: Parameters, fs: Fs)
    requires NoFaults(fs) && IsFile(fs, p.path)
    ensures PlacementLineIndex(SplitLines(fs.entries[p.path].text), p.placement, p.line) == None ==>
              Undo(p, fs).0.status == Skipped
  {
  }

  lemma AssessByFault(p: Parameters, fs: Fs)
    requires IsWritable(fs, p.path) && !HasNewline(p.line)
    ensures Assess(p, fs) ==
      (Assessment(if fs.faults(fs.clock) then Invalid else AssessLines(SplitLines(fs.entries[p.path].text), p)),
       fs.(clock := fs.clock + 1))
  {
    hide AssessLines, SplitLines;
  }

  lemma InsertionTakesEffect(p: Parameters, fs: Fs)
    requires IsWritable(fs, p.path) && Resolved(p.placement, SplitLines(fs.entries[p.path].text))
    requires !fs.faults(fs.clock) && !fs.faults(fs.clock + 1)
    ensures var text := fs.entries[p.path].text;
      Transition(p, fs) ==
        (SuccessResult(),
         fs.(clock := fs.clock + 2, entries := fs.entries[p.path := File(InsertedText(text, p), true)]))
  {
    hide InsertedText, SplitLines;
  }

  /** The files after an insertion and the check that follows it. */
  function AfterCheck(p: Parameters, fs: Fs): Fs
    requires IsFile(fs, p.path) && Resolved(p.placement, SplitLines(fs.entries[p.path].text))
  {
    Fs(fs.entries[p.path := File(InsertedText(fs.entries[p.path].text, p), true)], fs.faults, fs.clock + 4)
  }

  /** What the check finds. */
  function Found(p: Parameters, fs: Fs): Assessment
    requires IsFile(fs, p.path) && Resolved(p.placement, SplitLines(fs.entries[p.path].text))
  {
    Assessment(if fs.faults(fs.clock + 3) then Invalid
               else AssessLines(SplitLines(InsertedText(fs.entries[p.path].text, p)), p))
  }

  /** A transaction in which only the check, or nothing, can fail. */
  lemma InsertAndCheck(p: Parameters, fs: Fs)
    requires IsWritable(fs, p.path) && !HasNewline(p.line)
    requires AssessLines(SplitLines(fs.entries[p.path].text), p) == Ready
    requires Resolved(p.placement, SplitLines(fs.entries[p.path].text))
    requires !fs.faults(fs.clock) && !fs.faults(fs.clock + 1) && !fs.faults(fs.clock + 2)
    ensures var c, a, post, after := AsChanger(p), Assessment(Ready), Found(p, fs), AfterCheck(p, fs);
      Transact(c, fs) ==
        if post.state == AlreadyApplied then
          (TransitionReport(c.name, a, Success, SuccessResult(), Some(post)), after)
        else Undone(c, Mismatch(c.name, a, post), after)
  {
    hide Assess, Transition, Undo, InsertedText, SplitLines, AssessLines, Transact, Resolved;
    AssessByFault(p, fs);
    var fs1 := fs.(clock := fs.clock + 1);
    InsertionTakesEffect(p, fs1);
    var (r, fs2) := Transition(p, fs1);
    AssessByFault(p, fs2);
    var c, a, post, after := AsChanger(p), Assessment(Ready), Found(p, fs), AfterCheck(p, fs);
    if post.state == AlreadyApplied {
      PassedCheck(c, fs, a, fs1, r, fs2, post, after);
    } else {
      FailedCheck(c, fs, a, fs1, r, fs2, post, after);
    }
  }

  lemma LeftInPlace(p: Parameters, fs: Fs)
    requires NoFaults(fs) && IsWritable(fs, p.path) && !HasNewline(p.line)
    requires AssessLines(SplitLines(fs.entries[p.path].text), p) == Ready
    requires Resolved(p.placement, SplitLines(fs.entries[p.path].text))
    ensures var (report, after) := Transact(AsChanger(p), fs);
      && after.entries == fs.entries[p.path := File(InsertedText(fs.entries[p.path].text, p), true)]
      && if SeparatorFree(p.line) && !AnchorMatchesLine(p) then report.outcome == Success
         else
           && report.outcome == FailedTransition && report.result == Some(FailureResult("POST_ASSESS_MISMATCH"))
           && report.rollbackResult == Some(SkippedResult())
  {
    assert !fs.faults(fs.clock) && !fs.faults(fs.clock + 1) && !fs.faults(fs.clock + 2) && !fs.faults(fs.clock + 3);
    assert NoFaults(AfterCheck(p, fs));
    hide NoFaults, Assess, Transition, Undo, InsertedText, SplitLines, SeparatorFree, AnchorMatchesLine,
        AssessLines, Transact, Resolved;
    InsertAndCheck(p, fs);
    ConvergesExactly(fs.entries[p.path].text, p);
    UndoAfterInsertion(p, AfterCheck(p, fs), fs.entries[p.path].text);
  }

  /** With nothing failing, a node that is ready succeeds exactly where the insertion converges. Everywhere
      else it is reported as failed, its rollback finds nothing to do, and the inserted line stays. */
  lemma MismatchIsNeverRolledBack(p: Parameters, values: Bindings, fs: Fs)
    requires NoFaults(fs) && IsWritable(fs, p.path) && !HasNewline(p.line)
    requires AssessLines(SplitLines(fs.entries[p.path].text), p) == Ready
    ensures Resolved(p.placement, SplitLines(fs.entries[p.path].text))
    ensures var end := Run(p, values, fs);
      && end.local.Finished?
      && end.world.entries == fs.entries[p.path := File(InsertedText(fs.entries[p.path].text, p), true)]
      && if SeparatorFree(p.line) && !AnchorMatchesLine(p) then end.local.report.outcome == Success
         else
           && end.local.report.outcome == FailedTransition
           && end.local.report.result == Some(FailureResult("POST_ASSESS_MISMATCH"))
           && end.local.report.rollbackResult == Some(SkippedResult())
  {
    hide NoFaults, InsertedText, SplitLines, SeparatorFree, AnchorMatchesLine, AssessLines, Transact, Resolved, Run;
    ConvergesExactly(fs.entries[p.path].text, p);
    LeftInPlace(p, fs);
    RunIsTransaction(p, values, fs);
  }

  function OneFile(path: string, text: string): Fs {
    Calm(map[path := File(text, true)])
  }

  lemma StaysAlone(p: Parameters, text: string, values: Bindings)
    requires !HasNewline(p.line) && AssessLines(SplitLines(text), p) == Ready
    requires !SeparatorFree(p.line) || AnchorMatchesLine(p)
    ensures Resolved(p.placement, SplitLines(text))
    ensures var end := Run(p, values, OneFile(p.path, text));
      && end.local.Finished? && end.local.report.outcome == FailedTransition
      && end.local.report.rollbackResult == Some(SkippedResult())
      && end.world.entries == map[p.path := File(InsertedText(text, p), true)]
  {
    var fs := OneFile(p.path, text);
    assert NoFaults(fs) && IsWritable(fs, p.path) && fs.entries[p.path].text == text;
    assert fs.entries[p.path := File(InsertedText(text, p), true)] == map[p.path := File(InsertedText(text, p), true)];
    hide Run, AssessLines, InsertedText, SplitLines, SeparatorFree, AnchorMatchesLine, NoFaults, Resolved, OneFile;
    MismatchIsNeverRolledBack(p, values, fs);
  }

  /** A line that only newlines and carriage returns are kept out of: a form feed gets through, the line is
      not found again, and it stays. */
  lemma FormFeedStays(path: string, values: Bindings)
    ensures var line := ['a', '\U{0C}', 'b'];
      var p := Parameters(path, line, AtEnd, true);
      var end := Run(p, values, OneFile(path, ""));
      && AssessLines(SplitLines(""), p) == Ready && !HasNewline(line) && !SeparatorFree(line)
      && end.local.Finished? && end.local.report.outcome == FailedTransition
      && end.local.report.rollbackResult == Some(SkippedResult())
      && end.world.entries == map[path := File(line + "\n", true)]
  {
    var line := ['a', '\U{0C}', 'b'];
    var p := Parameters(path, line, AtEnd, true);
    assert !SeparatorFree(line) by {
      assert line[1] in line && IsSeparator(line[1]);
    }
    StaysAlone(p, "", values);
    hide Run;
    assert Inserted(SplitLines(""), p) == [line];
  }

  predicate StartsWithK(line: string) {
    line != "" && line[0] == 'k'
  }

  /** An anchor pattern that is found on the inserted line too: two anchors are none, and the line stays. */
  lemma SecondAnchorStays(path: string, values: Bindings)
    ensures var p := Parameters(path, "k2", AfterRegex(Pattern(true, StartsWithK)), true);
      var end := Run(p, values, OneFile(path, JoinLines(["k1"])));
      && AssessLines(["k1"], p) == Ready && SeparatorFree(p.line) && AnchorMatchesLine(p)
      && end.local.Finished? && end.local.report.outcome == FailedTransition
      && end.local.report.rollbackResult == Some(SkippedResult())
      && end.world.entries == map[path := File(JoinLines(["k1", "k2"]), true)]
  {
    var p := Parameters(path, "k2", AfterRegex(Pattern(true, StartsWithK)), true);
    var text := JoinLines(["k1"]);
    SplitAfterJoin(["k1"]);
    BehindFirstLine(p);
    hide Run, AssessLines, Inserted, JoinLines, SplitLines, SeparatorFree, AnchorMatchesLine, HasNewline, Resolved;
    StaysAlone(p, text, values);
  }

  lemma BehindFirstLine(p: Parameters)
    requires p.line == "k2" && p.placement == AfterRegex(Pattern(true, StartsWithK))
    ensures AssessLines(["k1"], p) == Ready && SeparatorFree(p.line) && AnchorMatchesLine(p) && !HasNewline(p.line)
    ensures Resolved(p.placement, ["k1"]) && Inserted(["k1"], p) == ["k1", "k2"]
  {
    var lines := ["k1"];
    assert lines[0] == "k1" && "k1"[1] != "k2"[1] && StartsWithK(lines[0]) && StartsWithK(p.line);
    hide FindAnchors, StartsWithK;
    OneAnchor(lines, StartsWithK, 0);
    assert p.line !in lines;
    OnlyLineIsAnchor(lines, p);
  }

  lemma OnlyLineIsAnchor(lines: seq<string>, p: Parameters)
    requires |lines| == 1 && p.placement.AfterRegex? && p.placement.pattern.valid && p.line !in lines
    requires FindAnchors(lines, p.placement.pattern.found) == [0]
    ensures AssessLines(lines, p) == Ready && Resolved(p.placement, lines) && Inserted(lines, p) == lines + [p.line]
  {
    hide FindAnchors;
  }

  /** A rollback that succeeds gives the original text back exactly when that text was plain: newlines only,
      and the last line finished. */
  lemma RollbackIsExactOnPlainText(p: Parameters, values: Bindings, fs: Fs)
    requires IsWritable(fs, p.path) && AssessLines(SplitLines(fs.entries[p.path].text), p) == Ready
    requires var end := Run(p, values, fs).local;
      end.Finished? && end.report.rollbackResult.Some? && end.report.rollbackResult.value.status == Succeeded
    ensures Run(p, values, fs).world.entries == fs.entries <==> Plain(fs.entries[p.path].text)
  {
    EveryEnd(p, values, fs);
    var text := fs.entries[p.path].text;
    JoinAfterSplit(text);
    assert Run(p, values, fs).local.report.outcome != SkippedAlreadyApplied;
    EndsWithRollback(AsChanger(p), values, fs);
    hide SplitLines, JoinLines, Plain, AssessLines, Run;
    assert fs.entries[p.path := File(text, true)] == fs.entries;
  }

  /** The text "a" has no newline at its end. A line is put there, the check cannot be read, the rollback
      succeeds, and the text is "a" with a newline. */
  lemma NewlineStays(path: string, values: Bindings)
    ensures var p := Parameters(path, "b", AtEnd, true);
      var fs := Fs(map[path := File("a", true)], k => k == 3, 0);
      var end := Run(p, values, fs);
      && AssessLines(SplitLines("a"), p) == Ready && !Plain("a")
      && end.local.Finished? && end.local.report.outcome == FailedTransition
      && end.local.report.rollbackResult == Some(SuccessResult())
      && end.world.entries == map[path := File("a\n", true)]
  {
    var p := Parameters(path, "b", AtEnd, true);
    var fs := Fs(map[path := File("a", true)], k => k == 3, 0);
    assert SplitLines("a") == ["a"];
    assert JoinLines(["a"]) == "a\n";
    assert fs.entries[path := File("a\n", true)] == map[path := File("a\n", true)];
    assert !HasNewline(p.line) && SeparatorFree(p.line) && OnlyCheckFails(fs);
    assert AssessLines(["a"], p) == Ready && !Plain("a");
    hide SplitLines, JoinLines, Run, AssessLines, OnlyCheckFails, SeparatorFree, Plain;
    UnreadableCheckIsRolledBack(p, values, fs);
  }

  lemma EndsWithRollback(c: Changer<Fs>, values: Bindings, fs: Fs)
    ensures EngineRun(c, values, fs).local.Finished?
    ensures EngineRun(c, values, fs).local.report.rollbackResult.Some? ==>
              EngineRun(c, values, fs).local.report.outcome == FailedTransition
  {
    EngineRunIsTransaction(c, values, fs);
  }

  /** Of the run's operations on files only the read of the second assessment fails. */
  ghost predicate OnlyCheckFails(fs: Fs) {
    forall k :: fs.faults(k) <==> k == fs.clock + 3
  }

  lemma RolledBack(p: Parameters, fs: Fs)
    requires IsWritable(fs, p.path) && !HasNewline(p.line) && SeparatorFree(p.line) && !AnchorMatchesLine(p)
    requires AssessLines(SplitLines(fs.entries[p.path].text), p) == Ready
    requires Resolved(p.placement, SplitLines(fs.entries[p.path].text))
    requires !fs.faults(fs.clock) && !fs.faults(fs.clock + 1) && !fs.faults(fs.clock + 2) && fs.faults(fs.clock + 3)
    requires !fs.faults(fs.clock + 4) && !fs.faults(fs.clock + 5)
    ensures var (report, after) := Transact(AsChanger(p), fs);
      && report.outcome == FailedTransition && report.rollbackResult == Some(SuccessResult())
      && after.entries == fs.entries[p.path := File(JoinLines(SplitLines(fs.entries[p.path].text)), true)]
  {
    hide Assess, Transition, Undo, InsertedText, SplitLines, JoinLines, SeparatorFree, AnchorMatchesLine, AssessLines,
        Transact, Resolved;
    InsertAndCheck(p, fs);
    RemovalTakesEffect(p, AfterCheck(p, fs), fs.entries[p.path].text);
  }

  /** The rollback does undo a converging insertion whose check could not be read: the original lines come
      back. */
  lemma UnreadableCheckIsRolledBack(p: Parameters, values: Bindings, fs: Fs)
    requires IsWritable(fs, p.path) && !HasNewline(p.line) && SeparatorFree(p.line) && !AnchorMatchesLine(p)
    requires AssessLines(SplitLines(fs.entries[p.path].text), p) == Ready && OnlyCheckFails(fs)
    ensures var end := Run(p, values, fs);
      && end.local.Finished? && end.local.report.outcome == FailedTransition
      && end.local.report.rollbackResult == Some(SuccessResult())
      && end.world.entries == fs.entries[p.path := File(JoinLines(SplitLines(fs.entries[p.path].text)), true)]
  {
    hide InsertedText, SplitLines, JoinLines, SeparatorFree, AnchorMatchesLine, AssessLines, Transact, Resolved, Run;
    ConvergesExactly(fs.entries[p.path].text, p);
    RolledBack(p, fs);
    RunIsTransaction(p, values, fs);
  }

  lemma RemovalTakesEffect(p: Parameters, fs: Fs, text: string)
    requires AssessLines(SplitLines(text), p) == Ready && Resolved(p.placement, SplitLines(text))
    requires SeparatorFree(p.line) && !AnchorMatchesLine(p)
    requires p.path in fs.entries && fs.entries[p.path] == File(InsertedText(text, p), true)
    requires !fs.faults(fs.clock) && !fs.faults(fs.clock + 1)
    ensures Undo(p, fs).0 == SuccessResult()
    ensures Undo(p, fs).1.entries == fs.entries[p.path := File(JoinLines(SplitLines(text)), true)]
  {
    RemovalUndoesInsertion(text, p);
    hide InsertedText, SplitLines, JoinLines, AssessLines, PlacementLineIndex, SeparatorFree, AnchorMatchesLine,
        Removed, Undo;
    UndoSucceeds(p, fs);
    UndoEffect(p, fs);
  }

  lemma UndoSucceeds(p: Parameters, fs: Fs)
    requires IsWritable(fs, p.path) && !fs.faults(fs.clock) && !fs.faults(fs.clock + 1)
    requires PlacementLineIndex(SplitLines(fs.entries[p.path].text), p.placement, p.line).Some?
    ensures Undo(p, fs).0 == SuccessResult()
  {
    hide PlacementLineIndex, SplitLines, JoinLines, Removed;
  }
}
