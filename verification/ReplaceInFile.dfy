/** The changer that replaces a counted number of literal occurrences in a file, its inverse that writes
    the captured text back, and what the engine makes of the two. */
module ReplaceInFile {
  import opened Outcomes
  import opened Registry
  import opened Workers
  import opened Transactions
  import opened Files
  import opened Substitution

  datatype LiteralMatch = LiteralMatch(needle: string, expectedCount: int, replacement: string)

  /** digest is the hash of a text in the file's encoding, which a successful transition reports. */
  datatype Parameters = Parameters(path: string, match_: LiteralMatch, digest: string -> string)

  /** The files, and the text the changer captured when it last wrote. */
  datatype Env = Env(fs: Fs, preImage: Option<string>)

  function CountMatches(text: string, m: LiteralMatch): nat {
    if m.needle == "" then 0 else Count(text, m.needle)
  }

  /** The empty needle is found before every character and at the end. */
  function ReplaceEmpty(text: string, replacement: string, k: nat): string {
    if k == 0 then text
    else if text == "" then replacement
    else replacement + [text[0]] + ReplaceEmpty(text[1..], replacement, k - 1)
  }

  function ApplyMatch(text: string, m: LiteralMatch): string {
    if m.expectedCount <= 0 then text
    else if m.needle == "" then ReplaceEmpty(text, m.replacement, m.expectedCount)
    else Replace(text, m.needle, m.replacement, m.expectedCount)
  }

  predicate PreconditionsMet(p: Parameters, fs: Fs) {
    IsFile(fs, p.path) && IsWritable(fs, p.path) && p.match_.expectedCount >= 0 && p.match_.needle != ""
  }

  function AssessText(text: string, m: LiteralMatch): ExistingState {
    if ApplyMatch(text, m) == text then AlreadyApplied
    else if CountMatches(text, m) != m.expectedCount then Invalid
    else Ready
  }

  // ---- what each operation does, on values ----

  function Assess(p: Parameters, env: Env): (Assessment, Env) {
    if !PreconditionsMet(p, env.fs) then (Assessment(Invalid), env)
    else
      var (read, fs) := ReadText(env.fs, p.path);
      (Assessment(if read.Text? then AssessText(read.text, p.match_) else Invalid), env.(fs := fs))
  }

  function Substituted(p: Parameters, text: string): Result {
    Result(Succeeded, "OK", map["pre_sha256" := p.digest(text)])
  }

  function Transition(p: Parameters, env: Env): (Result, Env) {
    var (read, fs) := ReadText(env.fs, p.path);
    if !read.Text? then (FailureResult("READ_FAILED"), env.(fs := fs))
    else if CountMatches(read.text, p.match_) != p.match_.expectedCount then
      (FailureResult("MATCH_VANISHED"), env.(fs := fs))
    else
      var after := ApplyMatch(read.text, p.match_);
      if after == read.text then (SkippedResult(), env.(fs := fs))
      else
        var (ok, fs') := WriteText(fs, p.path, after);
        if ok then (Substituted(p, read.text), Env(fs', Some(read.text)))
        else (FailureResult("WRITE_FAILED"), env.(fs := fs'))
  }

  /** The inverse's transition: it does not compare what it finds with what was written. */
  function Undo(p: Parameters, env: Env): (Result, Env) {
    if env.preImage.None? then (SkippedResult(), env)
    else
      var (read, fs) := ReadText(env.fs, p.path);
      if read.NotFound? then (SkippedResult(), env.(fs := fs))
      else if read.OtherError? then (FailureResult("READ_FAILED"), env.(fs := fs))
      else
        var (ok, fs') := WriteText(fs, p.path, env.preImage.value);
        (if ok then SuccessResult() else FailureResult("WRITE_FAILED"), env.(fs := fs'))
  }

  /** The inverse's assessment: ready only for the text that applying the match to the captured one gives. */
  function AssessUndo(p: Parameters, env: Env): (Assessment, Env) {
    if env.preImage.None? || !Exists(env.fs, p.path) then (Assessment(AlreadyApplied), env)
    else if !IsWritable(env.fs, p.path) then (Assessment(Invalid), env)
    else
      var (read, fs) := ReadText(env.fs, p.path);
      (Assessment(if read.Text? then AssessUndoText(p, env.preImage.value, read.text) else Invalid), env.(fs := fs))
  }

  function AssessUndoText(p: Parameters, preImage: string, text: string): ExistingState {
    if text == preImage then AlreadyApplied
    else if text == ApplyMatch(preImage, p.match_) then Ready
    else Invalid
  }

  // ---- the changer objects ----

  class ReplaceInFileStateChanger {
    const params: Parameters
    const fileSystem: FileSystem
    var capturedPreImage: Option<string>

    constructor (params: Parameters, fileSystem: FileSystem)
      ensures this.params == params && this.fileSystem == fileSystem && capturedPreImage == None
    {
      this.params, this.fileSystem, capturedPreImage := params, fileSystem, None;
    }

    function Seen(): Env
      reads this, fileSystem
    {
      Env(fileSystem.fs, capturedPreImage)
    }

    method AssessState() returns (a: Assessment)
      modifies fileSystem
      ensures (a, Seen()) == Assess(params, old(Seen()))
    {
      var path, m := params.path, params.match_;
      var fs := fileSystem.fs;
      if !Exists(fs, path) || !IsFile(fs, path) || !IsWritable(fs, path) || m.expectedCount < 0 || m.needle == "" {
        return Assessment(Invalid);
      }
      var read := fileSystem.ReadTextFile(path);
      if !read.Text? {
        return Assessment(Invalid);
      }
      var newText := ApplyMatch(read.text, m);
      if newText == read.text {
        return Assessment(AlreadyApplied);
      }
      if CountMatches(read.text, m) != m.expectedCount {
        return Assessment(Invalid);
      }
      a := Assessment(Ready);
    }

    method TransitionNow() returns (r: Result)
      modifies this, fileSystem
      ensures (r, Seen()) == Transition(params, old(Seen()))
    {
      var read := fileSystem.ReadTextFile(params.path);
      if !read.Text? {
        return FailureResult("READ_FAILED");
      }
      if CountMatches(read.text, params.match_) != params.match_.expectedCount {
        return FailureResult("MATCH_VANISHED");
      }
      var newText := ApplyMatch(read.text, params.match_);
      if newText == read.text {
        return SkippedResult();
      }
      var ok := fileSystem.WriteTextFile(params.path, newText);
      if !ok {
        return FailureResult("WRITE_FAILED");
      }
      capturedPreImage := Some(read.text);
      r := Result(Succeeded, "OK", map["pre_sha256" := params.digest(read.text)]);
    }

    /** The inverse remembers the text captured so far. */
    method Rollback() returns (inverse: ReplaceInFileRollbackStateChanger)
      ensures fresh(inverse) && inverse.params == params && inverse.fileSystem == fileSystem
      ensures inverse.preImage == capturedPreImage
    {
      inverse := new ReplaceInFileRollbackStateChanger(params, capturedPreImage, fileSystem);
    }
  }

  class ReplaceInFileRollbackStateChanger {
    const params: Parameters
    const preImage: Option<string>
    const fileSystem: FileSystem

    constructor (params: Parameters, preImage: Option<string>, fileSystem: FileSystem)
      ensures this.params == params && this.preImage == preImage && this.fileSystem == fileSystem
    {
      this.params, this.preImage, this.fileSystem := params, preImage, fileSystem;
    }

    method AssessState() returns (a: Assessment)
      modifies fileSystem
      ensures (a, Env(fileSystem.fs, preImage)) == AssessUndo(params, Env(old(fileSystem.fs), preImage))
    {
      var path := params.path;
      if preImage.None? || !Exists(fileSystem.fs, path) {
        return Assessment(AlreadyApplied);
      }
      if !IsFile(fileSystem.fs, path) || !IsWritable(fileSystem.fs, path) {
        return Assessment(Invalid);
      }
      var read := fileSystem.ReadTextFile(path);
      if !read.Text? {
        return Assessment(Invalid);
      }
      if read.text == preImage.value {
        return Assessment(AlreadyApplied);
      }
      if read.text == ApplyMatch(preImage.value, params.match_) {
        return Assessment(Ready);
      }
      a := Assessment(Invalid);
    }

    method TransitionNow() returns (r: Result)
      modifies fileSystem
      ensures (r, Env(fileSystem.fs, preImage)) == Undo(params, Env(old(fileSystem.fs), preImage))
    {
      if preImage.None? {
        return SkippedResult();
      }
      var read := fileSystem.ReadTextFile(params.path);
      if read.NotFound? {
        return SkippedResult();
      }
      if read.OtherError? {
        return FailureResult("READ_FAILED");
      }
      var ok := fileSystem.WriteTextFile(params.path, preImage.value);
      if !ok {
        return FailureResult("WRITE_FAILED");
      }
      r := SuccessResult();
    }
  }

  // ---- what assessing means ----

  /** A readable, writable file is assessed as applied exactly when nothing is expected, the needle is
      absent, or it is replaced by itself. */
  lemma AlreadyAppliedExactly(text: string, m: LiteralMatch)
    requires m.expectedCount >= 0 && m.needle != ""
    ensures AssessText(text, m) == AlreadyApplied
       <==> m.expectedCount == 0 || !Occurs(text, m.needle) || m.needle == m.replacement
  {
    CountZeroIffAbsent(text, m.needle);
    if m.expectedCount > 0 {
      ReplaceIsIdentity(text, m.needle, m.replacement, m.expectedCount);
    }
  }

  /** Right after a transition that succeeded the inverse is ready, unless its read fails. */
  lemma InverseIsReady(p: Parameters, env: Env)
    requires Transition(p, env).0.status == Succeeded
    ensures var after := Transition(p, env).1;
      AssessUndo(p, after) ==
        (Assessment(if after.fs.faults(after.fs.clock) then Invalid else Ready),
         after.(fs := after.fs.(clock := after.fs.clock + 1)))
  {
  }

  // ---- through the engine ----

  function AsChanger(p: Parameters): Changer<Env> {
    Changer("replace-in-file:" + p.path, env => Assess(p, env), env => Transition(p, env), Some(env => Undo(p, env)),
            env => map[])
  }

  /** What the engine's work on a fresh node of this kind comes to. */
  ghost function Run(p: Parameters, values: Bindings, fs: Fs): Core<Env> {
    EngineRun(AsChanger(p), values, Env(fs, None))
  }

  lemma AssessChangesNothing(p: Parameters, env: Env)
    ensures var (a, after) := Assess(p, env);
      && after.fs.entries == env.fs.entries && after.preImage == env.preImage
      && (a.state != Invalid ==>
            IsWritable(env.fs, p.path) && AssessText(env.fs.entries[p.path].text, p.match_) == a.state)
  {
  }

  /** A transition that succeeds has written the new text and captured the old one; otherwise nothing
      happened to the files or to what is captured. */
  lemma TransitionEffect(p: Parameters, env: Env)
    ensures var (r, after) := Transition(p, env);
      && (r.status != Succeeded ==> after.fs.entries == env.fs.entries && after.preImage == env.preImage)
      && (r.status == Succeeded ==>
            && IsFile(env.fs, p.path)
            && after.preImage == Some(env.fs.entries[p.path].text)
            && var text := ApplyMatch(env.fs.entries[p.path].text, p.match_);
               after.fs.entries == env.fs.entries[p.path := File(text, true)])
  {
  }

  /** Undoing writes back what was captured, or reports that it could not and changes nothing. */
  lemma UndoEffect(p: Parameters, env: Env)
    requires env.preImage.Some? ==> IsFile(env.fs, p.path)
    ensures var (r, after) := Undo(p, env);
      && (env.preImage.None? ==> r.status == Skipped && after == env)
      && (env.preImage.Some? && r.status != Failed ==>
            after.fs.entries == env.fs.entries[p.path := File(env.preImage.value, true)])
      && (r.status == Failed ==> after.fs.entries == env.fs.entries)
  {
  }

  predicate RollbackFailed(report: NodeReport) {
    report.rollbackResult.Some? && report.rollbackResult.value.status == Failed
  }

  /** All or nothing, with reads and writes failing anywhere: a node that ends well leaves the text with
      the match applied, and applying the match again does not change it; any other end leaves every file
      as it was, unless the report itself says that the rollback failed. No other file is ever touched. */
  lemma AllOrNothing(p: Parameters, values: Bindings, fs: Fs)
    ensures Run(p, values, fs).local.Finished? && Run(p, values, fs).values == values
    ensures var report, after := Run(p, values, fs).local.report, Run(p, values, fs).world.fs.entries;
      && (PublishEligible(report.outcome) ==>
            && IsFile(fs, p.path)
            && var text := ApplyMatch(fs.entries[p.path].text, p.match_);
            && ApplyMatch(text, p.match_) == text
            && after == fs.entries[p.path := File(text, true)])
      && (!PublishEligible(report.outcome) && !RollbackFailed(report) ==> after == fs.entries)
      && after.Keys == fs.entries.Keys && (forall q :: q in after && q != p.path ==> after[q] == fs.entries[q])
  {
    var c, env := AsChanger(p), Env(fs, None);
    EngineRunIsTransaction(c, values, env);
    AssessChangesNothing(p, env);
    var (a, env1) := Assess(p, env);
    TransitionEffect(p, env1);
    var (r, env2) := Transition(p, env1);
    AssessChangesNothing(p, env2);
    var (post, env3) := Assess(p, env2);
    hide Assess, Transition, Undo, ApplyMatch;
    UndoEffect(p, env2);
    UndoEffect(p, env3);
  }

  /** With nothing failing, how the run ends is decided by the text alone: it is invalid, or already
      applied, or succeeds exactly when the new text has no occurrence left, and is otherwise rolled back. */
  lemma OutcomeWithoutFaults(p: Parameters, values: Bindings, fs: Fs)
    requires NoFaults(fs) && IsWritable(fs, p.path)
    ensures var m, text := p.match_, fs.entries[p.path].text;
      var report, after := Run(p, values, fs).local.report, Run(p, values, fs).world.fs.entries;
      if m.expectedCount < 0 || m.needle == "" then report.outcome == FailedInvalid && after == fs.entries
      else if m.expectedCount == 0 || !Occurs(text, m.needle) || m.needle == m.replacement then
        report.outcome == SkippedAlreadyApplied && after == fs.entries
      else if Count(text, m.needle) != m.expectedCount then report.outcome == FailedInvalid && after == fs.entries
      else
        var replaced := Replace(text, m.needle, m.replacement, m.expectedCount);
        if !Occurs(replaced, m.needle) then
          report.outcome == Success && after == fs.entries[p.path := File(replaced, true)]
        else
          && report.outcome == FailedTransition && report.result == Some(FailureResult("POST_ASSESS_MISMATCH"))
          && report.rollbackResult == Some(SuccessResult()) && after == fs.entries
  {
    var m, text := p.match_, fs.entries[p.path].text;
    if m.expectedCount < 0 || m.needle == "" {
      EngineRunIsTransaction(AsChanger(p), values, Env(fs, None));
    } else {
      AlreadyAppliedExactly(text, m);
      if AssessText(text, m) == Ready {
        ReadyEnds(p, values, fs);
        AlreadyAppliedExactly(Replace(text, m.needle, m.replacement, m.expectedCount), m);
      } else {
        AssessWithoutFaults(p, Env(fs, None));
        EngineRunIsTransaction(AsChanger(p), values, Env(fs, None));
      }
    }
  }

  lemma AssessWithoutFaults(p: Parameters, env: Env)
    requires NoFaults(env.fs) && IsWritable(env.fs, p.path) && p.match_.expectedCount >= 0 && p.match_.needle != ""
    ensures Assess(p, env)
         == (Assessment(AssessText(env.fs.entries[p.path].text, p.match_)),
             env.(fs := env.fs.(clock := env.fs.clock + 1)))
  {
  }

  lemma TransitionWithoutFaults(p: Parameters, env: Env)
    requires NoFaults(env.fs) && IsWritable(env.fs, p.path)
    requires AssessText(env.fs.entries[p.path].text, p.match_) == Ready
    ensures var text, (r, after) := env.fs.entries[p.path].text, Transition(p, env);
      && r.status == Succeeded && after.preImage == Some(text) && after.fs.faults == env.fs.faults
      && after.fs.entries == env.fs.entries[p.path := File(ApplyMatch(text, p.match_), true)]
  {
  }

  lemma UndoWithoutFaults(p: Parameters, env: Env)
    requires NoFaults(env.fs) && IsWritable(env.fs, p.path) && env.preImage.Some?
    ensures var (r, after) := Undo(p, env);
      r == SuccessResult() && after.fs.entries == env.fs.entries[p.path := File(env.preImage.value, true)]
  {
  }

  lemma ReadyEnds(p: Parameters, values: Bindings, fs: Fs)
    requires NoFaults(fs) && IsWritable(fs, p.path) && p.match_.expectedCount >= 0 && p.match_.needle != ""
    requires AssessText(fs.entries[p.path].text, p.match_) == Ready
    ensures var replaced := ApplyMatch(fs.entries[p.path].text, p.match_);
      var report, after := Run(p, values, fs).local.report, Run(p, values, fs).world.fs.entries;
      if AssessText(replaced, p.match_) == AlreadyApplied then
        report.outcome == Success && after == fs.entries[p.path := File(replaced, true)]
      else
        && report.outcome == FailedTransition && report.result == Some(FailureResult("POST_ASSESS_MISMATCH"))
        && report.rollbackResult == Some(SuccessResult()) && after == fs.entries
  {
    var c, env := AsChanger(p), Env(fs, None);
    EngineRunIsTransaction(c, values, env);
    AssessWithoutFaults(p, env);
    var env1 := Assess(p, env).1;
    TransitionWithoutFaults(p, env1);
    var env2 := Transition(p, env1).1;
    AssessWithoutFaults(p, env2);
    var env3 := Assess(p, env2).1;
    UndoWithoutFaults(p, env3);
    hide Assess, Transition, Undo, ApplyMatch, AssessText;
  }

  /** A non-empty replacement that shares no character with the needle always succeeds, and the next
      assessment finds it applied. */
  lemma DisjointReplacementSucceeds(p: Parameters, values: Bindings, fs: Fs)
    requires NoFaults(fs) && IsWritable(fs, p.path)
    requires p.match_.needle != "" && p.match_.replacement != "" && NoSharedChar(p.match_.needle, p.match_.replacement)
    requires p.match_.expectedCount > 0 && Count(fs.entries[p.path].text, p.match_.needle) == p.match_.expectedCount
    ensures Run(p, values, fs).local.report.outcome == Success
    ensures Assess(p, Run(p, values, fs).world).0.state == AlreadyApplied
  {
    var m, text := p.match_, fs.entries[p.path].text;
    var replaced := Replace(text, m.needle, m.replacement, m.expectedCount);
    ReplaceAllConverges(text, m.needle, m.replacement, m.expectedCount);
    CountZeroIffAbsent(replaced, m.needle);
    CountZeroIffAbsent(text, m.needle);
    assert m.needle[0] in m.needle;
    assert m.needle != m.replacement;
    OutcomeWithoutFaults(p, values, fs);
    AllOrNothing(p, values, fs);
    SameFaults(p, values, fs);
  }

  /** The files' fault pattern is not something a run can change. */
  lemma SameFaults(p: Parameters, values: Bindings, fs: Fs)
    ensures Run(p, values, fs).world.fs.faults == fs.faults
  {
    EngineRunIsTransaction(AsChanger(p), values, Env(fs, None));
  }
}
