/** Whole runs of the two text changers, on a disk where nothing fails: what the laws about interleavings and
    about second runs come to for plans that edit text files. */
module TextPlans {
  import opened Outcomes
  import opened Registry
  import opened Workers
  import opened Transactions
  import opened Dag
  import opened Scheduling
  import opened Machine
  import opened Accounts
  import opened Provenance
  import opened Determinism
  import opened Confluence
  import opened Dataflow
  import opened SecondRun
  import opened Files
  import opened Substitution
  import opened Lines
  import opened LineOccurrences
  import opened Verdicts
  import R = ReplaceInFile
  import E = EnsureLine

  /** The files, and the text that each replacing node has captured. */
  datatype Disk = Disk(entries: map<string, Entry>, captured: map<nat, string>)

  datatype TextChange = Replacing(replace: R.Parameters) | Ensuring(insert: E.Parameters) {
    function Path(): string {
      match this
      case Replacing(p) => p.path
      case Ensuring(p) => p.path
    }
  }

  // ---- the changers, on the disk ----

  function EnvOf(id: nat, d: Disk): R.Env {
    R.Env(Calm(d.entries), if id in d.captured then Some(d.captured[id]) else None)
  }

  function DiskAfter(id: nat, d: Disk, env: R.Env): Disk {
    Disk(env.fs.entries, if env.preImage.Some? then d.captured[id := env.preImage.value] else d.captured)
  }

  function AssessOn(id: nat, t: TextChange, d: Disk): (Assessment, Disk) {
    match t
    case Replacing(p) => var (a, env) := R.Assess(p, EnvOf(id, d)); (a, DiskAfter(id, d, env))
    case Ensuring(p) => var (a, fs) := E.Assess(p, Calm(d.entries)); (a, d.(entries := fs.entries))
  }

  function TransitionOn(id: nat, t: TextChange, d: Disk): (Result, Disk) {
    match t
    case Replacing(p) => var (r, env) := R.Transition(p, EnvOf(id, d)); (r, DiskAfter(id, d, env))
    case Ensuring(p) => var (r, fs) := E.Transition(p, Calm(d.entries)); (r, d.(entries := fs.entries))
  }

  function UndoOn(id: nat, t: TextChange, d: Disk): (Result, Disk) {
    match t
    case Replacing(p) => var (r, env) := R.Undo(p, EnvOf(id, d)); (r, DiskAfter(id, d, env))
    case Ensuring(p) => var (r, fs) := E.Undo(p, Calm(d.entries)); (r, d.(entries := fs.entries))
  }

  /** The changer object of node id. */
  function OnDisk(id: nat, t: TextChange): Changer<Disk> {
    Changer(match t case Replacing(p) => R.AsChanger(p).name case Ensuring(p) => E.AsChanger(p).name,
            d => AssessOn(id, t, d), d => TransitionOn(id, t, d), Some(d => UndoOn(id, t, d)), d => map[])
  }

  /** Where nothing fails, when an operation takes place makes no difference. */
  ghost predicate SameButTime(fs: Fs, fs': Fs) {
    NoFaults(fs) && NoFaults(fs') && fs.entries == fs'.entries
  }

  ghost predicate SameEnvButTime(env: R.Env, env': R.Env) {
    SameButTime(env.fs, env'.fs) && env.preImage == env'.preImage
  }

  lemma ReplaceAnyTime(p: R.Parameters, env: R.Env, env': R.Env)
    requires SameEnvButTime(env, env')
    ensures R.Assess(p, env).0 == R.Assess(p, env').0 && SameEnvButTime(R.Assess(p, env).1, R.Assess(p, env').1)
    ensures R.Transition(p, env).0 == R.Transition(p, env').0
    ensures SameEnvButTime(R.Transition(p, env).1, R.Transition(p, env').1)
    ensures R.Undo(p, env).0 == R.Undo(p, env').0 && SameEnvButTime(R.Undo(p, env).1, R.Undo(p, env').1)
  {
    hide R.AssessText, R.ApplyMatch, R.CountMatches;
  }

  lemma InsertAnyTime(p: E.Parameters, fs: Fs, fs': Fs)
    requires SameButTime(fs, fs')
    ensures E.Assess(p, fs).0 == E.Assess(p, fs').0 && SameButTime(E.Assess(p, fs).1, E.Assess(p, fs').1)
    ensures E.Transition(p, fs).0 == E.Transition(p, fs').0
    ensures SameButTime(E.Transition(p, fs).1, E.Transition(p, fs').1)
    ensures E.Undo(p, fs).0 == E.Undo(p, fs').0 && SameButTime(E.Undo(p, fs).1, E.Undo(p, fs').1)
  {
    hide E.AssessLines, E.InsertedText, E.Resolved, E.PlacementLineIndex, E.HasNewline, SplitLines, JoinLines;
  }

  /** On the disk a replacing node that has captured nothing yet does what the changer does on its own: the same
      report, the same files; what it captures is kept under its number. */
  lemma ReplaceOnDisk(id: nat, p: R.Parameters, d: Disk)
    requires id !in d.captured
    ensures var (report, after) := Transact(OnDisk(id, Replacing(p)), d);
      var (alone, env) := Transact(R.AsChanger(p), R.Env(Calm(d.entries), None));
      && report == alone && after.entries == env.fs.entries
      && OnDisk(id, Replacing(p)).exposed(d) == map[] == R.AsChanger(p).exposed(env)
      && after.captured == if env.preImage.Some? then d.captured[id := env.preImage.value] else d.captured
  {
    hide R.Assess, R.Transition, R.Undo, AssessOn, TransitionOn, UndoOn, Replaces, Transact;
    var env0 := R.Env(Calm(d.entries), None);
    CalmReplaces(id, d);
    StillReplacing(id, p, d, env0, d);
    var env1, d1 := R.Assess(p, env0).1, AssessOn(id, Replacing(p), d).1;
    StillReplacing(id, p, d, env1, d1);
    var env2, d2 := R.Transition(p, env1).1, TransitionOn(id, Replacing(p), d1).1;
    StillReplacing(id, p, d, env2, d2);
    var env3, d3 := R.Assess(p, env2).1, AssessOn(id, Replacing(p), d2).1;
    StillReplacing(id, p, d, env3, d3);
    AnsweringAlike(OnDisk(id, Replacing(p)), d, R.AsChanger(p), env0);
    ReplacesFacts(id, d, Transact(R.AsChanger(p), env0).1, Transact(OnDisk(id, Replacing(p)), d).1);
  }

  lemma CalmReplaces(id: nat, d: Disk)
    requires id !in d.captured
    ensures Replaces(id, d, R.Env(Calm(d.entries), None), d)
  {
  }

  lemma ReplacesFacts(id: nat, d: Disk, env: R.Env, now: Disk)
    requires Replaces(id, d, env, now)
    ensures now.entries == env.fs.entries
    ensures now.captured == if env.preImage.Some? then d.captured[id := env.preImage.value] else d.captured
  {
  }

  /** now is the disk d on which node id has come as far as the changer on its own has in env. */
  ghost predicate Replaces(id: nat, d: Disk, env: R.Env, now: Disk) {
    && NoFaults(env.fs) && now.entries == env.fs.entries && id !in d.captured
    && now.captured == if env.preImage.Some? then d.captured[id := env.preImage.value] else d.captured
  }

  lemma StillReplacing(id: nat, p: R.Parameters, d: Disk, env: R.Env, now: Disk)
    requires Replaces(id, d, env, now)
    ensures AssessOn(id, Replacing(p), now).0 == R.Assess(p, env).0
    ensures Replaces(id, d, R.Assess(p, env).1, AssessOn(id, Replacing(p), now).1)
    ensures TransitionOn(id, Replacing(p), now).0 == R.Transition(p, env).0
    ensures Replaces(id, d, R.Transition(p, env).1, TransitionOn(id, Replacing(p), now).1)
    ensures UndoOn(id, Replacing(p), now).0 == R.Undo(p, env).0
    ensures Replaces(id, d, R.Undo(p, env).1, UndoOn(id, Replacing(p), now).1)
  {
    hide R.Assess, R.Transition, R.Undo;
    ReplaceAnyTime(p, env, EnvOf(id, now));
    PreImageStays(p, env);
  }

  lemma PreImageStays(p: R.Parameters, env: R.Env)
    ensures R.Assess(p, env).1.preImage == R.Undo(p, env).1.preImage == env.preImage
    ensures env.preImage.Some? ==> R.Transition(p, env).1.preImage.Some?
  {
    hide R.AssessText, R.ApplyMatch, R.CountMatches;
  }

  lemma InsertOnDisk(id: nat, p: E.Parameters, d: Disk)
    ensures var (report, after) := Transact(OnDisk(id, Ensuring(p)), d);
      var (alone, fs) := Transact(E.AsChanger(p), Calm(d.entries));
      && report == alone && after == Disk(fs.entries, d.captured)
      && OnDisk(id, Ensuring(p)).exposed(d) == map[] == E.AsChanger(p).exposed(fs)
  {
    hide E.Assess, E.Transition, E.Undo, AssessOn, TransitionOn, UndoOn, Transact;
    var fs0 := Calm(d.entries);
    StillInserting(id, p, fs0, d);
    var fs1, d1 := E.Assess(p, fs0).1, AssessOn(id, Ensuring(p), d).1;
    StillInserting(id, p, fs1, d1);
    var fs2, d2 := E.Transition(p, fs1).1, TransitionOn(id, Ensuring(p), d1).1;
    StillInserting(id, p, fs2, d2);
    var fs3, d3 := E.Assess(p, fs2).1, AssessOn(id, Ensuring(p), d2).1;
    StillInserting(id, p, fs3, d3);
    AnsweringAlike(OnDisk(id, Ensuring(p)), d, E.AsChanger(p), fs0);
  }

  lemma StillInserting(id: nat, p: E.Parameters, fs: Fs, now: Disk)
    requires NoFaults(fs) && now.entries == fs.entries
    ensures AssessOn(id, Ensuring(p), now) == (E.Assess(p, fs).0, Disk(E.Assess(p, fs).1.entries, now.captured))
    ensures TransitionOn(id, Ensuring(p), now) ==
              (E.Transition(p, fs).0, Disk(E.Transition(p, fs).1.entries, now.captured))
    ensures UndoOn(id, Ensuring(p), now) == (E.Undo(p, fs).0, Disk(E.Undo(p, fs).1.entries, now.captured))
    ensures NoFaults(E.Assess(p, fs).1) && NoFaults(E.Transition(p, fs).1) && NoFaults(E.Undo(p, fs).1)
  {
    InsertAnyTime(p, fs, Calm(now.entries));
    hide E.Assess, E.Transition, E.Undo;
  }

  // ---- they touch only their own file and their own captured text ----

  ghost predicate SameAt<K, V>(k: K, m: map<K, V>, m': map<K, V>) {
    (k in m <==> k in m') && (k in m ==> m[k] == m'[k])
  }

  /** The two disks agree on the file at path and on what node id has captured. */
  ghost predicate SameSlot(id: nat, path: string, d: Disk, d': Disk) {
    SameAt(path, d.entries, d'.entries) && SameAt(id, d.captured, d'.captured)
  }

  /** The two disks agree on everything else. */
  ghost predicate SameElsewhere(id: nat, path: string, d: Disk, d': Disk) {
    && (forall q :: q != path ==> SameAt(q, d.entries, d'.entries))
    && (forall i: nat :: i != id ==> SameAt(i, d.captured, d'.captured))
  }

  /** What op does depends on the slot of its changer alone, and changes no other. */
  ghost predicate Confined<E>(id: nat, path: string, d: Disk, u: Disk, r: (E, Disk), s: (E, Disk)) {
    && SameElsewhere(id, path, d, r.1)
    && (SameSlot(id, path, d, u) ==> r.0 == s.0 && SameSlot(id, path, r.1, s.1))
  }

  lemma AssessConfined(id: nat, t: TextChange, d: Disk, u: Disk)
    ensures Confined(id, t.Path(), d, u, AssessOn(id, t, d), AssessOn(id, t, u))
    ensures AssessOn(id, t, d).1 == d
  {
    hide R.AssessText, E.AssessLines, SplitLines, E.HasNewline;
  }

  lemma TransitionConfined(id: nat, t: TextChange, d: Disk, u: Disk)
    ensures Confined(id, t.Path(), d, u, TransitionOn(id, t, d), TransitionOn(id, t, u))
  {
    hide Confined;
    match t
    case Replacing(p) => ReplaceConfined(id, p, d, u);
    case Ensuring(p) => InsertConfined(id, p, d, u);
  }

  lemma ReplaceConfined(id: nat, p: R.Parameters, d: Disk, u: Disk)
    ensures Confined(id, p.path, d, u, TransitionOn(id, Replacing(p), d), TransitionOn(id, Replacing(p), u))
  {
    hide R.ApplyMatch, R.CountMatches, R.Substituted;
    ReplaceChanges(id, p, d);
    ReplaceChanges(id, p, u);
    hide TransitionOn;
  }

  /** The text that p makes of a file, if it replaces anything there. */
  function Rewritten(p: R.Parameters, entries: map<string, Entry>): Option<string> {
    if !IsFile(Calm(entries), p.path) then None
    else
      var text := entries[p.path].text;
      var after := R.ApplyMatch(text, p.match_);
      if R.CountMatches(text, p.match_) == p.match_.expectedCount && after != text && entries[p.path].writable
      then Some(after)
      else None
  }

  lemma ReplaceChanges(id: nat, p: R.Parameters, d: Disk)
    ensures var (r, after) := TransitionOn(id, Replacing(p), d);
      && (Rewritten(p, d.entries).None? ==> after == d)
      && (Rewritten(p, d.entries).Some? ==>
            && p.path in d.entries && d.entries[p.path].File?
            && after.entries == d.entries[p.path := File(Rewritten(p, d.entries).value, true)]
            && after.captured == d.captured[id := d.entries[p.path].text])
      && r == ReplaceResult(p, d.entries)
  {
    hide R.ApplyMatch, R.CountMatches, R.Substituted;
    assert id in d.captured ==> d.captured[id := d.captured[id]] == d.captured;
  }

  function ReplaceResult(p: R.Parameters, entries: map<string, Entry>): Result {
    if !IsFile(Calm(entries), p.path) then FailureResult("READ_FAILED")
    else
      var text := entries[p.path].text;
      if R.CountMatches(text, p.match_) != p.match_.expectedCount then FailureResult("MATCH_VANISHED")
      else if R.ApplyMatch(text, p.match_) == text then SkippedResult()
      else if !entries[p.path].writable then FailureResult("WRITE_FAILED")
      else R.Substituted(p, text)
  }

  lemma InsertConfined(id: nat, p: E.Parameters, d: Disk, u: Disk)
    ensures Confined(id, p.path, d, u, TransitionOn(id, Ensuring(p), d), TransitionOn(id, Ensuring(p), u))
  {
    hide E.InsertedText, E.Resolved, SplitLines;
  }

  lemma UndoConfined(id: nat, t: TextChange, d: Disk, u: Disk)
    ensures Confined(id, t.Path(), d, u, UndoOn(id, t, d), UndoOn(id, t, u))
  {
    hide Confined;
    match t
    case Replacing(p) => RestoreConfined(id, p, d, u);
    case Ensuring(p) => RemoveConfined(id, p, d, u);
  }

  lemma RestoreConfined(id: nat, p: R.Parameters, d: Disk, u: Disk)
    ensures Confined(id, p.path, d, u, UndoOn(id, Replacing(p), d), UndoOn(id, Replacing(p), u))
  {
  }

  lemma RemoveConfined(id: nat, p: E.Parameters, d: Disk, u: Disk)
    ensures Confined(id, p.path, d, u, UndoOn(id, Ensuring(p), d), UndoOn(id, Ensuring(p), u))
  {
    hide E.PlacementLineIndex, E.Removed, SplitLines, JoinLines;
  }

  lemma OpConfined(id: nat, t: TextChange, op: Op, d: Disk, u: Disk)
    ensures Confined(id, t.Path(), d, u, Apply(OnDisk(id, t), op, d), Apply(OnDisk(id, t), op, u))
  {
    hide AssessOn, TransitionOn, UndoOn;
    match op
    case AssessOp => AssessConfined(id, t, d, u);
    case TransitionOp => TransitionConfined(id, t, d, u);
    case UndoOp => UndoConfined(id, t, d, u);
    case ReadOp =>
  }

  lemma SlotKept(id: nat, path: string, d: Disk, d': Disk, id': nat, path': string)
    requires SameElsewhere(id, path, d, d') && id != id' && path != path'
    ensures SameSlot(id', path', d, d')
  {
  }

  lemma SameMaps<K, V>(m: map<K, V>, m': map<K, V>)
    requires forall k :: SameAt(k, m, m')
    ensures m == m'
  {
    forall k ensures k in m <==> k in m' {
      assert SameAt(k, m, m');
    }
    forall k | k in m ensures m[k] == m'[k] {
      assert SameAt(k, m, m');
    }
  }

  /** Two text changers of different nodes and different files do not interfere. */
  lemma TextChangersCommute(id: nat, t: TextChange, id': nat, t': TextChange)
    requires id != id' && t.Path() != t'.Path()
    ensures Commute(OnDisk(id, t), OnDisk(id', t'))
  {
    forall f, g, w ensures CommuteAt(OnDisk(id, t), f, OnDisk(id', t'), g, w) {
      TextOpsCommute(id, t, f, id', t', g, w);
    }
  }

  lemma TextOpsCommute(id: nat, t: TextChange, f: Op, id': nat, t': TextChange, g: Op, w: Disk)
    requires id != id' && t.Path() != t'.Path()
    ensures CommuteAt(OnDisk(id, t), f, OnDisk(id', t'), g, w)
  {
    hide Apply, OnDisk, SameAt;
    var c, d := OnDisk(id, t), OnDisk(id', t');
    var (e, u) := Apply(c, f, w);
    var (h, v) := Apply(d, g, w);
    OpConfined(id, t, f, w, v);
    OpConfined(id', t', g, w, u);
    SlotKept(id, t.Path(), w, u, id', t'.Path());
    SlotKept(id', t'.Path(), w, v, id, t.Path());
    OpConfined(id', t', g, u, w);
    OpConfined(id, t, f, v, w);
    hide Confined;
    SlotsAgree(id, t.Path(), id', t'.Path(), w, u, v, Apply(d, g, u).1, Apply(c, f, v).1);
  }

  /** u and v are w after a change in one slot each; both then get the other change. */
  lemma SlotsAgree(id: nat, path: string, id': nat, path': string, w: Disk, u: Disk, v: Disk, u': Disk, v': Disk)
    requires id != id' && path != path'
    requires SameElsewhere(id, path, w, u) && SameElsewhere(id', path', w, v)
    requires SameElsewhere(id', path', u, u') && SameElsewhere(id, path, v, v')
    requires SameSlot(id', path', v, u') && SameSlot(id, path, u, v')
    ensures u' == v'
  {
    hide SameElsewhere;
    forall q ensures SameAt(q, u'.entries, v'.entries) {
      ElsewhereAt(id, path, w, u, q, id');
      ElsewhereAt(id', path', w, v, q, id);
      ElsewhereAt(id', path', u, u', q, id);
      ElsewhereAt(id, path, v, v', q, id');
    }
    forall i: nat ensures SameAt(i, u'.captured, v'.captured) {
      ElsewhereAt(id, path, w, u, path', i);
      ElsewhereAt(id', path', w, v, path, i);
      ElsewhereAt(id', path', u, u', path, i);
      ElsewhereAt(id, path, v, v', path', i);
    }
    SameMaps(u'.entries, v'.entries);
    SameMaps(u'.captured, v'.captured);
  }

  lemma ElsewhereAt(id: nat, path: string, d: Disk, d': Disk, q: string, i: nat)
    requires SameElsewhere(id, path, d, d')
    ensures q != path ==> SameAt(q, d.entries, d'.entries)
    ensures i != id ==> SameAt(i, d.captured, d'.captured)
  {
  }

  /** Assessing a text only looks. */
  lemma TextAssessOnlyLooks(id: nat, t: TextChange)
    ensures OnlyLooks(OnDisk(id, t))
  {
    forall d ensures OnDisk(id, t).assess(d).1 == d {
      AssessConfined(id, t, d, d);
    }
  }

  // ---- what one change leaves of another ----

  /** t is there on these files, as far as its assessment can tell. */
  predicate AppliedTo(t: TextChange, entries: map<string, Entry>) {
    AssessOn(0, t, Disk(entries, map[])).0.state == AlreadyApplied
  }

  function EntriesAfter(t: TextChange, entries: map<string, Entry>): map<string, Entry> {
    TransitionOn(0, t, Disk(entries, map[])).1.entries
  }

  /** Wherever the earlier change is there, it still is after the later one. */
  ghost predicate LaterSpares(earlier: TextChange, later: TextChange) {
    forall entries :: AppliedTo(earlier, entries) ==> AppliedTo(earlier, EntriesAfter(later, entries))
  }

  lemma AppliedOnDisk(id: nat, t: TextChange, d: Disk)
    ensures Applied(OnDisk(id, t), d) <==> AppliedTo(t, d.entries)
  {
    hide R.AssessText, E.AssessLines, SplitLines, E.HasNewline;
  }

  lemma EntriesOnDisk(id: nat, t: TextChange, d: Disk)
    ensures OnDisk(id, t).transition(d).1.entries == EntriesAfter(t, d.entries)
  {
    hide R.ApplyMatch, R.CountMatches, R.Substituted, E.InsertedText, E.Resolved, SplitLines;
  }

  lemma SparesOnDisk(node: Node<Disk>, id: nat, t: TextChange, id': nat, t': TextChange)
    requires LaterSpares(t, t')
    ensures Spares(node, OnDisk(id, t), OnDisk(id', t'))
  {
    forall w | Applied(OnDisk(id, t), w)
      ensures Applied(OnDisk(id, t), OnDisk(id', t').transition(w).1)
      ensures ReturnsAlike(node, OnDisk(id, t), w, OnDisk(id', t').transition(w).1)
    {
      AppliedOnDisk(id, t, w);
      EntriesOnDisk(id', t', w);
      AppliedOnDisk(id, t, OnDisk(id', t').transition(w).1);
      hide AppliedTo, EntriesAfter, Applied, TransitionOn;
    }
  }

  /** What has been applied to a file a change of another file does not disturb. */
  lemma DifferentFilesSpare(t: TextChange, t': TextChange)
    requires t.Path() != t'.Path()
    ensures LaterSpares(t, t')
  {
    forall entries | AppliedTo(t, entries) ensures AppliedTo(t, EntriesAfter(t', entries)) {
      var d, after := Disk(entries, map[]), TransitionOn(0, t', Disk(entries, map[])).1;
      TransitionConfined(0, t', d, d);
      AssessConfined(0, t, d, Disk(after.entries, map[]));
      hide AssessOn, TransitionOn;
    }
  }

  lemma InsertionChanges(p: E.Parameters, entries: map<string, Entry>)
    ensures var after := EntriesAfter(Ensuring(p), entries);
      || after == entries
      || (&& p.path in entries && entries[p.path].File? && E.Resolved(p.placement, SplitLines(entries[p.path].text))
          && after == entries[p.path := File(E.InsertedText(entries[p.path].text, p), true)])
  {
    E.TransitionEffect(p, Calm(entries));
    hide E.Transition, E.InsertedText, E.Resolved, SplitLines;
  }

  /** Inserting a line without the needle brings no needle without separators into the text. */
  lemma StaysAbsent(text: string, p: E.Parameters, needle: string)
    requires E.Resolved(p.placement, SplitLines(text)) && needle != "" && SeparatorFree(needle)
    requires !Occurs(text, needle) && !Occurs(p.line, needle)
    ensures !Occurs(E.InsertedText(text, p), needle)
  {
    if Occurs(E.InsertedText(text, p), needle) {
      var lines := SplitLines(text);
      E.ResolvedInRange(p.placement, lines);
      var i := E.InsertionIndex(lines, p.placement, E.ResolveAnchor(p.placement, lines));
      var k := OccursInALine(E.Inserted(lines, p), needle);
      E.LinesMoved(lines, i, p.line);
      hide Occurs, SplitLines, JoinLines, E.ResolveAnchor;
      if k != i {
        OccursInText(text, needle, if k < i then k else k - 1);
      }
    }
  }

  lemma ReplacedMeansAbsent(p: R.Parameters, entries: map<string, Entry>)
    ensures AppliedTo(Replacing(p), entries) <==>
      && R.PreconditionsMet(p, Calm(entries))
      && (|| p.match_.expectedCount == 0 || p.match_.needle == p.match_.replacement
          || !Occurs(entries[p.path].text, p.match_.needle))
  {
    if R.PreconditionsMet(p, Calm(entries)) {
      R.AlreadyAppliedExactly(entries[p.path].text, p.match_);
    }
    hide R.AssessText, Occurs;
  }

  /** A line inserted later into the same file spares an earlier replacement, if the needle has no separator
      and is not found in the line. */
  lemma LaterInsertionSpares(r: R.Parameters, p: E.Parameters)
    requires SeparatorFree(r.match_.needle) && !Occurs(p.line, r.match_.needle)
    ensures LaterSpares(Replacing(r), Ensuring(p))
  {
    if r.path != p.path {
      DifferentFilesSpare(Replacing(r), Ensuring(p));
    } else {
      forall entries | AppliedTo(Replacing(r), entries)
        ensures AppliedTo(Replacing(r), EntriesAfter(Ensuring(p), entries))
      {
        hide AppliedTo, EntriesAfter, SeparatorFree, Occurs;
        InsertionSparesAt(r, p, entries);
      }
    }
  }

  lemma InsertionSparesAt(r: R.Parameters, p: E.Parameters, entries: map<string, Entry>)
    requires SeparatorFree(r.match_.needle) && !Occurs(p.line, r.match_.needle) && r.path == p.path
    requires AppliedTo(Replacing(r), entries)
    ensures AppliedTo(Replacing(r), EntriesAfter(Ensuring(p), entries))
  {
    hide AppliedTo, EntriesAfter, Occurs, E.InsertedText, E.Resolved, SplitLines, SeparatorFree;
    ReplacedMeansAbsent(r, entries);
    InsertionChanges(p, entries);
    ReplacedMeansAbsent(r, EntriesAfter(Ensuring(p), entries));
    if !Occurs(entries[r.path].text, r.match_.needle) && EntriesAfter(Ensuring(p), entries) != entries {
      StaysAbsent(entries[r.path].text, p, r.match_.needle);
    }
  }

  // ---- plans of text changers ----

  /** In e, every node that holds a changer holds the text changer named in changes, and nodes neither above
      nor below each other hold changers of different files and have published different names. */
  ghost predicate HeldApart(plan: Plan<Disk>, changes: seq<TextChange>, e: Sys<Disk>)
    requires |changes| == |plan|
  {
    && |e.changers| == |plan|
    && (forall n: nat :: n < |plan| && e.changers[n].Some? ==> e.changers[n].value == OnDisk(n, changes[n]))
    && (forall n: nat, m: nat :: Incomparable(plan, n, m) ==>
          && (e.changers[n].Some? && e.changers[m].Some? ==> changes[n].Path() != changes[m].Path())
          && NamesApart(Entries(e, n), Entries(e, m)))
  }

  lemma HeldApartIsApart(plan: Plan<Disk>, changes: seq<TextChange>, e: Sys<Disk>)
    requires |changes| == |plan| && HeldApart(plan, changes, e)
    ensures AllSeparate(plan, e)
  {
    forall n: nat, m: nat | Incomparable(plan, n, m) ensures n < |plan| && m < |plan| && Separate(e, n, m) {
      if e.changers[n].Some? && e.changers[m].Some? {
        TextChangersCommute(n, changes[n], m, changes[m]);
      }
      hide Commute, OnDisk, Incomparable, NamesApart, Entries;
    }
    hide Incomparable, Separate, OnDisk;
  }

  /** Deferred nodes included: if in the reference run unordered nodes came to edit different files, whatever
      variables the paths came from, published different names, and could lead no factory to another end, then
      every run that comes to rest ends like the reference run. */
  lemma HeldTextsAgree(plan: Plan<Disk>, changes: seq<TextChange>, values: Bindings, disk: Disk, schedule: seq<nat>)
    requires Acyclic(Ups(plan)) && AllReturn(plan) && |changes| == |plan|
    requires HeldApart(plan, changes, Reference(plan, values, disk))
    requires FactoriesEndAlike(plan, values, Reference(plan, values, disk))
    requires Complete(RunOf(plan, values, disk, schedule))
    ensures RunOf(plan, values, disk, schedule) == Reference(plan, values, disk)
  {
    hide HeldApart, FactoriesEndAlike, RunOf, Reference, AllSeparate, AllReturn;
    HeldApartIsApart(plan, changes, Reference(plan, values, disk));
    EveryRunIsOneByOne(plan, values, disk, schedule);
  }

  ghost predicate TextPlan(plan: Plan<Disk>, changes: seq<TextChange>) {
    |changes| == |plan| && forall n: nat :: n < |plan| ==> plan[n].body == Given(OnDisk(n, changes[n]))
  }

  /** The callbacks of the two nodes never return the same name. */
  ghost predicate NeverShareNames(a: Node<Disk>, c: Changer<Disk>, b: Node<Disk>, d: Changer<Disk>) {
    a.publishes.Some? && b.publishes.Some? ==>
      forall f, i, g, j ::
        NamesApart(ItemsOf(MakeCall(a, c, f, i).returned), ItemsOf(MakeCall(b, d, g, j).returned))
  }

  function ItemsOf(p: Published): seq<(string, Value)> {
    match p
    case Raised(_) => []
    case Mapping(items) => items
  }

  /** Nodes neither above nor below each other work on different files and publish different names. */
  ghost predicate FilesApart(plan: Plan<Disk>, changes: seq<TextChange>)
    requires |changes| == |plan|
  {
    forall n: nat, m: nat :: Incomparable(plan, n, m) ==>
      && changes[n].Path() != changes[m].Path()
      && NeverShareNames(plan[n], OnDisk(n, changes[n]), plan[m], OnDisk(m, changes[m]))
  }

  lemma TextPlanReturns(plan: Plan<Disk>, changes: seq<TextChange>)
    requires TextPlan(plan, changes)
    ensures AllReturn(plan)
  {
  }

  lemma TextHeld(plan: Plan<Disk>, changes: seq<TextChange>, values: Bindings, disk: Disk, schedule: seq<nat>, n: nat)
    requires Acyclic(Ups(plan)) && TextPlan(plan, changes) && n < |plan|
    ensures var e := RunOf(plan, values, disk, schedule);
      && |e.changers| == |e.calls| == |plan| && e.changers[n] == Some(OnDisk(n, changes[n]))
      && (e.calls[n].Some? ==>
            && plan[n].publishes.Some?
            && var call := e.calls[n].value; call == MakeCall(plan[n], OnDisk(n, changes[n]), call.fields, call.input))
  {
    StartIsOnWay(plan, values, disk, schedule);
    var s, e := Start(plan, values, disk), RunOf(plan, values, disk, schedule);
    WayFacts(plan, values, s, e);
    hide OnWay, SysOk, RegistryOk, GrownFrom, OnPath, RunOf, Start;
    GivenAreKept(plan, values, disk, e);
    assert KeepsGiven(plan[n], e.changers[n]);
    hide Toward;
    RegistryAccounts(plan, values, disk, schedule);
    CallsAreOk(plan, e, n);
  }

  lemma CallsAreOk<W>(plan: Plan<W>, s: Sys<W>, n: nat)
    requires SysOk(plan, s) && RegistryOk(plan, s) && n < |plan|
    ensures n < |s.changers| && n < |s.calls|
    ensures s.calls[n].Some? ==> CallOk(plan[n], s.changers[n], s.calls[n].value)
  {
    hide SysOk, RegistryOk, BoundExactly, CallOk;
    AccountOf(plan, s, n);
  }

  lemma TextPlanIsHeldApart(plan: Plan<Disk>, changes: seq<TextChange>, values: Bindings, disk: Disk,
      schedule: seq<nat>)
    requires Acyclic(Ups(plan)) && TextPlan(plan, changes) && FilesApart(plan, changes)
    ensures HeldApart(plan, changes, RunOf(plan, values, disk, schedule))
    ensures FactoriesEndAlike(plan, values, RunOf(plan, values, disk, schedule))
  {
    var e := RunOf(plan, values, disk, schedule);
    SameLength(plan, e);
    forall n: nat | n < |plan| ensures e.changers[n] == Some(OnDisk(n, changes[n])) {
      TextHeld(plan, changes, values, disk, schedule, n);
    }
    forall n: nat, m: nat | Incomparable(plan, n, m) ensures NamesApart(Entries(e, n), Entries(e, m)) {
      TextHeld(plan, changes, values, disk, schedule, n);
      TextHeld(plan, changes, values, disk, schedule, m);
      hide RunOf, OnDisk, TextPlan, Incomparable, MakeCall;
    }
    hide RunOf, Incomparable, SysOk, OnDisk, NamesApart, Entries;
  }

  /** On a plan of text changers whose unordered nodes edit different files, every run that comes to rest
      ends like the reference run: the same reports, the same registry, the same files. */
  lemma TextRunsAgree(plan: Plan<Disk>, changes: seq<TextChange>, values: Bindings, disk: Disk, schedule: seq<nat>)
    requires Acyclic(Ups(plan)) && TextPlan(plan, changes) && FilesApart(plan, changes)
    requires Complete(RunOf(plan, values, disk, schedule))
    ensures AllReturn(plan) && RunOf(plan, values, disk, schedule) == Reference(plan, values, disk)
  {
    TextPlanReturns(plan, changes);
    hide TextPlan, FilesApart, RunOf, Reference, HeldApart, FactoriesEndAlike, Effective;
    var reference := ReferenceIsARun(plan, values, disk);
    TextPlanIsHeldApart(plan, changes, values, disk, reference);
    HeldTextsAgree(plan, changes, values, disk, schedule);
  }

  /** No change is disturbed by one whose node is not above its own, and no callback minds the result it is
      given. Changes of different files never disturb each other (DifferentFilesSpare). */
  ghost predicate ChangesStay(plan: Plan<Disk>, changes: seq<TextChange>)
    requires |changes| == |plan|
  {
    && (forall n: nat, m: nat :: n < |plan| && m < |plan| && n != m && !Ancestor(Ups(plan), m, n) ==>
          LaterSpares(changes[n], changes[m]))
    && (forall n: nat :: n < |plan| && plan[n].publishes.Some? ==> IgnoresResult(plan[n], OnDisk(n, changes[n])))
  }

  lemma TextHypotheses(plan: Plan<Disk>, changes: seq<TextChange>, values: Bindings, disk: Disk, schedule: seq<nat>)
    requires Acyclic(Ups(plan)) && TextPlan(plan, changes) && ChangesStay(plan, changes)
    ensures var s := RunOf(plan, values, disk, schedule);
      && |s.changers| == |plan| && FactoriesEndAlike(plan, values, s)
      && AssessOnlyLooks(s) && Undisturbed(plan, s) && PublishesAlike(plan, s)
  {
    var s := RunOf(plan, values, disk, schedule);
    SameLength(plan, s);
    forall n: nat | n < |plan|
      ensures s.changers[n] == Some(OnDisk(n, changes[n])) && OnlyLooks(OnDisk(n, changes[n]))
    {
      TextHeld(plan, changes, values, disk, schedule, n);
      TextAssessOnlyLooks(n, changes[n]);
      hide RunOf, SysOk, OnlyLooks;
    }
    forall n: nat, m: nat | n < |plan| && m < |plan| && n != m && !Ancestor(Ups(plan), m, n)
      ensures Spares(plan[n], OnDisk(n, changes[n]), OnDisk(m, changes[m]))
    {
      hide RunOf, SysOk, Ancestor, LaterSpares, Spares;
      SparesOnDisk(plan[n], n, changes[n], m, changes[m]);
    }
    hide RunOf, SysOk, OnlyLooks, Spares, IgnoresResult, OnDisk, Ancestor;
  }

  /** The change is there: nothing is left to replace, or the line stands in its place or, where that suffices,
      anywhere. */
  ghost predicate Achieved(t: TextChange, entries: map<string, Entry>) {
    && t.Path() in entries && entries[t.Path()].File?
    && match t
       case Replacing(p) =>
         || p.match_.expectedCount == 0 || p.match_.needle == p.match_.replacement
         || !exists i: nat :: OccursAt(entries[p.path].text, p.match_.needle, i)
       case Ensuring(p) =>
         var lines := SplitLines(entries[p.path].text);
         || InPlace(lines, p.placement, p.line)
         || (HasPlace(lines, p.placement) && !p.strictAnchor && p.line in lines)
  }

  lemma AppliedIsAchieved(id: nat, t: TextChange, d: Disk)
    ensures Applied(OnDisk(id, t), d) ==> Achieved(t, d.entries)
  {
    hide R.Assess, E.Assess, SplitLines, InPlace, HasPlace, OccursAt;
    match t
    case Replacing(p) => ReplaceAssess(p, EnvOf(id, d));
    case Ensuring(p) => EnsureAssess(p, Calm(d.entries));
  }

  /** Where no change is disturbed by a later or unordered one and the run ended well, all changes are there at
      the end; and a second run over the same nodes skips every node as applied and leaves the files as they
      are, in every interleaving. */
  lemma TextSecondRunDoesNothing(plan: Plan<Disk>, changes: seq<TextChange>, values: Bindings, disk: Disk,
      first: seq<nat>, second: seq<nat>)
    requires Acyclic(Ups(plan)) && TextPlan(plan, changes) && ChangesStay(plan, changes)
    requires AllEligible(plan, RunOf(plan, values, disk, first))
    ensures var s := RunOf(plan, values, disk, first);
      var t := RunOf(plan, values, s.world, second);
      && (forall n: nat :: n < |plan| ==> Achieved(changes[n], s.world.entries))
      && t.world == s.world
      && (forall n: nat :: n in t.reports ==> t.reports[n].outcome == SkippedAlreadyApplied)
      && (Complete(t) ==> forall n: nat :: n < |plan| ==> n in t.reports)
  {
    TextHypotheses(plan, changes, values, disk, first);
    var s := RunOf(plan, values, disk, first);
    hide ChangesStay, FactoriesEndAlike, AssessOnlyLooks, Undisturbed, PublishesAlike, AllEligible, RunOf, Achieved,
        OnDisk, AllApplied;
    SecondRunDoesNothing(plan, values, disk, first, second);
    FirstRun(plan, values, disk, first);
    forall n: nat | n < |plan| ensures Achieved(changes[n], s.world.entries) {
      AllAppliedFacts(plan, values, s, n);
      AppliedIsAchieved(n, changes[n], s.world);
    }
  }
}
