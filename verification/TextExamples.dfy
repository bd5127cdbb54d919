/** Small plans of text changers on which the laws about whole runs can be seen at work. */
module TextExamples {
  import opened Outcomes
  import opened Registry
  import opened Workers
  import opened Dag
  import opened Scheduling
  import opened Machine
  import opened Accounts
  import opened Provenance
  import opened Determinism
  import opened Confluence
  import opened Dataflow
  import opened SecondRun
  import opened Substitution
  import opened Lines
  import opened TextPlans
  import R = ReplaceInFile
  import E = EnsureLine

  // ---- two edits of two files ----

  function TwoEdits(first: TextChange, second: TextChange): Plan<Disk> {
    [Node([], Given(OnDisk(0, first)), None), Node([], Given(OnDisk(1, second)), None)]
  }

  /** For instance, any two edits of two files, neither waiting for the other. */
  lemma TwoEditsAgree(first: TextChange, second: TextChange, values: Bindings, disk: Disk, schedule: seq<nat>)
    requires first.Path() != second.Path()
    ensures var plan := TwoEdits(first, second);
      && Acyclic(Ups(plan)) && AllReturn(plan)
      && (Complete(RunOf(plan, values, disk, schedule)) ==>
            RunOf(plan, values, disk, schedule) == Reference(plan, values, disk))
  {
    var plan, changes := TwoEdits(first, second), [first, second];
    assert TextPlan(plan, changes) && FilesApart(plan, changes) && Acyclic(Ups(plan)) by {
      hide OnDisk, Ancestor;
    }
    hide TextPlan, FilesApart, RunOf, Reference, TwoEdits, Acyclic;
    TextPlanReturns(plan, changes);
    if Complete(RunOf(plan, values, disk, schedule)) {
      TextRunsAgree(plan, changes, values, disk, schedule);
    }
  }

  // ---- an edit of a published path ----

  /** A factory that edits the file that it finds under a name. */
  function EditAt(id: nat, name: string, change: string -> TextChange): Factory<Disk> {
    Ask(Get(name), (answer: Answer) =>
          match answer
          case Found(value) => Produce(OnDisk(id, change(value.content)))
          case _ => Fail(MissingVariable(name)))
  }

  /** Node 0 edits a file and publishes a path; node 1, deferred, edits the file at that path; node 2 edits
      another file, waiting for nobody. */
  function EditPublished(first: TextChange, path: string, second: string -> TextChange,
      third: TextChange): Plan<Disk>
  {
    [Node([], Given(OnDisk(0, first)), Some((c, f, r) => Mapping([("target", Value({"str"}, path))]))),
     Node([0], Deferred("deferred#1", EditAt(1, "target", second)), None),
     Node([], Given(OnDisk(2, third)), None)]
  }

  lemma EditPublishedFacts(first: TextChange, path: string, second: string -> TextChange, third: TextChange)
    ensures var plan := EditPublished(first, path, second, third);
      && Acyclic(Ups(plan)) && AllReturn(plan) && |plan| == 3
      && plan[0].body == Given(OnDisk(0, first)) && plan[1].body.Deferred? && plan[2].body == Given(OnDisk(2, third))
      && AsksOnlyFor(plan[1].body.factory, {"target"})
      && forall n: nat, m: nat :: Incomparable(plan, n, m) ==> (n == 2 && m < 2) || (m == 2 && n < 2)
  {
    var plan := EditPublished(first, path, second, third);
    assert Ups(plan) == [[], [0], []];
    AncestorFromUpstream(Ups(plan), 0, 0, 1);
    var f := plan[1].body.factory;
    hide OnDisk, Ancestor;
    OneRead(f, "target");
    hide AsksOnlyFor;
    assert forall a :: ReturnsWithin(f.next(a), 0);
    assert ReturnsWithin(f, 1);
  }

  /** Only node 0 publishes, and only this. */
  lemma PublishedEntries(first: TextChange, path: string, second: string -> TextChange, third: TextChange,
      values: Bindings, disk: Disk, schedule: seq<nat>, m: nat)
    requires var plan := EditPublished(first, path, second, third); Acyclic(Ups(plan))
    ensures var e := RunOf(EditPublished(first, path, second, third), values, disk, schedule);
      Entries(e, m) == [] || (m == 0 && Entries(e, m) == [("target", Value({"str"}, path))])
  {
    var plan := EditPublished(first, path, second, third);
    var e := RunOf(plan, values, disk, schedule);
    SameLength(plan, e);
    RegistryAccounts(plan, values, disk, schedule);
    if m < |plan| {
      CallsAreOk(plan, e, m);
    }
    hide SysOk, RegistryOk, RunOf, OnDisk, EditAt;
  }

  /** What node 1 comes to hold is the edit of the published path. */
  lemma HoldsPublishedEdit(first: TextChange, path: string, second: string -> TextChange, third: TextChange,
      values: Bindings, disk: Disk, schedule: seq<nat>)
    requires var plan := EditPublished(first, path, second, third); Acyclic(Ups(plan)) && "target" !in values
    ensures var e := RunOf(EditPublished(first, path, second, third), values, disk, schedule);
      |e.changers| == 3 && (e.changers[1].Some? ==> e.changers[1].value == OnDisk(1, second(path)))
  {
    var plan := EditPublished(first, path, second, third);
    var e := RunOf(plan, values, disk, schedule);
    SameLength(plan, e);
    StartIsOnWay(plan, values, disk, schedule);
    assert schedule + [] == schedule;
    ExecStaysOnWay(plan, values, Start(plan, values, disk), schedule, []);
    WayFacts(plan, values, e, e);
    assert OnPath(plan, values, e, e, 1);
    hide OnWay, SysOk, RegistryOk, GrownFrom, Toward, OnDisk;
    if e.changers[1].Some? {
      var seen := FirstMet(plan, values, e, "target", second, e.changers[1].value);
      hide RunOf, LedTo, EditAt;
      TargetIsPath(first, path, second, third, values, disk, schedule, seen);
    }
  }

  /** The registry that the deferred edit has read. */
  lemma FirstMet(plan: Plan<Disk>, values: Bindings, e: Sys<Disk>, name: string, change: string -> TextChange,
      c: Changer<Disk>) returns (seen: Bindings)
    requires 1 < |plan| && plan[1].body.Deferred? && plan[1].body.factory == EditAt(1, name, change)
    requires LedTo(plan, values, e, 1, e.values, Produce(c))
    ensures MayMeet(plan, values, e, 1, seen) && name in seen && c == OnDisk(1, change(seen[name].content))
  {
    hide MayMeet, UpTo, OnDisk;
    var f := plan[1].body.factory;
    var met :| MayMeetAll(plan, values, e, 1, met) && UpTo(met, e.values) && Following(f, met) == Produce(c);
    seen := met[0];
    assert met[..1] == [] + [seen];
    FollowingOneMore(f, [], seen);
    DoneStaysDone(f, met, 1);
  }

  lemma TargetIsPath(first: TextChange, path: string, second: string -> TextChange, third: TextChange,
      values: Bindings, disk: Disk, schedule: seq<nat>, seen: Bindings)
    requires var plan := EditPublished(first, path, second, third); Acyclic(Ups(plan)) && "target" !in values
    requires var plan := EditPublished(first, path, second, third);
      MayMeet(plan, values, RunOf(plan, values, disk, schedule), 1, seen) && "target" in seen
    ensures seen["target"] == Value({"str"}, path)
  {
    var plan := EditPublished(first, path, second, third);
    var e := RunOf(plan, values, disk, schedule);
    hide SysOk, RegistryOk, RunOf, EditPublished;
    var m := WherefromMet(plan, values, disk, schedule, 1, "target", seen);
    PublishedEntries(first, path, second, third, values, disk, schedule, m);
    hide *;
  }

  /** What a factory finds under a name that was not bound before the run, somebody has published. */
  lemma WherefromMet(plan: Plan<Disk>, values: Bindings, disk: Disk, schedule: seq<nat>, n: nat, x: string,
      seen: Bindings) returns (m: nat)
    requires Acyclic(Ups(plan)) && x !in values && x in seen
    requires MayMeet(plan, values, RunOf(plan, values, disk, schedule), n, seen)
    ensures (x, seen[x]) in Entries(RunOf(plan, values, disk, schedule), m)
  {
    var e := RunOf(plan, values, disk, schedule);
    if x in SeenBy(plan, values, e, n) {
      m := e.binder[x];
      hide SysOk, RegistryOk, RunOf, Ancestor, Entries;
      RegistryAccounts(plan, values, disk, schedule);
      BoundByEntry(plan, e, x);
    } else {
      hide SysOk, RunOf, Incomparable, SeenBy, Entries;
      m :| Incomparable(plan, n, m) && (x, seen[x]) in Entries(e, m);
    }
  }

  /** An instance with a variable: whatever path is published, if the third file is neither the first nor the
      one edited at that path, every run that comes to rest ends like the reference run. */
  lemma EditPublishedAgrees(first: TextChange, path: string, second: string -> TextChange, third: TextChange,
      values: Bindings, disk: Disk, schedule: seq<nat>)
    requires third.Path() != first.Path() && third.Path() != second(path).Path() && "target" !in values
    ensures var plan := EditPublished(first, path, second, third);
      && Acyclic(Ups(plan)) && AllReturn(plan)
      && (Complete(RunOf(plan, values, disk, schedule)) ==>
            RunOf(plan, values, disk, schedule) == Reference(plan, values, disk))
  {
    var plan, changes := EditPublished(first, path, second, third), [first, second(path), third];
    EditPublishedFacts(first, path, second, third);
    if Complete(RunOf(plan, values, disk, schedule)) {
      var reference := ReferenceIsARun(plan, values, disk);
      EditPublishedApart(first, path, second, third, values, disk, reference);
      EditPublishedReads(first, path, second, third, values, disk, reference);
      hide HeldApart, FactoriesEndAlike, RunOf, Reference, EditPublished, AllReturn, Acyclic;
      HeldTextsAgree(plan, changes, values, disk, schedule);
    }
  }

  lemma EditPublishedApart(first: TextChange, path: string, second: string -> TextChange, third: TextChange,
      values: Bindings, disk: Disk, schedule: seq<nat>)
    requires third.Path() != first.Path() && third.Path() != second(path).Path() && "target" !in values
    requires Acyclic(Ups(EditPublished(first, path, second, third)))
    ensures var plan := EditPublished(first, path, second, third);
      HeldApart(plan, [first, second(path), third], RunOf(plan, values, disk, schedule))
  {
    hide RunOf, OnDisk, AsksOnlyFor, Entries, AllReturn, Acyclic, Incomparable, EditPublished, HeldApart;
    var plan, changes := EditPublished(first, path, second, third), [first, second(path), third];
    var e := RunOf(plan, values, disk, schedule);
    EditPublishedFacts(first, path, second, third);
    HoldsPublishedEdit(first, path, second, third, values, disk, schedule);
    GivenInRun(plan, values, disk, schedule, 0);
    GivenInRun(plan, values, disk, schedule, 2);
    forall m: nat ensures Entries(e, m) == [] || m == 0 {
      PublishedEntries(first, path, second, third, values, disk, schedule, m);
    }
    ThirdIsApart(plan, changes, e);
  }

  /** Three nodes of which only the last is unordered with others, and only the first publishes. */
  lemma ThirdIsApart(plan: Plan<Disk>, changes: seq<TextChange>, e: Sys<Disk>)
    requires |plan| == |changes| == |e.changers| == 3
    requires forall n: nat :: n < 3 && e.changers[n].Some? ==> e.changers[n].value == OnDisk(n, changes[n])
    requires forall n: nat, m: nat :: Incomparable(plan, n, m) ==> (n == 2 && m < 2) || (m == 2 && n < 2)
    requires forall m: nat :: Entries(e, m) == [] || m == 0
    requires changes[2].Path() != changes[0].Path() && changes[2].Path() != changes[1].Path()
    ensures HeldApart(plan, changes, e)
  {
    hide OnDisk, Entries, Incomparable, NamesApart;
    forall n: nat, m: nat | Incomparable(plan, n, m) ensures NamesApart(Entries(e, n), Entries(e, m)) {
      OneHasNone(Entries(e, n), Entries(e, m));
    }
  }

  lemma OneHasNone(a: seq<(string, Value)>, b: seq<(string, Value)>)
    requires a == [] || b == []
    ensures NamesApart(a, b)
  {
  }

  lemma EditPublishedReads(first: TextChange, path: string, second: string -> TextChange, third: TextChange,
      values: Bindings, disk: Disk, schedule: seq<nat>)
    requires Acyclic(Ups(EditPublished(first, path, second, third)))
    ensures var plan := EditPublished(first, path, second, third);
      FactoriesEndAlike(plan, values, RunOf(plan, values, disk, schedule))
  {
    hide RunOf, OnDisk, AsksOnlyFor, Entries, AllReturn, EditPublished, Acyclic, FactoriesEndAlike, Incomparable;
    var plan := EditPublished(first, path, second, third);
    var e := RunOf(plan, values, disk, schedule);
    EditPublishedFacts(first, path, second, third);
    forall m: nat ensures Entries(e, m) == [] || m == 0 {
      PublishedEntries(first, path, second, third, values, disk, schedule, m);
    }
    OnlyReaderEndsAlike(plan, values, e);
  }

  /** The reads of the deferred second node are not disturbed by the third, which publishes nothing. */
  lemma OnlyReaderEndsAlike(plan: Plan<Disk>, values: Bindings, e: Sys<Disk>)
    requires |plan| == 3 && plan[0].body.Given? && plan[1].body.Deferred? && plan[2].body.Given?
    requires AsksOnlyFor(plan[1].body.factory, {"target"})
    requires forall m: nat :: Incomparable(plan, 1, m) ==> m == 2
    requires forall m: nat :: Entries(e, m) == [] || m == 0
    ensures FactoriesEndAlike(plan, values, e)
  {
    hide AsksOnlyFor, Entries, Incomparable, StaysOnPath, EndsAlike;
    assert forall x, v :: !ByOthers(plan, e, 1, x, v);
    hide ByOthers;
    NamesKeepOnPath(plan, values, e, 1, {"target"});
    PathEndsAlike(plan, values, e, 1);
  }

  lemma GivenInRun(plan: Plan<Disk>, values: Bindings, disk: Disk, schedule: seq<nat>, n: nat)
    requires Acyclic(Ups(plan)) && n < |plan| && plan[n].body.Given?
    ensures var e := RunOf(plan, values, disk, schedule);
      n < |e.changers| && e.changers[n] == Some(plan[n].body.changer)
  {
    var s, e := Start(plan, values, disk), RunOf(plan, values, disk, schedule);
    StartIsOnWay(plan, values, disk, schedule);
    WayFacts(plan, values, s, e);
    hide OnWay, SysOk, RegistryOk, GrownFrom, OnPath, RunOf, Start;
    GivenAreKept(plan, values, disk, e);
    assert KeepsGiven(plan[n], e.changers[n]);
  }

  // ---- two changes of one file ----

  /** A replacement, and a line inserted into a file, perhaps the same, afterwards. */
  function ReplaceThenInsert(r: R.Parameters, p: E.Parameters): Plan<Disk> {
    [Node([], Given(OnDisk(0, Replacing(r))), None), Node([0], Given(OnDisk(1, Ensuring(p))), None)]
  }

  /** If the needle has no separator and is not found in the line, then after a run that ended well both
      changes are there, and a second run does nothing. */
  lemma ReplaceThenInsertStays(r: R.Parameters, p: E.Parameters, values: Bindings, disk: Disk, first: seq<nat>,
      second: seq<nat>)
    requires SeparatorFree(r.match_.needle) && !Occurs(p.line, r.match_.needle)
    ensures var plan := ReplaceThenInsert(r, p);
      && Acyclic(Ups(plan))
      && (AllEligible(plan, RunOf(plan, values, disk, first)) ==>
            var s := RunOf(plan, values, disk, first);
            && Achieved(Replacing(r), s.world.entries) && Achieved(Ensuring(p), s.world.entries)
            && RunOf(plan, values, s.world, second).world == s.world)
  {
    var plan, changes := ReplaceThenInsert(r, p), [Replacing(r), Ensuring(p)];
    BothStay(r, p);
    hide TextPlan, ChangesStay, RunOf, ReplaceThenInsert, Acyclic, Achieved, AllEligible, Occurs, SeparatorFree;
    if AllEligible(plan, RunOf(plan, values, disk, first)) {
      TextSecondRunDoesNothing(plan, changes, values, disk, first, second);
      assert Achieved(changes[0], RunOf(plan, values, disk, first).world.entries);
      assert Achieved(changes[1], RunOf(plan, values, disk, first).world.entries);
    }
  }

  lemma BothStay(r: R.Parameters, p: E.Parameters)
    requires SeparatorFree(r.match_.needle) && !Occurs(p.line, r.match_.needle)
    ensures var plan, changes := ReplaceThenInsert(r, p), [Replacing(r), Ensuring(p)];
      |plan| == 2 && Acyclic(Ups(plan)) && TextPlan(plan, changes) && ChangesStay(plan, changes)
  {
    hide OnDisk, LaterSpares, Ancestor, Occurs, SeparatorFree, IgnoresResult;
    LaterInsertionSpares(r, p);
    var plan := ReplaceThenInsert(r, p);
    assert Ups(plan) == [[], [0]];
    AncestorFromUpstream(Ups(plan), 0, 0, 1);
  }
}
