/** Idempotence of whole runs: after a run in which everything succeeded or was applied already, a fresh
    engine over the same nodes finds everything applied and changes nothing. */
module SecondRun {
  import opened Outcomes
  import opened Registry
  import opened Workers
  import opened Dag
  import opened Scheduling
  import opened Machine
  import opened Accounts
  import opened Provenance

  // ---- the hypotheses, about the changers that the first run came to hold ----

  ghost predicate AssessOnlyLooks<W(!new)>(s: Sys<W>) {
    forall n: nat :: n < |s.changers| && s.changers[n].Some? ==> OnlyLooks(s.changers[n].value)
  }

  ghost predicate OnlyLooks<W(!new)>(c: Changer<W>) {
    forall w :: c.assess(w).1 == w
  }

  ghost predicate Applied<W>(c: Changer<W>, w: W) {
    c.assess(w).0.state == AlreadyApplied
  }

  /** What one node has applied, and what its callback returns then, is not disturbed by the transition of
      another that succeeded and is not above it. What is above it has transitioned before. */
  ghost predicate Undisturbed<W(!new)>(plan: Plan<W>, s: Sys<W>)
    requires |s.changers| == |plan|
  {
    forall n: nat, m: nat {:trigger s.changers[n], s.changers[m]} ::
      && n < |plan| && m < |plan| && n != m && !Ancestor(Ups(plan), m, n)
      && s.changers[n].Some? && s.changers[m].Some? && m in s.reports && s.reports[m].outcome == Success ==>
        Spares(plan[n], s.changers[n].value, s.changers[m].value)
  }

  ghost predicate Spares<W(!new)>(node: Node<W>, c: Changer<W>, d: Changer<W>) {
    forall w :: Applied(c, w) ==> Applied(c, d.transition(w).1) && ReturnsAlike(node, c, w, d.transition(w).1)
  }

  /** The callback returns the same in both worlds, given the same result. */
  ghost predicate ReturnsAlike<W>(node: Node<W>, c: Changer<W>, w: W, w': W) {
    node.publishes.Some? ==>
      forall r :: MakeCall(node, c, c.exposed(w), r).returned == MakeCall(node, c, c.exposed(w'), r).returned
  }

  /** Callbacks ignore the result they are given, at least where the node's state is applied. */
  ghost predicate PublishesAlike<W(!new)>(plan: Plan<W>, s: Sys<W>)
    requires |s.changers| == |plan|
  {
    forall n: nat :: n < |plan| && s.changers[n].Some? && plan[n].publishes.Some? ==>
      IgnoresResult(plan[n], s.changers[n].value)
  }

  ghost predicate IgnoresResult<W(!new)>(node: Node<W>, c: Changer<W>)
    requires node.publishes.Some?
  {
    forall w, a, b :: Applied(c, w) ==>
      MakeCall(node, c, c.exposed(w), a).returned == MakeCall(node, c, c.exposed(w), b).returned
  }

  ghost predicate AllEligible<W>(plan: Plan<W>, s: Sys<W>) {
    forall n: nat :: n < |plan| ==> n in s.reports && PublishEligible(s.reports[n].outcome)
  }

  // ---- what the first run leaves ----

  /** The worker has done its work: only its publishing can be outstanding. */
  predicate DoneLocal<W>(local: Local<W>) {
    local.Calling? || local.Publishing? || (local.Finished? && PublishEligible(local.report.outcome))
  }

  ghost predicate Done<W>(s: Sys<W>, n: nat) {
    || (n in s.workers && DoneLocal(s.workers[n]))
    || (n !in s.workers && n in s.reports && PublishEligible(s.reports[n].outcome))
  }

  /** The node's state is applied, and its callback, if it was called, would return the same now. */
  ghost predicate Holds<W>(node: Node<W>, changer: Option<Changer<W>>, call: Option<Call>, world: W) {
    && changer.Some? && Applied(changer.value, world)
    && (call.Some? ==>
          && node.publishes.Some?
          && var again := MakeCall(node, changer.value, changer.value.exposed(world), call.value.input);
             call.value.returned == again.returned)
  }

  ghost predicate SettledAt<W(!new)>(plan: Plan<W>, s: Sys<W>, n: nat, world: W)
    requires n < |plan| && n < |s.changers| && n < |s.calls|
  {
    Done(s, n) ==> Holds(plan[n], s.changers[n], s.calls[n], world)
  }

  ghost predicate Settled<W(!new)>(plan: Plan<W>, s: Sys<W>)
    requires |s.changers| == |s.calls| == |plan|
  {
    forall n: nat :: n < |plan| ==> SettledAt(plan, s, n, s.world)
  }

  /** What is settled about a node's outcome before it is reported: it will not be a good one, or not that of
      a node that was skipped as applied. */
  datatype Fate = NotWell | NotSkipped

  predicate Meets(fate: Fate, outcome: NodeOutcome) {
    match fate
    case NotWell => !PublishEligible(outcome)
    case NotSkipped => outcome != SkippedAlreadyApplied
  }

  predicate FatedLocal<W>(fate: Fate, local: Local<W>) {
    match local
    case Resolving(_) => false
    case Assessing => false
    case Transitioning(_) => fate.NotSkipped?
    case Verifying(_, _) => fate.NotSkipped?
    case Undoing(_) => true
    case Calling(report) => fate.NotSkipped? && Meets(fate, report.outcome)
    case Publishing(report, _, _) => fate.NotSkipped? && Meets(fate, report.outcome)
    case Finished(report) => Meets(fate, report.outcome)
  }

  ghost predicate Fated<W>(fate: Fate, s: Sys<W>, n: nat) {
    || (n in s.workers && FatedLocal(fate, s.workers[n]))
    || (n !in s.workers && n in s.reports && Meets(fate, s.reports[n].outcome))
  }

  lemma StepKeepsFate<W>(fate: Fate, node: Node<W>, c: Core<W>)
    requires WorkerOk(node, c.changer, c.local) && LocalOk(c.local) && FatedLocal(fate, c.local)
    ensures FatedLocal(fate, Step(node, c).local)
  {
  }

  lemma FateStays<W>(plan: Plan<W>, fate: Fate, s: Sys<W>, n: nat, k: nat)
    requires SysOk(plan, s) && Fated(fate, s, n)
    ensures Fated(fate, Turn(plan, s, k), n)
  {
    hide SysOk, WorkerTurn;
    if k in s.workers {
      WorkerFacts(plan, s, k);
      if s.workers[k].Finished? {
        AbsorbedReports(plan, s, k);
        WorkersAndReports(plan, Turn(plan, s, k), n);
        if n in s.workers && n != k {
          OthersStayInFlight(plan, s, k, n);
        }
        hide Turn;
      } else {
        WorkerKeepsFate(plan, fate, s, n, k);
        hide AbsorbTurn;
      }
    }
  }

  lemma WorkerKeepsFate<W>(plan: Plan<W>, fate: Fate, s: Sys<W>, n: nat, k: nat)
    requires SysOk(plan, s) && Fated(fate, s, n) && k in s.workers
    ensures Fated(fate, WorkerTurn(plan, s, k), n)
  {
    WorkerFacts(plan, s, k);
    hide SysOk, Step, WorkerOk, LocalOk, FatedLocal, Meets;
    if n == k && FatedLocal(fate, s.workers[k]) {
      StepKeepsFate(fate, plan[k], CoreOf(plan, s, k));
    }
    WorkersAndReports(plan, s, n);
  }

  lemma WorkersAndReports<W>(plan: Plan<W>, s: Sys<W>, n: nat)
    requires SysOk(plan, s)
    ensures n in s.reports ==> n !in s.workers
  {
  }

  /** The report that a node gives in the end is as it was settled. */
  lemma {:induction false} FateIsMet<W>(plan: Plan<W>, fate: Fate, s: Sys<W>, schedule: seq<nat>, n: nat)
    requires SysOk(plan, s) && Fated(fate, s, n) && n in Exec(plan, s, schedule).reports
    ensures Meets(fate, Exec(plan, s, schedule).reports[n].outcome)
    decreases |schedule|
  {
    if schedule == [] {
      WorkersAndReports(plan, s, n);
      hide SysOk;
    } else {
      hide SysOk, Turn, Fated, Meets;
      FateStays(plan, fate, s, n, schedule[0]);
      FateIsMet(plan, fate, Turn(plan, s, schedule[0]), schedule[1..], n);
    }
  }

  /** In a run that ends well nothing is rolled back, and only nodes that end with success transition. */
  lemma NobodyIsDoomed<W>(plan: Plan<W>, s: Sys<W>, schedule: seq<nat>, n: nat)
    requires SysOk(plan, s) && AllEligible(plan, Exec(plan, s, schedule)) && n in s.workers
    ensures !s.workers[n].Undoing?
    ensures s.workers[n].Transitioning? ==>
              n in Exec(plan, s, schedule).reports && Exec(plan, s, schedule).reports[n].outcome == Success
  {
    WorkerFacts(plan, s, n);
    hide SysOk, Exec;
    if s.workers[n].Undoing? {
      FateIsMet(plan, NotWell, s, schedule, n);
    }
    if s.workers[n].Transitioning? {
      FateIsMet(plan, NotSkipped, s, schedule, n);
    }
  }

  lemma StepSettles<W(!new)>(node: Node<W>, c: Core<W>)
    requires WorkerOk(node, c.changer, c.local) && LocalOk(c.local) && !c.local.Finished?
    requires c.changer.Some? ==> OnlyLooks(c.changer.value)
    requires if DoneLocal(c.local) then Holds(node, c.changer, c.call, c.world) else c.call.None?
    ensures var d := Step(node, c); DoneLocal(d.local) ==> Holds(node, d.changer, d.call, d.world)
  {
  }

  lemma StepSpares<W(!new)>(node: Node<W>, c: Core<W>, other: Node<W>, changer: Option<Changer<W>>,
      call: Option<Call>)
    requires WorkerOk(node, c.changer, c.local) && !c.local.Undoing?
    requires Holds(other, changer, call, c.world)
    requires c.changer.Some? ==> OnlyLooks(c.changer.value)
    requires c.local.Transitioning? ==> Spares(other, changer.value, c.changer.value)
    ensures Holds(other, changer, call, Step(node, c).world)
  {
  }

  lemma HeldOnlyLooks<W(!new)>(plan: Plan<W>, values0: Bindings, s: Sys<W>, e: Sys<W>, n: nat)
    requires Toward(plan, values0, s, e) && AssessOnlyLooks(e) && n < |plan| && s.changers[n].Some?
    ensures OnlyLooks(s.changers[n].value)
  {
    hide SeenBy, Started, OnlyLooks;
  }

  lemma HeldSpare<W(!new)>(plan: Plan<W>, values0: Bindings, s: Sys<W>, e: Sys<W>, n: nat, k: nat)
    requires Toward(plan, values0, s, e) && Undisturbed(plan, e) && n < |plan| && k < |plan| && n != k
    requires !Ancestor(Ups(plan), k, n) && s.changers[n].Some? && s.changers[k].Some?
    requires k in e.reports && e.reports[k].outcome == Success
    ensures Spares(plan[n], s.changers[n].value, s.changers[k].value)
  {
    hide SeenBy, Started, Spares, Ancestor;
  }

  lemma OwnWorkSettles<W(!new)>(plan: Plan<W>, values0: Bindings, s: Sys<W>, e: Sys<W>, k: nat)
    requires SysOk(plan, s) && RegistryOk(plan, s) && Toward(plan, values0, s, e) && Settled(plan, s)
    requires AssessOnlyLooks(e) && k in s.workers && !s.workers[k].Finished?
    ensures var s' := WorkerTurn(plan, s, k);
      k < |plan| == |s'.changers| == |s'.calls| && SettledAt(plan, s', k, s'.world)
  {
    hide SysOk, RegistryOk, Toward, AssessOnlyLooks;
    WorkerFacts(plan, s, k);
    NoCallYet(plan, s, k);
    assert SettledAt(plan, s, k, s.world);
    if s.changers[k].Some? {
      HeldOnlyLooks(plan, values0, s, e, k);
    }
    hide OnlyLooks, Holds;
    StepSettles(plan[k], CoreOf(plan, s, k));
    hide Step, WorkerOk, LocalOk, DoneLocal;
  }

  lemma TransitionerHolds<W>(node: Node<W>, changer: Option<Changer<W>>, local: Local<W>)
    requires WorkerOk(node, changer, local) && local.Transitioning?
    ensures changer.Some?
  {
  }

  /** Only a node that has done its work has called back. */
  lemma NoCallYet<W>(plan: Plan<W>, s: Sys<W>, k: nat)
    requires SysOk(plan, s) && RegistryOk(plan, s) && k in s.workers && !s.workers[k].Finished?
    ensures k < |s.calls| && (!DoneLocal(s.workers[k]) ==> s.calls[k].None?)
  {
    WorkerFacts(plan, s, k);
    AccountOf(plan, s, k);
    hide SysOk, RegistryOk, BoundExactly, WorkerOk, LocalOk;
  }

  /** A node that has done its work has started, so what is above it is no longer in flight. */
  lemma NotAboveDone<W>(plan: Plan<W>, s: Sys<W>, n: nat, k: nat)
    requires SysOk(plan, s) && Done(s, n) && k in s.workers
    ensures !Ancestor(Ups(plan), k, n)
  {
    hide SysOk, Ancestor;
    assert Started(s, n);
    if Ancestor(Ups(plan), k, n) {
      AncestorsAreGood(plan, s, n, k);
    }
  }

  /** A node in flight that is not rolling back, and if it transitions will end with success. */
  ghost predicate EndsWell<W>(s: Sys<W>, e: Sys<W>, k: nat) {
    k in s.workers ==>
      && !s.workers[k].Undoing?
      && (s.workers[k].Transitioning? ==> k in e.reports && e.reports[k].outcome == Success)
  }

  lemma OthersStaySettled<W(!new)>(plan: Plan<W>, values0: Bindings, s: Sys<W>, e: Sys<W>, k: nat, n: nat)
    requires SysOk(plan, s) && Toward(plan, values0, s, e) && Settled(plan, s)
    requires AssessOnlyLooks(e) && |e.changers| == |plan| && Undisturbed(plan, e)
    requires k in s.workers && !s.workers[k].Finished? && EndsWell(s, e, k) && n < |plan| && n != k
    ensures var s' := WorkerTurn(plan, s, k); n < |s'.changers| == |s'.calls| && SettledAt(plan, s', n, s'.world)
  {
    hide SysOk, Toward, AssessOnlyLooks, Undisturbed, Step, WorkerOk, LocalOk, DoneLocal, Spares, OnlyLooks, Ancestor;
    WorkerFacts(plan, s, k);
    assert SettledAt(plan, s, n, s.world);
    if Done(s, n) {
      NotAboveDone(plan, s, n, k);
      if s.changers[k].Some? {
        HeldOnlyLooks(plan, values0, s, e, k);
      }
      if s.workers[k].Transitioning? {
        TransitionerHolds(plan[k], s.changers[k], s.workers[k]);
        HeldSpare(plan, values0, s, e, n, k);
      }
      StepSpares(plan[k], CoreOf(plan, s, k), plan[n], s.changers[n], s.calls[n]);
    }
    hide Holds;
  }

  lemma AbsorbedStaySettled<W(!new)>(plan: Plan<W>, s: Sys<W>, k: nat, n: nat)
    requires SysOk(plan, s) && Settled(plan, s) && k in s.workers && s.workers[k].Finished? && n < |plan|
    ensures var s' := Turn(plan, s, k); n < |s'.changers| == |s'.calls| && SettledAt(plan, s', n, s'.world)
  {
    assert SettledAt(plan, s, n, s.world);
    SameLength(plan, s);
    hide SysOk, Settled, Turn, Holds, LocalOk;
    AbsorbedReports(plan, s, k);
    WorkersAndReports(plan, s, n);
    WorkersAndReports(plan, Turn(plan, s, k), n);
    if Done(Turn(plan, s, k), n) {
      DoneBefore(plan, s, Turn(plan, s, k), k, n);
    }
    hide Done;
  }

  /** Absorbing completes nobody's work. */
  lemma DoneBefore<W>(plan: Plan<W>, s: Sys<W>, s': Sys<W>, k: nat, n: nat)
    requires k in s.workers && s.workers[k].Finished? && Done(s', n)
    requires n in s.reports ==> n !in s.workers
    requires forall m: nat :: m in s'.reports ==>
               if m == k then s'.reports[m] == s.workers[k].report
               else if m in s.reports then s'.reports[m] == s.reports[m]
               else BlockedAt(s'.reports, m) && m !in s.workers
    requires forall m: nat :: m in s'.workers ==>
               if m in s.workers then s'.workers[m] == s.workers[m]
               else m < |plan| && s'.workers[m] == Initial(plan[m]).1
    ensures Done(s, n)
  {
  }

  lemma TurnKeepsSettled<W(!new)>(plan: Plan<W>, values0: Bindings, s: Sys<W>, e: Sys<W>, k: nat)
    requires SysOk(plan, s) && RegistryOk(plan, s) && Toward(plan, values0, s, e) && Settled(plan, s)
    requires AssessOnlyLooks(e) && |e.changers| == |plan| && Undisturbed(plan, e) && EndsWell(s, e, k)
    ensures |Turn(plan, s, k).changers| == |Turn(plan, s, k).calls| == |plan| && Settled(plan, Turn(plan, s, k))
  {
    SameLength(plan, Turn(plan, s, k));
    hide SysOk, RegistryOk, Toward, AssessOnlyLooks, Undisturbed, SettledAt, WorkerTurn, AbsorbTurn;
    var s' := Turn(plan, s, k);
    forall n: nat | n < |plan| ensures SettledAt(plan, s', n, s'.world) {
      if k !in s.workers {
        assert SettledAt(plan, s, n, s.world);
      } else if s.workers[k].Finished? {
        AbsorbedStaySettled(plan, s, k, n);
      } else if n == k {
        OwnWorkSettles(plan, values0, s, e, k);
      } else {
        OthersStaySettled(plan, values0, s, e, k, n);
      }
    }
  }

  lemma {:induction false} ExecKeepsSettled<W(!new)>(plan: Plan<W>, values0: Bindings, s: Sys<W>, schedule: seq<nat>)
    requires SysOk(plan, s) && RegistryOk(plan, s) && GrownFrom(values0, s)
    requires |s.changers| == |s.calls| == |plan| && Settled(plan, s)
    requires var e := Exec(plan, s, schedule);
      AssessOnlyLooks(e) && |e.changers| == |plan| && Undisturbed(plan, e) && AllEligible(plan, e)
    ensures var e := Exec(plan, s, schedule); |e.changers| == |e.calls| == |plan| && Settled(plan, e)
    decreases |schedule|
  {
    hide SysOk, RegistryOk, GrownFrom, Settled, Turn, AssessOnlyLooks, Undisturbed, AllEligible, Toward;
    if schedule != [] {
      var k := schedule[0];
      ExecIsToward(plan, values0, s, schedule);
      if k in s.workers {
        NobodyIsDoomed(plan, s, schedule, k);
      }
      TurnKeepsSettled(plan, values0, s, Exec(plan, s, schedule), k);
      TurnKeepsRegistryOk(plan, s, k);
      TurnKeepsGrownFrom(plan, values0, s, k);
      ExecKeepsSettled(plan, values0, Turn(plan, s, k), schedule[1..]);
    }
  }

  // ---- the second run ----

  /** s is the end of a first run in which every node succeeded or was skipped as applied, and the changers
      it came to hold are as the second run needs them. */
  ghost predicate AllApplied<W(!new)>(plan: Plan<W>, values0: Bindings, s: Sys<W>) {
    && OnWay(plan, values0, s, s) && |s.changers| == |s.calls| == |plan| && Settled(plan, s) && AllEligible(plan, s)
    && AssessOnlyLooks(s) && PublishesAlike(plan, s) && FactoriesEndAlike(plan, values0, s)
    && forall n: nat :: n < |plan| ==> KeepsGiven(plan[n], s.changers[n])
  }

  predicate OnlySkips<W>(local: Local<W>) {
    match local
    case Resolving(_) => true
    case Assessing => true
    case Calling(report) => report.outcome == SkippedAlreadyApplied
    case Publishing(report, _, _) => report.outcome == SkippedAlreadyApplied
    case Finished(report) => report.outcome == SkippedAlreadyApplied
    case _ => false
  }

  /** Where node n of the second run has got, it has repeated what the first run did. */
  ghost predicate RepeatsAt<W>(s: Sys<W>, changer: Option<Changer<W>>, call: Option<Call>, n: nat)
    requires n < |s.changers| && n < |s.calls|
  {
    && (changer.Some? ==> changer == s.changers[n])
    && (call.Some? ==> s.calls[n].Some? && call.value.returned == s.calls[n].value.returned)
  }

  /** t, a state of the second run, has only repeated what the first run found out. */
  ghost predicate Repeats<W>(plan: Plan<W>, s: Sys<W>, t: Sys<W>)
    requires |s.changers| == |s.calls| == |plan|
  {
    && t.world == s.world && |t.changers| == |t.calls| == |plan|
    && (forall n: nat :: n in t.reports ==> t.reports[n].outcome == SkippedAlreadyApplied)
    && (forall n: nat :: n in t.workers ==> OnlySkips(t.workers[n]))
    && (forall n: nat :: n < |plan| ==> RepeatsAt(s, t.changers[n], t.calls[n], n))
  }

  /** t is a reachable state of the second run, as far as it can be told apart from the first. */
  ghost predicate Again<W>(plan: Plan<W>, values0: Bindings, s: Sys<W>, t: Sys<W>)
    requires |s.changers| == |s.calls| == |plan|
  {
    && SysOk(plan, t) && RegistryOk(plan, t) && GrownFrom(values0, t) && Repeats(plan, s, t)
    && forall n: nat :: n < |plan| ==> OnPath(plan, values0, t, s, n)
  }

  lemma AllAppliedFacts<W(!new)>(plan: Plan<W>, values0: Bindings, s: Sys<W>, n: nat)
    requires AllApplied(plan, values0, s) && n < |plan|
    ensures SysOk(plan, s) && RegistryOk(plan, s) && GrownFrom(values0, s) && OnPath(plan, values0, s, s, n)
    ensures n in s.reports && n !in s.workers && PublishEligible(s.reports[n].outcome)
    ensures s.changers[n].Some? && Applied(s.changers[n].value, s.world) && OnlyLooks(s.changers[n].value)
    ensures Holds(plan[n], s.changers[n], s.calls[n], s.world) && KeepsGiven(plan[n], s.changers[n])
  {
    WayFacts(plan, values0, s, s);
    WorkersAndReports(plan, s, n);
    hide OnWay, SysOk, RegistryOk, GrownFrom, OnPath, FactoriesEndAlike, PublishesAlike, Applied, OnlyLooks;
    assert SettledAt(plan, s, n, s.world);
  }

  /** A node that ended well has bound exactly the entries its callback returned. */
  lemma EndedWell<W>(plan: Plan<W>, s: Sys<W>, n: nat)
    requires SysOk(plan, s) && RegistryOk(plan, s) && n < |plan| && n < |s.calls|
    requires n in s.reports && n !in s.workers && PublishEligible(s.reports[n].outcome)
    ensures BoundExactly(s.values, s.binder, n, Entries(s, n))
    ensures plan[n].publishes.Some? <==> s.calls[n].Some?
    ensures s.calls[n].Some? ==> s.calls[n].value.returned.Mapping?
  {
    AccountOf(plan, s, n);
    hide SysOk, RegistryOk, BoundExactly;
  }

  lemma SameEntries<W>(plan: Plan<W>, s: Sys<W>, t: Sys<W>, n: nat)
    requires |s.changers| == |s.calls| == |plan| && Repeats(plan, s, t) && n < |plan|
    requires t.calls[n].Some? || s.calls[n].None?
    ensures Entries(t, n) == Entries(s, n)
  {
    assert RepeatsAt(s, t.changers[n], t.calls[n], n);
    hide OnlySkips;
  }

  /** An ancestor of a node in flight in the second run has bound there what it bound in the first. */
  lemma AncestorsRepeat<W(!new)>(plan: Plan<W>, values0: Bindings, s: Sys<W>, t: Sys<W>, n: nat, a: nat)
    requires AllApplied(plan, values0, s) && Again(plan, values0, s, t)
    requires n in t.workers && Ancestor(Ups(plan), a, n)
    ensures a < |plan| && BoundExactly(s.values, s.binder, a, Entries(s, a))
    ensures BoundExactly(t.values, t.binder, a, Entries(s, a))
  {
    assert Started(t, n);
    AncestorsAreGood(plan, t, n, a);
    AllAppliedFacts(plan, values0, s, a);
    assert t.reports[a].outcome == SkippedAlreadyApplied && |t.calls| == |plan|;
    hide AllApplied, SysOk, RegistryOk, GrownFrom, Repeats, OnPath, Ancestor, BoundExactly, Applied, OnlyLooks,
        Entries;
    EndedWell(plan, s, a);
    EndedWell(plan, t, a);
    SameEntries(plan, s, t, a);
  }

  lemma AncestorBindingRepeats<W(!new)>(plan: Plan<W>, values0: Bindings, s: Sys<W>, t: Sys<W>, n: nat, x: string)
    requires AllApplied(plan, values0, s) && Again(plan, values0, s, t)
    requires n in t.workers && x in s.binder && Ancestor(Ups(plan), s.binder[x], n)
    ensures x in s.values && x in t.values && t.values[x] == s.values[x]
  {
    var a := s.binder[x];
    AncestorsRepeat(plan, values0, s, t, n, a);
    hide AllApplied, Again, Ancestor, Entries;
    var j :| 0 <= j < |Entries(s, a)| && Entries(s, a)[j].0 == x;
  }

  /** In the second run a factory meets a registry like those it may have met in the first. */
  lemma MeetsAgain<W(!new)>(plan: Plan<W>, values0: Bindings, s: Sys<W>, t: Sys<W>, n: nat)
    requires AllApplied(plan, values0, s) && Again(plan, values0, s, t)
    requires n in t.workers && t.workers[n].Resolving?
    ensures MayMeet(plan, values0, s, n, t.values)
  {
    var seen := SeenBy(plan, values0, s, n);
    forall x
      ensures x in seen ==> x in t.values && t.values[x] == seen[x]
      ensures x in t.values && x !in seen ==> ByOthers(plan, s, n, x, t.values[x])
    {
      if x in seen {
        SeenAgain(plan, values0, s, t, n, x);
      } else if x in t.values {
        BoundAgain(plan, values0, s, t, n, x);
      }
    }
    hide AllApplied, Again, SeenBy, ByOthers;
  }

  lemma SeenAgain<W(!new)>(plan: Plan<W>, values0: Bindings, s: Sys<W>, t: Sys<W>, n: nat, x: string)
    requires AllApplied(plan, values0, s) && Again(plan, values0, s, t) && n in t.workers
    requires x in SeenBy(plan, values0, s, n)
    ensures x in t.values && t.values[x] == SeenBy(plan, values0, s, n)[x]
  {
    WayFacts(plan, values0, s, s);
    hide OnWay, SysOk, RegistryOk, Ancestor, Repeats, OnPath, Settled, AssessOnlyLooks, PublishesAlike,
        FactoriesEndAlike, Toward;
    if x !in values0 {
      AncestorBindingRepeats(plan, values0, s, t, n, x);
    }
  }

  lemma BoundAgain<W(!new)>(plan: Plan<W>, values0: Bindings, s: Sys<W>, t: Sys<W>, n: nat, x: string)
    requires AllApplied(plan, values0, s) && Again(plan, values0, s, t)
    requires n in t.workers && t.workers[n].Resolving? && x in t.values && x !in SeenBy(plan, values0, s, n)
    ensures ByOthers(plan, s, n, x, t.values[x])
  {
    BoundInSecond(plan, values0, s, t, n, x);
    var m := t.binder[x];
    if Ancestor(Ups(plan), m, n) {
      AncestorsRepeat(plan, values0, s, t, n, m);
    }
    hide AllApplied, Repeats, RegistryOk, SysOk, GrownFrom, OnPath, SeenBy, Ancestor, Entries;
    StartedIncomparable(plan, t, n, m);
  }

  lemma BoundInSecond<W(!new)>(plan: Plan<W>, values0: Bindings, s: Sys<W>, t: Sys<W>, n: nat, x: string)
    requires AllApplied(plan, values0, s) && Again(plan, values0, s, t)
    requires n in t.workers && t.workers[n].Resolving? && x in t.values && x !in SeenBy(plan, values0, s, n)
    ensures x in t.binder && t.binder[x] < |plan| && t.binder[x] != n && Started(t, t.binder[x])
    ensures (x, t.values[x]) in Entries(s, t.binder[x])
  {
    WayFacts(plan, values0, s, s);
    assert x in t.binder by {
      hide OnWay, SysOk, RegistryOk, Ancestor, Repeats, OnPath, Settled, AssessOnlyLooks, PublishesAlike,
          FactoriesEndAlike, Toward;
    }
    hide OnWay, AllApplied, SysOk, RegistryOk, Ancestor, Repeats, OnPath, GrownFrom, SeenBy, Toward;
    BoundByEntry(plan, t, x);
    var m := t.binder[x];
    assert t.calls[m].Some?;
    SameEntries(plan, s, t, m);
  }

  lemma EndsAsBefore<W(!new)>(plan: Plan<W>, values0: Bindings, s: Sys<W>, n: nat)
    requires AllApplied(plan, values0, s) && n < |plan|
    ensures plan[n].body.Deferred? ==> EndsAlike(plan, values0, s, n)
  {
    AllAppliedFacts(plan, values0, s, n);
    assert Started(s, n);
    hide OnWay, Settled, EndsAlike, Holds, SysOk, RegistryOk;
  }

  /** The factory produces what it produced the first time. */
  lemma ProducesTheSame<W(!new)>(plan: Plan<W>, values0: Bindings, s: Sys<W>, t: Sys<W>, n: nat)
    requires AllApplied(plan, values0, s) && Again(plan, values0, s, t)
    requires n in t.workers && t.workers[n].Resolving? && !t.workers[n].factory.Ask?
    ensures n < |plan| && s.changers[n].Some? && t.workers[n].factory == Produce(s.changers[n].value)
  {
    WorkerFacts(plan, t, n);
    AllAppliedFacts(plan, values0, s, n);
    assert OnPath(plan, values0, t, s, n);
    EndsAsBefore(plan, values0, s, n);
    hide AllApplied, SysOk, RegistryOk, Repeats, GrownFrom, LedTo, EndsAlike, Applied, OnlyLooks, Holds;
    LedToOneEnd(plan, values0, s, n, t.values, t.workers[n].factory, s.values, Produce(s.changers[n].value));
  }

  /** In the second run no entry is refused. */
  lemma NothingIsRefused<W(!new)>(plan: Plan<W>, values0: Bindings, s: Sys<W>, t: Sys<W>, n: nat)
    requires AllApplied(plan, values0, s) && Again(plan, values0, s, t)
    requires n in t.workers && t.workers[n].Publishing? && t.workers[n].next < |t.workers[n].items|
    ensures t.workers[n].items[t.workers[n].next].0 !in t.values
  {
    var items, next := t.workers[n].items, t.workers[n].next;
    var x := items[next].0;
    PublishesEntries(plan, values0, s, t, n);
    assert x in s.binder && s.binder[x] == n by {
      hide AllApplied, Again;
      assert Entries(s, n)[next].0 == x;
    }
    if x in t.values {
      hide OnPath, RegistryOk, SysOk, Repeats, Entries, BoundExactly;
      NotBoundBefore(plan, values0, s, t, n, x);
      FirstRunBinder(plan, values0, s, t, x);
      hide AllApplied, Again;
      OwnNextIsFree(t.values, t.binder, n, items, next);
    }
  }

  lemma OwnNextIsFree(values: Bindings, binder: map<string, nat>, n: nat, items: Items, next: nat)
    requires next < |items| && BoundExactly(values, binder, n, items[..next])
    ensures items[next].0 in binder ==> binder[items[next].0] != n
  {
  }

  lemma PublishesEntries<W(!new)>(plan: Plan<W>, values0: Bindings, s: Sys<W>, t: Sys<W>, n: nat)
    requires AllApplied(plan, values0, s) && Again(plan, values0, s, t)
    requires n in t.workers && t.workers[n].Publishing?
    ensures n < |plan| && t.workers[n].items == Entries(s, n) && t.workers[n].next <= |t.workers[n].items|
    ensures BoundExactly(s.values, s.binder, n, Entries(s, n))
    ensures BoundExactly(t.values, t.binder, n, t.workers[n].items[..t.workers[n].next])
  {
    WorkerFacts(plan, t, n);
    AccountOf(plan, t, n);
    AllAppliedFacts(plan, values0, s, n);
    hide AllApplied, SysOk, RegistryOk, Repeats, GrownFrom, OnPath, BoundExactly, CallOk, Applied, OnlyLooks;
    EndedWell(plan, s, n);
    SameEntries(plan, s, t, n);
  }

  /** A name a node publishes was not bound before the run. */
  lemma NotBoundBefore<W(!new)>(plan: Plan<W>, values0: Bindings, s: Sys<W>, t: Sys<W>, n: nat, x: string)
    requires AllApplied(plan, values0, s) && Again(plan, values0, s, t) && x in s.binder && x in t.values
    ensures x in t.binder
  {
    WayFacts(plan, values0, s, s);
    hide OnWay, SysOk, RegistryOk, Repeats, OnPath, Settled, AssessOnlyLooks, PublishesAlike, FactoriesEndAlike,
        Toward;
  }

  /** Whoever binds a name in the second run bound it in the first. */
  lemma FirstRunBinder<W(!new)>(plan: Plan<W>, values0: Bindings, s: Sys<W>, t: Sys<W>, x: string)
    requires AllApplied(plan, values0, s) && Again(plan, values0, s, t) && x in t.binder
    ensures x in s.binder && s.binder[x] == t.binder[x]
  {
    var m := t.binder[x];
    BoundByEntry(plan, t, x);
    AllAppliedFacts(plan, values0, s, m);
    hide AllApplied, SysOk, RegistryOk, Repeats, GrownFrom, OnPath, Applied, OnlyLooks;
    EndedWell(plan, s, m);
    assert t.calls[m].Some?;
    SameEntries(plan, s, t, m);
    var j :| 0 <= j < |Entries(s, m)| && Entries(s, m)[j] == (x, t.values[x]);
  }

  /** The callback returns what it returned the first time. */
  lemma ReturnsTheSame<W(!new)>(plan: Plan<W>, values0: Bindings, s: Sys<W>, n: nat, input: Result)
    requires AllApplied(plan, values0, s) && n < |plan| && plan[n].publishes.Some?
    ensures s.changers[n].Some? && s.calls[n].Some? && s.calls[n].value.returned.Mapping?
    ensures MakeCall(plan[n], s.changers[n].value, s.changers[n].value.exposed(s.world), input).returned
         == s.calls[n].value.returned
  {
    AllAppliedFacts(plan, values0, s, n);
    assert IgnoresResult(plan[n], s.changers[n].value);
    hide AllApplied, SysOk, RegistryOk, GrownFrom, OnPath, OnlyLooks, BoundExactly;
    EndedWell(plan, s, n);
  }

  // ---- one step of the second run ----

  /** A step that meets what the first run met only skips. */
  lemma StepSkips<W>(node: Node<W>, c: Core<W>, s: Sys<W>, n: nat)
    requires n < |s.changers| && n < |s.calls| && RepeatsAt(s, c.changer, c.call, n)
    requires WorkerOk(node, c.changer, c.local) && OnlySkips(c.local) && !c.local.Finished?
    requires c.local.Resolving? && !c.local.factory.Ask? ==>
               s.changers[n].Some? && c.local.factory == Produce(s.changers[n].value)
    requires c.local.Assessing? ==> Applied(c.changer.value, c.world) && c.changer.value.assess(c.world).1 == c.world
    requires c.local.Calling? ==>
               && s.calls[n].Some? && s.calls[n].value.returned.Mapping?
               && var call := MakeCall(node, c.changer.value, c.changer.value.exposed(c.world),
                                       PublishInput(c.local.report));
                  call.returned == s.calls[n].value.returned
    requires c.local.Publishing? && c.local.next < |c.local.items| ==> c.local.items[c.local.next].0 !in c.values
    ensures var d := Step(node, c);
      OnlySkips(d.local) && d.world == c.world && RepeatsAt(s, d.changer, d.call, n)
  {
    hide MakeCall;
  }

  lemma RepeatedStep<W(!new)>(plan: Plan<W>, values0: Bindings, s: Sys<W>, t: Sys<W>, k: nat)
    requires AllApplied(plan, values0, s) && Again(plan, values0, s, t) && k in t.workers && !t.workers[k].Finished?
    ensures SysOk(plan, t) && k < |plan|
    ensures var d := Step(plan[k], CoreOf(plan, t, k));
      OnlySkips(d.local) && d.world == s.world && RepeatsAt(s, d.changer, d.call, k)
  {
    WorkerFacts(plan, t, k);
    AllAppliedFacts(plan, values0, s, k);
    assert RepeatsAt(s, t.changers[k], t.calls[k], k) && OnlySkips(t.workers[k]) && t.world == s.world;
    match t.workers[k] {
      case Resolving(factory) =>
        if !factory.Ask? {
          ProducesTheSame(plan, values0, s, t, k);
        }
      case Calling(report) => ReturnsTheSame(plan, values0, s, k, PublishInput(report));
      case Publishing(_, items, next) =>
        if next < |items| {
          NothingIsRefused(plan, values0, s, t, k);
        }
      case _ =>
    }
    hide AllApplied, Again, Step, Applied, LocalOk, MakeCall, SysOk, RegistryOk, GrownFrom, OnPath;
    assert OnlyLooks(s.changers[k].value);
    StepSkips(plan[k], CoreOf(plan, t, k), s, k);
  }

  lemma WorkRepeats<W(!new)>(plan: Plan<W>, values0: Bindings, s: Sys<W>, t: Sys<W>, k: nat)
    requires AllApplied(plan, values0, s) && Again(plan, values0, s, t) && k in t.workers && !t.workers[k].Finished?
    requires SysOk(plan, t)
    ensures |s.changers| == |s.calls| == |plan| && Repeats(plan, s, WorkerTurn(plan, t, k))
  {
    assert |s.changers| == |s.calls| == |plan| && Repeats(plan, s, t);
    assert |t.changers| == |t.calls| == |plan|;
    hide AllApplied, Again, SysOk, Step, OnlySkips, RepeatsAt, With, Repeats;
    RepeatedStep(plan, values0, s, t, k);
    WithRepeats(plan, s, t, k, Step(plan[k], CoreOf(plan, t, k)));
  }

  lemma WithRepeats<W>(plan: Plan<W>, s: Sys<W>, t: Sys<W>, k: nat, d: Core<W>)
    requires |s.changers| == |s.calls| == |plan| && Repeats(plan, s, t) && k < |plan|
    requires OnlySkips(d.local) && d.world == s.world && RepeatsAt(s, d.changer, d.call, k)
    ensures Repeats(plan, s, With(t, k, d))
  {
    hide OnlySkips, RepeatsAt;
  }

  lemma AbsorbRepeats<W(!new)>(plan: Plan<W>, values0: Bindings, s: Sys<W>, t: Sys<W>, k: nat)
    requires |s.changers| == |s.calls| == |plan| && Again(plan, values0, s, t)
    requires k in t.workers && t.workers[k].Finished? && SysOk(plan, t)
    ensures Repeats(plan, s, Turn(plan, t, k))
  {
    hide SysOk, RegistryOk, GrownFrom, OnPath, RepeatsAt;
    WorkerFacts(plan, t, k);
    SkippedAddsNothing(plan, t, k);
    AbsorbedReports(plan, t, k);
    hide Turn, LocalOk, WorkerOk;
  }

  lemma SkippedAddsNothing<W>(plan: Plan<W>, t: Sys<W>, k: nat)
    requires SysOk(plan, t) && k in t.workers && t.workers[k].Finished?
    requires t.workers[k].report.outcome == SkippedAlreadyApplied
    ensures Turn(plan, t, k).reports == t.reports[k := t.workers[k].report]
  {
    WorkerFacts(plan, t, k);
    hide SysOk, WorkerTurn;
    AbsorbRunsOne(Ups(plan), Names(plan), t.reports, k, t.workers[k].report);
  }

  lemma TurnRepeats<W(!new)>(plan: Plan<W>, values0: Bindings, s: Sys<W>, t: Sys<W>, k: nat)
    requires AllApplied(plan, values0, s) && Again(plan, values0, s, t) && SysOk(plan, t)
    ensures Repeats(plan, s, Turn(plan, t, k))
  {
    assert Repeats(plan, s, t);
    assert |s.changers| == |s.calls| == |plan|;
    hide SysOk, AllApplied, Again, Repeats, AbsorbTurn, WorkerTurn;
    if k in t.workers {
      if t.workers[k].Finished? {
        AbsorbRepeats(plan, values0, s, t, k);
      } else {
        WorkRepeats(plan, values0, s, t, k);
      }
    }
  }

  lemma TurnIsAgain<W(!new)>(plan: Plan<W>, values0: Bindings, s: Sys<W>, t: Sys<W>, k: nat)
    requires AllApplied(plan, values0, s) && Again(plan, values0, s, t) && SysOk(plan, t)
    ensures Again(plan, values0, s, Turn(plan, t, k))
  {
    TurnRepeats(plan, values0, s, t, k);
    if k in t.workers && t.workers[k].Resolving? {
      MeetsAgain(plan, values0, s, t, k);
    }
    assert |s.changers| == |s.calls| == |plan| && |t.changers| == |plan|;
    hide SysOk, AllApplied, RegistryOk, GrownFrom, Repeats, OnPath, Turn, MayMeet;
    TurnKeepsRegistryOk(plan, t, k);
    TurnKeepsGrownFrom(plan, values0, t, k);
    forall n: nat | n < |plan|
      ensures n < |Turn(plan, t, k).changers| && OnPath(plan, values0, Turn(plan, t, k), s, n)
    {
      TurnStaysOnPath(plan, values0, t, s, k, n);
    }
  }

  lemma {:induction false} ExecIsAgain<W(!new)>(plan: Plan<W>, values0: Bindings, s: Sys<W>, t: Sys<W>,
      schedule: seq<nat>)
    requires AllApplied(plan, values0, s) && Again(plan, values0, s, t) && SysOk(plan, t)
    ensures Again(plan, values0, s, Exec(plan, t, schedule))
    decreases |schedule|
  {
    assert |s.changers| == |s.calls| == |plan|;
    hide AllApplied, Again, Turn, SysOk;
    if schedule != [] {
      TurnIsAgain(plan, values0, s, t, schedule[0]);
      ExecIsAgain(plan, values0, s, Turn(plan, t, schedule[0]), schedule[1..]);
    }
  }

  /** A second run does nothing: start a fresh engine with the registry as it was and the world as a first run
      left it that ended well everywhere. In every interleaving no node transitions or rolls back, every
      node that reports was skipped as already applied, the world stays as it is, and at rest every node has
      reported. */
  lemma SecondRunDoesNothing<W(!new)>(plan: Plan<W>, values0: Bindings, world0: W, first: seq<nat>, second: seq<nat>)
    requires Acyclic(Ups(plan)) && AllEligible(plan, RunOf(plan, values0, world0, first))
    requires var s := RunOf(plan, values0, world0, first);
      && |s.changers| == |plan| && FactoriesEndAlike(plan, values0, s)
      && AssessOnlyLooks(s) && Undisturbed(plan, s) && PublishesAlike(plan, s)
    ensures var s := RunOf(plan, values0, world0, first);
      var t := RunOf(plan, values0, s.world, second);
      && t.world == s.world
      && (forall n: nat :: n in t.workers ==> OnlySkips(t.workers[n]))
      && (forall n: nat :: n in t.reports ==> t.reports[n].outcome == SkippedAlreadyApplied)
      && (Complete(t) ==> forall n: nat :: n < |plan| ==> n in t.reports)
  {
    FirstRun(plan, values0, world0, first);
    var s := RunOf(plan, values0, world0, first);
    var t0 := Start(plan, values0, s.world);
    assert |s.changers| == |s.calls| == |plan|;
    hide AllApplied, FactoriesEndAlike, AssessOnlyLooks, Undisturbed, PublishesAlike, AllEligible, SysOk;
    StartIsAgain(plan, values0, s);
    hide Start;
    ExecIsAgain(plan, values0, s, t0, second);
    var t := RunOf(plan, values0, s.world, second);
    hide Exec, RegistryOk, GrownFrom, OnPath;
    if Complete(t) {
      RestMeansAllReported(plan, t);
    }
  }

  lemma FirstRun<W(!new)>(plan: Plan<W>, values0: Bindings, world0: W, first: seq<nat>)
    requires Acyclic(Ups(plan)) && AllEligible(plan, RunOf(plan, values0, world0, first))
    requires var s := RunOf(plan, values0, world0, first);
      && |s.changers| == |plan| && FactoriesEndAlike(plan, values0, s)
      && AssessOnlyLooks(s) && Undisturbed(plan, s) && PublishesAlike(plan, s)
    ensures AllApplied(plan, values0, RunOf(plan, values0, world0, first))
  {
    var s0 := Start(plan, values0, world0);
    StartIsOnWay(plan, values0, world0, first);
    WayFacts(plan, values0, s0, RunOf(plan, values0, world0, first));
    StartIsSettled(plan, values0, world0);
    hide SysOk, RegistryOk, GrownFrom, OnWay, Settled, Start, AssessOnlyLooks, Undisturbed, AllEligible,
        FactoriesEndAlike, PublishesAlike, Toward, OnPath;
    assert first + [] == first;
    ExecStaysOnWay(plan, values0, s0, first, []);
    ExecKeepsSettled(plan, values0, s0, first);
    GivenAreKept(plan, values0, world0, RunOf(plan, values0, world0, first));
  }

  lemma StartIsSettled<W(!new)>(plan: Plan<W>, values0: Bindings, world0: W)
    requires SysOk(plan, Start(plan, values0, world0))
    ensures var s := Start(plan, values0, world0); |s.changers| == |s.calls| == |plan| && Settled(plan, s)
  {
    hide Acyclic, Consistent, Runnable;
  }

  lemma StartIsAgain<W(!new)>(plan: Plan<W>, values0: Bindings, s: Sys<W>)
    requires AllApplied(plan, values0, s) && Acyclic(Ups(plan))
    ensures Again(plan, values0, s, Start(plan, values0, s.world))
  {
    var t := Start(plan, values0, s.world);
    assert |s.changers| == |s.calls| == |plan|;
    hide AllApplied, SysOk, RegistryOk, OnPath, RepeatsAt, OnlySkips;
    StartIsAccounted(plan, values0, s.world);
    FreshRun(plan, values0, s.world);
    hide Start;
    forall n: nat | n < |plan|
      ensures n < |t.changers| && n < |t.calls| && RepeatsAt(s, t.changers[n], t.calls[n], n)
      ensures OnPath(plan, values0, t, s, n)
    {
      FreshNode(plan, values0, s, n);
    }
  }

  lemma FreshRun<W>(plan: Plan<W>, values0: Bindings, world: W)
    ensures var t := Start(plan, values0, world);
      && t.world == world && |t.changers| == |t.calls| == |plan| && t.reports == map[] && GrownFrom(values0, t)
      && forall n: nat :: n in t.workers ==> OnlySkips(t.workers[n])
  {
    hide Runnable;
  }

  lemma FreshNode<W(!new)>(plan: Plan<W>, values0: Bindings, s: Sys<W>, n: nat)
    requires AllApplied(plan, values0, s) && n < |plan|
    ensures var t := Start(plan, values0, s.world);
      && n < |t.changers| && n < |t.calls| && RepeatsAt(s, t.changers[n], t.calls[n], n)
      && OnPath(plan, values0, t, s, n)
  {
    AllAppliedFacts(plan, values0, s, n);
    hide AllApplied, OnWay, SysOk, RegistryOk, LedTo, Toward, Applied, OnlyLooks, GrownFrom, Holds;
    if plan[n].body.Deferred? {
      LedFromStart(plan, values0, s, n, values0);
    }
  }
}
