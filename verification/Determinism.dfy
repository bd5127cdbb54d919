/** Schedules do not matter: where the changers that a run has come to hold, the names it has published and
    the reads of its factories do not interfere, two steps of different nodes commute all along the way to
    its end. */
module Determinism {
  import opened Outcomes
  import opened Registry
  import opened Workers
  import opened Dag
  import opened Scheduling
  import opened Machine
  import opened Accounts
  import opened Provenance

  // ---- the hypotheses ----

  /** What can be done with a changer; ReadOp is a publish callback reading its fields. */
  datatype Op = AssessOp | TransitionOp | UndoOp | ReadOp

  datatype Effect = Assessed(assessment: Assessment) | Resulted(result: Result) | Read(fields: Fields)

  function Apply<W>(c: Changer<W>, op: Op, w: W): (Effect, W) {
    match op
    case AssessOp => var (a, w') := c.assess(w); (Assessed(a), w')
    case TransitionOp => var (r, w') := c.transition(w); (Resulted(r), w')
    case ReadOp => (Read(c.exposed(w)), w)
    case UndoOp =>
      match c.undo
      case None => (Resulted(SkippedResult()), w)
      case Some(undo) => var (r, w') := undo(w); (Resulted(r), w')
  }

  /** Neither changer's operations affect what the other's do or see. */
  ghost predicate Commute<W(!new)>(c: Changer<W>, d: Changer<W>) {
    forall f, g, w :: CommuteAt(c, f, d, g, w)
  }

  ghost predicate CommuteAt<W>(c: Changer<W>, f: Op, d: Changer<W>, g: Op, w: W) {
    var (e, u) := Apply(c, f, w);
    var (h, v) := Apply(d, g, w);
    Apply(d, g, u) == (h, Apply(c, f, v).1) && Apply(c, f, v).0 == e
  }

  ghost predicate NamesApart(a: seq<(string, Value)>, b: seq<(string, Value)>) {
    forall i, j :: 0 <= i < |a| && 0 <= j < |b| ==> a[i].0 != b[j].0
  }

  /** In e, nodes n and m hold changers that do not interfere, and have published different names. */
  ghost predicate Separate<W(!new)>(e: Sys<W>, n: nat, m: nat)
    requires n < |e.changers| && m < |e.changers|
  {
    && (e.changers[n].Some? && e.changers[m].Some? ==> Commute(e.changers[n].value, e.changers[m].value))
    && NamesApart(Entries(e, n), Entries(e, m))
  }

  /** In the run that ended in e, nodes neither above nor below each other were separate. */
  ghost predicate AllSeparate<W(!new)>(plan: Plan<W>, e: Sys<W>) {
    && |e.changers| == |plan|
    && forall n: nat, m: nat :: Incomparable(plan, n, m) ==> Separate(e, n, m)
  }

  /** Besides, no read of a factory that ran depends on what nodes neither above nor below its own
      published. */
  ghost predicate Apart<W(!new)>(plan: Plan<W>, values0: Bindings, e: Sys<W>) {
    AllSeparate(plan, e) && FactoriesStayOnPath(plan, values0, e)
  }

  // ---- one worker's step against another's ----

  predicate UsesWorld<W>(local: Local<W>) {
    local.Assessing? || local.Transitioning? || local.Verifying? || local.Undoing? || local.Calling?
  }

  function OpOf<W>(local: Local<W>): Op {
    match local
    case Transitioning(_) => TransitionOp
    case Undoing(_) => UndoOp
    case Calling(_) => ReadOp
    case _ => AssessOp
  }

  /** The worker cannot tell the two registries apart in its next step. */
  ghost predicate SameView<W>(local: Local<W>, values: Bindings, values': Bindings) {
    match local
    case Resolving(factory) =>
      factory.Ask? ==> factory.next(Lookup(values, factory.query)) == factory.next(Lookup(values', factory.query))
    case Publishing(_, items, next) => next < |items| ==> (items[next].0 in values <==> items[next].0 in values')
    case _ => true
  }

  /** What one step does to the shared state. */
  lemma StepShape<W>(node: Node<W>, c: Core<W>)
    requires WorkerOk(node, c.changer, c.local)
    ensures Step(node, c).values == c.values + Delta(c.local, c.values)
    ensures Step(node, c).world
         == if UsesWorld(c.local) then Apply(c.changer.value, OpOf(c.local), c.world).1 else c.world
  {
    assert c.values + map[] == c.values;
  }

  /** What one step depends on. */
  lemma StepDependsOn<W>(node: Node<W>, c: Core<W>, d: Core<W>)
    requires WorkerOk(node, c.changer, c.local)
    requires d.changer == c.changer && d.local == c.local && d.call == c.call
    requires SameView(c.local, c.values, d.values)
    requires UsesWorld(c.local) ==>
               Apply(c.changer.value, OpOf(c.local), c.world).0 == Apply(c.changer.value, OpOf(c.local), d.world).0
    ensures var c', d' := Step(node, c), Step(node, d);
      d'.changer == c'.changer && d'.local == c'.local && d'.call == c'.call
    ensures Delta(d.local, d.values) == Delta(c.local, c.values)
  {
  }

  /** The next steps of the two workers do not get into each other's way. */
  ghost predicate Compatible<W>(c: Core<W>, d: Core<W>)
    requires UsesWorld(c.local) ==> c.changer.Some?
    requires UsesWorld(d.local) ==> d.changer.Some?
  {
    && c.values == d.values && c.world == d.world
    && (UsesWorld(c.local) && UsesWorld(d.local) ==>
          CommuteAt(c.changer.value, OpOf(c.local), d.changer.value, OpOf(d.local), c.world))
    && SameView(c.local, c.values, c.values + Delta(d.local, c.values))
    && SameView(d.local, c.values, c.values + Delta(c.local, c.values))
    && Delta(c.local, c.values).Keys !! Delta(d.local, c.values).Keys
  }

  /** The step of c as it is after a compatible step of d. */
  lemma StepAfter<W>(a: Node<W>, b: Node<W>, c: Core<W>, d: Core<W>)
    requires WorkerOk(a, c.changer, c.local) && WorkerOk(b, d.changer, d.local) && Compatible(c, d)
    ensures var c1, d1 := Step(a, c), Step(b, d);
      var c2 := Step(a, c.(values := d1.values, world := d1.world));
      && c2.changer == c1.changer && c2.local == c1.local && c2.call == c1.call
      && c2.values == c.values + Delta(d.local, c.values) + Delta(c.local, c.values)
  {
    hide Step, SameView, Delta, Apply;
    StepShape(b, d);
    var d1 := Step(b, d);
    var late := c.(values := d1.values, world := d1.world);
    StepDependsOn(a, c, late);
    StepShape(a, late);
  }

  /** Compatible steps commute on everything shared, and neither worker notices the other. */
  lemma StepsCommute<W>(a: Node<W>, b: Node<W>, c: Core<W>, d: Core<W>)
    requires WorkerOk(a, c.changer, c.local) && WorkerOk(b, d.changer, d.local) && Compatible(c, d)
    ensures var c1, d1 := Step(a, c), Step(b, d);
      var d2 := Step(b, d.(values := c1.values, world := c1.world));
      var c2 := Step(a, c.(values := d1.values, world := d1.world));
      && d2.changer == d1.changer && d2.local == d1.local && d2.call == d1.call
      && c2.changer == c1.changer && c2.local == c1.local && c2.call == c1.call
      && d2.values == c2.values && d2.world == c2.world
  {
    hide Step, SameView, Delta, Apply;
    StepAfter(a, b, c, d);
    CompatibleIsSymmetric(c, d);
    StepAfter(b, a, d, c);
    StepShape(a, c);
    StepShape(b, d);
    StepShape(a, c.(values := Step(b, d).values, world := Step(b, d).world));
    StepShape(b, d.(values := Step(a, c).values, world := Step(a, c).world));
    var dc, dd := Delta(c.local, c.values), Delta(d.local, c.values);
    assert c.values + dc + dd == c.values + dd + dc;
  }

  lemma CompatibleIsSymmetric<W>(c: Core<W>, d: Core<W>)
    requires UsesWorld(c.local) ==> c.changer.Some?
    requires UsesWorld(d.local) ==> d.changer.Some?
    requires Compatible(c, d)
    ensures Compatible(d, c)
  {
    hide SameView, Delta, Apply;
  }

  // ---- two nodes in flight on the way to an end ----

  lemma WorldsCommute<W(!new)>(plan: Plan<W>, values0: Bindings, s: Sys<W>, e: Sys<W>, n: nat, m: nat)
    requires OnWay(plan, values0, s, e) && Apart(plan, values0, e)
    requires n in s.workers && m in s.workers && n != m && UsesWorld(s.workers[n]) && UsesWorld(s.workers[m])
    ensures n < |plan| == |s.changers| && m < |plan| && s.changers[n].Some? && s.changers[m].Some?
    ensures CommuteAt(s.changers[n].value, OpOf(s.workers[n]), s.changers[m].value, OpOf(s.workers[m]), s.world)
  {
    WayFacts(plan, values0, s, e);
    WorkerFacts(plan, s, n);
    WorkerFacts(plan, s, m);
    InFlightIncomparable(plan, s, n, m);
    hide OnWay, SysOk, RegistryOk, GrownFrom, OnPath, Incomparable, FactoriesStayOnPath, LocalOk, SeenBy, Started,
        CommuteAt;
    assert Separate(e, n, m);
    assert Commute(e.changers[n].value, e.changers[m].value);
  }

  lemma DeltasApart<W(!new)>(plan: Plan<W>, values0: Bindings, s: Sys<W>, e: Sys<W>, n: nat, m: nat)
    requires OnWay(plan, values0, s, e) && Apart(plan, values0, e)
    requires n in s.workers && m in s.workers && n != m
    ensures Delta(s.workers[n], s.values).Keys !! Delta(s.workers[m], s.values).Keys
  {
    WayFacts(plan, values0, s, e);
    InFlightIncomparable(plan, s, n, m);
    assert n < |plan| && m < |plan|;
    assert Separate(e, n, m);
    hide OnWay, SysOk, RegistryOk, GrownFrom, OnPath, Incomparable, Toward, FactoriesStayOnPath, Delta, Entries;
    var dn, dm := Delta(s.workers[n], s.values), Delta(s.workers[m], s.values);
    forall x | x in dn && x in dm ensures false {
      NextIsEntry(plan, values0, s, e, n, x);
      NextIsEntry(plan, values0, s, e, m, x);
    }
  }

  /** What another node in flight is about to bind makes no difference to n's next step. */
  lemma BindingUnseen<W(!new)>(plan: Plan<W>, values0: Bindings, s: Sys<W>, e: Sys<W>, n: nat, m: nat)
    requires OnWay(plan, values0, s, e) && Apart(plan, values0, e)
    requires n in s.workers && m in s.workers && n != m
    ensures SameView(s.workers[n], s.values, s.values + Delta(s.workers[m], s.values))
  {
    match s.workers[n]
    case Resolving(g) => ReadUnmoved(plan, values0, s, e, n, m);
    case Publishing(_, _, _) =>
      DeltasApart(plan, values0, s, e, n, m);
      hide OnWay, Apart;
    case _ =>
  }

  lemma ReadUnmoved<W(!new)>(plan: Plan<W>, values0: Bindings, s: Sys<W>, e: Sys<W>, n: nat, m: nat)
    requires OnWay(plan, values0, s, e) && FactoriesStayOnPath(plan, values0, e)
    requires n in s.workers && m in s.workers && n != m && s.workers[n].Resolving?
    ensures SameView(s.workers[n], s.values, s.values + Delta(s.workers[m], s.values))
  {
    WayFacts(plan, values0, s, e);
    hide OnWay, SysOk, RegistryOk, GrownFrom, MayMeet, SeenBy, LedTo, Delta, LocalOk, StaysOnPath;
    WorkerFacts(plan, s, n);
    MeetsRegistry(plan, values0, s, e, n);
    MeetsOneMore(plan, values0, s, e, n, m);
    assert Started(s, n) && OnPath(plan, values0, s, e, n);
    PathIsUnmoved(plan, values0, e, n, s.values, s.workers[n].factory,
      s.values, s.values + Delta(s.workers[m], s.values));
  }

  lemma UsersHoldChangers<W>(node: Node<W>, changer: Option<Changer<W>>, local: Local<W>)
    requires WorkerOk(node, changer, local)
    ensures UsesWorld(local) ==> changer.Some?
  {
  }

  /** The two workers can each take a step, and the steps are compatible. */
  ghost predicate BothReady<W>(plan: Plan<W>, s: Sys<W>, n: nat, m: nat)
    requires SysOk(plan, s) && n in s.workers && m in s.workers
  {
    && n < |plan| && m < |plan| && n < |s.changers| == |s.calls| && m < |s.changers|
    && WorkerOk(plan[n], CoreOf(plan, s, n).changer, CoreOf(plan, s, n).local)
    && WorkerOk(plan[m], CoreOf(plan, s, m).changer, CoreOf(plan, s, m).local)
    && Compatible(CoreOf(plan, s, n), CoreOf(plan, s, m))
  }

  lemma BothReadyIsSymmetric<W>(plan: Plan<W>, s: Sys<W>, n: nat, m: nat)
    requires SysOk(plan, s) && n in s.workers && m in s.workers && BothReady(plan, s, n, m)
    ensures BothReady(plan, s, m, n)
    ensures Delta(s.workers[n], s.values).Keys !! Delta(s.workers[m], s.values).Keys
  {
    hide SysOk, SameView, Delta, CommuteAt;
    CompatibleIsSymmetric(CoreOf(plan, s, n), CoreOf(plan, s, m));
  }

  lemma InFlightCompatible<W(!new)>(plan: Plan<W>, values0: Bindings, s: Sys<W>, e: Sys<W>, n: nat, m: nat)
    requires OnWay(plan, values0, s, e) && Apart(plan, values0, e)
    requires n in s.workers && m in s.workers && n != m && SysOk(plan, s)
    ensures BothReady(plan, s, n, m)
  {
    hide OnWay, SysOk, Apart, LocalOk, SameView, Delta, CommuteAt, OpOf;
    WorkerFacts(plan, s, n);
    WorkerFacts(plan, s, m);
    UsersHoldChangers(plan[n], s.changers[n], s.workers[n]);
    UsersHoldChangers(plan[m], s.changers[m], s.workers[m]);
    hide UsesWorld, WorkerOk;
    if UsesWorld(s.workers[n]) && UsesWorld(s.workers[m]) {
      WorldsCommute(plan, values0, s, e, n, m);
    }
    BindingUnseen(plan, values0, s, e, n, m);
    BindingUnseen(plan, values0, s, e, m, n);
    DeltasApart(plan, values0, s, e, n, m);
  }

  // ---- the diamond ----

  /** s after the workers of n and then m got as far as c and d, having bound dn and dm, with what they share
      as in last. */
  ghost function WithBoth<W>(s: Sys<W>, n: nat, c: Core<W>, dn: Bindings, m: nat, d: Core<W>, dm: Bindings,
      last: Core<W>): Sys<W>
    requires n < |s.changers| == |s.calls| && m < |s.changers|
  {
    s.(workers := s.workers[n := c.local][m := d.local], changers := s.changers[n := c.changer][m := d.changer],
       calls := s.calls[n := c.call][m := d.call], values := last.values,
       binder := s.binder + MarkedBy(dn, n) + MarkedBy(dm, m), world := last.world)
  }

  lemma WithBothCommutes<W>(s: Sys<W>, n: nat, c: Core<W>, dn: Bindings, m: nat, d: Core<W>, dm: Bindings,
      last: Core<W>, last': Core<W>)
    requires n < |s.changers| == |s.calls| && m < |s.changers| && n != m
    requires last.values == last'.values && last.world == last'.world && dn.Keys !! dm.Keys
    ensures WithBoth(s, n, c, dn, m, d, dm, last) == WithBoth(s, m, d, dm, n, c, dn, last')
  {
    MarksCommute(s.binder, dn, n, dm, m);
    UpdatesCommute(s.workers, n, c.local, m, d.local);
    hide MarkedBy;
    assert s.changers[n := c.changer][m := d.changer] == s.changers[m := d.changer][n := c.changer];
    assert s.calls[n := c.call][m := d.call] == s.calls[m := d.call][n := c.call];
  }

  lemma MarksCommute(binder: map<string, nat>, dn: Bindings, n: nat, dm: Bindings, m: nat)
    requires dn.Keys !! dm.Keys
    ensures binder + MarkedBy(dn, n) + MarkedBy(dm, m) == binder + MarkedBy(dm, m) + MarkedBy(dn, n)
  {
  }

  lemma UpdatesCommute<K, V>(m: map<K, V>, j: K, u: V, k: K, v: V)
    requires j != k
    ensures m[j := u][k := v] == m[k := v][j := u]
  {
  }

  /** Two worker steps in a row, told from the state before both. */
  lemma TwoWorkerTurns<W>(plan: Plan<W>, s: Sys<W>, n: nat, m: nat)
    requires SysOk(plan, s) && n in s.workers && m in s.workers && n != m
    requires BothReady(plan, s, n, m)
    requires SysOk(plan, WorkerTurn(plan, s, n))
    ensures var c, d := Step(plan[n], CoreOf(plan, s, n)), Step(plan[m], CoreOf(plan, s, m));
      var last := Step(plan[m], CoreOf(plan, s, m).(values := c.values, world := c.world));
      WorkerTurn(plan, WorkerTurn(plan, s, n), m)
        == WithBoth(s, n, c, Delta(s.workers[n], s.values), m, d, Delta(s.workers[m], s.values), last)
  {
    hide SysOk, Step, Delta, WorkerOk, Compatible, MarkedBy;
    var s1 := WorkerTurn(plan, s, n);
    StepsCommute(plan[n], plan[m], CoreOf(plan, s, n), CoreOf(plan, s, m));
    SameDelta(plan[n], plan[m], CoreOf(plan, s, n), CoreOf(plan, s, m));
    assert CoreOf(plan, s1, m) == CoreOf(plan, s, m).(values := s1.values, world := s1.world);
    WorkerTurnAddsDelta(plan, s, n);
    WorkerTurnAddsDelta(plan, s1, m);
  }

  lemma SameDelta<W>(a: Node<W>, b: Node<W>, c: Core<W>, d: Core<W>)
    requires WorkerOk(a, c.changer, c.local) && WorkerOk(b, d.changer, d.local) && Compatible(c, d)
    ensures Delta(d.local, Step(a, c).values) == Delta(d.local, c.values)
  {
    hide Step;
    StepShape(a, c);
  }

  lemma WorkerTurnsCommute<W>(plan: Plan<W>, s: Sys<W>, n: nat, m: nat)
    requires SysOk(plan, s) && n in s.workers && m in s.workers && n != m
    requires BothReady(plan, s, n, m)
    requires SysOk(plan, WorkerTurn(plan, s, n)) && SysOk(plan, WorkerTurn(plan, s, m))
    ensures WorkerTurn(plan, WorkerTurn(plan, s, n), m) == WorkerTurn(plan, WorkerTurn(plan, s, m), n)
  {
    hide SysOk, Step, Delta, WorkerOk, WorkerTurn, WithBoth, SameView, CommuteAt;
    var c, d := CoreOf(plan, s, n), CoreOf(plan, s, m);
    BothReadyIsSymmetric(plan, s, n, m);
    StepsCommute(plan[n], plan[m], c, d);
    TwoWorkerTurns(plan, s, n, m);
    TwoWorkerTurns(plan, s, m, n);
    var c1, d1 := Step(plan[n], c), Step(plan[m], d);
    WithBothCommutes(s, n, c1, Delta(c.local, s.values), m, d1, Delta(d.local, s.values),
      Step(plan[m], d.(values := c1.values, world := c1.world)),
      Step(plan[n], c.(values := d1.values, world := d1.world)));
  }

  lemma RefillTwice<W>(plan: Plan<W>, first: Reports, second: Reports, workers: map<nat, Local<W>>)
    requires Runnable(Ups(plan), second) * workers.Keys <= Runnable(Ups(plan), first)
    ensures Refill(plan, second, Refill(plan, first, workers)) == Refill(plan, second, workers)
  {
    hide Runnable;
  }

  lemma RefillAfterStep<W>(plan: Plan<W>, reports: Reports, workers: map<nat, Local<W>>, m: nat, local: Local<W>)
    requires m in Runnable(Ups(plan), reports)
    ensures Refill(plan, reports, workers[m := local]) == Refill(plan, reports, workers)[m := local]
  {
    hide Runnable;
  }

  lemma WorkersAreRunnable<W>(plan: Plan<W>, s: Sys<W>)
    requires SysOk(plan, s)
    ensures Acyclic(Ups(plan)) && Consistent(Ups(plan), Names(plan), s.reports)
    ensures s.workers.Keys == Runnable(Ups(plan), s.reports)
  {
  }

  lemma AbsorbAndWorkCommute<W>(plan: Plan<W>, s: Sys<W>, n: nat, r: NodeReport, m: nat)
    requires SysOk(plan, s) && n in s.workers && m in s.workers && n != m
    requires s.workers[n] == Finished(r) && !s.workers[m].Finished?
    requires SysOk(plan, AbsorbTurn(plan, s, n, r)) && SysOk(plan, WorkerTurn(plan, s, m))
    ensures m in AbsorbTurn(plan, s, n, r).workers && n in WorkerTurn(plan, s, m).workers
    ensures WorkerTurn(plan, AbsorbTurn(plan, s, n, r), m) == AbsorbTurn(plan, WorkerTurn(plan, s, m), n, r)
  {
    WorkersAreRunnable(plan, s);
    WorkerFacts(plan, s, n);
    WorkerFacts(plan, s, m);
    hide SysOk, Acyclic, Consistent, Absorbed, Runnable, Step, WorkerOk, LocalOk;
    OthersStayRunnable(Ups(plan), Names(plan), s.reports, n, r);
    var s1, s2 := AbsorbTurn(plan, s, n, r), WorkerTurn(plan, s, m);
    assert m in Runnable(Ups(plan), s1.reports);
    RefillAfterStep(plan, s1.reports, s.workers, m, s2.workers[m]);
    assert m in s1.workers && s1.workers[m] == s.workers[m];
    assert CoreOf(plan, s1, m) == CoreOf(plan, s, m);
  }

  lemma AbsorbTurnsCommute<W>(plan: Plan<W>, s: Sys<W>, n: nat, r: NodeReport, m: nat, q: NodeReport)
    requires SysOk(plan, s) && n in s.workers && m in s.workers && n != m
    requires s.workers[n] == Finished(r) && s.workers[m] == Finished(q)
    requires SysOk(plan, AbsorbTurn(plan, s, n, r)) && SysOk(plan, AbsorbTurn(plan, s, m, q))
    ensures m in AbsorbTurn(plan, s, n, r).workers && n in AbsorbTurn(plan, s, m, q).workers
    ensures AbsorbTurn(plan, AbsorbTurn(plan, s, n, r), m, q) == AbsorbTurn(plan, AbsorbTurn(plan, s, m, q), n, r)
  {
    var ups, names := Ups(plan), Names(plan);
    WorkersAreRunnable(plan, s);
    WorkerFacts(plan, s, n);
    WorkerFacts(plan, s, m);
    hide SysOk, WorkerOk, LocalOk, Acyclic, Consistent, Absorbed, Runnable;
    OthersStayRunnable(ups, names, s.reports, n, r);
    OthersStayRunnable(ups, names, s.reports, m, q);
    AbsorptionsCommute(ups, names, s.reports, n, r, m, q);
    var s1, s2 := AbsorbTurn(plan, s, n, r), AbsorbTurn(plan, s, m, q);
    var last := Absorbed(ups, names, s1.reports, m, q);
    WorkersAreRunnable(plan, s1);
    WorkersAreRunnable(plan, s2);
    StillRunnable(plan, s, s1.reports, m, q);
    StillRunnable(plan, s, s2.reports, n, r);
    RefillTwice(plan, s1.reports, last, s.workers);
    RefillTwice(plan, s2.reports, last, s.workers);
  }

  /** Nodes in flight that can run after a second absorption could run after the first. */
  lemma StillRunnable<W>(plan: Plan<W>, s: Sys<W>, reports: Reports, m: nat, q: NodeReport)
    requires |Names(plan)| == |Ups(plan)| && s.workers.Keys == Runnable(Ups(plan), s.reports)
    requires s.workers.Keys <= Runnable(Ups(plan), reports) + (set n | n in reports && n in s.workers)
    ensures Runnable(Ups(plan), Absorbed(Ups(plan), Names(plan), reports, m, q)) * s.workers.Keys
         <= Runnable(Ups(plan), reports)
  {
  }

  /** Steps of two different nodes commute from every state on the way to an end whose nodes are apart. */
  lemma Diamond<W(!new)>(plan: Plan<W>, values0: Bindings, s: Sys<W>, e: Sys<W>, n: nat, m: nat)
    requires OnWay(plan, values0, s, e) && Apart(plan, values0, e) && SysOk(plan, s)
    requires n in s.workers && m in s.workers && n != m
    ensures m in Turn(plan, s, n).workers
    ensures Turn(plan, Turn(plan, s, n), m) == Turn(plan, Turn(plan, s, m), n)
  {
    TurnKeepsSysOk(plan, s, n);
    TurnKeepsSysOk(plan, s, m);
    OthersStayInFlight(plan, s, n, m);
    OthersStayInFlight(plan, s, m, n);
    hide OnWay, Apart, SysOk, WorkerTurn, AbsorbTurn, BothReady;
    if s.workers[n].Finished? {
      if s.workers[m].Finished? {
        AbsorbTurnsCommute(plan, s, n, s.workers[n].report, m, s.workers[m].report);
      } else {
        AbsorbAndWorkCommute(plan, s, n, s.workers[n].report, m);
      }
    } else if s.workers[m].Finished? {
      AbsorbAndWorkCommute(plan, s, m, s.workers[m].report, n);
    } else {
      InFlightCompatible(plan, values0, s, e, n, m);
      WorkerTurnsCommute(plan, s, n, m);
    }
  }
}
