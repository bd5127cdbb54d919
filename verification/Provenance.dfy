/** Where a deferred node's changer comes from. What a factory can rely on is what was bound before the run
    and what the node's ancestors have published. A factory that nothing else can lead astray takes the one
    path that those bindings determine, in every interleaving. */
module Provenance {
  import opened Outcomes
  import opened Registry
  import opened Workers
  import opened Dag
  import opened Scheduling
  import opened Machine
  import opened Accounts

  ghost predicate Incomparable<W>(plan: Plan<W>, n: nat, m: nat) {
    n < |plan| && m < |plan| && n != m && !Ancestor(Ups(plan), n, m) && !Ancestor(Ups(plan), m, n)
  }

  /** Two nodes in flight are incomparable, and so are one in flight and one that ran but is not above it. */
  lemma StartedIncomparable<W>(plan: Plan<W>, s: Sys<W>, n: nat, m: nat)
    requires SysOk(plan, s) && n in s.workers && Started(s, m) && n != m && !Ancestor(Ups(plan), m, n)
    ensures Incomparable(plan, n, m)
  {
    if Ancestor(Ups(plan), n, m) {
      NotStartedBelow(plan, s, n, m);
    }
    hide Acyclic, Consistent, Ancestor, Runnable;
  }

  lemma InFlightIncomparable<W>(plan: Plan<W>, s: Sys<W>, n: nat, m: nat)
    requires SysOk(plan, s) && n in s.workers && m in s.workers && n != m
    ensures Incomparable(plan, n, m)
  {
    if Ancestor(Ups(plan), m, n) {
      AncestorsAreGood(plan, s, n, m);
    }
    hide SysOk;
    StartedIncomparable(plan, s, n, m);
  }

  // ---- what a node can rely on ----

  /** The registry holds what it held before the run and what nodes have bound since, apart from each other. */
  ghost predicate GrownFrom<W>(values0: Bindings, s: Sys<W>) {
    && s.values.Keys == values0.Keys + s.binder.Keys
    && values0.Keys !! s.binder.Keys
    && Extends(values0, s.values)
  }

  /** What was bound before the run, and what n's ancestors have bound. */
  ghost function SeenBy<W>(plan: Plan<W>, values0: Bindings, s: Sys<W>, n: nat): Bindings {
    map x | x in s.values && (x in values0 || (x in s.binder && Ancestor(Ups(plan), s.binder[x], n))) :: s.values[x]
  }

  lemma TurnKeepsGrownFrom<W>(plan: Plan<W>, values0: Bindings, s: Sys<W>, k: nat)
    requires SysOk(plan, s) && GrownFrom(values0, s)
    ensures GrownFrom(values0, Turn(plan, s, k))
  {
    hide SysOk, Turn, Delta;
    TurnAddsDelta(plan, s, k);
  }

  lemma SeenByWithout<W>(plan: Plan<W>, values0: Bindings, s: Sys<W>, s': Sys<W>, n: nat, k: nat, d: Bindings)
    requires GrownFrom(values0, s) && (d == map[] || !Ancestor(Ups(plan), k, n))
    requires d.Keys !! s.values.Keys && s'.values == s.values + d && s'.binder == s.binder + MarkedBy(d, k)
    ensures SeenBy(plan, values0, s', n) == SeenBy(plan, values0, s, n)
  {
    hide Ancestor;
  }

  /** What a node that has started can rely on never changes again. */
  lemma SeenByIsFixed<W>(plan: Plan<W>, values0: Bindings, s: Sys<W>, n: nat, k: nat)
    requires SysOk(plan, s) && GrownFrom(values0, s) && Started(s, n)
    ensures SeenBy(plan, values0, Turn(plan, s, k), n) == SeenBy(plan, values0, s, n)
  {
    hide SysOk, Turn, Ancestor, GrownFrom, Delta;
    if k in s.workers && Ancestor(Ups(plan), k, n) {
      AncestorsAreGood(plan, s, n, k);
    }
    TurnAddsDelta(plan, s, k);
    var d := if k in s.workers then Delta(s.workers[k], s.values) else map[];
    SeenByWithout(plan, values0, s, Turn(plan, s, k), n, k, d);
  }

  // ---- the way to an end ----

  /** What s has settled is as it is in e: the changers held, the calls made, and what the nodes that have
      started can rely on. */
  ghost predicate Toward<W>(plan: Plan<W>, values0: Bindings, s: Sys<W>, e: Sys<W>) {
    && |s.changers| == |e.changers| == |plan| && |s.calls| == |e.calls| == |plan|
    && (forall n: nat :: n < |plan| && s.changers[n].Some? ==> e.changers[n] == s.changers[n])
    && (forall n: nat :: n < |plan| && s.calls[n].Some? ==> e.calls[n] == s.calls[n])
    && (forall n: nat :: Started(s, n) ==>
          Started(e, n) && SeenBy(plan, values0, e, n) == SeenBy(plan, values0, s, n))
  }

  lemma StepKeeps<W>(node: Node<W>, c: Core<W>)
    requires WorkerOk(node, c.changer, c.local)
    ensures !c.local.Resolving? ==> Step(node, c).changer == c.changer && !Step(node, c).local.Resolving?
    ensures !c.local.Calling? ==> Step(node, c).call == c.call
  {
  }

  /** No step replaces a changer that is held or forgets a call that was made. */
  lemma TurnSettles<W>(plan: Plan<W>, s: Sys<W>, k: nat)
    requires SysOk(plan, s) && RegistryOk(plan, s)
    ensures var s' := Turn(plan, s, k);
      && |s.changers| == |s'.changers| == |plan| && |s.calls| == |s'.calls| == |plan|
      && (forall n: nat :: n < |plan| && s.changers[n].Some? ==> s'.changers[n] == s.changers[n])
      && (forall n: nat :: n < |plan| && s.calls[n].Some? ==> s'.calls[n] == s.calls[n])
  {
    SameLength(plan, s);
    hide SysOk, RegistryOk, WorkerTurn;
    if k in s.workers {
      if s.workers[k].Finished? {
        AbsorbedReports(plan, s, k);
        hide Turn;
      } else {
        WorkerTurnSettles(plan, s, k);
        hide AbsorbTurn;
      }
    }
  }

  lemma WorkerTurnSettles<W>(plan: Plan<W>, s: Sys<W>, k: nat)
    requires SysOk(plan, s) && RegistryOk(plan, s) && k in s.workers
    ensures var s' := WorkerTurn(plan, s, k);
      && k < |plan| == |s.changers| == |s.calls|
      && s'.changers == s.changers[k := s'.changers[k]] && s'.calls == s.calls[k := s'.calls[k]]
      && (s.changers[k].Some? ==> s'.changers[k] == s.changers[k])
      && (s.calls[k].Some? ==> s'.calls[k] == s.calls[k])
  {
    WorkerFacts(plan, s, k);
    AccountOf(plan, s, k);
    StepKeeps(plan[k], CoreOf(plan, s, k));
    hide SysOk, RegistryOk, LocalOk, BoundExactly, Accounted, Step;
  }

  lemma SameLength<W>(plan: Plan<W>, s: Sys<W>)
    requires SysOk(plan, s)
    ensures |s.changers| == |s.calls| == |plan|
  {
  }

  lemma TurnIsToward<W>(plan: Plan<W>, values0: Bindings, s: Sys<W>, k: nat)
    requires SysOk(plan, s) && RegistryOk(plan, s) && GrownFrom(values0, s)
    ensures Toward(plan, values0, s, Turn(plan, s, k))
  {
    hide SysOk, RegistryOk, GrownFrom, Turn, Started, SeenBy;
    TurnSettles(plan, s, k);
    forall n: nat | Started(s, n)
      ensures Started(Turn(plan, s, k), n)
      ensures SeenBy(plan, values0, Turn(plan, s, k), n) == SeenBy(plan, values0, s, n)
    {
      StartedStays(plan, s, n, k);
      SeenByIsFixed(plan, values0, s, n, k);
    }
  }

  lemma TowardIsTransitive<W>(plan: Plan<W>, values0: Bindings, s: Sys<W>, t: Sys<W>, e: Sys<W>)
    requires Toward(plan, values0, s, t) && Toward(plan, values0, t, e)
    ensures Toward(plan, values0, s, e)
  {
    hide SeenBy, Started;
  }

  /** Every state is on the way to the states that can follow it. */
  lemma {:induction false} ExecIsToward<W>(plan: Plan<W>, values0: Bindings, s: Sys<W>, schedule: seq<nat>)
    requires SysOk(plan, s) && RegistryOk(plan, s) && GrownFrom(values0, s)
    ensures Toward(plan, values0, s, Exec(plan, s, schedule))
    decreases |schedule|
  {
    hide SysOk, RegistryOk, GrownFrom, Turn, Toward;
    TurnIsToward(plan, values0, s, |plan|);
    if schedule == [] {
      SelfToward(plan, values0, s);
    } else {
      var s1 := Turn(plan, s, schedule[0]);
      TurnIsToward(plan, values0, s, schedule[0]);
      TurnKeepsRegistryOk(plan, s, schedule[0]);
      TurnKeepsGrownFrom(plan, values0, s, schedule[0]);
      ExecIsToward(plan, values0, s1, schedule[1..]);
      TowardIsTransitive(plan, values0, s, s1, Exec(plan, s1, schedule[1..]));
    }
  }

  lemma SelfToward<W>(plan: Plan<W>, values0: Bindings, s: Sys<W>)
    requires SysOk(plan, s)
    ensures Toward(plan, values0, s, s)
  {
    hide Acyclic, Consistent, Runnable, SeenBy, Started;
  }

  /** A node registered with its changer still holds it. */
  ghost predicate KeepsGiven<W>(node: Node<W>, changer: Option<Changer<W>>) {
    node.body.Given? ==> changer == Some(node.body.changer)
  }

  lemma GivenAreKept<W>(plan: Plan<W>, values0: Bindings, world0: W, e: Sys<W>)
    requires Toward(plan, values0, Start(plan, values0, world0), e)
    ensures forall n: nat :: n < |plan| ==> KeepsGiven(plan[n], e.changers[n])
  {
    hide SeenBy, Started;
  }

  // ---- where a factory can be led ----

  /** A registry n's factory may meet in a run that ends in e: what n can rely on there, and besides only
      entries that nodes neither above nor below n publish. */
  ghost predicate MayMeet<W>(plan: Plan<W>, values0: Bindings, e: Sys<W>, n: nat, values: Bindings) {
    && Extends(SeenBy(plan, values0, e, n), values)
    && forall x :: x in values && x !in SeenBy(plan, values0, e, n) ==> ByOthers(plan, e, n, x, values[x])
  }

  ghost predicate ByOthers<W>(plan: Plan<W>, e: Sys<W>, n: nat, x: string, v: Value) {
    exists m: nat :: Incomparable(plan, n, m) && (x, v) in Entries(e, m)
  }

  ghost predicate UpTo(met: seq<Bindings>, values: Bindings) {
    forall i :: 0 <= i < |met| ==> Extends(met[i], values)
  }

  /** n's factory may meet these registries, one after the other: the registry only grows. */
  ghost predicate MayMeetAll<W>(plan: Plan<W>, values0: Bindings, e: Sys<W>, n: nat, met: seq<Bindings>) {
    && (forall i :: 0 <= i < |met| ==> MayMeet(plan, values0, e, n, met[i]))
    && (forall i, j :: 0 <= i < j < |met| ==> Extends(met[i], met[j]))
  }

  lemma MeetsNext<W>(plan: Plan<W>, values0: Bindings, e: Sys<W>, n: nat, met: seq<Bindings>, values: Bindings)
    requires MayMeetAll(plan, values0, e, n, met) && MayMeet(plan, values0, e, n, values) && UpTo(met, values)
    ensures MayMeetAll(plan, values0, e, n, met + [values]) && UpTo(met + [values], values)
  {
    hide MayMeet;
  }

  /** Registries no larger than values can lead n's factory to g. */
  ghost predicate LedTo<W>(plan: Plan<W>, values0: Bindings, e: Sys<W>, n: nat, values: Bindings, g: Factory<W>)
    requires n < |plan| && plan[n].body.Deferred?
  {
    exists met :: MayMeetAll(plan, values0, e, n, met) && UpTo(met, values) && Following(plan[n].body.factory, met) == g
  }

  lemma LedFromStart<W>(plan: Plan<W>, values0: Bindings, e: Sys<W>, n: nat, values: Bindings)
    requires n < |plan| && plan[n].body.Deferred?
    ensures LedTo(plan, values0, e, n, values, plan[n].body.factory)
  {
    assert MayMeetAll(plan, values0, e, n, []) && UpTo([], values);
    assert Following(plan[n].body.factory, []) == plan[n].body.factory;
  }

  lemma LedByNext<W>(plan: Plan<W>, values0: Bindings, e: Sys<W>, n: nat, values: Bindings, g: Factory<W>)
    requires n < |plan| && plan[n].body.Deferred? && LedTo(plan, values0, e, n, values, g) && g.Ask?
    requires MayMeet(plan, values0, e, n, values)
    ensures LedTo(plan, values0, e, n, values, g.next(Lookup(values, g.query)))
  {
    hide MayMeet, MayMeetAll, UpTo;
    var met :| MayMeetAll(plan, values0, e, n, met) && UpTo(met, values) && Following(plan[n].body.factory, met) == g;
    MeetsNext(plan, values0, e, n, met, values);
    FollowingOneMore(plan[n].body.factory, met, values);
    assert Following(plan[n].body.factory, met + [values]) == g.next(Lookup(values, g.query));
  }

  lemma LedByMore<W>(plan: Plan<W>, values0: Bindings, e: Sys<W>, n: nat, values: Bindings, more: Bindings,
      g: Factory<W>)
    requires n < |plan| && plan[n].body.Deferred? && LedTo(plan, values0, e, n, values, g) && Extends(values, more)
    ensures LedTo(plan, values0, e, n, more, g)
  {
    hide MayMeetAll;
    var met :| MayMeetAll(plan, values0, e, n, met) && UpTo(met, values) && Following(plan[n].body.factory, met) == g;
    assert UpTo(met, more);
  }

  /** In s, n's factory is where the registries it may have met led it, and so is the changer it produced. */
  ghost predicate OnPath<W>(plan: Plan<W>, values0: Bindings, s: Sys<W>, e: Sys<W>, n: nat)
    requires n < |plan| && n < |s.changers|
  {
    plan[n].body.Deferred? ==>
      && (n in s.workers && s.workers[n].Resolving? ==>
            LedTo(plan, values0, e, n, s.values, s.workers[n].factory))
      && (s.changers[n].Some? ==> LedTo(plan, values0, e, n, s.values, Produce(s.changers[n].value)))
  }

  /** s is a reachable state on the way to e. */
  ghost predicate OnWay<W>(plan: Plan<W>, values0: Bindings, s: Sys<W>, e: Sys<W>) {
    && SysOk(plan, s) && RegistryOk(plan, s) && GrownFrom(values0, s) && Toward(plan, values0, s, e)
    && forall n: nat :: n < |plan| ==> OnPath(plan, values0, s, e, n)
  }

  // ---- factories that are not led astray ----

  /** Wherever n's factory can be led, it ends the same way, after however many reads. */
  ghost predicate EndsAlike<W>(plan: Plan<W>, values0: Bindings, e: Sys<W>, n: nat)
    requires n < |plan| && plan[n].body.Deferred?
  {
    forall met, met' :: MayMeetAll(plan, values0, e, n, met) && MayMeetAll(plan, values0, e, n, met') ==>
      SameEnd(Following(plan[n].body.factory, met), Following(plan[n].body.factory, met'))
  }

  ghost predicate SameEnd<W>(g: Factory<W>, h: Factory<W>) {
    !g.Ask? && !h.Ask? ==> g == h
  }

  /** In the run that ended in e, no factory that ran could be led to another end. */
  ghost predicate FactoriesEndAlike<W>(plan: Plan<W>, values0: Bindings, e: Sys<W>) {
    forall n: nat :: n < |plan| && plan[n].body.Deferred? && Started(e, n) ==> EndsAlike(plan, values0, e, n)
  }

  lemma LedToOneEnd<W>(plan: Plan<W>, values0: Bindings, e: Sys<W>, n: nat, values: Bindings, g: Factory<W>,
      values': Bindings, h: Factory<W>)
    requires n < |plan| && plan[n].body.Deferred? && EndsAlike(plan, values0, e, n)
    requires LedTo(plan, values0, e, n, values, g) && LedTo(plan, values0, e, n, values', h) && !g.Ask? && !h.Ask?
    ensures g == h
  {
    hide MayMeetAll, UpTo;
    var f := plan[n].body.factory;
    var met :| MayMeetAll(plan, values0, e, n, met) && UpTo(met, values) && Following(f, met) == g;
    var met' :| MayMeetAll(plan, values0, e, n, met') && UpTo(met', values') && Following(f, met') == h;
    assert SameEnd(Following(f, met), Following(f, met'));
  }

  /** The factory's next read makes no difference between the two registries. */
  ghost predicate Unmoved<W>(g: Factory<W>, values: Bindings, values': Bindings) {
    g.Ask? ==> g.next(Lookup(values, g.query)) == g.next(Lookup(values', g.query))
  }

  /** More than that: no single read of n's factory depends on which registry it meets. */
  ghost predicate StaysOnPath<W>(plan: Plan<W>, values0: Bindings, e: Sys<W>, n: nat)
    requires n < |plan| && plan[n].body.Deferred?
  {
    forall met, values, values' ::
      && MayMeetAll(plan, values0, e, n, met)
      && MayMeet(plan, values0, e, n, values) && MayMeet(plan, values0, e, n, values') ==>
        Unmoved(Following(plan[n].body.factory, met), values, values')
  }

  ghost predicate FactoriesStayOnPath<W>(plan: Plan<W>, values0: Bindings, e: Sys<W>) {
    forall n: nat :: n < |plan| && plan[n].body.Deferred? && Started(e, n) ==> StaysOnPath(plan, values0, e, n)
  }

  lemma PathIsUnmoved<W>(plan: Plan<W>, values0: Bindings, e: Sys<W>, n: nat, now: Bindings, g: Factory<W>,
      values: Bindings, values': Bindings)
    requires n < |plan| && plan[n].body.Deferred? && StaysOnPath(plan, values0, e, n)
    requires LedTo(plan, values0, e, n, now, g)
    requires MayMeet(plan, values0, e, n, values) && MayMeet(plan, values0, e, n, values')
    ensures Unmoved(g, values, values')
  {
    hide MayMeet, MayMeetAll, UpTo;
    var met :| MayMeetAll(plan, values0, e, n, met) && UpTo(met, now) && Following(plan[n].body.factory, met) == g;
  }

  /** The factory is at the same point whichever registries led it there. */
  lemma {:induction false} SamePoint<W>(plan: Plan<W>, values0: Bindings, e: Sys<W>, n: nat, met: seq<Bindings>,
      met': seq<Bindings>)
    requires n < |plan| && plan[n].body.Deferred? && StaysOnPath(plan, values0, e, n)
    requires MayMeetAll(plan, values0, e, n, met) && MayMeetAll(plan, values0, e, n, met') && |met| == |met'|
    ensures Following(plan[n].body.factory, met) == Following(plan[n].body.factory, met')
    decreases |met|
  {
    if met != [] {
      var k := |met| - 1;
      MeetsPrefix(plan, values0, e, n, met, k);
      MeetsPrefix(plan, values0, e, n, met', k);
      SamePoint(plan, values0, e, n, met[..k], met'[..k]);
      hide MayMeet;
      assert Unmoved(Following(plan[n].body.factory, met[..k]), met[k], met'[k]);
    }
  }

  lemma MeetsPrefix<W>(plan: Plan<W>, values0: Bindings, e: Sys<W>, n: nat, met: seq<Bindings>, k: nat)
    requires MayMeetAll(plan, values0, e, n, met) && k <= |met|
    ensures MayMeetAll(plan, values0, e, n, met[..k])
  {
    hide MayMeet;
  }

  lemma {:induction false} DoneStaysDone<W>(f: Factory<W>, met: seq<Bindings>, k: nat)
    requires k <= |met| && !Following(f, met[..k]).Ask?
    ensures Following(f, met) == Following(f, met[..k])
    decreases |met|
  {
    if k == |met| {
      assert met[..k] == met;
    } else {
      var shorter := met[..|met| - 1];
      assert shorter[..k] == met[..k];
      DoneStaysDone(f, shorter, k);
    }
  }

  /** The factory takes no snapshot and asks for these names only, whatever it has met. */
  ghost predicate AsksOnlyFor<W>(f: Factory<W>, names: set<string>) {
    forall met: seq<Bindings> :: AsksFor(Following(f, met), names)
  }

  ghost predicate AsksFor<W>(g: Factory<W>, names: set<string>) {
    g.Ask? ==> !g.query.Snapshot? && g.query.name in names
  }

  /** A factory that is done after one read. */
  lemma OneRead<W(!new)>(f: Factory<W>, name: string)
    requires f.Ask? && f.query == Get(name) && forall a :: !f.next(a).Ask?
    ensures AsksOnlyFor(f, {name})
  {
    forall met: seq<Bindings> ensures AsksFor(Following(f, met), {name}) {
      if met != [] {
        assert met[..1] == [] + [met[0]];
        FollowingOneMore(f, [], met[0]);
        DoneStaysDone(f, met, 1);
      }
    }
  }

  /** Enough for a factory not to be led astray: it asks only for names that no node neither above nor below
      its own has published. */
  lemma NamesKeepOnPath<W>(plan: Plan<W>, values0: Bindings, e: Sys<W>, n: nat, names: set<string>)
    requires n < |plan| && plan[n].body.Deferred? && AsksOnlyFor(plan[n].body.factory, names)
    requires forall x, v :: x in names ==> !ByOthers(plan, e, n, x, v)
    ensures StaysOnPath(plan, values0, e, n)
  {
    forall met, values, values' |
      && MayMeetAll(plan, values0, e, n, met)
      && MayMeet(plan, values0, e, n, values) && MayMeet(plan, values0, e, n, values')
      ensures Unmoved(Following(plan[n].body.factory, met), values, values')
    {
      var g := Following(plan[n].body.factory, met);
      assert AsksFor(g, names);
      if g.Ask? {
        SameAnswer(plan, values0, e, n, values, values', g.query);
      }
    }
  }

  lemma SameAnswer<W>(plan: Plan<W>, values0: Bindings, e: Sys<W>, n: nat, values: Bindings, values': Bindings,
      query: Query)
    requires MayMeet(plan, values0, e, n, values) && MayMeet(plan, values0, e, n, values')
    requires !query.Snapshot? && forall v :: !ByOthers(plan, e, n, query.name, v)
    ensures Lookup(values, query) == Lookup(values', query)
  {
    hide SeenBy, ByOthers;
  }

  /** Where no single read depends on the registry met, neither does the end. */
  lemma PathEndsAlike<W>(plan: Plan<W>, values0: Bindings, e: Sys<W>, n: nat)
    requires n < |plan| && plan[n].body.Deferred? && StaysOnPath(plan, values0, e, n)
    ensures EndsAlike(plan, values0, e, n)
  {
    var f := plan[n].body.factory;
    forall met, met' | MayMeetAll(plan, values0, e, n, met) && MayMeetAll(plan, values0, e, n, met')
      ensures SameEnd(Following(f, met), Following(f, met'))
    {
      if |met| <= |met'| {
        PathEndsOnce(plan, values0, e, n, met, met');
      } else {
        PathEndsOnce(plan, values0, e, n, met', met);
      }
    }
  }

  lemma PathEndsOnce<W>(plan: Plan<W>, values0: Bindings, e: Sys<W>, n: nat, met: seq<Bindings>, met': seq<Bindings>)
    requires n < |plan| && plan[n].body.Deferred? && StaysOnPath(plan, values0, e, n)
    requires MayMeetAll(plan, values0, e, n, met) && MayMeetAll(plan, values0, e, n, met') && |met| <= |met'|
    ensures SameEnd(Following(plan[n].body.factory, met), Following(plan[n].body.factory, met'))
  {
    hide StaysOnPath, MayMeetAll;
    var f := plan[n].body.factory;
    MeetsPrefix(plan, values0, e, n, met', |met|);
    SamePoint(plan, values0, e, n, met, met'[..|met|]);
    if !Following(f, met).Ask? {
      DoneStaysDone(f, met', |met|);
    }
  }

  lemma WayFacts<W>(plan: Plan<W>, values0: Bindings, s: Sys<W>, e: Sys<W>)
    requires OnWay(plan, values0, s, e)
    ensures SysOk(plan, s) && RegistryOk(plan, s) && GrownFrom(values0, s) && Toward(plan, values0, s, e)
    ensures forall n: nat :: n < |plan| ==> n < |s.changers| && OnPath(plan, values0, s, e, n)
  {
    hide SysOk, RegistryOk, GrownFrom, OnPath, SeenBy, Started;
  }

  /** Whoever has bound a name has started, and the binding is one of its entries. */
  lemma BoundByEntry<W>(plan: Plan<W>, s: Sys<W>, x: string)
    requires SysOk(plan, s) && RegistryOk(plan, s) && x in s.binder
    ensures var m := s.binder[x];
      && m < |plan| && Started(s, m) && x in s.values && (x, s.values[x]) in Entries(s, m)
      && (m in s.workers ==> s.workers[m].Publishing? || s.workers[m].Finished?)
  {
    var m := s.binder[x];
    assert m < |plan|;
    AccountOf(plan, s, m);
    hide Acyclic, Consistent, Runnable, RegistryOk, CrewOk, CallOk, LocalOk, WorkerOk;
    if m in s.workers && s.workers[m].Publishing? {
      var items := s.workers[m].items[..s.workers[m].next];
      var j :| 0 <= j < |items| && items[j].0 == x;
      assert items[j] in s.workers[m].items;
    } else if m in s.workers && s.workers[m].Finished? {
      AccountedEntry(plan[m], m, s.changers[m], s.calls[m], s.workers[m].report, s.values, s.binder, x);
    } else if m !in s.workers && m in s.reports {
      AccountedEntry(plan[m], m, s.changers[m], s.calls[m], s.reports[m], s.values, s.binder, x);
    }
  }

  lemma AccountedEntry<W>(node: Node<W>, n: nat, changer: Option<Changer<W>>, call: Option<Call>,
      report: NodeReport, values: Bindings, binder: map<string, nat>, x: string)
    requires Accounted(node, n, changer, call, report, values, binder) && x in binder && binder[x] == n
    ensures report.outcome != Blocked && call.Some? && call.value.returned.Mapping?
    ensures x in values && (x, values[x]) in call.value.returned.items
  {
    hide CallOk;
    var items := call.value.returned.items;
    if PublishEligible(report.outcome) {
      var j :| 0 <= j < |items| && items[j].0 == x;
      assert items[j] in items;
    } else {
      var k: nat :| RefusedEntry(items, n, report, values, binder, k);
      var j :| 0 <= j < |items[..k]| && items[..k][j].0 == x;
      assert items[j] in items;
    }
  }

  lemma OthersEntry<W>(plan: Plan<W>, values0: Bindings, s: Sys<W>, e: Sys<W>, n: nat, x: string)
    requires OnWay(plan, values0, s, e) && n in s.workers && s.workers[n].Resolving?
    requires x in s.binder && !Ancestor(Ups(plan), s.binder[x], n)
    ensures x in s.values && ByOthers(plan, e, n, x, s.values[x])
  {
    WayFacts(plan, values0, s, e);
    hide OnWay, SysOk, RegistryOk, GrownFrom, Ancestor, SeenBy, OnPath, Started;
    BoundByEntry(plan, s, x);
    StartedIncomparable(plan, s, n, s.binder[x]);
  }

  lemma SeenAsAtTheEnd<W>(plan: Plan<W>, values0: Bindings, s: Sys<W>, e: Sys<W>, n: nat)
    requires Toward(plan, values0, s, e) && n in s.workers
    ensures SeenBy(plan, values0, s, n) == SeenBy(plan, values0, e, n)
  {
    assert Started(s, n);
    hide SeenBy;
  }

  lemma NotSeen<W>(plan: Plan<W>, values0: Bindings, s: Sys<W>, n: nat, x: string)
    requires GrownFrom(values0, s) && x in s.values && x !in SeenBy(plan, values0, s, n)
    ensures x in s.binder && !Ancestor(Ups(plan), s.binder[x], n)
  {
    hide Ancestor;
  }

  /** The registry is one that the factory of a node in flight may meet. */
  lemma MeetsRegistry<W>(plan: Plan<W>, values0: Bindings, s: Sys<W>, e: Sys<W>, n: nat)
    requires OnWay(plan, values0, s, e) && n in s.workers && s.workers[n].Resolving?
    ensures MayMeet(plan, values0, e, n, s.values)
  {
    WayFacts(plan, values0, s, e);
    hide OnWay, SysOk, RegistryOk, GrownFrom, Toward, Ancestor, OnPath, ByOthers;
    SeenAsAtTheEnd(plan, values0, s, e, n);
    assert Extends(SeenBy(plan, values0, s, n), s.values);
    hide SeenBy;
    forall x | x in s.values && x !in SeenBy(plan, values0, s, n) ensures ByOthers(plan, e, n, x, s.values[x]) {
      NotSeen(plan, values0, s, n, x);
      OthersEntry(plan, values0, s, e, n, x);
    }
  }

  lemma NextIsEntry<W>(plan: Plan<W>, values0: Bindings, s: Sys<W>, e: Sys<W>, m: nat, x: string)
    requires OnWay(plan, values0, s, e) && m in s.workers && x in Delta(s.workers[m], s.values)
    ensures (x, Delta(s.workers[m], s.values)[x]) in Entries(e, m)
  {
    WayFacts(plan, values0, s, e);
    hide OnWay, SysOk, RegistryOk, GrownFrom, SeenBy, Started, CallOk, BoundExactly, Accounted, OnPath;
    WorkerFacts(plan, s, m);
    AccountOf(plan, s, m);
    assert s.workers[m].Publishing?;
    assert Entries(e, m) == s.workers[m].items;
    assert s.workers[m].items[s.workers[m].next] in s.workers[m].items;
  }

  lemma MeetsMore<W>(plan: Plan<W>, values0: Bindings, e: Sys<W>, n: nat, values: Bindings, d: Bindings)
    requires MayMeet(plan, values0, e, n, values) && d.Keys !! values.Keys
    requires forall x :: x in d ==> ByOthers(plan, e, n, x, d[x])
    ensures MayMeet(plan, values0, e, n, values + d)
  {
    hide SeenBy, ByOthers;
  }

  /** So is the registry after another node in flight has bound its next entry. */
  lemma MeetsOneMore<W>(plan: Plan<W>, values0: Bindings, s: Sys<W>, e: Sys<W>, n: nat, m: nat)
    requires OnWay(plan, values0, s, e) && n in s.workers && s.workers[n].Resolving? && m in s.workers && m != n
    ensures MayMeet(plan, values0, e, n, s.values + Delta(s.workers[m], s.values))
  {
    WayFacts(plan, values0, s, e);
    hide OnWay, SysOk, RegistryOk, GrownFrom, Toward, OnPath, Incomparable, Entries, Delta, MayMeet;
    MeetsRegistry(plan, values0, s, e, n);
    InFlightIncomparable(plan, s, n, m);
    var d := Delta(s.workers[m], s.values);
    forall x | x in d ensures ByOthers(plan, e, n, x, d[x]) {
      NextIsEntry(plan, values0, s, e, m, x);
    }
    DeltaIsNew(s.workers[m], s.values);
    MeetsMore(plan, values0, e, n, s.values, d);
  }

  lemma DeltaIsNew<W>(local: Local<W>, values: Bindings)
    ensures Delta(local, values).Keys !! values.Keys
  {
  }

  lemma ReadStep<W>(plan: Plan<W>, s: Sys<W>, n: nat)
    requires SysOk(plan, s) && n in s.workers && s.workers[n].Resolving?
    ensures var s', g := Turn(plan, s, n), s.workers[n].factory;
      && n < |plan| == |s'.changers| && n in s'.workers
      && (g.Ask? ==>
            s'.workers[n] == Resolving(g.next(Lookup(s.values, g.query))) && s'.changers[n] == s.changers[n] == None)
      && (!g.Ask? ==>
            !s'.workers[n].Resolving? && (s'.changers[n].Some? ==> g == Produce(s'.changers[n].value)))
      && s'.values == s.values
  {
    hide SysOk, AbsorbTurn, LocalOk;
    WorkerFacts(plan, s, n);
  }

  lemma ReadStaysOnPath<W>(plan: Plan<W>, values0: Bindings, s: Sys<W>, e: Sys<W>, n: nat)
    requires SysOk(plan, s) && n < |plan| && n < |s.changers| && OnPath(plan, values0, s, e, n)
    requires MayMeet(plan, values0, e, n, s.values) && n in s.workers && s.workers[n].Resolving?
    ensures n < |Turn(plan, s, n).changers| && OnPath(plan, values0, Turn(plan, s, n), e, n)
  {
    hide SysOk, LedTo, MayMeet, Turn;
    ReadStep(plan, s, n);
    var g := s.workers[n].factory;
    if plan[n].body.Deferred? && g.Ask? {
      LedByNext(plan, values0, e, n, s.values, g);
    }
  }

  /** A node that had not started: it still has not, or it is at the beginning. */
  lemma NotStartedAfter<W>(plan: Plan<W>, s: Sys<W>, k: nat, n: nat)
    requires SysOk(plan, s) && n < |plan| && !Started(s, n)
    ensures var s' := Turn(plan, s, k);
      && n < |s'.changers| && s'.changers[n] == Initial(plan[n]).0
      && (n in s'.workers ==> s'.workers[n] == Initial(plan[n]).1)
  {
    hide Acyclic, Consistent, Absorbed, Runnable, Step, CrewOk, WorkerOk, LocalOk;
  }

  /** A node that had started, and whose factory does not take this step. */
  lemma OthersStayOnPath<W>(plan: Plan<W>, s: Sys<W>, k: nat, n: nat)
    requires SysOk(plan, s) && n < |plan| && Started(s, n)
    requires !(n == k && n in s.workers && s.workers[n].Resolving?)
    ensures var s' := Turn(plan, s, k);
      && n < |s'.changers| && n < |s.changers| && s'.changers[n] == s.changers[n]
      && (n in s'.workers && s'.workers[n].Resolving? ==> n in s.workers && s'.workers[n] == s.workers[n])
  {
    WorkerOf(plan, s, n);
    hide SysOk;
    if k in s.workers {
      WorkerFacts(plan, s, k);
      if s.workers[k].Finished? {
        AbsorbedReports(plan, s, k);
        hide Turn, LocalOk;
      } else {
        StepKeeps(plan[k], CoreOf(plan, s, k));
        hide LocalOk, AbsorbTurn, Step;
      }
    }
  }

  /** A node that ran is not in flight. */
  lemma WorkerOf<W>(plan: Plan<W>, s: Sys<W>, n: nat)
    requires SysOk(plan, s) && Started(s, n)
    ensures n < |plan| == |s.changers| == |s.calls| && (n !in s.workers <==> n in s.reports)
  {
    hide Acyclic, Consistent, CrewOk;
  }

  /** A step keeps the account of where a node's factory was led, provided that a factory that reads the
      registry may meet it. */
  lemma TurnStaysOnPath<W>(plan: Plan<W>, values0: Bindings, s: Sys<W>, e: Sys<W>, k: nat, n: nat)
    requires SysOk(plan, s) && n < |plan| && n < |s.changers| && OnPath(plan, values0, s, e, n)
    requires n == k && n in s.workers && s.workers[n].Resolving? ==> MayMeet(plan, values0, e, n, s.values)
    ensures n < |Turn(plan, s, k).changers| && OnPath(plan, values0, Turn(plan, s, k), e, n)
  {
    hide SysOk, LedTo, Turn, MayMeet;
    if n == k && n in s.workers && s.workers[n].Resolving? {
      ReadStaysOnPath(plan, values0, s, e, n);
    } else if Started(s, n) {
      OthersStayOnPath(plan, s, k, n);
      TurnExtends(plan, s, k);
      StillOnPath(plan, values0, s, Turn(plan, s, k), e, n);
    } else {
      NotStartedAfter(plan, s, k, n);
      if plan[n].body.Deferred? {
        LedFromStart(plan, values0, e, n, Turn(plan, s, k).values);
      }
    }
  }

  lemma TurnExtends<W>(plan: Plan<W>, s: Sys<W>, k: nat)
    requires SysOk(plan, s)
    ensures Extends(s.values, Turn(plan, s, k).values)
  {
    hide SysOk, Turn, Delta;
    TurnAddsDelta(plan, s, k);
  }

  lemma StillOnPath<W>(plan: Plan<W>, values0: Bindings, s: Sys<W>, s': Sys<W>, e: Sys<W>, n: nat)
    requires n < |plan| && n < |s.changers| && n < |s'.changers| && OnPath(plan, values0, s, e, n)
    requires s'.changers[n] == s.changers[n] && Extends(s.values, s'.values)
    requires n in s'.workers && s'.workers[n].Resolving? ==> n in s.workers && s'.workers[n] == s.workers[n]
    ensures OnPath(plan, values0, s', e, n)
  {
    hide LedTo, Extends;
    if plan[n].body.Deferred? {
      if n in s'.workers && s'.workers[n].Resolving? {
        LedByMore(plan, values0, e, n, s.values, s'.values, s.workers[n].factory);
      }
      if s'.changers[n].Some? {
        LedByMore(plan, values0, e, n, s.values, s'.values, Produce(s.changers[n].value));
      }
    }
  }

  /** Every deferred changer is where registries that its factory may meet lead it, in every interleaving. */
  lemma TurnStaysOnWay<W>(plan: Plan<W>, values0: Bindings, s: Sys<W>, e: Sys<W>, k: nat)
    requires OnWay(plan, values0, s, e) && Toward(plan, values0, Turn(plan, s, k), e)
    ensures OnWay(plan, values0, Turn(plan, s, k), e)
  {
    WayFacts(plan, values0, s, e);
    TurnKeepsRegistryOk(plan, s, k);
    TurnKeepsGrownFrom(plan, values0, s, k);
    if k in s.workers && s.workers[k].Resolving? {
      MeetsRegistry(plan, values0, s, e, k);
    }
    forall n: nat | n < |plan|
      ensures n < |Turn(plan, s, k).changers| && OnPath(plan, values0, Turn(plan, s, k), e, n)
    {
      assert OnPath(plan, values0, s, e, n);
      hide OnWay, SysOk, RegistryOk, GrownFrom, Toward, OnPath, Turn, MayMeet;
      TurnStaysOnPath(plan, values0, s, e, k, n);
    }
    hide SysOk, RegistryOk, GrownFrom, Toward, OnPath, Turn, MayMeet;
  }

  lemma StartIsOnWay<W>(plan: Plan<W>, values: Bindings, world: W, schedule: seq<nat>)
    requires Acyclic(Ups(plan))
    ensures SysOk(plan, Start(plan, values, world))
    ensures OnWay(plan, values, Start(plan, values, world), RunOf(plan, values, world, schedule))
  {
    var s := Start(plan, values, world);
    StartIsAccounted(plan, values, world);
    assert GrownFrom(values, s);
    ExecIsToward(plan, values, s, schedule);
    var e := Exec(plan, s, schedule);
    hide SysOk, RegistryOk, GrownFrom, Toward, Exec, Runnable;
    forall n: nat | n < |plan| ensures OnPath(plan, values, s, e, n) {
      if plan[n].body.Deferred? {
        LedFromStart(plan, values, e, n, s.values);
      }
    }
  }

  /** All of a run that ends in e is on the way to e. */
  lemma {:induction false} ExecStaysOnWay<W>(plan: Plan<W>, values0: Bindings, s: Sys<W>, schedule: seq<nat>,
      rest: seq<nat>)
    requires SysOk(plan, s)
    requires OnWay(plan, values0, s, Exec(plan, s, schedule + rest))
    ensures OnWay(plan, values0, Exec(plan, s, schedule), Exec(plan, s, schedule + rest))
    decreases |schedule|
  {
    hide OnWay, Turn, SysOk;
    if schedule == [] {
    } else {
      assert (schedule + rest)[1..] == schedule[1..] + rest;
      NextIsOnWay(plan, values0, s, schedule + rest);
      ExecStaysOnWay(plan, values0, Turn(plan, s, schedule[0]), schedule[1..], rest);
    }
  }

  lemma NextIsOnWay<W>(plan: Plan<W>, values0: Bindings, s: Sys<W>, schedule: seq<nat>)
    requires SysOk(plan, s) && schedule != [] && OnWay(plan, values0, s, Exec(plan, s, schedule))
    ensures OnWay(plan, values0, Turn(plan, s, schedule[0]), Exec(plan, s, schedule))
  {
    hide SysOk, RegistryOk, GrownFrom, Toward, OnPath, Turn;
    TurnKeepsRegistryOk(plan, s, schedule[0]);
    TurnKeepsGrownFrom(plan, values0, s, schedule[0]);
    ExecIsToward(plan, values0, Turn(plan, s, schedule[0]), schedule[1..]);
    TurnStaysOnWay(plan, values0, s, Exec(plan, s, schedule), schedule[0]);
  }

  /** What a node can rely on it may also meet alone. */
  lemma SeenMayBeMet<W>(plan: Plan<W>, values0: Bindings, e: Sys<W>, n: nat)
    ensures MayMeet(plan, values0, e, n, SeenBy(plan, values0, e, n))
  {
  }

  /** If no factory can be led to another end, then in every state of every run that ends in e a deferred node
      holds a changer only if its factory, wherever it is led, ends by producing just that. One such way are
      reads of nothing but what was bound before the run and what the node's ancestors publish. */
  lemma ChangersComeFromAncestors<W>(plan: Plan<W>, values: Bindings, world: W, schedule: seq<nat>, rest: seq<nat>,
      n: nat, met: seq<Bindings>)
    requires Acyclic(Ups(plan)) && n < |plan| && plan[n].body.Deferred?
    requires FactoriesEndAlike(plan, values, RunOf(plan, values, world, schedule + rest))
    ensures var s, e := RunOf(plan, values, world, schedule), RunOf(plan, values, world, schedule + rest);
      && n < |s.changers|
      && MayMeet(plan, values, e, n, SeenBy(plan, values, e, n))
      && (s.changers[n].Some? && MayMeetAll(plan, values, e, n, met) ==>
            SameEnd(Following(plan[n].body.factory, met), Produce(s.changers[n].value)))
  {
    StartIsOnWay(plan, values, world, schedule + rest);
    ExecStaysOnWay(plan, values, Start(plan, values, world), schedule, rest);
    var s, e := RunOf(plan, values, world, schedule), RunOf(plan, values, world, schedule + rest);
    SeenMayBeMet(plan, values, e, n);
    WayFacts(plan, values, s, e);
    hide OnWay, SysOk, RegistryOk, GrownFrom, Exec, RunOf, SeenBy, MayMeet, MayMeetAll, UpTo;
    assert OnPath(plan, values, s, e, n);
    if s.changers[n].Some? && MayMeetAll(plan, values, e, n, met) {
      HoldersHaveStarted(plan, s, n);
      var f := plan[n].body.factory;
      var how :| MayMeetAll(plan, values, e, n, how) && UpTo(how, s.values)
        && Following(f, how) == Produce(s.changers[n].value);
      assert SameEnd(Following(f, met), Following(f, how));
    }
  }

  /** A deferred node that holds a changer has started. */
  lemma HoldersHaveStarted<W>(plan: Plan<W>, s: Sys<W>, n: nat)
    requires SysOk(plan, s) && n < |plan| && n < |s.changers| && plan[n].body.Deferred? && s.changers[n].Some?
    ensures Started(s, n)
  {
    hide Acyclic, Consistent, Runnable, CrewOk;
  }
}
