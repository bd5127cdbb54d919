/** Determinism of the dataflow. Reads leave no trace, so a factory may as well be replaced by the end it comes
    to; the runs of a plan are then runs of a plan whose factories never read, with the reads left out. This
    needs no two reads to agree on the way, only factories that cannot be led to different ends. */
module Dataflow {
  import opened Outcomes
  import opened Registry
  import opened Workers
  import opened Dag
  import opened Scheduling
  import opened Machine
  import opened Accounts
  import opened Provenance
  import opened Determinism
  import opened Confluence

  /** In the run that ended in e, nodes neither above nor below each other were separate, and no factory that
      ran could be led to another end by what such nodes published. */
  ghost predicate KeptApart<W(!new)>(plan: Plan<W>, values0: Bindings, e: Sys<W>) {
    AllSeparate(plan, e) && FactoriesEndAlike(plan, values0, e)
  }

  /** Nodes that are apart read by read are kept apart. */
  lemma ApartIsKeptApart<W(!new)>(plan: Plan<W>, values0: Bindings, e: Sys<W>)
    requires Apart(plan, values0, e)
    ensures KeptApart(plan, values0, e)
  {
    forall n: nat | n < |plan| && plan[n].body.Deferred? && Started(e, n) ensures EndsAlike(plan, values0, e, n) {
      PathEndsAlike(plan, values0, e, n);
    }
    hide AllSeparate, EndsAlike, Started;
  }

  // ---- the plan without reads ----

  ghost predicate CanEnd<W>(plan: Plan<W>, values0: Bindings, e: Sys<W>, n: nat, met: seq<Bindings>)
    requires n < |plan| && plan[n].body.Deferred?
  {
    MayMeetAll(plan, values0, e, n, met) && !Following(plan[n].body.factory, met).Ask?
  }

  /** The end that n's factory comes to. */
  ghost function EndOf<W>(plan: Plan<W>, values0: Bindings, e: Sys<W>, n: nat): (g: Factory<W>)
    requires n < |plan| && plan[n].body.Deferred?
    ensures !g.Ask?
  {
    if exists met :: CanEnd(plan, values0, e, n, met) then
      var met :| CanEnd(plan, values0, e, n, met);
      Following(plan[n].body.factory, met)
    else Fail(Exception(""))
  }

  lemma LedToEndOf<W>(plan: Plan<W>, values0: Bindings, e: Sys<W>, n: nat, values: Bindings, g: Factory<W>)
    requires n < |plan| && plan[n].body.Deferred? && EndsAlike(plan, values0, e, n)
    requires LedTo(plan, values0, e, n, values, g) && !g.Ask?
    ensures g == EndOf(plan, values0, e, n)
  {
    hide MayMeetAll, UpTo;
    var f := plan[n].body.factory;
    var met :| MayMeetAll(plan, values0, e, n, met) && UpTo(met, values) && Following(f, met) == g;
    assert CanEnd(plan, values0, e, n, met);
    assert exists met :: CanEnd(plan, values0, e, n, met);
    var how :| CanEnd(plan, values0, e, n, how) && Following(f, how) == EndOf(plan, values0, e, n);
    assert MayMeetAll(plan, values0, e, n, how);
    assert SameEnd(Following(f, met), Following(f, how));
  }

  ghost function ShortNode<W>(plan: Plan<W>, values0: Bindings, e: Sys<W>, n: nat): Node<W>
    requires n < |plan|
  {
    match plan[n].body
    case Given(_) => plan[n]
    case Deferred(placeholder, _) => plan[n].(body := Deferred(placeholder, EndOf(plan, values0, e, n)))
  }

  /** The plan in which every factory comes to its end at once. */
  ghost function Short<W>(plan: Plan<W>, values0: Bindings, e: Sys<W>): Plan<W> {
    seq(|plan|, n requires 0 <= n < |plan| => ShortNode(plan, values0, e, n))
  }

  ghost function ShortLocal<W>(plan: Plan<W>, values0: Bindings, e: Sys<W>, n: nat, local: Local<W>): Local<W> {
    if local.Resolving? && n < |plan| && plan[n].body.Deferred? then Resolving(EndOf(plan, values0, e, n)) else local
  }

  ghost function ShortWorkers<W>(plan: Plan<W>, values0: Bindings, e: Sys<W>,
      workers: map<nat, Local<W>>): map<nat, Local<W>> {
    map n | n in workers :: ShortLocal(plan, values0, e, n, workers[n])
  }

  /** s without what the factories have read so far. */
  ghost function Shortened<W>(plan: Plan<W>, values0: Bindings, e: Sys<W>, s: Sys<W>): Sys<W> {
    s.(workers := ShortWorkers(plan, values0, e, s.workers))
  }

  lemma SameGraph<W>(plan: Plan<W>, values0: Bindings, e: Sys<W>)
    ensures Ups(Short(plan, values0, e)) == Ups(plan) && Names(Short(plan, values0, e)) == Names(plan)
    ensures |Short(plan, values0, e)| == |plan|
  {
    var short := Short(plan, values0, e);
    hide EndOf;
    assert forall n :: 0 <= n < |plan| ==> short[n].upstreams == plan[n].upstreams && short[n].Name() == plan[n].Name();
  }

  lemma ShortCrewOk<W>(plan: Plan<W>, values0: Bindings, e: Sys<W>, s: Sys<W>, n: nat)
    requires SysOk(plan, s) && n in s.workers
    ensures var t := Shortened(plan, values0, e, s);
      && n < |plan| && n in t.workers
      && WorkerOk(Short(plan, values0, e)[n], t.changers[n], t.workers[n]) && LocalOk(t.workers[n])
  {
    WorkerFacts(plan, s, n);
    hide SysOk, EndOf;
  }

  lemma ShortIsOk<W>(plan: Plan<W>, values0: Bindings, e: Sys<W>, s: Sys<W>)
    requires SysOk(plan, s)
    ensures SysOk(Short(plan, values0, e), Shortened(plan, values0, e, s))
  {
    var t, short := Shortened(plan, values0, e, s), Short(plan, values0, e);
    SameGraph(plan, values0, e);
    assert t.workers.Keys == s.workers.Keys;
    hide Acyclic, Consistent, Runnable, WorkerOk, LocalOk;
    forall n | n in t.workers
      ensures n < |plan| && WorkerOk(short[n], t.changers[n], t.workers[n]) && LocalOk(t.workers[n])
    {
      ShortCrewOk(plan, values0, e, s, n);
    }
    hide Short, ShortLocal, ShortWorkers;
    forall n: nat | n < |plan| && !Started(t, n) ensures t.changers[n] == Initial(short[n]).0 {
      assert !Started(s, n);
      SameInitialChanger(plan, values0, e, n);
    }
    hide Started;
  }

  lemma SameInitialChanger<W>(plan: Plan<W>, values0: Bindings, e: Sys<W>, n: nat)
    requires n < |plan|
    ensures n < |Short(plan, values0, e)| && Initial(Short(plan, values0, e)[n]).0 == Initial(plan[n]).0
  {
    hide EndOf;
  }

  // ---- steps of the two plans ----

  /** A read changes only what the worker has read. */
  lemma ReadLeavesNoTrace<W>(plan: Plan<W>, values0: Bindings, e: Sys<W>, s: Sys<W>, k: nat)
    requires SysOk(plan, s) && k in s.workers && s.workers[k].Resolving? && s.workers[k].factory.Ask?
    ensures Shortened(plan, values0, e, Turn(plan, s, k)) == Shortened(plan, values0, e, s)
  {
    hide SysOk, Turn, ShortLocal;
    WorkerFacts(plan, s, k);
    ReadOnly(plan, s, k);
    var s' := Turn(plan, s, k);
    SameResolving(plan, values0, e, k, s.workers[k], s'.workers[k]);
    ShortenedWith(plan, values0, e, s, k, s'.workers[k]);
  }

  lemma SameResolving<W>(plan: Plan<W>, values0: Bindings, e: Sys<W>, n: nat, before: Local<W>, after: Local<W>)
    requires before.Resolving? && after.Resolving? && n < |plan| && plan[n].body.Deferred?
    ensures ShortLocal(plan, values0, e, n, before) == ShortLocal(plan, values0, e, n, after)
  {
  }

  /** Shortening after one worker has moved. */
  lemma ShortenedWith<W>(plan: Plan<W>, values0: Bindings, e: Sys<W>, s: Sys<W>, k: nat, local: Local<W>)
    requires k in s.workers
    ensures Shortened(plan, values0, e, s.(workers := s.workers[k := local])).workers
         == Shortened(plan, values0, e, s).workers[k := ShortLocal(plan, values0, e, k, local)]
    ensures Shortened(plan, values0, e, s).workers[k] == ShortLocal(plan, values0, e, k, s.workers[k])
    ensures ShortLocal(plan, values0, e, k, local) == ShortLocal(plan, values0, e, k, s.workers[k]) ==>
              Shortened(plan, values0, e, s.(workers := s.workers[k := local])) == Shortened(plan, values0, e, s)
  {
    hide ShortLocal;
    var before, after := Shortened(plan, values0, e, s).workers,
      Shortened(plan, values0, e, s.(workers := s.workers[k := local])).workers;
    assert after == before[k := ShortLocal(plan, values0, e, k, local)];
    assert ShortLocal(plan, values0, e, k, local) == before[k] ==> before[k := before[k]] == before;
  }

  lemma ReadOnly<W>(plan: Plan<W>, s: Sys<W>, k: nat)
    requires SysOk(plan, s) && k in s.workers && s.workers[k].Resolving? && s.workers[k].factory.Ask?
    ensures var s' := Turn(plan, s, k);
      && k in s'.workers && s'.workers[k].Resolving? && s' == s.(workers := s.workers[k := s'.workers[k]])
  {
    hide SysOk, AbsorbTurn, Step;
    WorkerFacts(plan, s, k);
    ReadCore(plan[k], CoreOf(plan, s, k));
    assert s.values.Keys - s.values.Keys == {};
    assert s.binder + map[] == s.binder;
  }

  lemma ReadCore<W>(node: Node<W>, c: Core<W>)
    requires WorkerOk(node, c.changer, c.local) && c.local.Resolving? && c.local.factory.Ask?
    ensures var d := Step(node, c);
      d.local.Resolving? && d.changer == c.changer && d.call == c.call && d.values == c.values && d.world == c.world
  {
  }

  /** A step that is no read, in both plans. */
  lemma WorkerStepsAlike<W>(plan: Plan<W>, values0: Bindings, e: Sys<W>, s: Sys<W>, k: nat)
    requires SysOk(plan, s) && k in s.workers && !s.workers[k].Finished?
    requires SysOk(Short(plan, values0, e), Shortened(plan, values0, e, s))
    requires s.workers[k].Resolving? && plan[k].body.Deferred? ==>
               s.workers[k].factory == EndOf(plan, values0, e, k)
    ensures var t := Shortened(plan, values0, e, s);
      && k in t.workers
      && Shortened(plan, values0, e, WorkerTurn(plan, s, k)) == WorkerTurn(Short(plan, values0, e), t, k)
  {
    hide SysOk, EndOf, LocalOk, Short, WorkerOk, Step;
    WorkerFacts(plan, s, k);
    var t, short := Shortened(plan, values0, e, s), Short(plan, values0, e);
    ShortNodeFacts(plan, values0, e, s, k);
    var c := CoreOf(plan, s, k);
    assert CoreOf(short, t, k) == c;
    SameStep(plan[k], short[k], c);
    var d := Step(plan[k], c);
    assert ShortLocal(plan, values0, e, k, d.local) == d.local;
    hide ShortLocal;
    ShortenedWith(plan, values0, e, s, k, d.local);
  }

  lemma ShortNodeFacts<W>(plan: Plan<W>, values0: Bindings, e: Sys<W>, s: Sys<W>, k: nat)
    requires k < |plan| && k in s.workers
    requires WorkerOk(plan[k], if k < |s.changers| then s.changers[k] else None, s.workers[k])
    requires s.workers[k].Resolving? && plan[k].body.Deferred? ==>
               s.workers[k].factory == EndOf(plan, values0, e, k)
    ensures var t, short := Shortened(plan, values0, e, s), Short(plan, values0, e);
      && k < |short| && k in t.workers && t.workers[k] == s.workers[k]
      && short[k].publishes == plan[k].publishes
      && (plan[k].body.Deferred? ==>
            short[k].body.Deferred? && short[k].body.placeholder == plan[k].body.placeholder)
      && (s.workers[k].Resolving? ==> !s.workers[k].factory.Ask?)
  {
    hide EndOf;
  }

  lemma SameStep<W>(a: Node<W>, b: Node<W>, c: Core<W>)
    requires WorkerOk(a, c.changer, c.local) && a.publishes == b.publishes
    requires a.body.Deferred? ==> b.body.Deferred? && b.body.placeholder == a.body.placeholder
    requires c.local.Resolving? ==> !c.local.factory.Ask?
    ensures WorkerOk(b, c.changer, c.local) && Step(b, c) == Step(a, c)
    ensures !Step(a, c).local.Resolving?
  {
  }

  lemma AbsorptionsAlike<W>(plan: Plan<W>, values0: Bindings, e: Sys<W>, s: Sys<W>, k: nat, r: NodeReport)
    requires SysOk(plan, s) && k in s.workers && s.workers[k] == Finished(r)
    requires SysOk(Short(plan, values0, e), Shortened(plan, values0, e, s))
    ensures var t := Shortened(plan, values0, e, s);
      && k in t.workers && t.workers[k] == Finished(r)
      && Shortened(plan, values0, e, AbsorbTurn(plan, s, k, r)) == AbsorbTurn(Short(plan, values0, e), t, k, r)
  {
    SameGraph(plan, values0, e);
    var t := Shortened(plan, values0, e, s);
    assert t.reports == s.reports;
    hide SysOk, EndOf, Absorbed;
    var reports := Absorbed(Ups(plan), Names(plan), s.reports, k, r);
    RefillsAlike(plan, values0, e, s.workers, reports);
    hide Refill, ShortWorkers;
  }

  lemma RefillsAlike<W>(plan: Plan<W>, values0: Bindings, e: Sys<W>, workers: map<nat, Local<W>>, reports: Reports)
    requires Ups(Short(plan, values0, e)) == Ups(plan)
    ensures ShortWorkers(plan, values0, e, Refill(plan, reports, workers))
         == Refill(Short(plan, values0, e), reports, ShortWorkers(plan, values0, e, workers))
  {
    var left := ShortWorkers(plan, values0, e, Refill(plan, reports, workers));
    var right := Refill(Short(plan, values0, e), reports, ShortWorkers(plan, values0, e, workers));
    hide Runnable, ShortLocal, Short;
    forall n | n in Runnable(Ups(plan), reports)
      ensures n in left && n in right && left[n] == right[n]
    {
      RunnableInRange(plan, reports, n);
      RefilledAlike(plan, values0, e, n, if n in workers then Some(workers[n]) else None);
    }
    assert left.Keys == right.Keys;
  }

  lemma RunnableInRange<W>(plan: Plan<W>, reports: Reports, n: nat)
    requires n in Runnable(Ups(plan), reports)
    ensures n < |plan|
  {
  }

  lemma RefilledAlike<W>(plan: Plan<W>, values0: Bindings, e: Sys<W>, n: nat, worker: Option<Local<W>>)
    requires n < |plan|
    ensures n < |Short(plan, values0, e)|
    ensures ShortLocal(plan, values0, e, n, if worker.Some? then worker.value else Initial(plan[n]).1)
         == if worker.Some? then ShortLocal(plan, values0, e, n, worker.value)
            else Initial(Short(plan, values0, e)[n]).1
  {
    hide EndOf;
  }

  /** Any step: a read is left out, every other step is the same step of the shorter plan. */
  lemma TurnsAlike<W>(plan: Plan<W>, values0: Bindings, e: Sys<W>, s: Sys<W>, k: nat)
    requires SysOk(plan, s) && k in s.workers
    requires k < |plan| && plan[k].body.Deferred? && s.workers[k].Resolving? && !s.workers[k].factory.Ask? ==>
               s.workers[k].factory == EndOf(plan, values0, e, k)
    ensures var t, short := Shortened(plan, values0, e, s), Short(plan, values0, e);
      && SysOk(short, t) && k in t.workers
      && Shortened(plan, values0, e, Turn(plan, s, k))
           == if s.workers[k].Resolving? && s.workers[k].factory.Ask? then t else Turn(short, t, k)
  {
    ShortIsOk(plan, values0, e, s);
    WorkerFacts(plan, s, k);
    hide SysOk, Short, EndOf, WorkerTurn, AbsorbTurn, LocalOk;
    if s.workers[k].Resolving? && s.workers[k].factory.Ask? {
      ReadLeavesNoTrace(plan, values0, e, s, k);
    } else if s.workers[k].Finished? {
      AbsorptionsAlike(plan, values0, e, s, k, s.workers[k].report);
    } else {
      WorkerStepsAlike(plan, values0, e, s, k);
    }
  }

  lemma SameMeetings<W>(plan: Plan<W>, values0: Bindings, e: Sys<W>, n: nat, values: Bindings)
    ensures MayMeet(Short(plan, values0, e), values0, e, n, values) <==> MayMeet(plan, values0, e, n, values)
  {
    SameGraph(plan, values0, e);
    var short := Short(plan, values0, e);
    hide Short, Ancestor;
    assert SeenBy(short, values0, e, n) == SeenBy(plan, values0, e, n);
    forall x, v ensures ByOthers(short, e, n, x, v) <==> ByOthers(plan, e, n, x, v) {
      if ByOthers(plan, e, n, x, v) {
        SameOthers(plan, short, e, n, x, v);
      }
      if ByOthers(short, e, n, x, v) {
        SameOthers(short, plan, e, n, x, v);
      }
    }
    hide SeenBy, ByOthers;
  }

  lemma SameOthers<W>(plan: Plan<W>, short: Plan<W>, e: Sys<W>, n: nat, x: string, v: Value)
    requires Ups(short) == Ups(plan) && |short| == |plan| && ByOthers(plan, e, n, x, v)
    ensures ByOthers(short, e, n, x, v)
  {
    hide Ancestor;
    var m: nat :| Incomparable(plan, n, m) && (x, v) in Entries(e, m);
    assert Incomparable(short, n, m);
  }

  // ---- runs of the two plans ----

  lemma EndIsForegone<W>(plan: Plan<W>, values0: Bindings, s: Sys<W>, e: Sys<W>, k: nat)
    requires SysOk(plan, s) && k in s.workers && k < |plan| && k < |s.changers| && OnPath(plan, values0, s, e, k)
    requires FactoriesEndAlike(plan, values0, e) && Started(e, k)
    ensures plan[k].body.Deferred? && s.workers[k].Resolving? && !s.workers[k].factory.Ask? ==>
              s.workers[k].factory == EndOf(plan, values0, e, k)
  {
    hide SysOk, LedTo, EndsAlike, EndOf, Started;
    if plan[k].body.Deferred? && s.workers[k].Resolving? && !s.workers[k].factory.Ask? {
      LedToEndOf(plan, values0, e, k, s.values, s.workers[k].factory);
    }
  }

  /** A run that ends in e, with its reads left out, is a run of the shorter plan. */
  lemma {:induction false} ShortenRun<W>(plan: Plan<W>, values0: Bindings, s: Sys<W>, schedule: seq<nat>,
      e: Sys<W>) returns (shorter: seq<nat>)
    requires SysOk(plan, s) && Effective(plan, s, schedule) && e == Exec(plan, s, schedule)
    requires OnWay(plan, values0, s, e) && FactoriesEndAlike(plan, values0, e)
    ensures SysOk(Short(plan, values0, e), Shortened(plan, values0, e, s))
    ensures Effective(Short(plan, values0, e), Shortened(plan, values0, e, s), shorter)
    ensures Exec(Short(plan, values0, e), Shortened(plan, values0, e, s), shorter) == Shortened(plan, values0, e, e)
    decreases |schedule|
  {
    hide SysOk, OnWay, FactoriesEndAlike, Turn, Short, Shortened;
    ShortIsOk(plan, values0, e, s);
    if schedule == [] {
      shorter := [];
    } else {
      var k := schedule[0];
      StepOfLeadShortens(plan, values0, s, e, k);
      NextIsOnWay(plan, values0, s, schedule);
      var rest := ShortenRun(plan, values0, Turn(plan, s, k), schedule[1..], e);
      if s.workers[k].Resolving? && s.workers[k].factory.Ask? {
        shorter := rest;
      } else {
        shorter := [k] + rest;
        assert shorter[1..] == rest;
      }
    }
  }

  lemma StepOfLeadShortens<W>(plan: Plan<W>, values0: Bindings, s: Sys<W>, e: Sys<W>, k: nat)
    requires SysOk(plan, s) && k in s.workers && OnWay(plan, values0, s, e) && FactoriesEndAlike(plan, values0, e)
    ensures var t, short := Shortened(plan, values0, e, s), Short(plan, values0, e);
      && SysOk(short, t) && k in t.workers
      && Shortened(plan, values0, e, Turn(plan, s, k))
           == if s.workers[k].Resolving? && s.workers[k].factory.Ask? then t else Turn(short, t, k)
  {
    WayFacts(plan, values0, s, e);
    WorkerFacts(plan, s, k);
    assert Started(s, k);
    assert Started(e, k);
    hide OnWay, SysOk, RegistryOk, GrownFrom, Toward, FactoriesEndAlike, Turn, Short, Shortened, EndOf, LocalOk;
    EndIsForegone(plan, values0, s, e, k);
    TurnsAlike(plan, values0, e, s, k);
  }

  /** Any complete run of the plan ends in e, if the shorter plan can still get there from where the run is
      and its factories have been led as they may be. */
  lemma {:induction false} RunArrives<W(!new)>(plan: Plan<W>, values0: Bindings, s: Sys<W>, schedule: seq<nat>,
      e: Sys<W>, part: seq<nat>)
    requires SysOk(plan, s) && Complete(Exec(plan, s, schedule)) && Complete(e)
    requires Leads(Short(plan, values0, e), values0, Shortened(plan, values0, e, s), part, e)
    requires FactoriesEndAlike(plan, values0, e)
    requires forall n: nat :: n < |plan| ==> n < |s.changers| && OnPath(plan, values0, s, e, n)
    ensures Exec(plan, s, schedule) == e
    decreases |schedule|
  {
    if schedule == [] {
      hide SysOk, OnWay, Apart, FactoriesEndAlike, Short;
      assert Shortened(plan, values0, e, s) == s;
    } else {
      var k := schedule[0];
      hide SysOk, Leads, Complete, FactoriesEndAlike, Short, Shortened, OnPath, Turn;
      if k in s.workers {
        var part' := StepArrives(plan, values0, s, e, part, k);
        RunArrives(plan, values0, Turn(plan, s, k), schedule[1..], e, part');
      } else {
        IdleTurn(plan, s, k);
        RunArrives(plan, values0, s, schedule[1..], e, part);
      }
    }
  }

  lemma IdleTurn<W>(plan: Plan<W>, s: Sys<W>, k: nat)
    requires SysOk(plan, s) && k !in s.workers
    ensures Turn(plan, s, k) == s
  {
  }

  /** One step on: what is left of the shorter plan's run, with its factories' account kept. */
  lemma StepArrives<W(!new)>(plan: Plan<W>, values0: Bindings, s: Sys<W>, e: Sys<W>, part: seq<nat>, k: nat)
      returns (part': seq<nat>)
    requires SysOk(plan, s) && k in s.workers && Complete(e)
    requires Leads(Short(plan, values0, e), values0, Shortened(plan, values0, e, s), part, e)
    requires FactoriesEndAlike(plan, values0, e)
    requires forall n: nat :: n < |plan| ==> n < |s.changers| && OnPath(plan, values0, s, e, n)
    ensures Leads(Short(plan, values0, e), values0, Shortened(plan, values0, e, Turn(plan, s, k)), part', e)
    ensures forall n: nat :: n < |plan| ==>
              n < |Turn(plan, s, k).changers| && OnPath(plan, values0, Turn(plan, s, k), e, n)
  {
    WorkerFacts(plan, s, k);
    var short, t := Short(plan, values0, e), Shortened(plan, values0, e, s);
    LeadFacts(plan, values0, s, e, part, k);
    forall n: nat | n < |plan|
      ensures n < |Turn(plan, s, k).changers| && OnPath(plan, values0, Turn(plan, s, k), e, n)
    {
      hide SysOk, Leads, FactoriesEndAlike, Short, Shortened, OnPath, Turn, MayMeet;
      TurnStaysOnPath(plan, values0, s, e, k, n);
    }
    hide SysOk, Leads, FactoriesEndAlike, Short, Shortened, OnPath, Turn, LocalOk, WorkerOk;
    EndIsForegone(plan, values0, s, e, k);
    TurnsAlike(plan, values0, e, s, k);
    if s.workers[k].Resolving? && s.workers[k].factory.Ask? {
      part' := part;
    } else {
      LeadIsRun(short, values0, t, part, e);
      MentionedBeforeRest(short, t, part, k);
      PullForward(short, values0, t, part, e, k);
      part' := Without(part, k);
    }
  }

  lemma LeadIsRun<W(!new)>(plan: Plan<W>, values0: Bindings, s: Sys<W>, schedule: seq<nat>, e: Sys<W>)
    requires Leads(plan, values0, s, schedule, e)
    ensures SysOk(plan, s) && Exec(plan, s, schedule) == e
  {
  }

  /** A node in flight in s has started in e, and if its factory reads, it may meet the registry. */
  lemma LeadFacts<W(!new)>(plan: Plan<W>, values0: Bindings, s: Sys<W>, e: Sys<W>, part: seq<nat>, k: nat)
    requires SysOk(plan, s) && k in s.workers
    requires Leads(Short(plan, values0, e), values0, Shortened(plan, values0, e, s), part, e)
    ensures Started(e, k)
    ensures s.workers[k].Resolving? ==> MayMeet(plan, values0, e, k, s.values)
  {
    var short, t := Short(plan, values0, e), Shortened(plan, values0, e, s);
    WorkerFacts(plan, s, k);
    hide SysOk, Short, EndOf, Apart, LocalOk;
    WayFacts(short, values0, t, e);
    assert Started(t, k);
    hide OnWay, RegistryOk, GrownFrom, OnPath, MayMeet;
    if s.workers[k].Resolving? {
      MeetsRegistry(short, values0, t, e, k);
      SameMeetings(plan, values0, e, k, s.values);
    }
  }

  lemma ShortIsApart<W(!new)>(plan: Plan<W>, values0: Bindings, e: Sys<W>)
    requires AllSeparate(plan, e)
    ensures Apart(Short(plan, values0, e), values0, e)
  {
    SameGraph(plan, values0, e);
    var short := Short(plan, values0, e);
    forall n: nat | n < |short| && short[n].body.Deferred? ensures StaysOnPath(short, values0, e, n) {
      assert !short[n].body.factory.Ask?;
      NeverReads(short, values0, e, n);
    }
    forall n: nat, m: nat | Incomparable(short, n, m)
      ensures n < |plan| && m < |plan| && |e.changers| == |plan| && Separate(e, n, m)
    {
      assert Incomparable(plan, n, m);
    }
    hide Short, StaysOnPath, Separate, Incomparable;
  }

  lemma NeverReads<W>(plan: Plan<W>, values0: Bindings, e: Sys<W>, n: nat)
    requires n < |plan| && plan[n].body.Deferred? && !plan[n].body.factory.Ask?
    ensures StaysOnPath(plan, values0, e, n)
  {
    forall met: seq<Bindings> ensures Following(plan[n].body.factory, met) == plan[n].body.factory {
      DoneStaysDone(plan[n].body.factory, met, 0);
    }
    hide MayMeet, MayMeetAll;
  }

  lemma StartShortened<W>(plan: Plan<W>, values0: Bindings, e: Sys<W>, world: W)
    ensures Shortened(plan, values0, e, Start(plan, values0, world)) == Start(Short(plan, values0, e), values0, world)
  {
    SameGraph(plan, values0, e);
    var s, short := Start(plan, values0, world), Short(plan, values0, e);
    RefillsAlike(plan, values0, e, map[], map[]);
    assert s.changers == Start(short, values0, world).changers by {
      hide EndOf, Runnable;
    }
    hide Refill, EndOf;
    assert ShortWorkers(plan, values0, e, map[]) == map[];
  }

  /** If the nodes of one complete run were kept apart, every complete run, idle steps included, ends in the
      same state. */
  lemma CompleteRunsAgree<W(!new)>(plan: Plan<W>, values: Bindings, world: W, first: seq<nat>, second: seq<nat>)
    requires Acyclic(Ups(plan)) && KeptApart(plan, values, RunOf(plan, values, world, first))
    requires Complete(RunOf(plan, values, world, first)) && Complete(RunOf(plan, values, world, second))
    ensures RunOf(plan, values, world, first) == RunOf(plan, values, world, second)
  {
    var s, e := Start(plan, values, world), RunOf(plan, values, world, first);
    StartIsOnWay(plan, values, world, first);
    var busy := DropIdleSteps(plan, s, first);
    var shorter := ShortenRun(plan, values, s, busy, e);
    ShortRunLeads(plan, values, world, e, shorter);
    StartShortened(plan, values, e, world);
    WayFacts(plan, values, s, e);
    hide SysOk, OnWay, Leads, AllSeparate, FactoriesEndAlike, Short, Shortened, Start, Complete, OnPath;
    RunArrives(plan, values, s, second, e, shorter);
  }

  lemma ShortRunLeads<W(!new)>(plan: Plan<W>, values: Bindings, world: W, e: Sys<W>, shorter: seq<nat>)
    requires AllSeparate(plan, e) && Complete(e) && Acyclic(Ups(plan))
    requires SysOk(Short(plan, values, e), Shortened(plan, values, e, Start(plan, values, world)))
    requires Effective(Short(plan, values, e), Shortened(plan, values, e, Start(plan, values, world)), shorter)
    requires Exec(Short(plan, values, e), Shortened(plan, values, e, Start(plan, values, world)), shorter)
          == Shortened(plan, values, e, e)
    ensures Leads(Short(plan, values, e), values, Shortened(plan, values, e, Start(plan, values, world)), shorter, e)
  {
    assert Shortened(plan, values, e, e) == e;
    StartShortened(plan, values, e, world);
    SameGraph(plan, values, e);
    ShortIsApart(plan, values, e);
    hide SysOk, Leads, AllSeparate, Short, Shortened, Start, Complete, Apart, Effective;
    StartLeads(Short(plan, values, e), values, world, shorter);
  }

  /** Take any plan whose factories return, and its reference run, which works through the nodes one by one in
      registration order. If nodes neither above nor below each other came to hold changers there that do not
      interfere, published different names, and could lead no factory that ran to another end, then every run
      that comes to rest, whatever the interleaving of worker steps, binds and absorptions, ends in the state
      of the reference run: the same reports, the same registry, the same world. */
  lemma EveryRunIsOneByOne<W(!new)>(plan: Plan<W>, values: Bindings, world: W, schedule: seq<nat>)
    requires Acyclic(Ups(plan)) && AllReturn(plan) && KeptApart(plan, values, Reference(plan, values, world))
    requires Complete(RunOf(plan, values, world, schedule))
    ensures RunOf(plan, values, world, schedule) == Reference(plan, values, world)
  {
    hide SysOk, AllReturn, KeptApart, Reference, RunOf, Effective, Complete;
    var reference := ReferenceIsARun(plan, values, world);
    CompleteRunsAgree(plan, values, world, reference, schedule);
  }

  /** Then a run that is cut short anywhere can be completed to the end of the reference run. */
  lemma EveryRunCanArrive<W(!new)>(plan: Plan<W>, values: Bindings, world: W, schedule: seq<nat>)
      returns (rest: seq<nat>)
    requires Acyclic(Ups(plan)) && AllReturn(plan) && KeptApart(plan, values, Reference(plan, values, world))
    ensures RunOf(plan, values, world, schedule + rest) == Reference(plan, values, world)
  {
    hide SysOk, AllReturn, KeptApart, Reference, RunOf, Complete;
    rest := RestIsReachable(plan, values, world, schedule);
    EveryRunIsOneByOne(plan, values, world, schedule + rest);
  }

  /** The reports of s are those of the sequential pass over the node reports run. */
  ghost predicate SequentialReports<W>(plan: Plan<W>, s: Sys<W>, run: nat -> NodeReport)
    requires Acyclic(Ups(plan))
  {
    forall n :: 0 <= n < |plan| ==>
      n in s.reports && s.reports[n] == SequentialPass(Ups(plan), Names(plan), run, |plan|)[n]
  }

  /** Then each node has one report that it gives in every run that runs it, and the reports at rest are the
      sequential pass over these, which is what start returns when it is given them. */
  lemma OneReportPerNode<W(!new)>(plan: Plan<W>, values: Bindings, world: W) returns (run: nat -> NodeReport)
    requires Acyclic(Ups(plan)) && AllReturn(plan) && KeptApart(plan, values, Reference(plan, values, world))
    ensures forall n :: run(n).outcome != Blocked
    ensures forall schedule {:trigger RunOf(plan, values, world, schedule)} ::
              Complete(RunOf(plan, values, world, schedule)) ==>
                SequentialReports(plan, RunOf(plan, values, world, schedule), run)
  {
    var reports := Reference(plan, values, world).reports;
    var other := NodeReport("", FailedInvalid, None, None, None, None);
    run := n => if n in reports && reports[n].outcome != Blocked then reports[n] else other;
    forall schedule | Complete(RunOf(plan, values, world, schedule))
      ensures SequentialReports(plan, RunOf(plan, values, world, schedule), run)
    {
      ReportsAsInReference(plan, values, world, schedule, run);
    }
    hide *;
  }

  lemma ReportsAsInReference<W(!new)>(plan: Plan<W>, values: Bindings, world: W, schedule: seq<nat>,
      run: nat -> NodeReport)
    requires Acyclic(Ups(plan)) && AllReturn(plan) && KeptApart(plan, values, Reference(plan, values, world))
    requires Complete(RunOf(plan, values, world, schedule))
    requires forall n :: RanAt(Reference(plan, values, world).reports, n) ==>
               run(n) == Reference(plan, values, world).reports[n]
    ensures SequentialReports(plan, RunOf(plan, values, world, schedule), run)
  {
    hide SysOk, AllReturn, KeptApart, Reference, Acyclic, SequentialPass, RunOf, Ups, Names;
    EveryRunIsOneByOne(plan, values, world, schedule);
    RestIsSequential(plan, RunOf(plan, values, world, schedule), run);
  }
}
