/** A whole run as a state machine. Each step is chosen by naming a node in flight: its worker takes one
    atomic step, or, once it has finished, the driver absorbs its report. A run is then a function of its
    schedule, an arbitrary sequence of node numbers, and every interleaving is some schedule. */
module Machine {
  import opened Outcomes
  import opened Registry
  import opened Workers
  import opened Dag
  import opened Scheduling

  type Plan<!W> = seq<Node<W>>

  function Ups<W>(plan: Plan<W>): Upstreams {
    seq(|plan|, i requires 0 <= i < |plan| => plan[i].upstreams)
  }

  function Names<W>(plan: Plan<W>): seq<string> {
    seq(|plan|, i requires 0 <= i < |plan| => plan[i].Name())
  }

  datatype Sys<!W> = Sys(
    reports: Reports,
    workers: map<nat, Local<W>>,           // the nodes in flight
    changers: seq<Option<Changer<W>>>,     // what each node wraps so far
    calls: seq<Option<Call>>,              // the call of each node's callback, once made; no step reads it
    values: Bindings,                      // the registry
    binder: map<string, nat>,              // which node bound a name; no step reads it
    world: W)

  ghost function Start<W>(plan: Plan<W>, values: Bindings, world: W): Sys<W> {
    Sys(map[], Refill(plan, map[], map[]),
        seq(|plan|, i requires 0 <= i < |plan| => Initial(plan[i]).0), seq(|plan|, i => None), values, map[], world)
  }

  /** Node n is in flight or has run. */
  ghost predicate Started<W>(s: Sys<W>, n: nat) {
    n in s.workers || RanAt(s.reports, n)
  }

  /** The shape every reachable state has. */
  ghost predicate SysOk<W>(plan: Plan<W>, s: Sys<W>) {
    && Acyclic(Ups(plan))
    && Consistent(Ups(plan), Names(plan), s.reports)
    && |s.changers| == |plan| && |s.calls| == |plan|
    && (forall n :: n in s.reports ==> n < |plan|)
    && (forall n :: n in s.workers ==> n < |plan|)
    && s.workers.Keys == Runnable(Ups(plan), s.reports)
    && CrewOk(plan, s.workers, s.changers)
    && (forall n: nat :: n < |plan| && !Started(s, n) ==> s.changers[n] == Initial(plan[n]).0)
  }

  ghost predicate CrewOk<W>(plan: Plan<W>, workers: map<nat, Local<W>>, changers: seq<Option<Changer<W>>>)
    requires |changers| == |plan| && forall n :: n in workers ==> n < |plan|
  {
    forall n :: n in workers ==> WorkerOk(plan[n], changers[n], workers[n]) && LocalOk(workers[n])
  }

  lemma WorkerFacts<W>(plan: Plan<W>, s: Sys<W>, n: nat)
    requires SysOk(plan, s) && n in s.workers
    ensures n < |plan| == |s.changers| == |s.calls| && n !in s.reports
    ensures WorkerOk(plan[n], s.changers[n], s.workers[n]) && LocalOk(s.workers[n])
    ensures s.workers[n].Finished? ==> s.workers[n].report.outcome != Blocked
  {
  }

  ghost function CoreOf<W>(plan: Plan<W>, s: Sys<W>, n: nat): Core<W>
    requires SysOk(plan, s) && n in s.workers
  {
    Core(s.changers[n], s.workers[n], s.calls[n], s.values, s.world)
  }

  /** s with node n's worker replaced by c, and what c has bound since attributed to n. */
  ghost function With<W>(s: Sys<W>, n: nat, c: Core<W>): Sys<W>
    requires n < |s.changers| && n < |s.calls|
  {
    s.(workers := s.workers[n := c.local], changers := s.changers[n := c.changer], calls := s.calls[n := c.call],
       values := c.values, binder := s.binder + map x | x in c.values.Keys - s.values.Keys :: n, world := c.world)
  }

  ghost function WorkerTurn<W>(plan: Plan<W>, s: Sys<W>, n: nat): Sys<W>
    requires SysOk(plan, s) && n in s.workers
  {
    With(s, n, Step(plan[n], CoreOf(plan, s, n)))
  }

  ghost function AbsorbTurn<W>(plan: Plan<W>, s: Sys<W>, n: nat, r: NodeReport): Sys<W>
    requires SysOk(plan, s) && n in s.workers
  {
    var reports := Absorbed(Ups(plan), Names(plan), s.reports, n, r);
    s.(reports := reports, workers := Refill(plan, reports, s.workers))
  }

  /** The nodes in flight once the reports are these: earlier workers go on, new ones start. */
  ghost function Refill<W>(plan: Plan<W>, reports: Reports, workers: map<nat, Local<W>>): map<nat, Local<W>> {
    map d | d in Runnable(Ups(plan), reports) :: if d in workers then workers[d] else Initial(plan[d]).1
  }

  /** One step of the run. Naming a node that is not in flight does nothing. */
  ghost function Turn<W>(plan: Plan<W>, s: Sys<W>, n: nat): (s': Sys<W>)
    requires SysOk(plan, s)
    ensures SysOk(plan, s')
  {
    TurnKeepsSysOk(plan, s, n);
    if n !in s.workers then s
    else if s.workers[n].Finished? then AbsorbTurn(plan, s, n, s.workers[n].report)
    else WorkerTurn(plan, s, n)
  }

  lemma TurnKeepsSysOk<W>(plan: Plan<W>, s: Sys<W>, n: nat)
    requires SysOk(plan, s)
    ensures n in s.workers && s.workers[n].Finished? ==> SysOk(plan, AbsorbTurn(plan, s, n, s.workers[n].report))
    ensures n in s.workers && !s.workers[n].Finished? ==> SysOk(plan, WorkerTurn(plan, s, n))
  {
    if n in s.workers {
      if s.workers[n].Finished? {
        AbsorbTurnKeepsSysOk(plan, s, n, s.workers[n].report);
      } else {
        WorkerTurnKeepsSysOk(plan, s, n);
      }
    }
  }

  lemma AbsorbFacts<W>(plan: Plan<W>, s: Sys<W>, n: nat, r: NodeReport)
    requires SysOk(plan, s) && n in s.workers && r.outcome != Blocked
    ensures var reports := Absorbed(Ups(plan), Names(plan), s.reports, n, r);
      && Consistent(Ups(plan), Names(plan), reports)
      && (forall m :: m in reports ==> m < |plan|)
      && (forall m :: m in s.reports || m == n ==> m in reports)
      && (forall m: nat :: RanAt(s.reports, m) || m == n ==> RanAt(reports, m))
      && s.workers.Keys - {n} <= Runnable(Ups(plan), reports)
  {
    hide WorkerOk, LocalOk;
    AbsorbKeepsConsistent(Ups(plan), Names(plan), s.reports, n, r);
    ReportsInRange(plan, Absorbed(Ups(plan), Names(plan), s.reports, n, r));
    hide Acyclic, Consistent;
    AbsorbRunsOne(Ups(plan), Names(plan), s.reports, n, r);
    OthersStayRunnable(Ups(plan), Names(plan), s.reports, n, r);
  }

  lemma AbsorbTurnKeepsSysOk<W>(plan: Plan<W>, s: Sys<W>, n: nat, r: NodeReport)
    requires SysOk(plan, s) && n in s.workers && s.workers[n] == Finished(r)
    ensures SysOk(plan, AbsorbTurn(plan, s, n, r))
  {
    WorkerFacts(plan, s, n);
    hide Acyclic, Consistent, Absorbed, CrewOk, LocalOk, WorkerOk;
    AbsorbFacts(plan, s, n, r);
    var s' := AbsorbTurn(plan, s, n, r);
    RefilledWorkersOk(plan, s, s'.reports);
    UntouchedStay(plan, s, s');
    hide Runnable, Started;
  }

  lemma UntouchedStay<W>(plan: Plan<W>, s: Sys<W>, s': Sys<W>)
    requires SysOk(plan, s) && s'.changers == s.changers
    requires s.workers.Keys <= s'.workers.Keys + (set n | n in s'.reports && RanAt(s'.reports, n))
    requires forall n: nat :: RanAt(s.reports, n) ==> RanAt(s'.reports, n)
    ensures forall n: nat :: n < |plan| && !Started(s', n) ==> s'.changers[n] == Initial(plan[n]).0
  {
    hide Acyclic, Consistent, CrewOk, Runnable;
  }

  lemma ReportsInRange<W>(plan: Plan<W>, reports: Reports)
    requires Consistent(Ups(plan), Names(plan), reports)
    ensures forall m :: m in reports ==> m < |plan|
  {
  }

  lemma RefilledWorkersOk<W>(plan: Plan<W>, s: Sys<W>, reports: Reports)
    requires SysOk(plan, s)
    requires forall m :: m in s.reports ==> m in reports
    ensures var workers := Refill(plan, reports, s.workers);
      (forall m :: m in workers ==> m < |plan|) && CrewOk(plan, workers, s.changers)
  {
    hide Acyclic, Consistent;
  }

  lemma WorkerTurnKeepsSysOk<W>(plan: Plan<W>, s: Sys<W>, n: nat)
    requires SysOk(plan, s) && n in s.workers && !s.workers[n].Finished?
    ensures SysOk(plan, WorkerTurn(plan, s, n))
  {
    hide Acyclic, Consistent;
    StepKeepsLocalOk(plan[n], CoreOf(plan, s, n));
    hide WorkerOk, LocalOk, Step;
    var s' := WorkerTurn(plan, s, n);
    assert s'.workers.Keys == s.workers.Keys;
  }

  ghost function Exec<W>(plan: Plan<W>, s: Sys<W>, schedule: seq<nat>): (s': Sys<W>)
    requires SysOk(plan, s)
    ensures SysOk(plan, s')
    decreases |schedule|
  {
    if schedule == [] then s else Exec(plan, Turn(plan, s, schedule[0]), schedule[1..])
  }

  lemma StartIsOk<W>(plan: Plan<W>, values: Bindings, world: W)
    requires Acyclic(Ups(plan))
    ensures SysOk(plan, Start(plan, values, world))
  {
  }

  /** The state a run is in once it has followed the schedule. Every reachable state of every interleaving is
      one of these. */
  ghost function RunOf<W>(plan: Plan<W>, values: Bindings, world: W, schedule: seq<nat>): (s: Sys<W>)
    requires Acyclic(Ups(plan))
    ensures SysOk(plan, s)
  {
    StartIsOk(plan, values, world);
    Exec(plan, Start(plan, values, world), schedule)
  }

  lemma {:induction false} ExecSplit<W>(plan: Plan<W>, s: Sys<W>, a: seq<nat>, b: seq<nat>)
    requires SysOk(plan, s)
    ensures Exec(plan, s, a + b) == Exec(plan, Exec(plan, s, a), b)
    decreases |a|
  {
    hide SysOk, Turn;
    if a == [] {
      assert a + b == b;
    } else {
      assert (a + b)[1..] == a[1..] + b;
      ExecSplit(plan, Turn(plan, s, a[0]), a[1..], b);
    }
  }

  ghost predicate Complete<W>(s: Sys<W>) {
    s.workers == map[]
  }

  /** A run that has come to rest has reported every node. */
  lemma RestMeansAllReported<W>(plan: Plan<W>, s: Sys<W>)
    requires SysOk(plan, s) && Complete(s)
    ensures forall n :: 0 <= n < |plan| ==> n in s.reports
  {
    forall n | 0 <= n < |plan| ensures n in s.reports {
      QuietMeansComplete(Ups(plan), Names(plan), s.reports, n);
    }
  }

  /** The final reports are those of the sequential pass over the same node results, whatever the
      interleaving was. */
  lemma RestIsSequential<W>(plan: Plan<W>, s: Sys<W>, run: nat -> NodeReport)
    requires SysOk(plan, s) && Complete(s)
    requires forall n :: RanAt(s.reports, n) ==> s.reports[n] == run(n)
    ensures forall n :: 0 <= n < |plan| ==>
              n in s.reports && s.reports[n] == SequentialPass(Ups(plan), Names(plan), run, |plan|)[n]
  {
    CompleteRunIsSequential(Ups(plan), Names(plan), s.reports, run);
  }

  // ---- what a step leaves alone ----

  /** Node n is in flight after a step that named another node. */
  lemma OthersStayInFlight<W>(plan: Plan<W>, s: Sys<W>, n: nat, m: nat)
    requires SysOk(plan, s) && m in s.workers && m != n
    ensures var s' := Turn(plan, s, n); m in s'.workers && s'.workers[m] == s.workers[m]
  {
    hide Acyclic, Consistent, WorkerOk, LocalOk;
    if n in s.workers {
      if s.workers[n].Finished? {
        var r := s.workers[n].report;
        LocalOkFinished(s.workers[n]);
        AbsorbFacts(plan, s, n, r);
        hide Absorbed, Runnable;
      } else {
        hide Step, Runnable;
      }
    }
  }

  lemma LocalOkFinished<W>(local: Local<W>)
    requires LocalOk(local) && local.Finished?
    ensures local.report.outcome != Blocked
  {
  }

  /** An absorption: the reports it adds, and everything else as it was. */
  lemma AbsorbedReports<W>(plan: Plan<W>, s: Sys<W>, n: nat)
    requires SysOk(plan, s) && n in s.workers && s.workers[n].Finished?
    ensures var s', r := Turn(plan, s, n), s.workers[n].report;
      && s'.changers == s.changers && s'.calls == s.calls && s'.values == s.values && s'.binder == s.binder
      && s'.world == s.world && n !in s'.workers
      && (forall m: nat :: m in s.reports || m == n ==> m in s'.reports)
      && (forall m: nat :: m in s'.reports ==>
            if m == n then s'.reports[m] == r
            else if m in s.reports then s'.reports[m] == s.reports[m]
            else BlockedAt(s'.reports, m) && m !in s.workers)
      && (forall m: nat :: m in s'.workers ==>
            if m in s.workers then s'.workers[m] == s.workers[m] else m < |plan| && s'.workers[m] == Initial(plan[m]).1)
  {
    hide Acyclic, Consistent, WorkerOk;
    var r := s.workers[n].report;
    AbsorbRunsOne(Ups(plan), Names(plan), s.reports, n, r);
    AbsorbFacts(plan, s, n, r);
    hide Absorbed, LocalOk;
  }

  /** What has started stays started, and what is reported stays reported as it is. */
  lemma StartedStays<W>(plan: Plan<W>, s: Sys<W>, n: nat, k: nat)
    requires SysOk(plan, s) && Started(s, n)
    ensures Started(Turn(plan, s, k), n)
    ensures n in s.reports ==> n in Turn(plan, s, k).reports && Turn(plan, s, k).reports[n] == s.reports[n]
  {
    if k in s.workers && s.workers[k].Finished? {
      AbsorbedReports(plan, s, k);
      if n in s.workers {
        if n == k {
          LocalOkFinished(s.workers[k]);
        } else {
          OthersStayInFlight(plan, s, k, n);
        }
      }
      hide SysOk, Turn;
    } else {
      hide Acyclic, Consistent, WorkerOk, LocalOk, Step;
    }
  }

  /** A node in flight has only ancestors that ended well, and so has one that ran. */
  lemma AncestorsAreGood<W>(plan: Plan<W>, s: Sys<W>, n: nat, a: nat)
    requires SysOk(plan, s) && Started(s, n) && Ancestor(Ups(plan), a, n)
    ensures a < |plan| && Good(s.reports, a) && a !in s.workers && !FailedAt(s.reports, a)
  {
    RanAfterGoodAncestors(Ups(plan), Names(plan), s.reports, n, a);
  }

  /** A node below one in flight has not started. */
  lemma NotStartedBelow<W>(plan: Plan<W>, s: Sys<W>, n: nat, m: nat)
    requires SysOk(plan, s) && n in s.workers && Ancestor(Ups(plan), n, m)
    ensures !Started(s, m)
  {
    if Started(s, m) {
      AncestorsAreGood(plan, s, m, n);
    }
  }
}
