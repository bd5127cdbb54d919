/** From single steps to whole runs. Every run comes to rest. Where the nodes of the reference run, which
    works through the nodes one by one in registration order, were apart, every run is a part of one that
    comes to rest after as many steps and in the same state. */
module Confluence {
  import opened Outcomes
  import opened Registry
  import opened Workers
  import opened Dag
  import opened Scheduling
  import opened Machine
  import opened Accounts
  import opened Provenance
  import opened Determinism

  /** Every step of the schedule names a node that is in flight at that point. */
  ghost predicate Effective<W>(plan: Plan<W>, s: Sys<W>, schedule: seq<nat>)
    requires SysOk(plan, s)
    decreases |schedule|
  {
    schedule == [] || (schedule[0] in s.workers && Effective(plan, Turn(plan, s, schedule[0]), schedule[1..]))
  }

  /** Idle steps can be dropped. */
  lemma {:induction false} DropIdleSteps<W>(plan: Plan<W>, s: Sys<W>, schedule: seq<nat>) returns (busy: seq<nat>)
    requires SysOk(plan, s)
    ensures Effective(plan, s, busy) && Exec(plan, s, busy) == Exec(plan, s, schedule)
    decreases |schedule|
  {
    hide SysOk, WorkerTurn, AbsorbTurn;
    if schedule == [] {
      busy := [];
    } else {
      busy := DropIdleSteps(plan, Turn(plan, s, schedule[0]), schedule[1..]);
      if schedule[0] in s.workers {
        var rest := busy;
        busy := [schedule[0]] + rest;
        assert busy[1..] == rest;
      }
    }
  }

  lemma {:induction false} EffectiveAppend<W>(plan: Plan<W>, s: Sys<W>, a: seq<nat>, b: seq<nat>)
    requires SysOk(plan, s) && Effective(plan, s, a) && Effective(plan, Exec(plan, s, a), b)
    ensures Effective(plan, s, a + b)
    decreases |a|
  {
    hide SysOk, Turn;
    if a == [] {
      assert a + b == b;
    } else {
      assert (a + b)[1..] == a[1..] + b;
      EffectiveAppend(plan, Turn(plan, s, a[0]), a[1..], b);
    }
  }

  // ---- two runs to rest ----

  /** schedule without the first mention of n. */
  function Without(schedule: seq<nat>, n: nat): (r: seq<nat>)
    requires n in schedule
    ensures |r| == |schedule| - 1
  {
    if schedule[0] == n then schedule[1..] else [schedule[0]] + Without(schedule[1..], n)
  }

  /** A node in flight stays in flight until a step names it. */
  lemma {:induction false} MentionedBeforeRest<W>(plan: Plan<W>, s: Sys<W>, schedule: seq<nat>, n: nat)
    requires SysOk(plan, s) && n in s.workers && Complete(Exec(plan, s, schedule))
    ensures n in schedule
    decreases |schedule|
  {
    hide SysOk, Turn;
    if schedule != [] && schedule[0] != n {
      OthersStayInFlight(plan, s, schedule[0], n);
      MentionedBeforeRest(plan, Turn(plan, s, schedule[0]), schedule[1..], n);
    }
  }

  /** schedule leads from s to e, and what has come about in e was apart. */
  ghost predicate Leads<W(!new)>(plan: Plan<W>, values0: Bindings, s: Sys<W>, schedule: seq<nat>, e: Sys<W>) {
    && SysOk(plan, s) && Effective(plan, s, schedule) && Exec(plan, s, schedule) == e
    && OnWay(plan, values0, s, e) && Apart(plan, values0, e)
  }

  lemma LeadsOn<W(!new)>(plan: Plan<W>, values0: Bindings, s: Sys<W>, schedule: seq<nat>, e: Sys<W>)
    requires Leads(plan, values0, s, schedule, e) && schedule != []
    ensures SysOk(plan, s) && schedule[0] in s.workers
    ensures Leads(plan, values0, Turn(plan, s, schedule[0]), schedule[1..], e)
  {
    hide SysOk, Turn, OnWay, Apart;
    NextIsOnWay(plan, values0, s, schedule);
  }

  /** The first step of n can be taken at once. */
  lemma {:induction false} PullForward<W(!new)>(plan: Plan<W>, values0: Bindings, s: Sys<W>, schedule: seq<nat>,
      e: Sys<W>, n: nat)
    requires Leads(plan, values0, s, schedule, e) && n in s.workers && n in schedule
    ensures SysOk(plan, s) && Leads(plan, values0, Turn(plan, s, n), Without(schedule, n), e)
    decreases |schedule|
  {
    LeadsOn(plan, values0, s, schedule, e);
    var m := schedule[0];
    if m != n {
      var s1 := Turn(plan, s, m);
      OthersStayInFlight(plan, s, m, n);
      PullForward(plan, values0, s1, schedule[1..], e, n);
      OthersStayInFlight(plan, s, n, m);
      StepsOfLeadCommute(plan, values0, s, schedule, e, m, n);
      var rest := Without(schedule[1..], n);
      assert ([m] + rest)[0] == m && ([m] + rest)[1..] == rest;
      hide SysOk, Turn, OnWay, Apart, Without;
      LeadsBack(plan, values0, Turn(plan, s, n), [m] + rest, e, s, n);
    }
  }

  lemma StepsOfLeadCommute<W(!new)>(plan: Plan<W>, values0: Bindings, s: Sys<W>, schedule: seq<nat>, e: Sys<W>,
      m: nat, n: nat)
    requires Leads(plan, values0, s, schedule, e) && SysOk(plan, s)
    requires m in s.workers && n in s.workers && m != n
    ensures Turn(plan, Turn(plan, s, n), m) == Turn(plan, Turn(plan, s, m), n)
  {
    hide SysOk, Turn, OnWay, Apart;
    Diamond(plan, values0, s, e, m, n);
  }

  /** A state one step after one on the way to e leads to e if its successor does. */
  lemma LeadsBack<W(!new)>(plan: Plan<W>, values0: Bindings, t: Sys<W>, schedule: seq<nat>, e: Sys<W>, s: Sys<W>,
      n: nat)
    requires SysOk(plan, t) && schedule != [] && schedule[0] in t.workers
    requires Leads(plan, values0, Turn(plan, t, schedule[0]), schedule[1..], e)
    requires OnWay(plan, values0, s, e) && SysOk(plan, s) && t == Turn(plan, s, n)
    ensures Leads(plan, values0, t, schedule, e)
  {
    WayFacts(plan, values0, s, e);
    hide SysOk, Turn, OnWay, RegistryOk, GrownFrom, Toward, OnPath, Apart;
    assert Exec(plan, t, schedule) == e;
    TurnKeepsRegistryOk(plan, s, n);
    TurnKeepsGrownFrom(plan, values0, s, n);
    ExecIsToward(plan, values0, t, schedule);
    TurnStaysOnWay(plan, values0, s, e, n);
  }

  /** Whatever was done so far, the run can be continued to the end that a given complete run reached, and
      the lengths add up. */
  lemma {:induction false} Residual<W(!new)>(plan: Plan<W>, values0: Bindings, s: Sys<W>, whole: seq<nat>,
      e: Sys<W>, part: seq<nat>) returns (rest: seq<nat>)
    requires Leads(plan, values0, s, whole, e) && Complete(e)
    requires SysOk(plan, s) && Effective(plan, s, part)
    ensures |part| + |rest| == |whole|
    ensures Effective(plan, Exec(plan, s, part), rest)
    ensures Exec(plan, Exec(plan, s, part), rest) == e
    decreases |part|
  {
    if part == [] {
      rest := whole;
      hide SysOk, Turn, OnWay, Apart;
    } else {
      var n := part[0];
      assert Exec(plan, s, whole) == e && n in s.workers by {
        hide SysOk, Turn, OnWay, Apart;
      }
      hide SysOk, Turn, OnWay, Apart, Leads, Without;
      MentionedBeforeRest(plan, s, whole, n);
      PullForward(plan, values0, s, whole, e, n);
      rest := Residual(plan, values0, Turn(plan, s, n), Without(whole, n), e, part[1..]);
    }
  }

  lemma StartLeads<W(!new)>(plan: Plan<W>, values: Bindings, world: W, schedule: seq<nat>)
    requires Acyclic(Ups(plan)) && Apart(plan, values, RunOf(plan, values, world, schedule))
    requires SysOk(plan, Start(plan, values, world)) && Effective(plan, Start(plan, values, world), schedule)
    ensures Leads(plan, values, Start(plan, values, world), schedule, RunOf(plan, values, world, schedule))
  {
    hide SysOk, Turn, OnWay, Apart, Start;
    StartIsOnWay(plan, values, world, schedule);
  }

  // ---- running a node to its end ----

  ghost predicate AllReturn<W(!new)>(plan: Plan<W>) {
    forall n :: 0 <= n < |plan| ==> NodeReturns(plan[n])
  }

  ghost predicate CrewReturns<W(!new)>(s: Sys<W>) {
    forall n :: n in s.workers ==> LocalReturns(s.workers[n])
  }

  lemma StartReturns<W(!new)>(plan: Plan<W>, values: Bindings, world: W)
    requires SysOk(plan, Start(plan, values, world)) && AllReturn(plan)
    ensures CrewReturns(Start(plan, values, world))
  {
    hide Acyclic, Consistent, Returns;
  }

  lemma TurnKeepsReturns<W(!new)>(plan: Plan<W>, s: Sys<W>, n: nat)
    requires SysOk(plan, s) && AllReturn(plan) && CrewReturns(s)
    ensures CrewReturns(Turn(plan, s, n))
  {
    hide SysOk, Returns, WorkerTurn;
    if n in s.workers {
      if s.workers[n].Finished? {
        AbsorbTurnKeepsReturns(plan, s, n);
      } else {
        WorkerTurnKeepsReturns(plan, s, n);
      }
    }
  }

  lemma WorkerTurnKeepsReturns<W(!new)>(plan: Plan<W>, s: Sys<W>, n: nat)
    requires SysOk(plan, s) && CrewReturns(s) && n in s.workers && !s.workers[n].Finished?
    ensures CrewReturns(WorkerTurn(plan, s, n))
  {
    hide SysOk, Returns;
    WorkerFacts(plan, s, n);
    StepDecreases(plan[n], CoreOf(plan, s, n));
    hide Step, Stage, Left, WorkerOk, LocalOk;
  }

  lemma AbsorbTurnKeepsReturns<W(!new)>(plan: Plan<W>, s: Sys<W>, n: nat)
    requires SysOk(plan, s) && AllReturn(plan) && CrewReturns(s) && n in s.workers && s.workers[n].Finished?
    ensures CrewReturns(Turn(plan, s, n))
  {
    hide SysOk, Returns, Turn;
    AbsorbedReports(plan, s, n);
  }

  /** s with node n's worker run to its end, undisturbed. */
  ghost function Worked<W(!new)>(plan: Plan<W>, s: Sys<W>, n: nat): Sys<W>
    requires SysOk(plan, s) && CrewReturns(s) && n in s.workers
  {
    With(s, n, RunToEnd(plan[n], CoreOf(plan, s, n)))
  }

  /** Naming n over and over runs its worker to the end. */
  lemma {:induction false} WorkThrough<W(!new)>(plan: Plan<W>, s: Sys<W>, n: nat) returns (schedule: seq<nat>)
    requires SysOk(plan, s) && AllReturn(plan) && CrewReturns(s) && n in s.workers
    ensures Effective(plan, s, schedule) && Exec(plan, s, schedule) == Worked(plan, s, n)
    ensures forall i :: 0 <= i < |schedule| ==> schedule[i] == n
    decreases Stage(s.workers[n]), Left(s.workers[n])
  {
    hide SysOk, Turn, Worked, Stage, Left, LocalReturns, AllReturn;
    if s.workers[n].Finished? {
      schedule := [];
      NothingToWork(plan, s, n);
    } else {
      TurnKeepsReturns(plan, s, n);
      WorkOneStep(plan, s, n);
      var rest := WorkThrough(plan, Turn(plan, s, n), n);
      schedule := [n] + rest;
      assert schedule[1..] == rest;
    }
  }

  lemma NothingToWork<W(!new)>(plan: Plan<W>, s: Sys<W>, n: nat)
    requires SysOk(plan, s) && CrewReturns(s) && n in s.workers && s.workers[n].Finished?
    ensures Worked(plan, s, n) == s
  {
    WorkerFacts(plan, s, n);
    hide SysOk;
    assert s.values.Keys - s.values.Keys == {};
    assert s.binder + map[] == s.binder;
  }

  lemma WorkOneStep<W(!new)>(plan: Plan<W>, s: Sys<W>, n: nat)
    requires SysOk(plan, s) && CrewReturns(s) && n in s.workers && !s.workers[n].Finished?
    requires CrewReturns(Turn(plan, s, n))
    ensures var s1 := Turn(plan, s, n);
      && n in s1.workers && Worked(plan, s1, n) == Worked(plan, s, n)
      && (|| Stage(s1.workers[n]) < Stage(s.workers[n])
          || (Stage(s1.workers[n]) == Stage(s.workers[n]) && Left(s1.workers[n]) < Left(s.workers[n])))
  {
    hide SysOk, Returns;
    WorkerFacts(plan, s, n);
    var c := CoreOf(plan, s, n);
    var s1 := Turn(plan, s, n);
    RunOneStep(plan[n], c);
    StepDecreases(plan[n], c);
    StepExtends(plan[n], c);
    hide Step, Stage, Left, AbsorbTurn, WorkerOk, LocalOk;
    assert CoreOf(plan, s1, n) == Step(plan[n], c);
    RunToEndExtends(plan[n], CoreOf(plan, s1, n));
    hide RunToEnd;
    MarksAdd(s.binder, s.values, s1.values, RunToEnd(plan[n], c).values, n);
  }

  lemma MarksAdd(binder: map<string, nat>, first: Bindings, second: Bindings, third: Bindings, n: nat)
    requires Extends(first, second) && Extends(second, third)
    ensures binder + (map x | x in second.Keys - first.Keys :: n) + (map x | x in third.Keys - second.Keys :: n)
         == binder + map x | x in third.Keys - first.Keys :: n
  {
    assert third.Keys - first.Keys == (second.Keys - first.Keys) + (third.Keys - second.Keys);
  }

  lemma StepExtends<W>(node: Node<W>, c: Core<W>)
    requires WorkerOk(node, c.changer, c.local)
    ensures Extends(c.values, Step(node, c).values)
  {
    StepAddsDelta(node, c);
    hide Step, Delta;
  }

  lemma {:induction false} RunToEndExtends<W(!new)>(node: Node<W>, c: Core<W>)
    requires WorkerOk(node, c.changer, c.local) && LocalReturns(c.local)
    ensures Extends(c.values, RunToEnd(node, c).values)
    decreases Stage(c.local), Left(c.local)
  {
    hide Step, LocalReturns, Stage, Left, WorkerOk;
    if !c.local.Finished? {
      StepExtends(node, c);
      StepDecreases(node, c);
      RunToEndExtends(node, Step(node, c));
    }
  }

  // ---- one by one ----

  lemma WorkedOk<W(!new)>(plan: Plan<W>, s: Sys<W>, n: nat)
    requires SysOk(plan, s) && AllReturn(plan) && CrewReturns(s) && n in s.workers
    ensures SysOk(plan, Worked(plan, s, n)) && CrewReturns(Worked(plan, s, n))
  {
    var schedule := WorkThrough(plan, s, n);
    hide SysOk, Worked, CrewReturns, AllReturn;
    ExecKeepsReturns(plan, s, schedule);
  }

  lemma {:induction false} ExecKeepsReturns<W(!new)>(plan: Plan<W>, s: Sys<W>, schedule: seq<nat>)
    requires SysOk(plan, s) && AllReturn(plan) && CrewReturns(s)
    ensures CrewReturns(Exec(plan, s, schedule))
    decreases |schedule|
  {
    hide SysOk, Turn, CrewReturns, AllReturn;
    if schedule != [] {
      TurnKeepsReturns(plan, s, schedule[0]);
      ExecKeepsReturns(plan, Turn(plan, s, schedule[0]), schedule[1..]);
    }
  }

  /** s after node k has run to its end and been absorbed, if it is in flight. */
  ghost function WorkedAndAbsorbed<W(!new)>(plan: Plan<W>, s: Sys<W>, k: nat): (s': Sys<W>)
    requires SysOk(plan, s) && AllReturn(plan) && CrewReturns(s)
    ensures SysOk(plan, s') && CrewReturns(s')
  {
    if k in s.workers then
      WorkedOk(plan, s, k);
      TurnKeepsReturns(plan, Worked(plan, s, k), k);
      Turn(plan, Worked(plan, s, k), k)
    else s
  }

  /** The reference run: the nodes one by one in registration order, from node k on, each run to its end
      and absorbed when its turn comes. */
  ghost function OneByOne<W(!new)>(plan: Plan<W>, s: Sys<W>, k: nat): Sys<W>
    requires SysOk(plan, s) && AllReturn(plan) && CrewReturns(s) && k <= |plan|
    decreases |plan| - k
  {
    if k == |plan| then s else OneByOne(plan, WorkedAndAbsorbed(plan, s, k), k + 1)
  }

  /** A node whose turn has come is reported already or in flight. */
  lemma DueNode<W>(plan: Plan<W>, s: Sys<W>, k: nat)
    requires SysOk(plan, s) && k < |plan| && forall n :: 0 <= n < k ==> n in s.reports
    ensures k in s.reports || k in s.workers
  {
    hide CrewOk;
    if k !in s.reports {
      forall u | u in Ups(plan)[k] ensures Good(s.reports, u) {
      }
    }
  }

  lemma AllReportedIsRest<W>(plan: Plan<W>, s: Sys<W>)
    requires SysOk(plan, s) && forall n :: 0 <= n < |plan| ==> n in s.reports
    ensures Complete(s)
  {
    assert Runnable(Ups(plan), s.reports) == {};
  }

  /** Running one node to its end and absorbing it, as steps of a run. */
  lemma WorkAndAbsorb<W(!new)>(plan: Plan<W>, s: Sys<W>, n: nat) returns (schedule: seq<nat>)
    requires SysOk(plan, s) && AllReturn(plan) && CrewReturns(s) && (n in s.workers || n in s.reports)
    ensures Effective(plan, s, schedule) && Exec(plan, s, schedule) == WorkedAndAbsorbed(plan, s, n)
    ensures forall i :: 0 <= i < |schedule| ==> schedule[i] == n
    ensures forall m :: m in s.reports || m == n ==> m in WorkedAndAbsorbed(plan, s, n).reports
  {
    hide SysOk, Turn, CrewReturns, AllReturn;
    schedule := [];
    if n in s.workers {
      WorkedOk(plan, s, n);
      var work := WorkThrough(plan, s, n);
      var s1 := Worked(plan, s, n);
      assert n in s1.workers && s1.workers[n].Finished? && s1.reports == s.reports;
      AbsorbedReports(plan, s1, n);
      hide Worked;
      ExecSplit(plan, s, work, [n]);
      EffectiveAppend(plan, s, work, [n]);
      schedule := work + [n];
    }
  }

  /** The schedule names nodes from k on, and never one after a later one. */
  ghost predicate InOrder(schedule: seq<nat>, k: nat) {
    && (forall i :: 0 <= i < |schedule| ==> k <= schedule[i])
    && (forall i, j :: 0 <= i < j < |schedule| ==> schedule[i] <= schedule[j])
  }

  lemma InOrderAfter(first: seq<nat>, rest: seq<nat>, k: nat)
    requires (forall i :: 0 <= i < |first| ==> first[i] == k) && InOrder(rest, k + 1)
    ensures InOrder(first + rest, k)
  {
  }

  /** The reference run is one of the runs, the one that takes the nodes in registration order, and it reports
      every node. */
  lemma {:induction false} OneByOneIsARun<W(!new)>(plan: Plan<W>, s: Sys<W>, k: nat) returns (schedule: seq<nat>)
    requires SysOk(plan, s) && AllReturn(plan) && CrewReturns(s)
    requires k <= |plan| && forall n :: 0 <= n < k ==> n in s.reports
    ensures Effective(plan, s, schedule) && Exec(plan, s, schedule) == OneByOne(plan, s, k)
    ensures Complete(OneByOne(plan, s, k)) && InOrder(schedule, k)
    decreases |plan| - k
  {
    hide SysOk, Turn, WorkedAndAbsorbed, CrewReturns, AllReturn, Complete;
    assert InOrder([], k);
    hide InOrder;
    if k == |plan| {
      AllReportedIsRest(plan, s);
      schedule := [];
    } else {
      DueNode(plan, s, k);
      var first := WorkAndAbsorb(plan, s, k);
      var rest := OneByOneIsARun(plan, WorkedAndAbsorbed(plan, s, k), k + 1);
      ExecSplit(plan, s, first, rest);
      EffectiveAppend(plan, s, first, rest);
      schedule := first + rest;
      InOrderAfter(first, rest, k);
    }
  }

  /** From every reachable state of every plan whose factories return, some run goes on to rest. */
  lemma RestIsReachable<W(!new)>(plan: Plan<W>, values: Bindings, world: W, schedule: seq<nat>)
      returns (rest: seq<nat>)
    requires Acyclic(Ups(plan)) && AllReturn(plan)
    ensures Complete(RunOf(plan, values, world, schedule + rest))
  {
    StartIsOk(plan, values, world);
    StartReturns(plan, values, world);
    var s := Start(plan, values, world);
    hide SysOk, Turn, CrewReturns, AllReturn, Start, Complete;
    ExecKeepsReturns(plan, s, schedule);
    rest := OneByOneIsARun(plan, Exec(plan, s, schedule), 0);
    ExecSplit(plan, s, schedule, rest);
  }

  /** Where the reference run ends. */
  ghost function Reference<W(!new)>(plan: Plan<W>, values: Bindings, world: W): Sys<W>
    requires Acyclic(Ups(plan)) && AllReturn(plan)
  {
    StartIsOk(plan, values, world);
    StartReturns(plan, values, world);
    OneByOne(plan, Start(plan, values, world), 0)
  }

  /** The reference run is a run that comes to rest. */
  lemma ReferenceIsARun<W(!new)>(plan: Plan<W>, values: Bindings, world: W) returns (reference: seq<nat>)
    requires Acyclic(Ups(plan)) && AllReturn(plan)
    ensures SysOk(plan, Start(plan, values, world)) && Effective(plan, Start(plan, values, world), reference)
    ensures RunOf(plan, values, world, reference) == Reference(plan, values, world)
    ensures Complete(Reference(plan, values, world)) && InOrder(reference, 0)
  {
    StartIsOk(plan, values, world);
    StartReturns(plan, values, world);
    var s := Start(plan, values, world);
    hide SysOk, Turn, CrewReturns, AllReturn, Start, OneByOne, Complete, Effective;
    reference := OneByOneIsARun(plan, s, 0);
  }

  /** If the nodes of the reference run were apart, read by read, no run takes more steps than the reference
      run, and a run that is cut short can always be completed to it, in as many steps as it has fewer. */
  lemma EveryRunIsPartOfReference<W(!new)>(plan: Plan<W>, values: Bindings, world: W, schedule: seq<nat>)
      returns (reference: seq<nat>, rest: seq<nat>)
    requires Acyclic(Ups(plan)) && AllReturn(plan) && Apart(plan, values, Reference(plan, values, world))
    requires SysOk(plan, Start(plan, values, world)) && Effective(plan, Start(plan, values, world), schedule)
    ensures RunOf(plan, values, world, reference) == Reference(plan, values, world)
    ensures |schedule| + |rest| == |reference|
    ensures RunOf(plan, values, world, schedule + rest) == Reference(plan, values, world)
  {
    var s := Start(plan, values, world);
    hide SysOk, Turn, AllReturn, Start, Apart, Reference, Leads, Complete, Effective;
    reference := ReferenceIsARun(plan, values, world);
    StartLeads(plan, values, world, reference);
    rest := Residual(plan, values, s, reference, Reference(plan, values, world), schedule);
    ExecSplit(plan, s, schedule, rest);
  }

  // ---- no run goes on for ever ----

  /** The first k steps of an endless schedule. */
  ghost function Prefix(choose: nat -> nat, k: nat): (schedule: seq<nat>)
    ensures |schedule| == k
  {
    if k == 0 then [] else Prefix(choose, k - 1) + [choose(k - 1)]
  }

  /** What is left to do in the workers with numbers below k: the stages ahead of them, or the reads and
      binds within their stages. */
  ghost function StagesLeft<W>(workers: map<nat, Local<W>>, k: nat): nat {
    if k == 0 then 0 else StagesLeft(workers, k - 1) + if k - 1 in workers then Stage(workers[k - 1]) else 0
  }

  ghost function StepsLeft<W(!new)>(workers: map<nat, Local<W>>, k: nat): nat
    requires forall n :: n in workers ==> LocalReturns(workers[n])
  {
    if k == 0 then 0 else StepsLeft(workers, k - 1) + if k - 1 in workers then Left(workers[k - 1]) else 0
  }

  ghost function Unreported(reports: Reports, k: nat): nat {
    if k == 0 then 0 else Unreported(reports, k - 1) + if k - 1 in reports then 0 else 1
  }

  lemma {:induction false} StagesUpdated<W>(workers: map<nat, Local<W>>, n: nat, local: Local<W>, k: nat)
    requires n in workers
    ensures StagesLeft(workers[n := local], k)
         == StagesLeft(workers, k) + if n < k then Stage(local) - Stage(workers[n]) else 0
  {
    hide Stage;
    if k > 0 {
      StagesUpdated(workers, n, local, k - 1);
    }
  }

  lemma {:induction false} StepsUpdated<W(!new)>(workers: map<nat, Local<W>>, n: nat, local: Local<W>, k: nat)
    requires n in workers && LocalReturns(local) && forall m :: m in workers ==> LocalReturns(workers[m])
    ensures StepsLeft(workers[n := local], k)
         == StepsLeft(workers, k) + if n < k then Left(local) - Left(workers[n]) else 0
  {
    hide Left, LocalReturns;
    if k > 0 {
      StepsUpdated(workers, n, local, k - 1);
    }
  }

  lemma {:induction false} FewerUnreported(before: Reports, after: Reports, n: nat, k: nat)
    requires forall m :: m in before ==> m in after
    requires n !in before && n in after
    ensures Unreported(after, k) <= Unreported(before, k) - if n < k then 1 else 0
  {
    if k > 0 {
      FewerUnreported(before, after, n, k - 1);
    }
  }

  /** Every step brings the run closer to rest: more nodes are reported, or a worker has moved on. */
  ghost predicate Closer<W(!new)>(plan: Plan<W>, s: Sys<W>, s': Sys<W>)
    requires CrewReturns(s) && CrewReturns(s')
  {
    var u, u' := Unreported(s.reports, |plan|), Unreported(s'.reports, |plan|);
    var p, p' := StagesLeft(s.workers, |plan|), StagesLeft(s'.workers, |plan|);
    u' < u || (u' == u && (p' < p || (p' == p && StepsLeft(s'.workers, |plan|) < StepsLeft(s.workers, |plan|))))
  }

  lemma TurnIsCloser<W(!new)>(plan: Plan<W>, s: Sys<W>, n: nat)
    requires SysOk(plan, s) && CrewReturns(s) && n in s.workers && CrewReturns(Turn(plan, s, n))
    ensures Closer(plan, s, Turn(plan, s, n))
  {
    hide SysOk, Stage, Left, LocalReturns;
    WorkerFacts(plan, s, n);
    var s' := Turn(plan, s, n);
    if s.workers[n].Finished? {
      AbsorbedReports(plan, s, n);
      hide Turn;
      FewerUnreported(s.reports, s'.reports, n, |plan|);
    } else {
      StepDecreases(plan[n], CoreOf(plan, s, n));
      hide Step, AbsorbTurn;
      assert s'.workers == s.workers[n := s'.workers[n]] && s'.reports == s.reports;
      hide Turn;
      StagesUpdated(s.workers, n, s'.workers[n], |plan|);
      StepsUpdated(s.workers, n, s'.workers[n], |plan|);
    }
  }

  lemma PrefixIsSplit<W>(plan: Plan<W>, s: Sys<W>, choose: nat -> nat, k: nat)
    requires SysOk(plan, s)
    ensures Exec(plan, s, Prefix(choose, k + 1)) == Turn(plan, Exec(plan, s, Prefix(choose, k)), choose(k))
  {
    hide SysOk, Turn;
    ExecSplit(plan, s, Prefix(choose, k), [choose(k)]);
  }

  /** No endless schedule names a node in flight at every step: on every plan whose factories return, every
      run that keeps going comes to rest, whatever the nodes do to each other. */
  lemma {:induction false} NoEndlessRun<W(!new)>(plan: Plan<W>, s: Sys<W>, choose: nat -> nat, from: nat)
      returns (k: nat)
    requires SysOk(plan, s) && AllReturn(plan) && CrewReturns(Exec(plan, s, Prefix(choose, from)))
    ensures from <= k && choose(k) !in Exec(plan, s, Prefix(choose, k)).workers
    decreases Unreported(Exec(plan, s, Prefix(choose, from)).reports, |plan|),
              StagesLeft(Exec(plan, s, Prefix(choose, from)).workers, |plan|),
              StepsLeft(Exec(plan, s, Prefix(choose, from)).workers, |plan|)
  {
    hide SysOk, Turn, AllReturn, LocalReturns, Unreported, StagesLeft, StepsLeft, Exec, Prefix;
    var t := Exec(plan, s, Prefix(choose, from));
    if choose(from) in t.workers {
      TurnKeepsReturns(plan, t, choose(from));
      TurnIsCloser(plan, t, choose(from));
      PrefixIsSplit(plan, s, choose, from);
      k := NoEndlessRun(plan, s, choose, from + 1);
    } else {
      k := from;
    }
  }

  /** Every run stops: a schedule that goes on for ever comes to a step that names no node in flight. */
  lemma EveryRunStops<W(!new)>(plan: Plan<W>, values: Bindings, world: W, choose: nat -> nat)
    requires Acyclic(Ups(plan)) && AllReturn(plan)
    ensures exists k: nat :: choose(k) !in RunOf(plan, values, world, Prefix(choose, k)).workers
  {
    StartIsOk(plan, values, world);
    StartReturns(plan, values, world);
    hide SysOk, AllReturn, CrewReturns, Start;
    var k := NoEndlessRun(plan, Start(plan, values, world), choose, 0);
    assert choose(k) !in RunOf(plan, values, world, Prefix(choose, k)).workers;
  }
}
