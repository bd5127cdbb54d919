/** What the reports of whole runs go back to, in every interleaving: the operations that the node's changer
    did on the worlds of its own steps, the answers its factory got, the call of its callback; and which nodes
    are not run. */
module RunOrigins {
  import opened Outcomes
  import opened Registry
  import opened Workers
  import opened Dag
  import opened Scheduling
  import opened Machine
  import opened Accounts
  import opened Origins

  /** The registry and the world as the steps that named node n found them, in the order of the schedule. */
  ghost function OwnMoments<W>(plan: Plan<W>, values: Bindings, world: W, schedule: seq<nat>, n: nat): seq<Moment<W>>
    requires Acyclic(Ups(plan))
    decreases |schedule|
  {
    if schedule == [] then []
    else
      var before := schedule[..|schedule| - 1];
      var s := RunOf(plan, values, world, before);
      OwnMoments(plan, values, world, before, n) +
      if schedule[|schedule| - 1] == n then [Moment(s.values, s.world)] else []
  }

  /** A node that was not run has done nothing. */
  ghost predicate Idle<W>(node: Node<W>, changer: Option<Changer<W>>, call: Option<Call>) {
    && call.None?
    && match node.body case Given(c) => changer == Some(c) case Deferred(_, _) => changer.None?
  }

  /** The report of a node that was not run. */
  ghost predicate BlockedOnly<W>(node: Node<W>, report: NodeReport) {
    var name := match node.body case Given(c) => c.name case Deferred(placeholder, _) => placeholder;
    report == NodeReport(name, Blocked, None, None, None, None)
  }

  ghost predicate NodeOrigin<W(!new)>(plan: Plan<W>, s: Sys<W>, n: nat, past: seq<Moment<W>>)
    requires n < |plan| && n < |s.changers| && n < |s.calls|
  {
    if n in s.workers then WorkerOrigin(plan[n], s.changers[n], s.calls[n], past, s.workers[n])
    else if n in s.reports && s.reports[n].outcome != Blocked then
      ReportOrigin(plan[n], s.changers[n], s.calls[n], past, s.reports[n])
    else
      && Idle(plan[n], s.changers[n], s.calls[n])
      && (n in s.reports ==> BlockedOnly(plan[n], s.reports[n]))
  }

  lemma StartOrigin<W(!new)>(plan: Plan<W>, values: Bindings, world: W, n: nat)
    requires Acyclic(Ups(plan)) && n < |plan|
    ensures var s := Start(plan, values, world);
      n < |s.changers| && n < |s.calls| && NodeOrigin(plan, s, n, [])
  {
    NothingYet(plan[n]);
    hide WorkerOrigin, Acyclic;
  }

  lemma OwnStepOrigin<W(!new)>(plan: Plan<W>, s: Sys<W>, n: nat, past: seq<Moment<W>>)
    requires SysOk(plan, s) && n in s.workers && !s.workers[n].Finished?
    requires n < |plan| && n < |s.changers| && n < |s.calls| && NodeOrigin(plan, s, n, past)
    ensures var s' := Turn(plan, s, n);
      n < |s'.changers| && n < |s'.calls| && NodeOrigin(plan, s', n, past + [Moment(s.values, s.world)])
  {
    WorkerFacts(plan, s, n);
    hide SysOk, WorkerOrigin, Step, WorkerOk, LocalOk, AbsorbTurn;
    StepKeepsOrigin(plan[n], CoreOf(plan, s, n), past);
  }

  /** The report of a worker that is done is absorbed as it is. */
  lemma AbsorbOrigin<W(!new)>(plan: Plan<W>, s: Sys<W>, n: nat, past: seq<Moment<W>>)
    requires SysOk(plan, s) && n in s.workers && s.workers[n].Finished?
    requires n < |plan| && n < |s.changers| && n < |s.calls| && NodeOrigin(plan, s, n, past)
    ensures var s' := Turn(plan, s, n);
      n < |s'.changers| && n < |s'.calls| && NodeOrigin(plan, s', n, past + [Moment(s.values, s.world)])
  {
    WorkerFacts(plan, s, n);
    AbsorbedReports(plan, s, n);
    hide SysOk, Turn, ReportOrigin, WorkerOk, LocalOk;
    ReportStays(plan[n], s.changers[n], s.calls[n], past, past + [Moment(s.values, s.world)], s.workers[n].report);
  }

  lemma BlockedReportsAreEmpty<W>(plan: Plan<W>, s: Sys<W>, n: nat)
    requires SysOk(plan, s) && n in s.reports && s.reports[n].outcome == Blocked
    ensures n < |plan| && BlockedOnly(plan[n], s.reports[n])
  {
    BlockedExactly(Ups(plan), Names(plan), s.reports, n);
    hide CrewOk, Runnable, Acyclic, Consistent;
  }

  lemma IdleStarts<W(!new)>(node: Node<W>, changer: Option<Changer<W>>, call: Option<Call>, past: seq<Moment<W>>)
    requires Idle(node, changer, call)
    ensures WorkerOrigin(node, changer, call, past, Initial(node).1)
  {
    NothingYet(node);
    assert changer == Initial(node).0;
    hide WorkerOrigin;
    WorkerStays(node, changer, call, [], past, Initial(node).1);
  }

  /** An absorption of another node: n stays as it is, or is put in flight, or is blocked. */
  lemma OthersAbsorbOrigin<W(!new)>(plan: Plan<W>, s: Sys<W>, k: nat, n: nat, past: seq<Moment<W>>)
    requires SysOk(plan, s) && k in s.workers && s.workers[k].Finished? && n != k
    requires n < |plan| && n < |s.changers| && n < |s.calls| && NodeOrigin(plan, s, n, past)
    ensures var s' := Turn(plan, s, k);
      n < |s'.changers| && n < |s'.calls| && NodeOrigin(plan, s', n, past)
  {
    AbsorbedReports(plan, s, k);
    var s' := Turn(plan, s, k);
    if n in s.workers {
      OthersStayInFlight(plan, s, k, n);
      hide SysOk, Turn, WorkerOrigin;
    } else if n in s.reports {
      InOnePlace(plan, s', n);
      hide SysOk, Turn, ReportOrigin;
    } else if n in s'.workers {
      IdleStarts(plan[n], s.changers[n], s.calls[n], past);
      hide SysOk, Turn, WorkerOrigin;
    } else if n in s'.reports {
      BlockedReportsAreEmpty(plan, s', n);
      hide SysOk, Turn, BlockedOnly;
    } else {
      hide SysOk, Turn;
    }
  }

  lemma InOnePlace<W>(plan: Plan<W>, s: Sys<W>, n: nat)
    requires SysOk(plan, s) && n in s.reports
    ensures n !in s.workers
  {
    hide CrewOk, Acyclic, Consistent;
  }

  /** A step of another worker. */
  lemma OthersStepOrigin<W(!new)>(plan: Plan<W>, s: Sys<W>, k: nat, n: nat, past: seq<Moment<W>>)
    requires SysOk(plan, s) && k in s.workers && !s.workers[k].Finished? && n != k
    requires n < |plan| && n < |s.changers| && n < |s.calls| && NodeOrigin(plan, s, n, past)
    ensures var s' := Turn(plan, s, k);
      n < |s'.changers| && n < |s'.calls| && NodeOrigin(plan, s', n, past)
  {
    hide WorkerOrigin, ReportOrigin, Idle, BlockedOnly, Turn, SysOk;
    OthersUntouched(plan, s, k, n);
  }

  lemma OthersUntouched<W>(plan: Plan<W>, s: Sys<W>, k: nat, n: nat)
    requires SysOk(plan, s) && k in s.workers && !s.workers[k].Finished? && n != k && n < |plan|
    ensures var s' := Turn(plan, s, k);
      && |s'.changers| == |s.changers| == |plan| && |s'.calls| == |s.calls| == |plan|
      && s'.changers[n] == s.changers[n] && s'.calls[n] == s.calls[n] && s'.reports == s.reports
      && (n in s'.workers <==> n in s.workers) && (n in s.workers ==> s'.workers[n] == s.workers[n])
  {
    WorkerFacts(plan, s, k);
    hide SysOk, Step, WorkerOk, LocalOk, AbsorbTurn;
  }

  /** Naming a node that is not in flight does nothing. */
  lemma NoTurnOrigin<W(!new)>(plan: Plan<W>, s: Sys<W>, n: nat, past: seq<Moment<W>>, m: Moment<W>)
    requires SysOk(plan, s) && n !in s.workers
    requires n < |plan| && n < |s.changers| && n < |s.calls| && NodeOrigin(plan, s, n, past)
    ensures NodeOrigin(plan, s, n, past + [m])
  {
    hide SysOk, WorkerOrigin, ReportOrigin, Idle, BlockedOnly;
    if n in s.reports && s.reports[n].outcome != Blocked {
      ReportStays(plan[n], s.changers[n], s.calls[n], past, past + [m], s.reports[n]);
    }
  }

  lemma TurnKeepsOrigin<W(!new)>(plan: Plan<W>, s: Sys<W>, k: nat, n: nat, past: seq<Moment<W>>)
    requires SysOk(plan, s)
    requires n < |plan| && n < |s.changers| && n < |s.calls| && NodeOrigin(plan, s, n, past)
    ensures var s' := Turn(plan, s, k);
      && n < |s'.changers| && n < |s'.calls|
      && NodeOrigin(plan, s', n, past + if k == n then [Moment(s.values, s.world)] else [])
  {
    hide SysOk, NodeOrigin, AbsorbTurn, WorkerTurn;
    assert past + [] == past;
    if k !in s.workers {
      if k == n {
        NoTurnOrigin(plan, s, n, past, Moment(s.values, s.world));
      }
    } else if s.workers[k].Finished? {
      if k == n {
        AbsorbOrigin(plan, s, n, past);
      } else {
        OthersAbsorbOrigin(plan, s, k, n, past);
      }
    } else {
      if k == n {
        OwnStepOrigin(plan, s, n, past);
      } else {
        OthersStepOrigin(plan, s, k, n, past);
      }
    }
  }

  lemma RunOneMore<W>(plan: Plan<W>, values: Bindings, world: W, schedule: seq<nat>)
    requires Acyclic(Ups(plan)) && schedule != []
    ensures var last := |schedule| - 1;
      RunOf(plan, values, world, schedule) == Turn(plan, RunOf(plan, values, world, schedule[..last]), schedule[last])
  {
    var last := |schedule| - 1;
    StartIsOk(plan, values, world);
    hide SysOk, Turn, Start;
    ExecSplit(plan, Start(plan, values, world), schedule[..last], [schedule[last]]);
    assert schedule[..last] + [schedule[last]] == schedule;
    var s := RunOf(plan, values, world, schedule[..last]);
    assert [schedule[last]][1..] == [];
    assert Exec(plan, s, [schedule[last]]) == Exec(plan, Turn(plan, s, schedule[last]), []);
  }

  /** In every reachable state of every interleaving, each node in flight and each node that ran goes back to
      what was done in its own steps; every other node has done nothing, and if it is reported, it is as
      blocked and no more. */
  lemma {:induction false} EveryReportHasOrigin<W(!new)>(plan: Plan<W>, values: Bindings, world: W, schedule: seq<nat>,
      n: nat)
    requires Acyclic(Ups(plan)) && n < |plan|
    ensures var s, past := RunOf(plan, values, world, schedule), OwnMoments(plan, values, world, schedule, n);
      n < |s.changers| && n < |s.calls| && NodeOrigin(plan, s, n, past)
    decreases |schedule|
  {
    hide NodeOrigin, Turn, SysOk;
    if schedule == [] {
      StartOrigin(plan, values, world, n);
    } else {
      var last := |schedule| - 1;
      EveryReportHasOrigin(plan, values, world, schedule[..last], n);
      RunOneMore(plan, values, world, schedule);
      hide RunOf, Acyclic;
      TurnKeepsOrigin(plan, RunOf(plan, values, world, schedule[..last]), schedule[last], n,
        OwnMoments(plan, values, world, schedule[..last], n));
    }
  }

  // ---- what follows from it ----

  /** A deferred node that was run and holds no changer: the answers to its factory's reads came to an error,
      and its report says so, by the code of that error and without any assessment. It called nothing, bound
      nothing, and no node below it is started. */
  lemma FactoryFailureStopsBelow<W(!new)>(plan: Plan<W>, values: Bindings, world: W, schedule: seq<nat>, n: nat)
    requires Acyclic(Ups(plan)) && n < |plan| && plan[n].body.Deferred?
    requires var s := RunOf(plan, values, world, schedule);
      && |s.changers| == |plan|
      && n in s.reports && s.reports[n].outcome != Blocked && s.changers[n].None?
    ensures var s, past := RunOf(plan, values, world, schedule), OwnMoments(plan, values, world, schedule, n);
      && n < |s.calls| && s.calls[n].None?
      && (exists met, e, code ::
            && AskedIn(met, past) && Following(plan[n].body.factory, met) == Fail(e)
            && (match e
                case MissingVariable(x) => code == "MISSING_VAR:" + x
                case VariableType(x) => code == "VAR_TYPE:" + x
                case Exception(t) => code == "DEFERRED_FACTORY_ERROR:" + t
                case NotAChanger(_) => code == "DEFERRED_FACTORY_TYPE")
            && s.reports[n] == NodeReport(plan[n].body.placeholder, FailedInvalid, None,
                                          Some(Result(Failed, code, map[])), None, None))
      && (forall x :: x in s.binder ==> s.binder[x] != n)
      && (forall m: nat :: Ancestor(Ups(plan), n, m) ==>
            m !in s.workers && (m in s.reports ==> s.reports[m].outcome == Blocked))
  {
    EveryReportHasOrigin(plan, values, world, schedule, n);
    RegistryAccounts(plan, values, world, schedule);
    var s, past := RunOf(plan, values, world, schedule), OwnMoments(plan, values, world, schedule, n);
    InOnePlace(plan, s, n);
    AccountOf(plan, s, n);
    forall m: nat | Ancestor(Ups(plan), n, m) ensures !Started(s, m) {
      if Started(s, m) {
        AncestorsAreGood(plan, s, m, n);
      }
    }
    hide SysOk, RegistryOk, RunOf, Ancestor, AskedIn, Following, OwnMoments;
    assert FactoryFailed(plan[n], past, s.reports[n]);
    var code := s.reports[n].result.value.code;
    var e :| TellsError(e, code) && Reached(plan[n].body.factory, past, Fail(e));
    var met :| AskedIn(met, past) && Following(plan[n].body.factory, met) == Fail(e);
  }

  /** The node's report, or the one its worker has come to. */
  ghost predicate Reports<W>(s: Sys<W>, n: nat, report: NodeReport) {
    if n in s.workers then (s.workers[n].Publishing? || s.workers[n].Finished?) && s.workers[n].report == report
    else n in s.reports && s.reports[n] == report
  }

  /** call was made with c, with what c exposed at one of these moments, and with the result of the transition,
      the one in a report of success, also where publishing failed after it; or with a plain success where there
      was no transition. The code of a failure tells what it returned. */
  ghost predicate GivenTo<W(!new)>(node: Node<W>, c: Changer<W>, past: seq<Moment<W>>, report: NodeReport, call: Call) {
    && node.publishes.Some? && call.returned == node.publishes.value(c, call.fields, call.input)
    && (exists i :: 0 <= i < |past| && call.fields == c.exposed(past[i].world))
    && (if report.postAssess.Some? then
          call.input.status == Succeeded && exists i :: 0 <= i < |past| && c.transition(past[i].world).0 == call.input
        else call.input == Result(Succeeded, "OK", map[]))
    && match report.outcome
       case Success => report.result == Some(call.input)
       case SkippedAlreadyApplied => report.result == None
       case FailedTransition =>
         && report.result.Some? && report.result.value.status == Failed && report.rollbackResult == None
         && (match call.returned
             case Raised(t) => report.result.value.code == "PUBLISH_RAISED:" + t
             case Mapping(items) =>
               exists k :: 0 <= k < |items| && report.result.value.code == "PUBLISH_DUPLICATE:" + items[k].0)
       case _ => false
  }

  lemma CallIsGiven<W(!new)>(node: Node<W>, c: Changer<W>, past: seq<Moment<W>>, report: NodeReport, call: Call)
    requires Called(node, c, past, report, call) || NotPublished(node, c, past, call, report)
    ensures GivenTo(node, c, past, report, call)
  {
    hide Called;
    if Called(node, c, past, report, call) {
      CalledFacts(node, c, past, report, call);
    } else {
      var good: NodeReport :|
        && Called(node, c, past, good, call)
        && report == NodeReport(c.name, FailedTransition, good.assessment,
                                Some(Result(Failed, report.result.value.code, map[])), good.postAssess, None);
      CalledFacts(node, c, past, good, call);
    }
  }

  lemma CallOf<W(!new)>(plan: Plan<W>, s: Sys<W>, n: nat, past: seq<Moment<W>>, report: NodeReport)
    requires n < |plan| && n < |s.changers| && n < |s.calls| && NodeOrigin(plan, s, n, past)
    requires s.calls[n].Some? && Reports(s, n, report)
    ensures s.changers[n].Some?
    ensures var c, call := s.changers[n].value, s.calls[n].value;
      Called(plan[n], c, past, report, call) || NotPublished(plan[n], c, past, call, report)
  {
    hide Called, NotPublished, Holds;
  }

  /** What a callback is given, in every reachable state of every interleaving. */
  lemma CallbackGetsResult<W(!new)>(plan: Plan<W>, values: Bindings, world: W, schedule: seq<nat>, n: nat,
      report: NodeReport)
    requires Acyclic(Ups(plan)) && n < |plan|
    requires var s := RunOf(plan, values, world, schedule);
      n < |s.calls| && s.calls[n].Some? && Reports(s, n, report)
    ensures var s, past := RunOf(plan, values, world, schedule), OwnMoments(plan, values, world, schedule, n);
      && n < |s.changers| && s.changers[n].Some?
      && GivenTo(plan[n], s.changers[n].value, past, report, s.calls[n].value)
  {
    EveryReportHasOrigin(plan, values, world, schedule, n);
    var s, past := RunOf(plan, values, world, schedule), OwnMoments(plan, values, world, schedule, n);
    hide RunOf, OwnMoments, Acyclic, SysOk, Called, NotPublished, GivenTo, NodeOrigin, Reports;
    CallOf(plan, s, n, past, report);
    CallIsGiven(plan[n], s.changers[n].value, past, report, s.calls[n].value);
  }

  lemma CalledFacts<W(!new)>(node: Node<W>, c: Changer<W>, past: seq<Moment<W>>, report: NodeReport, call: Call)
    requires Called(node, c, past, report, call)
    ensures node.publishes.Some? && call.returned == node.publishes.value(c, call.fields, call.input)
    ensures exists i :: 0 <= i < |past| && call.fields == c.exposed(past[i].world)
    ensures report.outcome in {Success, SkippedAlreadyApplied}
    ensures report.outcome == Success ==> report.result == Some(call.input)
    ensures report.outcome == SkippedAlreadyApplied ==> report.result == None
    ensures if report.postAssess.Some? then
              && call.input.status == Succeeded
              && exists i :: 0 <= i < |past| && c.transition(past[i].world).0 == call.input
            else call.input == Result(Succeeded, "OK", map[])
  {
    var i :| 0 <= i < |past| && GoodEnd(c, past[..i], report) && call.fields == c.exposed(past[i].world);
    if report.outcome == Success {
      var j :| 0 <= j < i && Transitioned(c, past[..i][..j], report.assessment.value, report.result.value)
        && c.assess(past[..i][j].world).0 == report.postAssess.value;
      var k :| && 0 <= k < j && Assessed(c, past[..i][..j][..k], report.assessment.value)
               && c.transition(past[..i][..j][k].world).0 == report.result.value;
      assert past[..i][..j][k] == past[k];
    }
    hide Assessed;
  }

  /** At the step that calls the callback it gets the node's changer, what that exposes in the world of this very
      step, and the result so far. */
  lemma CallStep<W(!new)>(plan: Plan<W>, s: Sys<W>, n: nat)
    requires SysOk(plan, s) && n in s.workers && s.workers[n].Calling? && n < |plan|
    ensures && n < |s.changers| && s.changers[n].Some? && plan[n].publishes.Some?
            && n < |Turn(plan, s, n).calls| && Turn(plan, s, n).world == s.world
    ensures var c, report := s.changers[n].value, s.workers[n].report;
      var input := if report.result.Some? then report.result.value else Result(Succeeded, "OK", map[]);
      Turn(plan, s, n).calls[n] ==
        Some(Call(input, c.exposed(s.world), plan[n].publishes.value(c, c.exposed(s.world), input)))
  {
    WorkerFacts(plan, s, n);
    hide SysOk, AbsorbTurn, LocalOk;
  }

  /** A run that has come to rest: all is its reports in registration order. A node below one that was assessed
      as invalid or failed its transition is reported as blocked, and has done nothing; every other node was
      run (AtRest). ok says just that no node ended badly, and then none is blocked. */
  lemma CompleteRunOutcomes<W(!new)>(plan: Plan<W>, values: Bindings, world: W, schedule: seq<nat>,
      all: seq<NodeReport>)
    requires Acyclic(Ups(plan)) && Complete(RunOf(plan, values, world, schedule)) && |all| == |plan|
    requires var s := RunOf(plan, values, world, schedule);
      forall n :: 0 <= n < |plan| && n in s.reports ==> all[n] == s.reports[n]
    ensures var s := RunOf(plan, values, world, schedule);
      |s.changers| == |s.calls| == |plan| && forall n: nat :: n < |plan| ==>
        n in s.reports && AtRest(plan, s, all, n, OwnMoments(plan, values, world, schedule, n))
    ensures EngineResult(all).Ok() <==>
              forall n :: 0 <= n < |plan| ==> all[n].outcome !in {FailedInvalid, FailedTransition}
    ensures EngineResult(all).Ok() <==>
              forall n :: 0 <= n < |plan| ==> all[n].outcome in {Success, SkippedAlreadyApplied, SkippedByTransition}
  {
    hide SysOk, RunOf, OwnMoments, Acyclic, NodeOrigin, EngineResult.Ok, FailedAbove;
    var s := RunOf(plan, values, world, schedule);
    RestMeansAllReported(plan, s);
    OkAtRest(plan, s, all);
    SameLengths(plan, s);
    forall n: nat | n < |plan|
      ensures AtRest(plan, s, all, n, OwnMoments(plan, values, world, schedule, n))
    {
      EveryReportHasOrigin(plan, values, world, schedule, n);
      NodeAtRest(plan, s, all, n, OwnMoments(plan, values, world, schedule, n));
    }
  }

  ghost predicate AtRest<W(!new)>(plan: Plan<W>, s: Sys<W>, all: seq<NodeReport>, n: nat, past: seq<Moment<W>>)
    requires n < |plan| == |s.changers| == |s.calls| == |all|
  {
    if exists a: nat :: a < |plan| && Ancestor(Ups(plan), a, n) && all[a].outcome in {FailedInvalid, FailedTransition}
    then BlockedOnly(plan[n], all[n]) && Idle(plan[n], s.changers[n], s.calls[n])
    else all[n].outcome != Blocked && ReportOrigin(plan[n], s.changers[n], s.calls[n], past, all[n])
  }

  lemma NodeAtRest<W(!new)>(plan: Plan<W>, s: Sys<W>, all: seq<NodeReport>, n: nat, past: seq<Moment<W>>)
    requires SysOk(plan, s) && n < |plan| == |s.changers| == |s.calls| == |all| && NodeOrigin(plan, s, n, past)
    requires forall n :: 0 <= n < |plan| ==> n in s.reports && all[n] == s.reports[n]
    ensures AtRest(plan, s, all, n, past)
  {
    InOnePlace(plan, s, n);
    BlockedBelow(plan, s, all, n);
    hide SysOk, ReportOrigin, BlockedOnly, Idle, Ancestor;
  }

  lemma OkAtRest<W>(plan: Plan<W>, s: Sys<W>, all: seq<NodeReport>)
    requires SysOk(plan, s) && |all| == |plan|
    requires forall n :: 0 <= n < |plan| ==> n in s.reports && all[n] == s.reports[n]
    ensures EngineResult(all).Ok() <==>
              forall n :: 0 <= n < |plan| ==> all[n].outcome !in {FailedInvalid, FailedTransition}
    ensures EngineResult(all).Ok() <==>
              forall n :: 0 <= n < |plan| ==> all[n].outcome in {Success, SkippedAlreadyApplied, SkippedByTransition}
  {
    OkIffNothingFailed(Ups(plan), Names(plan), s.reports, all);
  }

  lemma SameLengths<W>(plan: Plan<W>, s: Sys<W>)
    requires SysOk(plan, s)
    ensures |s.changers| == |s.calls| == |plan|
  {
  }

  lemma BlockedBelow<W>(plan: Plan<W>, s: Sys<W>, all: seq<NodeReport>, n: nat)
    requires SysOk(plan, s) && |all| == |plan| && n < |plan|
    requires forall n :: 0 <= n < |plan| ==> n in s.reports && all[n] == s.reports[n]
    ensures all[n].outcome == Blocked <==> FailedAbove(Ups(plan), all, n)
  {
    BlockedExactly(Ups(plan), Names(plan), s.reports, n);
    forall a: nat | Ancestor(Ups(plan), a, n) ensures a < |plan| {
      AncestorIsEarlier(Ups(plan), a, n);
    }
    hide Acyclic, Consistent, CrewOk, Runnable;
  }

  /** Whatever a node above n that ended well has published, the next read of n's factory finds: a checked read
      exactly if it asks for one of the value's types. */
  lemma PublishedIsFound<W(!new)>(plan: Plan<W>, values: Bindings, world: W, schedule: seq<nat>, n: nat, a: nat,
      x: string, v: Value)
    requires Acyclic(Ups(plan)) && Ancestor(Ups(plan), a, n)
    requires var s := RunOf(plan, values, world, schedule);
      && n in s.workers && s.workers[n].Resolving? && s.workers[n].factory.Ask?
      && a in s.reports && s.reports[a].outcome in {Success, SkippedAlreadyApplied}
      && a < |s.calls| && s.calls[a].Some? && s.calls[a].value.returned.Mapping?
      && (x, v) in s.calls[a].value.returned.items
    ensures var s := RunOf(plan, values, world, schedule);
      var next, after := s.workers[n].factory.next, Turn(plan, s, n);
      && n in after.workers
      && match s.workers[n].factory.query
         case Require(y, t) =>
           y == x ==> after.workers[n] == Resolving(next(if t in v.types then Found(v) else WrongType(x)))
         case Get(y) => y == x ==> after.workers[n] == Resolving(next(Found(v)))
         case Has(y) => y == x ==> after.workers[n] == Resolving(next(Presence(true)))
         case Snapshot =>
           exists image: Bindings :: && after.workers[n] == Resolving(next(Image(image)))
                                     && x in image && image[x] == v
  {
    var s := RunOf(plan, values, world, schedule);
    assert Started(s, n);
    hide RunOf, Exec, Turn, SysOk, Acyclic, Ancestor;
    PublishedIsBound(plan, values, world, schedule, n, a, x, v);
    ReadsRegistry(plan, s, n);
  }

  lemma PublishedIsBound<W>(plan: Plan<W>, values: Bindings, world: W, schedule: seq<nat>, n: nat, a: nat, x: string,
      v: Value)
    requires Acyclic(Ups(plan)) && Ancestor(Ups(plan), a, n)
    requires var s := RunOf(plan, values, world, schedule);
      && Started(s, n) && a in s.reports && s.reports[a].outcome in {Success, SkippedAlreadyApplied}
      && (x, v) in Entries(s, a)
    ensures var s := RunOf(plan, values, world, schedule); x in s.values && s.values[x] == v
  {
    hide RunOf, Exec, SysOk, Acyclic, Ancestor, Started, Entries;
    CausalVisibility(plan, values, world, schedule, [], n, a);
    var s := RunOf(plan, values, world, schedule);
    var j :| 0 <= j < |Entries(s, a)| && Entries(s, a)[j] == (x, v);
  }

  lemma ReadsRegistry<W>(plan: Plan<W>, s: Sys<W>, n: nat)
    requires SysOk(plan, s) && n in s.workers && s.workers[n].Resolving? && s.workers[n].factory.Ask?
    ensures var g, after := s.workers[n].factory, Turn(plan, s, n);
      n in after.workers && after.workers[n] == Resolving(g.next(Lookup(s.values, g.query)))
  {
    WorkerFacts(plan, s, n);
    hide SysOk, AbsorbTurn, LocalOk;
  }
}
