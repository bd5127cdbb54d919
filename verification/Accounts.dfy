/** The registry over whole runs: every name is bound at most once, and every node accounts, by its report
    and by the call of its publish callback, for exactly what it has bound. */
module Accounts {
  import opened Outcomes
  import opened Registry
  import opened Workers
  import opened Dag
  import opened Scheduling
  import opened Machine

  // ---- how the registry grows ----

  ghost predicate Extends(before: Bindings, after: Bindings) {
    forall x :: x in before ==> x in after && after[x] == before[x]
  }

  /** The binding a step adds. */
  function Delta<W>(local: Local<W>, values: Bindings): Bindings {
    match local
    case Publishing(_, items, next) =>
      if next < |items| && items[next].0 !in values then map[items[next].0 := items[next].1] else map[]
    case _ => map[]
  }

  lemma StepAddsDelta<W>(node: Node<W>, c: Core<W>)
    requires WorkerOk(node, c.changer, c.local)
    ensures Step(node, c).values == c.values + Delta(c.local, c.values)
    ensures Delta(c.local, c.values).Keys !! c.values.Keys
  {
    assert c.values + map[] == c.values;
  }

  function MarkedBy(d: Bindings, n: nat): map<string, nat> {
    map x | x in d :: n
  }

  lemma WorkerTurnAddsDelta<W>(plan: Plan<W>, s: Sys<W>, k: nat)
    requires SysOk(plan, s) && k in s.workers
    ensures var s', d := WorkerTurn(plan, s, k), Delta(s.workers[k], s.values);
      && s'.values == s.values + d && s'.binder == s.binder + MarkedBy(d, k) && d.Keys !! s.values.Keys
  {
    WorkerFacts(plan, s, k);
    hide SysOk, Step, Delta, WorkerOk, LocalOk;
    StepAddsDelta(plan[k], CoreOf(plan, s, k));
    var s', d := WorkerTurn(plan, s, k), Delta(s.workers[k], s.values);
    assert s'.values.Keys - s.values.Keys == d.Keys;
  }

  /** A step of the run adds what the worker's step adds, marked by its node; an absorption adds nothing. */
  lemma TurnAddsDelta<W>(plan: Plan<W>, s: Sys<W>, k: nat)
    requires SysOk(plan, s)
    ensures var s' := Turn(plan, s, k);
      var d := if k in s.workers then Delta(s.workers[k], s.values) else map[];
      && s'.values == s.values + d && s'.binder == s.binder + MarkedBy(d, k) && d.Keys !! s.values.Keys
  {
    hide SysOk, WorkerTurn, Refill;
    assert s.values + map[] == s.values && s.binder + MarkedBy(map[], k) == s.binder;
    if k in s.workers && !s.workers[k].Finished? {
      WorkerTurnAddsDelta(plan, s, k);
    }
  }

  /** Whatever s has bound, t has bound to the same value by the same node, and nothing that s has is
      newly attributed. */
  ghost predicate KeepsBindings<W>(s: Sys<W>, t: Sys<W>) {
    && t.binder.Keys <= t.values.Keys
    && Extends(s.values, t.values)
    && (forall x :: x in s.values ==> (x in t.binder <==> x in s.binder))
    && (forall x :: x in s.binder ==> x in t.binder && t.binder[x] == s.binder[x])
  }

  lemma TurnKeepsBindings<W>(plan: Plan<W>, s: Sys<W>, k: nat)
    requires SysOk(plan, s) && s.binder.Keys <= s.values.Keys
    ensures KeepsBindings(s, Turn(plan, s, k)) && Turn(plan, s, k).binder.Keys <= Turn(plan, s, k).values.Keys
  {
    hide SysOk, Turn, Delta;
    TurnAddsDelta(plan, s, k);
  }

  lemma KeepsOnKeeping<W>(s: Sys<W>, t: Sys<W>, u: Sys<W>)
    requires KeepsBindings(s, t) && KeepsBindings(t, u)
    ensures KeepsBindings(s, u)
  {
  }

  /** At most one bind of a name ever succeeds, in any interleaving: who bound it, and to what, stays. */
  lemma {:induction false} BoundOnce<W>(plan: Plan<W>, s: Sys<W>, schedule: seq<nat>)
    requires SysOk(plan, s) && s.binder.Keys <= s.values.Keys
    ensures KeepsBindings(s, Exec(plan, s, schedule))
    decreases |schedule|
  {
    if schedule == [] {
    } else {
      hide SysOk, Turn, KeepsBindings;
      TurnKeepsBindings(plan, s, schedule[0]);
      var s1 := Turn(plan, s, schedule[0]);
      BoundOnce(plan, s1, schedule[1..]);
      KeepsOnKeeping(s, s1, Exec(plan, s1, schedule[1..]));
    }
  }

  // ---- what each node has bound ----

  /** n has bound exactly the names of items, each to its value there. */
  ghost predicate BoundExactly(values: Bindings, binder: map<string, nat>, n: nat, items: seq<(string, Value)>) {
    && (forall x :: x in binder && binder[x] == n ==> exists j :: 0 <= j < |items| && items[j].0 == x)
    && (forall j :: 0 <= j < |items| ==>
          var (x, v) := items[j]; x in binder && binder[x] == n && x in values && values[x] == v)
  }

  /** The call is one of the node's callback with the changer that the node wraps. */
  ghost predicate CallOk<W>(node: Node<W>, changer: Option<Changer<W>>, call: Call) {
    changer.Some? && node.publishes.Some? && call == MakeCall(node, changer.value, call.fields, call.input)
  }

  /** Entry k was refused, because another node, or somebody before the run, had bound its name: exactly the
      entries before it are bound by n, and the report names it. */
  ghost predicate RefusedEntry(items: seq<(string, Value)>, n: nat, report: NodeReport, values: Bindings,
      binder: map<string, nat>, k: nat)
  {
    && k < |items|
    && report.result == Some(FailureResult(DuplicateCode(items[k].0)))
    && items[k].0 in values && (items[k].0 in binder ==> binder[items[k].0] != n)
    && BoundExactly(values, binder, n, items[..k])
  }

  /** What a node that has stopped has put into the registry. No call: nothing, and the node did not get as
      far as publishing, or has no callback. A callback that raised: nothing. Otherwise either everything
      the callback returned, and the outcome is eligible; or the entries before a refused one. */
  ghost predicate Accounted<W>(node: Node<W>, n: nat, changer: Option<Changer<W>>, call: Option<Call>,
      report: NodeReport, values: Bindings, binder: map<string, nat>)
  {
    match call
    case None =>
      && BoundExactly(values, binder, n, []) && !PublishFailure(report)
      && (PublishEligible(report.outcome) ==> node.publishes.None?)
    case Some(call) =>
      && CallOk(node, changer, call)
      && match call.returned
         case Raised(typeName) =>
           && PublishFailure(report) && report.result == Some(FailureResult(RaisedCode(typeName)))
           && BoundExactly(values, binder, n, [])
         case Mapping(items) =>
           if PublishEligible(report.outcome) then
             call.input == PublishInput(report) && BoundExactly(values, binder, n, items)
           else PublishFailure(report) && exists k: nat :: RefusedEntry(items, n, report, values, binder, k)
  }

  /** The account of a node in flight. */
  ghost predicate WorkerAccount<W>(node: Node<W>, n: nat, changer: Option<Changer<W>>, call: Option<Call>,
      local: Local<W>, values: Bindings, binder: map<string, nat>)
  {
    match local
    case Publishing(report, items, next) =>
      && call.Some? && CallOk(node, changer, call.value) && call.value.returned == Mapping(items)
      && call.value.input == PublishInput(report)
      && next <= |items| && BoundExactly(values, binder, n, items[..next])
    case Finished(report) => Accounted(node, n, changer, call, report, values, binder)
    case _ => call.None? && BoundExactly(values, binder, n, [])
  }

  ghost predicate NodeAccount<W>(plan: Plan<W>, s: Sys<W>, n: nat, values: Bindings, binder: map<string, nat>)
    requires n < |plan| && n < |s.changers| && n < |s.calls|
  {
    if n in s.workers then WorkerAccount(plan[n], n, s.changers[n], s.calls[n], s.workers[n], values, binder)
    else if n in s.reports then Accounted(plan[n], n, s.changers[n], s.calls[n], s.reports[n], values, binder)
    else s.calls[n].None? && BoundExactly(values, binder, n, [])
  }

  /** Every node accounts for what it has bound, and only nodes bind. */
  ghost predicate RegistryOk<W>(plan: Plan<W>, s: Sys<W>)
    requires SysOk(plan, s)
  {
    && s.binder.Keys <= s.values.Keys
    && (forall x :: x in s.binder ==> s.binder[x] < |plan|)
    && (forall n: nat :: n < |plan| ==> NodeAccount(plan, s, n, s.values, s.binder))
  }

  // ---- another node's step ----

  /** A binding by another node leaves what n has bound alone. */
  lemma OthersBindingsKept(values: Bindings, binder: map<string, nat>, n: nat, items: seq<(string, Value)>, m: nat,
      d: Bindings)
    requires BoundExactly(values, binder, n, items) && m != n && d.Keys !! values.Keys && binder.Keys <= values.Keys
    ensures BoundExactly(values + d, binder + MarkedBy(d, m), n, items)
  {
  }

  lemma OthersAccountedKept<W>(node: Node<W>, n: nat, changer: Option<Changer<W>>, call: Option<Call>,
      report: NodeReport, values: Bindings, binder: map<string, nat>, m: nat, d: Bindings)
    requires Accounted(node, n, changer, call, report, values, binder)
    requires m != n && d.Keys !! values.Keys && binder.Keys <= values.Keys
    ensures Accounted(node, n, changer, call, report, values + d, binder + MarkedBy(d, m))
  {
    if call.Some? && call.value.returned.Mapping? {
      var items := call.value.returned.items;
      if PublishEligible(report.outcome) {
        OthersBindingsKept(values, binder, n, items, m, d);
      } else {
        var k: nat :| RefusedEntry(items, n, report, values, binder, k);
        OthersBindingsKept(values, binder, n, items[..k], m, d);
        assert RefusedEntry(items, n, report, values + d, binder + MarkedBy(d, m), k);
      }
    } else {
      OthersBindingsKept(values, binder, n, [], m, d);
    }
  }

  lemma OthersNodeAccountKept<W>(plan: Plan<W>, s: Sys<W>, n: nat, m: nat, d: Bindings)
    requires n < |plan| && n < |s.changers| && n < |s.calls| && NodeAccount(plan, s, n, s.values, s.binder)
    requires m != n && d.Keys !! s.values.Keys && s.binder.Keys <= s.values.Keys
    ensures NodeAccount(plan, s, n, s.values + d, s.binder + MarkedBy(d, m))
  {
    hide BoundExactly, Accounted, MarkedBy;
    if n in s.workers {
      match s.workers[n]
      case Publishing(_, items, next) => OthersBindingsKept(s.values, s.binder, n, items[..next], m, d);
      case Finished(report) =>
        OthersAccountedKept(plan[n], n, s.changers[n], s.calls[n], report, s.values, s.binder, m, d);
      case _ => OthersBindingsKept(s.values, s.binder, n, [], m, d);
    } else if n in s.reports {
      OthersAccountedKept(plan[n], n, s.changers[n], s.calls[n], s.reports[n], s.values, s.binder, m, d);
    } else {
      OthersBindingsKept(s.values, s.binder, n, [], m, d);
    }
  }

  // ---- the node's own step ----

  lemma BindNextEntry(values: Bindings, binder: map<string, nat>, n: nat, items: seq<(string, Value)>, next: nat)
    requires next < |items| && items[next].0 !in values && binder.Keys <= values.Keys
    requires BoundExactly(values, binder, n, items[..next])
    ensures var d := map[items[next].0 := items[next].1];
      BoundExactly(values + d, binder + MarkedBy(d, n), n, items[..next + 1])
  {
    var before, after := items[..next], items[..next + 1];
    assert after == before + [items[next]];
    assert after[next].0 == items[next].0;
    forall y | y in binder && binder[y] == n ensures exists j :: 0 <= j < |after| && after[j].0 == y {
      var j :| 0 <= j < |before| && before[j].0 == y;
      assert after[j].0 == y;
    }
  }

  /** The name that is refused was not bound by the node itself: a mapping has no name twice. */
  lemma RefusedByOthers(items: Items, n: nat, values: Bindings, binder: map<string, nat>, next: nat)
    requires next < |items| && items[next].0 in binder && BoundExactly(values, binder, n, items[..next])
    ensures binder[items[next].0] != n
  {
  }

  lemma PublishStepAccounts<W>(node: Node<W>, n: nat, c: Core<W>, binder: map<string, nat>)
    requires WorkerOk(node, c.changer, c.local) && LocalOk(c.local) && binder.Keys <= c.values.Keys
    requires c.local.Publishing? && WorkerAccount(node, n, c.changer, c.call, c.local, c.values, binder)
    ensures var c', d := Step(node, c), Delta(c.local, c.values);
      WorkerAccount(node, n, c'.changer, c'.call, c'.local, c.values + d, binder + MarkedBy(d, n))
  {
    var report, items, next := c.local.report, c.local.items, c.local.next;
    assert c.values + map[] == c.values && binder + MarkedBy(map[], n) == binder;
    hide BoundExactly, MarkedBy, CallOk;
    if next == |items| {
      assert items[..next] == items;
    } else if items[next].0 in c.values {
      if items[next].0 in binder {
        RefusedByOthers(items, n, c.values, binder, next);
      }
      var end := PublishFailureReport(report, DuplicateCode(items[next].0));
      assert RefusedEntry(items, n, end, c.values, binder, next);
    } else {
      BindNextEntry(c.values, binder, n, items, next);
    }
  }

  lemma CallStepAccounts<W>(node: Node<W>, n: nat, c: Core<W>, binder: map<string, nat>)
    requires WorkerOk(node, c.changer, c.local) && LocalOk(c.local)
    requires c.local.Calling? && WorkerAccount(node, n, c.changer, c.call, c.local, c.values, binder)
    ensures var c' := Step(node, c); WorkerAccount(node, n, c'.changer, c'.call, c'.local, c.values, binder)
  {
    var c' := Step(node, c);
    assert CallOk(node, c.changer, c'.call.value);
    if c'.local.Publishing? {
      assert c'.local.items[..0] == [];
    }
    hide BoundExactly, CallOk;
  }

  lemma PlainStepAccounts<W>(node: Node<W>, n: nat, c: Core<W>, binder: map<string, nat>)
    requires WorkerOk(node, c.changer, c.local) && LocalOk(c.local)
    requires !c.local.Calling? && !c.local.Publishing? && !c.local.Finished?
    requires WorkerAccount(node, n, c.changer, c.call, c.local, c.values, binder)
    ensures var c' := Step(node, c); WorkerAccount(node, n, c'.changer, c'.call, c'.local, c.values, binder)
  {
    hide BoundExactly, CallOk;
  }

  /** The worker's own step keeps its account straight. */
  lemma OwnStepAccounts<W>(node: Node<W>, n: nat, c: Core<W>, binder: map<string, nat>)
    requires WorkerOk(node, c.changer, c.local) && LocalOk(c.local) && binder.Keys <= c.values.Keys
    requires !c.local.Finished? && WorkerAccount(node, n, c.changer, c.call, c.local, c.values, binder)
    ensures var c', d := Step(node, c), Delta(c.local, c.values);
      WorkerAccount(node, n, c'.changer, c'.call, c'.local, c.values + d, binder + MarkedBy(d, n))
  {
    assert c.values + map[] == c.values && binder + MarkedBy(map[], n) == binder;
    hide WorkerAccount, Step, WorkerOk, LocalOk, MarkedBy;
    match c.local
    case Publishing(_, _, _) => PublishStepAccounts(node, n, c, binder);
    case Calling(_) => CallStepAccounts(node, n, c, binder);
    case _ => PlainStepAccounts(node, n, c, binder);
  }

  // ---- every step, every run ----

  lemma AccountOf<W>(plan: Plan<W>, s: Sys<W>, n: nat)
    requires SysOk(plan, s) && RegistryOk(plan, s) && n < |plan|
    ensures n < |s.changers| && n < |s.calls| && NodeAccount(plan, s, n, s.values, s.binder)
    ensures s.binder.Keys <= s.values.Keys
  {
  }

  lemma OwnTurnAccounts<W>(plan: Plan<W>, s: Sys<W>, n: nat)
    requires SysOk(plan, s) && RegistryOk(plan, s) && n in s.workers && !s.workers[n].Finished?
    ensures var s' := Turn(plan, s, n);
      && n < |plan| && n < |s'.changers| && n < |s'.calls| && NodeAccount(plan, s', n, s'.values, s'.binder)
  {
    WorkerFacts(plan, s, n);
    AccountOf(plan, s, n);
    TurnAddsDelta(plan, s, n);
    hide SysOk, RegistryOk, WorkerAccount, Accounted, BoundExactly, Step, WorkerOk, LocalOk, Delta, AbsorbTurn,
        MarkedBy;
    OwnStepAccounts(plan[n], n, CoreOf(plan, s, n), s.binder);
  }

  lemma OthersTurnAccounts<W>(plan: Plan<W>, s: Sys<W>, n: nat, m: nat)
    requires SysOk(plan, s) && RegistryOk(plan, s) && n in s.workers && !s.workers[n].Finished?
    requires m < |plan| && m != n
    ensures var s' := Turn(plan, s, n);
      m < |s'.changers| && m < |s'.calls| && NodeAccount(plan, s', m, s'.values, s'.binder)
  {
    WorkerFacts(plan, s, n);
    AccountOf(plan, s, m);
    TurnAddsDelta(plan, s, n);
    OthersNodeAccountKept(plan, s, m, n, Delta(s.workers[n], s.values));
    hide SysOk, RegistryOk, WorkerAccount, Accounted, BoundExactly, Step, Delta, MarkedBy, AbsorbTurn;
  }

  /** Whatever is bound in the run is bound by one of its nodes. */
  lemma TurnKeepsBinder<W>(plan: Plan<W>, s: Sys<W>, k: nat)
    requires SysOk(plan, s) && RegistryOk(plan, s)
    ensures var s' := Turn(plan, s, k);
      s'.binder.Keys <= s'.values.Keys && forall x :: x in s'.binder ==> s'.binder[x] < |plan|
  {
    hide SysOk, Turn, Delta, NodeAccount;
    if k in s.workers {
      WorkerFacts(plan, s, k);
    }
    TurnAddsDelta(plan, s, k);
  }

  lemma WorkerTurnKeepsRegistryOk<W>(plan: Plan<W>, s: Sys<W>, n: nat)
    requires SysOk(plan, s) && RegistryOk(plan, s) && n in s.workers && !s.workers[n].Finished?
    ensures RegistryOk(plan, Turn(plan, s, n))
  {
    TurnKeepsBinder(plan, s, n);
    var s' := Turn(plan, s, n);
    forall m: nat | m < |plan|
      ensures m < |s'.changers| && m < |s'.calls| && NodeAccount(plan, s', m, s'.values, s'.binder)
    {
      if m == n {
        OwnTurnAccounts(plan, s, n);
      } else {
        OthersTurnAccounts(plan, s, n, m);
      }
    }
    hide SysOk, NodeAccount, Turn;
  }

  /** A node blocked by an absorption has done nothing. */
  lemma BlockedAccount<W>(plan: Plan<W>, s: Sys<W>, n: nat, report: NodeReport, values: Bindings,
      binder: map<string, nat>)
    requires n < |plan| && n < |s.changers| && n < |s.calls| && NodeAccount(plan, s, n, values, binder)
    requires n !in s.workers && n !in s.reports && report.outcome == Blocked
    ensures Accounted(plan[n], n, s.changers[n], s.calls[n], report, values, binder)
  {
  }

  /** A node that has just been put in flight has done nothing. */
  lemma FreshAccount<W>(plan: Plan<W>, s: Sys<W>, n: nat, values: Bindings, binder: map<string, nat>)
    requires n < |plan| && n < |s.changers| && n < |s.calls| && NodeAccount(plan, s, n, values, binder)
    requires n !in s.workers && n !in s.reports
    ensures WorkerAccount(plan[n], n, s.changers[n], s.calls[n], Initial(plan[n]).1, values, binder)
  {
  }

  lemma AbsorbTurnKeepsAccount<W>(plan: Plan<W>, s: Sys<W>, n: nat, m: nat)
    requires SysOk(plan, s) && RegistryOk(plan, s) && n in s.workers && s.workers[n].Finished? && m < |plan|
    ensures var s' := Turn(plan, s, n);
      m < |s'.changers| && m < |s'.calls| && NodeAccount(plan, s', m, s'.values, s'.binder)
  {
    var s' := Turn(plan, s, n);
    AbsorbedReports(plan, s, n);
    AccountOf(plan, s, m);
    if m in s'.workers {
      WorkerFacts(plan, s', m);
    }
    if m in s.workers {
      WorkerFacts(plan, s, m);
    }
    hide SysOk, RegistryOk, Accounted, BoundExactly, Turn, WorkerOk, LocalOk;
    if m !in s.workers && m !in s.reports {
      if m in s'.workers {
        FreshAccount(plan, s, m, s.values, s.binder);
      } else if m in s'.reports {
        BlockedAccount(plan, s, m, s'.reports[m], s.values, s.binder);
      }
    } else if m in s.workers && m != n {
      OthersStayInFlight(plan, s, n, m);
    }
    hide WorkerAccount;
  }

  lemma AbsorbTurnKeepsRegistryOk<W>(plan: Plan<W>, s: Sys<W>, n: nat)
    requires SysOk(plan, s) && RegistryOk(plan, s) && n in s.workers && s.workers[n].Finished?
    ensures RegistryOk(plan, Turn(plan, s, n))
  {
    TurnKeepsBinder(plan, s, n);
    var s' := Turn(plan, s, n);
    forall m: nat | m < |plan|
      ensures m < |s'.changers| && m < |s'.calls| && NodeAccount(plan, s', m, s'.values, s'.binder)
    {
      AbsorbTurnKeepsAccount(plan, s, n, m);
    }
    hide SysOk, NodeAccount, Turn;
  }

  lemma TurnKeepsRegistryOk<W>(plan: Plan<W>, s: Sys<W>, n: nat)
    requires SysOk(plan, s) && RegistryOk(plan, s)
    ensures RegistryOk(plan, Turn(plan, s, n))
  {
    hide SysOk, RegistryOk, AbsorbTurn, WorkerTurn;
    if n in s.workers {
      if s.workers[n].Finished? {
        AbsorbTurnKeepsRegistryOk(plan, s, n);
      } else {
        WorkerTurnKeepsRegistryOk(plan, s, n);
      }
    }
  }

  lemma {:induction false} ExecKeepsRegistryOk<W>(plan: Plan<W>, s: Sys<W>, schedule: seq<nat>)
    requires SysOk(plan, s) && RegistryOk(plan, s)
    ensures RegistryOk(plan, Exec(plan, s, schedule))
    decreases |schedule|
  {
    hide SysOk, RegistryOk, Turn;
    if schedule != [] {
      TurnKeepsRegistryOk(plan, s, schedule[0]);
      ExecKeepsRegistryOk(plan, Turn(plan, s, schedule[0]), schedule[1..]);
    }
  }

  lemma StartIsAccounted<W>(plan: Plan<W>, values: Bindings, world: W)
    requires Acyclic(Ups(plan))
    ensures SysOk(plan, Start(plan, values, world)) && RegistryOk(plan, Start(plan, values, world))
  {
    StartIsOk(plan, values, world);
    hide Acyclic, Consistent, Runnable;
  }

  /** In every reachable state of every interleaving every node accounts for what it has bound. */
  lemma RegistryAccounts<W>(plan: Plan<W>, values: Bindings, world: W, schedule: seq<nat>)
    requires Acyclic(Ups(plan))
    ensures RegistryOk(plan, RunOf(plan, values, world, schedule))
  {
    StartIsAccounted(plan, values, world);
    hide SysOk, RegistryOk, Start;
    ExecKeepsRegistryOk(plan, Start(plan, values, world), schedule);
  }

  /** What n's callback returned, if it was called and returned. */
  ghost function Entries<W>(s: Sys<W>, n: nat): Items {
    if n < |s.calls| && s.calls[n].Some? && s.calls[n].value.returned.Mapping? then s.calls[n].value.returned.items
    else []
  }

  lemma CodesDiffer(name: string, typeName: string)
    ensures DuplicateCode(name) != RaisedCode(typeName)
  {
    assert DuplicateCode(name)[8] == 'D' && RaisedCode(typeName)[8] == 'R';
  }

  lemma DuplicateCodeNames(a: string, b: string)
    requires DuplicateCode(a) == DuplicateCode(b)
    ensures a == b
  {
    assert DuplicateCode(a)[18..] == a && DuplicateCode(b)[18..] == b;
  }

  /** What a report says about the registry; items is what the node's callback returned, if it was called and
      returned. An eligible outcome: exactly items. A failure although the state was applied, with the code
      for a duplicate x: exactly the entries before the one named x, which somebody else had bound; with the
      code for a callback that raised: nothing; and these are the only codes such a report can have. Any
      other report: nothing. */
  ghost predicate Told(report: NodeReport, n: nat, items: seq<(string, Value)>, values: Bindings,
      binder: map<string, nat>)
  {
    if PublishEligible(report.outcome) then BoundExactly(values, binder, n, items)
    else if !PublishFailure(report) then BoundExactly(values, binder, n, [])
    else
      && report.result.Some?
      && (|| (exists x :: report.result.value.code == DuplicateCode(x))
          || (exists typeName :: report.result.value.code == RaisedCode(typeName)))
      && (forall x :: report.result.value.code == DuplicateCode(x) ==> RefusedName(report, n, items, values, binder, x))
      && (forall typeName :: report.result.value.code == RaisedCode(typeName) ==> BoundExactly(values, binder, n, []))
  }

  ghost predicate RefusedName(report: NodeReport, n: nat, items: seq<(string, Value)>, values: Bindings,
      binder: map<string, nat>, x: string)
  {
    exists k: nat :: k < |items| && items[k].0 == x && RefusedEntry(items, n, report, values, binder, k)
  }

  /** In every reachable state of every interleaving, every report tells what its node has bound. */
  lemma ReportTellsBindings<W>(plan: Plan<W>, values: Bindings, world: W, schedule: seq<nat>, n: nat)
    requires Acyclic(Ups(plan)) && n in RunOf(plan, values, world, schedule).reports
    ensures var s := RunOf(plan, values, world, schedule);
      && n < |plan| && n < |s.calls|
      && Told(s.reports[n], n, Entries(s, n), s.values, s.binder)
      && (PublishEligible(s.reports[n].outcome) && plan[n].publishes.Some? ==> s.calls[n].Some?)
  {
    RegistryAccounts(plan, values, world, schedule);
    var s := RunOf(plan, values, world, schedule);
    assert n < |plan| && n !in s.workers;
    AccountOf(plan, s, n);
    hide SysOk, RegistryOk, Exec, RunOf, BoundExactly, CallOk, Told;
    AccountTells(plan[n], n, s.changers[n], s.calls[n], s.reports[n], s.values, s.binder);
  }

  lemma AccountTells<W>(node: Node<W>, n: nat, changer: Option<Changer<W>>, call: Option<Call>,
      report: NodeReport, values: Bindings, binder: map<string, nat>)
    requires Accounted(node, n, changer, call, report, values, binder)
    ensures var items: seq<(string, Value)> :=
        if call.Some? && call.value.returned.Mapping? then call.value.returned.items else [];
      Told(report, n, items, values, binder)
  {
    hide BoundExactly, CallOk, DuplicateCode, RaisedCode;
    if PublishFailure(report) {
      match call.value.returned {
        case Raised(typeName) =>
          forall x ensures DuplicateCode(x) != RaisedCode(typeName) {
            CodesDiffer(x, typeName);
          }
        case Mapping(items) =>
          var k: nat :| RefusedEntry(items, n, report, values, binder, k);
          forall typeName ensures DuplicateCode(items[k].0) != RaisedCode(typeName) {
            CodesDiffer(items[k].0, typeName);
          }
          forall x | DuplicateCode(x) == DuplicateCode(items[k].0)
            ensures RefusedName(report, n, items, values, binder, x)
          {
            DuplicateCodeNames(x, items[k].0);
          }
      }
    }
  }

  /** Causality over whole runs: whenever a node is in flight or has run, each of its ancestors has been
      absorbed without failing, and everything the ancestor published is bound, to the ancestor's value,
      then and for the rest of the run. */
  lemma CausalVisibility<W>(plan: Plan<W>, values: Bindings, world: W, schedule: seq<nat>, rest: seq<nat>, n: nat,
      a: nat)
    requires Acyclic(Ups(plan)) && Started(RunOf(plan, values, world, schedule), n) && Ancestor(Ups(plan), a, n)
    ensures var s := RunOf(plan, values, world, schedule);
      && Good(s.reports, a)
      && (PublishEligible(s.reports[a].outcome) ==>
            && (plan[a].publishes.Some? ==> s.calls[a].Some? && s.calls[a].value.returned.Mapping?)
            && forall j :: 0 <= j < |Entries(s, a)| ==>
                 var (x, v) := Entries(s, a)[j];
                 && x in s.values && s.values[x] == v
                 && x in Exec(plan, s, rest).values && Exec(plan, s, rest).values[x] == v)
  {
    RegistryAccounts(plan, values, world, schedule);
    var s := RunOf(plan, values, world, schedule);
    AncestorsAreGood(plan, s, n, a);
    AccountOf(plan, s, a);
    BoundOnce(plan, s, rest);
    hide SysOk, RegistryOk, Exec, RunOf, Ancestor, CallOk, PublishFailure;
  }
}
