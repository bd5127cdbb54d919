/** The engine: registration of nodes, and one run over everything registered. */
module Engine {
  import opened Outcomes
  import opened Registry
  import opened Workers
  import opened Nodes
  import opened Dag
  import opened Scheduling
  import opened RunLog
  import opened Driver
  import opened Origins

  /** What a caller may name in depends_on: a changer object, or the handle of a deferred node. */
  datatype Handle = ChangerHandle(identity: nat) | DeferredHandle(number: nat)

  datatype ConfigurationError =
    | DuplicateNode(name: string)
    | UnknownDependency(node: string, missing: Handle)
    | DeferredWithoutDependencies

  datatype Outcome<+T> = Ok(value: T) | Error(error: ConfigurationError)

  function DigitChar(d: nat): (c: char)
    requires d < 10
    ensures '0' <= c <= '9' && c as int - '0' as int == d
  {
    ('0' as int + d) as char
  }

  /** Decimal digits of a counter. */
  function Decimal(n: nat): string {
    (if n < 10 then "" else Decimal(n / 10)) + [DigitChar(n % 10)]
  }

  /** The number that a string of digits stands for; anything else is read as zero digits. */
  function Numeral(digits: string): nat {
    if digits == "" then 0
    else
      var last := digits[|digits| - 1];
      Numeral(digits[..|digits| - 1]) * 10 + if '0' <= last <= '9' then last as int - '0' as int else 0
  }

  /** Placeholder numbers are digits without leading zeros that can be read back, so no two deferred nodes share
      a name. */
  lemma {:induction false} DecimalReadsBack(n: nat)
    ensures Numeral(Decimal(n)) == n && Digits(Decimal(n))
  {
    DecimalIsPlain(n);
    var head := if n < 10 then "" else Decimal(n / 10);
    if n >= 10 {
      DecimalReadsBack(n / 10);
    }
    hide Digits;
    NumeralAppend(head, DigitChar(n % 10));
  }

  /** At least one digit, nothing else, and no leading zero. */
  predicate Digits(s: string) {
    s != "" && (|s| > 1 ==> s[0] != '0') && forall c :: c in s ==> '0' <= c <= '9'
  }

  lemma {:induction false} DecimalIsPlain(n: nat)
    ensures Digits(Decimal(n)) && (n > 0 ==> Decimal(n)[0] != '0')
  {
    if n >= 10 {
      DecimalIsPlain(n / 10);
    }
  }

  lemma NumeralAppend(head: string, c: char)
    requires '0' <= c <= '9'
    ensures Numeral(head + [c]) == Numeral(head) * 10 + (c as int - '0' as int)
  {
    assert (head + [c])[..|head|] == head;
  }

  ghost predicate HasHandle(handles: map<Handle, nat>, i: nat) {
    exists h :: h in handles && handles[h] == i
  }

  function UpstreamsOf<W(!new)>(nodes: seq<ExecutionNode<W>>): Upstreams {
    seq(|nodes|, i requires 0 <= i < |nodes| => nodes[i].spec.upstreams)
  }

  function NamesOf<W(!new)>(nodes: seq<ExecutionNode<W>>): seq<string> {
    seq(|nodes|, i requires 0 <= i < |nodes| => nodes[i].spec.Name())
  }

  /** The outside world of the changers. */
  class Host<W> {
    var world: W

    constructor (world: W)
      ensures this.world == world
    {
      this.world := world;
    }
  }

  class StateCtl<W(!new)> {
    const registry: InMemoryVariableRegistry
    const host: Host<W>
    var nodes: seq<ExecutionNode<W>>
    var nodeByHandle: map<Handle, nat>
    var deferredCounter: nat

    constructor (registry: InMemoryVariableRegistry, host: Host<W>)
      ensures this.registry == registry && this.host == host
      ensures Valid() && nodes == [] && nodeByHandle == map[] && deferredCounter == 0
    {
      this.registry, this.host := registry, host;
      nodes, nodeByHandle, deferredCounter := [], map[], 0;
    }

    ghost function Ups(): Upstreams
      reads this
    {
      UpstreamsOf(nodes)
    }

    ghost function Names(): seq<string>
      reads this
    {
      NamesOf(nodes)
    }

    /** The registration invariant: the graph is acyclic because upstreams come earlier, every node has
        exactly one handle, and deferred handles carry numbers already given out. */
    ghost predicate Valid()
      reads this
    {
      && Acyclic(Ups())
      && (forall h :: h in nodeByHandle ==> nodeByHandle[h] < |nodes|)
      && (forall i :: 0 <= i < |nodes| ==> HasHandle(nodeByHandle, i))
      && (forall h, k :: h in nodeByHandle && k in nodeByHandle && nodeByHandle[h] == nodeByHandle[k] ==> h == k)
      && (forall h :: h in nodeByHandle && h.DeferredHandle? ==> h.number <= deferredCounter)
    }

    /** The error names the node and the first of its dependencies that is not registered. */
    ghost predicate UnknownFirst(error: ConfigurationError, nodeName: string, dependsOn: seq<Handle>,
        handles: map<Handle, nat>)
    {
      exists k :: && 0 <= k < |dependsOn| && dependsOn[k] !in handles
                  && error == UnknownDependency(nodeName, dependsOn[k])
                  && forall j :: 0 <= j < k ==> dependsOn[j] in handles
    }

    /** The nodes named by dependsOn, repeats kept, or the first name that is not registered. */
    method ResolveUpstreams(nodeName: string, dependsOn: seq<Handle>) returns (r: Outcome<seq<nat>>)
      ensures r.Ok? <==> forall h :: h in dependsOn ==> h in nodeByHandle
      ensures r.Ok? ==> |r.value| == |dependsOn| &&
                        forall k :: 0 <= k < |dependsOn| ==>
                          dependsOn[k] in nodeByHandle && r.value[k] == nodeByHandle[dependsOn[k]]
      ensures r.Error? ==> UnknownFirst(r.error, nodeName, dependsOn, nodeByHandle)
    {
      var upstreams: seq<nat> := [];
      for k := 0 to |dependsOn|
        invariant |upstreams| == k
        invariant forall j :: 0 <= j < k ==> dependsOn[j] in nodeByHandle && upstreams[j] == nodeByHandle[dependsOn[j]]
      {
        if dependsOn[k] !in nodeByHandle {
          return Error(UnknownDependency(nodeName, dependsOn[k]));
        }
        upstreams := upstreams + [nodeByHandle[dependsOn[k]]];
      }
      r := Ok(upstreams);
    }

    /** Registers a changer after everything registered so far; on an error nothing changes. */
    method Add(handle: Handle, changer: Changer<W>, dependsOn: seq<Handle>,
               publishes: Option<(Changer<W>, Fields, Result) -> Published>) returns (r: Outcome<()>)
      requires Valid() && handle.ChangerHandle?
      modifies this
      ensures Valid()
      ensures r.Ok? <==> handle !in old(nodeByHandle) && forall h :: h in dependsOn ==> h in old(nodeByHandle)
      ensures r.Ok? ==> Registered(old(nodes), old(nodeByHandle), handle, dependsOn, Given(changer), publishes)
      ensures handle in old(nodeByHandle) ==> r == Error(DuplicateNode(changer.name))
      ensures handle !in old(nodeByHandle) && r.Error? ==>
                UnknownFirst(r.error, changer.name, dependsOn, old(nodeByHandle))
      ensures r.Error? ==> nodes == old(nodes) && nodeByHandle == old(nodeByHandle)
      ensures deferredCounter == old(deferredCounter)
    {
      if handle in nodeByHandle {
        return Error(DuplicateNode(changer.name));
      }
      var upstreams := ResolveUpstreams(changer.name, dependsOn);
      if upstreams.Error? {
        return Error(upstreams.error);
      }
      Append(handle, Node(upstreams.value, Given(changer), publishes), dependsOn);
      r := Ok(());
    }

    /** Registers a factory under a fresh handle. The counter moves on even when a dependency is unknown. */
    method AddDeferred(factory: Factory<W>, dependsOn: seq<Handle>,
                       publishes: Option<(Changer<W>, Fields, Result) -> Published>) returns (r: Outcome<Handle>)
      requires Valid()
      modifies this
      ensures Valid()
      ensures r.Ok? <==> dependsOn != [] && forall h :: h in dependsOn ==> h in old(nodeByHandle)
      ensures r.Ok? ==> r.value !in old(nodeByHandle) &&
                        Registered(old(nodes), old(nodeByHandle), r.value, dependsOn,
                                   Deferred("deferred#" + Decimal(deferredCounter), factory), publishes)
      ensures dependsOn == [] ==> r == Error(DeferredWithoutDependencies)
      ensures dependsOn != [] && r.Error? ==>
                UnknownFirst(r.error, "deferred#" + Decimal(deferredCounter), dependsOn, old(nodeByHandle))
      ensures r.Error? ==> nodes == old(nodes) && nodeByHandle == old(nodeByHandle)
      ensures deferredCounter == old(deferredCounter) + if dependsOn == [] then 0 else 1
    {
      if dependsOn == [] {
        return Error(DeferredWithoutDependencies);
      }
      deferredCounter := deferredCounter + 1;
      var placeholder := "deferred#" + Decimal(deferredCounter);
      var handle := DeferredHandle(deferredCounter);
      var upstreams := ResolveUpstreams(placeholder, dependsOn);
      if upstreams.Error? {
        return Error(upstreams.error);
      }
      Append(handle, Node(upstreams.value, Deferred(placeholder, factory), publishes), dependsOn);
      r := Ok(handle);
    }

    /** One node was appended, wired to the nodes dependsOn names, entry by entry, and can be named itself. */
    ghost predicate Registered(nodes0: seq<ExecutionNode<W>>, handles0: map<Handle, nat>, handle: Handle,
        dependsOn: seq<Handle>, body: Body<W>, publishes: Option<(Changer<W>, Fields, Result) -> Published>)
      reads this, nodes
    {
      && |nodes| == |nodes0| + 1 && nodes[..|nodes0|] == nodes0
      && nodeByHandle == handles0[handle := |nodes0|]
      && (var spec := nodes[|nodes0|].spec;
          && spec.body == body && spec.publishes == publishes
          && |spec.upstreams| == |dependsOn|
          && forall k :: 0 <= k < |dependsOn| ==>
               dependsOn[k] in handles0 && spec.upstreams[k] == handles0[dependsOn[k]])
      && nodes[|nodes0|].changer == Initial(nodes[|nodes0|].spec).0
    }

    method Append(handle: Handle, spec: Node<W>, dependsOn: seq<Handle>)
      requires Valid() && handle !in nodeByHandle
      requires handle.DeferredHandle? ==> handle.number <= deferredCounter
      requires |spec.upstreams| == |dependsOn|
      requires forall k :: 0 <= k < |dependsOn| ==>
                 dependsOn[k] in nodeByHandle && spec.upstreams[k] == nodeByHandle[dependsOn[k]]
      modifies `nodes, `nodeByHandle
      ensures Valid()
      ensures Registered(old(nodes), old(nodeByHandle), handle, dependsOn, spec.body, spec.publishes)
    {
      var node := new ExecutionNode(spec);
      ghost var ups := Ups();
      nodes := nodes + [node];
      nodeByHandle := nodeByHandle[handle := |nodes| - 1];
      assert Ups() == ups + [spec.upstreams];
      forall i | 0 <= i < |nodes| ensures HasHandle(nodeByHandle, i) {
        if i == |nodes| - 1 {
          assert nodeByHandle[handle] == i;
        } else {
          assert HasHandle(old(nodeByHandle), i);
          var h :| h in old(nodeByHandle) && old(nodeByHandle)[h] == i;
          assert nodeByHandle[h] == i;
        }
      }
    }

    /** One run. run(n) is the report node n gives if it is run. Whatever the pool does, the reports come in
        registration order and equal the sequential pass: a node is not submitted, and reported as blocked,
        exactly if some node above it was assessed as invalid or failed its transition. ok says that no node
        was blocked or ended like that. The returned history is legal, and every edge was examined exactly
        once. */
    method Start(run: nat -> NodeReport) returns (result: EngineResult, ghost log: seq<Event>,
        ghost examined: multiset<(nat, nat)>)
      requires Valid()
      requires forall i :: 0 <= i < |nodes| ==> nodes[i].changer == Initial(nodes[i].spec).0
      requires forall n :: run(n).outcome != Blocked
      ensures result.reports == SequentialPass(Ups(), Names(), run, |nodes|)
      ensures result.Ok() <==> forall n :: 0 <= n < |nodes| ==>
                result.reports[n].outcome in {Success, SkippedAlreadyApplied, SkippedByTransition}
      ensures forall n: nat :: n < |nodes| ==>
                var blocked := exists a: nat :: && a < |nodes| && Ancestor(Ups(), a, n)
                                                && result.reports[a].outcome in {FailedInvalid, FailedTransition};
                && (Submitted(n) in log <==> !blocked)
                && result.reports[n] ==
                     if blocked then
                       var name := match nodes[n].spec.body case Given(c) => c.name case Deferred(name, _) => name;
                       NodeReport(name, Blocked, None, None, None, None)
                     else run(n)
      ensures Legal(Ups(), log)
      ensures examined == Edges(Ups()) && |examined| == EntryCount(Ups())
    {
      hide Legal, Acyclic, Ancestor, SequentialPass, Edges, EntryCount;
      var ups, names := UpstreamsOf(nodes), CurrentNames();
      var state := new RunState(ups, names);
      state.DrivePool(run);
      log, examined := state.log, state.edges;
      state.RunIsOver(run);
      var reports := state.CollectReports();
      assert reports == SequentialPass(ups, names, run, |nodes|);
      result := EngineResult(reports);
      state.RunsAndReports(run, reports);
    }

    /** The names the nodes go by now; before the run these are the registered ones. */
    function CurrentNames(): (names: seq<string>)
      reads this, nodes
      ensures (forall i :: 0 <= i < |nodes| ==> nodes[i].changer == Initial(nodes[i].spec).0) ==>
                names == NamesOf(nodes)
    {
      seq(|nodes|, i requires 0 <= i < |nodes| reads this, nodes => nodes[i].Name())
    }

    /** The state of node's worker at the point local, with the registry and the world as they are; call is
        the call of its callback, once made. */
    ghost function At(node: ExecutionNode<W>, local: Local<W>, call: Option<Call> := None): Core<W>
      reads this, node, registry, host
    {
      Core(node.changer, local, call, registry.values, host.world)
    }

    /** Node, registry and world are as they are in end, and end is that of a worker that gives this report. */
    ghost predicate EndsAs(node: ExecutionNode<W>, report: NodeReport, end: Core<W>)
      reads this, node, registry, host
    {
      end.local == Finished(report) && end.changer == node.changer && end.values == registry.values &&
      end.world == host.world
    }

    /** One node's work from start to finish, on the calling thread: it ends where the node's worker steps,
        taken one after the other, end, and the report says what was done. */
    method RunNode(node: ExecutionNode<W>) returns (report: NodeReport)
      requires NodeReturns(node.spec) && node.changer == Initial(node.spec).0
      modifies node, registry, host
      ensures EndsAs(node, report, RunToEnd(node.spec, old(At(node, Initial(node.spec).1))))
      ensures exists past, call :: ReportOrigin(node.spec, node.changer, call, past, report)
    {
      hide ReportOrigin, WorkerOrigin;
      ghost var spec := node.spec;
      NothingYet(spec);
      EndReport(spec, At(node, Initial(spec).1));
      if node.IsDeferred() {
        var failure := ResolveDeferred(node);
        if failure.Some? {
          return failure.value;
        }
      }
      var changer := node.changer.value;
      var name := node.Name();
      RunOneStep(spec, At(node, Assessing));
      var (assessment, world) := changer.assess(host.world);
      host.world := world;
      match assessment.state {
        case AlreadyApplied =>
          report := NodeReport(name, SkippedAlreadyApplied, Some(assessment), None, None, None);
          report := MaybePublish(node, changer, report, None);
        case Invalid =>
          report := NodeReport(name, FailedInvalid, Some(assessment), None, None, None);
        case Ready =>
          report := FinaliseNode(node, name, changer, assessment);
      }
    }

    /** The factory, if each of its reads finds the same registry, comes to g. */
    ghost predicate ComesTo(factory: Factory<W>, values: Bindings, g: Factory<W>) {
      exists met: seq<Bindings> :: (forall i :: 0 <= i < |met| ==> met[i] == values) && Following(factory, met) == g
    }

    /** Runs the factory, read by read, and hands the node the changer it produces. If it comes to an error
        instead, the node gets no changer, and the report, without any assessment, carries the code of that
        error. */
    method ResolveDeferred(node: ExecutionNode<W>) returns (failure: Option<NodeReport>)
      requires node.IsDeferred() && Returns(node.spec.body.factory) && node.changer == None
      modifies node
      ensures failure.None? ==>
                node.changer.Some? && ComesTo(node.spec.body.factory, registry.values, Produce(node.changer.value))
      ensures failure.Some? ==>
                && node.changer == None
                && exists e, code ::
                     && ComesTo(node.spec.body.factory, registry.values, Fail(e)) && TellsError(e, code)
                     && failure.value == NodeReport(node.spec.body.placeholder, FailedInvalid, None,
                                                    Some(Result(Failed, code, map[])), None, None)
      ensures var last := if failure.Some? then Finished(failure.value) else Assessing;
        RunToEnd(node.spec, At(node, last)) == RunToEnd(node.spec, old(At(node, Resolving(node.spec.body.factory))))
    {
      ghost var spec := node.spec;
      var factory := node.spec.body.factory;
      var placeholder := node.Name();
      ComesToStart(factory, registry.values);
      while factory.Ask?
        invariant Returns(factory) && node.changer == None
        invariant ComesTo(node.spec.body.factory, registry.values, factory)
        invariant RunToEnd(spec, At(node, Resolving(factory)))
               == RunToEnd(spec, old(At(node, Resolving(node.spec.body.factory))))
        decreases Depth(factory)
      {
        RunOneStep(spec, At(node, Resolving(factory)));
        var answer := registry.Read(factory.query);
        DepthDecreases(factory, answer);
        ComesToNext(node.spec.body.factory, registry.values, factory);
        factory := factory.next(answer);
      }
      RunOneStep(spec, At(node, Resolving(factory)));
      match factory {
        case Produce(changer) =>
          node.Resolve(changer);
          failure := None;
        case Fail(e) =>
          failure := Some(DeferredFailureReport(placeholder, e));
          assert TellsError(e, ErrorCode(e));
      }
    }

    lemma ComesToStart(factory: Factory<W>, values: Bindings)
      ensures ComesTo(factory, values, factory)
    {
      var met: seq<Bindings> := [];
      assert Following(factory, met) == factory;
    }

    lemma ComesToNext(factory: Factory<W>, values: Bindings, g: Factory<W>)
      requires ComesTo(factory, values, g) && g.Ask?
      ensures ComesTo(factory, values, g.next(Lookup(values, g.query)))
    {
      var met: seq<Bindings> :|
        (forall i :: 0 <= i < |met| ==> met[i] == values) && Following(factory, met) == g;
      FollowingOneMore(factory, met, values);
      var longer := met + [values];
      assert forall i :: 0 <= i < |longer| ==> longer[i] == values;
    }

    /** Transition, check by a second assessment, and roll back what did not work. */
    method FinaliseNode(node: ExecutionNode<W>, name: string, changer: Changer<W>,
        assessment: Assessment) returns (report: NodeReport)
      requires node.changer == Some(changer) && name == changer.name
      modifies registry, host
      ensures EndsAs(node, report, RunToEnd(node.spec, old(At(node, Transitioning(assessment)))))
    {
      ghost var spec := node.spec;
      RunOneStep(spec, At(node, Transitioning(assessment)));
      var (result, world) := changer.transition(host.world);
      host.world := world;
      var postAssess: Option<Assessment> := None;

      if result.status == Skipped {
        return NodeReport(name, SkippedByTransition, Some(assessment), Some(result), None, None);
      }
      if result.status == Succeeded {
        RunOneStep(spec, At(node, Verifying(assessment, result)));
        var (post, world') := changer.assess(host.world);
        host.world := world';
        if post.state == AlreadyApplied {
          report := NodeReport(name, Success, Some(assessment), Some(result), Some(post), None);
          report := MaybePublish(node, changer, report, Some(result));
          return;
        }
        postAssess := Some(post);
        result := FailureResult("POST_ASSESS_MISMATCH");
      }
      ghost var pending := NodeReport(name, FailedTransition, Some(assessment), Some(result), postAssess, None);
      RunOneStep(spec, At(node, Undoing(pending)));
      var rollbackResult := MaybeRollback(changer);
      report := NodeReport(name, FailedTransition, Some(assessment), Some(result), postAssess, rollbackResult);
    }

    /** Calls the callback of a node that ended well, with the node's changer and the transition's result, or a
        plain success where there was no transition, and binds what it returns. */
    method MaybePublish(node: ExecutionNode<W>, changer: Changer<W>, report: NodeReport,
        result: Option<Result>) returns (final: NodeReport)
      requires node.changer == Some(changer) && result == report.result
      modifies registry
      ensures PublishEligible(report.outcome) ==>
                EndsAs(node, final, RunToEnd(node.spec, old(At(node, BeginPublish(node.spec, report)))))
      ensures node.spec.publishes.None? || report.outcome !in {Success, SkippedAlreadyApplied} ==>
                final == report && registry.values == old(registry.values)
      ensures node.spec.publishes.Some? && report.outcome in {Success, SkippedAlreadyApplied} ==>
                var input := if result.Some? then result.value else Result(Succeeded, "OK", map[]);
                var returned := node.spec.publishes.value(changer, changer.exposed(host.world), input);
                Publishes(returned, report, old(registry.values), registry.values, final)
    {
      hide Publishes;
      if node.spec.publishes == None {
        return report;
      }
      if !PublishEligible(report.outcome) {
        return report;
      }
      RunOneStep(node.spec, At(node, Calling(report)));
      var publishInput := result.GetOr(SuccessResult());
      var call := MakeCall(node.spec, changer, changer.exposed(host.world), publishInput);
      match call.returned {
        case Raised(typeName) =>
          final := PublishFailureReport(report, RaisedCode(typeName));
          RaisedPublishes(typeName, report, registry.values);
        case Mapping(items) =>
          final := BindEntries(node, report, items, call);
      }
    }

    lemma RaisedPublishes(typeName: string, report: NodeReport, values: Bindings)
      ensures Publishes(Raised(typeName), report, values, values, PublishFailureReport(report, RaisedCode(typeName)))
    {
    }

    /** Binds entry by entry; a refused entry leaves the earlier ones bound. */
    method BindEntries(node: ExecutionNode<W>, report: NodeReport, items: Items, ghost call: Call)
        returns (final: NodeReport)
      requires node.changer.Some?
      modifies registry
      ensures EndsAs(node, final, RunToEnd(node.spec, old(At(node, Publishing(report, items, 0), Some(call)))))
      ensures Publishes(Mapping(items), report, old(registry.values), registry.values, final)
    {
      ghost var spec, before := node.spec, registry.values;
      hide AddsFirst;
      assert AddsFirst(items, 0, before, before);
      for k := 0 to |items|
        invariant RunToEnd(spec, At(node, Publishing(report, items, k), Some(call)))
               == RunToEnd(spec, old(At(node, Publishing(report, items, 0), Some(call))))
        invariant AddsFirst(items, k, before, registry.values)
      {
        AddsNext(items, k, before, registry.values);
        RunOneStep(spec, At(node, Publishing(report, items, k), Some(call)));
        var bound := registry.Bind(items[k].0, items[k].1);
        if bound.Duplicate? {
          final := PublishFailureReport(report, DuplicateCode(bound.name));
          return;
        }
      }
      RunOneStep(spec, At(node, Publishing(report, items, |items|), Some(call)));
      final := report;
    }

    /** The inverse's transition, without assessing it first; nothing for a changer that has no inverse. */
    method MaybeRollback(changer: Changer<W>) returns (result: Option<Result>)
      modifies host
      ensures changer.undo.None? ==> result == None && host.world == old(host.world)
      ensures changer.undo.Some? ==>
                (result, host.world) == (var (r, w) := changer.undo.value(old(host.world)); (Some(r), w))
    {
      if changer.undo.None? {
        return None;
      }
      var (r, world) := changer.undo.value(host.world);
      host.world := world;
      result := Some(r);
    }
  }
}
