/** One node's life on a worker thread, one atomic step at a time: registry reads by the deferred factory,
    assess, transition, post-assess, rollback, the publish callback and one step per registry bind. W is
    everything outside the engine that a changer can touch, its own fields included. */
module Workers {
  import opened Outcomes
  import opened Registry

  /** What a publish callback can read off a changer object. */
  type Fields = map<string, string>

  datatype Changer<!W> = Changer(
    name: string,
    assess: W -> (Assessment, W),
    transition: W -> (Result, W),
    undo: Option<W -> (Result, W)>,   // transition of the inverse; None when not rollbackable
    exposed: W -> Fields)

  datatype FactoryError =
    | MissingVariable(name: string)
    | VariableType(name: string)
    | Exception(typeName: string)
    | NotAChanger(typeName: string)

  /** A deferred factory, from some point of its execution on: it asks the registry and goes on with the
      answer, or it is done. */
  datatype Factory<!W> =
    | Ask(query: Query, next: Answer -> Factory<W>)
    | Produce(changer: Changer<W>)
    | Fail(error: FactoryError)

  /** The factory is done after at most limit reads, whatever the answers. */
  ghost predicate ReturnsWithin<W(!new)>(f: Factory<W>, limit: nat)
    decreases limit
  {
    f.Ask? ==> limit > 0 && forall a: Answer :: ReturnsWithin(f.next(a), limit - 1)
  }

  ghost predicate Returns<W(!new)>(f: Factory<W>) {
    exists limit: nat :: ReturnsWithin(f, limit)
  }

  ghost function LeastLimit<W(!new)>(f: Factory<W>, limit: nat): (least: nat)
    requires ReturnsWithin(f, limit)
    ensures ReturnsWithin(f, least) && least <= limit && (least > 0 ==> !ReturnsWithin(f, least - 1))
  {
    if limit > 0 && ReturnsWithin(f, limit - 1) then LeastLimit(f, limit - 1) else limit
  }

  lemma {:induction false} MoreReadsAllowed<W(!new)>(f: Factory<W>, limit: nat, more: nat)
    requires ReturnsWithin(f, limit) && limit <= more
    ensures ReturnsWithin(f, more)
    decreases limit
  {
    if f.Ask? {
      forall a: Answer ensures ReturnsWithin(f.next(a), more - 1) {
        MoreReadsAllowed(f.next(a), limit - 1, more - 1);
      }
    }
  }

  /** The number of reads the factory needs at worst. */
  ghost function Depth<W(!new)>(f: Factory<W>): nat
    requires Returns(f)
  {
    var limit: nat :| ReturnsWithin(f, limit);
    LeastLimit(f, limit)
  }

  /** Every answer brings the factory closer to its end. */
  lemma DepthDecreases<W(!new)>(f: Factory<W>, a: Answer)
    requires Returns(f) && f.Ask?
    ensures Returns(f.next(a)) && Depth(f.next(a)) < Depth(f)
  {
    var g := f.next(a);
    assert ReturnsWithin(g, Depth(f) - 1);
    if Depth(g) > Depth(f) - 1 {
      MoreReadsAllowed(g, Depth(f) - 1, Depth(g) - 1);
    }
  }

  /** The factory after one read each of the registries in met, or where it was done before that. */
  ghost function Following<W>(f: Factory<W>, met: seq<Bindings>): Factory<W> {
    if met == [] then f
    else
      var g := Following(f, met[..|met| - 1]);
      if g.Ask? then g.next(Lookup(met[|met| - 1], g.query)) else g
  }

  lemma FollowingOneMore<W>(f: Factory<W>, met: seq<Bindings>, values: Bindings)
    ensures var g := Following(f, met);
      Following(f, met + [values]) == if g.Ask? then g.next(Lookup(values, g.query)) else g
  {
    assert (met + [values])[..|met|] == met;
  }

  predicate DistinctNames(items: seq<(string, Value)>) {
    forall i, j :: 0 <= i < j < |items| ==> items[i].0 != items[j].0
  }

  /** The entries of a mapping, in its order. */
  type Items = items: seq<(string, Value)> | DistinctNames(items)

  datatype Published = Raised(typeName: string) | Mapping(items: Items)

  datatype Body<!W> = Given(changer: Changer<W>) | Deferred(placeholder: string, factory: Factory<W>)

  datatype Node<!W> = Node(
    upstreams: seq<nat>,
    body: Body<W>,
    publishes: Option<(Changer<W>, Fields, Result) -> Published>)
  {
    /** The node's name until its factory has run. */
    function Name(): string {
      match body
      case Given(changer) => changer.name
      case Deferred(placeholder, _) => placeholder
    }
  }

  ghost predicate NodeReturns<W(!new)>(node: Node<W>) {
    node.body.Deferred? ==> Returns(node.body.factory)
  }

  datatype Local<!W> =
    | Resolving(factory: Factory<W>)
    | Assessing
    | Transitioning(assessment: Assessment)
    | Verifying(assessment: Assessment, result: Result)
    | Undoing(report: NodeReport)
    | Calling(report: NodeReport)
    | Publishing(report: NodeReport, items: Items, next: nat)
    | Finished(report: NodeReport)

  /** A call of the publish callback: what it was given and what it returned. */
  datatype Call = Call(input: Result, fields: Fields, returned: Published)

  /** A worker together with the shared state it acts on. */
  datatype Core<!W> = Core(
    changer: Option<Changer<W>>,
    local: Local<W>,
    call: Option<Call>,      // the call of the node's callback, once made; no step reads it
    values: Bindings,
    world: W)

  function Initial<W>(node: Node<W>): (Option<Changer<W>>, Local<W>) {
    match node.body
    case Given(changer) => (Some(changer), Assessing)
    case Deferred(_, factory) => (None, Resolving(factory))
  }

  predicate WorkerOk<W>(node: Node<W>, changer: Option<Changer<W>>, local: Local<W>) {
    && (local.Resolving? ==> node.body.Deferred? && changer.None?)
    && (!local.Resolving? && !local.Finished? ==> changer.Some?)
    && (local.Calling? ==> node.publishes.Some?)
    && (local.Publishing? ==> local.next <= |local.items|)
  }

  function ErrorCode(e: FactoryError): string {
    match e
    case MissingVariable(name) => "MISSING_VAR:" + name
    case VariableType(name) => "VAR_TYPE:" + name
    case Exception(typeName) => "DEFERRED_FACTORY_ERROR:" + typeName
    case NotAChanger(_) => "DEFERRED_FACTORY_TYPE"
  }

  function DeferredFailureReport(name: string, e: FactoryError): NodeReport {
    NodeReport(name, FailedInvalid, None, Some(FailureResult(ErrorCode(e))), None, None)
  }

  function RaisedCode(typeName: string): string { "PUBLISH_RAISED:" + typeName }

  function DuplicateCode(name: string): string { "PUBLISH_DUPLICATE:" + name }

  /** The report that replaces an eligible one when publishing goes wrong. No rollback is attempted. */
  function PublishFailureReport(report: NodeReport, code: string): NodeReport {
    NodeReport(report.nodeName, FailedTransition, report.assessment, Some(FailureResult(code)), report.postAssess,
               None)
  }

  function TransitionReport(name: string, a: Assessment, outcome: NodeOutcome, result: Result,
      post: Option<Assessment>): NodeReport {
    NodeReport(name, outcome, Some(a), Some(result), post, None)
  }

  function BeginPublish<W>(node: Node<W>, report: NodeReport): Local<W> {
    if node.publishes.None? then Finished(report) else Calling(report)
  }

  function AfterAssess<W>(node: Node<W>, changer: Changer<W>, a: Assessment): Local<W> {
    match a.state
    case AlreadyApplied =>
      BeginPublish(node, NodeReport(changer.name, SkippedAlreadyApplied, Some(a), None, None, None))
    case Invalid => Finished(NodeReport(changer.name, FailedInvalid, Some(a), None, None, None))
    case Ready => Transitioning(a)
  }

  function AfterTransition<W>(changer: Changer<W>, a: Assessment, result: Result): Local<W> {
    match result.status
    case Skipped => Finished(TransitionReport(changer.name, a, SkippedByTransition, result, None))
    case Succeeded => Verifying(a, result)
    case Failed => Undoing(TransitionReport(changer.name, a, FailedTransition, result, None))
  }

  function AfterVerify<W>(node: Node<W>, changer: Changer<W>, a: Assessment, result: Result,
      post: Assessment): Local<W> {
    if post.state == AlreadyApplied then
      BeginPublish(node, TransitionReport(changer.name, a, Success, result, Some(post)))
    else
      Undoing(TransitionReport(changer.name, a, FailedTransition, FailureResult("POST_ASSESS_MISMATCH"), Some(post)))
  }

  /** The callback gets the transition's result, or a plain success where there was no transition. */
  function PublishInput(report: NodeReport): Result {
    report.result.GetOr(SuccessResult())
  }

  function MakeCall<W>(node: Node<W>, changer: Changer<W>, fields: Fields, input: Result): Call
    requires node.publishes.Some?
  {
    Call(input, fields, node.publishes.value(changer, fields, input))
  }

  function AfterCall<W>(report: NodeReport, returned: Published): Local<W> {
    match returned
    case Raised(typeName) => Finished(PublishFailureReport(report, RaisedCode(typeName)))
    case Mapping(items) => Publishing(report, items, 0)
  }

  /** One atomic step. A finished worker stays put until the driver absorbs it. */
  function Step<W>(node: Node<W>, c: Core<W>): (r: Core<W>)
    requires WorkerOk(node, c.changer, c.local)
    ensures WorkerOk(node, r.changer, r.local)
  {
    match c.local
    case Resolving(factory) =>
      (match factory
       case Ask(query, next) => c.(local := Resolving(next(Lookup(c.values, query))))
       case Produce(changer) => c.(changer := Some(changer), local := Assessing)
       case Fail(e) => c.(local := Finished(DeferredFailureReport(node.body.placeholder, e))))
    case Assessing =>
      var (a, world) := c.changer.value.assess(c.world);
      c.(local := AfterAssess(node, c.changer.value, a), world := world)
    case Transitioning(a) =>
      var (result, world) := c.changer.value.transition(c.world);
      c.(local := AfterTransition(c.changer.value, a, result), world := world)
    case Verifying(a, result) =>
      var (post, world) := c.changer.value.assess(c.world);
      c.(local := AfterVerify(node, c.changer.value, a, result, post), world := world)
    case Undoing(report) =>
      (match c.changer.value.undo
       case None => c.(local := Finished(report))
       case Some(undo) =>
         var (result, world) := undo(c.world);
         c.(local := Finished(report.(rollbackResult := Some(result))), world := world))
    case Calling(report) =>
      var call := MakeCall(node, c.changer.value, c.changer.value.exposed(c.world), PublishInput(report));
      c.(local := AfterCall(report, call.returned), call := Some(call))
    case Publishing(report, items, next) =>
      if next == |items| then c.(local := Finished(report))
      else if items[next].0 in c.values then
        c.(local := Finished(PublishFailureReport(report, DuplicateCode(items[next].0))))
      else c.(local := Publishing(report, items, next + 1), values := c.values[items[next].0 := items[next].1])
    case Finished(_) => c
  }

  ghost predicate LocalReturns<W(!new)>(local: Local<W>) {
    local.Resolving? ==> Returns(local.factory)
  }

  ghost function Stage<W>(local: Local<W>): nat {
    match local
    case Resolving(_) => 6
    case Assessing => 5
    case Transitioning(_) => 4
    case Verifying(_, _) => 3
    case Calling(_) => 2
    case Undoing(_) => 1
    case Publishing(_, _, _) => 1
    case Finished(_) => 0
  }

  ghost function Left<W(!new)>(local: Local<W>): nat
    requires LocalReturns(local)
  {
    match local
    case Resolving(factory) => Depth(factory)
    case Publishing(_, items, next) => if next < |items| then |items| - next else 0
    case _ => 0
  }

  lemma StepDecreases<W(!new)>(node: Node<W>, c: Core<W>)
    requires WorkerOk(node, c.changer, c.local) && LocalReturns(c.local) && !c.local.Finished?
    ensures var d := Step(node, c);
      && LocalReturns(d.local)
      && (|| Stage(d.local) < Stage(c.local)
          || (Stage(d.local) == Stage(c.local) && Left(d.local) < Left(c.local)))
  {
    if c.local.Resolving? && c.local.factory.Ask? {
      DepthDecreases(c.local.factory, Lookup(c.values, c.local.factory.query));
    }
    hide Depth, Returns;
  }

  /** The whole life of a node that no other worker disturbs. */
  ghost function RunToEnd<W(!new)>(node: Node<W>, c: Core<W>): (r: Core<W>)
    requires LocalReturns(c.local) && WorkerOk(node, c.changer, c.local)
    ensures r.local.Finished?
    decreases Stage(c.local), Left(c.local)
  {
    if c.local.Finished? then c
    else
      StepDecreases(node, c);
      RunToEnd(node, Step(node, c))
  }

  /** Running on from a state is running on from the next one. */
  lemma RunOneStep<W(!new)>(node: Node<W>, c: Core<W>)
    requires LocalReturns(c.local) && WorkerOk(node, c.changer, c.local)
    ensures LocalReturns(Step(node, c).local) && RunToEnd(node, c) == RunToEnd(node, Step(node, c))
  {
    if !c.local.Finished? {
      StepDecreases(node, c);
    }
  }

  /** What a worker knows of its node's assessments and of the outcome it may report, which is never
      Blocked. */
  predicate LocalOk<W>(local: Local<W>) {
    match local
    case Transitioning(a) => a.state == Ready
    case Verifying(a, _) => a.state == Ready
    case Undoing(report) => report.outcome == FailedTransition && !FoundApplied(report)
    case Calling(report) => PublishEligible(report.outcome) && FoundApplied(report)
    case Publishing(report, _, _) => PublishEligible(report.outcome) && FoundApplied(report)
    case Finished(report) => report.outcome != Blocked && (PublishEligible(report.outcome) ==> FoundApplied(report))
    case _ => true
  }

  lemma StepKeepsLocalOk<W>(node: Node<W>, c: Core<W>)
    requires WorkerOk(node, c.changer, c.local) && LocalOk(c.local)
    ensures LocalOk(Step(node, c).local)
  {
  }
}
