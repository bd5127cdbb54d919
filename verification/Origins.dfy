/** What a node's report goes back to, in the outcomes, results and codes themselves: which of the changer's
    operations were done, in which order, on which states of the world; which registries the factory asked;
    what the publish callback was given and what it returned. */
module Origins {
  import opened Outcomes
  import opened Registry
  import opened Workers

  /** The registry and the world as one step found them. */
  datatype Moment<+W> = Moment(values: Bindings, world: W)

  // ---- what was done, in this order, at moments of the past ----

  ghost predicate Assessed<W(!new)>(c: Changer<W>, past: seq<Moment<W>>, a: Assessment) {
    exists i :: 0 <= i < |past| && c.assess(past[i].world).0 == a
  }

  /** Only what was found ready is changed. */
  ghost predicate Transitioned<W(!new)>(c: Changer<W>, past: seq<Moment<W>>, a: Assessment, r: Result) {
    a.state == Ready &&
    exists i :: 0 <= i < |past| && Assessed(c, past[..i], a) && c.transition(past[i].world).0 == r
  }

  /** A change that succeeded is checked. */
  ghost predicate Verified<W(!new)>(c: Changer<W>, past: seq<Moment<W>>, a: Assessment, r: Result, post: Assessment) {
    r.status == Succeeded &&
    exists i :: 0 <= i < |past| && Transitioned(c, past[..i], a, r) && c.assess(past[i].world).0 == post
  }

  /** The registries met were asked one after the other. */
  ghost predicate AskedIn<W(!new)>(met: seq<Bindings>, past: seq<Moment<W>>)
    decreases |met|
  {
    met == [] ||
    exists i :: 0 <= i < |past| && past[i].values == met[|met| - 1] && AskedIn(met[..|met| - 1], past[..i])
  }

  /** The answers of those registries led the factory to g. */
  ghost predicate Reached<W(!new)>(f: Factory<W>, past: seq<Moment<W>>, g: Factory<W>) {
    exists met :: AskedIn(met, past) && Following(f, met) == g
  }

  /** The changer is the registered one, or the one that the factory produced. */
  ghost predicate Holds<W(!new)>(node: Node<W>, changer: Option<Changer<W>>, past: seq<Moment<W>>) {
    match node.body
    case Given(c) => changer == Some(c)
    case Deferred(_, f) => changer.Some? && Reached(f, past, Produce(changer.value))
  }

  // ---- reports without publishing ----

  predicate TellsError(e: FactoryError, code: string) {
    match e
    case MissingVariable(x) => code == "MISSING_VAR:" + x
    case VariableType(x) => code == "VAR_TYPE:" + x
    case Exception(t) => code == "DEFERRED_FACTORY_ERROR:" + t
    case NotAChanger(_) => code == "DEFERRED_FACTORY_TYPE"
  }

  ghost predicate FactoryFailed<W(!new)>(node: Node<W>, past: seq<Moment<W>>, report: NodeReport) {
    && node.body.Deferred? && report.result.Some?
    && report == NodeReport(node.body.placeholder, FailedInvalid, None,
                            Some(Result(Failed, report.result.value.code, map[])), None, None)
    && exists e :: TellsError(e, report.result.value.code) && Reached(node.body.factory, past, Fail(e))
  }

  ghost predicate FoundInvalid<W(!new)>(c: Changer<W>, past: seq<Moment<W>>, report: NodeReport) {
    && report.assessment.Some? && report.assessment.value.state == Invalid
    && Assessed(c, past, report.assessment.value)
    && report == NodeReport(c.name, FailedInvalid, report.assessment, None, None, None)
  }

  ghost predicate FoundAlready<W(!new)>(c: Changer<W>, past: seq<Moment<W>>, report: NodeReport) {
    && report.assessment.Some? && report.assessment.value.state == AlreadyApplied
    && Assessed(c, past, report.assessment.value)
    && report == NodeReport(c.name, SkippedAlreadyApplied, report.assessment, None, None, None)
  }

  ghost predicate Changed<W(!new)>(c: Changer<W>, past: seq<Moment<W>>, report: NodeReport) {
    && report.assessment.Some? && report.result.Some? && report.postAssess.Some?
    && report.postAssess.value.state == AlreadyApplied
    && Verified(c, past, report.assessment.value, report.result.value, report.postAssess.value)
    && report == NodeReport(c.name, Success, report.assessment, report.result, report.postAssess, None)
  }

  ghost predicate SkippedIt<W(!new)>(c: Changer<W>, past: seq<Moment<W>>, report: NodeReport) {
    && report.assessment.Some? && report.result.Some? && report.result.value.status == Skipped
    && Transitioned(c, past, report.assessment.value, report.result.value)
    && report == NodeReport(c.name, SkippedByTransition, report.assessment, report.result, None, None)
  }

  ghost predicate FailedIt<W(!new)>(c: Changer<W>, past: seq<Moment<W>>, report: NodeReport) {
    && report.assessment.Some? && report.result.Some? && report.result.value.status == Failed
    && Transitioned(c, past, report.assessment.value, report.result.value)
    && report == NodeReport(c.name, FailedTransition, report.assessment, report.result, None, None)
  }

  ghost predicate Mismatched<W(!new)>(c: Changer<W>, past: seq<Moment<W>>, report: NodeReport) {
    && report.assessment.Some? && report.postAssess.Some? && report.postAssess.value.state != AlreadyApplied
    && (exists r :: Verified(c, past, report.assessment.value, r, report.postAssess.value))
    && report == NodeReport(c.name, FailedTransition, report.assessment,
                            Some(Result(Failed, "POST_ASSESS_MISMATCH", map[])), report.postAssess, None)
  }

  /** The report of a failure before anything is undone. */
  ghost predicate Broken<W(!new)>(c: Changer<W>, past: seq<Moment<W>>, report: NodeReport) {
    FailedIt(c, past, report) || Mismatched(c, past, report)
  }

  /** The failure undone, where the changer has an inverse. */
  ghost predicate RolledBack<W(!new)>(c: Changer<W>, past: seq<Moment<W>>, report: NodeReport) {
    match c.undo
    case None => Broken(c, past, report)
    case Some(undo) =>
      exists i :: && 0 <= i < |past| && Broken(c, past[..i], report.(rollbackResult := None))
                  && report.rollbackResult == Some(undo(past[i].world).0)
  }

  // ---- publishing ----

  /** The outcomes that publish. */
  ghost predicate GoodEnd<W(!new)>(c: Changer<W>, past: seq<Moment<W>>, report: NodeReport) {
    FoundAlready(c, past, report) || Changed(c, past, report)
  }

  /** The callback was called for this report, with the node's changer and what it exposed at that moment. It
      got the transition's result, or a plain success where there was no transition. */
  ghost predicate Called<W(!new)>(node: Node<W>, c: Changer<W>, past: seq<Moment<W>>, report: NodeReport, call: Call) {
    && (exists i :: 0 <= i < |past| && GoodEnd(c, past[..i], report) && call.fields == c.exposed(past[i].world))
    && (report.outcome == Success ==> report.result == Some(call.input))
    && (report.outcome == SkippedAlreadyApplied ==> call.input == Result(Succeeded, "OK", map[]))
    && node.publishes.Some? && call.returned == node.publishes.value(c, call.fields, call.input)
  }

  ghost predicate TellsRefusal(returned: Published, code: string) {
    match returned
    case Raised(t) => code == "PUBLISH_RAISED:" + t
    case Mapping(items) => exists k :: 0 <= k < |items| && code == "PUBLISH_DUPLICATE:" + items[k].0
  }

  /** The report that replaces the good one when publishing goes wrong; nothing is undone. */
  ghost predicate NotPublished<W(!new)>(node: Node<W>, c: Changer<W>, past: seq<Moment<W>>, call: Call,
      report: NodeReport)
  {
    && report.result.Some? && TellsRefusal(call.returned, report.result.value.code)
    && exists good: NodeReport ::
         && Called(node, c, past, good, call)
         && report == NodeReport(c.name, FailedTransition, good.assessment,
                                 Some(Result(Failed, report.result.value.code, map[])), good.postAssess, None)
  }

  /** The first k entries, none of whose names was bound before, were bound, and nothing else. */
  ghost predicate AddsFirst(items: seq<(string, Value)>, k: nat, before: Bindings, after: Bindings)
    requires k <= |items|
  {
    && (forall x :: x in before ==> x in after && after[x] == before[x])
    && (forall j :: 0 <= j < k ==> items[j].0 !in before && items[j].0 in after && after[items[j].0] == items[j].1)
    && (forall x :: x in after ==> x in before || exists j :: 0 <= j < k && items[j].0 == x)
  }

  lemma AddsNext(items: Items, k: nat, before: Bindings, after: Bindings)
    requires k < |items| && AddsFirst(items, k, before, after)
    ensures items[k].0 in after ==> items[k].0 in before
    ensures items[k].0 !in after ==> AddsFirst(items, k + 1, before, after[items[k].0 := items[k].1])
  {
  }

  /** What publishing makes of a good report and of the registry. The callback returned a mapping: its entries
      were bound in order, all of them or those before the first one whose name was bound already. The
      callback raised: nothing was bound. */
  ghost predicate Publishes(returned: Published, report: NodeReport, before: Bindings, after: Bindings,
      final: NodeReport)
  {
    match returned
    case Raised(t) =>
      && after == before
      && final == NodeReport(report.nodeName, FailedTransition, report.assessment,
                             Some(Result(Failed, "PUBLISH_RAISED:" + t, map[])), report.postAssess, None)
    case Mapping(items) =>
      exists k: nat ::
        && k <= |items| && AddsFirst(items, k, before, after)
        && if k == |items| then final == report
           else
             && items[k].0 in before
             && final == NodeReport(report.nodeName, FailedTransition, report.assessment,
                                    Some(Result(Failed, "PUBLISH_DUPLICATE:" + items[k].0, map[])), report.postAssess,
                                    None)
  }

  // ---- every report, every worker ----

  ghost predicate WithoutCall<W(!new)>(node: Node<W>, c: Changer<W>, past: seq<Moment<W>>, report: NodeReport) {
    || FoundInvalid(c, past, report) || SkippedIt(c, past, report) || RolledBack(c, past, report)
    || (node.publishes.None? && GoodEnd(c, past, report))
  }

  ghost predicate WithCall<W(!new)>(node: Node<W>, c: Changer<W>, past: seq<Moment<W>>, call: Call,
      report: NodeReport)
  {
    (call.returned.Mapping? && Called(node, c, past, report, call)) || NotPublished(node, c, past, call, report)
  }

  /** Where the report of a node that was run comes from. */
  ghost predicate ReportOrigin<W(!new)>(node: Node<W>, changer: Option<Changer<W>>, call: Option<Call>,
      past: seq<Moment<W>>, report: NodeReport)
  {
    if changer.None? then call.None? && FactoryFailed(node, past, report)
    else
      && Holds(node, changer, past)
      && match call
         case None => WithoutCall(node, changer.value, past, report)
         case Some(call) => WithCall(node, changer.value, past, call, report)
  }

  /** The same for a node in flight. */
  ghost predicate WorkerOrigin<W(!new)>(node: Node<W>, changer: Option<Changer<W>>, call: Option<Call>,
      past: seq<Moment<W>>, local: Local<W>)
  {
    match local
    case Resolving(g) => changer.None? && call.None? && node.body.Deferred? && Reached(node.body.factory, past, g)
    case Finished(report) => ReportOrigin(node, changer, call, past, report)
    case _ => changer.Some? && Holds(node, changer, past) && AtWork(node, changer.value, call, past, local)
  }

  ghost predicate AtWork<W(!new)>(node: Node<W>, c: Changer<W>, call: Option<Call>, past: seq<Moment<W>>,
      local: Local<W>)
  {
    match local
    case Assessing => call.None?
    case Transitioning(a) => call.None? && a.state == Ready && Assessed(c, past, a)
    case Verifying(a, r) => call.None? && r.status == Succeeded && Transitioned(c, past, a, r)
    case Undoing(report) => call.None? && Broken(c, past, report)
    case Calling(report) => call.None? && node.publishes.Some? && GoodEnd(c, past, report)
    case Publishing(report, items, _) =>
      call.Some? && call.value.returned == Mapping(items) && Called(node, c, past, report, call.value)
    case _ => false
  }

  // ---- what happened stays in the past ----

  lemma AssessedStays<W(!new)>(c: Changer<W>, past: seq<Moment<W>>, later: seq<Moment<W>>, a: Assessment)
    requires past <= later && Assessed(c, past, a)
    ensures Assessed(c, later, a)
  {
    var i :| 0 <= i < |past| && c.assess(past[i].world).0 == a;
    assert later[i] == past[i];
  }

  lemma TransitionedStays<W(!new)>(c: Changer<W>, past: seq<Moment<W>>, later: seq<Moment<W>>, a: Assessment, r: Result)
    requires past <= later && Transitioned(c, past, a, r)
    ensures Transitioned(c, later, a, r)
  {
    var i :| 0 <= i < |past| && Assessed(c, past[..i], a) && c.transition(past[i].world).0 == r;
    assert later[..i] == past[..i] && later[i] == past[i];
  }

  lemma VerifiedStays<W(!new)>(c: Changer<W>, past: seq<Moment<W>>, later: seq<Moment<W>>, a: Assessment, r: Result,
      post: Assessment)
    requires past <= later && Verified(c, past, a, r, post)
    ensures Verified(c, later, a, r, post)
  {
    var i :| 0 <= i < |past| && Transitioned(c, past[..i], a, r) && c.assess(past[i].world).0 == post;
    assert later[..i] == past[..i] && later[i] == past[i];
  }

  lemma ReachedStays<W(!new)>(f: Factory<W>, past: seq<Moment<W>>, later: seq<Moment<W>>, g: Factory<W>)
    requires past <= later && Reached(f, past, g)
    ensures Reached(f, later, g)
  {
    var met :| AskedIn(met, past) && Following(f, met) == g;
    if met != [] {
      var i :| 0 <= i < |past| && past[i].values == met[|met| - 1] && AskedIn(met[..|met| - 1], past[..i]);
      assert later[..i] == past[..i] && later[i] == past[i];
    }
  }

  lemma BrokenStays<W(!new)>(c: Changer<W>, past: seq<Moment<W>>, later: seq<Moment<W>>, report: NodeReport)
    requires past <= later && Broken(c, past, report)
    ensures Broken(c, later, report)
  {
    hide Transitioned, Verified;
    if FailedIt(c, past, report) {
      TransitionedStays(c, past, later, report.assessment.value, report.result.value);
    } else {
      var r :| Verified(c, past, report.assessment.value, r, report.postAssess.value);
      VerifiedStays(c, past, later, report.assessment.value, r, report.postAssess.value);
    }
  }

  lemma RolledBackStays<W(!new)>(c: Changer<W>, past: seq<Moment<W>>, later: seq<Moment<W>>, report: NodeReport)
    requires past <= later && RolledBack(c, past, report)
    ensures RolledBack(c, later, report)
  {
    hide Broken;
    if c.undo.None? {
      BrokenStays(c, past, later, report);
    } else {
      var undo := c.undo.value;
      var i :| && 0 <= i < |past| && Broken(c, past[..i], report.(rollbackResult := None))
               && report.rollbackResult == Some(undo(past[i].world).0);
      assert later[..i] == past[..i] && later[i] == past[i];
    }
  }

  lemma GoodEndStays<W(!new)>(c: Changer<W>, past: seq<Moment<W>>, later: seq<Moment<W>>, report: NodeReport)
    requires past <= later && GoodEnd(c, past, report)
    ensures GoodEnd(c, later, report)
  {
    hide Assessed, Verified;
    if FoundAlready(c, past, report) {
      AssessedStays(c, past, later, report.assessment.value);
    } else {
      VerifiedStays(c, past, later, report.assessment.value, report.result.value, report.postAssess.value);
    }
  }

  lemma CalledStays<W(!new)>(node: Node<W>, c: Changer<W>, past: seq<Moment<W>>, later: seq<Moment<W>>,
      report: NodeReport, call: Call)
    requires past <= later && Called(node, c, past, report, call)
    ensures Called(node, c, later, report, call)
  {
    hide GoodEnd;
    var i :| 0 <= i < |past| && GoodEnd(c, past[..i], report) && call.fields == c.exposed(past[i].world);
    assert later[..i] == past[..i] && later[i] == past[i];
  }

  lemma ReportStays<W(!new)>(node: Node<W>, changer: Option<Changer<W>>, call: Option<Call>, past: seq<Moment<W>>,
      later: seq<Moment<W>>, report: NodeReport)
    requires past <= later && ReportOrigin(node, changer, call, past, report)
    ensures ReportOrigin(node, changer, call, later, report)
  {
    hide Assessed, Transitioned, Verified, Reached, RolledBack, GoodEnd, Called, TellsError, TellsRefusal;
    if changer.None? {
      var e :| TellsError(e, report.result.value.code) && Reached(node.body.factory, past, Fail(e));
      ReachedStays(node.body.factory, past, later, Fail(e));
    } else {
      HoldsStays(node, changer, past, later);
      var c := changer.value;
      if call.None? {
        WithoutCallStays(node, c, past, later, report);
      } else {
        WithCallStays(node, c, past, later, call.value, report);
      }
    }
  }

  lemma HoldsStays<W(!new)>(node: Node<W>, changer: Option<Changer<W>>, past: seq<Moment<W>>, later: seq<Moment<W>>)
    requires past <= later && Holds(node, changer, past)
    ensures Holds(node, changer, later)
  {
    hide Reached;
    if node.body.Deferred? {
      ReachedStays(node.body.factory, past, later, Produce(changer.value));
    }
  }

  lemma WithoutCallStays<W(!new)>(node: Node<W>, c: Changer<W>, past: seq<Moment<W>>, later: seq<Moment<W>>,
      report: NodeReport)
    requires past <= later && WithoutCall(node, c, past, report)
    ensures WithoutCall(node, c, later, report)
  {
    hide Assessed, Transitioned, RolledBack, GoodEnd;
    if FoundInvalid(c, past, report) {
      AssessedStays(c, past, later, report.assessment.value);
    } else if SkippedIt(c, past, report) {
      TransitionedStays(c, past, later, report.assessment.value, report.result.value);
    } else if RolledBack(c, past, report) {
      RolledBackStays(c, past, later, report);
    } else {
      GoodEndStays(c, past, later, report);
    }
  }

  lemma WithCallStays<W(!new)>(node: Node<W>, c: Changer<W>, past: seq<Moment<W>>, later: seq<Moment<W>>, call: Call,
      report: NodeReport)
    requires past <= later && WithCall(node, c, past, call, report)
    ensures WithCall(node, c, later, call, report)
  {
    hide Called, TellsRefusal;
    if call.returned.Mapping? && Called(node, c, past, report, call) {
      CalledStays(node, c, past, later, report, call);
    } else {
      var good: NodeReport :|
        && Called(node, c, past, good, call)
        && report == NodeReport(c.name, FailedTransition, good.assessment,
                                Some(Result(Failed, report.result.value.code, map[])), good.postAssess, None);
      CalledStays(node, c, past, later, good, call);
    }
  }

  lemma AtWorkStays<W(!new)>(node: Node<W>, c: Changer<W>, call: Option<Call>, past: seq<Moment<W>>,
      later: seq<Moment<W>>, local: Local<W>)
    requires past <= later && AtWork(node, c, call, past, local)
    ensures AtWork(node, c, call, later, local)
  {
    hide Assessed, Transitioned, Broken, GoodEnd, Called;
    match local
    case Transitioning(a) => AssessedStays(c, past, later, a);
    case Verifying(a, r) => TransitionedStays(c, past, later, a, r);
    case Undoing(report) => BrokenStays(c, past, later, report);
    case Calling(report) => GoodEndStays(c, past, later, report);
    case Publishing(report, _, _) => CalledStays(node, c, past, later, report, call.value);
    case _ =>
  }

  /** What another node does meanwhile takes nothing back. */
  lemma WorkerStays<W(!new)>(node: Node<W>, changer: Option<Changer<W>>, call: Option<Call>, past: seq<Moment<W>>,
      later: seq<Moment<W>>, local: Local<W>)
    requires past <= later && WorkerOrigin(node, changer, call, past, local)
    ensures WorkerOrigin(node, changer, call, later, local)
  {
    hide Reached, ReportOrigin, AtWork, Holds;
    match local
    case Resolving(g) => ReachedStays(node.body.factory, past, later, g);
    case Finished(report) => ReportStays(node, changer, call, past, later, report);
    case _ =>
      HoldsStays(node, changer, past, later);
      AtWorkStays(node, changer.value, call, past, later, local);
  }

  // ---- what happens now is in the past afterwards ----

  lemma AssessedNow<W(!new)>(c: Changer<W>, past: seq<Moment<W>>, m: Moment<W>)
    ensures Assessed(c, past + [m], c.assess(m.world).0)
  {
    assert (past + [m])[|past|] == m;
  }

  lemma TransitionedNow<W(!new)>(c: Changer<W>, past: seq<Moment<W>>, m: Moment<W>, a: Assessment)
    requires a.state == Ready && Assessed(c, past, a)
    ensures Transitioned(c, past + [m], a, c.transition(m.world).0)
  {
    assert (past + [m])[|past|] == m && (past + [m])[..|past|] == past;
  }

  lemma VerifiedNow<W(!new)>(c: Changer<W>, past: seq<Moment<W>>, m: Moment<W>, a: Assessment, r: Result)
    requires r.status == Succeeded && Transitioned(c, past, a, r)
    ensures Verified(c, past + [m], a, r, c.assess(m.world).0)
  {
    assert (past + [m])[|past|] == m && (past + [m])[..|past|] == past;
  }

  lemma UndoneNow<W(!new)>(c: Changer<W>, past: seq<Moment<W>>, m: Moment<W>, report: NodeReport)
    requires c.undo.Some? && Broken(c, past, report)
    ensures RolledBack(c, past + [m], report.(rollbackResult := Some(c.undo.value(m.world).0)))
  {
    var after := report.(rollbackResult := Some(c.undo.value(m.world).0));
    assert (past + [m])[|past|] == m && (past + [m])[..|past|] == past;
    assert after.(rollbackResult := None) == report;
    hide Broken;
  }

  lemma ReachedNow<W(!new)>(f: Factory<W>, past: seq<Moment<W>>, m: Moment<W>, g: Factory<W>)
    requires Reached(f, past, g) && g.Ask?
    ensures Reached(f, past + [m], g.next(Lookup(m.values, g.query)))
  {
    var met :| AskedIn(met, past) && Following(f, met) == g;
    var longer := met + [m.values];
    FollowingOneMore(f, met, m.values);
    assert longer[..|met|] == met && longer[|longer| - 1] == m.values;
    assert (past + [m])[|past|] == m && (past + [m])[..|past|] == past;
    hide Following;
    assert AskedIn(longer, past + [m]);
  }

  lemma CalledNow<W(!new)>(node: Node<W>, c: Changer<W>, past: seq<Moment<W>>, m: Moment<W>, report: NodeReport)
    requires node.publishes.Some? && GoodEnd(c, past, report)
    ensures var call := MakeCall(node, c, c.exposed(m.world), PublishInput(report));
      Called(node, c, past + [m], report, call)
  {
    assert (past + [m])[|past|] == m && (past + [m])[..|past|] == past;
    hide Assessed, Verified;
  }

  lemma RefusedNow<W(!new)>(node: Node<W>, c: Changer<W>, past: seq<Moment<W>>, good: NodeReport, call: Call,
      code: string)
    requires Called(node, c, past, good, call) && TellsRefusal(call.returned, code)
    ensures NotPublished(node, c, past, call, PublishFailureReport(good, code))
  {
    assert good.nodeName == c.name;
    hide Called, TellsRefusal;
  }

  lemma NothingYet<W(!new)>(node: Node<W>)
    ensures WorkerOrigin(node, Initial(node).0, None, [], Initial(node).1)
  {
    if node.body.Deferred? {
      var met: seq<Bindings> := [];
      assert AskedIn<W>(met, []) && Following(node.body.factory, met) == node.body.factory;
    }
  }

  // ---- every step ----

  lemma ResolvingOrigin<W(!new)>(node: Node<W>, c: Core<W>, past: seq<Moment<W>>)
    requires WorkerOk(node, c.changer, c.local) && WorkerOrigin(node, c.changer, c.call, past, c.local)
    requires c.local.Resolving?
    ensures var d := Step(node, c);
      WorkerOrigin(node, d.changer, d.call, past + [Moment(c.values, c.world)], d.local)
  {
    hide Reached, Following;
    var f, g, m := node.body.factory, c.local.factory, Moment(c.values, c.world);
    ReachedStays(f, past, past + [m], g);
    if g.Ask? {
      ReachedNow(f, past, m, g);
    } else if g.Fail? {
      assert TellsError(g.error, ErrorCode(g.error));
    }
  }

  lemma AssessingOrigin<W(!new)>(node: Node<W>, c: Core<W>, past: seq<Moment<W>>)
    requires WorkerOk(node, c.changer, c.local) && WorkerOrigin(node, c.changer, c.call, past, c.local)
    requires c.local.Assessing?
    ensures var d := Step(node, c);
      WorkerOrigin(node, d.changer, d.call, past + [Moment(c.values, c.world)], d.local)
  {
    hide Assessed, Holds, SkippedIt, RolledBack, Changed;
    var m := Moment(c.values, c.world);
    HoldsStays(node, c.changer, past, past + [m]);
    AssessedNow(c.changer.value, past, m);
  }

  lemma TransitioningOrigin<W(!new)>(node: Node<W>, c: Core<W>, past: seq<Moment<W>>)
    requires WorkerOk(node, c.changer, c.local) && WorkerOrigin(node, c.changer, c.call, past, c.local)
    requires c.local.Transitioning?
    ensures var d := Step(node, c);
      WorkerOrigin(node, d.changer, d.call, past + [Moment(c.values, c.world)], d.local)
  {
    hide Assessed, Transitioned, Holds, FoundInvalid, RolledBack, GoodEnd, Mismatched;
    var m := Moment(c.values, c.world);
    HoldsStays(node, c.changer, past, past + [m]);
    TransitionedNow(c.changer.value, past, m, c.local.assessment);
  }

  lemma VerifyingOrigin<W(!new)>(node: Node<W>, c: Core<W>, past: seq<Moment<W>>)
    requires WorkerOk(node, c.changer, c.local) && WorkerOrigin(node, c.changer, c.call, past, c.local)
    requires c.local.Verifying?
    ensures var d := Step(node, c);
      WorkerOrigin(node, d.changer, d.call, past + [Moment(c.values, c.world)], d.local)
  {
    hide Transitioned, Verified, Holds, FoundInvalid, SkippedIt, RolledBack, FoundAlready, FailedIt;
    var m := Moment(c.values, c.world);
    HoldsStays(node, c.changer, past, past + [m]);
    VerifiedNow(c.changer.value, past, m, c.local.assessment, c.local.result);
  }

  lemma UndoingOrigin<W(!new)>(node: Node<W>, c: Core<W>, past: seq<Moment<W>>)
    requires WorkerOk(node, c.changer, c.local) && WorkerOrigin(node, c.changer, c.call, past, c.local)
    requires c.local.Undoing?
    ensures var d := Step(node, c);
      WorkerOrigin(node, d.changer, d.call, past + [Moment(c.values, c.world)], d.local)
  {
    hide Broken, Holds, FoundInvalid, SkippedIt, GoodEnd;
    var m := Moment(c.values, c.world);
    HoldsStays(node, c.changer, past, past + [m]);
    BrokenStays(c.changer.value, past, past + [m], c.local.report);
    if c.changer.value.undo.Some? {
      UndoneNow(c.changer.value, past, m, c.local.report);
      hide RolledBack;
    }
  }

  lemma CallingOrigin<W(!new)>(node: Node<W>, c: Core<W>, past: seq<Moment<W>>)
    requires WorkerOk(node, c.changer, c.local) && WorkerOrigin(node, c.changer, c.call, past, c.local)
    requires c.local.Calling?
    ensures var d := Step(node, c);
      WorkerOrigin(node, d.changer, d.call, past + [Moment(c.values, c.world)], d.local)
  {
    hide GoodEnd, Called, Holds;
    var m := Moment(c.values, c.world);
    HoldsStays(node, c.changer, past, past + [m]);
    CalledNow(node, c.changer.value, past, m, c.local.report);
    hide NotPublished;
    var call := Step(node, c).call.value;
    if call.returned.Raised? {
      RefusedNow(node, c.changer.value, past + [m], c.local.report, call, RaisedCode(call.returned.typeName));
    }
  }

  lemma PublishingOrigin<W(!new)>(node: Node<W>, c: Core<W>, past: seq<Moment<W>>)
    requires WorkerOk(node, c.changer, c.local) && WorkerOrigin(node, c.changer, c.call, past, c.local)
    requires c.local.Publishing?
    ensures var d := Step(node, c);
      WorkerOrigin(node, d.changer, d.call, past + [Moment(c.values, c.world)], d.local)
  {
    hide Called, Holds;
    var m := Moment(c.values, c.world);
    HoldsStays(node, c.changer, past, past + [m]);
    CalledStays(node, c.changer.value, past, past + [m], c.local.report, c.call.value);
    hide NotPublished;
    var items, next := c.local.items, c.local.next;
    if next < |items| && items[next].0 in c.values {
      RefusedNow(node, c.changer.value, past + [m], c.local.report, c.call.value, DuplicateCode(items[next].0));
    }
  }

  /** Every step of a worker keeps account of what was done. */
  lemma StepKeepsOrigin<W(!new)>(node: Node<W>, c: Core<W>, past: seq<Moment<W>>)
    requires WorkerOk(node, c.changer, c.local) && WorkerOrigin(node, c.changer, c.call, past, c.local)
    ensures var d := Step(node, c);
      WorkerOrigin(node, d.changer, d.call, past + [Moment(c.values, c.world)], d.local)
  {
    hide WorkerOrigin, Step, WorkerOk;
    match c.local
    case Resolving(_) => ResolvingOrigin(node, c, past);
    case Assessing => AssessingOrigin(node, c, past);
    case Transitioning(_) => TransitioningOrigin(node, c, past);
    case Verifying(_, _) => VerifyingOrigin(node, c, past);
    case Undoing(_) => UndoingOrigin(node, c, past);
    case Calling(_) => CallingOrigin(node, c, past);
    case Publishing(_, _, _) => PublishingOrigin(node, c, past);
    case Finished(_) => FinishedOrigin(node, c, past);
  }

  lemma FinishedOrigin<W(!new)>(node: Node<W>, c: Core<W>, past: seq<Moment<W>>)
    requires WorkerOk(node, c.changer, c.local) && WorkerOrigin(node, c.changer, c.call, past, c.local)
    requires c.local.Finished?
    ensures var d := Step(node, c);
      WorkerOrigin(node, d.changer, d.call, past + [Moment(c.values, c.world)], d.local)
  {
    hide WorkerOrigin;
    WorkerStays(node, c.changer, c.call, past, past + [Moment(c.values, c.world)], c.local);
  }

  /** A node run from start to finish with nobody else at work. */
  lemma {:induction false} EndHasOrigin<W(!new)>(node: Node<W>, c: Core<W>, past: seq<Moment<W>>)
    requires LocalReturns(c.local) && WorkerOk(node, c.changer, c.local)
    requires WorkerOrigin(node, c.changer, c.call, past, c.local)
    ensures var end := RunToEnd(node, c);
      exists all :: past <= all && WorkerOrigin(node, end.changer, end.call, all, end.local)
    decreases Stage(c.local), Left(c.local)
  {
    hide WorkerOrigin, Step, WorkerOk, LocalReturns;
    if !c.local.Finished? {
      StepDecreases(node, c);
      StepKeepsOrigin(node, c, past);
      var d, now := Step(node, c), past + [Moment(c.values, c.world)];
      EndHasOrigin(node, d, now);
      RunOneStep(node, c);
      var end := RunToEnd(node, c);
      var all :| now <= all && WorkerOrigin(node, end.changer, end.call, all, end.local);
      assert past <= all && WorkerOrigin(node, end.changer, end.call, all, end.local);
    } else {
      assert RunToEnd(node, c) == c && past <= past;
    }
  }

  lemma EndReport<W(!new)>(node: Node<W>, c: Core<W>)
    requires LocalReturns(c.local) && WorkerOk(node, c.changer, c.local)
    requires WorkerOrigin(node, c.changer, c.call, [], c.local)
    ensures var end := RunToEnd(node, c);
      exists past, call :: ReportOrigin(node, end.changer, call, past, end.local.report)
  {
    EndHasOrigin(node, c, []);
    hide ReportOrigin;
  }
}
