/** The engine's work on one registered changer without a publish callback, case by case. */
module Transactions {
  import opened Outcomes
  import opened Registry
  import opened Workers

  function Alone<W>(c: Changer<W>): Node<W> {
    Node([], Given(c), None)
  }

  function Working<W>(c: Changer<W>, local: Local<W>, values: Bindings, world: W): Core<W> {
    Core(Some(c), local, None, values, world)
  }

  /** Where the worker of a node holding only c ends. */
  ghost function EngineRun<W(!new)>(c: Changer<W>, values: Bindings, world: W): Core<W> {
    RunToEnd(Alone(c), Working(c, Assessing, values, world))
  }

  function Mismatch(name: string, a: Assessment, post: Assessment): NodeReport {
    TransitionReport(name, a, FailedTransition, FailureResult("POST_ASSESS_MISMATCH"), Some(post))
  }

  function Undone<W>(c: Changer<W>, report: NodeReport, world: W): (NodeReport, W) {
    match c.undo
    case None => (report, world)
    case Some(undo) =>
      var (r, w) := undo(world);
      (report.(rollbackResult := Some(r)), w)
  }

  /** Transition, assess again, and undo what did not work. */
  function Finalised<W>(c: Changer<W>, a: Assessment, world: W): (NodeReport, W) {
    var (r, w2) := c.transition(world);
    match r.status
    case Skipped => (TransitionReport(c.name, a, SkippedByTransition, r, None), w2)
    case Failed => Undone(c, TransitionReport(c.name, a, FailedTransition, r, None), w2)
    case Succeeded =>
      var (post, w3) := c.assess(w2);
      if post.state == AlreadyApplied then (TransitionReport(c.name, a, Success, r, Some(post)), w3)
      else Undone(c, Mismatch(c.name, a, post), w3)
  }

  function Transact<W>(c: Changer<W>, world: W): (NodeReport, W) {
    var (a, w1) := c.assess(world);
    match a.state
    case AlreadyApplied => (NodeReport(c.name, SkippedAlreadyApplied, Some(a), None, None, None), w1)
    case Invalid => (NodeReport(c.name, FailedInvalid, Some(a), None, None, None), w1)
    case Ready => Finalised(c, a, w1)
  }

  lemma UndoingEnds<W(!new)>(c: Changer<W>, values: Bindings, report: NodeReport, world: W)
    ensures var (end, after) := Undone(c, report, world);
      RunToEnd(Alone(c), Working(c, Undoing(report), values, world)) == Working(c, Finished(end), values, after)
  {
    RunOneStep(Alone(c), Working(c, Undoing(report), values, world));
  }

  lemma TransitioningEnds<W(!new)>(c: Changer<W>, values: Bindings, a: Assessment, world: W)
    ensures var (end, after) := Finalised(c, a, world);
      RunToEnd(Alone(c), Working(c, Transitioning(a), values, world)) == Working(c, Finished(end), values, after)
  {
    RunOneStep(Alone(c), Working(c, Transitioning(a), values, world));
    var (r, w2) := c.transition(world);
    match r.status {
      case Skipped =>
      case Failed => UndoingEnds(c, values, TransitionReport(c.name, a, FailedTransition, r, None), w2);
      case Succeeded =>
        RunOneStep(Alone(c), Working(c, Verifying(a, r), values, w2));
        var (post, w3) := c.assess(w2);
        if post.state != AlreadyApplied {
          UndoingEnds(c, values, Mismatch(c.name, a, post), w3);
        }
    }
  }

  /** The worker's steps come to exactly this transaction, and leave the registry alone. */
  lemma EngineRunIsTransaction<W(!new)>(c: Changer<W>, values: Bindings, world: W)
    ensures var (end, after) := Transact(c, world);
      EngineRun(c, values, world) == Working(c, Finished(end), values, after)
  {
    RunOneStep(Alone(c), Working(c, Assessing, values, world));
    var (a, w1) := c.assess(world);
    if a.state == Ready {
      TransitioningEnds(c, values, a, w1);
    }
  }

  /** The transaction whose check finds the state applied. */
  lemma PassedCheck<W>(c: Changer<W>, w: W, a: Assessment, w1: W, r: Result, w2: W, post: Assessment, w3: W)
    requires c.assess(w) == (a, w1) && a.state == Ready
    requires c.transition(w1) == (r, w2) && r.status == Succeeded
    requires c.assess(w2) == (post, w3) && post.state == AlreadyApplied
    ensures Transact(c, w) == (TransitionReport(c.name, a, Success, r, Some(post)), w3)
  {
  }

  /** The transaction whose check does not find the state applied. */
  lemma FailedCheck<W>(c: Changer<W>, w: W, a: Assessment, w1: W, r: Result, w2: W, post: Assessment, w3: W)
    requires c.assess(w) == (a, w1) && a.state == Ready
    requires c.transition(w1) == (r, w2) && r.status == Succeeded
    requires c.assess(w2) == (post, w3) && post.state != AlreadyApplied
    ensures Transact(c, w) == Undone(c, Mismatch(c.name, a, post), w3)
  {
  }

  /** Two changers whose operations answer alike all the way: the same report, and both have done the same
      operations last. */
  lemma AnsweringAlike<V, W>(c: Changer<V>, v: V, d: Changer<W>, w: W)
    requires c.name == d.name && c.undo.Some? && d.undo.Some? && c.assess(v).0 == d.assess(w).0
    requires var v1, w1 := c.assess(v).1, d.assess(w).1;
      var v2, w2 := c.transition(v1).1, d.transition(w1).1;
      && c.transition(v1).0 == d.transition(w1).0 && c.assess(v2).0 == d.assess(w2).0
      && c.undo.value(v2).0 == d.undo.value(w2).0
      && c.undo.value(c.assess(v2).1).0 == d.undo.value(d.assess(w2).1).0
    ensures Transact(c, v).0 == Transact(d, w).0
    ensures var v1, w1 := c.assess(v).1, d.assess(w).1;
      var v2, w2 := c.transition(v1).1, d.transition(w1).1;
      var v3, w3 := c.assess(v2).1, d.assess(w2).1;
      var x, y := Transact(c, v).1, Transact(d, w).1;
      || (x == v1 && y == w1) || (x == v2 && y == w2) || (x == v3 && y == w3)
      || (x == c.undo.value(v2).1 && y == d.undo.value(w2).1) || (x == c.undo.value(v3).1 && y == d.undo.value(w3).1)
  {
  }
}
