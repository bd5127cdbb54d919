/** The driver of one run: counters, downstream lists, outcomes and the pool of nodes in flight. */
module Driver {
  import opened Outcomes
  import opened Dag
  import opened Scheduling
  import opened RunLog

  /** Upstream entries of d that are still to be met, for every unreported d. */
  ghost predicate Counted(ups: Upstreams, remaining: seq<int>, reports: Reports) {
    && |remaining| == |ups|
    && forall d :: 0 <= d < |ups| && d !in reports ==> remaining[d] == Unmet(ups[d], GoodNodes(reports))
  }

  /** Exactly the edges that leave reported nodes have been examined, each once per entry. */
  ghost predicate Examined(ups: Upstreams, edges: multiset<(nat, nat)>, reports: Reports) {
    forall x: nat, y: nat {:trigger edges[(x, y)]} ::
      edges[(x, y)] == if x in reports && y < |ups| then multiset(ups[y])[x] else 0
  }

  lemma InitiallyCounted(ups: Upstreams, remaining: seq<int>)
    requires |remaining| == |ups| && forall i :: 0 <= i < |ups| ==> remaining[i] == |ups[i]|
    ensures Counted(ups, remaining, map[])
    ensures Runnable(ups, map[]) == set d: nat | d < |ups| && remaining[d] == 0
  {
    assert GoodNodes(map[]) == {};
    forall i | 0 <= i < |ups| ensures Unmet(ups[i], {}) == |ups[i]| {
      UnmetOfNothing(ups[i]);
    }
    forall d: nat | d < |ups| ensures d in Runnable(ups, map[]) <==> remaining[d] == 0 {
      ReadyIffCounterIsZero(ups, remaining, map[], d);
    }
  }

  lemma ReadyIffCounterIsZero(ups: Upstreams, remaining: seq<int>, reports: Reports, d: nat)
    requires Counted(ups, remaining, reports) && d < |ups| && d !in reports
    ensures remaining[d] >= 0
    ensures d in Runnable(ups, reports) <==> remaining[d] == 0
  {
    UnmetZero(ups[d], GoodNodes(reports));
  }

  /** Counters are right again once a good node's downstream entries have all been subtracted. */
  lemma CountedAfterGood(ups: Upstreams, downs: seq<seq<nat>>, reports: Reports, n: nat, r: NodeReport, d: nat)
    requires DownstreamTable(ups, downs) && n < |ups| && n !in reports && !Failing(r.outcome)
    requires d < |ups|
    ensures Unmet(ups[d], GoodNodes(reports[n := r])) == Unmet(ups[d], GoodNodes(reports)) - multiset(downs[n])[d]
  {
    assert GoodNodes(reports[n := r]) == GoodNodes(reports) + {n};
    UnmetAfterMeeting(ups[d], GoodNodes(reports), n);
  }

  /** Blocking changes no counter that is still in use. */
  lemma CountedAfterBlocking(ups: Upstreams, names: seq<string>, remaining: seq<int>, reports: Reports, n: nat,
      r: NodeReport)
    requires |names| == |ups| && Counted(ups, remaining, reports) && n !in reports && EngineFailure(r.outcome)
    ensures Counted(ups, remaining, Absorbed(ups, names, reports, n, r))
  {
    var after := Absorbed(ups, names, reports, n, r);
    assert GoodNodes(after) == GoodNodes(reports) by {
      forall n ensures n in GoodNodes(after) <==> n in GoodNodes(reports) {
      }
    }
  }

  /** The edges out of x along a downstream list. */
  ghost function OutOf(x: nat, targets: seq<nat>): (r: seq<(nat, nat)>)
    ensures |r| == |targets|
  {
    seq(|targets|, i requires 0 <= i < |targets| => (x, targets[i]))
  }

  lemma {:induction false} OutOfCounts(x: nat, targets: seq<nat>)
    ensures forall u: nat, y: nat ::
      multiset(OutOf(x, targets))[(u, y)] == if u == x then multiset(targets)[y] else 0
  {
    if targets != [] {
      var init := targets[..|targets| - 1];
      OutOfCounts(x, init);
      assert targets == init + [targets[|targets| - 1]];
      assert OutOf(x, targets) == OutOf(x, init) + [(x, targets[|targets| - 1])];
    }
  }

  ghost function Unreported(ups: Upstreams, reports: Reports): set<nat> {
    set d: nat | d < |ups| && d !in reports
  }

  lemma UnreportedShrinks(ups: Upstreams, reports: Reports, after: Reports, d: nat)
    requires d < |ups| && d !in reports && d in after && reports.Keys <= after.Keys
    ensures Unreported(ups, after) < Unreported(ups, reports)
  {
    assert d in Unreported(ups, reports);
  }

  /** Examining every edge out of one more reported node. */
  lemma ExamineNode(ups: Upstreams, downs: seq<seq<nat>>, edges: multiset<(nat, nat)>, reports: Reports, x: nat,
      r: NodeReport)
    requires DownstreamTable(ups, downs) && x < |ups| && x !in reports
    requires Examined(ups, edges, reports)
    ensures Examined(ups, edges + multiset(OutOf(x, downs[x])), reports[x := r])
  {
    OutOfCounts(x, downs[x]);
    var all := edges + multiset(OutOf(x, downs[x]));
    forall u: nat, y: nat
      ensures all[(u, y)] == if u in reports[x := r] && y < |ups| then multiset(ups[y])[u] else 0
    {
      assert edges[(u, y)] == if u in reports && y < |ups| then multiset(ups[y])[u] else 0;
      if y >= |ups| {
        assert y !in downs[x];
      }
    }
  }

  /** When every node is reported every edge has been examined exactly once. */
  lemma AllEdgesExamined(ups: Upstreams, edges: multiset<(nat, nat)>, reports: Reports)
    requires Acyclic(ups) && Examined(ups, edges, reports)
    requires forall n: nat :: n in reports <==> n < |ups|
    ensures edges == Edges(ups) && |edges| == EntryCount(ups)
  {
    EdgesCount(ups, 0, 0);
    forall x: nat, y: nat ensures edges[(x, y)] == Edges(ups)[(x, y)] {
      EdgesCount(ups, x, y);
      if y < |ups| && multiset(ups[y])[x] > 0 {
        assert x in ups[y];
      }
    }
    forall e: (nat, nat) ensures edges[e] == Edges(ups)[e] {
      var (x, y) := e;
    }
    assert edges == Edges(ups);
  }

  // ---- the breadth-first blocking search ----

  /** Half-way through the search from failed node n: only unreported descendants of n were blocked, the
      queue holds descendants of n, and whatever lies directly below n or a blocked node is reported or
      queued. */
  ghost predicate Searching(ups: Upstreams, names: seq<string>, reports: Reports, n: nat, r: NodeReport,
      after: Reports, queue: seq<nat>)
    requires |names| == |ups|
  {
    && n in after && after[n] == r
    && (forall d {:trigger d in reports} {:trigger reports[d]} :: d in reports ==> d in after && after[d] == reports[d])
    && (forall d {:trigger after[d]} :: d in after && d !in reports && d != n ==>
          d < |ups| && Ancestor(ups, n, d) && after[d] == BlockedReport(names[d]))
    && (forall q: nat :: q in queue ==> q < |ups| && Ancestor(ups, n, q))
    && (forall d, u {:trigger u in ups[d]} ::
          0 <= d < |ups| && u in ups[d] && u in after && u !in reports ==> d in after || d in queue)
  }

  lemma SearchStart(ups: Upstreams, names: seq<string>, downs: seq<seq<nat>>, reports: Reports, n: nat, r: NodeReport)
    requires Acyclic(ups) && |names| == |ups| && DownstreamTable(ups, downs) && n < |ups| && n !in reports
    ensures Searching(ups, names, reports, n, r, reports[n := r], downs[n])
  {
    DownstreamFacts(ups, downs, n);
  }

  lemma SearchSkip(ups: Upstreams, names: seq<string>, reports: Reports, n: nat, r: NodeReport, after: Reports,
      queue: seq<nat>)
    requires Acyclic(ups) && |names| == |ups| && Searching(ups, names, reports, n, r, after, queue)
    requires queue != [] && queue[0] in after
    ensures Searching(ups, names, reports, n, r, after, queue[1..])
  {
    forall q: nat | q in queue[1..] ensures q < |ups| && Ancestor(ups, n, q) {
      assert q in queue;
    }
    assert queue == [queue[0]] + queue[1..];
  }

  lemma SearchVisit(ups: Upstreams, names: seq<string>, downs: seq<seq<nat>>, reports: Reports, n: nat,
      r: NodeReport, after: Reports, queue: seq<nat>)
    requires Acyclic(ups) && Consistent(ups, names, reports) && DownstreamTable(ups, downs)
    requires n in Runnable(ups, reports) && Searching(ups, names, reports, n, r, after, queue)
    requires queue != [] && queue[0] !in after
    ensures queue[0] < |ups| && Ancestor(ups, n, queue[0]) && queue[0] !in Runnable(ups, reports)
    ensures var d := queue[0];
      Searching(ups, names, reports, n, r, after[d := BlockedReport(names[d])], queue[1..] + downs[d])
  {
    var d := queue[0];
    assert queue == [d] + queue[1..];
    if d in Runnable(ups, reports) {
      RanAfterGoodAncestors(ups, names, reports, d, n);
    }
    DownstreamFacts(ups, downs, d);
    var later, rest := after[d := BlockedReport(names[d])], queue[1..] + downs[d];
    forall q: nat | q in rest ensures q < |ups| && Ancestor(ups, n, q) {
      if q in downs[d] {
        AncestorTransitive(ups, n, d, q);
      } else {
        assert q in queue;
      }
    }
    forall m, u | 0 <= m < |ups| && u in ups[m] && u in later && u !in reports
      ensures m in later || m in rest
    {
      if u != d {
        assert m in after || m in queue;
      }
    }
  }

  /** The search is over: it reported exactly the unreported descendants of the failed node. */
  lemma SearchEnd(ups: Upstreams, names: seq<string>, reports: Reports, n: nat, r: NodeReport, after: Reports)
    requires Acyclic(ups) && Consistent(ups, names, reports) && n in Runnable(ups, reports)
    requires EngineFailure(r.outcome) && Searching(ups, names, reports, n, r, after, [])
    ensures after == Absorbed(ups, names, reports, n, r)
  {
    forall d: nat | Ancestor(ups, n, d) ensures d in after {
      DescendantIsReached(ups, names, reports, n, r, after, d);
    }
    ReachedMeansAbsorbed(ups, names, reports, n, r, after);
  }

  lemma ReachedMeansAbsorbed(ups: Upstreams, names: seq<string>, reports: Reports, n: nat, r: NodeReport,
      after: Reports)
    requires Acyclic(ups) && |names| == |ups|
    requires EngineFailure(r.outcome) && n !in reports && Searching(ups, names, reports, n, r, after, [])
    requires forall d :: 0 <= d < |ups| && Ancestor(ups, n, d) ==> d in after
    ensures after == Absorbed(ups, names, reports, n, r)
  {
    var absorbed := Absorbed(ups, names, reports, n, r);
    forall d ensures d in after ==> d in absorbed {
      assert d in after ==> after[d] == after[d];
    }
    if Ancestor(ups, n, n) {
      AncestorIsEarlier(ups, n, n);
    }
    assert after.Keys == absorbed.Keys;
  }

  lemma {:induction false} DescendantIsReached(ups: Upstreams, names: seq<string>, reports: Reports, n: nat,
      r: NodeReport, after: Reports, d: nat)
    requires Acyclic(ups) && Consistent(ups, names, reports) && n in Runnable(ups, reports)
    requires Searching(ups, names, reports, n, r, after, [])
    requires Ancestor(ups, n, d)
    ensures d in after
    decreases d
  {
    var u := AncestorVia(ups, n, d);
    if u != n {
      DescendantIsReached(ups, names, reports, n, r, after, u);
      if RanAt(reports, u) {
        RanAfterGoodAncestors(ups, names, reports, u, n);
      }
      if u in reports {
        assert BlockedAt(reports, u) && Bad(reports, u);
      }
    }
  }

  /** The queue read as edges: what was examined, together with what is queued, covers the reported nodes. */
  ghost predicate Queued(ups: Upstreams, edges: multiset<(nat, nat)>, pending: seq<(nat, nat)>, queue: seq<nat>,
      after: Reports) {
    && |pending| == |queue|
    && (forall j :: 0 <= j < |queue| ==> pending[j].1 == queue[j])
    && Examined(ups, edges + multiset(pending), after)
  }

  lemma DequeueEdge(ups: Upstreams, edges: multiset<(nat, nat)>, pending: seq<(nat, nat)>, queue: seq<nat>,
      after: Reports)
    requires queue != [] && Queued(ups, edges, pending, queue, after)
    ensures |pending| > 0 && Queued(ups, edges + multiset{pending[0]}, pending[1..], queue[1..], after)
  {
    assert pending == [pending[0]] + pending[1..];
    assert edges + multiset(pending) == edges + multiset{pending[0]} + multiset(pending[1..]);
  }

  lemma QueueFirst(ups: Upstreams, downs: seq<seq<nat>>, edges: multiset<(nat, nat)>, reports: Reports, n: nat,
      r: NodeReport)
    requires DownstreamTable(ups, downs) && n < |ups| && n !in reports && Examined(ups, edges, reports)
    ensures Queued(ups, edges, OutOf(n, downs[n]), downs[n], reports[n := r])
  {
    ExamineNode(ups, downs, edges, reports, n, r);
  }

  lemma QueueDrained(ups: Upstreams, edges: multiset<(nat, nat)>, pending: seq<(nat, nat)>, after: Reports)
    requires Queued(ups, edges, pending, [], after)
    ensures Examined(ups, edges, after)
  {
    assert edges + multiset(pending) == edges;
  }

  lemma EnqueueEdges(ups: Upstreams, downs: seq<seq<nat>>, edges: multiset<(nat, nat)>, pending: seq<(nat, nat)>,
      queue: seq<nat>, after: Reports, d: nat, r: NodeReport)
    requires DownstreamTable(ups, downs) && d < |ups| && d !in after && Queued(ups, edges, pending, queue, after)
    ensures Queued(ups, edges, pending + OutOf(d, downs[d]), queue + downs[d], after[d := r])
  {
    ExamineNode(ups, downs, edges + multiset(pending), after, d, r);
    assert edges + multiset(pending) + multiset(OutOf(d, downs[d])) == edges + multiset(pending + OutOf(d, downs[d]));
  }

  // ---- the decrement loop ----

  /** After j of n's downstream entries were subtracted: the counters still owe the rest, and the nodes in
      flight are the unreported ones whose counter is zero. */
  ghost predicate Releasing(ups: Upstreams, downs: seq<seq<nat>>, reports: Reports, n: nat, remaining: seq<int>,
      inFlight: set<nat>, j: nat)
    requires |downs| == |ups| && n < |ups| && j <= |downs[n]|
  {
    && |remaining| == |ups|
    && (forall d :: 0 <= d < |ups| && d !in reports ==>
          remaining[d] - multiset(downs[n][j..])[d] == Unmet(ups[d], GoodNodes(reports)))
    && (forall d: nat :: d in inFlight <==> d < |ups| && d !in reports && remaining[d] == 0)
  }

  lemma ReleaseStart(ups: Upstreams, downs: seq<seq<nat>>, remaining: seq<int>, reports: Reports, n: nat,
      r: NodeReport)
    requires DownstreamTable(ups, downs) && Counted(ups, remaining, reports)
    requires n in Runnable(ups, reports) && !Failing(r.outcome)
    ensures Releasing(ups, downs, reports[n := r], n, remaining, Runnable(ups, reports) - {n}, 0)
  {
    assert downs[n][0..] == downs[n];
    forall d | 0 <= d < |ups| && d !in reports
      ensures remaining[d] - multiset(downs[n])[d] == Unmet(ups[d], GoodNodes(reports[n := r]))
      ensures d in Runnable(ups, reports) <==> remaining[d] == 0
    {
      CountedAfterGood(ups, downs, reports, n, r, d);
      ReadyIffCounterIsZero(ups, remaining, reports, d);
    }
  }

  lemma ReleaseStep(ups: Upstreams, downs: seq<seq<nat>>, reports: Reports, n: nat, remaining: seq<int>,
      inFlight: set<nat>, j: nat)
    requires |downs| == |ups| && n < |ups| && j < |downs[n]| && downs[n][j] < |ups|
    requires Releasing(ups, downs, reports, n, remaining, inFlight, j)
    ensures var d := downs[n][j];
      if d in reports then Releasing(ups, downs, reports, n, remaining, inFlight, j + 1)
      else
        && remaining[d] > 0 && d !in inFlight
        && (remaining[d] == 1 ==> Unmet(ups[d], GoodNodes(reports)) == 0)
        && Releasing(ups, downs, reports, n, remaining[d := remaining[d] - 1],
                     if remaining[d] == 1 then inFlight + {d} else inFlight, j + 1)
  {
    assert downs[n][j..] == [downs[n][j]] + downs[n][j + 1..];
    assert multiset(downs[n][j..]) == multiset{downs[n][j]} + multiset(downs[n][j + 1..]);
  }

  lemma ReleaseEnd(ups: Upstreams, downs: seq<seq<nat>>, reports: Reports, n: nat, remaining: seq<int>,
      inFlight: set<nat>)
    requires |downs| == |ups| && n < |ups| && Releasing(ups, downs, reports, n, remaining, inFlight, |downs[n]|)
    ensures Counted(ups, remaining, reports) && inFlight == Runnable(ups, reports)
  {
    assert downs[n][|downs[n]|..] == [];
    forall d: nat ensures d in inFlight <==> d in Runnable(ups, reports) {
      if d < |ups| && d !in reports {
        ReadyIffCounterIsZero(ups, remaining, reports, d);
      }
    }
  }

  /** An unreported node with no unmet upstream has all its ancestors behind it. */
  lemma NewlyRunnable(ups: Upstreams, names: seq<string>, reports: Reports, d: nat)
    requires Acyclic(ups) && Consistent(ups, names, reports) && d < |ups| && d !in reports
    requires Unmet(ups[d], GoodNodes(reports)) == 0
    ensures forall a :: Ancestor(ups, a, d) ==> Good(reports, a)
  {
    UnmetZero(ups[d], GoodNodes(reports));
    forall a | Ancestor(ups, a, d) ensures Good(reports, a) {
      RanAfterGoodAncestors(ups, names, reports, d, a);
    }
  }

  /** Builds the downstream lists by walking the nodes in registration order. */
  method BuildDownstreams(ups: Upstreams) returns (downs: seq<seq<nat>>)
    requires Acyclic(ups)
    ensures DownstreamTable(ups, downs)
  {
    downs := seq(|ups|, _ => []);
    for i := 0 to |ups|
      invariant |downs| == |ups| && forall u :: 0 <= u < |ups| ==> downs[u] == ListAfter(ups, u, i, 0)
    {
      for j := 0 to |ups[i]|
        invariant |downs| == |ups| && forall u :: 0 <= u < |ups| ==> downs[u] == ListAfter(ups, u, i, j)
      {
        var up := ups[i][j];
        assert up in ups[i];
        downs := downs[up := downs[up] + [i]];
      }
    }
    ListsFormTable(ups, downs);
  }

  /** The list kept for u after the first i nodes and the first j entries of node i. */
  ghost function ListAfter(ups: Upstreams, u: nat, i: nat, j: nat): seq<nat>
    requires if i < |ups| then j <= |ups[i]| else i == |ups| && j == 0
    decreases i, j
  {
    if j > 0 then ListAfter(ups, u, i, j - 1) + if ups[i][j - 1] == u then [i] else []
    else if i > 0 then ListAfter(ups, u, i - 1, |ups[i - 1]|)
    else []
  }

  ghost predicate OrderedUpTo(list: seq<nat>, top: int) {
    && (forall k :: 0 <= k < |list| ==> list[k] <= top)
    && (forall k, l :: 0 <= k < l < |list| ==> list[k] <= list[l])
  }

  lemma {:induction false} ListIsOrdered(ups: Upstreams, u: nat, i: nat, j: nat)
    requires if i < |ups| then j <= |ups[i]| else i == |ups| && j == 0
    ensures OrderedUpTo(ListAfter(ups, u, i, j), if j > 0 then i else i - 1)
    decreases i, j
  {
    if j > 0 {
      ListIsOrdered(ups, u, i, j - 1);
      var before := ListAfter(ups, u, i, j - 1);
      assert OrderedUpTo(before, i) && OrderedUpTo(before + [i], i);
      assert before + [] == before;
    } else if i > 0 {
      ListIsOrdered(ups, u, i - 1, |ups[i - 1]|);
      assert ListAfter(ups, u, i, j) == ListAfter(ups, u, i - 1, |ups[i - 1]|);
    }
  }

  /** How often d should be listed under u by then. */
  ghost function CountAfter(ups: Upstreams, u: nat, i: nat, j: nat, d: nat): nat
    requires d < |ups| && if i < |ups| then j <= |ups[i]| else i == |ups| && j == 0
  {
    if d < i then multiset(ups[d])[u] else if d == i then multiset(ups[d][..j])[u] else 0
  }

  lemma CountOneMore(ups: Upstreams, u: nat, i: nat, j: nat, d: nat)
    requires d < |ups| && i < |ups| && 0 < j <= |ups[i]|
    ensures CountAfter(ups, u, i, j, d)
         == CountAfter(ups, u, i, j - 1, d) + if i == d && ups[i][j - 1] == u then 1 else 0
  {
    if d == i {
      assert ups[i][..j] == ups[i][..j - 1] + [ups[i][j - 1]];
      CountAppend(ups[i][..j - 1], ups[i][j - 1], u);
    }
  }

  lemma CountNextNode(ups: Upstreams, u: nat, i: nat, d: nat)
    requires d < |ups| && 0 < i <= |ups|
    ensures CountAfter(ups, u, i, 0, d) == CountAfter(ups, u, i - 1, |ups[i - 1]|, d)
  {
    assert ups[i - 1][..|ups[i - 1]|] == ups[i - 1];
    assert i < |ups| ==> ups[i][..0] == [];
  }

  lemma {:induction false} ListCounts(ups: Upstreams, u: nat, i: nat, j: nat, d: nat)
    requires d < |ups| && if i < |ups| then j <= |ups[i]| else i == |ups| && j == 0
    ensures multiset(ListAfter(ups, u, i, j))[d] == CountAfter(ups, u, i, j, d)
    decreases i, j
  {
    if j > 0 {
      hide CountAfter;
      ListCounts(ups, u, i, j - 1, d);
      CountOneMore(ups, u, i, j, d);
      var before := ListAfter(ups, u, i, j - 1);
      assert before + [] == before;
      CountAppend(before, i, d);
    } else if i > 0 {
      hide CountAfter;
      ListCounts(ups, u, i - 1, |ups[i - 1]|, d);
      CountNextNode(ups, u, i, d);
      assert ListAfter(ups, u, i, j) == ListAfter(ups, u, i - 1, |ups[i - 1]|);
    }
  }

  lemma ListsFormTable(ups: Upstreams, downs: seq<seq<nat>>)
    requires |downs| == |ups| && forall u :: 0 <= u < |ups| ==> downs[u] == ListAfter(ups, u, |ups|, 0)
    ensures DownstreamTable(ups, downs)
  {
    forall u | 0 <= u < |ups| ensures OrderedUpTo(downs[u], |ups| - 1) {
      ListIsOrdered(ups, u, |ups|, 0);
    }
    forall u, d | 0 <= u < |ups| && 0 <= d < |ups| ensures multiset(downs[u])[d] == multiset(ups[d])[u] {
      ListCounts(ups, u, |ups|, 0, d);
    }
  }

  /** The library's wait: some non-empty part of the pool is done. Nothing else is known about which. */
  method Wait(pool: set<nat>) returns (done: set<nat>)
    requires pool != {}
    ensures done != {} && done <= pool
  {
    var n :| n in pool;
    done := {n};
  }

  class RunState {
    const ups: Upstreams
    const names: seq<string>
    var remaining: seq<int>
    var downstreams: seq<seq<nat>>
    var outcomes: map<nat, NodeOutcome>
    var nodeReports: map<nat, NodeReport>
    var inFlight: set<nat>
    ghost var log: seq<Event>
    ghost var edges: multiset<(nat, nat)>   // edges examined so far

    /** The fields agree with each other; popped holds the node taken from the pool and not yet absorbed. */
    ghost predicate Steady(popped: set<nat>)
      reads this
    {
      && Acyclic(ups)
      && Consistent(ups, names, nodeReports)
      && |remaining| == |downstreams| == |names| == |ups|
      && DownstreamTable(ups, downstreams)
      && OutcomesMatch()
      && Counted(ups, remaining, nodeReports)
      && popped <= Runnable(ups, nodeReports)
      && inFlight == Runnable(ups, nodeReports) - popped
      && Legal(ups, log)
      && Records(log, nodeReports, inFlight + popped)
      && Examined(ups, edges, nodeReports)
    }

    ghost predicate OutcomesMatch()
      reads this
    {
      && outcomes.Keys == nodeReports.Keys
      && forall n :: n in nodeReports ==> outcomes[n] == nodeReports[n].outcome
    }

    constructor (ups: Upstreams, names: seq<string>)
      requires Acyclic(ups) && |names| == |ups|
      ensures this.ups == ups && this.names == names && Untouched()
    {
      this.ups, this.names := ups, names;
      new;
      remaining := seq(|ups|, i requires 0 <= i < |ups| => |ups[i]|);
      downstreams := BuildDownstreams(ups);
      outcomes, nodeReports, inFlight := map[], map[], {};
      log, edges := [], multiset{};
    }

    ghost predicate Untouched()
      reads this
    {
      && |remaining| == |downstreams| == |ups|
      && (forall i :: 0 <= i < |ups| ==> remaining[i] == |ups[i]|)
      && DownstreamTable(ups, downstreams)
      && outcomes == map[] && nodeReports == map[] && inFlight == {} && log == [] && edges == multiset{}
    }

    method Submit(n: nat)
      requires n < |ups| && n !in inFlight && n !in nodeReports
      requires Acyclic(ups) && Legal(ups, log) && Records(log, nodeReports, inFlight)
      requires forall a :: Ancestor(ups, a, n) ==> Good(nodeReports, a)
      modifies `inFlight, `log
      ensures inFlight == old(inFlight) + {n} && log == old(log) + [Submitted(n)]
      ensures Legal(ups, log) && Records(log, nodeReports, inFlight)
    {
      RecordSubmitted(ups, log, nodeReports, inFlight, n);
      inFlight := inFlight + {n};
      log := log + [Submitted(n)];
    }

    /** Appends the nodes to the queue one by one. */
    method Enqueue(queue: seq<nat>, more: seq<nat>) returns (longer: seq<nat>)
      ensures longer == queue + more
    {
      longer := queue;
      for j := 0 to |more|
        invariant longer == queue + more[..j]
      {
        longer := longer + [more[j]];
      }
      assert more[..|more|] == more;
    }

    /** Gives d the blocked outcome and the blocked report. */
    method Block(d: nat, ghost failed: nat)
      requires d < |names| && d !in nodeReports && d !in inFlight && OutcomesMatch()
      requires FailedAt(nodeReports, failed) && Ancestor(ups, failed, d)
      requires Legal(ups, log) && Records(log, nodeReports, inFlight)
      modifies `outcomes, `nodeReports, `log
      ensures nodeReports == old(nodeReports)[d := BlockedReport(names[d])] && OutcomesMatch()
      ensures Legal(ups, log) && Records(log, nodeReports, inFlight)
    {
      hide Ancestor, Legal, Records;
      RecordBlocked(ups, log, nodeReports, inFlight, failed, d, names[d]);
      outcomes := outcomes[d := Blocked];
      nodeReports := nodeReports[d := BlockedReport(names[d])];
      log := log + [BlockedOut(d)];
    }

    /** Blocks every unreported descendant of a failed node, breadth first, and nothing else. Nodes in
        flight are left alone, and stopping at nodes that already have an outcome loses no descendant. */
    method MarkBlocked(startNode: nat, ghost before: Reports)
      requires Acyclic(ups) && Consistent(ups, names, before) && DownstreamTable(ups, downstreams)
      requires |names| == |downstreams| == |ups| && startNode < |ups|
      requires startNode in Runnable(ups, before) && inFlight == Runnable(ups, before) - {startNode}
      requires FailedAt(nodeReports, startNode) && nodeReports == before[startNode := nodeReports[startNode]]
      requires OutcomesMatch()
      requires Legal(ups, log) && Records(log, nodeReports, inFlight)
      requires Examined(ups, edges, before)
      modifies `outcomes, `nodeReports, `log, `edges
      ensures nodeReports == Absorbed(ups, names, before, startNode, old(nodeReports)[startNode])
      ensures OutcomesMatch()
      ensures Legal(ups, log) && Records(log, nodeReports, inFlight)
      ensures Examined(ups, edges, nodeReports)
    {
      hide Acyclic, Consistent, Ancestor, Legal, Records, Searching, Examined, Queued, DownstreamTable, OutOf,
          Absorbed;
      ghost var report := nodeReports[startNode];
      var queue := downstreams[startNode];
      ghost var pending := OutOf(startNode, queue);
      SearchStart(ups, names, downstreams, before, startNode, report);
      QueueFirst(ups, downstreams, edges, before, startNode, report);
      while queue != []
        invariant FailedAt(nodeReports, startNode)
        invariant Searching(ups, names, before, startNode, report, nodeReports, queue)
        invariant Queued(ups, edges, pending, queue, nodeReports)
        invariant OutcomesMatch()
        invariant Legal(ups, log) && Records(log, nodeReports, inFlight)
        decreases Unreported(ups, nodeReports), |queue|
      {
        var d := queue[0];
        DequeueEdge(ups, edges, pending, queue, nodeReports);
        edges, pending := edges + multiset{pending[0]}, pending[1..];
        if d in outcomes {
          SearchSkip(ups, names, before, startNode, report, nodeReports, queue);
          queue := queue[1..];
          continue;
        }
        SearchVisit(ups, names, downstreams, before, startNode, report, nodeReports, queue);
        queue := queue[1..];
        EnqueueEdges(ups, downstreams, edges, pending, queue, nodeReports, d, BlockedReport(names[d]));
        UnreportedShrinks(ups, nodeReports, nodeReports[d := BlockedReport(names[d])], d);
        Block(d, startNode);
        queue := Enqueue(queue, downstreams[d]);
        pending := pending + OutOf(d, downstreams[d]);
      }
      SearchEnd(ups, names, before, startNode, report, nodeReports);
      QueueDrained(ups, edges, pending, nodeReports);
    }

    /** The decrement loop for a node that completed well. */
    method ReleaseDownstreams(node: nat, ghost before: Reports)
      requires Acyclic(ups) && Consistent(ups, names, nodeReports) && DownstreamTable(ups, downstreams)
      requires node in Runnable(ups, before) && inFlight == Runnable(ups, before) - {node}
      requires Good(nodeReports, node) && nodeReports == before[node := nodeReports[node]]
      requires OutcomesMatch() && |remaining| == |downstreams| == |ups| && node < |ups|
      requires Counted(ups, remaining, before)
      requires Legal(ups, log) && Records(log, nodeReports, inFlight)
      requires Examined(ups, edges, before)
      modifies `remaining, `inFlight, `log, `edges
      ensures |remaining| == |ups| && Counted(ups, remaining, nodeReports) && inFlight == Runnable(ups, nodeReports)
      ensures Legal(ups, log) && Records(log, nodeReports, inFlight)
      ensures Examined(ups, edges, nodeReports)
    {
      hide Acyclic, Consistent, Ancestor, Legal, Records, Releasing, Examined, Counted;
      ghost var edgesBefore := edges;
      var targets := downstreams[node];
      ReleaseStart(ups, downstreams, remaining, before, node, nodeReports[node]);
      for j := 0 to |targets|
        invariant |remaining| == |ups|
        invariant Releasing(ups, downstreams, nodeReports, node, remaining, inFlight, j)
        invariant Legal(ups, log) && Records(log, nodeReports, inFlight)
        invariant edges == edgesBefore + multiset(OutOf(node, targets)[..j])
      {
        var d := targets[j];
        assert d in downstreams[node];
        ReleaseStep(ups, downstreams, nodeReports, node, remaining, inFlight, j);
        assert OutOf(node, targets)[..j + 1] == OutOf(node, targets)[..j] + [(node, d)];
        edges := edges + multiset{(node, d)};
        if d in outcomes {
          continue;
        }
        remaining := remaining[d := remaining[d] - 1];
        if remaining[d] == 0 {
          NewlyRunnable(ups, names, nodeReports, d);
          Submit(d);
        }
      }
      assert OutOf(node, targets)[..|targets|] == OutOf(node, targets);
      ExamineNode(ups, downstreams, edgesBefore, before, node, nodeReports[node]);
      ReleaseEnd(ups, downstreams, nodeReports, node, remaining, inFlight);
    }

    /** Records the outcome and the report of a node taken from the pool. */
    method Report(node: nat, report: NodeReport)
      requires OutcomesMatch() && node !in nodeReports && node !in inFlight && report.outcome != Blocked
      requires Legal(ups, log) && Records(log, nodeReports, inFlight + {node})
      modifies `outcomes, `nodeReports, `log
      ensures nodeReports == old(nodeReports)[node := report] && OutcomesMatch()
      ensures Legal(ups, log) && Records(log, nodeReports, inFlight)
    {
      hide Legal, Records;
      RecordCompleted(ups, log, nodeReports, inFlight, node, report);
      outcomes := outcomes[node := report.outcome];
      nodeReports := nodeReports[node := report];
      log := log + [Completed(node, !EngineFailure(report.outcome))];
    }

    /** Absorbs the report of a node taken from the pool: the fields follow the abstract effect on the
        reports, and exactly the newly runnable nodes are submitted. */
    method AbsorbCompletion(node: nat, report: NodeReport)
      requires Steady({node}) && report.outcome != Blocked
      modifies this
      ensures Steady({})
      ensures nodeReports == Absorbed(ups, names, old(nodeReports), node, report)
      ensures AbsorbedInto(ups, names, old(nodeReports), node, report, nodeReports)
      ensures InFlightExactly(ups, nodeReports, inFlight)
    {
      hide Acyclic, Consistent, Ancestor, Legal, Records, Examined, DownstreamTable, Counted, Absorbed, AbsorbedInto,
          InFlightExactly;
      ghost var before := nodeReports;
      AbsorbsExactly(ups, names, before, node, report);
      AbsorbRunsOne(ups, names, before, node, report);
      AbsorbKeepsConsistent(ups, names, before, node, report);
      Report(node, report);
      hide OutcomesMatch;
      if EngineFailure(report.outcome) {
        MarkBlocked(node, before);
        CountedAfterBlocking(ups, names, remaining, before, node, report);
        BlockingFreesNothing(ups, names, before, nodeReports, node, report);
      } else {
        ReleaseDownstreams(node, before);
      }
      RunnableExactly(ups, nodeReports);
      assert inFlight + {} == inFlight;
    }

    /** Every node that ran has the report run gives. */
    ghost predicate RanBy(run: nat -> NodeReport)
      reads this
    {
      forall n: nat :: RanAt(nodeReports, n) ==> nodeReports[n] == run(n)
    }

    /** Runs everything. Each wait returns an arbitrary non-empty part of the pool and its nodes are absorbed
        in an arbitrary order; run gives the report of each node that is run. */
    method DrivePool(run: nat -> NodeReport)
      requires Acyclic(ups) && |names| == |ups| && Untouched()
      requires forall n :: run(n).outcome != Blocked
      modifies this
      ensures Steady({}) && inFlight == {} && RanBy(run)
    {
      hide Steady, RanBy;
      SubmitRoots(run);
      while inFlight != {}
        invariant Steady({}) && RanBy(run)
        decreases Unreported(ups, nodeReports)
      {
        var done := Wait(inFlight);
        ghost var wave, left := done, Unreported(ups, nodeReports);
        while done != {}
          invariant Steady({}) && RanBy(run) && done <= inFlight
          invariant Unreported(ups, nodeReports) < left || (done == wave && Unreported(ups, nodeReports) == left)
          decreases done
        {
          var node :| node in done;
          done := done - {node};
          AbsorbDone(node, run);
        }
      }
    }

    /** One turn of the inner loop: take a done node from the pool and absorb its report. */
    method AbsorbDone(node: nat, run: nat -> NodeReport)
      requires Steady({}) && RanBy(run) && node in inFlight
      requires run(node).outcome != Blocked
      modifies this
      ensures Steady({}) && RanBy(run)
      ensures old(inFlight) - {node} <= inFlight
      ensures Unreported(ups, nodeReports) < old(Unreported(ups, nodeReports))
      ensures nodeReports == Absorbed(ups, names, old(nodeReports), node, run(node))
    {
      hide Acyclic, Consistent, Ancestor, Legal, Records, Examined, DownstreamTable, Counted, Absorbed, AbsorbedInto,
          InFlightExactly;
      ghost var pool, before := inFlight, nodeReports;
      inFlight := inFlight - {node};
      assert inFlight + {node} == pool == pool + {};
      AbsorbRunsOne(ups, names, before, node, run(node));
      OthersStayRunnable(ups, names, before, node, run(node));
      UnreportedShrinks(ups, before, Absorbed(ups, names, before, node, run(node)), node);
      AbsorbCompletion(node, run(node));
    }

    /** Submits the nodes without upstreams. */
    method SubmitRoots(ghost run: nat -> NodeReport)
      requires Acyclic(ups) && |names| == |ups| && Untouched()
      modifies `inFlight, `log
      ensures Steady({}) && RanBy(run)
    {
      for n := 0 to |ups|
        invariant forall d: nat :: d in inFlight <==> d < n && remaining[d] == 0
        invariant Legal(ups, log) && Records(log, map[], inFlight)
      {
        if remaining[n] == 0 {
          forall a | Ancestor(ups, a, n) ensures false {
            var u := AncestorVia(ups, a, n);
          }
          Submit(n);
        }
      }
      InitiallyCounted(ups, remaining);
      assert inFlight == Runnable(ups, map[]) - {};
      assert inFlight + {} == inFlight;
    }

    /** The reports in registration order; a node without one would be listed as blocked. */
    method CollectReports() returns (reports: seq<NodeReport>)
      requires |names| == |ups|
      ensures |reports| == |ups|
      ensures forall n :: 0 <= n < |ups| ==>
                reports[n] == if n in nodeReports then nodeReports[n] else BlockedReport(names[n])
    {
      reports := [];
      for n := 0 to |ups|
        invariant |reports| == n
        invariant forall k :: 0 <= k < n ==>
                    reports[k] == if k in nodeReports then nodeReports[k] else BlockedReport(names[k])
      {
        reports := reports + [if n in nodeReports then nodeReports[n] else BlockedReport(names[n])];
      }
    }

    /** What holds once nothing is in flight. */
    lemma RunIsOver(run: nat -> NodeReport)
      requires Steady({}) && inFlight == {} && RanBy(run)
      ensures Acyclic(ups) && |names| == |ups|
      ensures forall n :: 0 <= n < |ups| ==>
                n in nodeReports && nodeReports[n] == SequentialPass(ups, names, run, |ups|)[n]
      ensures Legal(ups, log)
      ensures forall n: nat {:trigger Submitted(n)} :: Submitted(n) in log <==> RanAt(nodeReports, n)
      ensures edges == Edges(ups) && |edges| == EntryCount(ups)
    {
      hide Acyclic, Ancestor, Legal, Examined, DownstreamTable, Counted;
      assert Runnable(ups, nodeReports) == {};
      CompleteRunIsSequential(ups, names, nodeReports, run);
      AllEdgesExamined(ups, edges, nodeReports);
    }

    /** Who was run, and what is reported, in a run that is over. */
    lemma RunsAndReports(run: nat -> NodeReport, reports: seq<NodeReport>)
      requires Steady({}) && inFlight == {} && RanBy(run)
      requires |reports| == |ups| && forall n :: 0 <= n < |ups| ==> n in nodeReports && reports[n] == nodeReports[n]
      ensures |names| == |ups| && forall n: nat :: n < |ups| ==>
                && (Submitted(n) in log <==> !FailedAbove(ups, reports, n))
                && reports[n] ==
                     if FailedAbove(ups, reports, n) then NodeReport(names[n], Blocked, None, None, None, None)
                     else run(n)
    {
      hide Acyclic, Ancestor, Legal, Examined, DownstreamTable, Counted, FailedAbove, Consistent;
      forall n: nat | n < |ups|
        ensures Submitted(n) in log <==> !FailedAbove(ups, reports, n)
        ensures reports[n] == if FailedAbove(ups, reports, n) then NodeReport(names[n], Blocked, None, None, None, None)
                              else run(n)
      {
        RunsExactly(ups, names, nodeReports, run, reports, n);
      }
    }
  }
}
