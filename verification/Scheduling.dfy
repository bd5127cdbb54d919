/** What the ready-count scheduler means. Its abstract state is the set of reports so far: the nodes in
    flight and the counters are determined by them. The reference is one sequential pass in registration
    order. */
module Scheduling {
  import opened Outcomes
  import opened Dag

  type Reports = map<nat, NodeReport>

  predicate Good(reports: Reports, u: nat) {
    u in reports && !Failing(reports[u].outcome)
  }

  predicate Bad(reports: Reports, u: nat) {
    u in reports && Failing(reports[u].outcome)
  }

  predicate BlockedAt(reports: Reports, n: nat) {
    n in reports && reports[n].outcome == Blocked
  }

  predicate FailedAt(reports: Reports, n: nat) {
    n in reports && EngineFailure(reports[n].outcome)
  }

  /** n was run: it is reported and was not blocked. */
  predicate RanAt(reports: Reports, n: nat) {
    n in reports && reports[n].outcome != Blocked
  }

  function GoodNodes(reports: Reports): set<nat> {
    set n | n in reports && Good(reports, n)
  }

  /** The unreported nodes all of whose upstreams were absorbed without failing. */
  function Runnable(ups: Upstreams, reports: Reports): set<nat> {
    set d: nat | d < |ups| && d !in reports && forall u :: u in ups[d] ==> Good(reports, u)
  }

  /** The invariant between two absorptions: blocking is closed downstream and has a cause, and
      everything that ran had only good upstreams. */
  ghost predicate Consistent(ups: Upstreams, names: seq<string>, reports: Reports) {
    && |names| == |ups|
    && (forall n :: n in reports ==> n < |ups|)
    && (forall n: nat {:trigger BlockedAt(reports, n)} :: BlockedAt(reports, n) ==>
          && reports[n] == BlockedReport(names[n])
          && exists u :: u in ups[n] && Bad(reports, u))
    && (forall n: nat, u {:trigger u in ups[n]} :: RanAt(reports, n) && u in ups[n] ==> Good(reports, u))
    && (forall d, u {:trigger u in ups[d]} :: 0 <= d < |ups| && d !in reports && u in ups[d] ==> !Bad(reports, u))
  }

  /** The unreported descendants of n. */
  ghost function Descendants(ups: Upstreams, reports: Reports, n: nat): set<nat>
  {
    set d: nat | d < |ups| && d !in reports && Ancestor(ups, n, d)
  }

  /** The effect of absorbing one completed node on the reports. */
  ghost function Absorbed(ups: Upstreams, names: seq<string>, reports: Reports, n: nat, r: NodeReport): Reports
    requires |names| == |ups|
  {
    var own := reports[n := r];
    if EngineFailure(r.outcome) then
      own + map d | d in Descendants(ups, own, n) :: BlockedReport(names[d])
    else own
  }

  /** A node that is ready or that ran has only good ancestors. */
  lemma {:induction false} RanAfterGoodAncestors(ups: Upstreams, names: seq<string>, reports: Reports, n: nat, a: nat)
    requires Acyclic(ups) && Consistent(ups, names, reports) && Ancestor(ups, a, n)
    requires n in Runnable(ups, reports) || RanAt(reports, n)
    ensures Good(reports, a)
    decreases n
  {
    var u := AncestorVia(ups, a, n);
    assert Good(reports, u);
    if u != a {
      RanAfterGoodAncestors(ups, names, reports, u, a);
    }
  }

  /** A failed or blocked ancestor has blocked everything below it. */
  lemma {:induction false} FailureSpreads(ups: Upstreams, names: seq<string>, reports: Reports, a: nat, d: nat)
    requires Acyclic(ups) && Consistent(ups, names, reports) && Ancestor(ups, a, d)
    requires Bad(reports, a)
    ensures BlockedAt(reports, d)
    decreases d
  {
    var u := AncestorVia(ups, a, d);
    if u != a {
      FailureSpreads(ups, names, reports, a, u);
    }
    assert Bad(reports, u);
  }

  lemma {:induction false} BlockedHasFailedAncestor(ups: Upstreams, names: seq<string>, reports: Reports, d: nat)
      returns (a: nat)
    requires Acyclic(ups) && Consistent(ups, names, reports)
    requires BlockedAt(reports, d)
    ensures Ancestor(ups, a, d) && FailedAt(reports, a)
    decreases d
  {
    var u :| u in ups[d] && Bad(reports, u);
    if BlockedAt(reports, u) {
      a := BlockedHasFailedAncestor(ups, names, reports, u);
    } else {
      a := u;
    }
    AncestorFromUpstream(ups, a, u, d);
  }

  /** The blocked nodes are exactly the strict descendants of the nodes that were assessed as invalid or whose
      transition failed, and a blocked report says nothing but that. */
  lemma BlockedExactly(ups: Upstreams, names: seq<string>, reports: Reports, d: nat)
    requires Acyclic(ups) && Consistent(ups, names, reports)
    ensures d in reports && reports[d].outcome == Blocked <==>
              exists a :: && Ancestor(ups, a, d) && a in reports
                          && reports[a].outcome in {FailedInvalid, FailedTransition}
    ensures d in reports && reports[d].outcome == Blocked ==>
              d < |names| && reports[d] == NodeReport(names[d], Blocked, None, None, None, None)
  {
    if a :| Ancestor(ups, a, d) && a in reports && reports[a].outcome in {FailedInvalid, FailedTransition} {
      FailureSpreads(ups, names, reports, a, d);
    }
    if BlockedAt(reports, d) {
      var a := BlockedHasFailedAncestor(ups, names, reports, d);
      assert reports[a].outcome in {FailedInvalid, FailedTransition};
    }
  }

  /** No failed node lies above another: the nodes that ran and failed form an antichain. */
  lemma FailuresFormAntichain(ups: Upstreams, names: seq<string>, reports: Reports, a: nat, b: nat)
    requires Acyclic(ups) && Consistent(ups, names, reports)
    requires FailedAt(reports, a) && FailedAt(reports, b)
    ensures !Ancestor(ups, a, b)
  {
    if Ancestor(ups, a, b) {
      FailureSpreads(ups, names, reports, a, b);
    }
  }

  lemma AbsorbKeepsConsistent(ups: Upstreams, names: seq<string>, reports: Reports, n: nat, r: NodeReport)
    requires Acyclic(ups) && Consistent(ups, names, reports)
    requires n in Runnable(ups, reports) && r.outcome != Blocked
    ensures Consistent(ups, names, Absorbed(ups, names, reports, n, r))
  {
    var own := reports[n := r];
    var after := Absorbed(ups, names, reports, n, r);
    forall d: nat | BlockedAt(after, d)
      ensures after[d] == BlockedReport(names[d])
      ensures exists u :: u in ups[d] && Bad(after, u)
    {
      if d in reports {
        assert BlockedAt(reports, d);
        var u :| u in ups[d] && Bad(reports, u);
        assert Bad(after, u);
      } else {
        var u := AncestorVia(ups, n, d);
        if RanAt(reports, u) {
          RanAfterGoodAncestors(ups, names, reports, u, n);
        }
        assert Bad(after, u);
      }
    }
    forall d: nat, u | RanAt(after, d) && u in ups[d]
      ensures Good(after, u)
    {
      assert Good(reports, u);
    }
    forall d, u | 0 <= d < |ups| && u in ups[d]
      ensures d !in after ==> !Bad(after, u)
    {
      if u !in reports && Bad(after, u) {
        AncestorFromUpstream(ups, n, u, d);
      }
    }
  }

  /** A failure makes no other node runnable and stops none that is in flight. */
  lemma BlockingFreesNothing(ups: Upstreams, names: seq<string>, reports: Reports, after: Reports, n: nat,
      r: NodeReport)
    requires Acyclic(ups) && Consistent(ups, names, reports) && n in Runnable(ups, reports)
    requires EngineFailure(r.outcome) && after == Absorbed(ups, names, reports, n, r)
    ensures Runnable(ups, after) == Runnable(ups, reports) - {n}
  {
    forall d ensures d in Runnable(ups, reports) - {n} ==> d in Runnable(ups, after) {
      if d in Runnable(ups, reports) && Ancestor(ups, n, d) {
        RanAfterGoodAncestors(ups, names, reports, d, n);
      }
    }
    forall d ensures d in Runnable(ups, after) ==> d in Runnable(ups, reports) - {n} {
      if d in Runnable(ups, after) {
        forall u | u in ups[d] ensures Good(reports, u) {
          assert Good(after, u);
        }
      }
    }
  }

  /** Absorbing one node leaves every other runnable node runnable. */
  lemma OthersStayRunnable(ups: Upstreams, names: seq<string>, reports: Reports, n: nat, r: NodeReport)
    requires Acyclic(ups) && Consistent(ups, names, reports) && n in Runnable(ups, reports) && r.outcome != Blocked
    ensures Runnable(ups, reports) - {n} <= Runnable(ups, Absorbed(ups, names, reports, n, r))
  {
    if EngineFailure(r.outcome) {
      BlockingFreesNothing(ups, names, reports, Absorbed(ups, names, reports, n, r), n, r);
    }
  }

  /** Absorbing one node changes no earlier report; besides the node's own report it adds only blocked ones. */
  lemma AbsorbRunsOne(ups: Upstreams, names: seq<string>, reports: Reports, n: nat, r: NodeReport)
    requires |names| == |ups| && n !in reports && r.outcome != Blocked
    ensures var after := Absorbed(ups, names, reports, n, r);
      && (forall m: nat :: m in reports || m == n ==> m in after)
      && (forall m: nat :: m in after ==>
            if m == n then after[m] == r
            else if m in reports then after[m] == reports[m]
            else BlockedAt(after, m))
    ensures !EngineFailure(r.outcome) ==> Absorbed(ups, names, reports, n, r) == reports[n := r]
  {
  }

  /** A report after absorbing a runnable node: an earlier one, the node's own, or blocked. */
  lemma AbsorbedAt(ups: Upstreams, names: seq<string>, reports: Reports, n: nat, r: NodeReport, d: nat)
    requires |names| == |ups|
    ensures var after := Absorbed(ups, names, reports, n, r);
      && (d in after <==> d in reports || d == n || (EngineFailure(r.outcome) && d < |ups| && Ancestor(ups, n, d)))
      && (d in after ==> after[d] == if d == n then r else if d in reports then reports[d] else BlockedReport(names[d]))
  {
  }

  /** after is reports with n's report r absorbed: r itself; every report that was there; and, if r says that n
      was assessed as invalid or failed its transition, an empty blocked report for each node below n that had
      none. */
  ghost predicate AbsorbedInto(ups: Upstreams, names: seq<string>, reports: Reports, n: nat, r: NodeReport,
      after: Reports)
    requires |names| == |ups|
  {
    forall d: nat ::
      && (d in after <==>
            || d in reports || d == n
            || (r.outcome in {FailedInvalid, FailedTransition} && d < |ups| && Ancestor(ups, n, d)))
      && (d in after ==>
            after[d] ==
              if d == n then r
              else if d in reports then reports[d]
              else if d < |names| then NodeReport(names[d], Blocked, None, None, None, None)
              else after[d])
  }

  /** The nodes in flight are those without a report all of whose upstreams have one that is no failure. */
  ghost predicate InFlightExactly(ups: Upstreams, reports: Reports, inFlight: set<nat>) {
    forall d: nat :: d in inFlight <==>
      && d < |ups| && d !in reports
      && forall u :: u in ups[d] ==>
           u in reports && reports[u].outcome in {Success, SkippedAlreadyApplied, SkippedByTransition}
  }

  lemma AbsorbsExactly(ups: Upstreams, names: seq<string>, reports: Reports, n: nat, r: NodeReport)
    requires |names| == |ups|
    ensures AbsorbedInto(ups, names, reports, n, r, Absorbed(ups, names, reports, n, r))
  {
    forall d: nat {
      AbsorbedAt(ups, names, reports, n, r, d);
    }
  }

  lemma RunnableExactly(ups: Upstreams, reports: Reports)
    ensures InFlightExactly(ups, reports, Runnable(ups, reports))
  {
  }

  /** The order in which two nodes in flight are absorbed leaves no trace in the reports. */
  lemma AbsorptionsCommute(ups: Upstreams, names: seq<string>, reports: Reports, n: nat, r: NodeReport, m: nat,
      q: NodeReport)
    requires Acyclic(ups) && Consistent(ups, names, reports) && n != m
    requires n in Runnable(ups, reports) && m in Runnable(ups, reports)
    requires r.outcome != Blocked && q.outcome != Blocked
    ensures Absorbed(ups, names, Absorbed(ups, names, reports, n, r), m, q)
         == Absorbed(ups, names, Absorbed(ups, names, reports, m, q), n, r)
  {
    if Ancestor(ups, n, m) {
      RanAfterGoodAncestors(ups, names, reports, m, n);
    }
    if Ancestor(ups, m, n) {
      RanAfterGoodAncestors(ups, names, reports, n, m);
    }
    hide Acyclic, Consistent, Absorbed, Ancestor;
    var first, second := Absorbed(ups, names, reports, n, r), Absorbed(ups, names, reports, m, q);
    var a, b := Absorbed(ups, names, first, m, q), Absorbed(ups, names, second, n, r);
    forall d: nat
      ensures (d in a <==> d in b) && (d in a ==> a[d] == b[d])
    {
      AbsorbedAt(ups, names, reports, n, r, d);
      AbsorbedAt(ups, names, reports, m, q, d);
      AbsorbedAt(ups, names, first, m, q, d);
      AbsorbedAt(ups, names, second, n, r, d);
    }
    assert a.Keys == b.Keys;
  }

  /** Once nothing is in flight every node has a report. */
  lemma {:induction false} QuietMeansComplete(ups: Upstreams, names: seq<string>, reports: Reports, d: nat)
    requires Acyclic(ups) && Consistent(ups, names, reports)
    requires Runnable(ups, reports) == {} && d < |ups|
    ensures d in reports
    decreases d
  {
    forall u | d !in reports && u in ups[d] ensures Good(reports, u) {
      QuietMeansComplete(ups, names, reports, u);
    }
    assert d in reports || d in Runnable(ups, reports);
  }

  /** The reference: visit the nodes in registration order, run a node when none of its upstreams failed
      and block it otherwise. */
  function SequentialPass(ups: Upstreams, names: seq<string>, run: nat -> NodeReport, k: nat): (r: seq<NodeReport>)
    requires Acyclic(ups) && |names| == |ups| && k <= |ups|
    ensures |r| == k
  {
    if k == 0 then []
    else
      var before := SequentialPass(ups, names, run, k - 1);
      before + [if NoneFailed(before, ups[k - 1]) then run(k - 1) else BlockedReport(names[k - 1])]
  }

  predicate NoneFailed(before: seq<NodeReport>, upstreams: seq<nat>)
    requires forall u :: u in upstreams ==> u < |before|
  {
    forall u :: u in upstreams ==> !Failing(before[u].outcome)
  }

  /** Whatever order completions were absorbed in, each report is the sequential one. */
  lemma {:induction false} ReportsAreSequential(ups: Upstreams, names: seq<string>, reports: Reports,
      run: nat -> NodeReport, k: nat)
    requires Acyclic(ups) && Consistent(ups, names, reports) && k <= |ups|
    requires forall n :: RanAt(reports, n) ==> reports[n] == run(n)
    ensures forall n :: 0 <= n < k && n in reports ==> reports[n] == SequentialPass(ups, names, run, k)[n]
  {
    if k > 0 {
      ReportsAreSequential(ups, names, reports, run, k - 1);
      var before := SequentialPass(ups, names, run, k - 1);
      var n := k - 1;
      if BlockedAt(reports, n) {
        var u :| u in ups[n] && Bad(reports, u);
        assert !NoneFailed(before, ups[n]);
      } else if n in reports {
        forall u | u in ups[n] ensures !Failing(before[u].outcome) {
          assert Good(reports, u);
        }
        assert NoneFailed(before, ups[n]);
      }
    }
  }

  /** At the end of a run: reports in registration order, equal to the sequential pass. */
  lemma CompleteRunIsSequential(ups: Upstreams, names: seq<string>, reports: Reports, run: nat -> NodeReport)
    requires Acyclic(ups) && Consistent(ups, names, reports) && Runnable(ups, reports) == {}
    requires forall n :: RanAt(reports, n) ==> reports[n] == run(n)
    ensures forall n :: 0 <= n < |ups| ==> n in reports
    ensures forall n :: 0 <= n < |ups| ==> SequentialPass(ups, names, run, |ups|)[n] == reports[n]
  {
    forall n | 0 <= n < |ups| ensures n in reports {
      QuietMeansComplete(ups, names, reports, n);
    }
    ReportsAreSequential(ups, names, reports, run, |ups|);
  }

  /** ok says that no node was assessed as invalid and no transition failed; blocked never appears without
      one of these. */
  lemma OkIffNothingFailed(ups: Upstreams, names: seq<string>, reports: Reports, all: seq<NodeReport>)
    requires Acyclic(ups) && Consistent(ups, names, reports) && |all| == |ups|
    requires forall n :: 0 <= n < |ups| ==> n in reports && all[n] == reports[n]
    ensures EngineResult(all).Ok() <==>
              forall n :: 0 <= n < |ups| ==> all[n].outcome != FailedInvalid && all[n].outcome != FailedTransition
  {
    forall n: nat | n < |ups| && all[n].outcome == Blocked
      ensures exists a :: 0 <= a < |ups| && all[a].outcome in {FailedInvalid, FailedTransition}
    {
      BlockedExactly(ups, names, reports, n);
      var a: nat :| Ancestor(ups, a, n) && a in reports && reports[a].outcome in {FailedInvalid, FailedTransition};
      AncestorIsEarlier(ups, a, n);
      assert all[a].outcome in {FailedInvalid, FailedTransition};
    }
  }

  /** Above n a node was assessed as invalid, or its transition failed. */
  ghost predicate FailedAbove(ups: Upstreams, all: seq<NodeReport>, n: nat) {
    exists a: nat :: a < |all| && Ancestor(ups, a, n) && all[a].outcome in {FailedInvalid, FailedTransition}
  }

  /** The nodes below such a one are exactly those that are not run, and their reports say no more than
      that; every other report is that of the node's run. */
  lemma RunsExactly(ups: Upstreams, names: seq<string>, reports: Reports, run: nat -> NodeReport,
      all: seq<NodeReport>, n: nat)
    requires Acyclic(ups) && Consistent(ups, names, reports) && |all| == |ups| && n < |ups|
    requires forall k :: 0 <= k < |ups| ==> k in reports && all[k] == reports[k]
    requires forall k :: RanAt(reports, k) ==> reports[k] == run(k)
    ensures all[n].outcome == Blocked <==> FailedAbove(ups, all, n)
    ensures all[n] == if FailedAbove(ups, all, n) then NodeReport(names[n], Blocked, None, None, None, None) else run(n)
  {
    BlockedExactly(ups, names, reports, n);
    forall a: nat | Ancestor(ups, a, n) ensures a < |ups| {
      AncestorIsEarlier(ups, a, n);
    }
  }
}
