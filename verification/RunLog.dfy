/** The history of a run as the driver sees it, and what makes a history legal. */
module RunLog {
  import opened Outcomes
  import opened Dag
  import opened Scheduling

  datatype Event = Submitted(n: nat) | Completed(n: nat, ok: bool) | BlockedOut(n: nat)

  /** e may follow past: a node is submitted at most once and after all its ancestors completed well,
      completes once and after its submission, and is blocked once, never after being submitted, and
      because an ancestor completed badly. */
  ghost predicate LegalNext(ups: Upstreams, past: seq<Event>, e: Event)
  {
    match e
    case Submitted(n) =>
      && n < |ups| && Submitted(n) !in past && BlockedOut(n) !in past
      && forall a :: Ancestor(ups, a, n) ==> Completed(a, true) in past
    case Completed(n, _) =>
      Submitted(n) in past && Completed(n, true) !in past && Completed(n, false) !in past
    case BlockedOut(n) =>
      && Submitted(n) !in past && BlockedOut(n) !in past
      && exists a :: Ancestor(ups, a, n) && Completed(a, false) in past
  }

  ghost predicate Legal(ups: Upstreams, log: seq<Event>) {
    log == [] || (Legal(ups, log[..|log| - 1]) && LegalNext(ups, log[..|log| - 1], log[|log| - 1]))
  }

  lemma LegalAppend(ups: Upstreams, log: seq<Event>, e: Event)
    requires Legal(ups, log) && LegalNext(ups, log, e)
    ensures Legal(ups, log + [e])
  {
    assert (log + [e])[..|log|] == log;
  }

  lemma {:induction false} LegalAt(ups: Upstreams, log: seq<Event>, j: nat)
    requires Legal(ups, log) && j < |log|
    ensures LegalNext(ups, log[..j], log[j])
  {
    if j < |log| - 1 {
      LegalAt(ups, log[..|log| - 1], j);
      assert log[..|log| - 1][..j] == log[..j];
    }
  }

  /** The log records exactly what the reports and the nodes in flight say. */
  ghost predicate Records(log: seq<Event>, reports: Reports, running: set<nat>) {
    && (forall n {:trigger Submitted(n)} :: Submitted(n) in log <==> n in running || RanAt(reports, n))
    && (forall n {:trigger Completed(n, true)} :: Completed(n, true) in log <==> Good(reports, n))
    && (forall n {:trigger Completed(n, false)} :: Completed(n, false) in log <==> FailedAt(reports, n))
    && (forall n {:trigger BlockedOut(n)} :: BlockedOut(n) in log <==> BlockedAt(reports, n))
  }

  lemma RecordBlocked(ups: Upstreams, log: seq<Event>, reports: Reports, running: set<nat>, a: nat, d: nat,
      name: string)
    requires Legal(ups, log) && Records(log, reports, running)
    requires d !in reports && d !in running && FailedAt(reports, a) && Ancestor(ups, a, d)
    ensures Legal(ups, log + [BlockedOut(d)])
    ensures Records(log + [BlockedOut(d)], reports[d := BlockedReport(name)], running)
  {
    assert Completed(a, false) in log;
    LegalAppend(ups, log, BlockedOut(d));
  }

  lemma RecordCompleted(ups: Upstreams, log: seq<Event>, reports: Reports, running: set<nat>, n: nat, r: NodeReport)
    requires Legal(ups, log) && Records(log, reports, running + {n})
    requires n !in reports && n !in running && r.outcome != Blocked
    ensures Legal(ups, log + [Completed(n, !EngineFailure(r.outcome))])
    ensures Records(log + [Completed(n, !EngineFailure(r.outcome))], reports[n := r], running)
  {
    LegalAppend(ups, log, Completed(n, !EngineFailure(r.outcome)));
  }

  lemma RecordSubmitted(ups: Upstreams, log: seq<Event>, reports: Reports, running: set<nat>, d: nat)
    requires Legal(ups, log) && Records(log, reports, running)
    requires d < |ups| && d !in reports && d !in running
    requires forall a :: Ancestor(ups, a, d) ==> Good(reports, a)
    ensures Legal(ups, log + [Submitted(d)])
    ensures Records(log + [Submitted(d)], reports, running + {d})
  {
    assert forall a :: Ancestor(ups, a, d) ==> Completed(a, true) in log;
    LegalAppend(ups, log, Submitted(d));
  }

  /** In a legal history a node is submitted at one place only, every ancestor completed well before that,
      and the node is blocked neither before nor after. */
  lemma {:induction false} SubmittedOnceAfterAncestors(ups: Upstreams, log: seq<Event>, n: nat, i: nat)
    requires Legal(ups, log)
    requires i < |log| && log[i] == Submitted(n)
    ensures forall j :: 0 <= j < |log| && log[j] == Submitted(n) ==> j == i
    ensures forall a :: Ancestor(ups, a, n) ==> Completed(a, true) in log[..i]
    ensures BlockedOut(n) !in log
  {
    LegalAt(ups, log, i);
    forall j | 0 <= j < |log| && i != j ensures log[j] != Submitted(n) && log[j] != BlockedOut(n) {
      LegalAt(ups, log, j);
      if i < j {
        assert log[..j][i] == log[i];
      } else {
        assert log[..i][j] == log[j];
      }
    }
  }
}
