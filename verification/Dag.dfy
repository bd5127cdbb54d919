/** The dependency multigraph. Nodes are numbered in registration order and node i lists its upstream
    entries in ups[i], repeats included. */
module Dag {
  type Upstreams = seq<seq<nat>>

  /** Every upstream was registered before the node that names it. */
  predicate Acyclic(ups: Upstreams) {
    forall i, u :: 0 <= i < |ups| && u in ups[i] ==> u < i
  }

  /** p leads from d up to a: each node of p, and finally a, is an upstream entry of the one before it. */
  predicate Chain(ups: Upstreams, a: nat, p: seq<nat>, d: nat) {
    && d < |ups|
    && if p == [] then a in ups[d] else p[0] in ups[d] && Chain(ups, a, p[1..], p[0])
  }

  /** a is a strict ancestor of d. */
  ghost predicate Ancestor(ups: Upstreams, a: nat, d: nat) {
    exists p :: Chain(ups, a, p, d)
  }

  /** The upstream entry of d through which a is reached. */
  lemma AncestorVia(ups: Upstreams, a: nat, d: nat) returns (u: nat)
    requires Ancestor(ups, a, d)
    ensures d < |ups| && u in ups[d] && (u == a || Ancestor(ups, a, u))
  {
    var p :| Chain(ups, a, p, d);
    if p == [] {
      u := a;
    } else {
      u := p[0];
      assert Chain(ups, a, p[1..], u);
    }
  }

  lemma AncestorFromUpstream(ups: Upstreams, a: nat, u: nat, d: nat)
    requires d < |ups| && u in ups[d] && (u == a || Ancestor(ups, a, u))
    ensures Ancestor(ups, a, d)
  {
    if Ancestor(ups, a, u) {
      var p :| Chain(ups, a, p, u);
      assert ([u] + p)[1..] == p;
      assert Chain(ups, a, [u] + p, d);
    } else {
      assert Chain(ups, a, [], d);
    }
  }

  lemma {:induction false} AncestorIsEarlier(ups: Upstreams, a: nat, d: nat)
    requires Acyclic(ups) && Ancestor(ups, a, d)
    ensures a < d < |ups|
    decreases d
  {
    var u := AncestorVia(ups, a, d);
    if u != a {
      AncestorIsEarlier(ups, a, u);
    }
  }

  lemma {:induction false} AncestorTransitive(ups: Upstreams, a: nat, b: nat, d: nat)
    requires Acyclic(ups) && Ancestor(ups, a, b) && Ancestor(ups, b, d)
    ensures Ancestor(ups, a, d)
    decreases d
  {
    var u := AncestorVia(ups, b, d);
    if u != b {
      AncestorTransitive(ups, a, b, u);
    }
    AncestorFromUpstream(ups, a, u, d);
  }

  /** Number of entries of s, repeats counted, that are outside ok. */
  function Unmet(s: seq<nat>, ok: set<nat>): nat {
    if s == [] then 0
    else (if s[0] in ok then 0 else 1) + Unmet(s[1..], ok)
  }

  lemma {:induction false} UnmetZero(s: seq<nat>, ok: set<nat>)
    ensures Unmet(s, ok) == 0 <==> forall u :: u in s ==> u in ok
  {
    if s != [] {
      UnmetZero(s[1..], ok);
      assert s == [s[0]] + s[1..];
    }
  }

  /** Meeting one more node lowers the count by that node's multiplicity. */
  lemma {:induction false} UnmetAfterMeeting(s: seq<nat>, ok: set<nat>, n: nat)
    requires n !in ok
    ensures Unmet(s, ok + {n}) == Unmet(s, ok) - multiset(s)[n]
  {
    if s != [] {
      UnmetAfterMeeting(s[1..], ok, n);
      assert s == [s[0]] + s[1..];
      assert multiset(s) == multiset{s[0]} + multiset(s[1..]);
    }
  }

  lemma {:induction false} UnmetDependsOnEntries(s: seq<nat>, ok: set<nat>, ok': set<nat>)
    requires forall u :: u in s ==> (u in ok <==> u in ok')
    ensures Unmet(s, ok) == Unmet(s, ok')
  {
    if s != [] {
      UnmetDependsOnEntries(s[1..], ok, ok');
    }
  }

  lemma {:induction false} UnmetOfNothing(s: seq<nat>)
    ensures Unmet(s, {}) == |s|
  {
    if s != [] {
      UnmetOfNothing(s[1..]);
    }
  }

  /** downs is the downstream table of ups: d is listed under u as often as u is listed as an upstream of d,
      in registration order. */
  ghost predicate DownstreamTable(ups: Upstreams, downs: seq<seq<nat>>) {
    && |downs| == |ups|
    && (forall u, d :: 0 <= u < |ups| && d in downs[u] ==> d < |ups|)
    && (forall u, d :: 0 <= u < |ups| && 0 <= d < |ups| ==> multiset(downs[u])[d] == multiset(ups[d])[u])
    && (forall u, j, k :: 0 <= u < |ups| && 0 <= j < k < |downs[u]| ==> downs[u][j] <= downs[u][k])
  }

  lemma DownstreamIffUpstream(ups: Upstreams, downs: seq<seq<nat>>, u: nat, d: nat)
    requires DownstreamTable(ups, downs) && u < |ups| && d < |ups|
    ensures d in downs[u] <==> u in ups[d]
  {
    assert d in downs[u] <==> multiset(downs[u])[d] > 0;
    assert u in ups[d] <==> multiset(ups[d])[u] > 0;
  }

  lemma DownstreamFacts(ups: Upstreams, downs: seq<seq<nat>>, u: nat)
    requires DownstreamTable(ups, downs) && u < |ups|
    ensures forall d :: d in downs[u] ==> d < |ups| && u in ups[d] && Ancestor(ups, u, d)
    ensures forall d :: 0 <= d < |ups| && u in ups[d] ==> d in downs[u]
  {
    forall d | 0 <= d < |ups| ensures d in downs[u] <==> u in ups[d] {
      DownstreamIffUpstream(ups, downs, u, d);
    }
    forall d | d in downs[u] ensures Ancestor(ups, u, d) {
      AncestorFromUpstream(ups, u, u, d);
    }
  }

  /** Every edge of the multigraph, as (upstream, downstream) pairs with multiplicity. */
  function Edges(ups: Upstreams): multiset<(nat, nat)> {
    if ups == [] then multiset{}
    else Edges(ups[..|ups| - 1]) + Into(ups[|ups| - 1], |ups| - 1)
  }

  function Into(entries: seq<nat>, d: nat): multiset<(nat, nat)> {
    if entries == [] then multiset{}
    else multiset{(entries[0], d)} + Into(entries[1..], d)
  }

  function EntryCount(ups: Upstreams): nat {
    if ups == [] then 0
    else EntryCount(ups[..|ups| - 1]) + |ups[|ups| - 1]|
  }

  lemma CountAppend<T>(s: seq<T>, x: T, y: T)
    ensures multiset(s + [x])[y] == multiset(s)[y] + if x == y then 1 else 0
  {
  }

  lemma {:induction false} IntoCounts(entries: seq<nat>, d: nat, x: nat, y: nat)
    ensures |Into(entries, d)| == |entries|
    ensures Into(entries, d)[(x, y)] == if y == d then multiset(entries)[x] else 0
  {
    if entries != [] {
      IntoCounts(entries[1..], d, x, y);
      assert entries == [entries[0]] + entries[1..];
      assert multiset(entries) == multiset{entries[0]} + multiset(entries[1..]);
    }
  }

  lemma {:induction false} EdgesCount(ups: Upstreams, x: nat, y: nat)
    ensures |Edges(ups)| == EntryCount(ups)
    ensures Edges(ups)[(x, y)] == if y < |ups| then multiset(ups[y])[x] else 0
  {
    if ups != [] {
      EdgesCount(ups[..|ups| - 1], x, y);
      IntoCounts(ups[|ups| - 1], |ups| - 1, x, y);
    }
  }
}
