/**
 The catalogue's join graph and the bounded breadth-first search for join paths
 (internal/catalog/join.go, load.go, overrides.go).
 */
module JoinSearch {

  /** A relation row between two tables; its declared confidence is 0 when unknown. */
  datatype Relation = Relation(base: string, reference: string, confidence: real)

  datatype Edge = Edge(from: string, to: string, relation: Relation, reversed: bool)

  type Graph = map<string, seq<Edge>>

  function Out(g: Graph, t: string): seq<Edge> {
    if t in g then g[t] else []
  }

  /** Edges are filed under the table they start from. */
  predicate Filed(g: Graph) {
    forall t, i :: t in g && 0 <= i < |g[t]| ==> g[t][i].from == t
  }

  // ---------------------------------------------------------------- paths

  predicate IsPath(g: Graph, from: string, to: string, p: seq<Edge>)
    decreases |p|
  {
    if p == [] then from == to
    else p[0] in Out(g, from) && p[0].from == from && IsPath(g, p[0].to, to, p[1..])
  }

  ghost predicate Reaches(g: Graph, from: string, to: string, bound: int) {
    exists p :: IsPath(g, from, to, p) && |p| <= bound
  }

  lemma {:induction false} PathSnoc(g: Graph, from: string, mid: string, p: seq<Edge>, e: Edge)
    requires IsPath(g, from, mid, p) && e in Out(g, mid) && e.from == mid
    ensures IsPath(g, from, e.to, p + [e])
    decreases |p|
  {
    if p == [] {
      assert (p + [e])[1..] == [];
    } else {
      PathSnoc(g, p[0].to, mid, p[1..], e);
      assert (p + [e])[1..] == p[1..] + [e];
    }
  }

  /** The edges of a path chain from its source to its target. */
  lemma {:induction false} PathChains(g: Graph, from: string, to: string, p: seq<Edge>)
    requires IsPath(g, from, to, p) && p != []
    ensures p[0].from == from && p[|p| - 1].to == to
    ensures forall i :: 0 <= i < |p| - 1 ==> p[i].to == p[i + 1].from
    decreases |p|
  {
    if |p| > 1 {
      PathChains(g, p[0].to, to, p[1..]);
      assert forall i :: 0 <= i < |p[1..]| ==> p[1..][i] == p[i + 1];
    }
  }

  // ---------------------------------------------------------------- breadth-first search

  datatype QueueNode = QueueNode(table: string, path: seq<Edge>)

  datatype SearchResult = SearchResult(found: bool, path: seq<Edge>)

  /** Every table that is filed in the graph or is the end of an edge. */
  function Tables(g: Graph): set<string> {
    g.Keys + set t, i | t in g && 0 <= i < |g[t]| :: g[t][i].to
  }

  ghost predicate QueueOk(g: Graph, from: string, q: seq<QueueNode>, dist: map<string, nat>) {
    && (forall i :: 0 <= i < |q| ==> IsPath(g, from, q[i].table, q[i].path))
    && (forall i :: 0 <= i < |q| ==> q[i].table in dist && dist[q[i].table] == |q[i].path|)
    && (forall i, j :: 0 <= i < j < |q| ==> |q[i].path| <= |q[j].path| <= |q[i].path| + 1)
  }

  /** Tables seen but not waiting are settled: what they lead to is seen, at most one step further away. */
  ghost predicate Settled(g: Graph, maxDepth: int, dist: map<string, nat>, t: string) {
    t in dist && (dist[t] < maxDepth ==>
      forall e :: e in Out(g, t) ==> e.to in dist && dist[e.to] <= dist[t] + 1)
  }

  ghost predicate Waiting(q: seq<QueueNode>, t: string) {
    exists i :: 0 <= i < |q| && q[i].table == t
  }

  /** The state of the search: every seen table waits in the queue, is settled, or is being expanded. */
  ghost predicate Searching(g: Graph, from: string, to: string, maxDepth: int,
                            q: seq<QueueNode>, dist: map<string, nat>, expanding: set<string>) {
    && from in dist && dist[from] == 0 && to !in dist
    && QueueOk(g, from, q, dist)
    && forall t :: t in dist ==> t in expanding || Waiting(q, t) || Settled(g, maxDepth, dist, t)
  }

  lemma {:induction false} Dequeue(g: Graph, from: string, to: string, maxDepth: int, q: seq<QueueNode>,
                                   dist: map<string, nat>)
    requires q != [] && Searching(g, from, to, maxDepth, q, dist, {})
    ensures Searching(g, from, to, maxDepth, q[1..], dist, {q[0].table})
    ensures forall i :: 0 <= i < |q[1..]| ==> |q[0].path| <= |q[1..][i].path| <= |q[0].path| + 1
  {
    forall t | t in dist && t != q[0].table && Waiting(q, t) ensures Waiting(q[1..], t) {
      var i :| 0 <= i < |q| && q[i].table == t;
      assert q[1..][i - 1].table == t;
    }
  }

  lemma {:induction false} Enqueue(g: Graph, from: string, to: string, maxDepth: int, q: seq<QueueNode>,
                                   dist: map<string, nat>,
                expanding: set<string>, cur: QueueNode, e: Edge)
    requires Searching(g, from, to, maxDepth, q, dist, expanding)
    requires IsPath(g, from, cur.table, cur.path) && e in Out(g, cur.table) && e.from == cur.table
    requires e.to !in dist && e.to != to
    requires forall i :: 0 <= i < |q| ==> |cur.path| <= |q[i].path| <= |cur.path| + 1
    ensures var node := QueueNode(e.to, cur.path + [e]);
            Searching(g, from, to, maxDepth, q + [node], dist[e.to := |node.path|], expanding)
  {
    var node := QueueNode(e.to, cur.path + [e]);
    var q', dist' := q + [node], dist[e.to := |node.path|];
    PathSnoc(g, from, cur.table, cur.path, e);
    forall t | t in dist' ensures t in expanding || Waiting(q', t) || Settled(g, maxDepth, dist', t) {
      if t == e.to {
        assert q'[|q|].table == t;
      } else if Waiting(q, t) {
        var i :| 0 <= i < |q| && q[i].table == t;
        assert q'[i].table == t;
      }
    }
  }

  /** If every table nearer than `near` is settled, a path shorter than that stays among the seen tables. */
  lemma {:induction false} PathStaysSeen(g: Graph, maxDepth: int, dist: map<string, nat>, near: int,
                                         t: string, to: string, p: seq<Edge>)
    requires t in dist && IsPath(g, t, to, p) && dist[t] + |p| <= near && near <= maxDepth
    requires forall u :: u in dist && dist[u] < near ==> Settled(g, maxDepth, dist, u)
    ensures to in dist
    decreases |p|
  {
    if p != [] {
      assert Settled(g, maxDepth, dist, t);
      PathStaysSeen(g, maxDepth, dist, near, p[0].to, to, p[1..]);
    }
  }

  lemma {:induction false} NothingNearer(g: Graph, from: string, to: string, maxDepth: int, q: seq<QueueNode>,
                                         dist: map<string, nat>,
                      expanding: set<string>, near: int)
    requires Searching(g, from, to, maxDepth, q, dist, expanding) && near <= maxDepth
    requires forall i :: 0 <= i < |q| ==> near <= |q[i].path|
    requires forall t :: t in expanding && t in dist ==> near <= dist[t]
    ensures forall p :: IsPath(g, from, to, p) ==> near < |p|
  {
    forall p | IsPath(g, from, to, p) ensures near < |p| {
      if |p| <= near {
        PathStaysSeen(g, maxDepth, dist, near, from, to, p);
      }
    }
  }

  /** The right answer: Found exactly when some path of at most maxDepth edges exists, and then with a shortest
      one. A table joined to itself is found at depth 0 whatever the bound. */
  ghost predicate Answers(g: Graph, from: string, to: string, maxDepth: int, r: SearchResult) {
    && (r.found <==> from == to || Reaches(g, from, to, maxDepth))
    && (r.found ==> IsPath(g, from, to, r.path))
    && (r.found ==> forall p :: IsPath(g, from, to, p) ==> |r.path| <= |p|)
  }

  method FindJoinPath(g: Graph, from: string, to: string, maxDepth: int) returns (r: SearchResult)
    requires Filed(g)
    ensures Answers(g, from, to, maxDepth, r)
  {
    if from == to {
      return SearchResult(true, []);
    }
    var q := [QueueNode(from, [])];
    var seen := {from};
    ghost var dist: map<string, nat> := map[from := 0];
    ghost var all := Tables(g) + {from};
    assert q[0].table == from;
    while |q| > 0
      invariant seen == dist.Keys <= all
      invariant Searching(g, from, to, maxDepth, q, dist, {})
      invariant |q| > 0 ==> forall t :: t in dist ==> dist[t] <= |q[0].path| + 1
      decreases all - seen, |q|
    {
      var cur := q[0];
      ghost var seen0, left := seen, |q|;
      Dequeue(g, from, to, maxDepth, q, dist);
      q := q[1..];
      if |cur.path| >= maxDepth {
        continue;
      }
      forall k | 0 <= k < |Out(g, cur.table)| ensures LeadsWithin(Out(g, cur.table)[k], cur.table, all) {
        EdgesLeadWithin(g, cur.table, k);
      }
      var hit, path;
      hit, path, q, seen, dist := Expand(g, from, to, maxDepth, cur, q, seen, dist, all);
      if hit {
        return SearchResult(true, path);
      }
      assert seen == seen0 ==> |q| < left;
    }
    NothingNearer(g, from, to, maxDepth, q, dist, {}, maxDepth);
    return SearchResult(false, []);
  }

  /** The search while one dequeued table is being expanded. */
  ghost predicate Expanding(g: Graph, from: string, to: string, maxDepth: int, cur: QueueNode,
                            q: seq<QueueNode>, dist: map<string, nat>) {
    && from != to && |cur.path| < maxDepth
    && IsPath(g, from, cur.table, cur.path) && cur.table in dist && dist[cur.table] == |cur.path|
    && Searching(g, from, to, maxDepth, q, dist, {cur.table})
    && (forall k :: 0 <= k < |q| ==> |cur.path| <= |q[k].path| <= |cur.path| + 1)
    && (forall t :: t in dist ==> dist[t] <= |cur.path| + 1)
  }

  lemma {:induction false} ExpandingEnqueue(g: Graph, from: string, to: string, maxDepth: int, cur: QueueNode,
                         q: seq<QueueNode>, dist: map<string, nat>, e: Edge)
    requires Expanding(g, from, to, maxDepth, cur, q, dist)
    requires e in Out(g, cur.table) && e.from == cur.table && e.to !in dist && e.to != to
    ensures Expanding(g, from, to, maxDepth, cur, q + [QueueNode(e.to, cur.path + [e])], dist[e.to := |cur.path + [e]|])
  {
    Enqueue(g, from, to, maxDepth, q, dist, {cur.table}, cur, e);
  }

  lemma {:induction false} ExpandingHit(g: Graph, from: string, to: string, maxDepth: int, cur: QueueNode,
                     q: seq<QueueNode>, dist: map<string, nat>, e: Edge)
    requires Expanding(g, from, to, maxDepth, cur, q, dist)
    requires e in Out(g, cur.table) && e.from == cur.table && e.to == to
    ensures IsPath(g, from, to, cur.path + [e]) && |cur.path + [e]| <= maxDepth
    ensures forall p :: IsPath(g, from, to, p) ==> |cur.path + [e]| <= |p|
  {
    PathSnoc(g, from, cur.table, cur.path, e);
    NothingNearer(g, from, to, maxDepth, q, dist, {cur.table}, |cur.path|);
  }

  lemma {:induction false} ExpandingDone(g: Graph, from: string, to: string, maxDepth: int, cur: QueueNode,
                      q: seq<QueueNode>, dist: map<string, nat>)
    requires Expanding(g, from, to, maxDepth, cur, q, dist)
    requires forall e :: e in Out(g, cur.table) ==> e.to in dist
    ensures Searching(g, from, to, maxDepth, q, dist, {})
    ensures |q| > 0 ==> forall t :: t in dist ==> dist[t] <= |q[0].path| + 1
  {
    assert Settled(g, maxDepth, dist, cur.table);
  }

  predicate LeadsWithin(e: Edge, t: string, all: set<string>) {
    e.from == t && e.to in all
  }

  lemma {:induction false} EdgesLeadWithin(g: Graph, t: string, k: nat)
    requires Filed(g) && k < |Out(g, t)|
    ensures LeadsWithin(Out(g, t)[k], t, Tables(g))
  {
  }

  method EnqueueNext(ghost g: Graph, ghost from: string, to: string, ghost maxDepth: int, cur: QueueNode,
                     q0: seq<QueueNode>, seen0: set<string>, ghost dist0: map<string, nat>, e: Edge)
    returns (q: seq<QueueNode>, seen: set<string>, ghost dist: map<string, nat>)
    requires Expanding(g, from, to, maxDepth, cur, q0, dist0) && seen0 == dist0.Keys
    requires e in Out(g, cur.table) && e.from == cur.table && e.to !in seen0 && e.to != to
    ensures Expanding(g, from, to, maxDepth, cur, q, dist) && seen == dist.Keys == seen0 + {e.to}
  {
    var nextPath := cur.path + [e];
    ExpandingEnqueue(g, from, to, maxDepth, cur, q0, dist0, e);
    seen := seen0 + {e.to};
    dist := dist0[e.to := |nextPath|];
    q := q0 + [QueueNode(e.to, nextPath)];
  }

  /** The body of the search loop: follow the edges of one dequeued table. */
  method Expand(g: Graph, ghost from: string, to: string, ghost maxDepth: int, cur: QueueNode,
                q0: seq<QueueNode>, seen0: set<string>, ghost dist0: map<string, nat>, ghost all: set<string>)
    returns (hit: bool, path: seq<Edge>, q: seq<QueueNode>, seen: set<string>, ghost dist: map<string, nat>)
    requires Expanding(g, from, to, maxDepth, cur, q0, dist0) && seen0 == dist0.Keys <= all
    requires forall k :: 0 <= k < |Out(g, cur.table)| ==> LeadsWithin(Out(g, cur.table)[k], cur.table, all)
    ensures hit ==> IsPath(g, from, to, path) && |path| <= maxDepth
    ensures hit ==> forall p :: IsPath(g, from, to, p) ==> |path| <= |p|
    ensures !hit ==> seen0 <= seen == dist.Keys <= all
    ensures !hit ==> Searching(g, from, to, maxDepth, q, dist, {})
    ensures !hit && |q| > 0 ==> forall t :: t in dist ==> dist[t] <= |q[0].path| + 1
    ensures !hit && seen == seen0 ==> q == q0
  {
    hit, path, q, seen, dist := false, [], q0, seen0, dist0;
    var edges := Out(g, cur.table);
    for i := 0 to |edges|
      invariant seen0 <= seen == dist.Keys <= all
      invariant Expanding(g, from, to, maxDepth, cur, q, dist)
      invariant forall k :: 0 <= k < i ==> edges[k].to in seen
      invariant seen == seen0 ==> q == q0
    {
      assert LeadsWithin(edges[i], cur.table, all);
      if edges[i].to in seen {
        continue;
      }
      var nextPath := cur.path + [edges[i]];
      if edges[i].to == to {
        ExpandingHit(g, from, to, maxDepth, cur, q, dist, edges[i]);
        return true, nextPath, q, seen, dist;
      }
      q, seen, dist := EnqueueNext(g, from, to, maxDepth, cur, q, seen, dist, edges[i]);
    }
    ExpandingDone(g, from, to, maxDepth, cur, q, dist);
  }

  // ---------------------------------------------------------------- reachability is symmetric

  /** Catalog.Relations and Catalog.Adjacency: every load files the relation under both of its tables. */
  class Catalogue {
    var relations: seq<Relation>
    var adjacency: Graph

    predicate Valid()
      reads this
    {
      adjacency == LoadedAll(relations)
    }

    constructor ()
      ensures Valid() && relations == []
    {
      relations, adjacency := [], map[];
    }

    method AddEdge(e: Edge)
      modifies this`adjacency
      ensures adjacency == old(adjacency)[e.from := old(Out(adjacency, e.from)) + [e]]
    {
      adjacency := adjacency[e.from := Out(adjacency, e.from) + [e]];
    }

    method AddRelation(r: Relation)
      requires Valid()
      modifies this
      ensures Valid() && relations == old(relations) + [r]
    {
      assert (relations + [r])[..|relations|] == relations;
      relations := relations + [r];
      AddEdge(Edge(r.base, r.reference, r, false));
      AddEdge(Edge(r.reference, r.base, r, true));
    }

    method Search(from: string, to: string, maxDepth: int) returns (r: SearchResult)
      requires Valid()
      ensures Answers(LoadedAll(relations), from, to, maxDepth, r)
    {
      LoadedAllSymmetric(relations);
      r := FindJoinPath(adjacency, from, to, maxDepth);
    }
  }

  function Loaded(g: Graph, r: Relation): Graph {
    var g1 := g[r.base := Out(g, r.base) + [Edge(r.base, r.reference, r, false)]];
    g1[r.reference := Out(g1, r.reference) + [Edge(r.reference, r.base, r, true)]]
  }

  function LoadedAll(rs: seq<Relation>): Graph {
    if rs == [] then map[] else Loaded(LoadedAll(rs[..|rs| - 1]), rs[|rs| - 1])
  }

  ghost predicate Linked(g: Graph, a: string, b: string) {
    exists e :: e in Out(g, a) && e.to == b
  }

  ghost predicate Symmetric(g: Graph) {
    forall a, b :: Linked(g, a, b) ==> Linked(g, b, a)
  }

  lemma {:induction false} LinkedAfterLoad(g: Graph, r: Relation, a: string, b: string)
    ensures Linked(Loaded(g, r), a, b) <==>
            Linked(g, a, b) || (a == r.base && b == r.reference) || (a == r.reference && b == r.base)
  {
    var g1 := g[r.base := Out(g, r.base) + [Edge(r.base, r.reference, r, false)]];
    var e1, e2 := Edge(r.base, r.reference, r, false), Edge(r.reference, r.base, r, true);
    assert forall e :: e in Out(g1, a) <==> e in Out(g, a) || (a == r.base && e == e1);
    assert forall e :: e in Out(Loaded(g, r), a) <==> e in Out(g1, a) || (a == r.reference && e == e2);
    if a == r.base && b == r.reference { assert e1 in Out(Loaded(g, r), a); }
    if a == r.reference && b == r.base { assert e2 in Out(Loaded(g, r), a); }
    if Linked(g, a, b) {
      var e :| e in Out(g, a) && e.to == b;
      assert e in Out(Loaded(g, r), a);
    }
  }

  lemma {:induction false} LoadedSymmetric(g: Graph, r: Relation)
    requires Filed(g) && Symmetric(g)
    ensures Filed(Loaded(g, r)) && Symmetric(Loaded(g, r))
  {
    forall a, b | Linked(Loaded(g, r), a, b) ensures Linked(Loaded(g, r), b, a) {
      LinkedAfterLoad(g, r, a, b);
      LinkedAfterLoad(g, r, b, a);
    }
  }

  lemma {:induction false} LoadedAllSymmetric(rs: seq<Relation>)
    ensures Filed(LoadedAll(rs)) && Symmetric(LoadedAll(rs))
  {
    if rs != [] {
      LoadedAllSymmetric(rs[..|rs| - 1]);
      LoadedSymmetric(LoadedAll(rs[..|rs| - 1]), rs[|rs| - 1]);
    }
  }

  /** A path can be walked backwards over the mirror edges. */
  lemma {:induction false} ReversePath(g: Graph, a: string, b: string, p: seq<Edge>) returns (back: seq<Edge>)
    requires Filed(g) && Symmetric(g) && IsPath(g, a, b, p)
    ensures IsPath(g, b, a, back) && |back| == |p|
    decreases |p|
  {
    if p == [] {
      back := [];
    } else {
      assert Linked(g, a, p[0].to);
      assert Linked(g, p[0].to, a);
      var e :| e in Out(g, p[0].to) && e.to == a;
      var rest := ReversePath(g, p[0].to, b, p[1..]);
      PathSnoc(g, b, p[0].to, rest, e);
      back := rest + [e];
    }
  }

  /** Searching from either end of a loaded catalogue gives the same verdict and the same depth. */
  lemma {:induction false} SearchSymmetric(rs: seq<Relation>, a: string, b: string, maxDepth: int,
                                           there: SearchResult, back: SearchResult)
    requires Answers(LoadedAll(rs), a, b, maxDepth, there)
    requires Answers(LoadedAll(rs), b, a, maxDepth, back)
    ensures there.found == back.found
    ensures there.found ==> |there.path| == |back.path|
  {
    var g := LoadedAll(rs);
    LoadedAllSymmetric(rs);
    if there.found {
      var p := ReversePath(g, a, b, there.path);
      if a != b {
        var w :| IsPath(g, a, b, w) && |w| <= maxDepth;
        var w' := ReversePath(g, a, b, w);
        assert Reaches(g, b, a, maxDepth);
      }
    }
    if back.found {
      var p := ReversePath(g, b, a, back.path);
      if a != b {
        var w :| IsPath(g, b, a, w) && |w| <= maxDepth;
        var w' := ReversePath(g, b, a, w);
        assert Reaches(g, a, b, maxDepth);
      }
    }
  }

  // ---------------------------------------------------------------- confidence of a path

  function EdgeConfidence(e: Edge): real {
    if e.relation.confidence == 0.0 then 0.6 else e.relation.confidence
  }

  function Weakest(p: seq<Edge>): real {
    if p == [] then 1.0
    else var rest := Weakest(p[..|p| - 1]);
         if EdgeConfidence(p[|p| - 1]) < rest then EdgeConfidence(p[|p| - 1]) else rest
  }

  function Discount(p: seq<Edge>): real {
    if |p| > 1 then 0.05 * (|p| - 1) as real else 0.0
  }

  function Confidence(p: seq<Edge>): real {
    if Weakest(p) - Discount(p) < 0.0 then 0.0 else Weakest(p) - Discount(p)
  }

  method PathConfidence(path: seq<Edge>) returns (conf: real)
    ensures conf == Confidence(path)
  {
    conf := 1.0;
    for i := 0 to |path|
      invariant conf == Weakest(path[..i])
    {
      assert path[..i + 1][..i] == path[..i];
      var ec := path[i].relation.confidence;
      if ec == 0.0 {
        ec := 0.6;
      }
      if ec < conf {
        conf := ec;
      }
    }
    assert path[..|path|] == path;
    if |path| > 1 {
      conf := conf - 0.05 * (|path| - 1) as real;
    }
    if conf < 0.0 {
      conf := 0.0;
    }
  }

  /** The running minimum is the least confidence of an edge, and 1 at most. */
  lemma {:induction false} WeakestBounds(p: seq<Edge>, i: nat)
    requires i < |p|
    ensures Weakest(p) <= EdgeConfidence(p[i]) && Weakest(p) <= 1.0
    ensures Weakest(p) == 1.0 || exists k :: 0 <= k < |p| && Weakest(p) == EdgeConfidence(p[k])
  {
    var init := p[..|p| - 1];
    if |p| > 1 {
      WeakestBounds(init, if i < |p| - 1 then i else 0);
      assert forall k :: 0 <= k < |init| ==> init[k] == p[k];
    }
  }

  /** Confidence lies between 0 and 1. A path is trusted no more than any of its edges, or not at all, and going on
      along another edge never raises it. */
  lemma {:induction false} ConfidenceBounds(p: seq<Edge>, i: nat, e: Edge)
    requires i < |p|
    ensures 0.0 <= Confidence(p) <= 1.0
    ensures Confidence(p) == 0.0 || Confidence(p) <= EdgeConfidence(p[i])
    ensures Confidence(p + [e]) <= Confidence(p)
  {
    WeakestBounds(p, i);
    assert (p + [e])[..|p|] == p;
  }
}
