/**
 Query blocks and the CTE names in scope in them. The MySQL visitor keeps explicit stacks, the PostgreSQL
 walk passes the scope down; both enumerate the blocks of a statement in the same way.
 */
module PolicyBlocks {
  import opened Basics
  import opened Text
  import opened Sql

  /** One query block: its number, its node, the CTE names visible in it and where it is in the tree. */
  datatype Visit = Visit(block: nat, node: Node, scope: set<string>, path: seq<nat>)

  /** Nodes that may carry WITH; each opens a scope. */
  predicate OpensScope(n: Node) {
    n.Select? || n.SetOp?
  }

  /** In PostgreSQL a set operation is a SELECT node too, and takes a number. */
  predicate IsBlock(d: Dialect, n: Node) {
    n.Select? || (d.Postgres? && n.SetOp?)
  }

  function WithNames(n: Node): set<string> {
    if OpensScope(n) then set c | c in n.with && c.Cte? :: Lower(c.cteName) else {}
  }

  function Visits(d: Dialect, n: Node, scope: set<string>, next: nat, path: seq<nat>): seq<Visit>
    decreases n, 2 + |Kids(d, n)|
  {
    var inner := scope + WithNames(n);
    var own := if IsBlock(d, n) then [Visit(next, n, inner, path)] else [];
    own + VisitsFrom(d, n, inner, next + |own|, path, 0)
  }

  function VisitsFrom(d: Dialect, n: Node, scope: set<string>, next: nat, path: seq<nat>, i: nat): seq<Visit>
    requires i <= |Kids(d, n)|
    decreases n, 1 + |Kids(d, n)| - i
  {
    if i == |Kids(d, n)| then [] else
    KidSmaller(d, n, i);
    var v := Visits(d, Kids(d, n)[i], scope, next, path + [i]);
    v + VisitsFrom(d, n, scope, next + |v|, path, i + 1)
  }

  // ---------------------------------------------------------------- where the blocks are

  function NodeAt(d: Dialect, root: Node, path: seq<nat>): Option<Node>
    decreases |path|
  {
    if path == [] then Some(root)
    else if path[0] < |Kids(d, root)| then NodeAt(d, Kids(d, root)[path[0]], path[1..])
    else None
  }

  lemma {:induction false} NodeAtSnoc(d: Dialect, root: Node, path: seq<nat>, i: nat)
    ensures NodeAt(d, root, path + [i]) ==
            match NodeAt(d, root, path)
            case Some(n) => if i < |Kids(d, n)| then Some(Kids(d, n)[i]) else None
            case None => None
    decreases |path|
  {
    if path == [] {
      assert (path + [i])[1..] == [];
    } else if path[0] < |Kids(d, root)| {
      assert (path + [i])[1..] == path[1..] + [i];
      NodeAtSnoc(d, Kids(d, root)[path[0]], path[1..], i);
    }
  }

  function NamesAt(d: Dialect, root: Node, path: seq<nat>): set<string> {
    match NodeAt(d, root, path)
    case Some(n) => WithNames(n)
    case None => {}
  }

  /** The names defined by the WITH clauses of the node at the path and of every node above it. */
  ghost predicate ScopeExact(d: Dialect, root: Node, path: seq<nat>, scope: set<string>) {
    forall x :: x in scope <==> exists k :: 0 <= k <= |path| && x in NamesAt(d, root, path[..k])
  }

  /** Preorder on tree positions: an ancestor first, then siblings from left to right. */
  predicate Before(p: seq<nat>, q: seq<nat>) {
    exists k :: 0 <= k <= |p| && k < |q| && p[..k] == q[..k] && (k == |p| || p[k] < q[k])
  }

  ghost predicate Describes(d: Dialect, root: Node, v: Visit) {
    && NodeAt(d, root, v.path) == Some(v.node)
    && IsBlock(d, v.node)
    && ScopeExact(d, root, v.path, v.scope)
  }

  predicate InPreorder(vs: seq<Visit>) {
    forall a, b :: 0 <= a < b < |vs| ==> Before(vs[a].path, vs[b].path)
  }

  predicate Below(path: seq<nat>, vs: seq<Visit>) {
    forall k :: 0 <= k < |vs| ==> |path| <= |vs[k].path| && vs[k].path[..|path|] == path
  }

  predicate BelowFrom(path: seq<nat>, i: nat, vs: seq<Visit>) {
    forall k :: 0 <= k < |vs| ==> |path| < |vs[k].path| && vs[k].path[..|path|] == path && i <= vs[k].path[|path|]
  }

  predicate Numbered(vs: seq<Visit>, next: nat) {
    forall k :: 0 <= k < |vs| ==> vs[k].block == next + k
  }

  lemma {:induction false} ScopeStep(d: Dialect, root: Node, path: seq<nat>, n: Node, outer: set<string>)
    requires NodeAt(d, root, path) == Some(n)
    requires path == [] ==> outer == {}
    requires path != [] ==> ScopeExact(d, root, path[..|path| - 1], outer)
    ensures ScopeExact(d, root, path, outer + WithNames(n))
  {
    assert path[..|path|] == path;
    var scope := outer + WithNames(n);
    forall x ensures x in scope <==> exists k :: 0 <= k <= |path| && x in NamesAt(d, root, path[..k]) {
      if x in WithNames(n) {
        assert x in NamesAt(d, root, path[..|path|]);
      } else if path != [] {
        var up := path[..|path| - 1];
        assert forall k :: 0 <= k <= |up| ==> up[..k] == path[..k];
      }
    }
  }

  ghost predicate AllDescribe(d: Dialect, root: Node, vs: seq<Visit>) {
    forall k :: 0 <= k < |vs| ==> Describes(d, root, vs[k])
  }

  lemma {:induction false} AllDescribeConcat(d: Dialect, root: Node, a: seq<Visit>, b: seq<Visit>)
    requires AllDescribe(d, root, a) && AllDescribe(d, root, b)
    ensures AllDescribe(d, root, a + b)
  {
    forall k | 0 <= k < |a + b| ensures Describes(d, root, (a + b)[k]) {
      if k < |a| { assert (a + b)[k] == a[k]; } else { assert (a + b)[k] == b[k - |a|]; }
    }
  }

  lemma {:induction false} DescribesHere(d: Dialect, root: Node, path: seq<nat>, n: Node, scope: set<string>, next: nat)
    requires NodeAt(d, root, path) == Some(n) && ScopeExact(d, root, path, scope)
    ensures AllDescribe(d, root, [])
    ensures IsBlock(d, n) ==> AllDescribe(d, root, [Visit(next, n, scope, path)])
  {
    hide Kids, ScopeExact, NodeAt;
  }

  lemma {:induction false} VisitsDescribe(d: Dialect, root: Node, n: Node, outer: set<string>, next: nat,
                                          path: seq<nat>)
    requires NodeAt(d, root, path) == Some(n)
    requires path == [] ==> outer == {}
    requires path != [] ==> ScopeExact(d, root, path[..|path| - 1], outer)
    ensures AllDescribe(d, root, Visits(d, n, outer, next, path))
    decreases n, 2 + |Kids(d, n)|
  {
    hide Kids, ScopeExact, NodeAt, AllDescribe;
    ScopeStep(d, root, path, n, outer);
    var inner := outer + WithNames(n);
    var own := if IsBlock(d, n) then [Visit(next, n, inner, path)] else [];
    VisitsFromDescribe(d, root, n, inner, next + |own|, path, 0);
    assert AllDescribe(d, root, own) by { DescribesHere(d, root, path, n, inner, next); }
    AllDescribeConcat(d, root, own, VisitsFrom(d, n, inner, next + |own|, path, 0));
  }

  lemma {:induction false} VisitsFromDescribe(d: Dialect, root: Node, n: Node, scope: set<string>, next: nat,
                                              path: seq<nat>, i: nat)
    requires i <= |Kids(d, n)| && NodeAt(d, root, path) == Some(n)
    requires ScopeExact(d, root, path, scope)
    ensures AllDescribe(d, root, VisitsFrom(d, n, scope, next, path, i))
    decreases n, 1 + |Kids(d, n)| - i
  {
    hide Kids;
    if i < |Kids(d, n)| {
      var kid, here := Kids(d, n)[i], path + [i];
      KidSmaller(d, n, i);
      NodeAtSnoc(d, root, path, i);
      assert here[..|here| - 1] == path;
      VisitsDescribe(d, root, kid, scope, next, here);
      var v := Visits(d, kid, scope, next, here);
      VisitsFromDescribe(d, root, n, scope, next + |v|, path, i + 1);
      AllDescribeConcat(d, root, v, VisitsFrom(d, n, scope, next + |v|, path, i + 1));
    }
  }

  lemma {:induction false} VisitsNumbered(d: Dialect, n: Node, outer: set<string>, next: nat, path: seq<nat>)
    ensures Numbered(Visits(d, n, outer, next, path), next)
    decreases n, 2 + |Kids(d, n)|
  {
    hide Kids;
    var inner := outer + WithNames(n);
    var own := if IsBlock(d, n) then [Visit(next, n, inner, path)] else [];
    VisitsFromNumbered(d, n, inner, next + |own|, path, 0);
    NumberedConcat(own, VisitsFrom(d, n, inner, next + |own|, path, 0), next);
  }

  lemma {:induction false} NumberedConcat(a: seq<Visit>, b: seq<Visit>, next: nat)
    requires Numbered(a, next) && Numbered(b, next + |a|)
    ensures Numbered(a + b, next)
  {
  }

  lemma {:induction false} VisitsFromNumbered(d: Dialect, n: Node, scope: set<string>, next: nat, path: seq<nat>,
                                              i: nat)
    requires i <= |Kids(d, n)|
    ensures Numbered(VisitsFrom(d, n, scope, next, path, i), next)
    decreases n, 1 + |Kids(d, n)| - i
  {
    hide Kids;
    if i < |Kids(d, n)| {
      KidSmaller(d, n, i);
      var v := Visits(d, Kids(d, n)[i], scope, next, path + [i]);
      VisitsNumbered(d, Kids(d, n)[i], scope, next, path + [i]);
      VisitsFromNumbered(d, n, scope, next + |v|, path, i + 1);
      NumberedConcat(v, VisitsFrom(d, n, scope, next + |v|, path, i + 1), next);
    }
  }

  lemma {:induction false} VisitsOrdered(d: Dialect, n: Node, outer: set<string>, next: nat, path: seq<nat>)
    ensures Below(path, Visits(d, n, outer, next, path)) && InPreorder(Visits(d, n, outer, next, path))
    decreases n, 2 + |Kids(d, n)|
  {
    hide Kids;
    var inner := outer + WithNames(n);
    var own := if IsBlock(d, n) then [Visit(next, n, inner, path)] else [];
    VisitsFromOrdered(d, n, inner, next + |own|, path, 0);
    RootFirst(path, own, VisitsFrom(d, n, inner, next + |own|, path, 0));
  }

  lemma {:induction false} RootFirst(path: seq<nat>, own: seq<Visit>, below: seq<Visit>)
    requires |own| <= 1 && (own != [] ==> own[0].path == path)
    requires BelowFrom(path, 0, below) && InPreorder(below)
    ensures Below(path, own + below) && InPreorder(own + below)
  {
    assert path[..|path|] == path;
    forall b | 0 <= b < |below| ensures Before(path, below[b].path) {
      assert path[..|path|] == below[b].path[..|path|];
    }
  }

  lemma {:induction false} VisitsFromOrdered(d: Dialect, n: Node, scope: set<string>, next: nat, path: seq<nat>, i: nat)
    requires i <= |Kids(d, n)|
    ensures BelowFrom(path, i, VisitsFrom(d, n, scope, next, path, i))
    ensures InPreorder(VisitsFrom(d, n, scope, next, path, i))
    decreases n, 1 + |Kids(d, n)| - i
  {
    hide Kids, Below, BelowFrom, InPreorder;
    NoVisitsOrdered(path, i);
    if i < |Kids(d, n)| {
      KidSmaller(d, n, i);
      var v := Visits(d, Kids(d, n)[i], scope, next, path + [i]);
      VisitsOrdered(d, Kids(d, n)[i], scope, next, path + [i]);
      VisitsFromOrdered(d, n, scope, next + |v|, path, i + 1);
      SiblingsInOrder(path, i, v, VisitsFrom(d, n, scope, next + |v|, path, i + 1));
    }
  }

  lemma {:induction false} NoVisitsOrdered(path: seq<nat>, i: nat)
    ensures BelowFrom(path, i, []) && InPreorder([])
  {
  }

  lemma {:induction false} BelowSibling(path: seq<nat>, i: nat, v: seq<Visit>)
    requires Below(path + [i], v)
    ensures BelowFrom(path, i, v)
  {
    var here := path + [i];
    forall k | 0 <= k < |v|
      ensures |path| < |v[k].path| && v[k].path[..|path|] == path && v[k].path[|path|] == i
    {
      assert v[k].path[..|here|] == here;
      assert v[k].path[..|path|] == v[k].path[..|here|][..|path|];
      assert v[k].path[|path|] == v[k].path[..|here|][|path|];
    }
  }

  lemma {:induction false} SiblingsInOrder(path: seq<nat>, i: nat, v: seq<Visit>, rest: seq<Visit>)
    requires InPreorder(v) && InPreorder(rest) && Below(path + [i], v) && BelowFrom(path, i + 1, rest)
    ensures InPreorder(v + rest) && BelowFrom(path, i, v + rest)
  {
    BelowSibling(path, i, v);
    forall a, b | 0 <= a < |v| && 0 <= b < |rest| ensures Before(v[a].path, rest[b].path) {
      var p, q := v[a].path, rest[b].path;
      assert p[..|path| + 1] == path + [i];
      assert p[..|path|] == p[..|path| + 1][..|path|] == path;
      assert p[|path|] == p[..|path| + 1][|path|] == i;
      assert p[..|path|] == q[..|path|] && p[|path|] < q[|path|];
    }
  }

  lemma {:induction false} VisitsComplete(d: Dialect, n: Node, outer: set<string>, next: nat, path: seq<nat>,
                                          rel: seq<nat>)
    returns (k: nat)
    requires NodeAt(d, n, rel).Some? && IsBlock(d, NodeAt(d, n, rel).value)
    ensures var vs := Visits(d, n, outer, next, path); k < |vs| && vs[k].path == path + rel
    decreases n, 2 + |Kids(d, n)|
  {
    hide Kids;
    var inner := outer + WithNames(n);
    var own := if IsBlock(d, n) then [Visit(next, n, inner, path)] else [];
    if rel == [] {
      assert path + rel == path;
      k := 0;
    } else {
      var j := VisitsFromComplete(d, n, inner, next + |own|, path, rel, 0);
      k := |own| + j;
    }
  }

  lemma {:induction false} VisitsFromComplete(d: Dialect, n: Node, scope: set<string>, next: nat,
                                              path: seq<nat>, rel: seq<nat>, i: nat)
    returns (k: nat)
    requires rel != [] && i <= rel[0] < |Kids(d, n)|
    requires NodeAt(d, n, rel).Some? && IsBlock(d, NodeAt(d, n, rel).value)
    ensures var vs := VisitsFrom(d, n, scope, next, path, i); k < |vs| && vs[k].path == path + rel
    decreases n, 1 + |Kids(d, n)| - i
  {
    hide Kids;
    KidSmaller(d, n, i);
    var kid, here := Kids(d, n)[i], path + [i];
    var v := Visits(d, kid, scope, next, here);
    var rest := VisitsFrom(d, n, scope, next + |v|, path, i + 1);
    if rel[0] == i {
      k := VisitsComplete(d, kid, scope, next, here, rel[1..]);
      PathThrough(path, rel);
      InFirst(v, rest, k);
    } else {
      var j := VisitsFromComplete(d, n, scope, next + |v|, path, rel, i + 1);
      k := |v| + j;
      InSecond(v, rest, j);
    }
  }

  lemma {:induction false} PathThrough(path: seq<nat>, rel: seq<nat>)
    requires rel != []
    ensures (path + [rel[0]]) + rel[1..] == path + rel
  {
  }

  lemma {:induction false} InFirst(a: seq<Visit>, b: seq<Visit>, k: nat)
    requires k < |a|
    ensures (a + b)[k] == a[k]
  {
  }

  lemma {:induction false} InSecond(a: seq<Visit>, b: seq<Visit>, k: nat)
    requires k < |b|
    ensures (a + b)[|a| + k] == b[k]
  {
  }

  /**
   The blocks of a statement: numbered 1, 2, ... in preorder; each is a block node at its place; the names in
   scope there are exactly those of every WITH on the way down, its own included; and no block is missed.
   */
  lemma {:induction false} BlocksOfStatement(d: Dialect, root: Node)
    ensures var vs := Visits(d, root, {}, 1, []);
            && Numbered(vs, 1) && InPreorder(vs)
            && AllDescribe(d, root, vs)
            && forall path :: NodeAt(d, root, path).Some? && IsBlock(d, NodeAt(d, root, path).value)
                 ==> exists k :: 0 <= k < |vs| && vs[k].path == path
  {
    VisitsDescribe(d, root, root, {}, 1, []);
    VisitsNumbered(d, root, {}, 1, []);
    VisitsOrdered(d, root, {}, 1, []);
    forall path | NodeAt(d, root, path).Some? && IsBlock(d, NodeAt(d, root, path).value)
      ensures exists k :: 0 <= k < |Visits(d, root, {}, 1, [])| && Visits(d, root, {}, 1, [])[k].path == path
    {
      var k := VisitsComplete(d, root, {}, 1, [], path);
      assert [] + path == path;
    }
  }
}
