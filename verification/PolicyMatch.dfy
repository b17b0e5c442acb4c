/**
 Matching row policies against a whole statement: the table occurrences of each block, the decision for
 every occurrence and policy, and the report (MatchRequiredPredicates).
 */
module PolicyMatch {
  import opened Basics
  import opened Lists
  import opened Text
  import opened Sql
  import opened PolicyCondition
  import opened PolicyBlocks

  datatype Policy = Policy(id: string, schema: string, table: string, condition: Condition)

  datatype Reason = Present | NoWhere | NotImplied

  datatype Match = Match(policyId: string, block: nat, schema: string, table: string, alias: string,
                         condition: Node, matched: bool, reason: Reason)

  datatype Report = Report(matches: seq<Match>, missing: seq<Match>)

  datatype MatchError = WrongDialect(policyId: string) | NotAQuery

  // ---------------------------------------------------------------- table occurrences

  function FromOf(n: Node): seq<Node> { if n.Select? then n.from else [] }

  function WhereOf(n: Node): Option<Node> { if n.Select? then n.where else None }

  /** The leaves of a FROM item, left to right through joins. */
  function Leaves(d: Dialect, item: Node): seq<Node> {
    match item
    case Join(l, r, _) => Leaves(d, l) + if r.Some? then Leaves(d, r.value) else []
    case Sample(i) => if d.Postgres? then Leaves(d, i) else []
    case Table(_, _, _) => [item]
    case Derived(_, _) => [item]
    case FuncItem(_, _) => [item]
    case OtherItem(_, _) => [item]
    case _ => []
  }

  function LeavesOf(d: Dialect): Node -> seq<Node> {
    (item: Node) => Leaves(d, item)
  }

  function AllLeaves(d: Dialect, from: seq<Node>): seq<Node> {
    FlatMap(LeavesOf(d), from)
  }

  /** PostgreSQL counts tables, subqueries and functions; other FROM items are passed over. */
  predicate Counted(d: Dialect, leaf: Node) {
    d.MySQL? || !leaf.OtherItem?
  }

  function CountSources(d: Dialect, leaves: seq<Node>): nat {
    if leaves == [] then 0 else (if Counted(d, leaves[0]) then 1 else 0) + CountSources(d, leaves[1..])
  }

  predicate ShadowedByCte(leaf: Node, scope: set<string>)
    requires leaf.Table?
  {
    leaf.schema == "" && Lower(leaf.table) in scope
  }

  function OccurrenceOf(leaf: Node, scope: set<string>, block: nat, count: nat): Option<Occurrence> {
    if leaf.Table? && !ShadowedByCte(leaf, scope)
    then Some(Occurrence(block, leaf.schema, leaf.table, if leaf.alias != "" then leaf.alias else leaf.table, count))
    else None
  }

  function OccurrencesOf(scope: set<string>, block: nat, count: nat): Node -> seq<Occurrence> {
    (leaf: Node) =>
      var o := OccurrenceOf(leaf, scope, block, count);
      if o.Some? then [o.value] else []
  }

  function Occurrences(leaves: seq<Node>, scope: set<string>, block: nat, count: nat): seq<Occurrence> {
    FlatMap(OccurrencesOf(scope, block, count), leaves)
  }

  lemma {:induction false} CountConcat(d: Dialect, a: seq<Node>, b: seq<Node>)
    ensures CountSources(d, a + b) == CountSources(d, a) + CountSources(d, b)
  {
    if a == [] {
      assert a + b == b;
    } else {
      assert (a + b)[1..] == a[1..] + b;
      CountConcat(d, a[1..], b);
    }
  }

  /** Occurrences are the unshadowed tables among the leaves, nothing else. */
  lemma {:induction false} OccurrenceFromLeaf(leaves: seq<Node>, scope: set<string>, block: nat, count: nat,
                                              o: Occurrence)
    returns (j: nat)
    requires o in Occurrences(leaves, scope, block, count)
    ensures j < |leaves| && OccurrenceOf(leaves[j], scope, block, count) == Some(o)
  {
    j := FlatMapOrigin(OccurrencesOf(scope, block, count), leaves, o);
  }

  lemma {:induction false} LeafHasOccurrence(leaves: seq<Node>, scope: set<string>, block: nat, count: nat, j: nat)
    requires j < |leaves| && OccurrenceOf(leaves[j], scope, block, count).Some?
    ensures OccurrenceOf(leaves[j], scope, block, count).value in Occurrences(leaves, scope, block, count)
  {
    FlatMapHolds(OccurrencesOf(scope, block, count), leaves, j, OccurrenceOf(leaves[j], scope, block, count).value);
  }

  method Collect(d: Dialect, item: Node, scope: set<string>, block: nat) returns (out: seq<Occurrence>, sources: nat)
    ensures out == Occurrences(Leaves(d, item), scope, block, 0)
    ensures sources == CountSources(d, Leaves(d, item))
    decreases item
  {
    out, sources := [], 0;
    FlatMapOne(OccurrencesOf(scope, block, 0), item);
    match item {
      case Join(l, r, _) =>
        out, sources := Collect(d, l, scope, block);
        if r.Some? {
          var more, n := Collect(d, r.value, scope, block);
          FlatMapConcat(OccurrencesOf(scope, block, 0), Leaves(d, l), Leaves(d, r.value));
          CountConcat(d, Leaves(d, l), Leaves(d, r.value));
          out, sources := out + more, sources + n;
        } else {
          assert Leaves(d, item) == Leaves(d, l);
        }
      case Sample(i) =>
        if d.Postgres? {
          out, sources := Collect(d, i, scope, block);
        }
      case Table(schema, table, alias) =>
        sources := 1;
        if schema == "" && Lower(table) in scope {
          return;
        }
        var name := table;
        if alias != "" {
          name := alias;
        }
        out := [Occurrence(block, schema, table, name, 0)];
      case Derived(_, _) => sources := 1;
      case FuncItem(_, _) => sources := 1;
      case OtherItem(_, _) => sources := if d.MySQL? then 1 else 0;
      case _ =>
    }
  }

  /** The direct occurrences of a block, each told how many sources the block has. */
  method DirectOccurrences(d: Dialect, node: Node, scope: set<string>, block: nat) returns (out: seq<Occurrence>)
    ensures var leaves := AllLeaves(d, FromOf(node));
            out == Occurrences(leaves, scope, block, CountSources(d, leaves))
  {
    var from := FromOf(node);
    var found: seq<Occurrence>, sources := [], 0;
    for i := 0 to |from|
      invariant found == Occurrences(AllLeaves(d, from[..i]), scope, block, 0)
      invariant sources == CountSources(d, AllLeaves(d, from[..i]))
    {
      var more, n := Collect(d, from[i], scope, block);
      FlatMapTake(LeavesOf(d), from, i);
      FlatMapConcat(OccurrencesOf(scope, block, 0), AllLeaves(d, from[..i]), Leaves(d, from[i]));
      CountConcat(d, AllLeaves(d, from[..i]), Leaves(d, from[i]));
      found, sources := found + more, sources + n;
    }
    assert from[..|from|] == from;
    out := [];
    for i := 0 to |found|
      invariant |out| == i && forall k :: 0 <= k < i ==> out[k] == Counting(found[k], sources)
    {
      out := out + [found[i].(sourceCount := sources)];
    }
    OccurrencesCounted(AllLeaves(d, from), scope, block, 0, sources);
  }

  function Counting(o: Occurrence, c: nat): Occurrence {
    o.(sourceCount := c)
  }

  lemma {:induction false} OccurrenceCounted(leaf: Node, scope: set<string>, block: nat, c: nat, c': nat)
    ensures OccurrencesOf(scope, block, c')(leaf) ==
            var os := OccurrencesOf(scope, block, c)(leaf); if os == [] then [] else [Counting(os[0], c')]
    ensures |OccurrencesOf(scope, block, c)(leaf)| <= 1
  {
  }

  lemma {:induction false} OccurrencesCounted(leaves: seq<Node>, scope: set<string>, block: nat, c: nat, c': nat)
    ensures |Occurrences(leaves, scope, block, c)| == |Occurrences(leaves, scope, block, c')|
    ensures forall k :: 0 <= k < |Occurrences(leaves, scope, block, c)| ==>
              Occurrences(leaves, scope, block, c')[k] == Counting(Occurrences(leaves, scope, block, c)[k], c')
  {
    if leaves != [] {
      OccurrenceCounted(leaves[0], scope, block, c, c');
      OccurrencesCounted(leaves[1..], scope, block, c, c');
    }
  }

  // ---------------------------------------------------------------- decisions

  predicate PolicyApplies(p: Policy, occ: Occurrence) {
    EqualFold(p.table, occ.table) && (p.schema == "" || occ.schema == "" || EqualFold(p.schema, occ.schema))
  }

  function ReasonFor(hasWhere: bool, matched: bool): Reason {
    if matched then Present else if !hasWhere then NoWhere else NotImplied
  }

  function Decide(d: Dialect, where: Option<Node>, occ: Occurrence, p: Policy): Match {
    var matched := Matched(d, where, occ, p.condition.atoms);
    Match(p.id, occ.block, occ.schema, occ.table, occ.alias, p.condition.raw, matched, ReasonFor(where.Some?, matched))
  }

  function DeciderFor(d: Dialect, where: Option<Node>, occ: Occurrence): Policy -> seq<Match> {
    (p: Policy) => if PolicyApplies(p, occ) then [Decide(d, where, occ, p)] else []
  }

  function DecideAll(d: Dialect, where: Option<Node>, occ: Occurrence, ps: seq<Policy>): seq<Match> {
    FlatMap(DeciderFor(d, where, occ), ps)
  }

  function OccurrenceDecider(d: Dialect, where: Option<Node>, ps: seq<Policy>): Occurrence -> seq<Match> {
    (occ: Occurrence) => DecideAll(d, where, occ, ps)
  }

  function DecideOccurrences(d: Dialect, where: Option<Node>, occs: seq<Occurrence>, ps: seq<Policy>): seq<Match> {
    FlatMap(OccurrenceDecider(d, where, ps), occs)
  }

  function BlockOccurrences(d: Dialect, v: Visit): seq<Occurrence> {
    var leaves := AllLeaves(d, FromOf(v.node));
    Occurrences(leaves, v.scope, v.block, CountSources(d, leaves))
  }

  function BlockMatches(d: Dialect, v: Visit, ps: seq<Policy>): seq<Match> {
    DecideOccurrences(d, WhereOf(v.node), BlockOccurrences(d, v), ps)
  }

  function BlockDecider(d: Dialect, ps: seq<Policy>): Visit -> seq<Match> {
    (v: Visit) => BlockMatches(d, v, ps)
  }

  function AllMatches(d: Dialect, vs: seq<Visit>, ps: seq<Policy>): seq<Match> {
    FlatMap(BlockDecider(d, ps), vs)
  }

  method DecideOccurrence(d: Dialect, where: Option<Node>, occ: Occurrence, ps: seq<Policy>)
    returns (decided: seq<Match>)
    ensures decided == DecideAll(d, where, occ, ps)
  {
    decided := [];
    for j := 0 to |ps|
      invariant decided == DecideAll(d, where, occ, ps[..j])
    {
      FlatMapTake(DeciderFor(d, where, occ), ps, j);
      if PolicyApplies(ps[j], occ) {
        var have;
        if d.MySQL? {
          have := MySQLQueryAtoms(where, occ);
        } else {
          have := PostgresQueryAtoms(where, occ);
        }
        var all := ContainsAllAtoms(have, ps[j].condition.atoms);
        var matched := where.Some? && all;
        decided := decided + [Match(ps[j].id, occ.block, occ.schema, occ.table, occ.alias, ps[j].condition.raw, matched,
                                    ReasonFor(where.Some?, matched))];
      }
    }
    assert ps[..|ps|] == ps;
  }

  /** The decisions of one block, as both dialects compute them. */
  method DecideBlock(d: Dialect, node: Node, scope: set<string>, block: nat, ps: seq<Policy>) returns (out: seq<Match>)
    ensures forall path :: out == BlockMatches(d, Visit(block, node, scope, path), ps)
  {
    var occs := DirectOccurrences(d, node, scope, block);
    var where := WhereOf(node);
    out := [];
    for i := 0 to |occs|
      invariant out == DecideOccurrences(d, where, occs[..i], ps)
    {
      var decided := DecideOccurrence(d, where, occs[i], ps);
      FlatMapTake(OccurrenceDecider(d, where, ps), occs, i);
      out := out + decided;
    }
    assert occs[..|occs|] == occs;
  }

  // ---------------------------------------------------------------- the MySQL visitor

  /** mysqlPolicyBlockVisitor: one explicit stack of scopes and one of the nodes that pushed them. */
  class MySQLBlockVisitor {
    const policies: seq<Policy>
    var scopes: seq<set<string>>
    var pushes: seq<Node>
    var block: nat
    var matches: seq<Match>
    ghost var visited: seq<Visit>   // the SELECTs entered so far

    constructor (policies: seq<Policy>)
      ensures this.policies == policies && Valid()
      ensures scopes == [] && pushes == [] && block == 0 && visited == []
    {
      this.policies := policies;
      scopes, pushes, block, matches, visited := [], [], 0, [], [];
    }

    ghost predicate Valid()
      reads this
    {
      && |scopes| == |pushes|
      && (forall p :: p in pushes ==> OpensScope(p))
      && block == |visited|
      && matches == AllMatches(MySQL, visited, policies)
    }

    function CurrentScope(): set<string>
      reads this
    {
      if scopes == [] then {} else scopes[|scopes| - 1]
    }

    method PushScope(n: Node, names: set<string>)
      requires Valid() && OpensScope(n)
      modifies this`scopes, this`pushes
      ensures Valid()
      ensures scopes == old(scopes) + [old(CurrentScope()) + names] && pushes == old(pushes) + [n]
    {
      scopes := scopes + [CurrentScope() + names];
      pushes := pushes + [n];
    }

    method Enter(n: Node, ghost path: seq<nat>)
      requires Valid()
      modifies this
      ensures Valid()
      ensures OpensScope(n) ==>
                scopes == old(scopes) + [old(CurrentScope()) + WithNames(n)] && pushes == old(pushes) + [n]
      ensures !OpensScope(n) ==> scopes == old(scopes) && pushes == old(pushes)
      ensures visited == old(visited) + if n.Select? then [Visit(old(block) + 1, n, CurrentScope(), path)] else []
    {
      if n.SetOp? {
        PushScope(n, WithNames(n));
      } else if n.Select? {
        PushScope(n, WithNames(n));
        block := block + 1;
        var found := DecideBlock(MySQL, n, CurrentScope(), block, policies);
        ghost var here := Visit(block, n, CurrentScope(), path);
        FlatMapSnoc(BlockDecider(MySQL, policies), visited, here);
        visited := visited + [here];
        matches := matches + found;
      }
    }

    method Leave(n: Node)
      requires Valid()
      modifies this`scopes, this`pushes
      ensures Valid()
      ensures if old(pushes) != [] && old(pushes)[|old(pushes)| - 1] == n
              then pushes == old(pushes)[..|old(pushes)| - 1] && scopes == old(scopes)[..|old(scopes)| - 1]
              else pushes == old(pushes) && scopes == old(scopes)
    {
      if |pushes| > 0 && pushes[|pushes| - 1] == n {
        pushes := pushes[..|pushes| - 1];
        scopes := scopes[..|scopes| - 1];
      }
    }

    /** A whole subtree: both stacks come back as they were, and the SELECTs entered are those of the recursive
        enumeration of its blocks under the scope found on top of the stack. */
    method Accept(n: Node, ghost path: seq<nat>)
      requires Valid()
      modifies this
      ensures Valid() && scopes == old(scopes) && pushes == old(pushes)
      ensures visited == old(visited) + Visits(MySQL, n, old(CurrentScope()), old(block) + 1, path)
      decreases n, 2 + |Kids(MySQL, n)|
    {
      ghost var before, outer, next := visited, CurrentScope(), block + 1;
      Enter(n, path);
      ghost var entered, inner := visited, CurrentScope();
      assert inner == outer + WithNames(n);
      AcceptKids(n, 0, path);
      VisitsSplit(before, MySQL, n, outer, next, path);
      Leave(n);
    }

    method AcceptKids(n: Node, i: nat, ghost path: seq<nat>)
      requires Valid() && i <= |Kids(MySQL, n)|
      modifies this
      ensures Valid() && scopes == old(scopes) && pushes == old(pushes)
      ensures visited == old(visited) + VisitsFrom(MySQL, n, old(CurrentScope()), old(block) + 1, path, i)
      decreases n, 1 + |Kids(MySQL, n)| - i
    {
      hide Kids;
      if i < |Kids(MySQL, n)| {
        KidSmaller(MySQL, n, i);
        ghost var before, scope := visited, CurrentScope();
        ghost var v := Visits(MySQL, Kids(MySQL, n)[i], scope, block + 1, path + [i]);
        VisitsStep(before, MySQL, n, scope, block + 1, path, i);
        Accept(Kids(MySQL, n)[i], path + [i]);
        assert visited == before + v && block == |before| + |v| && CurrentScope() == scope;
        AcceptKids(n, i + 1, path);
      }
    }
  }

  lemma {:induction false} VisitsStep(before: seq<Visit>, d: Dialect, n: Node, scope: set<string>, next: nat,
                                      path: seq<nat>, i: nat)
    requires i < |Kids(d, n)|
    ensures var v := Visits(d, Kids(d, n)[i], scope, next, path + [i]);
            before + VisitsFrom(d, n, scope, next, path, i) ==
            (before + v) + VisitsFrom(d, n, scope, next + |v|, path, i + 1)
  {
    var v := Visits(d, Kids(d, n)[i], scope, next, path + [i]);
    Regroup(before, v, VisitsFrom(d, n, scope, next + |v|, path, i + 1));
  }

  lemma {:induction false} VisitsSplit(before: seq<Visit>, d: Dialect, n: Node, scope: set<string>, next: nat,
                                       path: seq<nat>)
    ensures var inner := scope + WithNames(n);
            var own := if IsBlock(d, n) then [Visit(next, n, inner, path)] else [];
            before + Visits(d, n, scope, next, path) ==
            (before + own) + VisitsFrom(d, n, inner, next + |own|, path, 0)
  {
    var inner := scope + WithNames(n);
    var own := if IsBlock(d, n) then [Visit(next, n, inner, path)] else [];
    Regroup(before, own, VisitsFrom(d, n, inner, next + |own|, path, 0));
  }

  // ---------------------------------------------------------------- the PostgreSQL walk

  /** The recursive walk: the scope is an argument, the block counter and the report are captured state. */
  class PostgresBlockWalk {
    const policies: seq<Policy>
    var block: nat
    var matches: seq<Match>
    ghost var visited: seq<Visit>

    constructor (policies: seq<Policy>)
      ensures this.policies == policies && Valid() && block == 0 && visited == []
    {
      this.policies := policies;
      block, matches, visited := 0, [], [];
    }

    ghost predicate Valid()
      reads this
    {
      block == |visited| && matches == AllMatches(Postgres, visited, policies)
    }

    method VisitBlock(n: Node, scope: set<string>, ghost path: seq<nat>)
      requires Valid()
      modifies this
      ensures Valid() && visited == old(visited) + [Visit(old(block) + 1, n, scope, path)]
    {
      block := block + 1;
      var found := DecideBlock(Postgres, n, scope, block, policies);
      ghost var here := Visit(block, n, scope, path);
      FlatMapSnoc(BlockDecider(Postgres, policies), visited, here);
      visited := visited + [here];
      matches := matches + found;
    }

    method Walk(n: Node, scope: set<string>, ghost path: seq<nat>)
      requires Valid()
      modifies this
      ensures Valid() && visited == old(visited) + Visits(Postgres, n, scope, old(block) + 1, path)
      decreases n, 2 + |Kids(Postgres, n)|
    {
      var inner := scope + WithNames(n);
      VisitsSplit(visited, Postgres, n, scope, block + 1, path);
      ghost var before := visited;
      if IsBlock(Postgres, n) {
        VisitBlock(n, inner, path);
      }
      assert visited == before + if IsBlock(Postgres, n) then [Visit(|before| + 1, n, inner, path)] else [];
      WalkKids(n, inner, 0, path);
    }

    method WalkKids(n: Node, scope: set<string>, i: nat, ghost path: seq<nat>)
      requires Valid() && i <= |Kids(Postgres, n)|
      modifies this
      ensures Valid() && visited == old(visited) + VisitsFrom(Postgres, n, scope, old(block) + 1, path, i)
      decreases n, 1 + |Kids(Postgres, n)| - i
    {
      hide Kids, Visits, AllMatches;
      if i < |Kids(Postgres, n)| {
        KidSmaller(Postgres, n, i);
        ghost var before, v := visited, Visits(Postgres, Kids(Postgres, n)[i], scope, block + 1, path + [i]);
        VisitsStep(before, Postgres, n, scope, block + 1, path, i);
        Walk(Kids(Postgres, n)[i], scope, path + [i]);
        assert visited == before + v && block == |before| + |v|;
        WalkKids(n, scope, i + 1, path);
      }
    }
  }

  // ---------------------------------------------------------------- the report

  function Unmatched(ms: seq<Match>): seq<Match> {
    if ms == [] then [] else (if !ms[0].matched then [ms[0]] else []) + Unmatched(ms[1..])
  }

  lemma {:induction false} UnmatchedSnoc(ms: seq<Match>, m: Match)
    ensures Unmatched(ms + [m]) == Unmatched(ms) + if !m.matched then [m] else []
  {
    if ms == [] {
      assert ms + [m] == [m];
    } else {
      assert (ms + [m])[1..] == ms[1..] + [m];
      UnmatchedSnoc(ms[1..], m);
    }
  }

  /** Missing entries are the refused ones, and all of them. */
  lemma {:induction false} UnmatchedExact(ms: seq<Match>, m: Match)
    ensures m in Unmatched(ms) <==> m in ms && !m.matched
  {
    if ms != [] {
      UnmatchedExact(ms[1..], m);
      assert m in ms <==> m == ms[0] || m in ms[1..];
    }
  }

  method MatchMySQL(root: Node, policies: seq<Policy>) returns (matches: seq<Match>)
    ensures matches == AllMatches(MySQL, Visits(MySQL, root, {}, 1, []), policies)
  {
    var v := new MySQLBlockVisitor(policies);
    v.Accept(root, []);
    assert v.scopes == [] && v.pushes == [];
    assert v.visited == Visits(MySQL, root, {}, 1, []);
    matches := v.matches;
  }

  method MatchPostgres(root: Node, policies: seq<Policy>) returns (matches: seq<Match>)
    ensures matches == AllMatches(Postgres, Visits(Postgres, root, {}, 1, []), policies)
  {
    var w := new PostgresBlockWalk(policies);
    w.Walk(root, {}, []);
    assert w.visited == Visits(Postgres, root, {}, 1, []);
    matches := w.matches;
  }

  method MatchRequiredPredicates(d: Dialect, root: Node, policies: seq<Policy>) returns (r: Result<Report, MatchError>)
    ensures r.Ok? <==> (forall p :: p in policies ==> p.condition.dialect == d) && OpensScope(root)
    ensures r.Ok? ==> r.value.matches == AllMatches(d, Visits(d, root, {}, 1, []), policies)
    ensures r.Ok? ==> r.value.missing == Unmatched(r.value.matches)
  {
    for i := 0 to |policies|
      invariant forall k :: 0 <= k < i ==> policies[k].condition.dialect == d
    {
      if policies[i].condition.dialect != d {
        return Err(WrongDialect(policies[i].id));
      }
    }
    if !OpensScope(root) {
      return Err(NotAQuery);
    }
    var matches;
    if d.MySQL? {
      matches := MatchMySQL(root, policies);
    } else {
      matches := MatchPostgres(root, policies);
    }
    var missing := MissingOf(matches);
    return Ok(Report(matches, missing));
  }

  method MissingOf(matches: seq<Match>) returns (missing: seq<Match>)
    ensures missing == Unmatched(matches)
  {
    missing := [];
    for i := 0 to |matches|
      invariant missing == Unmatched(matches[..i])
    {
      assert matches[..i + 1] == matches[..i] + [matches[i]];
      UnmatchedSnoc(matches[..i], matches[i]);
      if !matches[i].matched {
        missing := missing + [matches[i]];
      }
    }
    assert matches[..|matches|] == matches;
  }

  // ---------------------------------------------------------------- where the decisions come from

  /** Where a decision comes from: a block, one of its leaves, and a policy that applies there. */
  predicate Origin(d: Dialect, vs: seq<Visit>, ps: seq<Policy>, m: Match, b: nat, j: nat, k: nat) {
    b < |vs| && k < |ps| &&
    var leaves := AllLeaves(d, FromOf(vs[b].node));
    j < |leaves| &&
    var occ := OccurrenceOf(leaves[j], vs[b].scope, vs[b].block, CountSources(d, leaves));
    occ.Some? && PolicyApplies(ps[k], occ.value) && m == Decide(d, WhereOf(vs[b].node), occ.value, ps[k])
  }

  lemma {:induction false} DecisionHasOrigin(d: Dialect, vs: seq<Visit>, ps: seq<Policy>, m: Match)
    returns (b: nat, j: nat, k: nat)
    requires m in AllMatches(d, vs, ps)
    ensures Origin(d, vs, ps, m, b, j, k)
  {
    b := FlatMapOrigin(BlockDecider(d, ps), vs, m);
    var occ;
    occ, j, k := OriginInBlock(d, vs[b], ps, m);
  }

  lemma {:induction false} OriginInBlock(d: Dialect, v: Visit, ps: seq<Policy>, m: Match)
    returns (occ: Occurrence, j: nat, k: nat)
    requires m in BlockMatches(d, v, ps)
    ensures k < |ps| && PolicyApplies(ps[k], occ) && m == Decide(d, WhereOf(v.node), occ, ps[k])
    ensures var leaves := AllLeaves(d, FromOf(v.node));
            j < |leaves| && OccurrenceOf(leaves[j], v.scope, v.block, CountSources(d, leaves)) == Some(occ)
  {
    var occs, where, leaves := BlockOccurrences(d, v), WhereOf(v.node), AllLeaves(d, FromOf(v.node));
    var o := FlatMapOrigin(OccurrenceDecider(d, where, ps), occs, m);
    occ := occs[o];
    k := FlatMapOrigin(DeciderFor(d, where, occ), ps, m);
    j := OccurrenceFromLeaf(leaves, v.scope, v.block, CountSources(d, leaves), occ);
  }

  lemma {:induction false} OriginIsReported(d: Dialect, vs: seq<Visit>, ps: seq<Policy>, m: Match, b: nat, j: nat,
                                            k: nat)
    requires Origin(d, vs, ps, m, b, j, k)
    ensures m in AllMatches(d, vs, ps)
  {
    var v, where := vs[b], WhereOf(vs[b].node);
    var leaves, occs := AllLeaves(d, FromOf(v.node)), BlockOccurrences(d, v);
    var occ := OccurrenceOf(leaves[j], v.scope, v.block, CountSources(d, leaves)).value;
    LeafHasOccurrence(leaves, v.scope, v.block, CountSources(d, leaves), j);
    var o :| 0 <= o < |occs| && occs[o] == occ;
    FlatMapHolds(DeciderFor(d, where, occ), ps, k, m);
    FlatMapHolds(OccurrenceDecider(d, where, ps), occs, o, m);
    FlatMapHolds(BlockDecider(d, ps), vs, b, m);
  }

  /** The report holds a decision exactly for each unshadowed table of each block and each policy on it. */
  lemma {:induction false} ReportCoversOccurrences(d: Dialect, root: Node, ps: seq<Policy>, m: Match)
    ensures var vs := Visits(d, root, {}, 1, []);
            m in AllMatches(d, vs, ps) <==> exists b: nat, j: nat, k: nat :: Origin(d, vs, ps, m, b, j, k)
  {
    var vs := Visits(d, root, {}, 1, []);
    if m in AllMatches(d, vs, ps) {
      var b, j, k := DecisionHasOrigin(d, vs, ps, m);
    }
    if b: nat, j: nat, k: nat :| Origin(d, vs, ps, m, b, j, k) {
      OriginIsReported(d, vs, ps, m, b, j, k);
    }
  }
}
