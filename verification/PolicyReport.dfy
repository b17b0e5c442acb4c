/**
 What a report means. The sources that a column of a block can see come from the block's FROM clause; a matched
 entry of the report is enforced exactly when no column of these sources is confusable with a policy column.
 */
module PolicyReport {
  import opened Basics
  import opened Text
  import opened Sql
  import opened PolicyCondition
  import opened PolicyBlocks
  import opened PolicyMatch
  import opened PolicySoundness

  // ---------------------------------------------------------------- the sources of a block

  /** The columns each FROM item offers, and the schema an unqualified table is found in. */
  datatype Catalogue = Catalogue(columns: Node -> set<string>, home: Node -> string)

  function SourceOf(cat: Catalogue, leaf: Node): Source {
    match leaf
    case Table(schema, table, alias) =>
      if alias != "" then Source(alias, "", cat.columns(leaf))
      else Source(table, if schema != "" then schema else cat.home(leaf), cat.columns(leaf))
    case Derived(alias, _) => Source(alias, "", cat.columns(leaf))
    case FuncItem(alias, _) => Source(alias, "", cat.columns(leaf))
    case OtherItem(alias, _) => Source(alias, "", cat.columns(leaf))
    case _ => Source("", "", {})
  }

  function SourcesOf(cat: Catalogue, leaves: seq<Node>): seq<Source> {
    seq(|leaves|, i requires 0 <= i < |leaves| => SourceOf(cat, leaves[i]))
  }

  /** The sources a column of a block with this FROM clause can see, inside the given enclosing blocks. */
  function ScopesOf(d: Dialect, cat: Catalogue, from: seq<Node>, outer: Scopes): (scopes: Scopes)
    ensures |scopes| > 0 && |scopes[0]| == |AllLeaves(d, from)|
  {
    [SourcesOf(cat, AllLeaves(d, from))] + outer
  }

  /** The occurrence is what the matcher knows of source i: its exposed name, its table and schema unless an alias
      hides them, and how many sources the block has (PostgreSQL passes over some FROM items). */
  predicate Describes(nm: Naming, scopes: Scopes, i: nat, occ: Occurrence)
    requires |scopes| > 0 && i < |scopes[0]|
  {
    var src := scopes[0][i];
    && occ.alias == src.name
    && (src.home == "" || (occ.table == src.name && (occ.schema == "" || occ.schema == src.home)))
    && 1 <= occ.sourceCount <= |scopes[0]|
    && (nm.d.MySQL? ==> occ.sourceCount == |scopes[0]|)
  }

  lemma {:induction false} CountBounds(d: Dialect, leaves: seq<Node>)
    ensures CountSources(d, leaves) <= |leaves|
    ensures d.MySQL? ==> CountSources(d, leaves) == |leaves|
    ensures forall j :: 0 <= j < |leaves| && Counted(d, leaves[j]) ==> CountSources(d, leaves) >= 1
  {
    if leaves != [] {
      CountBounds(d, leaves[1..]);
      assert forall j :: 1 <= j < |leaves| ==> leaves[j] == leaves[1..][j - 1];
    }
  }

  /** Every collected occurrence describes the source it was collected from. */
  lemma {:induction false} CollectedDescribes(nm: Naming, cat: Catalogue, from: seq<Node>, j: nat, scope: set<string>,
                                              block: nat, outer: Scopes)
    requires var leaves := AllLeaves(nm.d, from);
             j < |leaves| && OccurrenceOf(leaves[j], scope, block, CountSources(nm.d, leaves)).Some?
    ensures var leaves := AllLeaves(nm.d, from);
            Describes(nm, ScopesOf(nm.d, cat, from, outer), j,
                      OccurrenceOf(leaves[j], scope, block, CountSources(nm.d, leaves)).value)
  {
    CountBounds(nm.d, AllLeaves(nm.d, from));
  }

  // ---------------------------------------------------------------- matched entries are enforced

  predicate IsCompiled(p: Policy) {
    Compiled(p.condition.dialect, p.condition.raw, p.condition.allowed) == Ok(p.condition)
  }

  /** On every row combination on which the block's WHERE is TRUE, the condition is TRUE on source j's row. */
  ghost predicate EnforcedAt(nm: Naming, scopes: Scopes, j: nat, where: Node, cond: Node)
    requires |scopes| > 0 && j < |scopes[0]|
  {
    forall sv, cells, bind, column, rest ::
      Bound(nm, scopes, where, bind) && OnTable(nm, scopes[0][j], cond, column)
      && Holds(sv, WhereLook(cells, bind, rest), where)
      ==> Holds(sv, RowLook(cells, j, column, rest), cond)
  }

  lemma {:induction false} DecisionEnforced(nm: Naming, scopes: Scopes, j: nat, occ: Occurrence, c: Condition,
                                            where: Node)
    requires |scopes| > 0 && j < |scopes[0]|
    requires Compiled(nm.d, c.raw, c.allowed) == Ok(c) && Matched(nm.d, Some(where), occ, c.atoms)
    requires Unconfusable(nm, scopes, j, occ, c.allowed)
    ensures EnforcedAt(nm, scopes, j, where, c.raw)
  {
    forall sv, cells, bind, column, rest |
      Bound(nm, scopes, where, bind) && OnTable(nm, scopes[0][j], c.raw, column)
      && Holds(sv, WhereLook(cells, bind, rest), where)
      ensures Holds(sv, RowLook(cells, j, column, rest), c.raw)
    {
      MatchedEnforced(nm, scopes, j, occ, c.allowed, where, c.raw, sv, cells, bind, column, rest);
    }
  }

  /** What a matched entry from leaf j of block v and policy p promises, inside any enclosing blocks. */
  ghost predicate EntrySound(nm: Naming, cat: Catalogue, v: Visit, j: nat, p: Policy) {
    var leaves := AllLeaves(nm.d, FromOf(v.node));
    j < |leaves| &&
    var occ := OccurrenceOf(leaves[j], v.scope, v.block, CountSources(nm.d, leaves));
    occ.Some? && WhereOf(v.node).Some? &&
    forall outer ::
      var scopes := ScopesOf(nm.d, cat, FromOf(v.node), outer);
      && Describes(nm, scopes, j, occ.value)
      && (Unconfusable(nm, scopes, j, occ.value, p.condition.allowed) ==>
            EnforcedAt(nm, scopes, j, WhereOf(v.node).value, p.condition.raw))
  }

  /**
   Every matched entry of every report: it was decided for a table of some block, the occurrence describes that
   table, and unless another visible column is confusable with a policy column the block's WHERE enforces the
   policy on the table's row.
   */
  lemma {:induction false} MatchedEntryEnforced(nm: Naming, cat: Catalogue, root: Node, ps: seq<Policy>, m: Match)
    returns (b: nat, j: nat, k: nat)
    requires forall p :: p in ps ==> IsCompiled(p) && p.condition.dialect == nm.d
    requires m in AllMatches(nm.d, Visits(nm.d, root, {}, 1, []), ps) && m.matched
    ensures Origin(nm.d, Visits(nm.d, root, {}, 1, []), ps, m, b, j, k)
    ensures EntrySound(nm, cat, Visits(nm.d, root, {}, 1, [])[b], j, ps[k])
  {
    var vs := Visits(nm.d, root, {}, 1, []);
    b, j, k := DecisionHasOrigin(nm.d, vs, ps, m);
    assert ps[k] in ps;
    OriginSound(nm, cat, vs, ps, m, b, j, k);
  }

  lemma {:induction false} OriginSound(nm: Naming, cat: Catalogue, vs: seq<Visit>, ps: seq<Policy>, m: Match, b: nat,
                                       j: nat, k: nat)
    requires Origin(nm.d, vs, ps, m, b, j, k) && m.matched
    requires IsCompiled(ps[k]) && ps[k].condition.dialect == nm.d
    ensures EntrySound(nm, cat, vs[b], j, ps[k])
  {
    var v, c := vs[b], ps[k].condition;
    var leaves := AllLeaves(nm.d, FromOf(v.node));
    var occ := OccurrenceOf(leaves[j], v.scope, v.block, CountSources(nm.d, leaves)).value;
    forall outer
      ensures Describes(nm, ScopesOf(nm.d, cat, FromOf(v.node), outer), j, occ)
      ensures Unconfusable(nm, ScopesOf(nm.d, cat, FromOf(v.node), outer), j, occ, c.allowed) ==>
                EnforcedAt(nm, ScopesOf(nm.d, cat, FromOf(v.node), outer), j, WhereOf(v.node).value, c.raw)
    {
      var scopes := ScopesOf(nm.d, cat, FromOf(v.node), outer);
      CollectedDescribes(nm, cat, FromOf(v.node), j, v.scope, v.block, outer);
      if Unconfusable(nm, scopes, j, occ, c.allowed) {
        DecisionEnforced(nm, scopes, j, occ, c, WhereOf(v.node).value);
      }
    }
  }

  // ---------------------------------------------------------------- exactly when a report can be trusted

  /** The report on a top-level block over `from` has the matched entry m for leaf j and the k-th policy. */
  predicate Claims(d: Dialect, from: seq<Node>, j: nat, allowed: set<string>, root: Node, ps: seq<Policy>, m: Match,
                   k: nat)
  {
    && root.Select? && root.with == [] && root.from == from && root.where.Some?
    && Origin(d, Visits(d, root, {}, 1, []), ps, m, 0, j, k) && m.matched
    && IsCompiled(ps[k]) && ps[k].condition.dialect == d && ps[k].condition.allowed == allowed
  }

  /** All statements that read the FROM clause `from` at the top, all policies over the allowed columns, and all
      matched entries for the table at leaf j: the WHERE enforces the policy. */
  ghost predicate ReportEnforced(nm: Naming, cat: Catalogue, from: seq<Node>, j: nat, allowed: set<string>)
    requires j < |AllLeaves(nm.d, from)|
  {
    forall root: Node, ps: seq<Policy>, m: Match, k: nat | Claims(nm.d, from, j, allowed, root, ps, m, k) ::
      EnforcedAt(nm, ScopesOf(nm.d, cat, from, []), j, root.where.value, ps[k].condition.raw)
  }

  /** The occurrence that the matcher makes of leaf j of a top-level block without WITH. */
  function TopOccurrence(d: Dialect, from: seq<Node>, j: nat): Option<Occurrence>
    requires j < |AllLeaves(d, from)|
  {
    OccurrenceOf(AllLeaves(d, from)[j], {}, 1, CountSources(d, AllLeaves(d, from)))
  }

  lemma {:induction false} TopBlock(d: Dialect, root: Node)
    requires root.Select? && root.with == []
    ensures var vs := Visits(d, root, {}, 1, []); |vs| > 0 && vs[0] == Visit(1, root, {}, [])
  {
    assert WithNames(root) == {};
    assert {} + WithNames(root) == {};
  }

  /** A breach for the occurrence is a report that claims too much. */
  lemma {:induction false} BreachInReport(nm: Naming, cat: Catalogue, from: seq<Node>, j: nat, allowed: set<string>,
                                          x: Breach)
    requires j < |AllLeaves(nm.d, from)| && TopOccurrence(nm.d, from, j).Some?
    requires Breaks(nm, ScopesOf(nm.d, cat, from, []), j, TopOccurrence(nm.d, from, j).value, allowed, x)
    ensures !ReportEnforced(nm, cat, from, j, allowed)
  {
    var root, p, m := Overclaim(nm.d, from, j, allowed, x.where, x.cond);
    assert !EnforcedAt(nm, ScopesOf(nm.d, cat, from, []), j, x.where, x.cond);
  }

  /** A WHERE that matches a condition for leaf j makes a statement whose report says so. */
  lemma {:induction false} Overclaim(d: Dialect, from: seq<Node>, j: nat, allowed: set<string>, where: Node, cond: Node)
    returns (root: Node, p: Policy, m: Match)
    requires j < |AllLeaves(d, from)| && TopOccurrence(d, from, j).Some? && Compiled(d, cond, allowed).Ok?
    requires Matched(d, Some(where), TopOccurrence(d, from, j).value, Compiled(d, cond, allowed).value.atoms)
    ensures Claims(d, from, j, allowed, root, [p], m, 0) && root.where == Some(where) && p.condition.raw == cond
  {
    var occ := TopOccurrence(d, from, j).value;
    root := Select([], [], from, Some(where), []);
    p := Policy("policy", "", occ.table, Compiled(d, cond, allowed).value);
    m := Decide(d, Some(where), occ, p);
    TopBlock(d, root);
    assert PolicyApplies(p, occ);
  }

  /**
   Reports about a table of a FROM clause can be trusted if and only if no visible column is confusable with one
   of the table's policy columns. With a confusable column some statement is reported as enforcing a policy
   although a row combination passes its WHERE and fails the policy.
   */
  lemma {:induction false} ReportSoundExactly(nm: Naming, cat: Catalogue, from: seq<Node>, j: nat, allowed: set<string>)
    requires j < |AllLeaves(nm.d, from)| && TopOccurrence(nm.d, from, j).Some?
    ensures ReportEnforced(nm, cat, from, j, allowed) <==>
              Unconfusable(nm, ScopesOf(nm.d, cat, from, []), j, TopOccurrence(nm.d, from, j).value, allowed)
  {
    var occ, scopes := TopOccurrence(nm.d, from, j).value, ScopesOf(nm.d, cat, from, []);
    if Unconfusable(nm, scopes, j, occ, allowed) {
      forall root, ps: seq<Policy>, m, k: nat | Claims(nm.d, from, j, allowed, root, ps, m, k)
        ensures EnforcedAt(nm, scopes, j, root.where.value, ps[k].condition.raw)
      {
        TopBlock(nm.d, root);
        DecisionEnforced(nm, scopes, j, occ, ps[k].condition, root.where.value);
      }
    } else {
      var c, y :| Confusable(nm, scopes, j, occ, allowed, c, y);
      var x := ConfusionBreaks(nm, scopes, j, occ, allowed, c, y);
      BreachInReport(nm, cat, from, j, allowed, x);
    }
  }

  // ---------------------------------------------------------------- what a reader of the query can check

  /** No other visible source, of the block or around it, is exposed under a name that the matcher takes for the
      occurrence: its alias or its table. */
  predicate ExposedOnce(scopes: Scopes, i: nat, occ: Occurrence) {
    forall l, j :: 0 <= l < |scopes| && 0 <= j < |scopes[l]| && (l != 0 || j != i) ==>
                     !EqualFold(scopes[l][j].name, occ.alias) && !EqualFold(scopes[l][j].name, occ.table)
  }

  /** No visible column differs from a column of source i by case alone. */
  predicate NoCaseTwins(scopes: Scopes, i: nat)
    requires |scopes| > 0 && i < |scopes[0]|
  {
    forall l, j, x, y | 0 <= l < |scopes| && 0 <= j < |scopes[l]| && x in scopes[l][j].columns &&
                        y in scopes[0][i].columns && EqualFold(x, y) :: x == y
  }

  /** A written name that the matcher accepts, and that names a policy column, denotes a column of source i. */
  lemma {:induction false} StaysHome(nm: Naming, scopes: Scopes, i: nat, occ: Occurrence, c: Cell, y: string,
                                     q: seq<string>)
    requires |scopes| > 0 && i < |scopes[0]| && ExposedOnce(scopes, i, occ) && occ.sourceCount == |scopes[0]|
    requires Accepts(nm.d, q, occ) && ResolvesTo(nm, scopes, q, c.column, c)
    requires q in OwnQualifiers(scopes[c.level][c.source])
    requires y in scopes[0][i].columns && ColumnEq(nm, c.column, y)
    ensures c.level == 0 && c.source == i
  {
    if q == [] {
      assert HasColumn(nm, scopes[0][i], c.column);
      assert Answers(nm, scopes[0][i], [], c.column);
    } else {
      assert q[|q| - 1] == scopes[c.level][c.source].name;
    }
  }

  /** On MySQL it is enough that no other visible source is exposed under a matching name. */
  lemma {:induction false} ExposedOnceEnoughForMySQL(nm: Naming, scopes: Scopes, i: nat, occ: Occurrence,
                                                     allowed: set<string>)
    requires |scopes| > 0 && i < |scopes[0]| && nm.d.MySQL? && Describes(nm, scopes, i, occ)
    requires ExposedOnce(scopes, i, occ) && DistinctColumns(nm, scopes[0][i].columns)
    ensures Unconfusable(nm, scopes, i, occ, allowed) && Sound(nm, scopes, i, occ, allowed)
  {
    forall c, y ensures !Confusable(nm, scopes, i, occ, allowed, c, y) {
      if Confusable(nm, scopes, i, occ, allowed, c, y) {
        var q :| q in OwnQualifiers(scopes[c.level][c.source]) && Accepts(nm.d, q, occ)
                 && ResolvesTo(nm, scopes, q, c.column, c);
        StaysHome(nm, scopes, i, occ, c, y, q);
      }
    }
    NoConfusionSound(nm, scopes, i, occ, allowed);
  }

  /** PostgreSQL tells columns apart by case and does not count every FROM item: there it takes two facts more. */
  lemma {:induction false} ExposedOnceForPostgres(nm: Naming, scopes: Scopes, i: nat, occ: Occurrence,
                                                  allowed: set<string>)
    requires |scopes| > 0 && i < |scopes[0]| && nm.d.Postgres?
    requires ExposedOnce(scopes, i, occ) && NoCaseTwins(scopes, i) && occ.sourceCount == |scopes[0]|
    ensures Unconfusable(nm, scopes, i, occ, allowed) && Sound(nm, scopes, i, occ, allowed)
  {
    forall c, y ensures !Confusable(nm, scopes, i, occ, allowed, c, y) {
      if Confusable(nm, scopes, i, occ, allowed, c, y) {
        var q :| q in OwnQualifiers(scopes[c.level][c.source]) && Accepts(nm.d, q, occ)
                 && ResolvesTo(nm, scopes, q, c.column, c);
        StaysHome(nm, scopes, i, occ, c, y, q);
      }
    }
    NoConfusionSound(nm, scopes, i, occ, allowed);
  }

  // ---------------------------------------------------------------- examples

  function OneColumn(name: string): Catalogue {
    Catalogue(_ => {name}, _ => "public")
  }

  lemma {:induction false} TwoTables(d: Dialect, a: Node, b: Node)
    requires a.Table? && b.Table?
    ensures AllLeaves(d, [a, b]) == [a, b] && CountSources(d, [a, b]) == 2
    ensures AllLeaves(d, [a]) == [a] && CountSources(d, [a]) == 1
  {
    assert [a, b][1..] == [b] && [a][1..] == [] && [b][1..] == [];
    assert Leaves(d, a) == [a] && Leaves(d, b) == [b];
    assert AllLeaves(d, [b]) == [b] + AllLeaves(d, []);
    assert AllLeaves(d, [a]) == [a] + AllLeaves(d, []);
    assert AllLeaves(d, [a, b]) == [a] + AllLeaves(d, [b]);
    assert CountSources(d, [b]) == 1 + CountSources(d, []);
  }

  /** FROM orders AS o, orders: the bare table name belongs to the second table, yet counts for the first one too. */
  lemma {:induction false} HiddenTableNameExample(nm: Naming)
    ensures var from := [Table("", "orders", "o"), Table("", "orders", "")];
            |AllLeaves(nm.d, from)| == 2 && !ReportEnforced(nm, OneColumn("tenant"), from, 0, {"tenant"})
  {
    var a, b, cat := Table("", "orders", "o"), Table("", "orders", ""), OneColumn("tenant");
    TwoTables(nm.d, a, b);
    var scopes, c := ScopesOf(nm.d, cat, [a, b], []), Cell(0, 1, "tenant");
    var occ := TopOccurrence(nm.d, [a, b], 0).value;
    assert scopes[0][0] == Source("o", "", {"tenant"}) && scopes[0][1] == Source("orders", "public", {"tenant"});
    assert |"o"| != |"orders"|;
    assert ResolvesTo(nm, scopes, ["orders"], "tenant", c);
    assert Lower("tenant") == "tenant";
    assert ["orders"] in OwnQualifiers(scopes[0][1]) && Accepts(nm.d, ["orders"], occ);
    assert Confusable(nm, scopes, 0, occ, {"tenant"}, c, "tenant");
    ReportSoundExactly(nm, cat, [a, b], 0, {"tenant"});
  }

  /** FROM orders alone: every report about it can be trusted. */
  lemma {:induction false} SingleTableExample(nm: Naming)
    ensures var from := [Table("", "orders", "")];
            |AllLeaves(nm.d, from)| == 1 && ReportEnforced(nm, OneColumn("tenant"), from, 0, {"tenant"})
  {
    var a, cat := Table("", "orders", ""), OneColumn("tenant");
    TwoTables(nm.d, a, a);
    var scopes: Scopes := ScopesOf(nm.d, cat, [a], []);
    var occ := TopOccurrence(nm.d, [a], 0).value;
    assert scopes[0][0].columns == {"tenant"};
    CollectedDescribes(nm, cat, [a], 0, {}, 1, []);
    if nm.d.MySQL? {
      ExposedOnceEnoughForMySQL(nm, scopes, 0, occ, {"tenant"});
    } else {
      ExposedOnceForPostgres(nm, scopes, 0, occ, {"tenant"});
    }
    ReportSoundExactly(nm, cat, [a], 0, {"tenant"});
  }

  /** On PostgreSQL a one-table block is not enough: a bare Tenant skips a table with tenant and finds the enclosing
      block's Tenant, and the matcher takes it for the policy column. */
  lemma {:induction false} CaseTwinExample(scopes: Scopes, occ: Occurrence)
    requires scopes == [[Source("orders", "public", {"tenant"})], [Source("x", "public", {"Tenant"})]]
    requires occ == Occurrence(1, "", "orders", "orders", 1)
    ensures Describes(Naming(Postgres, false), scopes, 0, occ) && ExposedOnce(scopes, 0, occ)
    ensures !Sound(Naming(Postgres, false), scopes, 0, occ, {"tenant"})
  {
    var nm, c := Naming(Postgres, false), Cell(1, 0, "Tenant");
    assert |"x"| != |"orders"|;
    assert "Tenant"[0] != "tenant"[0];
    assert !Answers(nm, scopes[0][0], [], "Tenant");
    assert ResolvesTo(nm, scopes, [], "Tenant", c);
    assert Lower("Tenant") == Lower("tenant") == "tenant";
    assert [] in OwnQualifiers(scopes[1][0]);
    assert Confusable(nm, scopes, 0, occ, {"tenant"}, c, "tenant");
    SoundExactly(nm, scopes, 0, occ, {"tenant"});
  }

  /** Other sources of the block are not the only ones that count: inside FROM orders, a block over orders AS o can
      name the outer table. */
  lemma {:induction false} OuterTableExample(nm: Naming, scopes: Scopes, occ: Occurrence)
    requires scopes == [[Source("o", "", {"tenant"})], [Source("orders", "public", {"tenant"})]]
    requires occ == Occurrence(2, "", "orders", "o", 1)
    ensures Describes(nm, scopes, 0, occ) && ExposedOnce([scopes[0]], 0, occ)
    ensures !Sound(nm, scopes, 0, occ, {"tenant"})
  {
    var c := Cell(1, 0, "tenant");
    assert |"o"| != |"orders"|;
    assert ResolvesTo(nm, scopes, ["orders"], "tenant", c);
    assert Lower("tenant") == "tenant";
    assert ["orders"] in OwnQualifiers(scopes[1][0]) && Accepts(nm.d, ["orders"], occ);
    assert Confusable(nm, scopes, 0, occ, {"tenant"}, c, "tenant");
    SoundExactly(nm, scopes, 0, occ, {"tenant"});
  }
}
