/**
 Row-policy conditions: flattening a conjunction into atoms, the canonical key of an atom, which atoms
 of a WHERE clause are evidence for a table occurrence, and the multiset test between the two
 (internal/dbconn/predicate_policy*.go).
 */
module PolicyCondition {
  import opened Basics
  import opened Lists
  import opened Text
  import opened Sql

  /** One direct physical table occurrence in one query block. */
  datatype Occurrence = Occurrence(block: nat, schema: string, table: string, alias: string, sourceCount: nat)

  /** Why a column, wildcard or subquery refuses an atom. */
  datatype Fault =
    | SubqueryFault
    | WildcardFault
    | NotAllowed(col: string)
    | Ambiguous(col: string)
    | Foreign(col: string)

  /** What a walk over an atom checks: a condition's allow-list, or the binding to an occurrence. */
  datatype Check = Check(allowed: Option<set<string>>, rejectSubquery: bool, occ: Option<Occurrence>)

  function ConditionCheck(allowed: set<string>): Check {
    Check(Some(allowed), true, None)
  }

  /** MySQL also refuses subqueries inside WHERE atoms; PostgreSQL looks through them. */
  function QueryCheck(d: Dialect, occ: Occurrence): Check {
    Check(None, d.MySQL?, Some(occ))
  }

  // ---------------------------------------------------------------- conjunctions

  /** The top-level conjuncts. Only MySQL trees carry explicit parentheses, and its AND is binary. */
  function Flatten(d: Dialect, e: Node): seq<Node> {
    match e
    case Op(And, args) => if d.MySQL? && |args| != 2 then [e] else FlattenAll(d, args)
    case Op(Paren, args) => if d.MySQL? && |args| == 1 then Flatten(d, args[0]) else [e]
    case _ => [e]
  }

  function FlattenAll(d: Dialect, es: seq<Node>): seq<Node> {
    if es == [] then [] else Flatten(d, es[0]) + FlattenAll(d, es[1..])
  }

  lemma {:induction false} FlattenAllConcat(d: Dialect, xs: seq<Node>, ys: seq<Node>)
    ensures FlattenAll(d, xs + ys) == FlattenAll(d, xs) + FlattenAll(d, ys)
  {
    if xs == [] {
      assert xs + ys == ys;
    } else {
      assert (xs + ys)[1..] == xs[1..] + ys;
      FlattenAllConcat(d, xs[1..], ys);
    }
  }

  method FlattenMySQLAnd(expr: Node) returns (out: seq<Node>)
    ensures out == Flatten(MySQL, expr)
    decreases expr
  {
    var e := expr;
    while e.Op? && e.op == Paren && |e.args| == 1
      invariant Flatten(MySQL, e) == Flatten(MySQL, expr)
      invariant e == expr || e < expr
      decreases e
    {
      e := e.args[0];
    }
    if e.Op? && e.op == And && |e.args| == 2 {
      var l := FlattenMySQLAnd(e.args[0]);
      var r := FlattenMySQLAnd(e.args[1]);
      assert e.args == [e.args[0]] + [e.args[1]];
      FlattenAllConcat(MySQL, [e.args[0]], [e.args[1]]);
      out := l + r;
    } else {
      out := [e];
    }
  }

  method FlattenPostgresAnd(expr: Node) returns (out: seq<Node>)
    ensures out == Flatten(Postgres, expr)
    decreases expr
  {
    if expr.Op? && expr.op == And {
      out := [];
      for i := 0 to |expr.args|
        invariant out == FlattenAll(Postgres, expr.args[..i])
      {
        var more := FlattenPostgresAnd(expr.args[i]);
        assert expr.args[..i + 1] == expr.args[..i] + [expr.args[i]];
        FlattenAllConcat(Postgres, expr.args[..i], [expr.args[i]]);
        out := out + more;
      }
      assert expr.args[..|expr.args|] == expr.args;
    } else {
      out := [expr];
    }
  }

  /** Flattening keeps the meaning: an expression is TRUE exactly when every conjunct is. */
  lemma {:induction false} FlattenHolds(sv: Server, look: Node -> Value, d: Dialect, e: Node)
    ensures Holds(sv, look, e) <==> forall a :: a in Flatten(d, e) ==> Holds(sv, look, a)
  {
    match e
    case Op(And, args) =>
      if !(d.MySQL? && |args| != 2) {
        FlattenAllHolds(sv, look, d, args);
        ConjunctionHolds(sv, EvalAll(sv, look, args));
      }
    case Op(Paren, args) =>
      if d.MySQL? && |args| == 1 { FlattenHolds(sv, look, d, args[0]); }
    case _ =>
  }

  lemma {:induction false} FlattenAllHolds(sv: Server, look: Node -> Value, d: Dialect, es: seq<Node>)
    ensures (forall i :: 0 <= i < |es| ==> Holds(sv, look, es[i]))
       <==> forall a :: a in FlattenAll(d, es) ==> Holds(sv, look, a)
  {
    if es != [] {
      FlattenHolds(sv, look, d, es[0]);
      FlattenAllHolds(sv, look, d, es[1..]);
      assert forall i :: 0 < i < |es| ==> es[i] == es[1..][i - 1];
      assert forall i :: 0 <= i < |es[1..]| ==> es[1..][i] == es[i + 1];
    }
  }

  // ---------------------------------------------------------------- canonical keys

  /** MySQL's printer skips redundant parentheses; the tree already carries the grouping. */
  function Strip(e: Node): Node {
    match e
    case Op(op, args) =>
      if op == Paren && |args| == 1 then Strip(args[0]) else Op(op, StripAll(args))
    case _ => e
  }

  function StripAll(es: seq<Node>): (r: seq<Node>)
    ensures |r| == |es| && forall i :: 0 <= i < |es| ==> r[i] == Strip(es[i])
  {
    if es == [] then [] else [Strip(es[0])] + StripAll(es[1..])
  }

  function KeyName(d: Dialect, name: string): string {
    if d.MySQL? then name else Lower(name)
  }

  /** Qualifiers are dropped, at every depth; PostgreSQL also lower-cases the column. */
  function Erase(d: Dialect, e: Node): Node
    decreases e, 2 + |Kids(d, e)|
  {
    match e
    case Col(_, name) => Col([], KeyName(d, name))
    case Op(op, args) => Op(op, EraseAll(d, args))
    case _ => WithKids(d, e, EraseKids(d, e, 0))
  }

  function EraseKids(d: Dialect, n: Node, i: nat): (r: seq<Node>)
    requires i <= |Kids(d, n)|
    ensures |r| == |Kids(d, n)| - i
    decreases n, 1 + |Kids(d, n)| - i
  {
    if i == |Kids(d, n)| then [] else
    KidSmaller(d, n, i);
    [Erase(d, Kids(d, n)[i])] + EraseKids(d, n, i + 1)
  }

  lemma {:induction false} EraseKidsAt(d: Dialect, n: Node, i: nat, k: nat)
    requires i <= k < |Kids(d, n)|
    ensures EraseKids(d, n, i)[k - i] == Erase(d, Kids(d, n)[k])
    decreases k - i
  {
    hide Kids;
    if i < k {
      EraseKidsAt(d, n, i + 1, k);
    }
  }

  function EraseAll(d: Dialect, es: seq<Node>): (r: seq<Node>)
    ensures |r| == |es| && forall i :: 0 <= i < |es| ==> r[i] == Erase(d, es[i])
    decreases es, 0
  {
    if es == [] then [] else [Erase(d, es[0])] + EraseAll(d, es[1..])
  }

  function Bare(d: Dialect, e: Node): Node {
    if d.MySQL? then Strip(e) else e
  }

  function Key(d: Dialect, e: Node): Node {
    Erase(d, Bare(d, e))
  }

  // ---------------------------------------------------------------- column checks

  /** Whether a written qualifier may denote the occurrence. */
  predicate QualifierMatches(d: Dialect, quals: seq<string>, occ: Occurrence)
    requires quals != []
  {
    var table := quals[|quals| - 1];
    var schema := if |quals| >= 2 then quals[|quals| - 2] else "";
    if d.MySQL? then
      if EqualFold(table, occ.alias) then schema == ""
      else EqualFold(table, occ.table) && (schema == "" || EqualFold(schema, occ.schema))
    else if |quals| == 1 then EqualFold(table, occ.alias) || EqualFold(table, occ.table)
    else EqualFold(schema, occ.schema) && EqualFold(table, occ.table)
  }

  /** A bare column binds to the occurrence only in a one-source block. */
  predicate Accepts(d: Dialect, quals: seq<string>, occ: Occurrence) {
    if quals == [] then occ.sourceCount == 1 else QualifierMatches(d, quals, occ)
  }

  function LocalFault(d: Dialect, c: Check, n: Node): Option<Fault> {
    match n
    case Star(_) => Some(WildcardFault)   // MySQL expressions outside subqueries have no wildcards
    case Col(quals, name) =>
      if c.allowed.Some? && Lower(name) !in c.allowed.value then Some(NotAllowed(name))
      else if c.occ.None? || Accepts(d, quals, c.occ.value) then None
      else if quals == [] then Some(Ambiguous(name))
      else Some(Foreign(name))
    case Lit(_) => None
    case Op(_, _) => None
    case _ => if c.rejectSubquery then Some(SubqueryFault) else None   // Sub, or a node only met below one
  }

  /** The first refusal in visiting order, looking at every node below as well. */
  function FirstFault(d: Dialect, c: Check, n: Node): Option<Fault>
    decreases n, 2 + |Kids(d, n)|
  {
    if LocalFault(d, c, n).Some? then LocalFault(d, c, n) else FaultFrom(d, c, n, 0)
  }

  function FaultFrom(d: Dialect, c: Check, n: Node, i: nat): Option<Fault>
    requires i <= |Kids(d, n)|
    decreases n, 1 + |Kids(d, n)| - i
  {
    if i == |Kids(d, n)| then None else
    KidSmaller(d, n, i);
    var f := FirstFault(d, c, Kids(d, n)[i]);
    if f.Some? then f else FaultFrom(d, c, n, i + 1)
  }

  /** The lower-cased names of all columns below a node. */
  function Columns(d: Dialect, n: Node): set<string>
    decreases n, 2 + |Kids(d, n)|
  {
    if n.Col? then {Lower(n.name)} else ColumnsFrom(d, n, 0)
  }

  function ColumnsFrom(d: Dialect, n: Node, i: nat): set<string>
    requires i <= |Kids(d, n)|
    decreases n, 1 + |Kids(d, n)| - i
  {
    if i == |Kids(d, n)| then {} else
    KidSmaller(d, n, i);
    Columns(d, Kids(d, n)[i]) + ColumnsFrom(d, n, i + 1)
  }

  /** What a passed check says about the columns of the expression itself. */
  lemma {:induction false} NoFaultRefs(d: Dialect, c: Check, e: Node)
    requires FirstFault(d, c, e).None?
    ensures forall r :: r in Refs(e) ==> r.Col? && LocalFault(d, c, r).None?
    decreases e
  {
    if e.Op? {
      NoFaultFrom(d, c, e, 0);
      NoFaultRefsAll(d, c, e.args);
    }
  }

  lemma {:induction false} NoFaultRefsAll(d: Dialect, c: Check, es: seq<Node>)
    requires forall i :: 0 <= i < |es| ==> FirstFault(d, c, es[i]).None?
    ensures forall r :: r in RefsAll(es) ==> r.Col? && LocalFault(d, c, r).None?
    decreases es
  {
    if es != [] {
      NoFaultRefs(d, c, es[0]);
      assert forall i :: 0 <= i < |es[1..]| ==> es[1..][i] == es[i + 1];
      NoFaultRefsAll(d, c, es[1..]);
    }
  }

  lemma {:induction false} NoFaultFrom(d: Dialect, c: Check, n: Node, i: nat)
    requires i <= |Kids(d, n)|
    ensures FaultFrom(d, c, n, i).None? <==>
            forall k :: i <= k < |Kids(d, n)| ==> FirstFault(d, c, Kids(d, n)[k]).None?
    decreases |Kids(d, n)| - i
  {
    hide Kids;
    if i < |Kids(d, n)| { NoFaultFrom(d, c, n, i + 1); }
  }

  /** mysqlColumnVisitor: Enter and Leave over a syntax tree, stopping at the first refusal. */
  class ColumnVisitor {
    const check: Check
    var columns: set<string>
    var err: Option<Fault>

    constructor (check: Check)
      ensures this.check == check && columns == {} && err == None
    {
      this.check := check;
      columns := {};
      err := None;
    }

    method Enter(n: Node) returns (skip: bool)
      modifies this
      ensures old(err).Some? ==> skip && err == old(err) && columns == old(columns)
      ensures old(err).None? ==> err == LocalFault(MySQL, check, n) && skip == err.Some?
      ensures old(err).None? && err.None? ==> columns == old(columns) + if n.Col? then {Lower(n.name)} else {}
    {
      if err.Some? {
        return true;
      }
      err := LocalFault(MySQL, check, n);
      if err.Some? {
        return true;
      }
      if n.Col? {
        columns := columns + {Lower(n.name)};
      }
      return false;
    }

    method Accept(n: Node) returns (ok: bool)
      modifies this
      ensures old(err).Some? ==> err == old(err)
      ensures old(err).None? ==> err == FirstFault(MySQL, check, n)
      ensures old(err).None? && err.None? ==> columns == old(columns) + Columns(MySQL, n)
      ensures ok == err.None?
      decreases n
    {
      var skip := Enter(n);
      if skip {
        return err.None?;
      }
      var kids := Kids(MySQL, n);
      for i := 0 to |kids|
        invariant err.None?
        invariant FirstFault(MySQL, check, n) == FaultFrom(MySQL, check, n, i)
        invariant old(columns) + Columns(MySQL, n) == columns + if n.Col? then {} else ColumnsFrom(MySQL, n, i)
      {
        KidSmaller(MySQL, n, i);
        ok := Accept(kids[i]);
        if !ok {
          return;
        }
      }
      return err.None?;
    }
  }

  /** Nodes that an expression holds only inside a subquery, and the subquery itself. */
  predicate OfSubquery(n: Node) {
    !n.Col? && !n.Star? && !n.Lit? && !n.Op?
  }

  /** normalizePostgresNode with its bind closure: columns are rewritten on the way, up to the first refusal. */
  class PostgresNormalizer {
    const check: Check
    var columns: set<string>   // gathered for conditions only
    var eligible: bool

    constructor (check: Check)
      ensures this.check == check && columns == {} && eligible
    {
      this.check := check;
      columns, eligible := {}, true;
    }

    function Gathered(n: Node): set<string> {
      if check.allowed.Some? then Columns(Postgres, n) else {}
    }

    function GatheredFrom(n: Node, i: nat): set<string>
      requires i <= |Kids(Postgres, n)|
    {
      if check.allowed.Some? then ColumnsFrom(Postgres, n, i) else {}
    }

    /** The bind closure; only a column bound to another source makes a query atom ineligible. */
    method BindColumn(quals: seq<string>, name: string) returns (col: string, fault: Option<Fault>)
      modifies this
      ensures fault == LocalFault(Postgres, check, Col(quals, name))
      ensures fault.None? ==> Col([], col) == Erase(Postgres, Col(quals, name))
      ensures columns == old(columns) + if fault.None? then Gathered(Col(quals, name)) else {}
      ensures eligible == (old(eligible) && !(fault.Some? && !fault.value.NotAllowed?))
    {
      col, fault := Lower(name), None;
      if check.allowed.Some? {
        if col !in check.allowed.value {
          return "", Some(NotAllowed(name));
        }
      }
      if check.occ.Some? {
        if |quals| == 0 {
          if check.occ.value.sourceCount != 1 {
            eligible := false;
            return "", Some(Ambiguous(name));
          }
        } else if !QualifierMatches(Postgres, quals, check.occ.value) {
          eligible := false;
          return "", Some(Foreign(name));
        }
      }
      if check.allowed.Some? {
        columns := columns + {col};
      }
    }

    /** walkPostgresProto: the node first, then everything below it in order. */
    method Normalize(n: Node) returns (r: Node, fault: Option<Fault>)
      modifies this
      ensures fault == FirstFault(Postgres, check, n)
      ensures fault.None? ==> r == Erase(Postgres, n) && columns == old(columns) + Gathered(n)
      ensures fault.None? ==> eligible == old(eligible)
      decreases n, 1
    {
      r, fault := n, None;
      if check.rejectSubquery && OfSubquery(n) {
        return n, Some(SubqueryFault);
      }
      if n.Star? {
        return n, Some(WildcardFault);
      }
      if n.Col? {
        var col;
        col, fault := BindColumn(n.quals, n.name);
        return Col([], col), fault;
      }
      var kids;
      kids, fault := NormalizeKids(n);
      if fault.None? {
        NormalizedKids(n, kids);
        r := WithKids(Postgres, n, kids);
      }
    }

    method NormalizeKids(n: Node) returns (out: seq<Node>, fault: Option<Fault>)
      modifies this
      ensures fault == FaultFrom(Postgres, check, n, 0)
      ensures fault.None? ==> IsErased(out, Kids(Postgres, n))
      ensures fault.None? ==> columns == old(columns) + GatheredFrom(n, 0) && eligible == old(eligible)
      decreases n, 0
    {
      hide Kids;
      out, fault := [], None;
      var kids := Kids(Postgres, n);
      for i := 0 to |kids|
        invariant fault.None? && IsErased(out, kids[..i])
        invariant FaultFrom(Postgres, check, n, 0) == FaultFrom(Postgres, check, n, i)
        invariant old(columns) + GatheredFrom(n, 0) == columns + GatheredFrom(n, i) && eligible == old(eligible)
      {
        KidSmaller(Postgres, n, i);
        var kid;
        kid, fault := Normalize(kids[i]);
        if fault.Some? {
          return out, fault;
        }
        out := out + [kid];
      }
      assert kids[..|kids|] == kids;
    }
  }

  predicate IsErased(out: seq<Node>, kids: seq<Node>) {
    |out| == |kids| && forall k :: 0 <= k < |out| ==> out[k] == Erase(Postgres, kids[k])
  }

  lemma {:induction false} NormalizedKids(n: Node, out: seq<Node>)
    requires !n.Col? && IsErased(out, Kids(Postgres, n))
    ensures WithKids(Postgres, n, out) == Erase(Postgres, n)
  {
    if n.Op? {
      assert out == EraseAll(Postgres, n.args);
    } else {
      forall k | 0 <= k < |out| ensures out[k] == EraseKids(Postgres, n, 0)[k] {
        EraseKidsAt(Postgres, n, 0, k);
      }
      assert out == EraseKids(Postgres, n, 0);
    }
  }

  method CanonicalPostgresConditionAtom(node: Node, allowed: set<string>)
    returns (key: Node, columns: set<string>, fault: Option<Fault>)
    ensures fault == FirstFault(Postgres, ConditionCheck(allowed), node)
    ensures fault.None? ==> key == Key(Postgres, node) && columns == Columns(Postgres, node)
  {
    var normalizer := new PostgresNormalizer(ConditionCheck(allowed));
    key, fault := normalizer.Normalize(node);
    columns := normalizer.columns;
  }

  // ---------------------------------------------------------------- compiling a condition

  datatype Condition = Condition(dialect: Dialect, raw: Node, allowed: set<string>, columns: set<string>,
                                 atoms: seq<Node>)

  datatype CompileError =
    | EmptyCondition
    | NoAllowedColumn
    | UnsupportedDialect(name: string)
    | Unparsable
    | BadAtom(fault: Fault)
    | NoColumn

  datatype Result<+T, +E> = Ok(value: T) | Err(error: E)

  function AllowedSet(cols: seq<string>): set<string> {
    set c | c in cols && TrimSpace(c) != "" :: Lower(TrimSpace(c))
  }

  function FirstBadAtom(d: Dialect, c: Check, atoms: seq<Node>): Option<Fault> {
    if atoms == [] then None
    else if FirstFault(d, c, atoms[0]).Some? then FirstFault(d, c, atoms[0])
    else FirstBadAtom(d, c, atoms[1..])
  }

  function Keys(d: Dialect, atoms: seq<Node>): seq<Node> {
    seq(|atoms|, i requires 0 <= i < |atoms| => Key(d, atoms[i]))
  }

  function ColumnsOf(d: Dialect, atoms: seq<Node>): set<string> {
    set i, c | 0 <= i < |atoms| && c in Columns(d, atoms[i]) :: c
  }

  function Compiled(d: Dialect, cond: Node, allowed: set<string>): Result<Condition, CompileError> {
    var atoms := Flatten(d, cond);
    var bad := FirstBadAtom(d, ConditionCheck(allowed), atoms);
    if allowed == {} then Err(NoAllowedColumn)
    else if bad.Some? then Err(BadAtom(bad.value))
    else if ColumnsOf(d, atoms) == {} then Err(NoColumn)
    else Ok(Condition(d, cond, allowed, ColumnsOf(d, atoms), Keys(d, atoms)))
  }

  lemma {:induction false} BadAtomAt(d: Dialect, c: Check, atoms: seq<Node>, i: nat)
    requires i < |atoms|
    requires forall k :: 0 <= k < i ==> FirstFault(d, c, atoms[k]).None?
    ensures FirstFault(d, c, atoms[i]).Some? ==> FirstBadAtom(d, c, atoms) == FirstFault(d, c, atoms[i])
  {
    if i > 0 { BadAtomAt(d, c, atoms[1..], i - 1); }
  }

  lemma {:induction false} NoBadAtom(d: Dialect, c: Check, atoms: seq<Node>)
    ensures FirstBadAtom(d, c, atoms).None? <==> forall a :: a in atoms ==> FirstFault(d, c, a).None?
  {
    if atoms != [] {
      NoBadAtom(d, c, atoms[1..]);
      assert atoms[0] in atoms;
      assert forall a :: a in atoms <==> a == atoms[0] || a in atoms[1..];
    }
  }

  /** What the loops over the atoms have gathered from the first i. */
  ghost predicate AtomsParsed(d: Dialect, allowed: set<string>, flat: seq<Node>, i: nat, columns: set<string>,
                              atoms: seq<Node>)
  {
    && i <= |flat| && columns == ColumnsOf(d, flat[..i]) && atoms == Keys(d, flat[..i])
    && forall k :: 0 <= k < i ==> FirstFault(d, ConditionCheck(allowed), flat[k]).None?
  }

  lemma {:induction false} AtomParsed(d: Dialect, allowed: set<string>, flat: seq<Node>, i: nat, columns: set<string>,
                                      atoms: seq<Node>)
    requires i < |flat| && AtomsParsed(d, allowed, flat, i, columns, atoms)
    requires FirstFault(d, ConditionCheck(allowed), flat[i]).None?
    ensures AtomsParsed(d, allowed, flat, i + 1, columns + Columns(d, flat[i]), atoms + [Key(d, flat[i])])
  {
    assert flat[..i + 1] == flat[..i] + [flat[i]];
    ColumnsOfSnoc(d, flat[..i], flat[i]);
  }

  lemma {:induction false} AllParsed(d: Dialect, allowed: set<string>, flat: seq<Node>, columns: set<string>,
                                     atoms: seq<Node>)
    requires AtomsParsed(d, allowed, flat, |flat|, columns, atoms)
    ensures FirstBadAtom(d, ConditionCheck(allowed), flat).None?
    ensures columns == ColumnsOf(d, flat) && atoms == Keys(d, flat)
  {
    assert flat[..|flat|] == flat;
    NoBadAtom(d, ConditionCheck(allowed), flat);
  }

  method ParseMySQLPolicyCondition(cond: Node, allowed: set<string>) returns (r: Result<Condition, CompileError>)
    requires allowed != {}
    ensures r == Compiled(MySQL, cond, allowed)
  {
    var flat := FlattenMySQLAnd(cond);
    var columns: set<string> := {};
    var atoms := [];
    for i := 0 to |flat|
      invariant AtomsParsed(MySQL, allowed, flat, i, columns, atoms)
    {
      var v := new ColumnVisitor(ConditionCheck(allowed));
      var ok := v.Accept(flat[i]);
      BadAtomAt(MySQL, ConditionCheck(allowed), flat, i);
      if !ok {
        return Err(BadAtom(v.err.value));
      }
      AtomParsed(MySQL, allowed, flat, i, columns, atoms);
      columns := columns + v.columns;
      atoms := atoms + [Key(MySQL, flat[i])];
    }
    AllParsed(MySQL, allowed, flat, columns, atoms);
    if columns == {} {
      return Err(NoColumn);
    }
    return Ok(Condition(MySQL, cond, allowed, columns, atoms));
  }

  lemma {:induction false} ColumnsOfSnoc(d: Dialect, atoms: seq<Node>, a: Node)
    ensures ColumnsOf(d, atoms + [a]) == ColumnsOf(d, atoms) + Columns(d, a)
  {
    var all := atoms + [a];
    forall c | c in ColumnsOf(d, atoms) + Columns(d, a) ensures c in ColumnsOf(d, all) {
      if c in Columns(d, a) {
        assert all[|atoms|] == a;
      } else {
        var i :| 0 <= i < |atoms| && c in Columns(d, atoms[i]);
        assert all[i] == atoms[i];
      }
    }
  }

  method ParsePostgresPolicyCondition(cond: Node, allowed: set<string>) returns (r: Result<Condition, CompileError>)
    requires allowed != {}
    ensures r == Compiled(Postgres, cond, allowed)
  {
    var flat := FlattenPostgresAnd(cond);
    var columns: set<string> := {};
    var atoms := [];
    for i := 0 to |flat|
      invariant AtomsParsed(Postgres, allowed, flat, i, columns, atoms)
    {
      var key, cols, fault := CanonicalPostgresConditionAtom(flat[i], allowed);
      BadAtomAt(Postgres, ConditionCheck(allowed), flat, i);
      if fault.Some? {
        return Err(BadAtom(fault.value));
      }
      AtomParsed(Postgres, allowed, flat, i, columns, atoms);
      columns := columns + cols;
      atoms := atoms + [key];
    }
    AllParsed(Postgres, allowed, flat, columns, atoms);
    if columns == {} {
      return Err(NoColumn);
    }
    return Ok(Condition(Postgres, cond, allowed, columns, atoms));
  }

  function DialectOf(name: string): Option<Dialect> {
    if name == "postgres" then Some(Postgres)
    else if name == "mysql" || name == "mariadb" then Some(MySQL)
    else None
  }

  /** ParsePredicateCondition on texts; `parse` is the parser library of the named dialect. */
  function CompiledText(dialect: string, condition: string, allowedColumns: seq<string>,
                        parse: (string, string) -> Option<Node>): Result<Condition, CompileError>
  {
    var name, text, allowed := Lower(TrimSpace(dialect)), TrimSpace(condition), AllowedSet(allowedColumns);
    var d := DialectOf(name);
    if text == "" then Err(EmptyCondition)
    else if allowed == {} then Err(NoAllowedColumn)
    else if d.None? then Err(UnsupportedDialect(name))
    else if parse(name, text).None? then Err(Unparsable)
    else Compiled(d.value, parse(name, text).value, allowed)
  }

  method ParsePredicateCondition(dialect: string, condition: string, allowedColumns: seq<string>,
                                 parse: (string, string) -> Option<Node>)
    returns (r: Result<Condition, CompileError>)
    ensures r == CompiledText(dialect, condition, allowedColumns, parse)
  {
    var name, text := Lower(TrimSpace(dialect)), TrimSpace(condition);
    if text == "" {
      return Err(EmptyCondition);
    }
    var allowed: set<string> := {};
    for i := 0 to |allowedColumns|
      invariant allowed == AllowedSet(allowedColumns[..i])
    {
      assert allowedColumns[..i + 1] == allowedColumns[..i] + [allowedColumns[i]];
      var col := TrimSpace(allowedColumns[i]);
      if col != "" {
        allowed := allowed + {Lower(col)};
      }
    }
    assert allowedColumns[..|allowedColumns|] == allowedColumns;
    if allowed == {} {
      return Err(NoAllowedColumn);
    }
    if name != "postgres" && name != "mysql" && name != "mariadb" {
      return Err(UnsupportedDialect(name));
    }
    var parsed := parse(name, text);
    if parsed.None? {
      return Err(Unparsable);
    }
    if name == "postgres" {
      r := ParsePostgresPolicyCondition(parsed.value, allowed);
    } else {
      r := ParseMySQLPolicyCondition(parsed.value, allowed);
    }
  }

  // ---------------------------------------------------------------- evidence in a WHERE clause

  function KeysOfEligible(d: Dialect, occ: Occurrence): Node -> seq<Node> {
    (atom: Node) => KeyIfEligible(d, occ, atom)
  }

  function EligibleKeys(d: Dialect, occ: Occurrence, atoms: seq<Node>): seq<Node> {
    FlatMap(KeysOfEligible(d, occ), atoms)
  }

  function KeyIfEligible(d: Dialect, occ: Occurrence, atom: Node): seq<Node> {
    if FirstFault(d, QueryCheck(d, occ), atom).None? then [Key(d, atom)] else []
  }

  function QueryAtoms(d: Dialect, where: Option<Node>, occ: Occurrence): seq<Node> {
    if where.None? then [] else EligibleKeys(d, occ, Flatten(d, where.value))
  }

  method MySQLQueryAtoms(where: Option<Node>, occ: Occurrence) returns (out: seq<Node>)
    ensures out == QueryAtoms(MySQL, where, occ)
  {
    out := [];
    if where.None? {
      return;
    }
    var flat := FlattenMySQLAnd(where.value);
    for i := 0 to |flat|
      invariant out == EligibleKeys(MySQL, occ, flat[..i])
    {
      FlatMapTake(KeysOfEligible(MySQL, occ), flat, i);
      var v := new ColumnVisitor(QueryCheck(MySQL, occ));
      var ok := v.Accept(flat[i]);
      if ok {
        out := out + [Key(MySQL, flat[i])];
      }
    }
    assert flat[..|flat|] == flat;
  }

  method PostgresQueryAtoms(where: Option<Node>, occ: Occurrence) returns (out: seq<Node>)
    ensures out == QueryAtoms(Postgres, where, occ)
  {
    out := [];
    if where.None? {
      return;
    }
    var flat := FlattenPostgresAnd(where.value);
    for i := 0 to |flat|
      invariant out == EligibleKeys(Postgres, occ, flat[..i])
    {
      FlatMapTake(KeysOfEligible(Postgres, occ), flat, i);
      var normalizer := new PostgresNormalizer(QueryCheck(Postgres, occ));
      var key, fault := normalizer.Normalize(flat[i]);
      if fault.None? && normalizer.eligible {
        out := out + [key];
      }
    }
    assert flat[..|flat|] == flat;
  }

  /** The map holds how many of each atom are left. */
  ghost predicate Counts(counts: map<Node, nat>, left: multiset<Node>) {
    forall a :: left[a] == if a in counts then counts[a] else 0
  }

  method CountAtoms(have: seq<Node>) returns (counts: map<Node, nat>)
    ensures Counts(counts, multiset(have))
  {
    counts := map[];
    for i := 0 to |have|
      invariant Counts(counts, multiset(have[..i]))
    {
      assert have[..i + 1] == have[..i] + [have[i]];
      counts := counts[have[i] := 1 + if have[i] in counts then counts[have[i]] else 0];
    }
    assert have[..|have|] == have;
  }

  lemma {:induction false} OneTooMany(want: seq<Node>, i: nat, have: multiset<Node>)
    requires i < |want| && have[want[i]] == multiset(want[..i])[want[i]]
    ensures !(multiset(want) <= have)
  {
    assert want == want[..i] + ([want[i]] + want[i + 1..]);
    assert multiset(want)[want[i]] > have[want[i]];
  }

  /** The counting loop decides multiset inclusion. */
  method ContainsAllAtoms(have: seq<Node>, want: seq<Node>) returns (r: bool)
    ensures r <==> multiset(want) <= multiset(have)
  {
    var counts := CountAtoms(have);
    ghost var all := multiset(have);
    for i := 0 to |want|
      invariant multiset(want[..i]) <= all && Counts(counts, all - multiset(want[..i]))
    {
      ghost var left := all - multiset(want[..i]);
      if want[i] !in counts || counts[want[i]] == 0 {
        assert left[want[i]] == 0;
        OneTooMany(want, i, all);
        return false;
      }
      assert want[..i + 1] == want[..i] + [want[i]];
      assert left[want[i]] == counts[want[i]];
      assert all - multiset(want[..i + 1]) == left - multiset{want[i]};
      counts := counts[want[i] := counts[want[i]] - 1];
    }
    assert want[..|want|] == want;
    return true;
  }

  /** The decision for one occurrence. */
  predicate Matched(d: Dialect, where: Option<Node>, occ: Occurrence, atoms: seq<Node>) {
    where.Some? && multiset(atoms) <= multiset(QueryAtoms(d, where, occ))
  }
}
