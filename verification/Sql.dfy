/**
 The part of SQL that the predicate-policy matcher sees: one abstract syntax for queries, FROM items
 and scalar expressions, and the three-valued meaning of expressions (section 8.12 of ISO/IEC 9075:1992).
 */
module Sql {
  import opened Basics
  import opened Text

  datatype Dialect = MySQL | Postgres

  datatype Value = Null | Bool(b: bool) | Int(n: int) | Str(s: string)

  datatype Operator = And | Or | Not | Paren | Other(name: string)

  /** Syntax trees. A column reference carries the qualifiers written before its name. */
  datatype Node =
    | Col(quals: seq<string>, name: string)
    | Star(quals: seq<string>)
    | Lit(value: Value)
    | Op(op: Operator, args: seq<Node>)
    | Sub(query: Node)
    | Select(with: seq<Node>, fields: seq<Node>, from: seq<Node>, where: Option<Node>, tail: seq<Node>)
    | SetOp(with: seq<Node>, parts: seq<Node>)
    | Cte(cteName: string, body: Node)
    | Table(schema: string, table: string, alias: string)
    | Join(left: Node, right: Option<Node>, on: seq<Node>)
    | Sample(item: Node)
    | Derived(alias: string, body: Node)
    | FuncItem(alias: string, args: seq<Node>)
    | OtherItem(alias: string, args: seq<Node>)

  function Opt(o: Option<Node>): seq<Node> {
    if o.Some? then [o.value] else []
  }

  /** The children of a node in the order in which the dialect's parser library visits them. */
  function Kids(d: Dialect, n: Node): seq<Node> {
    match n
    case Col(_, _) => []
    case Star(_) => []
    case Lit(_) => []
    case Op(_, args) => args
    case Sub(q) => [q]
    case Select(with, fields, from, where, tail) =>
      if d.MySQL?
      then with + (fields + (from + (Opt(where) + tail)))
      else fields + (from + (Opt(where) + (tail + with)))
    case SetOp(with, parts) => with + parts
    case Cte(_, body) => [body]
    case Table(_, _, _) => []
    case Join(l, r, on) => [l] + (Opt(r) + on)
    case Sample(item) => [item]
    case Derived(_, body) => [body]
    case FuncItem(_, args) => args
    case OtherItem(_, args) => args
  }

  /** The node with other children in place of its own. */
  function WithKids(d: Dialect, n: Node, ks: seq<Node>): Node
    requires |ks| == |Kids(d, n)|
  {
    match n
    case Col(_, _) => n
    case Star(_) => n
    case Lit(_) => n
    case Op(op, _) => Op(op, ks)
    case Sub(_) => Sub(ks[0])
    case Select(with, fields, from, where, tail) =>
      var w := if d.MySQL? then 0 else |ks| - |with|;
      var f := if d.MySQL? then |with| else 0;
      var g := f + |fields|;
      var h := g + |from|;
      var t := h + |Opt(where)|;
      Select(ks[w..w + |with|], ks[f..g], ks[g..h], if where.Some? then Some(ks[h]) else None, ks[t..t + |tail|])
    case SetOp(with, _) => SetOp(ks[..|with|], ks[|with|..])
    case Cte(name, _) => Cte(name, ks[0])
    case Table(_, _, _) => n
    case Join(_, r, _) =>
      if r.Some? then Join(ks[0], Some(ks[1]), ks[2..]) else Join(ks[0], None, ks[1..])
    case Sample(_) => Sample(ks[0])
    case Derived(alias, _) => Derived(alias, ks[0])
    case FuncItem(alias, _) => FuncItem(alias, ks)
    case OtherItem(alias, _) => OtherItem(alias, ks)
  }

  lemma {:induction false} InConcat(a: seq<Node>, b: seq<Node>, k: Node)
    ensures k in a + b <==> k in a || k in b
  {
  }

  lemma {:induction false} SelectKidSmaller(d: Dialect, n: Node, i: nat)
    requires n.Select? && i < |Kids(d, n)|
    ensures Kids(d, n)[i] < n
  {
    var k, w := Kids(d, n)[i], Opt(n.where);
    if d.MySQL? {
      InConcat(n.with, n.fields + (n.from + (w + n.tail)), k);
      InConcat(n.fields, n.from + (w + n.tail), k);
      InConcat(n.from, w + n.tail, k);
      InConcat(w, n.tail, k);
    } else {
      InConcat(n.fields, n.from + (w + (n.tail + n.with)), k);
      InConcat(n.from, w + (n.tail + n.with), k);
      InConcat(w, n.tail + n.with, k);
      InConcat(n.tail, n.with, k);
    }
    assert k in n.with || k in n.fields || k in n.from || k in n.tail || (n.where.Some? && k == n.where.value);
  }

  /** Children are structurally smaller, so walks over a tree end. */
  lemma {:induction false} KidSmaller(d: Dialect, n: Node, i: nat)
    requires i < |Kids(d, n)|
    ensures Kids(d, n)[i] < n
  {
    match n
    case Select(_, _, _, _, _) =>
      SelectKidSmaller(d, n, i);
    case SetOp(with, parts) =>
      var k := Kids(d, n)[i];
      assert k in with || k in parts;
    case Join(l, r, on) =>
      var k := Kids(d, n)[i];
      assert k == l || k in on || (r.Some? && k == r.value);
    case _ =>
  }

  // ---------------------------------------------------------------- meaning of expressions

  datatype Tri = T | F | U

  function And3(a: Tri, b: Tri): Tri {
    if a == F || b == F then F else if a == T && b == T then T else U
  }

  function Or3(a: Tri, b: Tri): Tri {
    if a == T || b == T then T else if a == F && b == F then F else U
  }

  function Not3(a: Tri): Tri {
    match a case T => F case F => T case U => U
  }

  /** How a server decides what the standard leaves to it: the truth of non-boolean values and every
      operator that is not a connective. */
  datatype Server = Server(truthy: Value -> bool, apply: (string, seq<Value>) -> Value)

  function Truth(sv: Server, v: Value): Tri {
    match v
    case Null => U
    case Bool(b) => if b then T else F
    case _ => if sv.truthy(v) then T else F
  }

  function FromTri(t: Tri): Value {
    match t case T => Bool(true) case F => Bool(false) case U => Null
  }

  function AllTrue(sv: Server, vs: seq<Value>): Tri {
    if vs == [] then T else And3(Truth(sv, vs[0]), AllTrue(sv, vs[1..]))
  }

  function AnyTrue(sv: Server, vs: seq<Value>): Tri {
    if vs == [] then F else Or3(Truth(sv, vs[0]), AnyTrue(sv, vs[1..]))
  }

  function Apply(sv: Server, op: Operator, vs: seq<Value>): Value {
    match op
    case And => FromTri(AllTrue(sv, vs))
    case Or => FromTri(AnyTrue(sv, vs))
    case Not => if |vs| == 1 then FromTri(Not3(Truth(sv, vs[0]))) else Null
    case Paren => if |vs| == 1 then vs[0] else Null
    case Other(name) => sv.apply(name, vs)
  }

  /** The value of an expression, given the values of its columns, wildcards and subqueries. */
  function Eval(sv: Server, look: Node -> Value, e: Node): Value {
    match e
    case Lit(v) => v
    case Op(op, args) => Apply(sv, op, EvalAll(sv, look, args))
    case _ => look(e)
  }

  function EvalAll(sv: Server, look: Node -> Value, es: seq<Node>): (vs: seq<Value>)
    ensures |vs| == |es|
    ensures forall i :: 0 <= i < |es| ==> vs[i] == Eval(sv, look, es[i])
  {
    if es == [] then [] else [Eval(sv, look, es[0])] + EvalAll(sv, look, es[1..])
  }

  predicate Holds(sv: Server, look: Node -> Value, e: Node) {
    Truth(sv, Eval(sv, look, e)) == T
  }

  /** A conjunction holds exactly when each of its operands does. */
  lemma {:induction false} ConjunctionHolds(sv: Server, vs: seq<Value>)
    ensures AllTrue(sv, vs) == T <==> forall i :: 0 <= i < |vs| ==> Truth(sv, vs[i]) == T
  {
    if vs != [] {
      ConjunctionHolds(sv, vs[1..]);
      assert forall i :: 0 <= i < |vs[1..]| ==> vs[1..][i] == vs[i + 1];
      if AllTrue(sv, vs[1..]) == T && Truth(sv, vs[0]) == T {
        forall i | 0 <= i < |vs| ensures Truth(sv, vs[i]) == T {
          if i > 0 { assert vs[i] == vs[1..][i - 1]; }
        }
      }
    }
  }

  /** The column references of an expression, outside its subqueries. */
  function Refs(e: Node): set<Node> {
    match e
    case Col(_, _) => {e}
    case Op(_, args) => RefsAll(args)
    case _ => {}
  }

  function RefsAll(es: seq<Node>): set<Node> {
    if es == [] then {} else Refs(es[0]) + RefsAll(es[1..])
  }

  lemma {:induction false} RefsOfArg(es: seq<Node>, i: nat)
    requires i < |es|
    ensures Refs(es[i]) <= RefsAll(es)
  {
    if i > 0 { RefsOfArg(es[1..], i - 1); }
  }
}
