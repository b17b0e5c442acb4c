/**
 What a match means. A server resolves every column of a WHERE clause by SQL's scoping rules; the matcher
 decides by name alone. A matched policy is therefore enforced on the occurrence's row exactly when no
 visible column can be confused with a policy column of the occurrence.
 */
module PolicySoundness {
  import opened Basics
  import opened Text
  import opened Sql
  import opened PolicyCondition

  // ---------------------------------------------------------------- name resolution by the server

  /** MySQL compares column names without case and table names as configured; PostgreSQL compares exactly. */
  datatype Naming = Naming(d: Dialect, foldTables: bool)

  predicate TableEq(nm: Naming, a: string, b: string) {
    if nm.foldTables then EqualFold(a, b) else a == b
  }

  predicate ColumnEq(nm: Naming, a: string, b: string) {
    if nm.d.MySQL? then EqualFold(a, b) else a == b
  }

  /** A FROM source as columns see it: its exposed name, and the schema it can be written with ("" when an
      alias hides the table or there is none). */
  datatype Source = Source(name: string, home: string, columns: set<string>)

  /** Sources of the block, then of each enclosing block, innermost first. */
  type Scopes = seq<seq<Source>>

  datatype Cell = Cell(level: nat, source: nat, column: string)

  predicate HasColumn(nm: Naming, src: Source, name: string) {
    exists x :: x in src.columns && ColumnEq(nm, name, x)
  }

  /** A qualified name asks for its qualifier, a bare one for its column. */
  predicate Answers(nm: Naming, src: Source, quals: seq<string>, name: string) {
    if quals == [] then HasColumn(nm, src, name)
    else if |quals| == 1 then TableEq(nm, quals[0], src.name)
    else src.home != "" && TableEq(nm, quals[|quals| - 1], src.name) && TableEq(nm, quals[|quals| - 2], src.home)
  }

  predicate InScope(scopes: Scopes, c: Cell) {
    c.level < |scopes| && c.source < |scopes[c.level]| && c.column in scopes[c.level][c.source].columns
  }

  /** The innermost level with an answering source decides, and that source must be the only one there. */
  predicate ResolvesTo(nm: Naming, scopes: Scopes, quals: seq<string>, name: string, c: Cell) {
    && InScope(scopes, c)
    && ColumnEq(nm, name, c.column)
    && Answers(nm, scopes[c.level][c.source], quals, name)
    && (forall j :: 0 <= j < |scopes[c.level]| && j != c.source ==> !Answers(nm, scopes[c.level][j], quals, name))
    && (forall l :: 0 <= l < c.level ==> forall j :: 0 <= j < |scopes[l]| ==> !Answers(nm, scopes[l][j], quals, name))
  }

  /** Column names of one table differ, as the server compares them. */
  predicate DistinctColumns(nm: Naming, columns: set<string>) {
    forall x, y :: x in columns && y in columns && ColumnEq(nm, x, y) ==> x == y
  }

  // ---------------------------------------------------------------- enforcement

  function WhereLook(cells: Cell -> Value, bind: Node -> Cell, rest: Node -> Value): Node -> Value {
    (n: Node) => if n.Col? then cells(bind(n)) else rest(n)
  }

  function RowLook(cells: Cell -> Value, i: nat, column: string -> string, rest: Node -> Value): Node -> Value {
    (n: Node) => if n.Col? then cells(Cell(0, i, column(n.name))) else rest(n)
  }

  /** Every column of the WHERE clause resolves. */
  predicate Bound(nm: Naming, scopes: Scopes, where: Node, bind: Node -> Cell) {
    forall r :: r in Refs(where) && r.Col? ==> ResolvesTo(nm, scopes, r.quals, r.name, bind(r))
  }

  /** Every column of the policy condition is a column of the table. */
  predicate OnTable(nm: Naming, src: Source, cond: Node, column: string -> string) {
    forall r :: r in Refs(cond) && r.Col? ==> column(r.name) in src.columns && ColumnEq(nm, r.name, column(r.name))
  }

  /** A matched policy that the WHERE clause enforces: for these rows, a TRUE WHERE makes the condition TRUE. */
  predicate Enforces(nm: Naming, scopes: Scopes, i: nat, occ: Occurrence, allowed: set<string>,
                     where: Node, cond: Node, sv: Server, cells: Cell -> Value,
                     bind: Node -> Cell, column: string -> string, rest: Node -> Value)
    requires |scopes| > 0 && i < |scopes[0]|
  {
    var compiled := Compiled(nm.d, cond, allowed);
    && compiled.Ok?
    && Matched(nm.d, Some(where), occ, compiled.value.atoms)
    && Bound(nm, scopes, where, bind)
    && OnTable(nm, scopes[0][i], cond, column)
    && Holds(sv, WhereLook(cells, bind, rest), where)
    ==> Holds(sv, RowLook(cells, i, column, rest), cond)
  }

  /** Policies over the allowed columns are enforced for every query, every row combination and every server. */
  ghost predicate Sound(nm: Naming, scopes: Scopes, i: nat, occ: Occurrence, allowed: set<string>)
    requires |scopes| > 0 && i < |scopes[0]|
  {
    forall where, cond, sv, cells, bind, column, rest ::
      Enforces(nm, scopes, i, occ, allowed, where, cond, sv, cells, bind, column, rest)
  }

  // ---------------------------------------------------------------- the exact condition

  /** The ways to write a visible column that name it without help from its surroundings. */
  function OwnQualifiers(src: Source): set<seq<string>> {
    {[], [src.name]} + if src.home != "" then {[src.home, src.name]} else {}
  }

  /** Another visible column that the matcher would take for the occurrence's policy column y: same name up
      to case, and one of its own names both resolves to it and is accepted for the occurrence. */
  predicate Confusable(nm: Naming, scopes: Scopes, i: nat, occ: Occurrence, allowed: set<string>, c: Cell, y: string)
    requires |scopes| > 0 && i < |scopes[0]|
  {
    && y in scopes[0][i].columns && Lower(y) in allowed
    && InScope(scopes, c) && Lower(c.column) == Lower(y) && c != Cell(0, i, y)
    && exists q :: q in OwnQualifiers(scopes[c.level][c.source])
         && Accepts(nm.d, q, occ) && ResolvesTo(nm, scopes, q, c.column, c)
  }

  ghost predicate Unconfusable(nm: Naming, scopes: Scopes, i: nat, occ: Occurrence, allowed: set<string>)
    requires |scopes| > 0 && i < |scopes[0]|
  {
    forall c, y :: !Confusable(nm, scopes, i, occ, allowed, c, y)
  }

  /** The column a name resolves to also answers to one of its own names, which the matcher treats alike. */
  lemma {:induction false} OwnNameResolves(nm: Naming, scopes: Scopes, occ: Occurrence, quals: seq<string>,
                                           name: string, c: Cell)
    returns (q: seq<string>)
    requires ResolvesTo(nm, scopes, quals, name, c) && Accepts(nm.d, quals, occ)
    ensures q in OwnQualifiers(scopes[c.level][c.source])
    ensures Accepts(nm.d, q, occ) && ResolvesTo(nm, scopes, q, c.column, c)
  {
    var src := scopes[c.level][c.source];
    q := if quals == [] then [] else if |quals| == 1 then [src.name] else [src.home, src.name];
    assert ColumnEq(nm, c.column, c.column);
    forall l, j | 0 <= l < |scopes| && 0 <= j < |scopes[l]|
      ensures Answers(nm, scopes[l][j], q, c.column) <==> Answers(nm, scopes[l][j], quals, name)
    {
      if quals == [] {
        assert forall x :: ColumnEq(nm, name, x) <==> ColumnEq(nm, c.column, x);
      }
    }
  }

  // ---------------------------------------------------------------- equal keys have equal values

  lemma {:induction false} StripEval(sv: Server, look: Node -> Value, e: Node)
    ensures Eval(sv, look, Strip(e)) == Eval(sv, look, e)
    ensures Refs(Strip(e)) == Refs(e)
  {
    if e.Op? {
      StripEvalAll(sv, look, e.args);
      if e.op == Paren && |e.args| == 1 {
        assert EvalAll(sv, look, e.args) == [Eval(sv, look, e.args[0])];
        assert RefsAll(e.args) == Refs(e.args[0]) + RefsAll(e.args[1..]);
      }
    }
  }

  lemma {:induction false} StripEvalAll(sv: Server, look: Node -> Value, es: seq<Node>)
    ensures EvalAll(sv, look, StripAll(es)) == EvalAll(sv, look, es)
    ensures RefsAll(StripAll(es)) == RefsAll(es)
    ensures forall i :: 0 <= i < |es| ==> Eval(sv, look, Strip(es[i])) == Eval(sv, look, es[i])
    ensures forall i :: 0 <= i < |es| ==> Refs(Strip(es[i])) == Refs(es[i])
  {
    if es != [] {
      StripEval(sv, look, es[0]);
      StripEvalAll(sv, look, es[1..]);
      assert forall i :: 0 < i < |es| ==> es[i] == es[1..][i - 1];
    }
  }

  /** Only columns, literals and operators: what a compiled condition is made of. */
  predicate Scalar(e: Node) {
    match e
    case Col(_, _) => true
    case Lit(_) => true
    case Op(_, args) => forall a :: a in args ==> Scalar(a)
    case _ => false
  }

  lemma {:induction false} CompiledScalar(d: Dialect, allowed: set<string>, e: Node)
    requires FirstFault(d, ConditionCheck(allowed), e).None?
    ensures Scalar(e) && Scalar(Strip(e))
    decreases e
  {
    if e.Op? {
      NoFaultFrom(d, ConditionCheck(allowed), e, 0);
      forall i | 0 <= i < |e.args| ensures Scalar(e.args[i]) && Scalar(Strip(e.args[i])) {
        CompiledScalar(d, allowed, e.args[i]);
      }
    }
  }

  /** Two expressions with the same canonical key have the same value once their like-keyed columns do. */
  lemma {:induction false} SameKeySameValue(sv: Server, d: Dialect, lookA: Node -> Value, lookB: Node -> Value,
                                            a: Node, b: Node)
    requires Scalar(b) && Erase(d, a) == Erase(d, b)
    requires forall r, s :: r in Refs(a) && s in Refs(b) && Erase(d, r) == Erase(d, s) ==> lookA(r) == lookB(s)
    ensures Eval(sv, lookA, a) == Eval(sv, lookB, b)
  {
    match b
    case Col(_, _) => assert a in Refs(a) && b in Refs(b);
    case Lit(_) =>
    case Op(op, bs) =>
      assert a.Op? && a.op == op;
      assert EraseAll(d, a.args) == EraseAll(d, bs);
      forall i | 0 <= i < |bs| ensures Eval(sv, lookA, a.args[i]) == Eval(sv, lookB, bs[i]) {
        assert EraseAll(d, a.args)[i] == EraseAll(d, bs)[i];
        RefsOfArg(a.args, i);
        RefsOfArg(bs, i);
        SameKeySameValue(sv, d, lookA, lookB, a.args[i], bs[i]);
      }
      assert EvalAll(sv, lookA, a.args) == EvalAll(sv, lookB, bs);
  }

  lemma {:induction false} RefsOfConjunct(d: Dialect, e: Node, a: Node)
    requires a in Flatten(d, e)
    ensures Refs(a) <= Refs(e)
  {
    match e
    case Op(And, args) =>
      if !(d.MySQL? && |args| != 2) { RefsOfConjuncts(d, args, a); }
    case Op(Paren, args) =>
      if d.MySQL? && |args| == 1 { RefsOfConjunct(d, args[0], a); RefsOfArg(args, 0); }
    case _ =>
  }

  lemma {:induction false} RefsOfConjuncts(d: Dialect, es: seq<Node>, a: Node)
    requires a in FlattenAll(d, es)
    ensures Refs(a) <= RefsAll(es)
  {
    if a in Flatten(d, es[0]) {
      RefsOfConjunct(d, es[0], a);
    } else {
      RefsOfConjuncts(d, es[1..], a);
    }
  }

  /** A key found among the WHERE clause's evidence comes from one of its eligible conjuncts. */
  lemma {:induction false} EvidenceFor(d: Dialect, occ: Occurrence, atoms: seq<Node>, key: Node) returns (a: Node)
    requires key in EligibleKeys(d, occ, atoms)
    ensures a in atoms && Key(d, a) == key && FirstFault(d, QueryCheck(d, occ), a).None?
  {
    if FirstFault(d, QueryCheck(d, occ), atoms[0]).None? && Key(d, atoms[0]) == key {
      a := atoms[0];
    } else {
      a := EvidenceFor(d, occ, atoms[1..], key);
    }
  }

  // ---------------------------------------------------------------- the theorem

  /** Evidence for one condition atom makes that atom TRUE on the occurrence's row. */
  lemma {:induction false} AtomEnforced(nm: Naming, scopes: Scopes, i: nat, occ: Occurrence, allowed: set<string>,
                     a: Node, b: Node, sv: Server, cells: Cell -> Value,
                     bind: Node -> Cell, column: string -> string, rest: Node -> Value)
    requires |scopes| > 0 && i < |scopes[0]|
    requires Unconfusable(nm, scopes, i, occ, allowed)
    requires FirstFault(nm.d, QueryCheck(nm.d, occ), a).None?
    requires FirstFault(nm.d, ConditionCheck(allowed), b).None?
    requires Key(nm.d, a) == Key(nm.d, b)
    requires Bound(nm, scopes, a, bind) && OnTable(nm, scopes[0][i], b, column)
    requires Holds(sv, WhereLook(cells, bind, rest), a)
    ensures Holds(sv, RowLook(cells, i, column, rest), b)
  {
    var lookA, lookB := WhereLook(cells, bind, rest), RowLook(cells, i, column, rest);
    StripEval(sv, lookA, a);
    StripEval(sv, lookB, b);
    CompiledScalar(nm.d, allowed, b);
    NoFaultRefs(nm.d, QueryCheck(nm.d, occ), a);
    NoFaultRefs(nm.d, ConditionCheck(allowed), b);
    forall r, s | r in Refs(a) && s in Refs(b) && Erase(nm.d, r) == Erase(nm.d, s)
      ensures lookA(r) == lookB(s)
    {
      var c, y := bind(r), column(s.name);
      assert ResolvesTo(nm, scopes, r.quals, r.name, c);
      assert LocalFault(nm.d, QueryCheck(nm.d, occ), r).None?;
      var q := OwnNameResolves(nm, scopes, occ, r.quals, r.name, c);
      assert LocalFault(nm.d, ConditionCheck(allowed), s).None?;
      assert Lower(s.name) in allowed && Lower(y) == Lower(s.name);
      assert KeyName(nm.d, r.name) == KeyName(nm.d, s.name);
      assert Lower(c.column) == Lower(r.name) == Lower(s.name);
      assert !Confusable(nm, scopes, i, occ, allowed, c, y);
      assert c == Cell(0, i, y);
    }
    SameKeySameValue(sv, nm.d, lookA, lookB, Bare(nm.d, a), Bare(nm.d, b));
  }

  lemma {:induction false} NoConfusionSound(nm: Naming, scopes: Scopes, i: nat, occ: Occurrence, allowed: set<string>)
    requires |scopes| > 0 && i < |scopes[0]|
    requires Unconfusable(nm, scopes, i, occ, allowed)
    ensures Sound(nm, scopes, i, occ, allowed)
  {
    forall where, cond, sv, cells, bind, column, rest
      ensures Enforces(nm, scopes, i, occ, allowed, where, cond, sv, cells, bind, column, rest)
    {
      MatchedEnforced(nm, scopes, i, occ, allowed, where, cond, sv, cells, bind, column, rest);
    }
  }

  lemma {:induction false} KeyRequired(d: Dialect, where: Option<Node>, occ: Occurrence, flat: seq<Node>, b: Node)
    requires b in flat && Matched(d, where, occ, Keys(d, flat))
    ensures Key(d, b) in QueryAtoms(d, where, occ)
  {
    var k :| 0 <= k < |flat| && flat[k] == b;
    assert Keys(d, flat)[k] == Key(d, b);
    assert Key(d, b) in multiset(Keys(d, flat));
    assert Key(d, b) in multiset(QueryAtoms(d, where, occ));
  }

  lemma {:induction false} MatchedEnforced(nm: Naming, scopes: Scopes, i: nat, occ: Occurrence, allowed: set<string>,
                        where: Node, cond: Node, sv: Server, cells: Cell -> Value,
                        bind: Node -> Cell, column: string -> string, rest: Node -> Value)
    requires |scopes| > 0 && i < |scopes[0]|
    requires Unconfusable(nm, scopes, i, occ, allowed)
    ensures Enforces(nm, scopes, i, occ, allowed, where, cond, sv, cells, bind, column, rest)
  {
    var compiled := Compiled(nm.d, cond, allowed);
    var lookA, lookB := WhereLook(cells, bind, rest), RowLook(cells, i, column, rest);
    if && compiled.Ok?
       && Matched(nm.d, Some(where), occ, compiled.value.atoms)
       && Bound(nm, scopes, where, bind) && OnTable(nm, scopes[0][i], cond, column)
       && Holds(sv, lookA, where)
    {
      var flat := Flatten(nm.d, cond);
      NoBadAtom(nm.d, ConditionCheck(allowed), flat);
      FlattenHolds(sv, lookA, nm.d, where);
      forall b | b in flat ensures Holds(sv, lookB, b) {
        KeyRequired(nm.d, Some(where), occ, flat, b);
        var a := EvidenceFor(nm.d, occ, Flatten(nm.d, where), Key(nm.d, b));
        RefsOfConjunct(nm.d, where, a);
        RefsOfConjunct(nm.d, cond, b);
        AtomEnforced(nm, scopes, i, occ, allowed, a, b, sv, cells, bind, column, rest);
      }
      FlattenHolds(sv, lookB, nm.d, cond);
    }
  }

  function Equals1(col: Node): Node { Op(Other("="), [col, Lit(Int(1))]) }

  lemma {:induction false} Equals1Shape(d: Dialect, quals: seq<string>, name: string)
    ensures var e := Equals1(Col(quals, name));
            Flatten(d, e) == [e] && Refs(e) == {Col(quals, name)} && Key(d, e) == Equals1(Col([], KeyName(d, name)))
  {
    var col, one := Col(quals, name), Lit(Int(1));
    assert [col, one][1..] == [one];
    assert RefsAll([one]) == Refs(one) + RefsAll([one][1..]);
    assert RefsAll([col, one]) == Refs(col) + RefsAll([one]);
    assert StripAll([col, one]) == [col, one];
    assert EraseAll(d, [col, one]) == [Col([], KeyName(d, name)), one];
  }

  lemma {:induction false} Equals1Fault(d: Dialect, c: Check, quals: seq<string>, name: string)
    ensures FirstFault(d, c, Equals1(Col(quals, name))) == LocalFault(d, c, Col(quals, name))
  {
    var col, e := Col(quals, name), Equals1(Col(quals, name));
    assert Kids(d, e) == [col, Lit(Int(1))];
    assert FirstFault(d, c, col) == LocalFault(d, c, col) by { NoFaultFrom(d, c, col, 0); }
    assert FirstFault(d, c, Lit(Int(1))).None? by { NoFaultFrom(d, c, Lit(Int(1)), 0); }
    NoFaultFrom(d, c, e, 1);
    assert FirstFault(d, c, e) == FaultFrom(d, c, e, 0);
  }

  lemma {:induction false} Equals1Columns(d: Dialect, quals: seq<string>, name: string)
    ensures Lower(name) in ColumnsOf(d, [Equals1(Col(quals, name))])
  {
    var e := Equals1(Col(quals, name));
    assert Kids(d, e)[0] == Col(quals, name);
    assert ColumnsFrom(d, e, 0) == Columns(d, Kids(d, e)[0]) + ColumnsFrom(d, e, 1);
    assert Columns(d, Col(quals, name)) == {Lower(name)};
    assert Lower(name) in Columns(d, e);
    assert [e][0] == e;
  }

  /** Comparing a like-named accepted column with 1 matches the policy that the table's column be 1. */
  lemma {:induction false} Equals1Matches(d: Dialect, occ: Occurrence, allowed: set<string>, quals: seq<string>,
                                          name: string, own: string)
    requires Accepts(d, quals, occ) && KeyName(d, name) == KeyName(d, own) && Lower(own) in allowed
    ensures var cond := Equals1(Col([], own));
            && Compiled(d, cond, allowed).Ok?
            && Matched(d, Some(Equals1(Col(quals, name))), occ, Compiled(d, cond, allowed).value.atoms)
  {
    var where, cond := Equals1(Col(quals, name)), Equals1(Col([], own));
    Equals1Shape(d, quals, name);
    Equals1Shape(d, [], own);
    Equals1Fault(d, QueryCheck(d, occ), quals, name);
    Equals1Fault(d, ConditionCheck(allowed), [], own);
    Equals1Columns(d, [], own);
    NoBadAtom(d, ConditionCheck(allowed), [cond]);
    assert Keys(d, [cond]) == [Key(d, cond)];
    assert EligibleKeys(d, occ, [where]) == [Key(d, where)] + EligibleKeys(d, occ, [where][1..]);
  }

  lemma {:induction false} Equals1Holds(sv: Server, look: Node -> Value, col: Node)
    requires col.Col? && sv.apply("=", [look(col), Int(1)]).Bool?
    ensures Holds(sv, look, Equals1(col)) <==> sv.apply("=", [look(col), Int(1)]) == Bool(true)
  {
    assert EvalAll(sv, look, Equals1(col).args) == [look(col), Int(1)];
  }

  /** A row combination on which a query passes although the policy it matches fails. */
  datatype Breach = Breach(where: Node, cond: Node, sv: Server, cells: Cell -> Value, bind: Node -> Cell,
                           column: string -> string, rest: Node -> Value)

  predicate Breaks(nm: Naming, scopes: Scopes, i: nat, occ: Occurrence, allowed: set<string>, x: Breach)
    requires |scopes| > 0 && i < |scopes[0]|
  {
    var compiled := Compiled(nm.d, x.cond, allowed);
    && compiled.Ok? && Matched(nm.d, Some(x.where), occ, compiled.value.atoms)
    && Bound(nm, scopes, x.where, x.bind) && OnTable(nm, scopes[0][i], x.cond, x.column)
    && Holds(x.sv, WhereLook(x.cells, x.bind, x.rest), x.where)
    && !Holds(x.sv, RowLook(x.cells, i, x.column, x.rest), x.cond)
  }

  /** A confusable column defeats the policy: a query that compares that column instead is accepted. */
  lemma {:induction false} ConfusionBreaks(nm: Naming, scopes: Scopes, i: nat, occ: Occurrence, allowed: set<string>,
                                           c: Cell, y: string)
    returns (x: Breach)
    requires |scopes| > 0 && i < |scopes[0]|
    requires Confusable(nm, scopes, i, occ, allowed, c, y)
    ensures Breaks(nm, scopes, i, occ, allowed, x)
  {
    var q :| q in OwnQualifiers(scopes[c.level][c.source]) && Accepts(nm.d, q, occ)
             && ResolvesTo(nm, scopes, q, c.column, c);
    var own := if nm.d.MySQL? then c.column else y;
    var where, cond := Equals1(Col(q, c.column)), Equals1(Col([], own));
    x := Breach(where, cond, EqualityServer(), OneAt(c), _ => c, _ => y, _ => Null);
    Equals1Matches(nm.d, occ, allowed, q, c.column, own);
    assert Bound(nm, scopes, where, x.bind) by { Equals1Shape(nm.d, q, c.column); }
    assert OnTable(nm, scopes[0][i], cond, x.column) by { Equals1Shape(nm.d, [], own); }
    assert Holds(x.sv, WhereLook(x.cells, x.bind, x.rest), where) by {
      Equals1Holds(x.sv, WhereLook(x.cells, x.bind, x.rest), Col(q, c.column));
    }
    assert !Holds(x.sv, RowLook(x.cells, i, x.column, x.rest), cond) by {
      Equals1Holds(x.sv, RowLook(x.cells, i, x.column, x.rest), Col([], own));
    }
  }

  function EqualityServer(): Server {
    Server(_ => false, (_, vs) => Bool(|vs| == 2 && vs[0] == vs[1]))
  }

  function OneAt(c: Cell): Cell -> Value {
    k => if k == c then Int(1) else Int(0)
  }

  lemma {:induction false} BreachUnsound(nm: Naming, scopes: Scopes, i: nat, occ: Occurrence, allowed: set<string>,
                                         x: Breach)
    requires |scopes| > 0 && i < |scopes[0]| && Breaks(nm, scopes, i, occ, allowed, x)
    ensures !Sound(nm, scopes, i, occ, allowed)
  {
    assert !Enforces(nm, scopes, i, occ, allowed, x.where, x.cond, x.sv, x.cells, x.bind, x.column, x.rest);
  }

  /** Soundness of the matcher for one occurrence among given sources, in both directions. */
  lemma {:induction false} SoundExactly(nm: Naming, scopes: Scopes, i: nat, occ: Occurrence, allowed: set<string>)
    requires |scopes| > 0 && i < |scopes[0]|
    ensures Sound(nm, scopes, i, occ, allowed)
       <==> Unconfusable(nm, scopes, i, occ, allowed)
  {
    if Unconfusable(nm, scopes, i, occ, allowed) {
      NoConfusionSound(nm, scopes, i, occ, allowed);
    } else {
      var c, y :| Confusable(nm, scopes, i, occ, allowed, c, y);
      var x := ConfusionBreaks(nm, scopes, i, occ, allowed, c, y);
      BreachUnsound(nm, scopes, i, occ, allowed, x);
    }
  }
}
