/**
 The decision looks only at the multiset of conjuncts: rearranging an AND never changes it, and a WHERE
 that carries the condition rendered for the occurrence's alias always satisfies it.
 */
module PolicyConjuncts {
  import opened Basics
  import opened Lists
  import opened Text
  import opened Sql
  import opened PolicyCondition

  // ---------------------------------------------------------------- rearranging conjunctions

  predicate SameConjuncts(d: Dialect, a: Node, b: Node) {
    multiset(Flatten(d, a)) == multiset(Flatten(d, b))
  }

  function RemoveAt<X>(s: seq<X>, i: nat): seq<X>
    requires i < |s|
  {
    s[..i] + s[i + 1..]
  }

  lemma {:induction false} RemoveAtMultiset<X>(s: seq<X>, i: nat)
    requires i < |s|
    ensures multiset(s) == multiset{s[i]} + multiset(RemoveAt(s, i))
    ensures multiset(RemoveAt(s, i)) == multiset(s) - multiset{s[i]}
  {
    assert s == s[..i] + [s[i]] + s[i + 1..];
  }

  /** Permuted sequences: the head of one can be removed from the other. */
  lemma {:induction false} MatchHead<X>(xs: seq<X>, ys: seq<X>) returns (j: nat)
    requires xs != [] && multiset(xs) == multiset(ys)
    ensures j < |ys| && ys[j] == xs[0]
    ensures multiset(xs[1..]) == multiset(RemoveAt(ys, j))
  {
    assert xs[0] in multiset(ys);
    j :| 0 <= j < |ys| && ys[j] == xs[0];
    RemoveAtMultiset(xs, 0);
    RemoveAtMultiset(ys, j);
    assert RemoveAt(xs, 0) == xs[1..];
  }

  lemma {:induction false} EligibleKeysAt(d: Dialect, occ: Occurrence, ys: seq<Node>, j: nat)
    requires j < |ys|
    ensures multiset(EligibleKeys(d, occ, ys))
         == multiset(EligibleKeys(d, occ, [ys[j]])) + multiset(EligibleKeys(d, occ, RemoveAt(ys, j)))
  {
    var before, after := ys[..j], ys[j + 1..];
    assert ys == before + ([ys[j]] + after);
    FlatMapConcat(KeysOfEligible(d, occ), before, [ys[j]] + after);
    FlatMapConcat(KeysOfEligible(d, occ), [ys[j]], after);
    FlatMapConcat(KeysOfEligible(d, occ), before, after);
  }

  lemma {:induction false} EligibleKeysPermute(d: Dialect, occ: Occurrence, xs: seq<Node>, ys: seq<Node>)
    requires multiset(xs) == multiset(ys)
    ensures multiset(EligibleKeys(d, occ, xs)) == multiset(EligibleKeys(d, occ, ys))
  {
    if xs == [] {
      assert |ys| == |multiset(ys)| == 0;
    } else {
      var j := MatchHead(xs, ys);
      EligibleKeysPermute(d, occ, xs[1..], RemoveAt(ys, j));
      EligibleKeysAt(d, occ, xs, 0);
      assert RemoveAt(xs, 0) == xs[1..];
      EligibleKeysAt(d, occ, ys, j);
    }
  }

  lemma {:induction false} KeysPermute(d: Dialect, xs: seq<Node>, ys: seq<Node>)
    requires multiset(xs) == multiset(ys)
    ensures multiset(Keys(d, xs)) == multiset(Keys(d, ys))
  {
    if xs == [] {
      assert |ys| == |multiset(ys)| == 0;
    } else {
      var j := MatchHead(xs, ys);
      KeysPermute(d, xs[1..], RemoveAt(ys, j));
      KeysAt(d, xs, 0);
      assert RemoveAt(xs, 0) == xs[1..];
      KeysAt(d, ys, j);
    }
  }

  lemma {:induction false} KeysAt(d: Dialect, ys: seq<Node>, j: nat)
    requires j < |ys|
    ensures multiset(Keys(d, ys)) == multiset{Key(d, ys[j])} + multiset(Keys(d, RemoveAt(ys, j)))
  {
    RemoveAtMultiset(Keys(d, ys), j);
    assert RemoveAt(Keys(d, ys), j) == Keys(d, RemoveAt(ys, j));
  }

  /** Neither compiling a condition nor deciding a match can tell conjunctions with the same conjuncts apart. */
  lemma {:induction false} MatchIgnoresArrangement(d: Dialect, where: Node, where': Node, cond: Node, cond': Node,
                                allowed: set<string>, occ: Occurrence)
    requires SameConjuncts(d, where, where') && SameConjuncts(d, cond, cond')
    requires Compiled(d, cond, allowed).Ok?
    ensures Compiled(d, cond', allowed).Ok?
    ensures Compiled(d, cond', allowed).value.columns == Compiled(d, cond, allowed).value.columns
    ensures Matched(d, Some(where), occ, Compiled(d, cond, allowed).value.atoms)
       <==> Matched(d, Some(where'), occ, Compiled(d, cond', allowed).value.atoms)
  {
    CompileIgnoresArrangement(d, cond, cond', allowed);
    EligibleKeysPermute(d, occ, Flatten(d, where), Flatten(d, where'));
  }

  lemma {:induction false} CompileIgnoresArrangement(d: Dialect, cond: Node, cond': Node, allowed: set<string>)
    requires SameConjuncts(d, cond, cond')
    requires Compiled(d, cond, allowed).Ok?
    ensures Compiled(d, cond', allowed).Ok?
    ensures Compiled(d, cond', allowed).value.columns == Compiled(d, cond, allowed).value.columns
    ensures multiset(Compiled(d, cond', allowed).value.atoms) == multiset(Compiled(d, cond, allowed).value.atoms)
  {
    var xs, ys := Flatten(d, cond), Flatten(d, cond');
    SameMembers(xs, ys);
    NoBadAtom(d, ConditionCheck(allowed), xs);
    NoBadAtom(d, ConditionCheck(allowed), ys);
    SameColumns(d, xs, ys);
    SameColumns(d, ys, xs);
    KeysPermute(d, xs, ys);
  }

  lemma {:induction false} SameMembers<X>(xs: seq<X>, ys: seq<X>)
    requires multiset(xs) == multiset(ys)
    ensures forall a :: a in xs <==> a in ys
  {
    assert forall a :: a in xs <==> a in multiset(xs);
    assert forall a :: a in ys <==> a in multiset(ys);
  }

  lemma {:induction false} SameColumns(d: Dialect, xs: seq<Node>, ys: seq<Node>)
    requires forall a :: a in xs ==> a in ys
    ensures ColumnsOf(d, xs) <= ColumnsOf(d, ys)
  {
    forall c | c in ColumnsOf(d, xs) ensures c in ColumnsOf(d, ys) {
      var i :| 0 <= i < |xs| && c in Columns(d, xs[i]);
      assert xs[i] in ys;
      var j :| 0 <= j < |ys| && ys[j] == xs[i];
    }
  }

  /** One rearrangement of a binary conjunction, at the top or inside an operand. */
  datatype Step = Swap | AssocRight | AssocLeft | Wrap | Unwrap | InLeft(step: Step) | InRight(step: Step)

  function And2(a: Node, b: Node): Node { Op(And, [a, b]) }

  predicate IsAnd2(e: Node) { e.Op? && e.op == And && |e.args| == 2 }

  predicate IsParen(e: Node) { e.Op? && e.op == Paren && |e.args| == 1 }

  function Rearranged(step: Step, e: Node): Node {
    match step
    case Swap => if IsAnd2(e) then And2(e.args[1], e.args[0]) else e
    case AssocRight =>
      if IsAnd2(e) && IsAnd2(e.args[0])
      then And2(e.args[0].args[0], And2(e.args[0].args[1], e.args[1])) else e
    case AssocLeft =>
      if IsAnd2(e) && IsAnd2(e.args[1])
      then And2(And2(e.args[0], e.args[1].args[0]), e.args[1].args[1]) else e
    case Wrap => Op(Paren, [e])
    case Unwrap => if IsParen(e) then e.args[0] else e
    case InLeft(s) => if IsAnd2(e) then And2(Rearranged(s, e.args[0]), e.args[1]) else e
    case InRight(s) => if IsAnd2(e) then And2(e.args[0], Rearranged(s, e.args[1])) else e
  }

  function RearrangedAll(steps: seq<Step>, e: Node): Node {
    if steps == [] then e else RearrangedAll(steps[1..], Rearranged(steps[0], e))
  }

  predicate NoParens(s: Step) {
    match s
    case Wrap => false
    case Unwrap => false
    case InLeft(t) => NoParens(t)
    case InRight(t) => NoParens(t)
    case _ => true
  }

  lemma {:induction false} FlattenAnd2(d: Dialect, a: Node, b: Node)
    ensures Flatten(d, And2(a, b)) == Flatten(d, a) + Flatten(d, b)
  {
    assert [a, b][1..] == [b];
    assert FlattenAll(d, [b]) == Flatten(d, b) + FlattenAll(d, [b][1..]);
  }

  lemma {:induction false} RearrangingKeepsConjuncts(d: Dialect, step: Step, e: Node)
    requires d.MySQL? || NoParens(step)   // PostgreSQL trees never carry parentheses
    ensures SameConjuncts(d, e, Rearranged(step, e))
    decreases step, 1
  {
    if step.Wrap? || step.Unwrap? {
    } else if IsAnd2(e) {
      assert e == And2(e.args[0], e.args[1]);
      RearrangingAnd2(d, step, e.args[0], e.args[1]);
    }
  }

  lemma {:induction false} RearrangingAnd2(d: Dialect, step: Step, a: Node, b: Node)
    requires (d.MySQL? || NoParens(step)) && !step.Wrap? && !step.Unwrap?
    ensures SameConjuncts(d, And2(a, b), Rearranged(step, And2(a, b)))
    decreases step, 0
  {
    hide Flatten;
    match step
    case Swap => SwapKeeps(d, a, b);
    case AssocRight => if IsAnd2(a) { assert a == And2(a.args[0], a.args[1]); AssocKeeps(d, a.args[0], a.args[1], b); }
    case AssocLeft => if IsAnd2(b) { assert b == And2(b.args[0], b.args[1]); AssocKeeps(d, a, b.args[0], b.args[1]); }
    case InLeft(s) => RearrangingKeepsConjuncts(d, s, a); OperandsKeep(d, a, b, Rearranged(s, a), b);
    case InRight(s) => RearrangingKeepsConjuncts(d, s, b); OperandsKeep(d, a, b, a, Rearranged(s, b));
  }

  lemma {:induction false} SwapKeeps(d: Dialect, a: Node, b: Node)
    ensures SameConjuncts(d, And2(a, b), And2(b, a))
  {
    hide Flatten;
    FlattenAnd2(d, a, b);
    FlattenAnd2(d, b, a);
  }

  lemma {:induction false} AssocKeeps(d: Dialect, a: Node, b: Node, c: Node)
    ensures Flatten(d, And2(And2(a, b), c)) == Flatten(d, And2(a, And2(b, c)))
  {
    hide Flatten;
    Regroup(Flatten(d, a), Flatten(d, b), Flatten(d, c));
    FlattenAnd2(d, a, b);
    FlattenAnd2(d, b, c);
    FlattenAnd2(d, And2(a, b), c);
    FlattenAnd2(d, a, And2(b, c));
  }

  lemma {:induction false} OperandsKeep(d: Dialect, a: Node, b: Node, a': Node, b': Node)
    requires SameConjuncts(d, a, a') && SameConjuncts(d, b, b')
    ensures SameConjuncts(d, And2(a, b), And2(a', b'))
  {
    hide Flatten;
    FlattenAnd2(d, a, b);
    FlattenAnd2(d, a', b');
  }

  lemma {:induction false} RearrangingAllKeepsConjuncts(d: Dialect, steps: seq<Step>, e: Node)
    requires d.MySQL? || forall s :: s in steps ==> NoParens(s)
    ensures SameConjuncts(d, e, RearrangedAll(steps, e))
  {
    if steps != [] {
      RearrangingKeepsConjuncts(d, steps[0], e);
      RearrangingAllKeepsConjuncts(d, steps[1..], Rearranged(steps[0], e));
    }
  }

  /** Whatever is rearranged in the WHERE and in the condition, the decision stays the same. */
  lemma {:induction false} RearrangingInvisible(d: Dialect, steps: seq<Step>, steps': seq<Step>, where: Node,
                                                cond: Node,
                                                allowed: set<string>, occ: Occurrence)
    requires d.MySQL? || forall s :: s in steps + steps' ==> NoParens(s)
    requires Compiled(d, cond, allowed).Ok?
    ensures Compiled(d, RearrangedAll(steps', cond), allowed).Ok?
    ensures Matched(d, Some(where), occ, Compiled(d, cond, allowed).value.atoms) <==>
            Matched(d, Some(RearrangedAll(steps, where)), occ,
                    Compiled(d, RearrangedAll(steps', cond), allowed).value.atoms)
  {
    RearrangingAllKeepsConjuncts(d, steps, where);
    RearrangingAllKeepsConjuncts(d, steps', cond);
    MatchIgnoresArrangement(d, where, RearrangedAll(steps, where), cond, RearrangedAll(steps', cond), allowed, occ);
  }

  // ---------------------------------------------------------------- rendering for an alias

  function Bind(alias: string, e: Node): Node {
    match e
    case Col(_, name) => Col([alias], name)
    case Op(op, args) => Op(op, BindAll(alias, args))
    case _ => e
  }

  function BindAll(alias: string, es: seq<Node>): (r: seq<Node>)
    ensures |r| == |es| && forall i :: 0 <= i < |es| ==> r[i] == Bind(alias, es[i])
  {
    if es == [] then [] else [Bind(alias, es[0])] + BindAll(alias, es[1..])
  }

  datatype RenderError = EmptyAlias

  function RenderForAlias(c: Condition, alias: string): Result<Node, RenderError> {
    if TrimSpace(alias) == "" then Err(EmptyAlias) else Ok(Bind(TrimSpace(alias), c.raw))
  }

  lemma {:induction false} FlattenBind(d: Dialect, alias: string, e: Node)
    ensures Flatten(d, Bind(alias, e)) == BindAll(alias, Flatten(d, e))
  {
    match e
    case Op(And, args) =>
      if !(d.MySQL? && |args| != 2) { FlattenAllBind(d, alias, args); }
    case Op(Paren, args) =>
      if d.MySQL? && |args| == 1 { FlattenBind(d, alias, args[0]); }
    case _ =>
  }

  lemma {:induction false} FlattenAllBind(d: Dialect, alias: string, es: seq<Node>)
    ensures FlattenAll(d, BindAll(alias, es)) == BindAll(alias, FlattenAll(d, es))
  {
    if es != [] {
      FlattenBind(d, alias, es[0]);
      FlattenAllBind(d, alias, es[1..]);
    }
  }

  lemma {:induction false} StripBind(alias: string, e: Node)
    ensures Strip(Bind(alias, e)) == Bind(alias, Strip(e))
  {
    if e.Op? {
      forall i | 0 <= i < |e.args| ensures Strip(Bind(alias, e.args[i])) == Bind(alias, Strip(e.args[i])) {
        StripBind(alias, e.args[i]);
      }
      assert StripAll(BindAll(alias, e.args)) == BindAll(alias, StripAll(e.args));
    }
  }

  lemma {:induction false} EraseBind(d: Dialect, alias: string, e: Node)
    ensures Erase(d, Bind(alias, e)) == Erase(d, e)
  {
    if e.Op? {
      forall i | 0 <= i < |e.args| ensures Erase(d, Bind(alias, e.args[i])) == Erase(d, e.args[i]) {
        EraseBind(d, alias, e.args[i]);
      }
      assert EraseAll(d, BindAll(alias, e.args)) == EraseAll(d, e.args);
    }
  }

  /** A column of an allowed condition atom, bound to the occurrence's alias, is accepted for it. */
  lemma {:induction false} BoundAtomAccepted(d: Dialect, allowed: set<string>, occ: Occurrence, e: Node)
    requires FirstFault(d, ConditionCheck(allowed), e).None?
    ensures FirstFault(d, QueryCheck(d, occ), Bind(occ.alias, e)).None?
    decreases e
  {
    if e.Op? {
      var c, q := ConditionCheck(allowed), QueryCheck(d, occ);
      NoFaultFrom(d, c, e, 0);
      forall i | 0 <= i < |e.args| ensures FirstFault(d, q, Bind(occ.alias, e.args[i])).None? {
        BoundAtomAccepted(d, allowed, occ, e.args[i]);
      }
      assert Kids(d, Bind(occ.alias, e)) == BindAll(occ.alias, e.args);
      NoFaultFrom(d, q, Bind(occ.alias, e), 0);
    }
  }

  lemma {:induction false} BoundKey(d: Dialect, alias: string, e: Node)
    ensures Key(d, Bind(alias, e)) == Key(d, e)
  {
    StripBind(alias, e);
    EraseBind(d, alias, Bare(d, e));
  }

  lemma {:induction false} AllEligible(d: Dialect, occ: Occurrence, atoms: seq<Node>)
    requires forall k :: 0 <= k < |atoms| ==> FirstFault(d, QueryCheck(d, occ), atoms[k]).None?
    ensures EligibleKeys(d, occ, atoms) == Keys(d, atoms)
  {
    hide FirstFault, QueryCheck, Key, Kids;
    if atoms != [] {
      assert forall k :: 0 <= k < |atoms[1..]| ==> atoms[1..][k] == atoms[k + 1];
      AllEligible(d, occ, atoms[1..]);
    }
  }

  lemma {:induction false} BoundKeys(d: Dialect, allowed: set<string>, occ: Occurrence, atoms: seq<Node>)
    requires forall a :: a in atoms ==> FirstFault(d, ConditionCheck(allowed), a).None?
    ensures EligibleKeys(d, occ, BindAll(occ.alias, atoms)) == Keys(d, atoms)
  {
    var bound := BindAll(occ.alias, atoms);
    forall k | 0 <= k < |atoms|
      ensures FirstFault(d, QueryCheck(d, occ), bound[k]).None? && Key(d, bound[k]) == Key(d, atoms[k])
    {
      assert atoms[k] in atoms;
      BoundAtomAccepted(d, allowed, occ, atoms[k]);
      BoundKey(d, occ.alias, atoms[k]);
    }
    AllEligible(d, occ, bound);
    assert Keys(d, bound) == Keys(d, atoms);
  }

  /**
   Whatever other conjuncts the WHERE has, conjoining the condition rendered for the occurrence's own
   alias satisfies the policy; in particular the rendered condition alone does.
   */
  lemma {:induction false} RenderedConditionMatches(d: Dialect, cond: Node, allowed: set<string>, occ: Occurrence,
                                 where: Node, others: seq<Node>)
    requires Compiled(d, cond, allowed).Ok?
    requires TrimSpace(occ.alias) == occ.alias && occ.alias != ""
    requires var r := RenderForAlias(Compiled(d, cond, allowed).value, occ.alias);
             r.Ok? && multiset(Flatten(d, where)) == multiset(Flatten(d, r.value)) + multiset(others)
    ensures Matched(d, Some(where), occ, Compiled(d, cond, allowed).value.atoms)
  {
    var flat := Flatten(d, cond);
    var bound := Flatten(d, Bind(occ.alias, cond));
    assert EligibleKeys(d, occ, bound) == Keys(d, flat) by {
      FlattenBind(d, occ.alias, cond);
      NoBadAtom(d, ConditionCheck(allowed), flat);
      BoundKeys(d, allowed, occ, flat);
    }
    assert multiset(Flatten(d, where)) == multiset(bound + others);
    EligibleKeysPermute(d, occ, Flatten(d, where), bound + others);
    FlatMapConcat(KeysOfEligible(d, occ), bound, others);
  }
}
