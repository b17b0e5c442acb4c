/**
 Scoring a PostgreSQL execution plan (internal/dbconn/explain.go, AnalyzePostgresPlanJSON and finishRisk).

 Rows and costs are the integers the estimates truncate to. A risk factor carries its kind and figures in place of
 its message.
 */
module PlanWalk {
  import opened Lists

  const RISK_ROWS_HUGE := 1_000_000
  const RISK_ROWS_FULL_SCAN := 100_000
  const RISK_ROWS_SORT := 500_000
  const RISK_COST_HIGH := 100_000
  const RISK_NESTED_LOOP_MUL := 10_000

  datatype PlanNode = PlanNode(nodeType: string, relationName: string, indexName: string, rows: int, cost: int,
                               filter: string, joinType: string, joinFilter: string, hashCond: string,
                               mergeCond: string, indexCond: string, plans: seq<PlanNode>)

  datatype PlanStep = PlanStep(id: int, parentId: int, depth: int, operation: string, options: string,
                               objectName: string, cardinality: int, cost: int, accessPredicates: string,
                               filterPredicates: string)

  datatype Factor =
    | EmptyPlan
    | FullScan(relation: string, rows: int)
    | SmallScan(relation: string, rows: int)
    | CartesianJoin
    | LargeNestedLoop(rows: int)
    | LargeSort(rows: int)
    | LargeAggregate(rows: int)
    | TooManyRows(rows: int)
    | HighCost(cost: int)

  datatype Risk = Low | Medium | High

  datatype PlanResult = PlanResult(steps: seq<PlanStep>, totalCost: int, maxCardinality: int, risk: Risk,
                                   riskScore: nat, factors: seq<Factor>)

  function FirstNonEmpty(texts: seq<string>): string {
    if texts == [] then "" else if texts[0] != "" then texts[0] else FirstNonEmpty(texts[1..])
  }

  predicate Contains(s: string, part: string) {
    exists i, j | 0 <= i <= j <= |s| :: s[i..j] == part
  }

  // ---------------------------------------------------------------- the tree

  /** A node and the subtrees of its first `i` children, parents before children. */
  function PreorderFirst(n: PlanNode, i: nat): (nodes: seq<PlanNode>)
    requires i <= |n.plans|
    ensures |nodes| > 0 && nodes[0] == n
    decreases n, i
  {
    if i == 0 then [n] else PreorderFirst(n, i - 1) + Preorder(n.plans[i - 1])
  }

  function Preorder(n: PlanNode): (nodes: seq<PlanNode>)
    ensures |nodes| > 0 && nodes[0] == n
    decreases n, |n.plans| + 1
  {
    PreorderFirst(n, |n.plans|)
  }

  predicate HasCondition(n: PlanNode) {
    n.indexCond != "" || n.hashCond != "" || n.mergeCond != "" || n.joinFilter != ""
  }

  /** Some node strictly below `n` carries a condition. */
  ghost predicate ConditionBelow(n: PlanNode) {
    exists k :: 0 < k < |Preorder(n)| && HasCondition(Preorder(n)[k])
  }

  ghost predicate ConditionWithin(nodes: seq<PlanNode>, k: nat) {
    exists j :: k <= j < |nodes| && HasCondition(nodes[j])
  }

  lemma {:induction false} ConditionJoin(a: seq<PlanNode>, b: seq<PlanNode>)
    requires |a| > 0
    ensures ConditionWithin(a + b, 1) <==> ConditionWithin(a, 1) || ConditionWithin(b, 0)
  {
    if j :| 1 <= j < |a + b| && HasCondition((a + b)[j]) {
      assert j < |a| ==> HasCondition(a[j]);
      assert j >= |a| ==> HasCondition(b[j - |a|]);
    }
    if j :| 1 <= j < |a| && HasCondition(a[j]) {
      assert HasCondition((a + b)[j]);
    }
    if j :| 0 <= j < |b| && HasCondition(b[j]) {
      assert HasCondition((a + b)[|a| + j]);
    }
  }

  method AnyChildHasCond(n: PlanNode) returns (found: bool)
    ensures found <==> ConditionBelow(n)
    decreases n
  {
    for i := 0 to |n.plans|
      invariant !ConditionWithin(PreorderFirst(n, i), 1)
    {
      var c := n.plans[i];
      ConditionJoin(PreorderFirst(n, i), Preorder(c));
      assert PreorderFirst(n, i + 1) == PreorderFirst(n, i) + Preorder(c);
      ConditionSplit(Preorder(c));
      if HasCondition(c) {
        ConditionKept(n, i + 1);
        return true;
      }
      var below := AnyChildHasCond(c);
      if below {
        assert ConditionWithin(Preorder(c), 1);
        ConditionKept(n, i + 1);
        return true;
      }
    }
    return false;
  }

  lemma {:induction false} ConditionSplit(nodes: seq<PlanNode>)
    requires |nodes| > 0
    ensures ConditionWithin(nodes, 0) <==> HasCondition(nodes[0]) || ConditionWithin(nodes, 1)
  {
    if j :| 0 <= j < |nodes| && HasCondition(nodes[j]) {
      assert j == 0 || 1 <= j;
    }
  }

  /** A condition found among the first children stays found when the rest are added. */
  lemma {:induction false} ConditionKept(n: PlanNode, i: nat)
    requires i <= |n.plans| && ConditionWithin(PreorderFirst(n, i), 1)
    ensures ConditionBelow(n)
    decreases |n.plans| - i
  {
    if i < |n.plans| {
      ConditionJoin(PreorderFirst(n, i), Preorder(n.plans[i]));
      ConditionKept(n, i + 1);
    } else {
      var j :| 1 <= j < |PreorderFirst(n, i)| && HasCondition(PreorderFirst(n, i)[j]);
      assert HasCondition(Preorder(n)[j]);
    }
  }

  // ---------------------------------------------------------------- what the analysis must say

  predicate Joined(n: PlanNode, conditionBelow: bool) {
    n.joinFilter != "" || conditionBelow
  }

  /** The factors one node gives rise to: none or one. */
  ghost function NodeFactors(n: PlanNode): seq<Factor> {
    if n.nodeType == "Seq Scan" then
      if n.rows >= RISK_ROWS_FULL_SCAN then [FullScan(n.relationName, n.rows)]
      else if n.rows > 0 then [SmallScan(n.relationName, n.rows)]
      else []
    else if n.nodeType == "Nested Loop" then
      if !Joined(n, ConditionBelow(n)) then [CartesianJoin]
      else if n.rows >= RISK_NESTED_LOOP_MUL then [LargeNestedLoop(n.rows)]
      else []
    else if n.nodeType == "Sort" then
      if n.rows >= RISK_ROWS_SORT then [LargeSort(n.rows)] else []
    else if Contains(n.nodeType, "Aggregate") && n.rows >= RISK_ROWS_HUGE then [LargeAggregate(n.rows)]
    else []
  }

  function FactorPoints(f: Factor): nat {
    match f
    case EmptyPlan => 0
    case FullScan(_, _) => 30
    case SmallScan(_, _) => 8
    case CartesianJoin => 60
    case LargeNestedLoop(_) => 20
    case LargeSort(_) => 15
    case LargeAggregate(_) => 15
    case TooManyRows(_) => 20
    case HighCost(_) => 15
  }

  /** Every node's factors, in the order of the walk. */
  ghost function Factors(nodes: seq<PlanNode>): seq<Factor> {
    if nodes == [] then [] else Factors(nodes[..|nodes| - 1]) + NodeFactors(nodes[|nodes| - 1])
  }

  function Points(factors: seq<Factor>): nat {
    if factors == [] then 0 else Points(factors[..|factors| - 1]) + FactorPoints(factors[|factors| - 1])
  }

  function PlanFactors(maxCardinality: int, totalCost: int): seq<Factor> {
    (if maxCardinality >= RISK_ROWS_HUGE then [TooManyRows(maxCardinality)] else []) +
    (if totalCost >= RISK_COST_HIGH then [HighCost(totalCost)] else [])
  }

  /** `m` is the largest row estimate, or 0 when none is positive. */
  predicate IsMaximum(m: int, nodes: seq<PlanNode>) {
    && m >= 0
    && (forall k :: 0 <= k < |nodes| ==> nodes[k].rows <= m)
    && (m == 0 || exists k :: 0 <= k < |nodes| && nodes[k].rows == m)
  }

  /** The steps number the nodes in order; each says where its parent is, one level up. */
  predicate Linked(steps: seq<PlanStep>, nodes: seq<PlanNode>, parent: int, depth: int, first: nat) {
    && |steps| == |nodes| > 0
    && steps[0].parentId == parent && steps[0].depth == depth
    && (forall k :: 0 <= k < |steps| ==> steps[k].id == first + k)
    && (forall k :: 0 < k < |steps| ==> LinkedAt(steps, nodes, first, k))
  }

  predicate LinkedAt(steps: seq<PlanStep>, nodes: seq<PlanNode>, first: nat, k: nat)
    requires k < |steps| == |nodes|
  {
    && first <= steps[k].parentId < first + k
    && steps[k].depth == steps[steps[k].parentId - first].depth + 1
    && nodes[k] in nodes[steps[k].parentId - first].plans
  }

  predicate Describes(step: PlanStep, n: PlanNode) {
    && step.operation == n.nodeType && step.options == n.joinType
    && step.objectName == FirstNonEmpty([n.relationName, n.indexName])
    && step.cardinality == n.rows && step.cost == n.cost
    && step.accessPredicates == FirstNonEmpty([n.indexCond, n.hashCond, n.mergeCond, n.joinFilter])
    && step.filterPredicates == n.filter
  }

  predicate DescribesAll(steps: seq<PlanStep>, nodes: seq<PlanNode>) {
    |steps| == |nodes| && forall k :: 0 <= k < |steps| ==> Describes(steps[k], nodes[k])
  }

  function RiskOf(score: nat): Risk {
    if score >= 60 then High else if score >= 25 then Medium else Low
  }

  ghost predicate IsAnalysis(root: PlanNode, res: PlanResult) {
    && Linked(res.steps, Preorder(root), -1, 0, 0)
    && DescribesAll(res.steps, Preorder(root))
    && IsMaximum(res.maxCardinality, Preorder(root))
    && res.totalCost == root.cost
    && res.factors == Factors(Preorder(root)) + PlanFactors(res.maxCardinality, res.totalCost)
    && res.riskScore == Points(res.factors)
    && res.risk == RiskOf(res.riskScore)
  }

  // ---------------------------------------------------------------- the walk

  function StepOf(n: PlanNode, id: int, parent: int, depth: int): PlanStep {
    PlanStep(id, parent, depth, n.nodeType, n.joinType, FirstNonEmpty([n.relationName, n.indexName]), n.rows, n.cost,
             FirstNonEmpty([n.indexCond, n.hashCond, n.mergeCond, n.joinFilter]), n.filter)
  }

  lemma {:induction false} LinkedJoin(a: seq<PlanStep>, as': seq<PlanNode>, b: seq<PlanStep>, bs: seq<PlanNode>,
                                      parent: int, depth: int, first: nat)
    requires Linked(a, as', parent, depth, first)
    requires Linked(b, bs, first, depth + 1, first + |a|)
    requires bs[0] in as'[0].plans
    ensures Linked(a + b, as' + bs, parent, depth, first)
  {
    var steps, nodes := a + b, as' + bs;
    forall k | 0 < k < |steps| ensures LinkedAt(steps, nodes, first, k) {
      if k < |a| {
        assert LinkedAt(a, as', first, k);
      } else if k > |a| {
        assert LinkedAt(b, bs, first + |a|, k - |a|);
      }
    }
  }

  lemma {:induction false} DescribesJoin(a: seq<PlanStep>, as': seq<PlanNode>, b: seq<PlanStep>, bs: seq<PlanNode>)
    requires DescribesAll(a, as') && DescribesAll(b, bs)
    ensures DescribesAll(a + b, as' + bs)
  {
  }

  lemma {:induction false} FactorsSnoc(nodes: seq<PlanNode>, n: PlanNode)
    ensures Factors(nodes + [n]) == Factors(nodes) + NodeFactors(n)
  {
    assert (nodes + [n])[..|nodes|] == nodes;
  }

  lemma {:induction false} FactorsJoin(a: seq<PlanNode>, b: seq<PlanNode>)
    ensures Factors(a + b) == Factors(a) + Factors(b)
    decreases |b|
  {
    if b == [] {
      assert a + b == a;
    } else {
      var rest, last := b[..|b| - 1], b[|b| - 1];
      FactorsJoin(a, rest);
      assert b == rest + [last];
      Regroup(a, rest, [last]);
      FactorsSnoc(a + rest, last);
      FactorsSnoc(rest, last);
      Regroup(Factors(a), Factors(rest), NodeFactors(last));
    }
  }

  lemma {:induction false} PointsJoin(a: seq<Factor>, b: seq<Factor>)
    ensures Points(a + b) == Points(a) + Points(b)
    decreases |b|
  {
    if b == [] {
      assert a + b == a;
    } else {
      PointsJoin(a, b[..|b| - 1]);
      assert (a + b)[..|a + b| - 1] == a + b[..|b| - 1];
    }
  }

  /** The running maximum, started at `before`. */
  function MaximumFrom(before: int, nodes: seq<PlanNode>): int {
    if nodes == [] then before
    else
      var m, rows := MaximumFrom(before, nodes[..|nodes| - 1]), nodes[|nodes| - 1].rows;
      if rows > m then rows else m
  }

  lemma {:induction false} MaximumJoin(before: int, a: seq<PlanNode>, b: seq<PlanNode>)
    ensures MaximumFrom(before, a + b) == MaximumFrom(MaximumFrom(before, a), b)
    decreases |b|
  {
    if b == [] {
      assert a + b == a;
    } else {
      MaximumJoin(before, a, b[..|b| - 1]);
      assert (a + b)[..|a + b| - 1] == a + b[..|b| - 1];
    }
  }

  lemma {:induction false} RunningMaximum(nodes: seq<PlanNode>)
    ensures IsMaximum(MaximumFrom(0, nodes), nodes)
    decreases |nodes|
  {
    if nodes != [] {
      var rest, m := nodes[..|nodes| - 1], MaximumFrom(0, nodes);
      RunningMaximum(rest);
      if m == nodes[|nodes| - 1].rows {
      } else if m != 0 {
        var k :| 0 <= k < |rest| && rest[k].rows == m;
        assert nodes[k].rows == m;
      }
    }
  }

  /** The steps for a node and the subtrees of its first `i` children, when `id` is the next number to give. */
  function StepsFirst(n: PlanNode, i: nat, parent: int, depth: int, id: nat): seq<PlanStep>
    requires i <= |n.plans|
    decreases n, i
  {
    if i == 0 then [StepOf(n, id, parent, depth)]
    else
      StepsFirst(n, i - 1, parent, depth, id) +
      Steps(n.plans[i - 1], id, depth + 1, id + |PreorderFirst(n, i - 1)|)
  }

  function Steps(n: PlanNode, parent: int, depth: int, id: nat): seq<PlanStep>
    decreases n, |n.plans| + 1
  {
    StepsFirst(n, |n.plans|, parent, depth, id)
  }

  lemma {:induction false} StepsMirror(n: PlanNode, i: nat, parent: int, depth: int, id: nat)
    requires i <= |n.plans|
    ensures Linked(StepsFirst(n, i, parent, depth, id), PreorderFirst(n, i), parent, depth, id)
    ensures DescribesAll(StepsFirst(n, i, parent, depth, id), PreorderFirst(n, i))
    decreases n, i
  {
    if i > 0 {
      var c := n.plans[i - 1];
      var a, as' := StepsFirst(n, i - 1, parent, depth, id), PreorderFirst(n, i - 1);
      StepsMirror(n, i - 1, parent, depth, id);
      StepsMirror(c, |c.plans|, id, depth + 1, id + |as'|);
      LinkedJoin(a, as', Steps(c, id, depth + 1, id + |as'|), Preorder(c), parent, depth, id);
      DescribesJoin(a, as', Steps(c, id, depth + 1, id + |as'|), Preorder(c));
    }
  }

  /** What the walk has gathered at some moment. */
  datatype Progress = Progress(id: nat, score: nat, steps: seq<PlanStep>, maxCardinality: int, factors: seq<Factor>)

  /** From `s0` to `s1` the walk visited exactly `nodes`, adding the steps `added`. */
  ghost predicate Extends(s0: Progress, s1: Progress, added: seq<PlanStep>, nodes: seq<PlanNode>) {
    && s1.id == s0.id + |nodes|
    && s1.steps == s0.steps + added
    && s1.score == s0.score + Points(Factors(nodes))
    && s1.factors == s0.factors + Factors(nodes)
    && s1.maxCardinality == MaximumFrom(s0.maxCardinality, nodes)
  }

  lemma {:induction false} FactorsContinue(s0: Progress, s1: Progress, s2: Progress, a: seq<PlanNode>,
                                           b: seq<PlanNode>)
    requires s1.score == s0.score + Points(Factors(a)) && s1.factors == s0.factors + Factors(a)
    requires s2.score == s1.score + Points(Factors(b)) && s2.factors == s1.factors + Factors(b)
    ensures s2.score == s0.score + Points(Factors(a + b)) && s2.factors == s0.factors + Factors(a + b)
  {
    var fa, fb := Factors(a), Factors(b);
    FactorsJoin(a, b);
    PointsJoin(fa, fb);
    Regroup(s0.factors, fa, fb);
  }

  lemma {:induction false} Continue(s0: Progress, s1: Progress, s2: Progress, added: seq<PlanStep>,
                                    more: seq<PlanStep>, a: seq<PlanNode>, b: seq<PlanNode>)
    requires Extends(s0, s1, added, a) && Extends(s1, s2, more, b)
    ensures Extends(s0, s2, added + more, a + b)
  {
    FactorsContinue(s0, s1, s2, a, b);
    MaximumJoin(s0.maxCardinality, a, b);
    Regroup(s0.steps, added, more);
  }

  /** Visiting a child's subtree continues the visit of its parent. */
  lemma {:induction false} ContinueChild(s0: Progress, s1: Progress, s2: Progress, n: PlanNode, i: nat, parent: int,
                                         depth: int)
    requires i < |n.plans|
    requires Extends(s0, s1, StepsFirst(n, i, parent, depth, s0.id), PreorderFirst(n, i))
    requires Extends(s1, s2, Steps(n.plans[i], s0.id, depth + 1, s1.id), Preorder(n.plans[i]))
    ensures Extends(s0, s2, StepsFirst(n, i + 1, parent, depth, s0.id), PreorderFirst(n, i + 1))
  {
    Continue(s0, s1, s2, StepsFirst(n, i, parent, depth, s0.id), Steps(n.plans[i], s0.id, depth + 1, s1.id),
             PreorderFirst(n, i), Preorder(n.plans[i]));
  }

  lemma {:induction false} OneNode(n: PlanNode)
    ensures Factors([n]) == NodeFactors(n)
    ensures forall before :: MaximumFrom(before, [n]) == if n.rows > before then n.rows else before
  {
    assert [n][..0] == [];
  }

  /** The state that the walk's closure updates, and the result under construction. */
  class Walker {
    var id: nat
    var score: nat
    var steps: seq<PlanStep>
    var maxCardinality: int
    var factors: seq<Factor>

    constructor ()
      ensures id == 0 && score == 0 && steps == [] && maxCardinality == 0 && factors == []
    {
      id, score, steps, maxCardinality, factors := 0, 0, [], 0, [];
    }

    method AddRisk(points: nat, factor: Factor)
      requires points == FactorPoints(factor)
      modifies `score, `factors
      ensures score == old(score) + FactorPoints(factor) && factors == old(factors) + [factor]
    {
      score := score + points;
      factors := factors + [factor];
    }

    method ScoreNode(n: PlanNode)
      modifies `score, `factors
      ensures factors == old(factors) + NodeFactors(n)
      ensures score == old(score) + Points(NodeFactors(n))
    {
      if n.nodeType == "Seq Scan" {
        if n.rows >= RISK_ROWS_FULL_SCAN {
          AddRisk(30, FullScan(n.relationName, n.rows));
        } else if n.rows > 0 {
          AddRisk(8, SmallScan(n.relationName, n.rows));
        }
      } else if n.nodeType == "Nested Loop" {
        var below := false;
        if n.joinFilter == "" {
          below := AnyChildHasCond(n);
        }
        if !Joined(n, below) {
          AddRisk(60, CartesianJoin);
        } else if n.rows >= RISK_NESTED_LOOP_MUL {
          AddRisk(20, LargeNestedLoop(n.rows));
        }
      } else if n.nodeType == "Sort" {
        if n.rows >= RISK_ROWS_SORT {
          AddRisk(15, LargeSort(n.rows));
        }
      } else if Contains(n.nodeType, "Aggregate") {
        if n.rows >= RISK_ROWS_HUGE {
          AddRisk(15, LargeAggregate(n.rows));
        }
      }
    }

    ghost function Now(): Progress
      reads this
    {
      Progress(id, score, steps, maxCardinality, factors)
    }

    method Enter(n: PlanNode, parent: int, depth: int) returns (myId: nat)
      modifies this
      ensures myId == old(id)
      ensures Extends(old(Now()), Now(), StepsFirst(n, 0, parent, depth, old(id)), PreorderFirst(n, 0))
    {
      OneNode(n);
      myId := id;
      id := id + 1;
      var step := StepOf(n, myId, parent, depth);
      steps := steps + [step];
      if n.rows > maxCardinality {
        maxCardinality := n.rows;
      }
      ScoreNode(n);
    }

    method Walk(n: PlanNode, parent: int, depth: int)
      modifies this
      ensures Extends(old(Now()), Now(), Steps(n, parent, depth, old(id)), Preorder(n))
      decreases n, |n.plans| + 1
    {
      ghost var before := Now();
      var myId := Enter(n, parent, depth);
      for i := 0 to |n.plans|
        invariant Extends(before, Now(), StepsFirst(n, i, parent, depth, myId), PreorderFirst(n, i))
      {
        WalkChild(n, i, myId, parent, depth, before);
      }
    }

    method WalkChild(n: PlanNode, i: nat, myId: nat, ghost parent: int, depth: int, ghost before: Progress)
      requires i < |n.plans| && myId == before.id
      requires Extends(before, Now(), StepsFirst(n, i, parent, depth, myId), PreorderFirst(n, i))
      modifies this
      ensures Extends(before, Now(), StepsFirst(n, i + 1, parent, depth, myId), PreorderFirst(n, i + 1))
      decreases n, i
    {
      ghost var midway := Now();
      Walk(n.plans[i], myId, depth + 1);
      ContinueChild(before, midway, Now(), n, i, parent, depth);
    }
  }

  lemma {:induction false} Assembled(root: PlanNode, walked: Progress, res: PlanResult)
    requires Extends(Progress(0, 0, [], 0, []), walked, Steps(root, -1, 0, 0), Preorder(root))
    requires res.totalCost == root.cost && res.maxCardinality == walked.maxCardinality
    requires res.steps == walked.steps && res.risk == RiskOf(res.riskScore)
    requires res.factors == walked.factors + PlanFactors(res.maxCardinality, res.totalCost)
    requires res.riskScore == walked.score + Points(PlanFactors(res.maxCardinality, res.totalCost))
    ensures IsAnalysis(root, res)
  {
    var nodes := Preorder(root);
    FromNothing(Steps(root, -1, 0, 0));
    FromNothing(Factors(nodes));
    PointsJoin(Factors(nodes), PlanFactors(res.maxCardinality, res.totalCost));
    StepsMirror(root, |root.plans|, -1, 0, 0);
    RunningMaximum(nodes);
  }

  lemma {:induction false} FromNothing<T>(s: seq<T>)
    ensures [] + s == s
  {
  }

  method AnalyzePostgresPlan(top: seq<PlanNode>) returns (res: PlanResult)
    ensures top == [] ==> res == PlanResult([], 0, 0, Low, 0, [EmptyPlan])
    ensures top != [] ==> IsAnalysis(top[0], res)
  {
    if |top| == 0 {
      return PlanResult([], 0, 0, Low, 0, [EmptyPlan]);
    }
    var walker := new Walker();
    walker.Walk(top[0], -1, 0);
    var totalCost := top[0].cost;
    var risk, score, factors := FinishRisk(walker.score, walker.maxCardinality, totalCost, walker.factors);
    res := PlanResult(walker.steps, totalCost, walker.maxCardinality, risk, score, factors);
    Assembled(top[0], walker.Now(), res);
  }

  method FinishRisk(score0: nat, maxCardinality: int, totalCost: int, factors0: seq<Factor>)
    returns (risk: Risk, score: nat, factors: seq<Factor>)
    ensures factors == factors0 + PlanFactors(maxCardinality, totalCost)
    ensures score == score0 + Points(PlanFactors(maxCardinality, totalCost))
    ensures risk == RiskOf(score)
  {
    risk, score, factors := Low, score0, factors0;
    PointsJoin([TooManyRows(maxCardinality)], [HighCost(totalCost)]);
    assert Points([TooManyRows(maxCardinality)]) == 20;
    assert Points([HighCost(totalCost)]) == 15;
    if maxCardinality >= RISK_ROWS_HUGE {
      score := score + 20;
      factors := factors + [TooManyRows(maxCardinality)];
    }
    if totalCost >= RISK_COST_HIGH {
      score := score + 15;
      factors := factors + [HighCost(totalCost)];
    }
    if score >= 60 {
      risk := High;
    } else if score >= 25 {
      risk := Medium;
    }
  }

  // ---------------------------------------------------------------- what the score guarantees

  lemma {:induction false} FactorCounts(nodes: seq<PlanNode>, k: nat)
    requires k < |nodes|
    ensures Points(Factors(nodes)) >= Points(NodeFactors(nodes[k]))
    decreases |nodes|
  {
    var rest := nodes[..|nodes| - 1];
    PointsJoin(Factors(rest), NodeFactors(nodes[|nodes| - 1]));
    if k < |rest| {
      FactorCounts(rest, k);
    }
  }

  lemma {:induction false} NodeCounts(root: PlanNode, res: PlanResult, k: nat)
    requires IsAnalysis(root, res) && k < |Preorder(root)|
    ensures res.riskScore >= Points(NodeFactors(Preorder(root)[k]))
  {
    FactorCounts(Preorder(root), k);
    PointsJoin(Factors(Preorder(root)), PlanFactors(res.maxCardinality, res.totalCost));
  }

  lemma {:induction false} Singles(f: Factor, g: Factor)
    ensures Points([f]) == FactorPoints(f) && Points([f] + [g]) == FactorPoints(f) + FactorPoints(g)
  {
    PointsJoin([f], [g]);
  }

  /** A join without a condition anywhere below it makes the whole plan high risk, wherever it is in the tree. */
  lemma {:induction false} CartesianIsHigh(root: PlanNode, res: PlanResult, k: nat)
    requires IsAnalysis(root, res) && k < |Preorder(root)|
    requires Preorder(root)[k].nodeType == "Nested Loop" && Preorder(root)[k].joinFilter == ""
    requires !ConditionBelow(Preorder(root)[k])
    ensures res.risk == High
  {
    NodeCounts(root, res, k);
    Singles(CartesianJoin, CartesianJoin);
  }

  lemma {:induction false} LowRiskTotals(root: PlanNode, res: PlanResult)
    requires IsAnalysis(root, res) && res.risk == Low
    ensures res.maxCardinality < RISK_ROWS_HUGE || res.totalCost < RISK_COST_HIGH
  {
    PointsJoin(Factors(Preorder(root)), PlanFactors(res.maxCardinality, res.totalCost));
    Singles(TooManyRows(res.maxCardinality), HighCost(res.totalCost));
  }

  lemma {:induction false} FewPoints(n: PlanNode)
    requires Points(NodeFactors(n)) < 25
    ensures n.nodeType == "Seq Scan" ==> n.rows < RISK_ROWS_FULL_SCAN
    ensures n.nodeType == "Nested Loop" ==> n.joinFilter != "" || ConditionBelow(n)
  {
    Singles(FullScan(n.relationName, n.rows), CartesianJoin);
    Singles(CartesianJoin, CartesianJoin);
  }

  /** A low risk plan has no large scan, no unconditional join and not both a huge step and a high cost. */
  lemma {:induction false} LowRiskMeans(root: PlanNode, res: PlanResult, k: nat)
    requires IsAnalysis(root, res) && res.risk == Low && k < |Preorder(root)|
    ensures Preorder(root)[k].nodeType == "Seq Scan" ==> Preorder(root)[k].rows < RISK_ROWS_FULL_SCAN
    ensures Preorder(root)[k].nodeType == "Nested Loop" ==>
              Preorder(root)[k].joinFilter != "" || ConditionBelow(Preorder(root)[k])
    ensures Preorder(root)[k].rows < RISK_ROWS_HUGE || root.cost < RISK_COST_HIGH
  {
    NodeCounts(root, res, k);
    FewPoints(Preorder(root)[k]);
    LowRiskTotals(root, res);
  }

}
