/**
 Choosing evaluation cases round robin over the buckets (cmd/jamypg-goldgen/main.go, the selection loop).

 The buckets come in key order, each in source order; a case is known by its normalised question.
 */
module GoldenSelection {
  import opened Basics

  datatype Case = Case(question: string, sourceId: string)

  function Questions(cases: seq<Case>): set<string> {
    if cases == [] then {} else Questions(cases[..|cases| - 1]) + {cases[|cases| - 1].question}
  }

  function Min(a: int, b: int): int {
    if a < b then a else b
  }

  // ---------------------------------------------------------------- what a selection may be

  /** The questions within the first `depth` places of the buckets. */
  function QuestionsAbove(buckets: seq<seq<Case>>, depth: nat): set<string> {
    if buckets == [] then {}
    else
      var last := buckets[|buckets| - 1];
      QuestionsAbove(buckets[..|buckets| - 1], depth) + Questions(last[..Min(depth, |last|)])
  }

  function AllQuestions(buckets: seq<seq<Case>>): set<string> {
    if buckets == [] then {}
    else AllQuestions(buckets[..|buckets| - 1]) + Questions(buckets[|buckets| - 1])
  }

  /** How many cases there were to choose from: repeated and curated questions do not count. */
  function Available(buckets: seq<seq<Case>>, curated: set<string>): nat {
    |AllQuestions(buckets) - curated|
  }

  predicate DistinctQuestions(cases: seq<Case>) {
    forall i, j :: 0 <= i < j < |cases| ==> cases[i].question != cases[j].question
  }

  predicate IsAt(buckets: seq<seq<Case>>, i: int, j: int, q: string) {
    0 <= i < |buckets| && 0 <= j < |buckets[i]| && buckets[i][j].question == q
  }

  /** No question is curated and none is asked in two places. */
  ghost predicate CandidatesDistinct(buckets: seq<seq<Case>>, curated: set<string>) {
    && (forall i, j, q :: IsAt(buckets, i, j, q) ==> q !in curated)
    && (forall i, j, i', j', q :: IsAt(buckets, i, j, q) && IsAt(buckets, i', j', q) ==> i == i' && j == j')
  }

  /** How many of a bucket's cases a selection holds. */
  function Taken(bucket: seq<Case>, selected: seq<Case>): nat {
    if bucket == [] then 0
    else
      Taken(bucket[..|bucket| - 1], selected) +
      if bucket[|bucket| - 1].question in Questions(selected) then 1 else 0
  }

  function Total(buckets: seq<seq<Case>>): nat {
    if buckets == [] then 0 else Total(buckets[..|buckets| - 1]) + |buckets[|buckets| - 1]|
  }

  /** The round at `depth` offers something that no earlier round offered. */
  predicate Offers(buckets: seq<seq<Case>>, curated: set<string>, depth: nat) {
    !(QuestionsAbove(buckets, depth + 1) <= QuestionsAbove(buckets, depth) + curated)
  }

  /** No round that begins short of the target, with something still to come, offers nothing. */
  ghost predicate NoStaleRound(buckets: seq<seq<Case>>, curated: set<string>, want: nat) {
    forall depth: nat :: |QuestionsAbove(buckets, depth) - curated| < Min(want, Available(buckets, curated)) ==>
                           Offers(buckets, curated, depth)
  }

  // ---------------------------------------------------------------- the order of visits and the picks

  /** The cases visited in `rounds` whole rounds and then in the first `k` buckets. */
  function Visited(buckets: seq<seq<Case>>, rounds: nat, k: nat): seq<Case>
    requires k <= |buckets|
    decreases rounds, k
  {
    if k > 0 then
      Visited(buckets, rounds, k - 1) + (if rounds < |buckets[k - 1]| then [buckets[k - 1][rounds]] else [])
    else if rounds > 0 then Visited(buckets, rounds - 1, |buckets|)
    else []
  }

  /** The first occurrences of questions outside `curated`. */
  function Picked(curated: set<string>, cases: seq<Case>): seq<Case> {
    if cases == [] then []
    else
      var rest, last := cases[..|cases| - 1], cases[|cases| - 1];
      Picked(curated, rest) + if last.question in curated + Questions(rest) then [] else [last]
  }

  lemma {:induction false} QuestionsSnoc(cases: seq<Case>, c: Case)
    ensures Questions(cases + [c]) == Questions(cases) + {c.question}
  {
    assert (cases + [c])[..|cases|] == cases;
  }

  lemma {:induction false} PickedSnoc(curated: set<string>, cases: seq<Case>, c: Case)
    ensures Picked(curated, cases + [c]) ==
            Picked(curated, cases) + if c.question in curated + Questions(cases) then [] else [c]
  {
    assert (cases + [c])[..|cases|] == cases;
  }

  lemma {:induction false} QuestionsHold(cases: seq<Case>, q: string)
    ensures q in Questions(cases) <==> exists j :: IsAt([cases], 0, j, q)
  {
    if cases != [] {
      var rest, last := cases[..|cases| - 1], cases[|cases| - 1];
      QuestionsHold(rest, q);
      if q in Questions(rest) {
        var j :| IsAt([rest], 0, j, q);
        assert IsAt([cases], 0, j, q);
      } else if q == last.question {
        assert IsAt([cases], 0, |cases| - 1, q);
      } else if j :| IsAt([cases], 0, j, q) {
        assert IsAt([rest], 0, j, q);
      }
    }
  }

  lemma {:induction false} DistinctSnoc(cases: seq<Case>, c: Case)
    requires DistinctQuestions(cases) && c.question !in Questions(cases)
    ensures DistinctQuestions(cases + [c])
  {
    forall i | 0 <= i < |cases| ensures cases[i].question != c.question {
      QuestionsHold(cases, cases[i].question);
      assert IsAt([cases], 0, i, cases[i].question);
    }
  }

  /** The picks have distinct questions, none of them curated, and miss no question. */
  lemma {:induction false} PicksAreTheNewQuestions(curated: set<string>, cases: seq<Case>)
    ensures DistinctQuestions(Picked(curated, cases))
    ensures Questions(Picked(curated, cases)) == Questions(cases) - curated
    ensures |Picked(curated, cases)| == |Questions(cases) - curated|
    decreases |cases|
  {
    if cases != [] {
      var rest, last := cases[..|cases| - 1], cases[|cases| - 1];
      var picks := Picked(curated, rest);
      PicksAreTheNewQuestions(curated, rest);
      if last.question in curated + Questions(rest) {
        assert Questions(cases) - curated == Questions(rest) - curated;
        assert Picked(curated, cases) == picks + [] == picks;
      } else {
        QuestionsSnoc(picks, last);
        DistinctSnoc(picks, last);
        assert Questions(cases) - curated == (Questions(rest) - curated) + {last.question};
      }
    }
  }

  /** The question is in the first `rounds` places of some bucket, or one place further in the first `k`. */
  ghost predicate Reached(buckets: seq<seq<Case>>, rounds: nat, k: nat, q: string) {
    exists i, j :: IsAt(buckets, i, j, q) && j < (if i < k then rounds + 1 else rounds)
  }

  lemma {:induction false} ReachedNext(buckets: seq<seq<Case>>, rounds: nat, k: nat, q: string)
    requires k < |buckets|
    ensures Reached(buckets, rounds, k + 1, q) <==> Reached(buckets, rounds, k, q) || IsAt(buckets, k, rounds, q)
  {
    if i, j :| IsAt(buckets, i, j, q) && j < (if i < k + 1 then rounds + 1 else rounds) {
      assert j < (if i < k then rounds + 1 else rounds) || (i == k && j == rounds);
    }
    if IsAt(buckets, k, rounds, q) {
      assert rounds < (if k < k + 1 then rounds + 1 else rounds);
    }
  }

  lemma {:induction false} ReachedRound(buckets: seq<seq<Case>>, rounds: nat, q: string)
    ensures Reached(buckets, rounds + 1, 0, q) <==> Reached(buckets, rounds, |buckets|, q)
    ensures !Reached(buckets, 0, 0, q)
  {
    if i, j :| IsAt(buckets, i, j, q) && j < (if i < 0 then rounds + 2 else rounds + 1) {
      assert j < (if i < |buckets| then rounds + 1 else rounds);
    }
    if i, j :| IsAt(buckets, i, j, q) && j < (if i < |buckets| then rounds + 1 else rounds) {
      assert j < (if i < 0 then rounds + 2 else rounds + 1);
    }
  }

  lemma {:induction false} VisitedNext(buckets: seq<seq<Case>>, rounds: nat, k: nat, q: string)
    requires k < |buckets|
    ensures q in Questions(Visited(buckets, rounds, k + 1)) <==>
              q in Questions(Visited(buckets, rounds, k)) || IsAt(buckets, k, rounds, q)
  {
    if rounds < |buckets[k]| {
      QuestionsSnoc(Visited(buckets, rounds, k), buckets[k][rounds]);
    } else {
      assert Visited(buckets, rounds, k + 1) == Visited(buckets, rounds, k);
    }
  }

  lemma {:induction false} VisitedQuestions(buckets: seq<seq<Case>>, rounds: nat, k: nat, q: string)
    requires k <= |buckets|
    ensures q in Questions(Visited(buckets, rounds, k)) <==> Reached(buckets, rounds, k, q)
    decreases rounds, k
  {
    if k > 0 {
      VisitedQuestions(buckets, rounds, k - 1, q);
      ReachedNext(buckets, rounds, k - 1, q);
      VisitedNext(buckets, rounds, k - 1, q);
    } else if rounds > 0 {
      VisitedQuestions(buckets, rounds - 1, |buckets|, q);
      ReachedRound(buckets, rounds - 1, q);
    } else {
      ReachedRound(buckets, 0, q);
    }
  }

  /** The recursive sets hold what they should. */
  lemma {:induction false} AboveHolds(buckets: seq<seq<Case>>, depth: nat, q: string)
    ensures q in QuestionsAbove(buckets, depth) <==> Reached(buckets, depth, 0, q)
    ensures q in AllQuestions(buckets) <==> exists i, j :: IsAt(buckets, i, j, q)
  {
    if buckets != [] {
      var n := |buckets| - 1;
      var rest, last := buckets[..n], buckets[n];
      AboveHolds(rest, depth, q);
      QuestionsHold(last[..Min(depth, |last|)], q);
      QuestionsHold(last, q);
      assert forall i, j :: IsAt(rest, i, j, q) ==> IsAt(buckets, i, j, q);
      assert forall i, j :: IsAt(buckets, i, j, q) && i != n ==> IsAt(rest, i, j, q);
      assert forall j :: IsAt([last], 0, j, q) <==> IsAt(buckets, n, j, q);
      assert forall j :: IsAt([last[..Min(depth, |last|)]], 0, j, q) <==> IsAt(buckets, n, j, q) && j < depth;
      assert q in QuestionsAbove(buckets, depth) <==> Reached(buckets, depth, 0, q) by {
        if i, j :| IsAt(rest, i, j, q) && j < (if i < 0 then depth + 1 else depth) {
          assert IsAt(buckets, i, j, q);
        }
        if i, j :| IsAt(buckets, i, j, q) && j < (if i < 0 then depth + 1 else depth) {
          assert i == n || IsAt(rest, i, j, q);
        }
      }
    }
  }

  lemma {:induction false} WholeRounds(buckets: seq<seq<Case>>, rounds: nat)
    ensures Questions(Visited(buckets, rounds, 0)) == QuestionsAbove(buckets, rounds)
    ensures Visited(buckets, rounds, |buckets|) == Visited(buckets, rounds + 1, 0)
  {
    forall q ensures q in Questions(Visited(buckets, rounds, 0)) <==> q in QuestionsAbove(buckets, rounds) {
      VisitedQuestions(buckets, rounds, 0, q);
      AboveHolds(buckets, rounds, q);
    }
  }

  // ---------------------------------------------------------------- the loop

  /** Where the selection may end: at the target, or after the first round that offered nothing. */
  ghost predicate StopsAt(buckets: seq<seq<Case>>, curated: set<string>, want: nat, rounds: nat, k: nat)
    requires k <= |buckets|
  {
    var found := |Picked(curated, Visited(buckets, rounds, k))|;
    && found <= want
    && AllOffer(buckets, curated, rounds)
    && (found == want || (k == 0 && !Offers(buckets, curated, rounds)))
  }

  ghost predicate IsSelection(buckets: seq<seq<Case>>, curated: set<string>, want: nat, selected: seq<Case>) {
    exists rounds: nat, k: nat | k <= |buckets| ::
      StopsAt(buckets, curated, want, rounds, k) && selected == Picked(curated, Visited(buckets, rounds, k))
  }

  lemma {:induction false} AboveGrows(buckets: seq<seq<Case>>, a: nat, b: nat)
    requires a <= b
    ensures QuestionsAbove(buckets, a) <= QuestionsAbove(buckets, b) <= AllQuestions(buckets)
  {
    forall q ensures q in QuestionsAbove(buckets, a) ==> q in QuestionsAbove(buckets, b)
             ensures q in QuestionsAbove(buckets, b) ==> q in AllQuestions(buckets)
    {
      AboveHolds(buckets, a, q);
      AboveHolds(buckets, b, q);
      if i, j :| IsAt(buckets, i, j, q) && j < (if i < 0 then a + 1 else a) {
        assert j < (if i < 0 then b + 1 else b);
      }
    }
  }

  lemma {:induction false} FoundSoFar(buckets: seq<seq<Case>>, curated: set<string>, rounds: nat)
    ensures |Picked(curated, Visited(buckets, rounds, 0))| == |QuestionsAbove(buckets, rounds) - curated|
  {
    WholeRounds(buckets, rounds);
    PicksAreTheNewQuestions(curated, Visited(buckets, rounds, 0));
  }

  /** A whole round finds something exactly when it offers something. */
  lemma {:induction false} RoundFinds(buckets: seq<seq<Case>>, curated: set<string>, rounds: nat)
    ensures |QuestionsAbove(buckets, rounds + 1) - curated| == |QuestionsAbove(buckets, rounds) - curated| <==>
              !Offers(buckets, curated, rounds)
  {
    AboveGrows(buckets, rounds, rounds + 1);
    var before, after := QuestionsAbove(buckets, rounds), QuestionsAbove(buckets, rounds + 1);
    SubsetSize(before - curated, after - curated);
    if after - curated <= before - curated {
      assert forall q :: q in after ==> q in curated || q in after - curated;
    }
  }

  function Wanted(curated: seq<Case>, total: int): nat {
    if total > |curated| then total - |curated| else 0
  }

  /** The state of the loop within a round: what has been seen and selected up to bucket `b`. */
  ghost predicate At(buckets: seq<seq<Case>>, kept: set<string>, round: nat, b: nat, seenQuestion: set<string>,
                     selected: seq<Case>)
  {
    && b <= |buckets|
    && selected == Picked(kept, Visited(buckets, round, b))
    && seenQuestion == kept + Questions(Visited(buckets, round, b))
  }

  lemma {:induction false} NextRound(buckets: seq<seq<Case>>, kept: set<string>, round: nat,
                                     seenQuestion: set<string>, selected: seq<Case>)
    requires At(buckets, kept, round, |buckets|, seenQuestion, selected)
    ensures At(buckets, kept, round + 1, 0, seenQuestion, selected)
    ensures |selected| == |Picked(kept, Visited(buckets, round, 0))| <==> !Offers(buckets, kept, round)
  {
    WholeRounds(buckets, round);
    FoundSoFar(buckets, kept, round);
    FoundSoFar(buckets, kept, round + 1);
    RoundFinds(buckets, kept, round);
  }

  method VisitBucket(buckets: seq<seq<Case>>, ghost kept: set<string>, round: nat, b: nat,
                     seenQuestion: set<string>, selected: seq<Case>)
    returns (seenQuestion': set<string>, selected': seq<Case>)
    requires b < |buckets| && At(buckets, kept, round, b, seenQuestion, selected)
    ensures At(buckets, kept, round, b + 1, seenQuestion', selected')
    ensures selected' == selected || |selected'| == |selected| + 1
  {
    seenQuestion', selected' := seenQuestion, selected;
    if round < |buckets[b]| {
      var c := buckets[b][round];
      ghost var visited := Visited(buckets, round, b);
      assert Visited(buckets, round, b + 1) == visited + [c];
      PickedSnoc(kept, visited, c);
      QuestionsSnoc(visited, c);
      if c.question in seenQuestion {
        return;
      }
      seenQuestion' := seenQuestion + {c.question};
      selected' := selected + [c];
    } else {
      assert Visited(buckets, round, b + 1) == Visited(buckets, round, b);
    }
  }

  /** One round over the buckets in order, up to the target. */
  method Round(buckets: seq<seq<Case>>, ghost kept: set<string>, want: nat, round: nat,
               seenQuestion: set<string>, selected: seq<Case>)
    returns (seenQuestion': set<string>, selected': seq<Case>, progressed: bool, ghost b: nat)
    requires At(buckets, kept, round, 0, seenQuestion, selected) && |selected| < want
    ensures At(buckets, kept, round, b, seenQuestion', selected')
    ensures |selected| <= |selected'| <= want && (progressed <==> |selected| < |selected'|)
    ensures |selected'| < want ==> b == |buckets|
    ensures !progressed ==> selected' == selected
  {
    seenQuestion', selected', progressed := seenQuestion, selected, false;
    var k := 0;
    while k < |buckets|
      invariant At(buckets, kept, round, k, seenQuestion', selected')
      invariant |selected| <= |selected'| <= want && (progressed <==> |selected| < |selected'|)
      invariant !progressed ==> selected' == selected
    {
      if |selected'| >= want {
        break;
      }
      ghost var before := |selected'|;
      seenQuestion', selected' := VisitBucket(buckets, kept, round, k, seenQuestion', selected');
      progressed := |selected| < |selected'|;
      k := k + 1;
    }
    b := k;
  }

  ghost predicate AllOffer(buckets: seq<seq<Case>>, curated: set<string>, rounds: nat) {
    forall depth: nat :: depth < rounds ==> Offers(buckets, curated, depth)
  }

  lemma {:induction false} Filled(buckets: seq<seq<Case>>, kept: set<string>, want: nat, round: nat, b: nat,
                                  seenQuestion: set<string>, selected: seq<Case>)
    requires At(buckets, kept, round, b, seenQuestion, selected) && AllOffer(buckets, kept, round)
    requires |selected| == want
    ensures IsSelection(buckets, kept, want, selected)
  {
    assert StopsAt(buckets, kept, want, round, b);
  }

  lemma {:induction false} Stalled(buckets: seq<seq<Case>>, kept: set<string>, want: nat, round: nat,
                                   seenQuestion: set<string>, selected: seq<Case>)
    requires At(buckets, kept, round, 0, seenQuestion, selected) && AllOffer(buckets, kept, round)
    requires |selected| <= want && !Offers(buckets, kept, round)
    ensures IsSelection(buckets, kept, want, selected)
  {
    assert StopsAt(buckets, kept, want, round, 0);
  }

  method CuratedQuestions(curated: seq<Case>) returns (seenQuestion: set<string>)
    ensures seenQuestion == Questions(curated)
  {
    seenQuestion := {};
    for i := 0 to |curated|
      invariant seenQuestion == Questions(curated[..i])
    {
      QuestionsSnoc(curated[..i], curated[i]);
      assert curated[..i + 1] == curated[..i] + [curated[i]];
      seenQuestion := seenQuestion + {curated[i].question};
    }
    assert curated[..|curated|] == curated;
  }

  method Select(buckets: seq<seq<Case>>, curated: seq<Case>, total: int) returns (selected: seq<Case>)
    ensures IsSelection(buckets, Questions(curated), Wanted(curated, total), selected)
  {
    var seenQuestion := CuratedQuestions(curated);
    ghost var kept := Questions(curated);
    var want := total - |curated|;
    if want < 0 {
      want := 0;
    }
    selected := [];
    var round := 0;
    if want == 0 {
      Filled(buckets, kept, want, 0, 0, seenQuestion, selected);
    }
    while |selected| < want
      invariant |selected| < want ==>
                  At(buckets, kept, round, 0, seenQuestion, selected) && AllOffer(buckets, kept, round)
      invariant |selected| >= want ==> IsSelection(buckets, kept, want, selected)
      decreases want - |selected|
    {
      var progressed;
      ghost var b, seenBefore, before := 0, seenQuestion, selected;
      seenQuestion, selected, progressed, b := Round(buckets, kept, want, round, seenQuestion, selected);
      if |selected| == want {
        Filled(buckets, kept, want, round, b, seenQuestion, selected);
      } else {
        NextRound(buckets, kept, round, seenQuestion, selected);
      }
      if !progressed {
        Stalled(buckets, kept, want, round, seenBefore, before);
        break;
      }
      round := round + 1;
    }
  }

  // ---------------------------------------------------------------- what every selection satisfies

  /** Whatever the buckets hold: at most `want` cases, with distinct questions that are not curated ones. */
  lemma {:induction false} SelectionIsDistinct(buckets: seq<seq<Case>>, curated: set<string>, want: nat,
                                               selected: seq<Case>)
    requires IsSelection(buckets, curated, want, selected)
    ensures |selected| <= Min(want, Available(buckets, curated))
    ensures DistinctQuestions(selected)
    ensures Questions(selected) <= AllQuestions(buckets) - curated
  {
    var rounds: nat, k: nat :| k <= |buckets| && StopsAt(buckets, curated, want, rounds, k) &&
                               selected == Picked(curated, Visited(buckets, rounds, k));
    var cases := Visited(buckets, rounds, k);
    PicksAreTheNewQuestions(curated, cases);
    forall q | q in Questions(cases) ensures q in AllQuestions(buckets) {
      VisitedQuestions(buckets, rounds, k, q);
      AboveHolds(buckets, 0, q);
    }
    SubsetSize(Questions(cases) - curated, AllQuestions(buckets) - curated);
  }

  lemma {:induction false} Deeper(buckets: seq<seq<Case>>, curated: set<string>, a: nat, b: nat)
    requires a <= b
    ensures |QuestionsAbove(buckets, a) - curated| <= |QuestionsAbove(buckets, b) - curated|
  {
    AboveGrows(buckets, a, b);
    SubsetSize(QuestionsAbove(buckets, a) - curated, QuestionsAbove(buckets, b) - curated);
  }

  lemma {:induction false} ReachedBetween(buckets: seq<seq<Case>>, rounds: nat, k: nat, q: string)
    ensures Reached(buckets, rounds, 0, q) ==> Reached(buckets, rounds, k, q)
    ensures Reached(buckets, rounds, k, q) ==> Reached(buckets, rounds + 1, 0, q)
  {
    if i, j :| IsAt(buckets, i, j, q) && j < (if i < 0 then rounds + 1 else rounds) {
      assert j < (if i < k then rounds + 1 else rounds);
    }
    if i, j :| IsAt(buckets, i, j, q) && j < (if i < k then rounds + 1 else rounds) {
      assert j < (if i < 0 then rounds + 2 else rounds + 1);
    }
  }

  /** The questions visited part way through a round lie between those of the rounds around it. */
  lemma {:induction false} PartWay(buckets: seq<seq<Case>>, curated: set<string>, rounds: nat, k: nat)
    requires k <= |buckets|
    ensures |QuestionsAbove(buckets, rounds) - curated| <= |Picked(curated, Visited(buckets, rounds, k))|
    ensures |Picked(curated, Visited(buckets, rounds, k))| <= |QuestionsAbove(buckets, rounds + 1) - curated|
  {
    var seen := Questions(Visited(buckets, rounds, k));
    PicksAreTheNewQuestions(curated, Visited(buckets, rounds, k));
    forall q ensures q in QuestionsAbove(buckets, rounds) ==> q in seen
             ensures q in seen ==> q in QuestionsAbove(buckets, rounds + 1)
    {
      VisitedQuestions(buckets, rounds, k, q);
      AboveHolds(buckets, rounds, q);
      AboveHolds(buckets, rounds + 1, q);
      ReachedBetween(buckets, rounds, k, q);
    }
    SubsetSize(QuestionsAbove(buckets, rounds) - curated, seen - curated);
    SubsetSize(seen - curated, QuestionsAbove(buckets, rounds + 1) - curated);
  }

  /**
   The selection is as large as the target and the supply allow exactly when no round goes stale. A stale
   round, one that offers only repeated questions, ends the selection although later rounds have new ones.
   */
  lemma {:induction false} FullUnlessStale(buckets: seq<seq<Case>>, curated: set<string>, want: nat,
                                           selected: seq<Case>)
    requires IsSelection(buckets, curated, want, selected)
    ensures |selected| == Min(want, Available(buckets, curated)) <==> NoStaleRound(buckets, curated, want)
  {
    var rounds: nat, k: nat :| k <= |buckets| && StopsAt(buckets, curated, want, rounds, k) &&
                               selected == Picked(curated, Visited(buckets, rounds, k));
    SelectionIsDistinct(buckets, curated, want, selected);
    PartWay(buckets, curated, rounds, k);
    RoundFinds(buckets, curated, rounds);
    if |selected| == Min(want, Available(buckets, curated)) {
      forall depth: nat | |QuestionsAbove(buckets, depth) - curated| < |selected|
        ensures Offers(buckets, curated, depth)
      {
        if depth >= rounds {
          Deeper(buckets, curated, rounds, depth);
          assert depth == rounds || |selected| <= |QuestionsAbove(buckets, depth) - curated| by {
            if depth > rounds { Deeper(buckets, curated, rounds + 1, depth); }
          }
          RoundAhead(buckets, curated, rounds, k);
        }
      }
    }
  }

  /** A round that found something by bucket `k` offers something. */
  lemma {:induction false} RoundAhead(buckets: seq<seq<Case>>, curated: set<string>, rounds: nat, k: nat)
    requires k <= |buckets|
    ensures |Picked(curated, Visited(buckets, rounds, k))| > |QuestionsAbove(buckets, rounds) - curated| ==>
              Offers(buckets, curated, rounds)
  {
    PartWay(buckets, curated, rounds, k);
    RoundFinds(buckets, curated, rounds);
  }

  lemma {:induction false} OneBucket(bucket: seq<Case>, depth: nat)
    ensures QuestionsAbove([bucket], depth) == Questions(bucket[..Min(depth, |bucket|)])
    ensures AllQuestions([bucket]) == Questions(bucket)
  {
    assert [bucket][..0] == [];
  }

  lemma {:induction false} QuestionsTake(cases: seq<Case>, i: nat)
    requires i < |cases|
    ensures Questions(cases[..i + 1]) == Questions(cases[..i]) + {cases[i].question}
  {
    assert cases[..i + 1] == cases[..i] + [cases[i]];
    QuestionsSnoc(cases[..i], cases[i]);
  }

  lemma {:induction false} StaleBucket(bucket: seq<Case>, q: string)
    requires |bucket| == 3 && bucket[0].question == bucket[1].question == q
    ensures QuestionsAbove([bucket], 1) == QuestionsAbove([bucket], 2) == {q}
    ensures AllQuestions([bucket]) == {q, bucket[2].question}
  {
    QuestionsTake(bucket, 0);
    QuestionsTake(bucket, 1);
    QuestionsTake(bucket, 2);
    assert bucket[..0] == [] && bucket[..3] == bucket;
    OneBucket(bucket, 1);
    OneBucket(bucket, 2);
  }

  /** A repeated question makes a round stale: the one new question behind it is never reached. */
  lemma {:induction false} StaleRoundExample(bucket: seq<Case>, selected: seq<Case>)
    requires |bucket| == 3 && bucket[0].question == bucket[1].question != bucket[2].question
    requires IsSelection([bucket], {}, 2, selected)
    ensures |selected| < 2 == Available([bucket], {})
  {
    var q, r, buckets := bucket[0].question, bucket[2].question, [bucket];
    StaleBucket(bucket, q);
    assert AllQuestions(buckets) - {} == {q, r};
    assert QuestionsAbove(buckets, 1) - {} == {q};
    assert !Offers(buckets, {}, 1);
    assert !NoStaleRound(buckets, {}, 2);
    SelectionIsDistinct(buckets, {}, 2, selected);
    FullUnlessStale(buckets, {}, 2, selected);
  }

  // ---------------------------------------------------------------- distinct questions

  /** A selection of distinct candidates holds exactly the top of every bucket, level to within one case. */
  lemma {:induction false} TopsOfBuckets(buckets: seq<seq<Case>>, curated: set<string>, rounds: nat, k: nat, i: nat,
                                         j: nat)
    requires k <= |buckets| && CandidatesDistinct(buckets, curated)
    requires i < |buckets| && j < |buckets[i]|
    ensures buckets[i][j].question in Questions(Picked(curated, Visited(buckets, rounds, k))) <==>
              j < (if i < k then rounds + 1 else rounds)
  {
    var q := buckets[i][j].question;
    assert IsAt(buckets, i, j, q);
    PicksAreTheNewQuestions(curated, Visited(buckets, rounds, k));
    VisitedQuestions(buckets, rounds, k, q);
  }

  lemma {:induction false} TakenTop(bucket: seq<Case>, selected: seq<Case>, top: nat, n: nat)
    requires n <= |bucket|
    requires forall j :: 0 <= j < |bucket| ==> (bucket[j].question in Questions(selected) <==> j < top)
    ensures Taken(bucket[..n], selected) == Min(n, top)
  {
    if n > 0 {
      TakenTop(bucket, selected, top, n - 1);
      assert bucket[..n][..n - 1] == bucket[..n - 1];
      assert bucket[..n][n - 1] == bucket[n - 1];
    }
  }

  lemma {:induction false} TakenFrom(buckets: seq<seq<Case>>, curated: set<string>, rounds: nat, k: nat, i: nat)
    requires k <= |buckets| && CandidatesDistinct(buckets, curated) && i < |buckets|
    ensures Taken(buckets[i], Picked(curated, Visited(buckets, rounds, k))) ==
            Min(|buckets[i]|, if i < k then rounds + 1 else rounds)
  {
    var bucket, selected := buckets[i], Picked(curated, Visited(buckets, rounds, k));
    var top := if i < k then rounds + 1 else rounds;
    forall j | 0 <= j < |bucket| ensures bucket[j].question in Questions(selected) <==> j < top {
      TopsOfBuckets(buckets, curated, rounds, k, i, j);
    }
    TakenTop(bucket, selected, top, |bucket|);
    assert bucket[..|bucket|] == bucket;
  }

  /** Fairness: while a bucket has cases left, no other bucket is more than one case ahead of it. */
  lemma {:induction false} SelectionIsFair(buckets: seq<seq<Case>>, curated: set<string>, want: nat,
                                           selected: seq<Case>, a: nat, b: nat)
    requires IsSelection(buckets, curated, want, selected) && CandidatesDistinct(buckets, curated)
    requires a < |buckets| && b < |buckets|
    ensures Taken(buckets[a], selected) < |buckets[a]| ==>
              Taken(buckets[b], selected) <= Taken(buckets[a], selected) + 1
  {
    var rounds: nat, k: nat :| k <= |buckets| && StopsAt(buckets, curated, want, rounds, k) &&
                               selected == Picked(curated, Visited(buckets, rounds, k));
    TakenFrom(buckets, curated, rounds, k, a);
    TakenFrom(buckets, curated, rounds, k, b);
  }

  /** Distinct candidates are all available, and none of their rounds goes stale. */
  lemma {:induction false} DistinctSupply(buckets: seq<seq<Case>>, curated: set<string>, want: nat)
    requires CandidatesDistinct(buckets, curated)
    ensures Available(buckets, curated) == Total(buckets)
    ensures NoStaleRound(buckets, curated, want)
  {
    AvailableIsTotal(buckets, curated);
    forall depth: nat | |QuestionsAbove(buckets, depth) - curated| < Available(buckets, curated)
      ensures Offers(buckets, curated, depth)
    {
      DistinctOffers(buckets, curated, depth);
    }
  }

  lemma {:induction false} DistinctOffers(buckets: seq<seq<Case>>, curated: set<string>, depth: nat)
    requires CandidatesDistinct(buckets, curated)
    requires |QuestionsAbove(buckets, depth) - curated| < Available(buckets, curated)
    ensures Offers(buckets, curated, depth)
  {
    AboveGrows(buckets, depth, depth);
    SubsetSize(QuestionsAbove(buckets, depth) - curated, AllQuestions(buckets) - curated);
    var q :| q in AllQuestions(buckets) - curated && q !in QuestionsAbove(buckets, depth);
    AboveHolds(buckets, depth, q);
    var i, j :| IsAt(buckets, i, j, q);
    assert depth <= j;
    var next := buckets[i][depth].question;
    assert IsAt(buckets, i, depth, next);
    AboveHolds(buckets, depth + 1, next);
    AboveHolds(buckets, depth, next);
    assert next in QuestionsAbove(buckets, depth + 1) && next !in QuestionsAbove(buckets, depth) + curated;
  }

  lemma {:induction false} DistinctParts(buckets: seq<seq<Case>>, curated: set<string>, n: nat)
    requires CandidatesDistinct(buckets, curated) && |buckets| == n + 1
    ensures CandidatesDistinct(buckets[..n], curated) && DistinctQuestions(buckets[n])
    ensures AllQuestions(buckets[..n]) !! Questions(buckets[n])
    ensures Questions(buckets[n]) !! curated
  {
    assert forall i, j, q :: IsAt(buckets[..n], i, j, q) ==> IsAt(buckets, i, j, q);
    assert forall j, q :: IsAt([buckets[n]], 0, j, q) ==> IsAt(buckets, n, j, q);
    forall i, j | 0 <= i < j < |buckets[n]| ensures buckets[n][i].question != buckets[n][j].question {
      assert IsAt(buckets, n, i, buckets[n][i].question) && IsAt(buckets, n, j, buckets[n][j].question);
    }
    forall q | q in Questions(buckets[n]) ensures q !in AllQuestions(buckets[..n]) && q !in curated {
      QuestionsHold(buckets[n], q);
      AboveHolds(buckets[..n], 0, q);
    }
  }

  lemma {:induction false} AvailableIsTotal(buckets: seq<seq<Case>>, curated: set<string>)
    requires CandidatesDistinct(buckets, curated)
    ensures |AllQuestions(buckets) - curated| == Total(buckets)
  {
    if buckets != [] {
      var n := |buckets| - 1;
      DistinctParts(buckets, curated, n);
      AvailableIsTotal(buckets[..n], curated);
      BucketSize(buckets[n]);
      assert AllQuestions(buckets) - curated == (AllQuestions(buckets[..n]) - curated) + Questions(buckets[n]);
    }
  }

  lemma {:induction false} BucketSize(bucket: seq<Case>)
    requires DistinctQuestions(bucket)
    ensures |Questions(bucket)| == |bucket|
  {
    if bucket != [] {
      var rest, last := bucket[..|bucket| - 1], bucket[|bucket| - 1];
      BucketSize(rest);
      QuestionsHold(rest, last.question);
    }
  }

  /** With distinct candidates the selection has exactly min(want, number of candidates) cases. */
  lemma {:induction false} SelectionIsFull(buckets: seq<seq<Case>>, curated: set<string>, want: nat,
                                           selected: seq<Case>)
    requires IsSelection(buckets, curated, want, selected) && CandidatesDistinct(buckets, curated)
    ensures |selected| == Min(want, Total(buckets))
  {
    DistinctSupply(buckets, curated, want);
    FullUnlessStale(buckets, curated, want, selected);
  }

}
