/** Lists made by gathering what each element yields. */
module Lists {

  function FlatMap<A, B>(f: A -> seq<B>, xs: seq<A>): seq<B> {
    if xs == [] then [] else f(xs[0]) + FlatMap(f, xs[1..])
  }

  lemma {:induction false} Regroup<T>(a: seq<T>, b: seq<T>, c: seq<T>)
    ensures (a + b) + c == a + (b + c)
  {
  }

  lemma {:induction false} FlatMapConcat<A, B>(f: A -> seq<B>, a: seq<A>, b: seq<A>)
    ensures FlatMap(f, a + b) == FlatMap(f, a) + FlatMap(f, b)
    decreases |a|
  {
    if a == [] {
      assert a + b == b;
    } else {
      assert (a + b)[1..] == a[1..] + b;
      FlatMapConcat(f, a[1..], b);
      Regroup(f(a[0]), FlatMap(f, a[1..]), FlatMap(f, b));
    }
  }

  lemma {:induction false} FlatMapSnoc<A, B>(f: A -> seq<B>, xs: seq<A>, x: A)
    ensures FlatMap(f, xs + [x]) == FlatMap(f, xs) + f(x)
  {
    FlatMapConcat(f, xs, [x]);
    assert FlatMap(f, [x]) == f(x) + FlatMap(f, []);
  }

  lemma {:induction false} FlatMapOne<A, B>(f: A -> seq<B>, x: A)
    ensures FlatMap(f, [x]) == f(x)
  {
    FlatMapSnoc(f, [], x);
    assert [] + [x] == [x];
  }

  /** Taking one element more gathers what that element yields. */
  lemma {:induction false} FlatMapTake<A, B>(f: A -> seq<B>, xs: seq<A>, i: nat)
    requires i < |xs|
    ensures FlatMap(f, xs[..i + 1]) == FlatMap(f, xs[..i]) + f(xs[i])
  {
    assert xs[..i + 1] == xs[..i] + [xs[i]];
    FlatMapSnoc(f, xs[..i], xs[i]);
  }

  lemma {:induction false} FlatMapOrigin<A, B>(f: A -> seq<B>, xs: seq<A>, m: B) returns (k: nat)
    requires m in FlatMap(f, xs)
    ensures k < |xs| && m in f(xs[k])
    decreases |xs|
  {
    if m in f(xs[0]) {
      k := 0;
    } else {
      var i := FlatMapOrigin(f, xs[1..], m);
      k := i + 1;
    }
  }

  lemma {:induction false} FlatMapHolds<A, B>(f: A -> seq<B>, xs: seq<A>, k: nat, m: B)
    requires k < |xs| && m in f(xs[k])
    ensures m in FlatMap(f, xs)
    decreases |xs|
  {
    if k > 0 { FlatMapHolds(f, xs[1..], k - 1, m); }
  }

}
