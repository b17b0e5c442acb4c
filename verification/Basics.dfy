/** Optional values, the ends of lists, and sizes of subsets and submaps. */
module Basics {

  datatype Option<+T> = None | Some(value: T)

  /** A non-empty list without its last element. */
  function Front<X>(s: seq<X>): seq<X>
    requires s != []
  {
    s[..|s| - 1]
  }

  function Last<X>(s: seq<X>): X
    requires s != []
  {
    s[|s| - 1]
  }

  lemma {:induction false} SubsetSize<T>(a: set<T>, b: set<T>)
    requires a <= b
    ensures |a| <= |b| && (|a| == |b| <==> b <= a)
  {
    assert b == a + (b - a);
  }

  lemma {:induction false} SubmapSize<K, V>(a: map<K, V>, b: map<K, V>)
    requires a.Keys <= b.Keys
    ensures |a| <= |b|
  {
    SubsetSize(a.Keys, b.Keys);
  }
}
