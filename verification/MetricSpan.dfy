/**
 The shortest stretch of question tokens that mentions enough different label tokens: a sliding window over
 the sorted mentions (internal/catalog/metrics.go, minimumMetricTokenSpan).
 */
module MetricSpan {
  import opened Basics

  datatype Event = Event(position: int, tag: nat)

  predicate EventLe(a: Event, b: Event) {
    a.position < b.position || (a.position == b.position && a.tag <= b.tag)
  }

  predicate Sorted(es: seq<Event>) {
    forall i, j :: 0 <= i < j < |es| ==> es[i].position <= es[j].position
  }

  // ---------------------------------------------------------------- what is being minimised

  /** The labels mentioned at some position of the interval. */
  function Mentioned(positions: seq<seq<int>>, lo: int, hi: int): set<nat> {
    set tag, k | 0 <= tag < |positions| && 0 <= k < |positions[tag]| && lo <= positions[tag][k] <= hi :: tag
  }

  predicate Covers(positions: seq<seq<int>>, needed: nat, lo: int, hi: int) {
    |Mentioned(positions, lo, hi)| >= needed
  }

  /** `span` is the least length of an interval that mentions `needed` labels, or 0 when there is none. */
  ghost predicate IsMinimumSpan(positions: seq<seq<int>>, needed: nat, span: int) {
    && (span == 0 <==> forall lo, hi :: !Covers(positions, needed, lo, hi))
    && (span != 0 ==> exists lo, hi :: Covers(positions, needed, lo, hi) && hi - lo + 1 == span)
    && (span != 0 ==> forall lo, hi :: Covers(positions, needed, lo, hi) ==> span <= hi - lo + 1)
  }

  // ---------------------------------------------------------------- events and their order

  ghost predicate Lists(positions: seq<seq<int>>, es: seq<Event>) {
    forall p, l: nat :: Event(p, l) in es <==> l < |positions| && p in positions[l]
  }

  method CollectEvents(positions: seq<seq<int>>) returns (es: seq<Event>)
    ensures Lists(positions, es)
  {
    es := [];
    for tag := 0 to |positions|
      invariant Lists(positions[..tag], es)
    {
      ghost var before := es;
      for k := 0 to |positions[tag]|
        invariant forall p, l: nat :: Event(p, l) in es <==>
                    Event(p, l) in before || (l == tag && p in positions[tag][..k])
      {
        es := es + [Event(positions[tag][k], tag)];
      }
      assert positions[tag][..|positions[tag]|] == positions[tag];
    }
    assert positions[..|positions|] == positions;
  }

  predicate InOrder(es: seq<Event>) {
    forall i, j :: 0 <= i < j < |es| ==> EventLe(es[i], es[j])
  }

  function Insert(e: Event, es: seq<Event>): seq<Event> {
    if es == [] then [e]
    else if EventLe(e, es[0]) then [e] + es
    else [es[0]] + Insert(e, es[1..])
  }

  lemma {:induction false} InsertedFrom(e: Event, es: seq<Event>, x: Event)
    requires x in Insert(e, es)
    ensures x == e || x in es
  {
    if es != [] && !EventLe(e, es[0]) && x in Insert(e, es[1..]) {
      InsertedFrom(e, es[1..], x);
    }
  }

  lemma {:induction false} FirstInOrder(e: Event, es: seq<Event>)
    requires InOrder(es) && forall k :: 0 <= k < |es| ==> EventLe(e, es[k])
    ensures InOrder([e] + es)
  {
    hide EventLe;
  }

  lemma {:induction false} InsertKeeps(e: Event, es: seq<Event>)
    requires InOrder(es)
    ensures InOrder(Insert(e, es)) && multiset(Insert(e, es)) == multiset{e} + multiset(es)
  {
    if es != [] {
      assert es == [es[0]] + es[1..];
      if EventLe(e, es[0]) {
        FirstInOrder(e, es);
      } else {
        var rest := Insert(e, es[1..]);
        InsertKeeps(e, es[1..]);
        forall k | 0 <= k < |rest| ensures EventLe(es[0], rest[k]) {
          InsertedFrom(e, es[1..], rest[k]);
        }
        FirstInOrder(es[0], rest);
      }
    }
  }

  /** The library sort, by position and then label. */
  function SortEvents(es: seq<Event>): seq<Event> {
    if es == [] then [] else Insert(es[0], SortEvents(es[1..]))
  }

  lemma {:induction false} SortSorts(es: seq<Event>)
    ensures InOrder(SortEvents(es)) && multiset(SortEvents(es)) == multiset(es)
  {
    if es != [] {
      assert es == [es[0]] + es[1..];
      SortSorts(es[1..]);
      InsertKeeps(es[0], SortEvents(es[1..]));
    }
  }

  // ---------------------------------------------------------------- windows of the sorted events

  function LabelsOf(es: seq<Event>, l: nat, r: nat): set<nat>
    requires l <= r <= |es|
  {
    set k | l <= k < r :: es[k].tag
  }

  function CountOf(es: seq<Event>, l: nat, r: nat, tag: nat): nat
    requires l <= r <= |es|
  {
    if l == r then 0 else CountOf(es, l, r - 1, tag) + if es[r - 1].tag == tag then 1 else 0
  }

  lemma {:induction false} CountPositive(es: seq<Event>, l: nat, r: nat, tag: nat)
    requires l <= r <= |es|
    ensures CountOf(es, l, r, tag) > 0 <==> tag in LabelsOf(es, l, r)
  {
    if l < r {
      CountPositive(es, l, r - 1, tag);
      assert LabelsOf(es, l, r) == LabelsOf(es, l, r - 1) + {es[r - 1].tag};
    }
  }

  lemma {:induction false} CountDropFirst(es: seq<Event>, l: nat, r: nat, tag: nat)
    requires l < r <= |es|
    ensures CountOf(es, l, r, tag) == CountOf(es, l + 1, r, tag) + if es[l].tag == tag then 1 else 0
  {
    if l + 1 < r { CountDropFirst(es, l, r - 1, tag); }
  }

  /** The window of events l..r inclusive mentions enough labels. */
  predicate Enough(es: seq<Event>, needed: nat, l: nat, r: nat)
    requires l <= r < |es|
  {
    |LabelsOf(es, l, r + 1)| >= needed
  }

  function Span(es: seq<Event>, l: nat, r: nat): int
    requires l <= r < |es|
  {
    es[r].position - es[l].position + 1
  }

  /** Enough events in a window are enough mentions in the interval it spans. */
  lemma {:induction false} WindowCovers(positions: seq<seq<int>>, needed: nat, es: seq<Event>, l: nat, r: nat)
    requires Lists(positions, es) && Sorted(es) && l <= r < |es| && Enough(es, needed, l, r)
    ensures Covers(positions, needed, es[l].position, es[r].position)
  {
    forall tag | tag in LabelsOf(es, l, r + 1)
      ensures tag in Mentioned(positions, es[l].position, es[r].position)
    {
      var k :| l <= k < r + 1 && es[k].tag == tag;
      assert es[k] in es && es[k] == Event(es[k].position, tag);
      var i :| 0 <= i < |positions[tag]| && positions[tag][i] == es[k].position;
    }
    SubsetSize(LabelsOf(es, l, r + 1), Mentioned(positions, es[l].position, es[r].position));
  }

  /** Conversely, an interval that mentions enough labels holds a window of events that does. */
  lemma {:induction false} CoverHasWindow(positions: seq<seq<int>>, needed: nat, es: seq<Event>, lo: int, hi: int)
    returns (l: nat, r: nat)
    requires Lists(positions, es) && Sorted(es) && needed >= 1 && Covers(positions, needed, lo, hi)
    ensures l <= r < |es| && Enough(es, needed, l, r) && Span(es, l, r) <= hi - lo + 1
  {
    l := EventsBefore(es, lo, 0);
    var n := EventsUpTo(es, hi, |es|);
    MentionedInWindow(positions, es, lo, hi, l, n);
    var some :| some in Mentioned(positions, lo, hi);
    r := n - 1;
  }

  lemma {:induction false} EventsBefore(es: seq<Event>, lo: int, from: nat) returns (l: nat)
    requires from <= |es| && forall k :: 0 <= k < from ==> es[k].position < lo
    ensures l <= |es| && (forall k :: 0 <= k < l ==> es[k].position < lo) && (l < |es| ==> lo <= es[l].position)
    decreases |es| - from
  {
    if from < |es| && es[from].position < lo {
      l := EventsBefore(es, lo, from + 1);
    } else {
      l := from;
    }
  }

  lemma {:induction false} EventsUpTo(es: seq<Event>, hi: int, upto: nat) returns (n: nat)
    requires upto <= |es| && forall k :: upto <= k < |es| ==> es[k].position > hi
    ensures n <= |es| && (forall k :: n <= k < |es| ==> es[k].position > hi) && (n > 0 ==> es[n - 1].position <= hi)
    decreases upto
  {
    if upto > 0 && es[upto - 1].position > hi {
      n := EventsUpTo(es, hi, upto - 1);
    } else {
      n := upto;
    }
  }

  lemma {:induction false} MentionedInWindow(positions: seq<seq<int>>, es: seq<Event>, lo: int, hi: int, l: nat, n: nat)
    requires Lists(positions, es) && n <= |es|
    requires forall k :: 0 <= k < |es| && (k < l || k >= n) ==> !(lo <= es[k].position <= hi)
    ensures l <= n ==> Mentioned(positions, lo, hi) <= LabelsOf(es, l, n)
    ensures l <= n ==> |Mentioned(positions, lo, hi)| <= |LabelsOf(es, l, n)|
    ensures l > n ==> Mentioned(positions, lo, hi) == {}
  {
    forall tag | tag in Mentioned(positions, lo, hi) ensures exists k :: l <= k < n && es[k].tag == tag {
      var i :| 0 <= i < |positions[tag]| && lo <= positions[tag][i] <= hi;
      assert Event(positions[tag][i], tag) in es;
      var k :| 0 <= k < |es| && es[k] == Event(positions[tag][i], tag);
    }
    if l <= n { SubsetSize(Mentioned(positions, lo, hi), LabelsOf(es, l, n)); }
  }

  // ---------------------------------------------------------------- the sliding window

  ghost predicate CountsWindow(es: seq<Event>, l: nat, r: nat, counts: map<nat, nat>, distinct: nat)
    requires l <= r <= |es|
  {
    && (forall tag: nat :: CountOf(es, l, r, tag) == if tag in counts then counts[tag] else 0)
    && distinct == |LabelsOf(es, l, r)|
  }

  /** `best` is the least span among the windows that end before event `n`. */
  ghost predicate BestBefore(es: seq<Event>, needed: nat, n: nat, best: int)
    requires n <= |es|
  {
    && (best != 0 ==> exists l, r :: 0 <= l <= r < n && Enough(es, needed, l, r) && best == Span(es, l, r))
    && (forall l, r :: 0 <= l <= r < n && Enough(es, needed, l, r) ==> best != 0 && best <= Span(es, l, r))
  }

  method Arrive(ghost es: seq<Event>, ghost l: nat, ghost r: nat, tag: nat, counts: map<nat, nat>, distinct: nat)
    returns (counts': map<nat, nat>, distinct': nat)
    requires l <= r < |es| && es[r].tag == tag && CountsWindow(es, l, r, counts, distinct)
    ensures CountsWindow(es, l, r + 1, counts', distinct')
  {
    var have := if tag in counts then counts[tag] else 0;
    distinct' := if have == 0 then distinct + 1 else distinct;
    counts' := counts[tag := have + 1];
    CountPositive(es, l, r, tag);
    assert LabelsOf(es, l, r + 1) == LabelsOf(es, l, r) + {tag};
  }

  method Depart(ghost es: seq<Event>, ghost l: nat, ghost r: nat, tag: nat, counts: map<nat, nat>, distinct: nat)
    returns (counts': map<nat, nat>, distinct': nat)
    requires l < r <= |es| && es[l].tag == tag && CountsWindow(es, l, r, counts, distinct)
    ensures CountsWindow(es, l + 1, r, counts', distinct')
  {
    forall x: nat ensures CountOf(es, l, r, x) == CountOf(es, l + 1, r, x) + if es[l].tag == x then 1 else 0 {
      CountDropFirst(es, l, r, x);
    }
    CountPositive(es, l + 1, r, tag);
    counts' := counts[tag := counts[tag] - 1];
    assert LabelsOf(es, l, r) == LabelsOf(es, l + 1, r) + {tag};
    distinct' := if counts'[tag] == 0 then distinct - 1 else distinct;
  }

  /** Every window that starts before `left` and reaches event `r` is at least as long as `best`. */
  predicate PassedBy(es: seq<Event>, left: nat, r: nat, best: int)
    requires r < |es|
  {
    && (left > 0 ==> best != 0)
    && forall l :: 0 <= l < left && l <= r ==> best <= es[r].position - es[l].position + 1
  }

  /** Once the window from `left` is too poor, every rich window that ends here starts before it. */
  lemma {:induction false} RichWindowsPassed(es: seq<Event>, needed: nat, left: nat, right: nat, best: int)
    requires left <= right + 1 <= |es| && |LabelsOf(es, left, right + 1)| < needed && PassedBy(es, left, right, best)
    ensures forall l :: 0 <= l <= right && Enough(es, needed, l, right) ==> best != 0 && best <= Span(es, l, right)
  {
    forall l | 0 <= l <= right && Enough(es, needed, l, right) ensures l < left {
      if l >= left { SubsetSize(LabelsOf(es, l, right + 1), LabelsOf(es, left, right + 1)); }
    }
  }

  /** The inner loop: while the window has enough labels, record its span and drop its first event. */
  method Shrink(es: seq<Event>, needed: nat, right: nat, left0: nat, counts0: map<nat, nat>, distinct0: nat, best0: int)
    returns (left: nat, counts: map<nat, nat>, distinct: nat, best: int)
    requires Sorted(es) && needed > 0 && left0 <= right < |es|
    requires CountsWindow(es, left0, right + 1, counts0, distinct0)
    requires BestBefore(es, needed, right, best0) && PassedBy(es, left0, right, best0)
    ensures left <= right + 1 && CountsWindow(es, left, right + 1, counts, distinct) && distinct < needed
    ensures BestBefore(es, needed, right + 1, best) && PassedBy(es, left, right, best)
  {
    left, counts, distinct, best := left0, counts0, distinct0, best0;
    while distinct >= needed
      invariant left0 <= left <= right + 1
      invariant CountsWindow(es, left, right + 1, counts, distinct)
      invariant best0 != 0 ==> 0 != best <= best0
      invariant best == best0 ||
                exists l :: 0 <= l <= right && Enough(es, needed, l, right) && best == Span(es, l, right)
      invariant PassedBy(es, left, right, best)
      decreases right + 1 - left
    {
      assert LabelsOf(es, right + 1, right + 1) == {};
      assert Enough(es, needed, left, right);
      var span := es[right].position - es[left].position + 1;
      if best == 0 || span < best {
        best := span;
        assert best == Span(es, left, right);
      }
      counts, distinct := Depart(es, left, right + 1, es[left].tag, counts, distinct);
      left := left + 1;
    }
    RichWindowsPassed(es, needed, left, right, best);
    BestExtends(es, needed, right, best0, best);
  }

  lemma {:induction false} BestExtends(es: seq<Event>, needed: nat, right: nat, best0: int, best: int)
    requires right < |es| && BestBefore(es, needed, right, best0)
    requires best0 != 0 ==> 0 != best <= best0
    requires best == best0 || exists l :: 0 <= l <= right && Enough(es, needed, l, right) && best == Span(es, l, right)
    requires forall l :: 0 <= l <= right && Enough(es, needed, l, right) ==> best != 0 && best <= Span(es, l, right)
    ensures BestBefore(es, needed, right + 1, best)
  {
  }

  lemma {:induction false} PassedByLater(es: seq<Event>, left: nat, right: nat, best: int)
    requires Sorted(es) && right + 1 < |es| && left <= right + 1 && PassedBy(es, left, right, best)
    ensures PassedBy(es, left, right + 1, best)
  {
    assert es[right].position <= es[right + 1].position;
  }

  /** The window before event `right` is too poor, and `best` is right for everything before it. */
  ghost predicate Sliding(es: seq<Event>, needed: nat, left: nat, right: nat,
                          counts: map<nat, nat>, distinct: nat, best: int) {
    && left <= right <= |es|
    && CountsWindow(es, left, right, counts, distinct) && distinct < needed
    && BestBefore(es, needed, right, best)
    && (right < |es| ==> PassedBy(es, left, right, best))
  }

  method SlideStep(es: seq<Event>, needed: nat, right: nat, left0: nat, counts0: map<nat, nat>, distinct0: nat,
                   best0: int)
    returns (left: nat, counts: map<nat, nat>, distinct: nat, best: int)
    requires Sorted(es) && needed > 0 && right < |es| && Sliding(es, needed, left0, right, counts0, distinct0, best0)
    ensures Sliding(es, needed, left, right + 1, counts, distinct, best)
  {
    counts, distinct := Arrive(es, left0, right, es[right].tag, counts0, distinct0);
    left, counts, distinct, best := Shrink(es, needed, right, left0, counts, distinct, best0);
    if right + 1 < |es| { PassedByLater(es, left, right, best); }
  }

  /** minimumMetricTokenSpan. */
  method MinimumMetricTokenSpan(positions: seq<seq<int>>, needed: nat) returns (best: int)
    ensures needed == 0 ==> best == 0
    ensures needed > 0 ==> IsMinimumSpan(positions, needed, best)
  {
    var unsorted := CollectEvents(positions);
    if |unsorted| == 0 || needed == 0 {
      if needed > 0 { NoEvents(positions, needed); }
      return 0;
    }
    var events := SortEvents(unsorted);
    SortSorts(unsorted);
    SameListing(positions, unsorted, events);
    best := Slide(positions, needed, events);
  }

  method Slide(ghost positions: seq<seq<int>>, needed: nat, events: seq<Event>) returns (best: int)
    requires needed > 0 && Lists(positions, events) && Sorted(events)
    ensures IsMinimumSpan(positions, needed, best)
  {
    var counts: map<nat, nat> := map[];
    var distinct: nat := 0;
    var left: nat := 0;
    best := 0;
    NothingSeen(events, needed);
    for right := 0 to |events|
      invariant Sliding(events, needed, left, right, counts, distinct, best)
    {
      left, counts, distinct, best := SlideStep(events, needed, right, left, counts, distinct, best);
    }
    BestIsMinimum(positions, needed, events, best);
  }

  lemma {:induction false} NothingSeen(es: seq<Event>, needed: nat)
    requires needed > 0
    ensures Sliding(es, needed, 0, 0, map[], 0, 0)
  {
    assert LabelsOf(es, 0, 0) == {};
  }

  lemma {:induction false} SameListing(positions: seq<seq<int>>, a: seq<Event>, b: seq<Event>)
    requires Lists(positions, a) && multiset(a) == multiset(b)
    ensures Lists(positions, b)
  {
    assert forall e :: e in b <==> e in multiset(b);
    assert forall e :: e in a <==> e in multiset(a);
  }

  lemma {:induction false} NoEvents(positions: seq<seq<int>>, needed: nat)
    requires Lists(positions, []) && needed > 0
    ensures IsMinimumSpan(positions, needed, 0)
  {
    forall lo, hi ensures Mentioned(positions, lo, hi) == {} {
      MentionedInWindow(positions, [], lo, hi, 1, 0);
    }
  }

  lemma {:induction false} BestIsMinimum(positions: seq<seq<int>>, needed: nat, es: seq<Event>, best: int)
    requires Lists(positions, es) && Sorted(es) && needed >= 1 && BestBefore(es, needed, |es|, best)
    ensures IsMinimumSpan(positions, needed, best)
  {
    forall lo, hi | Covers(positions, needed, lo, hi) ensures best != 0 && best <= hi - lo + 1 {
      var l, r := CoverHasWindow(positions, needed, es, lo, hi);
    }
    if best != 0 {
      var l, r :| 0 <= l <= r < |es| && Enough(es, needed, l, r) && best == Span(es, l, r);
      WindowCovers(positions, needed, es, l, r);
    }
  }
}
