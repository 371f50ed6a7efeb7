/** Draining the `std::priority_queue<std::pair<float, labeltype>>` that
    `searchKnn` returns. The queue is a max-heap under the pair's `<`
    (distance first, label second); its internal layout is not visible, so
    it is modelled by its contents in some order. Draining repeatedly takes
    the top element. search_index.cpp and search.cpp print in that pop
    order; test2.cpp reverses it first. */
module Ranking {

  /** One `std::pair<float, labeltype>` of the result queue. The distance is
      a real, so every two distances compare: a NaN distance is not
      modelled. */
  datatype Hit = Hit(distance: real, id: nat)

  /** `std::pair<float, labeltype>::operator<`. */
  predicate Below(a: Hit, b: Hit) {
    a.distance < b.distance || (a.distance == b.distance && a.id < b.id)
  }

  /** Each element is at least as large as every later one. */
  predicate NonIncreasing(s: seq<Hit>) {
    forall i, j :: 0 <= i < j < |s| ==> !Below(s[i], s[j])
  }

  /** Each element is at most as large as every later one. */
  predicate NonDecreasing(s: seq<Hit>) {
    forall i, j :: 0 <= i < j < |s| ==> !Below(s[j], s[i])
  }

  /** `top()`: the position of an element nothing in the queue is above. */
  function TopIndex(q: seq<Hit>): (i: nat)
    requires |q| > 0
    ensures i < |q|
    ensures forall j :: 0 <= j < |q| ==> !Below(q[i], q[j])
  {
    if |q| == 1 then 0
    else
      var j := TopIndex(q[1..]) + 1;
      assert forall k :: 1 <= k < |q| ==> q[k] == q[1..][k - 1];
      if Below(q[0], q[j]) then j else 0
  }

  /** The queue after `pop()` removed the element at position `i`. */
  function Without(q: seq<Hit>, i: nat): (r: seq<Hit>)
    requires i < |q|
    ensures |r| == |q| - 1
    ensures multiset(r) == multiset(q) - multiset{q[i]}
  {
    assert q == q[..i] + [q[i]] + q[i + 1..];
    q[..i] + q[i + 1..]
  }

  /** `while (!result.empty()) { out.push_back(result.top()); result.pop(); }`:
      every element comes out exactly once, largest first. */
  function PopOrder(q: seq<Hit>): (out: seq<Hit>)
    ensures multiset(out) == multiset(q)
    ensures NonIncreasing(out)
    decreases |q|
  {
    if q == [] then []
    else
      var i := TopIndex(q);
      var rest := PopOrder(Without(q, i));
      TopLeadsRest(q, i, rest);
      [q[i]] + rest
  }

  /** The top element followed by the drained rest is still non-increasing
      and holds the whole queue. */
  lemma TopLeadsRest(q: seq<Hit>, i: nat, rest: seq<Hit>)
    requires i < |q| && forall j :: 0 <= j < |q| ==> !Below(q[i], q[j])
    requires multiset(rest) == multiset(Without(q, i))
    requires NonIncreasing(rest)
    ensures NonIncreasing([q[i]] + rest)
    ensures multiset([q[i]] + rest) == multiset(q)
  {
    forall j | 0 <= j < |rest| ensures !Below(q[i], rest[j]) {
      assert rest[j] in multiset(Without(q, i));
      assert rest[j] in q;
    }
    var s := [q[i]] + rest;
    forall a, b | 0 <= a < b < |s| ensures !Below(s[a], s[b]) {
      if a > 0 { assert s[a] == rest[a - 1] && s[b] == rest[b - 1]; }
    }
  }

  /** Two non-increasing arrangements of the same elements are the same
      sequence: the pair order leaves no ties between distinct hits. */
  lemma {:induction false} SortedUnique(a: seq<Hit>, b: seq<Hit>)
    requires multiset(a) == multiset(b)
    requires NonIncreasing(a) && NonIncreasing(b)
    ensures a == b
    decreases |a|
  {
    assert |a| == |multiset(a)| == |b|;
    if a != [] {
      LargestFirst(a, b);
      LargestFirst(b, a);
      assert a[0] == b[0];
      SortedTail(a);
      SortedTail(b);
      SortedUnique(a[1..], b[1..]);
      assert a == [a[0]] + a[1..] && b == [b[0]] + b[1..];
    }
  }

  /** Dropping the head keeps a sequence non-increasing and removes one
      copy of the head from its elements. */
  lemma SortedTail(a: seq<Hit>)
    requires a != [] && NonIncreasing(a)
    ensures NonIncreasing(a[1..])
    ensures multiset(a[1..]) == multiset(a) - multiset{a[0]}
  {
    assert a == [a[0]] + a[1..];
    assert multiset(a) == multiset{a[0]} + multiset(a[1..]);
  }

  /** The head of a non-increasing sequence is not below anything in a
      sequence with the same elements. */
  lemma LargestFirst(a: seq<Hit>, b: seq<Hit>)
    requires a != [] && multiset(a) == multiset(b)
    requires NonIncreasing(a)
    ensures b != [] && !Below(a[0], b[0])
  {
    assert a[0] in multiset(b);
    assert b[0] in multiset(a);
    var k :| 0 <= k < |a| && a[k] == b[0];
    if k > 0 { assert !Below(a[0], a[k]); }
  }

  /** Pop order does not depend on how the heap lays out its contents: it is
      the only non-increasing arrangement of them. */
  lemma PopOrderUnique(q: seq<Hit>, s: seq<Hit>)
    requires multiset(s) == multiset(q)
    requires NonIncreasing(s)
    ensures s == PopOrder(q)
  {
    SortedUnique(s, PopOrder(q));
  }

  function Reverse<T>(s: seq<T>): (r: seq<T>)
    ensures |r| == |s|
    ensures forall i :: 0 <= i < |s| ==> r[i] == s[|s| - 1 - i]
  {
    if s == [] then [] else Reverse(s[1..]) + [s[0]]
  }

  /** How a program emits the drained results. */
  datatype Emission = AsPopped | Reversed

  /** The results in the order a program prints them. */
  function Emitted(how: Emission, q: seq<Hit>): seq<Hit> {
    match how
    case AsPopped => PopOrder(q)
    case Reversed => Reverse(PopOrder(q))
  }

  function Labels(hits: seq<Hit>): (ls: seq<nat>)
    ensures |ls| == |hits|
    ensures forall i :: 0 <= i < |hits| ==> ls[i] == hits[i].id
  {
    seq(|hits|, i requires 0 <= i < |hits| => hits[i].id)
  }

  /** Printed without reversal (search_index.cpp, search.cpp), results run
      from largest (distance, label) to smallest; reversed (test2.cpp), from
      smallest to largest; both print every result exactly once, and the two
      orders are exact mirror images. */
  lemma EmissionOrders(q: seq<Hit>)
    ensures NonIncreasing(Emitted(AsPopped, q))
    ensures NonDecreasing(Emitted(Reversed, q))
    ensures multiset(Emitted(AsPopped, q)) == multiset(q)
    ensures multiset(Emitted(Reversed, q)) == multiset(q)
    ensures Emitted(Reversed, q) == Reverse(Emitted(AsPopped, q))
  {
    var p := PopOrder(q);
    ReverseMultiset(p);
  }

  lemma {:induction false} ReverseMultiset<T>(s: seq<T>)
    ensures multiset(Reverse(s)) == multiset(s)
  {
    if s != [] {
      ReverseMultiset(s[1..]);
      assert s == [s[0]] + s[1..];
    }
  }

  lemma {:induction false} ReverseReverse<T>(s: seq<T>)
    ensures Reverse(Reverse(s)) == s
  {
    assert forall i :: 0 <= i < |s| ==> Reverse(Reverse(s))[i] == s[i];
  }

  /** Reversal turns an ascending run into a descending one. */
  lemma ReverseDescends(s: seq<Hit>)
    requires NonDecreasing(s)
    ensures NonIncreasing(Reverse(s))
  {
    var r := Reverse(s);
    forall i, j | 0 <= i < j < |r| ensures !Below(r[i], r[j]) {
      assert r[i] == s[|s| - 1 - i] && r[j] == s[|s| - 1 - j];
    }
  }

  /** The reversed pop order is the only ascending arrangement of the
      queue: whatever order the heap keeps internally, test2.cpp prints the
      same sequence. */
  lemma AscendingUnique(q: seq<Hit>, s: seq<Hit>)
    requires multiset(s) == multiset(q)
    requires NonDecreasing(s)
    ensures s == Reverse(PopOrder(q))
  {
    ReverseDescends(s);
    ReverseMultiset(s);
    PopOrderUnique(q, Reverse(s));
    ReverseReverse(s);
  }

  /** The labels of reversed results are the reversed labels. */
  lemma LabelsReverse(s: seq<Hit>)
    ensures Labels(Reverse(s)) == Reverse(Labels(s))
  {
    assert forall i :: 0 <= i < |s| ==> Labels(Reverse(s))[i] == Reverse(Labels(s))[i];
  }
}
