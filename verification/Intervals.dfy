/**
 Half-open intervals in lists. The three validators of the repository (scenario
 steps, anomaly schedules, register addresses) decide overlap in two different
 ways: by sorting and comparing neighbours, or by comparing every pair. The
 lemmas here show that both decide the same thing.
 */
module Intervals {
  import opened Prelude

  /** How to read an interval [lo, hi) off an element. */
  datatype Span<!T> = Span(lo: T -> int, hi: T -> int) {
    ghost predicate Proper(xs: seq<T>) {
      forall i :: 0 <= i < |xs| ==> lo(xs[i]) < hi(xs[i])
    }

    predicate Disjoint(a: T, b: T) {
      hi(a) <= lo(b) || hi(b) <= lo(a)
    }
  }

  ghost predicate PairwiseDisjoint<T>(xs: seq<T>, span: Span<T>) {
    forall i, j :: 0 <= i < j < |xs| ==> span.Disjoint(xs[i], xs[j])
  }

  ghost predicate NeighboursDisjoint<T>(sorted: seq<T>, span: Span<T>) {
    forall i :: 0 <= i < |sorted| - 1 ==> span.hi(sorted[i]) <= span.lo(sorted[i + 1])
  }

  /** In a sorted list of proper intervals, disjoint neighbours push everything apart. */
  lemma {:induction false} NeighboursSeparateAll<T>(sorted: seq<T>, span: Span<T>, i: nat, j: nat)
    requires span.Proper(sorted) && NeighboursDisjoint(sorted, span)
    requires i < j < |sorted|
    ensures span.hi(sorted[i]) <= span.lo(sorted[j])
    decreases j
  {
    if i + 1 < j {
      NeighboursSeparateAll(sorted, span, i, j - 1);
      assert span.hi(sorted[j - 1]) <= span.lo(sorted[j - 1 + 1]);
    }
  }

  lemma {:induction false} SortedNeighboursDecide<T>(sorted: seq<T>, span: Span<T>)
    requires span.Proper(sorted) && Ordered(sorted, span.lo)
    ensures NeighboursDisjoint(sorted, span) <==> PairwiseDisjoint(sorted, span)
  {
    if NeighboursDisjoint(sorted, span) {
      forall i, j | 0 <= i < j < |sorted|
        ensures span.Disjoint(sorted[i], sorted[j])
      {
        NeighboursSeparateAll(sorted, span, i, j);
      }
    }
    if PairwiseDisjoint(sorted, span) {
      forall i | 0 <= i < |sorted| - 1
        ensures span.hi(sorted[i]) <= span.lo(sorted[i + 1])
      {
        assert span.Disjoint(sorted[i], sorted[i + 1]);
        assert span.lo(sorted[i]) <= span.lo(sorted[i + 1]);
      }
    }
  }

  /** Pairwise disjointness by recursion on the list: the head against the rest. */
  ghost predicate Apart<T>(xs: seq<T>, span: Span<T>) {
    xs != [] ==> ClearOf(xs[0], xs[1..], span) && Apart(xs[1..], span)
  }

  ghost predicate ClearOf<T>(x: T, xs: seq<T>, span: Span<T>) {
    forall y :: y in xs ==> span.Disjoint(x, y)
  }

  lemma {:induction false} ApartIsPairwise<T>(xs: seq<T>, span: Span<T>)
    ensures Apart(xs, span) <==> PairwiseDisjoint(xs, span)
  {
    if xs != [] {
      var rest := xs[1..];
      ApartIsPairwise(rest, span);
      if PairwiseDisjoint(xs, span) {
        forall i, j | 0 <= i < j < |rest|
          ensures span.Disjoint(rest[i], rest[j])
        {
          assert span.Disjoint(xs[i + 1], xs[j + 1]);
        }
      }
      if Apart(xs, span) {
        forall i, j | 0 <= i < j < |xs|
          ensures span.Disjoint(xs[i], xs[j])
        {
          if i > 0 {
            assert span.Disjoint(rest[i - 1], rest[j - 1]);
          } else {
            assert xs[j] == rest[j - 1];
          }
        }
      }
    }
  }

  lemma {:induction false} InsertKeepsApart<T>(x: T, sorted: seq<T>, span: Span<T>)
    ensures Apart(InsertBy(x, sorted, span.lo), span) <==> ClearOf(x, sorted, span) && Apart(sorted, span)
  {
    if sorted != [] && span.lo(sorted[0]) < span.lo(x) {
      var rest := InsertBy(x, sorted[1..], span.lo);
      InsertKeepsApart(x, sorted[1..], span);
      assert ([sorted[0]] + rest)[1..] == rest;
      InsertClear(sorted[0], x, sorted[1..], span);
      assert sorted == [sorted[0]] + sorted[1..];
      assert ClearOf(x, sorted, span) <==> span.Disjoint(x, sorted[0]) && ClearOf(x, sorted[1..], span);
    } else {
      assert ([x] + sorted)[1..] == sorted;
    }
  }

  lemma InsertClear<T>(z: T, x: T, sorted: seq<T>, span: Span<T>)
    ensures ClearOf(z, InsertBy(x, sorted, span.lo), span) <==> span.Disjoint(z, x) && ClearOf(z, sorted, span)
  {
    forall y
      ensures y in InsertBy(x, sorted, span.lo) <==> y == x || y in sorted
    {
      InsertByMembers(x, sorted, span.lo, y);
    }
  }

  lemma {:induction false} SortKeepsApart<T>(xs: seq<T>, span: Span<T>)
    ensures Apart(SortBy(xs, span.lo), span) <==> Apart(xs, span)
  {
    if xs != [] {
      var tail := SortBy(xs[1..], span.lo);
      SortKeepsApart(xs[1..], span);
      InsertKeepsApart(xs[0], tail, span);
      forall y
        ensures y in tail <==> y in xs[1..]
      {
        SortByMembers(xs[1..], span.lo, y);
      }
      assert ClearOf(xs[0], tail, span) <==> ClearOf(xs[0], xs[1..], span);
    }
  }

  /**
   Sorting by start and comparing neighbours accepts a list of proper intervals
   exactly when every two of them are disjoint.
   */
  lemma {:induction false} SortedScanDecides<T>(xs: seq<T>, span: Span<T>)
    requires span.Proper(xs)
    ensures NeighboursDisjoint(SortBy(xs, span.lo), span) <==> PairwiseDisjoint(xs, span)
  {
    var sorted := SortBy(xs, span.lo);
    SortBySorts(xs, span.lo);
    forall i | 0 <= i < |sorted|
      ensures span.lo(sorted[i]) < span.hi(sorted[i])
    {
      SortByMembers(xs, span.lo, sorted[i]);
    }
    SortedNeighboursDecide(sorted, span);
    ApartIsPairwise(sorted, span);
    ApartIsPairwise(xs, span);
    SortKeepsApart(xs, span);
  }

  /** Elements that share a key occupy disjoint intervals. */
  ghost predicate KeyedDisjoint<K, T>(xs: seq<T>, key: T -> K, span: Span<T>) {
    forall i, j :: 0 <= i < j < |xs| && key(xs[i]) == key(xs[j]) ==> span.Disjoint(xs[i], xs[j])
  }

  ghost predicate DisjointWhere<T>(xs: seq<T>, keep: T -> bool, span: Span<T>) {
    forall i, j :: 0 <= i < j < |xs| && keep(xs[i]) && keep(xs[j]) ==> span.Disjoint(xs[i], xs[j])
  }

  lemma {:induction false} FilterDisjoint<T(!new)>(xs: seq<T>, keep: T -> bool, span: Span<T>)
    ensures PairwiseDisjoint(Filter(xs, keep), span) <==> DisjointWhere(xs, keep, span)
  {
    ApartIsPairwise(Filter(xs, keep), span);
    if xs != [] {
      var rest := xs[1..];
      FilterDisjoint(rest, keep, span);
      ApartIsPairwise(Filter(rest, keep), span);
      if DisjointWhere(xs, keep, span) {
        forall i, j | 0 <= i < j < |rest| && keep(rest[i]) && keep(rest[j])
          ensures span.Disjoint(rest[i], rest[j])
        {
          assert span.Disjoint(xs[i + 1], xs[j + 1]);
        }
        if keep(xs[0]) {
          forall y | y in Filter(rest, keep)
            ensures span.Disjoint(xs[0], y)
          {
            var j :| 0 <= j < |rest| && rest[j] == y;
            assert span.Disjoint(xs[0], xs[j + 1]);
          }
          assert ([xs[0]] + Filter(rest, keep))[1..] == Filter(rest, keep);
        }
      }
      if Apart(Filter(xs, keep), span) {
        if keep(xs[0]) {
          assert ([xs[0]] + Filter(rest, keep))[1..] == Filter(rest, keep);
        }
        forall i, j | 0 <= i < j < |xs| && keep(xs[i]) && keep(xs[j])
          ensures span.Disjoint(xs[i], xs[j])
        {
          assert xs[j] == rest[j - 1];
          if i > 0 {
            assert span.Disjoint(rest[i - 1], rest[j - 1]);
          } else {
            assert rest[j - 1] in Filter(rest, keep);
          }
        }
      }
    }
  }

  function KeyIs<K(==), T>(key: T -> K, k: K): T -> bool {
    x => key(x) == k
  }

  /** Key by key is the same as all keys at once. */
  lemma GroupsDecideKeyed<K, T(!new)>(xs: seq<T>, key: T -> K, span: Span<T>, keys: set<K>)
    requires forall x <- xs :: key(x) in keys
    ensures (forall k <- keys :: PairwiseDisjoint(Filter(xs, KeyIs(key, k)), span)) <==> KeyedDisjoint(xs, key, span)
  {
    forall k | k in keys
      ensures PairwiseDisjoint(Filter(xs, KeyIs(key, k)), span) <==> DisjointWhere(xs, KeyIs(key, k), span)
    {
      FilterDisjoint(xs, KeyIs(key, k), span);
    }
    if forall k <- keys :: PairwiseDisjoint(Filter(xs, KeyIs(key, k)), span) {
      forall i, j | 0 <= i < j < |xs| && key(xs[i]) == key(xs[j])
        ensures span.Disjoint(xs[i], xs[j])
      {
        var k := key(xs[i]);
        assert DisjointWhere(xs, KeyIs(key, k), span);
        assert KeyIs(key, k)(xs[i]) && KeyIs(key, k)(xs[j]);
      }
    }
  }

  /**
   The `defaultdict(list)` loop: the lists by key, with the keys in the order
   in which the dictionary first saw them.
   */
  method GroupBy<K(==), T(!new)>(xs: seq<T>, key: T -> K) returns (order: seq<K>, groups: map<K, seq<T>>)
    ensures forall k :: k in order <==> k in groups
    ensures forall k <- groups :: groups[k] == Filter(xs, KeyIs(key, k)) && groups[k] != []
    ensures forall x <- xs :: key(x) in groups
  {
    order, groups := [], map[];
    for n := 0 to |xs|
      invariant forall k :: k in order <==> k in groups
      invariant forall k <- groups :: groups[k] == Filter(xs[..n], KeyIs(key, k)) && groups[k] != []
      invariant forall x <- xs[..n] :: key(x) in groups
    {
      var x := xs[n];
      var k := key(x);
      assert xs[..n + 1] == xs[..n] + [x];
      forall k' {
        FilterAppend(xs[..n], x, KeyIs(key, k'));
      }
      if k !in groups {
        FilterNone(xs[..n], key, k);
        order := order + [k];
        groups := groups[k := [x]];
      } else {
        groups := groups[k := groups[k] + [x]];
      }
    }
    assert xs[..|xs|] == xs;
  }

  lemma {:induction false} FilterNone<K, T(!new)>(xs: seq<T>, key: T -> K, k: K)
    requires forall x <- xs :: key(x) != k
    ensures Filter(xs, KeyIs(key, k)) == []
  {
    if xs != [] {
      FilterNone(xs[1..], key, k);
    }
  }
}
