/** Value types and stable sorting shared by the other modules. */
module Prelude {

  datatype Option<+T> = None | Some(value: T) {
    predicate IsFailure() { None? }

    function PropagateFailure<U>(): Option<U>
      requires None?
    {
      None
    }

    function Extract(): T
      requires Some?
    {
      value
    }
  }

  datatype Result<+T, +E> = Ok(value: T) | Err(error: E) {
    predicate IsFailure() { Err? }

    function PropagateFailure<U>(): Result<U, E>
      requires Err?
    {
      Err(error)
    }

    function Extract(): T
      requires Ok?
    {
      value
    }
  }

  /** The value Python's `dict.get(key)` returns. */
  function Get<K, V>(m: map<K, V>, key: K): Option<V> {
    if key in m then Some(m[key]) else None
  }

  /** Python's `int()` of a float: towards zero. */
  function Truncate(r: real): int {
    if r >= 0.0 then r.Floor else -(-r).Floor
  }

  function Pow2(n: nat): (p: nat)
    ensures p >= 1
  {
    if n == 0 then 1 else 2 * Pow2(n - 1)
  }

  /** `sorted(xs, key=key)`: an insertion sort that keeps equal keys in order. */
  function SortBy<T>(xs: seq<T>, key: T -> int): seq<T> {
    if xs == [] then [] else InsertBy(xs[0], SortBy(xs[1..], key), key)
  }

  function InsertBy<T>(x: T, sorted: seq<T>, key: T -> int): seq<T> {
    if sorted == [] || key(x) <= key(sorted[0]) then [x] + sorted
    else [sorted[0]] + InsertBy(x, sorted[1..], key)
  }

  ghost predicate Ordered<T>(xs: seq<T>, key: T -> int) {
    forall i, j :: 0 <= i < j < |xs| ==> key(xs[i]) <= key(xs[j])
  }

  lemma {:induction false} InsertByMembers<T>(x: T, sorted: seq<T>, key: T -> int, y: T)
    ensures y in InsertBy(x, sorted, key) <==> y == x || y in sorted
  {
    if sorted != [] && key(sorted[0]) < key(x) {
      InsertByMembers(x, sorted[1..], key, y);
    }
  }

  lemma {:induction false} InsertByOrders<T>(x: T, sorted: seq<T>, key: T -> int)
    requires Ordered(sorted, key)
    ensures Ordered(InsertBy(x, sorted, key), key)
  {
    if sorted != [] && key(sorted[0]) < key(x) {
      InsertByOrders(x, sorted[1..], key);
      var rest := InsertBy(x, sorted[1..], key);
      forall i | 0 <= i < |rest|
        ensures key(sorted[0]) <= key(rest[i])
      {
        InsertByMembers(x, sorted[1..], key, rest[i]);
      }
    }
  }

  lemma {:induction false} InsertByCounts<T>(x: T, sorted: seq<T>, key: T -> int)
    ensures multiset(InsertBy(x, sorted, key)) == multiset(sorted) + multiset{x}
  {
    if sorted == [] || key(x) <= key(sorted[0]) {
    } else {
      InsertByCounts(x, sorted[1..], key);
      assert sorted == [sorted[0]] + sorted[1..];
    }
  }

  /** Sorting orders the elements and neither drops nor duplicates any. */
  lemma {:induction false} SortBySorts<T>(xs: seq<T>, key: T -> int)
    ensures Ordered(SortBy(xs, key), key)
    ensures multiset(SortBy(xs, key)) == multiset(xs)
  {
    if xs != [] {
      SortBySorts(xs[1..], key);
      InsertByOrders(xs[0], SortBy(xs[1..], key), key);
      InsertByCounts(xs[0], SortBy(xs[1..], key), key);
      assert xs == [xs[0]] + xs[1..];
    }
  }

  lemma {:induction false} SortByMembers<T>(xs: seq<T>, key: T -> int, y: T)
    ensures y in SortBy(xs, key) <==> y in xs
  {
    if xs != [] {
      SortByMembers(xs[1..], key, y);
      InsertByMembers(xs[0], SortBy(xs[1..], key), key, y);
    }
  }

  lemma {:induction false} SortByOrders<T>(xs: seq<T>, key: T -> int)
    ensures Ordered(SortBy(xs, key), key)
    ensures |SortBy(xs, key)| == |xs|
  {
    SortBySorts(xs, key);
    assert |multiset(SortBy(xs, key))| == |multiset(xs)|;
  }

  /** The members of a list that a test accepts, in order. */
  function Filter<T(!new)>(xs: seq<T>, keep: T -> bool): (r: seq<T>)
    ensures forall x :: x in r <==> x in xs && keep(x)
    ensures |r| <= |xs|
  {
    if xs == [] then []
    else if keep(xs[0]) then [xs[0]] + Filter(xs[1..], keep)
    else Filter(xs[1..], keep)
  }

  lemma {:induction false} FilterAppend<T(!new)>(xs: seq<T>, y: T, keep: T -> bool)
    ensures Filter(xs + [y], keep) == Filter(xs, keep) + (if keep(y) then [y] else [])
  {
    var tail := if keep(y) then [y] else [];
    if xs == [] {
      assert xs + [y] == [y];
      assert [y][1..] == [];
    } else {
      FilterAppend(xs[1..], y, keep);
      assert (xs + [y])[1..] == xs[1..] + [y];
    }
  }

  ghost predicate Distinct<T>(order: seq<T>) {
    forall i, j :: 0 <= i < j < |order| ==> order[i] != order[j]
  }

  /** The sequence names every key once. */
  ghost predicate Lists<T(!new)>(order: seq<T>, keys: set<T>) {
    (forall k :: k in order <==> k in keys) && Distinct(order)
  }
}
