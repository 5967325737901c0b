/**
 * `Array.prototype.sort` with a comparator, modelled as insertion sort.
 *
 * A comparator is represented by the relation `after(a, b)`, true when the
 * comparator puts `a` after `b` (returns a positive number). The standard lets
 * an engine use any algorithm, so the model's own algorithm only matters where
 * the sorted order is not unique; `SortedPermutationUnique` shows it is unique
 * whenever the comparator orders every pair of different elements.
 */
module Sorting {

  /** No element is placed after a later one. */
  ghost predicate Sorted<T>(after: (T, T) -> bool, s: seq<T>) {
    forall i, j :: 0 <= i < j < |s| ==> !after(s[i], s[j])
  }

  /**
   * The comparator is a strict weak order: irreflexive, transitive, and
   * "not after" is transitive too (ties form equivalence classes).
   */
  ghost predicate StrictWeakOrder<T(!new)>(after: (T, T) -> bool) {
    && (forall a :: !after(a, a))
    && (forall a, b, c :: after(a, b) && after(b, c) ==> after(a, c))
    && (forall a, b, c :: !after(a, b) && !after(b, c) ==> !after(a, c))
  }

  /** The comparator orders every two different elements of `s`. */
  ghost predicate TotalOn<T>(after: (T, T) -> bool, s: seq<T>) {
    forall i, j :: 0 <= i < |s| && 0 <= j < |s| && s[i] != s[j] ==> after(s[i], s[j]) || after(s[j], s[i])
  }

  /** Inserts `x` in front of the first element it does not come after. */
  function Insert<T(!new)>(after: (T, T) -> bool, x: T, s: seq<T>): (r: seq<T>)
    ensures multiset(r) == multiset(s) + multiset{x}
    ensures |r| == |s| + 1
    ensures StrictWeakOrder(after) && Sorted(after, s) ==> Sorted(after, r)
  {
    if s == [] then [x]
    else if after(x, s[0]) then
      var rest := Insert(after, x, s[1..]);
      assert s == [s[0]] + s[1..];
      assert multiset([s[0]] + rest) == multiset{s[0]} + multiset(rest);
      InsertSortedCons(after, x, s, rest);
      [s[0]] + rest
    else
      InsertFront(after, x, s);
      [x] + s
  }

  /** An element that does not come after the head of a sorted list can go in front of it. */
  lemma InsertFront<T(!new)>(after: (T, T) -> bool, x: T, s: seq<T>)
    requires s != [] && !after(x, s[0])
    ensures StrictWeakOrder(after) && Sorted(after, s) ==> Sorted(after, [x] + s)
  {
    if StrictWeakOrder(after) && Sorted(after, s) {
      var r := [x] + s;
      forall i, j | 0 <= i < j < |r|
        ensures !after(r[i], r[j])
      {
        if i == 0 && j > 1 {
          assert r[j] == s[j - 1] && !after(s[0], s[j - 1]);
        }
      }
    }
  }

  /** The step of `Insert` that keeps the head in front of the inserted tail. */
  lemma InsertSortedCons<T(!new)>(after: (T, T) -> bool, x: T, s: seq<T>, rest: seq<T>)
    requires s != [] && after(x, s[0])
    requires multiset(rest) == multiset(s[1..]) + multiset{x}
    requires StrictWeakOrder(after) && Sorted(after, s) ==> Sorted(after, rest)
    ensures StrictWeakOrder(after) && Sorted(after, s) ==> Sorted(after, [s[0]] + rest)
  {
    if StrictWeakOrder(after) && Sorted(after, s) {
      var r := [s[0]] + rest;
      forall i, j | 0 <= i < j < |r|
        ensures !after(r[i], r[j])
      {
        if i == 0 {
          var y := r[j];
          assert y in multiset(rest);
          if y != x {
            assert y in multiset(s[1..]);
            var k :| 0 <= k < |s[1..]| && s[1..][k] == y;
            assert s[k + 1] == y;
          }
        }
      }
    }
  }

  /** Sorts `s` by inserting its head into the sorted tail. */
  function InsertionSort<T(!new)>(after: (T, T) -> bool, s: seq<T>): (r: seq<T>)
    ensures multiset(r) == multiset(s)
    ensures |r| == |s|
    ensures StrictWeakOrder(after) ==> Sorted(after, r)
  {
    if s == [] then []
    else
      assert s == [s[0]] + s[1..];
      Insert(after, s[0], InsertionSort(after, s[1..]))
  }

  /** Sorting a list that is already sorted leaves it as it is. */
  lemma {:induction false} SortedIsFixpoint<T(!new)>(after: (T, T) -> bool, a: seq<T>)
    requires Sorted(after, a)
    ensures InsertionSort(after, a) == a
    decreases |a|
  {
    if a != [] {
      assert Sorted(after, a[1..]);
      SortedIsFixpoint(after, a[1..]);
      if a[1..] != [] {
        assert !after(a[0], a[1]);
      }
      assert a == [a[0]] + a[1..];
    }
  }

  /**
   * Two sorted permutations of each other are equal when the comparator
   * orders every pair of different elements: the sorted order is unique, so
   * any correct sort algorithm gives the model's result.
   */
  lemma {:induction false} SortedPermutationUnique<T>(after: (T, T) -> bool, a: seq<T>, b: seq<T>)
    requires multiset(a) == multiset(b)
    requires Sorted(after, a) && Sorted(after, b)
    requires TotalOn(after, a)
    ensures a == b
    decreases |a|
  {
    assert |a| == |multiset(a)| == |b|;
    if a != [] {
      SortedHeadsAgree(after, a, b);
      TailsPermuted(a, b);
      TotalOnTail(after, a);
      SortedPermutationUnique(after, a[1..], b[1..]);
      assert a == [a[0]] + a[1..] && b == [b[0]] + b[1..];
    }
  }

  /** Removing the same first element from two permutations of each other leaves permutations. */
  lemma TailsPermuted<T>(a: seq<T>, b: seq<T>)
    requires a != [] && b != [] && a[0] == b[0] && multiset(a) == multiset(b)
    ensures multiset(a[1..]) == multiset(b[1..])
  {
    assert a == [a[0]] + a[1..] && b == [b[0]] + b[1..];
    assert multiset(a) == multiset{a[0]} + multiset(a[1..]);
    assert multiset(b) == multiset{b[0]} + multiset(b[1..]);
    assert multiset(a[1..]) == multiset(a) - multiset{a[0]};
    assert multiset(b[1..]) == multiset(b) - multiset{b[0]};
  }

  /** Both sorted permutations start with the same element. */
  lemma SortedHeadsAgree<T>(after: (T, T) -> bool, a: seq<T>, b: seq<T>)
    requires a != [] && multiset(a) == multiset(b)
    requires Sorted(after, a) && Sorted(after, b)
    requires TotalOn(after, a)
    ensures b != [] && a[0] == b[0]
  {
    assert a[0] in multiset(b);
    assert b != [];
    assert b[0] in multiset(a);
    var i :| 0 <= i < |b| && b[i] == a[0];
    var j :| 0 <= j < |a| && a[j] == b[0];
    if i != 0 && j != 0 {
      assert !after(b[0], b[i]) && !after(a[0], a[j]);
    }
  }

  lemma TotalOnTail<T>(after: (T, T) -> bool, a: seq<T>)
    requires a != [] && TotalOn(after, a)
    ensures TotalOn(after, a[1..])
  {
    forall x, y | 0 <= x < |a[1..]| && 0 <= y < |a[1..]| && a[1..][x] != a[1..][y]
      ensures after(a[1..][x], a[1..][y]) || after(a[1..][y], a[1..][x])
    {
      assert a[1..][x] == a[x + 1] && a[1..][y] == a[y + 1];
    }
  }
}
