/** Insertion sort for a strict weak order: elements that neither comes before the other keep
    their order. */
module Sorting {
  import opened Permutations

  function Insert<T>(before: (T, T) -> bool, s: seq<T>, x: T): seq<T> {
    if s == [] || !before(x, s[|s| - 1]) then s + [x] else Insert(before, s[..|s| - 1], x) + [s[|s| - 1]]
  }

  function Sort<T>(before: (T, T) -> bool, s: seq<T>): seq<T> {
    if s == [] then [] else Insert(before, Sort(before, s[..|s| - 1]), s[|s| - 1])
  }

  /** No element comes before an earlier one. */
  predicate IsSorted<T>(before: (T, T) -> bool, s: seq<T>) {
    forall i, j :: 0 <= i < j < |s| ==> !before(s[j], s[i])
  }

  /** Coming before is asymmetric, and not coming before is transitive. */
  ghost predicate IsOrder<T(!new)>(before: (T, T) -> bool) {
    && (forall a, b :: before(a, b) ==> !before(b, a))
    && (forall a, b, c :: !before(a, b) && !before(b, c) ==> !before(a, c))
  }

  predicate BeforeNone<T>(before: (T, T) -> bool, s: seq<T>, x: T) {
    forall i :: 0 <= i < |s| ==> !before(x, s[i])
  }

  lemma {:induction false} InsertAbove<T>(before: (T, T) -> bool, s: seq<T>, x: T, y: T)
    requires BeforeNone(before, s, y) && !before(y, x)
    ensures BeforeNone(before, Insert(before, s, x), y)
  {
    if s != [] && before(x, s[|s| - 1]) {
      InsertAbove(before, s[..|s| - 1], x, y);
    }
  }

  lemma SortedSnoc<T>(before: (T, T) -> bool, s: seq<T>, y: T)
    requires IsSorted(before, s) && BeforeNone(before, s, y)
    ensures IsSorted(before, s + [y])
  {
  }

  lemma {:induction false} InsertSorts<T(!new)>(before: (T, T) -> bool, s: seq<T>, x: T)
    requires IsOrder(before) && IsSorted(before, s)
    ensures IsSorted(before, Insert(before, s, x))
    ensures multiset(Insert(before, s, x)) == multiset(s) + multiset{x}
  {
    if s == [] {
      SortedSnoc(before, s, x);
      Append(s, x);
    } else {
      var init, y := s[..|s| - 1], s[|s| - 1];
      if before(x, y) {
        InsertSorts(before, init, x);
        InsertAbove(before, init, x, y);
        SortedSnoc(before, Insert(before, init, x), y);
        Append(Insert(before, init, x), y);
        DropLast(s);
      } else {
        assert forall i :: 0 <= i < |s| - 1 ==> !before(y, s[i]);
        SortedSnoc(before, s, x);
        Append(s, x);
      }
    }
  }

  lemma {:induction false} SortSorts<T(!new)>(before: (T, T) -> bool, s: seq<T>)
    requires IsOrder(before)
    ensures IsSorted(before, Sort(before, s)) && multiset(Sort(before, s)) == multiset(s)
  {
    if s != [] {
      SortSorts(before, s[..|s| - 1]);
      InsertSorts(before, Sort(before, s[..|s| - 1]), s[|s| - 1]);
      DropLast(s);
    }
  }
}
