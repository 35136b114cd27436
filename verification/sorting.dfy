/**
 * The ordering that std::ranges::sort establishes, used to specify the two
 * sorts of include/tiara/core/core.hpp (devices in find_devices, instance
 * extension names in init). std::sort demands a strict weak order of its
 * comparer; given one, it yields a permutation of its input in which no
 * element is less than one before it.
 */
module Sorting {

  /** `less` is irreflexive and transitive: all that sortedness of an insertion sort needs. */
  ghost predicate StrictOrder<T(!new)>(less: (T, T) -> bool) {
    && (forall x :: !less(x, x))
    && (forall x, y, z :: less(x, y) && less(y, z) ==> less(x, z))
  }

  /** Neither element is less than the other. */
  predicate Incomparable<T>(less: (T, T) -> bool, x: T, y: T) {
    !less(x, y) && !less(y, x)
  }

  /**
   * A strict order whose incomparability is transitive, hence an
   * equivalence: what std::sort requires of its comparer (the Compare
   * requirement of [alg.sorting] in the C++ standard).
   */
  ghost predicate StrictWeakOrder<T(!new)>(less: (T, T) -> bool) {
    && StrictOrder(less)
    && (forall x, y, z :: Incomparable(less, x, y) && Incomparable(less, y, z) ==> Incomparable(less, x, z))
  }

  /** No element is less than an element before it. */
  predicate SortedBy<T>(s: seq<T>, less: (T, T) -> bool) {
    forall i, j :: 0 <= i < j < |s| ==> !less(s[j], s[i])
  }

  /** `s` with `x` placed before the first element it is less than. */
  function Insert<T>(s: seq<T>, x: T, less: (T, T) -> bool): (r: seq<T>)
    ensures multiset(r) == multiset(s) + multiset{x}
  {
    if s == [] then [x]
    else if less(x, s[0]) then [x] + s
    else
      assert s == [s[0]] + s[1..];
      [s[0]] + Insert(s[1..], x, less)
  }

  /** An insertion sort of `s`: one of the orders std::sort may produce (it keeps equivalent elements in input order). */
  function SortBy<T(!new)>(s: seq<T>, less: (T, T) -> bool): (r: seq<T>)
    requires StrictWeakOrder(less)
    ensures multiset(r) == multiset(s)
  {
    if s == [] then []
    else
      assert s == s[..|s| - 1] + [s[|s| - 1]];
      Insert(SortBy(s[..|s| - 1], less), s[|s| - 1], less)
  }

  lemma {:induction false} InsertKeepsSorted<T(!new)>(s: seq<T>, x: T, less: (T, T) -> bool)
    requires StrictOrder(less)
    requires SortedBy(s, less)
    ensures SortedBy(Insert(s, x, less), less)
  {
    if s == [] {
    } else if less(x, s[0]) {
      var r := [x] + s;
      assert forall j :: 0 < j < |r| ==> r[j] == s[j - 1];
    } else {
      InsertKeepsSorted(s[1..], x, less);
      var tail := Insert(s[1..], x, less);
      var r := [s[0]] + tail;
      forall i, j | 0 <= i < j < |r| ensures !less(r[j], r[i]) {
        if i == 0 {
          assert r[j] in multiset(tail);
          assert r[j] in multiset(s[1..]) || r[j] == x;
          if r[j] != x {
            var k :| 1 <= k < |s| && s[k] == r[j];
          }
        }
      }
    }
  }

  /** SortBy yields a sorted permutation of its input. */
  lemma {:induction false} SortByIsSorted<T(!new)>(s: seq<T>, less: (T, T) -> bool)
    requires StrictWeakOrder(less)
    ensures SortedBy(SortBy(s, less), less)
    ensures multiset(SortBy(s, less)) == multiset(s)
  {
    if s != [] {
      SortByIsSorted(s[..|s| - 1], less);
      InsertKeepsSorted(SortBy(s[..|s| - 1], less), s[|s| - 1], less);
    }
  }
}
