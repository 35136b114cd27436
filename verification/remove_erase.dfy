/**
 * The erase-remove idiom of include/tiara/core/utilities/remove_erase.hpp:
 * `remove_if` compacts the kept elements to the front of the container in
 * place, and `erase` cuts the container at the new logical end.
 */
module RemoveErase {

  /** `s` without the elements for which `drop` holds, in their original order. */
  function Filtered<T>(s: seq<T>, drop: T -> bool): (r: seq<T>)
    ensures |r| <= |s|
    ensures forall i :: 0 <= i < |r| ==> r[i] in s && !drop(r[i])
    ensures forall i :: 0 <= i < |s| && !drop(s[i]) ==> s[i] in r
  {
    if s == [] then []
    else (if drop(s[0]) then [] else [s[0]]) + Filtered(s[1..], drop)
  }

  /** The predicate "equals `v`". */
  function Is<T(==)>(v: T): T -> bool {
    x => x == v
  }

  /** `s` without any element equal to `v`. */
  function Without<T(==)>(s: seq<T>, v: T): seq<T> {
    Filtered(s, Is(v))
  }

  /** Filtering distributes over concatenation: what is kept of `a` precedes what is kept of `b`. */
  lemma {:induction false} FilteredAppend<T>(a: seq<T>, b: seq<T>, drop: T -> bool)
    ensures Filtered(a + b, drop) == Filtered(a, drop) + Filtered(b, drop)
  {
    if a == [] {
      assert a + b == b;
    } else {
      assert (a + b)[1..] == a[1..] + b;
      FilteredAppend(a[1..], b, drop);
    }
  }

  /** A sequence none of whose elements is dropped is left as it is. */
  lemma {:induction false} FilteredKeepsAll<T>(s: seq<T>, drop: T -> bool)
    requires forall i :: 0 <= i < |s| ==> !drop(s[i])
    ensures Filtered(s, drop) == s
  {
    if s != [] {
      FilteredKeepsAll(s[1..], drop);
    }
  }

  /** Removing twice is removing once. */
  lemma FilteredIdempotent<T>(s: seq<T>, drop: T -> bool)
    ensures Filtered(Filtered(s, drop), drop) == Filtered(s, drop)
  {
    FilteredKeepsAll(Filtered(s, drop), drop);
  }

  /** Dropping by `d1` and then by `d2` is dropping by either of them. */
  lemma {:induction false} FilteredTwice<T>(s: seq<T>, d1: T -> bool, d2: T -> bool)
    ensures Filtered(Filtered(s, d1), d2) == Filtered(s, x => d1(x) || d2(x))
  {
    if s != [] {
      FilteredTwice(s[1..], d1, d2);
      var head := if d1(s[0]) then [] else [s[0]];
      FilteredAppend(head, Filtered(s[1..], d1), d2);
    }
  }

  /** remove_erase by value is idempotent. */
  lemma WithoutIdempotent<T>(s: seq<T>, v: T)
    ensures Without(Without(s, v), v) == Without(s, v)
  {
    FilteredIdempotent(s, Is(v));
  }

  /** Removing `v` right after appending it undoes the append, and appending anything else commutes with the removal. */
  lemma WithoutAppended<T>(s: seq<T>, v: T, w: T)
    ensures Without(s + [w], v) == if w == v then Without(s, v) else Without(s, v) + [w]
  {
    FilteredAppend(s, [w], Is(v));
  }

  /** Removing two values in either order gives the same sequence. */
  lemma {:induction false} WithoutCommutes<T>(s: seq<T>, a: T, b: T)
    ensures Without(Without(s, a), b) == Without(Without(s, b), a)
  {
    if s != [] {
      WithoutCommutes(s[1..], a, b);
      var ha := if s[0] == a then [] else [s[0]];
      var hb := if s[0] == b then [] else [s[0]];
      FilteredAppend(ha, Without(s[1..], a), Is(b));
      FilteredAppend(hb, Without(s[1..], b), Is(a));
    }
  }

  /**
   * std::ranges::remove_if on an array: the kept elements are moved, in
   * order, to the front, and the returned index is the new logical end.
   * Elements from that index on are left unspecified.
   */
  method RemoveIf<T>(a: array<T>, drop: T -> bool) returns (last: nat)
    modifies a
    ensures last <= a.Length
    ensures a[..last] == Filtered(old(a[..]), drop)
  {
    var i, j := 0, 0;
    while i < a.Length
      invariant 0 <= j <= i <= a.Length
      invariant a[..j] == Filtered(old(a[..])[..i], drop)
      invariant forall k :: i <= k < a.Length ==> a[k] == old(a[k])
    {
      ghost var done := old(a[..])[..i];
      assert old(a[..])[..i + 1] == done + [a[i]];
      FilteredAppend(done, [a[i]], drop);
      if !drop(a[i]) {
        a[j] := a[i];
        j := j + 1;
      }
      i := i + 1;
    }
    assert old(a[..])[..a.Length] == old(a[..]);
    last := j;
  }

  /** remove_erase_if(r, pred): the container keeps exactly the elements `pred` rejects, in order. */
  method RemoveEraseIf<T>(r: seq<T>, drop: T -> bool) returns (r': seq<T>)
    ensures r' == Filtered(r, drop)
    ensures forall i :: 0 <= i < |r'| ==> !drop(r'[i])
  {
    var a := new T[|r|](i requires 0 <= i < |r| => r[i]);
    assert a[..] == r;
    var last := RemoveIf(a, drop);
    r' := a[..last];
  }

  /** remove_erase(r, value): the container keeps exactly the elements different from `value`, in order. */
  method RemoveErase<T(==)>(r: seq<T>, v: T) returns (r': seq<T>)
    ensures r' == Without(r, v)
    ensures v !in r'
  {
    r' := RemoveEraseIf(r, Is(v));
  }
}
