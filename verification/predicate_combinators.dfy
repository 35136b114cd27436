/**
 * The predicate combinators of include/tiara/core/utilities/predicate_combinators.hpp.
 * `and_` and `or_` store a tuple of predicates and fold `&&` or `||` over
 * their results; the argument pack `Args...` is one value of type `A`
 * (a tuple when the source passes several arguments).
 */
module PredicateCombinators {

  /** combinators<Args...>::and_ over the stored predicates `preds`. */
  datatype AndPredicate<!A> = AndPredicate(preds: seq<A -> bool>) {
    /** operator(): the right fold `(p0(a) && (p1(a) && ...))`; true for an empty list, which make_and_ never builds. */
    function Eval(a: A): bool {
      AllHold(preds, a)
    }
  }

  /** combinators<Args...>::or_ over the stored predicates `preds`. */
  datatype OrPredicate<!A> = OrPredicate(preds: seq<A -> bool>) {
    /** operator(): the right fold `(p0(a) || (p1(a) || ...))`; false for an empty list, which make_or_ never builds. */
    function Eval(a: A): bool {
      AnyHolds(preds, a)
    }
  }

  function AllHold<A>(preds: seq<A -> bool>, a: A): bool {
    if preds == [] then true else preds[0](a) && AllHold(preds[1..], a)
  }

  function AnyHolds<A>(preds: seq<A -> bool>, a: A): bool {
    if preds == [] then false else preds[0](a) || AnyHolds(preds[1..], a)
  }

  /** The number of predicates the `&&` fold calls before it stops, left to right. */
  function AndCalls<A>(preds: seq<A -> bool>, a: A): (k: nat)
    ensures k <= |preds|
    ensures forall i :: 0 <= i < k - 1 ==> preds[i](a)
    ensures k < |preds| ==> 0 < k && !preds[k - 1](a)
  {
    if preds == [] then 0
    else if !preds[0](a) then 1
    else 1 + AndCalls(preds[1..], a)
  }

  /** The number of predicates the `||` fold calls before it stops, left to right. */
  function OrCalls<A>(preds: seq<A -> bool>, a: A): (k: nat)
    ensures k <= |preds|
    ensures forall i :: 0 <= i < k - 1 ==> !preds[i](a)
    ensures k < |preds| ==> 0 < k && preds[k - 1](a)
  {
    if preds == [] then 0
    else if preds[0](a) then 1
    else 1 + OrCalls(preds[1..], a)
  }

  /** `and_` holds iff every member predicate holds. */
  lemma {:induction false} AndHoldsIffAll<A>(preds: seq<A -> bool>, a: A)
    ensures AndPredicate(preds).Eval(a) <==> forall i :: 0 <= i < |preds| ==> preds[i](a)
  {
    if preds != [] {
      AndHoldsIffAll(preds[1..], a);
      assert forall i :: 1 <= i < |preds| ==> preds[i] == preds[1..][i - 1];
    }
  }

  /** `or_` holds iff some member predicate holds. */
  lemma {:induction false} OrHoldsIffSome<A>(preds: seq<A -> bool>, a: A)
    ensures OrPredicate(preds).Eval(a) <==> exists i :: 0 <= i < |preds| && preds[i](a)
  {
    if preds != [] {
      OrHoldsIffSome(preds[1..], a);
      assert forall i :: 1 <= i < |preds| ==> preds[i] == preds[1..][i - 1];
    }
  }

  /**
   * Short circuit of `and_`: the result is the value of the last predicate
   * called (AndCalls says the fold stops at the first false one).
   */
  lemma {:induction false} AndShortCircuits<A>(preds: seq<A -> bool>, a: A)
    requires preds != []
    ensures AndPredicate(preds).Eval(a) == preds[AndCalls(preds, a) - 1](a)
  {
    AndHoldsIffAll(preds, a);
  }

  /** Short circuit of `or_`: the result is the value of the last predicate called (the first true one, if any). */
  lemma {:induction false} OrShortCircuits<A>(preds: seq<A -> bool>, a: A)
    requires preds != []
    ensures OrPredicate(preds).Eval(a) == preds[OrCalls(preds, a) - 1](a)
  {
    OrHoldsIffSome(preds, a);
  }

  /** make_and_: an `and_` over exactly the given predicates, in argument order; the constructor takes at least one. */
  function MakeAnd<A(!new)>(preds: seq<A -> bool>): (c: AndPredicate<A>)
    requires preds != []
    ensures c.preds == preds
    ensures forall a :: c.Eval(a) <==> forall i :: 0 <= i < |preds| ==> preds[i](a)
  {
    var c := AndPredicate(preds);
    assert forall a :: c.Eval(a) <==> forall i :: 0 <= i < |preds| ==> preds[i](a) by {
      forall a { AndHoldsIffAll(preds, a); }
    }
    c
  }

  /** make_or_: an `or_` over exactly the given predicates, in argument order; the constructor takes at least one. */
  function MakeOr<A(!new)>(preds: seq<A -> bool>): (c: OrPredicate<A>)
    requires preds != []
    ensures c.preds == preds
    ensures forall a :: c.Eval(a) <==> exists i :: 0 <= i < |preds| && preds[i](a)
  {
    var c := OrPredicate(preds);
    assert forall a :: c.Eval(a) <==> exists i :: 0 <= i < |preds| && preds[i](a) by {
      forall a { OrHoldsIffSome(preds, a); }
    }
    c
  }
}
