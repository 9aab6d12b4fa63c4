/**
 * Sequence combinators the core uses implicitly: a loop that appends only the
 * items a partial function accepts (`FilterMap`), and the first-occurrence
 * order of a sequence's distinct elements (`Dedup`, the key order of a
 * Python dictionary filled from that sequence).
 */
module Seqs {
  import opened Wrappers

  /**
   * The values `f` produces, in order, for the items of `xs` it accepts.
   * Defined on the last item so that it follows a loop that appends.
   */
  function FilterMap<A, B>(xs: seq<A>, f: A -> Option<B>): (r: seq<B>)
    ensures |r| <= |xs|
  {
    if xs == [] then []
    else
      var init := FilterMap(xs[..|xs| - 1], f);
      match f(xs[|xs| - 1])
      case None => init
      case Some(y) => init + [y]
  }

  /** One more item: its value, if `f` accepts it, follows the earlier outputs. */
  lemma FilterMapStep<A, B>(xs: seq<A>, i: nat, f: A -> Option<B>)
    requires i < |xs|
    ensures FilterMap(xs[..i + 1], f) == FilterMap(xs[..i], f) + (if f(xs[i]).Some? then [f(xs[i]).value] else [])
  {
    assert xs[..i + 1][..i] == xs[..i];
  }

  /** The positions of the items of `xs` that `f` accepts, in increasing order. */
  function Accepted<A, B>(xs: seq<A>, f: A -> Option<B>): seq<nat> {
    if xs == [] then []
    else
      var init := Accepted(xs[..|xs| - 1], f);
      if f(xs[|xs| - 1]).Some? then init + [|xs| - 1] else init
  }

  /**
   * Every output of `FilterMap` comes from exactly one accepted item, the
   * outputs follow the items' order, and no accepted item is missed.
   */
  lemma {:induction false} FilterMapOrigins<A, B>(xs: seq<A>, f: A -> Option<B>)
    ensures |Accepted(xs, f)| == |FilterMap(xs, f)|
    ensures forall a, b :: 0 <= a < b < |Accepted(xs, f)| ==> Accepted(xs, f)[a] < Accepted(xs, f)[b]
    ensures forall a :: 0 <= a < |Accepted(xs, f)| ==>
              Accepted(xs, f)[a] < |xs| && f(xs[Accepted(xs, f)[a]]) == Some(FilterMap(xs, f)[a])
    ensures forall j :: 0 <= j < |xs| && f(xs[j]).Some? ==> j in Accepted(xs, f)
  {
    if xs != [] {
      var init := xs[..|xs| - 1];
      FilterMapOrigins(init, f);
      assert forall j :: 0 <= j < |init| ==> xs[j] == init[j];
    }
  }

  /** Every output of `FilterMap` has the property `P` when every value `f` produces has it. */
  lemma {:induction false} FilterMapAll<A, B>(xs: seq<A>, f: A -> Option<B>, P: B -> bool)
    requires forall j :: 0 <= j < |xs| && f(xs[j]).Some? ==> P(f(xs[j]).value)
    ensures forall k :: 0 <= k < |FilterMap(xs, f)| ==> P(FilterMap(xs, f)[k])
  {
    if xs != [] {
      var init := xs[..|xs| - 1];
      assert forall j :: 0 <= j < |init| ==> xs[j] == init[j];
      FilterMapAll(init, f, P);
    }
  }

  /** No element occurs twice. */
  predicate Distinct<T(==)>(xs: seq<T>) {
    forall i, j :: 0 <= i < j < |xs| ==> xs[i] != xs[j]
  }

  /** An element in front of a sequence that does not hold it repeats nothing. */
  lemma DistinctCons<T>(x: T, xs: seq<T>)
    requires Distinct(xs) && x !in xs
    ensures Distinct([x] + xs)
  {
    var r := [x] + xs;
    forall a, b | 0 <= a < b < |r|
      ensures r[a] != r[b]
    {
      assert r[b] == xs[b - 1];
      if a > 0 {
        assert r[a] == xs[a - 1];
      }
    }
  }

  /** The distinct elements of `xs`, each at the place of its first occurrence. */
  function Dedup<T(==,!new)>(xs: seq<T>): (r: seq<T>)
    ensures Distinct(r)
    ensures forall x :: x in r <==> x in xs
    ensures |r| <= |xs|
  {
    if xs == [] then []
    else
      var d := Dedup(xs[..|xs| - 1]);
      assert forall x :: x in xs <==> x in xs[..|xs| - 1] || x == xs[|xs| - 1];
      if xs[|xs| - 1] in d then d else d + [xs[|xs| - 1]]
  }

  /** Without repetitions there is nothing to remove. */
  lemma {:induction false} DedupOfDistinct<T(!new)>(xs: seq<T>)
    requires Distinct(xs)
    ensures Dedup(xs) == xs
  {
    if xs != [] {
      var init := xs[..|xs| - 1];
      DedupOfDistinct(init);
      assert xs[|xs| - 1] !in init;
      assert xs == init + [xs[|xs| - 1]];
    }
  }

  /** With a repetition the first-occurrence order is strictly shorter. */
  lemma {:induction false} DedupOfRepeated<T(!new)>(xs: seq<T>)
    requires !Distinct(xs)
    ensures |Dedup(xs)| < |xs|
  {
    var init := xs[..|xs| - 1];
    if Distinct(init) {
      DedupOfDistinct(init);
      var i, j :| 0 <= i < j < |xs| && xs[i] == xs[j];
      assert j == |xs| - 1 && xs[j] == init[i];
    } else {
      DedupOfRepeated(init);
    }
  }

  /** A sequence without repetitions has as many elements as the set of its elements. */
  lemma {:induction false} DistinctCardinality<T>(xs: seq<T>)
    requires Distinct(xs)
    ensures |set x | x in xs| == |xs|
  {
    if xs != [] {
      var init := xs[..|xs| - 1];
      DistinctCardinality(init);
      var last := xs[|xs| - 1];
      assert last !in init;
      assert (set x | x in xs) == (set x | x in init) + {last};
    }
  }
}
