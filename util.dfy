/** Generic pieces shared by the rest of the model: an optional value and
    JavaScript's `Array.prototype.filter` over sequences. */
module Util {

  datatype Option<+T> = None | Some(value: T) {
    /** The value if there is one, else `default`. */
    function GetOr(default: T): T {
      if Some? then value else default
    }
  }

  /** `xs.filter(keep)`: the elements for which `keep` holds, in their original order. */
  function Filter<T>(xs: seq<T>, keep: T -> bool): (r: seq<T>)
    ensures |r| <= |xs|
    ensures forall i :: 0 <= i < |r| ==> r[i] in xs && keep(r[i])
    ensures forall i :: 0 <= i < |xs| && keep(xs[i]) ==> xs[i] in r
  {
    if xs == [] then []
    else
      assert xs == [xs[0]] + xs[1..];
      if keep(xs[0]) then [xs[0]] + Filter(xs[1..], keep) else Filter(xs[1..], keep)
  }

  /** Filtering only removes: what it keeps occurs at most as often as in the input. */
  lemma {:induction false} FilterSubMultiset<T>(xs: seq<T>, keep: T -> bool)
    ensures multiset(Filter(xs, keep)) <= multiset(xs)
  {
    if xs != [] {
      var rest := Filter(xs[1..], keep);
      FilterSubMultiset(xs[1..], keep);
      assert xs == [xs[0]] + xs[1..];
      assert multiset(xs) == multiset{xs[0]} + multiset(xs[1..]);
      if keep(xs[0]) {
        assert Filter(xs, keep) == [xs[0]] + rest;
        assert multiset([xs[0]] + rest) == multiset{xs[0]} + multiset(rest);
      } else {
        assert Filter(xs, keep) == rest;
      }
    }
  }

  /** One step of the filter: the head is kept or dropped, then the tail is filtered. */
  lemma FilterStep<T>(xs: seq<T>, keep: T -> bool)
    requires xs != []
    ensures Filter(xs, keep) == (if keep(xs[0]) then [xs[0]] else []) + Filter(xs[1..], keep)
  {
  }

  /** A filter over three elements that drops only the middle one. */
  lemma FilterDropsMiddle<T>(x: T, y: T, z: T, keep: T -> bool)
    requires keep(x) && !keep(y) && keep(z)
    ensures Filter([x, y, z], keep) == [x, z]
  {
    FilterStep([x, y, z], keep);
    assert [x, y, z][1..] == [y, z];
    FilterStep([y, z], keep);
    assert [y, z][1..] == [z];
    FilterStep([z], keep);
    assert [z][1..] == [];
  }

  /** A filter over three elements that keeps them all. */
  lemma FilterKeepsThree<T>(x: T, y: T, z: T, keep: T -> bool)
    requires keep(x) && keep(y) && keep(z)
    ensures Filter([x, y, z], keep) == [x, y, z]
  {
    FilterStep([x, y, z], keep);
    assert [x, y, z][1..] == [y, z];
    FilterStep([y, z], keep);
    assert [y, z][1..] == [z];
    FilterStep([z], keep);
    assert [z][1..] == [];
  }

  /** Filtering distributes over concatenation: the relative order of the kept elements is the original one. */
  lemma {:induction false} FilterConcat<T>(a: seq<T>, b: seq<T>, keep: T -> bool)
    ensures Filter(a + b, keep) == Filter(a, keep) + Filter(b, keep)
  {
    if a == [] {
      assert a + b == b;
    } else {
      assert (a + b)[1..] == a[1..] + b;
      FilterConcat(a[1..], b, keep);
    }
  }

  /** When every element is kept, the filter returns the sequence itself. */
  lemma {:induction false} FilterKeepsAll<T>(xs: seq<T>, keep: T -> bool)
    requires forall i :: 0 <= i < |xs| ==> keep(xs[i])
    ensures Filter(xs, keep) == xs
  {
    if xs != [] {
      FilterKeepsAll(xs[1..], keep);
    }
  }

  /** Filtering twice with the same predicate is filtering once. */
  lemma FilterIdempotent<T>(xs: seq<T>, keep: T -> bool)
    ensures Filter(Filter(xs, keep), keep) == Filter(xs, keep)
  {
    FilterKeepsAll(Filter(xs, keep), keep);
  }
}
