/**
  `Enumerable.Union` as the scan service uses it: the elements of the first
  sequence and then of the second, each kept at its first occurrence and
  dropped on every later one (a set of the elements already yielded decides).
 */
module Linq {

  predicate NoDuplicates<T(==)>(s: seq<T>) {
    forall i, j | 0 <= i < j < |s| :: s[i] != s[j]
  }

  /** The index of the first occurrence of `x` in `s`. */
  function FirstIndex<T(==)>(s: seq<T>, x: T): (i: nat)
    requires x in s
    ensures i < |s| && s[i] == x && x !in s[..i]
  {
    if s[0] == x then 0
    else
      var i := FirstIndex(s[1..], x);
      assert s[..i + 1] == [s[0]] + s[1..][..i];
      i + 1
  }

  /** The elements of `s` not in `seen`, each at its first occurrence, in
      the order those first occurrences come in `s`. */
  function DistinctFrom<T(==)>(s: seq<T>, seen: set<T>): (r: seq<T>)
    ensures NoDuplicates(r)
    ensures forall x | x in r :: x in s && x !in seen
    ensures forall x | x in s && x !in seen :: x in r
    ensures forall i, j | 0 <= i < j < |r| :: FirstIndex(s, r[i]) < FirstIndex(s, r[j])
  {
    if s == [] then []
    else
      var rest := DistinctFrom(s[1..], if s[0] in seen then seen else seen + {s[0]});
      assert forall y | y in rest && y != s[0] :: FirstIndex(s, y) == FirstIndex(s[1..], y) + 1;
      if s[0] in seen then rest else [s[0]] + rest
  }

  /** `first.Union(second)`. */
  function Union<T(==)>(first: seq<T>, second: seq<T>): seq<T> {
    DistinctFrom(first + second, {})
  }

  /** A sequence without repetitions, none of whose elements were seen
      before, passes through unchanged. */
  lemma {:induction false} DistinctFromOfDistinct<T>(s: seq<T>, seen: set<T>)
    requires NoDuplicates(s) && forall k | 0 <= k < |s| :: s[k] !in seen
    ensures DistinctFrom(s, seen) == s
  {
    if s != [] {
      assert forall k | 0 <= k < |s| - 1 :: s[1..][k] == s[k + 1];
      DistinctFromOfDistinct(s[1..], seen + {s[0]});
    }
  }
}
