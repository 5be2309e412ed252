/** The optional-value datatype used for nullable results (a `null` line at
    the end of the reader, a regex that does not match, a missing message),
    and the values and positions of the present entries of a sequence of
    options. */
module Wrappers {

  datatype Option<+T> = None | Some(value: T)

  /** The present values, in order. */
  function Values<T>(xs: seq<Option<T>>): seq<T> {
    if xs == [] then []
    else (if xs[0].Some? then [xs[0].value] else []) + Values(xs[1..])
  }

  /** The positions (from `start` on) of the present entries, in order. */
  function PresentFrom<T>(xs: seq<Option<T>>, start: nat): seq<nat>
    decreases |xs| - start
  {
    if start >= |xs| then []
    else (if xs[start].Some? then [start] else []) + PresentFrom(xs, start + 1)
  }

  /** The positions lie in range, ascend, and are exactly the present entries. */
  lemma {:induction false} PresentFromSpec<T>(xs: seq<Option<T>>, start: nat)
    ensures var idx := PresentFrom(xs, start);
      && (forall k | 0 <= k < |idx| :: start <= idx[k] < |xs|)
      && (forall k1, k2 | 0 <= k1 < k2 < |idx| :: idx[k1] < idx[k2])
      && (forall j | start <= j < |xs| :: xs[j].Some? <==> j in idx)
    decreases |xs| - start
  {
    if start < |xs| {
      PresentFromSpec(xs, start + 1);
      var rest := PresentFrom(xs, start + 1);
      var here: seq<nat> := if xs[start].Some? then [start] else [];
      var idx := here + rest;
      assert PresentFrom(xs, start) == idx;
      assert start !in rest;
      assert forall k | |here| <= k < |idx| :: idx[k] == rest[k - |here|];
      assert forall j :: j in idx <==> j in here || j in rest;
    }
  }

  /** The k-th present value sits at the k-th present position. */
  lemma {:induction false} ValuesAtPresent<T>(xs: seq<Option<T>>, start: nat)
    requires start <= |xs|
    ensures var idx, vs := PresentFrom(xs, start), Values(xs[start..]);
      && |idx| == |vs|
      && forall k | 0 <= k < |idx| :: idx[k] < |xs| && xs[idx[k]] == Some(vs[k])
    decreases |xs| - start
  {
    if start < |xs| {
      ValuesAtPresent(xs, start + 1);
      assert xs[start..][0] == xs[start];
      assert xs[start..][1..] == xs[start + 1..];
      var rest, vsr := PresentFrom(xs, start + 1), Values(xs[start + 1..]);
      if xs[start].Some? {
        var idx, vs := [start] + rest, [xs[start].value] + vsr;
        assert PresentFrom(xs, start) == idx;
        assert Values(xs[start..]) == vs;
        assert forall k | 1 <= k < |idx| :: idx[k] == rest[k - 1] && vs[k] == vsr[k - 1];
      } else {
        assert PresentFrom(xs, start) == [] + rest == rest;
        assert Values(xs[start..]) == [] + vsr == vsr;
      }
    } else {
      assert xs[start..] == [];
    }
  }
}
