/** Sequence helpers shared by the model: Python's filtering list comprehension and a sum. */
module Seqs {

  /** `[x for x in s if p(x)]`: the elements of `s` that satisfy `p`, in their original order. */
  function Filter<T>(s: seq<T>, p: T -> bool): (r: seq<T>)
    ensures |r| <= |s|
    ensures forall x :: x in r ==> x in s && p(x)
  {
    if s == [] then []
    else
      var init := s[..|s| - 1];
      assert forall x :: x in init ==> x in s;
      Filter(init, p) + (if p(s[|s| - 1]) then [s[|s| - 1]] else [])
  }

  /** The indices of the elements of `s` that satisfy `p`, in increasing order. */
  function Positions<T>(s: seq<T>, p: T -> bool): seq<nat>
  {
    if s == [] then []
    else Positions(s[..|s| - 1], p) + (if p(s[|s| - 1]) then [|s| - 1] else [])
  }

  ghost predicate Ascending(ix: seq<nat>)
  {
    forall a, b :: 0 <= a < b < |ix| ==> ix[a] < ix[b]
  }

  /** `Filter(s, p)` is exactly the selection of `s` at the positions where `p` holds:
      it keeps the original order, drops nothing that satisfies `p` and adds nothing else. */
  lemma {:induction false} FilterPositions<T>(s: seq<T>, p: T -> bool)
    ensures var r, ix := Filter(s, p), Positions(s, p);
      && |ix| == |r|
      && Ascending(ix)
      && (forall k :: 0 <= k < |ix| ==> ix[k] < |s| && r[k] == s[ix[k]] && p(s[ix[k]]))
      && (forall i :: 0 <= i < |s| && p(s[i]) ==> i in ix)
  {
    if s != [] {
      var init := s[..|s| - 1];
      FilterPositions(init, p);
      var r0, ix0 := Filter(init, p), Positions(init, p);
      var r, ix := Filter(s, p), Positions(s, p);
      assert forall k :: 0 <= k < |ix0| ==> ix0[k] < |init|;
      forall i | 0 <= i < |s| && p(s[i])
        ensures i in ix
      {
        if i < |s| - 1 {
          assert init[i] == s[i];
          assert i in ix0;
        }
      }
    }
  }

  /** Filtering keeps everything exactly when every element satisfies the predicate. */
  lemma {:induction false} FilterKeepsAll<T>(s: seq<T>, p: T -> bool)
    ensures |Filter(s, p)| == |s| <==> forall x :: x in s ==> p(x)
  {
    if s != [] {
      var init := s[..|s| - 1];
      FilterKeepsAll(init, p);
      assert s == init + [s[|s| - 1]];
      if |Filter(s, p)| == |s| {
        assert |Filter(init, p)| == |init| && p(s[|s| - 1]);
        forall x | x in s ensures p(x) {
          if x != s[|s| - 1] {
            assert x in init;
          }
        }
      }
    }
  }

  /** Filtering a concatenation filters each part. */
  lemma {:induction false} FilterAppend<T>(a: seq<T>, b: seq<T>, p: T -> bool)
    ensures Filter(a + b, p) == Filter(a, p) + Filter(b, p)
    decreases |b|
  {
    if b != [] {
      var b0 := b[..|b| - 1];
      assert (a + b)[..|a + b| - 1] == a + b0;
      FilterAppend(a, b0, p);
    } else {
      assert a + b == a;
    }
  }

  /** Filtering leaves nothing exactly when no element satisfies the predicate. */
  lemma FilterEmpty<T>(s: seq<T>, p: T -> bool)
    ensures Filter(s, p) == [] <==> forall x :: x in s ==> !p(x)
  {
    FilterPositions(s, p);
    if exists x :: x in s && p(x) {
      var x :| x in s && p(x);
      var i :| 0 <= i < |s| && s[i] == x;
      assert i in Positions(s, p);
    }
  }

  function Sum(s: seq<nat>): nat
  {
    if s == [] then 0 else Sum(s[..|s| - 1]) + s[|s| - 1]
  }

}
