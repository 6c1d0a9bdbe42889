/**
 * Facts about sequences that the proofs of the other modules use: how
 * concatenation regroups, and how a prefix or an index of a concatenation
 * relates to its parts. They hold for any element type, which keeps the
 * proofs that use them from reasoning about the elements.
 */
module Seqs {
  lemma Regroup<T>(xs: seq<T>, ys: seq<T>, zs: seq<T>)
    ensures xs + (ys + zs) == (xs + ys) + zs
  {
  }

  lemma EmptyLeft<T>(xs: seq<T>)
    ensures [] + xs == xs
  {
  }

  lemma SplitLast<T>(a: seq<T>, b: seq<T>)
    requires b != []
    ensures (a + b)[..|a + b| - 1] == a + b[..|b| - 1] && (a + b)[|a + b| - 1] == b[|b| - 1]
  {
  }

  lemma SplitAround<T>(xs: seq<T>, i: nat)
    requires i < |xs|
    ensures xs == (xs[..i] + [xs[i]]) + xs[i + 1..]
  {
  }

  lemma PrefixNext<T>(xs: seq<T>, i: nat)
    requires i < |xs|
    ensures xs[..i + 1][..i] == xs[..i] && xs[..i + 1][i] == xs[i] && xs[..i + 1] == xs[..i] + [xs[i]]
  {
  }

  /** A sequence that starts with `path + [x]` starts with `path`, then `x`. */
  lemma PrefixShape<T>(p: seq<T>, path: seq<T>, x: T)
    requires |p| > |path| + 1 && p[..|path| + 1] == path + [x]
    ensures p[..|path|] == path && p[|path|] == x && p[|path|..] == [x] + p[|path| + 1..]
  {
    assert p[..|path|] == p[..|path| + 1][..|path|];
  }

  /** Something is in a non-empty sequence when it is in all but the last element, or is the last. */
  lemma InLast<T>(xs: seq<T>, y: T)
    requires xs != []
    ensures y in xs <==> y in xs[..|xs| - 1] || y == xs[|xs| - 1]
  {
    assert xs == xs[..|xs| - 1] + [xs[|xs| - 1]];
  }

  /** What follows position `c` of a sequence, when `c` is not its last position. */
  lemma AfterLast<T>(xs: seq<T>, c: nat)
    requires c < |xs| - 1
    ensures xs[c + 1..] == xs[..|xs| - 1][c + 1..] + [xs[|xs| - 1]]
  {
  }

  /** Whether some element satisfies `p`, looking from the end. */
  predicate Any<T>(xs: seq<T>, p: T -> bool)
    decreases |xs|
  {
    xs != [] && (Any(xs[..|xs| - 1], p) || p(xs[|xs| - 1]))
  }

  lemma {:induction false} AnyIff<T>(xs: seq<T>, p: T -> bool)
    ensures Any(xs, p) <==> exists i :: 0 <= i < |xs| && p(xs[i])
    decreases |xs|
  {
    if xs != [] {
      var init := xs[..|xs| - 1];
      AnyIff(init, p);
      if Any(init, p) {
        var i :| 0 <= i < |init| && p(init[i]);
        assert xs[i] == init[i];
      }
      if exists i :: 0 <= i < |xs| && p(xs[i]) {
        var i :| 0 <= i < |xs| && p(xs[i]);
        if i < |init| {
          assert init[i] == xs[i];
        }
      }
    }
  }

  lemma IndexAppend<T>(xs: seq<T>, y: T, i: nat)
    requires i <= |xs|
    ensures (xs + [y])[i] == if i < |xs| then xs[i] else y
  {
  }

  lemma AppendNext<T>(a: seq<T>, b: seq<T>, k: nat)
    requires k < |b|
    ensures a + b[..k + 1] == (a + b[..k]) + [b[k]]
  {
    PrefixNext(b, k);
  }

  lemma AppendOne<T>(a: seq<T>, b: seq<T>, x: T)
    ensures a + (b + [x]) == (a + b) + [x]
  {
  }
}
