/** Positions of a sequence, in ascending order: which of its elements a filter takes. */
module Positions {
  /** Ascending positions below `n`. */
  ghost predicate Ascending(ks: seq<nat>, n: nat) {
    && (forall i | 0 <= i < |ks| :: ks[i] < n)
    && (forall i, j | 0 <= i < j < |ks| :: ks[i] < ks[j])
  }

  lemma AscendingMore(ks: seq<nat>, n: nat)
    requires Ascending(ks, n)
    ensures Ascending(ks, n + 1) && Ascending(ks + [n], n + 1) && n !in ks
    ensures forall k: nat :: k in ks + [n] <==> k in ks || k == n
  {
  }

  /** `r` is `xs` taken at the positions `ks`. */
  ghost predicate TakenAt<T>(xs: seq<T>, ks: seq<nat>, r: seq<T>) {
    |ks| == |r| && Ascending(ks, |xs|) && forall i | 0 <= i < |ks| :: r[i] == xs[ks[i]]
  }

  lemma TakenMore<T>(xs: seq<T>, ks: seq<nat>, r: seq<T>)
    requires xs != [] && TakenAt(xs[..|xs| - 1], ks, r)
    ensures TakenAt(xs, ks, r) && TakenAt(xs, ks + [|xs| - 1], r + [xs[|xs| - 1]]) && |xs| - 1 !in ks
  {
    AscendingMore(ks, |xs| - 1);
  }

  lemma TakenNext<T>(xs: seq<T>, n: nat, ks: seq<nat>, r: seq<T>)
    requires n < |xs| && TakenAt(xs[..n], ks, r)
    ensures TakenAt(xs[..n + 1], ks, r) && TakenAt(xs[..n + 1], ks + [n], r + [xs[n]]) && n !in ks
  {
    hide TakenAt;
    assert xs[..n + 1][..n] == xs[..n];
    TakenMore(xs[..n + 1], ks, r);
  }
}
