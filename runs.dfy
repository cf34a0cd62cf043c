/** Concatenation of consecutive runs, as one list built from per-item parts. */
module Runs {

  /** The runs, one after another. */
  function Flatten<T>(runs: seq<seq<T>>): seq<T>
    decreases |runs|
  {
    if runs == [] then [] else Flatten(runs[..|runs| - 1]) + runs[|runs| - 1]
  }

  /** Flattening is blockwise: two consecutive groups of runs flatten to consecutive lists. */
  lemma {:induction false} FlattenAppend<T>(a: seq<seq<T>>, b: seq<seq<T>>)
    ensures Flatten(a + b) == Flatten(a) + Flatten(b)
    decreases |b|
  {
    if b == [] {
      assert a + b == a;
    } else {
      var n := |b| - 1;
      var ab := a + b;
      assert ab[..|ab| - 1] == a + b[..n];
      assert ab[|ab| - 1] == b[n];
      FlattenAppend(a, b[..n]);
    }
  }

  /** A run sits between the runs before it and the runs after it. */
  lemma FlattenAt<T>(runs: seq<seq<T>>, i: nat)
    requires i < |runs|
    ensures Flatten(runs) == Flatten(runs[..i]) + runs[i] + Flatten(runs[i + 1..])
  {
    var head := runs[..i + 1];
    var tail := runs[i + 1..];
    assert head + tail == runs;
    assert head[..|head| - 1] == runs[..i];
    assert head[|head| - 1] == runs[i];
    calc {
      Flatten(runs);
      Flatten(head + tail);
      { FlattenAppend(head, tail); }
      Flatten(head) + Flatten(tail);
      Flatten(runs[..i]) + runs[i] + Flatten(tail);
    }
  }

  /** Runs of at most `k` items flatten to at most `k` items per run. */
  lemma {:induction false} FlattenBound<T>(runs: seq<seq<T>>, k: nat)
    requires forall i :: 0 <= i < |runs| ==> |runs[i]| <= k
    ensures |Flatten(runs)| <= k * |runs|
    decreases |runs|
  {
    if runs != [] {
      FlattenBound(runs[..|runs| - 1], k);
    }
  }

  /** The flattening is empty exactly when every run is. */
  lemma {:induction false} FlattenEmpty<T>(runs: seq<seq<T>>)
    ensures Flatten(runs) == [] <==> forall i :: 0 <= i < |runs| ==> runs[i] == []
    decreases |runs|
  {
    if runs != [] {
      FlattenEmpty(runs[..|runs| - 1]);
    }
  }

  /** `f` applied to each item together with its position, positions counted from `from`. */
  function MapFrom<A, B>(xs: seq<A>, from: nat, f: (A, nat) -> B): (r: seq<B>)
    ensures |r| == |xs|
  {
    if xs == [] then [] else MapFrom(xs[..|xs| - 1], from, f) + [f(xs[|xs| - 1], from + |xs| - 1)]
  }

  /** The `i`-th result is `f` of the `i`-th item at position `from + i`. */
  lemma {:induction false} MapFromAt<A, B>(xs: seq<A>, from: nat, f: (A, nat) -> B, i: nat)
    requires i < |xs|
    ensures MapFrom(xs, from, f)[i] == f(xs[i], from + i)
  {
    var n := |xs| - 1;
    if i < n {
      MapFromAt(xs[..n], from, f, i);
    }
  }

  /** One more item at the end adds its own result at the end, at the next position. */
  lemma MapFromSnoc<A, B>(xs: seq<A>, x: A, from: nat, f: (A, nat) -> B)
    ensures MapFrom(xs + [x], from, f) == MapFrom(xs, from, f) + [f(x, from + |xs|)]
  {
    assert (xs + [x])[..|xs|] == xs;
  }

  /** `f` applied to each item. */
  function Map<A, B>(xs: seq<A>, f: A -> B): (r: seq<B>)
    ensures |r| == |xs|
  {
    if xs == [] then [] else Map(xs[..|xs| - 1], f) + [f(xs[|xs| - 1])]
  }

  /** The `i`-th result is `f` of the `i`-th item. */
  lemma {:induction false} MapAt<A, B>(xs: seq<A>, f: A -> B, i: nat)
    requires i < |xs|
    ensures Map(xs, f)[i] == f(xs[i])
  {
    var n := |xs| - 1;
    if i < n {
      MapAt(xs[..n], f, i);
    }
  }

  /** Mapping one more item of a prefix adds that item's result at the end. */
  lemma MapSnoc<A, B>(xs: seq<A>, i: nat, f: A -> B)
    requires i < |xs|
    ensures Map(xs[..i + 1], f) == Map(xs[..i], f) + [f(xs[i])]
  {
    assert xs[..i + 1][..i] == xs[..i];
  }

  /** Mapping is blockwise: two consecutive parts map to consecutive parts. */
  lemma {:induction false} MapAppend<A, B>(a: seq<A>, b: seq<A>, f: A -> B)
    ensures Map(a + b, f) == Map(a, f) + Map(b, f)
    decreases |b|
  {
    if b == [] {
      assert a + b == a;
    } else {
      var n := |b| - 1;
      var ab := a + b;
      assert ab[..|ab| - 1] == a + b[..n];
      assert ab[|ab| - 1] == b[n];
      MapAppend(a, b[..n], f);
    }
  }
}
