/** The optional value used for Python's `None`-or-value results. */
module Optional {

  datatype Option<+T> = None | Some(value: T)

  /** The values of the `Some` entries, in order. */
  function Values<T>(xs: seq<Option<T>>): (r: seq<T>)
    ensures |r| <= |xs|
    decreases |xs|
  {
    if xs == [] then []
    else
      var n := |xs| - 1;
      match xs[n]
      case None => Values(xs[..n])
      case Some(v) => Values(xs[..n]) + [v]
  }

  /** Filtering is order-preserving: the values of two runs are concatenated. */
  lemma {:induction false} ValuesAppend<T>(a: seq<Option<T>>, b: seq<Option<T>>)
    ensures Values(a + b) == Values(a) + Values(b)
    decreases |b|
  {
    if b == [] {
      assert a + b == a;
    } else {
      var n := |b| - 1;
      var ab := a + b;
      assert ab[..|ab| - 1] == a + b[..n];
      assert ab[|ab| - 1] == b[n];
      ValuesAppend(a, b[..n]);
    }
  }

  /** A single entry contributes its value if it has one and nothing otherwise. */
  lemma ValuesSingle<T>(x: Option<T>)
    ensures Values([x]) == if x.Some? then [x.value] else []
  {
    assert [x][..0] == [];
  }

  /** Every value kept comes from some position of the input. */
  lemma {:induction false} ValuesFrom<T>(xs: seq<Option<T>>, v: T) returns (i: nat)
    requires v in Values(xs)
    ensures i < |xs| && xs[i] == Some(v)
    decreases |xs|
  {
    var n := |xs| - 1;
    if xs[n].Some? && v == xs[n].value {
      i := n;
    } else {
      i := ValuesFrom(xs[..n], v);
    }
  }
}
