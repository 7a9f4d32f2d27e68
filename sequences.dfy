/** Order-preserving filtering of a call log. */
module Sequences {
  /** The elements of `xs` that satisfy `p`, in order. */
  function Only<T>(xs: seq<T>, p: T -> bool): (r: seq<T>)
    ensures |r| <= |xs|
    ensures forall i :: 0 <= i < |r| ==> p(r[i])
  {
    if xs == [] then [] else (if p(xs[0]) then [xs[0]] else []) + Only(xs[1..], p)
  }

  /** Filtering distributes over concatenation. */
  lemma {:induction false} OnlyAppend<T>(a: seq<T>, b: seq<T>, p: T -> bool)
    ensures Only(a + b, p) == Only(a, p) + Only(b, p)
  {
    if a == [] {
      assert a + b == b;
    } else {
      assert (a + b)[1..] == a[1..] + b;
      OnlyAppend(a[1..], b, p);
    }
  }

  lemma OnlyTwo<T>(a: T, b: T, p: T -> bool)
    ensures Only([a, b], p) == (if p(a) then [a] else []) + (if p(b) then [b] else [])
  {
    assert [a, b] == [a] + [b];
    OnlyAppend([a], [b], p);
    assert [a][1..] == [] && [b][1..] == [];
  }

  lemma OnlyThree<T>(a: T, b: T, c: T, p: T -> bool)
    ensures Only([a, b, c], p) == (if p(a) then [a] else []) + (if p(b) then [b] else []) + (if p(c) then [c] else [])
  {
    assert [a, b, c] == [a, b] + [c];
    OnlyAppend([a, b], [c], p);
    OnlyTwo(a, b, p);
    assert [c][1..] == [];
  }

  /** Filtering a log framed by an element that fails `p` in front and a tail behind. */
  lemma OnlyAround<T>(a: T, xs: seq<T>, tail: seq<T>, p: T -> bool)
    requires !p(a)
    ensures Only([a] + xs + tail, p) == Only(xs, p) + Only(tail, p)
  {
    assert [a][1..] == [];
    assert Only([a], p) == [];
    OnlyAppend([a], xs, p);
    assert Only([a] + xs, p) == Only(xs, p);
    OnlyAppend([a] + xs, tail, p);
  }

  /** Dropping the last element keeps every shorter prefix and every earlier element. */
  lemma PrefixOfInit<T>(xs: seq<T>, k: nat)
    requires k + 1 < |xs|
    ensures xs[..|xs| - 1][..k] == xs[..k] && xs[..|xs| - 1][..k + 1] == xs[..k + 1]
    ensures xs[..|xs| - 1][k] == xs[k]
  {
  }
}
