/** Left folds and flattening maps, with the one law about concatenation that each obeys. */
module Sequences {
  function Fold<S, T>(f: (S, T) -> S, s: S, xs: seq<T>): S
    decreases |xs|
  {
    if xs == [] then s else Fold(f, f(s, xs[0]), xs[1..])
  }

  lemma {:induction false} FoldConcat<S, T>(f: (S, T) -> S, s: S, a: seq<T>, b: seq<T>)
    ensures Fold(f, Fold(f, s, a), b) == Fold(f, s, a + b)
    decreases |a|
  {
    if a == [] {
      assert a + b == b;
    } else {
      FoldConcat(f, f(s, a[0]), a[1..], b);
      assert (a + b)[1..] == a[1..] + b;
    }
  }

  lemma FoldAppend<S, T>(f: (S, T) -> S, s: S, xs: seq<T>, x: T)
    ensures Fold(f, s, xs + [x]) == f(Fold(f, s, xs), x)
  {
    FoldConcat(f, s, xs, [x]);
  }

  function FlatMap<S, T>(f: S -> seq<T>, xs: seq<S>): seq<T>
    decreases |xs|
  {
    if xs == [] then [] else f(xs[0]) + FlatMap(f, xs[1..])
  }

  lemma {:induction false} FlatMapConcat<S, T>(f: S -> seq<T>, a: seq<S>, b: seq<S>)
    ensures FlatMap(f, a + b) == FlatMap(f, a) + FlatMap(f, b)
    decreases |a|
  {
    if a == [] {
      assert a + b == b;
    } else {
      FlatMapConcat(f, a[1..], b);
      assert (a + b)[1..] == a[1..] + b;
      assert (f(a[0]) + FlatMap(f, a[1..])) + FlatMap(f, b) == f(a[0]) + (FlatMap(f, a[1..]) + FlatMap(f, b));
    }
  }

  lemma FlatMapAppend<S, T>(f: S -> seq<T>, xs: seq<S>, x: S)
    ensures FlatMap(f, xs + [x]) == FlatMap(f, xs) + f(x)
  {
    FlatMapConcat(f, xs, [x]);
    assert [x][1..] == [];
    assert f(x) + [] == f(x);
  }

  /** The sum of a weight over a sequence. */
  function Sum<T>(xs: seq<T>, w: T -> int): int
    decreases |xs|
  {
    if xs == [] then 0 else w(xs[0]) + Sum(xs[1..], w)
  }

  lemma {:induction false} SumConcat<T>(a: seq<T>, b: seq<T>, w: T -> int)
    ensures Sum(a + b, w) == Sum(a, w) + Sum(b, w)
    decreases |a|
  {
    if a == [] {
      assert a + b == b;
    } else {
      SumConcat(a[1..], b, w);
      assert (a + b)[1..] == a[1..] + b;
    }
  }

  lemma SumAppend<T>(xs: seq<T>, x: T, w: T -> int)
    ensures Sum(xs + [x], w) == Sum(xs, w) + w(x)
  {
    SumConcat(xs, [x], w);
    assert [x][1..] == [];
  }

  lemma SumOne<T>(x: T, w: T -> int)
    ensures Sum([x], w) == w(x)
  {
    assert [x][1..] == [];
  }

  lemma {:induction false} SumUpdate<T>(xs: seq<T>, i: nat, x: T, w: T -> int)
    requires i < |xs|
    ensures Sum(xs[i := x], w) == Sum(xs, w) - w(xs[i]) + w(x)
    decreases |xs|
  {
    if i == 0 {
      assert xs[0 := x][1..] == xs[1..];
    } else {
      SumUpdate(xs[1..], i - 1, x, w);
      assert xs[i := x][1..] == xs[1..][i - 1 := x];
    }
  }

  lemma {:induction false} SumBound<T>(xs: seq<T>, w: T -> int, i: nat)
    requires i < |xs| && forall x | x in xs :: w(x) >= 0
    ensures 0 <= w(xs[i]) <= Sum(xs, w)
    decreases |xs|
  {
    if i == 0 {
      SumNonNegative(xs[1..], w);
    } else {
      SumBound(xs[1..], w, i - 1);
    }
  }

  lemma {:induction false} SumNonNegative<T>(xs: seq<T>, w: T -> int)
    requires forall x | x in xs :: w(x) >= 0
    ensures Sum(xs, w) >= 0
    decreases |xs|
  {
    if xs != [] {
      SumNonNegative(xs[1..], w);
    }
  }

  lemma {:induction false} SumConstant<T>(xs: seq<T>, w: T -> int, c: int)
    requires forall x | x in xs :: w(x) == c
    ensures Sum(xs, w) == c * |xs|
    decreases |xs|
  {
    if xs != [] {
      SumConstant(xs[1..], w, c);
    }
  }

  lemma {:induction false} SumSame<T>(xs: seq<T>, v: T -> int, w: T -> int)
    requires forall x | x in xs :: v(x) == w(x)
    ensures Sum(xs, v) == Sum(xs, w)
    decreases |xs|
  {
    if xs != [] {
      SumSame(xs[1..], v, w);
    }
  }
}
