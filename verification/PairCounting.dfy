/** Counting the unordered pairs of a sequence that satisfy a relation. */
module PairCounting {
  import opened Sequences

  /** Elements of `ys` related to `x`. */
  function RowCount<T>(f: (T, T) -> bool, x: T, ys: seq<T>): nat {
    if ys == [] then 0 else (if f(x, ys[0]) then 1 else 0) + RowCount(f, x, ys[1..])
  }

  /** Pairs `i < j` with `f(xs[i], xs[j])`. */
  function PairCount<T>(f: (T, T) -> bool, xs: seq<T>): nat {
    if xs == [] then 0 else RowCount(f, xs[0], xs[1..]) + PairCount(f, xs[1..])
  }

  ghost function PairsFrom<T>(f: (T, T) -> bool, xs: seq<T>, i: nat): set<(int, int)> {
    set a, b | i <= a < |xs| && a < b < |xs| && f(xs[a], xs[b]) :: (a, b)
  }

  ghost function RowFrom<T>(f: (T, T) -> bool, xs: seq<T>, i: nat, j: nat): set<(int, int)>
    requires i < |xs|
  {
    set b | j <= b < |xs| && f(xs[i], xs[b]) :: (i as int, b)
  }

  lemma {:induction false} RowCountIsCardinality<T>(f: (T, T) -> bool, xs: seq<T>, i: nat, j: nat)
    requires i < j <= |xs|
    ensures RowCount(f, xs[i], xs[j..]) == |RowFrom(f, xs, i, j)|
    decreases |xs| - j
  {
    var here := RowFrom(f, xs, i, j);
    if j == |xs| {
      assert here == {};
    } else {
      RowCountIsCardinality(f, xs, i, j + 1);
      var rest := RowFrom(f, xs, i, j + 1);
      assert xs[j..][1..] == xs[j + 1..];
      assert here == if f(xs[i], xs[j]) then rest + {(i as int, j as int)} else rest;
    }
  }

  /** The recursive count is the number of index pairs. */
  lemma {:induction false} PairCountIsCardinality<T>(f: (T, T) -> bool, xs: seq<T>, i: nat)
    requires i <= |xs|
    ensures PairCount(f, xs[i..]) == |PairsFrom(f, xs, i)|
    decreases |xs| - i
  {
    var here := PairsFrom(f, xs, i);
    if i == |xs| {
      assert here == {};
    } else {
      PairCountIsCardinality(f, xs, i + 1);
      RowCountIsCardinality(f, xs, i, i + 1);
      var row, rest := RowFrom(f, xs, i, i + 1), PairsFrom(f, xs, i + 1);
      assert xs[i..][1..] == xs[i + 1..];
      assert here == row + rest && row !! rest;
    }
  }

  ghost predicate Symmetric<T(!new)>(f: (T, T) -> bool) {
    forall a, b :: f(a, b) == f(b, a)
  }

  lemma {:induction false} RowCountTakesOut<T>(f: (T, T) -> bool, x: T, ys: seq<T>, i: nat)
    requires i < |ys|
    ensures RowCount(f, x, ys) == (if f(x, ys[i]) then 1 else 0) + RowCount(f, x, Without(ys, i))
  {
    if i == 0 {
      assert Without(ys, 0) == ys[1..];
    } else {
      RowCountTakesOut(f, x, ys[1..], i - 1);
      assert Without(ys, i)[1..] == Without(ys[1..], i - 1);
    }
  }

  lemma {:induction false} PairCountTakesOut<T(!new)>(f: (T, T) -> bool, xs: seq<T>, i: nat)
    requires Symmetric(f) && i < |xs|
    ensures PairCount(f, xs) == RowCount(f, xs[i], Without(xs, i)) + PairCount(f, Without(xs, i))
  {
    if i == 0 {
      assert Without(xs, 0) == xs[1..];
    } else {
      PairCountTakesOut(f, xs[1..], i - 1);
      RowCountTakesOut(f, xs[0], xs[1..], i - 1);
      assert Without(xs, i)[1..] == Without(xs[1..], i - 1);
    }
  }

  lemma {:induction false} RowCountOfPermutation<T>(f: (T, T) -> bool, x: T, ys: seq<T>, zs: seq<T>)
    requires multiset(ys) == multiset(zs)
    ensures RowCount(f, x, ys) == RowCount(f, x, zs)
  {
    if ys == [] {
      assert |zs| == |multiset(zs)| == 0;
    } else {
      var j := PermutedIndex(ys, zs, 0);
      RowCountTakesOut(f, x, zs, j);
      WithoutMultiset(zs, j);
      WithoutMultiset(ys, 0);
      assert Without(ys, 0) == ys[1..];
      assert multiset(ys[1..]) == multiset(ys) - multiset{ys[0]} == multiset(Without(zs, j));
      RowCountOfPermutation(f, x, ys[1..], Without(zs, j));
    }
  }

  /** A symmetric relation holds of as many pairs in any order of the elements. */
  lemma {:induction false} PairCountOfPermutation<T(!new)>(f: (T, T) -> bool, xs: seq<T>, zs: seq<T>)
    requires Symmetric(f) && multiset(xs) == multiset(zs)
    ensures PairCount(f, xs) == PairCount(f, zs)
  {
    if xs == [] {
      assert |zs| == |multiset(zs)| == 0;
    } else {
      var j := PermutedIndex(xs, zs, 0);
      PairCountTakesOut(f, zs, j);
      WithoutMultiset(zs, j);
      WithoutMultiset(xs, 0);
      assert Without(xs, 0) == xs[1..];
      assert multiset(xs[1..]) == multiset(xs) - multiset{xs[0]} == multiset(Without(zs, j));
      RowCountOfPermutation(f, xs[0], xs[1..], Without(zs, j));
      PairCountOfPermutation(f, xs[1..], Without(zs, j));
    }
  }

  /** Related pairs at the same positions give the same count, whatever the elements are. */
  lemma {:induction false} PairCountPointwise<S, T>(f: (S, S) -> bool, xs: seq<S>, g: (T, T) -> bool, ys: seq<T>)
    requires |xs| == |ys|
    requires forall i, j :: 0 <= i < j < |xs| ==> f(xs[i], xs[j]) == g(ys[i], ys[j])
    ensures PairCount(f, xs) == PairCount(g, ys)
  {
    if xs != [] {
      RowCountPointwise(f, xs[0], xs[1..], g, ys[0], ys[1..]);
      PairCountPointwise(f, xs[1..], g, ys[1..]);
    }
  }

  lemma {:induction false} RowCountPointwise<S, T>(f: (S, S) -> bool, x: S, xs: seq<S>, g: (T, T) -> bool, y: T, ys: seq<T>)
    requires |xs| == |ys|
    requires forall j :: 0 <= j < |xs| ==> f(x, xs[j]) == g(y, ys[j])
    ensures RowCount(f, x, xs) == RowCount(g, y, ys)
  {
    if xs != [] {
      RowCountPointwise(f, x, xs[1..], g, y, ys[1..]);
    }
  }

  lemma {:induction false} NoPairs<T>(f: (T, T) -> bool, xs: seq<T>)
    ensures PairCount(f, xs) == 0 <==> forall i, j :: 0 <= i < j < |xs| ==> !f(xs[i], xs[j])
  {
    assert xs[0..] == xs;
    PairCountIsCardinality(f, xs, 0);
    if i, j :| 0 <= i < j < |xs| && f(xs[i], xs[j]) {
      assert (i, j) in PairsFrom(f, xs, 0);
    }
    if PairCount(f, xs) != 0 {
      var p :| p in PairsFrom(f, xs, 0);
      assert f(xs[p.0], xs[p.1]);
    }
  }
}
