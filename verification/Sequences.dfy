/** Facts about sequences as multisets, used where the order of a listing must not matter. */
module Sequences {

  lemma PermutedIndex<T>(xs: seq<T>, ys: seq<T>, i: nat) returns (j: nat)
    requires multiset(xs) == multiset(ys) && i < |xs|
    ensures j < |ys| && ys[j] == xs[i]
  {
    assert xs[i] in multiset(ys);
    j :| 0 <= j < |ys| && ys[j] == xs[i];
  }

  /** The sequence without its `i`-th element. */
  function Without<T>(xs: seq<T>, i: nat): (r: seq<T>)
    requires i < |xs|
    ensures |r| == |xs| - 1
  {
    xs[..i] + xs[i + 1..]
  }

  lemma WithoutMultiset<T>(xs: seq<T>, i: nat)
    requires i < |xs|
    ensures multiset(xs) == multiset(Without(xs, i)) + multiset{xs[i]}
  {
    assert xs == xs[..i] + [xs[i]] + xs[i + 1..];
  }

  lemma RepeatCounts<T>(xs: seq<T>, i: nat, j: nat)
    requires i < j < |xs| && xs[i] == xs[j]
    ensures multiset(xs)[xs[i]] >= 2
  {
    WithoutMultiset(xs, i);
    assert Without(xs, i)[j - 1] == xs[j];
    assert xs[j] in multiset(Without(xs, i));
  }

  lemma RepeatFound<T>(xs: seq<T>, x: T) returns (i: nat, j: nat)
    requires multiset(xs)[x] >= 2
    ensures i < j < |xs| && xs[i] == xs[j] == x
  {
    assert x in multiset(xs);
    var k :| 0 <= k < |xs| && xs[k] == x;
    WithoutMultiset(xs, k);
    assert x in multiset(Without(xs, k));
    var m :| 0 <= m < |xs| - 1 && Without(xs, k)[m] == x;
    i, j := if m < k then m else k, if m < k then k else m + 1;
  }

  /** The concatenation of what each element contributes. */
  function Gather<S, T>(f: S -> seq<T>, xs: seq<S>): seq<T> {
    if xs == [] then [] else Gather(f, xs[..|xs| - 1]) + f(xs[|xs| - 1])
  }

  lemma {:induction false} GatherTakesOut<S, T>(f: S -> seq<T>, xs: seq<S>, i: nat)
    requires i < |xs|
    ensures multiset(Gather(f, xs)) == multiset(Gather(f, Without(xs, i))) + multiset(f(xs[i]))
  {
    var m := |xs| - 1;
    var ys := Without(xs, i);
    if i == m {
      assert ys == xs[..m];
    } else {
      GatherTakesOut(f, xs[..m], i);
      assert ys[..m - 1] == Without(xs[..m], i) && ys[m - 1] == xs[m];
      assert Gather(f, xs) == Gather(f, xs[..m]) + f(xs[m]) && Gather(f, ys) == Gather(f, ys[..m - 1]) + f(xs[m]);
      hide Gather;
      TakenOutBefore(Gather(f, xs[..m]), Gather(f, ys[..m - 1]), f(xs[i]), f(xs[m]));
    }
  }

  lemma TakenOutBefore<T>(whole: seq<T>, rest: seq<T>, out: seq<T>, last: seq<T>)
    requires multiset(whole) == multiset(rest) + multiset(out)
    ensures multiset(whole + last) == multiset(rest + last) + multiset(out)
  {
  }

  lemma {:induction false} GatherOfPermutation<S, T>(f: S -> seq<T>, xs: seq<S>, ys: seq<S>)
    requires multiset(xs) == multiset(ys)
    ensures multiset(Gather(f, xs)) == multiset(Gather(f, ys))
  {
    if xs == [] {
      assert |ys| == |multiset(ys)| == 0;
    } else {
      var j := PermutedIndex(xs, ys, 0);
      GatherTakesOut(f, xs, 0);
      GatherTakesOut(f, ys, j);
      WithoutMultiset(xs, 0);
      WithoutMultiset(ys, j);
      assert multiset(Without(xs, 0)) == multiset(xs) - multiset{xs[0]} == multiset(Without(ys, j));
      GatherOfPermutation(f, Without(xs, 0), Without(ys, j));
    }
  }

  lemma {:induction false} GatherPointwise<S, T>(f: S -> seq<T>, g: S -> seq<T>, xs: seq<S>)
    requires forall i :: 0 <= i < |xs| ==> f(xs[i]) == g(xs[i])
    ensures Gather(f, xs) == Gather(g, xs)
  {
    if xs != [] {
      GatherPointwise(f, g, xs[..|xs| - 1]);
    }
  }

  lemma {:induction false} GatherMember<S, T>(f: S -> seq<T>, xs: seq<S>, y: T)
    ensures y in Gather(f, xs) <==> exists i :: 0 <= i < |xs| && y in f(xs[i])
  {
    if xs != [] {
      var m := |xs| - 1;
      GatherMember(f, xs[..m], y);
      if i :| 0 <= i < |xs| && y in f(xs[i]) {
        if i < m {
          assert y in f(xs[..m][i]);
        }
      }
      if y in Gather(f, xs) && y !in f(xs[m]) {
        var i :| 0 <= i < m && y in f(xs[..m][i]);
        assert y in f(xs[i]);
      }
    }
  }
}
