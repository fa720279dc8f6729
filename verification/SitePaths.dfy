/**
 Paths as sequences of components, lexical resolution of relative references, and relative paths.

 Resolution drops empty and `.` components and lets `..` remove one component, stopping at the root;
 without symbolic links this is both file-system resolution and the reference resolution of sections
 5.2.3 and 5.2.4 of RFC 3986.
 */
module SitePaths {

  type Path = seq<string>

  predicate Plain(seg: string) {
    seg != "" && seg != "." && seg != ".."
  }

  predicate Normal(p: Path) {
    forall i :: 0 <= i < |p| ==> Plain(p[i])
  }

  function Push(base: Path, seg: string): Path {
    if seg == "" || seg == "." then base
    else if seg == ".." then if base == [] then [] else base[..|base| - 1]
    else base + [seg]
  }

  function Resolve(base: Path, segs: seq<string>): Path
    decreases |segs|
  {
    if segs == [] then base else Resolve(Push(base, segs[0]), segs[1..])
  }

  function Parent(p: Path): Path {
    if p == [] then [] else p[..|p| - 1]
  }

  function CommonPrefix(a: Path, b: Path): (n: nat)
    ensures n <= |a| && n <= |b| && a[..n] == b[..n]
    ensures n < |a| && n < |b| ==> a[n] != b[n]
  {
    if a == [] || b == [] || a[0] != b[0] then 0
    else
      var n := 1 + CommonPrefix(a[1..], b[1..]);
      assert a[..n] == [a[0]] + a[1..][..n - 1] && b[..n] == [b[0]] + b[1..][..n - 1];
      n
  }

  function Ups(n: nat): seq<string> {
    seq(n, _ => "..")
  }

  /** Climbs from the directory `start` to its first `n` components and descends to `target`. */
  function Climb(target: Path, start: Path, n: nat): (r: seq<string>)
    requires n <= |target| && n <= |start|
    ensures |r| > 0
  {
    var r := Ups(|start| - n) + target[n..];
    if r == [] then ["."] else r
  }

  /** The shortest way from the directory `start` to `target`. */
  function Relpath(target: Path, start: Path): (r: seq<string>)
    ensures |r| > 0
  {
    Climb(target, start, CommonPrefix(target, start))
  }

  /** `posixpath.relpath`, which first makes both paths absolute below the working directory. */
  function RelpathFrom(cwd: Path, target: Path, start: Path): seq<string> {
    Relpath(Resolve([], cwd + target), Resolve([], cwd + start))
  }

  // ---------- resolution ----------

  lemma {:induction false} ResolveConcat(base: Path, a: seq<string>, b: seq<string>)
    ensures Resolve(base, a + b) == Resolve(Resolve(base, a), b)
    decreases |a|
  {
    if a == [] {
      assert a + b == b;
    } else {
      assert (a + b)[1..] == a[1..] + b;
      ResolveConcat(Push(base, a[0]), a[1..], b);
    }
  }

  lemma {:induction false} ResolvePlain(base: Path, p: Path)
    requires Normal(p)
    ensures Resolve(base, p) == base + p
    decreases |p|
  {
    if p != [] {
      ResolvePlain(base + [p[0]], p[1..]);
      assert base + [p[0]] + p[1..] == base + p;
    }
  }

  lemma {:induction false} ResolveUps(base: Path, n: nat)
    requires n <= |base|
    ensures Resolve(base, Ups(n)) == base[..|base| - n]
  {
    if n > 0 {
      assert Ups(n)[1..] == Ups(n - 1);
      ResolveUps(base[..|base| - 1], n - 1);
    }
  }

  lemma {:induction false} ResolveIsNormal(base: Path, segs: seq<string>)
    requires Normal(base)
    ensures Normal(Resolve(base, segs))
    decreases |segs|
  {
    if segs != [] {
      ResolveIsNormal(Push(base, segs[0]), segs[1..]);
    }
  }

  lemma ClimbLeadsToTarget(base: Path, target: Path, start: Path, n: nat)
    requires n <= |target| && n <= |start| && target[..n] == start[..n] && Normal(target)
    ensures Resolve(base + start, Climb(target, start, n)) == base + target
  {
    var ups, rest := Ups(|start| - n), target[n..];
    assert base + target == base + start[..n] + rest by {
      assert target == target[..n] + rest;
    }
    if ups + rest == [] {
      StayHere(base + start);
    } else {
      ResolveConcat(base + start, ups, rest);
      ResolveUps(base + start, |start| - n);
      assert (base + start)[..|base| + n] == base + start[..n];
      ResolvePlain(base + start[..n], rest);
    }
  }

  /** Following the relative path leads to the target, below any common base. */
  lemma RelpathLeadsToTarget(base: Path, target: Path, start: Path)
    requires Normal(target)
    ensures Resolve(base + start, Relpath(target, start)) == base + target
  {
    ClimbLeadsToTarget(base, target, start, CommonPrefix(target, start));
  }

  lemma StayHere(base: Path)
    ensures Resolve(base, ["."]) == base == Resolve(base, [])
  {
  }

  lemma {:induction false} CommonPrefixBelow(base: Path, a: Path, b: Path)
    ensures CommonPrefix(base + a, base + b) == |base| + CommonPrefix(a, b)
  {
    if base == [] {
      assert base + a == a && base + b == b;
    } else {
      CommonPrefixBelow(base[1..], a, b);
      assert (base + a)[1..] == base[1..] + a && (base + b)[1..] == base[1..] + b;
    }
  }

  lemma ClimbBelow(base: Path, target: Path, start: Path, n: nat)
    requires n <= |target| && n <= |start|
    ensures Climb(base + target, base + start, |base| + n) == Climb(target, start, n)
  {
  }

  lemma RelpathBelow(base: Path, target: Path, start: Path)
    ensures Relpath(base + target, base + start) == Relpath(target, start)
  {
    CommonPrefixBelow(base, target, start);
    ClimbBelow(base, target, start, CommonPrefix(target, start));
  }

  /** For normal routes the working directory plays no part. */
  lemma RelpathIgnoresCwd(cwd: Path, target: Path, start: Path)
    requires Normal(cwd) && Normal(target) && Normal(start)
    ensures RelpathFrom(cwd, target, start) == Relpath(target, start)
  {
    CleanIsIdentity(cwd + target);
    CleanIsIdentity(cwd + start);
    RelpathBelow(cwd, target, start);
  }

  lemma CleanIsIdentity(p: Path)
    requires Normal(p)
    ensures Resolve([], p) == p
  {
    ResolvePlain([], p);
    assert [] + p == p;
  }

  // ---------- no shorter way up ----------

  function UpCount(segs: seq<string>): nat {
    if segs == [] then 0 else (if segs[0] == ".." then 1 else 0) + UpCount(segs[1..])
  }

  lemma {:induction false} ResolveKeepsAncestors(base: Path, segs: seq<string>)
    ensures var m := |base| - UpCount(segs); m > 0 ==> base[..m] <= Resolve(base, segs)
    decreases |segs|
  {
    if segs != [] {
      ResolveKeepsAncestors(Push(base, segs[0]), segs[1..]);
      var m := |base| - UpCount(segs);
      if m > 0 {
        var next := Push(base, segs[0]);
        assert base[..m] == next[..m];
        var m' := |next| - UpCount(segs[1..]);
        assert m <= m';
        assert next[..m] <= next[..m'];
      }
    }
  }

  lemma {:induction false} UpCountOfRelpath(n: nat, p: Path)
    requires Normal(p)
    ensures UpCount(Ups(n) + p) == n
  {
    if n > 0 {
      assert (Ups(n) + p)[1..] == Ups(n - 1) + p;
      UpCountOfRelpath(n - 1, p);
    } else {
      assert Ups(0) + p == p;
      PlainHasNoUps(p);
    }
  }

  lemma {:induction false} PlainHasNoUps(p: Path)
    requires Normal(p)
    ensures UpCount(p) == 0
  {
    if p != [] {
      PlainHasNoUps(p[1..]);
    }
  }

  /** No reference that leads to the target climbs less than the relative path does. */
  lemma RelpathClimbsLeast(target: Path, start: Path, segs: seq<string>)
    requires Normal(target) && Resolve(start, segs) == target
    ensures UpCount(Relpath(target, start)) <= UpCount(segs)
  {
    var n := CommonPrefix(target, start);
    UpCountOfRelpath(|start| - n, target[n..]);
    assert UpCount(["."]) == 0 by { assert ["."][1..] == []; }
    ResolveKeepsAncestors(start, segs);
  }

  // ---------- no shorter way ----------

  /** Steps between two directories: up to their last common one, and down again. */
  function Distance(a: Path, b: Path): nat {
    |a| + |b| - 2 * CommonPrefix(a, b)
  }

  lemma CommonPrefixAtLeast(a: Path, b: Path, n: nat)
    requires n <= |a| && n <= |b| && a[..n] == b[..n]
    ensures CommonPrefix(a, b) >= n
  {
    assert forall k :: 0 <= k < n ==> a[k] == a[..n][k] && b[k] == b[..n][k];
  }

  lemma PushChangesLittle(base: Path, seg: string, target: Path)
    ensures Distance(base, target) <= Distance(Push(base, seg), target) + 1
  {
    var next := Push(base, seg);
    var n := CommonPrefix(next, target);
    if |next| < |base| {
      assert base[..n] == next[..n] == target[..n];
      CommonPrefixAtLeast(base, target, n);
    } else if |next| > |base| {
      var m := if n <= |base| then n else |base|;
      assert base[..m] == next[..m] == target[..n][..m] == target[..m];
      CommonPrefixAtLeast(base, target, m);
    }
  }

  lemma {:induction false} NoShorterWay(start: Path, segs: seq<string>)
    ensures Distance(start, Resolve(start, segs)) <= |segs|
    decreases |segs|
  {
    if segs == [] {
      CommonPrefixAtLeast(start, start, |start|);
    } else {
      NoShorterWay(Push(start, segs[0]), segs[1..]);
      PushChangesLittle(start, segs[0], Resolve(start, segs));
    }
  }

  /** The relative path is a shortest one; only the directory itself needs a dot where no step would do. */
  lemma RelpathIsShortest(target: Path, start: Path, segs: seq<string>)
    requires Resolve(start, segs) == target && segs != []
    ensures |Relpath(target, start)| <= |segs|
  {
    NoShorterWay(start, segs);
    CommonPrefixCommutes(start, target);
  }

  lemma {:induction false} CommonPrefixCommutes(a: Path, b: Path)
    ensures CommonPrefix(a, b) == CommonPrefix(b, a)
  {
    if a != [] && b != [] && a[0] == b[0] {
      CommonPrefixCommutes(a[1..], b[1..]);
    }
  }
}
