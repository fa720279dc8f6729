/** Taking away what is not wanted at the two ends of a sequence. */
module Trimming {

  /** The sequence without the elements satisfying `f` at its two ends. */
  function TrimBy<T>(f: T -> bool, s: seq<T>): (r: seq<T>)
    ensures |r| <= |s|
  {
    if s == [] then []
    else if f(s[0]) then TrimBy(f, s[1..])
    else if f(s[|s| - 1]) then TrimBy(f, s[..|s| - 1])
    else s
  }

  lemma TrimByNothing<T>(f: T -> bool, s: seq<T>)
    requires s != [] ==> !f(s[0]) && !f(s[|s| - 1])
    ensures TrimBy(f, s) == s
  {
  }

  /** Trimming takes away such elements at both ends and nothing else: what is left is `s[a..b]`. */
  lemma {:induction false} TrimByMeans<T>(f: T -> bool, s: seq<T>) returns (a: nat, b: nat)
    ensures a <= b <= |s| && TrimBy(f, s) == s[a..b]
    ensures forall i :: 0 <= i < a || b <= i < |s| ==> f(s[i])
    ensures a < b ==> !f(s[a]) && !f(s[b - 1])
    decreases |s|
  {
    if s != [] && f(s[0]) {
      var rest := s[1..];
      a, b := TrimByMeans(f, rest);
      assert rest[a..b] == s[a + 1..b + 1];
      assert forall i :: 0 <= i < |rest| ==> rest[i] == s[i + 1];
      assert forall i :: 1 <= i < |s| ==> s[i] == rest[i - 1];
      a, b := a + 1, b + 1;
    } else if s != [] && f(s[|s| - 1]) {
      var rest := s[..|s| - 1];
      a, b := TrimByMeans(f, rest);
      assert rest[a..b] == s[a..b];
      assert forall i :: 0 <= i < |rest| ==> rest[i] == s[i];
    } else {
      a, b := 0, |s|;
      assert s[0..|s|] == s;
    }
  }
}
