/**
 What globs mean, stated on strings alone: stars, question marks, character classes, and brackets that
 open no class.  With the identity for case fold, a scope covers exactly the paths it names.
 */
module GlobMeaning {
  import opened WriteScopes

  const PLAIN: Fold := c => [c]

  predicate Ordinary(p: string) {
    forall i :: 0 <= i < |p| ==> p[i] != '*' && p[i] != '?' && p[i] != '['
  }

  lemma PlainIsACaseTable()
    ensures CaseTable(PLAIN)
  {
  }

  lemma {:induction false} PlainFold(s: string)
    ensures FoldText(PLAIN, s) == s
  {
    if s != [] {
      PlainFold(s[1..]);
    }
  }

  lemma PlainCovers(scope: string, path: string)
    ensures Covers(PLAIN, scope, path) <==> Names(PLAIN, scope, path)
  {
    PlainFold(path);
    forall alias: string ensures SameName(PLAIN, alias, path) <==> alias == path {
      PlainFold(alias);
    }
  }

  // ---------- character classes ----------

  datatype Interval = Interval(low: char, high: char)

  datatype Members = Members(literals: seq<char>, ranges: seq<Interval>)

  predicate Contains(m: Members, c: char) {
    c in m.literals || exists i :: 0 <= i < |m.ranges| && m.ranges[i].low <= c <= m.ranges[i].high
  }

  lemma ClassPrefix(m: Members, low: char, high: char, c: char)
    ensures Contains(m.(ranges := m.ranges + [Interval(low, high)]), c) <==> Contains(m, c) || low <= c <= high
    ensures Contains(m.(literals := m.literals + [low]), c) <==> Contains(m, c) || c == low
  {
    var more := m.ranges + [Interval(low, high)];
    assert more[|m.ranges|] == Interval(low, high);
    assert forall i :: 0 <= i < |m.ranges| ==> more[i] == m.ranges[i];
  }

  lemma RangeStep(body: string, index: nat, m: Members)
    requires index + 2 < |body| && body[index + 1] == '-'
    requires forall c :: InClass(body, c) <==> Contains(m, c) || InClass(body[index..], c)
    ensures var m' := m.(ranges := m.ranges + [Interval(body[index], body[index + 2])]);
            forall c :: InClass(body, c) <==> Contains(m', c) || InClass(body[index + 3..], c)
  {
    var rest := body[index..];
    assert rest[3..] == body[index + 3..] && rest[0] == body[index] && rest[2] == body[index + 2];
    forall c ensures InClass(rest, c) <==> rest[0] <= c <= rest[2] || InClass(rest[3..], c) {
    }
    hide InClass, Contains;
    forall c { ClassPrefix(m, body[index], body[index + 2], c); }
  }

  lemma LiteralStep(body: string, index: nat, m: Members)
    requires index < |body| && !(index + 2 < |body| && body[index + 1] == '-')
    requires forall c :: InClass(body, c) <==> Contains(m, c) || InClass(body[index..], c)
    ensures var m' := m.(literals := m.literals + [body[index]]);
            forall c :: InClass(body, c) <==> Contains(m', c) || InClass(body[index + 1..], c)
  {
    var rest := body[index..];
    assert rest[1..] == body[index + 1..] && rest[0] == body[index];
    forall c ensures InClass(rest, c) <==> c == rest[0] || InClass(rest[1..], c) {
    }
    hide InClass, Contains;
    forall c { ClassPrefix(m, body[index], ' ', c); }
  }

  lemma NothingRead(body: string)
    ensures forall c :: InClass(body, c) <==> Contains(Members([], []), c) || InClass(body[0..], c)
    ensures forall c :: !InClass(body[|body|..], c)
  {
    assert body[0..] == body && body[|body|..] == [];
  }

  /** The index loop collects literals and closed intervals; membership is membership in one of them. */
  method CharacterClass(body: string) returns (m: Members)
    ensures forall c :: InClass(body, c) <==> Contains(m, c)
  {
    hide InClass, Contains;
    m := Members([], []);
    var index := 0;
    NothingRead(body);
    while index < |body|
      invariant 0 <= index <= |body|
      invariant forall c :: InClass(body, c) <==> Contains(m, c) || InClass(body[index..], c)
    {
      if index + 2 < |body| && body[index + 1] == '-' {
        RangeStep(body, index, m);
        m := m.(ranges := m.ranges + [Interval(body[index], body[index + 2])]);
        index := index + 3;
      } else {
        LiteralStep(body, index, m);
        m := m.(literals := m.literals + [body[index]]);
        index := index + 1;
      }
    }
  }

  // ---------- reading a glob from the left ----------

  lemma {:induction false} TakesLiteral(fold: Fold, p: string, rest: string, name: string)
    requires Ordinary(p)
    ensures GlobTakes(fold, name, Tokens(p + rest)) <==> p <= name && GlobTakes(fold, name[|p|..], Tokens(rest))
  {
    if p == [] {
      assert p + rest == rest && name[0..] == name;
    } else {
      var s := p + rest;
      assert s[1..] == p[1..] + rest;
      assert Tokens(s) == [Literal(p[0])] + Tokens(s[1..]);
      assert Tokens(s)[1..] == Tokens(s[1..]);
      assert p == [p[0]] + p[1..];
      if name != [] {
        TakesLiteral(fold, p[1..], rest, name[1..]);
        assert name == [name[0]] + name[1..];
        assert p <= name ==> name[1..][|p| - 1..] == name[|p|..];
      }
    }
  }

  lemma TakesQuestion(fold: Fold, rest: string, name: string)
    ensures GlobTakes(fold, name, Tokens("?" + rest)) <==> name != [] && GlobTakes(fold, name[1..], Tokens(rest))
  {
    assert ("?" + rest)[1..] == rest;
    assert Tokens("?" + rest)[1..] == Tokens(rest);
  }

  lemma {:induction false} StarTakes(fold: Fold, toks: seq<Token>, name: string)
    ensures GlobTakes(fold, name, [Star] + toks) <==> exists k :: 0 <= k <= |name| && GlobTakes(fold, name[k..], toks)
  {
    assert ([Star] + toks)[1..] == toks && name[0..] == name;
    if name != [] {
      StarTakes(fold, toks, name[1..]);
      assert forall k :: 0 <= k <= |name| - 1 ==> name[1..][k..] == name[k + 1..];
      if k :| 0 <= k <= |name| && GlobTakes(fold, name[k..], toks) {
        if k > 0 {
          assert name[1..][k - 1..] == name[k..];
        }
      }
    }
  }

  lemma TakesStar(fold: Fold, rest: string, name: string)
    ensures GlobTakes(fold, name, Tokens("*" + rest)) <==> exists k :: 0 <= k <= |name| && GlobTakes(fold, name[k..], Tokens(rest))
  {
    assert ("*" + rest)[1..] == rest;
    StarTakes(fold, Tokens(rest), name);
  }

  lemma {:induction false} FirstIndex(s: string, c: char, i: nat, r: nat)
    requires i <= r < |s| && s[r] == c && forall k :: i <= k < r ==> s[k] != c
    ensures IndexFrom(s, c, i) == r
    decreases r - i
  {
    if i < r {
      FirstIndex(s, c, i + 1, r);
    }
  }

  lemma {:induction false} NoIndex(s: string, c: char, i: nat)
    requires forall k :: i <= k < |s| ==> s[k] != c
    ensures IndexFrom(s, c, i) == -1
    decreases |s| - i
  {
    if i < |s| {
      NoIndex(s, c, i + 1);
    }
  }

  predicate ClassBody(mark: string, body: string) {
    && (mark == "" || mark == "!") && body != "" && (mark == "" ==> body[0] != '!')
    && forall k :: 0 < k < |body| ==> body[k] != ']'
  }

  lemma ClassEndsThere(s: string, mark: string, body: string, rest: string)
    requires ClassBody(mark, body) && s == "[" + mark + body + "]" + rest
    ensures ClassEnd(s) == |mark| + |body| + 1
  {
    var end := |mark| + |body| + 1;
    var start := if body[0] == ']' then |mark| + 2 else |mark| + 1;
    assert s[end] == ']' && s[|mark| + 1] == body[0] && (mark == "!" ==> s[1] == '!');
    forall k | start <= k < end ensures s[k] != ']' {
      assert s[k] == body[k - |mark| - 1];
    }
    FirstIndex(s, ']', start, end);
  }

  /** A class reads up to its first closing bracket; one that comes first is a member. */
  lemma ClassTokens(s: string, mark: string, body: string, rest: string)
    requires ClassBody(mark, body) && s == "[" + mark + body + "]" + rest
    ensures Tokens(s) == [Class(body, mark == "!")] + Tokens(rest)
  {
    ClassEndsThere(s, mark, body, rest);
    hide ClassEnd;
    var end := |mark| + |body| + 1;
    assert s[0] == '[' && s[end + 1..] == rest;
    assert s[1..end] == mark + body;
    assert mark == "!" ==> (mark + body)[1..] == body;
    assert mark == "" ==> mark + body == body;
  }

  lemma NoClassEnd(rest: string)
    requires ']' !in rest
    ensures ClassEnd("[" + rest) == -1
  {
    var s := "[" + rest;
    assert forall k :: 1 <= k < |s| ==> s[k] == rest[k - 1];
    NoIndex(s, ']', if |s| > 1 && s[1] == '!' then 2 else 1);
  }

  /** A bracket with no closing bracket after it is a character like any other. */
  lemma UnclosedBracket(fold: Fold, rest: string, name: string)
    requires ']' !in rest
    ensures GlobTakes(fold, name, Tokens("[" + rest)) <==> name != [] && name[0] == '[' && GlobTakes(fold, name[1..], Tokens(rest))
  {
    NoClassEnd(rest);
    hide ClassEnd;
    var s := "[" + rest;
    assert s[1..] == rest;
    assert Tokens(s) == [Literal('[')] + Tokens(rest);
    assert Tokens(s)[1..] == Tokens(rest);
  }

  // ---------- whole scopes ----------

  /** A file covers itself, a directory everything below it, and the root everything. */
  lemma LiteralScopeMeans(p: string, path: string)
    requires Ordinary(p)
    ensures Covers(PLAIN, "./", path)
    ensures p != "." ==> (Covers(PLAIN, p + "/", path) <==> p + "/" <= path)
    ensures p != "" && p[|p| - 1] != '/' ==> (Covers(PLAIN, p, path) <==> path == p)
  {
    PlainCovers("./", path);
    PlainCovers(p + "/", path);
    PlainCovers(p, path);
    assert p + "/" == "./" ==> p == "." by { assert (p + "/")[..|p|] == p; }
    assert Ordinary(p + "/");
    assert !IsGlob(p) && !IsGlob(p + "/");
  }

  lemma EndOfGlob(fold: Fold, q: string, name: string)
    requires Ordinary(q)
    ensures GlobTakes(fold, name, Tokens(q)) <==> name == q
  {
    TakesLiteral(fold, q, "", name);
    assert q + "" == q && Tokens("") == [];
  }

  lemma StarThenText(q: string, rest: string)
    requires Ordinary(q)
    ensures GlobTakes(PLAIN, rest, Tokens("*" + q)) <==> exists middle :: rest == middle + q
  {
    hide Tokens, GlobTakes;
    TakesStar(PLAIN, q, rest);
    forall k | 0 <= k <= |rest| { EndOfGlob(PLAIN, q, rest[k..]); }
    if k :| 0 <= k <= |rest| && rest[k..] == q {
      assert rest == rest[..k] + q;
    }
    if middle :| rest == middle + q {
      assert rest[|middle|..] == q;
    }
  }

  /** A star stands for any text, slashes included. */
  lemma StarMeans(p: string, q: string, path: string)
    requires Ordinary(p) && Ordinary(q)
    ensures Covers(PLAIN, p + "*" + q, path) <==> exists middle :: path == p + middle + q
  {
    var glob := p + "*" + q;
    assert glob[|p|] == '*';
    assert glob == p + ("*" + q);
    PlainCovers(glob, path);
    TakesLiteral(PLAIN, p, "*" + q, path);
    StarIsNotHere(glob);
    hide Tokens, GlobTakes, Covers, IsGlob, Ordinary;
    if p <= path {
      assert path == p + path[|p|..];
      StarThenText(q, path[|p|..]);
      if middle :| path[|p|..] == middle + q {
        assert path == p + middle + q;
      }
    }
    if middle :| path == p + middle + q {
      assert path[|p|..] == middle + q;
    }
  }

  lemma StarIsNotHere(glob: string)
    requires '*' in glob || '?' in glob || '[' in glob
    ensures glob != "./" && IsGlob(glob)
  {
  }

  /** A question mark stands for any one character. */
  lemma QuestionMeans(p: string, q: string, path: string)
    requires Ordinary(p) && Ordinary(q)
    ensures Covers(PLAIN, p + "?" + q, path) <==> exists c :: path == p + [c] + q
  {
    var glob := p + "?" + q;
    assert glob[|p|] == '?';
    assert glob == p + ("?" + q);
    PlainCovers(glob, path);
    TakesLiteral(PLAIN, p, "?" + q, path);
    StarIsNotHere(glob);
    hide Tokens, GlobTakes, Covers, IsGlob;
    if p <= path {
      var rest := path[|p|..];
      assert path == p + rest;
      TakesQuestion(PLAIN, q, rest);
      if rest != [] {
        EndOfGlob(PLAIN, q, rest[1..]);
        assert rest == [rest[0]] + rest[1..];
        assert path == p + [rest[0]] + rest[1..];
      }
    }
    if c :| path == p + [c] + q {
      assert path[|p|..] == [c] + q;
    }
  }

  lemma PlainClassHas(members: string, c: char)
    ensures ClassHas(PLAIN, members, PLAIN(c)) <==> InClass(members, c)
  {
    forall d: char ensures PLAIN(d) == PLAIN(c) <==> d == c {
      assert [d][0] == d && [c][0] == c;
    }
  }

  lemma OneClass(body: string, negated: bool, c: char)
    ensures GlobTakes(PLAIN, [c], [Class(body, negated)]) <==> (InClass(body, c) <==> !negated)
  {
    PlainClassHas(body, c);
    hide ClassHas, InClass;
    assert [c][1..] == [] && [Class(body, negated)][1..] == [];
  }

  /** A class stands for one of its members, a negated class for any other character. */
  lemma ClassMeans(glob: string, mark: string, body: string, c: char)
    requires ClassBody(mark, body) && glob == "[" + mark + body + "]"
    ensures Covers(PLAIN, glob, [c]) <==> (InClass(body, c) <==> mark == "")
  {
    assert glob[0] == '[';
    StarIsNotHere(glob);
    PlainCovers(glob, [c]);
    assert glob == "[" + mark + body + "]" + "";
    ClassTokens(glob, mark, body, "");
    OneClass(body, mark == "!", c);
    assert Tokens("") == [];
    hide Tokens, GlobTakes, Covers, InClass, IsGlob;
    assert [Class(body, mark == "!")] + [] == [Class(body, mark == "!")];
  }

  lemma RangeHas(x: char, y: char, c: char)
    ensures InClass([x, '-', y], c) <==> x <= c <= y
  {
    assert [x, '-', y][3..] == [];
  }

  /** A range holds its two ends and everything between them. */
  lemma RangeMeans(x: char, y: char, c: char)
    requires x != '!' && y != ']'
    ensures Covers(PLAIN, "[" + [x, '-', y] + "]", [c]) <==> x <= c <= y
  {
    hide Covers, InClass;
    RangeHas(x, y, c);
    assert "[" + "" + [x, '-', y] + "]" == "[" + [x, '-', y] + "]";
    ClassMeans("[" + [x, '-', y] + "]", "", [x, '-', y], c);
  }

  /** A negated range holds everything else. */
  lemma NegatedRangeMeans(x: char, y: char, c: char)
    requires y != ']'
    ensures Covers(PLAIN, "[!" + [x, '-', y] + "]", [c]) <==> !(x <= c <= y)
  {
    hide Covers, InClass;
    RangeHas(x, y, c);
    assert "[" + "!" + [x, '-', y] + "]" == "[!" + [x, '-', y] + "]";
    ClassMeans("[!" + [x, '-', y] + "]", "!", [x, '-', y], c);
  }
}
