/**
 Overlap of task-lease write scopes.

 A scope is a repository-relative file name ("src/a.ts"), a directory with a trailing slash
 ("src/"), or an fnmatch-style glob whose `*` also crosses slashes.  Names are compared after a
 case fold that works one code point at a time and may expand one code point into several symbols
 (the sharp s folds to "ss"), so the matcher runs over the folded symbols of a name and lets one
 `?` or one character class take a span of symbols.

 `Names` and `Covers` say what a scope means without any folded matching: a glob takes one
 character per token, and two names are aliases when their folds agree.  The theorems connect the
 folded matcher and the overlap test to that meaning.
 */
module WriteScopes {

  type Fold = char -> string

  /** What the matcher relies on about the case fold of single code points. */
  ghost predicate CaseTable(fold: Fold) {
    && fold('/') == "/"
    && (forall c: char :: |fold(c)| > 0)
    && (forall c: char, x: char :: x in fold(c) ==> fold(x) == [x])
    && (forall c: char :: '/' in fold(c) ==> c == '/')
    && (forall c: char, x: char :: x == '*' || x == '?' || x == '[' ==> (x in fold(c) <==> c == x))
  }

  function FoldText(fold: Fold, s: string): string {
    if s == [] then [] else fold(s[0]) + FoldText(fold, s[1..])
  }

  // ---------- pattern syntax ----------

  datatype Token = Literal(c: char) | Star | Question | Class(members: string, negated: bool)

  /** Index of the first `c` at or after `i`, or -1. */
  function IndexFrom(s: string, c: char, i: nat): (r: int)
    ensures r == -1 || (i <= r < |s| && s[r] == c)
    decreases |s| - i
  {
    if i >= |s| then -1 else if s[i] == c then i else IndexFrom(s, c, i + 1)
  }

  /** The bracket closing the class that opens at the head of `p`; `]` right after `[` or `[!` is a member. */
  function ClassEnd(p: string): (r: int)
    requires |p| > 0
    ensures r == -1 || 0 < r < |p|
  {
    var a := if |p| > 1 && p[1] == '!' then 2 else 1;
    var b := if |p| > a && p[a] == ']' then a + 1 else a;
    IndexFrom(p, ']', b)
  }

  function Tokens(p: string): seq<Token>
    decreases |p|
  {
    if p == [] then []
    else if p[0] == '*' then [Star] + Tokens(p[1..])
    else if p[0] == '?' then [Question] + Tokens(p[1..])
    else if p[0] == '[' && ClassEnd(p) >= 0 then
      var end := ClassEnd(p);
      var body := p[1..end];
      var negated := |body| > 0 && body[0] == '!';
      [Class(if negated then body[1..] else body, negated)] + Tokens(p[end + 1..])
    else [Literal(p[0])] + Tokens(p[1..])
  }

  /** Class membership: `x-y` is an interval, everything else a literal member. */
  predicate InClass(members: string, c: char) {
    if members == [] then false
    else if |members| >= 3 && members[1] == '-' then
      members[0] <= c <= members[2] || InClass(members[3..], c)
    else members[0] == c || InClass(members[1..], c)
  }

  // ---------- the folded matcher ----------

  /** Some member of the class folds to `s`. */
  ghost predicate ClassHas(fold: Fold, members: string, s: string) {
    exists c: char :: InClass(members, c) && fold(c) == s
  }

  /** A single token other than `*` takes the span `s` of folded symbols. */
  ghost predicate SpanTaken(fold: Fold, tok: Token, s: string) {
    match tok
    case Star => false
    case Literal(c) => fold(c) == s
    case Question => exists c: char :: fold(c) == s
    case Class(members, negated) =>
      if negated then (exists c: char :: fold(c) == s) && !ClassHas(fold, members, s)
      else ClassHas(fold, members, s)
  }

  /** Only a class can be unable to supply any character. */
  ghost predicate SuffixPossible(fold: Fold, toks: seq<Token>) {
    forall i :: 0 <= i < |toks| && toks[i].Class? ==> exists s: string :: SpanTaken(fold, toks[i], s)
  }

  /** With `descend`, the symbols are those of a directory and any continuation below it may follow. */
  ghost predicate Matches(fold: Fold, sym: string, toks: seq<Token>, descend: bool)
    decreases |sym| + |toks|
  {
    if descend && sym == [] then SuffixPossible(fold, toks)
    else if toks == [] then sym == []
    else if toks[0].Star? then
      Matches(fold, sym, toks[1..], descend) || (sym != [] && Matches(fold, sym[1..], toks, descend))
    else
      || (exists n: nat :: 1 <= n <= |sym| && SpanTaken(fold, toks[0], sym[..n])
                           && Matches(fold, sym[n..], toks[1..], descend))
      || (descend && toks[0].Literal? && sym < fold(toks[0].c) && SuffixPossible(fold, toks[1..]))
  }

  // ---------- the overlap test ----------

  predicate IsGlob(scope: string) {
    '*' in scope || '?' in scope || '[' in scope
  }

  function LiteralPrefix(scope: string): string {
    if scope == [] || scope[0] == '*' || scope[0] == '?' || scope[0] == '[' then []
    else [scope[0]] + LiteralPrefix(scope[1..])
  }

  predicate EndsWithSlash(s: string) {
    |s| > 0 && s[|s| - 1] == '/'
  }

  function DropSlash(s: string): string {
    if EndsWithSlash(s) then s[..|s| - 1] else s
  }

  predicate Everything(scope: string) {
    scope == "*" || scope == "**" || scope == "./"
  }

  predicate SameName(fold: Fold, a: string, b: string) {
    FoldText(fold, a) == FoldText(fold, b)
  }

  /** One glob against one literal scope. */
  ghost predicate GlobMeetsLiteral(fold: Fold, glob: string, literal: string) {
    if EndsWithSlash(literal) then Matches(fold, FoldText(fold, literal), Tokens(glob), true)
    else
      var prefix := LiteralPrefix(glob);
      || Matches(fold, FoldText(fold, literal), Tokens(glob), false)
      || (EndsWithSlash(prefix) && SameName(fold, DropSlash(literal), DropSlash(prefix)))
  }

  ghost predicate ScopePairOverlaps(fold: Fold, left: string, right: string) {
    if SameName(fold, left, right) then true
    else if Everything(left) || Everything(right) then true
    else if IsGlob(left) && !IsGlob(right) then GlobMeetsLiteral(fold, left, right)
    else if IsGlob(right) && !IsGlob(left) then GlobMeetsLiteral(fold, right, left)
    else if IsGlob(left) && IsGlob(right) then
      var l := FoldText(fold, LiteralPrefix(left));
      var r := FoldText(fold, LiteralPrefix(right));
      l == [] || r == [] || r <= l || l <= r
    else
      var l := FoldText(fold, DropSlash(left));
      var r := FoldText(fold, DropSlash(right));
      || (EndsWithSlash(left) && l + "/" <= FoldText(fold, right))
      || (EndsWithSlash(right) && r + "/" <= FoldText(fold, left))
  }

  // ---------- what a scope means ----------

  /** A single token other than `*` takes the character `c`; a class looks through case aliases. */
  ghost predicate CharTaken(fold: Fold, tok: Token, c: char) {
    match tok
    case Star => false
    case Literal(l) => c == l
    case Question => true
    case Class(members, negated) => ClassHas(fold, members, fold(c)) == !negated
  }

  ghost predicate GlobTakes(fold: Fold, name: string, toks: seq<Token>)
    decreases |name| + |toks|
  {
    if toks == [] then name == []
    else if toks[0].Star? then
      GlobTakes(fold, name, toks[1..]) || (name != [] && GlobTakes(fold, name[1..], toks))
    else name != [] && CharTaken(fold, toks[0], name[0]) && GlobTakes(fold, name[1..], toks[1..])
  }

  ghost predicate Names(fold: Fold, scope: string, name: string) {
    if scope == "./" then true
    else if IsGlob(scope) then GlobTakes(fold, name, Tokens(scope))
    else if EndsWithSlash(scope) then scope <= name
    else name == scope
  }

  /** Some case alias of the path is named by the scope. */
  ghost predicate Covers(fold: Fold, scope: string, path: string) {
    exists alias: string :: SameName(fold, alias, path) && Names(fold, scope, alias)
  }

  // ---------- folding facts ----------

  lemma {:induction false} FoldConcat(fold: Fold, a: string, b: string)
    ensures FoldText(fold, a + b) == FoldText(fold, a) + FoldText(fold, b)
  {
    if a == [] {
      assert a + b == b;
    } else {
      FoldConcat(fold, a[1..], b);
      assert (a + b)[1..] == a[1..] + b;
      ConcatAssociates(fold(a[0]), FoldText(fold, a[1..]), FoldText(fold, b));
    }
  }

  lemma ConcatAssociates(a: string, b: string, c: string)
    ensures a + (b + c) == (a + b) + c
  {
  }

  lemma FoldPrefix(fold: Fold, a: string, b: string)
    requires a <= b
    ensures FoldText(fold, a) <= FoldText(fold, b)
  {
  }

  lemma FoldEndsWithSlash(fold: Fold, s: string)
    requires CaseTable(fold) && EndsWithSlash(s)
    ensures EndsWithSlash(FoldText(fold, s))
    ensures FoldText(fold, s) == FoldText(fold, DropSlash(s)) + "/"
  {
    assert s == DropSlash(s) + "/";
    FoldConcat(fold, DropSlash(s), "/");
    assert FoldText(fold, "/") == "/" by { assert ("/")[1..] == []; }
  }

  /** Symbols that are fixed points of the fold. */
  ghost predicate Stable(fold: Fold, s: string) {
    forall i :: 0 <= i < |s| ==> fold(s[i]) == [s[i]]
  }

  lemma {:induction false} FoldIsStable(fold: Fold, s: string)
    requires CaseTable(fold)
    ensures Stable(fold, FoldText(fold, s))
  {
    if s != [] {
      FoldIsStable(fold, s[1..]);
      forall i | 0 <= i < |FoldText(fold, s)| ensures fold(FoldText(fold, s)[i]) == [FoldText(fold, s)[i]] {
        if i < |fold(s[0])| {
          assert fold(s[0])[i] in fold(s[0]);
        }
      }
    }
  }

  // ---------- the folded matcher is exact ----------

  lemma CharGivesSpan(fold: Fold, tok: Token, c: char)
    requires CharTaken(fold, tok, c)
    ensures SpanTaken(fold, tok, fold(c))
  {
  }

  lemma SpanGivesChar(fold: Fold, tok: Token, s: string) returns (c: char)
    requires SpanTaken(fold, tok, s)
    ensures fold(c) == s && CharTaken(fold, tok, c)
  {
    if tok.Literal? {
      c := tok.c;
    } else if tok.Class? && !tok.negated {
      c :| InClass(tok.members, c) && fold(c) == s;
    } else {
      c :| fold(c) == s;
    }
  }

  lemma {:induction false} StarSkips(fold: Fold, sym: string, toks: seq<Token>, n: nat)
    requires toks != [] && toks[0].Star? && n <= |sym|
    requires Matches(fold, sym[n..], toks, false)
    ensures Matches(fold, sym, toks, false)
  {
    if n == 0 {
      assert sym[0..] == sym;
    } else {
      assert sym[1..][n - 1..] == sym[n..];
      StarSkips(fold, sym[1..], toks, n - 1);
    }
  }

  lemma PrependChar(fold: Fold, c: char, rest: string, toks: seq<Token>) returns (name: string)
    requires toks != [] && GlobTakes(fold, rest, if toks[0].Star? then toks else toks[1..])
    requires toks[0].Star? || CharTaken(fold, toks[0], c)
    ensures GlobTakes(fold, name, toks) && FoldText(fold, name) == fold(c) + FoldText(fold, rest)
  {
    name := [c] + rest;
    assert name[1..] == rest;
  }

  /** Every name the glob takes has folded symbols the matcher accepts. */
  lemma {:induction false} MatcherAccepts(fold: Fold, name: string, toks: seq<Token>)
    requires CaseTable(fold) && GlobTakes(fold, name, toks)
    ensures Matches(fold, FoldText(fold, name), toks, false)
    decreases |name| + |toks|
  {
    if toks == [] {
    } else if toks[0].Star? && GlobTakes(fold, name, toks[1..]) {
      MatcherAccepts(fold, name, toks[1..]);
    } else {
      var sym, n := FoldText(fold, name), |fold(name[0])|;
      assert sym[..n] == fold(name[0]) && sym[n..] == FoldText(fold, name[1..]);
      if toks[0].Star? {
        MatcherAccepts(fold, name[1..], toks);
        StarSkips(fold, sym, toks, n);
      } else {
        MatcherAccepts(fold, name[1..], toks[1..]);
        CharGivesSpan(fold, toks[0], name[0]);
      }
    }
  }

  /** Every accepted symbol string is the fold of some name the glob takes. */
  lemma {:induction false} MatcherWitness(fold: Fold, sym: string, toks: seq<Token>) returns (name: string)
    requires Stable(fold, sym) && Matches(fold, sym, toks, false)
    ensures FoldText(fold, name) == sym && GlobTakes(fold, name, toks)
    decreases |sym| + |toks|
  {
    if toks == [] {
      name := [];
    } else if toks[0].Star? && Matches(fold, sym, toks[1..], false) {
      name := MatcherWitness(fold, sym, toks[1..]);
    } else if toks[0].Star? {
      var rest := MatcherWitness(fold, sym[1..], toks);
      name := PrependChar(fold, sym[0], rest, toks);
    } else {
      var n: nat :| 1 <= n <= |sym| && SpanTaken(fold, toks[0], sym[..n]) && Matches(fold, sym[n..], toks[1..], false);
      var c := SpanGivesChar(fold, toks[0], sym[..n]);
      var rest := MatcherWitness(fold, sym[n..], toks[1..]);
      name := PrependChar(fold, c, rest, toks);
    }
  }

  /** The span-taking matcher decides exactly whether some case alias of the path is taken by the glob. */
  lemma MatcherIsExact(fold: Fold, glob: string, path: string)
    requires CaseTable(fold)
    ensures Matches(fold, FoldText(fold, path), Tokens(glob), false)
       <==> exists alias: string :: SameName(fold, alias, path) && GlobTakes(fold, alias, Tokens(glob))
  {
    if Matches(fold, FoldText(fold, path), Tokens(glob), false) {
      FoldIsStable(fold, path);
      var alias := MatcherWitness(fold, FoldText(fold, path), Tokens(glob));
      assert SameName(fold, alias, path);
    }
    if alias: string :| SameName(fold, alias, path) && GlobTakes(fold, alias, Tokens(glob)) {
      MatcherAccepts(fold, alias, Tokens(glob));
    }
  }

  // ---------- reachability below a directory ----------

  lemma {:induction false} MatchedTokensArePossible(fold: Fold, sym: string, toks: seq<Token>)
    requires Matches(fold, sym, toks, false)
    ensures SuffixPossible(fold, toks)
    decreases |sym| + |toks|
  {
    if toks == [] {
    } else if toks[0].Star? && !Matches(fold, sym, toks[1..], false) {
      MatchedTokensArePossible(fold, sym[1..], toks);
    } else {
      var n: nat := 0;
      if toks[0].Star? {
        assert sym[0..] == sym;
      } else {
        n :| 1 <= n <= |sym| && SpanTaken(fold, toks[0], sym[..n]) && Matches(fold, sym[n..], toks[1..], false);
      }
      MatchedTokensArePossible(fold, sym[n..], toks[1..]);
      assert toks == [toks[0]] + toks[1..];
    }
  }

  /** The fold of one character never reaches past a directory's last slash. */
  lemma SpanStaysInside(fold: Fold, dir: string, rest: string, c: char)
    requires CaseTable(fold) && EndsWithSlash(dir) && fold(c) <= dir + rest
    ensures |fold(c)| <= |dir|
    ensures fold(c) == dir[..|fold(c)|] && (dir + rest)[|fold(c)|..] == dir[|fold(c)|..] + rest
  {
    assert (dir + rest)[|dir| - 1] == '/';
  }

  /** A match of directory plus rest is found by the prefix walk over the directory alone. */
  lemma {:induction false} PrefixReachable(fold: Fold, dir: string, rest: string, toks: seq<Token>)
    requires CaseTable(fold) && (dir == [] || EndsWithSlash(dir))
    requires Matches(fold, dir + rest, toks, false)
    ensures Matches(fold, dir, toks, true)
    decreases |dir| + |toks|
  {
    var sym := dir + rest;
    if dir == [] {
      assert sym == rest;
      MatchedTokensArePossible(fold, rest, toks);
    } else if toks[0].Star? && Matches(fold, sym, toks[1..], false) {
      PrefixReachable(fold, dir, rest, toks[1..]);
    } else if toks[0].Star? {
      assert sym[1..] == dir[1..] + rest;
      PrefixReachable(fold, dir[1..], rest, toks);
    } else {
      var n: nat :| 1 <= n <= |sym| && SpanTaken(fold, toks[0], sym[..n]) && Matches(fold, sym[n..], toks[1..], false);
      var c := SpanGivesChar(fold, toks[0], sym[..n]);
      SpanStaysInside(fold, dir, rest, c);
      PrefixReachable(fold, dir[n..], rest, toks[1..]);
    }
  }

  /** Tokens that are all possible take some name. */
  lemma {:induction false} PossibleTokensTakeAName(fold: Fold, toks: seq<Token>) returns (name: string)
    requires SuffixPossible(fold, toks)
    ensures GlobTakes(fold, name, toks)
  {
    name := [];
    if toks != [] {
      assert forall i :: 0 <= i < |toks| - 1 ==> toks[1..][i] == toks[i + 1];
      name := PossibleTokensTakeAName(fold, toks[1..]);
      if !toks[0].Star? {
        var c: char := if toks[0].Literal? then toks[0].c else '/';
        if toks[0].Class? {
          var s: string :| SpanTaken(fold, toks[0], s);
          c := SpanGivesChar(fold, toks[0], s);
        }
        name := PrependChar(fold, c, name, toks);
      }
    }
  }

  /** Whatever the prefix walk accepts can be completed to a full name below the directory. */
  lemma {:induction false} PrefixWalkWitness(fold: Fold, dir: string, toks: seq<Token>) returns (name: string)
    requires Stable(fold, dir) && Matches(fold, dir, toks, true)
    ensures GlobTakes(fold, name, toks) && dir <= FoldText(fold, name)
    decreases |dir| + |toks|
  {
    if dir == [] {
      name := PossibleTokensTakeAName(fold, toks);
    } else if toks[0].Star? && Matches(fold, dir, toks[1..], true) {
      name := PrefixWalkWitness(fold, dir, toks[1..]);
    } else if toks[0].Star? {
      var rest := PrefixWalkWitness(fold, dir[1..], toks);
      name := PrependChar(fold, dir[0], rest, toks);
    } else if n: nat :| 1 <= n <= |dir| && SpanTaken(fold, toks[0], dir[..n]) && Matches(fold, dir[n..], toks[1..], true) {
      var c := SpanGivesChar(fold, toks[0], dir[..n]);
      var rest := PrefixWalkWitness(fold, dir[n..], toks[1..]);
      name := PrependChar(fold, c, rest, toks);
    } else {
      var rest := PossibleTokensTakeAName(fold, toks[1..]);
      name := PrependChar(fold, toks[0].c, rest, toks);
    }
  }

  /** A name whose fold starts with that of the directory is an alias of a name in the directory. */
  lemma AliasBelowDirectory(fold: Fold, dir: string, name: string) returns (below: string)
    requires CaseTable(fold) && FoldText(fold, dir) <= FoldText(fold, name)
    ensures dir <= below && SameName(fold, below, name)
  {
    var d, n := FoldText(fold, dir), FoldText(fold, name);
    FoldIsStable(fold, name);
    hide CaseTable, FoldText;
    var tail := n[|d|..];
    assert n == d + tail;
    StableFoldsToItself(fold, tail);
    FoldConcat(fold, dir, tail);
    below := dir + tail;
  }

  lemma DirectoryNames(fold: Fold, dir: string, below: string)
    requires !IsGlob(dir) && EndsWithSlash(dir) && dir != "./" && dir <= below
    ensures Names(fold, dir, below)
  {
  }

  /** A directory that passes the test shares a path with the glob. */
  lemma DirectoryWitness(fold: Fold, glob: string, dir: string) returns (path: string)
    requires CaseTable(fold) && IsGlob(glob) && !IsGlob(dir) && EndsWithSlash(dir) && dir != "./"
    requires Matches(fold, FoldText(fold, dir), Tokens(glob), true)
    ensures Covers(fold, glob, path) && Covers(fold, dir, path)
  {
    hide CaseTable, Matches, GlobTakes, Tokens, IsGlob, FoldText, Covers, EndsWithSlash;
    FoldIsStable(fold, dir);
    path := PrefixWalkWitness(fold, FoldText(fold, dir), Tokens(glob));
    var below := AliasBelowDirectory(fold, dir, path);
    DirectoryNames(fold, dir, below);
    CoversWhatItNames(fold, dir, below, path);
    assert Names(fold, glob, path);
    CoversWhatItNames(fold, glob, path, path);
  }

  lemma CoversWhatItNames(fold: Fold, scope: string, name: string, path: string)
    requires SameName(fold, name, path) && Names(fold, scope, name)
    ensures Covers(fold, scope, path)
  {
  }

  lemma DirectoryMatchIsExact(fold: Fold, glob: string, dir: string)
    requires CaseTable(fold) && IsGlob(glob) && !IsGlob(dir) && EndsWithSlash(dir) && dir != "./"
    ensures GlobMeetsLiteral(fold, glob, dir)
       <==> exists path: string :: Covers(fold, glob, path) && Covers(fold, dir, path)
  {
    hide CaseTable, Matches, Covers, IsGlob, Tokens;
    if Matches(fold, FoldText(fold, dir), Tokens(glob), true) {
      var path := DirectoryWitness(fold, glob, dir);
    }
    if path: string :| Covers(fold, glob, path) && Covers(fold, dir, path) {
      GlobMeetsDirectory(fold, glob, dir, path);
    }
  }

  lemma {:induction false} StableFoldsToItself(fold: Fold, s: string)
    requires Stable(fold, s)
    ensures FoldText(fold, s) == s
  {
    if s != [] {
      StableFoldsToItself(fold, s[1..]);
    }
  }

  lemma GlobMeetsDirectory(fold: Fold, glob: string, dir: string, path: string)
    requires CaseTable(fold) && IsGlob(glob) && !IsGlob(dir) && EndsWithSlash(dir) && dir != "./"
    requires Covers(fold, glob, path) && Covers(fold, dir, path)
    ensures GlobMeetsLiteral(fold, glob, dir)
  {
    var a: string :| SameName(fold, a, path) && Names(fold, glob, a);
    var b: string :| SameName(fold, b, path) && Names(fold, dir, b);
    MatcherAccepts(fold, a, Tokens(glob));
    assert FoldText(fold, dir) <= FoldText(fold, a) by { FoldPrefix(fold, dir, b); }
    assert EndsWithSlash(FoldText(fold, dir)) by { FoldEndsWithSlash(fold, dir); }
    ReachableFromPrefix(fold, FoldText(fold, dir), FoldText(fold, a), Tokens(glob));
  }

  lemma ReachableFromPrefix(fold: Fold, dir: string, sym: string, toks: seq<Token>)
    requires CaseTable(fold) && EndsWithSlash(dir) && dir <= sym && Matches(fold, sym, toks, false)
    ensures Matches(fold, dir, toks, true)
  {
    assert sym == dir + sym[|dir|..];
    PrefixReachable(fold, dir, sym[|dir|..], toks);
  }

  // ---------- the overlap test never misses a shared path ----------

  lemma {:induction false} GlobKeepsItsPrefix(fold: Fold, scope: string, name: string)
    requires GlobTakes(fold, name, Tokens(scope))
    ensures LiteralPrefix(scope) <= name
  {
    if LiteralPrefix(scope) != [] {
      assert Tokens(scope) == [Literal(scope[0])] + Tokens(scope[1..]);
      assert Tokens(scope)[1..] == Tokens(scope[1..]);
      GlobKeepsItsPrefix(fold, scope[1..], name[1..]);
    }
  }

  lemma GlobMeetsName(fold: Fold, glob: string, literal: string, path: string)
    requires CaseTable(fold) && IsGlob(glob) && !IsGlob(literal) && literal != "./"
    requires Covers(fold, glob, path) && Covers(fold, literal, path)
    ensures GlobMeetsLiteral(fold, glob, literal)
  {
    if EndsWithSlash(literal) {
      GlobMeetsDirectory(fold, glob, literal, path);
    } else {
      var a: string :| SameName(fold, a, path) && Names(fold, glob, a);
      MatcherAccepts(fold, a, Tokens(glob));
    }
  }

  lemma PrefixesAreComparable(a: string, b: string, s: string)
    requires a <= s && b <= s
    ensures a <= b || b <= a
  {
  }

  lemma GlobsShareAPrefix(fold: Fold, left: string, right: string, path: string)
    requires CaseTable(fold) && IsGlob(left) && IsGlob(right)
    requires Covers(fold, left, path) && Covers(fold, right, path)
    ensures ScopePairOverlaps(fold, left, right)
  {
    var a: string :| SameName(fold, a, path) && Names(fold, left, a);
    var b: string :| SameName(fold, b, path) && Names(fold, right, b);
    GlobKeepsItsPrefix(fold, left, a);
    GlobKeepsItsPrefix(fold, right, b);
    FoldPrefix(fold, LiteralPrefix(left), a);
    FoldPrefix(fold, LiteralPrefix(right), b);
    PrefixesAreComparable(FoldText(fold, LiteralPrefix(left)), FoldText(fold, LiteralPrefix(right)), FoldText(fold, path));
  }

  lemma LiteralsMeet(fold: Fold, left: string, right: string, path: string)
    requires CaseTable(fold) && !IsGlob(left) && !IsGlob(right) && left != "./" && right != "./"
    requires Covers(fold, left, path) && Covers(fold, right, path)
    ensures ScopePairOverlaps(fold, left, right)
  {
    var a: string :| SameName(fold, a, path) && Names(fold, left, a);
    var b: string :| SameName(fold, b, path) && Names(fold, right, b);
    FoldPrefix(fold, left, a);
    FoldPrefix(fold, right, b);
    PrefixesAreComparable(FoldText(fold, left), FoldText(fold, right), FoldText(fold, path));
    if EndsWithSlash(left) { FoldEndsWithSlash(fold, left); }
    if EndsWithSlash(right) { FoldEndsWithSlash(fold, right); }
  }

  /** Two scopes that cover one path always overlap. */
  lemma SharedPathOverlaps(fold: Fold, left: string, right: string, path: string)
    requires CaseTable(fold)
    requires Covers(fold, left, path) && Covers(fold, right, path)
    ensures ScopePairOverlaps(fold, left, right)
  {
    if !Everything(left) && !Everything(right) {
      if IsGlob(left) && IsGlob(right) {
        GlobsShareAPrefix(fold, left, right, path);
      } else if IsGlob(left) {
        GlobMeetsName(fold, left, right, path);
      } else if IsGlob(right) {
        GlobMeetsName(fold, right, left, path);
      } else {
        LiteralsMeet(fold, left, right, path);
      }
    }
  }

  lemma PairOverlapIsSymmetric(fold: Fold, left: string, right: string)
    ensures ScopePairOverlaps(fold, left, right) == ScopePairOverlaps(fold, right, left)
  {
  }

  // ---------- where the overlap test is exact ----------

  lemma LiteralNamesItself(fold: Fold, scope: string)
    requires !IsGlob(scope)
    ensures Names(fold, scope, scope) && Covers(fold, scope, scope)
  {
    assert SameName(fold, scope, scope);
  }

  lemma DirectoryCovers(fold: Fold, dir: string, path: string)
    requires CaseTable(fold) && !IsGlob(dir) && EndsWithSlash(dir) && FoldText(fold, dir) <= FoldText(fold, path)
    ensures Covers(fold, dir, path)
  {
    hide CaseTable, FoldText, IsGlob;
    var below := AliasBelowDirectory(fold, dir, path);
    assert Names(fold, dir, below);
  }

  /** Two literal scopes that overlap share the longer name of the two. */
  lemma OverlappingLiteralsShare(fold: Fold, left: string, right: string) returns (path: string)
    requires CaseTable(fold) && !IsGlob(left) && !IsGlob(right) && ScopePairOverlaps(fold, left, right)
    ensures Covers(fold, left, path) && Covers(fold, right, path)
  {
    LiteralNamesItself(fold, left);
    LiteralNamesItself(fold, right);
    if EndsWithSlash(left) { FoldEndsWithSlash(fold, left); }
    if EndsWithSlash(right) { FoldEndsWithSlash(fold, right); }
    hide CaseTable, FoldText, Covers, Names;
    if SameName(fold, left, right) {
      path := left;
      CoversWhatItNames(fold, right, right, left);
    } else if left == "./" {
      path := right;
      HereCovers(fold, right);
    } else if right == "./" {
      path := left;
      HereCovers(fold, left);
    } else if EndsWithSlash(left) && FoldText(fold, left) <= FoldText(fold, right) {
      path := right;
      DirectoryCovers(fold, left, right);
    } else {
      path := left;
      DirectoryCovers(fold, right, left);
    }
  }

  lemma HereCovers(fold: Fold, path: string)
    ensures Covers(fold, "./", path)
  {
    assert SameName(fold, path, path) && Names(fold, "./", path);
  }

  /** For two scopes without glob characters the test is exact: it holds just when some path lies in both. */
  lemma LiteralTestIsExact(fold: Fold, left: string, right: string)
    requires CaseTable(fold) && !IsGlob(left) && !IsGlob(right)
    ensures ScopePairOverlaps(fold, left, right)
       <==> exists path: string :: Covers(fold, left, path) && Covers(fold, right, path)
  {
    hide CaseTable, ScopePairOverlaps, Covers, IsGlob;
    if ScopePairOverlaps(fold, left, right) {
      var path := OverlappingLiteralsShare(fold, left, right);
    }
    if path: string :| Covers(fold, left, path) && Covers(fold, right, path) {
      SharedPathOverlaps(fold, left, right, path);
    }
  }

  lemma FileIsCoveredAlone(fold: Fold, file: string, path: string)
    requires !IsGlob(file) && !EndsWithSlash(file)
    ensures Covers(fold, file, path) <==> SameName(fold, file, path)
  {
  }

  lemma FileMatchIsExact(fold: Fold, glob: string, file: string)
    requires CaseTable(fold) && IsGlob(glob) && !IsGlob(file) && !EndsWithSlash(file)
    ensures var prefix := LiteralPrefix(glob);
            GlobMeetsLiteral(fold, glob, file) <==>
            || (exists path: string :: Covers(fold, glob, path) && Covers(fold, file, path))
            || (EndsWithSlash(prefix) && SameName(fold, file, DropSlash(prefix)))
  {
    MatcherIsExact(fold, glob, file);
    hide CaseTable, Matches, GlobTakes, Tokens, IsGlob, FoldText;
    forall path { FileIsCoveredAlone(fold, file, path); }
    assert glob != "./" by { HereIsNoGlob(); }
    assert Covers(fold, glob, file) <==> exists path: string :: Covers(fold, glob, path) && Covers(fold, file, path);
  }

  lemma {:induction false} FoldKeepsGlobCharacters(fold: Fold, s: string)
    requires CaseTable(fold)
    ensures IsGlob(FoldText(fold, s)) <==> IsGlob(s)
  {
    if s != [] {
      FoldKeepsGlobCharacters(fold, s[1..]);
      assert s == [s[0]] + s[1..];
      GlobInConcat(fold(s[0]), FoldText(fold, s[1..]));
      GlobInConcat([s[0]], s[1..]);
      OneCharacterFolds(fold, s[0]);
    }
  }

  lemma OneCharacterFolds(fold: Fold, c: char)
    requires CaseTable(fold)
    ensures IsGlob(fold(c)) <==> IsGlob([c])
  {
  }

  lemma GlobInConcat(a: string, b: string)
    ensures IsGlob(a + b) <==> IsGlob(a) || IsGlob(b)
  {
  }

  /** A glob and a literal are never two spellings of one scope, so their test is the match. */
  lemma GlobAgainstLiteral(fold: Fold, glob: string, literal: string)
    requires CaseTable(fold) && IsGlob(glob) && !IsGlob(literal)
    ensures ScopePairOverlaps(fold, glob, literal) <==> glob == "*" || glob == "**" || literal == "./" || GlobMeetsLiteral(fold, glob, literal)
  {
    FoldKeepsGlobCharacters(fold, glob);
    FoldKeepsGlobCharacters(fold, literal);
    assert glob != "./" by { HereIsNoGlob(); }
    assert literal != "*" && literal != "**";
    hide CaseTable, GlobMeetsLiteral;
  }

  /** A star covers every path. */
  lemma StarsCover(fold: Fold, glob: string, path: string)
    requires glob == "*" || glob == "**"
    ensures Covers(fold, glob, path)
  {
    assert ("**")[1..] == "*" && ("*")[1..] == "";
    assert Tokens("*") == [Star] && Tokens("**") == [Star] + [Star];
    assert [Star] + [Star] == [Star, Star] && [Star, Star][1..] == [Star];
    StarTakesAll(fold, path);
    assert '*' in glob by { assert glob[0] == '*'; }
    CoversWhatItNames(fold, glob, path, path);
  }

  /** For a directory and a glob the test is exact: it holds just when some path lies in both. */
  lemma DirectoryTestIsExact(fold: Fold, glob: string, dir: string)
    requires CaseTable(fold) && IsGlob(glob) && !IsGlob(dir) && EndsWithSlash(dir) && dir != "./"
    ensures ScopePairOverlaps(fold, glob, dir)
       <==> exists path: string :: Covers(fold, glob, path) && Covers(fold, dir, path)
  {
    hide CaseTable, ScopePairOverlaps, GlobMeetsLiteral, Covers, IsGlob;
    GlobAgainstLiteral(fold, glob, dir);
    DirectoryMatchIsExact(fold, glob, dir);
    if glob == "*" || glob == "**" {
      StarsCover(fold, glob, dir);
      LiteralNamesItself(fold, dir);
    }
  }

  /**
   For a glob and a file the test is exact but for one clause: it holds just when some path lies in both,
   or the file has the name of the directory in which the glob's literal prefix ends.
   */
  lemma FileTestIsExact(fold: Fold, glob: string, file: string)
    requires CaseTable(fold) && IsGlob(glob) && !IsGlob(file) && !EndsWithSlash(file)
    ensures var prefix := LiteralPrefix(glob);
            ScopePairOverlaps(fold, glob, file) <==>
            || (exists path: string :: Covers(fold, glob, path) && Covers(fold, file, path))
            || (EndsWithSlash(prefix) && SameName(fold, file, DropSlash(prefix)))
  {
    hide CaseTable, ScopePairOverlaps, GlobMeetsLiteral, Covers, IsGlob, SameName, LiteralPrefix;
    GlobAgainstLiteral(fold, glob, file);
    FileMatchIsExact(fold, glob, file);
    if glob == "*" || glob == "**" {
      StarsCover(fold, glob, file);
      LiteralNamesItself(fold, file);
    }
  }

  lemma HereIsNoGlob()
    ensures !IsGlob("./")
  {
  }

  /** The extra clause is always a false conflict: a file named like the glob's literal directory shares no path with the glob. */
  lemma PrefixClauseIsVain(fold: Fold, glob: string, file: string, path: string)
    requires CaseTable(fold) && IsGlob(glob) && !IsGlob(file) && !EndsWithSlash(file)
    requires EndsWithSlash(LiteralPrefix(glob)) && SameName(fold, file, DropSlash(LiteralPrefix(glob)))
    ensures GlobMeetsLiteral(fold, glob, file) && !(Covers(fold, glob, path) && Covers(fold, file, path))
  {
    hide CaseTable, FoldText, IsGlob, Tokens, GlobTakes, LiteralPrefix, Matches;
    var prefix := LiteralPrefix(glob);
    FoldEndsWithSlash(fold, prefix);
    FileIsCoveredAlone(fold, file, path);
    if Covers(fold, glob, path) && SameName(fold, file, path) {
      assert glob != "./" by { HereIsNoGlob(); }
      var alias: string :| SameName(fold, alias, path) && Names(fold, glob, alias);
      GlobKeepsItsPrefix(fold, glob, alias);
      FoldPrefix(fold, prefix, alias);
      assert false;
    }
  }

  // For example, the file `src` meets the glob `src/*`, but no path lies in both.
  lemma FileMeetsGlobInVain(fold: Fold, path: string)
    requires CaseTable(fold)
    ensures GlobMeetsLiteral(fold, "src/*", "src") && !(Covers(fold, "src/*", path) && Covers(fold, "src", path))
  {
    hide CaseTable, FoldText, Covers, GlobMeetsLiteral;
    SourcePrefix();
    assert DropSlash("src/") == "src" && '*' in "src/*";
    PrefixClauseIsVain(fold, "src/*", "src", path);
  }

  lemma SourcePrefix()
    ensures LiteralPrefix("src/*") == "src/"
  {
    assert ("src/*")[1..] == "rc/*" && ("rc/*")[1..] == "c/*" && ("c/*")[1..] == "/*" && ("/*")[1..] == "*";
    assert LiteralPrefix("*") == "";
    assert LiteralPrefix("/*") == "/" && LiteralPrefix("c/*") == "c/" && LiteralPrefix("rc/*") == "rc/";
  }

  // ---------- subtree globs ----------

  /** The glob that takes every name starting with `p`. */
  function Subtree(p: string): string {
    p + "**"
  }

  lemma {:induction false} SubtreeTakes(fold: Fold, p: string, name: string)
    requires !IsGlob(p)
    ensures LiteralPrefix(Subtree(p)) == p
    ensures p <= name ==> GlobTakes(fold, name, Tokens(Subtree(p)))
  {
    if p == [] {
      StarsTakeAll(fold, name);
    } else {
      assert Subtree(p)[1..] == Subtree(p[1..]);
      assert p == [p[0]] + p[1..];
      SubtreeTakes(fold, p[1..], if p <= name then name[1..] else []);
      assert Tokens(Subtree(p)) == [Literal(p[0])] + Tokens(Subtree(p[1..]));
      assert Tokens(Subtree(p))[1..] == Tokens(Subtree(p[1..]));
    }
  }

  lemma StarsTakeAll(fold: Fold, name: string)
    ensures Tokens(Subtree("")) == [Star, Star] && LiteralPrefix(Subtree("")) == "" && GlobTakes(fold, name, [Star, Star])
  {
    assert Subtree("")[1..] == "*" && ("*")[1..] == "";
    assert Tokens("*") == [Star];
    StarTakesAll(fold, name);
    assert [Star, Star][1..] == [Star];
  }

  lemma {:induction false} StarTakesAll(fold: Fold, name: string)
    ensures GlobTakes(fold, name, [Star])
  {
    if name == [] {
      assert [Star][1..] == [];
    } else {
      StarTakesAll(fold, name[1..]);
    }
  }

  lemma SubtreeCovers(fold: Fold, p: string, path: string)
    requires CaseTable(fold) && !IsGlob(p) && FoldText(fold, p) <= FoldText(fold, path)
    ensures Covers(fold, Subtree(p), path)
  {
    var below := AliasBelowDirectory(fold, p, path);
    SubtreeTakes(fold, p, below);
    assert '*' in Subtree(p) by { assert Subtree(p)[|p|] == '*'; }
    hide CaseTable, FoldText, GlobTakes, Tokens;
    CoversWhatItNames(fold, Subtree(p), below, path);
  }

  lemma OverlappingSubtreesAreNested(fold: Fold, p: string, q: string)
    requires CaseTable(fold) && p != "" && q != "" && !IsGlob(p) && !IsGlob(q) && ScopePairOverlaps(fold, Subtree(p), Subtree(q))
    ensures FoldText(fold, p) <= FoldText(fold, q) || FoldText(fold, q) <= FoldText(fold, p)
  {
    SubtreeTakes(fold, p, "");
    SubtreeTakes(fold, q, "");
    FoldConcat(fold, p, "**");
    FoldConcat(fold, q, "**");
    assert '*' in Subtree(p) by { assert Subtree(p)[|p|] == '*'; }
    assert '*' in Subtree(q) by { assert Subtree(q)[|q|] == '*'; }
    assert |fold(p[0])| > 0 && |fold(q[0])| > 0;
    assert !Everything(Subtree(p)) && !Everything(Subtree(q)) by { SubtreeIsNotEverything(p); SubtreeIsNotEverything(q); }
    hide CaseTable, IsGlob;
    var l, r, stars := FoldText(fold, p), FoldText(fold, q), FoldText(fold, "**");
    if SameName(fold, Subtree(p), Subtree(q)) {
      assert |l| == |r| && l == (l + stars)[..|l|] && r == (r + stars)[..|r|];
    }
  }

  lemma SubtreeIsNotEverything(p: string)
    requires p != "" && !IsGlob(p)
    ensures !Everything(Subtree(p))
  {
    assert Subtree(p)[0] == p[0] && Subtree(p)[|p|] == '*';
  }

  /** For two subtree globs the prefix test is exact: it holds just when some path lies in both. */
  lemma SubtreeTestIsExact(fold: Fold, p: string, q: string)
    requires CaseTable(fold) && p != "" && q != "" && !IsGlob(p) && !IsGlob(q)
    ensures ScopePairOverlaps(fold, Subtree(p), Subtree(q))
       <==> exists path: string :: Covers(fold, Subtree(p), path) && Covers(fold, Subtree(q), path)
  {
    hide CaseTable, ScopePairOverlaps, Covers, IsGlob, FoldText;
    if ScopePairOverlaps(fold, Subtree(p), Subtree(q)) {
      OverlappingSubtreesAreNested(fold, p, q);
      var path := if FoldText(fold, p) <= FoldText(fold, q) then q else p;
      SubtreeCovers(fold, p, path);
      SubtreeCovers(fold, q, path);
    }
    if path: string :| Covers(fold, Subtree(p), path) && Covers(fold, Subtree(q), path) {
      SharedPathOverlaps(fold, Subtree(p), Subtree(q), path);
    }
  }
}
