/**
 Canonical spelling of write scopes, and the comparison of whole scope lists.

 A scope is split at its slashes, except those inside a closed character class; empty and `.` parts are
 dropped, and a scope with a `..` part, whitespace, a backslash or an absolute head has no canonical form.
 */
module CanonicalScopes {
  import opened Options
  import opened Sequences
  import opened Trimming
  import opened SitePaths
  import opened WriteScopes

  const MAX_SCOPE_CHARS: nat := 160

  predicate IsWhitespace(c: char) {
    || '\t' <= c <= '\r' || c == ' ' || c == '\U{a0}' || c == '\U{1680}' || '\U{2000}' <= c <= '\U{200a}'
    || c == '\U{2028}' || c == '\U{2029}' || c == '\U{202f}' || c == '\U{205f}' || c == '\U{3000}' || c == '\U{feff}'
  }

  function Trim(s: string): (r: string)
    ensures |r| <= |s|
  {
    TrimBy(IsWhitespace, s)
  }

  predicate Permitted(c: char) {
    c != '\\' && c != '<' && c != '>' && !IsWhitespace(c)
  }

  predicate Readable(scope: string) {
    && 0 < |scope| <= MAX_SCOPE_CHARS && scope[0] != '/' && scope[0] != '~'
    && forall i :: 0 <= i < |scope| ==> Permitted(scope[i])
  }

  // ---------- parts ----------

  /** Puts text in front of the first part. */
  function Attach(text: string, parts: seq<string>): (r: seq<string>)
    requires |parts| > 0
    ensures |r| == |parts|
  {
    [text + parts[0]] + parts[1..]
  }

  /** How many characters a scan step takes: a closed character class, or one character. */
  function StepLength(s: string): (n: nat)
    requires s != []
    ensures 0 < n <= |s|
  {
    if s[0] == '[' && ClassEnd(s) >= 0 then ClassEnd(s) + 1 else 1
  }

  /** Splits at slashes outside closed character classes. */
  function Parts(s: string): (r: seq<string>)
    ensures |r| > 0
    decreases |s|
  {
    if s == [] then [""]
    else if s[0] == '/' then [""] + Parts(s[1..])
    else Attach(s[..StepLength(s)], Parts(s[StepLength(s)..]))
  }

  predicate Dropped(part: string) {
    part == "" || part == "."
  }

  function Keep(parts: seq<string>): seq<string> {
    if parts == [] then []
    else (if Dropped(parts[0]) then [] else [parts[0]]) + Keep(parts[1..])
  }

  function Text(kept: seq<string>, slash: bool): (r: string)
    requires kept != []
    ensures |r| >= |kept[0]| && r[..|kept[0]|] == kept[0]
  {
    if |kept| == 1 then kept[0] + if slash then "/" else ""
    else kept[0] + "/" + Text(kept[1..], slash)
  }

  function Canonical(value: string): Option<string> {
    var scope := Trim(value);
    if !Readable(scope) || ".." in Parts(scope) then None
    else
      var kept := Keep(Parts(scope));
      if kept != [] then Some(Text(kept, EndsWithSlash(scope)))
      else if EndsWithSlash(scope) then Some("./")
      else None
  }

  // ---------- the program ----------

  lemma {:induction false} KeepAppends(parts: seq<string>, part: string)
    ensures Keep(parts + [part]) == Keep(parts) + if Dropped(part) then [] else [part]
  {
    if parts == [] {
      assert (parts + [part])[1..] == [];
    } else {
      KeepAppends(parts[1..], part);
      assert (parts + [part])[1..] == parts[1..] + [part];
    }
  }

  lemma AttachTwice(a: string, b: string, parts: seq<string>)
    requires |parts| > 0
    ensures Attach(a, Attach(b, parts)) == Attach(a + b, parts)
  {
    assert a + (b + parts[0]) == (a + b) + parts[0];
  }

  /** One turn of the scan inside a part. */
  lemma ScanStep(scope: string, start: nat, index: nat, n: nat)
    requires start <= index < |scope| && scope[index] != '/' && n == StepLength(scope[index..])
    ensures Attach(scope[start..index], Parts(scope[index..])) == Attach(scope[start..index + n], Parts(scope[index + n..]))
  {
    hide StepLength;
    var rest := scope[index..];
    AttachTwice(scope[start..index], rest[..n], Parts(rest[n..]));
    assert scope[start..index] + rest[..n] == scope[start..index + n];
    assert rest[n..] == scope[index + n..];
  }

  lemma PartEnds(scope: string, start: nat, index: nat)
    requires start <= index < |scope| && scope[index] == '/'
    ensures Attach(scope[start..index], Parts(scope[index..]))
         == [scope[start..index]] + Attach(scope[index + 1..index + 1], Parts(scope[index + 1..]))
  {
    assert scope[index..][1..] == scope[index + 1..];
    assert scope[start..index] + "" == scope[start..index];
    assert scope[index + 1..index + 1] == "";
    AttachNothing(Parts(scope[index + 1..]));
  }

  lemma AttachNothing(parts: seq<string>)
    requires |parts| > 0
    ensures Attach("", parts) == parts
  {
    assert "" + parts[0] == parts[0];
  }

  method SplitParts(scope: string) returns (parts: seq<string>)
    ensures parts == Parts(scope)
  {
    hide Attach, Parts;
    parts := [];
    var start, index := 0, 0;
    WholeScopeAhead(scope);
    while index < |scope|
      invariant 0 <= start <= index <= |scope|
      invariant Parts(scope) == parts + Attach(scope[start..index], Parts(scope[index..]))
    {
      if scope[index] == '[' {
        var closing := ClassEnd(scope[index..]);
        if closing >= 0 {
          ScanStep(scope, start, index, closing + 1);
          index := index + closing + 1;
          continue;
        }
      }
      if scope[index] != '/' {
        ScanStep(scope, start, index, 1);
        index := index + 1;
        continue;
      }
      PartEnds(scope, start, index);
      parts := parts + [scope[start..index]];
      start := index + 1;
      index := index + 1;
    }
    NothingAhead(scope, start);
    parts := parts + [scope[start..]];
  }

  lemma WholeScopeAhead(scope: string)
    ensures Parts(scope) == [] + Attach(scope[0..0], Parts(scope[0..]))
  {
    assert scope[0..] == scope && scope[0..0] == "";
    AttachNothing(Parts(scope));
  }

  lemma NothingAhead(scope: string, start: nat)
    requires start <= |scope|
    ensures Attach(scope[start..|scope|], Parts(scope[|scope|..])) == [scope[start..]]
  {
    assert scope[|scope|..] == [];
    assert scope[start..] + "" == scope[start..];
    assert scope[start..|scope|] == scope[start..];
  }

  /** The loops compute the canonical form. */
  method CanonicalWriteScope(value: string) returns (r: Option<string>)
    ensures r == Canonical(value)
  {
    var scope := Trim(value);
    if !Readable(scope) { return None; }
    var parts := SplitParts(scope);
    var canonical: seq<string> := [];
    for i := 0 to |parts|
      invariant ".." !in parts[..i] && canonical == Keep(parts[..i])
    {
      KeepAppends(parts[..i], parts[i]);
      assert parts[..i + 1] == parts[..i] + [parts[i]];
      if parts[i] == "" || parts[i] == "." { continue; }
      if parts[i] == ".." { return None; }
      canonical := canonical + [parts[i]];
    }
    assert parts[..|parts|] == parts;
    if canonical == [] { return if EndsWithSlash(scope) then Some("./") else None; }
    return Some(Text(canonical, EndsWithSlash(scope)));
  }

  // ---------- parts of joined parts ----------

  predicate StartsAtSlash(tail: string) {
    tail == [] || tail[0] == '/'
  }

  /** Scanning `p + tail` reaches the end of `p` without splitting it or running past it. */
  predicate Whole(p: string, tail: string)
    decreases |p|
  {
    p == [] || (p[0] != '/' && StepLength(p + tail) <= |p| && Whole(p[StepLength(p + tail)..], tail))
  }

  function PartsAfter(tail: string): seq<string> {
    if tail == [] then [] else Parts(tail[1..])
  }

  lemma {:induction false} WholePartSplitsOff(p: string, tail: string)
    requires Whole(p, tail) && StartsAtSlash(tail)
    ensures Parts(p + tail) == [p] + PartsAfter(tail)
    decreases |p|
  {
    hide StepLength;
    var s := p + tail;
    if p == [] {
      assert s == tail;
    } else {
      var n := StepLength(s);
      WholePartSplitsOff(p[n..], tail);
      assert s[n..] == p[n..] + tail && s[..n] == p[..n];
      assert p[..n] + p[n..] == p;
    }
  }

  /** The first part is a whole prefix of the text, and the other parts are those of the rest. */
  ghost predicate Leads(s: string, p: string) {
    && p <= s && StartsAtSlash(s[|p|..]) && Whole(p, s[|p|..])
    && Parts(s) == [p] + PartsAfter(s[|p|..])
  }

  lemma {:induction false} FirstPart(s: string)
    ensures Leads(s, Parts(s)[0])
    decreases |s|
  {
    if s != [] && s[0] != '/' {
      FirstPart(s[StepLength(s)..]);
      StepLeads(s, StepLength(s), Parts(s[StepLength(s)..])[0]);
    }
  }

  lemma StepLeads(s: string, n: nat, q: string)
    requires s != [] && s[0] != '/' && n == StepLength(s) && Leads(s[n..], q)
    ensures Parts(s)[0] == s[..n] + q && Leads(s, s[..n] + q)
  {
    hide StepLength, StartsAtSlash, PartsAfter;
    var p := s[..n] + q;
    assert s == s[..n] + s[n..];
    assert s[n..] == q + s[n..][|q|..];
    assert s == p + s[n..][|q|..];
    assert s[n..][|q|..] == s[|p|..];
    assert p + s[|p|..] == s;
    assert p[n..] == q;
  }

  lemma {:induction false} IndexIsFirst(s: string, c: char, i: nat)
    requires i <= |s|
    ensures var r := IndexFrom(s, c, i);
            && (r == -1 ==> forall k :: i <= k < |s| ==> s[k] != c)
            && (r >= 0 ==> forall k :: i <= k < r ==> s[k] != c)
    decreases |s| - i
  {
    if i < |s| && s[i] != c {
      IndexIsFirst(s, c, i + 1);
    }
  }

  lemma {:induction false} IndexAgrees(s: string, t: string, c: char, i: nat, r: nat)
    requires i <= r < |s| && r < |t| && s[..r + 1] == t[..r + 1] && IndexFrom(s, c, i) == r
    ensures IndexFrom(t, c, i) == r
    decreases r - i
  {
    assert s[i] == s[..r + 1][i] == t[i];
    if i < r && s[i] != c {
      IndexAgrees(s, t, c, i + 1, r);
    }
  }

  /** Where the search for a class's closing bracket starts. */
  function SearchStart(s: string): nat
    requires |s| > 0
  {
    var a := if |s| > 1 && s[1] == '!' then 2 else 1;
    if |s| > a && s[a] == ']' then a + 1 else a
  }

  lemma ClosedClassStays(p: string, tail: string, tail': string)
    requires p != [] && 0 <= ClassEnd(p + tail) < |p|
    ensures ClassEnd(p + tail') == ClassEnd(p + tail)
  {
    var s, t, e := p + tail, p + tail', ClassEnd(p + tail);
    assert s[..e + 1] == p[..e + 1] == t[..e + 1];
    assert e >= SearchStart(s);
    assert s[1] == t[1] && (SearchStart(s) == 3 ==> s[2] == t[2]);
    assert e >= 2 ==> s[2] == t[2];
    assert SearchStart(s) == SearchStart(t);
    IndexAgrees(s, t, ']', SearchStart(s), e);
  }

  /** A class left open stays open when what follows its part has no closing bracket. */
  lemma OpenClassStays(p: string, tail: string, tail': string)
    requires p != [] && p[0] == '[' && ClassEnd(p + tail) == -1 && StartsAtSlash(tail) && StartsAtSlash(tail')
    requires ']' in tail' ==> ']' in tail
    ensures ClassEnd(p + tail') == -1
  {
    var s, t := p + tail, p + tail';
    IndexIsFirst(s, ']', SearchStart(s));
    forall k | 0 <= k < |tail| ensures tail[k] != ']' {
      assert s[|p| + k] == tail[k];
    }
    assert forall k :: 0 <= k < |tail'| ==> tail'[k] != ']';
    IndexIsFirst(t, ']', SearchStart(t));
    assert forall k :: 0 <= k < |p| ==> s[k] == p[k] == t[k];
    assert forall k :: |p| <= k < |t| ==> t[k] == tail'[k - |p|];
    assert forall k :: SearchStart(t) <= k < |t| ==> t[k] != ']';
  }

  lemma StepUnderNewTail(p: string, tail: string, tail': string)
    requires p != [] && StepLength(p + tail) <= |p| && StartsAtSlash(tail) && StartsAtSlash(tail')
    requires ']' in tail' ==> ']' in tail
    ensures StepLength(p + tail') == StepLength(p + tail)
  {
    if p[0] == '[' && ClassEnd(p + tail) >= 0 {
      ClosedClassStays(p, tail, tail');
    } else if p[0] == '[' {
      OpenClassStays(p, tail, tail');
    }
  }

  lemma {:induction false} WholeUnderNewTail(p: string, tail: string, tail': string)
    requires Whole(p, tail) && StartsAtSlash(tail) && StartsAtSlash(tail')
    requires ']' in tail' ==> ']' in tail
    ensures Whole(p, tail')
    decreases |p|
  {
    if p != [] {
      StepUnderNewTail(p, tail, tail');
      WholeUnderNewTail(p[StepLength(p + tail)..], tail, tail');
    }
  }

  /** The parts `kept`, joined, split into themselves, with no characters but those of `s` and no greater length. */
  ghost predicate Rejoins(s: string, kept: seq<string>, slash: bool) {
    kept != [] ==>
      && Parts(Text(kept, slash)) == kept + (if slash then [""] else [])
      && (forall c :: c in Text(kept, slash) ==> c in s || c == '/')
      && |Text(kept, false)| + (if EndsWithSlash(s) then 1 else 0) <= |s|
  }

  function LastOf(parts: seq<string>): string
    requires |parts| > 0
  {
    parts[|parts| - 1]
  }

  lemma StepEnd(s: string)
    requires s != [] && s[0] != '/'
    ensures s[StepLength(s) - 1] != '/'
  {
  }

  lemma SinglePart(s: string)
    requires |Parts(s)| == 1
    ensures Parts(s)[0] == s
  {
  }

  lemma LastOfAttach(text: string, parts: seq<string>)
    requires |parts| > 0
    ensures LastOf(Attach(text, parts)) == if |parts| == 1 then text + parts[0] else LastOf(parts)
  {
  }

  /** A slash at the end shows as an empty last part. */
  lemma {:induction false} TrailingSlash(s: string)
    requires s != []
    ensures EndsWithSlash(s) <==> LastOf(Parts(s)) == ""
    decreases |s|, 1
  {
    if s[0] == '/' {
      if |s| > 1 { TrailingSlash(s[1..]); }
    } else {
      TrailingSlashInPart(s, StepLength(s));
    }
  }

  lemma {:induction false} TrailingSlashInPart(s: string, n: nat)
    requires s != [] && s[0] != '/' && n == StepLength(s)
    ensures EndsWithSlash(s) <==> LastOf(Parts(s)) == ""
    decreases |s|, 0
  {
    var rest := s[n..];
    StepEnd(s);
    assert Parts(s) == Attach(s[..n], Parts(rest));
    LastOfAttach(s[..n], Parts(rest));
    hide StepLength, Attach;
    if rest != [] {
      TrailingSlash(rest);
      if |Parts(rest)| == 1 { SinglePart(rest); }
      hide Parts;
      assert s[|s| - 1] == rest[|rest| - 1];
    } else {
      assert Parts(rest) == [""];
    }
  }

  lemma KeptOfFirst(s: string, p: string)
    requires Leads(s, p)
    ensures Keep(Parts(s)) == (if Dropped(p) then [] else [p]) + Keep(PartsAfter(s[|p|..]))
  {
  }

  lemma {:induction false} KeptPartsRejoin(s: string, slash: bool)
    ensures Rejoins(s, Keep(Parts(s)), slash)
    decreases |s|
  {
    hide Rejoins, Parts, Whole, Keep, Dropped;
    FirstPart(s);
    var p := Parts(s)[0];
    var tail := s[|p|..];
    KeptOfFirst(s, p);
    assert s == p + tail;
    if tail == [] {
      assert Keep(PartsAfter(tail)) == [] by { NothingKept(); }
      assert Dropped(p) || !EndsWithSlash(p) by { LastPartHasNoSlash(s, p); }
      LastPartRejoins(s, p, tail, slash);
      assert (if Dropped(p) then [] else [p]) + [] == if Dropped(p) then [] else [p];
    } else {
      KeptPartsRejoin(tail[1..], slash);
      assert tail == "/" + tail[1..];
      TailRejoins(s, p, tail[1..], slash);
    }
  }

  lemma NothingKept()
    ensures Keep([]) == []
  {
  }

  lemma LastPartHasNoSlash(s: string, p: string)
    requires Parts(s) == [p] && p == s
    ensures Dropped(p) || !EndsWithSlash(p)
  {
    if s != [] { TrailingSlash(s); }
  }

  lemma TailRejoins(s: string, p: string, next: string, slash: bool)
    requires s == p + "/" + next && Whole(p, "/" + next)
    requires Rejoins(next, Keep(Parts(next)), slash)
    ensures Rejoins(s, (if Dropped(p) then [] else [p]) + Keep(Parts(next)), slash)
  {
    hide Rejoins, Parts, Whole, Dropped;
    var rest := Keep(Parts(next));
    if Dropped(p) {
      assert [] + rest == rest;
      RejoinsLonger(s, p, next, rest, slash);
    } else if rest == [] {
      assert s == p + ("/" + next) && [p] + rest == [p];
      LastPartRejoins(s, p, "/" + next, slash);
    } else {
      assert next != [] by { NoText(); }
      FrontPartRejoins(s, p, next, rest, slash);
    }
  }

  lemma RejoinsLonger(s: string, p: string, next: string, rest: seq<string>, slash: bool)
    requires s == p + "/" + next && Rejoins(next, rest, slash)
    ensures Rejoins(s, rest, slash)
  {
  }

  lemma LastPartRejoins(s: string, p: string, tail: string, slash: bool)
    requires s == p + tail && Whole(p, tail) && StartsAtSlash(tail) && (tail == [] ==> Dropped(p) || !EndsWithSlash(p))
    ensures Rejoins(s, if Dropped(p) then [] else [p], slash)
  {
    hide Whole, Parts;
    var tail' := if slash then "/" else "";
    WholeUnderNewTail(p, tail, tail');
    WholePartSplitsOff(p, tail');
    assert PartsAfter(tail') == if slash then [""] else [] by { NoText(); }
    assert forall c :: c in p ==> c in s;
  }

  lemma NoText()
    ensures Parts("") == [""] && ("/")[1..] == "" && Keep([""]) == []
  {
  }

  lemma FrontPartRejoins(s: string, p: string, next: string, rest: seq<string>, slash: bool)
    requires s == p + "/" + next && next != [] && Whole(p, "/" + next) && rest != [] && Rejoins(next, rest, slash)
    ensures Rejoins(s, [p] + rest, slash)
  {
    hide Whole, Parts;
    assert ([p] + rest)[1..] == rest;
    FrontPartSplits(p, next, Text(rest, slash));
    assert [p] + (rest + (if slash then [""] else [])) == ([p] + rest) + (if slash then [""] else []);
    assert forall c :: c in p || c in next ==> c in s;
    assert EndsWithSlash(s) <==> EndsWithSlash(next);
  }

  lemma FrontPartSplits(p: string, next: string, text: string)
    requires Whole(p, "/" + next) && (']' in text ==> ']' in next)
    ensures Parts(p + "/" + text) == [p] + Parts(text)
  {
    hide Whole, Parts;
    var tail := "/" + text;
    assert tail[1..] == text && p + tail == p + "/" + text;
    WholeUnderNewTail(p, "/" + next, tail);
    WholePartSplitsOff(p, tail);
  }

  // ---------- the canonical form ----------

  lemma {:induction false} KeptMembers(parts: seq<string>)
    ensures forall part :: part in Keep(parts) <==> part in parts && !Dropped(part)
  {
    hide Dropped;
    if parts != [] {
      KeptMembers(parts[1..]);
      assert parts == [parts[0]] + parts[1..];
    }
  }

  lemma {:induction false} NothingDropped(parts: seq<string>)
    requires forall part :: part in parts ==> !Dropped(part)
    ensures Keep(parts) == parts
  {
    hide Dropped;
    if parts != [] {
      assert parts == [parts[0]] + parts[1..];
      NothingDropped(parts[1..]);
    }
  }

  lemma KeepAgain(parts: seq<string>)
    ensures Keep(Keep(parts)) == Keep(parts) && Keep(Keep(parts) + [""]) == Keep(parts)
    ensures forall part :: part in Keep(parts) <==> part in parts && !Dropped(part)
  {
    KeptMembers(parts);
    NothingDropped(Keep(parts));
    KeepAppends(Keep(parts), "");
  }

  lemma {:induction false} SlashAddsOne(kept: seq<string>)
    requires kept != []
    ensures |Text(kept, true)| == |Text(kept, false)| + 1
  {
    if |kept| > 1 {
      SlashAddsOne(kept[1..]);
    }
  }

  lemma TrimKeepsPermitted(s: string)
    requires forall i :: 0 <= i < |s| ==> Permitted(s[i])
    ensures Trim(s) == s
  {
    TrimByNothing(IsWhitespace, s);
  }

  lemma HereIsCanonical()
    ensures Canonical("./") == Some("./") && Keep(Parts("./")) == []
  {
    assert Permitted('.') && Permitted('/');
    TrimKeepsPermitted("./");
    assert ("./")[1..] == "/" && ("/")[1..] == "" && ("./")[..1] == ".";
    assert Parts("/") == ["", ""];
    assert "." + "" == ".";
    assert Parts("./") == [".", ""];
    assert [".", ""][1..] == [""] && [""][1..] == [];
  }

  /** What is known of a canonical form built from kept parts. */
  lemma CanonicalText(scope: string)
    requires Readable(scope) && Keep(Parts(scope)) != []
    ensures var kept, slash := Keep(Parts(scope)), EndsWithSlash(scope);
            var c := Text(kept, slash);
            && 0 < |c| <= MAX_SCOPE_CHARS && c[0] != '/' && (forall i :: 0 <= i < |c| ==> Permitted(c[i]))
            && Parts(c) == kept + (if slash then [""] else []) && EndsWithSlash(c) == slash
  {
    hide Permitted, Parts;
    var kept, slash := Keep(Parts(scope)), EndsWithSlash(scope);
    var c := Text(kept, slash);
    KeptPartsRejoin(scope, slash);
    KeepAgain(Parts(scope));
    SlashAddsOne(kept);
    assert kept[0] in kept && kept[0] != "";
    assert Permitted('/') by { SlashIsPermitted(); }
    forall i | 0 <= i < |c| ensures Permitted(c[i]) {
      assert c[i] in c;
    }
    TrailingSlash(c);
    if c[0] == '/' { SlashHead(c); }
    assert !slash ==> LastOf(kept) in kept;
  }

  lemma SlashIsPermitted()
    ensures Permitted('/')
  {
  }

  lemma SlashHead(s: string)
    requires s != [] && s[0] == '/'
    ensures Parts(s)[0] == ""
  {
  }

  /** A canonical form is its own canonical form, exactly when it does not begin with a tilde. */
  lemma CanonicalAgain(value: string)
    requires Canonical(value).Some?
    ensures var c := Canonical(value).value;
            c != "" && Canonical(c) == if c[0] == '~' then None else Some(c)
  {
    hide Parts, Trim, Permitted;
    var scope := Trim(value);
    var kept, slash := Keep(Parts(scope)), EndsWithSlash(scope);
    if kept == [] {
      HereIsCanonical();
    } else {
      var c := Text(kept, slash);
      CanonicalText(scope);
      TrimKeepsPermitted(c);
      KeepAgain(Parts(scope));
      assert kept + [] == kept;
      assert ".." !in kept && ".." !in Parts(c);
      assert Keep(Parts(c)) == kept;
      assert c[0] != '~' ==> Readable(c);
    }
  }

  lemma TildeParts()
    ensures Parts("./~x") == [".", "~x"]
  {
    var s := "./~x";
    assert s[1..] == "/~x" && ("/~x")[1..] == "~x" && ("~x")[1..] == "x" && ("x")[1..] == "";
    assert s[..1] == "." && ("~x")[..1] == "~" && ("x")[..1] == "x";
    assert Parts("x") == ["x"] by { assert "x" + "" == "x"; }
    assert Parts("~x") == ["~x"] by { assert "~" + "x" == "~x"; }
    assert Parts("/~x") == ["", "~x"];
    assert "." + "" == ".";
  }

  /** The first part that is kept begins with a tilde. */
  predicate TildeFirst(value: string) {
    var kept := Keep(Parts(Trim(value)));
    kept != [] && kept[0] != "" && kept[0][0] == '~'
  }

  /** Canonicalisation is idempotent on a readable scope exactly when its first kept part does not begin with a tilde. */
  lemma CanonicalIsIdempotentIff(value: string)
    requires Canonical(value).Some?
    ensures Canonical(Canonical(value).value) == Canonical(value) <==> !TildeFirst(value)
  {
    hide Parts, Trim;
    CanonicalAgain(value);
    var kept := Keep(Parts(Trim(value)));
    KeptMembers(Parts(Trim(value)));
    if kept != [] {
      assert kept[0] in kept && kept[0] != "";
      assert Canonical(value).value[..|kept[0]|] == kept[0];
    }
  }

  /** "./~x" has the canonical form "~x", which has none. */
  lemma TildeLosesItsForm()
    ensures Canonical("./~x") == Some("~x") && Canonical("~x") == None
  {
    hide Parts, Trim;
    var s := "./~x";
    assert forall i :: 0 <= i < |s| ==> Permitted(s[i]);
    TrimKeepsPermitted(s);
    TrimKeepsPermitted("~x");
    TildeParts();
    assert Keep([".", "~x"]) == ["~x"] by { assert [".", "~x"][1..] == ["~x"] && ["~x"][1..] == []; }
    assert Text(["~x"], false) == "~x" by { assert "~x" + "" == "~x"; }
  }

  lemma {:induction false} KeepIsResolution(base: Path, parts: seq<string>)
    requires ".." !in parts
    ensures Resolve(base, parts) == base + Keep(parts)
    decreases |parts|
  {
    if parts != [] {
      KeepIsResolution(SitePaths.Push(base, parts[0]), parts[1..]);
      assert base + [parts[0]] + Keep(parts[1..]) == base + ([parts[0]] + Keep(parts[1..]));
    }
  }

  /** Where a scope points, by lexical resolution of its parts. */
  function Location(value: string): Path {
    Resolve([], Parts(Trim(value)))
  }

  lemma LocationIsKept(value: string)
    requires Canonical(value).Some?
    ensures Location(value) == Keep(Parts(Trim(value)))
  {
    KeepIsResolution([], Parts(Trim(value)));
    assert [] + Keep(Parts(Trim(value))) == Keep(Parts(Trim(value)));
  }

  /** The canonical form determines where the scope points and whether it is a directory. */
  lemma CanonicalFormTells(value: string)
    requires Canonical(value).Some?
    ensures var c := Canonical(value).value;
            EndsWithSlash(c) == EndsWithSlash(Trim(value)) && Keep(Parts(c)) == Location(value)
  {
    hide Parts, Trim;
    LocationIsKept(value);
    var scope := Trim(value);
    KeepAgain(Parts(scope));
    if Keep(Parts(scope)) == [] {
      HereIsCanonical();
    } else {
      CanonicalText(scope);
      assert Keep(Parts(scope)) + [] == Keep(Parts(scope));
    }
  }

  /** Two scopes share a canonical form exactly when they point at the same place in the same way. */
  lemma CanonicalFormIsComplete(a: string, b: string)
    requires Canonical(a).Some? && Canonical(b).Some?
    ensures Canonical(a) == Canonical(b) <==> Location(a) == Location(b) && EndsWithSlash(Trim(a)) == EndsWithSlash(Trim(b))
  {
    hide Parts, Trim, Location;
    CanonicalFormTells(a);
    CanonicalFormTells(b);
    LocationIsKept(a);
    LocationIsKept(b);
  }

  // ---------- scope lists ----------

  function CanonicalOf(scope: string): seq<string> {
    var c := Canonical(scope);
    if c.Some? then [c.value] else []
  }

  /** The first occurrences, in order. */
  function Firsts(xs: seq<string>): seq<string> {
    if xs == [] then []
    else
      var before, x := Firsts(xs[..|xs| - 1]), xs[|xs| - 1];
      if x in before then before else before + [x]
  }

  predicate AllReadable(scopes: seq<string>) {
    forall i :: 0 <= i < |scopes| ==> Canonical(scopes[i]).Some?
  }

  /** The list as compared: canonical and without repetitions, or everything if one scope is unreadable. */
  function Comparison(scopes: seq<string>): seq<string> {
    if AllReadable(scopes) then Firsts(Gather(CanonicalOf, scopes)) else ["**"]
  }

  method ComparisonWriteScopes(scopes: seq<string>) returns (canonical: seq<string>)
    ensures canonical == Comparison(scopes)
  {
    hide Canonical;
    canonical := [];
    var seen: set<string> := {};
    for i := 0 to |scopes|
      invariant AllReadable(scopes[..i])
      invariant canonical == Firsts(Gather(CanonicalOf, scopes[..i]))
      invariant forall s :: s in seen <==> s in canonical
    {
      assert scopes[..i + 1][..i] == scopes[..i];
      var scope := CanonicalWriteScope(scopes[i]);
      if scope == None { return ["**"]; }
      var all := Gather(CanonicalOf, scopes[..i]);
      assert Gather(CanonicalOf, scopes[..i + 1]) == all + [scope.value];
      assert (all + [scope.value])[..|all|] == all;
      if scope.value !in seen {
        seen := seen + {scope.value};
        canonical := canonical + [scope.value];
      }
    }
    assert scopes[..|scopes|] == scopes;
  }

  lemma {:induction false} FirstsMembers(xs: seq<string>)
    ensures forall x :: x in Firsts(xs) <==> x in xs
  {
    if xs != [] {
      FirstsMembers(xs[..|xs| - 1]);
      assert xs == xs[..|xs| - 1] + [xs[|xs| - 1]];
    }
  }

  lemma {:induction false} FirstsAgain(xs: seq<string>)
    ensures Firsts(Firsts(xs)) == Firsts(xs)
  {
    if xs != [] {
      var before, x := Firsts(xs[..|xs| - 1]), xs[|xs| - 1];
      FirstsAgain(xs[..|xs| - 1]);
      if x !in before {
        assert (before + [x])[..|before|] == before;
      }
    }
  }

  lemma {:induction false} GatherUnchanged(scopes: seq<string>)
    requires forall i :: 0 <= i < |scopes| ==> Canonical(scopes[i]) == Some(scopes[i])
    ensures Gather(CanonicalOf, scopes) == scopes
  {
    hide Canonical;
    if scopes != [] {
      GatherUnchanged(scopes[..|scopes| - 1]);
      assert scopes == scopes[..|scopes| - 1] + [scopes[|scopes| - 1]];
    }
  }

  lemma EverythingIsCanonical()
    ensures Canonical("**") == Some("**")
  {
    var s := "**";
    assert forall i :: 0 <= i < |s| ==> Permitted(s[i]);
    TrimKeepsPermitted(s);
    assert s[1..] == "*" && ("*")[1..] == "" && s[..1] == "*" && ("*")[..1] == "*";
    assert Parts("*") == ["*"] by { assert "*" + "" == "*"; }
    assert Parts(s) == ["**"] by { assert "*" + "*" == "**"; }
    assert Keep(["**"]) == ["**"] by { assert ["**"][1..] == []; }
    assert Text(["**"], false) == "**" by { assert "**" + "" == "**"; }
  }

  /** Every compared scope has itself, or because of a leading tilde nothing, for its canonical form. */
  predicate Settled(scopes: seq<string>) {
    forall i :: 0 <= i < |scopes| ==> scopes[i] != "" && Canonical(scopes[i]) == if scopes[i][0] == '~' then None else Some(scopes[i])
  }

  lemma ComparisonIsSettled(scopes: seq<string>)
    ensures Settled(Comparison(scopes))
  {
    hide Canonical;
    var all := Gather(CanonicalOf, scopes);
    if AllReadable(scopes) {
      FirstsMembers(all);
      forall i | 0 <= i < |Firsts(all)| ensures var s := Firsts(all)[i]; s != "" && Canonical(s) == if s[0] == '~' then None else Some(s) {
        var s := Firsts(all)[i];
        assert s in all;
        GatherMember(CanonicalOf, scopes, s);
        var k :| 0 <= k < |scopes| && s in CanonicalOf(scopes[k]);
        CanonicalAgain(scopes[k]);
      }
    } else {
      EverythingIsCanonical();
    }
  }

  /** A single scope in canonical form is compared as it stands. */
  lemma SingleScope(s: string)
    requires Canonical(s) == Some(s) && s != "" && s[0] != '~'
    ensures Settled([s]) && Comparison([s]) == [s]
  {
    hide Canonical;
    GatherUnchanged([s]);
    assert [s][..0] == [] && Firsts([]) == [];
  }

  predicate HasTilde(scopes: seq<string>) {
    exists i :: 0 <= i < |scopes| && scopes[i] != "" && scopes[i][0] == '~'
  }

  lemma SettledAgain(scopes: seq<string>)
    requires Settled(scopes) && Firsts(scopes) == scopes
    ensures Comparison(scopes) == if HasTilde(scopes) then ["**"] else scopes
  {
    hide Canonical;
    if !HasTilde(scopes) {
      GatherUnchanged(scopes);
    }
  }

  /** Comparing a compared list changes it exactly when one of its scopes begins with a tilde, and then to everything. */
  lemma ComparisonAgain(scopes: seq<string>)
    ensures Comparison(Comparison(scopes)) == if HasTilde(Comparison(scopes)) then ["**"] else Comparison(scopes)
    ensures Comparison(Comparison(scopes)) == Comparison(scopes) <==> !HasTilde(Comparison(scopes))
  {
    hide Canonical;
    ComparisonIsSettled(scopes);
    FirstsAgain(Gather(CanonicalOf, scopes));
    assert Firsts(["**"]) == ["**"] by { assert Firsts([]) == [] && ["**"][..0] == []; }
    SettledAgain(Comparison(scopes));
  }

  // ---------- overlap of scope lists ----------

  ghost predicate SomePairOverlaps(fold: Fold, left: seq<string>, right: seq<string>) {
    exists i, j :: 0 <= i < |left| && 0 <= j < |right| && ScopePairOverlaps(fold, left[i], right[j])
  }

  ghost predicate WriteScopesOverlap(fold: Fold, left: seq<string>, right: seq<string>) {
    SomePairOverlaps(fold, Comparison(left), Comparison(right))
  }

  lemma OverlapIsSymmetric(fold: Fold, left: seq<string>, right: seq<string>)
    ensures SomePairOverlaps(fold, left, right) <==> SomePairOverlaps(fold, right, left)
  {
    hide ScopePairOverlaps;
    forall l: string, r: string ensures ScopePairOverlaps(fold, l, r) == ScopePairOverlaps(fold, r, l) {
      PairOverlapIsSymmetric(fold, l, r);
    }
  }

  /** The scopes a lease record stands for: its own text where that is settled, else the compared text. */
  function Meant(scopes: seq<string>): seq<string> {
    if Settled(scopes) then scopes else Comparison(scopes)
  }

  /** Comparison never loses an overlap with what a record stands for. */
  lemma ComparisonLosesNothing(fold: Fold, left: seq<string>, right: seq<string>)
    requires SomePairOverlaps(fold, left, Meant(right))
    ensures SomePairOverlaps(fold, left, Comparison(right))
  {
    hide Canonical, ScopePairOverlaps;
    var i, j :| 0 <= i < |left| && 0 <= j < |Meant(right)| && ScopePairOverlaps(fold, left[i], Meant(right)[j]);
    if Settled(right) {
      var s := right[j];
      if AllReadable(right) {
        GatherUnchanged(right);
        FirstsMembers(right);
        assert s in Firsts(right);
      } else {
        EverythingOverlaps(fold, left[i]);
        assert Comparison(right)[0] == "**";
      }
    }
  }

  lemma EverythingOverlaps(fold: Fold, scope: string)
    ensures ScopePairOverlaps(fold, scope, "**")
  {
  }

  // ---------- the pieces in plain terms ----------

  /** The ASCII characters that count as whitespace, and the two others that catch people out. */
  lemma AsciiWhitespace(c: char)
    ensures c as int < 128 ==> (IsWhitespace(c) <==> c in {'\t', '\n', '\U{0b}', '\U{0c}', '\r', ' '})
    ensures IsWhitespace('\U{feff}') && IsWhitespace('\U{a0}')
  {
  }

  lemma ReadableIff(s: string)
    ensures Readable(s) <==>
            && 1 <= |s| <= 160 && s[0] != '/' && s[0] != '~'
            && (forall i :: 0 <= i < |s| ==> s[i] != '\\' && s[i] != '<' && s[i] != '>' && !IsWhitespace(s[i]))
  {
    hide IsWhitespace;
  }

  lemma SomethingKeptIff(parts: seq<string>)
    ensures Keep(parts) != [] <==> exists i :: 0 <= i < |parts| && parts[i] != "" && parts[i] != "."
  {
    KeptMembers(parts);
    hide Keep;
    if Keep(parts) != [] {
      assert Keep(parts)[0] in Keep(parts);
      var i :| 0 <= i < |parts| && parts[i] == Keep(parts)[0];
    }
    if i :| 0 <= i < |parts| && parts[i] != "" && parts[i] != "." {
      assert parts[i] in Keep(parts);
    }
  }

  /** A scope has a canonical form exactly when it is short, relative, free of the refused characters and of parent steps, and not empty. */
  lemma CanonicalIff(value: string)
    ensures var s := Trim(value);
            Canonical(value).Some? <==>
            && 1 <= |s| <= 160 && s[0] != '/' && s[0] != '~'
            && (forall i :: 0 <= i < |s| ==> s[i] != '\\' && s[i] != '<' && s[i] != '>' && !IsWhitespace(s[i]))
            && (forall i :: 0 <= i < |Parts(s)| ==> Parts(s)[i] != "..")
            && (s[|s| - 1] == '/' || exists i :: 0 <= i < |Parts(s)| && Parts(s)[i] != "" && Parts(s)[i] != ".")
  {
    hide Parts, Trim, IsWhitespace, Keep, Readable;
    var s := Trim(value);
    ReadableIff(s);
    SomethingKeptIff(Parts(s));
    NoParentIff(Parts(s));
    assert s != [] ==> (EndsWithSlash(s) <==> s[|s| - 1] == '/');
    assert Canonical(value).Some? <==> Readable(s) && ".." !in Parts(s) && (Keep(Parts(s)) != [] || EndsWithSlash(s));
  }

  lemma NoParentIff(parts: seq<string>)
    ensures ".." !in parts <==> forall i :: 0 <= i < |parts| ==> parts[i] != ".."
  {
  }

  lemma TextCons(p: string, rest: seq<string>)
    requires rest != []
    ensures Text([p] + rest, false) == p + ("/" + Text(rest, false))
  {
    assert ([p] + rest)[1..] == rest;
    assert p + "/" + Text(rest, false) == p + ("/" + Text(rest, false));
  }

  /** Parts joined by slashes are the text again. */
  lemma {:induction false} PartsJoinBack(s: string)
    ensures Text(Parts(s), false) == s
    decreases |s|
  {
    FirstPart(s);
    var p := Parts(s)[0];
    var tail := s[|p|..];
    assert s == p + tail;
    hide Whole, Parts, Text;
    if tail != [] {
      PartsJoinBack(tail[1..]);
      TextCons(p, Parts(tail[1..]));
      assert tail == "/" + tail[1..];
    } else {
      assert Parts(s) == [p];
      OnePart(p);
    }
  }

  lemma OnePart(p: string)
    ensures Text([p], false) == p
  {
    assert p + "" == p;
  }

  /** Without brackets every slash separates parts. */
  lemma {:induction false} PlainPartsHaveNoSlash(s: string)
    requires '[' !in s
    ensures forall i :: 0 <= i < |Parts(s)| ==> '/' !in Parts(s)[i]
    decreases |s|
  {
    if s != [] {
      assert '[' !in s[1..];
      PlainPartsHaveNoSlash(s[1..]);
      assert s[0] != '[';
      assert s[0] != '/' ==> StepLength(s) == 1 && s[..1] == [s[0]];
    }
  }

  /** A closed character class is never split, whatever it holds. */
  lemma ClassIsOnePart(s: string, end: nat)
    requires s != [] && s[0] == '[' && ClassEnd(s) == end
    ensures |Parts(s)[0]| > end && Parts(s)[0][..end + 1] == s[..end + 1]
  {
  }
}
