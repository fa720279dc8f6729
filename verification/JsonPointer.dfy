/** Following a JSON Pointer in URI-fragment form ("#/a/0/b") through a decoded document. */
module JsonPointer {
  import opened Options
  import opened Json
  import opened PythonText

  // ---------- tokens ----------

  /** Left-to-right replacement of the two characters `x``y` by `r`. */
  function Replace(s: string, x: char, y: char, r: char): string {
    if s == [] then []
    else if |s| >= 2 && s[0] == x && s[1] == y then [r] + Replace(s[2..], x, y, r)
    else [s[0]] + Replace(s[1..], x, y, r)
  }

  /** The program's two passes: `~1` to `/`, then `~0` to `~`. */
  function Unescape(s: string): string {
    Replace(Replace(s, '~', '1', '/'), '~', '0', '~')
  }

  /** One pass that decodes each escape where it stands and leaves other text alone. */
  function OnePass(s: string): string {
    if s == [] then []
    else if |s| >= 2 && s[0] == '~' && s[1] == '1' then ['/'] + OnePass(s[2..])
    else if |s| >= 2 && s[0] == '~' && s[1] == '0' then ['~'] + OnePass(s[2..])
    else [s[0]] + OnePass(s[1..])
  }

  /** The token syntax of section 3 of RFC 6901: every `~` starts an escape, and `/` does not occur. */
  predicate IsToken(s: string) {
    if s == [] then true
    else if s[0] == '~' then |s| >= 2 && s[1] in "01" && IsToken(s[2..])
    else s[0] != '/' && IsToken(s[1..])
  }

  /** The encoder of section 3 of RFC 6901. */
  function Escape(s: string): string {
    if s == [] then []
    else (if s[0] == '~' then "~0" else if s[0] == '/' then "~1" else [s[0]]) + Escape(s[1..])
  }

  lemma FirstPassHead(s: string)
    ensures var t := Replace(s, '~', '1', '/');
            t == [] <==> s == []
    ensures var t := Replace(s, '~', '1', '/');
            t != [] && t[0] == '0' ==> s[0] == '0'
  {
  }

  /** On every string the two passes decode each escape exactly once. */
  lemma {:induction false} TwoPassesAreOnePass(s: string)
    ensures Unescape(s) == OnePass(s)
  {
    var t := Replace(s, '~', '1', '/');
    if s == [] {
    } else if |s| >= 2 && s[0] == '~' && s[1] == '1' {
      TwoPassesAreOnePass(s[2..]);
      assert t[1..] == Replace(s[2..], '~', '1', '/');
    } else if |s| >= 2 && s[0] == '~' && s[1] == '0' {
      TwoPassesAreOnePass(s[2..]);
      assert s[1..][1..] == s[2..];
      assert Replace(s[1..], '~', '1', '/') == ['0'] + Replace(s[2..], '~', '1', '/');
      assert t == ['~'] + (['0'] + Replace(s[2..], '~', '1', '/'));
      assert t[2..] == Replace(s[2..], '~', '1', '/');
    } else {
      TwoPassesAreOnePass(s[1..]);
      FirstPassHead(s[1..]);
      assert t[1..] == Replace(s[1..], '~', '1', '/');
    }
  }

  /** Done in the other order the passes decode "~01" to a slash instead of "~1". */
  lemma PassOrderMatters()
    ensures OnePass("~01") == "~1" && Replace(Replace("~01", '~', '0', '~'), '~', '1', '/') == "/"
  {
  }

  lemma {:induction false} EscapeRoundTrip(s: string)
    ensures OnePass(Escape(s)) == s && IsToken(Escape(s)) && '/' !in Escape(s)
  {
    if s != [] {
      EscapeRoundTrip(s[1..]);
      var n := if s[0] == '~' || s[0] == '/' then 2 else 1;
      assert Escape(s)[n..] == Escape(s[1..]);
      assert s == [s[0]] + s[1..];
    }
  }

  // ---------- splitting ----------

  function Split(s: string): (r: seq<string>)
    ensures |r| > 0
  {
    if s == [] then [""]
    else
      var r := Split(s[1..]);
      if s[0] == '/' then [""] + r else [[s[0]] + r[0]] + r[1..]
  }

  function Join(ts: seq<string>): string
    requires |ts| > 0
  {
    if |ts| == 1 then ts[0] else ts[0] + "/" + Join(ts[1..])
  }

  lemma {:induction false} SplitToken(t: string)
    requires '/' !in t
    ensures Split(t) == [t]
  {
    if t != [] {
      SplitToken(t[1..]);
      assert t == [t[0]] + t[1..];
    }
  }

  lemma {:induction false} SplitFirst(t: string, rest: string)
    requires '/' !in t
    ensures Split(t + "/" + rest) == [t] + Split(rest)
  {
    var s := t + "/" + rest;
    if t == [] {
      assert s[1..] == rest;
    } else {
      SplitFirst(t[1..], rest);
      assert s[1..] == t[1..] + "/" + rest;
      assert t == [t[0]] + t[1..];
    }
  }

  lemma {:induction false} SplitJoin(ts: seq<string>)
    requires |ts| > 0 && forall i :: 0 <= i < |ts| ==> '/' !in ts[i]
    ensures Split(Join(ts)) == ts
  {
    if |ts| == 1 {
      SplitToken(ts[0]);
    } else {
      SplitJoin(ts[1..]);
      SplitFirst(ts[0], Join(ts[1..]));
      assert ts == [ts[0]] + ts[1..];
    }
  }

  // ---------- the walk ----------

  datatype WalkError = NotAPointer | NoSuchKey | NotAnIndex | IndexOutOfRange | NotAContainer

  /** One step: a key of an object, or an index of an array, counted from the end when negative. */
  function StepInto(current: Json, part: string): Result<Json, WalkError> {
    match current
    case Object(fields) => if part in fields then Success(fields[part]) else Failure(NoSuchKey)
    case Array(items) =>
      var i := IntOf(part);
      if i.None? then Failure(NotAnIndex)
      else if 0 <= i.value < |items| then Success(items[i.value])
      else if -|items| <= i.value < 0 then Success(items[i.value + |items|])
      else Failure(IndexOutOfRange)
    case _ => Failure(NotAContainer)
  }

  function Walk(current: Json, tokens: seq<string>): Result<Json, WalkError> {
    if tokens == [] then Success(current)
    else
      var next := StepInto(current, OnePass(tokens[0]));
      if next.Failure? then next else Walk(next.value, tokens[1..])
  }

  function Follow(payload: Json, pointer: string): Result<Json, WalkError> {
    if "#/" <= pointer then Walk(payload, Split(pointer[2..])) else Failure(NotAPointer)
  }

  /** The loop that reassigns `current` token by token. */
  method FollowPointer(payload: Json, pointer: string) returns (r: Result<Json, WalkError>)
    ensures r == Follow(payload, pointer)
  {
    if !("#/" <= pointer) { return Failure(NotAPointer); }
    var current := payload;
    var parts := Split(pointer[2..]);
    var i := 0;
    while i < |parts|
      invariant 0 <= i <= |parts|
      invariant Walk(current, parts[i..]) == Walk(payload, parts)
    {
      TwoPassesAreOnePass(parts[i]);
      var part := Unescape(parts[i]);
      assert parts[i..][1..] == parts[i + 1..];
      var next := StepInto(current, part);
      if next.Failure? { return next; }
      current := next.value;
      i := i + 1;
    }
    return Success(current);
  }

  // ---------- round trip ----------

  datatype PathStep = Key(k: string) | Index(i: nat)

  /** The value at a path, by the structure of the document alone. */
  function At(doc: Json, path: seq<PathStep>): Option<Json> {
    if path == [] then Some(doc)
    else match path[0]
      case Key(k) => if doc.Object? && k in doc.fields then At(doc.fields[k], path[1..]) else None
      case Index(i) => if doc.Array? && i < |doc.items| then At(doc.items[i], path[1..]) else None
  }

  function TokenOf(step: PathStep): string {
    match step
    case Key(k) => Escape(k)
    case Index(i) => DecimalText(i)
  }

  function TokensOf(path: seq<PathStep>): seq<string> {
    if path == [] then [] else [TokenOf(path[0])] + TokensOf(path[1..])
  }

  function PointerOf(path: seq<PathStep>): string
    requires path != []
  {
    "#/" + Join(TokensOf(path))
  }

  lemma {:induction false} DigitsAreLiteral(s: string)
    requires forall i :: 0 <= i < |s| ==> IsDigit(s[i])
    ensures OnePass(s) == s && '/' !in s
  {
    if s != [] {
      DigitsAreLiteral(s[1..]);
      assert s == [s[0]] + s[1..];
    }
  }

  lemma TokenReads(step: PathStep)
    ensures '/' !in TokenOf(step)
    ensures OnePass(TokenOf(step)) == match step case Key(k) => k case Index(i) => DecimalText(i)
  {
    match step {
      case Key(k) => EscapeRoundTrip(k);
      case Index(i) => DigitsAreLiteral(DecimalText(i));
    }
  }

  lemma StepReads(doc: Json, step: PathStep)
    requires At(doc, [step]).Some?
    ensures StepInto(doc, OnePass(TokenOf(step))) == Success(At(doc, [step]).value)
  {
    TokenReads(step);
    if step.Index? {
      IntRoundTrip(step.i);
    }
  }

  lemma FirstStep(doc: Json, path: seq<PathStep>)
    requires path != []
    ensures At(doc, path) == if At(doc, [path[0]]).None? then None else At(At(doc, [path[0]]).value, path[1..])
  {
  }

  lemma {:induction false} WalkReadsPath(doc: Json, path: seq<PathStep>)
    requires At(doc, path).Some?
    ensures Walk(doc, TokensOf(path)) == Success(At(doc, path).value)
  {
    if path != [] {
      FirstStep(doc, path);
      StepReads(doc, path[0]);
      assert TokensOf(path)[1..] == TokensOf(path[1..]);
      WalkReadsPath(At(doc, [path[0]]).value, path[1..]);
    }
  }

  lemma {:induction false} TokensHaveNoSlash(path: seq<PathStep>)
    ensures |TokensOf(path)| == |path| && forall i :: 0 <= i < |path| ==> '/' !in TokensOf(path)[i]
  {
    if path != [] {
      TokenReads(path[0]);
      TokensHaveNoSlash(path[1..]);
    }
  }

  /** Following the encoded pointer of a path gives the value at that path. */
  lemma PointerRoundTrip(doc: Json, path: seq<PathStep>)
    requires path != [] && At(doc, path).Some?
    ensures Follow(doc, PointerOf(path)) == Success(At(doc, path).value)
  {
    TokensHaveNoSlash(path);
    SplitJoin(TokensOf(path));
    assert PointerOf(path)[2..] == Join(TokensOf(path));
    WalkReadsPath(doc, path);
  }

  /** Whatever a walk returns lies at a path of the document with one step for each token. */
  lemma {:induction false} WalkStaysInside(doc: Json, tokens: seq<string>) returns (path: seq<PathStep>)
    requires Walk(doc, tokens).Success?
    ensures |path| == |tokens| && At(doc, path) == Some(Walk(doc, tokens).value)
  {
    if tokens == [] {
      path := [];
    } else {
      var part := OnePass(tokens[0]);
      var next := StepInto(doc, part).value;
      var rest := WalkStaysInside(next, tokens[1..]);
      var i := if doc.Array? then IntOf(part).value else 0;
      var step := if doc.Object? then Key(part) else Index(if i < 0 then i + |doc.items| else i);
      path := [step] + rest;
      assert path[1..] == rest;
    }
  }

  // ---------- when a walk fails ----------

  /** The value a step leads to, if there is one: a key of an object, or an index counted from either end of an array. */
  ghost predicate LeadsTo(current: Json, part: string, next: Json) {
    match current
    case Object(fields) => part in fields && next == fields[part]
    case Array(items) =>
      && IntOf(part).Some?
      && exists k :: 0 <= k < |items| && next == items[k] && (IntOf(part).value == k || IntOf(part).value == k - |items|)
    case _ => false
  }

  /** A step succeeds exactly when it leads somewhere, and then there. */
  lemma StepIff(current: Json, part: string, next: Json)
    ensures StepInto(current, part) == Success(next) <==> LeadsTo(current, part, next)
  {
    if current.Array? && StepInto(current, part) == Success(next) {
      var i := IntOf(part).value;
      var k := if i < 0 then i + |current.items| else i;
      assert next == current.items[k];
    }
  }

  /** Each failure names its cause. */
  lemma StepFailuresAreTrue(current: Json, part: string)
    requires StepInto(current, part).Failure?
    ensures match StepInto(current, part).error
            case NoSuchKey => current.Object? && part !in current.fields
            case NotAnIndex => current.Array? && IntOf(part).None?
            case IndexOutOfRange =>
              current.Array? && IntOf(part).Some? && !(-|current.items| <= IntOf(part).value < |current.items|)
            case NotAContainer => !current.Object? && !current.Array?
            case NotAPointer => false
  {
  }

  /** A chain of values, each led to by its token. */
  ghost predicate Chain(values: seq<Json>, tokens: seq<string>) {
    && |values| == |tokens| + 1
    && forall i :: 0 <= i < |tokens| ==> LeadsTo(values[i], OnePass(tokens[i]), values[i + 1])
  }

  lemma {:induction false} WalkGivesChain(current: Json, tokens: seq<string>) returns (values: seq<Json>)
    requires Walk(current, tokens).Success?
    ensures Chain(values, tokens) && values[0] == current && values[|tokens|] == Walk(current, tokens).value
  {
    values := [current];
    if tokens != [] {
      var next := StepInto(current, OnePass(tokens[0])).value;
      StepIff(current, OnePass(tokens[0]), next);
      var rest := WalkGivesChain(next, tokens[1..]);
      hide LeadsTo, Walk, StepInto;
      values := [current] + rest;
      forall i | 0 <= i < |tokens| ensures LeadsTo(values[i], OnePass(tokens[i]), values[i + 1]) {
        if i > 0 {
          assert tokens[i] == tokens[1..][i - 1] && values[i] == rest[i - 1] && values[i + 1] == rest[i];
        }
      }
    }
  }

  lemma {:induction false} ChainGivesWalk(values: seq<Json>, tokens: seq<string>)
    requires Chain(values, tokens)
    ensures Walk(values[0], tokens) == Success(values[|tokens|])
  {
    if tokens != [] {
      StepIff(values[0], OnePass(tokens[0]), values[1]);
      hide LeadsTo;
      assert forall i :: 0 <= i < |tokens| - 1 ==> values[1..][i] == values[i + 1] && tokens[1..][i] == tokens[i + 1];
      assert Chain(values[1..], tokens[1..]);
      ChainGivesWalk(values[1..], tokens[1..]);
    }
  }

  /** Following a pointer gives a value exactly when it starts with "#/" and each token leads from value to value. */
  lemma FollowIff(payload: Json, pointer: string, result: Json)
    ensures Follow(payload, pointer) == Success(result) <==>
            && |pointer| >= 2 && pointer[0] == '#' && pointer[1] == '/'
            && exists values :: Chain(values, Split(pointer[2..])) && values[0] == payload && values[|values| - 1] == result
  {
    hide LeadsTo, Walk;
    assert "#/" <= pointer <==> |pointer| >= 2 && pointer[0] == '#' && pointer[1] == '/' by {
      if |pointer| >= 2 && pointer[0] == '#' && pointer[1] == '/' {
        assert pointer[..2] == "#/";
      }
    }
    if "#/" <= pointer {
      var tokens := Split(pointer[2..]);
      if Walk(payload, tokens) == Success(result) {
        var values := WalkGivesChain(payload, tokens);
      }
      if values :| Chain(values, tokens) && values[0] == payload && values[|values| - 1] == result {
        ChainGivesWalk(values, tokens);
      }
    }
  }
}
