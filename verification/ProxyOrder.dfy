/**
 Comparison of a recorded proxy ranking with released native scores.

 A proxy observation counts only if it was made strictly before the native score was accepted.  Over
 the matched candidates every unordered pair is judged by two rules, the proxy score and "the later
 submission is better", against the native order.
 */
module ProxyOrder {
  import opened Options
  import opened Json
  import opened Sequences
  import opened PairCounting
  import opened ProxyPanels

  datatype Matched = Matched(proxy: real, native: real, acceptedAt: real)

  datatype Directions = Directions(proxy: Direction, native: Direction)

  datatype Rule = ProxyRule | LaterRule

  /** What a rule does on one pair. */
  datatype Outcome = Tied | Agrees | Reverses | Abstains

  datatype RuleTally = RuleTally(agrees: nat, reverses: nat, abstains: nat)

  datatype Coverage = Coverage(
    nativeCandidates: nat, proxyOnly: nat, nativeUnscored: nat, missingProxy: nat, lateProxy: nat, matched: nat)

  datatype Report = Report(cohort: string, coverage: Coverage, nativeTies: nat, proxy: RuleTally, later: RuleTally)

  function Sign(left: real, right: real): int {
    if left > right then 1 else if left < right then -1 else 0
  }

  function Order(left: real, right: real, direction: Direction): int {
    if direction.Maximize? then Sign(left, right) else Sign(right, left)
  }

  function Prediction(d: Directions, rule: Rule, l: Matched, r: Matched): int {
    if rule.ProxyRule? then Order(l.proxy, r.proxy, d.proxy) else Sign(l.acceptedAt, r.acceptedAt)
  }

  function Judge(prediction: int, actual: int): Outcome {
    if actual == 0 then Tied
    else if prediction == 0 then Abstains
    else if prediction == actual then Agrees
    else Reverses
  }

  function OutcomeOf(d: Directions, rule: Rule, l: Matched, r: Matched): Outcome {
    Judge(Prediction(d, rule, l, r), Order(l.native, r.native, d.native))
  }

  /** The pairs on which the rule has outcome `o`. */
  function Has(d: Directions, rule: Rule, o: Outcome): (Matched, Matched) -> bool {
    (l, r) => OutcomeOf(d, rule, l, r) == o
  }

  // ---------- matching ----------

  datatype Class = Unscored | Missing | Late | Joined

  /** How the join treats a native candidate. */
  function ClassOf(p: Panel, n: Panel, s: string): Class {
    if s !in n.rows || n.rows[s].score.None? then Unscored
    else if s !in p.rows then Missing
    else if p.rows[s].clock >= n.rows[s].clock then Late
    else Joined
  }

  /** The proxy panel is loaded without the option of unscored rows. */
  predicate AllScored(p: Panel) {
    forall s :: s in p.rows ==> p.rows[s].score.Some?
  }

  /** The listing order names every row exactly once. */
  ghost predicate Listed(n: Panel) {
    && (forall i, j :: 0 <= i < j < |n.order| ==> n.order[i] != n.order[j])
    && (forall s :: s in n.order <==> s in n.rows)
  }

  /** What one native candidate adds to the matched list. */
  function Contribution(p: Panel, n: Panel, s: string): seq<Matched> {
    if ClassOf(p, n, s).Joined? && p.rows[s].score.Some?
    then [Matched(p.rows[s].score.value, n.rows[s].score.value, n.rows[s].clock)]
    else []
  }

  function Contributions(p: Panel, n: Panel): string -> seq<Matched> {
    s => Contribution(p, n, s)
  }

  function MatchedIn(p: Panel, n: Panel): seq<Matched> {
    Gather(Contributions(p, n), n.order)
  }

  /** The members of `all` that `f` puts in class `c`. */
  ghost function Part<T>(all: set<T>, f: T -> Class, c: Class): set<T> {
    set s | s in all && f(s) == c
  }

  function Classes(p: Panel, n: Panel): string -> Class {
    s => ClassOf(p, n, s)
  }

  ghost function ClassSet(p: Panel, n: Panel, c: Class): set<string> {
    Part(n.rows.Keys, Classes(p, n), c)
  }

  ghost function RuleTallyOf(d: Directions, rule: Rule, xs: seq<Matched>): RuleTally {
    RuleTally(PairCount(Has(d, rule, Agrees), xs), PairCount(Has(d, rule, Reverses), xs), PairCount(Has(d, rule, Abstains), xs))
  }

  /** The report by what it means: sizes of candidate classes and numbers of pairs. */
  ghost function ReportOf(p: Panel, n: Panel): Report {
    var d, xs := Directions(p.direction, n.direction), MatchedIn(p, n);
    Report(p.cohort,
           CoverageOf(p, n),
           PairCount(Has(d, ProxyRule, Tied), xs), RuleTallyOf(d, ProxyRule, xs), RuleTallyOf(d, LaterRule, xs))
  }

  // ---------- the program ----------

  /** Counts one judged pair. */
  function Bump(t: RuleTally, o: Outcome): RuleTally {
    match o
    case Tied => t
    case Agrees => t.(agrees := t.agrees + 1)
    case Reverses => t.(reverses := t.reverses + 1)
    case Abstains => t.(abstains := t.abstains + 1)
  }

  /** The tally `t` has grown to `t'` by the pairs of `x` with the elements of `ys`. */
  ghost predicate RowAdded(d: Directions, rule: Rule, x: Matched, ys: seq<Matched>,
                           ties: nat, t: RuleTally, ties': nat, t': RuleTally) {
    && ties' == ties + RowCount(Has(d, rule, Tied), x, ys)
    && t'.agrees == t.agrees + RowCount(Has(d, rule, Agrees), x, ys)
    && t'.reverses == t.reverses + RowCount(Has(d, rule, Reverses), x, ys)
    && t'.abstains == t.abstains + RowCount(Has(d, rule, Abstains), x, ys)
  }

  lemma {:induction false} RowCountAppends(f: (Matched, Matched) -> bool, x: Matched, ys: seq<Matched>, y: Matched)
    ensures RowCount(f, x, ys + [y]) == RowCount(f, x, ys) + if f(x, y) then 1 else 0
  {
    RowCountTakesOut(f, x, ys + [y], |ys|);
    assert Without(ys + [y], |ys|) == ys;
  }

  lemma PairAdded(d: Directions, rule: Rule, x: Matched, ys: seq<Matched>, y: Matched,
                  ties: nat, t: RuleTally, ties': nat, t': RuleTally)
    requires RowAdded(d, rule, x, ys, ties, t, ties', t')
    ensures var o := OutcomeOf(d, rule, x, y);
            RowAdded(d, rule, x, ys + [y], ties, t, if o.Tied? then ties' + 1 else ties', Bump(t', o))
  {
    forall o { RowCountAppends(Has(d, rule, o), x, ys, y); }
  }

  method CountRow(d: Directions, left: Matched, ys: seq<Matched>, ties0: nat, proxy0: RuleTally, later0: RuleTally)
    returns (ties: nat, proxy: RuleTally, later: RuleTally)
    ensures RowAdded(d, ProxyRule, left, ys, ties0, proxy0, ties, proxy)
    ensures RowAdded(d, LaterRule, left, ys, ties0, later0, ties, later)
  {
    ties, proxy, later := ties0, proxy0, later0;
    for j := 0 to |ys|
      invariant RowAdded(d, ProxyRule, left, ys[..j], ties0, proxy0, ties, proxy)
      invariant RowAdded(d, LaterRule, left, ys[..j], ties0, later0, ties, later)
    {
      var right := ys[j];
      PairAdded(d, ProxyRule, left, ys[..j], right, ties0, proxy0, ties, proxy);
      PairAdded(d, LaterRule, left, ys[..j], right, ties0, later0, ties, later);
      assert ys[..j + 1] == ys[..j] + [right];
      var actual := Order(left.native, right.native, d.native);
      if actual == 0 {
        ties := ties + 1;
        continue;
      }
      proxy := Bump(proxy, Judge(Order(left.proxy, right.proxy, d.proxy), actual));
      later := Bump(later, Judge(Sign(left.acceptedAt, right.acceptedAt), actual));
    }
    assert ys[..|ys|] == ys;
  }

  /** The counters so far and the pairs of the remaining elements make up the whole counts. */
  ghost predicate Owing(d: Directions, rule: Rule, xs: seq<Matched>, rest: seq<Matched>, ties: nat, t: RuleTally) {
    && ties + PairCount(Has(d, rule, Tied), rest) == PairCount(Has(d, rule, Tied), xs)
    && t.agrees + PairCount(Has(d, rule, Agrees), rest) == PairCount(Has(d, rule, Agrees), xs)
    && t.reverses + PairCount(Has(d, rule, Reverses), rest) == PairCount(Has(d, rule, Reverses), xs)
    && t.abstains + PairCount(Has(d, rule, Abstains), rest) == PairCount(Has(d, rule, Abstains), xs)
  }

  lemma RowPaid(d: Directions, rule: Rule, xs: seq<Matched>, rest: seq<Matched>, ties: nat, t: RuleTally, ties': nat, t': RuleTally)
    requires rest != [] && Owing(d, rule, xs, rest, ties, t)
    requires RowAdded(d, rule, rest[0], rest[1..], ties, t, ties', t')
    ensures Owing(d, rule, xs, rest[1..], ties', t')
  {
  }

  /** The nested loops count every unordered pair once, for both rules. */
  method CountPairs(d: Directions, xs: seq<Matched>) returns (ties: nat, proxy: RuleTally, later: RuleTally)
    ensures ties == PairCount(Has(d, ProxyRule, Tied), xs)
    ensures proxy == RuleTallyOf(d, ProxyRule, xs) && later == RuleTallyOf(d, LaterRule, xs)
  {
    ties, proxy, later := 0, RuleTally(0, 0, 0), RuleTally(0, 0, 0);
    var rest := xs;
    while rest != []
      invariant Owing(d, ProxyRule, xs, rest, ties, proxy) && Owing(d, LaterRule, xs, rest, ties, later)
    {
      var ties', proxy', later' := CountRow(d, rest[0], rest[1..], ties, proxy, later);
      RowPaid(d, ProxyRule, xs, rest, ties, proxy, ties', proxy');
      RowPaid(d, LaterRule, xs, rest, ties, later, ties', later');
      ties, proxy, later, rest := ties', proxy', later', rest[1..];
    }
  }

  ghost function SetOf<T>(xs: seq<T>): set<T> {
    set x | x in xs
  }

  lemma PartGrows<T>(xs: seq<T>, k: nat, f: T -> Class, c: Class)
    requires k < |xs| && xs[k] !in xs[..k]
    ensures |Part(SetOf(xs[..k + 1]), f, c)| == |Part(SetOf(xs[..k]), f, c)| + if f(xs[k]) == c then 1 else 0
  {
    assert xs[..k + 1] == xs[..k] + [xs[k]];
    var before, after := Part(SetOf(xs[..k]), f, c), Part(SetOf(xs[..k + 1]), f, c);
    assert after == if f(xs[k]) == c then before + {xs[k]} else before;
  }

  ghost function CoverageOf(p: Panel, n: Panel): Coverage {
    Coverage(|n.rows|, |p.rows.Keys - n.rows.Keys|, |ClassSet(p, n, Unscored)|, |ClassSet(p, n, Missing)|,
             |ClassSet(p, n, Late)|, |ClassSet(p, n, Joined)|)
  }

  function ClassCount<T>(f: T -> Class, xs: seq<T>, c: Class): nat {
    if xs == [] then 0 else ClassCount(f, xs[..|xs| - 1], c) + if f(xs[|xs| - 1]) == c then 1 else 0
  }

  /** Counting through a listing without repetitions gives the sizes of the classes. */
  lemma {:induction false} ClassCountIsSize<T>(f: T -> Class, xs: seq<T>, k: nat, c: Class)
    requires k <= |xs| && forall i, j :: 0 <= i < j < |xs| ==> xs[i] != xs[j]
    ensures ClassCount(f, xs[..k], c) == |Part(SetOf(xs[..k]), f, c)|
  {
    if k > 0 {
      ClassCountIsSize(f, xs, k - 1, c);
      PartGrows(xs, k - 1, f, c);
      assert xs[..k][..k - 1] == xs[..k - 1];
    } else {
      assert Part(SetOf(xs[..0]), f, c) == {};
    }
  }

  lemma ListingCountsClasses(p: Panel, n: Panel, c: Class)
    requires Listed(n)
    ensures ClassCount(Classes(p, n), n.order, c) == |ClassSet(p, n, c)|
  {
    assert n.order[..|n.order|] == n.order;
    assert SetOf(n.order) == n.rows.Keys;
    ClassCountIsSize(Classes(p, n), n.order, |n.order|, c);
  }

  method ClassifyListing(p: Panel, n: Panel) returns (unscored: nat, missing: nat, late: nat, joined: nat, matched: seq<Matched>)
    requires AllScored(p) && forall k :: 0 <= k < |n.order| ==> n.order[k] in n.rows
    ensures unscored == ClassCount(Classes(p, n), n.order, Unscored) && missing == ClassCount(Classes(p, n), n.order, Missing)
    ensures late == ClassCount(Classes(p, n), n.order, Late) && joined == ClassCount(Classes(p, n), n.order, Joined)
    ensures matched == MatchedIn(p, n)
  {
    unscored, missing, late, joined, matched := 0, 0, 0, 0, [];
    for k := 0 to |n.order|
      invariant unscored == ClassCount(Classes(p, n), n.order[..k], Unscored)
      invariant missing == ClassCount(Classes(p, n), n.order[..k], Missing)
      invariant late == ClassCount(Classes(p, n), n.order[..k], Late)
      invariant joined == ClassCount(Classes(p, n), n.order[..k], Joined)
      invariant matched == Gather(Contributions(p, n), n.order[..k])
    {
      var source := n.order[k];
      assert n.order[..k + 1][..k] == n.order[..k];
      var native := n.rows[source];
      if native.score.None? {
        unscored := unscored + 1;
      } else if source !in p.rows {
        missing := missing + 1;
      } else if p.rows[source].clock >= native.clock {
        late := late + 1;
      } else {
        joined := joined + 1;
        matched := matched + [Matched(p.rows[source].score.value, native.score.value, native.clock)];
      }
    }
    assert n.order[..|n.order|] == n.order;
  }

  /** The join classifies every native candidate and keeps the matched ones in listing order. */
  method Join(p: Panel, n: Panel) returns (coverage: Coverage, matched: seq<Matched>)
    requires AllScored(p) && Listed(n)
    ensures coverage == CoverageOf(p, n) && matched == MatchedIn(p, n)
  {
    var unscored, missing, late, joined;
    unscored, missing, late, joined, matched := ClassifyListing(p, n);
    forall c { ListingCountsClasses(p, n, c); }
    coverage := Coverage(|n.rows|, |p.rows.Keys - n.rows.Keys|, unscored, missing, late, joined);
  }

  method ComparePanels(p: Panel, n: Panel) returns (report: Report)
    requires AllScored(p) && Listed(n)
    ensures report == ReportOf(p, n)
  {
    var coverage, matched := Join(p, n);
    var ties, proxy, later := CountPairs(Directions(p.direction, n.direction), matched);
    report := Report(p.cohort, coverage, ties, proxy, later);
  }

  datatype CompareError = ProxyPanelError(e: PanelError) | NativePanelError(e: PanelError) | MixedCohorts

  lemma LoadedPanelsAreUsable(p: Panel, rows: seq<Json>, clock: string, allowUnscored: bool)
    requires RowsOk(rows, clock, allowUnscored) && Represents(p, rows, clock, allowUnscored)
    ensures Listed(p) && (!allowUnscored ==> AllScored(p))
  {
  }

  /** A loaded panel, as `LoadPanel` returns it. */
  ghost predicate LoadedAs(v: Json, clock: string, allowUnscored: bool, p: Panel) {
    && PanelOk(v, clock, allowUnscored)
    && v.fields["cohort"] == Text(p.cohort)
    && v.fields["direction"] == Text(if p.direction.Minimize? then "minimize" else "maximize")
    && Represents(p, v.fields["rows"].items, clock, allowUnscored)
  }

  /** Comparison succeeds exactly on two well-formed panels of one cohort. */
  method Compare(proxy: Json, native: Json) returns (r: Result<Report, CompareError>)
    ensures r.Success? <==> PanelOk(proxy, "observed_at", false) && PanelOk(native, "accepted_at", true)
                            && proxy.fields["cohort"] == native.fields["cohort"]
    ensures r.Success? ==> exists p, n ::
      && LoadedAs(proxy, "observed_at", false, p) && LoadedAs(native, "accepted_at", true, n)
      && AllScored(p) && Listed(n) && r.value == ReportOf(p, n)
  {
    var predictions := LoadPanel(proxy, "observed_at", false);
    if predictions.Failure? { return Failure(ProxyPanelError(predictions.error)); }
    var submissions := LoadPanel(native, "accepted_at", true);
    if submissions.Failure? { return Failure(NativePanelError(submissions.error)); }
    var p, n := predictions.value, submissions.value;
    if p.cohort != n.cohort { return Failure(MixedCohorts); }
    LoadedPanelsAreUsable(p, proxy.fields["rows"].items, "observed_at", false);
    LoadedPanelsAreUsable(n, native.fields["rows"].items, "accepted_at", true);
    var report := ComparePanels(p, n);
    r := Success(report);
    assert LoadedAs(proxy, "observed_at", false, p) && LoadedAs(native, "accepted_at", true, n);
  }
}
