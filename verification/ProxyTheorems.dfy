/** What the proxy comparison report means, and what cannot change it. */
module ProxyTheorems {
  import opened Options
  import opened Json
  import opened Sequences
  import opened PairCounting
  import opened ProxyPanels
  import opened ProxyOrder

  // ---------- conservation ----------

  /** Every native candidate falls in exactly one of the four coverage classes. */
  lemma CoveragePartitionsCandidates(p: Panel, n: Panel)
    ensures var c := CoverageOf(p, n);
            c.nativeCandidates == c.nativeUnscored + c.missingProxy + c.lateProxy + c.matched
  {
    PartsAddUp(n.rows.Keys, Classes(p, n));
  }

  lemma PartsAddUp<T>(all: set<T>, f: T -> Class)
    ensures |all| == |Part(all, f, Unscored)| + |Part(all, f, Missing)| + |Part(all, f, Late)| + |Part(all, f, Joined)|
  {
    var a, b, c, d := Part(all, f, Unscored), Part(all, f, Missing), Part(all, f, Late), Part(all, f, Joined);
    forall x | x in all ensures x in a + b + c + d {
      assert f(x) in {Unscored, Missing, Late, Joined};
    }
    assert all == a + b + c + d;
    assert |a + b + c + d| == |a + b + c| + |d|;
    assert |a + b + c| == |a + b| + |c|;
  }

  lemma {:induction false} MatchedCount(p: Panel, n: Panel, order: seq<string>)
    requires AllScored(p)
    ensures |Gather(Contributions(p, n), order)| == ClassCount(Classes(p, n), order, Joined)
  {
    if order != [] {
      MatchedCount(p, n, order[..|order| - 1]);
    }
  }

  lemma MatchedInCount(p: Panel, n: Panel)
    requires AllScored(p) && Listed(n)
    ensures |MatchedIn(p, n)| == |ClassSet(p, n, Joined)|
  {
    MatchedCount(p, n, n.order);
    ListingCountsClasses(p, n, Joined);
  }

  lemma {:induction false} RowOutcomesAddUp(d: Directions, rule: Rule, x: Matched, ys: seq<Matched>)
    ensures RowCount(Has(d, rule, Agrees), x, ys) + RowCount(Has(d, rule, Reverses), x, ys)
          + RowCount(Has(d, rule, Abstains), x, ys) + RowCount(Has(d, rule, Tied), x, ys) == |ys|
  {
    if ys != [] {
      RowOutcomesAddUp(d, rule, x, ys[1..]);
    }
  }

  lemma Triangle(n: int)
    ensures (n + 1) * n == n * (n - 1) + 2 * n
  {
  }

  lemma {:induction false} OutcomesAddUp(d: Directions, rule: Rule, xs: seq<Matched>)
    ensures 2 * (PairCount(Has(d, rule, Agrees), xs) + PairCount(Has(d, rule, Reverses), xs)
               + PairCount(Has(d, rule, Abstains), xs) + PairCount(Has(d, rule, Tied), xs)) == |xs| * (|xs| - 1)
  {
    if xs != [] {
      RowOutcomesAddUp(d, rule, xs[0], xs[1..]);
      OutcomesAddUp(d, rule, xs[1..]);
      Triangle(|xs[1..]|);
    }
  }

  lemma TiesIgnoreTheRule(d: Directions, xs: seq<Matched>)
    ensures PairCount(Has(d, LaterRule, Tied), xs) == PairCount(Has(d, ProxyRule, Tied), xs)
  {
    PairCountPointwise(Has(d, LaterRule, Tied), xs, Has(d, ProxyRule, Tied), xs);
  }

  lemma TalliesAddUp(d: Directions, xs: seq<Matched>)
    ensures var ties, proxy, later := PairCount(Has(d, ProxyRule, Tied), xs), RuleTallyOf(d, ProxyRule, xs), RuleTallyOf(d, LaterRule, xs);
            && 2 * (proxy.agrees + proxy.reverses + proxy.abstains + ties) == |xs| * (|xs| - 1)
            && 2 * (later.agrees + later.reverses + later.abstains + ties) == |xs| * (|xs| - 1)
  {
    OutcomesAddUp(d, ProxyRule, xs);
    OutcomesAddUp(d, LaterRule, xs);
    TiesIgnoreTheRule(d, xs);
  }

  /** For each rule, agreements, reversals, abstentions and native ties are all pairs of matched candidates. */
  lemma ReportConservesPairs(p: Panel, n: Panel)
    requires AllScored(p) && Listed(n)
    ensures var r := ReportOf(p, n);
            var pairs := r.coverage.matched * (r.coverage.matched - 1);
            && 2 * (r.proxy.agrees + r.proxy.reverses + r.proxy.abstains + r.nativeTies) == pairs
            && 2 * (r.later.agrees + r.later.reverses + r.later.abstains + r.nativeTies) == pairs
  {
    MatchedInCount(p, n);
    TalliesAddUp(Directions(p.direction, n.direction), MatchedIn(p, n));
  }

  // ---------- the Kendall statistic ----------

  function Concordance(d: Directions, rule: Rule, l: Matched, r: Matched): int {
    Order(l.native, r.native, d.native) * Prediction(d, rule, l, r)
  }

  function RowConcordance(d: Directions, rule: Rule, x: Matched, ys: seq<Matched>): int {
    if ys == [] then 0 else Concordance(d, rule, x, ys[0]) + RowConcordance(d, rule, x, ys[1..])
  }

  /** Sum over unordered pairs of the product of the native sign and the predicted sign. */
  function KendallSum(d: Directions, rule: Rule, xs: seq<Matched>): int {
    if xs == [] then 0 else RowConcordance(d, rule, xs[0], xs[1..]) + KendallSum(d, rule, xs[1..])
  }

  lemma {:induction false} RowIsKendall(d: Directions, rule: Rule, x: Matched, ys: seq<Matched>)
    ensures RowCount(Has(d, rule, Agrees), x, ys) - RowCount(Has(d, rule, Reverses), x, ys) == RowConcordance(d, rule, x, ys)
  {
    if ys != [] {
      RowIsKendall(d, rule, x, ys[1..]);
    }
  }

  /** Agreements minus reversals is the Kendall sum. */
  lemma {:induction false} AgreementsMinusReversals(d: Directions, rule: Rule, xs: seq<Matched>)
    ensures PairCount(Has(d, rule, Agrees), xs) - PairCount(Has(d, rule, Reverses), xs) == KendallSum(d, rule, xs)
  {
    if xs != [] {
      RowIsKendall(d, rule, xs[0], xs[1..]);
      AgreementsMinusReversals(d, rule, xs[1..]);
    }
  }

  // ---------- zero reversals ----------

  /** Weakly sorted by the direction-adjusted native score and by the direction-adjusted proxy score at once. */
  ghost predicate CoSorted(d: Directions, ys: seq<Matched>) {
    forall i, j :: 0 <= i < j < |ys| ==>
      Order(ys[i].native, ys[j].native, d.native) <= 0 && Order(ys[i].proxy, ys[j].proxy, d.proxy) <= 0
  }

  predicate Before(d: Directions, a: Matched, b: Matched) {
    var native := Order(a.native, b.native, d.native);
    native < 0 || (native == 0 && Order(a.proxy, b.proxy, d.proxy) <= 0)
  }

  ghost predicate Sorted(d: Directions, ys: seq<Matched>) {
    forall i, j :: 0 <= i < j < |ys| ==> Before(d, ys[i], ys[j])
  }

  lemma BeforeIsATotalOrder(d: Directions, a: Matched, b: Matched, c: Matched)
    ensures Before(d, a, b) || Before(d, b, a)
    ensures Before(d, a, b) && Before(d, b, c) ==> Before(d, a, c)
  {
  }

  lemma {:induction false} Inserted(d: Directions, x: Matched, ys: seq<Matched>) returns (zs: seq<Matched>)
    requires Sorted(d, ys)
    ensures Sorted(d, zs) && multiset(zs) == multiset(ys) + multiset{x}
  {
    hide Before;
    if ys == [] || Before(d, x, ys[0]) {
      zs := [x] + ys;
      forall j | 0 < j < |ys| ensures Before(d, x, ys[j]) {
        BeforeIsATotalOrder(d, x, ys[0], ys[j]);
      }
    } else {
      var rest := Inserted(d, x, ys[1..]);
      zs := [ys[0]] + rest;
      assert ys == [ys[0]] + ys[1..];
      forall j | 0 <= j < |rest| ensures Before(d, ys[0], rest[j]) {
        BeforeIsATotalOrder(d, x, ys[0], x);
        assert rest[j] in multiset(ys[1..]) + multiset{x};
        if rest[j] != x {
          assert rest[j] in ys[1..];
        }
      }
    }
  }

  lemma {:induction false} Arranged(d: Directions, xs: seq<Matched>) returns (ys: seq<Matched>)
    ensures Sorted(d, ys) && multiset(ys) == multiset(xs)
  {
    if xs == [] {
      ys := [];
    } else {
      var rest := Arranged(d, xs[1..]);
      ys := Inserted(d, xs[0], rest);
      assert xs == [xs[0]] + xs[1..];
    }
  }

  lemma OutcomesAreSymmetric(d: Directions, rule: Rule, o: Outcome)
    ensures Symmetric(Has(d, rule, o))
  {
  }

  /** The proxy never reverses a native order exactly when one arrangement is sorted by both scores. */
  lemma ZeroReversalsIffCoSorted(d: Directions, xs: seq<Matched>)
    ensures PairCount(Has(d, ProxyRule, Reverses), xs) == 0 <==> exists ys :: multiset(ys) == multiset(xs) && CoSorted(d, ys)
  {
    var f := Has(d, ProxyRule, Reverses);
    OutcomesAreSymmetric(d, ProxyRule, Reverses);
    if PairCount(f, xs) == 0 {
      var ys := Arranged(d, xs);
      PairCountOfPermutation(f, xs, ys);
      NoPairs(f, ys);
      forall i, j | 0 <= i < j < |ys|
        ensures Order(ys[i].native, ys[j].native, d.native) <= 0 && Order(ys[i].proxy, ys[j].proxy, d.proxy) <= 0
      {
        assert Before(d, ys[i], ys[j]) && !f(ys[i], ys[j]);
      }
      assert CoSorted(d, ys);
    }
    if ys :| multiset(ys) == multiset(xs) && CoSorted(d, ys) {
      NoPairs(f, ys);
      PairCountOfPermutation(f, xs, ys);
    }
  }

  // ---------- native ties ----------

  function CountNative(xs: seq<Matched>, v: real): nat {
    if xs == [] then 0 else (if xs[0].native == v then 1 else 0) + CountNative(xs[1..], v)
  }

  function DropNative(xs: seq<Matched>, v: real): (r: seq<Matched>)
    ensures |r| <= |xs| && (|xs| > 0 && xs[0].native == v ==> |r| < |xs|)
  {
    if xs == [] then [] else (if xs[0].native == v then [] else [xs[0]]) + DropNative(xs[1..], v)
  }

  /** Sum of k(k-1) over the distinct native scores, k being the score's multiplicity. */
  function TieGroups(xs: seq<Matched>): int
    decreases |xs|
  {
    if xs == [] then 0
    else
      var k := CountNative(xs, xs[0].native);
      k * (k - 1) + TieGroups(DropNative(xs, xs[0].native))
  }

  lemma {:induction false} RowTies(d: Directions, x: Matched, ys: seq<Matched>, v: real)
    ensures x.native == v ==> RowCount(Has(d, ProxyRule, Tied), x, ys) == CountNative(ys, v)
    ensures x.native != v ==> RowCount(Has(d, ProxyRule, Tied), x, ys) == RowCount(Has(d, ProxyRule, Tied), x, DropNative(ys, v))
  {
    if ys != [] {
      RowTies(d, x, ys[1..], v);
      var rest := DropNative(ys[1..], v);
      if ys[0].native != v {
        assert DropNative(ys, v)[1..] == rest;
      } else {
        assert DropNative(ys, v) == rest;
      }
    }
  }

  lemma {:induction false} TiesSplitOffOneScore(d: Directions, xs: seq<Matched>, v: real)
    ensures var k := CountNative(xs, v);
            2 * PairCount(Has(d, ProxyRule, Tied), xs) == k * (k - 1) + 2 * PairCount(Has(d, ProxyRule, Tied), DropNative(xs, v))
  {
    if xs != [] {
      TiesSplitOffOneScore(d, xs[1..], v);
      RowTies(d, xs[0], xs[1..], v);
      var rest := DropNative(xs[1..], v);
      if xs[0].native != v {
        assert DropNative(xs, v)[0] == xs[0] && DropNative(xs, v)[1..] == rest;
      } else {
        assert DropNative(xs, v) == rest;
        Triangle(CountNative(xs[1..], v));
      }
    }
  }

  /** The tied pairs are those inside the groups of equal native scores. */
  lemma {:induction false} TiesAreGroups(d: Directions, xs: seq<Matched>)
    ensures 2 * PairCount(Has(d, ProxyRule, Tied), xs) == TieGroups(xs)
    decreases |xs|
  {
    if xs != [] {
      TiesSplitOffOneScore(d, xs, xs[0].native);
      TiesAreGroups(d, DropNative(xs, xs[0].native));
    }
  }

  // ---------- the order of the rows ----------

  lemma SameParts<T>(all: set<T>, f: T -> Class, g: T -> Class)
    requires forall x :: x in all ==> f(x) == g(x)
    ensures forall c :: Part(all, f, c) == Part(all, g, c)
  {
  }

  lemma SameCoverage(p: Panel, n: Panel, p': Panel, n': Panel)
    requires p'.rows.Keys == p.rows.Keys && n'.rows.Keys == n.rows.Keys
    requires forall s :: s in n.rows.Keys ==> ClassOf(p, n, s) == ClassOf(p', n', s)
    ensures CoverageOf(p, n) == CoverageOf(p', n')
  {
    SameParts(n.rows.Keys, Classes(p, n), Classes(p', n'));
    assert |n.rows| == |n.rows.Keys| && |n'.rows| == |n'.rows.Keys|;
  }

  /** A report is its coverage and its pair counts. */
  lemma SameReport(p: Panel, n: Panel, p': Panel, n': Panel)
    requires p'.cohort == p.cohort && p'.direction == p.direction && n'.direction == n.direction
    requires CoverageOf(p, n) == CoverageOf(p', n')
    requires forall rule, o :: var f := Has(Directions(p.direction, n.direction), rule, o);
                               PairCount(f, MatchedIn(p, n)) == PairCount(f, MatchedIn(p', n'))
    ensures ReportOf(p, n) == ReportOf(p', n')
  {
  }

  /** Panels that differ only in listing order give one report. */
  lemma ListingOrderIsIrrelevant(p: Panel, p': Panel, n: Panel, n': Panel)
    requires p' == p.(order := p'.order) && n' == n.(order := n'.order) && multiset(n.order) == multiset(n'.order)
    ensures ReportOf(p, n) == ReportOf(p', n')
  {
    PermutedMatches(p, n, p', n');
    SameCoverage(p, n, p', n');
    forall rule, o {
      PermutedCount(Directions(p.direction, n.direction), rule, o, MatchedIn(p, n), MatchedIn(p', n'));
    }
    SameReport(p, n, p', n');
  }

  lemma SameContributions(p: Panel, n: Panel, p': Panel, n': Panel, order: seq<string>)
    requires forall s :: Contribution(p, n, s) == Contribution(p', n', s)
    ensures Gather(Contributions(p, n), order) == Gather(Contributions(p', n'), order)
  {
    hide Contribution;
    GatherPointwise(Contributions(p, n), Contributions(p', n'), order);
  }

  lemma SameRowsMatch(p: Panel, n: Panel, p': Panel, n': Panel)
    requires p'.rows == p.rows && n'.rows == n.rows
    ensures forall s :: ClassOf(p, n, s) == ClassOf(p', n', s) && Contribution(p, n, s) == Contribution(p', n', s)
  {
  }

  lemma PermutedMatches(p: Panel, n: Panel, p': Panel, n': Panel)
    requires p'.rows == p.rows && n'.rows == n.rows && multiset(n.order) == multiset(n'.order)
    ensures multiset(MatchedIn(p, n)) == multiset(MatchedIn(p', n'))
  {
    hide Contribution, Contributions;
    GatherOfPermutation(Contributions(p, n), n.order, n'.order);
    SameRowsMatch(p, n, p', n');
    SameContributions(p, n, p', n', n'.order);
  }

  lemma PermutedCount(d: Directions, rule: Rule, o: Outcome, xs: seq<Matched>, ys: seq<Matched>)
    requires multiset(xs) == multiset(ys)
    ensures PairCount(Has(d, rule, o), xs) == PairCount(Has(d, rule, o), ys)
  {
    OutcomesAreSymmetric(d, rule, o);
    PairCountOfPermutation(Has(d, rule, o), xs, ys);
  }

  lemma SameListing(p: Panel, p': Panel)
    requires Listed(p) && Listed(p') && p.rows.Keys == p'.rows.Keys
    ensures multiset(p.order) == multiset(p'.order)
  {
    forall s ensures multiset(p.order)[s] == multiset(p'.order)[s] {
      ListedOnce(p, s);
      ListedOnce(p', s);
    }
  }

  lemma ListedOnce(p: Panel, s: string)
    requires Listed(p)
    ensures multiset(p.order)[s] == if s in p.rows then 1 else 0
  {
    if multiset(p.order)[s] >= 2 {
      var i, j := RepeatFound(p.order, s);
    }
    assert s in multiset(p.order) <==> s in p.order;
  }

  /** Permuting the rows of either panel document changes neither whether it loads nor the report. */
  lemma RowOrderIsIrrelevant(proxy: Json, proxy': Json, native: Json, native': Json, p: Panel, n: Panel, p': Panel, n': Panel)
    requires LoadedAs(proxy, "observed_at", false, p) && LoadedAs(native, "accepted_at", true, n)
    requires proxy'.Object? && native'.Object? && "rows" in proxy'.fields && "rows" in native'.fields
    requires proxy'.fields["rows"].Array? && native'.fields["rows"].Array?
    requires proxy' == Object(proxy.fields["rows" := proxy'.fields["rows"]]) && native' == Object(native.fields["rows" := native'.fields["rows"]])
    requires multiset(proxy'.fields["rows"].items) == multiset(proxy.fields["rows"].items)
    requires multiset(native'.fields["rows"].items) == multiset(native.fields["rows"].items)
    ensures PanelOk(proxy', "observed_at", false) && PanelOk(native', "accepted_at", true)
    ensures LoadedAs(proxy', "observed_at", false, p') && LoadedAs(native', "accepted_at", true, n')
            ==> ReportOf(p', n') == ReportOf(p, n)
  {
    var rows, rows' := proxy.fields["rows"].items, proxy'.fields["rows"].items;
    var subs, subs' := native.fields["rows"].items, native'.fields["rows"].items;
    RowOrderDoesNotDecideLoading(rows, rows', "observed_at", false);
    RowOrderDoesNotDecideLoading(subs, subs', "accepted_at", true);
    LoadedPanelsAreUsable(n, subs, "accepted_at", true);
    if LoadedAs(proxy', "observed_at", false, p') && LoadedAs(native', "accepted_at", true, n') {
      LoadedPanelsAreUsable(n', subs', "accepted_at", true);
      PermutedRowsGiveTheSameTable(p, p', rows, rows', "observed_at", false);
      PermutedRowsGiveTheSameTable(n, n', subs, subs', "accepted_at", true);
      SameListing(n, n');
      ListingOrderIsIrrelevant(p, p', n, n');
    }
  }

  // ---------- what the report does not look at ----------

  /**
   No look-ahead.  Changing proxy rows of candidates that are unmatched, unscored, or late before and
   after the change, or moving an early observation while it stays early, leaves the report as it was.
   */
  lemma NoLookAhead(p: Panel, p': Panel, n: Panel)
    requires p'.cohort == p.cohort && p'.direction == p.direction && p'.rows.Keys == p.rows.Keys
    requires forall s :: s in n.rows && n.rows[s].score.Some? && s in p.rows ==>
      (p.rows[s].clock >= n.rows[s].clock <==> p'.rows[s].clock >= n.rows[s].clock)
      && (p.rows[s].clock < n.rows[s].clock ==> p'.rows[s].score == p.rows[s].score)
    ensures ReportOf(p', n) == ReportOf(p, n)
  {
    hide ClassOf, Contribution, Contributions, PairCount, Has;
    forall s ensures ClassOf(p, n, s) == ClassOf(p', n, s) && Contribution(p, n, s) == Contribution(p', n, s) {
      LateScoresDoNotEnter(p, p', n, s);
    }
    SameCoverage(p, n, p', n);
    SameContributions(p, n, p', n, n.order);
    SameReport(p, n, p', n);
  }

  lemma LateScoresDoNotEnter(p: Panel, p': Panel, n: Panel, s: string)
    requires s in p.rows <==> s in p'.rows
    requires s in n.rows && n.rows[s].score.Some? && s in p.rows ==>
      (p.rows[s].clock >= n.rows[s].clock <==> p'.rows[s].clock >= n.rows[s].clock)
      && (p.rows[s].clock < n.rows[s].clock ==> p'.rows[s].score == p.rows[s].score)
    ensures ClassOf(p, n, s) == ClassOf(p', n, s) && Contribution(p, n, s) == Contribution(p', n, s)
  {
  }

  // ---------- scales and directions ----------

  ghost predicate Increasing(f: real -> real) {
    forall x: real, y: real :: x < y ==> f(x) < f(y)
  }

  function Rescale(p: Panel, score: real -> real, clock: real -> real): Panel {
    p.(rows := map s | s in p.rows ::
                 var r := p.rows[s];
                 Row(clock(r.clock), if r.score.Some? then Some(score(r.score.value)) else None))
  }

  function RescaleMatched(m: Matched, proxy: real -> real, native: real -> real, clock: real -> real): Matched {
    Matched(proxy(m.proxy), native(m.native), clock(m.acceptedAt))
  }

  lemma RescaledOutcome(d: Directions, rule: Rule, l: Matched, r: Matched, proxy: real -> real, native: real -> real, clock: real -> real)
    requires Increasing(proxy) && Increasing(native) && Increasing(clock)
    ensures OutcomeOf(d, rule, RescaleMatched(l, proxy, native, clock), RescaleMatched(r, proxy, native, clock)) == OutcomeOf(d, rule, l, r)
  {
  }

  lemma RescaledClass(p: Panel, n: Panel, s: string, proxy: real -> real, native: real -> real, clock: real -> real)
    requires Increasing(clock)
    ensures ClassOf(Rescale(p, proxy, clock), Rescale(n, native, clock), s) == ClassOf(p, n, s)
  {
  }

  /** `ys` is `xs` on the new scales. */
  ghost predicate Rescaled(xs: seq<Matched>, ys: seq<Matched>, proxy: real -> real, native: real -> real, clock: real -> real) {
    |xs| == |ys| && forall i :: 0 <= i < |xs| ==> ys[i] == RescaleMatched(xs[i], proxy, native, clock)
  }

  lemma {:induction false} RescaledMatches(p: Panel, n: Panel, order: seq<string>, proxy: real -> real, native: real -> real, clock: real -> real)
    requires Increasing(clock)
    ensures Rescaled(Gather(Contributions(p, n), order),
                     Gather(Contributions(Rescale(p, proxy, clock), Rescale(n, native, clock)), order), proxy, native, clock)
  {
    if order != [] {
      RescaledMatches(p, n, order[..|order| - 1], proxy, native, clock);
      RescaledClass(p, n, order[|order| - 1], proxy, native, clock);
    }
  }

  lemma RescaledCoverage(p: Panel, n: Panel, proxy: real -> real, native: real -> real, clock: real -> real)
    requires Increasing(clock)
    ensures CoverageOf(Rescale(p, proxy, clock), Rescale(n, native, clock)) == CoverageOf(p, n)
  {
    var p', n' := Rescale(p, proxy, clock), Rescale(n, native, clock);
    assert n'.rows.Keys == n.rows.Keys && p'.rows.Keys == p.rows.Keys;
    forall s ensures ClassOf(p, n, s) == ClassOf(p', n', s) {
      RescaledClass(p, n, s, proxy, native, clock);
    }
    SameCoverage(p, n, p', n');
  }

  lemma RescaledCount(d: Directions, rule: Rule, o: Outcome, xs: seq<Matched>, ys: seq<Matched>,
                      proxy: real -> real, native: real -> real, clock: real -> real)
    requires Increasing(proxy) && Increasing(native) && Increasing(clock) && Rescaled(xs, ys, proxy, native, clock)
    ensures PairCount(Has(d, rule, o), xs) == PairCount(Has(d, rule, o), ys)
  {
    forall i, j | 0 <= i < j < |xs| ensures Has(d, rule, o)(xs[i], xs[j]) == Has(d, rule, o)(ys[i], ys[j]) {
      RescaledOutcome(d, rule, xs[i], xs[j], proxy, native, clock);
    }
    PairCountPointwise(Has(d, rule, o), xs, Has(d, rule, o), ys);
  }

  /** Strictly increasing changes of the proxy scale, the native scale and the common clock change nothing. */
  lemma ReportIgnoresScales(p: Panel, n: Panel, proxy: real -> real, native: real -> real, clock: real -> real)
    requires Increasing(proxy) && Increasing(native) && Increasing(clock)
    ensures ReportOf(Rescale(p, proxy, clock), Rescale(n, native, clock)) == ReportOf(p, n)
  {
    var p', n' := Rescale(p, proxy, clock), Rescale(n, native, clock);
    RescaledCoverage(p, n, proxy, native, clock);
    RescaledMatches(p, n, n.order, proxy, native, clock);
    forall rule, o {
      RescaledCount(Directions(p.direction, n.direction), rule, o, MatchedIn(p, n), MatchedIn(p', n'), proxy, native, clock);
    }
    SameReport(p, n, p', n');
  }

  function Flip(d: Direction): Direction {
    if d.Minimize? then Maximize else Minimize
  }

  function Swapped(o: Outcome): Outcome {
    if o.Agrees? then Reverses else if o.Reverses? then Agrees else o
  }

  /** Flipping the proxy direction swaps agreement and reversal for the proxy rule and nothing else. */
  lemma FlippingTheProxy(d: Directions, xs: seq<Matched>, o: Outcome)
    ensures var d' := d.(proxy := Flip(d.proxy));
            && PairCount(Has(d', ProxyRule, o), xs) == PairCount(Has(d, ProxyRule, Swapped(o)), xs)
            && PairCount(Has(d', LaterRule, o), xs) == PairCount(Has(d, LaterRule, o), xs)
  {
    var d' := d.(proxy := Flip(d.proxy));
    PairCountPointwise(Has(d', ProxyRule, o), xs, Has(d, ProxyRule, Swapped(o)), xs);
    PairCountPointwise(Has(d', LaterRule, o), xs, Has(d, LaterRule, o), xs);
  }

  /** Flipping the native direction swaps them for both rules. */
  lemma FlippingTheNative(d: Directions, xs: seq<Matched>, rule: Rule, o: Outcome)
    ensures PairCount(Has(d.(native := Flip(d.native)), rule, o), xs) == PairCount(Has(d, rule, Swapped(o)), xs)
  {
    PairCountPointwise(Has(d.(native := Flip(d.native)), rule, o), xs, Has(d, rule, Swapped(o)), xs);
  }

  // ---------- the report itself ----------

  function DirectionsOf(p: Panel, n: Panel): Directions {
    Directions(p.direction, n.direction)
  }

  /** In a report, agreements minus reversals is the Kendall sum of the matched candidates, for either rule. */
  lemma ReportIsKendall(p: Panel, n: Panel)
    ensures var r, d, xs := ReportOf(p, n), DirectionsOf(p, n), MatchedIn(p, n);
            && r.proxy.agrees - r.proxy.reverses == KendallSum(d, ProxyRule, xs)
            && r.later.agrees - r.later.reverses == KendallSum(d, LaterRule, xs)
  {
    AgreementsMinusReversals(DirectionsOf(p, n), ProxyRule, MatchedIn(p, n));
    AgreementsMinusReversals(DirectionsOf(p, n), LaterRule, MatchedIn(p, n));
  }

  /** A report shows no proxy reversal exactly when the matched candidates can be arranged in the order of both scores. */
  lemma ReportWithoutReversalsIff(p: Panel, n: Panel)
    ensures ReportOf(p, n).proxy.reverses == 0 <==>
            exists ys :: multiset(ys) == multiset(MatchedIn(p, n)) && CoSorted(DirectionsOf(p, n), ys)
  {
    ZeroReversalsIffCoSorted(DirectionsOf(p, n), MatchedIn(p, n));
  }

  /** A report's tied pairs are those inside the groups of equal native scores. */
  lemma ReportTiesAreGroups(p: Panel, n: Panel)
    ensures 2 * ReportOf(p, n).nativeTies == TieGroups(MatchedIn(p, n))
  {
    TiesAreGroups(DirectionsOf(p, n), MatchedIn(p, n));
  }

  function Mirrored(t: RuleTally): RuleTally {
    RuleTally(t.reverses, t.agrees, t.abstains)
  }

  lemma DirectionsDoNotMatch(p: Panel, n: Panel, p': Panel, n': Panel)
    requires p' == p.(direction := p'.direction) && n' == n.(direction := n'.direction)
    ensures CoverageOf(p', n') == CoverageOf(p, n) && MatchedIn(p', n') == MatchedIn(p, n)
  {
    hide ClassOf, Contribution, Contributions;
    SameRowsMatch(p, n, p', n');
    SameCoverage(p, n, p', n');
    SameContributions(p, n, p', n', n.order);
  }

  /** Flipping the proxy's direction mirrors the proxy rule's tally and leaves the rest of the report. */
  lemma FlippedProxyReport(p: Panel, n: Panel)
    ensures ReportOf(p.(direction := Flip(p.direction)), n) == ReportOf(p, n).(proxy := Mirrored(ReportOf(p, n).proxy))
  {
    var p', d, xs := p.(direction := Flip(p.direction)), DirectionsOf(p, n), MatchedIn(p, n);
    DirectionsDoNotMatch(p, n, p', n);
    FlippingTheProxy(d, xs, Tied);
    FlippingTheProxy(d, xs, Agrees);
    FlippingTheProxy(d, xs, Reverses);
    FlippingTheProxy(d, xs, Abstains);
    assert DirectionsOf(p', n) == d.(proxy := Flip(d.proxy));
  }

  lemma NativeFlipMirrors(d: Directions, rule: Rule, xs: seq<Matched>)
    ensures RuleTallyOf(d.(native := Flip(d.native)), rule, xs) == Mirrored(RuleTallyOf(d, rule, xs))
  {
    FlippingTheNative(d, xs, rule, Agrees);
    FlippingTheNative(d, xs, rule, Reverses);
    FlippingTheNative(d, xs, rule, Abstains);
  }

  /** Flipping the native direction mirrors both tallies. */
  lemma FlippedNativeReport(p: Panel, n: Panel)
    ensures var r := ReportOf(p, n);
            ReportOf(p, n.(direction := Flip(n.direction))) == r.(proxy := Mirrored(r.proxy), later := Mirrored(r.later))
  {
    var n', d, xs := n.(direction := Flip(n.direction)), DirectionsOf(p, n), MatchedIn(p, n);
    DirectionsDoNotMatch(p, n, p, n');
    NativeFlipMirrors(d, ProxyRule, xs);
    NativeFlipMirrors(d, LaterRule, xs);
    FlippingTheNative(d, xs, ProxyRule, Tied);
    assert DirectionsOf(p, n') == d.(native := Flip(d.native));
  }

  // ---------- the rules in plain comparisons ----------

  /** `r` is strictly better than `l` in the given direction. */
  predicate Improves(direction: Direction, l: real, r: real) {
    match direction
    case Maximize => l < r
    case Minimize => r < l
  }

  /** The order is positive exactly when the left score is the better one. */
  lemma OrderMeans(d: Direction, left: real, right: real)
    ensures Order(left, right, d) == 1 <==> Improves(d, right, left)
    ensures Order(left, right, d) == -1 <==> Improves(d, left, right)
    ensures Order(left, right, d) == 0 <==> left == right
  {
  }

  /** How one pair is judged: tied by equal native scores; else the later submission should be the better one. */
  lemma LaterRuleMeans(d: Directions, l: Matched, r: Matched)
    ensures match OutcomeOf(d, LaterRule, l, r)
            case Tied => l.native == r.native
            case Abstains => l.native != r.native && l.acceptedAt == r.acceptedAt
            case Agrees => if l.acceptedAt < r.acceptedAt then Improves(d.native, l.native, r.native)
                           else r.acceptedAt < l.acceptedAt && Improves(d.native, r.native, l.native)
            case Reverses => if l.acceptedAt < r.acceptedAt then Improves(d.native, r.native, l.native)
                             else r.acceptedAt < l.acceptedAt && Improves(d.native, l.native, r.native)
  {
  }

  /** The proxy agrees when the candidate with the better proxy score has the better native score, each in its own direction. */
  lemma ProxyRuleMeans(d: Directions, l: Matched, r: Matched)
    ensures match OutcomeOf(d, ProxyRule, l, r)
            case Tied => l.native == r.native
            case Abstains => l.native != r.native && l.proxy == r.proxy
            case Agrees => if Improves(d.proxy, l.proxy, r.proxy) then Improves(d.native, l.native, r.native)
                           else Improves(d.proxy, r.proxy, l.proxy) && Improves(d.native, r.native, l.native)
            case Reverses => if Improves(d.proxy, l.proxy, r.proxy) then Improves(d.native, r.native, l.native)
                             else Improves(d.proxy, r.proxy, l.proxy) && Improves(d.native, l.native, r.native)
  {
  }

  /** A matched score is that of a scored native candidate whose proxy was observed before it was accepted. */
  lemma MatchedMeans(p: Panel, n: Panel, m: Matched)
    requires AllScored(p) && Listed(n)
    ensures m in MatchedIn(p, n) <==>
            exists s :: && s in n.rows && s in p.rows && n.rows[s].score.Some? && p.rows[s].clock < n.rows[s].clock
                        && m == Matched(p.rows[s].score.value, n.rows[s].score.value, n.rows[s].clock)
  {
    GatherMember(Contributions(p, n), n.order, m);
    forall s | s in n.rows
      ensures m in Contributions(p, n)(s) <==>
              && s in p.rows && n.rows[s].score.Some? && p.rows[s].clock < n.rows[s].clock
              && m == Matched(p.rows[s].score.value, n.rows[s].score.value, n.rows[s].clock)
    {
    }
    if s :| s in n.rows && m in Contributions(p, n)(s) {
      assert s in n.order;
    }
  }

  /** Native scores strictly improve with the time of acceptance, and no two are accepted at once. */
  ghost predicate ImproveWithTime(direction: Direction, xs: seq<Matched>) {
    forall i, j :: 0 <= i < |xs| && 0 <= j < |xs| && i != j ==>
      xs[i].acceptedAt != xs[j].acceptedAt && (xs[i].acceptedAt < xs[j].acceptedAt ==> Improves(direction, xs[i].native, xs[j].native))
  }

  /** If submissions only ever improve, the later rule agrees on every pair of the report and nothing else. */
  lemma ImprovingSubmissions(p: Panel, n: Panel)
    requires AllScored(p) && Listed(n) && ImproveWithTime(n.direction, MatchedIn(p, n))
    ensures var r := ReportOf(p, n);
            && r.later.reverses == 0 && r.later.abstains == 0 && r.nativeTies == 0
            && 2 * r.later.agrees == r.coverage.matched * (r.coverage.matched - 1)
  {
    hide Has, ClassSet;
    var d, xs := DirectionsOf(p, n), MatchedIn(p, n);
    OnlyAgreement(d, xs, Tied);
    OnlyAgreement(d, xs, Reverses);
    OnlyAgreement(d, xs, Abstains);
    TiesIgnoreTheRule(d, xs);
    ReportConservesPairs(p, n);
  }

  lemma OnlyAgreement(d: Directions, xs: seq<Matched>, o: Outcome)
    requires ImproveWithTime(d.native, xs) && !o.Agrees?
    ensures PairCount(Has(d, LaterRule, o), xs) == 0
  {
    forall i, j | 0 <= i < j < |xs| ensures !Has(d, LaterRule, o)(xs[i], xs[j]) {
      LaterRuleMeans(d, xs[i], xs[j]);
      assert xs[i].acceptedAt < xs[j].acceptedAt || xs[j].acceptedAt < xs[i].acceptedAt;
    }
    NoPairs(Has(d, LaterRule, o), xs);
  }
}
