/** Collecting the documentation pages and building the two route maps. */
module RouteMaps {
  import opened Options
  import opened Sequences
  import opened SitePaths

  datatype Page = Page(source: Path, site: Path)

  datatype Alias = NotAMapping | Alias(source: Path, site: Path)

  /**
   One documentation spec with the directory listings it reads: markdown files directly below the
   source root, and markdown files anywhere below its `docs` directory.
   */
  datatype Spec = Spec(
    sourceRoot: Path,
    siteRoot: Path,
    canonical: Path,
    rootOnly: bool,
    aliases: seq<Alias>,
    rootMarkdown: seq<Path>,
    docsMarkdown: seq<Path>)

  datatype PageError = CanonicalMissing | MalformedAlias | AliasMissing | RouteOwnedTwice(site: Path)

  // ---------- pages of one spec ----------

  /** A leading `docs` directory does not show in the route. */
  function StripDocs(relative: Path): Path {
    if relative != [] && relative[0] == "docs" then relative[1..] else relative
  }

  function Others(canonical: Path): Path -> seq<Path> {
    p => if p == canonical then [] else [p]
  }

  /** The canonical page, then the other root pages, then the pages below `docs`. */
  function CandidateList(spec: Spec): seq<Path> {
    [spec.canonical] + if spec.rootOnly then [] else Gather(Others(spec.canonical), spec.rootMarkdown) + spec.docsMarkdown
  }

  predicate IsCandidate(spec: Spec, relative: Path) {
    || relative == spec.canonical
    || (!spec.rootOnly && (relative in spec.rootMarkdown || relative in spec.docsMarkdown))
  }

  function PageOf(root: Path, spec: Spec, relative: Path): Page {
    Page(root + spec.sourceRoot + relative, spec.siteRoot + StripDocs(relative))
  }

  function AliasPage(root: Path, spec: Spec, alias: Alias): Page
    requires alias.Alias?
  {
    Page(root + spec.sourceRoot + alias.source, alias.site)
  }

  predicate SpecOk(root: Path, files: set<Path>, spec: Spec) {
    && root + spec.sourceRoot + spec.canonical in files
    && forall i :: 0 <= i < |spec.aliases| ==> AliasOk(root, files, spec, spec.aliases[i])
  }

  function OrdinaryPages(root: Path, spec: Spec): Path -> seq<Page> {
    relative => [PageOf(root, spec, relative)]
  }

  function AliasPages(root: Path, spec: Spec): Alias -> seq<Page> {
    (alias: Alias) => if alias.Alias? then [AliasPage(root, spec, alias)] else []
  }

  /** The pages of one spec in listing order, aliases last. */
  function PagesOf(root: Path, spec: Spec): seq<Page> {
    Gather(OrdinaryPages(root, spec), CandidateList(spec)) + Gather(AliasPages(root, spec), spec.aliases)
  }

  method Candidates(spec: Spec) returns (candidates: seq<Path>)
    ensures candidates == CandidateList(spec)
  {
    candidates := [spec.canonical];
    if !spec.rootOnly {
      for i := 0 to |spec.rootMarkdown|
        invariant candidates == [spec.canonical] + Gather(Others(spec.canonical), spec.rootMarkdown[..i])
      {
        assert spec.rootMarkdown[..i + 1][..i] == spec.rootMarkdown[..i];
        if spec.rootMarkdown[i] != spec.canonical {
          candidates := candidates + [spec.rootMarkdown[i]];
        }
      }
      assert spec.rootMarkdown[..|spec.rootMarkdown|] == spec.rootMarkdown;
      candidates := candidates + spec.docsMarkdown;
    }
  }

  predicate AliasOk(root: Path, files: set<Path>, spec: Spec, alias: Alias) {
    alias.Alias? && root + spec.sourceRoot + alias.source in files
  }

  method AppendAliases(root: Path, files: set<Path>, spec: Spec, ordinary: seq<Page>) returns (r: Result<seq<Page>, PageError>)
    ensures r.Success? <==> forall i :: 0 <= i < |spec.aliases| ==> AliasOk(root, files, spec, spec.aliases[i])
    ensures r.Success? ==> r.value == ordinary + Gather(AliasPages(root, spec), spec.aliases)
  {
    hide AliasPage;
    var pages := ordinary;
    for i := 0 to |spec.aliases|
      invariant forall k :: 0 <= k < i ==> AliasOk(root, files, spec, spec.aliases[k])
      invariant pages == ordinary + Gather(AliasPages(root, spec), spec.aliases[..i])
    {
      assert spec.aliases[..i + 1][..i] == spec.aliases[..i];
      var alias := spec.aliases[i];
      if alias.NotAMapping? { return Failure(MalformedAlias); }
      if root + spec.sourceRoot + alias.source !in files { return Failure(AliasMissing); }
      pages := pages + [AliasPage(root, spec, alias)];
    }
    assert spec.aliases[..|spec.aliases|] == spec.aliases;
    return Success(pages);
  }

  /** Succeeds exactly when every named file is there, with the pages in the order that decides routes. */
  method SourcePages(root: Path, files: set<Path>, spec: Spec) returns (r: Result<seq<Page>, PageError>)
    ensures r.Success? <==> SpecOk(root, files, spec)
    ensures r.Success? ==> r.value == PagesOf(root, spec)
  {
    hide PageOf, AliasPage, AliasOk, CandidateList;
    if root + spec.sourceRoot + spec.canonical !in files { return Failure(CanonicalMissing); }
    var candidates := Candidates(spec);
    var pages: seq<Page> := [];
    for i := 0 to |candidates|
      invariant pages == Gather(OrdinaryPages(root, spec), candidates[..i])
    {
      assert candidates[..i + 1][..i] == candidates[..i];
      pages := pages + [PageOf(root, spec, candidates[i])];
    }
    assert candidates[..|candidates|] == candidates;
    r := AppendAliases(root, files, spec, pages);
  }

  lemma CandidateMembers(spec: Spec, relative: Path)
    ensures relative in CandidateList(spec) <==> IsCandidate(spec, relative)
  {
    GatherMember(Others(spec.canonical), spec.rootMarkdown, relative);
    if relative in spec.rootMarkdown && relative != spec.canonical {
      var i :| 0 <= i < |spec.rootMarkdown| && spec.rootMarkdown[i] == relative;
      assert relative in Others(spec.canonical)(spec.rootMarkdown[i]);
    }
  }

  /** Every candidate becomes a page. */
  lemma CandidateHasPage(root: Path, spec: Spec, relative: Path)
    requires IsCandidate(spec, relative)
    ensures PageOf(root, spec, relative) in PagesOf(root, spec)
  {
    OrdinaryMembers(root, spec, PageOf(root, spec, relative), relative);
  }

  /** Two files of one spec get one route exactly when one lies outside `docs` and the other is its namesake in `docs`. */
  lemma DocsPrefixCollision(root: Path, spec: Spec, p: Path, q: Path)
    requires p != q
    ensures PageOf(root, spec, p).site == PageOf(root, spec, q).site
       <==> (p == ["docs"] + q && StripDocs(q) == q) || (q == ["docs"] + p && StripDocs(p) == p)
  {
    assert p != [] ==> p == [p[0]] + p[1..];
    assert q != [] ==> q == [q[0]] + q[1..];
    if PageOf(root, spec, p).site == PageOf(root, spec, q).site {
      assert StripDocs(p) == PageOf(root, spec, p).site[|spec.siteRoot|..];
      assert StripDocs(q) == PageOf(root, spec, q).site[|spec.siteRoot|..];
    }
  }

  // ---------- the two maps ----------

  datatype Maps = Maps(siteToSource: map<Path, Path>, sourceToSite: map<Path, Path>)

  /** `source.resolve()` in a tree without symbolic links. */
  function Clean(source: Path): Path {
    Resolve([], source)
  }

  /** Two collected pages claim one route for different sources. */
  ghost predicate Contested(pages: seq<Page>) {
    exists i, j :: 0 <= i < |pages| && 0 <= j < |pages| && pages[i].site == pages[j].site && pages[i].source != pages[j].source
  }

  /** The map is exactly the set of (site, source) pairs of the pages. */
  ghost predicate AreRoutes(m: map<Path, Path>, pages: seq<Page>) {
    && (forall i :: 0 <= i < |pages| ==> pages[i].site in m && m[pages[i].site] == pages[i].source)
    && (forall site :: site in m ==> exists i :: 0 <= i < |pages| && pages[i].site == site)
  }

  ghost predicate IsFirstFor(pages: seq<Page>, file: Path, i: int) {
    && 0 <= i < |pages| && Clean(pages[i].source) == file
    && forall j :: 0 <= j < i ==> Clean(pages[j].source) != file
  }

  /** The map gives each resolved source file its first-listed route. */
  ghost predicate AreFirstRoutes(m: map<Path, Path>, pages: seq<Page>) {
    && (forall i :: 0 <= i < |pages| ==> Clean(pages[i].source) in m)
    && (forall file :: file in m ==> exists i :: IsFirstFor(pages, file, i) && m[file] == pages[i].site)
  }

  ghost predicate AreMapsOf(maps: Maps, pages: seq<Page>) {
    AreRoutes(maps.siteToSource, pages) && AreFirstRoutes(maps.sourceToSite, pages)
  }

  lemma RoutesGrow(m: map<Path, Path>, pages: seq<Page>, page: Page)
    requires AreRoutes(m, pages) && (page.site in m ==> m[page.site] == page.source)
    ensures AreRoutes(m[page.site := page.source], pages + [page])
  {
    var more := pages + [page];
    forall site | site in m ensures exists i :: 0 <= i < |more| && more[i].site == site {
      var i :| 0 <= i < |pages| && pages[i].site == site;
      assert more[i].site == site;
    }
    assert more[|pages|] == page;
  }

  lemma FirstRoutesGrow(m: map<Path, Path>, pages: seq<Page>, page: Page)
    requires AreFirstRoutes(m, pages)
    ensures var file := Clean(page.source);
            AreFirstRoutes(if file in m then m else m[file := page.site], pages + [page])
  {
    hide Clean;
    var more := pages + [page];
    forall file | file in m ensures exists i :: IsFirstFor(more, file, i) && m[file] == more[i].site {
      var i :| IsFirstFor(pages, file, i) && m[file] == pages[i].site;
      assert IsFirstFor(more, file, i);
    }
    assert more[|pages|] == page;
    if Clean(page.source) !in m {
      assert IsFirstFor(more, Clean(page.source), |pages|);
    }
  }

  lemma ContestFound(m: map<Path, Path>, pages: seq<Page>, i: nat)
    requires i < |pages| && AreRoutes(m, pages[..i]) && pages[i].site in m && m[pages[i].site] != pages[i].source
    ensures Contested(pages)
  {
  }

  lemma NoContestLeft(m: map<Path, Path>, pages: seq<Page>)
    requires AreRoutes(m, pages)
    ensures !Contested(pages)
  {
  }

  /** Building fails exactly when some route is contested, and otherwise builds exactly the two maps. */
  method DocumentationMaps(pages: seq<Page>) returns (r: Result<Maps, PageError>)
    ensures r.Failure? <==> Contested(pages)
    ensures r.Success? ==> AreMapsOf(r.value, pages)
  {
    hide Clean, AreFirstRoutes, Contested, AreRoutes;
    var maps := Maps(map[], map[]);
    MapsOfNothing();
    for i := 0 to |pages|
      invariant AreRoutes(maps.siteToSource, pages[..i]) && AreFirstRoutes(maps.sourceToSite, pages[..i])
    {
      var source, site := pages[i].source, pages[i].site;
      if site in maps.siteToSource && maps.siteToSource[site] != source {
        ContestFound(maps.siteToSource, pages, i);
        return Failure(RouteOwnedTwice(site));
      }
      RoutesGrow(maps.siteToSource, pages[..i], pages[i]);
      FirstRoutesGrow(maps.sourceToSite, pages[..i], pages[i]);
      assert pages[..i + 1] == pages[..i] + [pages[i]];
      var file := Clean(source);
      maps := Maps(maps.siteToSource[site := source],
                   if file in maps.sourceToSite then maps.sourceToSite else maps.sourceToSite[file := site]);
    }
    assert pages[..|pages|] == pages;
    NoContestLeft(maps.siteToSource, pages);
    return Success(maps);
  }

  lemma MapsOfNothing()
    ensures AreRoutes(map[], []) && AreFirstRoutes(map[], [])
  {
  }

  /** A file's route always leads back to that file. */
  lemma RoutesLeadBack(maps: Maps, pages: seq<Page>, file: Path)
    requires AreMapsOf(maps, pages) && file in maps.sourceToSite
    ensures maps.sourceToSite[file] in maps.siteToSource && Clean(maps.siteToSource[maps.sourceToSite[file]]) == file
  {
  }

  /** A file and its namesake under `docs` in one spec always make the maps fail. */
  lemma NamesakeInDocsContests(root: Path, spec: Spec, pages: seq<Page>, p: Path)
    requires forall page :: page in PagesOf(root, spec) ==> page in pages
    requires IsCandidate(spec, p) && IsCandidate(spec, ["docs"] + p) && StripDocs(p) == p
    ensures Contested(pages)
  {
    var q := ["docs"] + p;
    DocsPrefixCollision(root, spec, p, q);
    CandidateHasPage(root, spec, p);
    CandidateHasPage(root, spec, q);
    var a, b := PageOf(root, spec, p), PageOf(root, spec, q);
    assert a in pages && b in pages;
    assert |a.source| != |b.source|;
    var i :| 0 <= i < |pages| && pages[i] == a;
    var j :| 0 <= j < |pages| && pages[j] == b;
  }

  lemma FirstIn(pages: seq<Page>, m: map<Path, Path>, file: Path, n: nat)
    requires AreFirstRoutes(m, pages) && n < |pages| && Clean(pages[n].source) == file
    ensures file in m && exists i :: 0 <= i <= n && Clean(pages[i].source) == file && m[file] == pages[i].site
  {
  }

  /**
   An alias never takes over the links to a page of its own spec: unless an earlier spec lists the file,
   its route is an ordinary one.
   */
  lemma OrdinaryRouteWins(root: Path, spec: Spec, before: seq<Page>, after: seq<Page>, m: map<Path, Path>, relative: Path)
    requires AreFirstRoutes(m, before + PagesOf(root, spec) + after) && IsCandidate(spec, relative)
    requires forall page :: page in before ==> Clean(page.source) != Clean(PageOf(root, spec, relative).source)
    ensures var file := Clean(PageOf(root, spec, relative).source);
            file in m && exists q :: IsCandidate(spec, q) && Clean(PageOf(root, spec, q).source) == file && m[file] == PageOf(root, spec, q).site
  {
    hide Clean, AreFirstRoutes, PageOf, CandidateList, OrdinaryPages, AliasPages, IsCandidate;
    var file := Clean(PageOf(root, spec, relative).source);
    var ordinary := Gather(OrdinaryPages(root, spec), CandidateList(spec));
    var pages := before + PagesOf(root, spec) + after;
    assert pages == before + ordinary + (Gather(AliasPages(root, spec), spec.aliases) + after);
    assert PageOf(root, spec, relative) in ordinary by { OrdinaryMembers(root, spec, PageOf(root, spec, relative), relative); }
    var k :| 0 <= k < |ordinary| && ordinary[k] == PageOf(root, spec, relative);
    assert pages[|before| + k] == ordinary[k];
    FirstIn(pages, m, file, |before| + k);
    var i :| 0 <= i <= |before| + k && Clean(pages[i].source) == file && m[file] == pages[i].site;
    assert forall j :: 0 <= j < |before| ==> pages[j] in before;
    assert i >= |before|;
    assert pages[i] == ordinary[i - |before|] && pages[i] in ordinary;
    var q := OrdinaryPageSource(root, spec, pages[i]);
  }

  lemma OrdinaryMembers(root: Path, spec: Spec, page: Page, relative: Path)
    requires IsCandidate(spec, relative) && page == PageOf(root, spec, relative)
    ensures page in Gather(OrdinaryPages(root, spec), CandidateList(spec))
  {
    CandidateMembers(spec, relative);
    var i :| 0 <= i < |CandidateList(spec)| && CandidateList(spec)[i] == relative;
    assert page in OrdinaryPages(root, spec)(CandidateList(spec)[i]);
    GatherMember(OrdinaryPages(root, spec), CandidateList(spec), page);
  }

  lemma OrdinaryPageSource(root: Path, spec: Spec, page: Page) returns (relative: Path)
    requires page in Gather(OrdinaryPages(root, spec), CandidateList(spec))
    ensures IsCandidate(spec, relative) && page == PageOf(root, spec, relative)
  {
    GatherMember(OrdinaryPages(root, spec), CandidateList(spec), page);
    var i :| 0 <= i < |CandidateList(spec)| && page in OrdinaryPages(root, spec)(CandidateList(spec)[i]);
    relative := CandidateList(spec)[i];
    CandidateMembers(spec, relative);
  }

  // ---------- all specs ----------

  function AllPages(root: Path, specs: seq<Spec>): seq<Page> {
    Gather((spec: Spec) => PagesOf(root, spec), specs)
  }

  /** The whole build: it succeeds exactly when every spec is complete and no route is contested. */
  method BuildDocumentation(root: Path, files: set<Path>, specs: seq<Spec>) returns (r: Result<Maps, PageError>)
    ensures r.Success? <==> (forall i :: 0 <= i < |specs| ==> SpecOk(root, files, specs[i])) && !Contested(AllPages(root, specs))
    ensures r.Success? ==> AreMapsOf(r.value, AllPages(root, specs))
  {
    hide SpecOk, PagesOf, Contested, AreMapsOf;
    var pages: seq<Page> := [];
    for i := 0 to |specs|
      invariant forall k :: 0 <= k < i ==> SpecOk(root, files, specs[k])
      invariant pages == AllPages(root, specs[..i])
    {
      assert specs[..i + 1][..i] == specs[..i];
      var more := SourcePages(root, files, specs[i]);
      if more.Failure? { return Failure(more.error); }
      pages := pages + more.value;
    }
    assert specs[..|specs|] == specs;
    r := DocumentationMaps(pages);
  }

  // ---------- where pages lie ----------

  /** An ordinary page: its source below the source root, its route below the site root, without a leading `docs`. */
  ghost predicate LiesAt(root: Path, spec: Spec, page: Page, relative: Path) {
    && page.source == root + spec.sourceRoot + relative
    && (exists below :: page.site == spec.siteRoot + below
                        && (if relative != [] && relative[0] == "docs" then relative == ["docs"] + below else relative == below))
  }

  lemma PageLies(root: Path, spec: Spec, relative: Path)
    ensures LiesAt(root, spec, PageOf(root, spec, relative), relative)
  {
    if relative != [] && relative[0] == "docs" {
      assert relative == ["docs"] + relative[1..];
    }
  }

  lemma AliasPageSource(root: Path, spec: Spec, page: Page)
    ensures page in Gather(AliasPages(root, spec), spec.aliases) <==>
            exists i :: 0 <= i < |spec.aliases| && spec.aliases[i].Alias?
                        && page == Page(root + spec.sourceRoot + spec.aliases[i].source, spec.aliases[i].site)
  {
    GatherMember(AliasPages(root, spec), spec.aliases, page);
    forall i | 0 <= i < |spec.aliases|
      ensures page in AliasPages(root, spec)(spec.aliases[i]) <==>
              spec.aliases[i].Alias? && page == Page(root + spec.sourceRoot + spec.aliases[i].source, spec.aliases[i].site)
    {
    }
  }

  /** The pages of a spec are its candidates, each in its place, and its aliases, each at exactly its own site. */
  lemma PagesOfSpec(root: Path, spec: Spec, page: Page)
    ensures page in PagesOf(root, spec) <==>
            || (exists relative :: IsCandidate(spec, relative) && page == PageOf(root, spec, relative) && LiesAt(root, spec, page, relative))
            || (exists i :: 0 <= i < |spec.aliases| && spec.aliases[i].Alias?
                            && page == Page(root + spec.sourceRoot + spec.aliases[i].source, spec.aliases[i].site))
  {
    hide PageOf, LiesAt, CandidateList, IsCandidate;
    AliasPageSource(root, spec, page);
    if page in Gather(OrdinaryPages(root, spec), CandidateList(spec)) {
      var relative := OrdinaryPageSource(root, spec, page);
      PageLies(root, spec, relative);
    }
    if relative :| IsCandidate(spec, relative) && page == PageOf(root, spec, relative) {
      OrdinaryMembers(root, spec, page, relative);
    }
  }

  /** Ordinary pages of specs whose site roots do not contain one another never meet on a route. */
  lemma SeparateRootsNeverContest(root: Path, a: Spec, b: Spec, p: Path, q: Path)
    requires !(a.siteRoot <= b.siteRoot) && !(b.siteRoot <= a.siteRoot)
    ensures PageOf(root, a, p).site != PageOf(root, b, q).site
  {
    PageLies(root, a, p);
    PageLies(root, b, q);
    NestedPrefixes(a.siteRoot, b.siteRoot, PageOf(root, a, p).site, PageOf(root, b, q).site);
  }

  lemma NestedPrefixes(a: Path, b: Path, s: Path, t: Path)
    requires a <= s && b <= t
    ensures s == t ==> a <= b || b <= a
  {
    assert a == s[..|a|] && b == t[..|b|];
    assert |a| <= |b| ==> t[..|b|][..|a|] == t[..|a|];
    assert |b| <= |a| ==> s[..|a|][..|b|] == s[..|b|];
  }
}
