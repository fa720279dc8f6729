/**
 Rewriting documentation links from source-tree coordinates to site-tree coordinates.

 A link destination is modelled after parsing: scheme, authority, the slash-separated segments of its
 path, query and fragment.  A path that is empty or starts with a slash has an empty first segment.
 */
module LinkRewriter {
  import opened Options
  import opened SitePaths
  import opened RouteMaps

  datatype Ref = Ref(scheme: string, netloc: string, path: seq<string>, query: string, fragment: string)

  /** A destination, with or without angle brackets around it. */
  datatype Target = Target(bracketed: bool, ref: Ref)

  /** The repository: its root, the process's working directory, and the paths that exist. */
  datatype Repo = Repo(root: Path, cwd: Path, existing: set<Path>)

  const DOCS: string := "docs"
  const BLOB_ROOT: seq<string> := ["", "huangruiteng", "loopx", "blob", "main"]

  predicate IsInternal(t: Target)
    requires |t.ref.path| > 0
  {
    t.ref.scheme == "" && t.ref.netloc == "" && t.ref.path[0] != ""
  }

  /** The file an internal link of a page built from `source` points at. */
  function Resolved(source: Path, t: Target): Path {
    Resolve([], Parent(source) + t.ref.path)
  }

  datatype Destination = Untouched | Route(site: Path) | Blob(relative: Path)

  /** Where the rewriter sends an internal link to `file`. */
  function DestinationOf(repo: Repo, file: Path, sourceToSite: map<Path, Path>): Destination {
    if file in sourceToSite then Route(sourceToSite[file])
    else if !(repo.root <= file) then Untouched
    else
      var relative := file[|repo.root|..];
      if relative != [] && relative[0] == DOCS then Route(relative[1..])
      else if file in repo.existing then Blob(relative)
      else Untouched
  }

  function RenderTarget(repo: Repo, t: Target, source: Path, site: Path, sourceToSite: map<Path, Path>): (r: Target)
    requires |t.ref.path| > 0
    ensures |r.ref.path| > 0
  {
    if !IsInternal(t) then t
    else match DestinationOf(repo, Resolved(source, t), sourceToSite)
      case Untouched => t
      case Blob(relative) =>
        Target(t.bracketed, Ref("https", "github.com", BLOB_ROOT + if relative == [] then ["."] else relative,
                                t.ref.query, t.ref.fragment))
      case Route(route) =>
        Target(t.bracketed, Ref("", "", RelpathFrom(repo.cwd, route, Parent(site)), t.ref.query, t.ref.fragment))
  }

  // ---------- reading rendered text back ----------

  predicate SchemeChar(c: char) {
    'a' <= c <= 'z' || 'A' <= c <= 'Z' || '0' <= c <= '9' || c == '+' || c == '-' || c == '.'
  }

  function ColonIndex(s: string): (i: nat)
    ensures i <= |s| && ':' !in s[..i] && (i < |s| ==> s[i] == ':')
  {
    if s == [] || s[0] == ':' then 0
    else
      var i := 1 + ColonIndex(s[1..]);
      assert s[..i] == [s[0]] + s[1..][..i - 1];
      i
  }

  /** The segment would be read as starting with a URI scheme (section 4.2 of RFC 3986). */
  predicate LooksLikeScheme(seg: string) {
    var i := ColonIndex(seg);
    && 0 < i < |seg|
    && ('a' <= seg[0] <= 'z' || 'A' <= seg[0] <= 'Z')
    && forall k :: 0 <= k < i ==> SchemeChar(seg[k])
  }

  /** What parsing makes of the printed destination. */
  function Reread(t: Target): (r: Target)
    requires |t.ref.path| > 0
    ensures |r.ref.path| > 0
  {
    if t.ref.scheme == "" && t.ref.netloc == "" && LooksLikeScheme(t.ref.path[0]) then
      var seg := t.ref.path[0];
      var i := ColonIndex(seg);
      t.(ref := t.ref.(scheme := seg[..i], path := [seg[i + 1..]] + t.ref.path[1..]))
    else t
  }

  /** A destination as parsing produces it. */
  predicate IsParsed(t: Target) {
    |t.ref.path| > 0 && Reread(t) == t
  }

  /** The site page a reader reaches from the page at `site`, if the destination is a relative path. */
  function Reached(site: Path, t: Target): Option<Path>
    requires |t.ref.path| > 0
  {
    if IsInternal(t) then Some(Resolve(Parent(site), t.ref.path)) else None
  }

  // ---------- meaning ----------

  /** The file a site page is built from: a generated page's source, else the file of that name in `docs`. */
  function PageFile(repo: Repo, maps: Maps, route: Path): Path {
    if route in maps.siteToSource then Clean(maps.siteToSource[route]) else repo.root + [DOCS] + route
  }

  ghost predicate NormalRoutes(sourceToSite: map<Path, Path>) {
    forall file :: file in sourceToSite ==> Normal(sourceToSite[file])
  }

  lemma ResolvedIsNormal(source: Path, t: Target)
    ensures Normal(Resolved(source, t))
  {
    ResolveIsNormal([], Parent(source) + t.ref.path);
  }

  lemma DestinationIsNormal(repo: Repo, file: Path, sourceToSite: map<Path, Path>)
    requires Normal(file) && NormalRoutes(sourceToSite)
    ensures DestinationOf(repo, file, sourceToSite).Route? ==> Normal(DestinationOf(repo, file, sourceToSite).site)
  {
  }

  lemma RelpathHead(target: Path, start: Path)
    requires Normal(target)
    ensures Relpath(target, start)[0] != ""
    ensures start < target <==> Plain(Relpath(target, start)[0])
    ensures start < target ==> Relpath(target, start)[0] == target[|start|]
  {
  }

  /** The page's own directory holds the route, under a name that looks like a URI scheme. */
  predicate SchemeHazard(site: Path, route: Path) {
    Parent(site) < route && LooksLikeScheme(route[|Parent(site)|])
  }

  /** The destination printed for a route on the page at `site`. */
  function Emitted(t: Target, site: Path, route: Path): (r: Target)
    ensures |r.ref.path| > 0
  {
    Target(t.bracketed, Ref("", "", Relpath(route, Parent(site)), t.ref.query, t.ref.fragment))
  }

  lemma RenderedRoute(repo: Repo, t: Target, source: Path, site: Path, sourceToSite: map<Path, Path>, route: Path)
    requires |t.ref.path| > 0 && IsInternal(t) && Normal(repo.cwd) && Normal(site) && Normal(route)
    requires DestinationOf(repo, Resolved(source, t), sourceToSite) == Route(route)
    ensures RenderTarget(repo, t, source, site, sourceToSite) == Emitted(t, site, route)
  {
    hide Resolve, DestinationOf, Relpath, RelpathFrom, Resolved;
    RelpathIgnoresCwd(repo.cwd, route, Parent(site));
  }

  lemma EmittedIsInternal(t: Target, site: Path, route: Path)
    requires Normal(route)
    ensures IsInternal(Emitted(t, site, route))
  {
  }

  lemma ClimbHead(target: Path, start: Path)
    requires !(start < target)
    ensures Relpath(target, start)[0] in [".", ".."]
  {
  }

  lemma DotsAreNoScheme(seg: string)
    requires seg in [".", ".."]
    ensures !LooksLikeScheme(seg)
  {
  }

  lemma EmittedReachesRoute(t: Target, site: Path, route: Path)
    requires Normal(route)
    ensures Reached(site, Reread(Emitted(t, site, route))) == Some(route) <==> !SchemeHazard(site, route)
  {
    hide Resolve, Relpath, ColonIndex;
    EmittedIsInternal(t, site, route);
    RelpathHead(route, Parent(site));
    if !(Parent(site) < route) {
      ClimbHead(route, Parent(site));
      DotsAreNoScheme(Relpath(route, Parent(site))[0]);
    }
    RelpathLeadsToTarget([], route, Parent(site));
    assert [] + Parent(site) == Parent(site) && [] + route == route;
  }

  /**
   A link sent to a route, once printed and read again, leads from the page to that route exactly when
   the route's first component below the page's directory does not look like a URI scheme.
   */
  lemma RenderedLinkReachesRoute(repo: Repo, t: Target, source: Path, site: Path, sourceToSite: map<Path, Path>)
    requires IsParsed(t) && IsInternal(t) && Normal(repo.cwd) && Normal(site) && NormalRoutes(sourceToSite)
    requires DestinationOf(repo, Resolved(source, t), sourceToSite).Route?
    ensures var route := DestinationOf(repo, Resolved(source, t), sourceToSite).site;
            var rendered := RenderTarget(repo, t, source, site, sourceToSite);
            && rendered.bracketed == t.bracketed && rendered.ref.query == t.ref.query && rendered.ref.fragment == t.ref.fragment
            && (Reached(site, Reread(rendered)) == Some(route) <==> !SchemeHazard(site, route))
  {
    hide Resolve, Relpath, RenderTarget, LooksLikeScheme;
    var route := DestinationOf(repo, Resolved(source, t), sourceToSite).site;
    ResolvedIsNormal(source, t);
    DestinationIsNormal(repo, Resolved(source, t), sourceToSite);
    RenderedRoute(repo, t, source, site, sourceToSite, route);
    EmittedReachesRoute(t, site, route);
  }

  /**
   End to end: the route a link is sent to is built from exactly the file the author linked, unless the
   file is an unmapped docs page whose route a generated page has taken over.
   */
  lemma RouteIsBuiltFromTheLinkedFile(repo: Repo, maps: Maps, pages: seq<Page>, file: Path)
    requires AreMapsOf(maps, pages) && DestinationOf(repo, file, maps.sourceToSite).Route?
    ensures var route := DestinationOf(repo, file, maps.sourceToSite).site;
            PageFile(repo, maps, route) == file <==> file in maps.sourceToSite || route !in maps.siteToSource
  {
  }

  /**
   The link meaning theorem: a link sent to a route, followed on the site, reaches the page built from the
   linked file exactly when its first component is no scheme and no generated page took over its route.
   */
  lemma LinkMeaningIsPreserved(repo: Repo, maps: Maps, pages: seq<Page>, t: Target, source: Path, site: Path)
    requires AreMapsOf(maps, pages) && NormalRoutes(maps.sourceToSite) && Normal(repo.cwd) && Normal(site)
    requires IsParsed(t) && IsInternal(t) && DestinationOf(repo, Resolved(source, t), maps.sourceToSite).Route?
    ensures var file := Resolved(source, t);
            var route := DestinationOf(repo, file, maps.sourceToSite).site;
            var reached := Reached(site, Reread(RenderTarget(repo, t, source, site, maps.sourceToSite)));
            (reached == Some(route) && PageFile(repo, maps, route) == file <==>
             !SchemeHazard(site, route) && (file in maps.sourceToSite || route !in maps.siteToSource))
  {
    RenderedLinkReachesRoute(repo, t, source, site, maps.sourceToSite);
    RouteIsBuiltFromTheLinkedFile(repo, maps, pages, Resolved(source, t));
  }

  /** A blob link names the linked file below the repository root. */
  lemma BlobNamesTheFile(repo: Repo, t: Target, source: Path, site: Path, sourceToSite: map<Path, Path>)
    requires |t.ref.path| > 0 && IsInternal(t) && DestinationOf(repo, Resolved(source, t), sourceToSite).Blob?
    ensures var r := RenderTarget(repo, t, source, site, sourceToSite);
            && r.ref.scheme == "https" && BLOB_ROOT <= r.ref.path
            && Resolve(repo.root, r.ref.path[|BLOB_ROOT|..]) == Resolved(source, t)
            && r.ref.query == t.ref.query && r.ref.fragment == t.ref.fragment
  {
    hide Resolve, Resolved;
    var file := Resolved(source, t);
    var relative := file[|repo.root|..];
    var r := RenderTarget(repo, t, source, site, sourceToSite);
    assert r.ref.path[|BLOB_ROOT|..] == if relative == [] then ["."] else relative;
    ResolvedIsNormal(source, t);
    ResolvePlain(repo.root, relative);
    StayHere(repo.root);
    assert file == repo.root + relative;
  }

  // ---------- idempotence on ordinary docs pages ----------

  function DocsFile(repo: Repo, route: Path): Path {
    repo.root + [DOCS] + route
  }

  function RenderDocs(repo: Repo, t: Target, site: Path, sourceToSite: map<Path, Path>): (r: Target)
    requires |t.ref.path| > 0
    ensures |r.ref.path| > 0
  {
    RenderTarget(repo, t, DocsFile(repo, site), site, sourceToSite)
  }

  /** Rendering the docs page a second time changes nothing. */
  predicate RendersOnce(repo: Repo, t: Target, site: Path, sourceToSite: map<Path, Path>)
    requires |t.ref.path| > 0
  {
    var once := Reread(RenderDocs(repo, t, site, sourceToSite));
    RenderDocs(repo, once, site, sourceToSite) == once
  }

  /** The file's route is also the docs path of a mapped file that has another route. */
  ghost predicate Unstable(repo: Repo, sourceToSite: map<Path, Path>, file: Path) {
    && file in sourceToSite && DocsFile(repo, sourceToSite[file]) in sourceToSite
    && sourceToSite[DocsFile(repo, sourceToSite[file])] != sourceToSite[file]
  }

  /** On the page, every unstable route is printed as a URI with a scheme and so left alone. */
  ghost predicate StableOn(repo: Repo, sourceToSite: map<Path, Path>, site: Path) {
    forall file :: Unstable(repo, sourceToSite, file) ==> SchemeHazard(site, sourceToSite[file])
  }

  /** A docs page of the site: the hook runs on files that exist. */
  predicate DocsPage(repo: Repo, site: Path) {
    Normal(site) && site != [] && DocsFile(repo, site) in repo.existing
  }

  /** A relative path emitted on a docs page resolves, in the source tree, to the docs file of its route. */
  lemma EmittedPathStaysInDocs(repo: Repo, site: Path, route: Path)
    requires Normal(repo.root) && Normal(site) && site != [] && Normal(route)
    ensures Resolve([], Parent(DocsFile(repo, site)) + Relpath(route, Parent(site))) == DocsFile(repo, route)
  {
    var docs := repo.root + [DOCS];
    assert Parent(DocsFile(repo, site)) == docs + Parent(site);
    ResolveConcat([], docs + Parent(site), Relpath(route, Parent(site)));
    CleanIsIdentity(docs + Parent(site));
    RelpathLeadsToTarget(docs, route, Parent(site));
  }

  lemma DocsFileDestination(repo: Repo, route: Path, sourceToSite: map<Path, Path>)
    ensures var file := DocsFile(repo, route);
            DestinationOf(repo, file, sourceToSite) == Route(if file in sourceToSite then sourceToSite[file] else route)
  {
  }

  /** Rendering an emitted destination again sends it where the docs file of its route goes. */
  lemma EmittedAgain(repo: Repo, t: Target, site: Path, sourceToSite: map<Path, Path>, route: Path)
    requires Normal(repo.root) && Normal(repo.cwd) && Normal(site) && site != [] && Normal(route) && NormalRoutes(sourceToSite)
    ensures var file := DocsFile(repo, route);
            var second := if file in sourceToSite then sourceToSite[file] else route;
            RenderDocs(repo, Emitted(t, site, route), site, sourceToSite) == Emitted(t, site, second)
  {
    hide Resolve, DestinationOf, Relpath, RenderTarget;
    var file := DocsFile(repo, route);
    var second := if file in sourceToSite then sourceToSite[file] else route;
    var r := Emitted(t, site, route);
    EmittedIsInternal(t, site, route);
    EmittedPathStaysInDocs(repo, site, route);
    DocsFileDestination(repo, route, sourceToSite);
    assert Resolved(DocsFile(repo, site), r) == file;
    RenderedRoute(repo, r, DocsFile(repo, site), site, sourceToSite, second);
  }

  /** Unless the file is unstable, the docs file of its route is sent to that same route. */
  lemma StableRouteStays(repo: Repo, file: Path, sourceToSite: map<Path, Path>)
    requires !Unstable(repo, sourceToSite, file) && DestinationOf(repo, file, sourceToSite).Route?
    ensures var route := DestinationOf(repo, file, sourceToSite).site;
            DocsFile(repo, route) in sourceToSite ==> sourceToSite[DocsFile(repo, route)] == route
  {
    var route := DestinationOf(repo, file, sourceToSite).site;
    if file !in sourceToSite {
      assert file == DocsFile(repo, route);
    }
  }

  lemma SchemeIsUntouched(repo: Repo, t: Target, site: Path, sourceToSite: map<Path, Path>)
    requires |t.ref.path| > 0 && Reread(t) != t
    ensures RenderDocs(repo, Reread(t), site, sourceToSite) == Reread(t)
  {
  }

  /** Rendering once is enough on a docs page, for every destination, when routes are stable there. */
  lemma StableRoutesRenderOnce(repo: Repo, t: Target, site: Path, sourceToSite: map<Path, Path>)
    requires Normal(repo.root) && Normal(repo.cwd) && Normal(site) && site != [] && NormalRoutes(sourceToSite)
    requires IsParsed(t) && StableOn(repo, sourceToSite, site)
    ensures RendersOnce(repo, t, site, sourceToSite)
  {
    var source := DocsFile(repo, site);
    var r := RenderDocs(repo, t, site, sourceToSite);
    if Reread(r) != r {
      SchemeIsUntouched(repo, r, site, sourceToSite);
    } else if IsInternal(t) && DestinationOf(repo, Resolved(source, t), sourceToSite).Route? {
      InternalRoutesRenderOnce(repo, t, site, sourceToSite);
    } else {
      OtherTargetsRenderOnce(repo, t, site, sourceToSite);
    }
  }

  lemma OtherTargetsRenderOnce(repo: Repo, t: Target, site: Path, sourceToSite: map<Path, Path>)
    requires IsParsed(t) && !(IsInternal(t) && DestinationOf(repo, Resolved(DocsFile(repo, site), t), sourceToSite).Route?)
    ensures RendersOnce(repo, t, site, sourceToSite)
  {
  }

  /** Exactly the routes without the hazard are read back as printed. */
  lemma HazardIsReread(t: Target, site: Path, route: Path)
    requires Normal(route)
    ensures Reread(Emitted(t, site, route)) == Emitted(t, site, route) <==> !SchemeHazard(site, route)
  {
    hide Resolve, Relpath, ColonIndex;
    RelpathHead(route, Parent(site));
    if !(Parent(site) < route) {
      ClimbHead(route, Parent(site));
      DotsAreNoScheme(Relpath(route, Parent(site))[0]);
    }
  }

  lemma InternalRoutesRenderOnce(repo: Repo, t: Target, site: Path, sourceToSite: map<Path, Path>)
    requires Normal(repo.root) && Normal(repo.cwd) && Normal(site) && site != [] && NormalRoutes(sourceToSite)
    requires |t.ref.path| > 0 && StableOn(repo, sourceToSite, site)
    requires IsInternal(t) && DestinationOf(repo, Resolved(DocsFile(repo, site), t), sourceToSite).Route?
    requires var r := RenderDocs(repo, t, site, sourceToSite); Reread(r) == r
    ensures var r := RenderDocs(repo, t, site, sourceToSite); RenderDocs(repo, r, site, sourceToSite) == r
  {
    hide Resolve, Relpath, RenderTarget, SchemeHazard, Reread;
    var file := Resolved(DocsFile(repo, site), t);
    var route := DestinationOf(repo, file, sourceToSite).site;
    ResolvedIsNormal(DocsFile(repo, site), t);
    DestinationIsNormal(repo, file, sourceToSite);
    RenderedRoute(repo, t, DocsFile(repo, site), site, sourceToSite, route);
    EmittedAgain(repo, t, site, sourceToSite, route);
    HazardIsReread(t, site, route);
    StableRouteStays(repo, file, sourceToSite);
  }

  /** Different routes are printed differently. */
  lemma EmittedRoutesDiffer(t: Target, site: Path, a: Path, b: Path)
    requires Normal(a) && Normal(b) && a != b
    ensures Emitted(t, site, a) != Emitted(t, site, b)
  {
    hide Resolve, Relpath;
    RelpathLeadsToTarget([], a, Parent(site));
    RelpathLeadsToTarget([], b, Parent(site));
    assert [] + Parent(site) == Parent(site) && [] + a == a && [] + b == b;
  }

  /** An internal destination on the docs page that points at a given file. */
  lemma LinkTo(repo: Repo, site: Path, file: Path) returns (t: Target)
    requires Normal(repo.root) && Normal(site) && Normal(file)
    ensures IsParsed(t) && IsInternal(t) && Resolved(DocsFile(repo, site), t) == file
  {
    hide Relpath;
    var start := Parent(DocsFile(repo, site));
    var way := Relpath(file, start);
    t := Target(false, Ref("", "", ["."] + way, "", ""));
    DotsAreNoScheme(".");
    assert Resolve([], start + (["."] + way)) == file by {
      CleanIsIdentity(start);
      ResolveConcat([], start, ["."] + way);
      ResolveConcat(start, ["."], way);
      StayHere(start);
      RelpathLeadsToTarget([], file, start);
      assert [] + start == start && [] + file == file;
    }
  }

  /** Where a route is unstable, some destination on the page is rendered differently the second time. */
  lemma UnstableRoutesRenderTwice(repo: Repo, sourceToSite: map<Path, Path>, site: Path, file: Path) returns (t: Target)
    requires Normal(repo.root) && Normal(repo.cwd) && Normal(site) && site != [] && NormalRoutes(sourceToSite)
    requires Normal(file) && Unstable(repo, sourceToSite, file) && !SchemeHazard(site, sourceToSite[file])
    ensures IsParsed(t) && !RendersOnce(repo, t, site, sourceToSite)
  {
    hide Resolve, Relpath, RenderTarget, LooksLikeScheme, Resolved, SchemeHazard;
    var route := sourceToSite[file];
    t := LinkTo(repo, site, file);
    RenderedRoute(repo, t, DocsFile(repo, site), site, sourceToSite, route);
    HazardIsReread(t, site, route);
    EmittedAgain(repo, t, site, sourceToSite, route);
    EmittedRoutesDiffer(t, site, route, sourceToSite[DocsFile(repo, route)]);
  }

  /** The docs hook is idempotent on the pages that exist exactly when routes are stable on each of them. */
  lemma RenderingIsIdempotentIff(repo: Repo, sourceToSite: map<Path, Path>)
    requires Normal(repo.root) && Normal(repo.cwd) && NormalRoutes(sourceToSite)
    requires forall file :: file in sourceToSite ==> Normal(file)
    ensures (forall t, site :: IsParsed(t) && DocsPage(repo, site) ==> RendersOnce(repo, t, site, sourceToSite)) <==>
            (forall site :: DocsPage(repo, site) ==> StableOn(repo, sourceToSite, site))
  {
    hide RendersOnce, Reread, SchemeHazard;
    if forall site :: DocsPage(repo, site) ==> StableOn(repo, sourceToSite, site) {
      forall t, site | IsParsed(t) && DocsPage(repo, site) ensures RendersOnce(repo, t, site, sourceToSite) {
        StableRoutesRenderOnce(repo, t, site, sourceToSite);
      }
    } else {
      var site :| DocsPage(repo, site) && !StableOn(repo, sourceToSite, site);
      var file :| Unstable(repo, sourceToSite, file) && !SchemeHazard(site, sourceToSite[file]);
      var t := UnstableRoutesRenderTwice(repo, sourceToSite, site, file);
    }
  }

  lemma ColonOfNotes()
    ensures ColonIndex("notes:1.md") == 5
  {
  }

  /**
   Whatever else is mapped, the docs home page's link to an unmapped neighbour `notes:1.md` is printed as a
   URI with scheme "notes" and goes astray.
   */
  lemma SchemeHazardIsReal(repo: Repo, sourceToSite: map<Path, Path>) returns (t: Target)
    requires Normal(repo.root) && Normal(repo.cwd) && NormalRoutes(sourceToSite) && DocsFile(repo, ["notes:1.md"]) !in sourceToSite
    ensures IsParsed(t) && IsInternal(t) && Resolved(DocsFile(repo, ["index.md"]), t) == DocsFile(repo, ["notes:1.md"])
    ensures Reached(["index.md"], Reread(RenderDocs(repo, t, ["index.md"], sourceToSite))) != Some(["notes:1.md"])
  {
    hide Resolve, Resolved, Relpath, RenderTarget, ColonIndex, DestinationOf;
    ColonOfNotes();
    assert Parent(["index.md"]) == [];
    t := LinkTo(repo, ["index.md"], DocsFile(repo, ["notes:1.md"]));
    DocsFileDestination(repo, ["notes:1.md"], sourceToSite);
    RenderedLinkReachesRoute(repo, t, DocsFile(repo, ["index.md"]), ["index.md"], sourceToSite);
  }

  // ---------- a route taken over, and an unstable map ----------

  function GuidePage(repo: Repo): Page {
    Page(repo.root + ["loopx", "a.md"], ["guide.md"])
  }

  function OtherPage(repo: Repo): Page {
    Page(DocsFile(repo, ["guide.md"]), ["other.md"])
  }

  /** One generated page with route `guide.md`; the docs file of that name is not mapped, and its link reaches the generated page. */
  lemma TakeoverIsReal(repo: Repo) returns (maps: Maps)
    requires Normal(repo.root)
    ensures AreMapsOf(maps, [GuidePage(repo)]) && DocsFile(repo, ["guide.md"]) !in maps.sourceToSite
    ensures DestinationOf(repo, DocsFile(repo, ["guide.md"]), maps.sourceToSite) == Route(["guide.md"])
    ensures PageFile(repo, maps, ["guide.md"]) == repo.root + ["loopx", "a.md"] != DocsFile(repo, ["guide.md"])
  {
    hide Resolve;
    var page, pages := GuidePage(repo), [GuidePage(repo)];
    CleanIsIdentity(page.source);
    maps := Maps(map[page.site := page.source], map[page.source := page.site]);
    assert IsFirstFor(pages, page.source, 0);
    assert page.source[|repo.root|] != DocsFile(repo, ["guide.md"])[|repo.root|];
    DocsFileDestination(repo, ["guide.md"], maps.sourceToSite);
  }

  lemma UnstableMap(repo: Repo) returns (maps: Maps)
    requires Normal(repo.root)
    ensures AreMapsOf(maps, [GuidePage(repo), OtherPage(repo)])
    ensures maps.sourceToSite == map[GuidePage(repo).source := ["guide.md"], OtherPage(repo).source := ["other.md"]]
    ensures Unstable(repo, maps.sourceToSite, GuidePage(repo).source) && maps.sourceToSite[GuidePage(repo).source] == ["guide.md"]
  {
    hide Resolve;
    var a, b, pages := GuidePage(repo), OtherPage(repo), [GuidePage(repo), OtherPage(repo)];
    CleanIsIdentity(a.source);
    CleanIsIdentity(b.source);
    assert a.source[|repo.root|] != b.source[|repo.root|];
    maps := Maps(map[a.site := a.source, b.site := b.source], map[a.source := a.site, b.source := b.site]);
    assert IsFirstFor(pages, a.source, 0) && IsFirstFor(pages, b.source, 1);
  }

  /** With a docs file mapped elsewhere, the docs home page is rendered differently the second time. */
  lemma UnstableRoutesAreReal(repo: Repo) returns (maps: Maps, t: Target)
    requires Normal(repo.root) && Normal(repo.cwd)
    ensures AreMapsOf(maps, [GuidePage(repo), OtherPage(repo)])
    ensures IsParsed(t) && !RendersOnce(repo, t, ["index.md"], maps.sourceToSite)
  {
    hide Resolve, RendersOnce, IsParsed, AreMapsOf, Unstable, SchemeHazard;
    maps := UnstableMap(repo);
    GuideIsSafe();
    t := UnstableRoutesRenderTwice(repo, maps.sourceToSite, ["index.md"], GuidePage(repo).source);
  }

  lemma GuideIsSafe()
    ensures !SchemeHazard(["index.md"], ["guide.md"])
  {
    assert Parent(["index.md"]) == [];
    assert ':' !in "guide.md";
  }

  // ---------- which links change, and to what ----------

  /** Links with a scheme or host, without a path, or with an absolute path are left alone. */
  lemma ExternalLinksStay(repo: Repo, t: Target, source: Path, site: Path, sourceToSite: map<Path, Path>)
    requires |t.ref.path| > 0 && (t.ref.scheme != "" || t.ref.netloc != "" || t.ref.path[0] == "")
    ensures RenderTarget(repo, t, source, site, sourceToSite) == t
  {
  }

  lemma DocsBelow(root: Path, file: Path)
    ensures root + ["docs"] <= file <==> root <= file && |file| > |root| && file[|root|..][0] == "docs"
  {
    if root <= file && |file| > |root| {
      assert file == root + [file[|root|]] + file[|root| + 1..];
    }
  }

  /** An unmapped link out of the repository, or to nothing outside `docs`, is left alone. */
  lemma UnresolvedLinksStay(repo: Repo, t: Target, source: Path, site: Path, sourceToSite: map<Path, Path>)
    requires |t.ref.path| > 0 && Resolved(source, t) !in sourceToSite
    requires var file := Resolved(source, t);
             !(repo.root <= file) || (file !in repo.existing && !(repo.root + ["docs"] <= file))
    ensures RenderTarget(repo, t, source, site, sourceToSite) == t
  {
    var file := Resolved(source, t);
    DocsBelow(repo.root, file);
  }

  /** A link to an existing, unmapped file outside `docs` goes to that file on the repository's host. */
  lemma RepositoryFilesGetABlobLink(repo: Repo, t: Target, source: Path, site: Path, sourceToSite: map<Path, Path>, relative: Path)
    requires |t.ref.path| > 0 && t.ref.scheme == "" && t.ref.netloc == "" && t.ref.path[0] != ""
    requires Resolved(source, t) == repo.root + relative && repo.root + relative in repo.existing
    requires repo.root + relative !in sourceToSite && relative != [] && relative[0] != "docs"
    ensures RenderTarget(repo, t, source, site, sourceToSite)
         == Target(t.bracketed, Ref("https", "github.com", ["", "huangruiteng", "loopx", "blob", "main"] + relative, t.ref.query, t.ref.fragment))
  {
    assert (repo.root + relative)[|repo.root|..] == relative;
  }

  predicate IsLetter(c: char) {
    'a' <= c <= 'z' || 'A' <= c <= 'Z'
  }

  /** Links are read from the directory of the file, and of the page, that holds them: the relative path from there leads to its target. */
  lemma LinksStartAtTheDirectory(directory: Path, name: string, target: Path, t: Target)
    requires Normal(directory) && Normal(target) && t.ref.path == Relpath(target, directory) && t.ref.scheme == "" && t.ref.netloc == ""
    ensures Resolved(directory + [name], t) == target
    ensures Reached(directory + [name], t) == Some(target)
  {
    var source := directory + [name];
    assert source[..|source| - 1] == directory;
    RelpathLeadsToTarget([], target, directory);
    ResolveConcat([], directory, t.ref.path);
    ResolvePlain([], directory);
    assert [] + directory == directory && [] + target == target;
  }

  /** The scheme rule of section 3.1 of RFC 3986, up to the first colon. */
  lemma SchemeIff(seg: string)
    ensures LooksLikeScheme(seg) <==>
            exists i :: 0 < i < |seg| && seg[i] == ':' && IsLetter(seg[0])
                        && forall k :: 0 <= k < i ==> IsLetter(seg[k]) || '0' <= seg[k] <= '9' || seg[k] in {'+', '-', '.'}
  {
    var i := ColonIndex(seg);
    assert forall k :: 0 <= k < i ==> seg[..i][k] == seg[k];
    assert !IsLetter(':') && !('0' <= ':' <= '9');
    if j :| 0 < j < |seg| && seg[j] == ':' && IsLetter(seg[0])
            && forall k :: 0 <= k < j ==> IsLetter(seg[k]) || '0' <= seg[k] <= '9' || seg[k] in {'+', '-', '.'} {
      assert i == j;
    }
  }
}
