/** The check of an archive directory against a manifest of pinned file digests, in listing order. */
module ManifestCheck {
  import opened Options
  import opened Sequences
  import opened GitObjects
  import opened ArchiveCheck

  /** Foreign syntax checkers: `python` gives the number of embedded sources it also checked. */
  datatype Checkers = Checkers(python: Entry -> Option<nat>, json: Entry -> bool)

  predicate IsCleanCache(e: Entry) {
    e.name == PYCACHE && e.node.Directory? && forall i :: 0 <= i < |e.node.children| ==> IsBytecode(e.node.children[i])
  }

  predicate IsPinned(sha256: Hash, manifest: map<Bytes, Bytes>, e: Entry) {
    e.node.File? && e.name in manifest && !e.node.executable && sha256(e.node.data) == manifest[e.name]
  }

  predicate SyntaxOk(checkers: Checkers, e: Entry) {
    if Suffix(e.name) == PY then checkers.python(e).Some? else checkers.json(e)
  }

  /** Outside bytecode-only caches the directory holds the manifest's files, all of them and nothing else. */
  ghost predicate Identical(sha256: Hash, manifest: map<Bytes, Bytes>, listing: seq<Entry>) {
    && (forall i :: 0 <= i < |listing| ==> IsCleanCache(listing[i]) || IsPinned(sha256, manifest, listing[i]))
    && (forall name :: name in manifest ==> exists i :: 0 <= i < |listing| && IsPinned(sha256, manifest, listing[i]) && listing[i].name == name)
  }

  ghost predicate Passes(sha256: Hash, checkers: Checkers, manifest: map<Bytes, Bytes>, listing: seq<Entry>) {
    && Identical(sha256, manifest, listing)
    && (forall i :: 0 <= i < |listing| && !IsCleanCache(listing[i]) ==> SyntaxOk(checkers, listing[i]))
  }

  datatype ManifestReport = ManifestReport(filesChecked: nat, python: nat, embedded: nat)

  datatype ManifestError =
    | UnlistedEntry(name: Bytes) | ModeChanged(name: Bytes) | BytesChanged(name: Bytes)
    | SyntaxFailure(name: Bytes) | FilesMissing

  function PythonNames(names: set<Bytes>): set<Bytes> {
    set n | n in names && Suffix(n) == PY
  }

  /** One item for each embedded source checked in an entry. */
  function EmbeddedSources(checkers: Checkers): Entry -> seq<Entry> {
    e => if !IsCleanCache(e) && Suffix(e.name) == PY && checkers.python(e).Some?
         then seq(checkers.python(e).value, _ => e) else []
  }

  method ExamineFile(sha256: Hash, checkers: Checkers, manifest: map<Bytes, Bytes>, path: Entry) returns (r: Result<nat, ManifestError>)
    ensures r.Success? <==> IsPinned(sha256, manifest, path) && SyntaxOk(checkers, path)
    ensures r.Success? ==> r.value == |EmbeddedSources(checkers)(path)|
  {
    if !path.node.File? || path.name !in manifest { return Failure(UnlistedEntry(path.name)); }
    if path.node.executable { return Failure(ModeChanged(path.name)); }
    if sha256(path.node.data) != manifest[path.name] { return Failure(BytesChanged(path.name)); }
    if Suffix(path.name) == PY {
      var found := checkers.python(path);
      if found.None? { return Failure(SyntaxFailure(path.name)); }
      return Success(found.value);
    }
    if !checkers.json(path) { return Failure(SyntaxFailure(path.name)); }
    return Success(0);
  }

  lemma PythonNamesGrow(names: set<Bytes>, n: Bytes)
    requires n !in names
    ensures |PythonNames(names + {n})| == |PythonNames(names)| + if Suffix(n) == PY then 1 else 0
  {
    assert PythonNames(names + {n}) == PythonNames(names) + if Suffix(n) == PY then {n} else {};
  }

  /** The loop state after `done`: each entry is a clean cache or an observed pinned file, and nothing else is observed. */
  ghost predicate Examined(sha256: Hash, checkers: Checkers, manifest: map<Bytes, Bytes>, done: seq<Entry>, observed: set<Bytes>) {
    && (forall j :: 0 <= j < |done| ==>
          IsCleanCache(done[j]) || (IsPinned(sha256, manifest, done[j]) && SyntaxOk(checkers, done[j]) && done[j].name in observed))
    && (forall n :: n in observed ==>
          n in manifest && exists j :: 0 <= j < |done| && IsPinned(sha256, manifest, done[j]) && done[j].name == n)
  }

  lemma CacheExamined(sha256: Hash, checkers: Checkers, manifest: map<Bytes, Bytes>, done: seq<Entry>, observed: set<Bytes>, e: Entry)
    requires Examined(sha256, checkers, manifest, done, observed) && IsCleanCache(e)
    ensures Examined(sha256, checkers, manifest, done + [e], observed) && EmbeddedSources(checkers)(e) == []
  {
    hide Suffix, SyntaxOk;
    forall n | n in observed
      ensures exists j :: 0 <= j < |done + [e]| && IsPinned(sha256, manifest, (done + [e])[j]) && (done + [e])[j].name == n
    {
      var j :| 0 <= j < |done| && IsPinned(sha256, manifest, done[j]) && done[j].name == n;
      assert (done + [e])[j] == done[j];
    }
  }

  lemma FileExamined(sha256: Hash, checkers: Checkers, manifest: map<Bytes, Bytes>, done: seq<Entry>, observed: set<Bytes>, e: Entry)
    requires Examined(sha256, checkers, manifest, done, observed) && IsPinned(sha256, manifest, e) && SyntaxOk(checkers, e)
    ensures Examined(sha256, checkers, manifest, done + [e], observed + {e.name})
  {
    hide Suffix, SyntaxOk, IsCleanCache;
    forall n | n in observed + {e.name}
      ensures exists j :: 0 <= j < |done + [e]| && IsPinned(sha256, manifest, (done + [e])[j]) && (done + [e])[j].name == n
    {
      if n == e.name {
        assert (done + [e])[|done|] == e;
      } else {
        var j :| 0 <= j < |done| && IsPinned(sha256, manifest, done[j]) && done[j].name == n;
        assert (done + [e])[j] == done[j];
      }
    }
  }

  /** At the end the set comparison decides identity. */
  lemma ObservedDecides(sha256: Hash, checkers: Checkers, manifest: map<Bytes, Bytes>, listing: seq<Entry>, observed: set<Bytes>)
    requires Examined(sha256, checkers, manifest, listing, observed)
    ensures observed == manifest.Keys <==> Passes(sha256, checkers, manifest, listing)
  {
  }

  lemma NewName(sha256: Hash, checkers: Checkers, manifest: map<Bytes, Bytes>, listing: seq<Entry>, i: nat, observed: set<Bytes>)
    requires DistinctNames(listing) && i < |listing| && Examined(sha256, checkers, manifest, listing[..i], observed)
    ensures listing[i].name !in observed
  {
  }

  /** Passing means exact identity with the manifest, for every directory content and listing order. */
  method CheckManifest(sha256: Hash, checkers: Checkers, manifest: map<Bytes, Bytes>, listing: seq<Entry>)
    returns (r: Result<ManifestReport, ManifestError>)
    requires DistinctNames(listing)
    ensures r.Success? <==> Passes(sha256, checkers, manifest, listing)
    ensures r.Success? ==> r.value.filesChecked == |manifest| && r.value.python == |PythonNames(manifest.Keys)|
    ensures r.Success? ==> r.value.embedded == |Gather(EmbeddedSources(checkers), listing)|
  {
    hide Suffix, SyntaxOk, EmbeddedSources, IsPinned, PythonNames, DistinctNames, Examined, Passes;
    var observed: set<Bytes> := {};
    var python, embedded := 0, 0;
    NothingExamined(sha256, checkers, manifest);
    for i := 0 to |listing|
      invariant Examined(sha256, checkers, manifest, listing[..i], observed)
      invariant python == |PythonNames(observed)|
      invariant embedded == |Gather(EmbeddedSources(checkers), listing[..i])|
    {
      var path := listing[i];
      assert listing[..i + 1] == listing[..i] + [path];
      assert listing[..i + 1][..i] == listing[..i];
      if path.name == PYCACHE && path.node.Directory? {
        if exists k :: 0 <= k < |path.node.children| && !IsBytecode(path.node.children[k]) {
          DirectoryIsNotPinned(sha256, manifest, path);
          EntryRefutes(sha256, checkers, manifest, listing, i);
          return Failure(UnlistedEntry(path.name));
        }
        CacheExamined(sha256, checkers, manifest, listing[..i], observed, path);
        continue;
      }
      var found := ExamineFile(sha256, checkers, manifest, path);
      if found.Failure? {
        EntryRefutes(sha256, checkers, manifest, listing, i);
        return Failure(found.error);
      }
      NewName(sha256, checkers, manifest, listing, i, observed);
      FileExamined(sha256, checkers, manifest, listing[..i], observed, path);
      PythonNamesGrow(observed, path.name);
      observed := observed + {path.name};
      embedded := embedded + found.value;
      if Suffix(path.name) == PY {
        python := python + 1;
      }
    }
    assert listing[..|listing|] == listing;
    ObservedDecides(sha256, checkers, manifest, listing, observed);
    if observed != manifest.Keys { return Failure(FilesMissing); }
    return Success(ManifestReport(|observed|, python, embedded));
  }

  lemma NothingExamined(sha256: Hash, checkers: Checkers, manifest: map<Bytes, Bytes>)
    ensures Examined(sha256, checkers, manifest, [], {}) && PythonNames({}) == {}
  {
  }

  lemma EntryRefutes(sha256: Hash, checkers: Checkers, manifest: map<Bytes, Bytes>, listing: seq<Entry>, i: nat)
    requires i < |listing| && !IsCleanCache(listing[i])
    requires !IsPinned(sha256, manifest, listing[i]) || !SyntaxOk(checkers, listing[i])
    ensures !Passes(sha256, checkers, manifest, listing)
  {
  }

  lemma DirectoryIsNotPinned(sha256: Hash, manifest: map<Bytes, Bytes>, e: Entry)
    requires e.node.Directory?
    ensures !IsPinned(sha256, manifest, e)
  {
  }
}
