/**
 The check of an immutable archive directory against one Git tree digest.

 The directory is read in byte order of its names.  Bytecode is skipped, every other entry must be a
 regular file, and the names, any-execute bits and bytes of those files form a Git tree whose digest is
 compared with the pinned one.  Syntax checkers and the hash are parameters.
 */
module ArchiveCheck {
  import opened Options
  import opened Sequences
  import opened GitObjects

  const DOT: Byte := 46
  const PYCACHE: Bytes := [95, 95, 112, 121, 99, 97, 99, 104, 101, 95, 95]
  const PYC: Bytes := [46, 112, 121, 99]
  const PY: Bytes := [46, 112, 121]
  const SH: Bytes := [46, 115, 104]

  datatype Node =
    | File(executable: bool, data: Bytes)
    | Directory(children: seq<Entry>)
    | Symlink(toFile: bool, toDirectory: bool)
    | Special

  datatype Entry = Entry(name: Bytes, node: Node)

  function LastIndexOf(bs: Bytes, b: Byte): (i: int)
    ensures -1 <= i < |bs|
  {
    if bs == [] then -1 else if bs[|bs| - 1] == b then |bs| - 1 else LastIndexOf(bs[..|bs| - 1], b)
  }

  /** The last dot and what follows it, unless the dot is the first or the last byte. */
  function Suffix(name: Bytes): Bytes {
    var i := LastIndexOf(name, DOT);
    if 0 < i < |name| - 1 then name[i..] else []
  }

  predicate IsBytecode(e: Entry) {
    e.node.File? && Suffix(e.name) == PYC
  }

  datatype Verdict = Skip | Reject | Keep

  /** Real `__pycache__` directories must hold bytecode only; symbolic links are never followed. */
  function VerdictOf(e: Entry): Verdict {
    if e.name == PYCACHE && e.node.Directory? then
      if forall i :: 0 <= i < |e.node.children| ==> IsBytecode(e.node.children[i]) then Skip else Reject
    else if IsBytecode(e) then Skip
    else if !e.node.File? then Reject
    else Keep
  }

  /** A file as the snapshot sees it. */
  datatype Record = Record(name: Bytes, executable: bool, data: Bytes)

  function KeptOf(e: Entry): seq<Record> {
    if VerdictOf(e).Keep? then [Record(e.name, e.node.executable, e.node.data)] else []
  }

  // ---------- byte order of names ----------

  function InsertByName(e: Entry, es: seq<Entry>): (r: seq<Entry>)
    ensures multiset(r) == multiset(es) + multiset{e}
  {
    if es == [] || Less(e.name, es[0].name) then [e] + es
    else
      assert es == [es[0]] + es[1..];
      [es[0]] + InsertByName(e, es[1..])
  }

  function SortByName(es: seq<Entry>): (r: seq<Entry>)
    ensures multiset(r) == multiset(es)
  {
    if es == [] then []
    else
      assert es == [es[0]] + es[1..];
      InsertByName(es[0], SortByName(es[1..]))
  }

  predicate DistinctNames(es: seq<Entry>) {
    forall i, j :: 0 <= i < j < |es| ==> es[i].name != es[j].name
  }

  predicate InOrder(es: seq<Entry>) {
    forall i, j :: 0 <= i < j < |es| ==> Less(es[i].name, es[j].name)
  }

  predicate Ascending(rs: seq<Record>) {
    forall i, j :: 0 <= i < j < |rs| ==> Less(rs[i].name, rs[j].name)
  }

  lemma SameMembers<T>(xs: seq<T>, ys: seq<T>)
    requires multiset(xs) == multiset(ys)
    ensures forall x :: x in xs <==> x in ys
  {
    forall x ensures x in xs <==> x in ys {
      assert x in multiset(xs) <==> x in multiset(ys);
    }
  }

  lemma {:induction false} InsertKeepsOrder(e: Entry, es: seq<Entry>)
    requires InOrder(es) && forall i :: 0 <= i < |es| ==> es[i].name != e.name
    ensures InOrder(InsertByName(e, es))
  {
    if es == [] {
    } else if Less(e.name, es[0].name) {
      forall j | 0 < j < |es| ensures Less(e.name, es[j].name) {
        LessIsTransitive(e.name, es[0].name, es[j].name);
      }
    } else {
      LessIsTotal(e.name, es[0].name);
      InsertKeepsOrder(e, es[1..]);
      var rest := InsertByName(e, es[1..]);
      forall j | 0 <= j < |rest| ensures Less(es[0].name, rest[j].name) {
        assert rest[j] in multiset(es[1..]) + multiset{e};
        if rest[j] != e {
          assert rest[j] in es[1..];
        }
      }
    }
  }

  lemma {:induction false} SortOrders(es: seq<Entry>)
    requires DistinctNames(es)
    ensures InOrder(SortByName(es))
  {
    if es != [] {
      SortOrders(es[1..]);
      var rest := SortByName(es[1..]);
      SameMembers(rest, es[1..]);
      forall i | 0 <= i < |rest| ensures rest[i].name != es[0].name {
        assert rest[i] in es[1..];
      }
      InsertKeepsOrder(es[0], rest);
    }
  }

  /** The records of a listing, in byte order of their names. */
  function Kept(es: seq<Entry>): seq<Record> {
    Gather(KeptOf, SortByName(es))
  }

  lemma {:induction false} GatheredAscending(es: seq<Entry>)
    requires InOrder(es)
    ensures Ascending(Gather(KeptOf, es))
  {
    if es != [] {
      var m := |es| - 1;
      GatheredAscending(es[..m]);
      var rs := Gather(KeptOf, es[..m]);
      forall i | 0 <= i < |rs| ensures Less(rs[i].name, es[m].name) {
        GatherMember(KeptOf, es[..m], rs[i]);
        var k :| 0 <= k < m && rs[i] in KeptOf(es[..m][k]);
        assert Less(es[k].name, es[m].name);
      }
    }
  }

  lemma KeptIsAscending(es: seq<Entry>)
    requires DistinctNames(es)
    ensures Ascending(Kept(es))
  {
    SortOrders(es);
    GatheredAscending(SortByName(es));
  }

  lemma KeptMember(es: seq<Entry>, r: Record)
    ensures r in Kept(es) <==> r in Gather(KeptOf, es)
  {
    GatherOfPermutation(KeptOf, SortByName(es), es);
    SameMembers(Kept(es), Gather(KeptOf, es));
  }

  lemma AscendingTail(rs: seq<Record>, r: Record)
    requires Ascending(rs) && rs != []
    ensures r in rs[1..] <==> r in rs && r != rs[0]
  {
    LessIsTotal(r.name, r.name);
    assert rs == [rs[0]] + rs[1..];
  }

  /** Ascending distinct names admit one order only. */
  lemma {:induction false} AscendingIsUnique(rs: seq<Record>, qs: seq<Record>)
    requires Ascending(rs) && Ascending(qs) && forall r :: r in rs <==> r in qs
    ensures rs == qs
  {
    assert forall i :: 0 <= i < |rs| ==> rs[i] in qs;
    assert forall i :: 0 <= i < |qs| ==> qs[i] in rs;
    if rs != [] && qs != [] {
      LessIsTotal(rs[0].name, qs[0].name);
      LessIsTotal(rs[0].name, rs[0].name);
      assert rs[0] == qs[0];
      forall r ensures r in rs[1..] <==> r in qs[1..] {
        AscendingTail(rs, r);
        AscendingTail(qs, r);
      }
      AscendingIsUnique(rs[1..], qs[1..]);
    }
  }

  // ---------- the tree digest ----------

  type Hash = Bytes -> Bytes

  ghost predicate IsDigest(sha1: Hash) {
    forall x: Bytes :: |sha1(x)| == DIGEST_LENGTH
  }

  function ModeOf(executable: bool): Bytes {
    if executable then [49, 48, 48, 55, 53, 53] else [49, 48, 48, 54, 52, 52]
  }

  function EntryFor(sha1: Hash, r: Record): TreeEntry {
    TreeEntry(ModeOf(r.executable), r.name, sha1(Framed(BLOB, r.data)))
  }

  function TreeEntries(sha1: Hash, rs: seq<Record>): seq<TreeEntry> {
    seq(|rs|, i requires 0 <= i < |rs| => EntryFor(sha1, rs[i]))
  }

  function TreeObject(sha1: Hash, rs: seq<Record>): Bytes {
    Framed(TREE, EncodeTree(TreeEntries(sha1, rs)))
  }

  function TreeDigest(sha1: Hash, rs: seq<Record>): Bytes {
    sha1(TreeObject(sha1, rs))
  }

  /** The hash does not collide on the given inputs. */
  ghost predicate CollisionFree(sha1: Hash, inputs: set<Bytes>) {
    forall x, y :: x in inputs && y in inputs && sha1(x) == sha1(y) ==> x == y
  }

  /** Everything hashed for one snapshot. */
  ghost function Hashed(sha1: Hash, rs: seq<Record>): set<Bytes> {
    {TreeObject(sha1, rs)} + set i | 0 <= i < |rs| :: Framed(BLOB, rs[i].data)
  }

  predicate NamesOk(rs: seq<Record>) {
    forall i :: 0 <= i < |rs| ==> NUL !in rs[i].name
  }

  lemma BlobDeterminesBytes(a: Bytes, b: Bytes)
    ensures Framed(BLOB, a) == Framed(BLOB, b) ==> a == b
    ensures Framed(BLOB, a) != Framed(TREE, b)
  {
    FramedRoundTrip(BLOB, a);
    FramedRoundTrip(BLOB, b);
    FramedRoundTrip(TREE, b);
  }

  lemma TreeObjectDeterminesEntries(sha1: Hash, rs: seq<Record>, qs: seq<Record>)
    requires IsDigest(sha1) && NamesOk(rs) && NamesOk(qs) && TreeObject(sha1, rs) == TreeObject(sha1, qs)
    ensures TreeEntries(sha1, rs) == TreeEntries(sha1, qs)
  {
    var a, b := TreeEntries(sha1, rs), TreeEntries(sha1, qs);
    FramedRoundTrip(TREE, EncodeTree(a));
    FramedRoundTrip(TREE, EncodeTree(b));
    TreeRoundTrip(a);
    TreeRoundTrip(b);
  }

  /** Equal tree digests mean equal names, execute bits and bytes, record by record. */
  lemma DigestDeterminesRecords(sha1: Hash, rs: seq<Record>, qs: seq<Record>)
    requires IsDigest(sha1) && NamesOk(rs) && NamesOk(qs)
    requires CollisionFree(sha1, Hashed(sha1, rs) + Hashed(sha1, qs))
    ensures TreeDigest(sha1, rs) == TreeDigest(sha1, qs) <==> rs == qs
  {
    if TreeDigest(sha1, rs) == TreeDigest(sha1, qs) {
      assert TreeObject(sha1, rs) in Hashed(sha1, rs) && TreeObject(sha1, qs) in Hashed(sha1, qs);
      TreeObjectDeterminesEntries(sha1, rs, qs);
      assert |TreeEntries(sha1, rs)| == |rs| && |TreeEntries(sha1, qs)| == |qs|;
      forall i | 0 <= i < |rs| ensures rs[i] == qs[i] {
        assert TreeEntries(sha1, rs)[i] == TreeEntries(sha1, qs)[i];
        assert Framed(BLOB, rs[i].data) in Hashed(sha1, rs) && Framed(BLOB, qs[i].data) in Hashed(sha1, qs);
        BlobDeterminesBytes(rs[i].data, qs[i].data);
        assert ModeOf(rs[i].executable)[3] == ModeOf(qs[i].executable)[3];
      }
    }
  }

  // ---------- the check ----------

  /** Foreign syntax checkers: `python` gives the number of embedded sources it also checked. */
  datatype Lint = Lint(python: Entry -> Option<nat>, shell: Entry -> bool)

  predicate LintOk(lint: Lint, e: Entry) {
    && (Suffix(e.name) == PY ==> lint.python(e).Some?)
    && (Suffix(e.name) == SH ==> lint.shell(e))
  }

  predicate EntryAdmitted(lint: Lint, e: Entry) {
    VerdictOf(e).Skip? || (VerdictOf(e).Keep? && LintOk(lint, e))
  }

  function PythonChecks(e: Entry): seq<Entry> {
    if VerdictOf(e).Keep? && Suffix(e.name) == PY then [e] else []
  }

  function ShellChecks(e: Entry): seq<Entry> {
    if VerdictOf(e).Keep? && Suffix(e.name) == SH then [e] else []
  }

  function EmbeddedChecks(lint: Lint): Entry -> seq<Entry> {
    e => if VerdictOf(e).Keep? && Suffix(e.name) == PY && lint.python(e).Some?
         then seq(lint.python(e).value, _ => e) else []
  }

  datatype ArchiveReport = ArchiveReport(tree: Bytes, python: nat, embedded: nat, shell: nat)

  datatype ArchiveError = UnexpectedEntry(name: Bytes) | SyntaxError(name: Bytes) | TreeDiffers

  ghost predicate Accepted(sha1: Hash, lint: Lint, expected: Bytes, listing: seq<Entry>) {
    && (forall i :: 0 <= i < |listing| ==> EntryAdmitted(lint, listing[i]))
    && TreeDigest(sha1, Kept(listing)) == expected
  }

  function TreeBuffer(sha1: Hash, rs: seq<Record>): Bytes {
    EncodeTree(TreeEntries(sha1, rs))
  }

  lemma TreeGrows(sha1: Hash, rs: seq<Record>, e: Entry)
    ensures TreeBuffer(sha1, rs + KeptOf(e)) == TreeBuffer(sha1, rs) + TreeBuffer(sha1, KeptOf(e))
  {
    if VerdictOf(e).Keep? {
      var r := KeptOf(e)[0];
      EncodeTreeAppends(TreeEntries(sha1, rs), EntryFor(sha1, r));
      EncodeTreeAppends([], EntryFor(sha1, r));
      assert TreeEntries(sha1, rs + [r]) == TreeEntries(sha1, rs) + [EntryFor(sha1, r)];
      assert TreeEntries(sha1, [r]) == [] + [EntryFor(sha1, r)];
    } else {
      assert rs + KeptOf(e) == rs;
    }
  }

  lemma AdmittedInAnyOrder(lint: Lint, es: seq<Entry>, es': seq<Entry>)
    requires multiset(es) == multiset(es')
    ensures (forall i :: 0 <= i < |es| ==> EntryAdmitted(lint, es[i])) <==> (forall i :: 0 <= i < |es'| ==> EntryAdmitted(lint, es'[i]))
  {
    SameMembers(es, es');
    assert forall i :: 0 <= i < |es| ==> es[i] in es';
    assert forall i :: 0 <= i < |es'| ==> es'[i] in es;
  }

  lemma CountInAnyOrder(f: Entry -> seq<Entry>, es: seq<Entry>, es': seq<Entry>)
    requires multiset(es) == multiset(es')
    ensures |Gather(f, es)| == |Gather(f, es')|
  {
    GatherOfPermutation(f, es, es');
    assert |multiset(Gather(f, es))| == |multiset(Gather(f, es'))|;
  }

  datatype Step = Step(chunk: Bytes, python: nat, embedded: nat, shell: nat)

  /** One turn of the loop: what the entry adds to the tree buffer and to the counters. */
  method ExamineEntry(sha1: Hash, lint: Lint, path: Entry) returns (r: Result<Step, ArchiveError>)
    ensures r.Success? <==> EntryAdmitted(lint, path)
    ensures r.Success? ==> r.value == Step(TreeBuffer(sha1, KeptOf(path)), |PythonChecks(path)|, |EmbeddedChecks(lint)(path)|, |ShellChecks(path)|)
  {
    if path.name == PYCACHE && path.node.Directory? {
      if exists k :: 0 <= k < |path.node.children| && !IsBytecode(path.node.children[k]) {
        return Failure(UnexpectedEntry(path.name));
      }
      return Success(Step([], 0, 0, 0));
    }
    if IsBytecode(path) { return Success(Step([], 0, 0, 0)); }
    if !path.node.File? { return Failure(UnexpectedEntry(path.name)); }
    var blob := sha1(Framed(BLOB, path.node.data));
    var mode := ModeOf(path.node.executable);
    var chunk := mode + [SPACE] + path.name + [NUL] + blob;
    assert TreeEntries(sha1, KeptOf(path)) == [] + [TreeEntry(mode, path.name, blob)];
    EncodeTreeAppends([], TreeEntry(mode, path.name, blob));
    if Suffix(path.name) == PY {
      var found := lint.python(path);
      if found.None? { return Failure(SyntaxError(path.name)); }
      return Success(Step(chunk, 1, found.value, 0));
    } else if Suffix(path.name) == SH {
      if !lint.shell(path) { return Failure(SyntaxError(path.name)); }
      return Success(Step(chunk, 0, 0, 1));
    }
    return Success(Step(chunk, 0, 0, 0));
  }

  /** The buffer and counters after the entries `es`. */
  ghost predicate Built(sha1: Hash, lint: Lint, es: seq<Entry>, s: Step) {
    && s.chunk == TreeBuffer(sha1, Gather(KeptOf, es))
    && s.python == |Gather(PythonChecks, es)|
    && s.embedded == |Gather(EmbeddedChecks(lint), es)|
    && s.shell == |Gather(ShellChecks, es)|
  }

  lemma BuiltGrows(sha1: Hash, lint: Lint, es: seq<Entry>, e: Entry, s: Step)
    requires Built(sha1, lint, es, s)
    ensures Built(sha1, lint, es + [e],
                  Step(s.chunk + TreeBuffer(sha1, KeptOf(e)), s.python + |PythonChecks(e)|,
                       s.embedded + |EmbeddedChecks(lint)(e)|, s.shell + |ShellChecks(e)|))
  {
    TreeGrows(sha1, Gather(KeptOf, es), e);
    assert (es + [e])[..|es|] == es;
  }

  lemma NothingBuilt(sha1: Hash, lint: Lint)
    ensures Built(sha1, lint, [], Step([], 0, 0, 0))
  {
  }

  method BuildTree(sha1: Hash, lint: Lint, es: seq<Entry>) returns (r: Result<Step, ArchiveError>)
    ensures r.Success? <==> forall i :: 0 <= i < |es| ==> EntryAdmitted(lint, es[i])
    ensures r.Success? ==> Built(sha1, lint, es, r.value)
  {
    hide EntryAdmitted, KeptOf, PythonChecks, ShellChecks, EmbeddedChecks, Built, TreeBuffer;
    var sum := Step([], 0, 0, 0);
    NothingBuilt(sha1, lint);
    for i := 0 to |es|
      invariant forall j :: 0 <= j < i ==> EntryAdmitted(lint, es[j])
      invariant Built(sha1, lint, es[..i], sum)
    {
      var step := ExamineEntry(sha1, lint, es[i]);
      if step.Failure? { return Failure(step.error); }
      var s := step.value;
      BuiltGrows(sha1, lint, es[..i], es[i], sum);
      assert es[..i + 1] == es[..i] + [es[i]];
      sum := Step(sum.chunk + s.chunk, sum.python + s.python, sum.embedded + s.embedded, sum.shell + s.shell);
    }
    assert es[..|es|] == es;
    return Success(sum);
  }

  /** The sorted loop accepts exactly the admitted listings whose tree digest is the expected one. */
  method CheckArchive(sha1: Hash, lint: Lint, expected: Bytes, listing: seq<Entry>) returns (r: Result<ArchiveReport, ArchiveError>)
    ensures r.Success? <==> Accepted(sha1, lint, expected, listing)
    ensures r.Success? ==>
      && r.value.tree == expected
      && r.value.python == |Gather(PythonChecks, listing)|
      && r.value.shell == |Gather(ShellChecks, listing)|
      && r.value.embedded == |Gather(EmbeddedChecks(lint), listing)|
  {
    var sorted := SortByName(listing);
    AdmittedInAnyOrder(lint, listing, sorted);
    var built := BuildTree(sha1, lint, sorted);
    if built.Failure? { return Failure(built.error); }
    var actual := sha1(Framed(TREE, built.value.chunk));
    if actual != expected { return Failure(TreeDiffers); }
    CountInAnyOrder(PythonChecks, sorted, listing);
    CountInAnyOrder(ShellChecks, sorted, listing);
    CountInAnyOrder(EmbeddedChecks(lint), sorted, listing);
    return Success(ArchiveReport(actual, built.value.python, built.value.embedded, built.value.shell));
  }

  // ---------- what acceptance means ----------

  /** The digest test against a reference snapshot passes exactly when the kept files are the snapshot's files. */
  lemma DigestTestIsExact(sha1: Hash, listing: seq<Entry>, snapshot: seq<Record>)
    requires IsDigest(sha1) && DistinctNames(listing) && Ascending(snapshot)
    requires NamesOk(Kept(listing)) && NamesOk(snapshot)
    requires CollisionFree(sha1, Hashed(sha1, Kept(listing)) + Hashed(sha1, snapshot))
    ensures TreeDigest(sha1, Kept(listing)) == TreeDigest(sha1, snapshot)
       <==> forall r :: r in snapshot <==> exists i :: 0 <= i < |listing| && r in KeptOf(listing[i])
  {
    DigestDeterminesRecords(sha1, Kept(listing), snapshot);
    KeptIsAscending(listing);
    forall r ensures r in Kept(listing) <==> exists i :: 0 <= i < |listing| && r in KeptOf(listing[i]) {
      KeptMember(listing, r);
      GatherMember(KeptOf, listing, r);
    }
    if forall r :: r in snapshot <==> r in Kept(listing) {
      AscendingIsUnique(Kept(listing), snapshot);
    }
  }

  /** The order in which the directory is listed does not matter. */
  lemma ListingOrderIsIrrelevant(sha1: Hash, lint: Lint, expected: Bytes, listing: seq<Entry>, listing': seq<Entry>)
    requires DistinctNames(listing) && DistinctNames(listing') && multiset(listing) == multiset(listing')
    ensures Kept(listing) == Kept(listing')
    ensures Accepted(sha1, lint, expected, listing) <==> Accepted(sha1, lint, expected, listing')
  {
    GatherOfPermutation(KeptOf, listing, listing');
    SameMembers(Gather(KeptOf, listing), Gather(KeptOf, listing'));
    forall r ensures r in Kept(listing) <==> r in Kept(listing') {
      KeptMember(listing, r);
      KeptMember(listing', r);
    }
    KeptIsAscending(listing);
    KeptIsAscending(listing');
    AscendingIsUnique(Kept(listing), Kept(listing'));
    AdmittedInAnyOrder(lint, listing, listing');
  }

  /** Adding or removing bytecode files and bytecode-only cache directories changes nothing. */
  lemma BytecodeIsTransparent(sha1: Hash, lint: Lint, expected: Bytes, listing: seq<Entry>, k: nat)
    requires k < |listing| && DistinctNames(listing) && VerdictOf(listing[k]).Skip?
    ensures Kept(Without(listing, k)) == Kept(listing)
    ensures Accepted(sha1, lint, expected, Without(listing, k)) <==> Accepted(sha1, lint, expected, listing)
  {
    hide VerdictOf, EntryAdmitted, KeptOf, SortByName, Kept;
    var rest := Without(listing, k);
    forall r ensures r in Kept(rest) <==> r in Kept(listing) {
      SkippedAddsNothing(listing, k, r);
    }
    KeptIsAscending(listing);
    KeptIsAscending(rest);
    AscendingIsUnique(Kept(rest), Kept(listing));
    AdmittedWithout(lint, listing, k);
  }

  lemma AdmittedWithout(lint: Lint, listing: seq<Entry>, k: nat)
    requires k < |listing| && VerdictOf(listing[k]).Skip?
    ensures (forall i :: 0 <= i < |listing| ==> EntryAdmitted(lint, listing[i]))
       <==> (forall i :: 0 <= i < |listing| - 1 ==> EntryAdmitted(lint, Without(listing, k)[i]))
  {
    var rest := Without(listing, k);
    assert EntryAdmitted(lint, listing[k]);
    hide EntryAdmitted, VerdictOf;
    forall i | 0 <= i < |listing| && i != k ensures listing[i] == rest[if i < k then i else i - 1] {
    }
  }

  lemma SkippedAddsNothing(listing: seq<Entry>, k: nat, r: Record)
    requires k < |listing| && VerdictOf(listing[k]).Skip?
    ensures r in Kept(Without(listing, k)) <==> r in Kept(listing)
  {
    KeptMember(listing, r);
    KeptMember(Without(listing, k), r);
    GatherTakesOut(KeptOf, listing, k);
    SameMembers(Gather(KeptOf, listing), Gather(KeptOf, Without(listing, k)));
  }
}
