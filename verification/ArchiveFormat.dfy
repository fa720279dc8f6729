/** The bytes and tests of the archive checkers, pinned to text and octal numbers. */
module ArchiveFormat {
  import opened Options
  import opened PythonText
  import opened Sequences
  import opened GitObjects
  import opened ArchiveCheck
  import opened ManifestCheck

  // ---------- bytes ----------

  function Octal(s: string): nat {
    if s == [] then 0 else Octal(s[..|s| - 1]) * 8 + if '0' <= s[|s| - 1] <= '7' then s[|s| - 1] as int - '0' as int else 0
  }

  const REGULAR: nat := 8 * 8 * 8 * 8 * 8 + (6 * 8 + 4) * 8 + 4
  const EXECUTE_BITS: nat := (1 * 8 + 1) * 8 + 1

  lemma PlainMode()
    ensures TextOf(ModeOf(false)) == "100644" && Octal("100644") == REGULAR
  {
    assert ("100644")[..5] == "10064" && ("10064")[..4] == "1006" && ("1006")[..3] == "100" && ("100")[..2] == "10" && ("10")[..1] == "1" && ("1")[..0] == "";
    assert Octal("1") == 1 && Octal("10") == 8 && Octal("100") == 64 && Octal("1006") == 518 && Octal("10064") == 4148;
  }

  lemma ExecutableMode()
    ensures TextOf(ModeOf(true)) == "100755" && Octal("100755") == REGULAR + EXECUTE_BITS
  {
    assert ("100755")[..5] == "10075" && ("10075")[..4] == "1007" && ("1007")[..3] == "100" && ("100")[..2] == "10" && ("10")[..1] == "1" && ("1")[..0] == "";
    assert Octal("1") == 1 && Octal("10") == 8 && Octal("100") == 64 && Octal("1007") == 519 && Octal("10075") == 4157;
  }

  /** The mode is that of a regular file, with the three execute bits exactly for executable files. */
  lemma ModeMeans(executable: bool)
    ensures Octal(TextOf(ModeOf(executable))) == REGULAR + if executable then EXECUTE_BITS else 0
  {
    PlainMode();
    ExecutableMode();
  }

  /** Kind, space and decimal length. */
  function Header(kind: Bytes, length: nat): Bytes {
    kind + [32] + Decimal(length)
  }

  lemma TextOfConcat(a: Bytes, b: Bytes)
    ensures TextOf(a + b) == TextOf(a) + TextOf(b)
  {
  }

  lemma HeaderText(kind: Bytes, length: nat)
    ensures TextOf(Header(kind, length)) == TextOf(kind) + " " + DecimalText(length)
  {
    var digits := Decimal(length);
    TextOfConcat(kind + [32], digits);
    TextOfConcat(kind, [32]);
    assert TextOf([32]) == " ";
  }

  lemma FramedParts(kind: Bytes, data: Bytes)
    ensures Framed(kind, data) == Header(kind, |data|) + [0] + data
  {
    hide Decimal;
  }

  lemma KindsInText()
    ensures TextOf(BLOB) == "blob" && TextOf(TREE) == "tree"
  {
  }

  lemma FramedAs(kind: Bytes, text: string, data: Bytes)
    requires TextOf(kind) == text
    ensures Framed(kind, data) == Header(kind, |data|) + [0] + data && TextOf(Header(kind, |data|)) == text + " " + DecimalText(|data|)
  {
    hide Framed, Header, TextOf;
    FramedParts(kind, data);
    HeaderText(kind, |data|);
  }

  /** An object is hashed behind the text of its kind, a space, the decimal length of its payload, and a zero byte. */
  lemma FramedBytes(data: Bytes)
    ensures Framed(BLOB, data) == Header(BLOB, |data|) + [0] + data && TextOf(Header(BLOB, |data|)) == "blob" + " " + DecimalText(|data|)
    ensures Framed(TREE, data) == Header(TREE, |data|) + [0] + data && TextOf(Header(TREE, |data|)) == "tree" + " " + DecimalText(|data|)
  {
    KindsInText();
    hide Framed, Header, TextOf;
    FramedAs(BLOB, "blob", data);
    FramedAs(TREE, "tree", data);
  }

  /** A kept file becomes mode, space, name, zero byte and the twenty bytes of its blob's digest. */
  lemma EntryBytes(sha1: Hash, r: Record)
    ensures EncodeEntry(EntryFor(sha1, r)) == ModeOf(r.executable) + [32] + r.name + [0] + sha1(Framed(BLOB, r.data))
  {
  }

  /** Names are ordered by their first different byte, a proper prefix first. */
  lemma {:induction false} LessIff(a: Bytes, b: Bytes)
    ensures Less(a, b) <==> exists k :: 0 <= k <= |a| && k < |b| && a[..k] == b[..k] && (k == |a| || a[k] < b[k])
  {
    if a == [] && b != [] {
      assert a[..0] == b[..0];
    } else if a != [] && b != [] {
      LessIff(a[1..], b[1..]);
      if Less(a, b) {
        if a[0] < b[0] {
          assert a[..0] == b[..0];
        } else {
          var k :| 0 <= k <= |a| - 1 && k < |b| - 1 && a[1..][..k] == b[1..][..k] && (k == |a| - 1 || a[1..][k] < b[1..][k]);
          assert a[..k + 1] == [a[0]] + a[1..][..k] && b[..k + 1] == [b[0]] + b[1..][..k];
        }
      }
      if k :| 0 <= k <= |a| && k < |b| && a[..k] == b[..k] && (k == |a| || a[k] < b[k]) {
        if k > 0 {
          assert a[0] == a[..k][0] && b[0] == b[..k][0];
          assert a[1..][..k - 1] == a[..k][1..] && b[1..][..k - 1] == b[..k][1..];
        }
      }
    }
  }

  // ---------- suffixes ----------

  lemma {:induction false} LastIndexIs(bs: Bytes, b: Byte, i: nat)
    requires i < |bs| && bs[i] == b && forall k :: i < k < |bs| ==> bs[k] != b
    ensures LastIndexOf(bs, b) == i
  {
    if i < |bs| - 1 {
      LastIndexIs(bs[..|bs| - 1], b, i);
    }
  }

  lemma {:induction false} LastIndexHolds(bs: Bytes, b: Byte)
    ensures var i := LastIndexOf(bs, b); i >= 0 ==> bs[i] == b
  {
    if bs != [] && bs[|bs| - 1] != b {
      LastIndexHolds(bs[..|bs| - 1], b);
    }
  }

  /** A name has a suffix exactly when it ends in it and has something before it. */
  lemma SuffixIff(name: Bytes, ext: Bytes)
    requires |ext| >= 2 && ext[0] == 46 && forall k :: 0 < k < |ext| ==> ext[k] != 46
    ensures Suffix(name) == ext <==> |name| > |ext| && name[|name| - |ext|..] == ext
  {
    if |name| > |ext| && name[|name| - |ext|..] == ext {
      var i := |name| - |ext|;
      assert name[i] == name[i..][0] && forall k :: i <= k < |name| ==> name[k] == name[i..][k - i];
      LastIndexIs(name, 46, i);
    }
  }

  /** The suffixes and the cache name of the source, in text. */
  lemma ConstantsInText()
    ensures TextOf(PY) == ".py" && TextOf(PYC) == ".pyc" && TextOf(SH) == ".sh" && TextOf(PYCACHE) == "__pycache__"
  {
  }

  // ---------- what is kept and what is refused ----------

  predicate Bytecode(e: Entry) {
    e.node.File? && |e.name| > 4 && e.name[|e.name| - 4..] == PYC
  }

  predicate CacheWith(e: Entry, clean: bool) {
    e.name == PYCACHE && e.node.Directory? && (clean <==> forall i :: 0 <= i < |e.node.children| ==> Bytecode(e.node.children[i]))
  }

  lemma BytecodeIff(e: Entry)
    ensures IsBytecode(e) <==> Bytecode(e)
  {
    SuffixIff(e.name, PYC);
  }

  /** An entry is skipped, refused or kept by what it is and how it is named. */
  lemma VerdictMeans(e: Entry)
    ensures VerdictOf(e).Skip? <==> Bytecode(e) || CacheWith(e, true)
    ensures VerdictOf(e).Keep? <==> e.node.File? && !Bytecode(e)
    ensures VerdictOf(e).Reject? <==> !e.node.File? && !CacheWith(e, true)
  {
    BytecodeIff(e);
    if e.node.Directory? {
      forall i | 0 <= i < |e.node.children| { BytecodeIff(e.node.children[i]); }
    }
    hide Suffix, Bytecode;
  }

  /** Anything but regular files and clean caches makes the tree checker fail. */
  lemma ForeignEntriesFailTheTree(sha1: Hash, lint: Lint, expected: Bytes, listing: seq<Entry>, k: nat)
    requires k < |listing| && !listing[k].node.File? && !CacheWith(listing[k], true)
    ensures !Accepted(sha1, lint, expected, listing)
  {
    VerdictMeans(listing[k]);
    hide VerdictOf, CacheWith;
    assert !EntryAdmitted(lint, listing[k]);
  }

  /** Symbolic links, and caches with a foreign entry, make both checkers fail, whatever they are called. */
  lemma LinksFailBothCheckers(sha1: Hash, lint: Lint, expected: Bytes, checkers: Checkers, manifest: map<Bytes, Bytes>, listing: seq<Entry>, k: nat)
    requires k < |listing| && (listing[k].node.Symlink? || listing[k].node.Special? || CacheWith(listing[k], false))
    ensures !Accepted(sha1, lint, expected, listing)
    ensures !Passes(sha1, checkers, manifest, listing)
  {
    ForeignEntriesFailTheTree(sha1, lint, expected, listing, k);
    ForeignEntriesFailTheManifest(sha1, checkers, manifest, listing, k);
  }

  /** The manifest checker fails on any entry but a clean cache or an unchanged, plain, listed file. */
  lemma ForeignEntriesFailTheManifest(sha256: Hash, checkers: Checkers, manifest: map<Bytes, Bytes>, listing: seq<Entry>, k: nat)
    requires k < |listing| && !CacheWith(listing[k], true)
    requires var e := listing[k];
             e.node.File? ==> e.name !in manifest || e.node.executable || sha256(e.node.data) != manifest[e.name]
    ensures !Passes(sha256, checkers, manifest, listing)
  {
    if listing[k].node.Directory? {
      forall i | 0 <= i < |listing[k].node.children| { BytecodeIff(listing[k].node.children[i]); }
    }
    hide Suffix, Bytecode;
    assert !IsCleanCache(listing[k]) && !IsPinned(sha256, manifest, listing[k]);
  }

  /** A clean cache, or a plain listed file with the pinned bytes: Python by its checker, everything else as JSON. */
  predicate Unchanged(sha256: Hash, checkers: Checkers, manifest: map<Bytes, Bytes>, e: Entry) {
    || CacheWith(e, true)
    || (&& e.node.File? && e.name in manifest && !e.node.executable && sha256(e.node.data) == manifest[e.name]
        && if |e.name| > 3 && e.name[|e.name| - 3..] == PY then checkers.python(e).Some? else checkers.json(e))
  }

  lemma UnchangedIff(sha256: Hash, checkers: Checkers, manifest: map<Bytes, Bytes>, e: Entry)
    ensures Unchanged(sha256, checkers, manifest, e) <==> IsCleanCache(e) || (IsPinned(sha256, manifest, e) && SyntaxOk(checkers, e))
  {
    SuffixIff(e.name, PY);
    if e.node.Directory? {
      forall i | 0 <= i < |e.node.children| { BytecodeIff(e.node.children[i]); }
    }
    hide Suffix, Bytecode, IsBytecode;
  }

  predicate AllUnchanged(sha256: Hash, checkers: Checkers, manifest: map<Bytes, Bytes>, listing: seq<Entry>) {
    forall i :: 0 <= i < |listing| ==> Unchanged(sha256, checkers, manifest, listing[i])
  }

  predicate AllThere(manifest: map<Bytes, Bytes>, listing: seq<Entry>) {
    forall name :: name in manifest ==> exists i :: 0 <= i < |listing| && listing[i].name == name && listing[i].node.File?
  }

  /** The manifest checker passes exactly when every entry is unchanged and every listed file is there. */
  lemma PassesIff(sha256: Hash, checkers: Checkers, manifest: map<Bytes, Bytes>, listing: seq<Entry>)
    ensures Passes(sha256, checkers, manifest, listing) <==>
            AllUnchanged(sha256, checkers, manifest, listing) && AllThere(manifest, listing)
  {
    if AllUnchanged(sha256, checkers, manifest, listing) && AllThere(manifest, listing) {
      UnchangedPasses(sha256, checkers, manifest, listing);
    }
    if Passes(sha256, checkers, manifest, listing) {
      PassingIsUnchanged(sha256, checkers, manifest, listing);
    }
  }

  lemma UnchangedPasses(sha256: Hash, checkers: Checkers, manifest: map<Bytes, Bytes>, listing: seq<Entry>)
    requires AllUnchanged(sha256, checkers, manifest, listing) && AllThere(manifest, listing)
    ensures Passes(sha256, checkers, manifest, listing)
  {
    hide Unchanged, IsPinned, SyntaxOk, IsCleanCache, CacheWith, Suffix, Bytecode, IsBytecode;
    forall i | 0 <= i < |listing| { UnchangedIff(sha256, checkers, manifest, listing[i]); }
    forall i | 0 <= i < |listing| { FilesAreNoCaches(sha256, manifest, listing[i]); }
    forall name | name in manifest
      ensures exists i :: 0 <= i < |listing| && IsPinned(sha256, manifest, listing[i]) && listing[i].name == name
    {
      var i :| 0 <= i < |listing| && listing[i].name == name && listing[i].node.File?;
      assert Unchanged(sha256, checkers, manifest, listing[i]);
    }
  }

  lemma PassingIsUnchanged(sha256: Hash, checkers: Checkers, manifest: map<Bytes, Bytes>, listing: seq<Entry>)
    requires Passes(sha256, checkers, manifest, listing)
    ensures AllUnchanged(sha256, checkers, manifest, listing) && AllThere(manifest, listing)
  {
    hide Unchanged, IsPinned, SyntaxOk, IsCleanCache, CacheWith, Suffix, Bytecode, IsBytecode;
    forall i | 0 <= i < |listing| { UnchangedIff(sha256, checkers, manifest, listing[i]); }
    forall i | 0 <= i < |listing| { FilesAreNoCaches(sha256, manifest, listing[i]); }
    forall name | name in manifest ensures exists i :: 0 <= i < |listing| && listing[i].name == name && listing[i].node.File? {
      var i :| 0 <= i < |listing| && IsPinned(sha256, manifest, listing[i]) && listing[i].name == name;
    }
  }

  lemma FilesAreNoCaches(sha256: Hash, manifest: map<Bytes, Bytes>, e: Entry)
    ensures IsPinned(sha256, manifest, e) ==> e.node.File?
    ensures e.node.File? ==> !IsCleanCache(e)
  {
  }

  /** The tree checker asks Python files of its Python checker, shell scripts of its shell checker, and nothing of others. */
  lemma AdmittedMeans(lint: Lint, e: Entry)
    requires e.node.File? && !Bytecode(e)
    ensures EntryAdmitted(lint, e) <==>
            if |e.name| > 3 && e.name[|e.name| - 3..] == PY then lint.python(e).Some?
            else if |e.name| > 3 && e.name[|e.name| - 3..] == SH then lint.shell(e)
            else true
    ensures KeptOf(e) == [Record(e.name, e.node.executable, e.node.data)]
  {
    VerdictMeans(e);
    SuffixIff(e.name, PY);
    SuffixIff(e.name, SH);
    hide Suffix, VerdictOf;
    assert PY[1] != SH[1];
    assert |e.name| > 3 ==> e.name[|e.name| - 3..][1] == e.name[|e.name| - 2];
  }

  /** What an entry adds to the report's counters. */
  lemma CountsMean(lint: Lint, e: Entry, names: set<Bytes>)
    ensures var kept, python, shell := e.node.File? && !Bytecode(e),
              |e.name| > 3 && e.name[|e.name| - 3..] == PY, |e.name| > 3 && e.name[|e.name| - 3..] == SH;
            && |PythonChecks(e)| == (if kept && python then 1 else 0) && |ShellChecks(e)| == (if kept && shell then 1 else 0)
            && |EmbeddedChecks(lint)(e)| == (if kept && python && lint.python(e).Some? then lint.python(e).value else 0)
            && (e.name in PythonNames(names) <==> e.name in names && python)
  {
    VerdictMeans(e);
    SuffixIff(e.name, PY);
    SuffixIff(e.name, SH);
    hide Suffix, VerdictOf, Bytecode;
  }
}
