/** Git's serialisation of blobs and trees: object headers, tree entries and their decoders. */
module GitObjects {
  import opened Options
  import opened PythonText

  type Byte = b: int | 0 <= b < 256
  type Bytes = seq<Byte>

  const NUL: Byte := 0
  const SPACE: Byte := 32
  const BLOB: Bytes := [98, 108, 111, 98]
  const TREE: Bytes := [116, 114, 101, 101]
  const DIGEST_LENGTH: nat := 20

  datatype Split = Split(head: Bytes, tail: Bytes)

  /** Cuts at the first `b`; the separator itself is dropped. */
  function Cut(bs: Bytes, b: Byte): (r: Option<Split>)
    ensures r.Some? ==> b !in r.value.head && bs == r.value.head + [b] + r.value.tail
  {
    if bs == [] then None
    else if bs[0] == b then Some(Split([], bs[1..]))
    else
      var r := Cut(bs[1..], b);
      if r.None? then None
      else
        assert bs == [bs[0]] + bs[1..];
        Some(Split([bs[0]] + r.value.head, r.value.tail))
  }

  /** The first separator ends a field that does not contain it. */
  lemma {:induction false} FieldEnds(field: Bytes, b: Byte, rest: Bytes)
    requires b !in field
    ensures Cut(field + [b] + rest, b) == Some(Split(field, rest))
  {
    var bs := field + [b] + rest;
    if field == [] {
      assert bs[1..] == rest;
    } else {
      FieldEnds(field[1..], b, rest);
      assert bs[1..] == field[1..] + [b] + rest;
      assert field == [field[0]] + field[1..];
    }
  }

  // ---------- object headers ----------

  predicate Digits(bs: Bytes) {
    forall i :: 0 <= i < |bs| ==> 48 <= bs[i] < 58
  }

  /** Digits as text and back, in ASCII. */
  function TextOf(bs: Bytes): string {
    seq(|bs|, i requires 0 <= i < |bs| => bs[i] as char)
  }

  function Decimal(n: nat): (bs: Bytes)
    ensures |bs| > 0 && Digits(bs) && TextOf(bs) == DecimalText(n)
  {
    var s := DecimalText(n);
    var bs: Bytes := seq(|s|, i requires 0 <= i < |s| => s[i] as int);
    assert TextOf(bs) == s;
    bs
  }

  function Framed(kind: Bytes, payload: Bytes): Bytes {
    kind + [SPACE] + Decimal(|payload|) + [NUL] + payload
  }

  datatype Object = Object(kind: Bytes, payload: Bytes)

  /** Reads a framed object back, checking its declared length. */
  function Unframe(bs: Bytes): Option<Object> {
    var kind := Cut(bs, SPACE);
    if kind.None? then None
    else
      var length := Cut(kind.value.tail, NUL);
      if length.None? || !Digits(length.value.head) || DigitValue(TextOf(length.value.head)) != |length.value.tail| then None
      else Some(Object(kind.value.head, length.value.tail))
  }

  /** Framing is undone by reading, so framed objects of different kinds or contents differ. */
  lemma FramedRoundTrip(kind: Bytes, payload: Bytes)
    requires SPACE !in kind
    ensures Unframe(Framed(kind, payload)) == Some(Object(kind, payload))
  {
    var digits := Decimal(|payload|);
    var rest := digits + [NUL] + payload;
    assert Framed(kind, payload) == kind + [SPACE] + rest;
    FieldEnds(kind, SPACE, rest);
    assert NUL !in digits;
    FieldEnds(digits, NUL, payload);
    DecimalTextValue(|payload|);
  }

  // ---------- trees ----------

  datatype TreeEntry = TreeEntry(mode: Bytes, name: Bytes, digest: Bytes)

  predicate EntryOk(e: TreeEntry) {
    SPACE !in e.mode && NUL !in e.name && |e.digest| == DIGEST_LENGTH
  }

  function EncodeEntry(e: TreeEntry): Bytes {
    e.mode + [SPACE] + e.name + [NUL] + e.digest
  }

  function EncodeTree(es: seq<TreeEntry>): Bytes {
    if es == [] then [] else EncodeEntry(es[0]) + EncodeTree(es[1..])
  }

  datatype Parsed = Parsed(entry: TreeEntry, tail: Bytes)

  function DecodeEntry(bs: Bytes): (r: Option<Parsed>)
    ensures r.Some? ==> EntryOk(r.value.entry) && |r.value.tail| < |bs|
  {
    var mode := Cut(bs, SPACE);
    if mode.None? then None
    else
      var name := Cut(mode.value.tail, NUL);
      if name.None? || |name.value.tail| < DIGEST_LENGTH then None
      else Some(Parsed(TreeEntry(mode.value.head, name.value.head, name.value.tail[..DIGEST_LENGTH]),
                       name.value.tail[DIGEST_LENGTH..]))
  }

  function DecodeTree(bs: Bytes): Option<seq<TreeEntry>>
    decreases |bs|
  {
    if bs == [] then Some([])
    else
      var first := DecodeEntry(bs);
      if first.None? then None
      else
        var rest := DecodeTree(first.value.tail);
        if rest.None? then None else Some([first.value.entry] + rest.value)
  }

  lemma EntryRoundTrip(e: TreeEntry, tail: Bytes)
    requires EntryOk(e)
    ensures DecodeEntry(EncodeEntry(e) + tail) == Some(Parsed(e, tail))
  {
    var rest := e.name + [NUL] + (e.digest + tail);
    assert EncodeEntry(e) + tail == e.mode + [SPACE] + rest;
    FieldEnds(e.mode, SPACE, rest);
    FieldEnds(e.name, NUL, e.digest + tail);
    assert (e.digest + tail)[..DIGEST_LENGTH] == e.digest && (e.digest + tail)[DIGEST_LENGTH..] == tail;
  }

  lemma DecodedEntryEncodesBack(bs: Bytes)
    requires DecodeEntry(bs).Some?
    ensures EncodeEntry(DecodeEntry(bs).value.entry) + DecodeEntry(bs).value.tail == bs
  {
  }

  /** A tree buffer decodes to exactly the entries written, whatever bytes their digests contain. */
  lemma {:induction false} TreeRoundTrip(es: seq<TreeEntry>)
    requires forall i :: 0 <= i < |es| ==> EntryOk(es[i])
    ensures DecodeTree(EncodeTree(es)) == Some(es)
  {
    if es != [] {
      TreeRoundTrip(es[1..]);
      EntryRoundTrip(es[0], EncodeTree(es[1..]));
      assert es == [es[0]] + es[1..];
    }
  }

  /** Whatever decodes is the encoding of what it decodes to. */
  lemma {:induction false} DecodedTreeEncodesBack(bs: Bytes)
    requires DecodeTree(bs).Some?
    ensures EncodeTree(DecodeTree(bs).value) == bs
    decreases |bs|
  {
    if bs != [] {
      var first := DecodeEntry(bs).value;
      DecodedEntryEncodesBack(bs);
      DecodedTreeEncodesBack(first.tail);
      assert DecodeTree(bs).value[1..] == DecodeTree(first.tail).value;
    }
  }

  lemma {:induction false} EncodeTreeAppends(es: seq<TreeEntry>, e: TreeEntry)
    ensures EncodeTree(es + [e]) == EncodeTree(es) + EncodeEntry(e)
  {
    if es == [] {
      assert (es + [e])[1..] == [];
    } else {
      EncodeTreeAppends(es[1..], e);
      assert (es + [e])[1..] == es[1..] + [e];
    }
  }

  // ---------- byte order ----------

  predicate Less(a: Bytes, b: Bytes) {
    if b == [] then false
    else if a == [] then true
    else a[0] < b[0] || (a[0] == b[0] && Less(a[1..], b[1..]))
  }

  lemma {:induction false} LessIsTotal(a: Bytes, b: Bytes)
    ensures Less(a, b) || Less(b, a) || a == b
    ensures !(Less(a, b) && Less(b, a)) && !Less(a, a)
  {
    if a != [] && b != [] {
      LessIsTotal(a[1..], b[1..]);
      assert a == [a[0]] + a[1..] && b == [b[0]] + b[1..];
    }
    if a != [] {
      LessIsTotal(a[1..], a[1..]);
    }
  }

  lemma {:induction false} LessIsTransitive(a: Bytes, b: Bytes, c: Bytes)
    requires Less(a, b) && Less(b, c)
    ensures Less(a, c)
  {
    if a != [] && b != [] && c != [] && a[0] == b[0] == c[0] {
      LessIsTransitive(a[1..], b[1..], c[1..]);
    }
  }
}
