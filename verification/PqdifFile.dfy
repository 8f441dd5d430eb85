/** Tag-sorted collections and the chain of records that makes a PQDIF file. */
module PqdifFile {
  import opened Foundation
  import opened Order
  import opened PqdifLayout
  import opened PqdifReader

  // ---------------------------------------------------------------- collection(): stable sort by wire tag

  /** Binary search order: no later entry has a smaller wire tag. */
  ghost predicate TagSorted(es: seq<Element>) {
    forall i, j :: 0 <= i < j < |es| ==> !LexLess(GuidWire(es[j].tag), GuidWire(es[i].tag))
  }

  ghost function WithTag(es: seq<Element>, tag: Guid): seq<Element> {
    if es == [] then []
    else WithTag(es[..|es| - 1], tag) + if es[|es| - 1].tag == tag then [es[|es| - 1]] else []
  }

  function Insert(es: seq<Element>, e: Element): seq<Element> {
    if es == [] || !LexLess(GuidWire(e.tag), GuidWire(es[|es| - 1].tag)) then es + [e]
    else Insert(es[..|es| - 1], e) + [es[|es| - 1]]
  }

  function StableSort(es: seq<Element>): seq<Element> {
    if es == [] then [] else Insert(StableSort(es[..|es| - 1]), es[|es| - 1])
  }

  lemma WithTagSnoc(es: seq<Element>, e: Element, tag: Guid)
    ensures WithTag(es + [e], tag) == WithTag(es, tag) + if e.tag == tag then [e] else []
  {
    assert (es + [e])[..|es|] == es;
  }

  lemma {:induction false} InsertKeeps(es: seq<Element>, e: Element, tag: Guid)
    ensures WithTag(Insert(es, e), tag) == WithTag(es, tag) + if e.tag == tag then [e] else []
    decreases |es|
  {
    hide GuidWire, LexLess, WithTag;
    if es == [] || !LexLess(GuidWire(e.tag), GuidWire(es[|es| - 1].tag)) {
      WithTagSnoc(es, e, tag);
    } else {
      var init, last := es[..|es| - 1], es[|es| - 1];
      InsertKeeps(init, e, tag);
      WithTagSnoc(Insert(init, e), last, tag);
      WithTagSnoc(init, last, tag);
      LexTotal(GuidWire(e.tag), GuidWire(last.tag));
      assert es == init + [last];
      assert WithTag(init, tag) + [] == WithTag(init, tag);
    }
  }

  ghost predicate AllAtMost(es: seq<Element>, key: seq<byte>) {
    forall i :: 0 <= i < |es| ==> !LexLess(key, GuidWire(es[i].tag))
  }

  lemma {:induction false} InsertAtMost(es: seq<Element>, e: Element, key: seq<byte>)
    requires AllAtMost(es, key) && !LexLess(key, GuidWire(e.tag))
    ensures AllAtMost(Insert(es, e), key)
    decreases |es|
  {
    hide GuidWire;
    if es != [] && LexLess(GuidWire(e.tag), GuidWire(es[|es| - 1].tag)) {
      InsertAtMost(es[..|es| - 1], e, key);
    }
  }

  lemma {:induction false} InsertSorts(es: seq<Element>, e: Element)
    requires TagSorted(es)
    ensures TagSorted(Insert(es, e))
    decreases |es|
  {
    hide GuidWire;
    if es == [] {
    } else {
      var init, last := es[..|es| - 1], es[|es| - 1];
      if LexLess(GuidWire(e.tag), GuidWire(last.tag)) {
        InsertSorts(init, e);
        LexTotal(GuidWire(e.tag), GuidWire(last.tag));
        InsertAtMost(init, e, GuidWire(last.tag));
      } else {
        forall i | 0 <= i < |es| ensures !LexLess(GuidWire(e.tag), GuidWire(es[i].tag)) {
          if i < |es| - 1 {
            LexTransitive(GuidWire(es[i].tag), GuidWire(last.tag), GuidWire(e.tag));
          }
        }
      }
    }
  }

  /** The children come out in tag order, and those sharing a tag keep their insertion order. */
  lemma {:induction false} StableSortCorrect(es: seq<Element>)
    ensures TagSorted(StableSort(es))
    ensures forall tag: Guid :: WithTag(StableSort(es), tag) == WithTag(es, tag)
    decreases |es|
  {
    if es != [] {
      var init, last := es[..|es| - 1], es[|es| - 1];
      StableSortCorrect(init);
      InsertSorts(StableSort(init), last);
      forall tag: Guid ensures WithTag(StableSort(es), tag) == WithTag(es, tag) {
        InsertKeeps(StableSort(init), last, tag);
      }
    }
  }

  lemma {:induction false} WithTagLast(es: seq<Element>, tag: Guid)
    ensures WithTag(es, tag) != [] ==> exists i :: 0 <= i < |es| && es[i].tag == tag
    ensures (exists i :: 0 <= i < |es| && es[i].tag == tag) ==> WithTag(es, tag) != []
    decreases |es|
  {
    if es != [] {
      WithTagLast(es[..|es| - 1], tag);
    }
  }

  lemma SnocCancels(p: seq<Element>, q: seq<Element>, x: Element, y: Element)
    requires p + [x] == q + [y]
    ensures p == q && x == y
  {
    assert (p + [x])[|p|] == x && (q + [y])[|q|] == y;
    assert p == (p + [x])[..|p|] && q == (q + [y])[..|q|];
  }

  lemma LastIsGreatest(a: seq<Element>, b: seq<Element>, x: Element)
    requires TagSorted(b) && a != [] && b != [] && x == a[|a| - 1] && WithTag(a, x.tag) == WithTag(b, x.tag)
    ensures !LexLess(GuidWire(b[|b| - 1].tag), GuidWire(x.tag))
  {
    hide GuidWire, WithTag, LexLess;
    WithTagLast(a, x.tag);
    WithTagLast(b, x.tag);
    var i :| 0 <= i < |b| && b[i].tag == x.tag;
    LexTotal(GuidWire(x.tag), GuidWire(x.tag));
  }

  lemma LastTagAgrees(a: seq<Element>, b: seq<Element>)
    requires TagSorted(a) && TagSorted(b) && a != [] && b != []
    requires forall tag: Guid :: WithTag(a, tag) == WithTag(b, tag)
    ensures a[|a| - 1].tag == b[|b| - 1].tag
  {
    hide GuidWire, WithTag, LexLess;
    var x, y := a[|a| - 1], b[|b| - 1];
    LastIsGreatest(a, b, x);
    LastIsGreatest(b, a, y);
    LexTotal(GuidWire(x.tag), GuidWire(y.tag));
    GuidRoundTrip(x.tag);
    GuidRoundTrip(y.tag);
  }

  /** Tag order plus per-tag insertion order leave only one possible result, whatever the sorting algorithm. */
  lemma {:induction false} StableSortUnique(a: seq<Element>, b: seq<Element>)
    requires TagSorted(a) && TagSorted(b)
    requires forall tag: Guid :: WithTag(a, tag) == WithTag(b, tag)
    ensures a == b
    decreases |a|
  {
    hide GuidWire, LexLess;
    if a == [] {
      if b != [] {
        WithTagLast(b, b[|b| - 1].tag);
      }
    } else if b == [] {
      WithTagLast(a, a[|a| - 1].tag);
    } else {
      LastTagAgrees(a, b);
      var x, y := a[|a| - 1], b[|b| - 1];
      var a', b' := a[..|a| - 1], b[..|b| - 1];
      SnocCancels(WithTag(a', x.tag), WithTag(b', x.tag), x, y);
      forall tag: Guid ensures WithTag(a', tag) == WithTag(b', tag) {
        assert WithTag(a, tag) == WithTag(b, tag);
        if tag != x.tag {
          assert WithTag(a', tag) + [] == WithTag(a', tag) && WithTag(b', tag) + [] == WithTag(b', tag);
        }
      }
      StableSortUnique(a', b');
      assert a == a' + [x] && b == b' + [y];
    }
  }

  /** The tree the converter builds: every collection() call sorts its children. */
  function Built(e: Element): Element
    decreases e
  {
    if e.Collection? then
      Collection(e.tag, StableSort(seq(|e.children|, i requires 0 <= i < |e.children| => Built(e.children[i]))))
    else e
  }

  ghost predicate DeepSorted(e: Element) {
    e.Collection? ==> TagSorted(e.children) && forall c :: c in e.children ==> DeepSorted(c)
  }

  lemma {:induction false} InsertMembers(es: seq<Element>, e: Element)
    ensures forall x :: x in Insert(es, e) ==> x in es || x == e
    decreases |es|
  {
    hide GuidWire, LexLess;
    if es != [] {
      InsertMembers(es[..|es| - 1], e);
    }
  }

  lemma {:induction false} StableSortMembers(es: seq<Element>)
    ensures forall x :: x in StableSort(es) ==> x in es
    decreases |es|
  {
    if es != [] {
      StableSortMembers(es[..|es| - 1]);
      InsertMembers(StableSort(es[..|es| - 1]), es[|es| - 1]);
    }
  }

  lemma {:induction false} BuiltSorted(e: Element)
    requires WellTyped(e)
    ensures WellTyped(Built(e)) && DeepSorted(Built(e))
    decreases e
  {
    hide StableSort;
    if e.Collection? {
      var kids := seq(|e.children|, i requires 0 <= i < |e.children| => Built(e.children[i]));
      forall i | 0 <= i < |kids| ensures WellTyped(kids[i]) && DeepSorted(kids[i]) {
        BuiltSorted(e.children[i]);
      }
      StableSortMembers(kids);
      StableSortCorrect(kids);
    }
  }

  // ---------------------------------------------------------------- records

  const SIGNATURE: Guid := [0x4a, 0x11, 0x14, 0x40, 0xe4, 0x9f, 0x11, 0xcf, 0x99, 0x00, 0x50, 0x51, 0x44, 0x49, 0x46, 0x00]

  /** A record as encode_body leaves it: type, checksum, and the (possibly compressed) body bytes. */
  datatype Record = Record(kind: Guid, checksum: nat, body: seq<byte>)

  function Header(kind: Guid, bodyBytes: nat, next: nat, checksum: nat): (s: seq<byte>)
    ensures |s| == 64
  {
    (GuidWire(SIGNATURE) + GuidWire(kind)) +
    ((Le(64, 4) + Le(bodyBytes, 4)) + (Le(next, 4) + Le(checksum, 4))) + Zeros(16)
  }

  /** Every file begins with these sixteen bytes. */
  lemma SignatureOnWire(kind: Guid, size: nat, next: nat, checksum: nat)
    ensures Header(kind, size, next, checksum)[..16] ==
      [0x40, 0x14, 0x11, 0x4a, 0x9f, 0xe4, 0xcf, 0x11, 0x99, 0x00, 0x50, 0x51, 0x44, 0x49, 0x46, 0x00]
  {
    hide Le;
  }

  /** The file from the record at byte `at` on; the last record's link is 0. */
  ghost function FileImage(rs: seq<Record>, at: nat): seq<byte> {
    if rs == [] then []
    else
      var after := at + 64 + |rs[0].body|;
      Header(rs[0].kind, |rs[0].body|, if |rs| == 1 then 0 else after, rs[0].checksum)
      + rs[0].body + FileImage(rs[1..], after)
  }

  ghost function Start(rs: seq<Record>, i: nat): nat
    requires i <= |rs|
  {
    if i == 0 then 0 else Start(rs, i - 1) + 64 + |rs[i - 1].body|
  }

  lemma {:induction false} FileImageSplit(rs: seq<Record>, i: nat)
    requires i < |rs|
    ensures FileImage(rs[i..], Start(rs, i)) ==
            Header(rs[i].kind, |rs[i].body|, if i + 1 == |rs| then 0 else Start(rs, i + 1), rs[i].checksum)
            + rs[i].body + FileImage(rs[i + 1..], Start(rs, i + 1))
  {
    hide Header;
    assert rs[i..][1..] == rs[i + 1..];
  }

  ghost predicate LinksFit(rs: seq<Record>) {
    forall i :: 0 < i < |rs| ==> Start(rs, i) <= UINT32_MAX
  }

  lemma FileImageEnd(rs: seq<Record>, at: nat)
    ensures FileImage(rs[|rs|..], at) == []
  {
  }

  /** The writing pass: refused exactly when some link to a following record exceeds 32 bits. */
  method WriteFile(rs: seq<Record>) returns (r: Result<seq<byte>, Error>)
    ensures r.Ok? <==> LinksFit(rs)
    ensures r.Ok? ==> r.value == FileImage(rs, 0)
  {
    hide Header, FileImage;
    var offset := 0;
    var bytes: seq<byte> := [];
    assert rs[0..] == rs;
    for i := 0 to |rs|
      invariant offset == Start(rs, i)
      invariant forall k :: 0 < k <= i && k < |rs| ==> Start(rs, k) <= UINT32_MAX
      invariant bytes + FileImage(rs[i..], offset) == FileImage(rs, 0)
    {
      var after := offset + 64 + |rs[i].body|;
      if i + 1 != |rs| && after > UINT32_MAX {
        assert Start(rs, i + 1) == after;
        return Err(OutputTooLarge);
      }
      FileImageSplit(rs, i);
      var piece := Header(rs[i].kind, |rs[i].body|, if i + 1 == |rs| then 0 else after, rs[i].checksum) + rs[i].body;
      assert bytes + (piece + FileImage(rs[i + 1..], after)) == (bytes + piece) + FileImage(rs[i + 1..], after);
      bytes := bytes + piece;
      offset := after;
    }
    FileImageEnd(rs, offset);
    return Ok(bytes);
  }

  /** Follows next-record links from byte `at` until a zero link. */
  function ReadFile(b: seq<byte>, at: nat): Option<seq<Record>>
    decreases |b| - at
  {
    if at + 64 > |b| || GuidFromWire(b[at..at + 16]) != SIGNATURE then None
    else
      var kind := GuidFromWire(b[at + 16..at + 32]);
      var size := FromLe(b[at + 36..at + 40]);
      var next := FromLe(b[at + 40..at + 44]);
      var checksum := FromLe(b[at + 44..at + 48]);
      if at + 64 + size > |b| then None
      else
        var record := Record(kind, checksum, b[at + 64..at + 64 + size]);
        if next == 0 then Some([record])
        else if next <= at then None
        else
          var rest := ReadFile(b, next);
          if rest.None? then None else Some([record] + rest.value)
  }

  lemma HeaderFields(b: seq<byte>, at: nat, kind: Guid, size: nat, next: nat, checksum: nat)
    requires size <= UINT32_MAX && next <= UINT32_MAX && checksum <= UINT32_MAX
    requires At(b, at, Header(kind, size, next, checksum))
    ensures GuidFromWire(b[at..at + 16]) == SIGNATURE && GuidFromWire(b[at + 16..at + 32]) == kind
    ensures FromLe(b[at + 32..at + 36]) == 64
    ensures FromLe(b[at + 36..at + 40]) == size
    ensures FromLe(b[at + 40..at + 44]) == next
    ensures FromLe(b[at + 44..at + 48]) == checksum
  {
    hide Le, FromLe, GuidWire, GuidFromWire;
    FourBytes(64);
    FourBytes(size);
    FourBytes(next);
    FourBytes(checksum);
    GuidRoundTrip(kind);
    GuidRoundTrip(SIGNATURE);
    var names := GuidWire(SIGNATURE) + GuidWire(kind);
    var sizes := Le(64, 4) + Le(size, 4);
    var links := Le(next, 4) + Le(checksum, 4);
    AtConcat(b, at, names + (sizes + links), Zeros(16));
    AtConcat(b, at, names, sizes + links);
    AtConcat(b, at, GuidWire(SIGNATURE), GuidWire(kind));
    AtConcat(b, at + 32, sizes, links);
    AtConcat(b, at + 32, Le(64, 4), Le(size, 4));
    AtConcat(b, at + 40, Le(next, 4), Le(checksum, 4));
  }

  ghost predicate FieldsFit(r: Record) {
    |r.body| <= UINT32_MAX && r.checksum <= UINT32_MAX
  }

  lemma {:induction false} ReadsFrom(b: seq<byte>, rs: seq<Record>, i: nat)
    requires i < |rs| && LinksFit(rs) && forall r :: r in rs ==> FieldsFit(r)
    requires At(b, Start(rs, i), FileImage(rs[i..], Start(rs, i)))
    ensures ReadFile(b, Start(rs, i)) == Some(rs[i..])
    decreases |rs| - i
  {
    hide Header, FromLe, GuidFromWire, FileImage;
    var r, at := rs[i], Start(rs, i);
    var next := if i + 1 == |rs| then 0 else Start(rs, i + 1);
    var head := Header(r.kind, |r.body|, next, r.checksum);
    assert r in rs && FieldsFit(r);
    FileImageSplit(rs, i);
    AtConcat(b, at, head + r.body, FileImage(rs[i + 1..], Start(rs, i + 1)));
    AtConcat(b, at, head, r.body);
    HeaderFields(b, at, r.kind, |r.body|, next, r.checksum);
    assert rs[i..] == [r] + rs[i + 1..];
    if i + 1 < |rs| {
      ReadsFrom(b, rs, i + 1);
    } else {
      assert rs[i..] == [r];
    }
  }

  /** Whatever WriteFile accepts reads back, by next-record links alone, as exactly its records in order. */
  lemma {:induction false} FileReadsBack(rs: seq<Record>)
    requires rs != [] && LinksFit(rs) && forall r :: r in rs ==> FieldsFit(r)
    ensures ReadFile(FileImage(rs, 0), 0) == Some(rs)
  {
    hide FileImage, ReadFile;
    var b := FileImage(rs, 0);
    assert b[0..|b|] == b && rs[0..] == rs;
    ReadsFrom(b, rs, 0);
  }

  /** The record is the emission of the tree built from this element. */
  ghost predicate Emits(spec: Element, r: Record) {
    && AllFit(Blocks(Built(spec), 0)) && r.kind == spec.tag && r.body == Body(Blocks(Built(spec), 0)) && r.checksum <= UINT32_MAX
  }

  ghost predicate Exportable(spec: Element) {
    spec.Collection? && WellTyped(spec) && Span(Built(spec)) <= UINT32_MAX
  }

  /** One uncompressed record, from built tree to bytes and back. */
  lemma RecordRoundTrip(spec: Element, r: Record)
    requires Exportable(spec) && Emits(spec, r)
    ensures FieldsFit(r) && ReadCollection(r.body, r.kind, 0, BlockSize(Built(spec))) == Some(Built(spec)) && DeepSorted(Built(spec))
  {
    hide Blocks, Body, ReadCollection, DeepSorted, WellTyped, Span, StableSort, AllFit;
    BuiltSorted(spec);
    var tree := Built(spec);
    assert tree.Collection? && tree.tag == spec.tag;
    BodyReadsBack(tree);
  }

  /** A whole file of uncompressed records: chained, found again by links alone, and each read back to its sorted tree. */
  lemma FileRoundTrip(specs: seq<Element>, rs: seq<Record>)
    requires specs != [] && |rs| == |specs| && LinksFit(rs)
    requires forall i :: 0 <= i < |specs| ==> Exportable(specs[i]) && Emits(specs[i], rs[i])
    ensures ReadFile(FileImage(rs, 0), 0) == Some(rs)
    ensures forall i :: 0 <= i < |specs| ==>
              ReadCollection(rs[i].body, rs[i].kind, 0, BlockSize(Built(specs[i]))) == Some(Built(specs[i]))
              && DeepSorted(Built(specs[i]))
  {
    hide Exportable, Emits, ReadCollection, ReadFile, FileImage, DeepSorted, Built, BlockSize;
    forall i | 0 <= i < |specs|
      ensures FieldsFit(rs[i]) && ReadCollection(rs[i].body, rs[i].kind, 0, BlockSize(Built(specs[i]))) == Some(Built(specs[i]))
              && DeepSorted(Built(specs[i]))
    {
      RecordRoundTrip(specs[i], rs[i]);
    }
    FileReadsBack(rs);
  }
}
