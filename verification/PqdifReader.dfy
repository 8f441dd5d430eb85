/** A reader that knows only the physical layer: it follows (offset, size) links from byte 0. */
module PqdifReader {
  import opened Foundation
  import opened PqdifLayout

  /** Bytes per value of each physical type the converter uses; 0 for any other code. */
  function Width(physical: byte): nat {
    match physical
    case 3 => 4   // boolean4
    case 10 => 1  // char1
    case 22 => 4  // integer4
    case 32 => 4  // unsigned4
    case 41 => 8  // real8
    case 50 => 12 // timestamp
    case 60 => 16 // guid
    case _ => 0
  }

  /** Data lengths agree with the physical type, as every element constructor of the converter makes them. */
  ghost predicate WellTyped(e: Element) {
    match e
    case Scalar(_, physical, data) => 0 < Width(physical) == |data|
    case Vector(_, physical, count, data) =>
      0 < Width(physical) && |data| == count * Width(physical) && count <= UINT32_MAX
    case Collection(_, children) => forall c :: c in children ==> WellTyped(c)
  }

  // ---------------------------------------------------------------- the reader

  function DecodeEntry(raw: seq<byte>): Option<Entry>
    requires |raw| == 28
  {
    var tag := GuidFromWire(raw[..16]);
    var kind, physical, embedded := raw[16], raw[17], raw[18];
    if embedded == 1 then
      if kind == 2 && 0 < Width(physical) <= 8
      then Some(Embedded(tag, physical, raw[20..20 + Width(physical)]))
      else None
    else Some(Link(tag, kind, physical, FromLe(raw[20..24]), FromLe(raw[24..])))
  }

  /** Reads the collection block at `off`; a link must point forward and its size must be the child's own. */
  function ReadCollection(b: seq<byte>, tag: Guid, off: nat, size: nat): Option<Element>
    decreases |b| - off, 1, 0
  {
    if off + size > |b| || size < 4 then None
    else
      var n := FromLe(b[off..off + 4]);
      if size != 4 + 28 * n then None
      else
        var children := ReadChildren(b, off, n);
        if children.None? then None else Some(Collection(tag, children.value))
  }

  function ReadChildren(b: seq<byte>, off: nat, n: nat): (r: Option<seq<Element>>)
    requires off + 4 + 28 * n <= |b|
    decreases |b| - off, 0, n
  {
    if n == 0 then Some([])
    else
      var init := ReadChildren(b, off, n - 1);
      var at := off + 4 + 28 * (n - 1);
      var entry := DecodeEntry(b[at..at + 28]);
      if init.None? || entry.None? then None
      else
        var child := ReadChild(b, off, entry.value);
        if child.None? then None else Some(init.value + [child.value])
  }

  function ReadChild(b: seq<byte>, off: nat, entry: Entry): Option<Element>
    requires off < |b|
    decreases |b| - off, 0, 0
  {
    match entry
    case Embedded(tag, physical, data) => Some(Scalar(tag, physical, data))
    case Link(tag, kind, physical, at, size) =>
      if at <= off || at + size > |b| then None
      else if kind == 1 then ReadCollection(b, tag, at, size)
      else if kind == 2 then
        if size == AlignedFour(Width(physical)) then Some(Scalar(tag, physical, b[at..at + Width(physical)])) else None
      else if kind != 3 || size < 4 then None
      else
        var count := FromLe(b[at..at + 4]);
        if size == AlignedFour(4 + count * Width(physical))
        then Some(Vector(tag, physical, count, b[at + 4..at + 4 + count * Width(physical)])) else None
  }

  // ---------------------------------------------------------------- the body as a tree image

  ghost predicate At(b: seq<byte>, off: nat, s: seq<byte>) {
    off + |s| <= |b| && b[off..off + |s|] == s
  }

  lemma AtConcat(b: seq<byte>, off: nat, s: seq<byte>, t: seq<byte>)
    requires At(b, off, s + t)
    ensures At(b, off, s) && At(b, off + |s|, t)
  {
    assert (s + t)[..|s|] == s && (s + t)[|s|..] == t;
    assert b[off..off + |s + t|][..|s|] == b[off..off + |s|];
    assert b[off..off + |s + t|][|s|..] == b[off + |s|..off + |s + t|];
  }

  ghost function OwnBlock(e: Element, at: nat): (b: Block)
    requires !IsEmbedded(e)
    ensures b.offset == at && b.size == BlockSize(e)
  {
    match e
    case Collection(_, children) =>
      CollectionBlock(EntriesTo(children, at + BlockSize(e), |children|), at, BlockSize(e))
    case Scalar(_, _, data) => ScalarBlock(data, at, BlockSize(e))
    case Vector(_, _, count, data) => VectorBlock(count, data, at, BlockSize(e))
  }

  lemma OwnBlockFits(e: Element, at: nat)
    requires !IsEmbedded(e)
    ensures Fits(OwnBlock(e, at))
  {
    hide EntriesBytes, SpanTo, Le, AlignedFour;
    if e.Collection? {
      var entries := EntriesTo(e.children, at + BlockSize(e), |e.children|);
      assert AllEmittable(entries);
    } else if e.Scalar? {
      AlignedIsAligned(|e.data|);
    } else {
      AlignedIsAligned(4 + |e.data|);
    }
  }

  ghost function TreeImage(e: Element, at: nat): (s: seq<byte>)
    ensures |s| == Span(e)
    decreases e, 1, 0
  {
    if IsEmbedded(e) then []
    else
      OwnBlockFits(e, at);
      Image(OwnBlock(e, at)) +
      if e.Collection? then ChildImages(e.children, at + BlockSize(e), |e.children|) else []
  }

  ghost function ChildImages(es: seq<Element>, at: nat, n: nat): (s: seq<byte>)
    requires n <= |es|
    ensures |s| == SpanTo(es, n)
    decreases es, 0, n
  {
    if n == 0 then []
    else ChildImages(es, at, n - 1) + TreeImage(es[n - 1], at + SpanTo(es, n - 1))
  }

  lemma {:induction false} BodyConcat(a: seq<Block>, b: seq<Block>)
    requires AllFit(a) && AllFit(b)
    ensures AllFit(a + b) && Body(a + b) == Body(a) + Body(b)
    decreases |b|
  {
    hide Image, Fits;
    if b == [] {
      assert a + b == a;
    } else {
      var init := b[..|b| - 1];
      BodyConcat(a, init);
      assert (a + b)[..|a + b| - 1] == a + init;
      assert Body(a) + (Body(init) + Image(b[|b| - 1])) == (Body(a) + Body(init)) + Image(b[|b| - 1]);
    }
  }

  lemma EmptyBody()
    ensures AllFit([]) && Body([]) == []
  {
  }

  lemma BodySingle(b: Block)
    requires Fits(b)
    ensures AllFit([b]) && Body([b]) == Image(b)
  {
    hide Image, Fits;
    assert [b][..0] == [];
    assert Body([]) + Image(b) == Image(b);
  }

  /** Emitting the blocks in list order writes the tree depth first. */
  lemma {:induction false} BodyIsTreeImage(e: Element, at: nat)
    ensures AllFit(Blocks(e, at)) && Body(Blocks(e, at)) == TreeImage(e, at)
    decreases e, 1, 0
  {
    hide Image, Fits, Body, AllFit, BlocksTo, ChildImages, EntriesTo, SpanTo, AlignedFour, Span;
    if IsEmbedded(e) {
      EmptyBody();
    } else {
      var own := OwnBlock(e, at);
      OwnBlockFits(e, at);
      BodySingle(own);
      if e.Collection? {
        var first := at + BlockSize(e);
        ChildBodies(e.children, first, |e.children|);
        BodyConcat([own], BlocksTo(e.children, first, |e.children|));
      } else {
        assert Blocks(e, at) == [own];
        assert Image(own) + [] == Image(own);
      }
    }
  }

  lemma {:induction false} ChildBodies(es: seq<Element>, at: nat, n: nat)
    requires n <= |es|
    ensures AllFit(BlocksTo(es, at, n)) && Body(BlocksTo(es, at, n)) == ChildImages(es, at, n)
    decreases es, 0, n
  {
    hide Image, Fits, TreeImage, Blocks;
    if n > 0 {
      var mid := at + SpanTo(es, n - 1);
      ChildBodies(es, at, n - 1);
      BodyIsTreeImage(es[n - 1], mid);
      BodyConcat(BlocksTo(es, at, n - 1), Blocks(es[n - 1], mid));
    }
  }

  // ---------------------------------------------------------------- reading back

  lemma {:induction false} EntryAt(b: seq<byte>, off: nat, entries: seq<Entry>, n: nat, i: nat)
    requires AllEmittable(entries) && i < n <= |entries|
    requires At(b, off, EntriesBytes(entries, n))
    ensures At(b, off + 28 * i, EntryBytes(entries[i]))
    decreases n
  {
    hide EntryBytes;
    AtConcat(b, off, EntriesBytes(entries, n - 1), EntryBytes(entries[n - 1]));
    if i < n - 1 {
      EntryAt(b, off, entries, n - 1, i);
    }
  }

  lemma {:induction false} ChildAt(b: seq<byte>, off: nat, es: seq<Element>, n: nat, i: nat)
    requires i < n <= |es|
    requires At(b, off, ChildImages(es, off, n))
    ensures At(b, off + SpanTo(es, i), TreeImage(es[i], off + SpanTo(es, i)))
    decreases n
  {
    hide TreeImage, Span;
    AtConcat(b, off, ChildImages(es, off, n - 1), TreeImage(es[n - 1], off + SpanTo(es, n - 1)));
    if i < n - 1 {
      ChildAt(b, off, es, n - 1, i);
    }
  }

  lemma FourBytes(v: nat)
    requires v <= UINT32_MAX
    ensures FromLe(Le(v, 4)) == v
  {
    Pow256Values();
    LeRoundTrip(v, 4);
  }

  /** Where each field of an entry stands, and which values are embedded: scalars of at most eight bytes. */
  lemma EntryLayout(e: Element, at: nat)
    requires at <= UINT32_MAX && BlockSize(e) <= UINT32_MAX && Emittable(EntryFor(e, at))
    ensures
      var raw := EntryBytes(EntryFor(e, at));
      && GuidFromWire(raw[..16]) == e.tag
      && raw[16] == (match e case Collection(_, _) => 1 case Scalar(_, _, _) => 2 case Vector(_, _, _, _) => 3)
      && raw[17] == (match e case Collection(_, _) => 0 case Scalar(_, p, _) => p case Vector(_, p, _, _) => p)
      && raw[18] == (if e.Scalar? && |e.data| <= 8 then 1 else 0) && raw[19] == 0
      && (e.Scalar? && |e.data| <= 8 ==> raw[20..20 + |e.data|] == e.data && forall i :: 20 + |e.data| <= i < 28 ==> raw[i] == 0)
      && (!(e.Scalar? && |e.data| <= 8) ==> FromLe(raw[20..24]) == at && FromLe(raw[24..28]) == BlockSize(e))
  {
    hide Le, FromLe, AlignedFour, GuidWire, GuidFromWire;
    var raw := EntryBytes(EntryFor(e, at));
    GuidRoundTrip(e.tag);
    assert raw[..16] == GuidWire(e.tag);
    if e.Scalar? && |e.data| <= 8 {
      assert raw[20..20 + |e.data|] == e.data;
    } else {
      FourBytes(at);
      FourBytes(BlockSize(e));
      assert raw[20..24] == Le(at, 4);
      assert raw[24..28] == Le(BlockSize(e), 4);
    }
  }

  lemma EntryDecodes(e: Element, at: nat)
    requires WellTyped(e) && at <= UINT32_MAX && BlockSize(e) <= UINT32_MAX
    ensures Emittable(EntryFor(e, at))
    ensures DecodeEntry(EntryBytes(EntryFor(e, at))) == Some(EntryFor(e, at))
  {
    hide Le, FromLe, AlignedFour, GuidWire, GuidFromWire;
    var entry := EntryFor(e, at);
    var raw := EntryBytes(entry);
    GuidRoundTrip(e.tag);
    assert raw[..16] == GuidWire(e.tag);
    if entry.Embedded? {
      assert raw[20..20 + |entry.data|] == entry.data;
    } else {
      FourBytes(at);
      FourBytes(BlockSize(e));
      assert raw[20..24] == Le(at, 4);
      assert raw[24..] == Le(BlockSize(e), 4);
    }
  }

  /** A leaf's own block starts with its content; padding follows. */
  lemma LeafContent(b: seq<byte>, e: Element, at: nat)
    requires !e.Collection? && !IsEmbedded(e) && At(b, at, TreeImage(e, at))
    ensures at + BlockSize(e) <= |b| && Fits(OwnBlock(e, at)) && At(b, at, Content(OwnBlock(e, at)))
  {
    hide Content, AlignedFour, At;
    var own := OwnBlock(e, at);
    OwnBlockFits(e, at);
    var content := Content(own);
    assert TreeImage(e, at) == content + Zeros(own.size - |content|);
    AtConcat(b, at, content, Zeros(own.size - |content|));
    AtBounds(b, at, TreeImage(e, at));
  }

  lemma AtWhole(b: seq<byte>)
    ensures At(b, 0, b)
  {
    assert b[0..|b|] == b;
  }

  lemma AtBounds(b: seq<byte>, off: nat, s: seq<byte>)
    requires At(b, off, s)
    ensures off + |s| <= |b|
  {
  }

  lemma ReadsLeaf(b: seq<byte>, off: nat, e: Element, at: nat)
    requires !e.Collection? && WellTyped(e)
    requires off < at && off < |b|
    requires At(b, at, TreeImage(e, at))
    ensures ReadChild(b, off, EntryFor(e, at)) == Some(e)
  {
    hide Le, FromLe, AlignedFour, TreeImage, ReadCollection;
    if !IsEmbedded(e) {
      LeafContent(b, e, at);
      if e.Vector? {
        FourBytes(e.count);
        AtConcat(b, at, Le(e.count, 4), e.data);
      }
    }
  }

  lemma {:induction false} ReadsCollection(b: seq<byte>, e: Element, off: nat)
    requires e.Collection? && WellTyped(e) && |b| <= UINT32_MAX
    requires At(b, off, TreeImage(e, off))
    ensures ReadCollection(b, e.tag, off, BlockSize(e)) == Some(e)
    decreases e, 1, 0
  {
    hide Le, FromLe, EntriesBytes, ReadChildren, ChildImages, Span, SpanTo;
    var n := |e.children|;
    var first := off + BlockSize(e);
    var own := OwnBlock(e, off);
    OwnBlockFits(e, off);
    assert Image(own) == Content(own);
    AtConcat(b, off, Image(own), ChildImages(e.children, first, n));
    AtConcat(b, off, Le(n, 4), EntriesBytes(own.entries, n));
    FourBytes(n);
    ReadsChildren(b, e, off, n);
    assert e.children[..n] == e.children;
  }

  lemma {:induction false} ReadsChildren(b: seq<byte>, e: Element, off: nat, n: nat)
    requires e.Collection? && WellTyped(e) && |b| <= UINT32_MAX && n <= |e.children|
    requires off + BlockSize(e) <= |b|
    requires AllEmittable(OwnBlock(e, off).entries)
    requires At(b, off + 4, EntriesBytes(OwnBlock(e, off).entries, |e.children|))
    requires At(b, off + BlockSize(e), ChildImages(e.children, off + BlockSize(e), |e.children|))
    ensures ReadChildren(b, off, n) == Some(e.children[..n])
    decreases e, 0, n
  {
    hide EntryBytes, EntriesBytes, DecodeEntry, TreeImage, ChildImages, ReadChild, EntryFor, Span, SpanTo;
    if n > 0 {
      var first := off + BlockSize(e);
      var child, at := e.children[n - 1], first + SpanTo(e.children, n - 1);
      ReadsChildren(b, e, off, n - 1);
      EntryAt(b, off + 4, OwnBlock(e, off).entries, |e.children|, n - 1);
      ChildAt(b, first, e.children, |e.children|, n - 1);
      ChildFits(b, child, at);
      EntryDecodes(child, at);
      ReadsChild(b, e, off, child, at);
      assert e.children[..n] == e.children[..n - 1] + [child];
    }
  }

  lemma ChildFits(b: seq<byte>, child: Element, at: nat)
    requires |b| <= UINT32_MAX && WellTyped(child)
    requires At(b, at, TreeImage(child, at))
    ensures at <= UINT32_MAX && BlockSize(child) <= UINT32_MAX
  {
    hide TreeImage;
  }

  lemma {:induction false} ReadsChild(b: seq<byte>, e: Element, off: nat, child: Element, at: nat)
    requires e.Collection? && child in e.children && WellTyped(child)
    requires |b| <= UINT32_MAX && off < at && off < |b|
    requires At(b, at, TreeImage(child, at))
    ensures ReadChild(b, off, EntryFor(child, at)) == Some(child)
    decreases e, 0, 0
  {
    if child.Collection? {
      hide TreeImage, ReadCollection;
      ReadsCollection(b, child, at);
    } else {
      hide TreeImage;
      ReadsLeaf(b, off, child, at);
    }
  }

  /** Whatever tree fits 32 bits, the emitted body is exactly its layout's bytes and reads back as that tree. */
  lemma {:induction false} BodyReadsBack(root: Element)
    requires root.Collection? && WellTyped(root) && Span(root) <= UINT32_MAX
    ensures AllFit(Blocks(root, 0)) && Tiled(Blocks(root, 0), 0, Span(root))
    ensures |Body(Blocks(root, 0))| == Span(root)
    ensures ReadCollection(Body(Blocks(root, 0)), root.tag, 0, BlockSize(root)) == Some(root)
  {
    hide TreeImage, ReadCollection, Blocks, Body, Tiled, AllFit, WellTyped, At;
    BlocksTile(root, 0);
    BodyIsTreeImage(root, 0);
    var b := TreeImage(root, 0);
    AtWhole(b);
    ReadsCollection(b, root, 0);
  }
}
