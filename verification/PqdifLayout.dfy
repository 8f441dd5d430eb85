/** PQDIF element trees, their physical layout and their emission as one record body. */
module PqdifLayout {
  import opened Foundation

  type Guid = g: seq<byte> | |g| == 16 witness seq(16, _ => 0)

  const KIND_COLLECTION: byte := 1
  const KIND_SCALAR: byte := 2
  const KIND_VECTOR: byte := 3

  datatype Element =
    | Collection(tag: Guid, children: seq<Element>)
    | Scalar(tag: Guid, physical: byte, data: seq<byte>)
    | Vector(tag: Guid, physical: byte, count: nat, data: seq<byte>)

  /** What a collection block says about one child: tag, descriptor, and either the value or a link. */
  datatype Entry =
    | Embedded(tag: Guid, physical: byte, data: seq<byte>)
    | Link(tag: Guid, kind: byte, physical: byte, offset: nat, size: nat)

  datatype Block =
    | CollectionBlock(entries: seq<Entry>, offset: nat, size: nat)
    | ScalarBlock(data: seq<byte>, offset: nat, size: nat)
    | VectorBlock(count: nat, data: seq<byte>, offset: nat, size: nat)

  datatype Layout = Layout(blocks: seq<Block>, bytes: nat)

  datatype Error = InternalError | OutputTooLarge

  /** Wire order of a GUID: the first three fields are little-endian. */
  function GuidWire(g: Guid): (w: Guid) {
    [g[3], g[2], g[1], g[0], g[5], g[4], g[7], g[6]] + g[8..]
  }

  /** On the wire the 32-bit field and the two 16-bit fields are little-endian numbers, and the last eight bytes are as they were. */
  lemma GuidFields(g: Guid)
    ensures FromLe(GuidWire(g)[..4]) == FromBe(g[..4])
    ensures FromLe(GuidWire(g)[4..6]) == FromBe(g[4..6])
    ensures FromLe(GuidWire(g)[6..8]) == FromBe(g[6..8])
    ensures GuidWire(g)[8..] == g[8..]
  {
    var w := GuidWire(g);
    LeFour(w[..4], g[..4]);
    LeTwo(w[4..6], g[4..6]);
    LeTwo(w[6..8], g[6..8]);
  }

  lemma LeTwo(w: seq<byte>, g: seq<byte>)
    requires |w| == |g| == 2 && w[0] == g[1] && w[1] == g[0]
    ensures FromLe(w) == FromBe(g)
  {
    assert w[1..] == [w[1]] && [w[1]][1..] == [];
    assert g[..1] == [g[0]] && [g[0]][..0] == [];
    assert FromLe([w[1]]) == w[1] && FromBe([g[0]]) == g[0];
  }

  lemma LeFour(w: seq<byte>, g: seq<byte>)
    requires |w| == |g| == 4 && w[0] == g[3] && w[1] == g[2] && w[2] == g[1] && w[3] == g[0]
    ensures FromLe(w) == FromBe(g)
  {
    var high, low := w[2..], g[..2];
    LeTwo(high, low);
    assert w[1..][1..] == high;
    assert g[..3][..2] == low;
    assert FromLe(w) == w[0] + 256 * (w[1] + 256 * FromLe(high));
    assert FromBe(g) == 256 * (256 * FromBe(low) + g[2]) + g[3];
  }

  /** A reader's way back: each field as a number, written out big-endian. */
  function GuidFromWire(w: Guid): Guid {
    Be(FromLe(w[..4]), 4) + Be(FromLe(w[4..6]), 2) + Be(FromLe(w[6..8]), 2) + w[8..]
  }

  lemma GuidRoundTrip(g: Guid)
    ensures GuidFromWire(GuidWire(g)) == g
  {
    hide GuidWire;
    GuidFields(g);
    BeRoundTrip(g[..4]);
    BeRoundTrip(g[4..6]);
    BeRoundTrip(g[6..8]);
    hide Be, FromBe, FromLe;
    assert g == g[..4] + g[4..6] + g[6..8] + g[8..];
  }

  // ---------------------------------------------------------------- sizes

  function AlignedFour(n: nat): nat {
    (n + 3) / 4 * 4
  }

  predicate IsEmbedded(e: Element) {
    e.Scalar? && |e.data| <= 8
  }

  /** Size of the block an element owns. */
  function BlockSize(e: Element): nat {
    match e
    case Collection(_, children) => 4 + 28 * |children|
    case Scalar(_, _, data) => AlignedFour(|data|)
    case Vector(_, _, _, data) => AlignedFour(4 + |data|)
  }

  /** Bytes a whole subtree occupies in the record body; an embedded scalar occupies none. */
  function Span(e: Element): nat
    decreases e, 1, 0
  {
    if IsEmbedded(e) then 0
    else if e.Collection? then BlockSize(e) + SpanTo(e.children, |e.children|)
    else BlockSize(e)
  }

  /** Bytes the first n children occupy. */
  function SpanTo(es: seq<Element>, n: nat): nat
    requires n <= |es|
    decreases es, 0, n
  {
    if n == 0 then 0 else SpanTo(es, n - 1) + Span(es[n - 1])
  }

  lemma {:induction false} SpanToMonotone(es: seq<Element>, m: nat, n: nat)
    requires m <= n <= |es|
    ensures SpanTo(es, m) <= SpanTo(es, n)
    decreases n
  {
    if m < n {
      SpanToMonotone(es, m, n - 1);
    }
  }

  lemma {:induction false} SpanAligned(e: Element)
    ensures Span(e) % 4 == 0
    decreases e, 1, 0
  {
    hide SpanTo, AlignedFour;
    if e.Collection? {
      SpanToAligned(e.children, |e.children|);
    } else if e.Scalar? {
      AlignedIsAligned(|e.data|);
    } else {
      AlignedIsAligned(4 + |e.data|);
    }
  }

  lemma AlignedIsAligned(n: nat)
    ensures AlignedFour(n) % 4 == 0 && n <= AlignedFour(n) < n + 4
  {
  }

  lemma {:induction false} SpanToAligned(es: seq<Element>, n: nat)
    requires n <= |es|
    ensures SpanTo(es, n) % 4 == 0
    decreases es, 0, n
  {
    hide Span;
    if n > 0 {
      SpanToAligned(es, n - 1);
      SpanAligned(es[n - 1]);
    }
  }

  // ---------------------------------------------------------------- layout specification

  function EntryFor(e: Element, at: nat): Entry {
    match e
    case Collection(tag, _) => Link(tag, KIND_COLLECTION, 0, at, BlockSize(e))
    case Scalar(tag, physical, data) =>
      if |data| <= 8 then Embedded(tag, physical, data) else Link(tag, KIND_SCALAR, physical, at, BlockSize(e))
    case Vector(tag, physical, _, _) => Link(tag, KIND_VECTOR, physical, at, BlockSize(e))
  }

  /** Entries of the first n children, the first child's subtree starting at `at`. */
  function EntriesTo(es: seq<Element>, at: nat, n: nat): seq<Entry>
    requires n <= |es|
  {
    seq(n, i requires 0 <= i < n => EntryFor(es[i], at + SpanTo(es, i)))
  }

  /** The blocks of a subtree in pre-order, the subtree starting at byte `at`. */
  function Blocks(e: Element, at: nat): seq<Block>
    decreases e, 1, 0
  {
    if IsEmbedded(e) then []
    else match e
      case Collection(_, children) =>
        var first := at + BlockSize(e);
        [CollectionBlock(EntriesTo(children, first, |children|), at, BlockSize(e))]
        + BlocksTo(children, first, |children|)
      case Scalar(_, _, data) => [ScalarBlock(data, at, BlockSize(e))]
      case Vector(_, _, count, data) => [VectorBlock(count, data, at, BlockSize(e))]
  }

  function BlocksTo(es: seq<Element>, at: nat, n: nat): seq<Block>
    requires n <= |es|
    decreases es, 0, n
  {
    if n == 0 then [] else BlocksTo(es, at, n - 1) + Blocks(es[n - 1], at + SpanTo(es, n - 1))
  }

  // ---------------------------------------------------------------- assign_collection and layout

  /** One child: its blocks, and the cursor past its subtree. A short scalar stays in its parent's entry. */
  method AssignChild(child: Element, cursor: nat) returns (r: Result<(nat, seq<Block>), Error>)
    ensures r.Err? ==> r.error == OutputTooLarge && cursor + Span(child) > UINT32_MAX
    ensures r.Ok? ==> r.value == (cursor + Span(child), Blocks(child, cursor))
    decreases child, 1
  {
    if child.Scalar? && |child.data| <= 8 {
      return Ok((cursor, []));
    }
    if cursor > UINT32_MAX {
      return Err(OutputTooLarge);
    }
    if child.Collection? {
      r := AssignCollection(child, cursor);
      return;
    }
    var size := AlignedFour(if child.Scalar? then |child.data| else 4 + |child.data|);
    if size > UINT32_MAX {
      return Err(OutputTooLarge);
    }
    var block := if child.Scalar? then ScalarBlock(child.data, cursor, size)
                 else VectorBlock(child.count, child.data, cursor, size);
    return Ok((cursor + size, [block]));
  }

  /** The child loop: appends each child's entry and blocks while the cursor advances. */
  method AssignChildren(children: seq<Element>, first: nat) returns (r: Result<(nat, seq<Entry>, seq<Block>), Error>)
    ensures r.Err? ==> r.error == OutputTooLarge && first + SpanTo(children, |children|) > UINT32_MAX
    ensures r.Ok? ==> r.value.0 == first + SpanTo(children, |children|)
    ensures r.Ok? ==> r.value.1 == EntriesTo(children, first, |children|)
    ensures r.Ok? ==> r.value.2 == BlocksTo(children, first, |children|)
    decreases children, 0
  {
    hide EntryFor, Blocks, Span;
    var cursor := first;
    var entries: seq<Entry> := [];
    var tail: seq<Block> := [];
    for i := 0 to |children|
      invariant cursor == first + SpanTo(children, i)
      invariant entries == EntriesTo(children, first, i)
      invariant tail == BlocksTo(children, first, i)
    {
      assert EntriesTo(children, first, i + 1) == EntriesTo(children, first, i) + [EntryFor(children[i], cursor)];
      entries := entries + [EntryFor(children[i], cursor)];
      var placed := AssignChild(children[i], cursor);
      if placed.Err? {
        SpanToMonotone(children, i + 1, |children|);
        return Err(OutputTooLarge);
      }
      cursor, tail := placed.value.0, tail + placed.value.1;
    }
    return Ok((cursor, entries, tail));
  }

  /** The recursive layout pass: checks every 32-bit field and moves the cursor past the subtree. */
  method AssignCollection(value: Element, offset: nat) returns (r: Result<(nat, seq<Block>), Error>)
    ensures r.Err? && r.error == InternalError <==> !value.Collection?
    ensures r.Err? && value.Collection? ==> offset + Span(value) > UINT32_MAX
    ensures r.Ok? ==> r.value == (offset + Span(value), Blocks(value, offset))
    decreases value, 0
  {
    if !value.Collection? {
      return Err(InternalError);
    }
    var size := 4 + |value.children| * 28;
    if offset > UINT32_MAX || size > UINT32_MAX {
      return Err(OutputTooLarge);
    }
    var placed := AssignChildren(value.children, offset + size);
    if placed.Err? {
      return Err(OutputTooLarge);
    }
    return Ok((placed.value.0, [CollectionBlock(placed.value.1, offset, size)] + placed.value.2));
  }

  /** A body is laid out exactly when its root is a collection and the whole tree fits 32 bits. */
  method ComputeLayout(root: Element) returns (r: Result<Layout, Error>)
    ensures r.Ok? <==> root.Collection? && Span(root) <= UINT32_MAX
    ensures r.Ok? ==> r.value == Layout(Blocks(root, 0), Span(root))
  {
    var placed := AssignCollection(root, 0);
    if placed.Err? {
      return Err(placed.error);
    }
    if placed.value.0 > UINT32_MAX {
      return Err(OutputTooLarge);
    }
    return Ok(Layout(placed.value.1, placed.value.0));
  }

  // ---------------------------------------------------------------- tiling

  /** Consecutive blocks from `from` to `to`, each on a four-byte boundary: no gap and no overlap. */
  ghost predicate Tiled(blocks: seq<Block>, from: nat, to: nat) {
    && (forall i :: 0 <= i < |blocks| ==> blocks[i].offset % 4 == 0)
    && (forall i, j :: 0 <= i && j == i + 1 && j < |blocks| ==> blocks[j].offset == blocks[i].offset + blocks[i].size)
    && (if blocks == [] then from == to
        else blocks[0].offset == from && blocks[|blocks| - 1].offset + blocks[|blocks| - 1].size == to)
  }

  lemma TiledConcat(a: seq<Block>, b: seq<Block>, from: nat, mid: nat, to: nat)
    requires Tiled(a, from, mid) && Tiled(b, mid, to)
    ensures Tiled(a + b, from, to)
  {
  }

  lemma NothingTiled(at: nat)
    ensures Tiled([], at, at)
  {
  }

  /** Every subtree's blocks tile exactly the bytes the layout reserves for it. */
  lemma {:induction false} BlocksTile(e: Element, at: nat)
    requires at % 4 == 0
    ensures Tiled(Blocks(e, at), at, at + Span(e))
    decreases e, 1, 0
  {
    hide BlocksTo, SpanTo, EntriesTo, AlignedFour;
    if e.Collection? {
      var first := at + BlockSize(e);
      BlocksToTile(e.children, first, |e.children|);
      var own := CollectionBlock(EntriesTo(e.children, first, |e.children|), at, BlockSize(e));
      TiledConcat([own], BlocksTo(e.children, first, |e.children|), at, first, at + Span(e));
    }
  }

  lemma {:induction false} BlocksToTile(es: seq<Element>, at: nat, n: nat)
    requires at % 4 == 0 && n <= |es|
    ensures Tiled(BlocksTo(es, at, n), at, at + SpanTo(es, n))
    decreases es, 0, n
  {
    hide Blocks, Span, Tiled;
    if n == 0 {
      NothingTiled(at);
    } else {
      var mid := at + SpanTo(es, n - 1);
      SpanToAligned(es, n - 1);
      BlocksToTile(es, at, n - 1);
      BlocksTile(es[n - 1], mid);
      TiledConcat(BlocksTo(es, at, n - 1), Blocks(es[n - 1], mid), at, mid, at + SpanTo(es, n));
    }
  }

  // ---------------------------------------------------------------- emission

  function Zeros(n: nat): seq<byte> {
    seq(n, _ => 0)
  }

  predicate Emittable(e: Entry) {
    e.Embedded? ==> |e.data| <= 8
  }

  function EntryBytes(e: Entry): (s: seq<byte>)
    requires Emittable(e)
    ensures |s| == 28
  {
    match e
    case Embedded(tag, physical, data) =>
      GuidWire(tag) + [KIND_SCALAR, physical, 1, 0] + (data + Zeros(8 - |data|))
    case Link(tag, kind, physical, offset, size) =>
      GuidWire(tag) + [kind, physical, 0, 0] + (Le(offset, 4) + Le(size, 4))
  }

  ghost predicate AllEmittable(entries: seq<Entry>) {
    forall i :: 0 <= i < |entries| ==> Emittable(entries[i])
  }

  function EntriesBytes(entries: seq<Entry>, n: nat): (s: seq<byte>)
    requires n <= |entries| && AllEmittable(entries)
    ensures |s| == 28 * n
  {
    if n == 0 then [] else EntriesBytes(entries, n - 1) + EntryBytes(entries[n - 1])
  }

  ghost predicate Fits(b: Block) {
    && (b.CollectionBlock? ==> AllEmittable(b.entries))
    && |Content(b)| <= b.size
  }

  function Content(b: Block): seq<byte>
    requires b.CollectionBlock? ==> AllEmittable(b.entries)
  {
    match b
    case CollectionBlock(entries, _, _) => Le(|entries|, 4) + EntriesBytes(entries, |entries|)
    case ScalarBlock(data, _, _) => data
    case VectorBlock(count, data, _, _) => Le(count, 4) + data
  }

  method EmitCollectionBlock(entries: seq<Entry>) returns (bytes: seq<byte>)
    requires AllEmittable(entries)
    ensures bytes == Le(|entries|, 4) + EntriesBytes(entries, |entries|)
  {
    hide Le, EntryBytes;
    var head := Le(|entries|, 4);
    bytes := head;
    ghost var table: seq<byte> := [];
    for i := 0 to |entries|
      invariant table == EntriesBytes(entries, i) && bytes == head + table
    {
      var next := EntryBytes(entries[i]);
      bytes := bytes + next;
      assert head + table + next == head + (table + next);
      table := table + next;
    }
  }

  /** Emits one block and its padding; refuses content longer than the laid-out size. */
  method EmitBlock(b: Block) returns (r: Result<seq<byte>, Error>)
    requires b.CollectionBlock? ==> AllEmittable(b.entries)
    ensures r.Ok? <==> |Content(b)| <= b.size
    ensures r.Ok? ==> r.value == Content(b) + Zeros(b.size - |Content(b)|)
  {
    var emitted: seq<byte>;
    match b {
      case CollectionBlock(entries, _, _) => emitted := EmitCollectionBlock(entries);
      case ScalarBlock(data, _, _) => emitted := data;
      case VectorBlock(count, data, _, _) => emitted := Le(count, 4) + data;
    }
    if |emitted| > b.size {
      return Err(InternalError);
    }
    return Ok(emitted + Zeros(b.size - |emitted|));
  }

  ghost function Image(b: Block): (s: seq<byte>)
    requires Fits(b)
    ensures |s| == b.size
  {
    Content(b) + Zeros(b.size - |Content(b)|)
  }

  ghost predicate AllFit(blocks: seq<Block>) {
    forall i :: 0 <= i < |blocks| ==> Fits(blocks[i])
  }

  ghost function Body(blocks: seq<Block>): seq<byte>
    requires AllFit(blocks)
  {
    if blocks == [] then [] else Body(blocks[..|blocks| - 1]) + Image(blocks[|blocks| - 1])
  }

  /** On fitting, tiled blocks the emitter's gap, overlap and byte-count checks never fire. */
  method EmitBody(layout: Layout) returns (r: Result<seq<byte>, Error>)
    requires forall b :: b in layout.blocks && b.CollectionBlock? ==> AllEmittable(b.entries)
    ensures AllFit(layout.blocks) && Tiled(layout.blocks, 0, layout.bytes) ==> r.Ok?
    ensures r.Ok? ==> AllFit(layout.blocks) && r.value == Body(layout.blocks) && |r.value| == layout.bytes
  {
    hide Content;
    var blocks := layout.blocks;
    var cursor := 0;
    var bytes: seq<byte> := [];
    for i := 0 to |blocks|
      invariant AllFit(blocks[..i]) && bytes == Body(blocks[..i]) && |bytes| == cursor
      invariant Tiled(blocks, 0, layout.bytes) ==> cursor == if i == 0 then 0 else blocks[i - 1].offset + blocks[i - 1].size
    {
      assert blocks[..i + 1][..i] == blocks[..i];
      if blocks[i].offset != cursor {
        return Err(InternalError);
      }
      var emitted := EmitBlock(blocks[i]);
      if emitted.Err? {
        return Err(emitted.error);
      }
      bytes := bytes + emitted.value;
      cursor := cursor + blocks[i].size;
    }
    assert blocks[..|blocks|] == blocks;
    if cursor != layout.bytes {
      return Err(InternalError);
    }
    return Ok(bytes);
  }
}
