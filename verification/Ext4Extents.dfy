/**
 Extent trees of kernel/src/ext4.rs on values: what a file holds, and what the
 whole-file walk and the range walk make of an output buffer.
 */
module Ext4Extents {
  import opened BlockDevices
  import opened Machine

  const EXTENT_MAGIC: nat := 0xf30a
  const INIT_MAX_LEN: nat := 0x8000
  const MAX_EXTENT_TREE_DEPTH: nat := 5

  datatype Ext4Error = Overflow | ShortRead | BadExtentTree | BadInode | FileTooLarge | Unsupported

  datatype Outcome<T> = Good(value: T) | Bad(error: Ext4Error)

  // -------------------------------------------------------------- decoding

  function Le16(data: seq<byte>, at: nat): (n: nat)
    requires at + 2 <= |data|
    ensures n < 0x1_0000
  {
    (data[at] as int) + 256 * (data[at + 1] as int)
  }

  function Le32(data: seq<byte>, at: nat): (n: nat)
    requires at + 4 <= |data|
    ensures n < 0x1_0000_0000
  {
    Le16(data, at) + 0x1_0000 * Le16(data, at + 2)
  }

  /** A raw length above 0x8000 marks an extent that is allocated but not written. */
  function DecodeLen(raw: nat): (nat, bool) {
    if raw <= INIT_MAX_LEN then (raw, false) else (raw - INIT_MAX_LEN, true)
  }

  datatype Extent = Extent(logical: nat, blocks: nat, unwritten: bool, physical: nat)

  function ExtentAt(node: seq<byte>, at: nat): Extent
    requires at + 12 <= |node|
  {
    var (blocks, unwritten) := DecodeLen(Le16(node, at + 4));
    Extent(Le32(node, at), blocks, unwritten, Le16(node, at + 6) * 0x1_0000_0000 + Le32(node, at + 8))
  }

  function ChildAt(node: seq<byte>, at: nat): nat
    requires at + 12 <= |node|
  {
    Le16(node, at + 8) * 0x1_0000_0000 + Le32(node, at + 4)
  }

  datatype Node = Malformed | Leaf(extents: seq<Extent>) | Index(children: seq<nat>)

  /** The header checks both walkers make, and the entries behind the header. */
  function Parse(node: seq<byte>): Node {
    if |node| < 12 || Le16(node, 0) != EXTENT_MAGIC then Malformed
    else
      var entries := Le16(node, 2);
      if entries > Le16(node, 4) || 12 + entries * 12 > |node| then Malformed
      else if Le16(node, 6) == 0 then Leaf(seq(entries, i requires 0 <= i < entries => ExtentAt(node, 12 + i * 12)))
      else Index(seq(entries, i requires 0 <= i < entries => ChildAt(node, 12 + i * 12)))
  }

  // -------------------------------------------------------------- encoding

  /** `data` holds the bytes `part` at `at`. */
  predicate HasAt(data: seq<byte>, at: nat, part: seq<byte>) {
    at + |part| <= |data| && data[at..at + |part|] == part
  }

  lemma HasParts(data: seq<byte>, at: nat, a: seq<byte>, b: seq<byte>)
    requires HasAt(data, at, a + b)
    ensures HasAt(data, at, a) && HasAt(data, at + |a|, b)
  {
    var whole := data[at..at + |a + b|];
    assert whole[..|a|] == a && whole[|a|..] == b;
    assert data[at..at + |a|] == whole[..|a|];
    assert data[at + |a|..at + |a| + |b|] == whole[|a|..];
  }

  lemma Le16Reads(data: seq<byte>, at: nat, w: nat)
    requires w < 0x1_0000 && HasAt(data, at, ToLe(w, 2))
    ensures Le16(data, at) == w
  {
    var b := data[at..at + 2];
    assert ToLe(w, 2) == [(w % 256) as byte] + ToLe(w / 256, 1);
    assert ToLe(w / 256, 1) == [(w / 256 % 256) as byte];
    assert b[0] == data[at] && b[1] == data[at + 1];
  }

  lemma Le32Reads(data: seq<byte>, at: nat, w: nat)
    requires w < 0x1_0000_0000 && HasAt(data, at, ToLe(w, 4))
    ensures Le32(data, at) == w
  {
    assert ToLe(w, 4) == ToLe(w % 0x1_0000, 2) + ToLe(w / 0x1_0000, 2) by {
      LeSplits(w);
    }
    HasParts(data, at, ToLe(w % 0x1_0000, 2), ToLe(w / 0x1_0000, 2));
    Le16Reads(data, at, w % 0x1_0000);
    Le16Reads(data, at + 2, w / 0x1_0000);
  }

  lemma LeSplits(w: nat)
    requires w < 0x1_0000_0000
    ensures ToLe(w, 4) == ToLe(w % 0x1_0000, 2) + ToLe(w / 0x1_0000, 2)
  {
    var x := w / 256;
    assert x / 256 == w / 0x1_0000;
    assert w % 0x1_0000 % 256 == w % 256 && w % 0x1_0000 / 256 == x % 256;
    assert ToLe(w, 4) == [(w % 256) as byte] + ToLe(x, 3);
    assert ToLe(x, 3) == [(x % 256) as byte] + ToLe(x / 256, 2);
    assert ToLe(w % 0x1_0000, 2) == [(w % 256) as byte] + ToLe(x % 256, 1);
    assert ToLe(x % 256, 1) == [(x % 256) as byte] + ToLe(x % 256 / 256, 0);
  }

  /** What an on-disk entry can express: a written run of up to 0x8000 blocks or an unwritten one of up to 0x7fff. */
  predicate Encodable(e: Extent) {
    && e.logical < 0x1_0000_0000 && e.physical < 0x1_0000_0000_0000
    && (if e.unwritten then 0 < e.blocks < 0x8000 else e.blocks <= 0x8000)
  }

  function EntryBytes(e: Extent): (b: seq<byte>)
    ensures |b| == 12
  {
    var raw := if e.unwritten then 0x8000 + e.blocks else e.blocks;
    ToLe(e.logical, 4) + (ToLe(raw, 2) + (ToLe(e.physical / 0x1_0000_0000, 2) + ToLe(e.physical % 0x1_0000_0000, 4)))
  }

  /** Where the bytes of an extent stand, that extent is read. */
  lemma ExtentRoundTrip(node: seq<byte>, at: nat, e: Extent)
    requires Encodable(e) && HasAt(node, at, EntryBytes(e))
    ensures ExtentAt(node, at) == e
  {
    var raw := if e.unwritten then 0x8000 + e.blocks else e.blocks;
    var hi, lo := e.physical / 0x1_0000_0000, e.physical % 0x1_0000_0000;
    HasParts(node, at, ToLe(e.logical, 4), ToLe(raw, 2) + (ToLe(hi, 2) + ToLe(lo, 4)));
    HasParts(node, at + 4, ToLe(raw, 2), ToLe(hi, 2) + ToLe(lo, 4));
    HasParts(node, at + 6, ToLe(hi, 2), ToLe(lo, 4));
    Le32Reads(node, at, e.logical);
    Le16Reads(node, at + 4, raw);
    Le16Reads(node, at + 6, hi);
    Le32Reads(node, at + 8, lo);
  }

  datatype Child = Child(logical: nat, block: nat, unused: nat)

  predicate Linkable(c: Child) {
    c.logical < 0x1_0000_0000 && c.block < 0x1_0000_0000_0000 && c.unused < 0x1_0000
  }

  function ChildBytes(c: Child): (b: seq<byte>)
    ensures |b| == 12
  {
    ToLe(c.logical, 4) + (ToLe(c.block % 0x1_0000_0000, 4) + (ToLe(c.block / 0x1_0000_0000, 2) + ToLe(c.unused, 2)))
  }

  /** Where the bytes of an index entry stand, the block it points to is read. */
  lemma ChildRoundTrip(node: seq<byte>, at: nat, c: Child)
    requires Linkable(c) && HasAt(node, at, ChildBytes(c))
    ensures ChildAt(node, at) == c.block
  {
    var hi, lo := c.block / 0x1_0000_0000, c.block % 0x1_0000_0000;
    HasParts(node, at, ToLe(c.logical, 4), ToLe(lo, 4) + (ToLe(hi, 2) + ToLe(c.unused, 2)));
    HasParts(node, at + 4, ToLe(lo, 4), ToLe(hi, 2) + ToLe(c.unused, 2));
    HasParts(node, at + 8, ToLe(hi, 2), ToLe(c.unused, 2));
    Le32Reads(node, at + 4, lo);
    Le16Reads(node, at + 8, hi);
  }

  function HeaderBytes(entries: nat, capacity: nat, depth: nat, generation: nat): (b: seq<byte>)
    ensures |b| == 12
  {
    ToLe(0xf30a, 2) + (ToLe(entries, 2) + (ToLe(capacity, 2) + (ToLe(depth, 2) + ToLe(generation, 4))))
  }

  lemma HeaderReads(node: seq<byte>, entries: nat, capacity: nat, depth: nat, generation: nat)
    requires entries < 0x1_0000 && capacity < 0x1_0000 && depth < 0x1_0000
    requires HasAt(node, 0, HeaderBytes(entries, capacity, depth, generation))
    ensures Le16(node, 0) == 0xf30a && Le16(node, 2) == entries && Le16(node, 4) == capacity && Le16(node, 6) == depth
  {
    var d := ToLe(depth, 2) + ToLe(generation, 4);
    var c := ToLe(capacity, 2) + d;
    HasParts(node, 0, ToLe(0xf30a, 2), ToLe(entries, 2) + c);
    HasParts(node, 2, ToLe(entries, 2), c);
    HasParts(node, 4, ToLe(capacity, 2), d);
    HasParts(node, 6, ToLe(depth, 2), ToLe(generation, 4));
    Le16Reads(node, 0, 0xf30a);
    Le16Reads(node, 2, entries);
    Le16Reads(node, 4, capacity);
    Le16Reads(node, 6, depth);
  }

  /** A node with a sound header for `entries` entries. */
  ghost predicate Headed(node: seq<byte>, entries: nat, leaf: bool) {
    exists capacity: nat, depth: nat, generation: nat ::
      && entries <= capacity < 0x1_0000 && depth < 0x1_0000 && (leaf <==> depth == 0)
      && HasAt(node, 0, HeaderBytes(entries, capacity, depth, generation))
  }

  ghost predicate WrittenLeaf(node: seq<byte>, es: seq<Extent>) {
    && Headed(node, |es|, true)
    && forall i :: 0 <= i < |es| ==> Encodable(es[i]) && HasAt(node, 12 + i * 12, EntryBytes(es[i]))
  }

  ghost predicate WrittenIndex(node: seq<byte>, children: seq<Child>) {
    && Headed(node, |children|, false)
    && forall i :: 0 <= i < |children| ==> Linkable(children[i]) && HasAt(node, 12 + i * 12, ChildBytes(children[i]))
  }

  lemma HeadedReads(node: seq<byte>, entries: nat, leaf: bool)
    requires Headed(node, entries, leaf) && 12 + entries * 12 <= |node|
    ensures Le16(node, 0) == EXTENT_MAGIC && Le16(node, 2) == entries <= Le16(node, 4) && (leaf <==> Le16(node, 6) == 0)
  {
    var capacity: nat, depth: nat, generation: nat :|
      && entries <= capacity < 0x1_0000 && depth < 0x1_0000 && (leaf <==> depth == 0)
      && HasAt(node, 0, HeaderBytes(entries, capacity, depth, generation));
    HeaderReads(node, entries, capacity, depth, generation);
  }

  /** A node is read as a leaf with the extents that were written into it. */
  lemma LeafRoundTrip(node: seq<byte>, es: seq<Extent>)
    requires WrittenLeaf(node, es)
    ensures Parse(node) == Leaf(es)
  {
    assert |es| > 0 ==> HasAt(node, 12 + (|es| - 1) * 12, EntryBytes(es[|es| - 1]));
    HeadedReads(node, |es|, true);
    forall i | 0 <= i < |es| ensures ExtentAt(node, 12 + i * 12) == es[i] {
      ExtentRoundTrip(node, 12 + i * 12, es[i]);
    }
  }

  /** A node is read as an index of the blocks that were written into it. */
  lemma IndexRoundTrip(node: seq<byte>, children: seq<Child>)
    requires WrittenIndex(node, children)
    ensures Parse(node).Index? && |Parse(node).children| == |children|
    ensures forall i :: 0 <= i < |children| ==> Parse(node).children[i] == children[i].block
  {
    assert |children| > 0 ==> HasAt(node, 12 + (|children| - 1) * 12, ChildBytes(children[|children| - 1]));
    HeadedReads(node, |children|, false);
    forall i | 0 <= i < |children| ensures ChildAt(node, 12 + i * 12) == children[i].block {
      ChildRoundTrip(node, 12 + i * 12, children[i]);
    }
  }

  /** Both walkers turn a node away for its size, its magic number or its counts, and for nothing else. */
  lemma MalformedExactly(node: seq<byte>)
    ensures Parse(node).Malformed? <==>
      || |node| < 12 || FromLe(node[0..2]) != 0xf30a
      || FromLe(node[2..4]) > FromLe(node[4..6]) || 12 * (1 + FromLe(node[2..4])) > |node|
  {
    if |node| >= 12 {
      Le16IsFromLe(node, 0);
      Le16IsFromLe(node, 2);
      Le16IsFromLe(node, 4);
    }
  }

  lemma Le16IsFromLe(data: seq<byte>, at: nat)
    requires at + 2 <= |data|
    ensures Le16(data, at) == FromLe(data[at..at + 2])
  {
    var b := data[at..at + 2];
    assert FromLe(b) == (b[0] as int) + 256 * FromLe(b[1..]);
    assert b[1..] == [b[1]];
    assert FromLe([b[1]]) == (b[1] as int) + 256 * FromLe([b[1]][1..]);
  }

  // -------------------------------------------------------------- the disk

  function ReadExact(disk: seq<byte>, offset: nat, length: nat): (r: Outcome<seq<byte>>)
    ensures r.Good? ==> |r.value| == length
  {
    if length == 0 then Good([])
    else if offset + length <= |disk| then Good(disk[offset..offset + length])
    else Bad(ShortRead)
  }

  function ReadBlock(disk: seq<byte>, size: nat, block: nat): (r: Outcome<seq<byte>>)
    ensures r.Good? ==> |r.value| == size
  {
    if block * size >= U64 then Bad(Overflow) else ReadExact(disk, block * size, size)
  }

  // ----------------------------------------------------- what a file holds

  predicate Skipped(e: Extent) {
    e.blocks == 0 || e.unwritten
  }

  predicate Covers(size: nat, e: Extent, x: nat) {
    !Skipped(e) && e.logical * size <= x < e.logical * size + e.blocks * size
  }

  /** Where the byte at file offset `x` is on the disk, if the extent holds it. */
  function DiskAt(size: nat, e: Extent, x: nat): nat
    requires Covers(size, e, x)
  {
    e.physical * size + (x - e.logical * size)
  }

  predicate Holds(disk: seq<byte>, size: nat, e: Extent, x: nat) {
    Covers(size, e, x) && DiskAt(size, e, x) < |disk|
  }

  /** The byte at `x`: from the last extent that holds it, else `hole`. */
  function ByteAt(disk: seq<byte>, size: nat, es: seq<Extent>, x: nat, hole: byte): byte {
    if es == [] then hole
    else
      var e := es[|es| - 1];
      if Holds(disk, size, e, x) then disk[DiskAt(size, e, x)] else ByteAt(disk, size, es[..|es| - 1], x, hole)
  }

  /** `x` lies in the blocks that the extent describes, whether they were written or not. */
  predicate Spans(size: nat, e: Extent, x: nat) {
    e.logical * size <= x < e.logical * size + e.blocks * size
  }

  /** Where no extent that was written has a byte on the disk there is a hole; unwritten extents do not count. */
  lemma {:induction false} HoleAt(disk: seq<byte>, size: nat, es: seq<Extent>, x: nat, hole: byte)
    requires forall i :: 0 <= i < |es| && Spans(size, es[i], x) && !es[i].unwritten ==>
      es[i].physical * size + (x - es[i].logical * size) >= |disk|
    ensures ByteAt(disk, size, es, x, hole) == hole
    decreases |es|
  {
    if es != [] {
      HoleAt(disk, size, es[..|es| - 1], x, hole);
    }
  }

  /** Elsewhere the last of the written extents there decides. */
  lemma {:induction false} LastWrittenAt(disk: seq<byte>, size: nat, es: seq<Extent>, x: nat, hole: byte, k: nat)
    requires k < |es| && Spans(size, es[k], x) && !es[k].unwritten
    requires es[k].physical * size + (x - es[k].logical * size) < |disk|
    requires forall i :: k < i < |es| && Spans(size, es[i], x) ==> es[i].unwritten
    ensures ByteAt(disk, size, es, x, hole) == disk[es[k].physical * size + (x - es[k].logical * size)]
    decreases |es|
  {
    if k < |es| - 1 {
      LastWrittenAt(disk, size, es[..|es| - 1], x, hole, k);
    } else {
      NotEmptyHere(size, es[k], x);
    }
  }

  lemma NotEmptyHere(size: nat, e: Extent, x: nat)
    requires Spans(size, e, x)
    ensures e.blocks > 0
  {
    assert e.blocks == 0 ==> e.blocks * size == 0;
  }

  /** All extents of a tree from left to right. */
  function Flat(disk: seq<byte>, size: nat, node: seq<byte>, depth: nat): Outcome<seq<Extent>>
    decreases MAX_EXTENT_TREE_DEPTH + 1 - depth, 1, 0
  {
    if depth > MAX_EXTENT_TREE_DEPTH then Bad(BadExtentTree)
    else match Parse(node)
      case Malformed => Bad(BadExtentTree)
      case Leaf(es) => Good(es)
      case Index(children) => FlatAll(disk, size, children, depth)
  }

  function FlatAll(disk: seq<byte>, size: nat, children: seq<nat>, depth: nat): Outcome<seq<Extent>>
    requires depth <= MAX_EXTENT_TREE_DEPTH
    decreases MAX_EXTENT_TREE_DEPTH + 1 - depth, 0, |children|
  {
    if children == [] then Good([])
    else match ReadBlock(disk, size, children[0])
      case Bad(e) => Bad(e)
      case Good(block) =>
        match Flat(disk, size, block, depth + 1)
        case Bad(e) => Bad(e)
        case Good(first) =>
          match FlatAll(disk, size, children[1..], depth)
          case Bad(e) => Bad(e)
          case Good(rest) => Good(first + rest)
  }

  /** An extent tree as it was meant, and how it lies on the disk below `node`. */
  datatype Tree = Extents(extents: seq<Extent>) | Branch(children: seq<Child>, subtrees: seq<Tree>)

  function AllExtents(tree: Tree): seq<Extent> {
    match tree
    case Extents(es) => es
    case Branch(_, subtrees) => Gathered(subtrees)
  }

  function Gathered(trees: seq<Tree>): seq<Extent> {
    if trees == [] then [] else AllExtents(trees[0]) + Gathered(trees[1..])
  }

  ghost predicate Stored(disk: seq<byte>, size: nat, node: seq<byte>, tree: Tree, depth: nat)
    decreases tree
  {
    && depth <= 5
    && match tree
       case Extents(es) => WrittenLeaf(node, es)
       case Branch(children, subtrees) =>
         && |children| == |subtrees| && WrittenIndex(node, children)
         && forall i :: 0 <= i < |children| ==>
              var block := ReadBlock(disk, size, children[i].block);
              block.Good? && Stored(disk, size, block.value, subtrees[i], depth + 1)
  }

  /** Whatever tree lies on the disk, its extents are found, each of them, in its order. */
  lemma {:induction false} TreeRoundTrip(disk: seq<byte>, size: nat, node: seq<byte>, tree: Tree, depth: nat)
    requires Stored(disk, size, node, tree, depth)
    ensures Flat(disk, size, node, depth) == Good(AllExtents(tree))
    decreases tree
  {
    match tree
    case Extents(es) => LeafRoundTrip(node, es);
    case Branch(children, subtrees) =>
      IndexRoundTrip(node, children);
      TreesRoundTrip(disk, size, Parse(node).children, subtrees, depth);
  }

  /** A tree with an index node at the deepest level that may be reached is refused. */
  lemma TooDeep(disk: seq<byte>, size: nat, node: seq<byte>)
    requires Parse(node).Index? && Parse(node).children != []
    ensures Flat(disk, size, node, 5).Bad?
  {
  }

  lemma {:induction false} TreesRoundTrip(disk: seq<byte>, size: nat, blocks: seq<nat>, trees: seq<Tree>, depth: nat)
    requires depth <= 5 && |blocks| == |trees|
    requires forall i :: 0 <= i < |blocks| ==>
      var block := ReadBlock(disk, size, blocks[i]);
      block.Good? && Stored(disk, size, block.value, trees[i], depth + 1)
    ensures FlatAll(disk, size, blocks, depth) == Good(Gathered(trees))
    decreases trees
  {
    if blocks != [] {
      TreeRoundTrip(disk, size, ReadBlock(disk, size, blocks[0]).value, trees[0], depth + 1);
      TreesRoundTrip(disk, size, blocks[1..], trees[1..], depth);
    }
  }

  // ------------------------------------------------------------- the walks

  /** `Whole` copies block by block from file offset zero, `Part` reads one range. */
  datatype Mode = Whole | Part(offset: nat) {
    function Base(): nat {
      if Whole? then 0 else offset
    }
  }

  /** First and last file offset of an extent, with the overflow checks. */
  function Bounds(size: nat, e: Extent): (r: Outcome<(nat, nat)>)
    ensures r.Good? ==> r.value.0 == e.logical * size && r.value.1 == e.logical * size + e.blocks * size < U64
  {
    if e.logical * size >= U64 || e.blocks * size >= U64 || e.logical * size + e.blocks * size >= U64 then Bad(Overflow)
    else Good((e.logical * size, e.logical * size + e.blocks * size))
  }

  /** The loop of `copy_extent` from its block `k` on. */
  function CopyBlocks(disk: seq<byte>, size: nat, e: Extent, out: seq<byte>, k: nat, cursor: nat,
                      end: nat): (r: Outcome<seq<byte>>)
    requires size > 0 && end <= |out|
    ensures r.Good? ==> |r.value| == |out|
    decreases end - cursor
  {
    if cursor >= end then Good(out)
    else if e.physical + k >= U64 then Bad(Overflow)
    else match ReadBlock(disk, size, e.physical + k)
      case Bad(error) => Bad(error)
      case Good(block) =>
        var n := Min(size, end - cursor);
        CopyBlocks(disk, size, e, Patch(out, cursor, block[..n]), k + 1, cursor + n, end)
  }

  function CopyExtent(disk: seq<byte>, size: nat, e: Extent, out: seq<byte>): (r: Outcome<seq<byte>>)
    requires size > 0
    ensures r.Good? ==> |r.value| == |out|
  {
    match Bounds(size, e)
    case Bad(error) => Bad(error)
    case Good((start, end)) =>
      if start >= |out| then Good(out) else CopyBlocks(disk, size, e, out, 0, start, Min(end, |out|))
  }

  function ReadPart(disk: seq<byte>, size: nat, e: Extent, offset: nat, out: seq<byte>): (r: Outcome<seq<byte>>)
    requires size > 0
    ensures r.Good? ==> |r.value| == |out|
  {
    match Bounds(size, e)
    case Bad(error) => Bad(error)
    case Good((start, end)) =>
      var from, to := Max(start, offset), Min(end, offset + |out|);
      if from >= to then Good(out)
      else if e.physical * size >= U64 || e.physical * size + (from - start) >= U64 then Bad(Overflow)
      else match ReadExact(disk, e.physical * size + (from - start), to - from)
        case Bad(error) => Bad(error)
        case Good(bytes) => Good(Patch(out, from - offset, bytes))
  }

  function Apply(disk: seq<byte>, size: nat, mode: Mode, e: Extent, out: seq<byte>): (r: Outcome<seq<byte>>)
    requires size > 0
    ensures r.Good? ==> |r.value| == |out|
  {
    if Skipped(e) then Good(out)
    else if mode.Whole? then CopyExtent(disk, size, e, out)
    else ReadPart(disk, size, e, mode.offset, out)
  }

  function ApplyAll(disk: seq<byte>, size: nat, mode: Mode, es: seq<Extent>, out: seq<byte>): (r: Outcome<seq<byte>>)
    requires size > 0
    ensures r.Good? ==> |r.value| == |out|
    decreases |es|
  {
    if es == [] then Good(out)
    else match Apply(disk, size, mode, es[0], out)
      case Bad(error) => Bad(error)
      case Good(now) => ApplyAll(disk, size, mode, es[1..], now)
  }

  function Walk(disk: seq<byte>, size: nat, mode: Mode, node: seq<byte>, depth: nat,
                out: seq<byte>): (r: Outcome<seq<byte>>)
    requires size > 0
    ensures r.Good? ==> |r.value| == |out|
    decreases MAX_EXTENT_TREE_DEPTH + 1 - depth, 1, 0
  {
    if depth > MAX_EXTENT_TREE_DEPTH then Bad(BadExtentTree)
    else match Parse(node)
      case Malformed => Bad(BadExtentTree)
      case Leaf(es) =>
        if mode.Part? && mode.offset + |out| >= U64 then Bad(Overflow) else ApplyAll(disk, size, mode, es, out)
      case Index(children) => WalkAll(disk, size, mode, children, depth, out)
  }

  function WalkAll(disk: seq<byte>, size: nat, mode: Mode, children: seq<nat>, depth: nat,
                   out: seq<byte>): (r: Outcome<seq<byte>>)
    requires size > 0 && depth <= MAX_EXTENT_TREE_DEPTH
    ensures r.Good? ==> |r.value| == |out|
    decreases MAX_EXTENT_TREE_DEPTH + 1 - depth, 0, |children|
  {
    if children == [] then Good(out)
    else match ReadBlock(disk, size, children[0])
      case Bad(error) => Bad(error)
      case Good(block) =>
        match Walk(disk, size, mode, block, depth + 1, out)
        case Bad(error) => Bad(error)
        case Good(now) => WalkAll(disk, size, mode, children[1..], depth, now)
  }

  // ---------------------------------------------- walks against the meaning

  lemma {:induction false} ByteAtConcat(disk: seq<byte>, size: nat, a: seq<Extent>, b: seq<Extent>, x: nat, hole: byte)
    ensures ByteAt(disk, size, a + b, x, hole) == ByteAt(disk, size, b, x, ByteAt(disk, size, a, x, hole))
    decreases |b|
  {
    if b == [] {
      assert a + b == a;
    } else {
      var n := |b| - 1;
      assert (a + b)[..|a + b| - 1] == a + b[..n];
      ByteAtConcat(disk, size, a, b[..n], x, hole);
    }
  }

  /** A byte at file offset `x` that was `was` is `now` after one extent was put in. */
  predicate PaintedAt(disk: seq<byte>, size: nat, e: Extent, x: nat, was: byte, now: byte) {
    if Covers(size, e, x) then Holds(disk, size, e, x) && now == disk[DiskAt(size, e, x)] else now == was
  }

  /** `now` is `out`, seen from file offset `base`, with the bytes of one extent put in. */
  ghost predicate Painted(disk: seq<byte>, size: nat, e: Extent, base: nat, out: seq<byte>, now: seq<byte>) {
    |now| == |out| && forall i :: 0 <= i < |out| ==> PaintedAt(disk, size, e, base + i, out[i], now[i])
  }

  lemma PartPaints(disk: seq<byte>, size: nat, e: Extent, offset: nat, out: seq<byte>)
    requires size > 0 && !Skipped(e) && ReadPart(disk, size, e, offset, out).Good?
    ensures Painted(disk, size, e, offset, out, ReadPart(disk, size, e, offset, out).value)
  {
    var now := ReadPart(disk, size, e, offset, out).value;
    var start, end := e.logical * size, e.logical * size + e.blocks * size;
    var from, to := Max(start, offset), Min(end, offset + |out|);
    forall i | 0 <= i < |out| ensures PaintedAt(disk, size, e, offset + i, out[i], now[i]) {
      if from < to {
        var at := e.physical * size + (from - start);
        PatchAt(out, from - offset, disk[at..at + (to - from)], i);
      }
    }
  }

  lemma PatchAt(out: seq<byte>, at: nat, bytes: seq<byte>, i: nat)
    requires at + |bytes| <= |out| && i < |out|
    ensures Patch(out, at, bytes)[i] == if at <= i < at + |bytes| then bytes[i - at] else out[i]
  {
  }

  predicate FilledAt(disk: seq<byte>, size: nat, e: Extent, from: nat, to: nat, i: nat, was: byte, now: byte)
    requires e.logical * size <= from
  {
    if from <= i < to
    then e.physical * size + (i - e.logical * size) < |disk| && now == disk[e.physical * size + (i - e.logical * size)]
    else now == was
  }

  /** Bytes `from..to` of the output come from the extent, the others are as before. */
  ghost predicate Filled(disk: seq<byte>, size: nat, e: Extent, from: nat, to: nat, out: seq<byte>, now: seq<byte>) {
    && |now| == |out| && to <= |out| && e.logical * size <= from
    && forall i :: 0 <= i < |out| ==> FilledAt(disk, size, e, from, to, i, out[i], now[i])
  }

  lemma OneBlock(disk: seq<byte>, size: nat, e: Extent, out: seq<byte>, k: nat, cursor: nat, n: nat)
    requires size > 0 && cursor + n <= |out| && n <= size && cursor == e.logical * size + k * size
    requires (e.physical + k) * size + size <= |disk|
    ensures
      var at := (e.physical + k) * size;
      Filled(disk, size, e, cursor, cursor + n, out, Patch(out, cursor, disk[at..at + size][..n]))
  {
    var at := (e.physical + k) * size;
    assert at == e.physical * size + (cursor - e.logical * size);
    var bytes := disk[at..at + size][..n];
    forall i | 0 <= i < |out|
      ensures FilledAt(disk, size, e, cursor, cursor + n, i, out[i], Patch(out, cursor, bytes)[i])
    {
      PatchAt(out, cursor, bytes, i);
    }
  }

  lemma {:induction false} CopyFills(disk: seq<byte>, size: nat, e: Extent, out: seq<byte>, k: nat, cursor: nat,
                                     end: nat)
    requires size > 0 && cursor <= end <= |out| && (cursor < end ==> cursor == e.logical * size + k * size)
    requires e.logical * size <= cursor
    requires CopyBlocks(disk, size, e, out, k, cursor, end).Good?
    ensures Filled(disk, size, e, cursor, end, out, CopyBlocks(disk, size, e, out, k, cursor, end).value)
    decreases end - cursor
  {
    if cursor < end {
      var block, n := ReadBlock(disk, size, e.physical + k).value, Min(size, end - cursor);
      var next := Patch(out, cursor, block[..n]);
      OneBlock(disk, size, e, out, k, cursor, n);
      BlocksApart(size, k, k + 1);
      var now := CopyBlocks(disk, size, e, next, k + 1, cursor + n, end).value;
      assert now == CopyBlocks(disk, size, e, out, k, cursor, end).value;
      CopyFills(disk, size, e, next, k + 1, cursor + n, end);
      FilledMore(disk, size, e, cursor, cursor + n, end, out, next, now);
    }
  }

  lemma FilledMore(disk: seq<byte>, size: nat, e: Extent, from: nat, mid: nat, to: nat, out: seq<byte>, next: seq<byte>,
                   now: seq<byte>)
    requires from <= mid <= to && Filled(disk, size, e, from, mid, out, next)
    requires Filled(disk, size, e, mid, to, next, now)
    ensures Filled(disk, size, e, from, to, out, now)
  {
    forall i | 0 <= i < |out| ensures FilledAt(disk, size, e, from, to, i, out[i], now[i]) {
      assert FilledAt(disk, size, e, from, mid, i, out[i], next[i]);
      assert FilledAt(disk, size, e, mid, to, i, next[i], now[i]);
    }
  }

  lemma WholePaints(disk: seq<byte>, size: nat, e: Extent, out: seq<byte>)
    requires size > 0 && !Skipped(e) && CopyExtent(disk, size, e, out).Good?
    ensures Painted(disk, size, e, 0, out, CopyExtent(disk, size, e, out).value)
  {
    var now := CopyExtent(disk, size, e, out).value;
    var start, end := e.logical * size, e.logical * size + e.blocks * size;
    if start < |out| {
      CopyFills(disk, size, e, out, 0, start, Min(end, |out|));
    }
    forall i | 0 <= i < |out| ensures PaintedAt(disk, size, e, 0 + i, out[i], now[i]) {
      assert start < |out| ==> FilledAt(disk, size, e, start, Min(end, |out|), i, out[i], now[i]);
    }
  }

  lemma ApplyPaints(disk: seq<byte>, size: nat, mode: Mode, e: Extent, out: seq<byte>)
    requires size > 0 && Apply(disk, size, mode, e, out).Good?
    ensures Painted(disk, size, e, mode.Base(), out, Apply(disk, size, mode, e, out).value)
  {
    if !Skipped(e) {
      if mode.Whole? { WholePaints(disk, size, e, out); } else { PartPaints(disk, size, e, mode.offset, out); }
    }
  }

  /** `now` is `out` with the file bytes that `es` holds put in. */
  ghost predicate Means(disk: seq<byte>, size: nat, es: seq<Extent>, base: nat, out: seq<byte>, now: seq<byte>) {
    |now| == |out| && forall i :: 0 <= i < |out| ==> now[i] == ByteAt(disk, size, es, base + i, out[i])
  }

  lemma MeansConcat(disk: seq<byte>, size: nat, a: seq<Extent>, b: seq<Extent>, base: nat, out: seq<byte>,
                    mid: seq<byte>, now: seq<byte>)
    requires Means(disk, size, a, base, out, mid) && Means(disk, size, b, base, mid, now)
    ensures Means(disk, size, a + b, base, out, now)
  {
    forall i | 0 <= i < |out| ensures now[i] == ByteAt(disk, size, a + b, base + i, out[i]) {
      ByteAtConcat(disk, size, a, b, base + i, out[i]);
    }
  }

  lemma PaintedMeans(disk: seq<byte>, size: nat, e: Extent, base: nat, out: seq<byte>, now: seq<byte>)
    requires Painted(disk, size, e, base, out, now)
    ensures Means(disk, size, [e], base, out, now)
  {
    forall i | 0 <= i < |out| ensures now[i] == ByteAt(disk, size, [e], base + i, out[i]) {
      assert [e][..0] == [];
      assert PaintedAt(disk, size, e, base + i, out[i], now[i]);
    }
  }

  lemma {:induction false} ApplyAllMeans(disk: seq<byte>, size: nat, mode: Mode, es: seq<Extent>, out: seq<byte>)
    requires size > 0 && ApplyAll(disk, size, mode, es, out).Good?
    ensures Means(disk, size, es, mode.Base(), out, ApplyAll(disk, size, mode, es, out).value)
    decreases |es|
  {
    if es != [] {
      var mid := Apply(disk, size, mode, es[0], out).value;
      ApplyPaints(disk, size, mode, es[0], out);
      PaintedMeans(disk, size, es[0], mode.Base(), out, mid);
      ApplyAllMeans(disk, size, mode, es[1..], mid);
      MeansConcat(disk, size, [es[0]], es[1..], mode.Base(), out, mid, ApplyAll(disk, size, mode, es, out).value);
      assert [es[0]] + es[1..] == es;
    }
  }

  /** A walk that succeeds puts in exactly what the tree holds, whichever walk it is. */
  lemma {:induction false} WalkMeans(disk: seq<byte>, size: nat, mode: Mode, node: seq<byte>, depth: nat,
                                     out: seq<byte>)
    requires size > 0 && Walk(disk, size, mode, node, depth, out).Good?
    ensures Flat(disk, size, node, depth).Good?
    ensures Means(disk, size, Flat(disk, size, node, depth).value, mode.Base(), out,
                  Walk(disk, size, mode, node, depth, out).value)
    decreases MAX_EXTENT_TREE_DEPTH + 1 - depth, 1, 0
  {
    match Parse(node)
    case Leaf(es) => ApplyAllMeans(disk, size, mode, es, out);
    case Index(children) => WalkAllMeans(disk, size, mode, children, depth, out);
  }

  lemma {:induction false} WalkAllMeans(disk: seq<byte>, size: nat, mode: Mode, children: seq<nat>, depth: nat,
                                        out: seq<byte>)
    requires size > 0 && depth <= MAX_EXTENT_TREE_DEPTH && WalkAll(disk, size, mode, children, depth, out).Good?
    ensures FlatAll(disk, size, children, depth).Good?
    ensures Means(disk, size, FlatAll(disk, size, children, depth).value, mode.Base(), out,
                  WalkAll(disk, size, mode, children, depth, out).value)
    decreases MAX_EXTENT_TREE_DEPTH + 1 - depth, 0, |children|
  {
    if children != [] {
      var block := ReadBlock(disk, size, children[0]).value;
      WalkMeans(disk, size, mode, block, depth + 1, out);
      var mid := Walk(disk, size, mode, block, depth + 1, out).value;
      WalkAllMeans(disk, size, mode, children[1..], depth, mid);
      MeansConcat(disk, size, Flat(disk, size, block, depth + 1).value, FlatAll(disk, size, children[1..], depth).value,
                  mode.Base(), out, mid, WalkAll(disk, size, mode, children, depth, out).value);
    }
  }

  // ------------------------------------------ the range walk is a slice

  function Zeros(n: nat): (r: seq<byte>)
    ensures |r| == n && forall i :: 0 <= i < n ==> r[i] == 0
  {
    seq(n, i => 0)
  }

  /** What the whole walk could read, the range walk can read. */
  lemma PartReads(disk: seq<byte>, size: nat, e: Extent, w: seq<byte>, offset: nat, p: seq<byte>)
    requires size > 0 && |disk| < U64 && offset + |p| <= |w|
    requires Apply(disk, size, Whole, e, w).Good?
    ensures Apply(disk, size, Part(offset), e, p).Good?
  {
    if !Skipped(e) {
      WholePaints(disk, size, e, w);
      var start, end := e.logical * size, e.logical * size + e.blocks * size;
      var from, to := Max(start, offset), Min(end, offset + |p|);
      if from < to {
        assert PaintedAt(disk, size, e, 0 + (to - 1), w[to - 1], CopyExtent(disk, size, e, w).value[to - 1]);
      }
    }
  }

  lemma {:induction false} PartReadsAll(disk: seq<byte>, size: nat, es: seq<Extent>, w: seq<byte>, offset: nat,
                                        p: seq<byte>)
    requires size > 0 && |disk| < U64 && offset + |p| <= |w|
    requires ApplyAll(disk, size, Whole, es, w).Good?
    ensures ApplyAll(disk, size, Part(offset), es, p).Good?
    decreases |es|
  {
    if es != [] {
      PartReads(disk, size, es[0], w, offset, p);
      PartReadsAll(disk, size, es[1..], Apply(disk, size, Whole, es[0], w).value, offset,
                   Apply(disk, size, Part(offset), es[0], p).value);
    }
  }

  lemma {:induction false} PartWalks(disk: seq<byte>, size: nat, node: seq<byte>, depth: nat, w: seq<byte>, offset: nat,
                                     p: seq<byte>)
    requires size > 0 && |disk| < U64 && |w| < U64 && offset + |p| <= |w|
    requires Walk(disk, size, Whole, node, depth, w).Good?
    ensures Walk(disk, size, Part(offset), node, depth, p).Good?
    decreases MAX_EXTENT_TREE_DEPTH + 1 - depth, 1, 0
  {
    match Parse(node)
    case Leaf(es) => PartReadsAll(disk, size, es, w, offset, p);
    case Index(children) => PartWalksAll(disk, size, children, depth, w, offset, p);
  }

  lemma {:induction false} PartWalksAll(disk: seq<byte>, size: nat, children: seq<nat>, depth: nat, w: seq<byte>,
                                        offset: nat, p: seq<byte>)
    requires size > 0 && |disk| < U64 && |w| < U64 && offset + |p| <= |w| && depth <= MAX_EXTENT_TREE_DEPTH
    requires WalkAll(disk, size, Whole, children, depth, w).Good?
    ensures WalkAll(disk, size, Part(offset), children, depth, p).Good?
    decreases MAX_EXTENT_TREE_DEPTH + 1 - depth, 0, |children|
  {
    if children != [] {
      var block := ReadBlock(disk, size, children[0]).value;
      PartWalks(disk, size, block, depth + 1, w, offset, p);
      PartWalksAll(disk, size, children[1..], depth, Walk(disk, size, Whole, block, depth + 1, w).value, offset,
                   Walk(disk, size, Part(offset), block, depth + 1, p).value);
    }
  }

  /** The byte at `x` of the file below `root`: holes and unwritten extents are zero. */
  function FileByte(disk: seq<byte>, size: nat, root: seq<byte>, x: nat): byte {
    match Flat(disk, size, root, 0)
    case Good(es) => ByteAt(disk, size, es, x, 0)
    case Bad(_) => 0
  }

  /** `bytes` is the file from `offset` on. */
  ghost predicate IsFile(disk: seq<byte>, size: nat, root: seq<byte>, offset: nat, bytes: seq<byte>) {
    forall x {:trigger FileByte(disk, size, root, x)} :: offset <= x < offset + |bytes| ==>
      bytes[x - offset] == FileByte(disk, size, root, x)
  }

  /** A walk over a zeroed buffer yields the file. */
  lemma WalkIsFile(disk: seq<byte>, size: nat, mode: Mode, root: seq<byte>, n: nat)
    requires size > 0 && Walk(disk, size, mode, root, 0, Zeros(n)).Good?
    ensures Flat(disk, size, root, 0).Good?
    ensures IsFile(disk, size, root, mode.Base(), Walk(disk, size, mode, root, 0, Zeros(n)).value)
  {
    WalkMeans(disk, size, mode, root, 0, Zeros(n));
    var bytes, es := Walk(disk, size, mode, root, 0, Zeros(n)).value, Flat(disk, size, root, 0).value;
    MeansIsFile(disk, size, root, es, mode.Base(), bytes);
  }

  lemma MeansIsFile(disk: seq<byte>, size: nat, root: seq<byte>, es: seq<Extent>, base: nat, bytes: seq<byte>)
    requires Flat(disk, size, root, 0) == Good(es) && Means(disk, size, es, base, Zeros(|bytes|), bytes)
    ensures IsFile(disk, size, root, base, bytes)
  {
    forall x | base <= x < base + |bytes| ensures bytes[x - base] == FileByte(disk, size, root, x) {
      assert bytes[x - base] == ByteAt(disk, size, es, base + (x - base), Zeros(|bytes|)[x - base]);
    }
  }

  /** Two views of one file agree where they overlap. */
  lemma Slices(disk: seq<byte>, size: nat, root: seq<byte>, offset: nat, w: seq<byte>, p: seq<byte>)
    requires offset + |p| <= |w| && IsFile(disk, size, root, 0, w) && IsFile(disk, size, root, offset, p)
    ensures p == w[offset..offset + |p|]
  {
    forall i | 0 <= i < |p| ensures p[i] == w[offset..offset + |p|][i] {
      assert p[(offset + i) - offset] == FileByte(disk, size, root, offset + i) == w[(offset + i) - 0];
    }
  }

  /** For every range inside the file the range walk returns that slice of the whole walk. */
  lemma RangeIsSlice(disk: seq<byte>, size: nat, root: seq<byte>, n: nat, offset: nat, length: nat)
    requires size > 0 && |disk| < U64 && n < U64 && offset + length <= n
    requires Walk(disk, size, Whole, root, 0, Zeros(n)).Good?
    ensures
      Walk(disk, size, Part(offset), root, 0, Zeros(length))
      == Good(Walk(disk, size, Whole, root, 0, Zeros(n)).value[offset..offset + length])
  {
    PartWalks(disk, size, root, 0, Zeros(n), offset, Zeros(length));
    var w, p := Walk(disk, size, Whole, root, 0, Zeros(n)), Walk(disk, size, Part(offset), root, 0, Zeros(length));
    WalkIsFile(disk, size, Whole, root, n);
    WalkIsFile(disk, size, Part(offset), root, length);
    Slices(disk, size, root, offset, w.value, p.value);
  }

  /** Consecutive pieces of a file make one piece. */
  lemma FileJoins(disk: seq<byte>, size: nat, root: seq<byte>, offset: nat, a: seq<byte>, b: seq<byte>)
    requires IsFile(disk, size, root, offset, a) && IsFile(disk, size, root, offset + |a|, b)
    ensures IsFile(disk, size, root, offset, a + b)
  {
  }

  lemma FileSlice(disk: seq<byte>, size: nat, root: seq<byte>, offset: nat, a: seq<byte>, from: nat, n: nat)
    requires IsFile(disk, size, root, offset, a) && from + n <= |a|
    ensures IsFile(disk, size, root, offset + from, a[from..from + n])
  {
  }

  lemma Product(a: nat, b: nat, c: nat, d: nat)
    requires a <= c && b <= d
    ensures a * b <= c * d
  {
    assert a * b <= c * b <= c * d;
  }

  /** Entries of a node are too small for the overflow checks of an extent ever to fail. */
  lemma EntryBounds(node: seq<byte>, size: nat, at: nat)
    requires 0 < size <= PAGE_SIZE && at + 12 <= |node|
    ensures Bounds(size, ExtentAt(node, at)).Good? && ExtentAt(node, at).physical * size < U64
  {
    var e := ExtentAt(node, at);
    Product(e.logical, size, 0x1_0000_0000, PAGE_SIZE);
    Product(e.blocks, size, INIT_MAX_LEN, PAGE_SIZE);
    Product(e.physical, size, 0x1_0000_0000_0000, PAGE_SIZE);
  }
}
