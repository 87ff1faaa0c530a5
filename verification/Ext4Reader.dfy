/** Reading files through extent trees and the bounded chunk cache: kernel/src/ext4.rs. */
module Ext4Reader {
  import opened BlockDevices
  import opened Ext4Extents
  import opened Machine

  const CHUNK: nat := 1024 * 1024
  const CAPACITY: nat := 512 * 1024 * 1024
  const MAX_FILE_BYTES: nat := 256 * 1024 * 1024

  /** The part of an inode that reading needs; `extents` is the EXT4_EXTENTS_FL flag. */
  datatype Inode = Inode(regular: bool, size: nat, extents: bool, block: seq<byte>)

  type ChunkKey = (nat, nat)
  type Chunks = map<ChunkKey, seq<byte>>

  /** The sum of the lengths of all stored chunks. */
  ghost function Total(chunks: Chunks): nat
    decreases |chunks|
  {
    if chunks == map[] then 0
    else
      var key :| key in chunks;
      |chunks[key]| + Total(chunks - {key})
  }

  lemma {:induction false} TotalWithout(chunks: Chunks, key: ChunkKey)
    requires key in chunks
    ensures Total(chunks) == |chunks[key]| + Total(chunks - {key})
    decreases |chunks|
  {
    var first :| first in chunks && Total(chunks) == |chunks[first]| + Total(chunks - {first});
    if first != key {
      TotalWithout(chunks - {first}, key);
      TotalWithout(chunks - {key}, first);
      assert chunks - {first} - {key} == chunks - {key} - {first};
    }
  }

  lemma TotalInserted(chunks: Chunks, key: ChunkKey, bytes: seq<byte>)
    requires key !in chunks
    ensures Total(chunks[key := bytes]) == Total(chunks) + |bytes|
  {
    assert chunks[key := bytes] - {key} == chunks;
    TotalWithout(chunks[key := bytes], key);
  }

  /** A method's result and buffer are what the specification says. */
  ghost predicate Agrees(spec: Outcome<seq<byte>>, r: Outcome<()>, out: seq<byte>) {
    if spec.Good? then r == Good(()) && out == spec.value else r == Bad(spec.error)
  }

  /** Only what lies between `low` and `high` may differ. */
  ghost predicate SameAround(was: seq<byte>, now: seq<byte>, low: nat, high: nat) {
    && |now| == |was| && low <= high <= |was|
    && (forall i :: 0 <= i < low ==> now[i] == was[i])
    && (forall i :: high <= i < |was| ==> now[i] == was[i])
  }

  lemma PatchWindow(s: seq<byte>, low: nat, high: nat, at: nat, bytes: seq<byte>)
    requires low <= high <= |s| && at + |bytes| <= high - low
    ensures
      var now := Patch(s, low + at, bytes);
      SameAround(s, now, low, high) && now[low..high] == Patch(s[low..high], at, bytes)
  {
    var now := Patch(s, low + at, bytes);
    assert |now[low..high]| == |Patch(s[low..high], at, bytes)|;
    forall i | 0 <= i < high - low ensures now[low..high][i] == Patch(s[low..high], at, bytes)[i] {
      assert now[low..high][i] == now[low + i];
    }
  }

  class Ext4 {
    const device: MemoryBlockDevice
    const blockSize: nat
    const inodes: map<nat, Inode>
    var chunks: Chunks
    var dataBytes: nat

    constructor (device: MemoryBlockDevice, blockSize: nat, inodes: map<nat, Inode>)
      requires device.Valid() && device.GeometryOk() && 0 < blockSize <= PAGE_SIZE
      ensures this.device == device && this.blockSize == blockSize && this.inodes == inodes
      ensures Mounted() && chunks == map[] && dataBytes == 0
    {
      this.device, this.blockSize, this.inodes := device, blockSize, inodes;
      chunks, dataBytes := map[], 0;
    }

    ghost predicate Mounted()
      reads device
    {
      device.Valid() && device.GeometryOk() && 0 < blockSize <= PAGE_SIZE
    }

    method ReadExactly(offset: nat, length: nat) returns (r: Outcome<seq<byte>>)
      requires Mounted()
      ensures r == ReadExact(device.data, offset, length)
    {
      var data := new byte[length](i => 0);
      var read := ReadAt(device, offset, data);
      if read.value != length {
        return Bad(ShortRead);
      }
      assert data[..] == data[..length];
      return Good(data[..]);
    }

    method ReadFsBlock(block: nat) returns (r: Outcome<seq<byte>>)
      requires Mounted()
      ensures r == ReadBlock(device.data, blockSize, block)
    {
      if block * blockSize >= U64 {
        return Bad(Overflow);
      }
      r := ReadExactly(block * blockSize, blockSize);
    }

    /** `copy_extent`: block by block into a buffer that starts at file offset zero. */
    method CopyExtentInto(e: Extent, output: array<byte>) returns (r: Outcome<()>)
      requires Mounted()
      modifies output
      ensures Agrees(CopyExtent(device.data, blockSize, e, old(output[..])), r, output[..])
    {
      var bounds := Bounds(blockSize, e);
      if bounds.Bad? {
        return Bad(bounds.error);
      }
      var (start, fileEnd) := bounds.value;
      if start >= output.Length {
        return Good(());
      }
      r := CopyBlocksInto(e, start, Min(fileEnd, output.Length), output);
    }

    /** The loop over the blocks of an extent that starts at file offset `start`. */
    method CopyBlocksInto(e: Extent, start: nat, end: nat, output: array<byte>) returns (r: Outcome<()>)
      requires Mounted() && start == e.logical * blockSize && start <= end <= output.Length
      modifies output
      ensures Agrees(CopyBlocks(device.data, blockSize, e, old(output[..]), 0, start, end), r, output[..])
    {
      var cursor := start;
      ghost var k, spec := 0, CopyBlocks(device.data, blockSize, e, output[..], 0, start, end);
      while cursor < end
        invariant start <= cursor <= end && (cursor < end ==> cursor == start + k * blockSize)
        invariant CopyBlocks(device.data, blockSize, e, output[..], k, cursor, end) == spec
      {
        var next := CopyBlockInto(e, start, end, output, cursor, k);
        if next.Bad? {
          return Bad(next.error);
        }
        BlocksApart(blockSize, k, k + 1);
        cursor, k := next.value, k + 1;
      }
      return Good(());
    }

    /** One round of that loop. */
    method CopyBlockInto(e: Extent, start: nat, end: nat, output: array<byte>, cursor: nat, ghost k: nat)
      returns (r: Outcome<nat>)
      requires Mounted() && start == e.logical * blockSize && cursor == start + k * blockSize && cursor < end
      requires end <= output.Length
      modifies output
      ensures r.Good? ==> r.value == cursor + Min(blockSize, end - cursor)
      ensures
        CopyBlocks(device.data, blockSize, e, old(output[..]), k, cursor, end)
        == if r.Bad? then Bad(r.error) else CopyBlocks(device.data, blockSize, e, output[..], k + 1, r.value, end)
    {
      var index, within := WhichBlock(cursor, start, e.logical, k);
      if e.physical + index >= U64 {
        return Bad(Overflow);
      }
      var count := Min(blockSize - within, end - cursor);
      var block := ReadFsBlock(e.physical + index);
      if block.Bad? {
        return Bad(block.error);
      }
      assert block.value[within..within + count] == block.value[..count];
      CopyInto(output, cursor, block.value[within..within + count]);
      return Good(cursor + count);
    }

    /** The block of an extent a cursor is in, and the offset in that block. */
    method WhichBlock(cursor: nat, start: nat, logical: nat, ghost k: nat) returns (index: nat, within: nat)
      requires 0 < blockSize && start == logical * blockSize && cursor == start + k * blockSize
      ensures index == k && within == 0
    {
      Divided(cursor - start, blockSize, k, 0);
      assert cursor == (logical + k) * blockSize;
      Divided(cursor, blockSize, logical + k, 0);
      index, within := (cursor - start) / blockSize, cursor % blockSize;
    }

    method CopyExtents(es: seq<Extent>, output: array<byte>) returns (r: Outcome<()>)
      requires Mounted()
      modifies output
      ensures Agrees(ApplyAll(device.data, blockSize, Whole, es, old(output[..])), r, output[..])
    {
      ghost var spec := ApplyAll(device.data, blockSize, Whole, es, output[..]);
      var i := 0;
      assert es[0..] == es;
      while i < |es|
        invariant 0 <= i <= |es| && ApplyAll(device.data, blockSize, Whole, es[i..], output[..]) == spec
      {
        assert es[i..][1..] == es[i + 1..];
        if !Skipped(es[i]) {
          r := CopyExtentInto(es[i], output);
          if r.Bad? {
            return;
          }
        }
        i := i + 1;
      }
      return Good(());
    }

    /** `read_extent_bytes`: the whole-file walk. */
    method ReadExtentBytes(node: seq<byte>, output: array<byte>, depth: nat) returns (r: Outcome<()>)
      requires Mounted()
      modifies output
      ensures Agrees(Walk(device.data, blockSize, Whole, node, depth, old(output[..])), r, output[..])
      decreases MAX_EXTENT_TREE_DEPTH + 1 - depth
    {
      if depth > MAX_EXTENT_TREE_DEPTH {
        return Bad(BadExtentTree);
      }
      match Parse(node)
      case Malformed => return Bad(BadExtentTree);
      case Leaf(es) => r := CopyExtents(es, output);
      case Index(children) =>
        ghost var spec := WalkAll(device.data, blockSize, Whole, children, depth, output[..]);
        var i := 0;
        assert children[0..] == children;
        while i < |children|
          invariant 0 <= i <= |children|
          invariant WalkAll(device.data, blockSize, Whole, children[i..], depth, output[..]) == spec
        {
          assert children[i..][1..] == children[i + 1..];
          var block := ReadFsBlock(children[i]);
          if block.Bad? {
            return Bad(block.error);
          }
          r := ReadExtentBytes(block.value, output, depth + 1);
          if r.Bad? {
            return;
          }
          i := i + 1;
        }
        return Good(());
    }

    method ReadPartInto(e: Extent, offset: nat, output: array<byte>, low: nat, high: nat) returns (r: Outcome<()>)
      requires Mounted() && low <= high <= output.Length
      modifies output
      ensures Agrees(ReadPart(device.data, blockSize, e, offset, old(output[low..high])), r, output[low..high])
      ensures SameAround(old(output[..]), output[..], low, high)
    {
      var bounds := Bounds(blockSize, e);
      if bounds.Bad? {
        return Bad(bounds.error);
      }
      var (start, end) := bounds.value;
      var from, to := Max(start, offset), Min(end, offset + (high - low));
      if from >= to {
        return Good(());
      }
      if e.physical * blockSize >= U64 || e.physical * blockSize + (from - start) >= U64 {
        return Bad(Overflow);
      }
      var bytes := ReadExactly(e.physical * blockSize + (from - start), to - from);
      if bytes.Bad? {
        return Bad(bytes.error);
      }
      FillWindow(output, low, high, from - offset, bytes.value);
      return Good(());
    }

    method FillWindow(output: array<byte>, low: nat, high: nat, at: nat, bytes: seq<byte>)
      requires low <= high <= output.Length && at + |bytes| <= high - low
      modifies output
      ensures output[low..high] == Patch(old(output[low..high]), at, bytes)
      ensures SameAround(old(output[..]), output[..], low, high)
    {
      ghost var was := output[..];
      PatchWindow(was, low, high, at, bytes);
      CopyInto(output, low + at, bytes);
      assert output[low..high] == output[..][low..high] && old(output[low..high]) == was[low..high];
    }

    method ReadParts(es: seq<Extent>, offset: nat, output: array<byte>, low: nat, high: nat) returns (r: Outcome<()>)
      requires Mounted() && low <= high <= output.Length
      modifies output
      ensures
        Agrees(ApplyAll(device.data, blockSize, Part(offset), es, old(output[low..high])), r, output[low..high])
      ensures SameAround(old(output[..]), output[..], low, high)
    {
      ghost var was, spec := output[..], ApplyAll(device.data, blockSize, Part(offset), es, output[low..high]);
      var i := 0;
      assert es[0..] == es;
      while i < |es|
        invariant 0 <= i <= |es| && SameAround(was, output[..], low, high)
        invariant ApplyAll(device.data, blockSize, Part(offset), es[i..], output[low..high]) == spec
      {
        assert es[i..][1..] == es[i + 1..];
        if !Skipped(es[i]) {
          r := ReadPartInto(es[i], offset, output, low, high);
          if r.Bad? {
            return;
          }
        }
        i := i + 1;
      }
      return Good(());
    }

    /** `read_extent_range`: only the requested bytes, into the window from `low` to `high`. */
    method ReadExtentRange(node: seq<byte>, offset: nat, output: array<byte>, low: nat, high: nat, depth: nat)
      returns (r: Outcome<()>)
      requires Mounted() && low <= high <= output.Length
      modifies output
      ensures
        Agrees(Walk(device.data, blockSize, Part(offset), node, depth, old(output[low..high])), r, output[low..high])
      ensures SameAround(old(output[..]), output[..], low, high)
      decreases MAX_EXTENT_TREE_DEPTH + 1 - depth
    {
      if depth > MAX_EXTENT_TREE_DEPTH {
        return Bad(BadExtentTree);
      }
      match Parse(node)
      case Malformed => return Bad(BadExtentTree);
      case Leaf(es) =>
        if offset + (high - low) >= U64 {
          return Bad(Overflow);
        }
        r := ReadParts(es, offset, output, low, high);
      case Index(children) =>
        ghost var was := output[..];
        ghost var spec := WalkAll(device.data, blockSize, Part(offset), children, depth, output[low..high]);
        var i := 0;
        assert children[0..] == children;
        while i < |children|
          invariant 0 <= i <= |children| && SameAround(was, output[..], low, high)
          invariant WalkAll(device.data, blockSize, Part(offset), children[i..], depth, output[low..high]) == spec
        {
          assert children[i..][1..] == children[i + 1..];
          var block := ReadFsBlock(children[i]);
          if block.Bad? {
            return Bad(block.error);
          }
          r := ReadExtentRange(block.value, offset, output, low, high, depth + 1);
          if r.Bad? {
            return;
          }
          i := i + 1;
        }
        return Good(());
    }

    // ---------------------------------------------------------- chunk cache

    function ChunkLen(size: nat, index: nat): nat
      requires index * CHUNK <= size
    {
      Min(size - index * CHUNK, CHUNK)
    }

    /** `bytes` is chunk `index` of the file `ino`. */
    ghost predicate IsChunk(ino: nat, index: nat, bytes: seq<byte>)
      reads device
    {
      && ino in inodes && index * CHUNK < inodes[ino].size && |bytes| == ChunkLen(inodes[ino].size, index)
      && IsFile(device.data, blockSize, inodes[ino].block, index * CHUNK, bytes)
    }

    /** The bookkeeping of the cache is exact and bounded, and it holds only chunks of files. */
    ghost predicate CacheOk(chunks: Chunks, dataBytes: nat)
      reads device
    {
      dataBytes == Total(chunks) <= CAPACITY && forall key :: key in chunks ==> IsChunk(key.0, key.1, chunks[key])
    }

    ghost predicate Valid()
      reads this, device
    {
      Mounted() && CacheOk(chunks, dataBytes) && forall ino :: ino in inodes ==> inodes[ino].size < U64
    }

    /** The first locked region: a hit, no room, or go and load. */
    method Lookup(key: ChunkKey, length: nat) returns (found: Option<seq<byte>>, room: bool)
      requires Valid()
      ensures found.Some? ==> IsChunk(key.0, key.1, found.value)
      ensures found == if key in chunks then Some(chunks[key]) else None
      ensures room <==> dataBytes + length <= CAPACITY
    {
      found := if key in chunks then Some(chunks[key]) else None;
      room := dataBytes + length <= CAPACITY;
    }

    /** The second locked region: keep what another thread stored, else store if it fits. */
    method Insert(key: ChunkKey, loaded: seq<byte>) returns (bytes: seq<byte>)
      requires Valid() && IsChunk(key.0, key.1, loaded)
      modifies `chunks, `dataBytes
      ensures Valid() && IsChunk(key.0, key.1, bytes)
      ensures key in old(chunks) ==> chunks == old(chunks) && bytes == old(chunks)[key]
      ensures key !in old(chunks) ==>
        && bytes == loaded
        && chunks == if old(dataBytes) + |loaded| <= CAPACITY then old(chunks)[key := loaded] else old(chunks)
    {
      if key in chunks {
        return chunks[key];
      }
      if dataBytes + |loaded| <= CAPACITY {
        TotalInserted(chunks, key, loaded);
        dataBytes := dataBytes + |loaded|;
        chunks := chunks[key := loaded];
      }
      return loaded;
    }

    /** Between two locked regions other threads may leave the cache in any state they keep valid. */
    method Interfere(others: Chunks, bytes: nat)
      requires Valid() && CacheOk(others, bytes)
      modifies `chunks, `dataBytes
      ensures Valid() && chunks == others && dataBytes == bytes
    {
      chunks, dataBytes := others, bytes;
    }

    /** `None` when the cache is full or memory is short; `others` is what the second lock finds. */
    method ReadDataChunkCached(ino: nat, index: nat, reserved: bool, others: Chunks, bytes: nat)
      returns (r: Outcome<Option<seq<byte>>>)
      requires Valid() && ino in inodes && index * CHUNK < inodes[ino].size && CacheOk(others, bytes)
      modifies `chunks, `dataBytes
      ensures Valid()
      ensures r.Good? && r.value.Some? ==> IsChunk(ino, index, r.value.value)
      ensures Intact(ino) ==> r.Good?
      ensures (ino, index) in old(chunks) ==> chunks == old(chunks) && r == Good(Some(old(chunks)[(ino, index)]))
      ensures r == Good(None) ==>
        (ino, index) !in old(chunks) && (!reserved || old(dataBytes) + ChunkLen(inodes[ino].size, index) > CAPACITY)
    {
      var length := ChunkLen(inodes[ino].size, index);
      var found, room := Lookup((ino, index), length);
      if found.Some? {
        return Good(found);
      }
      if !room || !reserved {
        return Good(None);
      }
      var loaded := LoadRange(ino, index * CHUNK, length);
      if loaded.Bad? {
        NotIntact(ino, index * CHUNK, length);
        return Bad(loaded.error);
      }
      Interfere(others, bytes);
      var kept := Insert((ino, index), loaded.value);
      return Good(Some(kept));
    }

    /** The range walk over `length` bytes from `offset` does not succeed. */
    ghost predicate RangeFails(ino: nat, offset: nat, length: nat)
      requires blockSize > 0
      reads device
    {
      ino in inodes && Walk(device.data, blockSize, Part(offset), inodes[ino].block, 0, Zeros(length)).Bad?
    }

    /** A zeroed buffer filled by the range walk holds that range of the file. */
    method LoadRange(ino: nat, offset: nat, length: nat) returns (r: Outcome<seq<byte>>)
      requires Mounted() && ino in inodes
      ensures r.Bad? <==> RangeFails(ino, offset, length)
      ensures r.Good? ==> |r.value| == length && IsFile(device.data, blockSize, inodes[ino].block, offset, r.value)
    {
      var data := new byte[length](i => 0);
      assert data[..] == Zeros(length);
      assert data[0..length] == data[..];
      var walked := ReadExtentRange(inodes[ino].block, offset, data, 0, length, 0);
      assert data[0..length] == data[..];
      if walked.Bad? {
        return Bad(walked.error);
      }
      WalkIsFile(device.data, blockSize, Part(offset), inodes[ino].block, length);
      return Good(data[..]);
    }

    predicate Readable(ino: nat) {
      ino in inodes && inodes[ino].regular
    }

    function Count(ino: nat, offset: nat, length: nat): nat
      requires ino in inodes
    {
      if offset >= inodes[ino].size then 0 else Min(inodes[ino].size - offset, length)
    }

    /** The whole-file walk succeeds on a buffer of the file's size. */
    ghost predicate Intact(ino: nat)
      requires blockSize > 0
      reads device
    {
      ino in inodes && Walk(device.data, blockSize, Whole, inodes[ino].block, 0, Zeros(inodes[ino].size)).Good?
    }

    /** No range of an intact file fails. */
    lemma IntactRanges(ino: nat, offset: nat, length: nat)
      requires Valid() && Intact(ino) && offset + length <= inodes[ino].size
      ensures !RangeFails(ino, offset, length)
    {
      PartWalks(device.data, blockSize, inodes[ino].block, 0, Zeros(inodes[ino].size), offset, Zeros(length));
    }

    /** What the whole-file walk makes of an intact file. */
    ghost function WholeFile(ino: nat): (bytes: seq<byte>)
      requires blockSize > 0 && Intact(ino)
      reads device
      ensures |bytes| == inodes[ino].size
    {
      Walk(device.data, blockSize, Whole, inodes[ino].block, 0, Zeros(inodes[ino].size)).value
    }

    /** Every piece of an intact file is that slice of the whole-file walk. */
    lemma SliceOfWhole(ino: nat, offset: nat, bytes: seq<byte>)
      requires Mounted() && Intact(ino) && offset + |bytes| <= inodes[ino].size
      requires IsFile(device.data, blockSize, inodes[ino].block, offset, bytes)
      ensures bytes == WholeFile(ino)[offset..offset + |bytes|]
    {
      WalkIsFile(device.data, blockSize, Whole, inodes[ino].block, inodes[ino].size);
      Slices(device.data, blockSize, inodes[ino].block, offset, WholeFile(ino), bytes);
    }

    /** `read_inode_bytes`: the whole file in one buffer. */
    method ReadInodeBytes(ino: nat) returns (r: Outcome<seq<byte>>)
      requires Mounted() && ino in inodes
      ensures inodes[ino].size > MAX_FILE_BYTES ==> r == Bad(FileTooLarge)
      ensures 0 < inodes[ino].size <= MAX_FILE_BYTES && !inodes[ino].extents ==> r == Bad(Unsupported)
      ensures inodes[ino].size == 0 ==> r == Good([])
      ensures 0 < inodes[ino].size <= MAX_FILE_BYTES && inodes[ino].extents ==> (r.Good? <==> Intact(ino))
      ensures r.Good? && inodes[ino].size > 0 ==> Intact(ino) && r.value == WholeFile(ino)
    {
      if inodes[ino].size > MAX_FILE_BYTES {
        return Bad(FileTooLarge);
      }
      var data := new byte[inodes[ino].size](i => 0);
      assert data[..] == Zeros(inodes[ino].size);
      if inodes[ino].size == 0 {
        return Good(data[..]);
      }
      if !inodes[ino].extents {
        return Bad(Unsupported);
      }
      var walked := ReadExtentBytes(inodes[ino].block, data, 0);
      return if walked.Bad? then Bad(walked.error) else Good(data[..]);
    }

    /** One round of the read loop: part of a chunk, or nothing when there is no chunk. */
    method NextPiece(ino: nat, current: nat, room: nat, reserved: bool, others: (Chunks, nat))
      returns (r: Outcome<Option<seq<byte>>>)
      requires Valid() && ino in inodes && 0 < room && current + room <= inodes[ino].size && CacheOk(others.0, others.1)
      modifies `chunks, `dataBytes
      ensures Valid() && (Intact(ino) ==> r.Good?)
      ensures r.Good? && r.value.Some? ==> 0 < |r.value.value| <= room
      ensures r.Good? && r.value.Some? ==>
        IsFile(device.data, blockSize, inodes[ino].block, current, r.value.value)
    {
      var index, within, length := LocateChunk(current, inodes[ino].size);
      var chunk := ReadDataChunkCached(ino, index, reserved, others.0, others.1);
      if chunk.Bad? || chunk.value.None? {
        return chunk;
      }
      var n := Min(room, length - within);
      FileSlice(device.data, blockSize, inodes[ino].block, index * CHUNK, chunk.value.value, within, n);
      return Good(Some(chunk.value.value[within..within + n]));
    }

    lemma NotIntact(ino: nat, offset: nat, length: nat)
      requires Valid() && RangeFails(ino, offset, length) && offset + length <= inodes[ino].size
      ensures !Intact(ino)
    {
      if Intact(ino) { IntactRanges(ino, offset, length); }
    }

    /** The chunk a file position is in. */
    method LocateChunk(current: nat, size: nat) returns (index: nat, within: nat, length: nat)
      requires current < size
      ensures index * CHUNK + within == current && within < length && index * CHUNK + length <= size
      ensures length == ChunkLen(size, index)
    {
      index := current / CHUNK;
      within, length := current - index * CHUNK, ChunkLen(size, index);
    }

    /** Without a chunk the rest of the request is read directly, over the zeros it still holds. */
    method ReadRest(ino: nat, offset: nat, output: array<byte>, copied: nat, count: nat) returns (r: Outcome<nat>)
      requires Valid() && ino in inodes && copied <= count <= output.Length && offset + count <= inodes[ino].size
      requires output[copied..count] == Zeros(count - copied)
      requires IsFile(device.data, blockSize, inodes[ino].block, offset, output[..copied])
      modifies output
      ensures Intact(ino) ==> r.Good?
      ensures r.Good? ==> r.value == count && IsFile(device.data, blockSize, inodes[ino].block, offset, output[..count])
      ensures output[count..] == old(output[count..])
    {
      ghost var before := output[..];
      var walked := ReadExtentRange(inodes[ino].block, offset + copied, output, copied, count, 0);
      ghost var after := output[..];
      assert output[count..] == after[count..] && before[count..] == after[count..];
      if walked.Bad? {
        assert RangeFails(ino, offset + copied, count - copied);
        NotIntact(ino, offset + copied, count - copied);
        return Bad(walked.error);
      }
      WalkIsFile(device.data, blockSize, Part(offset + copied), inodes[ino].block, count - copied);
      FileJoins(device.data, blockSize, inodes[ino].block, offset, before[..copied], output[copied..count]);
      assert output[..count] == before[..copied] + output[copied..count];
      return Good(count);
    }

    lemma StillZero(was: seq<byte>, now: seq<byte>, copied: nat, n: nat, count: nat)
      requires copied + n <= count <= |was| == |now| && was[copied..count] == Zeros(count - copied)
      requires now[copied + n..] == was[copied + n..]
      ensures now[copied + n..count] == Zeros(count - copied - n)
    {
      var part := now[copied + n..count];
      forall i | 0 <= i < |part| ensures part[i] == 0 {
        assert now[copied + n + i] == now[copied + n..][i] == was[copied + n..][i] == was[copied + n + i];
        assert was[copied + n + i] == was[copied..count][n + i];
      }
    }

    method Append(ino: nat, offset: nat, output: array<byte>, copied: nat, bytes: seq<byte>)
      requires ino in inodes && copied + |bytes| <= output.Length
      requires IsFile(device.data, blockSize, inodes[ino].block, offset, output[..copied])
      requires IsFile(device.data, blockSize, inodes[ino].block, offset + copied, bytes)
      modifies output
      ensures IsFile(device.data, blockSize, inodes[ino].block, offset, output[..copied + |bytes|])
      ensures output[copied + |bytes|..] == old(output[copied + |bytes|..])
    {
      ghost var before := output[..];
      FileJoins(device.data, blockSize, inodes[ino].block, offset, output[..copied], bytes);
      CopyInto(output, copied, bytes);
      Patched(before, copied, bytes);
      assert output[..copied + |bytes|] == before[..copied] + bytes;
    }

    /**
     `read_inode_at`, for every state the cache may be found in at each lock
     (`others`) and every outcome of the chunk allocations (`reserved`).
     */
    method ReadInodeAt(ino: nat, offset: nat, output: array<byte>, reserved: nat -> bool, others: nat -> (Chunks, nat))
      returns (r: Outcome<nat>)
      requires Valid() && forall i :: CacheOk(others(i).0, others(i).1)
      modifies `chunks, `dataBytes, output
      ensures Valid()
      ensures ino !in inodes || !inodes[ino].regular ==> r == Bad(BadInode)
      ensures Readable(ino) && Count(ino, offset, output.Length) > 0 && !inodes[ino].extents ==> r == Bad(Unsupported)
      ensures Readable(ino) && inodes[ino].extents && Intact(ino) ==> r.Good?
      ensures r.Good? ==>
        ino in inodes && inodes[ino].regular && r.value == Count(ino, offset, output.Length)
      ensures r.Good? ==> IsFile(device.data, blockSize, inodes[ino].block, offset, output[..r.value])
      ensures r.Good? && r.value > 0 && Intact(ino) ==> output[..r.value] == WholeFile(ino)[offset..offset + r.value]
      ensures r.Good? ==> output[r.value..] == old(output[r.value..])
    {
      if !Readable(ino) {
        return Bad(BadInode);
      }
      var size := inodes[ino].size;
      if offset >= size || output.Length == 0 {
        return Good(0);
      }
      var count := Min(size - offset, output.Length);
      CopyInto(output, 0, Zeros(count));
      assert output[0..count] == Zeros(count);
      if !inodes[ino].extents {
        return Bad(Unsupported);
      }
      r := ReadChunks(ino, offset, output, count, reserved, others);
      if r.Good? && Intact(ino) {
        SliceOfWhole(ino, offset, output[..count]);
      }
    }

    method ReadChunks(ino: nat, offset: nat, output: array<byte>, count: nat, reserved: nat -> bool,
                      others: nat -> (Chunks, nat))
      returns (r: Outcome<nat>)
      requires Valid() && ino in inodes && 0 < count <= output.Length && offset + count <= inodes[ino].size
      requires forall i :: CacheOk(others(i).0, others(i).1)
      requires output[0..count] == Zeros(count)
      modifies `chunks, `dataBytes, output
      ensures Valid() && (Intact(ino) ==> r.Good?) && output[count..] == old(output[count..])
      ensures r.Good? ==> r.value == count && IsFile(device.data, blockSize, inodes[ino].block, offset, output[..count])
    {
      var copied, round := 0, 0;
      ghost var rest := output[count..];
      while copied < count
        invariant 0 <= copied <= count && Valid() && output[count..] == rest
        invariant IsFile(device.data, blockSize, inodes[ino].block, offset, output[..copied])
        invariant output[copied..count] == Zeros(count - copied)
        decreases count - copied
      {
        Interfere(others(2 * round).0, others(2 * round).1);
        var piece := NextPiece(ino, offset + copied, count - copied, reserved(round), others(2 * round + 1));
        if piece.Bad? {
          return Bad(piece.error);
        }
        if piece.value.None? {
          r := ReadRest(ino, offset, output, copied, count);
          return;
        }
        ghost var behind := output[..];
        Append(ino, offset, output, copied, piece.value.value);
        StillZero(behind, output[..], copied, |piece.value.value|, count);
        copied, round := copied + |piece.value.value|, round + 1;
      }
      return Good(count);
    }
  }
}
