/** Block devices and byte-wise access to them: kernel/src/block.rs. */
module BlockDevices {
  import opened Machine

  datatype BlockError =
    AddressOverflow | BadBlockSize | BufferTooSmall | DeviceReadOnly | InvalidArgument | OutOfRange

  datatype Result<T> = Ok(value: T) | Err(error: BlockError)

  predicate PowerOfTwo(n: nat) {
    n == 1 || (n > 1 && n % 2 == 0 && PowerOfTwo(n / 2))
  }

  function TwoTo(k: nat): nat {
    if k == 0 then 1 else 2 * TwoTo(k - 1)
  }

  lemma {:induction false} ExponentOf(n: nat) returns (k: nat)
    requires PowerOfTwo(n)
    ensures TwoTo(k) == n
  {
    k := 0;
    if n > 1 {
      k := ExponentOf(n / 2);
      k := k + 1;
    }
  }

  lemma {:induction false} TwoToIsPower(k: nat)
    ensures PowerOfTwo(TwoTo(k)) && TwoTo(k) > 0
  {
    if k > 0 {
      TwoToIsPower(k - 1);
    }
  }

  /** The block sizes a device may have. */
  lemma PowersOfTwo(n: nat)
    ensures PowerOfTwo(n) <==> exists k :: TwoTo(k) == n
  {
    if PowerOfTwo(n) {
      var k := ExponentOf(n);
    }
    forall k | TwoTo(k) == n ensures PowerOfTwo(n) {
      TwoToIsPower(k);
    }
  }

  // ------------------------------------------------------------- geometry

  lemma InsideDevice(size: nat, count: nat, b: nat)
    requires b < count
    ensures b * size + size == (b + 1) * size <= count * size
  {
    BlocksApart(size, b, count);
  }

  /** The bytes of block `b`. */
  function BlockOf(data: seq<byte>, size: nat, count: nat, b: nat): (r: seq<byte>)
    requires |data| == count * size && b < count
    ensures |r| == size
  {
    InsideDevice(size, count, b);
    data[b * size..(b + 1) * size]
  }

  function Patch(data: seq<byte>, at: nat, bytes: seq<byte>): (r: seq<byte>)
    requires at + |bytes| <= |data|
    ensures |r| == |data|
  {
    data[..at] + bytes + data[at + |bytes|..]
  }

  lemma Patched(data: seq<byte>, at: nat, bytes: seq<byte>)
    requires at + |bytes| <= |data|
    ensures Patch(data, at, bytes)[..at + |bytes|] == data[..at] + bytes
    ensures Patch(data, at, bytes)[at + |bytes|..] == data[at + |bytes|..]
  {
  }

  /** Distinct blocks do not overlap. */
  lemma BlocksApart(size: nat, b: nat, c: nat)
    requires b < c
    ensures b * size + size == (b + 1) * size <= c * size
  {
    var rest := c - (b + 1);
    assert c * size == (b + 1) * size + rest * size;
  }

  lemma PatchedBlock(data: seq<byte>, size: nat, count: nat, b: nat, bytes: seq<byte>, c: nat)
    requires |data| == count * size && b < count && c < count && |bytes| == size
    ensures b * size + size <= |data|
    ensures BlockOf(Patch(data, b * size, bytes), size, count, c) ==
      if c == b then bytes else BlockOf(data, size, count, c)
  {
    InsideDevice(size, count, b);
    InsideDevice(size, count, c);
    if c < b {
      BlocksApart(size, c, b);
    } else if b < c {
      BlocksApart(size, b, c);
    }
  }

  // --------------------------------------------------------------- device

  class MemoryBlockDevice {
    const blockSize: nat
    const blockCount: nat
    const readOnly: bool
    var data: seq<byte>

    ghost predicate Valid()
      reads this
    {
      && 0 < blockSize && 0 < blockCount
      && blockCount * blockSize < U64 && |data| == blockCount * blockSize
    }

    /** `MemoryBlockDevice::new`; `readOnly` lets the device stand for one that refuses writes. */
    static method Create(blockSize: nat, blockCount: nat, readOnly: bool) returns (r: Result<MemoryBlockDevice>)
      ensures r.Ok? <==> PowerOfTwo(blockSize) && blockCount != 0 && blockCount * blockSize < U64
      ensures r.Err? ==> r.error == if PowerOfTwo(blockSize) && blockCount != 0 then AddressOverflow else BadBlockSize
      ensures r.Ok? ==> fresh(r.value) && r.value.Valid() && r.value.data == seq(blockCount * blockSize, i => 0)
      ensures r.Ok? ==>
        r.value.blockSize == blockSize && r.value.blockCount == blockCount && r.value.readOnly == readOnly
    {
      if blockSize == 0 || !PowerOfTwo(blockSize) || blockCount == 0 {
        return Err(BadBlockSize);
      }
      if blockCount * blockSize >= U64 {
        return Err(AddressOverflow);
      }
      var device := new MemoryBlockDevice(blockSize, blockCount, readOnly);
      return Ok(device);
    }

    /** `validate_device_geometry`. */
    predicate GeometryOk() {
      blockSize != 0 && PowerOfTwo(blockSize) && blockSize <= PAGE_SIZE
    }

    constructor (blockSize: nat, blockCount: nat, readOnly: bool)
      requires 0 < blockSize && 0 < blockCount && blockCount * blockSize < U64
      ensures Valid() && this.blockSize == blockSize && this.blockCount == blockCount && this.readOnly == readOnly
      ensures data == seq(blockCount * blockSize, i => 0)
    {
      this.blockSize, this.blockCount, this.readOnly := blockSize, blockCount, readOnly;
      this.data := seq(blockCount * blockSize, i => 0);
    }

    /** The device as an array of blocks. */
    ghost function Blocks(): (r: seq<seq<byte>>)
      requires Valid()
      reads this
      ensures |r| == blockCount && forall b :: 0 <= b < blockCount ==> |r[b]| == blockSize
    {
      seq(blockCount, b requires 0 <= b < blockCount && |data| == blockCount * blockSize reads this =>
        BlockOf(data, blockSize, blockCount, b))
    }

    method ReadBlock(block: nat, length: nat) returns (r: Result<seq<byte>>)
      requires Valid()
      ensures r.Ok? <==> length == blockSize && block < blockCount
      ensures r.Ok? ==> r.value == Blocks()[block] && block * blockSize + blockSize <= |data|
                        && r.value == data[block * blockSize..block * blockSize + blockSize]
      ensures r.Err? ==> r.error == if length != blockSize then BufferTooSmall else OutOfRange
    {
      if length != blockSize {
        return Err(BufferTooSmall);
      }
      if block >= blockCount {
        return Err(OutOfRange);
      }
      InsideDevice(blockSize, blockCount, block);
      return Ok(data[block * blockSize..(block + 1) * blockSize]);
    }

    method WriteBlock(block: nat, input: seq<byte>) returns (r: Result<()>)
      requires Valid()
      modifies this
      ensures Valid()
      ensures r.Ok? <==> !readOnly && |input| == blockSize && block < blockCount
      ensures r.Err? ==>
        && data == old(data)
        && r.error == if readOnly then DeviceReadOnly else if |input| != blockSize then BufferTooSmall else OutOfRange
      ensures r.Ok? ==> Blocks() == old(Blocks())[block := input]
      ensures r.Ok? ==>
        block * blockSize + blockSize <= |old(data)| && data == Patch(old(data), block * blockSize, input)
    {
      if readOnly {
        return Err(DeviceReadOnly);
      }
      if |input| != blockSize {
        return Err(BufferTooSmall);
      }
      if block >= blockCount {
        return Err(OutOfRange);
      }
      ghost var was, before := data, Blocks();
      InsideDevice(blockSize, blockCount, block);
      data := data[..block * blockSize] + input + data[(block + 1) * blockSize..];
      forall c | 0 <= c < blockCount ensures Blocks()[c] == before[block := input][c] {
        PatchedBlock(was, blockSize, blockCount, block, input, c);
      }
      return Ok(());
    }

    /** `read_blocks`: consecutive blocks into one buffer. */
    method ReadBlocks(block: nat, length: nat) returns (r: Result<seq<byte>>)
      requires Valid()
      ensures length == 0 || length % blockSize != 0 ==> r == Err(BadBlockSize)
      ensures length != 0 && length % blockSize == 0 && block * blockSize + length <= |data| ==>
        r == Ok(data[block * blockSize..block * blockSize + length])
      ensures r.Ok? ==> block * blockSize + length <= |data|
      ensures length != 0 && length % blockSize == 0 && r.Err? ==>
        r.error == if block < U64 then OutOfRange else AddressOverflow
    {
      if length == 0 || length % blockSize != 0 {
        return Err(BadBlockSize);
      }
      var bytes: seq<byte> := [];
      var index := 0;
      var n := length / blockSize;
      ghost var base, at := block * blockSize, block * blockSize;
      Rows(blockSize, block, n, length);
      Countable(blockSize, blockCount);
      while index < n
        invariant 0 <= index <= n && at == (block + index) * blockSize && |bytes| == at - base
        invariant base + length == (block + n) * blockSize && (index == 0 || at <= |data|)
        invariant index == 0 || block + index <= blockCount
        invariant base + length <= |data| ==> at <= base + length && bytes == data[base..at]
      {
        InsideDevice(blockSize, block + n, block + index);
        if block + index >= U64 {
          Reaches(blockSize, blockCount, block + index, base + length);
          return Err(AddressOverflow);
        }
        var chunk := ReadBlock(block + index, blockSize);
        if chunk.Err? {
          Reaches(blockSize, blockCount, block + index, base + length);
          return chunk;
        }
        bytes := bytes + chunk.value;
        index, at := index + 1, at + blockSize;
      }
      return Ok(bytes);
    }
  }

  lemma Rows(size: nat, block: nat, n: nat, length: nat)
    requires 0 < size && n == length / size && length % size == 0
    ensures block * size + length == (block + n) * size
  {
  }

  /** A transfer that fits the device stays below the block count. */
  lemma Countable(size: nat, count: nat)
    requires 0 < size && count * size < U64
    ensures count < U64
  {
    assert count * 1 <= count * size;
  }

  lemma Reaches(size: nat, count: nat, b: nat, end: nat)
    requires 0 < size && b * size + size <= end && count * size < U64
    ensures end <= count * size ==> b < count < U64
  {
    Countable(size, count);
    if count <= b {
      var more := b - count;
      assert b * size == count * size + more * size;
    }
  }

  // -------------------------------------------------------------- byte I/O

  /** How many bytes a transfer of `length` bytes at `offset` moves. */
  function Span(size: nat, offset: nat, length: nat): nat {
    if offset >= size then 0 else Min(length, size - offset)
  }

  /** Division with remainder has one answer. */
  lemma Divided(x: nat, size: nat, q: nat, r: nat)
    requires 0 < size && x == q * size + r && r < size
    ensures x / size == q && x % size == r
  {
    var q', r' := x / size, x % size;
    if q < q' {
      BlocksApart(size, q, q');
    } else if q' < q {
      BlocksApart(size, q', q);
    }
  }

  /** A cursor splits into a block and an offset in it. */
  method Split(size: nat, count: nat, cursor: nat) returns (block: nat, start: nat)
    requires 0 < size && cursor < count * size
    ensures cursor == block * size + start && start < size && block < count && block * size + size <= count * size
  {
    block, start := cursor / size, cursor % size;
    assert count <= block ==> count * size <= block * size;
    InsideDevice(size, count, block);
  }

  /** The largest multiple of the block size that fits. */
  method WholeBlocks(size: nat, room: nat) returns (bulk: nat)
    requires 0 < size
    ensures bulk <= room && bulk % size == 0 && room < bulk + size
  {
    bulk := room / size * size;
    Divided(bulk, size, room / size, 0);
  }

  method ReadAt(device: MemoryBlockDevice, offset: nat, output: array<byte>) returns (r: Result<nat>)
    requires device.Valid()
    modifies output
    ensures r == if !device.GeometryOk() then Err(BadBlockSize) else Ok(Span(|device.data|, offset, output.Length))
    ensures r.Ok? ==> r.value <= output.Length
    ensures r.Ok? && r.value > 0 ==> output[..r.value] == device.data[offset..offset + r.value]
    ensures r.Ok? ==> output[r.value..] == old(output[r.value..])
  {
    if !device.GeometryOk() {
      return Err(BadBlockSize);
    }
    var size := device.blockCount * device.blockSize;
    if offset >= size {
      return Ok(0);
    }
    var done, cursor := 0, offset;
    while done < output.Length && cursor < size
      invariant 0 <= done <= output.Length && cursor == offset + done <= size
      invariant output[..done] == device.data[offset..cursor]
      invariant output[done..] == old(output[done..])
      decreases output.Length - done
    {
      var bytes := ReadChunk(device, cursor, Min(output.Length - done, size - cursor));
      CopyInto(output, done, bytes);
      done, cursor := done + |bytes|, cursor + |bytes|;
    }
    return Ok(done);
  }

  /** One round of the read loop: whole blocks where possible, else part of one block. */
  method ReadChunk(device: MemoryBlockDevice, cursor: nat, room: nat) returns (bytes: seq<byte>)
    requires device.Valid() && 0 < room && cursor + room <= |device.data|
    ensures 0 < |bytes| <= room && bytes == device.data[cursor..cursor + |bytes|]
  {
    var block, start := Split(device.blockSize, device.blockCount, cursor);
    if start == 0 {
      var bulk := WholeBlocks(device.blockSize, room);
      if bulk != 0 {
        var whole := device.ReadBlocks(block, bulk);
        return whole.value;
      }
    }
    var count := Min(device.blockSize - start, room);
    var scratch := device.ReadBlock(block, device.blockSize);
    SliceOfSlice(device.data, block * device.blockSize, device.blockSize, start, count);
    return scratch.value[start..start + count];
  }

  lemma SliceOfSlice(data: seq<byte>, base: nat, size: nat, start: nat, count: nat)
    requires base + size <= |data| && start + count <= size
    ensures data[base..base + size][start..start + count] == data[base + start..base + start + count]
  {
    var left := data[base..base + size][start..start + count];
    var right := data[base + start..base + start + count];
    assert |left| == |right| == count;
    forall i | 0 <= i < count
      ensures left[i] == right[i]
    {
      assert left[i] == data[base..base + size][start + i] == data[base + start + i];
    }
  }

  method CopyInto(output: array<byte>, at: nat, bytes: seq<byte>)
    requires at + |bytes| <= output.Length
    modifies output
    ensures output[..] == Patch(old(output[..]), at, bytes)
  {
    var i := 0;
    while i < |bytes|
      invariant 0 <= i <= |bytes|
      invariant output[..] == Patch(old(output[..]), at, bytes[..i])
    {
      assert bytes[..i + 1] == bytes[..i] + [bytes[i]];
      output[at + i] := bytes[i];
      i := i + 1;
    }
    assert bytes[..i] == bytes;
  }

  method WriteAt(device: MemoryBlockDevice, offset: nat, input: seq<byte>) returns (r: Result<nat>)
    requires device.Valid()
    modifies device
    ensures device.Valid()
    ensures
      var n := Span(|old(device.data)|, offset, |input|);
      if !device.GeometryOk() then r == Err(BadBlockSize) && device.data == old(device.data)
      else if device.readOnly && n > 0 then r == Err(DeviceReadOnly) && device.data == old(device.data)
      else r == Ok(n) && device.data == if n == 0 then old(device.data) else Patch(old(device.data), offset, input[..n])
  {
    if !device.GeometryOk() {
      return Err(BadBlockSize);
    }
    var size := device.blockCount * device.blockSize;
    if offset >= size {
      return Ok(0);
    }
    ghost var was := device.data;
    var written, cursor := 0, offset;
    assert was == Patch(was, offset, input[..0]);
    while written < |input| && cursor < size
      invariant 0 <= written <= |input| && cursor == offset + written <= size
      invariant device.Valid() && device.data == Patch(was, offset, input[..written])
      invariant written > 0 ==> !device.readOnly
      decreases |input| - written
    {
      var wrote := WriteChunk(device, cursor, input, written);
      if wrote.Err? {
        return Err(wrote.error);
      }
      PatchMore(was, offset, input, written, wrote.value);
      written, cursor := written + wrote.value, cursor + wrote.value;
    }
    return Ok(written);
  }

  /** One round of the write loop: read a block, change part of it, write it back. */
  method WriteChunk(device: MemoryBlockDevice, cursor: nat, input: seq<byte>, written: nat) returns (r: Result<nat>)
    requires device.Valid() && written < |input| && cursor < |device.data|
    modifies device
    ensures device.Valid()
    ensures r.Err? <==> device.readOnly
    ensures r.Err? ==> r.error == DeviceReadOnly && device.data == old(device.data)
    ensures r.Ok? ==> 0 < r.value && written + r.value <= |input| && cursor + r.value <= |old(device.data)|
    ensures r.Ok? ==> device.data == Patch(old(device.data), cursor, input[written..written + r.value])
  {
    var block, start := Split(device.blockSize, device.blockCount, cursor);
    var count := Min(Min(device.blockSize - start, |input| - written), |device.data| - cursor);
    r := PatchBlock(device, block, start, input[written..written + count]);
  }

  method PatchBlock(device: MemoryBlockDevice, block: nat, start: nat, piece: seq<byte>) returns (r: Result<nat>)
    requires device.Valid() && block < device.blockCount && start + |piece| <= device.blockSize
    modifies device
    ensures device.Valid()
    ensures r == if device.readOnly then Err(DeviceReadOnly) else Ok(|piece|)
    ensures r.Err? ==> device.data == old(device.data)
    ensures r.Ok? ==> block * device.blockSize + start + |piece| <= |old(device.data)|
    ensures r.Ok? ==> device.data == Patch(old(device.data), block * device.blockSize + start, piece)
  {
    var scratch := device.ReadBlock(block, device.blockSize);
    PatchThrough(device.data, block * device.blockSize, device.blockSize, start, piece);
    var wrote := device.WriteBlock(block, Patch(scratch.value, start, piece));
    return if wrote.Err? then Err(wrote.error) else Ok(|piece|);
  }

  /** Patching inside a block and writing the block back patches the device. */
  lemma PatchThrough(data: seq<byte>, base: nat, size: nat, start: nat, bytes: seq<byte>)
    requires base + size <= |data| && start + |bytes| <= size
    ensures Patch(data, base, Patch(data[base..base + size], start, bytes)) == Patch(data, base + start, bytes)
  {
  }

  /** Two adjacent patches are one. */
  lemma PatchMore(data: seq<byte>, at: nat, bytes: seq<byte>, done: nat, count: nat)
    requires at + done + count <= |data| && done + count <= |bytes|
    ensures
      Patch(Patch(data, at, bytes[..done]), at + done, bytes[done..done + count])
      == Patch(data, at, bytes[..done + count])
  {
  }

  /** What was written is read back, and every other byte is as before. */
  method WriteThenRead(device: MemoryBlockDevice, offset: nat, input: seq<byte>, output: array<byte>)
    returns (r: Result<nat>)
    requires device.Valid() && !device.readOnly && device.GeometryOk() && output.Length == |input|
    modifies device, output
    ensures device.Valid() && r == Ok(Span(|old(device.data)|, offset, |input|))
    ensures output[..r.value] == input[..r.value]
  {
    var wrote := WriteAt(device, offset, input);
    r := ReadAt(device, offset, output);
  }
}
