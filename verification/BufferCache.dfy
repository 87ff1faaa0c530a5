/** The write-back buffer cache and the page cache of kernel/src/block.rs. */
module BufferCaches {
  import opened BlockDevices
  import opened Machine

  type Block = seq<byte>

  datatype CachedBlock = CachedBlock(block: nat, valid: bool, dirty: bool, age: nat, data: Block)

  // ------------------------------------------------------- facts on values

  predicate Holds(e: CachedBlock, b: nat) {
    e.valid && e.block == b
  }

  ghost predicate Cached(entries: seq<CachedBlock>, b: nat) {
    exists i :: 0 <= i < |entries| && Holds(entries[i], b)
  }

  /** No block is cached twice. */
  ghost predicate Unique(entries: seq<CachedBlock>) {
    forall i, j :: 0 <= i < j < |entries| && entries[i].valid && entries[j].valid ==>
      entries[i].block != entries[j].block
  }

  /** A clean entry equals the device. */
  ghost predicate CleanAgrees(entries: seq<CachedBlock>, blocks: seq<Block>) {
    forall i :: 0 <= i < |entries| && entries[i].valid && !entries[i].dirty ==>
      entries[i].block < |blocks| && entries[i].data == blocks[entries[i].block]
  }

  /** The cache over the device shows `contents`: cached blocks as cached, the others as stored. */
  ghost predicate Shows(entries: seq<CachedBlock>, blocks: seq<Block>, contents: seq<Block>) {
    && |contents| == |blocks|
    && (forall i :: 0 <= i < |entries| && entries[i].valid ==>
          entries[i].block < |contents| && contents[entries[i].block] == entries[i].data)
    && (forall b :: 0 <= b < |blocks| && !Cached(entries, b) ==> contents[b] == blocks[b])
  }

  ghost predicate Coherent(entries: seq<CachedBlock>, blocks: seq<Block>, contents: seq<Block>) {
    Unique(entries) && CleanAgrees(entries, blocks) && Shows(entries, blocks, contents)
  }

  /** Cache and device leave no choice about what is shown. */
  lemma ShownOnce(entries: seq<CachedBlock>, blocks: seq<Block>, a: seq<Block>, b: seq<Block>)
    requires Shows(entries, blocks, a) && Shows(entries, blocks, b)
    ensures a == b
  {
    forall x | 0 <= x < |a| ensures a[x] == b[x] {
      if Cached(entries, x) {
        var i :| 0 <= i < |entries| && Holds(entries[i], x);
      }
    }
  }

  /** Replacing an entry leaves the blocks of the others cached. */
  lemma StillCached(entries: seq<CachedBlock>, i: nat, e: CachedBlock, b: nat)
    requires i < |entries| && Cached(entries, b)
    ensures (Holds(entries[i], b) && !Holds(e, b)) || Cached(entries[i := e], b)
  {
    var k :| 0 <= k < |entries| && Holds(entries[k], b);
    assert Holds(entries[i := e][k], b) || (k == i && !Holds(e, b));
  }

  /** Writing a dirty entry back makes it clean and shows the same. */
  lemma WriteBack(entries: seq<CachedBlock>, blocks: seq<Block>, contents: seq<Block>, i: nat)
    requires Coherent(entries, blocks, contents) && i < |entries| && entries[i].valid
    ensures entries[i].block < |blocks|
    ensures Coherent(entries[i := entries[i].(dirty := false)], blocks[entries[i].block := entries[i].data], contents)
  {
    var now, stored := entries[i := entries[i].(dirty := false)], blocks[entries[i].block := entries[i].data];
    assert Holds(now[i], entries[i].block);
    forall b | 0 <= b < |blocks| && !Cached(now, b) ensures contents[b] == stored[b] {
      if Cached(entries, b) { StillCached(entries, i, now[i], b); }
    }
  }

  /** A clean or unused entry may be given to a block that is not cached. */
  lemma Refill(entries: seq<CachedBlock>, blocks: seq<Block>, contents: seq<Block>, i: nat, b: nat, age: nat)
    requires Coherent(entries, blocks, contents) && i < |entries| && !(entries[i].valid && entries[i].dirty)
    requires b < |blocks| && !Cached(entries, b)
    ensures Coherent(entries[i := CachedBlock(b, true, false, age, blocks[b])], blocks, contents)
  {
    var now := entries[i := CachedBlock(b, true, false, age, blocks[b])];
    forall k | 0 <= k < |entries| ensures !Holds(entries[k], b) {}
    forall x | 0 <= x < |blocks| && !Cached(now, x) ensures contents[x] == blocks[x] {
      if Cached(entries, x) { StillCached(entries, i, now[i], x); }
    }
  }

  /** Changing the data of an entry changes what one block shows. */
  lemma Overwrite(entries: seq<CachedBlock>, blocks: seq<Block>, contents: seq<Block>, i: nat, data: Block)
    requires Coherent(entries, blocks, contents) && i < |entries| && entries[i].valid
    ensures entries[i].block < |contents|
    ensures Coherent(entries[i := entries[i].(data := data, dirty := true)], blocks, contents[entries[i].block := data])
  {
    var now, shown := entries[i := entries[i].(data := data, dirty := true)], contents[entries[i].block := data];
    assert Holds(now[i], entries[i].block);
    forall x | 0 <= x < |blocks| && !Cached(now, x) ensures shown[x] == blocks[x] {
      if Cached(entries, x) { StillCached(entries, i, now[i], x); }
    }
  }

  /** Ages do not matter to what is shown. */
  lemma Touch(entries: seq<CachedBlock>, blocks: seq<Block>, contents: seq<Block>, i: nat, age: nat)
    requires Coherent(entries, blocks, contents) && i < |entries|
    ensures Coherent(entries[i := entries[i].(age := age)], blocks, contents)
  {
    var now := entries[i := entries[i].(age := age)];
    forall x | 0 <= x < |blocks| && !Cached(now, x) ensures contents[x] == blocks[x] {
      if Cached(entries, x) { StillCached(entries, i, now[i], x); }
    }
  }

  /** With every entry clean the device shows the same as the cache. */
  lemma AllClean(entries: seq<CachedBlock>, blocks: seq<Block>, contents: seq<Block>)
    requires Coherent(entries, blocks, contents)
    requires forall i :: 0 <= i < |entries| && entries[i].valid ==> !entries[i].dirty
    ensures blocks == contents
  {
    forall b | 0 <= b < |blocks| ensures blocks[b] == contents[b] {
      if Cached(entries, b) {
        var i :| 0 <= i < |entries| && Holds(entries[i], b);
      }
    }
  }

  /** The eviction order: unused entries first, then by age. */
  predicate Before(a: CachedBlock, b: CachedBlock) {
    (!a.valid && b.valid) || (a.valid == b.valid && a.age < b.age)
  }

  // ------------------------------------------------------------- the cache

  class BufferCache {
    const device: MemoryBlockDevice
    var tick: nat
    var entries: seq<CachedBlock>
    ghost var contents: seq<Block>

    ghost predicate Valid()
      reads this, device
    {
      && device.Valid() && tick < U64 && entries != []
      && (forall i :: 0 <= i < |entries| ==> |entries[i].data| == device.blockSize && entries[i].age < U64)
      && Coherent(entries, device.Blocks(), contents)
    }

    /** `BufferCache::new`. */
    static method Create(device: MemoryBlockDevice, capacity: nat) returns (r: Result<BufferCache>)
      requires device.Valid()
      ensures r.Ok? <==> PowerOfTwo(device.blockSize)
      ensures r.Err? ==> r.error == BadBlockSize
      ensures r.Ok? ==>
        fresh(r.value) && r.value.Valid() && r.value.device == device && r.value.contents == device.Blocks()
      ensures r.Ok? ==> |r.value.entries| == if capacity == 0 then 1 else capacity
    {
      if device.blockSize == 0 || !PowerOfTwo(device.blockSize) {
        return Err(BadBlockSize);
      }
      var cache := new BufferCache(device, capacity);
      return Ok(cache);
    }

    constructor (device: MemoryBlockDevice, capacity: nat)
      requires device.Valid()
      ensures Valid() && this.device == device && contents == device.Blocks()
      ensures |entries| == if capacity == 0 then 1 else capacity
    {
      var n := if capacity == 0 then 1 else capacity;
      this.device, tick := device, 1;
      entries := seq(n, i => CachedBlock(0, false, false, 0, seq(device.blockSize, j => 0)));
      contents := device.Blocks();
    }

    method Position(block: nat) returns (index: nat)
      ensures index <= |entries|
      ensures index < |entries| ==> Holds(entries[index], block)
      ensures index == |entries| ==> !Cached(entries, block)
    {
      index := 0;
      while index < |entries| && !Holds(entries[index], block)
        invariant index <= |entries| && forall i :: 0 <= i < index ==> !Holds(entries[i], block)
      {
        index := index + 1;
      }
    }

    /** The first entry that no other comes before. */
    method Victim() returns (victim: nat)
      requires entries != []
      ensures victim < |entries|
      ensures forall i :: 0 <= i < |entries| ==> !Before(entries[i], entries[victim])
      ensures forall i :: 0 <= i < victim ==> Before(entries[victim], entries[i])
      ensures entries[victim].valid ==>
        forall i :: 0 <= i < |entries| ==> entries[i].valid && entries[victim].age <= entries[i].age
      ensures !entries[victim].valid ==>
        forall i :: 0 <= i < |entries| && !entries[i].valid ==> entries[victim].age <= entries[i].age
    {
      victim := 0;
      var i := 1;
      while i < |entries|
        invariant victim < i <= |entries|
        invariant forall k :: 0 <= k < i ==> !Before(entries[k], entries[victim])
        invariant forall k :: 0 <= k < victim ==> Before(entries[victim], entries[k])
      {
        if Before(entries[i], entries[victim]) {
          victim := i;
        }
        i := i + 1;
      }
    }

    predicate Validates(block: nat, length: nat) {
      length == device.blockSize && block < device.blockCount
    }

    function ValidationError(length: nat): BlockError {
      if length != device.blockSize then BufferTooSmall else OutOfRange
    }

    /** The entry of a block, filled from the device if need be. Only a write-back that is refused fails. */
    method GetOrFill(block: nat) returns (r: Result<nat>)
      requires Valid() && block < device.blockCount
      modifies this, device
      ensures Valid() && contents == old(contents) && |entries| == |old(entries)|
      ensures r.Ok? ==> r.value < |entries| && Holds(entries[r.value], block)
      ensures r.Err? ==>
        r.error == DeviceReadOnly && device.readOnly && entries == old(entries) && device.data == old(device.data)
      ensures r.Ok? ==> tick == (old(tick) + 1) % U64 && entries[r.value].age == tick
      ensures r.Ok? && !Cached(old(entries), block) ==>
        forall i :: 0 <= i < |entries| ==> !Before(old(entries)[i], old(entries)[r.value])
      ensures r.Ok? ==> forall i :: 0 <= i < |entries| && i != r.value ==> entries[i] == old(entries)[i]
      ensures r.Ok? && Cached(old(entries), block) ==>
        device.data == old(device.data) && entries[r.value].dirty == old(entries)[r.value].dirty
    {
      var index := Position(block);
      if index < |entries| {
        tick := (tick + 1) % U64;
        Touch(entries, device.Blocks(), contents, index, tick);
        entries := entries[index := entries[index].(age := tick)];
        return Ok(index);
      }
      var victim := Victim();
      var filled := Fill(victim, block);
      return if filled.Ok? then Ok(victim) else Err(filled.error);
    }

    /** Give the entry `victim` to a block that is not cached. */
    method Fill(victim: nat, block: nat) returns (r: Result<()>)
      requires Valid() && victim < |entries| && block < device.blockCount && !Cached(entries, block)
      modifies this, device
      ensures Valid() && contents == old(contents) && |entries| == |old(entries)|
      ensures r.Err? ==>
        r.error == DeviceReadOnly && device.readOnly && entries == old(entries) && device.data == old(device.data)
      ensures r.Ok? ==> Holds(entries[victim], block) && tick == (old(tick) + 1) % U64 && entries[victim].age == tick
      ensures r.Ok? ==> forall i :: 0 <= i < |entries| && i != victim ==> entries[i] == old(entries)[i]
    {
      r := Clean(victim);
      if r.Ok? {
        tick := (tick + 1) % U64;
        Refill(entries, device.Blocks(), contents, victim, block, tick);
        var bytes := device.ReadBlock(block, device.blockSize);
        entries := entries[victim := CachedBlock(block, true, false, tick, bytes.value)];
      }
    }

    /** Write an entry back if it is dirty. */
    method Clean(i: nat) returns (r: Result<()>)
      requires Valid() && i < |entries|
      modifies `entries, device
      ensures Valid()
      ensures r.Err? <==> old(entries)[i].valid && old(entries)[i].dirty && device.readOnly
      ensures r.Err? ==> r.error == DeviceReadOnly && entries == old(entries) && device.data == old(device.data)
      ensures r.Ok? ==> |entries| == |old(entries)| && !(entries[i].valid && entries[i].dirty)
      ensures r.Ok? ==>
        forall k :: 0 <= k < |entries| ==> entries[k].(dirty := false) == old(entries)[k].(dirty := false)
      ensures r.Ok? ==> forall k :: 0 <= k < |entries| && k != i ==> entries[k] == old(entries)[k]
    {
      r := Ok(());
      if entries[i].valid && entries[i].dirty {
        WriteBack(entries, device.Blocks(), contents, i);
        r := device.WriteBlock(entries[i].block, entries[i].data);
        if r.Ok? {
          entries := entries[i := entries[i].(dirty := false)];
        }
      }
    }

    method Read(block: nat, length: nat) returns (r: Result<Block>)
      requires Valid()
      modifies this, device
      ensures Valid() && contents == old(contents)
      ensures r.Ok? ==> Validates(block, length) && r.value == contents[block]
      ensures !Validates(block, length) ==> r == Err(ValidationError(length))
      ensures Validates(block, length) && r.Err? ==> r.error == DeviceReadOnly && device.readOnly
    {
      if !Validates(block, length) {
        return Err(ValidationError(length));
      }
      var index := GetOrFill(block);
      if index.Err? {
        return Err(index.error);
      }
      return Ok(entries[index.value].data);
    }

    method Write(block: nat, input: Block) returns (r: Result<()>)
      requires Valid()
      modifies this, device
      ensures Valid()
      ensures r.Ok? ==> Validates(block, |input|) && contents == old(contents)[block := input]
      ensures r.Err? ==> contents == old(contents)
      ensures !Validates(block, |input|) ==> r == Err(ValidationError(|input|))
      ensures Validates(block, |input|) && r.Err? ==> r.error == DeviceReadOnly && device.readOnly
    {
      if !Validates(block, |input|) {
        return Err(ValidationError(|input|));
      }
      var index := GetOrFill(block);
      if index.Err? {
        return Err(index.error);
      }
      var i := index.value;
      Overwrite(entries, device.Blocks(), contents, i, input);
      entries := entries[i := entries[i].(data := input, dirty := true)];
      contents := contents[block := input];
      return Ok(());
    }

    /** Every dirty entry goes to the device, which then equals the contents. */
    method Flush() returns (r: Result<()>)
      requires Valid()
      modifies this, device
      ensures Valid() && contents == old(contents)
      ensures r.Ok? ==>
        device.Blocks() == contents && forall i :: 0 <= i < |entries| && entries[i].valid ==> !entries[i].dirty
      ensures !device.readOnly ==> r.Ok?
    {
      var i := 0;
      while i < |entries|
        invariant 0 <= i <= |entries| && Valid() && contents == old(contents)
        invariant forall k :: 0 <= k < i && entries[k].valid ==> !entries[k].dirty
      {
        var written := Clean(i);
        if written.Err? {
          return Err(written.error);
        }
        i := i + 1;
      }
      AllClean(entries, device.Blocks(), contents);
      return Ok(());
    }
  }

  // --------------------------------------------------- the plain block array

  datatype Op = ReadOp(block: nat, length: nat) | WriteOp(block: nat, input: Block) | FlushOp

  datatype Answer = Bytes(data: Block) | Done | Failed(error: BlockError)

  /** What an array of `count` blocks of `size` bytes answers. */
  function ArrayAnswer(blocks: seq<Block>, size: nat, op: Op): Answer {
    match op
    case ReadOp(b, n) =>
      if n != size then Failed(BufferTooSmall) else if b >= |blocks| then Failed(OutOfRange) else Bytes(blocks[b])
    case WriteOp(b, input) =>
      if |input| != size then Failed(BufferTooSmall) else if b >= |blocks| then Failed(OutOfRange) else Done
    case FlushOp => Done
  }

  function ArrayAfter(blocks: seq<Block>, size: nat, op: Op): (r: seq<Block>)
    ensures |r| == |blocks|
  {
    if op.WriteOp? && |op.input| == size && op.block < |blocks| then blocks[op.block := op.input] else blocks
  }

  function ArrayRun(blocks: seq<Block>, size: nat, ops: seq<Op>): seq<Answer>
    decreases |ops|
  {
    if ops == [] then []
    else [ArrayAnswer(blocks, size, ops[0])] + ArrayRun(ArrayAfter(blocks, size, ops[0]), size, ops[1..])
  }

  function ArrayFinal(blocks: seq<Block>, size: nat, ops: seq<Op>): seq<Block>
    decreases |ops|
  {
    if ops == [] then blocks else ArrayFinal(ArrayAfter(blocks, size, ops[0]), size, ops[1..])
  }

  /** One operation on the cache answers as the array does. */
  method Perform(cache: BufferCache, op: Op) returns (answer: Answer)
    requires cache.Valid() && !cache.device.readOnly
    modifies cache, cache.device
    ensures cache.Valid() && answer == ArrayAnswer(old(cache.contents), cache.device.blockSize, op)
    ensures cache.contents == ArrayAfter(old(cache.contents), cache.device.blockSize, op)
    ensures op.FlushOp? ==> cache.device.Blocks() == cache.contents
  {
    match op
    case ReadOp(b, n) =>
      var r := cache.Read(b, n);
      answer := if r.Ok? then Bytes(r.value) else Failed(r.error);
    case WriteOp(b, input) =>
      var r := cache.Write(b, input);
      answer := if r.Ok? then Done else Failed(r.error);
    case FlushOp =>
      var _ := cache.Flush();
      answer := Done;
  }

  /** One operation further the answers and the end of a run are the same. */
  lemma ArrayStep(blocks: seq<Block>, size: nat, ops: seq<Op>, i: nat, answers: seq<Answer>)
    requires i < |ops|
    ensures
      var next := ArrayAfter(blocks, size, ops[i]);
      && answers + ArrayRun(blocks, size, ops[i..])
         == answers + [ArrayAnswer(blocks, size, ops[i])] + ArrayRun(next, size, ops[i + 1..])
      && ArrayFinal(blocks, size, ops[i..]) == ArrayFinal(next, size, ops[i + 1..])
  {
    assert ops[i..][1..] == ops[i + 1..];
  }

  /** Any sequence of operations is answered as by a plain array of blocks. */
  method Run(cache: BufferCache, ops: seq<Op>) returns (answers: seq<Answer>)
    requires cache.Valid() && !cache.device.readOnly
    modifies cache, cache.device
    ensures cache.Valid() && answers == ArrayRun(old(cache.contents), cache.device.blockSize, ops)
    ensures cache.contents == ArrayFinal(old(cache.contents), cache.device.blockSize, ops)
  {
    answers := [];
    ghost var size := cache.device.blockSize;
    ghost var all, last := ArrayRun(cache.contents, size, ops), ArrayFinal(cache.contents, size, ops);
    var i := 0;
    assert ops[0..] == ops;
    while i < |ops|
      invariant 0 <= i <= |ops| && cache.Valid()
      invariant answers + ArrayRun(cache.contents, size, ops[i..]) == all
      invariant ArrayFinal(cache.contents, size, ops[i..]) == last
    {
      ArrayStep(cache.contents, size, ops, i, answers);
      var answer := Perform(cache, ops[i]);
      answers := answers + [answer];
      i := i + 1;
    }
    assert ops[i..] == [];
  }

  /** On the array a read returns the last write to its block. */
  lemma {:induction false} LastWriteWins(blocks: seq<Block>, size: nat, ops: seq<Op>, b: nat)
    requires b < |blocks|
    ensures |ArrayFinal(blocks, size, ops)| == |blocks|
    ensures
      ArrayFinal(blocks, size, ops)[b]
      == var w := LastWrite(size, ops, b); if w < 0 then blocks[b] else ops[w].input
    decreases |ops|
  {
    if ops != [] {
      var last := ops[|ops| - 1];
      FinalOfLast(blocks, size, ops[..|ops| - 1], last);
      assert ops[..|ops| - 1] + [last] == ops;
      LastWriteWins(blocks, size, ops[..|ops| - 1], b);
    }
  }

  /** The index of the last write to block `b`, or -1. */
  function LastWrite(size: nat, ops: seq<Op>, b: nat): (w: int)
    ensures -1 <= w < |ops| && (w >= 0 ==> ops[w].WriteOp?)
    decreases |ops|
  {
    if ops == [] then -1
    else
      var n := |ops| - 1;
      if ops[n].WriteOp? && ops[n].block == b && |ops[n].input| == size then n else LastWrite(size, ops[..n], b)
  }

  lemma {:induction false} FinalOfLast(blocks: seq<Block>, size: nat, ops: seq<Op>, last: Op)
    ensures ArrayFinal(blocks, size, ops + [last]) == ArrayAfter(ArrayFinal(blocks, size, ops), size, last)
    decreases |ops|
  {
    if ops == [] {
      assert ops + [last] == [last];
    } else {
      assert (ops + [last])[1..] == ops[1..] + [last];
      FinalOfLast(ArrayAfter(blocks, size, ops[0]), size, ops[1..], last);
    }
  }

  // ---------------------------------------------------------- the page cache

  /** Block `k` of a buffer of whole blocks. */
  function Slice(input: seq<byte>, size: nat, k: nat): (r: Block)
    requires (k + 1) * size <= |input|
    ensures |r| == size
  {
    assert (k + 1) * size == k * size + size;
    input[k * size..(k + 1) * size]
  }

  /** The first `n` blocks of `input` stored from block `first` on. */
  ghost function Stored(contents: seq<Block>, first: nat, input: seq<byte>, size: nat, n: nat): (r: seq<Block>)
    requires first + n <= |contents| && n * size <= |input|
    ensures |r| == |contents|
    ensures forall b :: 0 <= b < |contents| && !(first <= b < first + n) ==> r[b] == contents[b]
  {
    if n == 0 then contents
    else
      BlocksApart(size, n - 1, n);
      Stored(contents, first, input, size, n - 1)[first + n - 1 := Slice(input, size, n - 1)]
  }

  lemma {:induction false} StoredAt(contents: seq<Block>, first: nat, input: seq<byte>, size: nat, n: nat, k: nat)
    requires first + n <= |contents| && n * size <= |input| && k < n
    ensures (k + 1) * size <= |input| && Stored(contents, first, input, size, n)[first + k] == Slice(input, size, k)
    decreases n
  {
    InsideDevice(size, n, k);
    InsideDevice(size, n, n - 1);
    if k < n - 1 {
      StoredAt(contents, first, input, size, n - 1, k);
    }
  }

  /** Where block `k` begins, counted up block by block. */
  ghost function Offset(size: nat, k: nat): nat {
    if k == 0 then 0 else Offset(size, k - 1) + size
  }

  lemma {:induction false} OffsetIsProduct(size: nat, n: nat)
    ensures Offset(size, n) == n * size
  {
    if n > 0 {
      OffsetIsProduct(size, n - 1);
      BlocksApart(size, n - 1, n);
    }
  }

  /** The bytes of `n` consecutive blocks. */
  ghost function Joined(contents: seq<Block>, first: nat, n: nat): seq<byte>
    requires first + n <= |contents|
  {
    if n == 0 then [] else Joined(contents, first, n - 1) + contents[first + n - 1]
  }

  /** Reading the blocks of a page that was written gives the page. */
  lemma {:induction false} JoinedStored(contents: seq<Block>, first: nat, input: seq<byte>, size: nat, n: nat, k: nat)
    requires first + n <= |contents| && n * size <= |input| && k <= n
    ensures k * size <= |input| && Joined(Stored(contents, first, input, size, n), first, k) == input[..k * size]
    decreases k
  {
    if k > 0 {
      InsideDevice(size, n, k - 1);
      JoinedStored(contents, first, input, size, n, k - 1);
      StoredAt(contents, first, input, size, n, k - 1);
    }
  }

  /** A page whose first block number does not overflow has no block number that does. */
  lemma PageDoesNotWrap(page: nat, size: nat, per: nat)
    requires per * size == PAGE_SIZE && page * per < U64
    ensures page * per + per <= U64
  {
    var pages := size * 0x10_0000_0000_0000;
    assert per * pages == U64 by {
      assert per * pages == (per * size) * 0x10_0000_0000_0000;
    }
    assert pages <= page ==> pages * per <= page * per;
    BlocksApart(per, page, pages);
  }

  /** The bytes of the first 0, 1, ... n blocks from `first` on. */
  lemma JoinedParts(contents: seq<Block>, first: nat, n: nat) returns (parts: seq<seq<byte>>)
    requires n == 0 || first + n <= |contents|
    ensures |parts| == n + 1 && parts[0] == [] && (first + n <= |contents| ==> parts[n] == Joined(contents, first, n))
    ensures AllParts(contents, first, parts, n)
    decreases n
  {
    if n == 0 {
      parts := [[]];
    } else {
      var fewer := JoinedParts(contents, first, n - 1);
      parts := fewer + [fewer[n - 1] + contents[first + n - 1]];
      forall i {:trigger PartAt(contents, first, parts, i)} | 0 <= i < n ensures PartAt(contents, first, parts, i) {
        if i < n - 1 { assert PartAt(contents, first, fewer, i); }
      }
    }
  }

  ghost predicate PartAt(contents: seq<Block>, first: nat, parts: seq<seq<byte>>, i: nat) {
    i + 1 < |parts| && first + i < |contents| && parts[i + 1] == parts[i] + contents[first + i]
  }

  ghost predicate AllParts(contents: seq<Block>, first: nat, parts: seq<seq<byte>>, n: nat) {
    forall i {:trigger PartAt(contents, first, parts, i)} :: 0 <= i < n ==> PartAt(contents, first, parts, i)
  }

  /** The buffer begins with these bytes. */
  ghost predicate Starts(output: array<byte>, bytes: seq<byte>)
    reads output
  {
    |bytes| <= output.Length && output[..|bytes|] == bytes
  }

  /** The first `index` blocks are in the buffer, and there is room for the others. */
  ghost predicate HasParts(parts: seq<seq<byte>>, index: nat, size: nat, per: nat, output: array<byte>, start: nat)
    reads output
  {
    && index < |parts| && index <= per && Starts(output, parts[index])
    && start == |parts[index]| && start + Offset(size, per - index) == output.Length
  }

  lemma NextPart(contents: seq<Block>, first: nat, parts: seq<seq<byte>>, index: nat, size: nat, per: nat,
                 output: array<byte>, start: nat)
    requires PartAt(contents, first, parts, index) && |contents[first + index]| == size && index < per
    requires start == |parts[index]| && start + Offset(size, per - index) == output.Length
    requires Starts(output, parts[index] + contents[first + index])
    ensures HasParts(parts, index + 1, size, per, output, start + size)
  {
  }

  lemma WholeBuffer(output: array<byte>, bytes: seq<byte>)
    requires Starts(output, bytes) && |bytes| == output.Length
    ensures output[..] == bytes
  {
    assert output[..] == output[..|bytes|];
  }

  lemma Quotient(x: nat, size: nat)
    requires 0 < size <= x
    ensures x / size >= 1
  {
    assert x == x / size * size + x % size;
  }

  class PageCache {
    const buffer: BufferCache

    constructor (buffer: BufferCache)
      ensures this.buffer == buffer
    {
      this.buffer := buffer;
    }

    /** `PageCache::new`: the geometry checks and the capacity in blocks. */
    static method Create(device: MemoryBlockDevice, capacityPages: nat) returns (r: Result<PageCache>)
      requires device.Valid()
      ensures r.Ok? ==> fresh(r.value) && fresh(r.value.buffer) && r.value.buffer.Valid()
      ensures r.Ok? ==> r.value.buffer.device == device && r.value.buffer.contents == device.Blocks()
      ensures r.Ok? ==> |r.value.buffer.entries| == Pages(capacityPages) * (PAGE_SIZE / device.blockSize)
      ensures r.Ok? <==>
        && device.GeometryOk() && PAGE_SIZE % device.blockSize == 0
        && Pages(capacityPages) * (PAGE_SIZE / device.blockSize) < U64
      ensures r.Err? ==>
        r.error == if device.GeometryOk() && PAGE_SIZE % device.blockSize == 0 then AddressOverflow else BadBlockSize
    {
      if !device.GeometryOk() || PAGE_SIZE % device.blockSize != 0 {
        return Err(BadBlockSize);
      }
      var capacity := Pages(capacityPages) * (PAGE_SIZE / device.blockSize);
      if capacity >= U64 {
        return Err(AddressOverflow);
      }
      AtLeastOne(Pages(capacityPages), device.blockSize);
      var buffer := new BufferCache(device, capacity);
      var cache := new PageCache(buffer);
      return Ok(cache);
    }

    static function Pages(capacityPages: nat): nat {
      if capacityPages == 0 then 1 else capacityPages
    }

    static lemma AtLeastOne(pages: nat, size: nat)
      requires 0 < pages && 0 < size <= PAGE_SIZE
      ensures 0 < pages * (PAGE_SIZE / size)
    {
      Quotient(PAGE_SIZE, size);
    }

    function PerPage(): nat
      requires buffer.device.blockSize > 0
    {
      PAGE_SIZE / buffer.device.blockSize
    }

    predicate Fits() {
      buffer.device.blockSize > 0 && PowerOfTwo(buffer.device.blockSize) && PAGE_SIZE % buffer.device.blockSize == 0
    }

    method ReadPage(page: nat, output: array<byte>) returns (r: Result<()>)
      requires buffer.Valid()
      modifies buffer, buffer.device, output
      ensures buffer.Valid() && buffer.contents == old(buffer.contents)
      ensures PageError(page, output.Length).Some? ==> r == Err(PageError(page, output.Length).value)
      ensures r.Ok? ==>
        && Fits() && page * PerPage() + PerPage() <= |buffer.contents|
        && output[..] == Joined(buffer.contents, page * PerPage(), PerPage())
      ensures r.Err? && PageError(page, output.Length).None? ==> Refused(r.error, page * PerPage(), PerPage())
    {
      if output.Length != PAGE_SIZE {
        return Err(BufferTooSmall);
      }
      if !Fits() {
        return Err(BadBlockSize);
      }
      var first := page * PerPage();
      if first >= U64 {
        return Err(AddressOverflow);
      }
      OffsetIsProduct(buffer.device.blockSize, PerPage());
      PageDoesNotWrap(page, buffer.device.blockSize, PerPage());
      r := ReadInto(first, PerPage(), output);
    }

    /** Why blocks of a valid page cannot be had: they leave the device, or an eviction cannot be written back. */
    ghost predicate Refused(error: BlockError, first: nat, n: nat)
      reads buffer
    {
      (error == OutOfRange && first + n > |buffer.contents|) || (error == DeviceReadOnly && buffer.device.readOnly)
    }

    /** The checks before the first block, in order. */
    ghost function PageError(page: nat, length: nat): Option<BlockError> {
      if length != PAGE_SIZE then Some(BufferTooSmall)
      else if !Fits() then Some(BadBlockSize)
      else if page * PerPage() >= U64 then Some(AddressOverflow)
      else None
    }

    /** Read one block behind the bytes `done` that are in the buffer already. */
    method ReadBlockInto(block: nat, output: array<byte>, start: nat, ghost done: seq<byte>)
      returns (r: Result<nat>)
      requires buffer.Valid() && Starts(output, done) && start == |done|
      requires start + buffer.device.blockSize <= output.Length
      modifies buffer, buffer.device, output
      ensures buffer.Valid() && buffer.contents == old(buffer.contents)
      ensures r.Ok? ==> block < |buffer.contents| && Starts(output, done + buffer.contents[block])
      ensures r.Ok? ==> r.value == start + buffer.device.blockSize
      ensures r.Err? ==> Refused(r.error, block, 1)
    {
      var bytes := buffer.Read(block, buffer.device.blockSize);
      if bytes.Err? {
        return Err(bytes.error);
      }
      ghost var before := output[..];
      CopyInto(output, start, bytes.value);
      Patched(before, start, bytes.value);
      return Ok(start + |bytes.value|);
    }

    /** One round of the loop: block `index` goes into the buffer. */
    method ReadNext(first: nat, index: nat, per: nat, output: array<byte>, start: nat,
                    ghost parts: seq<seq<byte>>, ghost n: nat)
      returns (r: Result<nat>)
      requires buffer.Valid() && index < per && HasParts(parts, index, buffer.device.blockSize, per, output, start)
      requires n <= per && AllParts(buffer.contents, first, parts, n) && (first + n < |buffer.contents| ==> n == per)
      requires first + per <= U64
      modifies buffer, buffer.device, output
      ensures buffer.Valid() && buffer.contents == old(buffer.contents)
      ensures r.Ok? ==> index < n && HasParts(parts, index + 1, buffer.device.blockSize, per, output, r.value)
      ensures r.Err? ==> Refused(r.error, first, per)
    {
      assert first + index < U64;
      assert index < n ==> PartAt(buffer.contents, first, parts, index);
      r := ReadBlockInto(first + index, output, start, parts[index]);
      if r.Ok? {
        NextPart(buffer.contents, first, parts, index, buffer.device.blockSize, per, output, start);
      }
    }

    method ReadInto(first: nat, per: nat, output: array<byte>) returns (r: Result<()>)
      requires buffer.Valid() && output.Length == Offset(buffer.device.blockSize, per) && 0 < per && first + per <= U64
      modifies buffer, buffer.device, output
      ensures buffer.Valid() && buffer.contents == old(buffer.contents)
      ensures r.Ok? ==> first + per <= |buffer.contents| && output[..] == Joined(buffer.contents, first, per)
      ensures r.Err? ==> Refused(r.error, first, per)
    {
      ghost var c, size := buffer.contents, buffer.device.blockSize;
      ghost var n := if first >= |c| then 0 else Min(per, |c| - first);
      ghost var parts := JoinedParts(c, first, n);
      var index, start := 0, 0;
      while index < per
        invariant buffer.Valid() && buffer.contents == c && 0 <= index <= n
        invariant HasParts(parts, index, size, per, output, start)
      {
        var next := ReadNext(first, index, per, output, start, parts, n);
        if next.Err? {
          return Err(next.error);
        }
        index, start := index + 1, next.value;
      }
      WholeBuffer(output, parts[per]);
      return Ok(());
    }

    /** On failure the blocks before the first one outside the device have been stored. */
    method WritePage(page: nat, input: seq<byte>) returns (r: Result<()>)
      requires buffer.Valid()
      modifies buffer, buffer.device
      ensures buffer.Valid()
      ensures PageError(page, |input|).Some? ==>
        r == Err(PageError(page, |input|).value) && buffer.contents == old(buffer.contents)
      ensures r.Ok? ==>
        && Fits() && PerPage() * buffer.device.blockSize == |input|
        && page * PerPage() + PerPage() <= |old(buffer.contents)|
        && buffer.contents == Stored(old(buffer.contents), page * PerPage(), input, buffer.device.blockSize, PerPage())
      ensures r.Err? && Fits() ==>
        buffer.contents == old(buffer.contents) || StoredPart(old(buffer.contents), page * PerPage(), input, PerPage())
      ensures r.Err? && PageError(page, |input|).None? ==> Refused(r.error, page * PerPage(), PerPage())
    {
      if |input| != PAGE_SIZE {
        return Err(BufferTooSmall);
      }
      if !Fits() {
        return Err(BadBlockSize);
      }
      var first := page * PerPage();
      if first >= U64 {
        return Err(AddressOverflow);
      }
      PageDoesNotWrap(page, buffer.device.blockSize, PerPage());
      r := WriteFrom(first, PerPage(), input);
    }

    method WriteFrom(first: nat, per: nat, input: seq<byte>) returns (r: Result<()>)
      requires buffer.Valid() && |input| == per * buffer.device.blockSize && 0 < per && first + per <= U64
      modifies buffer, buffer.device
      ensures buffer.Valid()
      ensures r.Ok? ==> first + per <= |old(buffer.contents)|
      ensures r.Ok? ==> buffer.contents == Stored(old(buffer.contents), first, input, buffer.device.blockSize, per)
      ensures r.Err? ==> buffer.contents == old(buffer.contents) || StoredPart(old(buffer.contents), first, input, per)
      ensures r.Err? ==> Refused(r.error, first, per)
    {
      ghost var was := buffer.contents;
      var index, start := 0, 0;
      while index < per
        invariant 0 <= index <= per && start == index * buffer.device.blockSize && buffer.Valid()
        invariant StoredSoFar(was, first, input, index)
      {
        var next := WriteNext(first, index, per, input, start, was);
        if next.Err? {
          assert first + index <= |was| ==> StoredPart(was, first, input, per);
          return Err(next.error);
        }
        index, start := index + 1, next.value;
      }
      return Ok(());
    }

    /** One round of the loop: block `index` of the page is written. */
    method WriteNext(first: nat, index: nat, per: nat, input: seq<byte>, start: nat, ghost was: seq<Block>)
      returns (r: Result<nat>)
      requires buffer.Valid() && |input| == per * buffer.device.blockSize && index < per && first + per <= U64
      requires start == index * buffer.device.blockSize && StoredSoFar(was, first, input, index)
      modifies buffer, buffer.device
      ensures buffer.Valid()
      ensures r.Ok? ==> StoredSoFar(was, first, input, index + 1) && r.value == (index + 1) * buffer.device.blockSize
      ensures r.Err? ==> buffer.contents == old(buffer.contents) && Refused(r.error, first, per)
    {
      var size := buffer.device.blockSize;
      InsideDevice(size, per, index);
      assert first + index < U64;
      var block := buffer.Write(first + index, input[start..start + size]);
      return if block.Ok? then Ok(start + size) else Err(block.error);
    }

    /** The first `index` blocks of the page are stored. */
    ghost predicate StoredSoFar(was: seq<Block>, first: nat, input: seq<byte>, index: nat)
      reads buffer
    {
      && |buffer.contents| == |was| && index * buffer.device.blockSize <= |input|
      && (index == 0 || first + index <= |was|)
      && buffer.contents ==
         if first + index <= |was| then Stored(was, first, input, buffer.device.blockSize, index) else was
    }

    /** Only the first `n` blocks of the page have been stored. */
    ghost predicate StoredPart(was: seq<Block>, first: nat, input: seq<byte>, per: nat)
      reads buffer
    {
      exists n :: 0 <= n < per && first + n <= |was| && n * buffer.device.blockSize <= |input|
        && buffer.contents == Stored(was, first, input, buffer.device.blockSize, n)
    }
  }
}
