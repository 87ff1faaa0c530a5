/**
 The 64-bit page-table entries behind the decoded ones: the Sv39 entry of
 arch/riscv64/src/memory/paging/entry.rs, the leaf and directory entries of
 arch/loongarch64/src/memory/paging/entry.rs, and the mapping policy of
 mm/src/paging/mapping.rs. Flags occupy bits of their own, so setting them is adding.
 */
module PageTableEntries {
  import opened Machine
  import opened PageTableModel

  datatype OptionsError =
    | NoPermissions | WritableWithoutRead | UserGlobalMapping | WritableExecutableMapping | ExecutableDeviceMapping

  datatype EntryError =
    | InvalidMappingOptions(error: OptionsError) | UnsupportedMemoryType | PhysicalAddressOutOfRange | NullTablePointer

  datatype Result = Ok(raw: nat) | Err(error: EntryError)

  /** What is wrong with the options, if anything; the first complaint counts. */
  function Complaint(o: Options): Option<OptionsError> {
    if !o.readable && !o.writable && !o.executable then Some(NoPermissions)
    else if o.writable && !o.readable then Some(WritableWithoutRead)
    else if o.user && o.global then Some(UserGlobalMapping)
    else if !o.user && o.writable && o.executable then Some(WritableExecutableMapping)
    else if o.memory.Device? && o.executable then Some(ExecutableDeviceMapping)
    else None
  }

  function If(b: bool, flag: nat): nat {
    if b then flag else 0
  }

  predicate Set(raw: nat, flag: nat)
    requires flag > 0
  {
    raw / flag % 2 == 1
  }

  // ------------------------------------------------------------------ Sv39

  const SV39_VALID: nat := 1
  const SV39_READ: nat := 2
  const SV39_WRITE: nat := 4
  const SV39_EXECUTE: nat := 8
  const SV39_USER: nat := 16
  const SV39_GLOBAL: nat := 32
  const SV39_ACCESSED: nat := 64
  const SV39_DIRTY: nat := 128
  const SV39_FRAMES: nat := 0x1000_0000_0000

  function Sv39Flags(o: Options): (flags: nat)
    ensures flags < 256
  {
    SV39_VALID + SV39_ACCESSED + If(o.readable, SV39_READ) + If(o.writable, SV39_WRITE + SV39_DIRTY)
    + If(o.executable, SV39_EXECUTE) + If(o.user, SV39_USER) + If(o.global, SV39_GLOBAL)
  }

  function Sv39Leaf(frame: Frame, o: Options): Result {
    if Complaint(o).Some? then Err(InvalidMappingOptions(Complaint(o).value))
    else if o.memory.Uncached? then Err(UnsupportedMemoryType)
    else if frame >= SV39_FRAMES then Err(PhysicalAddressOutOfRange)
    else Ok(frame * 1024 + Sv39Flags(o))
  }

  function Sv39Table(frame: Frame): Result {
    if frame >= SV39_FRAMES then Err(PhysicalAddressOutOfRange) else Ok(frame * 1024 + SV39_VALID)
  }

  predicate Sv39IsLeaf(raw: nat) {
    Set(raw, SV39_VALID) && (Set(raw, SV39_READ) || Set(raw, SV39_WRITE) || Set(raw, SV39_EXECUTE))
  }

  function Sv39Frame(raw: nat): Frame {
    raw / 1024 % SV39_FRAMES
  }

  /** What the walk makes of an entry; the format has no bits for the memory type. */
  function Sv39Read(raw: nat): Entry {
    if raw == 0 then Empty
    else if Sv39IsLeaf(raw) then
      Leaf(Sv39Frame(raw), Options(Set(raw, SV39_READ), Set(raw, SV39_WRITE), Set(raw, SV39_EXECUTE),
                                   Set(raw, SV39_USER), Set(raw, SV39_GLOBAL), Normal))
    else if Set(raw, SV39_VALID) then Pointer(Sv39Frame(raw))
    else Junk(raw)
  }

  lemma Sv39Parts(frame: Frame, flags: nat)
    requires frame < SV39_FRAMES && flags < 256
    ensures
      var raw := frame * 1024 + flags;
      && raw < U64 && Sv39Frame(raw) == frame
      && (Set(raw, 1) <==> Set(flags, 1)) && (Set(raw, 2) <==> Set(flags, 2)) && (Set(raw, 4) <==> Set(flags, 4))
      && (Set(raw, 8) <==> Set(flags, 8)) && (Set(raw, 16) <==> Set(flags, 16)) && (Set(raw, 32) <==> Set(flags, 32))
  {
    LowFlag(frame, flags, 1024, 1);
    LowFlag(frame, flags, 512, 2);
    LowFlag(frame, flags, 256, 4);
    LowFlag(frame, flags, 128, 8);
    LowFlag(frame, flags, 64, 16);
    LowFlag(frame, flags, 32, 32);
    DivOfSum(frame, flags, 1024);
  }

  /** A flag below the frame number is not disturbed by it. */
  lemma LowFlag(frame: nat, flags: nat, above: nat, flag: nat)
    requires flag > 0 && above % 2 == 0
    ensures Set(frame * (above * flag) + flags, flag) <==> Set(flags, flag)
  {
    Regrouped(frame, above, flag);
    DivOfSum(frame * above, flags, flag);
    EvenMultiple(frame, above);
    EvenPart(frame * above, flags / flag);
  }

  lemma Regrouped(a: nat, b: nat, c: nat)
    ensures a * (b * c) == c * (a * b)
  {
  }

  lemma EvenPart(even: nat, x: nat)
    requires even % 2 == 0
    ensures (even + x) % 2 == x % 2
  {
  }

  lemma EvenMultiple(x: nat, n: nat)
    requires n % 2 == 0
    ensures x * n % 2 == 0
  {
    assert x * n == 2 * (x * (n / 2));
  }

  lemma Sv39FlagsRead(o: Options)
    ensures
      var flags := Sv39Flags(o);
      && Set(flags, 1) && (Set(flags, 2) <==> o.readable) && (Set(flags, 4) <==> o.writable)
      && (Set(flags, 8) <==> o.executable) && (Set(flags, 16) <==> o.user) && (Set(flags, 32) <==> o.global)
  {
  }

  /** A leaf can be written exactly for the mappings the page table accepts, and it is read back. */
  lemma Sv39LeafRoundTrip(g: Geometry, frame: Frame, o: Options)
    requires g.format.Plain?
    ensures Sv39Leaf(frame, o).Ok? <==> g.LeafEncodable(frame, o)
    ensures Sv39Leaf(frame, o).Ok? ==>
      var raw := Sv39Leaf(frame, o).raw;
      raw < U64 && Sv39Read(raw) == Leaf(frame, o.(memory := Normal))
  {
    if Sv39Leaf(frame, o).Ok? {
      Sv39Parts(frame, Sv39Flags(o));
      Sv39FlagsRead(o);
    }
  }

  /** So can a directory entry, and it is never taken for a leaf or for no entry. */
  lemma Sv39TableRoundTrip(g: Geometry, frame: Frame)
    requires g.format.Plain?
    ensures Sv39Table(frame).Ok? <==> g.TableEncodable(frame)
    ensures Sv39Table(frame).Ok? ==> Sv39Table(frame).raw < U64 && Sv39Read(Sv39Table(frame).raw) == Pointer(frame)
  {
    if Sv39Table(frame).Ok? {
      Sv39Parts(frame, SV39_VALID);
    }
  }

  // ------------------------------------------------------------- LoongArch

  const LA_VALID: nat := 1
  const LA_DIRTY: nat := 2
  const LA_USER: nat := 12
  const LA_GLOBAL: nat := 64
  const LA_PRESENT: nat := 128
  const LA_WRITE: nat := 256
  const LA_MODIFIED: nat := 512
  const LA_FRAMES: nat := 0x10_0000_0000
  const LA_NO_READ: nat := 0x2000_0000_0000_0000
  const LA_NO_EXECUTE: nat := 0x4000_0000_0000_0000

  /** The entry of a page that is not mapped. */
  const LA_INVALID_GLOBAL: nat := LA_GLOBAL

  function LaMemory(m: MemoryType): nat {
    match m
    case Normal => 16
    case Device => 0
    case Uncached => 32
  }

  function LaFlags(o: Options): (flags: nat)
    ensures flags < 1024
  {
    LA_VALID + LA_PRESENT + LaMemory(o.memory) + If(o.writable, LA_DIRTY + LA_WRITE + LA_MODIFIED)
    + If(o.user, LA_USER) + If(o.global, LA_GLOBAL)
  }

  function LaTop(o: Options): nat {
    If(!o.readable, LA_NO_READ) + If(!o.executable, LA_NO_EXECUTE)
  }

  function LaLeaf(frame: Frame, o: Options): Result {
    if Complaint(o).Some? then Err(InvalidMappingOptions(Complaint(o).value))
    else if frame >= LA_FRAMES then Err(PhysicalAddressOutOfRange)
    else Ok(LaTop(o) + frame * 4096 + LaFlags(o))
  }

  function LaTable(frame: Frame): Result {
    if frame == 0 then Err(NullTablePointer)
    else if frame >= LA_FRAMES then Err(PhysicalAddressOutOfRange)
    else Ok(frame * 4096)
  }

  /** What the walk makes of an entry of a last-level table. */
  function LaReadLeaf(raw: nat): Entry {
    if Set(raw, LA_PRESENT) then
      Leaf(raw / 4096 % LA_FRAMES,
           Options(!Set(raw, LA_NO_READ), Set(raw, LA_WRITE), !Set(raw, LA_NO_EXECUTE), raw / 4 % 4 == 3,
                   Set(raw, LA_GLOBAL),
                   if raw / 16 % 4 == 0 then Device else if raw / 16 % 4 == 1 then Normal else Uncached))
    else if raw == LA_INVALID_GLOBAL then Empty
    else Junk(raw)
  }

  /** And of an entry of a directory: a pointer has no bit outside the address. */
  function LaReadPointer(raw: nat): Entry {
    if raw != 0 && raw % 4096 == 0 && raw < LA_FRAMES * 4096 then Pointer(raw / 4096) else Junk(raw)
  }

  lemma LaParts(top: nat, frame: Frame, flags: nat)
    requires top < 4 && frame < LA_FRAMES && flags < 1024
    ensures
      var raw := top * LA_NO_READ + frame * 4096 + flags;
      && raw < U64 && raw / 4096 % LA_FRAMES == frame
      && (Set(raw, LA_NO_READ) <==> top % 2 == 1) && (Set(raw, LA_NO_EXECUTE) <==> top >= 2)
      && (Set(raw, 64) <==> Set(flags, 64)) && (Set(raw, 128) <==> Set(flags, 128))
      && (Set(raw, 256) <==> Set(flags, 256)) && raw / 4 % 4 == flags / 4 % 4 && raw / 16 % 4 == flags / 16 % 4
  {
    var high := top * 0x2_0000_0000_0000 + frame;
    assert top * LA_NO_READ + frame * 4096 + flags == high * 4096 + flags;
    LaLowParts(high, flags);
    LaHighParts(top, frame);
    LaTopParts(top, frame * 4096 + flags);
  }

  lemma LaLowParts(high: nat, flags: nat)
    requires flags < 1024
    ensures
      var raw := high * 4096 + flags;
      && raw / 4096 == high && raw / 4 % 4 == flags / 4 % 4 && raw / 16 % 4 == flags / 16 % 4
      && (Set(raw, 64) <==> Set(flags, 64)) && (Set(raw, 128) <==> Set(flags, 128))
      && (Set(raw, 256) <==> Set(flags, 256))
  {
    LowFlag(high, flags, 64, 64);
    LowFlag(high, flags, 32, 128);
    LowFlag(high, flags, 16, 256);
    DivOfSum(high, flags, 4096);
    LowField(high, flags, 1024, 4);
    LowField(high, flags, 256, 16);
  }

  /** Neither is a field of two bits. */
  lemma LowField(frame: nat, flags: nat, above: nat, unit: nat)
    requires unit > 0 && above % 4 == 0
    ensures (frame * (above * unit) + flags) / unit % 4 == flags / unit % 4
  {
    Regrouped(frame, above, unit);
    DivOfSum(frame * above, flags, unit);
    assert frame * above == 4 * (frame * (above / 4));
    FourfoldPart(frame * (above / 4), flags / unit);
  }

  lemma FourfoldPart(a: nat, x: nat)
    ensures (4 * a + x) % 4 == x % 4
  {
  }

  lemma LaHighParts(top: nat, frame: Frame)
    requires frame < LA_FRAMES
    ensures (top * 0x2_0000_0000_0000 + frame) % LA_FRAMES == frame
  {
  }

  lemma LaTopParts(top: nat, rest: nat)
    requires top < 4 && rest < LA_NO_READ
    ensures
      var raw := top * LA_NO_READ + rest;
      raw < U64 && (Set(raw, LA_NO_READ) <==> top % 2 == 1) && (Set(raw, LA_NO_EXECUTE) <==> top >= 2)
  {
    DivOfSum(top, rest, LA_NO_READ);
    DivOfSum(top / 2, top % 2 * LA_NO_READ + rest, LA_NO_EXECUTE);
  }

  lemma LaFlagsRead(o: Options)
    ensures
      var flags := LaFlags(o);
      && Set(flags, 128) && (Set(flags, 256) <==> o.writable) && (Set(flags, 64) <==> o.global)
      && (flags / 4 % 4 == 3 <==> o.user) && flags / 16 % 4 * 16 == LaMemory(o.memory)
  {
  }

  /** A leaf can be written exactly for the mappings the page table accepts, and it is read back whole. */
  lemma LaLeafRoundTrip(g: Geometry, frame: Frame, o: Options)
    requires g.format.Sentinel?
    ensures LaLeaf(frame, o).Ok? <==> g.LeafEncodable(frame, o)
    ensures LaLeaf(frame, o).Ok? ==> LaLeaf(frame, o).raw < U64 && LaReadLeaf(LaLeaf(frame, o).raw) == Leaf(frame, o)
  {
    if LaLeaf(frame, o).Ok? {
      var top := If(!o.readable, 1) + If(!o.executable, 2);
      assert LaTop(o) == top * LA_NO_READ;
      LaParts(top, frame, LaFlags(o));
      LaFlagsRead(o);
    }
  }

  lemma LaTableRoundTrip(g: Geometry, frame: Frame)
    requires g.format.Sentinel?
    ensures LaTable(frame).Ok? <==> g.TableEncodable(frame)
    ensures LaTable(frame).Ok? ==> LaTable(frame).raw < U64 && LaReadPointer(LaTable(frame).raw) == Pointer(frame)
  {
  }

  /** The entry that marks a page as not mapped is read as such. */
  lemma LaInvalidIsEmpty()
    ensures LaReadLeaf(LA_INVALID_GLOBAL) == Empty
  {
  }
}
