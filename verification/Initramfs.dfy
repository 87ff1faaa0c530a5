/** The newc archive printer and parser of kernel/src/initramfs.rs. */
module Initramfs {
  import opened Machine

  const HEADER_LEN: nat := 110
  const FIELD_LEN: nat := 8
  const U32: nat := 0x1_0000_0000
  const FILE_MODE: nat := 0x81ed

  datatype Error = AddressOverflow | InvalidArchive | InvalidHex | InvalidName | NotFound

  datatype Result<T> = Ok(value: T) | Err(error: Error)

  datatype Kind = Regular | Directory | Symlink | Other

  datatype Entry = Entry(name: seq<byte>, mode: nat, kind: Kind, data: seq<byte>)

  /** "070701" */
  const MAGIC: seq<byte> := [0x30, 0x37, 0x30, 0x37, 0x30, 0x31]

  /** "TRAILER!!!" */
  const TRAILER: seq<byte> := [0x54, 0x52, 0x41, 0x49, 0x4c, 0x45, 0x52, 0x21, 0x21, 0x21]

  const SLASH: byte := 0x2f

  // ------------------------------------------------------------ hexadecimal

  function HexChar(d: nat): byte
    requires d < 16
  {
    (if d < 10 then 0x30 + d else 0x61 + (d - 10)) as byte
  }

  function Digit(b: byte): (r: Option<nat>)
    ensures r.Some? ==> r.value < 16
  {
    if 0x30 <= b <= 0x39 then Some((b - 0x30) as nat)
    else if 0x61 <= b <= 0x66 then Some((b - 0x61 + 10) as nat)
    else if 0x41 <= b <= 0x46 then Some((b - 0x41 + 10) as nat)
    else None
  }

  /** The value of a field as the 32-bit accumulator computes it. */
  function HexValue(field: seq<byte>): Option<nat> {
    if field == [] then Some(0)
    else
      match (HexValue(field[..|field| - 1]), Digit(field[|field| - 1]))
      case (Some(v), Some(d)) => Some(v * 16 % U32 + d)
      case _ => None
  }

  function HexDigits(v: nat, n: nat): (s: seq<byte>)
    ensures |s| == n
  {
    if n == 0 then [] else HexDigits(v / 16, n - 1) + [HexChar(v % 16)]
  }

  function Pow16(n: nat): (r: nat)
    ensures r > 0
  {
    if n == 0 then 1 else 16 * Pow16(n - 1)
  }

  lemma {:induction false} Pow16Grows(n: nat, k: nat)
    requires n <= k
    ensures Pow16(n) <= Pow16(k)
    decreases k
  {
    if n < k {
      Pow16Grows(n, k - 1);
    }
  }

  lemma FieldRange()
    ensures Pow16(FIELD_LEN) == U32
  {
    assert Pow16(FIELD_LEN) == Pow16(8);
    assert Pow16(4) == 0x1_0000;
  }

  /** What is printed in a field is read back from it. */
  lemma {:induction false} HexRoundTrip(v: nat, n: nat)
    requires v < Pow16(n) && n <= FIELD_LEN
    ensures HexValue(HexDigits(v, n)) == Some(v)
    decreases n
  {
    if n > 0 {
      HexRoundTrip(v / 16, n - 1);
      var s := HexDigits(v, n);
      assert s[..n - 1] == HexDigits(v / 16, n - 1);
      HexStep(v, n);
    }
  }

  lemma HexStep(v: nat, n: nat)
    requires v < Pow16(n) && n <= FIELD_LEN
    ensures v / 16 * 16 % U32 + v % 16 == v && Digit(HexChar(v % 16)) == Some(v % 16)
  {
    FieldRange();
    Pow16Grows(n, FIELD_LEN);
  }

  /** The accumulator loop of `parse_hex_field`. */
  method ParseHexField(header: seq<byte>, offset: nat) returns (r: Result<nat>)
    ensures r == FieldAt(header, offset)
  {
    if offset + FIELD_LEN > |header| {
      return Err(InvalidArchive);
    }
    var field := header[offset..offset + FIELD_LEN];
    var value, i := 0, 0;
    while i < |field|
      invariant 0 <= i <= |field| && HexValue(field[..i]) == Some(value)
    {
      assert field[..i + 1][..i] == field[..i];
      var digit := Digit(field[i]);
      if digit.None? {
        BadDigit(field, i);
        return Err(InvalidHex);
      }
      value := value * 16 % U32 + digit.value;
      i := i + 1;
    }
    assert field[..i] == field;
    return Ok(value);
  }

  lemma {:induction false} BadDigit(field: seq<byte>, i: nat)
    requires i < |field| && Digit(field[i]).None?
    ensures HexValue(field).None?
    decreases |field|
  {
    if i < |field| - 1 {
      BadDigit(field[..|field| - 1], i);
    }
  }

  function FieldAt(header: seq<byte>, offset: nat): Result<nat> {
    if offset + FIELD_LEN > |header| then Err(InvalidArchive)
    else
      match HexValue(header[offset..offset + FIELD_LEN])
      case None => Err(InvalidHex)
      case Some(v) => Ok(v)
  }

  // --------------------------------------------------------------- printing

  function Fields(vs: seq<nat>): (s: seq<byte>)
    ensures |s| == |vs| * FIELD_LEN
  {
    if vs == [] then [] else Fields(vs[..|vs| - 1]) + HexDigits(vs[|vs| - 1], FIELD_LEN)
  }

  lemma {:induction false} FieldsAt(vs: seq<nat>, i: nat)
    requires i < |vs|
    ensures Fields(vs)[i * FIELD_LEN..i * FIELD_LEN + FIELD_LEN] == HexDigits(vs[i], FIELD_LEN)
    decreases |vs|
  {
    var n := |vs| - 1;
    var front, back := Fields(vs[..n]), HexDigits(vs[n], FIELD_LEN);
    assert Fields(vs) == front + back;
    if i < n {
      FieldsAt(vs[..n], i);
      SliceInFront(front, back, i * FIELD_LEN, FIELD_LEN);
    } else {
      SliceAtBack(front, back);
    }
  }

  /** The thirteen numbers of a header, sizes cut to 32 bits. */
  function Numbers(nameSize: nat, dataSize: nat): (vs: seq<nat>)
    ensures |vs| == 13
  {
    [1, FILE_MODE, 0, 0, 1, 0, dataSize % U32, 0, 0, 0, 0, nameSize % U32, 0]
  }

  function Header(nameSize: nat, dataSize: nat): (h: seq<byte>)
    ensures |h| == HEADER_LEN
  {
    MAGIC + Fields(Numbers(nameSize, dataSize))
  }

  function AlignUp(x: nat): (r: nat)
    ensures x <= r < x + 4 && r % 4 == 0 && (x % 4 == 0 ==> r == x)
  {
    (x + 3) / 4 * 4
  }

  function Padding(length: nat): seq<byte> {
    seq(AlignUp(length) - length, i => 0)
  }

  /** What one entry adds to an archive of the given length. */
  function Encoded(at: nat, name: seq<byte>, data: seq<byte>): seq<byte> {
    var head := Header(|name| + 1, |data|) + name + [0];
    var named := head + Padding(at + |head|);
    var full := named + data;
    full + Padding(at + |full|)
  }

  class Builder {
    var archive: seq<byte>

    constructor ()
      ensures archive == []
    {
      archive := [];
    }

    /** `pad_to_4`. */
    method PadTo4()
      modifies this
      ensures archive == old(archive) + Padding(|old(archive)|)
    {
      ghost var was := archive;
      while |archive| % 4 != 0
        invariant was <= archive && |archive| <= AlignUp(|was|)
        invariant forall i :: |was| <= i < |archive| ==> archive[i] == 0
        decreases AlignUp(|was|) - |archive|
      {
        archive := archive + [0];
      }
      assert archive == was + Padding(|was|);
    }

    /** `append_newc_entry`. */
    method Append(name: seq<byte>, data: seq<byte>)
      modifies this
      ensures archive == old(archive) + Encoded(|old(archive)|, name, data)
    {
      ghost var was := archive;
      ghost var head := Header(|name| + 1, |data|) + name + [0];
      archive := archive + Header(|name| + 1, |data|);
      archive := archive + name + [0];
      Behind(was, Header(|name| + 1, |data|), name, [0]);
      PadTo4();
      ghost var pad := Padding(|was| + |head|);
      archive := archive + data;
      Behind(was, head, pad, data);
      PadTo4();
      Joined(was, head + pad + data, Padding(|was| + |head + pad + data|));
    }
  }

  // ---------------------------------------------------------------- parsing

  predicate Tail(b: byte) {
    0x80 <= b <= 0xbf
  }

  /** The length of the well-formed UTF-8 sequence at `i`, or zero: table 3-7 of the Unicode Standard. */
  function CharLen(s: seq<byte>, i: nat): nat
    requires i < |s|
  {
    var n := |s| - i;
    if s[i] < 0x80 then 1
    else if 0xc2 <= s[i] <= 0xdf && n >= 2 && Tail(s[i + 1]) then 2
    else if 0xe0 <= s[i] <= 0xef && n >= 3 && Tail(s[i + 1]) && Tail(s[i + 2])
            && (s[i] == 0xe0 ==> s[i + 1] >= 0xa0) && (s[i] == 0xed ==> s[i + 1] <= 0x9f) then 3
    else if 0xf0 <= s[i] <= 0xf4 && n >= 4 && Tail(s[i + 1]) && Tail(s[i + 2]) && Tail(s[i + 3])
            && (s[i] == 0xf0 ==> s[i + 1] >= 0x90) && (s[i] == 0xf4 ==> s[i + 1] <= 0x8f) then 4
    else 0
  }

  predicate ValidFrom(s: seq<byte>, i: nat)
    decreases |s| - i
  {
    i >= |s| || (CharLen(s, i) > 0 && ValidFrom(s, i + CharLen(s, i)))
  }

  predicate ValidUtf8(s: seq<byte>) {
    ValidFrom(s, 0)
  }

  function KindOf(mode: nat): Kind {
    match mode / 0x1000 % 16
    case 8 => Regular
    case 4 => Directory
    case 10 => Symlink
    case _ => Other
  }

  /** `parse_entry`: the entry at `cursor` and where the next one begins. */
  function ParseEntry(archive: seq<byte>, cursor: nat): (r: Result<(Entry, nat)>)
    ensures r.Ok? ==> cursor + HEADER_LEN <= r.value.1 <= |archive|
  {
    if cursor + HEADER_LEN >= U64 then Err(AddressOverflow)
    else if cursor + HEADER_LEN > |archive| then Err(InvalidArchive)
    else
      var header := archive[cursor..cursor + HEADER_LEN];
      if header[..6] != MAGIC then Err(InvalidArchive)
      else match FieldAt(header, 14)
        case Err(e) => Err(e)
        case Ok(mode) =>
          match FieldAt(header, 54)
          case Err(e) => Err(e)
          case Ok(fileSize) =>
            match FieldAt(header, 94)
            case Err(e) => Err(e)
            case Ok(nameSize) => ParseBody(archive, cursor + HEADER_LEN, mode, fileSize, nameSize)
  }

  function ParseBody(archive: seq<byte>, start: nat, mode: nat, fileSize: nat, nameSize: nat): (r: Result<(Entry, nat)>)
    ensures r.Ok? ==> start <= r.value.1 <= |archive|
  {
    var nameEnd := start + nameSize;
    if nameSize == 0 then Err(InvalidName)
    else if nameEnd >= U64 then Err(AddressOverflow)
    else if nameEnd > |archive| then Err(InvalidArchive)
    else if archive[nameEnd - 1] != 0 then Err(InvalidName)
    else if !ValidUtf8(archive[start..nameEnd - 1]) then Err(InvalidName)
    else if nameEnd + 3 >= U64 then Err(AddressOverflow)
    else
      var dataStart := AlignUp(nameEnd);
      var dataEnd := dataStart + fileSize;
      if dataEnd >= U64 then Err(AddressOverflow)
      else if dataEnd > |archive| then Err(InvalidArchive)
      else if dataEnd + 3 >= U64 then Err(AddressOverflow)
      else if AlignUp(dataEnd) > |archive| then Err(InvalidArchive)
      else Ok((Entry(archive[start..nameEnd - 1], mode, KindOf(mode), archive[dataStart..dataEnd]), AlignUp(dataEnd)))
  }

  /** The type bits decide the kind, whatever the other bits are. */
  lemma KindOfMode(upper: nat, kind: nat, permissions: nat)
    requires kind < 16 && permissions < 0x1000
    ensures
      var mode := upper * 0x1_0000 + kind * 0x1000 + permissions;
      && (KindOf(mode) == Regular <==> kind == 0x8) && (KindOf(mode) == Directory <==> kind == 0x4)
      && (KindOf(mode) == Symlink <==> kind == 0xa)
  {
    var mode := upper * 0x1_0000 + kind * 0x1000 + permissions;
    assert mode == 0x1000 * (upper * 16 + kind) + permissions;
    DivOfSum(upper * 16 + kind, permissions, 0x1000);
  }

  /** A byte is a digit exactly if it is printed for one in small or in capital letters. */
  lemma DigitExactly(b: byte, v: nat)
    requires v < 16
    ensures Digit(b) == Some(v) <==> b as char == "0123456789abcdef"[v] || b as char == "0123456789ABCDEF"[v]
  {
  }

  /** What was found of an entry stands in the archive where the format has it. */
  lemma ParsedMeans(archive: seq<byte>, cursor: nat)
    requires ParseEntry(archive, cursor).Ok?
    ensures
      var (entry, next) := ParseEntry(archive, cursor).value;
      var nameEnd := cursor + 110 + |entry.name| + 1;
      && nameEnd <= |archive| && next <= |archive| && next % 4 == 0
      && archive[cursor..cursor + 6] == MAGIC
      && HexValue(archive[cursor + 14..cursor + 22]) == Some(entry.mode)
      && HexValue(archive[cursor + 54..cursor + 62]) == Some(|entry.data|)
      && HexValue(archive[cursor + 94..cursor + 102]) == Some(|entry.name| + 1)
      && archive[cursor + 110..nameEnd] == entry.name + [0] && ValidUtf8(entry.name)
      && 0 <= next - |entry.data| - nameEnd < 8
      && exists start :: nameEnd <= start < nameEnd + 4 && start % 4 == 0 && HasData(archive, start, entry.data, next)
  {
    var header := archive[cursor..cursor + HEADER_LEN];
    assert archive[cursor..cursor + 6] == header[..6];
    assert archive[cursor + 14..cursor + 22] == header[14..14 + FIELD_LEN];
    assert archive[cursor + 54..cursor + 62] == header[54..54 + FIELD_LEN];
    assert archive[cursor + 94..cursor + 102] == header[94..94 + FIELD_LEN];
    var (entry, next) := ParseEntry(archive, cursor).value;
    assert HasData(archive, AlignUp(cursor + 110 + |entry.name| + 1), entry.data, next);
  }

  predicate HasData(archive: seq<byte>, start: nat, data: seq<byte>, next: nat) {
    start + |data| <= next < start + |data| + 4 && next <= |archive| && archive[start..start + |data|] == data
  }

  // ------------------------------------------------------------------ UTF-8

  predicate Scalar(c: nat) {
    c < 0xd800 || 0xe000 <= c < 0x11_0000
  }

  /** The UTF-8 form of a character, as RFC 3629 has it. */
  function Utf8(c: nat): (s: seq<byte>)
    requires Scalar(c)
    ensures 1 <= |s| <= 4
  {
    if c < 0x80 then [c as byte]
    else if c < 0x800 then [(0xc0 + c / 0x40) as byte, (0x80 + c % 0x40) as byte]
    else if c < 0x1_0000 then
      [(0xe0 + c / 0x1000) as byte, (0x80 + c / 0x40 % 0x40) as byte, (0x80 + c % 0x40) as byte]
    else
      [(0xf0 + c / 0x4_0000) as byte, (0x80 + c / 0x1000 % 0x40) as byte, (0x80 + c / 0x40 % 0x40) as byte,
       (0x80 + c % 0x40) as byte]
  }

  ghost predicate Scalars(cs: seq<nat>) {
    forall i :: 0 <= i < |cs| ==> Scalar(cs[i])
  }

  function Text(cs: seq<nat>): seq<byte>
    requires Scalars(cs)
  {
    if cs == [] then [] else Utf8(cs[0]) + Text(cs[1..])
  }

  /** The character at `i`. */
  function CharAt(s: seq<byte>, i: nat): nat
    requires i < |s| && CharLen(s, i) > 0
  {
    match CharLen(s, i)
    case 1 => s[i] as nat
    case 2 => (s[i] as nat - 0xc0) * 0x40 + (s[i + 1] as nat - 0x80)
    case 3 => ((s[i] as nat - 0xe0) * 0x40 + (s[i + 1] as nat - 0x80)) * 0x40 + (s[i + 2] as nat - 0x80)
    case 4 =>
      (((s[i] as nat - 0xf0) * 0x40 + (s[i + 1] as nat - 0x80)) * 0x40 + (s[i + 2] as nat - 0x80)) * 0x40
      + (s[i + 3] as nat - 0x80)
  }

  lemma SixBits(a: nat, d: nat)
    requires d < 0x40
    ensures (a * 0x40 + d) / 0x40 == a && (a * 0x40 + d) % 0x40 == d
  {
  }

  lemma TwelveBits(a: nat, c: nat, d: nat)
    requires c < 0x40 && d < 0x40
    ensures
      var v := (a * 0x40 + c) * 0x40 + d;
      v / 0x1000 == a && v / 0x40 % 0x40 == c && v % 0x40 == d
  {
    SixBits(a, c);
    SixBits(a * 0x40 + c, d);
  }

  lemma EighteenBits(a: nat, b: nat, c: nat, d: nat)
    requires b < 0x40 && c < 0x40 && d < 0x40
    ensures
      var v := ((a * 0x40 + b) * 0x40 + c) * 0x40 + d;
      v / 0x4_0000 == a && v / 0x1000 % 0x40 == b && v / 0x40 % 0x40 == c && v % 0x40 == d
  {
    SixBits(a, b);
    TwelveBits(a * 0x40 + b, c, d);
  }

  lemma CharIsScalar(s: seq<byte>, i: nat)
    requires i < |s| && CharLen(s, i) > 0
    ensures i + CharLen(s, i) <= |s| && Scalar(CharAt(s, i)) && Utf8(CharAt(s, i)) == s[i..i + CharLen(s, i)]
  {
    var n := CharLen(s, i);
    if n == 2 {
      TwoBytes(s[i], s[i + 1]);
      assert s[i..i + 2] == [s[i], s[i + 1]];
    } else if n == 3 {
      ThreeBytes(s[i], s[i + 1], s[i + 2]);
      assert s[i..i + 3] == [s[i], s[i + 1], s[i + 2]];
    } else if n == 4 {
      FourBytes(s[i], s[i + 1], s[i + 2], s[i + 3]);
      assert s[i..i + 4] == [s[i], s[i + 1], s[i + 2], s[i + 3]];
    }
  }

  lemma TwoBytes(w: byte, x: byte)
    requires 0xc2 <= w <= 0xdf && Tail(x)
    ensures
      var c := (w as nat - 0xc0) * 0x40 + (x as nat - 0x80);
      0x80 <= c < 0x800 && Utf8(c) == [w, x]
  {
    SixBits(w as nat - 0xc0, x as nat - 0x80);
  }

  lemma ThreeBytes(w: byte, x: byte, y: byte)
    requires 0xe0 <= w <= 0xef && Tail(x) && Tail(y)
    requires (w == 0xe0 ==> x >= 0xa0) && (w == 0xed ==> x <= 0x9f)
    ensures
      var c := ((w as nat - 0xe0) * 0x40 + (x as nat - 0x80)) * 0x40 + (y as nat - 0x80);
      0x800 <= c < 0x1_0000 && Scalar(c) && Utf8(c) == [w, x, y]
  {
    TwelveBits(w as nat - 0xe0, x as nat - 0x80, y as nat - 0x80);
  }

  lemma FourBytes(w: byte, x: byte, y: byte, z: byte)
    requires 0xf0 <= w <= 0xf4 && Tail(x) && Tail(y) && Tail(z)
    requires (w == 0xf0 ==> x >= 0x90) && (w == 0xf4 ==> x <= 0x8f)
    ensures
      var c := (((w as nat - 0xf0) * 0x40 + (x as nat - 0x80)) * 0x40 + (y as nat - 0x80)) * 0x40 + (z as nat - 0x80);
      0x1_0000 <= c < 0x11_0000 && Utf8(c) == [w, x, y, z]
  {
    EighteenBits(w as nat - 0xf0, x as nat - 0x80, y as nat - 0x80, z as nat - 0x80);
  }

  lemma ScalarIsChar(c: nat, rest: seq<byte>)
    requires Scalar(c)
    ensures CharLen(Utf8(c) + rest, 0) == |Utf8(c)|
  {
  }

  lemma {:induction false} ShiftedValid(s: seq<byte>, n: nat, i: nat)
    requires n <= i && n <= |s|
    ensures ValidFrom(s, i) <==> ValidFrom(s[n..], i - n)
    decreases |s| - i
  {
    if i < |s| {
      assert CharLen(s, i) == CharLen(s[n..], i - n);
      if CharLen(s, i) > 0 {
        ShiftedValid(s, n, i + CharLen(s, i));
      }
    }
  }

  /** Every text is accepted. */
  lemma {:induction false} TextIsValid(cs: seq<nat>)
    requires Scalars(cs)
    ensures ValidUtf8(Text(cs))
  {
    if cs != [] {
      var first, rest := Utf8(cs[0]), Text(cs[1..]);
      TextIsValid(cs[1..]);
      ScalarIsChar(cs[0], rest);
      assert (first + rest)[|first|..] == rest;
      ShiftedValid(first + rest, |first|, |first|);
    }
  }

  /** And only text is. */
  lemma {:induction false} ValidIsText(s: seq<byte>) returns (cs: seq<nat>)
    requires ValidUtf8(s)
    ensures Scalars(cs) && Text(cs) == s
    decreases |s|
  {
    cs := [];
    if s != [] {
      var n := CharLen(s, 0);
      CharIsScalar(s, 0);
      ShiftedValid(s, n, n);
      var rest := ValidIsText(s[n..]);
      cs := [CharAt(s, 0)] + rest;
      assert cs[1..] == rest && s == s[0..n] + s[n..];
    }
  }

  /** The names the parser accepts are exactly the UTF-8 forms of sequences of characters. */
  lemma NamesAreText(s: seq<byte>)
    ensures ValidUtf8(s) <==> exists cs :: Scalars(cs) && Text(cs) == s
  {
    if ValidUtf8(s) {
      var cs := ValidIsText(s);
    }
    forall cs | Scalars(cs) && Text(cs) == s ensures ValidUtf8(s) {
      TextIsValid(cs);
    }
  }

  /** The entry that is printed for a file. */
  function FileEntry(name: seq<byte>, data: seq<byte>): Entry {
    Entry(name, 0x81ed, Regular, data)
  }

  /** A number printed in a header is read back from it. */
  lemma HeaderField(nameSize: nat, dataSize: nat, i: nat)
    requires i < 13
    ensures FieldAt(Header(nameSize, dataSize), 6 + i * FIELD_LEN) == Ok(Numbers(nameSize, dataSize)[i])
  {
    var vs := Numbers(nameSize, dataSize);
    var h := Header(nameSize, dataSize);
    FieldsAt(vs, i);
    assert h[6 + i * FIELD_LEN..6 + i * FIELD_LEN + FIELD_LEN] == Fields(vs)[i * FIELD_LEN..i * FIELD_LEN + FIELD_LEN];
    FieldRange();
    assert vs[i] < U32;
    HexRoundTrip(vs[i], FIELD_LEN);
  }

  /** The entry for a file, printed at offset `at`, with the header `h`. */
  ghost predicate Shape(e: seq<byte>, at: nat, h: seq<byte>, name: seq<byte>, data: seq<byte>) {
    var nameEnd := HEADER_LEN + |name| + 1;
    var dataStart := AlignUp(at + nameEnd) - at;
    && |h| == HEADER_LEN && AlignUp(at + dataStart + |data|) == at + |e|
    && e[..HEADER_LEN] == h && e[HEADER_LEN..nameEnd - 1] == name && e[nameEnd - 1] == 0
    && e[dataStart..dataStart + |data|] == data
  }

  lemma EncodedShape(at: nat, name: seq<byte>, data: seq<byte>)
    ensures Shape(Encoded(at, name, data), at, Header(|name| + 1, |data|), name, data)
  {
    var h := Header(|name| + 1, |data|);
    var head := h + name + [0];
    var named := head + Padding(at + |head|);
    var e := Encoded(at, name, data);
    assert e == named + data + Padding(at + |named + data|);
    assert e[..HEADER_LEN] == h && e[HEADER_LEN..HEADER_LEN + |name|] == name;
  }

  /** The parts of the entry stand in the archive from `at` to `end`. */
  ghost predicate Holds(archive: seq<byte>, at: nat, h: seq<byte>, name: seq<byte>, data: seq<byte>, end: nat) {
    var start, nameEnd := at + HEADER_LEN, at + HEADER_LEN + |name| + 1;
    var dataStart := AlignUp(nameEnd);
    && |h| == HEADER_LEN && AlignUp(dataStart + |data|) == end <= |archive|
    && archive[at..start] == h && archive[start..nameEnd - 1] == name && archive[nameEnd - 1] == 0
    && archive[dataStart..dataStart + |data|] == data
  }

  lemma ShapeHolds(archive: seq<byte>, at: nat, e: seq<byte>, h: seq<byte>, name: seq<byte>, data: seq<byte>)
    requires at + |e| <= |archive| && archive[at..at + |e|] == e && Shape(e, at, h, name, data)
    ensures Holds(archive, at, h, name, data, at + |e|)
  {
    var nameEnd := HEADER_LEN + |name| + 1;
    var dataStart := AlignUp(at + nameEnd) - at;
    Within(archive, at, e, 0, HEADER_LEN);
    Within(archive, at, e, HEADER_LEN, nameEnd - 1);
    assert archive[at + (nameEnd - 1)] == archive[at..at + |e|][nameEnd - 1];
    Within(archive, at, e, dataStart, dataStart + |data|);
  }

  lemma Within(archive: seq<byte>, at: nat, e: seq<byte>, from: nat, to: nat)
    requires at + |e| <= |archive| && archive[at..at + |e|] == e && from <= to <= |e|
    ensures archive[at + from..at + to] == e[from..to]
  {
    forall i | 0 <= i < to - from ensures archive[at + from..at + to][i] == e[from..to][i] {
      assert archive[at..at + |e|][from + i] == e[from + i];
    }
  }

  /** What the parser reads from a header. */
  ghost predicate HeaderSays(h: seq<byte>, nameSize: nat, dataSize: nat) {
    && |h| == HEADER_LEN && h[..6] == MAGIC
    && FieldAt(h, 14) == Ok(FILE_MODE) && FieldAt(h, 54) == Ok(dataSize) && FieldAt(h, 94) == Ok(nameSize)
  }

  /** What stands in the archive part by part is parsed as a whole. */
  lemma PartsParse(archive: seq<byte>, at: nat, h: seq<byte>, name: seq<byte>, data: seq<byte>, end: nat)
    requires Holds(archive, at, h, name, data, end) && |archive| < U64 - 3
    requires HeaderSays(h, |name| + 1, |data|) && ValidUtf8(name)
    ensures ParseEntry(archive, at) == Ok((FileEntry(name, data), end))
  {
    ParsesHeader(archive, at, h, |data|, |name| + 1);
    ParsesBody(archive, at + HEADER_LEN, name, data, end);
  }

  lemma HeaderReads(nameSize: nat, dataSize: nat)
    requires nameSize < U32 && dataSize < U32
    ensures HeaderSays(Header(nameSize, dataSize), nameSize, dataSize)
  {
    var h := Header(nameSize, dataSize);
    assert FieldAt(h, 14) == Ok(FILE_MODE) by { HeaderField(nameSize, dataSize, 1); }
    assert FieldAt(h, 54) == Ok(dataSize) by { HeaderField(nameSize, dataSize, 6); }
    assert FieldAt(h, 94) == Ok(nameSize) by { HeaderField(nameSize, dataSize, 11); }
    Starts(MAGIC, Fields(Numbers(nameSize, dataSize)));
  }

  lemma Starts(a: seq<byte>, b: seq<byte>)
    ensures (a + b)[..|a|] == a
  {
  }

  lemma ParsesHeader(archive: seq<byte>, at: nat, header: seq<byte>, fileSize: nat, nameSize: nat)
    requires at + HEADER_LEN <= |archive| < U64 - 3 && archive[at..at + HEADER_LEN] == header && header[..6] == MAGIC
    requires FieldAt(header, 14) == Ok(FILE_MODE) && FieldAt(header, 54) == Ok(fileSize)
    requires FieldAt(header, 94) == Ok(nameSize)
    ensures ParseEntry(archive, at) == ParseBody(archive, at + HEADER_LEN, FILE_MODE, fileSize, nameSize)
  {
  }

  lemma ParsesBody(archive: seq<byte>, start: nat, name: seq<byte>, data: seq<byte>, end: nat)
    requires |archive| < U64 - 3 && end <= |archive| && ValidUtf8(name)
    requires
      var nameEnd := start + |name| + 1;
      var dataStart := AlignUp(nameEnd);
      && AlignUp(dataStart + |data|) == end && archive[start..nameEnd - 1] == name && archive[nameEnd - 1] == 0
      && archive[dataStart..dataStart + |data|] == data
    ensures ParseBody(archive, start, FILE_MODE, |data|, |name| + 1) == Ok((FileEntry(name, data), end))
  {
  }

  // ------------------------------------------------------- whole archives

  datatype File = File(name: seq<byte>, data: seq<byte>) {
    /** What the printer can represent and does not confuse with the trailer. */
    predicate Fits() {
      Printable() && name != TRAILER
    }

    predicate Printable() {
      ValidUtf8(name) && |name| + 1 < U32 && |data| < U32
    }
  }

  /** What closes an archive. */
  const END: File := File(TRAILER, [])

  /** The archive of some files from offset `at` on, closed by `last`. */
  function Printed(files: seq<File>, last: File, at: nat): seq<byte>
    decreases |files|, 1
  {
    if files == [] then Encoded(at, last.name, last.data)
    else Followed(Encoded(at, files[0].name, files[0].data), files[1..], last, at)
  }

  /** An entry at `at` and the files behind it. */
  function Followed(e: seq<byte>, rest: seq<File>, last: File, at: nat): seq<byte>
    decreases |rest|, 2
  {
    e + Printed(rest, last, at + |e|)
  }

  /** Append all files and close the archive with the trailer. */
  method BuildArchive(files: seq<File>) returns (archive: seq<byte>)
    ensures archive == Printed(files, END, 0)
  {
    var b := new Builder();
    var i := 0;
    assert files[0..] == files;
    while i < |files|
      invariant 0 <= i <= |files| && b.archive + Printed(files[i..], END, |b.archive|) == Printed(files, END, 0)
    {
      PrintedStep(b.archive, files, END, i);
      b.Append(files[i].name, files[i].data);
      i := i + 1;
    }
    b.Append(END.name, END.data);
    return b.archive;
  }

  lemma PrintedStep(done: seq<byte>, files: seq<File>, last: File, i: nat)
    requires i < |files|
    ensures
      var e := Encoded(|done|, files[i].name, files[i].data);
      done + Printed(files[i..], last, |done|) == done + e + Printed(files[i + 1..], last, |done + e|)
  {
    PrintedFirst(files[i..], last, |done|, Encoded(|done|, files[i].name, files[i].data));
    assert files[i..][1..] == files[i + 1..];
    Prepended(done, Encoded(|done|, files[i].name, files[i].data), files[i..], files[i + 1..], last);
  }

  lemma PrintedFirst(files: seq<File>, last: File, at: nat, e: seq<byte>)
    requires files != [] && e == Encoded(at, files[0].name, files[0].data)
    ensures Printed(files, last, at) == e + Printed(files[1..], last, at + |e|)
  {
  }

  lemma Prepended(done: seq<byte>, e: seq<byte>, files: seq<File>, rest: seq<File>, last: File)
    requires Printed(files, last, |done|) == e + Printed(rest, last, |done| + |e|)
    ensures done + Printed(files, last, |done|) == done + e + Printed(rest, last, |done + e|)
  {
    Joined(done, e, Printed(rest, last, |done| + |e|));
  }

  lemma Behind(a: seq<byte>, b: seq<byte>, c: seq<byte>, d: seq<byte>)
    ensures a + b + c + d == a + (b + c + d) && |a + b| == |a| + |b|
  {
  }

  lemma Joined(a: seq<byte>, b: seq<byte>, c: seq<byte>)
    ensures a + (b + c) == a + b + c && |a + b| == |a| + |b|
  {
  }

  /** All entries from `cursor` up to and including the trailer. */
  function Listing(archive: seq<byte>, cursor: nat): Result<seq<Entry>>
    decreases |archive| - cursor
  {
    match ParseEntry(archive, cursor)
    case Err(e) => Err(e)
    case Ok((entry, next)) =>
      if entry.name == TRAILER then Ok([entry])
      else match Listing(archive, next)
        case Err(e) => Err(e)
        case Ok(rest) => Ok([entry] + rest)
  }

  /** Whether a listing succeeds, and if not why. */
  function Verdict(archive: seq<byte>, cursor: nat): Result<()> {
    match Listing(archive, cursor)
    case Err(e) => Err(e)
    case Ok(_) => Ok(())
  }

  /** `validate`: it accepts exactly the archives whose entries can be listed up to a trailer. */
  method Validate(archive: seq<byte>) returns (r: Result<()>)
    requires |archive| < U64 / 2
    ensures r == Verdict(archive, 0)
  {
    var cursor := 0;
    ghost var verdict := Verdict(archive, 0);
    while true
      invariant cursor <= |archive| && Verdict(archive, cursor) == verdict
      decreases |archive| - cursor
    {
      VerdictStep(archive, cursor);
      var entry := ParseEntry(archive, cursor);
      if entry.Err? {
        return Err(entry.error);
      }
      cursor := entry.value.1;
      if entry.value.0.name == TRAILER {
        return Ok(());
      }
      if cursor >= |archive| {
        PastTheEnd(archive, cursor);
        return Err(InvalidArchive);
      }
    }
  }

  lemma VerdictStep(archive: seq<byte>, cursor: nat)
    ensures
      match ParseEntry(archive, cursor)
      case Err(e) => Verdict(archive, cursor) == Err(e)
      case Ok((entry, next)) =>
        Verdict(archive, cursor) == if entry.name == TRAILER then Ok(()) else Verdict(archive, next)
  {
  }

  lemma PastTheEnd(archive: seq<byte>, cursor: nat)
    requires cursor == |archive| && cursor + HEADER_LEN < U64
    ensures Verdict(archive, cursor) == Err(InvalidArchive)
  {
  }

  function Entries(files: seq<File>, last: File): seq<Entry> {
    if files == [] then [FileEntry(last.name, last.data)]
    else [FileEntry(files[0].name, files[0].data)] + Entries(files[1..], last)
  }

  lemma TrailerFits()
    ensures ValidUtf8(TRAILER) && |TRAILER| + 1 < U32
  {
    assert |TRAILER| == 10;
    assert ValidFrom(TRAILER, 10);
    assert ValidFrom(TRAILER, 9);
    assert ValidFrom(TRAILER, 8);
    assert ValidFrom(TRAILER, 7);
    assert ValidFrom(TRAILER, 6);
    assert ValidFrom(TRAILER, 5);
    assert ValidFrom(TRAILER, 4);
    assert ValidFrom(TRAILER, 3);
    assert ValidFrom(TRAILER, 2);
    assert ValidFrom(TRAILER, 1);
  }

  /** Printing then listing gives the same names and data in the same order. */
  lemma {:induction false} ArchiveRoundTrip(archive: seq<byte>, at: nat, files: seq<File>, last: File)
    requires at <= |archive| < U64 - 3 && archive[at..] == Printed(files, last, at)
    requires (forall i :: 0 <= i < |files| ==> files[i].Fits()) && last.Printable() && last.name == TRAILER
    ensures Listing(archive, at) == Ok(Entries(files, last))
    decreases |files|
  {
    var next := FirstEntry(archive, at, files, last);
    if files == [] {
      LastListed(archive, at, FileEntry(last.name, last.data), next);
    } else {
      ArchiveRoundTrip(archive, next, files[1..], last);
      MoreListed(archive, at, FileEntry(files[0].name, files[0].data), next, Entries(files[1..], last));
    }
  }

  /** The first entry of an archive is parsed, and the others follow it. */
  lemma FirstEntry(archive: seq<byte>, at: nat, files: seq<File>, last: File) returns (next: nat)
    requires at <= |archive| < U64 - 3 && archive[at..] == Printed(files, last, at)
    requires (files + [last])[0].Printable()
    ensures var f := (files + [last])[0]; ParseEntry(archive, at) == Ok((FileEntry(f.name, f.data), next))
    ensures next <= |archive| && (files != [] ==> archive[next..] == Printed(files[1..], last, next))
  {
    var f := (files + [last])[0];
    var e := Encoded(at, f.name, f.data);
    next := at + |e|;
    if files == [] {
      assert e + [] == e;
    } else {
      PrintedFirst(files, last, at, e);
    }
    Cut(archive, at, e, if files == [] then [] else Printed(files[1..], last, next));
    EntryRoundTrip(archive, at, f.name, f.data, e);
  }

  /** The printed entry of a file is parsed back, and parsing stops where printing did. */
  lemma EntryRoundTrip(archive: seq<byte>, at: nat, name: seq<byte>, data: seq<byte>, e: seq<byte>)
    requires e == Encoded(at, name, data) && at + |e| <= |archive| < U64 - 3 && archive[at..at + |e|] == e
    requires ValidUtf8(name) && |name| + 1 < U32 && |data| < U32
    ensures ParseEntry(archive, at) == Ok((FileEntry(name, data), at + |e|))
  {
    var h := Header(|name| + 1, |data|);
    EncodedShape(at, name, data);
    HeaderReads(|name| + 1, |data|);
    ShapedEntry(archive, at, e, h, name, data);
  }

  lemma ShapedEntry(archive: seq<byte>, at: nat, e: seq<byte>, h: seq<byte>, name: seq<byte>, data: seq<byte>)
    requires Shape(e, at, h, name, data) && HeaderSays(h, |name| + 1, |data|) && ValidUtf8(name)
    requires at + |e| <= |archive| < U64 - 3 && archive[at..at + |e|] == e
    ensures ParseEntry(archive, at) == Ok((FileEntry(name, data), at + |e|))
  {
    ShapeHolds(archive, at, e, h, name, data);
    PartsParse(archive, at, h, name, data, at + |e|);
  }

  lemma Cut(archive: seq<byte>, at: nat, e: seq<byte>, rest: seq<byte>)
    requires at <= |archive| && archive[at..] == e + rest
    ensures at + |e| <= |archive| && archive[at..at + |e|] == e && archive[at + |e|..] == rest
  {
    assert archive[at..at + |e|] == archive[at..][..|e|];
    assert archive[at + |e|..] == archive[at..][|e|..];
  }

  lemma LastListed(archive: seq<byte>, at: nat, entry: Entry, next: nat)
    requires ParseEntry(archive, at) == Ok((entry, next)) && entry.name == TRAILER
    ensures Listing(archive, at) == Ok([entry])
  {
  }

  lemma MoreListed(archive: seq<byte>, at: nat, entry: Entry, next: nat, rest: seq<Entry>)
    requires ParseEntry(archive, at) == Ok((entry, next)) && entry.name != TRAILER && Listing(archive, next) == Ok(rest)
    ensures Listing(archive, at) == Ok([entry] + rest)
  {
  }

  /** The archive of any files that fit is valid and lists exactly them, then the trailer. */
  lemma PrintThenParse(files: seq<File>)
    requires |Printed(files, END, 0)| < U64 - 3 && forall i :: 0 <= i < |files| ==> files[i].Fits()
    ensures Listing(Printed(files, END, 0), 0) == Ok(Entries(files, END))
  {
    TrailerFits();
    ListsBack(files, END);
  }

  lemma ListsBack(files: seq<File>, last: File)
    requires |Printed(files, last, 0)| < U64 - 3 && (forall i :: 0 <= i < |files| ==> files[i].Fits())
    requires last.Printable() && last.name == TRAILER
    ensures Listing(Printed(files, last, 0), 0) == Ok(Entries(files, last))
  {
    assert Printed(files, last, 0)[0..] == Printed(files, last, 0);
    ArchiveRoundTrip(Printed(files, last, 0), 0, files, last);
  }

  // ----------------------------------------------------------------- lookup

  function Normalize(path: seq<byte>): seq<byte> {
    if path != [] && path[0] == SLASH then path[1..] else path
  }

  /** One of two equal paths may have one slash more in front; a second slash makes a different path. */
  predicate SamePath(a: seq<byte>, b: seq<byte>) {
    || a == b
    || (a == [0x2f] + b && (b == [] || b[0] != 0x2f))
    || (b == [0x2f] + a && (a == [] || a[0] != 0x2f))
  }

  lemma NormalizedAlike(a: seq<byte>, b: seq<byte>)
    ensures Normalize(a) == Normalize(b) <==> SamePath(a, b)
  {
    assert a != [] ==> a == [a[0]] + a[1..];
    assert b != [] ==> b == [b[0]] + b[1..];
    assert ([0x2f] + b)[1..] == b && ([0x2f] + a)[1..] == a;
  }

  /** The iterator over the entries of an archive. */
  class EntryIterator {
    const archive: seq<byte>
    var cursor: nat
    var finished: bool

    constructor (archive: seq<byte>)
      ensures this.archive == archive && cursor == 0 && !finished
    {
      this.archive := archive;
      cursor, finished := 0, false;
    }

    method Next() returns (r: Option<Result<Entry>>)
      modifies this
      ensures old(finished) ==> r == None && finished
      ensures !old(finished) ==>
        match ParseEntry(archive, old(cursor))
        case Err(e) => r == Some(Err(e)) && finished
        case Ok((entry, next)) => r == Some(Ok(entry)) && cursor == next && (finished <==> entry.name == TRAILER)
    {
      if finished {
        return None;
      }
      var entry := ParseEntry(archive, cursor);
      if entry.Err? {
        finished := true;
        return Some(Err(entry.error));
      }
      cursor := entry.value.1;
      if entry.value.0.name == TRAILER {
        finished := true;
      }
      return Some(Ok(entry.value.0));
    }
  }

  /** Entries in front of a listing. */
  function Prepend(done: seq<Entry>, rest: Result<seq<Entry>>): Result<seq<Entry>> {
    match rest
    case Err(e) => Err(e)
    case Ok(more) => Ok(done + more)
  }

  lemma NothingInFront(rest: Result<seq<Entry>>)
    ensures Prepend([], rest) == rest
  {
    assert rest.Ok? ==> [] + rest.value == rest.value;
  }

  /** One entry further the listing from the start is the same. */
  lemma ListingStep(archive: seq<byte>, cursor: nat, done: seq<Entry>)
    ensures
      match ParseEntry(archive, cursor)
      case Err(e) => Prepend(done, Listing(archive, cursor)) == Err(e)
      case Ok((entry, next)) =>
        Prepend(done, Listing(archive, cursor))
        == if entry.name == TRAILER then Ok(done + [entry]) else Prepend(done + [entry], Listing(archive, next))
  {
    var parsed := ParseEntry(archive, cursor);
    if parsed.Ok? && parsed.value.0.name != TRAILER {
      var rest := Listing(archive, parsed.value.1);
      assert rest.Ok? ==> done + ([parsed.value.0] + rest.value) == done + [parsed.value.0] + rest.value;
    }
  }

  /** Run an iterator to its end: it yields the entries of the listing in order, or ends with its error. */
  method Drain(archive: seq<byte>) returns (yielded: seq<Entry>, failure: Option<Error>)
    ensures Listing(archive, 0) == if failure.None? then Ok(yielded) else Err(failure.value)
  {
    var entries := new EntryIterator(archive);
    yielded, failure := [], None;
    ghost var whole := Listing(archive, entries.cursor);
    NothingInFront(whole);
    while !entries.finished
      invariant entries.archive == archive
      invariant !entries.finished ==> failure.None? && Prepend(yielded, Listing(archive, entries.cursor)) == whole
      invariant entries.finished ==> whole == if failure.None? then Ok(yielded) else Err(failure.value)
      decreases !entries.finished, |archive| - entries.cursor
    {
      ListingStep(archive, entries.cursor, yielded);
      var item := entries.Next();
      match item.value
      case Ok(entry) => yielded := yielded + [entry];
      case Err(e) => failure := Some(e);
    }
  }

  /** Printing, validating and iterating gives back the files in order, then the trailer. */
  method PrintAndIterate(files: seq<File>) returns (verdict: Result<()>, yielded: seq<Entry>, failure: Option<Error>)
    requires |Printed(files, END, 0)| < U64 / 2 && forall i :: 0 <= i < |files| ==> files[i].Fits()
    ensures verdict == Ok(()) && failure == None && yielded == Entries(files, END)
  {
    var archive := BuildArchive(files);
    PrintThenParse(files);
    verdict := Validate(archive);
    yielded, failure := Drain(archive);
  }

  /** The first entry whose normalised name is `needle`. */
  function Search(archive: seq<byte>, cursor: nat, needle: seq<byte>): Result<Entry>
    decreases |archive| - cursor
  {
    match ParseEntry(archive, cursor)
    case Err(e) => Err(e)
    case Ok((entry, next)) =>
      if entry.name == TRAILER then Err(NotFound)
      else if Normalize(entry.name) == needle then Ok(entry)
      else Search(archive, next, needle)
  }

  method FindEntry(archive: seq<byte>, path: seq<byte>) returns (r: Result<Entry>)
    ensures r == Search(archive, 0, Normalize(path))
  {
    var needle := Normalize(path);
    var entries := new EntryIterator(archive);
    while true
      invariant entries.archive == archive && !entries.finished
      invariant Search(archive, entries.cursor, needle) == Search(archive, 0, needle)
      decreases |archive| - entries.cursor
    {
      var entry := entries.Next();
      if entry.value.Err? {
        return Err(entry.value.error);
      }
      if entry.value.value.name == TRAILER {
        return Err(NotFound);
      }
      if Normalize(entry.value.value.name) == needle {
        return Ok(entry.value.value);
      }
    }
  }

  /** The first file with the normalised name, or the number of files. */
  function FirstNamed(files: seq<File>, needle: seq<byte>): (i: nat)
    ensures i <= |files| && (i < |files| ==> Normalize(files[i].name) == needle)
    ensures forall j :: 0 <= j < i ==> Normalize(files[j].name) != needle
  {
    if files == [] then 0 else if Normalize(files[0].name) == needle then 0 else 1 + FirstNamed(files[1..], needle)
  }

  lemma {:induction false} SearchListing(archive: seq<byte>, at: nat, files: seq<File>, last: File, needle: seq<byte>)
    requires Listing(archive, at) == Ok(Entries(files, last)) && last.name == TRAILER
    requires forall i :: 0 <= i < |files| ==> files[i].name != TRAILER
    ensures
      var i := FirstNamed(files, needle);
      Search(archive, at, needle) == if i < |files| then Ok(FileEntry(files[i].name, files[i].data)) else Err(NotFound)
    decreases |files|
  {
    var first := Entries(files, last)[0];
    assert ParseEntry(archive, at).Ok? && ParseEntry(archive, at).value.0 == first;
    if files != [] {
      var next := ParseEntry(archive, at).value.1;
      assert Entries(files, last)[1..] == Entries(files[1..], last);
      assert Listing(archive, next).Ok? && Listing(archive, next).value == Entries(files, last)[1..];
      SearchListing(archive, next, files[1..], last, needle);
    }
  }

  /** Looking a path up in a printed archive finds the first file of that path. */
  lemma LookupFindsFirst(files: seq<File>, path: seq<byte>) returns (i: nat)
    requires |Printed(files, END, 0)| < U64 - 3 && forall i :: 0 <= i < |files| ==> files[i].Fits()
    ensures i <= |files| && (forall j :: 0 <= j < i ==> !SamePath(files[j].name, path))
    ensures i < |files| ==> SamePath(files[i].name, path)
    ensures Search(Printed(files, END, 0), 0, Normalize(path))
         == if i < |files| then Ok(FileEntry(files[i].name, files[i].data)) else Err(NotFound)
  {
    PrintThenParse(files);
    SearchListing(Printed(files, END, 0), 0, files, END, Normalize(path));
    i := FirstNamed(files, Normalize(path));
    forall j | 0 <= j < |files| ensures Normalize(files[j].name) == Normalize(path) <==> SamePath(files[j].name, path) {
      NormalizedAlike(files[j].name, path);
    }
  }

  /** `files[i]` is the first file of that path. */
  predicate FirstOf(files: seq<File>, path: seq<byte>, i: nat) {
    i < |files| && SamePath(files[i].name, path) && forall j :: 0 <= j < i ==> !SamePath(files[j].name, path)
  }

  /** Printing an archive and looking a path up in it with the iterator. */
  method PrintAndFind(files: seq<File>, path: seq<byte>) returns (r: Result<Entry>)
    requires |Printed(files, END, 0)| < U64 - 3 && forall i :: 0 <= i < |files| ==> files[i].Fits()
    ensures forall i: nat :: FirstOf(files, path, i) ==> r == Ok(FileEntry(files[i].name, files[i].data))
    ensures (forall i :: 0 <= i < |files| ==> !SamePath(files[i].name, path)) ==> r == Err(NotFound)
  {
    var archive := BuildArchive(files);
    ghost var first := LookupFindsFirst(files, path);
    r := FindEntry(archive, path);
  }
}
