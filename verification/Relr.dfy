/** Relative relocations of kernel/src/exec.rs: the address and bitmap stream of DT_RELR. */
module Relr {
  import opened Machine

  datatype RelrError = InvalidProgramHeader | Overflow | InvalidAlignment | NotMapped

  datatype Result<T> = Ok(value: T) | Err(error: RelrError)

  /** The aligned eight-byte words of a user address space. */
  type Words = map<nat, nat>

  // ------------------------------------------------------- decoding, plainly

  function Pow2(n: nat): (r: nat)
    ensures r > 0
  {
    if n == 0 then 1 else 2 * Pow2(n - 1)
  }

  predicate Bit(bitmap: nat, bit: nat) {
    bitmap / Pow2(bit) % 2 == 1
  }

  /** How many words one bitmap describes. */
  const BITS: nat := 63
  const BITMAP_SPAN: nat := BITS * 8

  /** The words that the first `n` bits of a bitmap select from `cursor` on. */
  function Selected(cursor: nat, bitmap: nat, n: nat): seq<nat> {
    if n == 0 then []
    else Selected(cursor, bitmap, n - 1) + if Bit(bitmap, n - 1) then [cursor + (n - 1) * 8] else []
  }

  /** An even entry is an address; an odd one a bitmap over the next 63 words. */
  function Decode(entries: seq<nat>, bias: nat, cursor: Option<nat>): seq<nat>
    decreases |entries|
  {
    if entries == [] then []
    else if entries[0] % 2 == 0 then [entries[0] + bias] + Decode(entries[1..], bias, Some(entries[0] + bias + 8))
    else if cursor.None? then []
    else Selected(cursor.value, entries[0] / 2, BITS) + Decode(entries[1..], bias, Some(cursor.value + BITMAP_SPAN))
  }

  /** No bitmap comes before the first address, and no cursor leaves the address space. */
  predicate Shaped(entries: seq<nat>, bias: nat, cursor: Option<nat>)
    decreases |entries|
  {
    if entries == [] then true
    else if entries[0] % 2 == 0 then
      entries[0] + bias + 8 < U64 && Shaped(entries[1..], bias, Some(entries[0] + bias + 8))
    else
      cursor.Some? && cursor.value + BITMAP_SPAN < U64 && Shaped(entries[1..], bias, Some(cursor.value + BITMAP_SPAN))
  }

  // ------------------------------------------------------- applying addresses

  predicate CanAdd(m: Words, a: nat, bias: nat) {
    a % 8 == 0 && a in m && m[a] + bias < U64
  }

  function Added(m: Words, a: nat, bias: nat): Words {
    if a in m then m[a := m[a] + bias] else m
  }

  function AddAll(m: Words, addresses: seq<nat>, bias: nat): Words
    decreases |addresses|
  {
    if addresses == [] then m else AddAll(Added(m, addresses[0], bias), addresses[1..], bias)
  }

  predicate CanAddAll(m: Words, addresses: seq<nat>, bias: nat)
    decreases |addresses|
  {
    addresses == [] || (CanAdd(m, addresses[0], bias) && CanAddAll(Added(m, addresses[0], bias), addresses[1..], bias))
  }

  lemma {:induction false} AddConcat(m: Words, a: seq<nat>, b: seq<nat>, bias: nat)
    ensures AddAll(m, a + b, bias) == AddAll(AddAll(m, a, bias), b, bias)
    ensures CanAddAll(m, a + b, bias) <==> CanAddAll(m, a, bias) && CanAddAll(AddAll(m, a, bias), b, bias)
    decreases |a|
  {
    if a == [] {
      assert a + b == b;
    } else {
      assert (a + b)[1..] == a[1..] + b;
      AddConcat(Added(m, a[0], bias), a[1..], b, bias);
    }
  }

  /** Each word gets the bias once for every time its address was decoded, and no word else changes. */
  lemma {:induction false} AddsCount(m: Words, addresses: seq<nat>, bias: nat, a: nat)
    requires CanAddAll(m, addresses, bias)
    ensures AddAll(m, addresses, bias).Keys == m.Keys
    ensures a in m ==> AddAll(m, addresses, bias)[a] == m[a] + bias * multiset(addresses)[a]
    decreases |addresses|
  {
    if addresses != [] {
      AddsCount(Added(m, addresses[0], bias), addresses[1..], bias, a);
      assert addresses == [addresses[0]] + addresses[1..];
      OneMore(bias, multiset(addresses[1..])[a]);
    }
  }

  lemma OneMore(bias: nat, k: nat)
    ensures bias * (k + 1) == bias * k + bias
  {
  }

  // ------------------------------------------------- each word at most once

  /** Every address entry is at or past the cursor. */
  predicate Monotone(entries: seq<nat>, bias: nat, cursor: Option<nat>)
    decreases |entries|
  {
    if entries == [] then true
    else if entries[0] % 2 == 0 then
      (cursor.Some? ==> cursor.value <= entries[0] + bias) && Monotone(entries[1..], bias, Some(entries[0] + bias + 8))
    else if cursor.None? then true
    else Monotone(entries[1..], bias, Some(cursor.value + BITMAP_SPAN))
  }

  ghost predicate Increasing(s: seq<nat>, low: nat) {
    (forall i :: 0 <= i < |s| ==> low <= s[i]) && forall i, j :: 0 <= i < j < |s| ==> s[i] < s[j]
  }

  lemma {:induction false} SelectedIncreases(cursor: nat, bitmap: nat, n: nat)
    ensures Increasing(Selected(cursor, bitmap, n), cursor)
    ensures forall i :: 0 <= i < |Selected(cursor, bitmap, n)| ==> Selected(cursor, bitmap, n)[i] < cursor + n * 8
  {
    if n > 0 {
      SelectedIncreases(cursor, bitmap, n - 1);
    }
  }

  lemma IncreasingConcat(a: seq<nat>, b: seq<nat>, low: nat, mid: nat)
    requires Increasing(a, low) && Increasing(b, mid) && low <= mid && forall i :: 0 <= i < |a| ==> a[i] < mid
    ensures Increasing(a + b, low)
  {
  }

  lemma {:induction false} DecodeIncreases(entries: seq<nat>, bias: nat, cursor: Option<nat>)
    requires Monotone(entries, bias, cursor)
    ensures Increasing(Decode(entries, bias, cursor), if cursor.Some? then cursor.value else 0)
    decreases |entries|
  {
    if entries != [] {
      var low := if cursor.Some? then cursor.value else 0;
      if entries[0] % 2 == 0 {
        var a := entries[0] + bias;
        DecodeIncreases(entries[1..], bias, Some(a + 8));
        IncreasingConcat([a], Decode(entries[1..], bias, Some(a + 8)), low, a + 8);
      } else if cursor.Some? {
        SelectedIncreases(cursor.value, entries[0] / 2, BITS);
        DecodeIncreases(entries[1..], bias, Some(cursor.value + BITMAP_SPAN));
        IncreasingConcat(Selected(cursor.value, entries[0] / 2, BITS),
                         Decode(entries[1..], bias, Some(cursor.value + BITMAP_SPAN)),
                         low, cursor.value + BITMAP_SPAN);
      }
    }
  }

  lemma {:induction false} IncreasingCounts(s: seq<nat>, low: nat, a: nat)
    requires Increasing(s, low)
    ensures multiset(s)[a] == if a in s then 1 else 0
    decreases |s|
  {
    if s != [] {
      var n := |s| - 1;
      assert s == s[..n] + [s[n]];
      IncreasingCounts(s[..n], low, a);
      assert s[n] !in s[..n];
    }
  }

  /** For a monotone table each decoded word gets the bias exactly once and no other word changes. */
  lemma EachWordOnce(m: Words, entries: seq<nat>, bias: nat, a: nat)
    requires Monotone(entries, bias, None) && CanAddAll(m, Decode(entries, bias, None), bias) && a in m
    ensures AddAll(m, Decode(entries, bias, None), bias).Keys == m.Keys
    ensures AddAll(m, Decode(entries, bias, None), bias)[a] ==
      if a in Decode(entries, bias, None) then m[a] + bias else m[a]
  {
    DecodeIncreases(entries, bias, None);
    IncreasingCounts(Decode(entries, bias, None), 0, a);
    AddsCount(m, Decode(entries, bias, None), bias, a);
  }

  // ---------------------------------------------------------------- encoding

  /** The number whose binary digits, lowest first, say which words from `from` up to `to` are among the addresses. */
  function Bitmap(addresses: seq<nat>, from: nat, to: nat): nat
    decreases to - from
  {
    if from >= to then 0 else (if from in addresses then 1 else 0) + 2 * Bitmap(addresses, from + 8, to)
  }

  lemma {:induction false} BitmapBound(addresses: seq<nat>, from: nat, n: nat)
    ensures Bitmap(addresses, from, from + n * 8) < Pow2(n)
    decreases n
  {
    if n > 0 {
      BitmapBound(addresses, from + 8, n - 1);
    }
  }

  lemma HalfFirst(x: nat, p: nat)
    requires p > 0
    ensures x / (2 * p) == x / 2 / p
  {
    var d := 2 * p;
    DivMod(x / 2, p);
    DivMod(x, d);
    Products(p, x / 2 / p, x / d);
    OnlyMultiple(d, x / d - x / 2 / p);
  }

  lemma Products(p: int, q: int, e: int)
    ensures 2 * p * q == 2 * (p * q) && 2 * p * (e - q) == 2 * p * e - 2 * p * q
  {
  }

  lemma LowestBit(x: nat)
    ensures Bit(x, 0) <==> x % 2 == 1
  {
    assert Pow2(0) == 1;
  }

  lemma Halves(bit: nat, rest: nat)
    requires bit < 2
    ensures (bit + 2 * rest) % 2 == bit && (bit + 2 * rest) / 2 == rest
  {
  }

  /** Bit `k` says whether the `k`-th word is among them. */
  lemma {:induction false} BitOfBitmap(addresses: seq<nat>, from: nat, n: nat, k: nat)
    requires k < n
    ensures Bit(Bitmap(addresses, from, from + n * 8), k) <==> from + k * 8 in addresses
    decreases k
  {
    var bitmap, rest := Bitmap(addresses, from, from + n * 8), Bitmap(addresses, from + 8, from + n * 8);
    var bit := if from in addresses then 1 else 0;
    assert bitmap == bit + 2 * rest;
    Halves(bit, rest);
    if k == 0 {
      LowestBit(bitmap);
    } else {
      BitOfBitmap(addresses, from + 8, n - 1, k - 1);
      HigherBit(bitmap, k);
    }
  }

  lemma HigherBit(x: nat, k: nat)
    requires k > 0
    ensures Bit(x, k) <==> Bit(x / 2, k - 1)
  {
    HalfFirst(x, Pow2(k - 1));
  }

  /** How many addresses at the front lie below `limit`. */
  function Below(addresses: seq<nat>, limit: nat): (n: nat)
    ensures n <= |addresses|
  {
    if addresses == [] || addresses[0] >= limit then 0 else 1 + Below(addresses[1..], limit)
  }

  lemma {:induction false} BelowSplits(addresses: seq<nat>, low: nat, limit: nat)
    requires Increasing(addresses, low)
    ensures forall i :: 0 <= i < |addresses| ==> (i < Below(addresses, limit) <==> addresses[i] < limit)
    decreases |addresses|
  {
    if addresses != [] && addresses[0] < limit {
      var rest := addresses[1..];
      BelowSplits(rest, low, limit);
      forall i | 0 < i < |addresses| ensures i < Below(addresses, limit) <==> addresses[i] < limit {
        assert addresses[i] == rest[i - 1];
      }
    }
  }

  ghost predicate Aligned(addresses: seq<nat>, cursor: nat) {
    forall i :: 0 <= i < |addresses| ==> (addresses[i] - cursor) % 8 == 0
  }

  /** The bitmap of the `n` words from `cursor` on selects the addresses among them, in order. */
  lemma {:induction false} SelectsMarked(addresses: seq<nat>, cursor: nat, bitmap: nat, n: nat, m: nat)
    requires Increasing(addresses, cursor) && Aligned(addresses, cursor) && m <= n
    requires bitmap == Bitmap(addresses, cursor, cursor + n * 8)
    ensures Selected(cursor, bitmap, m) == addresses[..Below(addresses, cursor + m * 8)]
    decreases m
  {
    if m == 0 {
      BelowSplits(addresses, cursor, cursor);
    } else {
      SelectsMarked(addresses, cursor, bitmap, n, m - 1);
      BitOfBitmap(addresses, cursor, n, m - 1);
      SelectsOneMore(addresses, cursor, bitmap, m);
    }
  }

  lemma SelectsOneMore(addresses: seq<nat>, cursor: nat, bitmap: nat, n: nat)
    requires Increasing(addresses, cursor) && Aligned(addresses, cursor) && n > 0
    requires Bit(bitmap, n - 1) <==> cursor + (n - 1) * 8 in addresses
    requires Selected(cursor, bitmap, n - 1) == addresses[..Below(addresses, cursor + (n - 1) * 8)]
    ensures Selected(cursor, bitmap, n) == addresses[..Below(addresses, cursor + n * 8)]
  {
    LastWindow(addresses, cursor, n, Below(addresses, cursor + (n - 1) * 8), Below(addresses, cursor + n * 8));
  }

  lemma {:induction false} BelowIs(addresses: seq<nat>, limit: nat, n: nat)
    requires n <= |addresses| && (forall i :: 0 <= i < n ==> addresses[i] < limit)
    requires n < |addresses| ==> addresses[n] >= limit
    ensures Below(addresses, limit) == n
    decreases n
  {
    if n > 0 {
      BelowIs(addresses[1..], limit, n - 1);
    }
  }

  /** An aligned address past the word at `x` is at or past the next word. */
  lemma NextAligned(a: nat, cursor: nat, k: nat)
    requires (a - cursor) % 8 == 0 && cursor + k * 8 <= a
    ensures a == cursor + k * 8 || a >= cursor + k * 8 + 8
  {
  }

  lemma LastWindow(addresses: seq<nat>, cursor: nat, n: nat, a: nat, b: nat)
    requires Increasing(addresses, cursor) && Aligned(addresses, cursor) && n > 0
    requires a == Below(addresses, cursor + (n - 1) * 8) && b == Below(addresses, cursor + n * 8)
    ensures addresses[..b] ==
      addresses[..a] + if cursor + (n - 1) * 8 in addresses then [cursor + (n - 1) * 8] else []
  {
    var x := cursor + (n - 1) * 8;
    BelowSplits(addresses, cursor, x);
    forall i | a <= i < |addresses| ensures addresses[i] == x || addresses[i] >= x + 8 {
      NextAligned(addresses[i], cursor, n - 1);
    }
    OneWord(addresses, cursor, a, x);
  }

  /** The addresses below the end of the word at `x` are those below `x`, and `x` if it is one. */
  lemma OneWord(addresses: seq<nat>, low: nat, a: nat, x: nat)
    requires Increasing(addresses, low) && a <= |addresses| && (forall i :: 0 <= i < a ==> addresses[i] < x)
    requires forall i :: a <= i < |addresses| ==> addresses[i] == x || addresses[i] >= x + 8
    ensures addresses[..Below(addresses, x + 8)] == addresses[..a] + if x in addresses then [x] else []
  {
    if a < |addresses| && addresses[a] == x {
      FoundWord(addresses, low, a, x);
    } else {
      assert a < |addresses| ==> addresses[a] >= x + 8;
      NoSuchWord(addresses, low, a, x);
    }
  }

  lemma FoundWord(addresses: seq<nat>, low: nat, a: nat, x: nat)
    requires Increasing(addresses, low) && a < |addresses| && (forall i :: 0 <= i < a ==> addresses[i] < x)
    requires addresses[a] == x && (a + 1 < |addresses| ==> addresses[a + 1] == x || addresses[a + 1] >= x + 8)
    ensures x in addresses && addresses[..Below(addresses, x + 8)] == addresses[..a] + [x]
  {
    assert a + 1 < |addresses| ==> addresses[a] < addresses[a + 1];
    BelowIs(addresses, x + 8, a + 1);
  }

  lemma NoSuchWord(addresses: seq<nat>, low: nat, a: nat, x: nat)
    requires Increasing(addresses, low) && a <= |addresses| && (forall i :: 0 <= i < a ==> addresses[i] < x)
    requires a < |addresses| ==> addresses[a] >= x + 8
    ensures x !in addresses && Below(addresses, x + 8) == a
  {
    BelowIs(addresses, x + 8, a);
    BelowSplits(addresses, low, x + 8);
  }

  /** The table for increasing addresses: a bitmap where the next word is near, an address where it is not. */
  function Encode(addresses: seq<nat>, bias: nat, cursor: Option<nat>): seq<nat>
    requires forall i :: 0 <= i < |addresses| ==> bias <= addresses[i]
    decreases |addresses|
  {
    if addresses == [] then []
    else if cursor.Some? && addresses[0] < cursor.value + BITMAP_SPAN then
      var n := Below(addresses, cursor.value + BITMAP_SPAN);
      [2 * Bitmap(addresses, cursor.value, cursor.value + BITMAP_SPAN) + 1]
      + Encode(addresses[n..], bias, Some(cursor.value + BITMAP_SPAN))
    else [addresses[0] - bias] + Encode(addresses[1..], bias, Some(addresses[0] + 8))
  }

  /** Addresses a table can hold behind `cursor`: words of the program, in order. */
  ghost predicate Tabular(addresses: seq<nat>, bias: nat, cursor: Option<nat>) {
    && Increasing(addresses, bias) && Aligned(addresses, bias)
    && (cursor.Some? ==> bias <= cursor.value && (cursor.value - bias) % 8 == 0 && Increasing(addresses, cursor.value))
  }

  lemma Realigned(addresses: seq<nat>, bias: nat, cursor: nat)
    requires Aligned(addresses, bias) && (cursor - bias) % 8 == 0
    ensures Aligned(addresses, cursor)
  {
    forall i | 0 <= i < |addresses| ensures (addresses[i] - cursor) % 8 == 0 {
      SameResidue(addresses[i], cursor, bias);
    }
  }

  lemma SameResidue(a: nat, b: nat, c: nat)
    requires (a - c) % 8 == 0 && (b - c) % 8 == 0
    ensures (a - b) % 8 == 0
  {
  }

  lemma RestTabular(addresses: seq<nat>, bias: nat, cursor: Option<nat>, n: nat, next: nat)
    requires Tabular(addresses, bias, cursor) && n <= |addresses| && bias <= next && (next - bias) % 8 == 0
    requires forall i :: n <= i < |addresses| ==> addresses[i] >= next
    ensures Tabular(addresses[n..], bias, Some(next))
  {
  }

  lemma DecodeAddress(a: nat, rest: seq<nat>, bias: nat, cursor: Option<nat>)
    requires bias <= a && (a - bias) % 8 == 0
    ensures Decode([a - bias] + rest, bias, cursor) == [a] + Decode(rest, bias, Some(a + 8))
  {
    Even(a - bias);
    assert ([a - bias] + rest)[1..] == rest;
  }

  lemma Even(x: nat)
    requires x % 8 == 0
    ensures x % 2 == 0
  {
  }

  lemma DecodeBitmap(bitmap: nat, rest: seq<nat>, bias: nat, cursor: nat)
    ensures Decode([2 * bitmap + 1] + rest, bias, Some(cursor)) ==
      Selected(cursor, bitmap, BITS) + Decode(rest, bias, Some(cursor + BITMAP_SPAN))
  {
    assert ([2 * bitmap + 1] + rest)[1..] == rest;
  }

  lemma NextWord(addresses: seq<nat>, bias: nat, i: nat)
    requires Increasing(addresses, bias) && Aligned(addresses, bias) && 0 < i < |addresses|
    ensures addresses[0] + 8 <= addresses[i]
  {
    assert addresses[0] < addresses[i];
    SameResidue(addresses[i], addresses[0], bias);
  }

  lemma EncodeNear(addresses: seq<nat>, bias: nat, cursor: nat, n: nat) returns (rest: seq<nat>)
    requires addresses != [] && addresses[0] < cursor + BITMAP_SPAN && n == Below(addresses, cursor + BITMAP_SPAN)
    requires forall i :: 0 <= i < |addresses| ==> bias <= addresses[i]
    ensures rest == Encode(addresses[n..], bias, Some(cursor + BITMAP_SPAN))
    ensures Encode(addresses, bias, Some(cursor)) == [2 * Bitmap(addresses, cursor, cursor + BITMAP_SPAN) + 1] + rest
  {
    rest := Encode(addresses[n..], bias, Some(cursor + BITMAP_SPAN));
  }

  lemma WindowSelected(addresses: seq<nat>, bias: nat, cursor: nat, w: nat)
    requires Tabular(addresses, bias, Some(cursor))
    ensures
      var n := Below(addresses, cursor + w * 8);
      && Selected(cursor, Bitmap(addresses, cursor, cursor + w * 8), w) == addresses[..n]
      && Tabular(addresses[n..], bias, Some(cursor + w * 8))
  {
    Realigned(addresses, bias, cursor);
    SelectsMarked(addresses, cursor, Bitmap(addresses, cursor, cursor + w * 8), w, w);
    BelowSplits(addresses, cursor, cursor + w * 8);
    RestTabular(addresses, bias, Some(cursor), Below(addresses, cursor + w * 8), cursor + w * 8);
  }

  lemma NearSelected(addresses: seq<nat>, bias: nat, cursor: nat, n: nat)
    requires Tabular(addresses, bias, Some(cursor)) && n == Below(addresses, cursor + BITMAP_SPAN)
    ensures Selected(cursor, Bitmap(addresses, cursor, cursor + BITMAP_SPAN), BITS) == addresses[..n]
    ensures Tabular(addresses[n..], bias, Some(cursor + BITMAP_SPAN))
  {
    WindowSelected(addresses, bias, cursor, BITS);
  }

  lemma FarTabular(addresses: seq<nat>, bias: nat, cursor: Option<nat>)
    requires Tabular(addresses, bias, cursor) && addresses != []
    ensures bias <= addresses[0] && (addresses[0] - bias) % 8 == 0
    ensures Tabular(addresses[1..], bias, Some(addresses[0] + 8)) && addresses == [addresses[0]] + addresses[1..]
  {
    forall i | 0 < i < |addresses| ensures addresses[i] >= addresses[0] + 8 {
      NextWord(addresses, bias, i);
    }
    RestTabular(addresses, bias, cursor, 1, addresses[0] + 8);
  }

  lemma EncodeFar(addresses: seq<nat>, bias: nat, cursor: Option<nat>) returns (rest: seq<nat>)
    requires addresses != [] && forall i :: 0 <= i < |addresses| ==> bias <= addresses[i]
    requires cursor.Some? ==> addresses[0] >= cursor.value + BITMAP_SPAN
    ensures rest == Encode(addresses[1..], bias, Some(addresses[0] + 8))
    ensures Encode(addresses, bias, cursor) == [addresses[0] - bias] + rest
  {
    rest := Encode(addresses[1..], bias, Some(addresses[0] + 8));
  }

  /** A bitmap of 63 words is a machine word. */
  lemma BitmapFits(addresses: seq<nat>, cursor: nat)
    ensures 2 * Bitmap(addresses, cursor, cursor + BITMAP_SPAN) + 1 < U64
  {
    BitmapBound(addresses, cursor, BITS);
    PowersMultiply(32, 31);
    PowersMultiply(16, 16);
    PowersMultiply(16, 15);
    assert Pow2(15) == 0x8000 && Pow2(16) == 0x1_0000;
  }

  lemma {:induction false} PowersMultiply(a: nat, b: nat)
    ensures Pow2(a + b) == Pow2(a) * Pow2(b)
    decreases a
  {
    if a > 0 {
      PowersMultiply(a - 1, b);
    }
  }

  /** Whatever words are to be relocated, their table decodes to them, in order. */
  lemma {:induction false} TableRoundTrip(addresses: seq<nat>, bias: nat, cursor: Option<nat>)
    requires Tabular(addresses, bias, cursor)
    ensures Decode(Encode(addresses, bias, cursor), bias, cursor) == addresses
    decreases |addresses|
  {
    if addresses == [] {
    } else if cursor.Some? && addresses[0] < cursor.value + BITMAP_SPAN {
      var n := Below(addresses, cursor.value + BITMAP_SPAN);
      NearSelected(addresses, bias, cursor.value, n);
      TableRoundTrip(addresses[n..], bias, Some(cursor.value + BITMAP_SPAN));
      NearRoundTrip(addresses, bias, cursor.value, n);
    } else {
      FarTabular(addresses, bias, cursor);
      TableRoundTrip(addresses[1..], bias, Some(addresses[0] + 8));
      FarRoundTrip(addresses, bias, cursor);
    }
  }

  lemma FarRoundTrip(addresses: seq<nat>, bias: nat, cursor: Option<nat>)
    requires addresses != [] && forall i :: 0 <= i < |addresses| ==> bias <= addresses[i]
    requires bias <= addresses[0] && (addresses[0] - bias) % 8 == 0 && addresses == [addresses[0]] + addresses[1..]
    requires cursor.Some? ==> addresses[0] >= cursor.value + BITMAP_SPAN
    requires
      var rest := addresses[1..];
      Decode(Encode(rest, bias, Some(addresses[0] + 8)), bias, Some(addresses[0] + 8)) == rest
    ensures Decode(Encode(addresses, bias, cursor), bias, cursor) == addresses
  {
    var rest := EncodeFar(addresses, bias, cursor);
    FarJoin(Encode(addresses, bias, cursor), rest, addresses[0], addresses, addresses[1..], bias, cursor);
  }

  lemma FarJoin(entries: seq<nat>, rest: seq<nat>, a: nat, addresses: seq<nat>, tail: seq<nat>, bias: nat,
                cursor: Option<nat>)
    requires bias <= a && (a - bias) % 8 == 0 && entries == [a - bias] + rest && addresses == [a] + tail
    requires Decode(rest, bias, Some(a + 8)) == tail
    ensures Decode(entries, bias, cursor) == addresses
  {
    DecodeAddress(a, rest, bias, cursor);
  }

  lemma NearRoundTrip(addresses: seq<nat>, bias: nat, cursor: nat, n: nat)
    requires addresses != [] && addresses[0] < cursor + BITMAP_SPAN && n == Below(addresses, cursor + BITMAP_SPAN)
    requires forall i :: 0 <= i < |addresses| ==> bias <= addresses[i]
    requires Selected(cursor, Bitmap(addresses, cursor, cursor + BITMAP_SPAN), BITS) == addresses[..n]
    requires
      var rest, next := addresses[n..], cursor + BITMAP_SPAN;
      Decode(Encode(rest, bias, Some(next)), bias, Some(next)) == rest
    ensures Decode(Encode(addresses, bias, Some(cursor)), bias, Some(cursor)) == addresses
  {
    var rest := EncodeNear(addresses, bias, cursor, n);
    var bitmap := Bitmap(addresses, cursor, cursor + BITMAP_SPAN);
    NearJoin(Encode(addresses, bias, Some(cursor)), rest, bitmap, addresses, n, bias, cursor);
  }

  lemma NearJoin(entries: seq<nat>, rest: seq<nat>, bitmap: nat, addresses: seq<nat>, n: nat, bias: nat, cursor: nat)
    requires n <= |addresses| && entries == [2 * bitmap + 1] + rest
    requires Selected(cursor, bitmap, BITS) == addresses[..n]
    requires Decode(rest, bias, Some(cursor + BITMAP_SPAN)) == addresses[n..]
    ensures Decode(entries, bias, Some(cursor)) == addresses
  {
    DecodeBitmap(bitmap, rest, bias, cursor);
  }

  // ---------------------------------------------------------------- the loop

  class UserWords {
    var words: Words

    constructor (words: Words)
      ensures this.words == words
    {
      this.words := words;
    }

    /** `apply_one_loongarch_relr`. */
    method ApplyOne(a: nat, bias: nat) returns (r: Result<()>)
      modifies this
      ensures r.Ok? <==> CanAdd(old(words), a, bias)
      ensures words == if r.Ok? then Added(old(words), a, bias) else old(words)
      ensures r.Err? ==>
        r.error == if a % 8 != 0 then InvalidAlignment else if a !in old(words) then NotMapped else Overflow
    {
      if a % 8 != 0 {
        return Err(InvalidAlignment);
      }
      if a !in words {
        return Err(NotMapped);
      }
      if words[a] + bias >= U64 {
        return Err(Overflow);
      }
      words := words[a := words[a] + bias];
      return Ok(());
    }

    /** The loop over the 63 bits of a bitmap; `part` are the words that got the bias. */
    method ApplyBitmap(cursor: nat, bitmap: nat, bias: nat) returns (r: Result<nat>, ghost part: seq<nat>)
      modifies this
      ensures part <= Selected(cursor, bitmap, BITS) && CanAddAll(old(words), part, bias)
      ensures words == AddAll(old(words), part, bias)
      ensures r.Ok? ==> part == Selected(cursor, bitmap, BITS) && r.value == |part|
      ensures r.Err? ==> cursor + BITMAP_SPAN >= U64 || !CanAddAll(old(words), Selected(cursor, bitmap, BITS), bias)
      ensures r.Err? ==>
        Stops(words, Selected(cursor, bitmap, BITS), bias, part, r.error, cursor + BITMAP_SPAN < U64)
    {
      ghost var m := words;
      var bit, applied := 0, 0;
      while bit < BITS
        invariant 0 <= bit <= BITS && applied == |Selected(cursor, bitmap, bit)|
        invariant CanAddAll(m, Selected(cursor, bitmap, bit), bias)
        invariant words == AddAll(m, Selected(cursor, bitmap, bit), bias)
      {
        SelectedMore(cursor, bitmap, bit, bias, m);
        part := Selected(cursor, bitmap, bit);
        SelectedNext(cursor, bitmap, bit, BITS);
        if Bit(bitmap, bit) {
          var a := cursor + bit * 8;
          if a >= U64 {
            return Err(Overflow), part;
          }
          var one := ApplyOne(a, bias);
          if one.Err? {
            return Err(one.error), part;
          }
          applied := applied + 1;
        }
        bit := bit + 1;
      }
      return Ok(applied), Selected(cursor, bitmap, BITS);
    }

    /** What one entry decodes to. */
    method ApplyEntry(entry: nat, cursor: Option<nat>, bias: nat) returns (r: Result<(nat, nat)>, ghost part: seq<nat>)
      modifies this
      ensures part <= EntryAddresses(entry, bias, cursor) && CanAddAll(old(words), part, bias)
      ensures words == AddAll(old(words), part, bias)
      ensures r.Ok? <==>
        EntryShaped(entry, bias, cursor) && CanAddAll(old(words), EntryAddresses(entry, bias, cursor), bias)
      ensures r.Ok? ==> part == EntryAddresses(entry, bias, cursor)
      ensures r.Ok? ==> r.value == (|EntryAddresses(entry, bias, cursor)|, EntryCursor(entry, bias, cursor))
      ensures r.Err? ==> (r.error == InvalidProgramHeader <==> entry % 2 == 1 && cursor.None?)
      ensures r.Err? && r.error != InvalidProgramHeader ==>
        Stops(words, EntryAddresses(entry, bias, cursor), bias, part, r.error, EntryShaped(entry, bias, cursor))
    {
      part := [];
      if entry % 2 == 0 {
        var a := entry + bias;
        if a >= U64 {
          return Err(Overflow), [];
        }
        One(words, a, bias);
        var one := ApplyOne(a, bias);
        if one.Err? {
          return Err(one.error), [];
        }
        if a + 8 >= U64 {
          return Err(Overflow), [a];
        }
        return Ok((1, a + 8)), [a];
      }
      if cursor.None? {
        return Err(InvalidProgramHeader), [];
      }
      var bits;
      bits, part := ApplyBitmap(cursor.value, entry / 2, bias);
      if bits.Err? {
        return Err(bits.error), part;
      }
      if cursor.value + BITMAP_SPAN >= U64 {
        return Err(Overflow), part;
      }
      return Ok((bits.value, cursor.value + BITMAP_SPAN)), part;
    }

    /**
     The loop over the table: it refines the plain decoding. A table that fails
     has relocated exactly the words `done`, a first part of the decoded ones.
     */
    method ApplyTable(entries: seq<nat>, bias: nat) returns (r: Result<nat>, ghost done: seq<nat>)
      modifies this
      ensures done <= Decode(entries, bias, None) && CanAddAll(old(words), done, bias)
      ensures words == AddAll(old(words), done, bias)
      ensures r.Ok? <==> Shaped(entries, bias, None) && CanAddAll(old(words), Decode(entries, bias, None), bias)
      ensures r.Ok? ==> done == Decode(entries, bias, None) && r.value == |done|
      ensures r.Err? ==> (r.error == InvalidProgramHeader <==> entries != [] && entries[0] % 2 == 1)
      ensures r.Err? && r.error != InvalidProgramHeader ==>
        Stops(words, Decode(entries, bias, None), bias, done, r.error, Shaped(entries, bias, None))
    {
      ghost var m, all, shaped := words, Decode(entries, bias, None), Shaped(entries, bias, None);
      done := [];
      var cursor: Option<nat>, applied, i := None, 0, 0;
      assert entries[0..] == entries;
      while i < |entries|
        invariant 0 <= i <= |entries| && applied == |done| && Partway(entries[i..], bias, cursor, all, shaped, done)
        invariant CanAddAll(m, done, bias) && words == AddAll(m, done, bias)
        invariant (cursor.None? <==> i == 0) && (i > 0 ==> entries[0] % 2 == 0)
      {
        ghost var now := EntryAddresses(entries[i], bias, cursor);
        assert entries[i..][1..] == entries[i + 1..];
        TableFails(entries[i..], bias, cursor, all, shaped, done, m);
        var one;
        ghost var part;
        one, part := ApplyEntry(entries[i], cursor, bias);
        AddConcat(m, done, part, bias);
        DecodesFirst(entries[i..], bias, cursor, all, shaped, done);
        if one.Err? {
          StopsInside(words, now, bias, part, one.error, EntryShaped(entries[i], bias, cursor), all, done, shaped);
          return Err(one.error), done + part;
        }
        TableStep(entries[i..], bias, cursor, all, shaped, done);
        done := done + now;
        applied, cursor, i := applied + one.value.0, Some(one.value.1), i + 1;
      }
      assert done == all;
      return Ok(applied), done;
    }
  }

  /**
   Why relocation stopped behind `done`: the next word is misaligned, not mapped
   or too large, or an address left the address space.
   */
  ghost predicate Stops(m: Words, all: seq<nat>, bias: nat, done: seq<nat>, error: RelrError, shaped: bool) {
    match error
    case InvalidAlignment => |done| < |all| && all[|done|] % 8 != 0
    case NotMapped => |done| < |all| && all[|done|] % 8 == 0 && all[|done|] !in m
    case Overflow => !shaped || (|done| < |all| && all[|done|] in m && m[all[|done|]] + bias >= U64)
    case InvalidProgramHeader => false
  }

  /** The addresses of the first entry come next, unless it is a bitmap without an address before it. */
  lemma DecodesFirst(entries: seq<nat>, bias: nat, cursor: Option<nat>, all: seq<nat>, shaped: bool, done: seq<nat>)
    requires entries != [] && Partway(entries, bias, cursor, all, shaped, done)
    ensures done + EntryAddresses(entries[0], bias, cursor) <= all
    ensures !EntryShaped(entries[0], bias, cursor) ==> !shaped
  {
  }

  /** Stopping inside an entry is stopping inside the table. */
  lemma StopsInside(m: Words, now: seq<nat>, bias: nat, part: seq<nat>, error: RelrError, entryShaped: bool,
                    all: seq<nat>, done: seq<nat>, shaped: bool)
    requires done + now <= all && part <= now && (!entryShaped ==> !shaped)
    ensures done + part <= all
    ensures Stops(m, now, bias, part, error, entryShaped) ==> Stops(m, all, bias, done + part, error, shaped)
  {
    assert |part| < |now| ==> all[|done + part|] == now[|part|];
  }

  /** The words of the first bits come first, and the next set bit comes next. */
  lemma {:induction false} SelectedNext(cursor: nat, bitmap: nat, k: nat, n: nat)
    requires k <= n
    ensures Selected(cursor, bitmap, k) <= Selected(cursor, bitmap, n)
    ensures k < n && Bit(bitmap, k) ==>
      |Selected(cursor, bitmap, k)| < |Selected(cursor, bitmap, n)|
      && Selected(cursor, bitmap, n)[|Selected(cursor, bitmap, k)|] == cursor + k * 8
    decreases n
  {
    if k < n {
      SelectedNext(cursor, bitmap, k, n - 1);
    }
  }

  /** `done` is decoded and `entries` are to come, out of a table with the addresses `all`. */
  ghost predicate Partway(entries: seq<nat>, bias: nat, cursor: Option<nat>, all: seq<nat>, shaped: bool,
                          done: seq<nat>) {
    all == done + Decode(entries, bias, cursor) && (Shaped(entries, bias, cursor) <==> shaped)
  }

  predicate EntryShaped(entry: nat, bias: nat, cursor: Option<nat>) {
    if entry % 2 == 0 then entry + bias + 8 < U64 else cursor.Some? && cursor.value + BITMAP_SPAN < U64
  }

  function EntryAddresses(entry: nat, bias: nat, cursor: Option<nat>): seq<nat> {
    if entry % 2 == 0 then [entry + bias] else if cursor.None? then [] else Selected(cursor.value, entry / 2, BITS)
  }

  function EntryCursor(entry: nat, bias: nat, cursor: Option<nat>): nat {
    if entry % 2 == 0 then entry + bias + 8 else if cursor.None? then 0 else cursor.value + BITMAP_SPAN
  }

  lemma TableStep(entries: seq<nat>, bias: nat, cursor: Option<nat>, all: seq<nat>, shaped: bool, done: seq<nat>)
    requires entries != [] && Partway(entries, bias, cursor, all, shaped, done) && EntryShaped(entries[0], bias, cursor)
    ensures Partway(entries[1..], bias, Some(EntryCursor(entries[0], bias, cursor)), all, shaped,
                    done + EntryAddresses(entries[0], bias, cursor))
  {
  }

  /** An entry that cannot be applied makes the table one that cannot. */
  lemma TableFails(entries: seq<nat>, bias: nat, cursor: Option<nat>, all: seq<nat>, shaped: bool, done: seq<nat>,
                   m: Words)
    requires entries != [] && Partway(entries, bias, cursor, all, shaped, done)
    ensures shaped ==> EntryShaped(entries[0], bias, cursor)
    ensures shaped && CanAddAll(m, all, bias) ==>
      CanAddAll(AddAll(m, done, bias), EntryAddresses(entries[0], bias, cursor), bias)
  {
    var now := EntryAddresses(entries[0], bias, cursor);
    if shaped {
      var rest := Decode(entries[1..], bias, Some(EntryCursor(entries[0], bias, cursor)));
      assert all == done + (now + rest);
      AddConcat(m, done, now + rest, bias);
      AddConcat(AddAll(m, done, bias), now, rest, bias);
    }
  }

  /** One more bit, and what must hold for the whole bitmap to apply. */
  lemma SelectedMore(cursor: nat, bitmap: nat, bit: nat, bias: nat, m: Words)
    requires bit < BITS
    ensures Bit(bitmap, bit) ==>
      && Selected(cursor, bitmap, bit + 1) == Selected(cursor, bitmap, bit) + [cursor + bit * 8]
      && AddAll(m, Selected(cursor, bitmap, bit + 1), bias)
         == Added(AddAll(m, Selected(cursor, bitmap, bit), bias), cursor + bit * 8, bias)
      && (CanAddAll(m, Selected(cursor, bitmap, bit), bias)
          && CanAdd(AddAll(m, Selected(cursor, bitmap, bit), bias), cursor + bit * 8, bias)
          <==> CanAddAll(m, Selected(cursor, bitmap, bit + 1), bias))
    ensures !Bit(bitmap, bit) ==> Selected(cursor, bitmap, bit + 1) == Selected(cursor, bitmap, bit)
    ensures CanAddAll(m, Selected(cursor, bitmap, BITS), bias) ==> CanAddAll(m, Selected(cursor, bitmap, bit + 1), bias)
  {
    if Bit(bitmap, bit) {
      var before, a := Selected(cursor, bitmap, bit), cursor + bit * 8;
      AddConcat(m, before, [a], bias);
      One(AddAll(m, before, bias), a, bias);
    }
    SelectedPrefix(cursor, bitmap, bit + 1, BITS, bias, m);
  }

  lemma One(m: Words, a: nat, bias: nat)
    ensures AddAll(m, [a], bias) == Added(m, a, bias) && (CanAddAll(m, [a], bias) <==> CanAdd(m, a, bias))
  {
    assert [a][1..] == [];
  }

  lemma {:induction false} SelectedPrefix(cursor: nat, bitmap: nat, k: nat, n: nat, bias: nat, m: Words)
    requires k <= n
    ensures CanAddAll(m, Selected(cursor, bitmap, n), bias) ==> CanAddAll(m, Selected(cursor, bitmap, k), bias)
    decreases n
  {
    if k < n {
      SelectedPrefix(cursor, bitmap, k, n - 1, bias, m);
      AddConcat(m, Selected(cursor, bitmap, n - 1), if Bit(bitmap, n - 1) then [cursor + (n - 1) * 8] else [], bias);
    }
  }
}
