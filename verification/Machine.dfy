/** Words of the machine that every part of the kernel shares. */
module Machine {

  newtype byte = x: int | 0 <= x < 256

  const U64: nat := 0x1_0000_0000_0000_0000
  const PAGE_SIZE: nat := 4096
  const WORD_SIZE: nat := 8

  datatype Option<T> = None | Some(value: T)

  function Min(a: nat, b: nat): nat {
    if a <= b then a else b
  }

  function Max(a: nat, b: nat): nat {
    if a <= b then b else a
  }

  ghost predicate Distinct<T>(s: seq<T>) {
    forall i, j :: 0 <= i < j < |s| ==> s[i] != s[j]
  }

  /** Take an element out of a vector by moving the last one into its place. */
  function SwapRemove<T>(s: seq<T>, i: nat): (r: seq<T>)
    requires i < |s|
    ensures |r| == |s| - 1
  {
    s[i := s[|s| - 1]][..|s| - 1]
  }

  lemma SliceInFront<T>(a: seq<T>, b: seq<T>, from: nat, n: nat)
    requires from + n <= |a|
    ensures (a + b)[from..from + n] == a[from..from + n]
  {
  }

  lemma SliceAtBack<T>(a: seq<T>, b: seq<T>)
    ensures (a + b)[|a|..|a| + |b|] == b
  {
  }

  // --------------------------------------------------- little-endian numbers

  function Pow256(n: nat): (r: nat)
    ensures r > 0
  {
    if n == 0 then 1 else 256 * Pow256(n - 1)
  }

  /** The number whose bytes are `b`, least significant first. */
  function FromLe(b: seq<byte>): nat {
    if b == [] then 0 else (b[0] as int) + 256 * FromLe(b[1..])
  }

  function ToLe(w: nat, n: nat): (b: seq<byte>)
    ensures |b| == n
  {
    if n == 0 then [] else [(w % 256) as byte] + ToLe(w / 256, n - 1)
  }

  /** Reading a number back from its bytes gives the number. */
  lemma {:induction false} LeRoundTrip(w: nat, n: nat)
    requires w < Pow256(n)
    ensures FromLe(ToLe(w, n)) == w
    decreases n
  {
    if n > 0 {
      LeRoundTrip(w / 256, n - 1);
      assert ToLe(w, n)[1..] == ToLe(w / 256, n - 1);
    }
  }

  lemma WordIsEightBytes()
    ensures Pow256(WORD_SIZE) == U64
  {
    assert Pow256(WORD_SIZE) == Pow256(8);
    assert Pow256(2) == 0x1_0000;
    assert Pow256(4) == 0x1_0000_0000;
    assert Pow256(6) == 0x1_0000_0000_0000;
  }

  // ---------------------------------------------------------------- division

  lemma DivMod(x: nat, d: nat)
    requires d > 0
    ensures x == d * (x / d) + x % d && x % d < d
  {
  }

  lemma OnlyMultiple(d: int, k: int)
    requires -d < d * k < d
    ensures k == 0
  {
  }

  lemma Difference(d: int, a: int, b: int)
    ensures d * (a - b) == d * a - d * b
  {
  }

  /** A multiple of the divisor passes through a division. */
  lemma DivOfSum(a: nat, low: nat, d: nat)
    requires d > 0
    ensures (d * a + low) / d == a + low / d
  {
    var q := (d * a + low) / d;
    DivMod(d * a + low, d);
    DivMod(low, d);
    Difference(d, q, a);
    Difference(d, q - a, low / d);
    OnlyMultiple(d, q - a - low / d);
  }
}
