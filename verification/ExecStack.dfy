/**
 The initial user stack of kernel/src/exec.rs: strings below the stack end, then
 the block of argc, argv, envp and the auxiliary vector below them.
 */
module ExecStack {
  import opened Machine

  const AT_NULL: nat := 0
  const AT_PHDR: nat := 3
  const AT_PHENT: nat := 4
  const AT_PHNUM: nat := 5
  const AT_PAGESZ: nat := 6
  const AT_BASE: nat := 7
  const AT_FLAGS: nat := 8
  const AT_ENTRY: nat := 9
  const AT_UID: nat := 11
  const AT_EUID: nat := 12
  const AT_GID: nat := 13
  const AT_EGID: nat := 14
  const AT_PLATFORM: nat := 15
  const AT_HWCAP: nat := 16
  const AT_CLKTCK: nat := 17
  const AT_SECURE: nat := 23
  const AT_RANDOM: nat := 25
  const AT_HWCAP2: nat := 26
  const AT_EXECFN: nat := 31

  type Memory = map<nat, byte>

  datatype ExecError = InvalidStack | AddressOverflow

  datatype Result<T> = Ok(value: T) | Err(error: ExecError)

  datatype Range = Range(start: nat, end: nat) {
    predicate Contains(a: nat) {
      start <= a < end
    }

    predicate IsEmpty() {
      start >= end
    }
  }

  // ------------------------------------------------------------ user memory

  function Stored(m: Memory, a: nat, data: seq<byte>): Memory {
    if data == [] then m
    else
      var n := |data| - 1;
      Stored(m, a, data[..n])[a + n := data[n]]
  }

  /** What is in memory after a store. */
  lemma {:induction false} StoredIs(m: Memory, a: nat, data: seq<byte>, x: nat)
    ensures
      if a <= x < a + |data| then x in Stored(m, a, data) && Stored(m, a, data)[x] == data[x - a]
      else (x in Stored(m, a, data) <==> x in m) && (x in m ==> Stored(m, a, data)[x] == m[x])
    decreases |data|
  {
    if data != [] {
      StoredIs(m, a, data[..|data| - 1], x);
    }
  }

  class UserMemory {
    var bytes: Memory

    constructor ()
      ensures bytes == map[]
    {
      bytes := map[];
    }

    method Load(a: nat, data: seq<byte>)
      modifies this
      ensures bytes == Stored(old(bytes), a, data)
    {
      var i := 0;
      while i < |data|
        invariant 0 <= i <= |data| && bytes == Stored(old(bytes), a, data[..i])
      {
        assert data[..i + 1][..i] == data[..i];
        bytes := bytes[a + i := data[i]];
        i := i + 1;
      }
      assert data[..i] == data;
    }
  }

  /** Nothing at or above `low` differs. */
  ghost predicate SameAbove(m: Memory, m': Memory, low: nat) {
    forall x :: low <= x && x in m ==> x in m' && m'[x] == m[x]
  }

  /** Nothing outside the range differs. */
  ghost predicate SameOutside(m: Memory, m': Memory, range: Range) {
    forall x :: !range.Contains(x) ==> SameAt(m, m', x)
  }

  predicate SameAt(m: Memory, m': Memory, x: nat) {
    (x in m <==> x in m') && (x in m ==> m'[x] == m[x])
  }

  predicate Is(m: Memory, x: nat, b: byte) {
    x in m && m[x] == b
  }

  ghost predicate BytesAt(m: Memory, a: nat, data: seq<byte>) {
    forall i :: 0 <= i < |data| ==> Is(m, a + i, data[i])
  }

  /** A string with its terminator. */
  ghost predicate StringAt(m: Memory, a: nat, s: seq<byte>) {
    BytesAt(m, a, s) && Is(m, a + |s|, 0)
  }

  predicate Clean(s: seq<byte>) {
    s != [] && 0 !in s
  }

  // -------------------------------------------- what a user program reads

  function Bytes(m: Memory, a: nat, n: nat): (r: Option<seq<byte>>)
    ensures r.Some? ==> |r.value| == n
    decreases n
  {
    if n == 0 then Some([])
    else if a !in m then None
    else match Bytes(m, a + 1, n - 1)
      case None => None
      case Some(rest) => Some([m[a]] + rest)
  }

  /** The eight-byte word at `a`. */
  function Word(m: Memory, a: nat): Option<nat> {
    match Bytes(m, a, WORD_SIZE)
    case None => None
    case Some(b) => Some(FromLe(b))
  }

  /** The string at `a`, up to its terminator. */
  function ReadString(m: Memory, a: nat, end: nat): Option<seq<byte>>
    decreases end - a
  {
    if a >= end || a !in m then None
    else if m[a] == 0 then Some([])
    else match ReadString(m, a + 1, end)
      case None => None
      case Some(rest) => Some([m[a]] + rest)
  }

  /** How a program reads a word and a string; `None` is a fault. */
  type Words = nat -> Option<nat>
  type Texts = nat -> Option<seq<byte>>

  /** `n` strings through `n` pointers. */
  function ReadStrings(word: Words, text: Texts, a: nat, n: nat): Option<seq<seq<byte>>>
    decreases n
  {
    if n == 0 then Some([])
    else match word(a)
      case None => None
      case Some(p) =>
        match text(p)
        case None => None
        case Some(s) =>
          match ReadStrings(word, text, a + 8, n - 1)
          case None => None
          case Some(rest) => Some([s] + rest)
  }

  /** How many words there are before the first zero word. */
  function CountWords(word: Words, a: nat, end: nat): Option<nat>
    decreases end - a
  {
    if a >= end then None
    else match word(a)
      case None => None
      case Some(w) =>
        if w == 0 then Some(0)
        else match CountWords(word, a + 8, end)
          case None => None
          case Some(n) => Some(n + 1)
  }

  /** Key and value pairs up to the one with key AT_NULL. */
  function ReadAux(word: Words, a: nat, end: nat): Option<seq<(nat, nat)>>
    decreases end - a
  {
    if a >= end then None
    else match word(a)
      case None => None
      case Some(key) =>
        if key == AT_NULL then Some([])
        else match word(a + 8)
          case None => None
          case Some(value) =>
            match ReadAux(word, a + 16, end)
            case None => None
            case Some(rest) => Some([(key, value)] + rest)
  }

  datatype Image = Image(argc: nat, argv: seq<seq<byte>>, envp: seq<seq<byte>>, auxv: seq<(nat, nat)>)

  /** The walk of a C runtime from its stack pointer. */
  function Walk(word: Words, text: Texts, sp: nat, end: nat): Option<Image> {
    match word(sp)
    case None => None
    case Some(argc) =>
      var env := sp + (argc + 2) * 8;
      if word(sp + (argc + 1) * 8) != Some(0) then None
      else match CountWords(word, env, end)
        case None => None
        case Some(n) =>
          match (ReadStrings(word, text, sp + 8, argc), ReadStrings(word, text, env, n),
                 ReadAux(word, sp + (argc + n + 3) * 8, end))
          case (Some(argv), Some(envp), Some(auxv)) => Some(Image(argc, argv, envp, auxv))
          case _ => None
  }

  function WordReader(m: Memory): Words {
    (a: nat) => Word(m, a)
  }

  function TextReader(m: Memory, end: nat): Texts {
    (a: nat) => ReadString(m, a, end)
  }

  function WalkStack(m: Memory, sp: nat, end: nat): Option<Image> {
    Walk(WordReader(m), TextReader(m, end), sp, end)
  }

  // ---------------------------------------------------------- facts on memory

  lemma StoredKeepsAbove(m: Memory, a: nat, data: seq<byte>, low: nat)
    requires a + |data| <= low
    ensures SameAbove(m, Stored(m, a, data), low)
  {
    forall x | low <= x && x in m ensures x in Stored(m, a, data) && Stored(m, a, data)[x] == m[x] {
      StoredIs(m, a, data, x);
    }
  }

  lemma StoredInside(m: Memory, a: nat, data: seq<byte>, range: Range)
    requires data == [] || (range.start <= a && a + |data| <= range.end)
    ensures SameOutside(m, Stored(m, a, data), range)
  {
    forall x | !range.Contains(x) ensures SameAt(m, Stored(m, a, data), x) {
      StoredIs(m, a, data, x);
    }
  }

  lemma OutsideAgain(m: Memory, m': Memory, m'': Memory, range: Range)
    requires SameOutside(m, m', range) && SameOutside(m', m'', range)
    ensures SameOutside(m, m'', range)
  {
    forall x | !range.Contains(x) ensures SameAt(m, m'', x) {
      assert SameAt(m, m', x) && SameAt(m', m'', x);
    }
  }

  lemma StoredBytes(m: Memory, a: nat, data: seq<byte>)
    ensures BytesAt(Stored(m, a, data), a, data)
  {
    forall i | 0 <= i < |data| ensures Is(Stored(m, a, data), a + i, data[i]) {
      StoredIs(m, a, data, a + i);
    }
  }

  lemma BytesShift(m: Memory, a: nat, data: seq<byte>)
    requires BytesAt(m, a, data) && data != []
    ensures Is(m, a, data[0]) && BytesAt(m, a + 1, data[1..])
  {
    assert Is(m, a + 0, data[0]);
    forall i | 0 <= i < |data[1..]| ensures Is(m, a + 1 + i, data[1..][i]) {
      assert Is(m, a + (i + 1), data[i + 1]);
    }
  }

  lemma {:induction false} BytesRead(m: Memory, a: nat, data: seq<byte>)
    requires BytesAt(m, a, data)
    ensures Bytes(m, a, |data|) == Some(data)
    decreases |data|
  {
    if data != [] {
      BytesShift(m, a, data);
      BytesRead(m, a + 1, data[1..]);
      assert [data[0]] + data[1..] == data;
    }
  }

  lemma {:induction false} StringRead(m: Memory, a: nat, s: seq<byte>, end: nat)
    requires StringAt(m, a, s) && 0 !in s && a + |s| < end
    ensures ReadString(m, a, end) == Some(s)
    decreases |s|
  {
    if s != [] {
      BytesShift(m, a, s);
      assert s[0] in s;
      StringRead(m, a + 1, s[1..], end);
      assert [s[0]] + s[1..] == s;
    }
  }

  /** The words `ws` stand at `a`. */
  ghost predicate WordsAt(word: Words, a: nat, ws: seq<nat>) {
    forall i :: 0 <= i < |ws| ==> word(a + i * 8) == Some(ws[i])
  }

  function RawWords(ws: seq<nat>): (b: seq<byte>)
    ensures |b| == |ws| * 8
  {
    if ws == [] then [] else RawWords(ws[..|ws| - 1]) + ToLe(ws[|ws| - 1], WORD_SIZE)
  }

  lemma {:induction false} RawWordAt(ws: seq<nat>, i: nat)
    requires i < |ws|
    ensures RawWords(ws)[i * 8..i * 8 + 8] == ToLe(ws[i], WORD_SIZE)
    decreases |ws|
  {
    var n := |ws| - 1;
    var front, back := RawWords(ws[..n]), ToLe(ws[n], WORD_SIZE);
    assert RawWords(ws) == front + back;
    if i < n {
      RawWordAt(ws[..n], i);
      SliceInFront(front, back, i * 8, 8);
    } else {
      SliceAtBack(front, back);
    }
  }

  lemma WordRead(m: Memory, a: nat, piece: seq<byte>)
    requires BytesAt(m, a, piece) && |piece| == WORD_SIZE
    ensures Word(m, a) == Some(FromLe(piece))
  {
    BytesRead(m, a, piece);
  }

  /** Eight bytes of `raw` for each word. */
  ghost predicate IsRaw(raw: seq<byte>, ws: seq<nat>) {
    |raw| == |ws| * 8 && forall i :: 0 <= i < |ws| ==> RawIs(raw, i, ws[i])
  }

  ghost predicate RawIs(raw: seq<byte>, i: nat, w: nat) {
    i * 8 + 8 <= |raw| && FromLe(raw[i * 8..i * 8 + 8]) == w
  }

  lemma RawWordsAre(ws: seq<nat>)
    requires forall i :: 0 <= i < |ws| ==> ws[i] < U64
    ensures IsRaw(RawWords(ws), ws)
  {
    forall i | 0 <= i < |ws| ensures RawIs(RawWords(ws), i, ws[i]) {
      RawWordAt(ws, i);
      WordIsEightBytes();
      LeRoundTrip(ws[i], WORD_SIZE);
    }
  }

  lemma PieceAt(m: Memory, a: nat, raw: seq<byte>, at: nat, piece: seq<byte>)
    requires BytesAt(m, a, raw) && at + |piece| <= |raw| && raw[at..at + |piece|] == piece
    ensures BytesAt(m, a + at, piece)
  {
    forall j | 0 <= j < |piece| ensures Is(m, a + at + j, piece[j]) {
      assert Is(m, a + (at + j), raw[at + j]);
      assert raw[at..at + |piece|][j] == raw[at + j];
    }
  }

  lemma WordInside(m: Memory, a: nat, raw: seq<byte>, at: nat, w: nat)
    requires BytesAt(m, a, raw) && at + 8 <= |raw| && FromLe(raw[at..at + 8]) == w
    ensures Word(m, a + at) == Some(w)
  {
    var piece := raw[at..at + 8];
    PieceAt(m, a, raw, at, piece);
    WordRead(m, a + at, piece);
  }

  lemma WordsFromRaw(m: Memory, a: nat, raw: seq<byte>, ws: seq<nat>)
    requires BytesAt(m, a, raw) && IsRaw(raw, ws)
    ensures WordsAt(WordReader(m), a, ws)
  {
    var word := WordReader(m);
    forall i | 0 <= i < |ws| ensures word(a + i * 8) == Some(ws[i]) {
      assert RawIs(raw, i, ws[i]);
      WordInside(m, a, raw, i * 8, ws[i]);
    }
  }

  /** A stored block of words is read back word by word. */
  lemma StoredWords(m: Memory, a: nat, ws: seq<nat>)
    requires forall i :: 0 <= i < |ws| ==> ws[i] < U64
    requires BytesAt(m, a, RawWords(ws))
    ensures WordsAt(WordReader(m), a, ws)
  {
    RawWordsAre(ws);
    WordsFromRaw(m, a, RawWords(ws), ws);
  }

  lemma {:induction false} CountsWords(word: Words, a: nat, ws: seq<nat>, end: nat)
    requires WordsAt(word, a, ws + [0]) && (forall i :: 0 <= i < |ws| ==> ws[i] != 0) && a + |ws| * 8 < end
    ensures CountWords(word, a, end) == Some(|ws|)
    decreases |ws|
  {
    assert word(a + 0 * 8) == Some((ws + [0])[0]);
    if ws != [] {
      ShiftWords(word, a, ws + [0], 1);
      assert (ws + [0])[1..] == ws[1..] + [0];
      CountsWords(word, a + 8, ws[1..], end);
    }
  }

  lemma ShiftWords(word: Words, a: nat, ws: seq<nat>, k: nat)
    requires WordsAt(word, a, ws) && k <= |ws|
    ensures WordsAt(word, a + k * 8, ws[k..])
  {
    forall i | 0 <= i < |ws[k..]| ensures word(a + k * 8 + i * 8) == Some(ws[k..][i]) {
      assert word(a + (k + i) * 8) == Some(ws[k + i]);
    }
  }

  lemma Segment(word: Words, a: nat, ws: seq<nat>, from: nat, to: nat)
    requires WordsAt(word, a, ws) && from <= to <= |ws|
    ensures WordsAt(word, a + from * 8, ws[from..to])
  {
    var part := ws[from..to];
    forall i | 0 <= i < |part| ensures word(a + from * 8 + i * 8) == Some(part[i]) {
      assert word(a + (from + i) * 8) == Some(ws[from + i]);
    }
  }

  /** The strings `values` stand at `ptrs`, between `low` and `end`. */
  ghost predicate Placed(m: Memory, ptrs: seq<nat>, values: seq<seq<byte>>, low: nat, end: nat) {
    && |ptrs| == |values|
    && forall i :: 0 <= i < |ptrs| ==> low <= ptrs[i] && ptrs[i] + |values[i]| < end && StringAt(m, ptrs[i], values[i])
  }

  /** Reading through the pointers gives the strings. */
  ghost predicate Reads(text: Texts, ptrs: seq<nat>, values: seq<seq<byte>>) {
    |ptrs| == |values| && forall i :: 0 <= i < |ptrs| ==> text(ptrs[i]) == Some(values[i]) && ptrs[i] != 0
  }

  lemma PlacedReads(m: Memory, ptrs: seq<nat>, values: seq<seq<byte>>, low: nat, end: nat)
    requires Placed(m, ptrs, values, low, end) && 0 < low && forall i :: 0 <= i < |values| ==> Clean(values[i])
    ensures Reads(TextReader(m, end), ptrs, values)
  {
    var text := TextReader(m, end);
    forall i | 0 <= i < |ptrs| ensures text(ptrs[i]) == Some(values[i]) && ptrs[i] != 0 {
      StringRead(m, ptrs[i], values[i], end);
    }
  }

  lemma {:induction false} StringsRead(word: Words, text: Texts, a: nat, ptrs: seq<nat>, values: seq<seq<byte>>)
    requires Reads(text, ptrs, values) && WordsAt(word, a, ptrs)
    ensures ReadStrings(word, text, a, |ptrs|) == Some(values)
    decreases |ptrs|
  {
    if ptrs != [] {
      assert word(a + 0 * 8) == Some(ptrs[0]);
      ShiftWords(word, a, ptrs, 1);
      StringsRead(word, text, a + 8, ptrs[1..], values[1..]);
      assert [values[0]] + values[1..] == values;
    }
  }

  function Pairs(auxv: seq<(nat, nat)>): (ws: seq<nat>)
    ensures |ws| == 2 * |auxv|
  {
    if auxv == [] then [] else [auxv[0].0, auxv[0].1] + Pairs(auxv[1..])
  }

  lemma {:induction false} AuxRead(word: Words, a: nat, auxv: seq<(nat, nat)>, end: nat)
    requires WordsAt(word, a, Pairs(auxv) + [AT_NULL, 0]) && a + |auxv| * 16 < end
    requires forall i :: 0 <= i < |auxv| ==> auxv[i].0 != AT_NULL
    ensures ReadAux(word, a, end) == Some(auxv)
    decreases |auxv|
  {
    var ws := Pairs(auxv) + [AT_NULL, 0];
    assert word(a + 0 * 8) == Some(ws[0]) && word(a + 1 * 8) == Some(ws[1]);
    if auxv != [] {
      ShiftWords(word, a, ws, 2);
      assert ws[2..] == Pairs(auxv[1..]) + [AT_NULL, 0];
      AuxRead(word, a + 16, auxv[1..], end);
      assert [(auxv[0].0, auxv[0].1)] + auxv[1..] == auxv;
    }
  }

  // ----------------------------------------------------- the block of words

  function BlockOf(argvPtrs: seq<nat>, envPtrs: seq<nat>, auxv: seq<(nat, nat)>): seq<nat> {
    [|argvPtrs|] + argvPtrs + [0] + envPtrs + [0] + Pairs(auxv) + [AT_NULL, 0]
  }

  /** The parts of a block of words. */
  ghost predicate Block(ws: seq<nat>, argvPtrs: seq<nat>, envPtrs: seq<nat>, auxv: seq<(nat, nat)>) {
    var n, k := |argvPtrs|, |envPtrs|;
    && |ws| == n + k + 5 + 2 * |auxv| && ws[0] == n && ws[1..1 + n] == argvPtrs && ws[n + 1] == 0
    && ws[n + 2..n + 2 + k] == envPtrs && ws[n + 2..n + 3 + k] == envPtrs + [0]
    && ws[n + k + 3..|ws|] == Pairs(auxv) + [AT_NULL, 0]
  }

  lemma BlockParts(argvPtrs: seq<nat>, envPtrs: seq<nat>, auxv: seq<(nat, nat)>)
    ensures Block(BlockOf(argvPtrs, envPtrs, auxv), argvPtrs, envPtrs, auxv)
  {
    var head, tail := [|argvPtrs|] + argvPtrs + [0], envPtrs + [0] + Pairs(auxv) + [AT_NULL, 0];
    var ws, n, k := BlockOf(argvPtrs, envPtrs, auxv), |argvPtrs|, |envPtrs|;
    assert ws == head + tail;
    assert ws[1..1 + n] == head[1..1 + n] == argvPtrs;
    assert ws[n + 2..n + 2 + k] == tail[..k] == envPtrs;
    assert ws[n + 2..n + 3 + k] == tail[..k + 1] == envPtrs + [0];
    assert ws[n + k + 3..|ws|] == tail[k + 1..] == Pairs(auxv) + [AT_NULL, 0];
  }

  /** From the block and the strings a user program recovers everything that was passed. */
  lemma WalkRecovers(word: Words, text: Texts, sp: nat, end: nat, ws: seq<nat>, argvPtrs: seq<nat>,
                     argv: seq<seq<byte>>, envPtrs: seq<nat>, envp: seq<seq<byte>>, auxv: seq<(nat, nat)>)
    requires WordsAt(word, sp, ws) && Block(ws, argvPtrs, envPtrs, auxv) && sp + |ws| * 8 <= end
    requires Reads(text, argvPtrs, argv) && Reads(text, envPtrs, envp)
    requires forall i :: 0 <= i < |auxv| ==> auxv[i].0 != AT_NULL
    ensures Walk(word, text, sp, end) == Some(Image(|argv|, argv, envp, auxv))
  {
    ArgvRecovered(word, text, sp, ws, argvPtrs, argv, envPtrs, auxv);
    EnvRecovered(word, text, sp, end, ws, argvPtrs, envPtrs, envp, auxv);
    AuxRecovered(word, sp, end, ws, argvPtrs, envPtrs, auxv);
  }

  lemma ArgvRecovered(word: Words, text: Texts, sp: nat, ws: seq<nat>, argvPtrs: seq<nat>, argv: seq<seq<byte>>,
                      envPtrs: seq<nat>, auxv: seq<(nat, nat)>)
    requires WordsAt(word, sp, ws) && Block(ws, argvPtrs, envPtrs, auxv) && Reads(text, argvPtrs, argv)
    ensures word(sp) == Some(|argv|) && word(sp + (|argv| + 1) * 8) == Some(0)
    ensures ReadStrings(word, text, sp + 8, |argv|) == Some(argv)
  {
    var n := |argvPtrs|;
    assert word(sp + 0 * 8) == Some(ws[0]) && word(sp + (n + 1) * 8) == Some(ws[n + 1]);
    Segment(word, sp, ws, 1, 1 + n);
    StringsRead(word, text, sp + 8, argvPtrs, argv);
  }

  lemma EnvRecovered(word: Words, text: Texts, sp: nat, end: nat, ws: seq<nat>, argvPtrs: seq<nat>,
                     envPtrs: seq<nat>, envp: seq<seq<byte>>, auxv: seq<(nat, nat)>)
    requires WordsAt(word, sp, ws) && Block(ws, argvPtrs, envPtrs, auxv) && sp + |ws| * 8 <= end
    requires Reads(text, envPtrs, envp)
    ensures
      var env := sp + (|argvPtrs| + 2) * 8;
      CountWords(word, env, end) == Some(|envp|) && ReadStrings(word, text, env, |envp|) == Some(envp)
  {
    ListInside(word, text, sp, end, ws, |argvPtrs| + 2, envPtrs, envp);
  }

  lemma ListInside(word: Words, text: Texts, sp: nat, end: nat, ws: seq<nat>, from: nat, ptrs: seq<nat>,
                   values: seq<seq<byte>>)
    requires WordsAt(word, sp, ws) && sp + |ws| * 8 <= end && Reads(text, ptrs, values)
    requires from + |ptrs| < |ws| && ws[from..from + |ptrs|] == ptrs && ws[from..from + |ptrs| + 1] == ptrs + [0]
    ensures
      var a := sp + from * 8;
      CountWords(word, a, end) == Some(|values|) && ReadStrings(word, text, a, |values|) == Some(values)
  {
    Segment(word, sp, ws, from, from + |ptrs|);
    Segment(word, sp, ws, from, from + |ptrs| + 1);
    ListRecovered(word, text, sp + from * 8, end, ptrs, values);
  }

  /** A list of pointers that a zero ends is counted and read. */
  lemma ListRecovered(word: Words, text: Texts, a: nat, end: nat, ptrs: seq<nat>, values: seq<seq<byte>>)
    requires WordsAt(word, a, ptrs) && WordsAt(word, a, ptrs + [0]) && Reads(text, ptrs, values)
    requires a + |ptrs| * 8 < end
    ensures CountWords(word, a, end) == Some(|values|) && ReadStrings(word, text, a, |values|) == Some(values)
  {
    CountsWords(word, a, ptrs, end);
    StringsRead(word, text, a, ptrs, values);
  }

  lemma AuxRecovered(word: Words, sp: nat, end: nat, ws: seq<nat>, argvPtrs: seq<nat>, envPtrs: seq<nat>,
                     auxv: seq<(nat, nat)>)
    requires WordsAt(word, sp, ws) && Block(ws, argvPtrs, envPtrs, auxv) && sp + |ws| * 8 <= end
    requires forall i :: 0 <= i < |auxv| ==> auxv[i].0 != AT_NULL
    ensures ReadAux(word, sp + (|argvPtrs| + |envPtrs| + 3) * 8, end) == Some(auxv)
  {
    var n, k := |argvPtrs|, |envPtrs|;
    Segment(word, sp, ws, n + k + 3, |ws|);
    AuxRead(word, sp + (n + k + 3) * 8, auxv, end);
  }

  // ------------------------------------------------------------ building it

  predicate SpanOk(stack: Range, start: nat, length: nat) {
    length == 0 || (start + length <= stack.end && stack.Contains(start) && stack.Contains(start + length - 1))
  }

  function SpanError(start: nat, length: nat): ExecError {
    if start + length >= U64 then AddressOverflow else InvalidStack
  }

  /** `push_stack_bytes`. */
  method PushBytes(memory: UserMemory, stack: Range, cursor: nat, data: seq<byte>) returns (r: Result<nat>)
    requires cursor <= stack.end < U64
    modifies memory
    ensures r.Ok? <==> data == [] || stack.start + |data| <= cursor
    ensures r.Err? ==> r == Err(InvalidStack) && memory.bytes == old(memory.bytes)
    ensures r.Ok? ==> r.value + |data| == cursor && BytesAt(memory.bytes, r.value, data)
    ensures r.Ok? ==> SameAbove(old(memory.bytes), memory.bytes, cursor)
    ensures SameOutside(old(memory.bytes), memory.bytes, stack)
  {
    if cursor < |data| {
      return Err(InvalidStack);
    }
    var start := cursor - |data|;
    if !SpanOk(stack, start, |data|) {
      return Err(SpanError(start, |data|));
    }
    StoredBytes(memory.bytes, start, data);
    StoredKeepsAbove(memory.bytes, start, data, cursor);
    StoredInside(memory.bytes, start, data, stack);
    memory.Load(start, data);
    return Ok(start);
  }

  /** `push_stack_string`: the bytes, then the terminator behind them. */
  method PushString(memory: UserMemory, stack: Range, cursor: nat, value: seq<byte>) returns (r: Result<nat>)
    requires cursor <= stack.end < U64
    modifies memory
    ensures r.Ok? <==> stack.start + |value| + 1 <= cursor
    ensures r.Err? ==> r == Err(InvalidStack) && memory.bytes == old(memory.bytes)
    ensures r.Ok? ==> r.value + |value| + 1 == cursor && StringAt(memory.bytes, r.value, value)
    ensures r.Ok? ==> SameAbove(old(memory.bytes), memory.bytes, cursor)
    ensures SameOutside(old(memory.bytes), memory.bytes, stack)
  {
    if cursor < |value| + 1 {
      return Err(InvalidStack);
    }
    var start := cursor - (|value| + 1);
    if !SpanOk(stack, start, |value| + 1) {
      return Err(SpanError(start, |value| + 1));
    }
    ghost var m := memory.bytes;
    StoredString(m, start, value);
    StoredInside(m, start, value, stack);
    StoredInside(Stored(m, start, value), start + |value|, [0], stack);
    OutsideAgain(m, Stored(m, start, value), Stored(Stored(m, start, value), start + |value|, [0]), stack);
    memory.Load(start, value);
    memory.Load(start + |value|, [0]);
    return Ok(start);
  }

  lemma StoredString(m: Memory, a: nat, s: seq<byte>)
    ensures var m' := Stored(Stored(m, a, s), a + |s|, [0]); StringAt(m', a, s) && SameAbove(m, m', a + |s| + 1)
  {
    var m1 := Stored(m, a, s);
    var m2 := Stored(m1, a + |s|, [0]);
    forall i | 0 <= i < |s| ensures Is(m2, a + i, s[i]) {
      StoredIs(m, a, s, a + i);
      StoredIs(m1, a + |s|, [0], a + i);
    }
    StoredIs(m1, a + |s|, [0], a + |s|);
    StoredKeepsAbove(m, a, s, a + |s| + 1);
    StoredKeepsAbove(m1, a + |s|, [0], a + |s| + 1);
  }

  lemma PlacedKept(m: Memory, m': Memory, ptrs: seq<nat>, values: seq<seq<byte>>, low: nat, end: nat)
    requires Placed(m, ptrs, values, low, end) && SameAbove(m, m', low)
    ensures Placed(m', ptrs, values, low, end)
  {
    forall i | 0 <= i < |ptrs|
      ensures low <= ptrs[i] && ptrs[i] + |values[i]| < end && StringAt(m', ptrs[i], values[i])
    {
      StringKept(m, m', ptrs[i], values[i], low);
    }
  }

  /** One more string below those that stand. */
  lemma PlacedMore(m: Memory, m': Memory, p: nat, s: seq<byte>, ptrs: seq<nat>, rest: seq<seq<byte>>, at: nat, end: nat)
    requires Placed(m, ptrs, rest, at, end) && SameAbove(m, m', at) && at <= end
    requires StringAt(m', p, s) && p + |s| + 1 == at
    ensures Placed(m', [p] + ptrs, [s] + rest, p, end)
  {
    PlacedKept(m, m', ptrs, rest, at, end);
  }

  lemma AboveAgain(m: Memory, m': Memory, m'': Memory, at: nat, low: nat)
    requires SameAbove(m, m', low) && SameAbove(m', m'', at) && at <= low
    ensures SameAbove(m, m'', low)
  {
  }

  lemma StringKept(m: Memory, m': Memory, a: nat, s: seq<byte>, low: nat)
    requires StringAt(m, a, s) && SameAbove(m, m', low) && low <= a
    ensures StringAt(m', a, s)
  {
    forall i | 0 <= i < |s| ensures Is(m', a + i, s[i]) {
      assert Is(m, a + i, s[i]);
    }
  }

  /** The room the strings take, terminators included. */
  function Room(values: seq<seq<byte>>): nat {
    if values == [] then 0 else |values[0]| + 1 + Room(values[1..])
  }

  /** Push strings from the last to the first; the pointers come out in the order of the strings. */
  method PushStrings(memory: UserMemory, stack: Range, cursor: nat, values: seq<seq<byte>>)
    returns (r: Result<(nat, seq<nat>)>)
    requires stack.start <= cursor <= stack.end < U64
    modifies memory
    ensures r.Ok? <==> stack.start + Room(values) <= cursor
    ensures r.Err? ==> r == Err(InvalidStack)
    ensures r.Ok? ==> r.value.0 == cursor - Room(values) && SameAbove(old(memory.bytes), memory.bytes, cursor)
    ensures r.Ok? ==> Placed(memory.bytes, r.value.1, values, r.value.0, cursor)
    ensures SameOutside(old(memory.bytes), memory.bytes, stack)
  {
    var at, ptrs, i := cursor, [], |values|;
    ghost var before := memory.bytes;
    assert values[i..] == [];
    while i > 0
      invariant 0 <= i <= |values| && stack.start <= at <= cursor && at == cursor - Room(values[i..])
      invariant SameAbove(before, memory.bytes, cursor) && Placed(memory.bytes, ptrs, values[i..], at, cursor)
      invariant SameOutside(before, memory.bytes, stack)
    {
      ghost var m, rest := memory.bytes, values[i..];
      i := i - 1;
      assert values[i..] == [values[i]] + rest && values[i..][1..] == rest;
      RoomGrows(values, i);
      var p := PushString(memory, stack, at, values[i]);
      OutsideAgain(before, m, memory.bytes, stack);
      if p.Err? {
        return Err(p.error);
      }
      AboveAgain(before, m, memory.bytes, at, cursor);
      PlacedMore(m, memory.bytes, p.value, values[i], ptrs, rest, at, cursor);
      at, ptrs := p.value, [p.value] + ptrs;
    }
    assert values[0..] == values;
    return Ok((at, ptrs));
  }

  lemma {:induction false} RoomGrows(values: seq<seq<byte>>, i: nat)
    requires i <= |values|
    ensures Room(values[i..]) <= Room(values)
    decreases i
  {
    if i > 0 {
      RoomGrows(values, i - 1);
      assert values[i - 1..][1..] == values[i..];
    }
    assert values[0..] == values;
  }

  /** What the auxiliary vector says about the program; all are machine words. */
  datatype Program = Program(phdr: nat, phent: nat, phnum: nat, base: nat, entry: nat) {
    predicate Valid() {
      phdr < U64 && phent < U64 && phnum < U64 && base < U64 && entry < U64
    }
  }

  /** Where the strings the auxiliary vector points to are. */
  datatype Pointers = Pointers(platform: nat, random: nat, execfn: nat)

  function Auxv(p: Program, at: Pointers): seq<(nat, nat)> {
    [(AT_PHDR, p.phdr), (AT_PHENT, p.phent), (AT_PHNUM, p.phnum), (AT_BASE, p.base), (AT_FLAGS, 0), (AT_ENTRY, p.entry),
     (AT_PAGESZ, PAGE_SIZE), (AT_UID, 0), (AT_EUID, 0), (AT_GID, 0), (AT_EGID, 0), (AT_CLKTCK, 100),
     (AT_PLATFORM, at.platform), (AT_HWCAP, 0), (AT_HWCAP2, 0), (AT_SECURE, 0), (AT_RANDOM, at.random),
     (AT_EXECFN, at.execfn)]
  }

  /** The vector has an entry for `key`, and whichever entry for it a program finds says `value`. */
  ghost predicate Says(auxv: seq<(nat, nat)>, key: nat, value: nat) {
    (key, value) in auxv && forall i :: 0 <= i < |auxv| && auxv[i].0 == key ==> auxv[i].1 == value
  }

  /** What a program finds under the numbers that the ABI gives the entries. */
  ghost predicate Informs(auxv: seq<(nat, nat)>, p: Program, at: Pointers) {
    && Says(auxv, 3, p.phdr) && Says(auxv, 4, p.phent) && Says(auxv, 5, p.phnum)
    && Says(auxv, 7, p.base) && Says(auxv, 9, p.entry)
    && Says(auxv, 15, at.platform) && Says(auxv, 25, at.random) && Says(auxv, 31, at.execfn)
    && SaysFixed(auxv)
  }

  ghost predicate SaysFixed(auxv: seq<(nat, nat)>) {
    && Says(auxv, 6, 4096) && Says(auxv, 8, 0) && Says(auxv, 11, 0) && Says(auxv, 12, 0) && Says(auxv, 13, 0)
    && Says(auxv, 14, 0) && Says(auxv, 16, 0) && Says(auxv, 17, 100) && Says(auxv, 23, 0) && Says(auxv, 26, 0)
  }

  /** The position at which the entry for a key stands. */
  function Slot(key: nat): nat {
    if key < 6 then key - Min(key, 3) else if key == 6 then 6 else if key < 10 then key - 4
    else if key < 15 then key - 4 else if key < 17 then key - 3 else if key == 17 then 11
    else if key == 23 then 15 else if key == 25 then 16 else if key == 26 then 14 else 17
  }

  ghost predicate Keyed(auxv: seq<(nat, nat)>) {
    forall j :: 0 <= j < |auxv| ==> Slot(auxv[j].0) == j
  }

  lemma SaysAt(auxv: seq<(nat, nat)>, i: nat)
    requires Keyed(auxv) && i < |auxv|
    ensures Says(auxv, auxv[i].0, auxv[i].1)
  {
    assert (auxv[i].0, auxv[i].1) == auxv[i];
    assert Slot(auxv[i].0) == i;
  }

  lemma AuxvKeyed(p: Program, at: Pointers)
    ensures Keyed(Auxv(p, at))
  {
  }

  lemma AuxvFixed(p: Program, at: Pointers)
    requires Keyed(Auxv(p, at))
    ensures SaysFixed(Auxv(p, at))
  {
    var auxv := Auxv(p, at);
    SaysAt(auxv, 4);
    SaysAt(auxv, 6);
    SaysAt(auxv, 7);
    SaysAt(auxv, 8);
    SaysAt(auxv, 9);
    SaysAt(auxv, 10);
    SaysAt(auxv, 11);
    SaysAt(auxv, 13);
    SaysAt(auxv, 14);
    SaysAt(auxv, 15);
  }

  lemma AuxvInforms(p: Program, at: Pointers)
    ensures Informs(Auxv(p, at), p, at)
  {
    var auxv := Auxv(p, at);
    AuxvKeyed(p, at);
    AuxvFixed(p, at);
    SaysAt(auxv, 0);
    SaysAt(auxv, 1);
    SaysAt(auxv, 2);
    SaysAt(auxv, 3);
    SaysAt(auxv, 5);
    SaysAt(auxv, 12);
    SaysAt(auxv, 16);
    SaysAt(auxv, 17);
  }

  function AlignDown(x: nat): (r: nat)
    ensures r <= x < r + 16 && r % 16 == 0
  {
    x - x % 16
  }

  predicate ArgsOk(stack: Range, argv: seq<seq<byte>>, envp: seq<seq<byte>>) {
    && argv != [] && (forall i :: 0 <= i < |argv| ==> Clean(argv[i]))
    && (forall i :: 0 <= i < |envp| ==> Clean(envp[i]))
    && !stack.IsEmpty() && stack.end % 16 == 0
  }

  /** The room everything above the block of words takes. */
  function Above(argv: seq<seq<byte>>, envp: seq<seq<byte>>, random: seq<byte>, platform: seq<byte>): nat {
    Room(argv) + Room(envp) + |random| + |platform| + 1
  }

  function BlockBytes(argv: seq<seq<byte>>, envp: seq<seq<byte>>): nat {
    (|argv| + |envp| + 41) * 8
  }

  /** A block of words fits, aligned, between the stack start and `low`. */
  predicate FitsBelow(start: nat, low: nat, block: nat) {
    block < U64 && block <= AlignDown(low) && start <= AlignDown(AlignDown(low) - block)
  }

  predicate Fits(stack: Range, above: nat, block: nat) {
    stack.start + above <= stack.end && FitsBelow(stack.start, stack.end - above, block)
  }

  lemma FitsWhere(stack: Range, above: nat, low: nat, block: nat)
    requires stack.start + above <= stack.end && low == stack.end - above
    ensures Fits(stack, above, block) <==> FitsBelow(stack.start, low, block)
  {
  }

  /** The only overflow is a block of words that no address space holds, behind strings that fit. */
  function Failure(stack: Range, argv: seq<seq<byte>>, envp: seq<seq<byte>>, above: nat, block: nat): ExecError {
    if ArgsOk(stack, argv, envp) && stack.start + above <= stack.end && block >= U64 then AddressOverflow
    else InvalidStack
  }

  /** The strings, the random bytes and the platform name, with what points to them. */
  datatype Strings = Strings(argv: seq<nat>, envp: seq<nat>, at: Pointers, low: nat)

  ghost predicate StringsPlaced(m: Memory, s: Strings, argv: seq<seq<byte>>, envp: seq<seq<byte>>, random: seq<byte>,
                                platform: seq<byte>, end: nat) {
    && Placed(m, s.argv, argv, s.low, end) && Placed(m, s.envp, envp, s.low, end)
    && StringAt(m, s.at.platform, platform) && s.low <= s.at.platform && s.at.platform + |platform| < end
    && BytesAt(m, s.at.random, random) && s.low <= s.at.random && s.at.random + |random| <= end
    && s.argv != [] && s.at.execfn == s.argv[0]
  }

  method PlaceStrings(memory: UserMemory, stack: Range, argv: seq<seq<byte>>, envp: seq<seq<byte>>, random: seq<byte>,
                      platform: seq<byte>)
    returns (r: Result<Strings>)
    requires !stack.IsEmpty() && stack.end < U64 && argv != [] && random != []
    modifies memory
    ensures r.Ok? <==> stack.start + Above(argv, envp, random, platform) <= stack.end
    ensures r.Err? ==> r == Err(InvalidStack)
    ensures r.Ok? ==> r.value.low == stack.end - Above(argv, envp, random, platform)
    ensures r.Ok? ==> StringsPlaced(memory.bytes, r.value, argv, envp, random, platform, stack.end)
    ensures SameOutside(old(memory.bytes), memory.bytes, stack)
  {
    ghost var m0 := memory.bytes;
    var args := PushStrings(memory, stack, stack.end, argv);
    if args.Err? {
      return Err(args.error);
    }
    ghost var m1 := memory.bytes;
    var env := PushStrings(memory, stack, args.value.0, envp);
    OutsideAgain(m0, m1, memory.bytes, stack);
    if env.Err? {
      return Err(env.error);
    }
    ghost var m2 := memory.bytes;
    PlacedKept(m1, m2, args.value.1, argv, args.value.0, stack.end);
    var seed := PushBytes(memory, stack, env.value.0, random);
    OutsideAgain(m0, m2, memory.bytes, stack);
    if seed.Err? {
      return Err(seed.error);
    }
    ghost var m3 := memory.bytes;
    var name := PushString(memory, stack, seed.value, platform);
    OutsideAgain(m0, m3, memory.bytes, stack);
    if name.Err? {
      return Err(name.error);
    }
    Settle(m2, m3, memory.bytes, args.value.1, argv, args.value.0, env.value.1, envp, env.value.0, seed.value, random,
           name.value, stack.end);
    return Ok(Strings(args.value.1, env.value.1, Pointers(name.value, seed.value, args.value.1[0]), name.value));
  }

  /** What was pushed stays in place while more is pushed below it. */
  lemma Settle(m2: Memory, m3: Memory, m4: Memory, args: seq<nat>, argv: seq<seq<byte>>, argLow: nat,
               env: seq<nat>, envp: seq<seq<byte>>, envLow: nat, seed: nat, random: seq<byte>, low: nat, end: nat)
    requires low <= seed <= envLow <= argLow <= end && seed + |random| == envLow
    requires SameAbove(m2, m3, envLow) && SameAbove(m3, m4, seed) && BytesAt(m3, seed, random)
    requires Placed(m2, args, argv, argLow, end) && Placed(m2, env, envp, envLow, argLow)
    ensures Placed(m4, args, argv, low, end) && Placed(m4, env, envp, low, end) && BytesAt(m4, seed, random)
  {
    PlacedKept(m2, m3, args, argv, argLow, end);
    PlacedKept(m2, m3, env, envp, envLow, argLow);
    PlacedKept(m3, m4, args, argv, argLow, end);
    PlacedKept(m3, m4, env, envp, envLow, argLow);
    forall i | 0 <= i < |random| ensures Is(m4, seed + i, random[i]) {
      assert Is(m3, seed + i, random[i]);
    }
  }

  /** Storing the block below the strings completes the image. */
  lemma Completed(m: Memory, sp: nat, s: Strings, ws: seq<nat>, argv: seq<seq<byte>>, envp: seq<seq<byte>>,
                  random: seq<byte>, platform: seq<byte>, auxv: seq<(nat, nat)>, end: nat)
    requires StringsPlaced(m, s, argv, envp, random, platform, end) && sp + |RawWords(ws)| <= s.low <= end && 0 < s.low
    requires Block(ws, s.argv, s.envp, auxv) && (forall i :: 0 <= i < |ws| ==> ws[i] < U64)
    requires (forall i :: 0 <= i < |argv| ==> Clean(argv[i])) && (forall i :: 0 <= i < |envp| ==> Clean(envp[i]))
    requires forall i :: 0 <= i < |auxv| ==> auxv[i].0 != AT_NULL
    ensures
      var m' := Stored(m, sp, RawWords(ws));
      && StringsPlaced(m', s, argv, envp, random, platform, end)
      && WalkStack(m', sp, end) == Some(Image(|argv|, argv, envp, auxv))
  {
    var m' := Stored(m, sp, RawWords(ws));
    StoredKeepsAbove(m, sp, RawWords(ws), s.low);
    StillPlaced(m, m', s, argv, envp, random, platform, end);
    StoredBytes(m, sp, RawWords(ws));
    StoredWords(m', sp, ws);
    PlacedReads(m', s.argv, argv, s.low, end);
    PlacedReads(m', s.envp, envp, s.low, end);
    WalkRecovers(WordReader(m'), TextReader(m', end), sp, end, ws, s.argv, argv, s.envp, envp, auxv);
  }

  lemma StillPlaced(m: Memory, m': Memory, s: Strings, argv: seq<seq<byte>>, envp: seq<seq<byte>>,
                    random: seq<byte>, platform: seq<byte>, end: nat)
    requires StringsPlaced(m, s, argv, envp, random, platform, end) && SameAbove(m, m', s.low)
    ensures StringsPlaced(m', s, argv, envp, random, platform, end)
  {
    PlacedKept(m, m', s.argv, argv, s.low, end);
    PlacedKept(m, m', s.envp, envp, s.low, end);
    StringKept(m, m', s.at.platform, platform, s.low);
    forall i | 0 <= i < |random| ensures Is(m', s.at.random + i, random[i]) {
      assert Is(m, s.at.random + i, random[i]);
    }
  }

  method Serialize(ws: seq<nat>) returns (raw: seq<byte>)
    ensures raw == RawWords(ws)
  {
    raw := [];
    var i := 0;
    while i < |ws|
      invariant 0 <= i <= |ws| && raw == RawWords(ws[..i])
    {
      assert ws[..i + 1][..i] == ws[..i];
      raw := raw + ToLe(ws[i], WORD_SIZE);
      i := i + 1;
    }
    assert ws[..i] == ws;
  }

  lemma {:induction false} RoomCounts(values: seq<seq<byte>>)
    ensures |values| <= Room(values)
  {
    if values != [] {
      RoomCounts(values[1..]);
    }
  }

  /** Every word of the block is a machine word. */
  lemma BlockFits(m: Memory, s: Strings, argv: seq<seq<byte>>, envp: seq<seq<byte>>, random: seq<byte>,
                  platform: seq<byte>, program: Program, end: nat)
    requires StringsPlaced(m, s, argv, envp, random, platform, end) && end < U64 && |argv| < U64 && program.Valid()
    ensures var ws := BlockOf(s.argv, s.envp, Auxv(program, s.at)); forall i :: 0 <= i < |ws| ==> ws[i] < U64
  {
    var auxv := Auxv(program, s.at);
    forall i | 0 <= i < |auxv| ensures auxv[i].0 < U64 && auxv[i].1 < U64 {}
    PairsFit(auxv);
    var ws, n, k := BlockOf(s.argv, s.envp, auxv), |s.argv|, |s.envp|;
    forall i | 0 <= i < |ws| ensures ws[i] < U64 {
      if 1 <= i < 1 + n { assert ws[i] == s.argv[i - 1]; }
      else if n + 2 <= i < n + 2 + k { assert ws[i] == s.envp[i - n - 2]; }
      else if n + k + 3 <= i < n + k + 3 + 2 * |auxv| { assert ws[i] == Pairs(auxv)[i - n - k - 3]; }
    }
  }

  lemma {:induction false} PairsFit(auxv: seq<(nat, nat)>)
    requires forall i :: 0 <= i < |auxv| ==> auxv[i].0 < U64 && auxv[i].1 < U64
    ensures forall i :: 0 <= i < |Pairs(auxv)| ==> Pairs(auxv)[i] < U64
    decreases |auxv|
  {
    if auxv != [] {
      PairsFit(auxv[1..]);
    }
  }

  /**
   `build_initial_stack`: it succeeds exactly for clean arguments that fit, and
   then a walk from the returned pointer recovers them all.
   */
  method BuildInitialStack(memory: UserMemory, stack: Range, argv: seq<seq<byte>>, envp: seq<seq<byte>>,
                           random: seq<byte>, platform: seq<byte>, program: Program)
    returns (r: Result<nat>, ghost at: Strings)
    requires stack.end < U64 && random != [] && Clean(platform) && program.Valid()
    modifies memory
    ensures r.Ok? <==>
      ArgsOk(stack, argv, envp) && Fits(stack, Above(argv, envp, random, platform), BlockBytes(argv, envp))
    ensures r.Ok? ==>
      r.value % 16 == 0 && stack.start <= r.value && r.value + BlockBytes(argv, envp) <= at.low <= stack.end
    ensures r.Ok? ==> StringsPlaced(memory.bytes, at, argv, envp, random, platform, stack.end)
    ensures r.Ok? ==>
      WalkStack(memory.bytes, r.value, stack.end) == Some(Image(|argv|, argv, envp, Auxv(program, at.at)))
    ensures argv == [] || stack.start >= stack.end || stack.end % 16 != 0 ==> r == Err(InvalidStack)
    ensures forall i :: 0 <= i < |argv| && (argv[i] == [] || 0 in argv[i]) ==> r == Err(InvalidStack)
    ensures forall i :: 0 <= i < |envp| && (envp[i] == [] || 0 in envp[i]) ==> r == Err(InvalidStack)
    ensures r.Ok? ==> Informs(WalkStack(memory.bytes, r.value, stack.end).value.auxv, program, at.at)
    ensures r.Err? ==>
      r.error == Failure(stack, argv, envp, Above(argv, envp, random, platform), BlockBytes(argv, envp))
    ensures SameOutside(old(memory.bytes), memory.bytes, stack)
  {
    ghost var before := memory.bytes;
    at := Strings([], [], Pointers(0, 0, 0), 0);
    if !ArgsOk(stack, argv, envp) {
      return Err(InvalidStack), at;
    }
    var placed := PlaceStrings(memory, stack, argv, envp, random, platform);
    if placed.Err? {
      return Err(placed.error), at;
    }
    var s := placed.value;
    ghost var m := memory.bytes;
    FitsWhere(stack, Above(argv, envp, random, platform), s.low, BlockBytes(argv, envp));
    r := PlaceBlock(memory, stack, argv, envp, random, platform, program, s);
    OutsideAgain(before, m, memory.bytes, stack);
    AuxvInforms(program, s.at);
    at := s;
  }

  method PlaceBlock(memory: UserMemory, stack: Range, argv: seq<seq<byte>>, envp: seq<seq<byte>>,
                    random: seq<byte>, platform: seq<byte>, program: Program, s: Strings) returns (r: Result<nat>)
    requires stack.end < U64 && ArgsOk(stack, argv, envp) && program.Valid() && Room(argv) <= stack.end
    requires s.low <= stack.end && StringsPlaced(memory.bytes, s, argv, envp, random, platform, stack.end)
    modifies memory
    ensures r.Ok? <==> FitsBelow(stack.start, s.low, BlockBytes(argv, envp))
    ensures r.Ok? ==> r.value % 16 == 0 && stack.start <= r.value && r.value + BlockBytes(argv, envp) <= s.low
    ensures r.Ok? ==> StringsPlaced(memory.bytes, s, argv, envp, random, platform, stack.end)
    ensures r.Ok? ==>
      WalkStack(memory.bytes, r.value, stack.end) == Some(Image(|argv|, argv, envp, Auxv(program, s.at)))
    ensures r.Err? ==> r.error == if BlockBytes(argv, envp) >= U64 then AddressOverflow else InvalidStack
    ensures SameOutside(old(memory.bytes), memory.bytes, stack)
  {
    var ws := MakeBlock(s, program, memory.bytes, argv, envp, random, platform, stack.end);
    r := BlockAddress(stack, s.low, |ws| * 8);
    if r.Ok? {
      StoredInside(memory.bytes, r.value, RawWords(ws), stack);
      StoreBlock(memory, r.value, argv, envp, random, platform, Auxv(program, s.at), s, ws, stack.end);
    }
  }

  /** Where a block of so many bytes goes below `low`. */
  method BlockAddress(stack: Range, low: nat, length: nat) returns (r: Result<nat>)
    requires low <= stack.end < U64 && 0 < length
    ensures r.Ok? <==> FitsBelow(stack.start, low, length)
    ensures r.Err? ==> r.error == if length >= U64 then AddressOverflow else InvalidStack
    ensures r.Ok? ==> r.value % 16 == 0 && stack.start <= r.value && r.value + length <= low
  {
    var cursor := AlignDown(low);
    if length >= U64 {
      return Err(AddressOverflow);
    }
    if cursor < length {
      return Err(InvalidStack);
    }
    var sp := AlignDown(cursor - length);
    if !SpanOk(stack, sp, length) {
      return Err(SpanError(sp, length));
    }
    return Ok(sp);
  }

  /** The vector `words`, with what its consumers need to know about it. */
  method MakeBlock(s: Strings, program: Program, ghost m: Memory, ghost argv: seq<seq<byte>>,
                   ghost envp: seq<seq<byte>>, ghost random: seq<byte>, ghost platform: seq<byte>, ghost end: nat)
    returns (ws: seq<nat>)
    requires StringsPlaced(m, s, argv, envp, random, platform, end) && end < U64 && program.Valid() && Room(argv) <= end
    ensures Block(ws, s.argv, s.envp, Auxv(program, s.at)) && (forall i :: 0 <= i < |ws| ==> ws[i] < U64)
    ensures |ws| * 8 == BlockBytes(argv, envp)
    ensures forall i :: 0 <= i < |Auxv(program, s.at)| ==> Auxv(program, s.at)[i].0 != AT_NULL
  {
    RoomCounts(argv);
    BlockFits(m, s, argv, envp, random, platform, program, end);
    BlockParts(s.argv, s.envp, Auxv(program, s.at));
    ws := BlockOf(s.argv, s.envp, Auxv(program, s.at));
  }

  method StoreBlock(memory: UserMemory, sp: nat, argv: seq<seq<byte>>, envp: seq<seq<byte>>, random: seq<byte>,
                    platform: seq<byte>, auxv: seq<(nat, nat)>, s: Strings, ws: seq<nat>, ghost end: nat)
    requires StringsPlaced(memory.bytes, s, argv, envp, random, platform, end) && s.low <= end < U64
    requires (forall i :: 0 <= i < |argv| ==> Clean(argv[i])) && (forall i :: 0 <= i < |envp| ==> Clean(envp[i]))
    requires Block(ws, s.argv, s.envp, auxv) && (forall i :: 0 <= i < |ws| ==> ws[i] < U64) && sp + |ws| * 8 <= s.low
    requires forall i :: 0 <= i < |auxv| ==> auxv[i].0 != AT_NULL
    modifies memory
    ensures StringsPlaced(memory.bytes, s, argv, envp, random, platform, end)
    ensures WalkStack(memory.bytes, sp, end) == Some(Image(|argv|, argv, envp, auxv))
    ensures memory.bytes == Stored(old(memory.bytes), sp, RawWords(ws))
  {
    Completed(memory.bytes, sp, s, ws, argv, envp, random, platform, auxv, end);
    var raw := Serialize(ws);
    memory.Load(sp, raw);
  }
}
