/** The ring buffer of kernel/src/pipe.rs. */
module PipeRing {
  import opened Machine

  const PIPE_CAPACITY: nat := 4096

  function Wrap(i: nat): (r: nat)
    ensures r < PIPE_CAPACITY && (i < PIPE_CAPACITY ==> r == i)
    ensures (PIPE_CAPACITY <= i < 2 * PIPE_CAPACITY ==> r == i - PIPE_CAPACITY)
  {
    i % PIPE_CAPACITY
  }

  /** The queue a ring holds: `len` bytes from `head` on, wrapping around. */
  function Queue(buffer: seq<byte>, head: nat, len: nat): (q: seq<byte>)
    requires |buffer| == PIPE_CAPACITY && head < PIPE_CAPACITY && len <= PIPE_CAPACITY
    ensures |q| == len
  {
    seq(len, i requires 0 <= i < len => buffer[Wrap(head + i)])
  }

  /** Taking a chunk that does not wrap takes the front of the queue. */
  lemma TakeFront(buffer: seq<byte>, head: nat, len: nat, chunk: nat)
    requires |buffer| == PIPE_CAPACITY && head < PIPE_CAPACITY && len <= PIPE_CAPACITY
    requires chunk <= len && head + chunk <= PIPE_CAPACITY
    ensures Queue(buffer, head, len) == buffer[head..head + chunk] + Queue(buffer, Wrap(head + chunk), len - chunk)
  {
    var q, rest := Queue(buffer, head, len), Queue(buffer, Wrap(head + chunk), len - chunk);
    forall i | 0 <= i < len ensures q[i] == (buffer[head..head + chunk] + rest)[i] {
      if i >= chunk {
        assert Wrap(Wrap(head + chunk) + (i - chunk)) == Wrap(head + i);
        assert rest[i - chunk] == buffer[Wrap(head + i)];
      }
    }
  }

  /** Filling free cells behind the tail appends to the queue. */
  lemma AddBack(buffer: seq<byte>, now: seq<byte>, head: nat, len: nat, tail: nat, bytes: seq<byte>)
    requires |buffer| == PIPE_CAPACITY == |now| && head < PIPE_CAPACITY && len + |bytes| <= PIPE_CAPACITY
    requires tail == Wrap(head + len) && tail + |bytes| <= PIPE_CAPACITY && (tail < head ==> tail + |bytes| <= head)
    requires now == buffer[..tail] + bytes + buffer[tail + |bytes|..]
    ensures Queue(now, head, len + |bytes|) == Queue(buffer, head, len) + bytes
  {
    var q, r := Queue(buffer, head, len), Queue(now, head, len + |bytes|);
    forall i | 0 <= i < len + |bytes| ensures r[i] == (q + bytes)[i] {
      var at := Wrap(head + i);
      if i < len {
        assert at < tail || tail + |bytes| <= at || |bytes| == 0;
      } else {
        assert at == tail + (i - len);
      }
    }
  }

  lemma Spliced(was: seq<byte>, now: seq<byte>, at: nat, bytes: seq<byte>)
    requires |now| == |was| && at + |bytes| <= |was|
    requires forall j :: 0 <= j < at ==> now[j] == was[j]
    requires forall j :: at <= j < at + |bytes| ==> now[j] == bytes[j - at]
    requires forall j :: at + |bytes| <= j < |was| ==> now[j] == was[j]
    ensures now == was[..at] + bytes + was[at + |bytes|..]
  {
  }

  lemma Regroup(a: seq<byte>, b: seq<byte>, c: seq<byte>)
    ensures a + (b + c) == a + b + c
  {
  }

  class PipeState {
    const buffer: array<byte>
    var head: nat
    var len: nat

    constructor ()
      ensures Valid() && Contents() == [] && fresh(buffer)
    {
      buffer := new byte[PIPE_CAPACITY](i => 0);
      head, len := 0, 0;
    }

    ghost predicate Valid()
      reads this, buffer
    {
      buffer.Length == PIPE_CAPACITY && head < PIPE_CAPACITY && len <= PIPE_CAPACITY
    }

    ghost function Contents(): (q: seq<byte>)
      requires Valid()
      reads this, buffer
      ensures |q| == len
    {
      Queue(buffer[..], head, len)
    }

    /** The copy loop of `read`: at most `room` bytes from the front. */
    method Take(room: nat) returns (bytes: seq<byte>)
      requires Valid()
      modifies this
      ensures Valid()
      ensures |bytes| == Min(old(len), room)
      ensures old(Contents()) == bytes + Contents()
    {
      bytes := [];
      ghost var all := Contents();
      while len > 0 && |bytes| < room
        invariant Valid() && |bytes| + len == old(len) && |bytes| <= room
        invariant all == bytes + Contents()
        decreases len
      {
        var available := Min(len, PIPE_CAPACITY - head);
        var chunk := Min(available, room - |bytes|);
        var piece := TakeChunk(chunk);
        Regroup(bytes, piece, Contents());
        bytes := bytes + piece;
      }
    }

    /** One round: a chunk that does not wrap leaves the front. */
    method TakeChunk(chunk: nat) returns (piece: seq<byte>)
      requires Valid() && chunk <= len && head + chunk <= PIPE_CAPACITY
      modifies this
      ensures Valid() && len == old(len) - chunk && |piece| == chunk
      ensures old(Contents()) == piece + Contents()
    {
      TakeFront(buffer[..], head, len, chunk);
      piece := buffer[..][head..head + chunk];
      head := Wrap(head + chunk);
      len := len - chunk;
    }

    /** The copy loop of `write`: as much of the input from `from` on as fits. */
    method Put(input: seq<byte>, from: nat) returns (copied: nat)
      requires Valid() && from <= |input|
      modifies this, buffer
      ensures Valid()
      ensures copied == from + Min(|input| - from, PIPE_CAPACITY - old(len))
      ensures Contents() == old(Contents()) + input[from..copied]
    {
      copied := from;
      ghost var first := Contents();
      while copied < |input| && len < PIPE_CAPACITY
        invariant Valid() && from <= copied <= |input| && len == old(len) + (copied - from)
        invariant Contents() == first + input[from..copied]
        decreases |input| - copied
      {
        var tail := Wrap(head + len);
        var writable := if tail >= head then PIPE_CAPACITY - tail else head - tail;
        writable := Min(writable, PIPE_CAPACITY - len);
        var chunk := Min(writable, |input| - copied);
        ghost var before, piece := input[from..copied], input[copied..copied + chunk];
        PutChunk(tail, input[copied..copied + chunk]);
        Regroup(first, before, piece);
        assert before + piece == input[from..copied + chunk];
        copied := copied + chunk;
      }
    }

    /** One round: a chunk goes into the free cells behind the tail. */
    method PutChunk(tail: nat, bytes: seq<byte>)
      requires Valid() && tail == Wrap(head + len) && len + |bytes| <= PIPE_CAPACITY
      requires tail + |bytes| <= PIPE_CAPACITY && (tail < head ==> tail + |bytes| <= head)
      modifies this, buffer
      ensures Valid() && len == old(len) + |bytes| && Contents() == old(Contents()) + bytes
    {
      ghost var before := buffer[..];
      Store(tail, bytes);
      AddBack(before, buffer[..], head, len, tail, bytes);
      len := len + |bytes|;
    }

    method Store(at: nat, bytes: seq<byte>)
      requires at + |bytes| <= buffer.Length
      modifies buffer
      ensures buffer[..] == old(buffer[..])[..at] + bytes + old(buffer[..])[at + |bytes|..]
    {
      var i := 0;
      while i < |bytes|
        invariant 0 <= i <= |bytes|
        invariant forall j :: 0 <= j < at ==> buffer[j] == old(buffer[j])
        invariant forall j :: at <= j < at + i ==> buffer[j] == bytes[j - at]
        invariant forall j :: at + i <= j < buffer.Length ==> buffer[j] == old(buffer[j])
      {
        buffer[at + i] := bytes[i];
        i := i + 1;
      }
      Spliced(old(buffer[..]), buffer[..], at, bytes);
    }
  }
}

/**
 `Pipe::read`, `Pipe::write` and the closing operations as a step system. Each
 locked region, each epoch bump, each `wake_all` and each check-and-enqueue on
 a wait queue is one step; any number of threads take part.
 */
module PipeProtocol {
  import opened Machine
  import opened PipeRing

  datatype Errno = EAGAIN | EPIPE | EINTR

  datatype Outcome = Ok(count: nat) | Err(error: Errno)

  datatype Side = Readers | Writers

  /** What a thread does after the wake-up it owes. */
  datatype Then = ThenReturn(result: Outcome) | ThenWrite(input: seq<byte>, copied: nat, nonblock: bool) | ThenClosed

  /**
   `Parked` is on the wait queue of `side`; `Woke` has come back from the wait
   and is about to test for a forced exit; `Owes` has left the lock and must bump
   the epoch of `side`; `Bumped` has done so and must call `wake_all`.
   */
  datatype Pc =
    | Idle
    | Reading(room: nat, nonblock: bool)
    | Writing(input: seq<byte>, copied: nat, nonblock: bool)
    | Blocking(side: Side, observed: nat, again: Pc)
    | Parked(side: Side, observed: nat, again: Pc)
    | Woke(side: Side, again: Pc)
    | Owes(side: Side, next: Then)
    | Bumped(side: Side, next: Then)
    | Done(result: Outcome)
  {
    predicate WaitsOn(s: Side) {
      (Blocking? || Parked?) && side == s
    }
  }

  /** The call a thread is in or has returned from, with the bytes it has moved. */
  datatype Call = NoCall | ReadCall(room: nat, got: seq<byte>) | WriteCall(input: seq<byte>, sent: nat)

  datatype State = State(
    queue: seq<byte>, readers: nat, writers: nat, readEpoch: nat, writeEpoch: nat,
    threads: seq<Pc>, calls: seq<Call>, accepted: seq<byte>, delivered: seq<byte>)

  /** `exit` closes the whole end, otherwise one open file is released. */
  datatype Step =
    | CallRead(room: nat, nonblock: bool)
    | CallWrite(input: seq<byte>, nonblock: bool)
    | CloseReader(exit: bool)
    | CloseWriter(exit: bool)
    | Run
    | Interrupt

  ghost predicate Init(s: State) {
    && s.queue == [] && s.readers == 1 && s.writers == 1 && s.readEpoch == 0 && s.writeEpoch == 0
    && s.accepted == [] && s.delivered == [] && |s.calls| == |s.threads|
    && forall t :: 0 <= t < |s.threads| ==> s.threads[t] == Idle && s.calls[t] == NoCall
  }

  function Epoch(s: State, side: Side): nat {
    if side.Readers? then s.readEpoch else s.writeEpoch
  }

  /** `Interrupt` is a forced exit, before, during or after a wait; the call then returns EINTR. */
  predicate Enabled(s: State, t: nat, step: Step) {
    && t < |s.threads| == |s.calls|
    && match step
       case Run => !s.threads[t].Idle? && !s.threads[t].Parked? && !s.threads[t].Done?
       case Interrupt => s.threads[t].Blocking? || s.threads[t].Parked? || s.threads[t].Woke?
       case _ => s.threads[t].Idle? || s.threads[t].Done?
  }

  /** Everyone parked on `side` comes back from its wait. */
  function Woken(threads: seq<Pc>, side: Side): (r: seq<Pc>)
    ensures |r| == |threads|
  {
    seq(|threads|, i requires 0 <= i < |threads| =>
      if threads[i].Parked? && threads[i].side == side then Woke(side, threads[i].again) else threads[i])
  }

  function Resume(next: Then): Pc {
    match next
    case ThenReturn(r) => Done(r)
    case ThenWrite(input, copied, nonblock) =>
      if copied < |input| then Writing(input, copied, nonblock) else Done(Ok(copied))
    case ThenClosed => Idle
  }

  function Goto(s: State, t: nat, pc: Pc): State
    requires t < |s.threads|
  {
    s.(threads := s.threads[t := pc])
  }

  /** The locked region of `read`. */
  function ReadStep(s: State, t: nat, room: nat, nonblock: bool): State
    requires t < |s.threads| == |s.calls|
  {
    if s.queue == [] then
      if s.writers == 0 then Goto(s, t, Done(Ok(0)))
      else if nonblock then Goto(s, t, Done(Err(EAGAIN)))
      else Goto(s, t, Blocking(Readers, s.readEpoch, Reading(room, nonblock)))
    else
      var n := Min(|s.queue|, room);
      Goto(s, t, Owes(Writers, ThenReturn(Ok(n)))).(
        queue := s.queue[n..], delivered := s.delivered + s.queue[..n],
        calls := s.calls[t := ReadCall(room, s.queue[..n])])
  }

  /** The locked region of one round of `write`. */
  function WriteStep(s: State, t: nat, input: seq<byte>, copied: nat, nonblock: bool): State
    requires t < |s.threads| == |s.calls|
  {
    if copied >= |input| then Goto(s, t, Done(Ok(copied)))
    else if s.readers == 0 then Goto(s, t, Done(if copied == 0 then Err(EPIPE) else Ok(copied)))
    else if |s.queue| >= PIPE_CAPACITY then
      if copied != 0 then Goto(s, t, Owes(Readers, ThenReturn(Ok(copied))))
      else if nonblock then Goto(s, t, Done(Err(EAGAIN)))
      else Goto(s, t, Blocking(Writers, s.writeEpoch, Writing(input, copied, nonblock)))
    else
      var n := Min(|input| - copied, PIPE_CAPACITY - |s.queue|);
      Goto(s, t, Owes(Readers, ThenWrite(input, copied + n, nonblock))).(
        queue := s.queue + input[copied..copied + n], accepted := s.accepted + input[copied..copied + n],
        calls := s.calls[t := WriteCall(input, copied + n)])
  }

  function RunStep(s: State, t: nat): State
    requires Enabled(s, t, Run)
  {
    match s.threads[t]
    case Reading(room, nonblock) => ReadStep(s, t, room, nonblock)
    case Writing(input, copied, nonblock) => WriteStep(s, t, input, copied, nonblock)
    case Blocking(side, observed, again) =>
      Goto(s, t, if Epoch(s, side) == observed then Parked(side, observed, again) else Woke(side, again))
    case Woke(_, again) => Goto(s, t, again)
    case Owes(Readers, next) => Goto(s, t, Bumped(Readers, next)).(readEpoch := s.readEpoch + 1)
    case Owes(Writers, next) => Goto(s, t, Bumped(Writers, next)).(writeEpoch := s.writeEpoch + 1)
    case Bumped(side, next) => s.(threads := Woken(s.threads, side)[t := Resume(next)])
  }

  function Less(n: nat, exit: bool): nat {
    if exit || n == 0 then 0 else n - 1
  }

  function Do(s: State, t: nat, step: Step): State
    requires Enabled(s, t, step)
  {
    match step
    case CallRead(room, nonblock) => Goto(s, t, Reading(room, nonblock)).(calls := s.calls[t := ReadCall(room, [])])
    case CallWrite(input, nonblock) =>
      Goto(s, t, Writing(input, 0, nonblock)).(calls := s.calls[t := WriteCall(input, 0)])
    case CloseReader(exit) =>
      Goto(s, t, Owes(Writers, ThenClosed)).(readers := Less(s.readers, exit), calls := s.calls[t := NoCall])
    case CloseWriter(exit) =>
      Goto(s, t, Owes(Readers, ThenClosed)).(writers := Less(s.writers, exit), calls := s.calls[t := NoCall])
    case Run => RunStep(s, t)
    case Interrupt => Goto(s, t, Done(Err(EINTR)))
  }

  // ----------------------------------------------------- the locked regions

  /** The locked region of `read` on the ring does to queue and thread what the step does. */
  method ReadLocked(ring: PipeState, writers: nat, epoch: nat, room: nat, nonblock: bool, ghost s: State, ghost t: nat)
    returns (next: Pc, bytes: seq<byte>)
    requires ring.Valid() && ring.Contents() == s.queue && writers == s.writers && epoch == s.readEpoch
    requires t < |s.threads| == |s.calls|
    modifies ring
    ensures ring.Valid()
    ensures
      var s' := ReadStep(s, t, room, nonblock);
      && ring.Contents() == s'.queue && s'.threads[t] == next && s'.delivered == s.delivered + bytes
      && s'.calls[t] == if next.Owes? then ReadCall(room, bytes) else s.calls[t]
    ensures old(ring.Contents()) == bytes + ring.Contents() && |bytes| == Min(|old(ring.Contents())|, room)
    ensures next.Owes? <==> old(ring.Contents()) != []
    ensures next.Owes? ==> next == Owes(Writers, ThenReturn(Ok(|bytes|)))
    ensures next == Done(Ok(0)) <==> old(ring.Contents()) == [] && writers == 0
    ensures next == Done(Err(EAGAIN)) <==> old(ring.Contents()) == [] && writers > 0 && nonblock
  {
    bytes := [];
    if ring.len == 0 {
      if writers == 0 {
        return Done(Ok(0)), [];
      }
      if nonblock {
        return Done(Err(EAGAIN)), [];
      }
      return Blocking(Readers, epoch, Reading(room, nonblock)), [];
    }
    bytes := ring.Take(room);
    assert s.queue[..|bytes|] == bytes && s.queue[|bytes|..] == ring.Contents();
    return Owes(Writers, ThenReturn(Ok(|bytes|))), bytes;
  }

  /** The same for one round of `write`. */
  method WriteLocked(ring: PipeState, readers: nat, epoch: nat, input: seq<byte>, copied: nat, nonblock: bool,
                     ghost s: State, ghost t: nat)
    returns (next: Pc, now: nat)
    requires ring.Valid() && ring.Contents() == s.queue && readers == s.readers && epoch == s.writeEpoch
    requires t < |s.threads| == |s.calls| && copied < |input|
    modifies ring, ring.buffer
    ensures ring.Valid() && copied <= now <= |input|
    ensures
      var s' := WriteStep(s, t, input, copied, nonblock);
      && ring.Contents() == s'.queue && s'.threads[t] == next && s'.accepted == s.accepted + input[copied..now]
      && s'.calls[t] == if now > copied then WriteCall(input, now) else s.calls[t]
    ensures ring.Contents() == old(ring.Contents()) + input[copied..now]
    ensures now - copied ==
      if readers == 0 then 0 else Min(|input| - copied, PIPE_CAPACITY - |old(ring.Contents())|)
    ensures next == Done(Err(EPIPE)) <==> readers == 0 && copied == 0
    ensures next == Done(Err(EAGAIN)) <==>
      readers > 0 && |old(ring.Contents())| == PIPE_CAPACITY && copied == 0 && nonblock
  {
    now := copied;
    if readers == 0 {
      return Done(if copied == 0 then Err(EPIPE) else Ok(copied)), copied;
    }
    if ring.len == PIPE_CAPACITY {
      if copied != 0 {
        return Owes(Readers, ThenReturn(Ok(copied))), copied;
      }
      if nonblock {
        return Done(Err(EAGAIN)), copied;
      }
      return Blocking(Writers, epoch, Writing(input, copied, nonblock)), copied;
    }
    now := ring.Put(input, copied);
    return Owes(Readers, ThenWrite(input, now, nonblock)), now;
  }

  // ------------------------------------------------------------- invariant

  /** Why a thread may sleep on `side`: nothing to read but writers left, or no room but readers left. */
  predicate MaySleep(queue: seq<byte>, readers: nat, writers: nat, side: Side) {
    if side.Readers? then queue == [] && writers > 0 else |queue| == PIPE_CAPACITY && readers > 0
  }

  ghost predicate Owed(threads: seq<Pc>, side: Side) {
    exists u :: 0 <= u < |threads| && threads[u].Owes? && threads[u].side == side
  }

  ghost predicate Waking(threads: seq<Pc>, side: Side) {
    exists u :: 0 <= u < |threads| && threads[u].Bumped? && threads[u].side == side
  }

  /** A thread that waits on `side` still has a reason to, or a wake-up is on its way. */
  ghost predicate WaitOk(threads: seq<Pc>, side: Side, epoch: nat, sleep: bool, pc: Pc) {
    pc.WaitsOn(side) ==>
      && pc.observed <= epoch
      && (pc.observed == epoch ==> sleep || Owed(threads, side))
      && (pc.Parked? && pc.observed < epoch ==> Waking(threads, side))
  }

  ghost predicate SideOk(threads: seq<Pc>, side: Side, epoch: nat, sleep: bool) {
    forall t :: 0 <= t < |threads| ==> WaitOk(threads, side, epoch, sleep, threads[t])
  }

  /** What a thread's position says about the bytes its call has moved. */
  ghost predicate CallOk(call: Call, pc: Pc) {
    match pc
    case Idle => true
    case Reading(room, _) => call == ReadCall(room, [])
    case Writing(input, copied, _) => call == WriteCall(input, copied) && copied <= |input|
    case Blocking(side, _, again) => AgainOk(call, side, again)
    case Parked(side, _, again) => AgainOk(call, side, again)
    case Woke(side, again) => AgainOk(call, side, again)
    case Owes(_, next) => ThenOk(call, next)
    case Bumped(_, next) => ThenOk(call, next)
    case Done(r) => ResultOk(call, r)
  }

  ghost predicate AgainOk(call: Call, side: Side, again: Pc) {
    if side.Readers? then again.Reading? && call == ReadCall(again.room, [])
    else again.Writing? && again.copied == 0 && call == WriteCall(again.input, 0)
  }

  ghost predicate ThenOk(call: Call, next: Then) {
    match next
    case ThenReturn(r) => ResultOk(call, r)
    case ThenWrite(input, copied, _) => call == WriteCall(input, copied) && copied <= |input|
    case ThenClosed => call == NoCall
  }

  /** A success tells how many bytes were moved; after an error none were. */
  ghost predicate ResultOk(call: Call, r: Outcome) {
    match call
    case NoCall => false
    case ReadCall(room, got) => if r.Ok? then r.count == |got| <= room else got == []
    case WriteCall(input, sent) => if r.Ok? then r.count == sent <= |input| else sent == 0
  }

  ghost predicate Inv(s: State) {
    && |s.calls| == |s.threads| && |s.queue| <= PIPE_CAPACITY && s.accepted == s.delivered + s.queue
    && SideOk(s.threads, Readers, s.readEpoch, MaySleep(s.queue, s.readers, s.writers, Readers))
    && SideOk(s.threads, Writers, s.writeEpoch, MaySleep(s.queue, s.readers, s.writers, Writers))
    && (forall t :: 0 <= t < |s.threads| ==> CallOk(s.calls[t], s.threads[t]))
  }

  // ------------------------------------------------------------ step lemmas

  /** One thread moves without owing or being about to do a wake-up of `side`. */
  lemma Moved(threads: seq<Pc>, side: Side, epoch: nat, sleep: bool, t: nat, pc: Pc, sleep': bool)
    requires SideOk(threads, side, epoch, sleep) && t < |threads|
    requires !((threads[t].Owes? || threads[t].Bumped?) && threads[t].side == side)
    requires sleep ==> sleep' || (pc.Owes? && pc.side == side)
    requires pc.WaitsOn(side) ==> pc.observed == epoch && (sleep' || Owed(threads, side))
    ensures SideOk(threads[t := pc], side, epoch, sleep')
  {
    var now := threads[t := pc];
    if Owed(threads, side) {
      var u :| 0 <= u < |threads| && threads[u].Owes? && threads[u].side == side;
      assert now[u].Owes? && now[u].side == side;
    }
    if Waking(threads, side) {
      var u :| 0 <= u < |threads| && threads[u].Bumped? && threads[u].side == side;
      assert now[u].Bumped? && now[u].side == side;
    }
    assert now[t] == pc;
    forall i | 0 <= i < |now| ensures WaitOk(now, side, epoch, sleep', now[i]) {
      if i != t { assert WaitOk(threads, side, epoch, sleep, threads[i]); }
    }
  }

  /** The epoch of `side` is bumped. */
  lemma BumpedKept(threads: seq<Pc>, side: Side, epoch: nat, sleep: bool, t: nat, next: Then)
    requires SideOk(threads, side, epoch, sleep) && t < |threads|
    ensures SideOk(threads[t := Bumped(side, next)], side, epoch + 1, sleep)
  {
    var now := threads[t := Bumped(side, next)];
    assert now[t].Bumped? && now[t].side == side;
    forall i | 0 <= i < |now| ensures WaitOk(now, side, epoch + 1, sleep, now[i]) {
      if i != t { assert WaitOk(threads, side, epoch, sleep, threads[i]); }
    }
  }

  /** `wake_all` on `woken`, seen from `side`, by a thread that had bumped the epoch of `woken`. */
  lemma WokenKept(threads: seq<Pc>, side: Side, woken: Side, epoch: nat, sleep: bool, t: nat, pc: Pc)
    requires SideOk(threads, side, epoch, sleep) && t < |threads| && threads[t].Bumped? && threads[t].side == woken
    requires !pc.Blocking? && !pc.Parked?
    ensures SideOk(Woken(threads, woken)[t := pc], side, epoch, sleep)
  {
    var now := Woken(threads, woken)[t := pc];
    if Owed(threads, side) {
      var u :| 0 <= u < |threads| && threads[u].Owes? && threads[u].side == side;
      assert now[u].Owes? && now[u].side == side;
    }
    if Waking(threads, side) && side != woken {
      var u :| 0 <= u < |threads| && threads[u].Bumped? && threads[u].side == side;
      assert now[u].Bumped? && now[u].side == side;
    }
    forall i | 0 <= i < |now| ensures WaitOk(now, side, epoch, sleep, now[i]) {
      assert WaitOk(threads, side, epoch, sleep, threads[i]);
    }
  }

  lemma CallsKept(threads: seq<Pc>, calls: seq<Call>, t: nat, pc: Pc, call: Call)
    requires |calls| == |threads| && t < |threads| && CallOk(call, pc)
    requires forall i :: 0 <= i < |threads| ==> CallOk(calls[i], threads[i])
    ensures var cs, pcs := calls[t := call], threads[t := pc]; forall i :: 0 <= i < |threads| ==> CallOk(cs[i], pcs[i])
  {
  }

  /** A move of `t` to `pc` that changes the shared data to `next`. */
  lemma MoveKeeps(s: State, t: nat, pc: Pc, call: Call, next: State)
    requires Inv(s) && t < |s.threads| && CallOk(call, pc) && !s.threads[t].Owes? && !s.threads[t].Bumped?
    requires next.threads == s.threads[t := pc] && next.calls == s.calls[t := call]
    requires next.readEpoch == s.readEpoch && next.writeEpoch == s.writeEpoch
    requires |next.queue| <= PIPE_CAPACITY && next.accepted == next.delivered + next.queue
    requires forall side ::
      MaySleep(s.queue, s.readers, s.writers, side) ==>
        MaySleep(next.queue, next.readers, next.writers, side) || (pc.Owes? && pc.side == side)
    requires forall side :: pc.WaitsOn(side) ==>
      pc.observed == Epoch(s, side) && (MaySleep(next.queue, next.readers, next.writers, side) || Owed(s.threads, side))
    ensures Inv(next)
  {
    CallsKept(s.threads, s.calls, t, pc, call);
    Moved(s.threads, Readers, s.readEpoch, MaySleep(s.queue, s.readers, s.writers, Readers), t, pc,
          MaySleep(next.queue, next.readers, next.writers, Readers));
    Moved(s.threads, Writers, s.writeEpoch, MaySleep(s.queue, s.readers, s.writers, Writers), t, pc,
          MaySleep(next.queue, next.readers, next.writers, Writers));
  }

  lemma Cut(a: seq<byte>, b: seq<byte>, n: nat)
    requires n <= |b|
    ensures a + b[..n] + b[n..] == a + b
  {
    assert b == b[..n] + b[n..];
  }

  lemma ReadKeeps(s: State, t: nat)
    requires Inv(s) && t < |s.threads| && s.threads[t].Reading?
    ensures Inv(ReadStep(s, t, s.threads[t].room, s.threads[t].nonblock))
  {
    var room, nonblock := s.threads[t].room, s.threads[t].nonblock;
    var next := ReadStep(s, t, room, nonblock);
    assert CallOk(s.calls[t], s.threads[t]);
    assert s.calls == s.calls[t := s.calls[t]];
    Cut(s.delivered, s.queue, Min(|s.queue|, room));
    MoveKeeps(s, t, next.threads[t], next.calls[t], next);
  }

  lemma WriteKeeps(s: State, t: nat)
    requires Inv(s) && t < |s.threads| && s.threads[t].Writing?
    ensures Inv(WriteStep(s, t, s.threads[t].input, s.threads[t].copied, s.threads[t].nonblock))
  {
    var next := WriteStep(s, t, s.threads[t].input, s.threads[t].copied, s.threads[t].nonblock);
    assert CallOk(s.calls[t], s.threads[t]);
    assert s.calls == s.calls[t := s.calls[t]];
    MoveKeeps(s, t, next.threads[t], next.calls[t], next);
  }

  lemma BlockKeeps(s: State, t: nat)
    requires Inv(s) && t < |s.threads| && s.threads[t].Blocking?
    ensures Inv(RunStep(s, t))
  {
    var pc, next := s.threads[t], RunStep(s, t);
    assert CallOk(s.calls[t], pc);
    assert s.calls == s.calls[t := s.calls[t]];
    assert WaitOk(s.threads, pc.side, Epoch(s, pc.side), MaySleep(s.queue, s.readers, s.writers, pc.side), pc);
    MoveKeeps(s, t, next.threads[t], next.calls[t], next);
  }

  lemma WokeKeeps(s: State, t: nat)
    requires Inv(s) && t < |s.threads| && s.threads[t].Woke?
    ensures Inv(RunStep(s, t))
  {
    var next := RunStep(s, t);
    assert CallOk(s.calls[t], s.threads[t]);
    assert s.calls == s.calls[t := s.calls[t]];
    MoveKeeps(s, t, next.threads[t], next.calls[t], next);
  }

  lemma OwesKeeps(s: State, t: nat)
    requires Inv(s) && t < |s.threads| && s.threads[t].Owes?
    ensures Inv(RunStep(s, t))
  {
    var side, next := s.threads[t].side, s.threads[t].next;
    var other := if side.Readers? then Writers else Readers;
    assert CallOk(s.calls[t], s.threads[t]);
    assert s.calls == s.calls[t := s.calls[t]];
    CallsKept(s.threads, s.calls, t, Bumped(side, next), s.calls[t]);
    BumpedKept(s.threads, side, Epoch(s, side), MaySleep(s.queue, s.readers, s.writers, side), t, next);
    var sleep := MaySleep(s.queue, s.readers, s.writers, other);
    Moved(s.threads, other, Epoch(s, other), sleep, t, Bumped(side, next), sleep);
  }

  lemma WakeKeeps(s: State, t: nat)
    requires Inv(s) && t < |s.threads| && s.threads[t].Bumped?
    ensures Inv(RunStep(s, t))
  {
    var side, pc := s.threads[t].side, Resume(s.threads[t].next);
    assert CallOk(s.calls[t], s.threads[t]);
    WokenKept(s.threads, Readers, side, s.readEpoch, MaySleep(s.queue, s.readers, s.writers, Readers), t, pc);
    WokenKept(s.threads, Writers, side, s.writeEpoch, MaySleep(s.queue, s.readers, s.writers, Writers), t, pc);
    var now := Woken(s.threads, side)[t := pc];
    forall i | 0 <= i < |now| ensures CallOk(s.calls[i], now[i]) {
      assert CallOk(s.calls[i], s.threads[i]);
    }
  }

  lemma CallKeeps(s: State, t: nat, step: Step)
    requires Inv(s) && Enabled(s, t, step) && !step.Run?
    ensures Inv(Do(s, t, step))
  {
    var next := Do(s, t, step);
    assert CallOk(s.calls[t], s.threads[t]);
    assert s.calls == s.calls[t := s.calls[t]];
    MoveKeeps(s, t, next.threads[t], next.calls[t], next);
  }

  lemma StepKeeps(s: State, t: nat, step: Step)
    requires Inv(s) && Enabled(s, t, step)
    ensures Inv(Do(s, t, step))
  {
    if !step.Run? {
      CallKeeps(s, t, step);
    } else {
      match s.threads[t]
      case Reading(_, _) => ReadKeeps(s, t);
      case Writing(_, _, _) => WriteKeeps(s, t);
      case Blocking(_, _, _) => BlockKeeps(s, t);
      case Woke(_, _) => WokeKeeps(s, t);
      case Owes(_, _) => OwesKeeps(s, t);
      case Bumped(_, _) => WakeKeeps(s, t);
    }
  }

  // ------------------------------------------------------------------ runs

  datatype Action = Action(thread: nat, step: Step)

  ghost predicate Runs(s: State, actions: seq<Action>, t: State)
    decreases |actions|
  {
    if actions == [] then s == t
    else
      && Enabled(s, actions[0].thread, actions[0].step)
      && Runs(Do(s, actions[0].thread, actions[0].step), actions[1..], t)
  }

  ghost predicate Reachable(t: State) {
    exists s, actions :: Init(s) && Runs(s, actions, t)
  }

  lemma {:induction false} RunsKeep(s: State, actions: seq<Action>, t: State)
    requires Inv(s) && Runs(s, actions, t)
    ensures Inv(t)
    decreases |actions|
  {
    if actions != [] {
      StepKeeps(s, actions[0].thread, actions[0].step);
      RunsKeep(Do(s, actions[0].thread, actions[0].step), actions[1..], t);
    }
  }

  lemma ReachableInv(t: State)
    requires Reachable(t)
    ensures Inv(t)
  {
    var s, actions :| Init(s) && Runs(s, actions, t);
    RunsKeep(s, actions, t);
  }

  /** A reader parked although there is data or no writer is left has a wake-up on its way. */
  lemma NoLostReader(s: State, t: nat)
    requires Reachable(s) && t < |s.threads| && s.threads[t].Parked? && s.threads[t].side.Readers?
    requires s.queue != [] || s.writers == 0
    ensures Owed(s.threads, Readers) || Waking(s.threads, Readers)
  {
    ReachableInv(s);
    assert WaitOk(s.threads, Readers, s.readEpoch, MaySleep(s.queue, s.readers, s.writers, Readers), s.threads[t]);
  }

  /** A writer parked although there is room or no reader is left has a wake-up on its way. */
  lemma NoLostWriter(s: State, t: nat)
    requires Reachable(s) && t < |s.threads| && s.threads[t].Parked? && s.threads[t].side.Writers?
    requires |s.queue| < PIPE_CAPACITY || s.readers == 0
    ensures Owed(s.threads, Writers) || Waking(s.threads, Writers)
  {
    ReachableInv(s);
    assert WaitOk(s.threads, Writers, s.writeEpoch, MaySleep(s.queue, s.readers, s.writers, Writers), s.threads[t]);
  }

  /** Whoever is parked on `side` has looked since the epoch became `e`. */
  ghost predicate FreshSince(s: State, side: Side, e: nat) {
    && Epoch(s, side) >= e
    && forall u :: 0 <= u < |s.threads| && s.threads[u].Parked? && s.threads[u].side == side ==>
         s.threads[u].observed >= e
  }

  lemma FreshStep(s: State, t: nat, step: Step, side: Side, e: nat)
    requires Inv(s) && Enabled(s, t, step) && FreshSince(s, side, e)
    ensures FreshSince(Do(s, t, step), side, e)
  {
    assert CallOk(s.calls[t], s.threads[t]);
  }

  lemma {:induction false} StaysFresh(s: State, actions: seq<Action>, s': State, side: Side, e: nat)
    requires Inv(s) && Runs(s, actions, s') && FreshSince(s, side, e)
    ensures FreshSince(s', side, e)
    decreases |actions|
  {
    if actions != [] {
      StepKeeps(s, actions[0].thread, actions[0].step);
      FreshStep(s, actions[0].thread, actions[0].step, side, e);
      StaysFresh(Do(s, actions[0].thread, actions[0].step), actions[1..], s', side, e);
    }
  }

  /** Nothing others do moves a thread that has bumped an epoch, and epochs only grow. */
  lemma {:induction false} StaysBumped(s: State, actions: seq<Action>, s': State, t: nat, side: Side)
    requires Runs(s, actions, s') && t < |s.threads| && s.threads[t].Bumped?
    requires forall i :: 0 <= i < |actions| ==> actions[i].thread != t
    ensures |s'.threads| == |s.threads| && s'.threads[t] == s.threads[t] && Epoch(s', side) >= Epoch(s, side)
    ensures |s.calls| == |s.threads| ==> |s'.calls| == |s'.threads|
    decreases |actions|
  {
    if actions != [] {
      StaysBumped(Do(s, actions[0].thread, actions[0].step), actions[1..], s', t, side);
    }
  }

  /** A thread that owes a wake-up and has bumped the epoch can go on to `wake_all` whatever others do meanwhile. */
  lemma MayStillWake(s: State, t: nat, between: seq<Action>, s1: State)
    requires Reachable(s) && Enabled(s, t, Run) && s.threads[t].Owes?
    requires Runs(Do(s, t, Run), between, s1) && forall i :: 0 <= i < |between| ==> between[i].thread != t
    ensures Inv(s1) && Enabled(s1, t, Run) && s1.threads[t] == Bumped(s.threads[t].side, s.threads[t].next)
    ensures Epoch(s1, s.threads[t].side) > Epoch(s, s.threads[t].side)
  {
    var side, bumped := s.threads[t].side, Do(s, t, Run);
    ReachableInv(s);
    StepKeeps(s, t, Run);
    StaysBumped(bumped, between, s1, t, side);
    RunsKeep(bumped, between, s1);
  }

  /** Once it has, nobody ever again sleeps on that side who has not looked since the bump. */
  lemma WakeUpArrives(s: State, t: nat, between: seq<Action>, s1: State, after: seq<Action>, s2: State)
    requires Reachable(s) && Enabled(s, t, Run) && s.threads[t].Owes?
    requires Runs(Do(s, t, Run), between, s1) && forall i :: 0 <= i < |between| ==> between[i].thread != t
    requires Enabled(s1, t, Run) && Runs(Do(s1, t, Run), after, s2)
    ensures FreshSince(s2, s.threads[t].side, Epoch(s, s.threads[t].side) + 1)
  {
    var side := s.threads[t].side;
    MayStillWake(s, t, between, s1);
    StepKeeps(s1, t, Run);
    NobodyParked(s1, t);
    StaysFresh(Do(s1, t, Run), after, s2, side, Epoch(s, side) + 1);
  }

  lemma NobodyParked(s: State, t: nat)
    requires Enabled(s, t, Run) && s.threads[t].Bumped?
    ensures FreshSince(Do(s, t, Run), s.threads[t].side, Epoch(s, s.threads[t].side))
  {
    var side, next := s.threads[t].side, s.threads[t].next;
    var threads := Woken(s.threads, side)[t := Resume(next)];
    assert Do(s, t, Run) == s.(threads := threads);
    forall u | 0 <= u < |threads| ensures !(threads[u].Parked? && threads[u].side == side) {
    }
  }

  /** Once every wake-up has been delivered a sleeper has its reason, and the two sides are never both asleep. */
  lemma SleepersHaveReason(s: State, t: nat, u: nat)
    requires Reachable(s) && !Owed(s.threads, Readers) && !Owed(s.threads, Writers)
    requires !Waking(s.threads, Readers) && !Waking(s.threads, Writers)
    requires t < |s.threads| && s.threads[t].Parked? && u < |s.threads| && s.threads[u].Parked?
    ensures MaySleep(s.queue, s.readers, s.writers, s.threads[t].side)
    ensures s.threads[t].side == s.threads[u].side
  {
    forall x | x == t || x == u
      ensures MaySleep(s.queue, s.readers, s.writers, s.threads[x].side)
    {
      if s.threads[x].side.Readers? && (s.queue != [] || s.writers == 0) {
        NoLostReader(s, x);
      }
      if s.threads[x].side.Writers? && (|s.queue| < PIPE_CAPACITY || s.readers == 0) {
        NoLostWriter(s, x);
      }
      ReachableInv(s);
    }
  }

  /** Nothing is lost, duplicated or reordered, and the pipe never overflows. */
  lemma BytesConserved(s: State)
    requires Reachable(s)
    ensures s.accepted == s.delivered + s.queue && s.delivered <= s.accepted && |s.queue| <= PIPE_CAPACITY
  {
    ReachableInv(s);
  }

  /** A failed call has moved no byte, and a successful one says how many it moved. */
  lemma ResultsTell(s: State, t: nat)
    requires Reachable(s) && t < |s.threads| && s.threads[t].Done?
    ensures |s.calls| == |s.threads| && ResultOk(s.calls[t], s.threads[t].result)
  {
    ReachableInv(s);
    assert CallOk(s.calls[t], s.threads[t]);
  }
}

/**
 What each call on a pipe returns, and which bytes it has moved when it does,
 in every run.
 */
module PipeResults {
  import opened Machine
  import opened PipeRing
  import opened PipeProtocol

  /** A run: `trace[i + 1]` follows from `trace[i]` by `actions[i]`. */
  ghost predicate Traced(trace: seq<State>, actions: seq<Action>) {
    && |trace| == |actions| + 1 && Init(trace[0])
    && forall i :: 0 <= i < |actions| ==>
         && Enabled(trace[i], actions[i].thread, actions[i].step)
         && trace[i + 1] == Do(trace[i], actions[i].thread, actions[i].step)
  }

  lemma {:induction false} TracedInv(trace: seq<State>, actions: seq<Action>, k: nat)
    requires Traced(trace, actions) && k < |trace|
    ensures Inv(trace[k])
  {
    if k > 0 {
      TracedInv(trace, actions, k - 1);
      StepKeeps(trace[k - 1], actions[k - 1].thread, actions[k - 1].step);
    }
  }

  function Taken(s: State, r: State): seq<byte> {
    if |s.delivered| <= |r.delivered| then r.delivered[|s.delivered|..] else []
  }

  function Given(s: State, r: State): seq<byte> {
    if |s.accepted| <= |r.accepted| then r.accepted[|s.accepted|..] else []
  }

  /** The bytes that the steps of `t` behind step `i` have taken out of the pipe by state `k`. */
  function Took(trace: seq<State>, actions: seq<Action>, t: nat, i: nat, k: nat): seq<byte>
    requires i < k < |trace| == |actions| + 1
    decreases k
  {
    if k == i + 1 then []
    else Took(trace, actions, t, i, k - 1) + if actions[k - 1].thread == t then Taken(trace[k - 1], trace[k]) else []
  }

  /** The bytes that they have put into it. */
  function Gave(trace: seq<State>, actions: seq<Action>, t: nat, i: nat, k: nat): seq<byte>
    requires i < k < |trace| == |actions| + 1
    decreases k
  {
    if k == i + 1 then []
    else Gave(trace, actions, t, i, k - 1) + if actions[k - 1].thread == t then Given(trace[k - 1], trace[k]) else []
  }

  /** The result a thread has settled on, before or after the wake-up it owes. */
  function Verdict(pc: Pc): Option<Outcome> {
    match pc
    case Owes(_, ThenReturn(r)) => Some(r)
    case Bumped(_, ThenReturn(r)) => Some(r)
    case Done(r) => Some(r)
    case _ => None
  }

  // ------------------------------------------------------------------ read

  /** The thread is still to read up to `room` bytes. */
  predicate WantsRead(pc: Pc, room: nat, nonblock: bool) {
    match pc
    case Reading(r, n) => r == room && n == nonblock
    case Blocking(side, _, again) => side.Readers? && again == Reading(room, nonblock)
    case Parked(side, _, again) => side.Readers? && again == Reading(room, nonblock)
    case Woke(side, again) => side.Readers? && again == Reading(room, nonblock)
    case _ => false
  }

  /** The step that settles a read: what it finds, what it takes and what the read returns. */
  predicate SettlesRead(s: State, step: Step, room: nat, nonblock: bool, result: Outcome, took: seq<byte>) {
    if step.Interrupt? then result == Err(EINTR) && took == []
    else if s.queue != [] then step.Run? && took == s.queue[..Min(|s.queue|, room)] && result == Ok(|took|)
    else
      && step.Run? && took == []
      && (if s.writers == 0 then result == Ok(0) else nonblock && result == Err(EAGAIN))
  }

  /** One step of anybody, seen from a thread inside `read`. */
  ghost predicate ReadGoesOn(s: State, action: Action, r: State, t: nat, room: nat, nonblock: bool) {
    && t < |s.threads| && t < |r.threads|
    && var took := if action.thread == t then Taken(s, r) else [];
       var pc, next := s.threads[t], r.threads[t];
       && (WantsRead(pc, room, nonblock) ==>
             || (WantsRead(next, room, nonblock) && took == [])
             || (&& action.thread == t && Verdict(next).Some?
                 && SettlesRead(s, action.step, room, nonblock, Verdict(next).value, took)))
       && (Verdict(pc).Some? && !pc.Done? ==> Verdict(next) == Verdict(pc) && took == [])
  }

  lemma ReadStepGoesOn(s: State, action: Action, t: nat, room: nat, nonblock: bool)
    requires Inv(s) && Enabled(s, action.thread, action.step) && t < |s.threads|
    ensures ReadGoesOn(s, action, Do(s, action.thread, action.step), t, room, nonblock)
  {
    assert CallOk(s.calls[t], s.threads[t]);
  }

  /** The read is not over before state `k`, and its steps are as described. */
  ghost predicate InRead(trace: seq<State>, actions: seq<Action>, i: nat, k: nat, t: nat, room: nat, nonblock: bool) {
    && i < k < |trace| == |actions| + 1
    && t < |trace[i + 1].threads| && WantsRead(trace[i + 1].threads[t], room, nonblock)
    && forall m :: i < m < k ==>
         ReadGoesOn(trace[m], actions[m], trace[m + 1], t, room, nonblock) && !trace[m].threads[t].Done?
  }

  lemma {:induction false} ReadSoFar(trace: seq<State>, actions: seq<Action>, i: nat, k: nat,
                                     t: nat, room: nat, nonblock: bool) returns (j: nat)
    requires InRead(trace, actions, i, k, t, room, nonblock)
    ensures t < |trace[k].threads|
    ensures
      if WantsRead(trace[k].threads[t], room, nonblock) then Took(trace, actions, t, i, k) == []
      else
        && i < j < k && actions[j].thread == t && Verdict(trace[k].threads[t]).Some?
        && SettlesRead(trace[j], actions[j].step, room, nonblock, Verdict(trace[k].threads[t]).value,
                       Took(trace, actions, t, i, k))
    decreases k
  {
    j := 0;
    if k > i + 1 {
      j := ReadSoFar(trace, actions, i, k - 1, t, room, nonblock);
      assert ReadGoesOn(trace[k - 1], actions[k - 1], trace[k - 1 + 1], t, room, nonblock);
      if WantsRead(trace[k - 1].threads[t], room, nonblock) {
        j := k - 1;
      }
    }
  }

  /** Step `i` is the call of `t`, and state `k` the first in which it has returned. */
  ghost predicate Returns(trace: seq<State>, actions: seq<Action>, i: nat, k: nat, t: nat, call: Step) {
    && Traced(trace, actions) && i < k < |trace| && actions[i] == Action(t, call)
    && t < |trace[k].threads| && trace[k].threads[t].Done?
    && forall m :: i < m < k ==> t < |trace[m].threads| && !trace[m].threads[t].Done?
  }

  /**
   What a read returns and takes in every run. One of its own steps settles it:
   on a filled pipe it takes the first bytes, as many as there are and fit, and
   returns their number; it returns 0 on an empty pipe without writers and EAGAIN
   on an empty pipe with writers if it may not block; EINTR is a forced exit.
   */
  lemma ReadReturns(trace: seq<State>, actions: seq<Action>, i: nat, k: nat, t: nat, room: nat, nonblock: bool)
    returns (j: nat)
    requires Returns(trace, actions, i, k, t, CallRead(room, nonblock))
    ensures i < j < k && actions[j].thread == t
    ensures SettlesRead(trace[j], actions[j].step, room, nonblock, trace[k].threads[t].result,
                        Took(trace, actions, t, i, k))
  {
    assert Enabled(trace[i], t, CallRead(room, nonblock));
    forall m | i < m < k ensures ReadGoesOn(trace[m], actions[m], trace[m + 1], t, room, nonblock) {
      TracedInv(trace, actions, m);
      ReadStepGoesOn(trace[m], actions[m], t, room, nonblock);
    }
    j := ReadSoFar(trace, actions, i, k, t, room, nonblock);
  }

  // ----------------------------------------------------------------- write

  /** The thread is still to write what is left of `input`. */
  predicate WantsWrite(pc: Pc, input: seq<byte>, nonblock: bool) {
    match pc
    case Writing(i, _, n) => i == input && n == nonblock
    case Blocking(side, _, again) => side.Writers? && again == Writing(input, 0, nonblock)
    case Parked(side, _, again) => side.Writers? && again == Writing(input, 0, nonblock)
    case Woke(side, again) => side.Writers? && again == Writing(input, 0, nonblock)
    case Owes(_, next) => next.ThenWrite? && next.input == input && next.nonblock == nonblock
    case Bumped(_, next) => next.ThenWrite? && next.input == input && next.nonblock == nonblock
    case _ => false
  }

  /** How many bytes it has put into the pipe by then; a write never waits once it has put one in. */
  function Written(pc: Pc): nat {
    match pc
    case Writing(_, copied, _) => copied
    case Owes(_, ThenWrite(_, copied, _)) => copied
    case Bumped(_, ThenWrite(_, copied, _)) => copied
    case _ => 0
  }

  /** A round of the write: as many of the remaining bytes as there is room for go behind those in the pipe. */
  predicate WritesMore(s: State, r: State, input: seq<byte>, copied: nat, more: nat) {
    && s.readers > 0 && |s.queue| < PIPE_CAPACITY && copied < more <= |input|
    && more - copied == Min(|input| - copied, PIPE_CAPACITY - |s.queue|)
    && r.queue == s.queue + input[copied..more]
  }

  /** The step that settles a write that has put `copied` bytes into the pipe. */
  predicate SettlesWrite(s: State, step: Step, input: seq<byte>, copied: nat, nonblock: bool, result: Outcome) {
    if step.Interrupt? then result == Err(EINTR) && copied == 0
    else if copied == |input| then step.Run? && result == Ok(|input|)
    else if s.readers == 0 then step.Run? && result == if copied == 0 then Err(EPIPE) else Ok(copied)
    else
      && step.Run? && |s.queue| == PIPE_CAPACITY
      && (if copied == 0 then nonblock && result == Err(EAGAIN) else result == Ok(copied))
  }

  /** One step of anybody, seen from a thread inside `write`. */
  ghost predicate WriteGoesOn(s: State, action: Action, r: State, t: nat, input: seq<byte>, nonblock: bool) {
    && t < |s.threads| && t < |r.threads|
    && var gave := if action.thread == t then Given(s, r) else [];
       var pc, next := s.threads[t], r.threads[t];
       var copied := Written(pc);
       && (WantsWrite(pc, input, nonblock) ==>
             && copied + |gave| <= |input| && gave == input[copied..copied + |gave|]
             && (gave != [] ==> WantsWrite(next, input, nonblock) && WritesMore(s, r, input, copied, copied + |gave|))
             && (if WantsWrite(next, input, nonblock) then Written(next) == copied + |gave|
                 else
                   && action.thread == t && Verdict(next).Some?
                   && SettlesWrite(s, action.step, input, copied, nonblock, Verdict(next).value)))
       && (Verdict(pc).Some? && !pc.Done? ==> Verdict(next) == Verdict(pc) && gave == [])
  }

  lemma OthersWait(s: State, action: Action, t: nat)
    requires Enabled(s, action.thread, action.step) && t < |s.threads| && t != action.thread
    ensures
      var r := Do(s, action.thread, action.step);
      && t < |r.threads|
      && var pc := s.threads[t];
         r.threads[t] == pc || (pc.Parked? && r.threads[t] == Woke(pc.side, pc.again))
  {
  }

  lemma WriteStepGoesOn(s: State, action: Action, t: nat, input: seq<byte>, nonblock: bool)
    requires Inv(s) && Enabled(s, action.thread, action.step) && t < |s.threads|
    ensures WriteGoesOn(s, action, Do(s, action.thread, action.step), t, input, nonblock)
  {
    assert CallOk(s.calls[t], s.threads[t]);
    if action.thread != t {
      OthersWait(s, action, t);
    } else if s.threads[t].Writing? {
      RoundGoesOn(s, t, input, nonblock);
    } else {
      NothingWritten(s, action);
    }
  }

  lemma NothingWritten(s: State, action: Action)
    requires Enabled(s, action.thread, action.step) && !s.threads[action.thread].Writing?
    ensures Do(s, action.thread, action.step).accepted == s.accepted
  {
  }

  lemma RoundGoesOn(s: State, t: nat, input: seq<byte>, nonblock: bool)
    requires Inv(s) && t < |s.threads| && s.threads[t].Writing?
    ensures WriteGoesOn(s, Action(t, Run), Do(s, t, Run), t, input, nonblock)
  {
    var (data, copied) := (s.threads[t].input, s.threads[t].copied);
    assert CallOk(s.calls[t], s.threads[t]);
    var r := Do(s, t, Run);
    if copied < |data| && s.readers > 0 && |s.queue| < PIPE_CAPACITY {
      var n := Min(|data| - copied, PIPE_CAPACITY - |s.queue|);
      assert Given(s, r) == data[copied..copied + n];
    } else {
      assert r.accepted == s.accepted;
    }
  }

  /** The write is not over before state `k`, and its steps are as described. */
  ghost predicate InWrite(trace: seq<State>, actions: seq<Action>, i: nat, k: nat, t: nat, input: seq<byte>,
                          nonblock: bool) {
    && i < k < |trace| == |actions| + 1 && t < |trace[i + 1].threads|
    && WantsWrite(trace[i + 1].threads[t], input, nonblock) && Written(trace[i + 1].threads[t]) == 0
    && forall m :: i < m < k ==>
         WriteGoesOn(trace[m], actions[m], trace[m + 1], t, input, nonblock) && !trace[m].threads[t].Done?
  }

  lemma WriteAdds(s: State, action: Action, r: State, t: nat, input: seq<byte>, nonblock: bool, gave: seq<byte>)
    returns (more: nat)
    requires WriteGoesOn(s, action, r, t, input, nonblock) && WantsWrite(s.threads[t], input, nonblock)
    requires gave == if action.thread == t then Given(s, r) else []
    ensures Written(s.threads[t]) <= |input| && more <= |input|
    ensures input[..Written(s.threads[t])] + gave == input[..more]
    ensures
      if WantsWrite(r.threads[t], input, nonblock) then Written(r.threads[t]) == more
      else
        && action.thread == t && Verdict(r.threads[t]).Some?
        && SettlesWrite(s, action.step, input, more, nonblock, Verdict(r.threads[t]).value)
  {
    more := Written(s.threads[t]) + |gave|;
  }

  lemma {:induction false} WriteSoFar(trace: seq<State>, actions: seq<Action>, i: nat, k: nat,
                                      t: nat, input: seq<byte>, nonblock: bool) returns (j: nat, copied: nat)
    requires InWrite(trace, actions, i, k, t, input, nonblock)
    ensures t < |trace[k].threads| && copied <= |input| && Gave(trace, actions, t, i, k) == input[..copied]
    ensures
      if WantsWrite(trace[k].threads[t], input, nonblock) then Written(trace[k].threads[t]) == copied
      else
        && i < j < k && actions[j].thread == t && Verdict(trace[k].threads[t]).Some?
        && SettlesWrite(trace[j], actions[j].step, input, copied, nonblock, Verdict(trace[k].threads[t]).value)
    decreases k
  {
    j, copied := 0, 0;
    if k > i + 1 {
      j, copied := WriteSoFar(trace, actions, i, k - 1, t, input, nonblock);
      assert WriteGoesOn(trace[k - 1], actions[k - 1], trace[k - 1 + 1], t, input, nonblock);
      if WantsWrite(trace[k - 1].threads[t], input, nonblock) {
        var gave := if actions[k - 1].thread == t then Given(trace[k - 1], trace[k]) else [];
        j := k - 1;
        copied := WriteAdds(trace[k - 1], actions[k - 1], trace[k], t, input, nonblock, gave);
      }
    }
  }

  /**
   What a write returns and puts into the pipe in every run. It has put in a
   prefix of its input, all of it unless the last reader is gone, the pipe is
   full or it is forced to exit; it fails only with nothing put in.
   */
  lemma WriteReturns(trace: seq<State>, actions: seq<Action>, i: nat, k: nat, t: nat, input: seq<byte>, nonblock: bool)
    returns (j: nat, copied: nat)
    requires Returns(trace, actions, i, k, t, CallWrite(input, nonblock))
    ensures i < j < k && actions[j].thread == t
    ensures copied <= |input| && Gave(trace, actions, t, i, k) == input[..copied]
    ensures SettlesWrite(trace[j], actions[j].step, input, copied, nonblock, trace[k].threads[t].result)
  {
    assert Enabled(trace[i], t, CallWrite(input, nonblock));
    forall m | i < m < k ensures WriteGoesOn(trace[m], actions[m], trace[m + 1], t, input, nonblock) {
      TracedInv(trace, actions, m);
      WriteStepGoesOn(trace[m], actions[m], t, input, nonblock);
    }
    j, copied := WriteSoFar(trace, actions, i, k, t, input, nonblock);
  }

  // -------------------------------------------------------------- the ends

  ghost predicate WriterClosed(actions: seq<Action>, k: nat) {
    exists m :: 0 <= m < k && m < |actions| && actions[m].step.CloseWriter?
  }

  ghost predicate ReaderClosed(actions: seq<Action>, k: nat) {
    exists m :: 0 <= m < k && m < |actions| && actions[m].step.CloseReader?
  }

  /** Each end is open until it is closed. */
  lemma {:induction false} EndsOpenUntilClosed(trace: seq<State>, actions: seq<Action>, k: nat)
    requires Traced(trace, actions) && k < |trace|
    ensures trace[k].writers == if WriterClosed(actions, k) then 0 else 1
    ensures trace[k].readers == if ReaderClosed(actions, k) then 0 else 1
  {
    if k > 0 {
      EndsOpenUntilClosed(trace, actions, k - 1);
      assert WriterClosed(actions, k) <==> WriterClosed(actions, k - 1) || actions[k - 1].step.CloseWriter?;
      assert ReaderClosed(actions, k) <==> ReaderClosed(actions, k - 1) || actions[k - 1].step.CloseReader?;
    }
  }

  /** A reader with room for a byte is told of the end of the data only after the writer has closed and all was read. */
  lemma EndOfFile(trace: seq<State>, actions: seq<Action>, i: nat, k: nat, t: nat, room: nat, nonblock: bool)
    returns (j: nat)
    requires Returns(trace, actions, i, k, t, CallRead(room, nonblock)) && room > 0
    requires trace[k].threads[t].result == Ok(0)
    ensures i < j < k && WriterClosed(actions, j) && trace[j].delivered == trace[j].accepted
  {
    j := ReadReturns(trace, actions, i, k, t, room, nonblock);
    EndsOpenUntilClosed(trace, actions, j);
    TracedInv(trace, actions, j);
  }

  /** A broken pipe is reported only after the reader has closed. */
  lemma BrokenPipe(trace: seq<State>, actions: seq<Action>, i: nat, k: nat, t: nat, input: seq<byte>, nonblock: bool)
    requires Returns(trace, actions, i, k, t, CallWrite(input, nonblock))
    requires trace[k].threads[t].result == Err(EPIPE)
    ensures ReaderClosed(actions, k) && Gave(trace, actions, t, i, k) == []
  {
    var j, copied := WriteReturns(trace, actions, i, k, t, input, nonblock);
    EndsOpenUntilClosed(trace, actions, j);
    var m :| 0 <= m < j && m < |actions| && actions[m].step.CloseReader?;
    assert 0 <= m < k && actions[m].step.CloseReader?;
  }
}
