/** The lock-order checker of kernel/src/lockdep.rs: one stack of held locks per CPU. */
module Lockdep {
  import opened Machine

  const MAX_HELD_LOCKS := 16

  datatype Rank =
    | Unknown | CrossCpu | Timer | WorkQueue | Scheduler | WaitQueue | Process | Vfs | Vm | PageTable | Heap
    | PageAllocator | Console
  {
    function Value(): nat {
      match this
      case Unknown => 0
      case CrossCpu => 15
      case Timer => 16
      case WorkQueue => 17
      case Scheduler => 20
      case WaitQueue => 30
      case Process => 35
      case Vfs => 36
      case Vm => 40
      case PageTable => 50
      case Heap => 60
      case PageAllocator => 70
      case Console => 80
    }
  }

  datatype LockClass = LockClass(name: string, rank: Rank, order: nat) {
    function Key(): nat {
      (rank.Value() * 1024 + order) % U64
    }
  }

  /** A lock is known by its address; zero is no lock. */
  type Instance = nat

  datatype HeldLock = HeldLock(class_: LockClass, instance: Instance)

  const EMPTY := HeldLock(LockClass("unknown", Unknown, 0), 0)

  /** A lock of class `b` may be taken while one of class `a` is held. */
  predicate InOrder(a: LockClass, b: LockClass) {
    a.rank.Console? || b.rank.Console? || a.Key() <= b.Key()
  }

  /** What `before_lock` lets through. */
  predicate Admits(held: seq<HeldLock>, class_: LockClass, instance: Instance, owner: Option<nat>, cpu: nat) {
    && owner != Some(cpu)
    && forall i :: 0 <= i < |held| ==> held[i].instance != instance && InOrder(held[i].class_, class_)
  }

  // ------------------------------------------------------- what the keys order

  /** The ranks from the outermost to the innermost. */
  const RANKS := [Unknown, CrossCpu, Timer, WorkQueue, Scheduler, WaitQueue, Process, Vfs, Vm, PageTable, Heap,
                  PageAllocator, Console]

  /** How many ranks come before this one. */
  function Place(rank: Rank): (i: nat)
    ensures i < |RANKS| && RANKS[i] == rank
  {
    match rank
    case Unknown => 0
    case CrossCpu => 1
    case Timer => 2
    case WorkQueue => 3
    case Scheduler => 4
    case WaitQueue => 5
    case Process => 6
    case Vfs => 7
    case Vm => 8
    case PageTable => 9
    case Heap => 10
    case PageAllocator => 11
    case Console => 12
  }

  /** `a` is the outer lock: its rank comes first, or the ranks agree and its order is lower. */
  predicate Outer(a: LockClass, b: LockClass) {
    Place(a.rank) < Place(b.rank) || (a.rank == b.rank && a.order < b.order)
  }

  lemma RanksApart(a: Rank, b: Rank)
    ensures Place(a) < Place(b) <==> a.Value() < b.Value()
    ensures a == b <==> a.Value() == b.Value()
    ensures a.Value() <= 80
  {
  }

  lemma MixedRadix(v: nat, x: nat, w: nat, y: nat)
    requires v <= 80 && w <= 80 && x < 1024 && y < 1024
    ensures (v * 1024 + x) % U64 < (w * 1024 + y) % U64 <==> v < w || (v == w && x < y)
    ensures (v * 1024 + x) % U64 == (w * 1024 + y) % U64 <==> v == w && x == y
  {
    assert (v * 1024 + x) % U64 == v * 1024 + x && (w * 1024 + y) % U64 == w * 1024 + y;
  }

  /** With orders below 1024 the keys order the classes by rank first and by order within a rank. */
  lemma KeyOrder(a: LockClass, b: LockClass)
    requires a.order < 1024 && b.order < 1024
    ensures a.Key() < b.Key() <==> Outer(a, b)
    ensures a.Key() == b.Key() <==> a.rank == b.rank && a.order == b.order
  {
    RanksApart(a.rank, b.rank);
    RanksApart(b.rank, a.rank);
    MixedRadix(a.rank.Value(), a.order, b.rank.Value(), b.order);
  }

  /** 1024 is the largest bound on the orders for which the keys do that. */
  lemma OrderBound(bound: nat)
    ensures (forall a: LockClass, b: LockClass :: a.order < bound && b.order < bound ==>
               (a.Key() < b.Key() <==> Outer(a, b))) <==> bound <= 1024
  {
    if bound <= 1024 {
      forall a: LockClass, b: LockClass | a.order < bound && b.order < bound
        ensures a.Key() < b.Key() <==> Outer(a, b)
      {
        KeyOrder(a, b);
      }
    } else {
      var a, b := LockClass("serializer", CrossCpu, 1024), LockClass("timer", Timer, 0);
      assert a.order < bound && b.order < bound && Outer(a, b) && a.Key() == b.Key();
    }
  }

  /** The order of the ranks that the kernel's compile-time assertions spell out. */
  lemma DeclaredOrder(name: string, x: nat, y: nat)
    requires x < 1024 && y < 1024
    ensures LockClass(name, CrossCpu, x).Key() < LockClass(name, Timer, y).Key()
    ensures LockClass(name, Timer, x).Key() < LockClass(name, WorkQueue, y).Key()
    ensures LockClass(name, WorkQueue, x).Key() < LockClass(name, Scheduler, y).Key()
    ensures LockClass(name, WaitQueue, x).Key() < LockClass(name, Process, y).Key()
    ensures LockClass(name, Process, x).Key() < LockClass(name, Vm, y).Key()
    ensures LockClass(name, Vfs, x).Key() < LockClass(name, Vm, y).Key()
  {
  }

  /** What the check lets through: no lock is taken twice or under one that belongs inside it; consoles are exempt. */
  lemma AdmitsByRank(held: seq<HeldLock>, class_: LockClass, instance: Instance, owner: Option<nat>, cpu: nat)
    requires class_.order < 1024 && forall i :: 0 <= i < |held| ==> held[i].class_.order < 1024
    ensures Admits(held, class_, instance, owner, cpu) <==>
      && owner != Some(cpu)
      && forall i :: 0 <= i < |held| ==>
           && held[i].instance != instance
           && (class_.rank != Console && held[i].class_.rank != Console ==> !Outer(class_, held[i].class_))
  {
    forall i | 0 <= i < |held|
      ensures InOrder(held[i].class_, class_) <==>
        class_.rank == Console || held[i].class_.rank == Console || !Outer(class_, held[i].class_)
    {
      KeyOrder(class_, held[i].class_);
    }
  }

  /** The held-lock stack of one CPU. */
  class CpuHeldLocks {
    var depth: nat
    const entries: array<HeldLock>

    constructor ()
      ensures Valid() && Held() == [] && fresh(entries)
    {
      depth := 0;
      entries := new HeldLock[MAX_HELD_LOCKS](i => EMPTY);
    }

    ghost predicate Valid()
      reads this, entries
    {
      entries.Length == MAX_HELD_LOCKS && depth <= MAX_HELD_LOCKS
    }

    ghost function Held(): seq<HeldLock>
      requires Valid()
      reads this, entries
    {
      entries[..depth]
    }

    /** `false` stands for the panic. */
    method BeforeLock(class_: LockClass, instance: Instance, owner: Option<nat>, cpu: nat) returns (ok: bool)
      requires Valid()
      ensures ok <==> Admits(Held(), class_, instance, owner, cpu)
    {
      if owner == Some(cpu) {
        return false;
      }
      var i := 0;
      while i < depth
        invariant 0 <= i <= depth
        invariant forall j :: 0 <= j < i ==> entries[j].instance != instance && InOrder(entries[j].class_, class_)
      {
        var held := entries[i];
        if held.instance == instance {
          assert Held()[i] == held;
          return false;
        }
        if held.class_.rank.Console? || class_.rank.Console? {
          i := i + 1;
          continue;
        }
        if held.class_.Key() > class_.Key() {
          assert Held()[i] == held;
          return false;
        }
        i := i + 1;
      }
      return true;
    }

    method AfterLock(class_: LockClass, instance: Instance) returns (ok: bool)
      requires Valid()
      modifies this, entries
      ensures Valid() && (ok <==> |old(Held())| < 16)
      ensures Held() == if ok then old(Held()) + [HeldLock(class_, instance)] else old(Held())
    {
      if depth >= MAX_HELD_LOCKS {
        return false;
      }
      entries[depth] := HeldLock(class_, instance);
      depth := depth + 1;
      return true;
    }

    method BeforeUnlock(class_: LockClass, instance: Instance) returns (ok: bool)
      requires Valid()
      modifies this, entries
      ensures Valid()
      ensures ok <==>
        && old(Held()) != []
        && var top := old(Held())[|old(Held())| - 1]; top.instance == instance && top.class_.name == class_.name
      ensures Held() == if ok then old(Held())[..|old(Held())| - 1] else old(Held())
    {
      if depth == 0 {
        return false;
      }
      var index := depth - 1;
      var held := entries[index];
      if held.instance != instance || held.class_.name != class_.name {
        return false;
      }
      entries[index] := EMPTY;
      depth := index;
      return true;
    }
  }
}

/**
 `IrqSpinLock` of kernel/src/irq_lock.rs as a step system: any number of CPUs
 and locks, one step per atomic access, every acquisition checked by lockdep.
 */
module LockOrder {
  import opened Lockdep
  import opened Machine

  type Cpu = nat

  /**
   Where a CPU is: `Spinning` after the check passed and before the inner lock
   was won, `Got` until the owner word is written, `Pushing` until lockdep has
   recorded the lock, `Clearing` and `Unlocking` on the way out.
   */
  datatype Pc =
    | Running
    | Spinning(lock: Instance)
    | TryLoaded(lock: Instance)
    | Trying(lock: Instance)
    | Got(lock: Instance)
    | Pushing(lock: Instance)
    | Clearing(lock: Instance)
    | Unlocking(lock: Instance)
    | Panicked

  /** `holder` is the inner spin lock, `owner` the diagnostic owner word. */
  datatype State = State(pc: seq<Pc>, held: seq<seq<HeldLock>>, holder: map<Instance, Cpu>, owner: map<Instance, Cpu>)

  datatype Step =
    | Lock(l: Instance)
    | TryLock(l: Instance)
    | TryCheck
    | TryAcquire
    | Acquire
    | StoreOwner
    | Push
    | Unlock(l: Instance)
    | ClearOwner
    | Release

  type Locks = map<Instance, LockClass>

  function Owner(s: State, l: Instance): Option<Cpu> {
    if l in s.owner then Some(s.owner[l]) else None
  }

  ghost predicate Init(s: State) {
    && |s.pc| == |s.held| && s.holder == map[] && s.owner == map[]
    && (forall c :: 0 <= c < |s.pc| ==> s.pc[c] == Running && s.held[c] == [])
  }

  /** The lock a CPU is inside of acquiring or releasing while it holds the inner lock. */
  function InHand(pc: Pc): set<Instance> {
    match pc
    case Got(l) => {l}
    case Pushing(l) => {l}
    case Clearing(l) => {l}
    case Unlocking(l) => {l}
    case _ => {}
  }

  function Instances(held: seq<HeldLock>): set<Instance> {
    set i | 0 <= i < |held| :: held[i].instance
  }

  /** A guard may be dropped only by the CPU that has it; a spinning CPU waits until the lock is free. */
  predicate Enabled(locks: Locks, s: State, c: Cpu, step: Step) {
    && c < |s.pc| && |s.held| == |s.pc|
    && match step
       case Lock(l) => s.pc[c].Running? && l in locks
       case TryLock(l) => s.pc[c].Running? && l in locks
       case TryCheck => s.pc[c].TryLoaded?
       case TryAcquire => s.pc[c].Trying?
       case Acquire => s.pc[c].Spinning? && s.pc[c].lock !in s.holder
       case StoreOwner => s.pc[c].Got?
       case Push => s.pc[c].Pushing? && s.pc[c].lock in locks
       case Unlock(l) => s.pc[c].Running? && l in Instances(s.held[c]) && l in locks
       case ClearOwner => s.pc[c].Clearing?
       case Release => s.pc[c].Unlocking?
  }

  function Do(locks: Locks, s: State, c: Cpu, step: Step): State
    requires Enabled(locks, s, c, step)
  {
    match step
    case Lock(l) =>
      s.(pc := s.pc[c := if Admits(s.held[c], locks[l], l, Owner(s, l), c) then Spinning(l) else Panicked])
    case TryLock(l) =>
      if Owner(s, l) == Some(c) then s else s.(pc := s.pc[c := TryLoaded(l)])
    case TryCheck =>
      var l := s.pc[c].lock;
      s.(pc := s.pc[c := if l in locks && Admits(s.held[c], locks[l], l, Owner(s, l), c) then Trying(l) else Panicked])
    case TryAcquire =>
      var l := s.pc[c].lock;
      if l in s.holder then s.(pc := s.pc[c := Running])
      else s.(pc := s.pc[c := Got(l)], holder := s.holder[l := c])
    case Acquire =>
      s.(pc := s.pc[c := Got(s.pc[c].lock)], holder := s.holder[s.pc[c].lock := c])
    case StoreOwner =>
      s.(pc := s.pc[c := Pushing(s.pc[c].lock)], owner := s.owner[s.pc[c].lock := c])
    case Push =>
      var l := s.pc[c].lock;
      if |s.held[c]| < MAX_HELD_LOCKS
      then s.(pc := s.pc[c := Running], held := s.held[c := s.held[c] + [HeldLock(locks[l], l)]])
      else s.(pc := s.pc[c := Panicked])
    case Unlock(l) =>
      var n := |s.held[c]| - 1;
      if s.held[c][n].instance == l && s.held[c][n].class_.name == locks[l].name
      then s.(pc := s.pc[c := Clearing(l)], held := s.held[c := s.held[c][..n]])
      else s.(pc := s.pc[c := Panicked])
    case ClearOwner =>
      s.(pc := s.pc[c := Unlocking(s.pc[c].lock)], owner := s.owner - {s.pc[c].lock})
    case Release =>
      s.(pc := s.pc[c := Running], holder := s.holder - {s.pc[c].lock})
  }

  // ------------------------------------------------------------- invariant

  /** The stack of CPU `c` names its locks by their classes, in order and without repetition. */
  ghost predicate StackOk(locks: Locks, held: seq<HeldLock>) {
    && (forall i :: 0 <= i < |held| ==> held[i].instance in locks && held[i].class_ == locks[held[i].instance])
    && (forall i, j :: 0 <= i < j < |held| ==>
          held[i].instance != held[j].instance && InOrder(held[i].class_, held[j].class_))
  }

  /** What the check has established about the lock a CPU is after. */
  ghost predicate PcOk(locks: Locks, held: seq<HeldLock>, pc: Pc) {
    && (pc.TryLoaded? ==> pc.lock in locks)
    && (pc.Spinning? || pc.Trying? || pc.Got? || pc.Pushing? ==> pc.lock in locks && Clear(locks, held, pc.lock))
    && (pc.Clearing? || pc.Unlocking? ==> pc.lock !in Instances(held))
  }

  ghost predicate Clear(locks: Locks, held: seq<HeldLock>, l: Instance)
    requires l in locks
  {
    forall i :: 0 <= i < |held| ==> held[i].instance != l && InOrder(held[i].class_, locks[l])
  }

  /** The words of `m` that name CPU `c`. */
  function Mine(m: map<Instance, Cpu>, c: Cpu): set<Instance> {
    set l | l in m && m[l] == c
  }

  /** The lock whose owner word is set although it is not on the stack. */
  function Marked(pc: Pc): set<Instance> {
    match pc
    case Pushing(l) => {l}
    case Clearing(l) => {l}
    case _ => {}
  }

  /** A CPU has the inner locks and owner words of its stack and of the lock in its hand. */
  ghost predicate WordsOk(s: State, c: Cpu)
    requires c < |s.pc| == |s.held|
  {
    || s.pc[c].Panicked?
    || (&& Mine(s.holder, c) == Instances(s.held[c]) + InHand(s.pc[c])
        && Mine(s.owner, c) == Instances(s.held[c]) + Marked(s.pc[c]))
  }

  ghost predicate CpuOk(locks: Locks, s: State, c: Cpu)
    requires c < |s.pc| == |s.held|
  {
    StackOk(locks, s.held[c]) && PcOk(locks, s.held[c], s.pc[c]) && WordsOk(s, c)
  }

  ghost predicate Inv(locks: Locks, s: State) {
    && |s.pc| == |s.held|
    && (forall l :: l in s.owner ==> l in s.holder && s.holder[l] == s.owner[l])
    && (forall c :: 0 <= c < |s.pc| ==> CpuOk(locks, s, c))
  }

  /** A step of `c` changes no word that names another CPU, and no word of theirs. */
  lemma OtherWords(locks: Locks, s: State, c: Cpu, step: Step, d: Cpu)
    requires Inv(locks, s) && Enabled(locks, s, c, step) && d < |s.pc| && d != c
    ensures
      var s' := Do(locks, s, c, step);
      && Mine(s'.holder, d) == Mine(s.holder, d) && Mine(s'.owner, d) == Mine(s.owner, d)
  {
    assert CpuOk(locks, s, c) && CpuOk(locks, s, d);
    HandIsMine(locks, s, c);
    if step.StoreOwner? {
      assert s.pc[c].lock in Mine(s.holder, c);
    }
  }

  lemma HandIsMine(locks: Locks, s: State, c: Cpu)
    requires Inv(locks, s) && c < |s.pc|
    ensures forall l :: l in InHand(s.pc[c]) ==> l in s.holder && s.holder[l] == c
    ensures forall l :: l in Marked(s.pc[c]) ==> l in s.owner && s.owner[l] == c
  {
    assert CpuOk(locks, s, c);
    forall l | l in InHand(s.pc[c]) ensures l in Mine(s.holder, c) {}
    forall l | l in Marked(s.pc[c]) ensures l in Mine(s.owner, c) {}
  }

  lemma OwnersKept(locks: Locks, s: State, c: Cpu, step: Step)
    requires Inv(locks, s) && Enabled(locks, s, c, step)
    ensures var s' := Do(locks, s, c, step); forall l :: l in s'.owner ==> l in s'.holder && s'.holder[l] == s'.owner[l]
  {
    assert CpuOk(locks, s, c);
    HandIsMine(locks, s, c);
    if step.Release? {
      assert s.pc[c].lock !in Mine(s.owner, c);
    }
  }

  lemma SelfKept(locks: Locks, s: State, c: Cpu, step: Step)
    requires Inv(locks, s) && Enabled(locks, s, c, step)
    ensures CpuOk(locks, Do(locks, s, c, step), c)
  {
    assert CpuOk(locks, s, c);
    HandIsMine(locks, s, c);
    match step {
      case Push => if |s.held[c]| < MAX_HELD_LOCKS { PushKept(locks, s.held[c], s.pc[c].lock); }
      case Unlock(l) => PopKept(locks, s.held[c]);
      case _ =>
    }
  }

  lemma PushKept(locks: Locks, held: seq<HeldLock>, l: Instance)
    requires StackOk(locks, held) && l in locks && Clear(locks, held, l)
    ensures StackOk(locks, held + [HeldLock(locks[l], l)])
    ensures Instances(held + [HeldLock(locks[l], l)]) == Instances(held) + {l}
  {
    var now := held + [HeldLock(locks[l], l)];
    assert now[|held|].instance == l;
    forall i | 0 <= i < |held| ensures now[i] == held[i] {}
  }

  lemma PopKept(locks: Locks, held: seq<HeldLock>)
    requires StackOk(locks, held) && held != []
    ensures
      var n := |held| - 1;
      StackOk(locks, held[..n]) && Instances(held[..n]) == Instances(held) - {held[n].instance}
  {
    var n := |held| - 1;
    forall i | 0 <= i < n ensures held[..n][i] == held[i] {}
  }

  /** Every step keeps the invariant. */
  lemma StepKeeps(locks: Locks, s: State, c: Cpu, step: Step)
    requires Inv(locks, s) && Enabled(locks, s, c, step)
    ensures Inv(locks, Do(locks, s, c, step))
  {
    var s' := Do(locks, s, c, step);
    OwnersKept(locks, s, c, step);
    forall d | 0 <= d < |s'.pc| ensures CpuOk(locks, s', d) {
      if d == c {
        SelfKept(locks, s, c, step);
      } else {
        assert CpuOk(locks, s, d);
        OtherWords(locks, s, c, step, d);
      }
    }
  }

  // ------------------------------------------------------------------ runs

  datatype Action = Action(cpu: Cpu, step: Step)

  /** The actions lead from `s` to `t`. */
  ghost predicate Runs(locks: Locks, s: State, actions: seq<Action>, t: State)
    decreases |actions|
  {
    if actions == [] then s == t
    else
      && Enabled(locks, s, actions[0].cpu, actions[0].step)
      && Runs(locks, Do(locks, s, actions[0].cpu, actions[0].step), actions[1..], t)
  }

  ghost predicate Reachable(locks: Locks, cpus: nat, t: State) {
    exists s, actions :: Init(s) && |s.pc| == cpus && Runs(locks, s, actions, t)
  }

  lemma {:induction false} RunsKeep(locks: Locks, s: State, actions: seq<Action>, t: State)
    requires Inv(locks, s) && Runs(locks, s, actions, t)
    ensures Inv(locks, t) && |t.pc| == |s.pc|
    decreases |actions|
  {
    if actions != [] {
      StepKeeps(locks, s, actions[0].cpu, actions[0].step);
      RunsKeep(locks, Do(locks, s, actions[0].cpu, actions[0].step), actions[1..], t);
    }
  }

  lemma ReachableInv(locks: Locks, cpus: nat, t: State)
    requires Reachable(locks, cpus, t)
    ensures Inv(locks, t) && |t.pc| == cpus
  {
    var s, actions :| Init(s) && |s.pc| == cpus && Runs(locks, s, actions, t);
    RunsKeep(locks, s, actions, t);
  }

  /** For a CPU between operations, the owner word and the lockdep stack detect the same recursion. */
  lemma RecursionChecksAgree(locks: Locks, cpus: nat, s: State, c: Cpu, l: Instance)
    requires Reachable(locks, cpus, s) && c < |s.pc| == |s.held| && s.pc[c].Running?
    ensures Owner(s, l) == Some(c) <==> l in Instances(s.held[c])
  {
    ReachableInv(locks, cpus, s);
    assert CpuOk(locks, s, c);
    assert l in Mine(s.owner, c) <==> l in Instances(s.held[c]);
  }

  // ---------------------------------------------------------------- cycles

  /** CPU `c` spins on a lock that CPU `d` holds. */
  ghost predicate Waits(s: State, c: Cpu, d: Cpu) {
    c < |s.pc| && d < |s.pc| && s.pc[c].Spinning? && s.pc[c].lock in s.holder && s.holder[s.pc[c].lock] == d
  }

  function Next(i: nat, n: nat): nat {
    if i + 1 == n then 0 else i + 1
  }

  ghost predicate Cycle(s: State, cs: seq<Cpu>) {
    cs != [] && forall i :: 0 <= i < |cs| ==> Waits(s, cs[i], cs[Next(i, |cs|)])
  }

  /** The class of the lock that CPU `c` waits for. */
  ghost function Wanted(locks: Locks, s: State, c: Cpu): LockClass {
    if c < |s.pc| && s.pc[c].Spinning? && s.pc[c].lock in locks then locks[s.pc[c].lock] else EMPTY.class_
  }

  /** Two consecutive waits are for different locks, by different CPUs, in order. */
  lemma Edge(locks: Locks, s: State, c: Cpu, d: Cpu)
    requires Inv(locks, s) && Waits(s, c, d) && s.pc[d].Spinning?
    ensures c != d && s.pc[c].lock != s.pc[d].lock && s.pc[c].lock in locks && s.pc[d].lock in locks
    ensures InOrder(Wanted(locks, s, c), Wanted(locks, s, d))
  {
    assert CpuOk(locks, s, c) && CpuOk(locks, s, d);
    var l := s.pc[c].lock;
    assert l in Mine(s.holder, d);
    var i :| 0 <= i < |s.held[d]| && s.held[d][i].instance == l;
    assert s.held[d][i].instance != s.pc[d].lock;
  }

  ghost predicate HasConsole(locks: Locks, s: State, cs: seq<Cpu>) {
    exists i :: 0 <= i < |cs| && Wanted(locks, s, cs[i]).rank.Console?
  }

  lemma {:induction false} KeysClimb(locks: Locks, s: State, cs: seq<Cpu>, i: nat, j: nat)
    requires Inv(locks, s) && Cycle(s, cs) && !HasConsole(locks, s, cs) && i <= j < |cs|
    ensures Wanted(locks, s, cs[i]).Key() <= Wanted(locks, s, cs[j]).Key()
    decreases j
  {
    if i < j {
      KeysClimb(locks, s, cs, i, j - 1);
      assert Waits(s, cs[j - 1], cs[Next(j - 1, |cs|)]) && Waits(s, cs[j], cs[Next(j, |cs|)]);
      Edge(locks, s, cs[j - 1], cs[j]);
    }
  }

  lemma CycleEdge(locks: Locks, s: State, cs: seq<Cpu>, i: nat)
    requires Inv(locks, s) && Cycle(s, cs) && i < |cs|
    ensures
      var c, d := cs[i], cs[Next(i, |cs|)];
      && Waits(s, c, d) && s.pc[d].Spinning? && c != d && s.pc[c].lock != s.pc[d].lock
      && s.pc[c].lock in locks && s.pc[d].lock in locks && InOrder(Wanted(locks, s, c), Wanted(locks, s, d))
  {
    var j := Next(i, |cs|);
    assert Waits(s, cs[i], cs[j]) && Waits(s, cs[j], cs[Next(j, |cs|)]);
    Edge(locks, s, cs[i], cs[j]);
  }

  /** Every wait-for cycle is longer than one and has a console lock or a single key. */
  lemma CycleShape(locks: Locks, cpus: nat, s: State, cs: seq<Cpu>)
    requires Reachable(locks, cpus, s) && Cycle(s, cs)
    ensures |cs| >= 2
    ensures
      || HasConsole(locks, s, cs)
      || forall i, j :: 0 <= i < |cs| && 0 <= j < |cs| ==>
           Wanted(locks, s, cs[i]).Key() == Wanted(locks, s, cs[j]).Key()
  {
    ReachableInv(locks, cpus, s);
    CycleEdge(locks, s, cs, 0);
    if !HasConsole(locks, s, cs) {
      var n := |cs|;
      CycleEdge(locks, s, cs, n - 1);
      forall i | 0 <= i < n ensures Wanted(locks, s, cs[i]).Key() == Wanted(locks, s, cs[0]).Key() {
        KeysClimb(locks, s, cs, 0, i);
        KeysClimb(locks, s, cs, i, n - 1);
      }
    }
  }

  /** Two locks that lockdep lets a CPU take in either order. */
  ghost predicate Unordered(locks: Locks, a: Instance, b: Instance) {
    a in locks && b in locks && a != b && InOrder(locks[a], locks[b]) && InOrder(locks[b], locks[a])
  }

  ghost predicate DeadlockReachable(locks: Locks, cpus: nat) {
    exists s, cs :: Reachable(locks, cpus, s) && Cycle(s, cs)
  }

  lemma DeadlockNeeds(locks: Locks, cpus: nat)
    requires DeadlockReachable(locks, cpus)
    ensures cpus >= 2 && exists a, b :: Unordered(locks, a, b)
  {
    var s, cs :| Reachable(locks, cpus, s) && Cycle(s, cs);
    ReachableInv(locks, cpus, s);
    CycleShape(locks, cpus, s, cs);
    var i := 0;
    if HasConsole(locks, s, cs) {
      i :| 0 <= i < |cs| && Wanted(locks, s, cs[i]).rank.Console?;
    }
    CycleEdge(locks, s, cs, i);
    assert Unordered(locks, s.pc[cs[i]].lock, s.pc[cs[Next(i, |cs|)]].lock);
  }

  /** `c` has taken the free lock `l` on top of an empty stack. */
  function Taken(locks: Locks, s: State, c: Cpu, l: Instance): State
    requires c < |s.held| && l in locks
  {
    s.(held := s.held[c := [HeldLock(locks[l], l)]], holder := s.holder[l := c], owner := s.owner[l := c])
  }

  /** The four steps of an uncontended `lock`. */
  lemma LockRuns(locks: Locks, s: State, c: Cpu, l: Instance, rest: seq<Action>, t: State)
    requires c < |s.pc| == |s.held| && s.pc[c] == Running && s.held[c] == [] && l in locks && l !in s.holder
    requires l !in s.owner
    requires Runs(locks, Taken(locks, s, c, l), rest, t)
    ensures Runs(locks, s, [Action(c, Lock(l)), Action(c, Acquire), Action(c, StoreOwner), Action(c, Push)] + rest, t)
  {
    var s1 := Do(locks, s, c, Lock(l));
    assert s1.pc[c] == Spinning(l);
    var s2 := Do(locks, s1, c, Acquire);
    var s3 := Do(locks, s2, c, StoreOwner);
    var s4 := Do(locks, s3, c, Push);
    assert s4.pc == s.pc;
    assert s4.held[c] == [HeldLock(locks[l], l)];
    assert s4 == Taken(locks, s, c, l);
    RunsOne(locks, s3, Action(c, Push), rest, t);
    RunsOne(locks, s2, Action(c, StoreOwner), [Action(c, Push)] + rest, t);
    RunsOne(locks, s1, Action(c, Acquire), [Action(c, StoreOwner)] + ([Action(c, Push)] + rest), t);
    RunsOne(locks, s, Action(c, Lock(l)),
            [Action(c, Acquire)] + ([Action(c, StoreOwner)] + ([Action(c, Push)] + rest)), t);
    assert [Action(c, Lock(l)), Action(c, Acquire), Action(c, StoreOwner), Action(c, Push)] + rest
        == [Action(c, Lock(l))] + ([Action(c, Acquire)] + ([Action(c, StoreOwner)] + ([Action(c, Push)] + rest)));
  }

  lemma RunsOne(locks: Locks, s: State, a: Action, rest: seq<Action>, t: State)
    requires Enabled(locks, s, a.cpu, a.step) && Runs(locks, Do(locks, s, a.cpu, a.step), rest, t)
    ensures Runs(locks, s, [a] + rest, t)
  {
    assert ([a] + rest)[1..] == rest;
  }

  /** Two CPUs that hold one lock each ask for each other's. */
  lemma CrossedRun(locks: Locks, s: State, a: Instance, b: Instance) returns (actions: seq<Action>, t: State)
    requires Unordered(locks, a, b) && |s.pc| == |s.held| >= 2 && s.pc[0] == Running && s.pc[1] == Running
    requires s.held[0] == [HeldLock(locks[a], a)] && s.held[1] == [HeldLock(locks[b], b)]
    requires a in s.holder && b in s.holder && s.holder[a] == 0 && s.holder[b] == 1
    requires a in s.owner && b in s.owner && s.owner[a] == 0 && s.owner[b] == 1
    ensures Runs(locks, s, actions, t) && Cycle(t, [0, 1])
  {
    var mid := Do(locks, s, 0, Lock(b));
    t := Do(locks, mid, 1, Lock(a));
    RunsOne(locks, mid, Action(1, Lock(a)), [], t);
    RunsOne(locks, s, Action(0, Lock(b)), [Action(1, Lock(a))] + [], t);
    actions := [Action(0, Lock(b))] + ([Action(1, Lock(a))] + []);
    assert t.pc[0] == Spinning(b) && t.pc[1] == Spinning(a);
    assert Waits(t, [0, 1][0], [0, 1][1]) && Waits(t, [0, 1][1], [0, 1][0]);
  }

  /** Two CPUs, two locks without an order: each takes one and asks for the other. */
  lemma DeadlockRun(locks: Locks, cpus: nat, a: Instance, b: Instance)
    requires cpus >= 2 && Unordered(locks, a, b)
    ensures DeadlockReachable(locks, cpus)
  {
    var s := State(seq(cpus, i => Running), seq(cpus, i => []), map[], map[]);
    var s1 := Taken(locks, s, 0, a);
    var s2 := Taken(locks, s1, 1, b);
    var last, t := CrossedRun(locks, s2, a, b);
    LockRuns(locks, s1, 1, b, last, t);
    var more := [Action(1, Lock(b)), Action(1, Acquire), Action(1, StoreOwner), Action(1, Push)] + last;
    LockRuns(locks, s, 0, a, more, t);
    assert Init(s) && Reachable(locks, cpus, t);
  }

  /** A wait-for cycle can arise exactly when lockdep leaves some pair of locks without an order. */
  lemma DeadlockExactly(locks: Locks, cpus: nat)
    ensures DeadlockReachable(locks, cpus) <==> cpus >= 2 && exists a, b :: Unordered(locks, a, b)
  {
    if DeadlockReachable(locks, cpus) {
      DeadlockNeeds(locks, cpus);
    }
    if cpus >= 2 && exists a, b :: Unordered(locks, a, b) {
      var a, b :| Unordered(locks, a, b);
      DeadlockRun(locks, cpus, a, b);
    }
  }

  /** A pair has no order exactly when one is a console lock or both have one key. */
  lemma UnorderedExactly(locks: Locks, a: Instance, b: Instance)
    requires a in locks && b in locks && a != b
    ensures Unordered(locks, a, b) <==>
      locks[a].rank.Console? || locks[b].rank.Console? || locks[a].Key() == locks[b].Key()
  {
  }

  /** Every CPU of `ds` spins on a lock held within `ds`. */
  ghost predicate Deadlocked(s: State, ds: set<Cpu>) {
    ds != {} && forall c :: c in ds ==> Blocked(s, c, ds)
  }

  ghost predicate Blocked(s: State, c: Cpu, ds: set<Cpu>) {
    c < |s.pc| && s.pc[c].Spinning? && s.pc[c].lock in s.holder && s.holder[s.pc[c].lock] in ds
  }

  lemma {:induction false} HighestWait(locks: Locks, s: State, ds: set<Cpu>) returns (top: Cpu)
    requires ds != {}
    ensures top in ds && forall c :: c in ds ==> Wanted(locks, s, c).Key() <= Wanted(locks, s, top).Key()
    decreases ds
  {
    top :| top in ds;
    if ds != {top} {
      var rest := HighestWait(locks, s, ds - {top});
      top := if Wanted(locks, s, top).Key() <= Wanted(locks, s, rest).Key() then rest else top;
      forall c | c in ds ensures Wanted(locks, s, c).Key() <= Wanted(locks, s, top).Key() {}
    }
  }

  /** With distinct keys and no console lock, no set of CPUs is ever deadlocked. */
  lemma NoDeadlock(locks: Locks, cpus: nat, s: State, ds: set<Cpu>)
    requires Reachable(locks, cpus, s)
    requires forall a :: a in locks ==> !locks[a].rank.Console?
    requires forall a, b :: a in locks && b in locks && locks[a].Key() == locks[b].Key() ==> a == b
    ensures !Deadlocked(s, ds)
  {
    ReachableInv(locks, cpus, s);
    if Deadlocked(s, ds) {
      var c := HighestWait(locks, s, ds);
      var d := s.holder[s.pc[c].lock];
      Edge(locks, s, c, d);
    }
  }

  /** A blocked CPU has no step, and no step of another unblocks it. */
  lemma StaysBlocked(locks: Locks, s: State, c: Cpu, step: Step, d: Cpu, ds: set<Cpu>)
    requires Inv(locks, s) && Enabled(locks, s, c, step) && c !in ds && Blocked(s, d, ds) && d != c
    ensures Blocked(Do(locks, s, c, step), d, ds)
  {
    HandIsMine(locks, s, c);
  }

  lemma BlockedHasNoStep(locks: Locks, s: State, c: Cpu, step: Step, ds: set<Cpu>)
    requires Enabled(locks, s, c, step)
    ensures !Blocked(s, c, ds)
  {
  }

  /** A deadlocked set stays deadlocked whatever the other CPUs do. */
  lemma DeadlockIsForever(locks: Locks, s: State, ds: set<Cpu>, c: Cpu, step: Step)
    requires Inv(locks, s) && Deadlocked(s, ds) && Enabled(locks, s, c, step)
    ensures c !in ds && Deadlocked(Do(locks, s, c, step), ds)
  {
    BlockedHasNoStep(locks, s, c, step, ds);
    forall d | d in ds ensures Blocked(Do(locks, s, c, step), d, ds) {
      assert Blocked(s, d, ds);
      StaysBlocked(locks, s, c, step, d, ds);
    }
  }

  // ------------------------------------------------------ what the steps add up to

  /** No two CPUs hold one lock. */
  lemma MutualExclusion(locks: Locks, cpus: nat, s: State, c: Cpu, d: Cpu, l: Instance)
    requires Reachable(locks, cpus, s) && c < |s.pc| == |s.held| && d < |s.pc|
    requires !s.pc[c].Panicked? && !s.pc[d].Panicked?
    requires l in Instances(s.held[c]) + InHand(s.pc[c]) && l in Instances(s.held[d]) + InHand(s.pc[d])
    ensures c == d && l in s.holder && s.holder[l] == c
  {
    ReachableInv(locks, cpus, s);
    assert CpuOk(locks, s, c) && CpuOk(locks, s, d);
    assert l in Mine(s.holder, c) && l in Mine(s.holder, d);
  }

  /** The state after `steps` of one CPU with no other in between; `None` if it would have to wait. */
  function Alone(locks: Locks, s: State, c: Cpu, steps: seq<Step>): Option<State>
    decreases |steps|
  {
    if steps == [] then Some(s)
    else if Enabled(locks, s, c, steps[0]) then Alone(locks, Do(locks, s, c, steps[0]), c, steps[1..])
    else None
  }

  /** CPU `c` has taken the lock `l`. */
  function Locked(locks: Locks, s: State, c: Cpu, l: Instance): State
    requires c < |s.held| && l in locks
  {
    s.(held := s.held[c := s.held[c] + [HeldLock(locks[l], l)]], holder := s.holder[l := c], owner := s.owner[l := c])
  }

  /** CPU `c` is running and the check would let it take `l`. */
  predicate Ready(locks: Locks, s: State, c: Cpu, l: Instance) {
    && c < |s.pc| == |s.held| && s.pc[c].Running? && |s.held[c]| < MAX_HELD_LOCKS && l in locks
    && Admits(s.held[c], locks[l], l, Owner(s, l), c)
  }

  lemma Pushes(locks: Locks, s: State, c: Cpu, l: Instance)
    requires Ready(locks, s, c, l)
    ensures
      var got := s.(pc := s.pc[c := Got(l)], holder := s.holder[l := c]);
      Alone(locks, got, c, [StoreOwner, Push]) == Some(Locked(locks, s, c, l))
  {
    var got := s.(pc := s.pc[c := Got(l)], holder := s.holder[l := c]);
    var marked := Do(locks, got, c, StoreOwner);
    assert marked.pc[c := Running] == s.pc;
    assert [StoreOwner, Push][1..] == [Push];
    assert [Push][1..] == [];
  }

  lemma AloneStep(locks: Locks, s: State, c: Cpu, step: Step, rest: seq<Step>)
    requires Enabled(locks, s, c, step)
    ensures Alone(locks, s, c, [step] + rest) == Alone(locks, Do(locks, s, c, step), c, rest)
  {
    assert ([step] + rest)[1..] == rest;
  }

  lemma LockTakes(locks: Locks, s: State, c: Cpu, l: Instance)
    requires Ready(locks, s, c, l) && l !in s.holder
    ensures Alone(locks, s, c, [Lock(l)] + ([Acquire] + [StoreOwner, Push])) == Some(Locked(locks, s, c, l))
  {
    Pushes(locks, s, c, l);
    var spinning := Do(locks, s, c, Lock(l));
    AloneStep(locks, s, c, Lock(l), [Acquire] + [StoreOwner, Push]);
    AloneStep(locks, spinning, c, Acquire, [StoreOwner, Push]);
    assert spinning.pc[c := Got(l)] == s.pc[c := Got(l)];
  }

  /** Trying to lock a free lock comes to the same as locking it. */
  lemma TryTakes(locks: Locks, s: State, c: Cpu, l: Instance)
    requires Ready(locks, s, c, l) && l !in s.holder
    ensures Alone(locks, s, c, [TryLock(l)] + ([TryCheck] + ([TryAcquire] + [StoreOwner, Push])))
         == Some(Locked(locks, s, c, l))
  {
    Pushes(locks, s, c, l);
    var loaded := Do(locks, s, c, TryLock(l));
    var trying := Do(locks, loaded, c, TryCheck);
    AloneStep(locks, s, c, TryLock(l), [TryCheck] + ([TryAcquire] + [StoreOwner, Push]));
    AloneStep(locks, loaded, c, TryCheck, [TryAcquire] + [StoreOwner, Push]);
    AloneStep(locks, trying, c, TryAcquire, [StoreOwner, Push]);
    assert trying.pc[c := Got(l)] == s.pc[c := Got(l)];
  }

  /** Trying to lock a lock that another CPU has changes nothing. */
  lemma TryFails(locks: Locks, s: State, c: Cpu, l: Instance)
    requires Ready(locks, s, c, l) && l in s.holder
    ensures Alone(locks, s, c, [TryLock(l), TryCheck, TryAcquire]) == Some(s)
  {
    assert s.pc[c := TryLoaded(l)][c := Trying(l)][c := Running] == s.pc;
    assert [TryLock(l), TryCheck, TryAcquire][1..] == [TryCheck, TryAcquire];
    assert [TryCheck, TryAcquire][1..] == [TryAcquire] && [TryAcquire][1..] == [];
  }

  /** So does trying to lock a lock the CPU itself owns, whatever else it holds. */
  lemma TryOwn(locks: Locks, s: State, c: Cpu, l: Instance)
    requires c < |s.pc| == |s.held| && s.pc[c].Running? && l in locks && Owner(s, l) == Some(c)
    ensures Alone(locks, s, c, [TryLock(l)]) == Some(s)
  {
    assert [TryLock(l)][1..] == [];
  }

  /** Unlocking undoes locking. */
  lemma UnlockUndoes(locks: Locks, s: State, c: Cpu, l: Instance)
    requires Ready(locks, s, c, l) && l !in s.holder && l !in s.owner
    ensures Alone(locks, Locked(locks, s, c, l), c, [Unlock(l), ClearOwner, Release]) == Some(s)
  {
    var now := Locked(locks, s, c, l);
    var n := |s.held[c]|;
    assert now.held[c][n] == HeldLock(locks[l], l) && now.held[c][..n] == s.held[c];
    assert l in Instances(now.held[c]);
    var s1 := Do(locks, now, c, Unlock(l));
    assert s1.held == s.held;
    var s2 := Do(locks, s1, c, ClearOwner);
    assert s2.owner == s.owner;
    var s3 := Do(locks, s2, c, Release);
    assert s3.pc == s.pc && s3.holder == s.holder;
    assert [Unlock(l), ClearOwner, Release][1..] == [ClearOwner, Release];
    assert [ClearOwner, Release][1..] == [Release] && [Release][1..] == [];
  }
}
