/**
 Thread groups, exec and the hand-off of dead children of kernel/src/process.rs.
 Each region under a process lock is one step; threads leave in three steps
 (detach, close the descriptors, report to the parent).
 */
module Processes {
  import opened Machine

  type Pid = nat
  type Tid = nat

  datatype Zombie = Zombie(pid: Pid, status: int)

  /**
   `exiting` is an active group exit. The last three fields record what has
   happened: the group became empty, the descriptors were closed, and how often
   `wait_zombie_child` returned the process.
   */
  datatype Proc = Proc(
    leader: Option<Tid>, members: seq<Tid>, exec: bool, exiting: bool,
    parent: Option<Pid>, children: seq<Pid>, zombies: seq<Zombie>,
    emptied: bool, closed: bool, returned: nat)

  datatype Pc =
    | Live
    | Execing
    | Leaving
    | Emptied
    | Closed
    | Gone

  datatype Thread = Thread(proc: Pid, pc: Pc)

  /** `fault` records a failed `assert!` or `expect`. */
  datatype State = State(procs: seq<Proc>, threads: seq<Thread>, fault: bool)

  datatype Step =
    | Fork(pid: Pid)
    | Spawn(of: Option<Pid>)
    | CreateInitial(pid: Pid)
    | CreateThread(pid: Pid)
    | GroupExit(pid: Pid)
    | BeginExec(tid: Tid)
    | FinishExec(tid: Tid)
    | Leave(tid: Tid)
    | Detach(tid: Tid)
    | CloseFiles(tid: Tid)
    | Report(tid: Tid, parentFound: bool, status: int, reserved: bool)
    | Wait(pid: Pid, requested: int)

  const NEW := Proc(None, [], false, false, None, [], [], false, false, 0)

  function RemoveAt<T>(s: seq<T>, i: nat): (r: seq<T>)
    requires i < |s|
    ensures |r| == |s| - 1
  {
    s[..i] + s[i + 1..]
  }

  /** The first position of `x`, or the length. */
  function Position<T(==)>(s: seq<T>, x: T): (i: nat)
    ensures i <= |s| && (i < |s| ==> s[i] == x) && (i == |s| ==> x !in s)
  {
    if s == [] then 0 else if s[0] == x then 0 else 1 + Position(s[1..], x)
  }

  predicate Matches(z: Zombie, requested: int) {
    requested == -1 || requested == z.pid
  }

  function FindZombie(zs: seq<Zombie>, requested: int): (i: nat)
    ensures i <= |zs| && (i < |zs| ==> Matches(zs[i], requested))
    ensures forall j :: 0 <= j < i ==> !Matches(zs[j], requested)
  {
    if zs == [] then 0 else if Matches(zs[0], requested) then 0 else 1 + FindZombie(zs[1..], requested)
  }

  ghost predicate Init(s: State) {
    s.threads == [] && !s.fault && s.procs == []
  }

  predicate Alive(s: State, t: Tid) {
    t < |s.threads| && s.threads[t].proc < |s.procs|
  }

  predicate Enabled(s: State, step: Step) {
    match step
    case Fork(p) => p < |s.procs|
    case Spawn(p) => p.Some? ==> p.value < |s.procs|
    case CreateInitial(p) => p < |s.procs|
    case CreateThread(p) => p < |s.procs|
    case GroupExit(p) => p < |s.procs|
    case BeginExec(t) => Alive(s, t) && s.threads[t].pc == Live
    case FinishExec(t) => Alive(s, t) && s.threads[t].pc == Execing
    case Leave(t) => Alive(s, t) && s.threads[t].pc == Live
    case Detach(t) => Alive(s, t) && s.threads[t].pc == Leaving
    case CloseFiles(t) => Alive(s, t) && s.threads[t].pc == Emptied
    case Report(t, _, _, _) => Alive(s, t) && s.threads[t].pc == Closed
    case Wait(p, _) => p < |s.procs|
  }

  function SetProc(s: State, p: Pid, now: Proc): State
    requires p < |s.procs|
  {
    s.(procs := s.procs[p := now])
  }

  function SetPc(s: State, t: Tid, pc: Pc): State
    requires t < |s.threads|
  {
    s.(threads := s.threads[t := s.threads[t].(pc := pc)])
  }

  /** `detach_thread` under the group lock. */
  function Detached(s: State, t: Tid): State
    requires Alive(s, t)
  {
    var p := s.threads[t].proc;
    var proc := s.procs[p];
    var i := Position(proc.members, t);
    if i == |proc.members| then s.(fault := true)
    else
      var members := SwapRemove(proc.members, i);
      var leader := if proc.leader == Some(t) then None else proc.leader;
      SetPc(SetProc(s, p, proc.(members := members, leader := leader, emptied := proc.emptied || members == [])),
            t, if members == [] then Emptied else Gone)
  }

  /** `mark_child_zombie` under the parent's relations lock; without memory the child is lost. */
  function MarkZombie(parent: Proc, child: Pid, status: int, reserved: bool): Proc {
    var i := Position(parent.children, child);
    if i == |parent.children| then parent
    else
      var children := RemoveAt(parent.children, i);
      parent.(children := children,
              zombies := if reserved then parent.zombies + [Zombie(child, status)] else parent.zombies)
  }

  function Waited(s: State, p: Pid, requested: int): State
    requires p < |s.procs|
  {
    var i := FindZombie(s.procs[p].zombies, requested);
    if i == |s.procs[p].zombies| then s
    else
      var c := s.procs[p].zombies[i].pid;
      var s1 := SetProc(s, p, s.procs[p].(zombies := RemoveAt(s.procs[p].zombies, i)));
      if c < |s1.procs| then SetProc(s1, c, s1.procs[c].(returned := s1.procs[c].returned + 1)) else s1
  }

  function Do(s: State, step: Step): State
    requires Enabled(s, step)
  {
    match step
    case Fork(p) =>
      var n := |s.procs|;
      s.(procs := s.procs[p := s.procs[p].(children := s.procs[p].children + [n])] + [NEW.(parent := Some(p))])
    case Spawn(p) => s.(procs := s.procs + [NEW.(parent := p)])
    case CreateInitial(p) =>
      var proc := s.procs[p];
      if proc.leader.Some? || proc.members != [] then s
      else
        var t := |s.threads|;
        SetProc(s, p, proc.(leader := Some(t), members := [t])).(threads := s.threads + [Thread(p, Live)])
    case CreateThread(p) =>
      var proc := s.procs[p];
      if proc.leader.None? || proc.exiting || proc.exec then s
      else
        var t := |s.threads|;
        SetProc(s, p, proc.(members := proc.members + [t])).(threads := s.threads + [Thread(p, Live)])
    case GroupExit(p) => SetProc(s, p, s.procs[p].(exiting := true))
    case BeginExec(t) =>
      var p := s.threads[t].proc;
      if s.procs[p].exec then s else SetPc(SetProc(s, p, s.procs[p].(exec := true)), t, Execing)
    case FinishExec(t) =>
      var p := s.threads[t].proc;
      SetPc(SetProc(s, p, s.procs[p].(exec := false)), t, Live).(fault := s.fault || !s.procs[p].exec)
    case Leave(t) => SetPc(s, t, Leaving)
    case Detach(t) => Detached(s, t)
    case CloseFiles(t) =>
      var p := s.threads[t].proc;
      SetPc(SetProc(s, p, s.procs[p].(closed := true)), t, Closed)
    case Report(t, parentFound, status, reserved) =>
      var p := s.threads[t].proc;
      var s1 := SetPc(s, t, Gone);
      if parentFound && s.procs[p].parent.Some? && s.procs[p].parent.value < |s.procs|
      then SetProc(s1, s.procs[p].parent.value, MarkZombie(s.procs[s.procs[p].parent.value], p, status, reserved))
      else s1
    case Wait(p, requested) => Waited(s, p, requested)
  }

  // ------------------------------------------------------------- invariants

  ghost predicate InZombies(proc: Proc, c: Pid) {
    exists i :: 0 <= i < |proc.zombies| && proc.zombies[i].pid == c
  }

  ghost predicate Listed(proc: Proc, c: Pid) {
    c in proc.children || InZombies(proc, c)
  }

  /** No child is listed twice. */
  ghost predicate ListsOk(proc: Proc) {
    && Distinct(proc.children)
    && (forall i, j :: 0 <= i < j < |proc.zombies| ==> proc.zombies[i].pid != proc.zombies[j].pid)
    && (forall i :: 0 <= i < |proc.zombies| ==> proc.zombies[i].pid !in proc.children)
  }

  /** Who is listed by `p` is a child of `p` that was not returned yet, and a zombie is dead and closed. */
  ghost predicate FamilyOk(procs: seq<Proc>, p: Pid)
    requires p < |procs|
  {
    && ListsOk(procs[p]) && procs[p].returned <= 1 && procs[p].parent != Some(p)
    && (forall c: Pid :: Listed(procs[p], c) ==> c < |procs| && procs[c].parent == Some(p) && procs[c].returned == 0)
    && (forall c: Pid :: InZombies(procs[p], c) && c < |procs| ==> procs[c].emptied && procs[c].closed)
    && (procs[p].returned > 0 ==> procs[p].emptied && procs[p].closed)
  }

  predicate InGroup(pc: Pc) {
    pc == Live || pc == Execing || pc == Leaving
  }

  ghost predicate ThreadOk(procs: seq<Proc>, threads: seq<Thread>, t: Tid)
    requires t < |threads|
  {
    var th := threads[t];
    && th.proc < |procs|
    && (t in procs[th.proc].members <==> InGroup(th.pc))
    && (th.pc == Execing ==> procs[th.proc].exec)
    && (th.pc == Emptied || th.pc == Closed ==> procs[th.proc].emptied)
    && (th.pc == Closed ==> procs[th.proc].closed)
  }

  ghost predicate GroupOk(procs: seq<Proc>, threads: seq<Thread>, p: Pid)
    requires p < |procs|
  {
    && Distinct(procs[p].members)
    && (forall t :: t in procs[p].members ==> t < |threads| && threads[t].proc == p)
    && (forall t :: procs[p].leader == Some(t) ==> t in procs[p].members)
  }

  /** At most one thread of a process is inside exec. */
  ghost predicate OneExec(threads: seq<Thread>) {
    forall t, u :: 0 <= t < u < |threads| && threads[t].pc == Execing && threads[u].pc == Execing ==>
      threads[t].proc != threads[u].proc
  }

  ghost predicate Inv(s: State) {
    && !s.fault
    && (forall p :: 0 <= p < |s.procs| ==> FamilyOk(s.procs, p) && GroupOk(s.procs, s.threads, p))
    && (forall t :: 0 <= t < |s.threads| ==> ThreadOk(s.procs, s.threads, t))
    && OneExec(s.threads)
  }

  // --------------------------------------------------------- steps on groups

  /** The family side of every process is as before; what has happened stays happened. */
  ghost predicate SameFamily(procs: seq<Proc>, procs': seq<Proc>) {
    && |procs| == |procs'|
    && forall p :: 0 <= p < |procs| ==> KinKept(procs[p], procs'[p])
  }

  predicate KinKept(a: Proc, b: Proc) {
    && b.parent == a.parent && b.children == a.children && b.zombies == a.zombies && b.returned == a.returned
    && (a.emptied ==> b.emptied) && (a.closed ==> b.closed)
  }

  lemma FamilyFrame(procs: seq<Proc>, procs': seq<Proc>, p: Pid)
    requires SameFamily(procs, procs') && p < |procs| && FamilyOk(procs, p)
    ensures FamilyOk(procs', p)
  {
    forall c: Pid | Listed(procs'[p], c)
      ensures c < |procs'| && procs'[c].parent == Some(p) && procs'[c].returned == 0
    {
      assert Listed(procs[p], c);
    }
    forall c: Pid | InZombies(procs'[p], c) && c < |procs'| ensures procs'[c].emptied && procs'[c].closed {
      assert InZombies(procs[p], c);
    }
  }

  /** The group side of every process is as before. */
  ghost predicate SameGroups(procs: seq<Proc>, procs': seq<Proc>) {
    && |procs| <= |procs'|
    && (forall p :: 0 <= p < |procs| ==> GroupKept(procs[p], procs'[p]))
    && (forall p :: |procs| <= p < |procs'| ==> procs'[p].members == [] && procs'[p].leader == None)
  }

  predicate GroupKept(a: Proc, b: Proc) {
    && b.members == a.members && b.leader == a.leader && b.exec == a.exec
    && (a.emptied ==> b.emptied) && (a.closed ==> b.closed)
  }

  lemma GroupFrame(procs: seq<Proc>, procs': seq<Proc>, threads: seq<Thread>)
    requires SameGroups(procs, procs')
    requires forall p :: 0 <= p < |procs| ==> GroupOk(procs, threads, p)
    requires forall t :: 0 <= t < |threads| ==> ThreadOk(procs, threads, t)
    ensures forall p :: 0 <= p < |procs'| ==> GroupOk(procs', threads, p)
    ensures forall t :: 0 <= t < |threads| ==> ThreadOk(procs', threads, t)
  {
    forall p | 0 <= p < |procs'| ensures GroupOk(procs', threads, p) {
      if p < |procs| { assert GroupOk(procs, threads, p) && GroupKept(procs[p], procs'[p]); }
    }
    forall t | 0 <= t < |threads| ensures ThreadOk(procs', threads, t) {
      assert ThreadOk(procs, threads, t) && GroupKept(procs[threads[t].proc], procs'[threads[t].proc]);
    }
  }

  /** A process changes its group, and one thread or none moves along. */
  lemma GroupMove(s: State, p: Pid, now: Proc, threads': seq<Thread>)
    requires Inv(s) && p < |s.procs| && KinKept(s.procs[p], now) && |s.threads| <= |threads'|
    requires GroupOk(s.procs[p := now], threads', p)
    requires forall t :: 0 <= t < |s.threads| ==>
      threads'[t].proc == s.threads[t].proc && (s.threads[t].proc != p ==> threads'[t] == s.threads[t])
    requires forall t :: 0 <= t < |threads'| ==>
      (if t < |s.threads| then s.threads[t].proc == p else threads'[t].proc == p) ==>
        ThreadOk(s.procs[p := now], threads', t)
    requires OneExec(threads') && forall t :: |s.threads| <= t < |threads'| ==> threads'[t].proc == p
    ensures Inv(State(s.procs[p := now], threads', false))
  {
    var procs' := s.procs[p := now];
    forall q | 0 <= q < |procs'| ensures FamilyOk(procs', q) && GroupOk(procs', threads', q) {
      FamilyFrame(s.procs, procs', q);
      assert GroupOk(s.procs, s.threads, q);
    }
    forall t | 0 <= t < |threads'| ensures ThreadOk(procs', threads', t) {
      if t < |s.threads| { assert ThreadOk(s.procs, s.threads, t); }
    }
  }

  lemma CreateKeeps(s: State, p: Pid, leader: Option<Tid>)
    requires Inv(s) && p < |s.procs|
    requires leader == s.procs[p].leader || (leader == Some(|s.threads|) && s.procs[p].members == [])
    ensures
      var now := s.procs[p].(leader := leader, members := s.procs[p].members + [|s.threads|]);
      Inv(SetProc(s, p, now).(threads := s.threads + [Thread(p, Live)]))
  {
    var t := |s.threads|;
    var now := s.procs[p].(leader := leader, members := s.procs[p].members + [t]);
    var threads' := s.threads + [Thread(p, Live)];
    assert GroupOk(s.procs, s.threads, p);
    assert t !in s.procs[p].members;
    forall i, j | 0 <= i < j < |now.members| ensures now.members[i] != now.members[j] {
      assert s.procs[p].members[i] in s.procs[p].members;
    }
    assert forall u :: u in now.members <==> u in s.procs[p].members || u == t;
    forall u | 0 <= u < |s.threads| && s.threads[u].proc == p ensures ThreadOk(s.procs[p := now], threads', u) {
      assert ThreadOk(s.procs, s.threads, u);
    }
    GroupMove(s, p, now, threads');
  }

  lemma ExecKeeps(s: State, t: Tid, begin: bool)
    requires Inv(s) && Alive(s, t)
    requires if begin then s.threads[t].pc == Live && !s.procs[s.threads[t].proc].exec else s.threads[t].pc == Execing
    ensures
      var p := s.threads[t].proc;
      && s.procs[p].exec != begin
      && Inv(SetPc(SetProc(s, p, s.procs[p].(exec := begin)), t, if begin then Execing else Live))
  {
    var p := s.threads[t].proc;
    var now := s.procs[p].(exec := begin);
    var threads' := s.threads[t := s.threads[t].(pc := if begin then Execing else Live)];
    assert ThreadOk(s.procs, s.threads, t);
    assert GroupOk(s.procs, s.threads, p);
    forall u | 0 <= u < |s.threads| && s.threads[u].proc == p ensures ThreadOk(s.procs[p := now], threads', u) {
      assert ThreadOk(s.procs, s.threads, u);
    }
    forall u | 0 <= u < |s.threads| && u != t && s.threads[u].pc == Execing ensures s.threads[u].proc != p {
      assert ThreadOk(s.procs, s.threads, u);
    }
    GroupMove(s, p, now, threads');
  }

  lemma SwapRemoved<T>(s: seq<T>, i: nat)
    requires i < |s| && Distinct(s)
    ensures Distinct(SwapRemove(s, i)) && forall x :: x in SwapRemove(s, i) <==> x in s && x != s[i]
  {
    var r := SwapRemove(s, i);
    forall j | 0 <= j < |r| ensures r[j] == if j == i then s[|s| - 1] else s[j] {}
    forall x | x in s && x != s[i] ensures x in r {
      var j :| 0 <= j < |s| && s[j] == x;
      assert r[if j == |s| - 1 then i else j] == x;
    }
  }

  lemma RemovedAt<T>(s: seq<T>, i: nat)
    requires i < |s| && Distinct(s)
    ensures Distinct(RemoveAt(s, i)) && forall x :: x in RemoveAt(s, i) <==> x in s && x != s[i]
  {
    var r := RemoveAt(s, i);
    forall j | 0 <= j < |r| ensures r[j] == if j < i then s[j] else s[j + 1] {}
    forall x | x in s && x != s[i] ensures x in r {
      var j :| 0 <= j < |s| && s[j] == x;
      assert r[if j < i then j else j - 1] == x;
    }
  }

  /** A process after thread `t` has left its group. */
  function Without(proc: Proc, t: Tid): Proc
    requires t in proc.members
  {
    var members := SwapRemove(proc.members, Position(proc.members, t));
    proc.(members := members, leader := if proc.leader == Some(t) then None else proc.leader,
          emptied := proc.emptied || members == [])
  }

  lemma WithoutMembers(proc: Proc, t: Tid)
    requires t in proc.members && Distinct(proc.members)
    ensures Distinct(Without(proc, t).members)
    ensures forall u :: u in Without(proc, t).members <==> u in proc.members && u != t
  {
    SwapRemoved(proc.members, Position(proc.members, t));
  }

  lemma DetachKeeps(s: State, t: Tid)
    requires Inv(s) && Alive(s, t) && s.threads[t].pc == Leaving
    ensures Inv(Detached(s, t))
  {
    var p := s.threads[t].proc;
    assert ThreadOk(s.procs, s.threads, t) && GroupOk(s.procs, s.threads, p);
    var now := Without(s.procs[p], t);
    var threads' := s.threads[t := s.threads[t].(pc := if now.members == [] then Emptied else Gone)];
    WithoutMembers(s.procs[p], t);
    forall u | 0 <= u < |s.threads| && s.threads[u].proc == p ensures ThreadOk(s.procs[p := now], threads', u) {
      assert ThreadOk(s.procs, s.threads, u);
    }
    GroupMove(s, p, now, threads');
  }

  // -------------------------------------------------------- steps on families

  /** A field of a process that concerns neither its members nor its family. */
  lemma MarkKeeps(s: State, p: Pid, now: Proc)
    requires Inv(s) && p < |s.procs| && KinKept(s.procs[p], now) && GroupKept(s.procs[p], now)
    ensures Inv(SetProc(s, p, now))
  {
    var procs' := s.procs[p := now];
    GroupFrame(s.procs, procs', s.threads);
    forall q | 0 <= q < |procs'| ensures FamilyOk(procs', q) {
      FamilyFrame(s.procs, procs', q);
    }
  }

  lemma PcKeeps(s: State, t: Tid, pc: Pc)
    requires Inv(s) && Alive(s, t)
    requires (s.threads[t].pc == Live && pc == Leaving) || (!InGroup(s.threads[t].pc) && pc == Gone)
             || (s.threads[t].pc == Emptied && pc == Closed && s.procs[s.threads[t].proc].closed)
    ensures Inv(SetPc(s, t, pc))
  {
    var threads' := s.threads[t := s.threads[t].(pc := pc)];
    assert ThreadOk(s.procs, s.threads, t);
    forall p | 0 <= p < |s.procs| ensures GroupOk(s.procs, threads', p) {
      assert GroupOk(s.procs, s.threads, p);
    }
    forall u | 0 <= u < |s.threads| ensures ThreadOk(s.procs, threads', u) {
      assert ThreadOk(s.procs, s.threads, u);
    }
  }

  /** A new process with no family of its own. */
  lemma SpawnKeeps(s: State, of: Option<Pid>)
    requires Inv(s) && (of.Some? ==> of.value < |s.procs|)
    ensures Inv(s.(procs := s.procs + [NEW.(parent := of)]))
  {
    var procs' := s.procs + [NEW.(parent := of)];
    GroupFrame(s.procs, procs', s.threads);
    forall q | 0 <= q < |procs'| ensures FamilyOk(procs', q) {
      if q < |s.procs| { Grown(s.procs, procs', q); }
    }
  }

  lemma Grown(procs: seq<Proc>, procs': seq<Proc>, q: Pid)
    requires q < |procs| <= |procs'| && FamilyOk(procs, q) && forall p :: 0 <= p < |procs| ==> procs'[p] == procs[p]
    ensures FamilyOk(procs', q)
  {
    forall c: Pid | Listed(procs'[q], c)
      ensures c < |procs'| && procs'[c].parent == Some(q) && procs'[c].returned == 0
    {
      assert Listed(procs[q], c);
    }
    forall c: Pid | InZombies(procs'[q], c) && c < |procs'| ensures procs'[c].emptied && procs'[c].closed {
      assert InZombies(procs[q], c) && Listed(procs[q], c);
    }
  }

  /** The lists of one process change; who was listed elsewhere is not affected. */
  lemma ListsMove(s: State, p: Pid, now: Proc)
    requires Inv(s) && p < |s.procs| && GroupKept(s.procs[p], now) && now.parent == s.procs[p].parent
    requires now.returned == s.procs[p].returned && now.emptied == s.procs[p].emptied && now.closed == s.procs[p].closed
    requires ListsOk(now)
    requires forall c: Pid :: Listed(now, c) ==>
      c < |s.procs| && s.procs[c].parent == Some(p) && s.procs[c].returned == 0
    requires forall c: Pid :: InZombies(now, c) && c < |s.procs| ==> s.procs[c].emptied && s.procs[c].closed
    ensures Inv(SetProc(s, p, now))
  {
    var procs' := s.procs[p := now];
    GroupFrame(s.procs, procs', s.threads);
    forall q | 0 <= q < |procs'| ensures FamilyOk(procs', q) {
      assert FamilyOk(s.procs, q);
    }
  }

  lemma ForkKeeps(s: State, p: Pid)
    requires Inv(s) && p < |s.procs|
    ensures Inv(Do(s, Fork(p)))
  {
    var n := |s.procs|;
    var s1 := s.(procs := s.procs + [NEW.(parent := Some(p))]);
    SpawnKeeps(s, Some(p));
    assert FamilyOk(s.procs, p);
    var now := s.procs[p].(children := s.procs[p].children + [n]);
    assert !Listed(s.procs[p], n);
    forall i | 0 <= i < |now.zombies| ensures now.zombies[i].pid != n {
      assert InZombies(s.procs[p], now.zombies[i].pid);
    }
    forall c: Pid | Listed(now, c)
      ensures c < |s1.procs| && s1.procs[c].parent == Some(p) && s1.procs[c].returned == 0
    {
      assert c == n || Listed(s.procs[p], c);
    }
    forall c: Pid | InZombies(now, c) && c < |s1.procs| ensures s1.procs[c].emptied && s1.procs[c].closed {
      assert InZombies(s.procs[p], c) && Listed(s.procs[p], c);
    }
    ListsMove(s1, p, now);
    assert Do(s, Fork(p)).procs == s1.procs[p := now];
  }

  /** Moving a child from the living to the dead. */
  lemma MarkedLists(parent: Proc, child: Pid, status: int, reserved: bool)
    requires ListsOk(parent)
    ensures ListsOk(MarkZombie(parent, child, status, reserved))
    ensures forall c: Pid :: Listed(MarkZombie(parent, child, status, reserved), c) ==> Listed(parent, c)
    ensures forall c: Pid :: InZombies(MarkZombie(parent, child, status, reserved), c) ==>
      InZombies(parent, c) || c == child
  {
    var i := Position(parent.children, child);
    if i < |parent.children| {
      RemovedAt(parent.children, i);
      var now := MarkZombie(parent, child, status, reserved);
      forall c: Pid | InZombies(now, c) ensures InZombies(parent, c) || c == child {
        var k :| 0 <= k < |now.zombies| && now.zombies[k].pid == c;
        if k < |parent.zombies| { assert parent.zombies[k].pid == c; }
      }
    }
  }

  lemma ReportKeeps(s: State, t: Tid, parentFound: bool, status: int, reserved: bool)
    requires Inv(s) && Enabled(s, Report(t, parentFound, status, reserved))
    ensures Inv(Do(s, Report(t, parentFound, status, reserved)))
  {
    var c := s.threads[t].proc;
    assert ThreadOk(s.procs, s.threads, t);
    PcKeeps(s, t, Gone);
    if parentFound && s.procs[c].parent.Some? && s.procs[c].parent.value < |s.procs| {
      var q := s.procs[c].parent.value;
      assert FamilyOk(s.procs, q);
      MarkedLists(s.procs[q], c, status, reserved);
      ListsMove(SetPc(s, t, Gone), q, MarkZombie(s.procs[q], c, status, reserved));
    }
  }

  lemma ZombieRemoved(proc: Proc, i: nat)
    requires ListsOk(proc) && i < |proc.zombies|
    ensures
      var now := proc.(zombies := RemoveAt(proc.zombies, i));
      && ListsOk(now) && !Listed(now, proc.zombies[i].pid)
      && (forall c: Pid :: Listed(now, c) ==> Listed(proc, c))
      && (forall c: Pid :: InZombies(now, c) ==> InZombies(proc, c))
  {
    var now := proc.(zombies := RemoveAt(proc.zombies, i));
    forall j | 0 <= j < |now.zombies|
      ensures now.zombies[j] == if j < i then proc.zombies[j] else proc.zombies[j + 1]
    {
    }
    forall c: Pid | InZombies(now, c) ensures InZombies(proc, c) && c != proc.zombies[i].pid {
      var k :| 0 <= k < |now.zombies| && now.zombies[k].pid == c;
      assert proc.zombies[if k < i then k else k + 1].pid == c;
    }
  }

  /** A child that nobody lists is counted as returned. */
  lemma ReturnKeeps(s: State, c: Pid)
    requires Inv(s) && c < |s.procs| && s.procs[c].returned == 0 && s.procs[c].emptied && s.procs[c].closed
    requires forall p :: 0 <= p < |s.procs| ==> !Listed(s.procs[p], c)
    ensures Inv(SetProc(s, c, s.procs[c].(returned := 1)))
  {
    var procs' := s.procs[c := s.procs[c].(returned := 1)];
    GroupFrame(s.procs, procs', s.threads);
    forall q | 0 <= q < |procs'| ensures FamilyOk(procs', q) {
      assert FamilyOk(s.procs, q) && !Listed(s.procs[q], c);
      forall x: Pid | Listed(procs'[q], x)
        ensures x < |procs'| && procs'[x].parent == Some(q) && procs'[x].returned == 0
      {
        assert Listed(s.procs[q], x);
      }
      forall x: Pid | InZombies(procs'[q], x) && x < |procs'| ensures procs'[x].emptied && procs'[x].closed {
        assert InZombies(s.procs[q], x) && Listed(s.procs[q], x);
      }
    }
  }

  lemma WaitKeeps(s: State, p: Pid, requested: int)
    requires Inv(s) && p < |s.procs|
    ensures Inv(Waited(s, p, requested))
  {
    var i := FindZombie(s.procs[p].zombies, requested);
    if i < |s.procs[p].zombies| {
      var c := s.procs[p].zombies[i].pid;
      assert FamilyOk(s.procs, p);
      assert InZombies(s.procs[p], c) && Listed(s.procs[p], c);
      ZombieRemoved(s.procs[p], i);
      var now := s.procs[p].(zombies := RemoveAt(s.procs[p].zombies, i));
      ListsMove(s, p, now);
      var s1 := SetProc(s, p, now);
      forall q | 0 <= q < |s1.procs| ensures !Listed(s1.procs[q], c) {
        assert FamilyOk(s.procs, q);
      }
      ReturnKeeps(s1, c);
    }
  }

  lemma StepKeeps(s: State, step: Step)
    requires Inv(s) && Enabled(s, step)
    ensures Inv(Do(s, step))
  {
    match step
    case Fork(p) => ForkKeeps(s, p);
    case Spawn(of) => SpawnKeeps(s, of);
    case CreateInitial(p) =>
      if s.procs[p].leader.None? && s.procs[p].members == [] {
        assert s.procs[p].members + [|s.threads|] == [|s.threads|];
        CreateKeeps(s, p, Some(|s.threads|));
      }
    case CreateThread(p) => CreateKeeps(s, p, s.procs[p].leader);
    case GroupExit(p) => MarkKeeps(s, p, s.procs[p].(exiting := true));
    case BeginExec(t) => if !s.procs[s.threads[t].proc].exec { ExecKeeps(s, t, true); }
    case FinishExec(t) => ExecKeeps(s, t, false);
    case Leave(t) => PcKeeps(s, t, Leaving);
    case Detach(t) => DetachKeeps(s, t);
    case CloseFiles(t) =>
      var p := s.threads[t].proc;
      MarkKeeps(s, p, s.procs[p].(closed := true));
      PcKeeps(SetProc(s, p, s.procs[p].(closed := true)), t, Closed);
    case Report(t, parentFound, status, reserved) => ReportKeeps(s, t, parentFound, status, reserved);
    case Wait(p, requested) => WaitKeeps(s, p, requested);
  }

  // ------------------------------------------------------------------ runs

  ghost predicate Runs(s: State, steps: seq<Step>, t: State)
    decreases |steps|
  {
    if steps == [] then s == t else Enabled(s, steps[0]) && Runs(Do(s, steps[0]), steps[1..], t)
  }

  ghost predicate Reachable(t: State) {
    exists s, steps :: Init(s) && Runs(s, steps, t)
  }

  lemma {:induction false} RunsKeep(s: State, steps: seq<Step>, t: State)
    requires Inv(s) && Runs(s, steps, t)
    ensures Inv(t)
    decreases |steps|
  {
    if steps != [] {
      StepKeeps(s, steps[0]);
      RunsKeep(Do(s, steps[0]), steps[1..], t);
    }
  }

  lemma ReachableInv(t: State)
    requires Reachable(t)
    ensures Inv(t)
  {
    var s, steps :| Init(s) && Runs(s, steps, t);
    RunsKeep(s, steps, t);
  }

  /** The assertions of `finish_exec` and of the thread destructor never fail. */
  lemma NoFault(s: State)
    requires Reachable(s)
    ensures !s.fault
  {
    ReachableInv(s);
  }

  /** A child is listed at most once, by its parent, and never after it was returned. */
  lemma ListedOnce(s: State, p: Pid, q: Pid, c: Pid)
    requires Reachable(s) && p < |s.procs| && q < |s.procs| && Listed(s.procs[p], c)
    ensures Listed(s.procs[q], c) ==> p == q
    ensures !(c in s.procs[p].children && InZombies(s.procs[p], c))
    ensures c < |s.procs| && s.procs[c].parent == Some(p) && s.procs[c].returned == 0
  {
    ReachableInv(s);
    assert FamilyOk(s.procs, p) && FamilyOk(s.procs, q);
  }

  /** A child is returned at most once, and only after its group was empty and its descriptors were closed. */
  lemma ReturnedOnceAndDead(s: State, c: Pid)
    requires Reachable(s) && c < |s.procs|
    ensures s.procs[c].returned <= 1 && (s.procs[c].returned == 1 ==> s.procs[c].emptied && s.procs[c].closed)
  {
    ReachableInv(s);
    assert FamilyOk(s.procs, c);
  }

  /** What `wait_zombie_child` hands out at this moment is dead and closed. */
  lemma WaitReturnsDead(s: State, p: Pid, requested: int)
    requires Reachable(s) && p < |s.procs|
    ensures
      var i := FindZombie(s.procs[p].zombies, requested);
      i < |s.procs[p].zombies| ==>
        var c := s.procs[p].zombies[i].pid;
        && c < |s.procs| && s.procs[c].emptied && s.procs[c].closed && s.procs[c].returned == 0
        && Do(s, Wait(p, requested)).procs[c].returned == 1
  {
    ReachableInv(s);
    assert FamilyOk(s.procs, p);
    var i := FindZombie(s.procs[p].zombies, requested);
    if i < |s.procs[p].zombies| {
      assert InZombies(s.procs[p], s.procs[p].zombies[i].pid) && Listed(s.procs[p], s.procs[p].zombies[i].pid);
    }
  }

  // -------------------------------------------------- dead groups stay dead

  /** A group that was empty once is empty now. */
  ghost predicate DeadIsEmpty(s: State) {
    forall p :: 0 <= p < |s.procs| && s.procs[p].emptied ==> s.procs[p].members == []
  }

  /** Only `create_initial_thread` puts a thread into an empty group. */
  lemma OnlyInitialRefills(s: State, step: Step, p: Pid)
    requires Inv(s) && Enabled(s, step) && p < |s.procs| && s.procs[p].members == [] && step != CreateInitial(p)
    ensures p < |Do(s, step).procs| && Do(s, step).procs[p].members == []
  {
    assert GroupOk(s.procs, s.threads, p);
    if step.Detach? {
      assert ThreadOk(s.procs, s.threads, step.tid);
    }
  }

  /** No initial thread is created for a process that was dead already. */
  predicate Revives(s: State, step: Step) {
    step.CreateInitial? && step.pid < |s.procs| && s.procs[step.pid].emptied
  }

  lemma DeathStep(s: State, step: Step)
    requires Inv(s) && DeadIsEmpty(s) && Enabled(s, step) && !Revives(s, step)
    ensures DeadIsEmpty(Do(s, step))
  {
    var s' := Do(s, step);
    forall p | 0 <= p < |s'.procs| && s'.procs[p].emptied
      ensures s'.procs[p].members == []
    {
      if p < |s.procs| && s.procs[p].emptied {
        OnlyInitialRefills(s, step, p);
      }
    }
  }

  /** A run in which no dead process gets an initial thread. */
  ghost predicate RunsPlainly(s: State, steps: seq<Step>, t: State)
    decreases |steps|
  {
    if steps == [] then s == t
    else
      && Enabled(s, steps[0]) && !Revives(s, steps[0])
      && RunsPlainly(Do(s, steps[0]), steps[1..], t)
  }

  lemma {:induction false} DeadStaysDead(s: State, steps: seq<Step>, t: State)
    requires Inv(s) && DeadIsEmpty(s) && RunsPlainly(s, steps, t)
    ensures Inv(t) && DeadIsEmpty(t) && Runs(s, steps, t)
    decreases |steps|
  {
    if steps != [] {
      StepKeeps(s, steps[0]);
      DeathStep(s, steps[0]);
      DeadStaysDead(Do(s, steps[0]), steps[1..], t);
    }
  }

  /** In such runs the group of whatever `wait_zombie_child` hands out is empty at that moment. */
  lemma WaitReturnsEmpty(init: State, steps: seq<Step>, s: State, p: Pid, requested: int)
    requires Init(init) && RunsPlainly(init, steps, s) && p < |s.procs|
    ensures
      var i := FindZombie(s.procs[p].zombies, requested);
      i < |s.procs[p].zombies| ==>
        var c := s.procs[p].zombies[i].pid;
        && c < |s.procs| && s.procs[c].members == [] && s.procs[c].leader == None
        && s.procs[c].closed && s.procs[c].returned == 0
  {
    DeadStaysDead(init, steps, s);
    WaitReturnsDead(s, p, requested);
    var i := FindZombie(s.procs[p].zombies, requested);
    if i < |s.procs[p].zombies| {
      assert GroupOk(s.procs, s.threads, s.procs[p].zombies[i].pid);
    }
  }

  lemma {:induction false} RunsOn(s: State, steps: seq<Step>, t: State, step: Step)
    requires Runs(s, steps, t) && Enabled(t, step)
    ensures Runs(s, steps + [step], Do(t, step))
    decreases |steps|
  {
    if steps != [] {
      RunsOn(Do(s, steps[0]), steps[1..], t, step);
      assert (steps + [step])[1..] == steps[1..] + [step];
    }
  }

  lemma Onward(s: State, step: Step)
    requires Reachable(s) && Enabled(s, step)
    ensures Reachable(Do(s, step))
  {
    var init, steps :| Init(init) && Runs(init, steps, s);
    RunsOn(init, steps, s, step);
  }

  /** A first process and its child, whose only thread is about to leave. */
  lemma LeavingChild() returns (s: State)
    ensures Reachable(s) && s.threads == [Thread(1, Leaving)] && |s.procs| == 2
    ensures s.procs[0].children == [1] && s.procs[0].zombies == []
    ensures s.procs[1] == NEW.(leader := Some(0), members := [0], parent := Some(0))
  {
    s := State([], [], false);
    assert Runs(s, [], s);
    Onward(s, Spawn(None));
    s := Do(s, Spawn(None));
    Onward(s, Fork(0));
    s := Do(s, Fork(0));
    Onward(s, CreateInitial(1));
    s := Do(s, CreateInitial(1));
    Onward(s, Leave(0));
    s := Do(s, Leave(0));
  }

  /** The child after it has left and reported. */
  lemma ReportedChild() returns (s: State)
    ensures Reachable(s) && |s.procs| == 2 && s.procs[0].zombies == [Zombie(1, 0)]
    ensures s.procs[1].leader == None && s.procs[1].members == [] && s.procs[1].emptied
  {
    s := LeavingChild();
    Onward(s, Detach(0));
    s := Do(s, Detach(0));
    assert s.procs[1].members == [] && s.threads == [Thread(1, Emptied)];
    Onward(s, CloseFiles(0));
    s := Do(s, CloseFiles(0));
    Onward(s, Report(0, true, 0, true));
    s := Do(s, Report(0, true, 0, true));
  }

  /** With a new initial thread it is handed out with a group that is not empty: the condition is needed. */
  lemma RevivedChild() returns (s: State)
    ensures Reachable(s) && |s.procs| == 2 && s.procs[0].zombies == [Zombie(1, 0)] && s.procs[1].members != []
  {
    s := ReportedChild();
    Onward(s, CreateInitial(1));
    s := Do(s, CreateInitial(1));
  }

  // ------------------------------------------------------------------- exec

  /** While a thread of `p` is inside exec no other thread is, and creating a thread fails. */
  lemma ExecExcludes(s: State, t: Tid, u: Tid)
    requires Reachable(s) && t < |s.threads| && s.threads[t].pc == Execing
    ensures s.threads[t].proc < |s.procs| && s.procs[s.threads[t].proc].exec
    ensures u < |s.threads| && u != t && s.threads[u].proc == s.threads[t].proc ==> s.threads[u].pc != Execing
    ensures Do(s, CreateThread(s.threads[t].proc)) == s
  {
    ReachableInv(s);
    assert ThreadOk(s.procs, s.threads, t);
  }

  ghost predicate Shrinks(a: seq<Tid>, b: seq<Tid>) {
    forall x :: x in b ==> x in a
  }

  /** One step while a thread of `p` stays inside exec. */
  lemma ExecStep(s: State, step: Step, t: Tid)
    requires Inv(s) && Enabled(s, step) && t < |s.threads| && s.threads[t].pc == Execing && step != FinishExec(t)
    ensures
      var p, s' := s.threads[t].proc, Do(s, step);
      && p < |s.procs| <= |s'.procs| && t < |s'.threads| && s'.threads[t] == s.threads[t]
      && Shrinks(s.procs[p].members, s'.procs[p].members)
  {
    assert ThreadOk(s.procs, s.threads, t) && GroupOk(s.procs, s.threads, s.threads[t].proc);
    if step.Detach? {
      var q := s.threads[step.tid].proc;
      assert ThreadOk(s.procs, s.threads, step.tid) && GroupOk(s.procs, s.threads, q);
      WithoutMembers(s.procs[q], step.tid);
    }
  }

  /** From a successful `begin_exec` to `finish_exec` the group only shrinks, whatever else happens. */
  lemma {:induction false} ExecShrinks(s: State, steps: seq<Step>, t: Tid, s': State)
    requires Inv(s) && Runs(s, steps, s') && t < |s.threads| && s.threads[t].pc == Execing
    requires forall i :: 0 <= i < |steps| ==> steps[i] != FinishExec(t)
    ensures
      var p := s.threads[t].proc;
      && p < |s.procs| <= |s'.procs| && t < |s'.threads| && s'.threads[t] == s.threads[t]
      && Shrinks(s.procs[p].members, s'.procs[p].members)
    decreases |steps|
  {
    assert ThreadOk(s.procs, s.threads, t);
    if steps != [] {
      ExecStep(s, steps[0], t);
      StepKeeps(s, steps[0]);
      ExecShrinks(Do(s, steps[0]), steps[1..], t, s');
    }
  }

  /** One step after a group exit has begun in `p`. */
  lemma ExitStep(s: State, step: Step, p: Pid)
    requires Inv(s) && Enabled(s, step) && p < |s.procs| && s.procs[p].exiting && step != CreateInitial(p)
    ensures
      var s' := Do(s, step);
      p < |s'.procs| && s'.procs[p].exiting && Shrinks(s.procs[p].members, s'.procs[p].members)
  {
    if step.Detach? {
      var q := s.threads[step.tid].proc;
      assert ThreadOk(s.procs, s.threads, step.tid) && GroupOk(s.procs, s.threads, q);
      WithoutMembers(s.procs[q], step.tid);
    }
  }

  /** Once a group exit has begun no thread joins the group any more. */
  lemma {:induction false} ExitShrinks(s: State, steps: seq<Step>, p: Pid, s': State)
    requires Inv(s) && Runs(s, steps, s') && p < |s.procs| && s.procs[p].exiting
    requires forall i :: 0 <= i < |steps| ==> steps[i] != CreateInitial(p)
    ensures p < |s'.procs| && s'.procs[p].exiting && Shrinks(s.procs[p].members, s'.procs[p].members)
    decreases |steps|
  {
    if steps != [] {
      ExitStep(s, steps[0], p);
      StepKeeps(s, steps[0]);
      ExitShrinks(Do(s, steps[0]), steps[1..], p, s');
    }
  }

  /** A thread can be created exactly in a group that has its leader and neither exits nor execs. */
  lemma CreateThreadExactly(s: State, p: Pid)
    requires p < |s.procs|
    ensures
      var s' := Do(s, CreateThread(p));
      if s.procs[p].leader.Some? && !s.procs[p].exiting && !s.procs[p].exec then
        s' == State(s.procs[p := s.procs[p].(members := s.procs[p].members + [|s.threads|])],
                    s.threads + [Thread(p, Live)], s.fault)
      else s' == s
  {
  }

  // ----------------------------------------------- from a report to a wait

  /** What a wait for `requested` hands out, if anything. */
  function Handed(zs: seq<Zombie>, requested: int): Option<Zombie> {
    var i := FindZombie(zs, requested);
    if i < |zs| then Some(zs[i]) else None
  }

  /** A fork makes one process, the youngest child of the one that forks, with nothing dead or returned yet. */
  lemma ForkMakesChild(s: State, p: Pid)
    requires p < |s.procs|
    ensures
      var s', c := Do(s, Fork(p)), |s.procs|;
      && |s'.procs| == c + 1 && s'.procs[c].parent == Some(p) && s'.procs[c].returned == 0
      && !s'.procs[c].emptied && s'.procs[c].members == [] && s'.procs[c].children == [] && s'.procs[c].zombies == []
      && s'.procs[p].children == s.procs[p].children + [c] && s'.procs[p].zombies == s.procs[p].zombies
      && s'.threads == s.threads && forall q :: 0 <= q < c && q != p ==> s'.procs[q] == s.procs[q]
  {
  }

  /** A living child stays on its parent's list until a thread of its own reports. */
  lemma ChildStep(s: State, step: Step, p: Pid, c: Pid)
    requires Inv(s) && Enabled(s, step) && p < |s.procs| && c in s.procs[p].children
    requires step.Report? ==> s.threads[step.tid].proc != c
    ensures p < |Do(s, step).procs| && c in Do(s, step).procs[p].children
  {
    assert FamilyOk(s.procs, p);
    if step.Report? {
      var q := s.threads[step.tid].proc;
      var i := Position(s.procs[p].children, q);
      if i < |s.procs[p].children| {
        RemovedAt(s.procs[p].children, i);
      }
    }
  }

  ghost predicate Silent(s: State, steps: seq<Step>, c: Pid)
    decreases |steps|
  {
    steps != [] && Enabled(s, steps[0]) ==>
      && (steps[0].Report? ==> s.threads[steps[0].tid].proc != c)
      && Silent(Do(s, steps[0]), steps[1..], c)
  }

  lemma {:induction false} ChildStays(s: State, steps: seq<Step>, t: State, p: Pid, c: Pid)
    requires Inv(s) && Runs(s, steps, t) && p < |s.procs| && c in s.procs[p].children && Silent(s, steps, c)
    ensures p < |t.procs| && c in t.procs[p].children
    decreases |steps|
  {
    if steps != [] {
      ChildStep(s, steps[0], p, c);
      StepKeeps(s, steps[0]);
      ChildStays(Do(s, steps[0]), steps[1..], t, p, c);
    }
  }

  /** A report moves the child, with its status, from the living to the end of the dead; without memory it is lost. */
  lemma ReportHandsOver(parent: Proc, child: Pid, status: int, reserved: bool)
    requires ListsOk(parent)
    ensures
      var now := MarkZombie(parent, child, status, reserved);
      && now == parent.(children := now.children, zombies := now.zombies)
      && (forall c: Pid :: c in now.children <==> c in parent.children && c != child)
      && now.zombies ==
           if child in parent.children && reserved then parent.zombies + [Zombie(child, status)] else parent.zombies
  {
    var i := Position(parent.children, child);
    if i < |parent.children| {
      RemovedAt(parent.children, i);
    }
  }

  /** A wait takes the first dead child that matches out of the list and leaves the others in their order. */
  lemma WaitTakesFirst(s: State, p: Pid, requested: int) returns (i: nat)
    requires Inv(s) && p < |s.procs|
    ensures
      var zs, now := s.procs[p].zombies, Do(s, Wait(p, requested)).procs[p].zombies;
      && i <= |zs| && i <= |now| && (forall j :: 0 <= j < i ==> !Matches(zs[j], requested))
      && (if i == |zs| then Handed(zs, requested) == None && Do(s, Wait(p, requested)) == s
          else
            && Matches(zs[i], requested) && Handed(zs, requested) == Some(zs[i])
            && zs == now[..i] + [zs[i]] + now[i..])
  {
    i := FindZombie(s.procs[p].zombies, requested);
    assert FamilyOk(s.procs, p);
    if i < |s.procs[p].zombies| {
      assert InZombies(s.procs[p], s.procs[p].zombies[i].pid) && Listed(s.procs[p], s.procs[p].zombies[i].pid);
    }
  }

  lemma OthersRemain<T>(s: seq<T>, i: nat, x: T)
    requires i < |s| && x in s
    ensures x == s[i] || x in RemoveAt(s, i)
  {
    var j :| 0 <= j < |s| && s[j] == x;
    assert j < i ==> RemoveAt(s, i)[j] == x;
    assert j > i ==> RemoveAt(s, i)[j - 1] == x;
  }

  lemma WaitStep(s: State, p: Pid, requested: int, q: Pid, z: Zombie)
    requires Inv(s) && p < |s.procs| && q < |s.procs|
    ensures
      var now := Waited(s, p, requested);
      && |now.procs| == |s.procs|
      && (z in s.procs[q].zombies ==>
            z in now.procs[q].zombies || (z.pid < |now.procs| && now.procs[z.pid].returned > 0))
      && (z in now.procs[q].zombies ==> z in s.procs[q].zombies)
  {
    var i := FindZombie(s.procs[p].zombies, requested);
    assert FamilyOk(s.procs, p);
    if i < |s.procs[p].zombies| {
      assert InZombies(s.procs[p], s.procs[p].zombies[i].pid) && Listed(s.procs[p], s.procs[p].zombies[i].pid);
      if q == p && z in s.procs[q].zombies {
        OthersRemain(s.procs[p].zombies, i, z);
      }
    }
  }

  /** A dead child is where it was until a wait returns it, and only a report of its own brings it there. */
  lemma ZombieStep(s: State, step: Step, p: Pid, z: Zombie)
    requires Inv(s) && Enabled(s, step) && p < |Do(s, step).procs|
    ensures p < |s.procs| && z in s.procs[p].zombies ==>
      z in Do(s, step).procs[p].zombies || (z.pid < |Do(s, step).procs| && Do(s, step).procs[z.pid].returned > 0)
    ensures z in Do(s, step).procs[p].zombies ==>
      (p < |s.procs| && z in s.procs[p].zombies) || Brings(s, step, p, z)
  {
    if step.Wait? {
      WaitStep(s, step.pid, step.requested, p, z);
    }
  }

  lemma ReturnedStays(s: State, step: Step, c: Pid)
    requires Enabled(s, step) && c < |s.procs|
    ensures c < |Do(s, step).procs| && s.procs[c].returned <= Do(s, step).procs[c].returned
  {
  }

  lemma {:induction false} NeverUnreturned(s: State, steps: seq<Step>, t: State, c: Pid)
    requires Runs(s, steps, t) && c < |s.procs|
    ensures c < |t.procs| && s.procs[c].returned <= t.procs[c].returned
    decreases |steps|
  {
    if steps != [] {
      ReturnedStays(s, steps[0], c);
      NeverUnreturned(Do(s, steps[0]), steps[1..], t, c);
    }
  }

  /** A dead child waits for its parent's `wait` with its status, however long that takes. */
  lemma {:induction false} ZombieStays(s: State, steps: seq<Step>, t: State, p: Pid, z: Zombie)
    requires Inv(s) && Runs(s, steps, t) && p < |s.procs| && z in s.procs[p].zombies
    ensures p < |t.procs| && z.pid < |t.procs|
    ensures z in t.procs[p].zombies || t.procs[z.pid].returned > 0
    decreases |steps|
  {
    assert FamilyOk(s.procs, p) && InZombies(s.procs[p], z.pid) && Listed(s.procs[p], z.pid);
    if steps != [] {
      var now := Do(s, steps[0]);
      ReturnedStays(s, steps[0], p);
      ReturnedStays(s, steps[0], z.pid);
      StepKeeps(s, steps[0]);
      ZombieStep(s, steps[0], p, z);
      if z in now.procs[p].zombies {
        ZombieStays(now, steps[1..], t, p, z);
      } else {
        NeverUnreturned(now, steps[1..], t, z.pid);
        NeverUnreturned(now, steps[1..], t, p);
      }
    }
  }

  /**
   The status a child reports is the one its parent's wait for it hands out, in
   whatever state `t` follows, as long as no wait has returned the child.
   */
  lemma StatusArrives(s: State, tid: Tid, status: int, steps: seq<Step>, t: State)
    requires Reachable(s) && Enabled(s, Report(tid, true, status, true))
    requires
      var c := s.threads[tid].proc;
      && s.procs[c].parent.Some? && s.procs[c].parent.value < |s.procs|
      && c in s.procs[s.procs[c].parent.value].children
    requires Runs(Do(s, Report(tid, true, status, true)), steps, t)
    requires s.threads[tid].proc < |t.procs| ==> t.procs[s.threads[tid].proc].returned == 0
    ensures
      var c := s.threads[tid].proc;
      var p := s.procs[c].parent.value;
      p < |t.procs| && Handed(t.procs[p].zombies, c) == Some(Zombie(c, status))
  {
    var c := s.threads[tid].proc;
    var p := s.procs[c].parent.value;
    var u := Do(s, Report(tid, true, status, true));
    ReachableInv(s);
    assert FamilyOk(s.procs, p);
    ReportHandsOver(s.procs[p], c, status, true);
    StepKeeps(s, Report(tid, true, status, true));
    ZombieStays(u, steps, t, p, Zombie(c, status));
    RunsKeep(u, steps, t);
    assert FamilyOk(t.procs, p);
    OnlyMatch(t.procs[p], Zombie(c, status));
  }

  /** A wait for one child hands out that child's entry. */
  lemma OnlyMatch(proc: Proc, z: Zombie)
    requires ListsOk(proc) && z in proc.zombies
    ensures Handed(proc.zombies, z.pid) == Some(z)
  {
    var j :| 0 <= j < |proc.zombies| && proc.zombies[j] == z;
    var i := FindZombie(proc.zombies, z.pid);
    assert Matches(proc.zombies[j], z.pid);
    assert proc.zombies[i].pid == proc.zombies[j].pid;
  }

  /** Every status a wait can hand out was reported by a thread of that child, to that parent. */
  lemma {:induction false} StatusWasReported(s: State, steps: seq<Step>, t: State, p: Pid, z: Zombie)
    returns (i: nat, u: State)
    requires Inv(s) && Runs(s, steps, t) && p < |t.procs| && z in t.procs[p].zombies
    requires p < |s.procs| ==> z !in s.procs[p].zombies
    ensures i < |steps| && Runs(s, steps[..i], u) && Brings(u, steps[i], p, z)
    decreases |steps|
  {
    var now := Do(s, steps[0]);
    StepKeeps(s, steps[0]);
    if p < |now.procs| && z in now.procs[p].zombies {
      ZombieStep(s, steps[0], p, z);
      i, u := 0, s;
    } else {
      i, u := StatusWasReported(now, steps[1..], t, p, z);
      i := i + 1;
      assert steps[..i][1..] == steps[1..][..i - 1];
    }
  }

  /** The step reports the death of `z.pid` with the status `z.status` to `p`. */
  predicate Brings(s: State, step: Step, p: Pid, z: Zombie) {
    && step.Report? && step.parentFound && step.reserved && step.status == z.status
    && Alive(s, step.tid) && s.threads[step.tid].proc == z.pid && s.procs[z.pid].parent == Some(p)
  }
}
