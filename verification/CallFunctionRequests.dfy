/**
 What one caller of `call_many` gets: the job and the targets it asked for are
 the ones its request carries until it returns, and the faults it can meet are
 its own.
 */
module CallFunctionRequests {
  import opened Lifecycle
  import opened CallFunction
  import opened CallFunctionSafety
  import opened Machine

  /** The task is inside `call_many(targets, job)`. */
  predicate Serves(pc: Pc, job: Job, targets: set<nat>) {
    match pc
    case Idle => false
    case Scan(j, ts, _, _) => j == job && ts == targets
    case Reserve(j, ts, _) => j == job && ts == targets
    case Generate(j, ts, _) => j == job && ts == targets
    case Call(frame, _) => frame.payload.job == job && frame.payload.targets == targets
    case Notify(_, _, _) => false
  }

  /** The request has a generation handed out after `start`. */
  predicate NewerThan(pc: Pc, start: nat) {
    pc.Call? ==> start < pc.frame.payload.generation
  }

  lemma BeginServes(s: State, t: nat, targets: set<nat>, job: Job)
    requires Enabled(s, BeginCall(t, targets, job)) && Do(s, BeginCall(t, targets, job)).fault.NoFault?
    ensures
      var r := Do(s, BeginCall(t, targets, job));
      && Serves(r.tasks[t].pc, job, targets) && NewerThan(r.tasks[t].pc, s.generation)
      && r.generation == s.generation && r.ran == s.ran
  {
  }

  /** The step gives the request up: its slot is released and its payload recorded. */
  ghost predicate Releases(s: State, step: Step, t: nat) {
    && Enabled(s, step) && step == TaskStep(t) && t < |s.tasks| && s.tasks[t].pc.Call?
    && var p := s.tasks[t].pc.frame.payload;
       Do(s, step).finished == s.finished[p.generation := p]
  }

  /** The step is one of the task's own. */
  predicate Moves(step: Step, t: nat) {
    || (step.BeginCall? && step.task == t)
    || (step.BeginNotify? && step.task == t)
    || step == TaskStep(t)
  }

  lemma SendMovesOne(s: State, t: nat, u: nat)
    requires Shape(s) && t < |s.tasks| && s.tasks[t].pc.Call? && s.tasks[t].pc.phase.Send?
    requires u < |s.tasks| && u != t
    ensures CallStep(s, t).tasks[u] == s.tasks[u]
  {
  }

  lemma CallMovesOne(s: State, t: nat, u: nat)
    requires Shape(s) && t < |s.tasks| && s.tasks[t].pc.Call? && u < |s.tasks| && u != t
    ensures CallStep(s, t).tasks[u] == s.tasks[u]
  {
    if s.tasks[t].pc.phase.Send? {
      SendMovesOne(s, t, u);
    }
  }

  lemma HandlerMovesNone(s: State, c: nat)
    requires Shape(s) && c < |s.cpus| && !s.handlers[c].Resting?
    ensures
      var r := HandlerDo(s, c);
      r.tasks == s.tasks && r.generation == s.generation && r.finished == s.finished
  {
  }

  lemma OthersStay(s: State, step: Step, t: nat)
    requires Enabled(s, step) && t < |s.tasks| && !Moves(step, t)
    ensures t < |Do(s, step).tasks| && Do(s, step).tasks[t] == s.tasks[t]
  {
    match step
    case HandlerStep(c) => HandlerMovesNone(s, c);
    case TaskStep(u) => if s.tasks[u].pc.Call? { CallMovesOne(s, u, t); }
    case _ =>
  }

  lemma GenerationGrows(s: State, step: Step)
    requires Inv(s) && Enabled(s, step)
    ensures s.generation <= Do(s, step).generation
  {
    assert s.generation < GENERATIONS;
  }

  lemma PrepareServes(s: State, t: nat, job: Job, targets: set<nat>)
    requires Shape(s) && t < |s.tasks| && Serves(s.tasks[t].pc, job, targets) && !s.tasks[t].pc.Call?
    ensures
      var r := PrepareStep(s, t);
      && Serves(r.tasks[t].pc, job, targets)
      && (s.generation < GENERATIONS ==> NewerThan(r.tasks[t].pc, s.generation))
  {
  }

  lemma SendKeepsFrame(s: State, t: nat)
    requires Shape(s) && t < |s.tasks| && s.tasks[t].pc.Call? && s.tasks[t].pc.phase.Send?
    ensures
      var pc := CallStep(s, t).tasks[t].pc;
      pc.Call? && pc.frame == s.tasks[t].pc.frame
  {
  }

  lemma CallKeepsFrame(s: State, t: nat)
    requires Shape(s) && t < |s.tasks| && s.tasks[t].pc.Call?
    ensures
      var pc, p := CallStep(s, t).tasks[t].pc, s.tasks[t].pc.frame.payload;
      if pc.Idle? then CallStep(s, t).finished == s.finished[p.generation := p]
      else pc.Call? && pc.frame == s.tasks[t].pc.frame
  {
    if s.tasks[t].pc.phase.Send? {
      SendKeepsFrame(s, t);
    }
  }

  /** Whatever step is taken, a request is carried on or released. */
  lemma StepServes(s: State, step: Step, t: nat, job: Job, targets: set<nat>, start: nat)
    requires Inv(s) && Enabled(s, step) && t < |s.tasks|
    requires Serves(s.tasks[t].pc, job, targets) && NewerThan(s.tasks[t].pc, start) && start <= s.generation
    ensures
      var r := Do(s, step);
      && t < |r.tasks|
      && start <= r.generation
      && (if r.tasks[t].pc.Idle? then Releases(s, step, t)
          else Serves(r.tasks[t].pc, job, targets) && NewerThan(r.tasks[t].pc, start))
  {
    GenerationGrows(s, step);
    if !Moves(step, t) {
      OthersStay(s, step, t);
    } else if s.tasks[t].pc.Call? {
      CallKeepsFrame(s, t);
    } else {
      PrepareServes(s, t, job, targets);
      assert s.generation < GENERATIONS;
    }
  }

  /** Step `i` is the call, and the task has not been idle again up to state `k`. */
  ghost predicate Since(trace: seq<State>, steps: seq<Step>, i: nat, k: nat, t: nat, targets: set<nat>, job: Job) {
    && Behaviour(trace, steps) && i < k < |trace|
    && steps[i] == BeginCall(t, targets, job) && trace[i + 1].fault.NoFault?
    && forall j :: i + 1 < j <= k ==> t < |trace[j].tasks| && !trace[j].tasks[t].pc.Idle?
  }

  /** From the call on until it returns the task carries the job and the targets it was called with. */
  lemma {:induction false} CarriesItsRequest(trace: seq<State>, steps: seq<Step>, i: nat, k: nat,
                                             t: nat, targets: set<nat>, job: Job)
    requires Since(trace, steps, i, k, t, targets, job)
    ensures t < |trace[k].tasks| && Serves(trace[k].tasks[t].pc, job, targets)
    ensures NewerThan(trace[k].tasks[t].pc, trace[i].generation)
    ensures trace[i].generation <= trace[k].generation
    decreases k
  {
    assert Enabled(trace[k - 1], steps[k - 1]);
    if k == i + 1 {
      BeginServes(trace[i], t, targets, job);
    } else {
      CarriesItsRequest(trace, steps, i, k - 1, t, targets, job);
      EveryState(trace, steps, k - 1);
      StepServes(trace[k - 1], steps[k - 1], t, job, targets, trace[i].generation);
    }
  }

  /**
   When the call returns, its job has run exactly once on every one of its
   targets and on no other CPU, and none of these runs is older than the call.
   */
  lemma CallReturns(trace: seq<State>, steps: seq<Step>, i: nat, k: nat, t: nat, targets: set<nat>, job: Job, c: nat)
    returns (g: nat)
    requires Since(trace, steps, i, k, t, targets, job) && k < |steps| && c < |trace[i].cpus|
    requires t < |trace[k + 1].tasks| && trace[k + 1].tasks[t].pc.Idle?
    ensures steps[k] == TaskStep(t) && trace[k + 1].fault.NoFault?
    ensures g !in trace[k].finished && trace[k + 1].finished == trace[k].finished[g := Payload(job, targets, g)]
    ensures Ran(trace[k + 1].ran, g, c) == if c in targets then [job] else []
    ensures Ran(trace[i].ran, g, c) == []
  {
    CarriesItsRequest(trace, steps, i, k, t, targets, job);
    assert Enabled(trace[k], steps[k]) && Enabled(trace[i], steps[i]);
    EveryState(trace, steps, k);
    EveryState(trace, steps, i);
    StepServes(trace[k], steps[k], t, job, targets, trace[i].generation);
    g := trace[k].tasks[t].pc.frame.payload.generation;
    LifecycleAdvances(trace, steps, i, k + 1, c);
    CallbackRunsExactlyOnce(trace, steps, k + 1, g, c);
  }

  /** A released request stays on record. */
  lemma {:induction false} RecordStays(trace: seq<State>, steps: seq<Step>, j: nat, k: nat, g: nat)
    requires Behaviour(trace, steps) && j <= k < |trace| && g in trace[j].finished
    ensures g in trace[k].finished && trace[k].finished[g] == trace[j].finished[g]
    decreases k
  {
    if j < k {
      RecordStays(trace, steps, j, k - 1, g);
      EveryState(trace, steps, k - 1);
      assert Enabled(trace[k - 1], steps[k - 1]);
      RecordGrows(trace[k - 1], steps[k - 1], g);
    }
  }

  /** No callback of a call comes after the call has returned. */
  lemma NoLateCallback(trace: seq<State>, steps: seq<Step>, j: nat, k: nat, g: nat, c: nat)
    requires Behaviour(trace, steps) && j <= k < |trace| && g in trace[j].finished && c < |trace[j].cpus|
    requires trace[j].fault.NoFault? && trace[k].fault.NoFault?
    ensures Ran(trace[k].ran, g, c) == Ran(trace[j].ran, g, c)
  {
    RecordStays(trace, steps, j, k, g);
    LifecycleAdvances(trace, steps, j, k, c);
    CallbackRunsExactlyOnce(trace, steps, j, g, c);
    CallbackRunsExactlyOnce(trace, steps, k, g, c);
  }

  lemma RecordGrows(s: State, step: Step, g: nat)
    requires Inv(s) && Enabled(s, step) && g in s.finished
    ensures g in Do(s, step).finished && Do(s, step).finished[g] == s.finished[g]
  {
  }

  /** A task inside `call_many` was brought there by a call with just its job and targets. */
  lemma {:induction false} WasCalled(trace: seq<State>, steps: seq<Step>, k: nat, t: nat, job: Job, targets: set<nat>)
    returns (i: nat)
    requires Behaviour(trace, steps) && k < |trace| && t < |trace[k].tasks|
    requires Serves(trace[k].tasks[t].pc, job, targets)
    ensures i < k && Since(trace, steps, i, k, t, targets, job)
  {
    assert k > 0;
    assert Enabled(trace[k - 1], steps[k - 1]);
    SameTasks(trace[k - 1], steps[k - 1]);
    WasServing(trace[k - 1], steps[k - 1], t, job, targets);
    if steps[k - 1] == BeginCall(t, targets, job) {
      i := k - 1;
    } else {
      i := WasCalled(trace, steps, k - 1, t, job, targets);
    }
  }

  lemma SameTasks(s: State, step: Step)
    requires Enabled(s, step)
    ensures |Do(s, step).tasks| == |s.tasks|
  {
  }

  lemma WasServing(s: State, step: Step, t: nat, job: Job, targets: set<nat>)
    requires Enabled(s, step) && t < |s.tasks| && t < |Do(s, step).tasks|
    requires Serves(Do(s, step).tasks[t].pc, job, targets)
    ensures (step == BeginCall(t, targets, job) && Do(s, step).fault.NoFault?) || Serves(s.tasks[t].pc, job, targets)
  {
    if !Moves(step, t) {
      OthersStay(s, step, t);
    } else if s.tasks[t].pc.Call? {
      CallKeepsFrame(s, t);
    } else if step.TaskStep? && !s.tasks[t].pc.Notify? {
      PrepareServes(s, t, s.tasks[t].pc.job, s.tasks[t].pc.targets);
    }
  }

  /** Every request on record is one that some task asked for. */
  lemma {:induction false} RecordWasCalled(trace: seq<State>, steps: seq<Step>, k: nat, g: nat)
    returns (i: nat, t: nat)
    requires Behaviour(trace, steps) && k < |trace| && g in trace[k].finished
    ensures i < k && steps[i] == BeginCall(t, trace[k].finished[g].targets, trace[k].finished[g].job)
  {
    assert k > 0;
    assert Enabled(trace[k - 1], steps[k - 1]);
    if g in trace[k - 1].finished && trace[k - 1].finished[g] == trace[k].finished[g] {
      i, t := RecordWasCalled(trace, steps, k - 1, g);
    } else {
      t := Recorder(trace[k - 1], steps[k - 1], g);
      var p := trace[k].finished[g];
      i := WasCalled(trace, steps, k - 1, t, p.job, p.targets);
    }
  }

  lemma Recorder(s: State, step: Step, g: nat) returns (t: nat)
    requires Enabled(s, step) && g in Do(s, step).finished
    requires !(g in s.finished && s.finished[g] == Do(s, step).finished[g])
    ensures
      var p := Do(s, step).finished[g];
      t < |s.tasks| && Serves(s.tasks[t].pc, p.job, p.targets)
  {
    if step.HandlerStep? {
      HandlerMovesNone(s, step.cpu);
    }
    t := step.task;
  }

  // ------------------------------------------------------------ the caller's own faults

  /** What `call_many` asserts of its mask: some target, not the caller's CPU, and only CPUs there are. */
  ghost predicate Callable(targets: set<nat>, own: nat, cpus: nat) {
    targets != {} && own !in targets && forall c :: c in targets ==> c < cpus
  }

  /** The scan is over and has missed a target. */
  ghost predicate Missed(pc: Pc, cpus: nat) {
    pc.Scan? && pc.next == cpus && exists c :: c in pc.targets && c !in pc.ready
  }

  /** The CPU fails the check the sender is making. */
  predicate Refuses(pc: Pc, cpus: seq<CpuState>) {
    && pc.Notify? && pc.cpu < |cpus|
    && ((pc.stage.CheckOnline? && !cpus[pc.cpu].IsOnline()) || (pc.stage.CheckReady? && !cpus[pc.cpu].AcceptsIpi()))
  }

  lemma CallFaults(s: State, t: nat)
    requires Shape(s) && s.fault.NoFault? && t < |s.tasks| && s.tasks[t].pc.Call?
    ensures !CallerFault(CallStep(s, t).fault)
  {
  }

  lemma HandlerFaults(s: State, c: nat)
    requires Shape(s) && s.fault.NoFault? && c < |s.cpus| && !s.handlers[c].Resting?
    ensures !CallerFault(HandlerDo(s, c).fault)
  {
  }

  lemma PrepareFaults(s: State, t: nat)
    requires Shape(s) && s.fault.NoFault? && t < |s.tasks| && !s.tasks[t].pc.Idle?
    requires !s.tasks[t].pc.Call? && !s.tasks[t].pc.Notify?
    ensures PrepareStep(s, t).fault ==
      if Missed(s.tasks[t].pc, |s.cpus|) then TargetNotReady
      else if s.tasks[t].pc.Generate? && (s.generation + 1) % GENERATIONS == 0 then GenerationWrapped
      else NoFault
  {
    assert PcShape(|s.cpus|, |s.slots|, s.tasks[t].pc);
  }

  /** Each assertion a caller can trip is tripped by one kind of step and for one reason. */
  lemma FaultCauses(s: State, step: Step)
    requires Enabled(s, step)
    ensures
      var f := Do(s, step).fault;
      && (f.BadTargets? <==> step.BeginCall? && !Callable(step.targets, s.tasks[step.task].cpu, |s.cpus|))
      && (f.TargetNotReady? <==> step.TaskStep? && Missed(s.tasks[step.task].pc, |s.cpus|))
      && (f.GenerationWrapped? <==>
            step.TaskStep? && s.tasks[step.task].pc.Generate? && (s.generation + 1) % GENERATIONS == 0)
      && (f.SendRefused? <==> step.TaskStep? && Refuses(s.tasks[step.task].pc, s.cpus))
      && (f.InvalidTransition? <==> step.LifecycleStep? && s.cpus[step.cpu] != step.expected)
  {
    match step
    case HandlerStep(c) => HandlerFaults(s, c);
    case TaskStep(t) =>
      assert PcShape(|s.cpus|, |s.slots|, s.tasks[t].pc);
      if s.tasks[t].pc.Call? { CallFaults(s, t); }
      else if !s.tasks[t].pc.Notify? { PrepareFaults(s, t); }
    case _ =>
  }

  /** The step left `next` behind a scan that stood at `pc`. */
  predicate LooksAt(pc: Pc, next: Pc, cpus: seq<CpuState>) {
    && pc.Scan? && next.Scan? && pc.next < |cpus| && next.next == pc.next + 1
    && next.ready == if cpus[pc.next].AcceptsIpi() then pc.ready + {pc.next} else pc.ready
  }

  lemma PrepareScans(s: State, t: nat)
    requires Shape(s) && t < |s.tasks| && (s.tasks[t].pc.Scan? || s.tasks[t].pc.Reserve? || s.tasks[t].pc.Generate?)
    requires PrepareStep(s, t).tasks[t].pc.Scan?
    ensures
      var pc, next := s.tasks[t].pc, PrepareStep(s, t).tasks[t].pc;
      pc == next || LooksAt(pc, next, s.cpus)
  {
  }

  /** A task is scanning because it begins to, because it has looked at one more CPU, or because it has not moved. */
  lemma ScanStep(s: State, step: Step, t: nat)
    requires Enabled(s, step) && t < |s.tasks| && t < |Do(s, step).tasks| && Do(s, step).tasks[t].pc.Scan?
    ensures
      var pc, next := s.tasks[t].pc, Do(s, step).tasks[t].pc;
      || (step.BeginCall? && next.next == 0 && next.ready == {})
      || pc == next
      || (step == TaskStep(t) && LooksAt(pc, next, s.cpus))
  {
    if !Moves(step, t) {
      OthersStay(s, step, t);
    } else if s.tasks[t].pc.Call? {
      CallKeepsFrame(s, t);
    } else if step.TaskStep? && !s.tasks[t].pc.Notify? {
      PrepareScans(s, t);
    }
  }

  /** A task that is scanning in state `k` has just begun, has looked at one more CPU, or stands where it stood. */
  ghost predicate GoesOn(trace: seq<State>, i: nat, k: nat, t: nat) {
    && i < k < |trace| && t < |trace[k - 1].tasks| && t < |trace[k].tasks|
    && var pc, next := trace[k - 1].tasks[t].pc, trace[k].tasks[t].pc;
       next.Scan? ==>
         if k == i + 1 then next.next == 0 && next.ready == {}
         else pc == next || LooksAt(pc, next, trace[k - 1].cpus)
  }

  lemma ScanGoesOn(trace: seq<State>, steps: seq<Step>, i: nat, k: nat, t: nat, targets: set<nat>, job: Job)
    requires Since(trace, steps, i, k, t, targets, job)
    ensures GoesOn(trace, i, k, t)
  {
    assert Enabled(trace[k - 1], steps[k - 1]);
    CarriesItsRequest(trace, steps, i, k, t, targets, job);
    SameTasks(trace[k - 1], steps[k - 1]);
    if k > i + 1 {
      CarriesItsRequest(trace, steps, i, k - 1, t, targets, job);
    }
    if trace[k].tasks[t].pc.Scan? {
      ScanStep(trace[k - 1], steps[k - 1], t);
    }
  }

  /** From state `i + 1` to state `k` the task does nothing but scan. */
  ghost predicate Scanning(trace: seq<State>, i: nat, k: nat, t: nat) {
    && i < k < |trace|
    && (forall m :: i < m <= k ==> t < |trace[m].tasks| && trace[m].tasks[t].pc.Scan?)
    && trace[i + 1].tasks[t].pc.next == 0 && trace[i + 1].tasks[t].pc.ready == {}
    && (forall m :: i < m < k ==>
          var pc, next := trace[m].tasks[t].pc, trace[m + 1].tasks[t].pc;
          pc == next || LooksAt(pc, next, trace[m].cpus))
  }

  lemma ScanExtends(trace: seq<State>, i: nat, k: nat, t: nat)
    requires Scanning(trace, i, k, t) && k + 1 < |trace| && t < |trace[k + 1].tasks| && trace[k + 1].tasks[t].pc.Scan?
    requires
      var pc, next := trace[k].tasks[t].pc, trace[k + 1].tasks[t].pc;
      pc == next || LooksAt(pc, next, trace[k].cpus)
    ensures Scanning(trace, i, k + 1, t)
  {
  }

  lemma {:induction false} ScanHistory(trace: seq<State>, i: nat, k: nat, t: nat)
    requires i < k < |trace| && t < |trace[k].tasks| && trace[k].tasks[t].pc.Scan?
    requires forall m :: i < m <= k ==> GoesOn(trace, i, m, t)
    ensures Scanning(trace, i, k, t)
    decreases k
  {
    assert GoesOn(trace, i, k, t);
    if k > i + 1 {
      ScanHistory(trace, i, k - 1, t);
      ScanExtends(trace, i, k - 1, t);
    }
  }

  /** In state `j` the scan is just about to look at `c`. */
  predicate Looks(trace: seq<State>, j: nat, t: nat, c: nat) {
    && j + 1 < |trace| && t < |trace[j].tasks| && t < |trace[j + 1].tasks| && c < |trace[j].cpus|
    && trace[j].tasks[t].pc.Scan? && trace[j].tasks[t].pc.next == c
    && trace[j + 1].tasks[t].pc.Scan? && trace[j + 1].tasks[t].pc.next == c + 1
  }

  /** A CPU behind the scan is marked ready just if it was when the scan looked; none ahead is marked. */
  lemma {:induction false} ScanMarks(trace: seq<State>, i: nat, k: nat, t: nat, c: nat) returns (j: nat)
    requires Scanning(trace, i, k, t)
    ensures c < trace[k].tasks[t].pc.next ==>
              && i < j < k && Looks(trace, j, t, c)
              && (c in trace[k].tasks[t].pc.ready <==> trace[j].cpus[c].AcceptsIpi())
    ensures c in trace[k].tasks[t].pc.ready ==> c < trace[k].tasks[t].pc.next
    decreases k
  {
    j := 0;
    if k > i + 1 {
      var pc, next := trace[k - 1].tasks[t].pc, trace[k - 1 + 1].tasks[t].pc;
      assert pc == next || LooksAt(pc, next, trace[k - 1].cpus);
      j := ScanMarks(trace, i, k - 1, t, c);
      if pc != next && pc.next == c {
        j := k - 1;
      }
    }
  }

  lemma {:induction false} ScanAdvances(trace: seq<State>, i: nat, k: nat, t: nat, m: nat, n: nat)
    requires Scanning(trace, i, k, t) && i < m <= n <= k
    ensures trace[m].tasks[t].pc.next <= trace[n].tasks[t].pc.next
    decreases n
  {
    if m < n {
      ScanAdvances(trace, i, k, t, m, n - 1);
      var pc, next := trace[n - 1].tasks[t].pc, trace[n - 1 + 1].tasks[t].pc;
      assert pc == next || LooksAt(pc, next, trace[n - 1].cpus);
    }
  }

  lemma LooksOnce(trace: seq<State>, i: nat, k: nat, t: nat, c: nat, m: nat, n: nat)
    requires Scanning(trace, i, k, t) && i < m < k && i < n < k && Looks(trace, m, t, c) && Looks(trace, n, t, c)
    ensures m == n
  {
    if m < n {
      ScanAdvances(trace, i, k, t, m + 1, n);
    } else if n < m {
      ScanAdvances(trace, i, k, t, n + 1, m);
    }
  }

  lemma {:induction false} CpusStay(trace: seq<State>, steps: seq<Step>, j: nat, k: nat)
    requires Behaviour(trace, steps) && j <= k < |trace|
    ensures |trace[j].cpus| == |trace[k].cpus|
    decreases k
  {
    if j < k {
      CpusStay(trace, steps, j, k - 1);
      assert Enabled(trace[k - 1], steps[k - 1]);
      assert |Do(trace[k - 1], steps[k - 1]).cpus| == |trace[k - 1].cpus|;
    }
  }

  /** The scan of the call finds `c` not ready for an IPI. */
  ghost predicate FoundUnready(trace: seq<State>, i: nat, k: nat, t: nat, c: nat) {
    exists j :: i < j < k && Looks(trace, j, t, c) && !trace[j].cpus[c].AcceptsIpi()
  }

  /**
   A call whose scan is over is refused exactly if some target was not ready when
   the scan came to it. Such a target was not ready when the call was made either,
   and a target not ready now is refused for certain.
   */
  lemma UnreadyTargets(trace: seq<State>, steps: seq<Step>, i: nat, k: nat, t: nat, targets: set<nat>, job: Job)
    requires Since(trace, steps, i, k, t, targets, job) && k < |steps| && steps[k] == TaskStep(t)
    requires t < |trace[k].tasks| && trace[k].tasks[t].pc.Scan? && trace[k].tasks[t].pc.next == |trace[k].cpus|
    ensures trace[k + 1].fault.TargetNotReady? <==> exists c :: c in targets && FoundUnready(trace, i, k, t, c)
    ensures trace[k + 1].fault.TargetNotReady? ==>
              exists c :: c in targets && c < |trace[i].cpus| && !trace[i].cpus[c].AcceptsIpi()
    ensures forall c :: c in targets && c < |trace[k].cpus| && !trace[k].cpus[c].AcceptsIpi() ==>
              trace[k + 1].fault.TargetNotReady?
  {
    CarriesItsRequest(trace, steps, i, k, t, targets, job);
    forall m | i < m <= k ensures GoesOn(trace, i, m, t) {
      ScanGoesOn(trace, steps, i, m, t, targets, job);
    }
    ScanHistory(trace, i, k, t);
    assert Enabled(trace[k], steps[k]);
    FaultCauses(trace[k], steps[k]);
    var pc := trace[k].tasks[t].pc;
    forall c | c in targets
      ensures c < |trace[k].cpus| && c < |trace[i].cpus|
      ensures c !in pc.ready <==> FoundUnready(trace, i, k, t, c)
      ensures c !in pc.ready ==> !trace[i].cpus[c].AcceptsIpi()
      ensures !trace[k].cpus[c].AcceptsIpi() ==> c !in pc.ready
    {
      UnreadyTarget(trace, steps, i, k, t, targets, job, c);
    }
  }

  lemma UnreadyTarget(trace: seq<State>, steps: seq<Step>, i: nat, k: nat, t: nat, targets: set<nat>, job: Job, c: nat)
    requires Since(trace, steps, i, k, t, targets, job) && Scanning(trace, i, k, t)
    requires trace[k].tasks[t].pc.next == |trace[k].cpus| && c in targets && c < |trace[k].cpus|
    ensures c < |trace[i].cpus|
    ensures c !in trace[k].tasks[t].pc.ready <==> FoundUnready(trace, i, k, t, c)
    ensures c !in trace[k].tasks[t].pc.ready ==> !trace[i].cpus[c].AcceptsIpi()
    ensures !trace[k].cpus[c].AcceptsIpi() ==> c !in trace[k].tasks[t].pc.ready
  {
    var j := ScanMarks(trace, i, k, t, c);
    forall m | i < m < k && Looks(trace, m, t, c) ensures m == j {
      LooksOnce(trace, i, k, t, c, m, j);
    }
    CpusStay(trace, steps, i, k);
    LifecycleAdvances(trace, steps, i, j, c);
    LifecycleAdvances(trace, steps, j, k, c);
  }

  // ------------------------------------------------------------ other messages

  /** Step `i` sends `message` to `cpu`, and the task has not been idle again up to state `k`. */
  ghost predicate Sending(trace: seq<State>, steps: seq<Step>, i: nat, k: nat, t: nat, cpu: nat, message: Message) {
    && Behaviour(trace, steps) && i < k < |trace| && steps[i] == BeginNotify(t, cpu, message)
    && forall j :: i + 1 < j <= k ==> t < |trace[j].tasks| && !trace[j].tasks[t].pc.Idle?
  }

  /** The step puts the message, and nothing else, into the mailbox of the CPU. */
  predicate Mails(s: State, r: State, cpu: nat, message: Message) {
    && cpu < |s.mailbox| && cpu < |s.cpus| && s.cpus[cpu].IpiReady?
    && r.mailbox == s.mailbox[cpu := s.mailbox[cpu] + {message}]
  }

  /** The send is over: the doorbell is rung, or a reschedule rides along with an earlier message. */
  predicate Leaves(s: State, r: State, stage: SendStage, cpu: nat, message: Message) {
    if stage.Ring? then cpu < |r.doorbell| && r.doorbell[cpu]
    else Mails(s, r, cpu, message) && s.mailbox[cpu] != {} && message == Reschedule
  }

  lemma NotifyMoves(s: State, step: Step, t: nat, cpu: nat, message: Message)
    requires Inv(s) && Enabled(s, step) && t < |s.tasks| && s.tasks[t].pc.Notify?
    requires s.tasks[t].pc.cpu == cpu && s.tasks[t].pc.message == message
    ensures
      var r, stage := Do(s, step), s.tasks[t].pc.stage;
      && t < |r.tasks|
      && (r.tasks[t].pc.Notify? && r.tasks[t].pc.stage.Ring? ==> stage.Ring? || Mails(s, r, cpu, message))
      && (if r.tasks[t].pc.Idle? then Leaves(s, r, stage, cpu, message)
          else r.tasks[t].pc.Notify? && r.tasks[t].pc.cpu == cpu && r.tasks[t].pc.message == message)
  {
    if !Moves(step, t) {
      OthersStay(s, step, t);
    } else {
      assert PcShape(|s.cpus|, |s.slots|, s.tasks[t].pc);
      assert AllReady(s.cpus, Goals(s.tasks[t].pc));
    }
  }

  /** The task carries the message, and comes to ring the doorbell only by mailing it. */
  ghost predicate Carries(trace: seq<State>, i: nat, k: nat, t: nat, cpu: nat, message: Message) {
    && i < k < |trace| && t < |trace[k - 1].tasks| && t < |trace[k].tasks|
    && var pc, next := trace[k - 1].tasks[t].pc, trace[k].tasks[t].pc;
       && next.Notify? && next.cpu == cpu && next.message == message
       && (next.stage.Ring? ==>
             k > i + 1 && pc.Notify? && (pc.stage.Ring? || Mails(trace[k - 1], trace[k], cpu, message)))
  }

  lemma {:induction false} CarriesItsMessage(trace: seq<State>, steps: seq<Step>, i: nat, k: nat,
                                             t: nat, cpu: nat, message: Message)
    requires Sending(trace, steps, i, k, t, cpu, message)
    ensures Carries(trace, i, k, t, cpu, message)
    decreases k
  {
    assert Enabled(trace[k - 1], steps[k - 1]);
    if k > i + 1 {
      CarriesItsMessage(trace, steps, i, k - 1, t, cpu, message);
      EveryState(trace, steps, k - 1);
      NotifyMoves(trace[k - 1], steps[k - 1], t, cpu, message);
    }
  }

  lemma {:induction false} WasMailed(trace: seq<State>, i: nat, k: nat, t: nat, cpu: nat, message: Message)
    returns (j: nat)
    requires forall m :: i < m <= k ==> Carries(trace, i, m, t, cpu, message)
    requires i < k < |trace| && t < |trace[k].tasks| && trace[k].tasks[t].pc.Notify? && trace[k].tasks[t].pc.stage.Ring?
    ensures i < j < k && Mails(trace[j], trace[j + 1], cpu, message)
    decreases k
  {
    assert Carries(trace, i, k, t, cpu, message) && Carries(trace, i, k - 1, t, cpu, message);
    if trace[k - 1].tasks[t].pc.stage.Ring? {
      j := WasMailed(trace, i, k - 1, t, cpu, message);
    } else {
      j := k - 1;
    }
  }

  /**
   A send that returns has mailed its message, and has rung the doorbell unless
   it is a reschedule that found an earlier message to ride along with.
   */
  lemma SendReturns(trace: seq<State>, steps: seq<Step>, i: nat, k: nat, t: nat, cpu: nat, message: Message)
    returns (j: nat)
    requires Sending(trace, steps, i, k, t, cpu, message) && k < |steps|
    requires t < |trace[k + 1].tasks| && trace[k + 1].tasks[t].pc.Idle?
    ensures i < j <= k && Mails(trace[j], trace[j + 1], cpu, message)
    ensures
      || (cpu < |trace[k + 1].doorbell| && trace[k + 1].doorbell[cpu])
      || (j == k && trace[k].mailbox[cpu] != {} && message == Reschedule)
  {
    forall m | i < m <= k ensures Carries(trace, i, m, t, cpu, message) {
      CarriesItsMessage(trace, steps, i, m, t, cpu, message);
    }
    assert Enabled(trace[k], steps[k]);
    EveryState(trace, steps, k);
    assert Carries(trace, i, k, t, cpu, message);
    NotifyMoves(trace[k], steps[k], t, cpu, message);
    j := Mailed(trace, i, k, t, cpu, message);
  }

  lemma Mailed(trace: seq<State>, i: nat, k: nat, t: nat, cpu: nat, message: Message) returns (j: nat)
    requires forall m :: i < m <= k ==> Carries(trace, i, m, t, cpu, message)
    requires i < k && k + 1 < |trace| && t < |trace[k].tasks| && trace[k].tasks[t].pc.Notify?
    requires Leaves(trace[k], trace[k + 1], trace[k].tasks[t].pc.stage, cpu, message)
    ensures i < j <= k && Mails(trace[j], trace[j + 1], cpu, message)
    ensures
      || (cpu < |trace[k + 1].doorbell| && trace[k + 1].doorbell[cpu])
      || (j == k && trace[k].mailbox[cpu] != {} && message == Reschedule)
  {
    if trace[k].tasks[t].pc.stage.Ring? {
      j := WasMailed(trace, i, k, t, cpu, message);
    } else {
      j := k;
    }
  }

  // ------------------------------------------------------------ progress

  /** What is left to do can be done: a doorbell answered, a handler run on, a task run on. */
  lemma WorkCanGoOn(s: State, c: nat, t: nat)
    requires Shape(s) && s.fault.NoFault? && c < |s.cpus| && t < |s.tasks|
    ensures s.doorbell[c] && s.handlers[c].Resting? ==> Enabled(s, Acknowledge(c))
    ensures !s.handlers[c].Resting? ==> Enabled(s, HandlerStep(c))
    ensures if s.tasks[t].pc.Idle? then Enabled(s, BeginCall(t, {c}, Job(0, 0))) else Enabled(s, TaskStep(t))
  {
  }

  /** A CPU that is present can be brought up until it takes IPIs, directly or by way of the starting state. */
  lemma BringUp(s: State, c: nat)
    requires Shape(s) && s.fault.NoFault? && c < |s.cpus| && s.cpus[c].Present?
    ensures
      var a := LifecycleStep(c, Present, Starting);
      && Enabled(s, a) && Enabled(Do(s, a), LifecycleStep(c, Starting, SchedulerRegistered))
      && Do(Do(s, a), LifecycleStep(c, Starting, SchedulerRegistered))
         == s.(cpus := s.cpus[c := SchedulerRegistered])
    ensures Enabled(s, LifecycleStep(c, Present, SchedulerRegistered))
    ensures
      var r := s.(cpus := s.cpus[c := SchedulerRegistered]);
      var b, d := LifecycleStep(c, SchedulerRegistered, Active), LifecycleStep(c, Active, IpiReady);
      && Enabled(r, b) && Enabled(Do(r, b), d)
      && Do(Do(r, b), d) == s.(cpus := s.cpus[c := IpiReady])
  {
    var r := s.(cpus := s.cpus[c := SchedulerRegistered]);
    assert Shape(r) && r.cpus[c] == SchedulerRegistered;
    var a := Do(r, LifecycleStep(c, SchedulerRegistered, Active));
    assert Shape(a) && a.cpus[c := IpiReady] == s.cpus[c := IpiReady];
    var b := Do(s, LifecycleStep(c, Present, Starting));
    assert Shape(b) && b.cpus[c := SchedulerRegistered] == r.cpus;
  }
}
