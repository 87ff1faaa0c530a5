/**
 The CPU bring-up lifecycle (kernel/src/smp.rs).
 */
module Lifecycle {

  datatype CpuState =
    | Absent | Present | Starting | SchedulerRegistered | Active | IpiReady | Failed | Dying | Dead
  {
    predicate IsOnline() {
      SchedulerRegistered? || Active? || IpiReady? || Dying?
    }

    predicate AcceptsIpi() {
      IpiReady?
    }

    /** How far bring-up has come; `Failed` is a dead end of `Starting`. */
    function Progress(): nat {
      match this
      case Absent => 0
      case Present => 1
      case Starting => 2
      case SchedulerRegistered => 3
      case Active => 4
      case IpiReady => 5
      case Failed => 6
      case Dying => 7
      case Dead => 8
    }
  }

  /** The (expected, next) pairs that some caller passes to `transition_cpu`. */
  predicate Transition(expected: CpuState, next: CpuState) {
    || (expected.Present? && next.Starting?)
    || (expected.Starting? && next.Failed?)
    || (expected.Present? && next.SchedulerRegistered?)
    || (expected.Starting? && next.SchedulerRegistered?)
    || (expected.SchedulerRegistered? && next.Active?)
    || (expected.Active? && next.IpiReady?)
  }
}

/**
 Synchronous cross-CPU calls (kernel/src/call_function.rs) on top of the
 coalescing IPI mailboxes (kernel/src/ipi.rs), as an interleaving of atomic
 operations over any number of CPUs, request slots and tasks. Every `assert!` of
 the code is a `Fault` of the model; masks are sets of CPU or slot numbers.
 */
module CallFunction {
  import opened Lifecycle
  import opened Machine

  const GENERATIONS: nat := U64

  datatype Message = Reschedule | TlbShootdown | CallFunction

  predicate RequiresFreshDoorbell(message: Message) {
    !message.Reschedule?
  }

  /** A function pointer and its argument. */
  datatype Job = Job(function_: nat, argument: nat)

  datatype Payload = Payload(job: Job, targets: set<nat>, generation: nat)

  datatype SlotState = Free | Reserved | Ready

  /** `owner` is an auxiliary variable: no step reads it. */
  datatype Slot = Slot(state: SlotState, payload: Option<Payload>, completed: set<nat>, owner: Option<nat>)

  datatype Frame = Frame(slot: nat, payload: Payload)

  /** The atomic operations of `ipi::send`, in order. */
  datatype SendStage = CheckOnline | CheckReady | Publish | Ring

  /** Where a task is inside `call_many` once it has a generation. */
  datatype Phase =
    | PublishCheck | PublishClear | PublishWrite | PublishReady
    | Queue(next: nat)
    | Send(stage: SendStage, cpu: nat)
    | Await | ReleaseCheck | ReleaseSwap

  datatype Pc =
    | Idle
    | Scan(job: Job, targets: set<nat>, ready: set<nat>, next: nat)
    | Reserve(job: Job, targets: set<nat>, index: nat)
    | Generate(job: Job, targets: set<nat>, slot: nat)
    | Call(frame: Frame, phase: Phase)
    | Notify(message: Message, cpu: nat, stage: SendStage)

  /** Where a CPU is inside `ipi::handle_current` and `call_function::handle_current`. */
  datatype Handler =
    | Resting
    | Take
    | Dispatch(messages: set<Message>)
    | Batch(slots: set<nat>, messages: set<Message>)
    | Load(index: nat, slots: set<nat>, messages: set<Message>)
    | Read(index: nat, slots: set<nat>, messages: set<Message>)
    | Run(index: nat, payload: Payload, slots: set<nat>, messages: set<Message>)
    | Complete(index: nat, slots: set<nat>, messages: set<Message>)

  datatype Fault =
    | NoFault
    // What a caller can get wrong, or the end of the generation counter.
    | BadTargets | TargetNotReady | GenerationWrapped | SendRefused | InvalidTransition
    // What the protocol must exclude.
    | PublishedWithoutOwnership | QueuedTwice | CallSendRefused | UnexpectedCompletion
    | ReleasedEarly | BadReleaseState | UnpublishedRequest | UninitializedPayload
    | UntargetedRequest | CompletedTwice

  datatype Task = Task(cpu: nat, pc: Pc)

  /** `ran` and `finished` are history variables: no step reads them. */
  datatype State = State(
    cpus: seq<CpuState>,
    slots: seq<Slot>,
    pending: seq<set<nat>>,
    mailbox: seq<set<Message>>,
    doorbell: seq<bool>,
    handlers: seq<Handler>,
    tasks: seq<Task>,
    generation: nat,
    ran: map<(nat, nat), seq<Job>>,
    finished: map<nat, Payload>,
    fault: Fault)

  datatype Step =
    | LifecycleStep(cpu: nat, expected: CpuState, next: CpuState)
    | BeginCall(task: nat, targets: set<nat>, job: Job)
    | BeginNotify(task: nat, cpu: nat, message: Message)
    | TaskStep(task: nat)
    | Acknowledge(cpu: nat)
    | HandlerStep(cpu: nat)

  // ---------------------------------------------------------------- steps

  function SetPc(s: State, t: nat, pc: Pc): State
    requires t < |s.tasks|
  {
    s.(tasks := s.tasks[t := s.tasks[t].(pc := pc)])
  }

  function SetSlot(s: State, i: nat, slot: Slot): State
    requires i < |s.slots|
  {
    s.(slots := s.slots[i := slot])
  }

  function SetHandler(s: State, c: nat, h: Handler): State
    requires c < |s.handlers|
  {
    s.(handlers := s.handlers[c := h])
  }

  /** Every identifier stored in the state is in range. */
  predicate PcShape(cpus: nat, slots: nat, pc: Pc) {
    match pc
    case Idle => true
    case Scan(_, targets, _, next) => next <= cpus && forall c :: c in targets ==> c < cpus
    case Reserve(_, targets, _) => forall c :: c in targets ==> c < cpus
    case Generate(_, targets, slot) => slot < slots && forall c :: c in targets ==> c < cpus
    case Call(frame, phase) =>
      && frame.slot < slots
      && (forall c :: c in frame.payload.targets ==> c < cpus)
      && (phase.Queue? ==> phase.next <= cpus)
      && (phase.Send? ==> phase.cpu < cpus && phase.cpu in frame.payload.targets)
    case Notify(_, cpu, _) => cpu < cpus
  }

  /** The request slots a CPU has taken out of its pending mask and not completed. */
  function Holds(h: Handler): set<nat> {
    match h
    case Resting => {}
    case Take => {}
    case Dispatch(_) => {}
    case Batch(slots, _) => slots
    case Load(index, slots, _) => {index} + slots
    case Read(index, slots, _) => {index} + slots
    case Run(index, _, slots, _) => {index} + slots
    case Complete(index, slots, _) => {index} + slots
  }

  predicate Shape(s: State) {
    && |s.pending| == |s.cpus| && |s.mailbox| == |s.cpus|
    && |s.doorbell| == |s.cpus| && |s.handlers| == |s.cpus|
    && (forall t :: 0 <= t < |s.tasks| ==> PcShape(|s.cpus|, |s.slots|, s.tasks[t].pc))
    && (forall c, i :: 0 <= c < |s.cpus| && i in s.pending[c] ==> i < |s.slots|)
    && (forall c, i :: 0 <= c < |s.cpus| && i in Holds(s.handlers[c]) ==> i < |s.slots|)
  }

  function CallStep(s: State, t: nat): (r: State)
    requires Shape(s) && t < |s.tasks| && s.tasks[t].pc.Call?
    ensures r.cpus == s.cpus && |r.slots| == |s.slots| && |r.tasks| == |s.tasks|
  {
    var f := s.tasks[t].pc.frame;
    var p := f.payload;
    var slot := s.slots[f.slot];
    match s.tasks[t].pc.phase
    case PublishCheck =>
      if slot.state.Reserved? then SetPc(s, t, Call(f, PublishClear))
      else s.(fault := PublishedWithoutOwnership)
    case PublishClear =>
      SetPc(SetSlot(s, f.slot, slot.(completed := {})), t, Call(f, PublishWrite))
    case PublishWrite =>
      SetPc(SetSlot(s, f.slot, slot.(payload := Some(p))), t, Call(f, PublishReady))
    case PublishReady =>
      SetPc(SetSlot(s, f.slot, slot.(state := Ready)), t, Call(f, Queue(0)))
    case Queue(next) =>
      if next == |s.cpus| then SetPc(s, t, Call(f, Await))
      else if next !in p.targets then SetPc(s, t, Call(f, Queue(next + 1)))
      else if f.slot in s.pending[next] then s.(fault := QueuedTwice)
      else
        SetPc(s.(pending := s.pending[next := s.pending[next] + {f.slot}]), t, Call(f, Send(CheckOnline, next)))
    case Send(stage, cpu) =>
      (match stage
       case CheckOnline =>
         if s.cpus[cpu].IsOnline() then SetPc(s, t, Call(f, Send(CheckReady, cpu)))
         else s.(fault := CallSendRefused)
       case CheckReady =>
         if s.cpus[cpu].AcceptsIpi() then SetPc(s, t, Call(f, Send(Publish, cpu)))
         else s.(fault := CallSendRefused)
       case Publish =>
         // CallFunction messages always ring a fresh doorbell.
         SetPc(s.(mailbox := s.mailbox[cpu := s.mailbox[cpu] + {CallFunction}]), t, Call(f, Send(Ring, cpu)))
       case Ring =>
         SetPc(s.(doorbell := s.doorbell[cpu := true]), t, Call(f, Queue(cpu + 1))))
    case Await =>
      if !(slot.completed <= p.targets) then s.(fault := UnexpectedCompletion)
      else if slot.completed == p.targets then SetPc(s, t, Call(f, ReleaseCheck))
      else s
    case ReleaseCheck =>
      if slot.completed == p.targets then SetPc(s, t, Call(f, ReleaseSwap))
      else s.(fault := ReleasedEarly)
    case ReleaseSwap =>
      if slot.state.Ready? then
        SetPc(SetSlot(s, f.slot, slot.(state := Free, owner := None)), t, Idle)
        .(finished := s.finished[p.generation := p])
      else s.(fault := BadReleaseState)
  }

  function NotifyStep(s: State, t: nat): (r: State)
    requires Shape(s) && t < |s.tasks| && s.tasks[t].pc.Notify?
    ensures r.cpus == s.cpus && |r.slots| == |s.slots| && |r.tasks| == |s.tasks|
  {
    var Notify(message, cpu, stage) := s.tasks[t].pc;
    match stage
    case CheckOnline =>
      if s.cpus[cpu].IsOnline() then SetPc(s, t, Notify(message, cpu, CheckReady)) else s.(fault := SendRefused)
    case CheckReady =>
      if s.cpus[cpu].AcceptsIpi() then SetPc(s, t, Notify(message, cpu, Publish)) else s.(fault := SendRefused)
    case Publish =>
      var previous := s.mailbox[cpu];
      var next := if previous == {} || RequiresFreshDoorbell(message) then Notify(message, cpu, Ring) else Idle;
      SetPc(s.(mailbox := s.mailbox[cpu := previous + {message}]), t, next)
    case Ring =>
      SetPc(s.(doorbell := s.doorbell[cpu := true]), t, Idle)
  }

  function PrepareStep(s: State, t: nat): (r: State)
    requires Shape(s) && t < |s.tasks| && (s.tasks[t].pc.Scan? || s.tasks[t].pc.Reserve? || s.tasks[t].pc.Generate?)
    ensures r.cpus == s.cpus && |r.slots| == |s.slots| && |r.tasks| == |s.tasks|
  {
    match s.tasks[t].pc
    case Scan(job, targets, ready, next) =>
      if next < |s.cpus| then
        SetPc(s, t, Scan(job, targets, if s.cpus[next].AcceptsIpi() then ready + {next} else ready, next + 1))
      else if targets <= ready then SetPc(s, t, Reserve(job, targets, 0))
      else s.(fault := TargetNotReady)
    case Reserve(job, targets, index) =>
      if index >= |s.slots| then SetPc(s, t, Reserve(job, targets, 0))
      else if s.slots[index].state.Free? then
        SetPc(SetSlot(s, index, s.slots[index].(state := Reserved, owner := Some(t))), t, Generate(job, targets, index))
      else SetPc(s, t, Reserve(job, targets, index + 1))
    case Generate(job, targets, slot) =>
      var generation := (s.generation + 1) % GENERATIONS;
      if generation == 0 then s.(fault := GenerationWrapped)
      else SetPc(s.(generation := generation), t, Call(Frame(slot, Payload(job, targets, generation)), PublishCheck))
  }

  function Ran(ran: map<(nat, nat), seq<Job>>, generation: nat, cpu: nat): seq<Job> {
    if (generation, cpu) in ran then ran[(generation, cpu)] else []
  }

  function Lowest(slots: set<nat>): (r: nat)
    requires slots != {}
    ensures r in slots && forall i :: i in slots ==> r <= i
  {
    assert exists r :: r in slots && forall i :: i in slots ==> r <= i by {
      var x :| x in slots;
      LowestExists(slots, x);
    }
    var r :| r in slots && forall i :: i in slots ==> r <= i;
    r
  }

  lemma {:induction false} LowestExists(slots: set<nat>, x: nat)
    requires x in slots
    ensures exists r :: r in slots && forall i :: i in slots ==> r <= i
    decreases x
  {
    if y :| y in slots && y < x {
      LowestExists(slots, y);
    }
  }

  function HandlerDo(s: State, c: nat): (r: State)
    requires Shape(s) && c < |s.cpus| && !s.handlers[c].Resting?
    ensures r.cpus == s.cpus && |r.slots| == |s.slots| && |r.tasks| == |s.tasks|
  {
    match s.handlers[c]
    case Resting => s
    case Take =>
      var messages := s.mailbox[c];
      SetHandler(s.(mailbox := s.mailbox[c := {}]), c, if messages == {} then Resting else Dispatch(messages))
    case Dispatch(messages) =>
      if TlbShootdown in messages then SetHandler(s, c, Dispatch(messages - {TlbShootdown}))
      else if CallFunction in messages then
        SetHandler(s.(pending := s.pending[c := {}]), c, Batch(s.pending[c], messages - {CallFunction}))
      else if Reschedule in messages then SetHandler(s, c, Dispatch(messages - {Reschedule}))
      else SetHandler(s, c, Take)
    case Batch(slots, messages) =>
      if slots == {} then SetHandler(s, c, Dispatch(messages))
      else SetHandler(s, c, Load(Lowest(slots), slots - {Lowest(slots)}, messages))
    case Load(index, slots, messages) =>
      assert index in Holds(s.handlers[c]);
      if s.slots[index].state.Ready? then SetHandler(s, c, Read(index, slots, messages))
      else s.(fault := UnpublishedRequest)
    case Read(index, slots, messages) =>
      assert index in Holds(s.handlers[c]);
      var payload := s.slots[index].payload;
      if payload.None? then s.(fault := UninitializedPayload)
      else if c !in payload.value.targets then s.(fault := UntargetedRequest)
      else SetHandler(s, c, Run(index, payload.value, slots, messages))
    case Run(index, payload, slots, messages) =>
      SetHandler(s.(ran := s.ran[(payload.generation, c) := Ran(s.ran, payload.generation, c) + [payload.job]]),
                 c, Complete(index, slots, messages))
    case Complete(index, slots, messages) =>
      assert index in Holds(s.handlers[c]);
      var slot := s.slots[index];
      if c in slot.completed then s.(fault := CompletedTwice)
      else SetHandler(SetSlot(s, index, slot.(completed := slot.completed + {c})), c, Batch(slots, messages))
  }

  predicate Enabled(s: State, step: Step) {
    && s.fault.NoFault?
    && Shape(s)
    && match step
       case LifecycleStep(cpu, expected, next) => cpu < |s.cpus| && Transition(expected, next)
       case BeginCall(task, targets, _) => task < |s.tasks| && s.tasks[task].pc.Idle?
       case BeginNotify(task, cpu, _) => task < |s.tasks| && s.tasks[task].pc.Idle? && cpu < |s.cpus|
       case TaskStep(task) => task < |s.tasks| && !s.tasks[task].pc.Idle?
       case Acknowledge(cpu) => cpu < |s.cpus| && s.doorbell[cpu] && s.handlers[cpu].Resting?
       case HandlerStep(cpu) => cpu < |s.cpus| && !s.handlers[cpu].Resting?
  }

  function Do(s: State, step: Step): State
    requires Enabled(s, step)
  {
    match step
    case LifecycleStep(cpu, expected, next) =>
      if s.cpus[cpu] == expected then s.(cpus := s.cpus[cpu := next]) else s.(fault := InvalidTransition)
    case BeginCall(task, targets, job) =>
      if targets == {} || s.tasks[task].cpu in targets || exists c :: c in targets && c >= |s.cpus| then
        s.(fault := BadTargets)
      else SetPc(s, task, Scan(job, targets, {}, 0))
    case BeginNotify(task, cpu, message) => SetPc(s, task, Notify(message, cpu, CheckOnline))
    case TaskStep(task) =>
      if s.tasks[task].pc.Call? then CallStep(s, task)
      else if s.tasks[task].pc.Notify? then NotifyStep(s, task)
      else PrepareStep(s, task)
    case Acknowledge(cpu) => SetHandler(s.(doorbell := s.doorbell[cpu := false]), cpu, Take)
    case HandlerStep(cpu) => HandlerDo(s, cpu)
  }

  predicate Init(s: State) {
    && Shape(s)
    && (forall i :: 0 <= i < |s.slots| ==> s.slots[i] == Slot(Free, None, {}, None))
    && (forall c :: 0 <= c < |s.cpus| ==>
          && s.pending[c] == {} && s.mailbox[c] == {} && !s.doorbell[c]
          && s.handlers[c] == Resting && s.cpus[c] == Present)
    && (forall t :: 0 <= t < |s.tasks| ==> s.tasks[t].pc == Idle)
    && s.generation == 0 && s.ran == map[] && s.finished == map[] && s.fault == NoFault
  }

  /** A run: `trace[i + 1]` follows from `trace[i]` by `steps[i]`. */
  predicate Behaviour(trace: seq<State>, steps: seq<Step>) {
    && |trace| == |steps| + 1
    && Init(trace[0])
    && forall i :: 0 <= i < |steps| ==> Enabled(trace[i], steps[i]) && trace[i + 1] == Do(trace[i], steps[i])
  }

  // ----------------------------------------------------------- invariants

  /** The task has reserved slot `i` and not yet released it. */
  predicate Owns(pc: Pc, i: nat) {
    (pc.Generate? && pc.slot == i) || (pc.Call? && pc.frame.slot == i)
  }

  /** The request has been made READY and not yet released. */
  predicate Live(pc: Pc) {
    && pc.Call?
    && !pc.phase.PublishCheck? && !pc.phase.PublishClear? && !pc.phase.PublishWrite? && !pc.phase.PublishReady?
  }

  /** The queueing loop has already put the request into the pending mask of `c`. */
  predicate Passed(pc: Pc, c: nat) {
    && Live(pc)
    && match pc.phase
       case Queue(next) => c < next
       case Send(_, cpu) => c <= cpu
       case _ => true
  }

  /** A slot belongs to the task that reserved it, and a READY slot shows that task's payload. */
  predicate TaskOk(slots: seq<Slot>, t: nat, pc: Pc) {
    && (pc.Generate? ==> pc.slot < |slots| && slots[pc.slot].owner == Some(t) && slots[pc.slot].state == Reserved)
    && (pc.Call? ==>
          && pc.frame.slot < |slots|
          && var slot := slots[pc.frame.slot];
             && slot.owner == Some(t)
             && slot.state == (if Live(pc) then Ready else Reserved)
             && (pc.phase.PublishWrite? || pc.phase.PublishReady? ==> slot.completed == {})
             && (pc.phase.PublishReady? || Live(pc) ==> slot.payload == Some(pc.frame.payload))
             && (Live(pc) ==> slot.completed <= pc.frame.payload.targets)
             && (pc.phase.ReleaseCheck? || pc.phase.ReleaseSwap? ==> slot.completed == pc.frame.payload.targets))
  }

  predicate SlotOk(tasks: seq<Task>, i: nat, slot: Slot) {
    match slot.owner
    case None => slot.state.Free?
    case Some(t) => t < |tasks| && Owns(tasks[t].pc, i)
  }

  ghost predicate Ownership(tasks: seq<Task>, slots: seq<Slot>) {
    && (forall t :: 0 <= t < |tasks| ==> TaskOk(slots, t, tasks[t].pc))
    && (forall i :: 0 <= i < |slots| ==> SlotOk(tasks, i, slots[i]))
  }

  /** The program counter of the task a slot belongs to. */
  function OwnerPc(tasks: seq<Task>, slot: Slot): Pc {
    if slot.owner.Some? && slot.owner.value < |tasks| then tasks[slot.owner.value].pc else Idle
  }

  /** CPU `c` is a target of the READY request in slot `i` and has been queued. */
  predicate Engaged(pc: Pc, i: nat, c: nat) {
    pc.Call? && pc.frame.slot == i && c in pc.frame.payload.targets && Passed(pc, c)
  }

  /**
   A CPU refers to a request, pending or in its handler but not both, exactly
   while it is a queued target that has not completed.
   */
  predicate RoutedAt(i: nat, c: nat, slot: Slot, pc: Pc, pending: set<nat>, held: set<nat>) {
    && (i in pending || i in held <==> Engaged(pc, i, c) && c !in slot.completed)
    && !(i in pending && i in held)
    && (slot.state.Ready? && c in slot.completed ==> Engaged(pc, i, c))
  }

  ghost predicate Routed(tasks: seq<Task>, slots: seq<Slot>, pending: seq<set<nat>>, handlers: seq<Handler>) {
    && |pending| == |handlers|
    && forall i, c :: 0 <= i < |slots| && 0 <= c < |pending| ==>
         RoutedAt(i, c, slots[i], OwnerPc(tasks, slots[i]), pending[c], Holds(handlers[c]))
  }

  predicate HandlerOk(slots: seq<Slot>, h: Handler) {
    match h
    case Load(index, rest, _) => index !in rest
    case Read(index, rest, _) => index !in rest
    case Run(index, payload, rest, _) => index !in rest && index < |slots| && slots[index].payload == Some(payload)
    case Complete(index, rest, _) => index !in rest
    case _ => true
  }

  ghost predicate HandlersOk(slots: seq<Slot>, handlers: seq<Handler>) {
    forall c :: 0 <= c < |handlers| ==> HandlerOk(slots, handlers[c])
  }

  function Goals(pc: Pc): set<nat> {
    match pc
    case Idle => {}
    case Scan(_, _, ready, _) => ready
    case Reserve(_, targets, _) => targets
    case Generate(_, targets, _) => targets
    case Call(frame, _) => frame.payload.targets
    case Notify(_, cpu, stage) => if stage.Publish? || stage.Ring? then {cpu} else {}
  }

  predicate AllReady(cpus: seq<CpuState>, goals: set<nat>) {
    forall c :: c in goals ==> c < |cpus| && cpus[c].IpiReady?
  }

  /** Every CPU a message is going to, or has arrived at, is able to take an IPI. */
  ghost predicate Readiness(cpus: seq<CpuState>, tasks: seq<Task>, mailbox: seq<set<Message>>) {
    && (forall t :: 0 <= t < |tasks| ==> AllReady(cpus, Goals(tasks[t].pc)))
    && (forall c :: 0 <= c < |mailbox| && mailbox[c] != {} ==> AllReady(cpus, {c}))
  }

  /** A sender that has filled the mailbox of `c` and not yet rung its doorbell. */
  predicate OwesDoorbell(pc: Pc, c: nat) {
    || (pc.Call? && pc.phase == Send(Ring, c))
    || (pc.Notify? && pc.cpu == c && pc.stage.Ring?)
  }

  ghost predicate SomeoneOwes(tasks: seq<Task>, c: nat) {
    exists t :: 0 <= t < |tasks| && OwesDoorbell(tasks[t].pc, c)
  }

  ghost predicate NoLostDoorbell(tasks: seq<Task>, mailbox: seq<set<Message>>, doorbell: seq<bool>,
                                 handlers: seq<Handler>) {
    && |mailbox| == |doorbell| == |handlers|
    && forall c :: 0 <= c < |mailbox| && mailbox[c] != {} ==>
         doorbell[c] || !handlers[c].Resting? || SomeoneOwes(tasks, c)
  }

  /** The owner has queued the request on `c` and not yet put the message into its mailbox. */
  predicate AboutToMail(pc: Pc, c: nat) {
    pc.Call? && pc.phase.Send? && pc.phase.cpu == c && !pc.phase.stage.Ring?
  }

  /** The CALL_FUNCTION message for a pending request is still on its way to the handler. */
  predicate UnderWay(pc: Pc, c: nat, mailbox: set<Message>, h: Handler) {
    CallFunction in mailbox || (h.Dispatch? && CallFunction in h.messages) || AboutToMail(pc, c)
  }

  ghost predicate NoLostRequest(tasks: seq<Task>, slots: seq<Slot>, pending: seq<set<nat>>,
                                mailbox: seq<set<Message>>, handlers: seq<Handler>) {
    && |pending| == |mailbox| == |handlers|
    && forall i, c :: 0 <= c < |pending| && 0 <= i < |slots| && i in pending[c] ==>
         UnderWay(OwnerPc(tasks, slots[i]), c, mailbox[c], handlers[c])
  }

  ghost predicate Accounted(tasks: seq<Task>, generation: nat, finished: map<nat, Payload>) {
    && generation < GENERATIONS
    && (forall g :: g in finished ==> 0 < g <= generation && finished[g].generation == g)
    && (forall t :: 0 <= t < |tasks| && tasks[t].pc.Call? ==>
          0 < tasks[t].pc.frame.payload.generation <= generation && tasks[t].pc.frame.payload.generation !in finished)
    && (forall t, u :: 0 <= t < |tasks| && 0 <= u < |tasks| && t != u && tasks[t].pc.Call? && tasks[u].pc.Call? ==>
          tasks[t].pc.frame.payload.generation != tasks[u].pc.frame.payload.generation)
  }

  /** The callback has run on `c` for the live request in slot `i`. */
  predicate CalledBack(pc: Pc, slot: Slot, h: Handler, c: nat) {
    && Live(pc)
    && (c in slot.completed || (h.Complete? && h.index == pc.frame.slot))
  }

  predicate LogAt(ran: map<(nat, nat), seq<Job>>, payload: Payload, c: nat, yes: bool) {
    Ran(ran, payload.generation, c) == if yes then [payload.job] else []
  }

  predicate LiveLogAt(slots: seq<Slot>, h: Handler, ran: map<(nat, nat), seq<Job>>, pc: Pc, c: nat) {
    pc.Call? ==> pc.frame.slot < |slots| && LogAt(ran, pc.frame.payload, c, CalledBack(pc, slots[pc.frame.slot], h, c))
  }

  /** Finished calls ran once on each target; live ones once where they have been called back. */
  ghost predicate ExactlyOnce(tasks: seq<Task>, slots: seq<Slot>, handlers: seq<Handler>, generation: nat,
                              ran: map<(nat, nat), seq<Job>>, finished: map<nat, Payload>) {
    && (forall g, c :: g in finished && 0 <= c < |handlers| ==> LogAt(ran, finished[g], c, c in finished[g].targets))
    && (forall t, c :: 0 <= t < |tasks| && 0 <= c < |handlers| ==> LiveLogAt(slots, handlers[c], ran, tasks[t].pc, c))
    && (forall g, c :: g > generation && 0 <= c < |handlers| ==> Ran(ran, g, c) == [])
  }

  ghost predicate Inv(s: State) {
    && Shape(s)
    && Ownership(s.tasks, s.slots)
    && Routed(s.tasks, s.slots, s.pending, s.handlers)
    && HandlersOk(s.slots, s.handlers)
    && Readiness(s.cpus, s.tasks, s.mailbox)
    && NoLostDoorbell(s.tasks, s.mailbox, s.doorbell, s.handlers)
    && NoLostRequest(s.tasks, s.slots, s.pending, s.mailbox, s.handlers)
    && Accounted(s.tasks, s.generation, s.finished)
    && ExactlyOnce(s.tasks, s.slots, s.handlers, s.generation, s.ran, s.finished)
  }

  /** The faults a caller can provoke; every other assertion holds. */
  predicate CallerFault(f: Fault) {
    f.BadTargets? || f.TargetNotReady? || f.GenerationWrapped? || f.SendRefused? || f.InvalidTransition?
  }

  ghost predicate Good(s: State) {
    if s.fault.NoFault? then Inv(s) else CallerFault(s.fault)
  }
}
