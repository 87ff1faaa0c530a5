/**
 Every step of the cross-CPU call protocol keeps the invariant `Inv`, so every
 run keeps it, and none of the protocol's own assertions can fail.
 */
module CallFunctionSafety {
  import opened Lifecycle
  import opened CallFunction
  import opened Machine

  function Move(tasks: seq<Task>, t: nat, pc: Pc): (r: seq<Task>)
    requires t < |tasks|
    ensures |r| == |tasks| && r[t].pc == pc && forall u :: 0 <= u < |tasks| && u != t ==> r[u] == tasks[u]
  {
    tasks[t := tasks[t].(pc := pc)]
  }

  // ------------------------------------------------------------ ownership

  /** A task that neither takes nor gives up a slot. */
  lemma OwnershipPc(tasks: seq<Task>, slots: seq<Slot>, t: nat, pc: Pc)
    requires Ownership(tasks, slots) && t < |tasks| && TaskOk(slots, t, pc)
    requires forall i :: Owns(tasks[t].pc, i) <==> Owns(pc, i)
    ensures Ownership(Move(tasks, t, pc), slots)
  {
    var after := Move(tasks, t, pc);
    forall i | 0 <= i < |slots| ensures SlotOk(after, i, slots[i]) {
      assert SlotOk(tasks, i, slots[i]);
    }
  }

  /** A task that owns slot `i`, or finds it free, and changes it. */
  lemma OwnershipSlot(tasks: seq<Task>, slots: seq<Slot>, t: nat, pc: Pc, i: nat, slot: Slot)
    requires Ownership(tasks, slots) && t < |tasks| && i < |slots|
    requires slots[i].owner == None || slots[i].owner == Some(t)
    requires forall j :: Owns(tasks[t].pc, j) ==> j == i
    requires TaskOk(slots[i := slot], t, pc) && SlotOk(Move(tasks, t, pc), i, slot)
    ensures Ownership(Move(tasks, t, pc), slots[i := slot])
  {
    var after, slots' := Move(tasks, t, pc), slots[i := slot];
    forall u | 0 <= u < |tasks| ensures TaskOk(slots', u, after[u].pc) {
      assert TaskOk(slots, u, tasks[u].pc);
    }
    forall j | 0 <= j < |slots| ensures SlotOk(after, j, slots'[j]) {
      assert SlotOk(tasks, j, slots[j]);
    }
  }

  // --------------------------------------------- steps that leave every slot alone

  /** The new program counter is at the same place of the same request, as far as the slots go. */
  ghost predicate Calm(before: Pc, after: Pc) {
    && (forall i :: Owns(before, i) <==> Owns(after, i))
    && (forall i, c :: Engaged(before, i, c) <==> Engaged(after, i, c))
    && (after.Call? <==> before.Call?)
    && (after.Call? ==> after.frame == before.frame && Live(after) == Live(before))
  }

  lemma CalmRouted(s: State, t: nat, pc: Pc)
    requires t < |s.tasks| && Calm(s.tasks[t].pc, pc)
    requires Routed(s.tasks, s.slots, s.pending, s.handlers)
    ensures Routed(Move(s.tasks, t, pc), s.slots, s.pending, s.handlers)
  {
    forall i, c | 0 <= i < |s.slots| && 0 <= c < |s.pending|
      ensures RoutedAt(i, c, s.slots[i], OwnerPc(Move(s.tasks, t, pc), s.slots[i]), s.pending[c], Holds(s.handlers[c]))
    {
      assert RoutedAt(i, c, s.slots[i], OwnerPc(s.tasks, s.slots[i]), s.pending[c], Holds(s.handlers[c]));
    }
  }

  lemma CalmAccounts(s: State, t: nat, pc: Pc)
    requires t < |s.tasks| && Calm(s.tasks[t].pc, pc)
    requires Accounted(s.tasks, s.generation, s.finished)
    requires ExactlyOnce(s.tasks, s.slots, s.handlers, s.generation, s.ran, s.finished)
    ensures Accounted(Move(s.tasks, t, pc), s.generation, s.finished)
    ensures ExactlyOnce(Move(s.tasks, t, pc), s.slots, s.handlers, s.generation, s.ran, s.finished)
  {
    forall u, c | 0 <= u < |s.tasks| && 0 <= c < |s.handlers|
      ensures LiveLogAt(s.slots, s.handlers[c], s.ran, Move(s.tasks, t, pc)[u].pc, c)
    {
      assert LiveLogAt(s.slots, s.handlers[c], s.ran, s.tasks[u].pc, c);
    }
  }

  lemma CalmReady(s: State, t: nat, pc: Pc)
    requires t < |s.tasks| && AllReady(s.cpus, Goals(pc)) && Readiness(s.cpus, s.tasks, s.mailbox)
    ensures Readiness(s.cpus, Move(s.tasks, t, pc), s.mailbox)
  {
  }

  /** The conditions under which a task may move on without touching anything shared. */
  ghost predicate MayMove(s: State, t: nat, pc: Pc) {
    && t < |s.tasks|
    && Calm(s.tasks[t].pc, pc)
    && PcShape(|s.cpus|, |s.slots|, pc)
    && TaskOk(s.slots, t, pc)
    && AllReady(s.cpus, Goals(pc))
  }

  lemma MoveKeeps(s: State, t: nat, pc: Pc)
    requires Inv(s) && MayMove(s, t, pc)
    requires forall c :: OwesDoorbell(s.tasks[t].pc, c) ==> OwesDoorbell(pc, c)
    requires forall c :: AboutToMail(s.tasks[t].pc, c) ==> AboutToMail(pc, c)
    ensures Inv(s.(tasks := Move(s.tasks, t, pc)))
  {
    OwnershipPc(s.tasks, s.slots, t, pc);
    CalmRouted(s, t, pc);
    CalmAccounts(s, t, pc);
    CalmReady(s, t, pc);
    OwedAfterMove(s.tasks, t, pc);
    RequestAfterMove(s, t, pc);
  }

  lemma OwedAfterMove(tasks: seq<Task>, t: nat, pc: Pc)
    requires t < |tasks|
    requires forall c :: OwesDoorbell(tasks[t].pc, c) ==> OwesDoorbell(pc, c)
    ensures forall c :: SomeoneOwes(tasks, c) ==> SomeoneOwes(Move(tasks, t, pc), c)
  {
    forall c | SomeoneOwes(tasks, c) ensures SomeoneOwes(Move(tasks, t, pc), c) {
      var u :| 0 <= u < |tasks| && OwesDoorbell(tasks[u].pc, c);
      assert OwesDoorbell(Move(tasks, t, pc)[u].pc, c);
    }
  }

  lemma RequestAfterMove(s: State, t: nat, pc: Pc)
    requires NoLostRequest(s.tasks, s.slots, s.pending, s.mailbox, s.handlers) && t < |s.tasks|
    requires forall c :: AboutToMail(s.tasks[t].pc, c) ==> AboutToMail(pc, c)
    ensures NoLostRequest(Move(s.tasks, t, pc), s.slots, s.pending, s.mailbox, s.handlers)
  {
    forall i, c | 0 <= c < |s.pending| && 0 <= i < |s.slots| && i in s.pending[c]
      ensures UnderWay(OwnerPc(Move(s.tasks, t, pc), s.slots[i]), c, s.mailbox[c], s.handlers[c])
    {
      assert UnderWay(OwnerPc(s.tasks, s.slots[i]), c, s.mailbox[c], s.handlers[c]);
    }
  }

  /** Putting a message into a mailbox: the doorbell is owed unless the mailbox was not empty. */
  lemma MailKeeps(s: State, t: nat, pc: Pc, c0: nat, message: Message)
    requires Inv(s) && MayMove(s, t, pc) && c0 < |s.cpus| && s.cpus[c0].IpiReady?
    requires forall c :: !OwesDoorbell(s.tasks[t].pc, c)
    requires OwesDoorbell(pc, c0) || s.mailbox[c0] != {}
    requires forall c :: AboutToMail(s.tasks[t].pc, c) ==> c == c0 && message.CallFunction?
    ensures Inv(s.(tasks := Move(s.tasks, t, pc), mailbox := s.mailbox[c0 := s.mailbox[c0] + {message}]))
  {
    var tasks, mailbox := Move(s.tasks, t, pc), s.mailbox[c0 := s.mailbox[c0] + {message}];
    OwnershipPc(s.tasks, s.slots, t, pc);
    CalmRouted(s, t, pc);
    CalmAccounts(s, t, pc);
    CalmReady(s, t, pc);
    OwedAfterMove(s.tasks, t, pc);
    assert OwesDoorbell(tasks[t].pc, c0) ==> SomeoneOwes(tasks, c0);
    forall i, c | 0 <= c < |s.pending| && 0 <= i < |s.slots| && i in s.pending[c]
      ensures UnderWay(OwnerPc(tasks, s.slots[i]), c, mailbox[c], s.handlers[c])
    {
      assert UnderWay(OwnerPc(s.tasks, s.slots[i]), c, s.mailbox[c], s.handlers[c]);
    }
  }

  lemma RingKeeps(s: State, t: nat, pc: Pc, c0: nat)
    requires Inv(s) && MayMove(s, t, pc) && c0 < |s.cpus|
    requires forall c :: OwesDoorbell(s.tasks[t].pc, c) ==> c == c0
    requires forall c :: !AboutToMail(s.tasks[t].pc, c)
    ensures Inv(s.(tasks := Move(s.tasks, t, pc), doorbell := s.doorbell[c0 := true]))
  {
    OwnershipPc(s.tasks, s.slots, t, pc);
    CalmRouted(s, t, pc);
    CalmAccounts(s, t, pc);
    CalmReady(s, t, pc);
    RequestAfterMove(s, t, pc);
    forall c | 0 <= c < |s.cpus| && c != c0 && SomeoneOwes(s.tasks, c) ensures SomeoneOwes(Move(s.tasks, t, pc), c) {
      var u :| 0 <= u < |s.tasks| && OwesDoorbell(s.tasks[u].pc, c);
      assert OwesDoorbell(Move(s.tasks, t, pc)[u].pc, c);
    }
  }

  // ------------------------------------------------------------ task steps

  lemma NotifyKeeps(s: State, t: nat)
    requires Inv(s) && t < |s.tasks| && s.tasks[t].pc.Notify? && s.fault.NoFault?
    ensures Good(NotifyStep(s, t))
  {
    var pc := s.tasks[t].pc;
    assert AllReady(s.cpus, Goals(pc));
    var pc' := NotifyStep(s, t).tasks[t].pc;
    match pc.stage
    case CheckOnline => if s.cpus[pc.cpu].IsOnline() { MoveKeeps(s, t, pc'); }
    case CheckReady => if s.cpus[pc.cpu].AcceptsIpi() { MoveKeeps(s, t, pc'); }
    case Publish => MailKeeps(s, t, pc', pc.cpu, pc.message);
    case Ring => RingKeeps(s, t, pc', pc.cpu);
  }

  /** The call phases that only move the task, possibly ringing or mailing. */
  predicate Quiet(s: State, pc: Pc)
    requires Shape(s) && pc.Call?
  {
    match pc.phase
    case PublishCheck => true
    case Queue(next) => next >= |s.cpus| || next !in pc.frame.payload.targets
    case Send(_, _) => true
    case Await => true
    case ReleaseCheck => true
    case _ => false
  }

  predicate Sending(s: State, t: nat) {
    t < |s.tasks| && s.tasks[t].pc.Call? && s.tasks[t].pc.phase.Send? && s.fault.NoFault?
  }

  lemma SendMails(s: State, t: nat)
    requires Inv(s) && Sending(s, t) && s.tasks[t].pc.phase.stage.Publish?
    ensures Good(CallStep(s, t))
  {
    var pc := s.tasks[t].pc;
    assert AllReady(s.cpus, Goals(pc)) && TaskOk(s.slots, t, pc) && PcShape(|s.cpus|, |s.slots|, pc);
    MailKeeps(s, t, CallStep(s, t).tasks[t].pc, pc.phase.cpu, CallFunction);
  }

  lemma SendRings(s: State, t: nat)
    requires Inv(s) && Sending(s, t) && s.tasks[t].pc.phase.stage.Ring?
    ensures Good(CallStep(s, t))
  {
    var pc := s.tasks[t].pc;
    assert AllReady(s.cpus, Goals(pc)) && TaskOk(s.slots, t, pc) && PcShape(|s.cpus|, |s.slots|, pc);
    RingKeeps(s, t, CallStep(s, t).tasks[t].pc, pc.phase.cpu);
  }

  lemma SendKeeps(s: State, t: nat)
    requires Inv(s) && Sending(s, t)
    ensures Good(CallStep(s, t))
  {
    var pc := s.tasks[t].pc;
    if pc.phase.stage.Publish? {
      SendMails(s, t);
    } else if pc.phase.stage.Ring? {
      SendRings(s, t);
    } else {
      assert AllReady(s.cpus, Goals(pc)) && TaskOk(s.slots, t, pc) && PcShape(|s.cpus|, |s.slots|, pc);
      MoveKeeps(s, t, CallStep(s, t).tasks[t].pc);
    }
  }

  /** Every other quiet step stays within its frame. */
  lemma QuietMove(s: State, t: nat)
    requires Shape(s) && t < |s.tasks| && s.tasks[t].pc.Call? && s.fault.NoFault? && TaskOk(s.slots, t, s.tasks[t].pc)
    requires Quiet(s, s.tasks[t].pc) && !s.tasks[t].pc.phase.Send?
    ensures
      var s' := CallStep(s, t);
      var pc' := s'.tasks[t].pc;
      && s' == s.(tasks := Move(s.tasks, t, pc'))
      && Calm(s.tasks[t].pc, pc') && TaskOk(s.slots, t, pc') && PcShape(|s.cpus|, |s.slots|, pc')
  {
    assert PcShape(|s.cpus|, |s.slots|, s.tasks[t].pc);
  }

  lemma QuietKeeps(s: State, t: nat)
    requires Inv(s) && t < |s.tasks| && s.tasks[t].pc.Call? && s.fault.NoFault?
    requires Quiet(s, s.tasks[t].pc) && !s.tasks[t].pc.phase.Send?
    ensures Good(CallStep(s, t))
  {
    assert AllReady(s.cpus, Goals(s.tasks[t].pc)) && TaskOk(s.slots, t, s.tasks[t].pc);
    QuietMove(s, t);
    MoveKeeps(s, t, CallStep(s, t).tasks[t].pc);
  }

  // ------------------------------------------------------------ queueing

  lemma QueuePutRouted(s: State, t: nat, pc: Pc, pc': Pc, next: nat)
    requires t < |s.tasks| && Ownership(s.tasks, s.slots) && Routed(s.tasks, s.slots, s.pending, s.handlers)
    requires s.tasks[t].pc == pc && pc.Call? && pc.phase == Queue(next) && next in pc.frame.payload.targets
    requires next < |s.pending| && pc' == Call(pc.frame, Send(CheckOnline, next))
    ensures pc.frame.slot < |s.slots| && pc.frame.slot !in s.pending[next]
    ensures Routed(Move(s.tasks, t, pc'), s.slots, s.pending[next := s.pending[next] + {pc.frame.slot}], s.handlers)
  {
    var f := pc.frame;
    assert TaskOk(s.slots, t, pc);
    assert RoutedAt(f.slot, next, s.slots[f.slot], pc, s.pending[next], Holds(s.handlers[next]));
    var pending := s.pending[next := s.pending[next] + {f.slot}];
    forall i, c | 0 <= i < |s.slots| && 0 <= c < |pending|
      ensures RoutedAt(i, c, s.slots[i], OwnerPc(Move(s.tasks, t, pc'), s.slots[i]), pending[c], Holds(s.handlers[c]))
    {
      assert RoutedAt(i, c, s.slots[i], OwnerPc(s.tasks, s.slots[i]), s.pending[c], Holds(s.handlers[c]));
      assert SlotOk(s.tasks, i, s.slots[i]);
    }
  }

  lemma QueuePutRequest(s: State, t: nat, pc: Pc, pc': Pc, next: nat)
    requires t < |s.tasks| && Ownership(s.tasks, s.slots)
    requires NoLostRequest(s.tasks, s.slots, s.pending, s.mailbox, s.handlers)
    requires s.tasks[t].pc == pc && pc.Call? && pc.phase == Queue(next)
    requires next < |s.pending| && pc' == Call(pc.frame, Send(CheckOnline, next))
    ensures NoLostRequest(Move(s.tasks, t, pc'), s.slots, s.pending[next := s.pending[next] + {pc.frame.slot}],
                          s.mailbox, s.handlers)
  {
    var pending := s.pending[next := s.pending[next] + {pc.frame.slot}];
    assert TaskOk(s.slots, t, pc);
    forall i, c | 0 <= c < |pending| && 0 <= i < |s.slots| && i in pending[c]
      ensures UnderWay(OwnerPc(Move(s.tasks, t, pc'), s.slots[i]), c, s.mailbox[c], s.handlers[c])
    {
      if i in s.pending[c] {
        assert UnderWay(OwnerPc(s.tasks, s.slots[i]), c, s.mailbox[c], s.handlers[c]);
      }
    }
  }

  lemma QueuePutOnce(s: State, t: nat, pc': Pc)
    requires t < |s.tasks| && s.tasks[t].pc.Call? && pc'.Call?
    requires pc'.frame == s.tasks[t].pc.frame && Live(pc') == Live(s.tasks[t].pc)
    requires Accounted(s.tasks, s.generation, s.finished)
    requires ExactlyOnce(s.tasks, s.slots, s.handlers, s.generation, s.ran, s.finished)
    ensures Accounted(Move(s.tasks, t, pc'), s.generation, s.finished)
    ensures ExactlyOnce(Move(s.tasks, t, pc'), s.slots, s.handlers, s.generation, s.ran, s.finished)
  {
    forall u, c | 0 <= u < |s.tasks| && 0 <= c < |s.handlers|
      ensures LiveLogAt(s.slots, s.handlers[c], s.ran, Move(s.tasks, t, pc')[u].pc, c)
    {
      assert LiveLogAt(s.slots, s.handlers[c], s.ran, s.tasks[u].pc, c);
    }
  }

  lemma QueuePutKeeps(s: State, t: nat)
    requires Inv(s) && t < |s.tasks| && s.tasks[t].pc.Call? && s.tasks[t].pc.phase.Queue? && s.fault.NoFault?
    requires !Quiet(s, s.tasks[t].pc)
    ensures Good(CallStep(s, t))
  {
    var pc := s.tasks[t].pc;
    var next, pc' := pc.phase.next, Call(pc.frame, Send(CheckOnline, pc.phase.next));
    assert AllReady(s.cpus, Goals(pc)) && TaskOk(s.slots, t, pc) && PcShape(|s.cpus|, |s.slots|, pc);
    QueuePutRouted(s, t, pc, pc', next);
    QueuePutRequest(s, t, pc, pc', next);
    QueuePutOnce(s, t, pc');
    OwnershipPc(s.tasks, s.slots, t, pc');
    CalmReady(s, t, pc');
    OwedAfterMove(s.tasks, t, pc');
  }

  // ------------------------------------------------------------ reserving, publishing, releasing

  /** No CPU refers to slot `i`. */
  ghost predicate Unused(s: State, i: nat)
    requires Shape(s)
  {
    forall c :: 0 <= c < |s.cpus| ==> i !in s.pending[c] && i !in Holds(s.handlers[c])
  }

  /** A slot that is not READY, or whose targets have all completed, is not referred to: it may be reused. */
  lemma UnusedSlot(s: State, i: nat)
    requires Shape(s) && Ownership(s.tasks, s.slots) && Routed(s.tasks, s.slots, s.pending, s.handlers) && i < |s.slots|
    requires
      var pc := OwnerPc(s.tasks, s.slots[i]);
      !Live(pc) || pc.frame.payload.targets <= s.slots[i].completed
    ensures Unused(s, i)
  {
    forall c | 0 <= c < |s.cpus| ensures i !in s.pending[c] && i !in Holds(s.handlers[c]) {
      assert RoutedAt(i, c, s.slots[i], OwnerPc(s.tasks, s.slots[i]), s.pending[c], Holds(s.handlers[c]));
    }
  }

  /** Task `t`, the only one concerned with slot `i`, rewrites it. */
  ghost predicate MayRewrite(s: State, t: nat, pc: Pc, i: nat, slot: Slot)
    requires Shape(s)
  {
    && t < |s.tasks| && i < |s.slots| && Unused(s, i)
    && OwnedOrFree(s.slots[i], t)
    && (forall j :: Owns(s.tasks[t].pc, j) ==> j == i)
    && TaskOk(s.slots[i := slot], t, pc) && SlotOk(Move(s.tasks, t, pc), i, slot)
    && PcShape(|s.cpus|, |s.slots|, pc)
    && (forall c :: !Engaged(pc, i, c)) && (slot.state.Ready? ==> slot.completed == {})
    && AllReady(s.cpus, Goals(pc))
    && (forall c :: !OwesDoorbell(s.tasks[t].pc, c)) && (forall c :: !AboutToMail(s.tasks[t].pc, c))
  }

  predicate OwnedOrFree(slot: Slot, t: nat) {
    slot.owner == None || slot.owner == Some(t)
  }

  lemma RewriteRouted(s: State, t: nat, pc: Pc, i: nat, slot: Slot)
    requires Shape(s) && Ownership(s.tasks, s.slots) && MayRewrite(s, t, pc, i, slot)
    requires Routed(s.tasks, s.slots, s.pending, s.handlers)
    requires NoLostRequest(s.tasks, s.slots, s.pending, s.mailbox, s.handlers)
    ensures Routed(Move(s.tasks, t, pc), s.slots[i := slot], s.pending, s.handlers)
    ensures NoLostRequest(Move(s.tasks, t, pc), s.slots[i := slot], s.pending, s.mailbox, s.handlers)
  {
    var tasks, slots := Move(s.tasks, t, pc), s.slots[i := slot];
    forall j, c | 0 <= j < |slots| && 0 <= c < |s.pending|
      ensures RoutedAt(j, c, slots[j], OwnerPc(tasks, slots[j]), s.pending[c], Holds(s.handlers[c]))
      ensures j in s.pending[c] ==> UnderWay(OwnerPc(tasks, slots[j]), c, s.mailbox[c], s.handlers[c])
    {
      assert RoutedAt(j, c, s.slots[j], OwnerPc(s.tasks, s.slots[j]), s.pending[c], Holds(s.handlers[c]));
      assert SlotOk(s.tasks, j, s.slots[j]);
      if j in s.pending[c] {
        assert UnderWay(OwnerPc(s.tasks, s.slots[j]), c, s.mailbox[c], s.handlers[c]);
      }
    }
  }

  lemma RewriteHandlers(s: State, i: nat, slot: Slot)
    requires Shape(s) && HandlersOk(s.slots, s.handlers) && i < |s.slots| && Unused(s, i)
    ensures HandlersOk(s.slots[i := slot], s.handlers)
  {
    forall c | 0 <= c < |s.handlers| ensures HandlerOk(s.slots[i := slot], s.handlers[c]) {
      assert HandlerOk(s.slots, s.handlers[c]);
    }
  }

  /** Requests in other slots keep their callback log. */
  lemma RewriteOnce(s: State, t: nat, pc: Pc, i: nat, slot: Slot, generation: nat, finished: map<nat, Payload>)
    requires Shape(s) && Ownership(s.tasks, s.slots) && t < |s.tasks| && i < |s.slots| && OwnedOrFree(s.slots[i], t)
    requires ExactlyOnce(s.tasks, s.slots, s.handlers, s.generation, s.ran, s.finished)
    requires forall c :: 0 <= c < |s.handlers| ==> LiveLogAt(s.slots[i := slot], s.handlers[c], s.ran, pc, c)
    requires generation >= s.generation
    requires forall g :: g in finished ==>
      (g in s.finished && finished[g] == s.finished[g]) ||
      (forall c :: 0 <= c < |s.handlers| ==> LogAt(s.ran, finished[g], c, c in finished[g].targets))
    ensures ExactlyOnce(Move(s.tasks, t, pc), s.slots[i := slot], s.handlers, generation, s.ran, finished)
  {
    var tasks, slots := Move(s.tasks, t, pc), s.slots[i := slot];
    forall u, c | 0 <= u < |tasks| && 0 <= c < |s.handlers|
      ensures LiveLogAt(slots, s.handlers[c], s.ran, tasks[u].pc, c)
    {
      assert LiveLogAt(s.slots, s.handlers[c], s.ran, s.tasks[u].pc, c);
      assert TaskOk(s.slots, u, s.tasks[u].pc);
    }
    forall g, c | g in finished && 0 <= c < |s.handlers|
      ensures LogAt(s.ran, finished[g], c, c in finished[g].targets)
    {
      if g in s.finished {
        assert LogAt(s.ran, s.finished[g], c, c in s.finished[g].targets);
      }
    }
  }

  lemma RewriteKeeps(s: State, t: nat, pc: Pc, i: nat, slot: Slot, generation: nat, finished: map<nat, Payload>)
    requires Inv(s) && MayRewrite(s, t, pc, i, slot)
    requires Accounted(Move(s.tasks, t, pc), generation, finished)
    requires ExactlyOnce(Move(s.tasks, t, pc), s.slots[i := slot], s.handlers, generation, s.ran, finished)
    ensures Inv(s.(tasks := Move(s.tasks, t, pc), slots := s.slots[i := slot],
                  generation := generation, finished := finished))
  {
    OwnershipSlot(s.tasks, s.slots, t, pc, i, slot);
    RewriteRouted(s, t, pc, i, slot);
    RewriteHandlers(s, i, slot);
    CalmReady(s, t, pc);
    OwedAfterMove(s.tasks, t, pc);
  }

  lemma FreeHasNoOwner(tasks: seq<Task>, slots: seq<Slot>, i: nat)
    requires Ownership(tasks, slots) && i < |slots| && slots[i].state.Free?
    ensures slots[i].owner == None
  {
    assert SlotOk(tasks, i, slots[i]);
    assert forall t :: 0 <= t < |tasks| ==> TaskOk(slots, t, tasks[t].pc);
  }

  lemma ReserveKeeps(s: State, t: nat)
    requires Inv(s) && t < |s.tasks| && s.tasks[t].pc.Reserve? && s.fault.NoFault?
    requires s.tasks[t].pc.index < |s.slots| && s.slots[s.tasks[t].pc.index].state.Free?
    ensures Good(PrepareStep(s, t))
  {
    var pc := s.tasks[t].pc;
    var i := pc.index;
    var pc', slot' := Generate(pc.job, pc.targets, i), s.slots[i].(state := Reserved, owner := Some(t));
    assert SlotOk(s.tasks, i, s.slots[i]) && PcShape(|s.cpus|, |s.slots|, pc) && AllReady(s.cpus, Goals(pc));
    FreeHasNoOwner(s.tasks, s.slots, i);
    UnusedSlot(s, i);
    RewriteOnce(s, t, pc', i, slot', s.generation, s.finished);
    RewriteKeeps(s, t, pc', i, slot', s.generation, s.finished);
  }

  lemma GenerateAccounts(s: State, t: nat, pc': Pc)
    requires t < |s.tasks| && pc'.Call? && pc'.frame.payload.generation == s.generation + 1 < GENERATIONS
    requires Accounted(s.tasks, s.generation, s.finished)
    ensures Accounted(Move(s.tasks, t, pc'), s.generation + 1, s.finished)
  {
  }

  lemma GenerateMove(s: State, t: nat, pc': Pc, i: nat)
    requires Inv(s) && t < |s.tasks| && s.tasks[t].pc.Generate? && i == s.tasks[t].pc.slot
    requires s.generation + 1 < GENERATIONS
    requires pc' == Call(Frame(i, Payload(s.tasks[t].pc.job, s.tasks[t].pc.targets, s.generation + 1)), PublishCheck)
    ensures Inv(s.(tasks := Move(s.tasks, t, pc'), generation := s.generation + 1))
  {
    var pc := s.tasks[t].pc;
    assert TaskOk(s.slots, t, pc) && PcShape(|s.cpus|, |s.slots|, pc) && AllReady(s.cpus, Goals(pc));
    assert SlotOk(s.tasks, i, s.slots[i]);
    assert s.slots == s.slots[i := s.slots[i]];
    UnusedSlot(s, i);
    GenerateAccounts(s, t, pc');
    RewriteOnce(s, t, pc', i, s.slots[i], s.generation + 1, s.finished);
    RewriteKeeps(s, t, pc', i, s.slots[i], s.generation + 1, s.finished);
  }

  lemma GenerateKeeps(s: State, t: nat)
    requires Inv(s) && t < |s.tasks| && s.tasks[t].pc.Generate? && s.fault.NoFault?
    ensures Good(PrepareStep(s, t))
  {
    if s.generation + 1 < GENERATIONS {
      GenerateMove(s, t, PrepareStep(s, t).tasks[t].pc, s.tasks[t].pc.slot);
    }
  }

  lemma PublishKeeps(s: State, t: nat)
    requires Inv(s) && t < |s.tasks| && s.tasks[t].pc.Call? && s.fault.NoFault?
    requires s.tasks[t].pc.phase.PublishClear? || s.tasks[t].pc.phase.PublishWrite? || s.tasks[t].pc.phase.PublishReady?
    ensures Good(CallStep(s, t))
  {
    var pc := s.tasks[t].pc;
    var i := pc.frame.slot;
    var pc', slot' := CallStep(s, t).tasks[t].pc, CallStep(s, t).slots[i];
    assert TaskOk(s.slots, t, pc) && PcShape(|s.cpus|, |s.slots|, pc) && AllReady(s.cpus, Goals(pc));
    assert SlotOk(s.tasks, i, s.slots[i]);
    UnusedSlot(s, i);
    PublishLog(s, t, pc', i, slot');
    RewriteOnce(s, t, pc', i, slot', s.generation, s.finished);
    QueuePutAccounts(s, t, pc');
    RewriteKeeps(s, t, pc', i, slot', s.generation, s.finished);
  }

  /** A request that becomes READY has not been called back anywhere. */
  lemma PublishLog(s: State, t: nat, pc': Pc, i: nat, slot': Slot)
    requires Shape(s) && t < |s.tasks| && s.tasks[t].pc.Call? && s.tasks[t].pc.frame.slot == i && Unused(s, i)
    requires ExactlyOnce(s.tasks, s.slots, s.handlers, s.generation, s.ran, s.finished)
    requires !Live(s.tasks[t].pc) && pc'.Call? && pc'.frame == s.tasks[t].pc.frame
    requires Live(pc') ==> slot'.completed == {}
    ensures forall c :: 0 <= c < |s.handlers| ==> LiveLogAt(s.slots[i := slot'], s.handlers[c], s.ran, pc', c)
  {
    forall c | 0 <= c < |s.handlers| ensures LiveLogAt(s.slots[i := slot'], s.handlers[c], s.ran, pc', c) {
      assert LiveLogAt(s.slots, s.handlers[c], s.ran, s.tasks[t].pc, c);
    }
  }

  lemma QueuePutAccounts(s: State, t: nat, pc': Pc)
    requires t < |s.tasks| && s.tasks[t].pc.Call? && pc'.Call? && pc'.frame == s.tasks[t].pc.frame
    requires Accounted(s.tasks, s.generation, s.finished)
    ensures Accounted(Move(s.tasks, t, pc'), s.generation, s.finished)
  {
  }

  lemma ReleaseKeeps(s: State, t: nat)
    requires Inv(s) && t < |s.tasks| && s.tasks[t].pc.Call? && s.tasks[t].pc.phase.ReleaseSwap? && s.fault.NoFault?
    ensures Good(CallStep(s, t))
  {
    var pc := s.tasks[t].pc;
    var i, p := pc.frame.slot, pc.frame.payload;
    var slot', finished' := s.slots[i].(state := Free, owner := None), s.finished[p.generation := p];
    assert TaskOk(s.slots, t, pc) && SlotOk(s.tasks, i, s.slots[i]);
    UnusedSlot(s, i);
    forall c | 0 <= c < |s.handlers| ensures LogAt(s.ran, p, c, c in p.targets) {
      assert LiveLogAt(s.slots, s.handlers[c], s.ran, pc, c);
    }
    RewriteOnce(s, t, Idle, i, slot', s.generation, finished');
    RewriteKeeps(s, t, Idle, i, slot', s.generation, finished');
  }

  lemma PrepareKeeps(s: State, t: nat)
    requires Inv(s) && t < |s.tasks| && s.fault.NoFault?
    requires s.tasks[t].pc.Scan? || s.tasks[t].pc.Reserve? || s.tasks[t].pc.Generate?
    ensures Good(PrepareStep(s, t))
  {
    var pc := s.tasks[t].pc;
    assert PcShape(|s.cpus|, |s.slots|, pc) && AllReady(s.cpus, Goals(pc));
    if pc.Generate? {
      GenerateKeeps(s, t);
    } else if pc.Reserve? && pc.index < |s.slots| && s.slots[pc.index].state.Free? {
      ReserveKeeps(s, t);
    } else if PrepareStep(s, t).fault.NoFault? {
      MoveKeeps(s, t, PrepareStep(s, t).tasks[t].pc);
    }
  }

  lemma CallKeeps(s: State, t: nat)
    requires Inv(s) && t < |s.tasks| && s.tasks[t].pc.Call? && s.fault.NoFault?
    ensures Good(CallStep(s, t))
  {
    match s.tasks[t].pc.phase
    case PublishClear => PublishKeeps(s, t);
    case PublishWrite => PublishKeeps(s, t);
    case PublishReady => PublishKeeps(s, t);
    case ReleaseSwap => ReleaseKeeps(s, t);
    case Send(_, _) => SendKeeps(s, t);
    case _ => if Quiet(s, s.tasks[t].pc) { QuietKeeps(s, t); } else { QueuePutKeeps(s, t); }
  }

  // ------------------------------------------------------------ handler steps

  ghost predicate SawMessage(mailbox: set<Message>, h: Handler) {
    CallFunction in mailbox || (h.Dispatch? && CallFunction in h.messages)
  }

  lemma HandlerRouted(s: State, c0: nat, h: Handler)
    requires c0 < |s.handlers| && Routed(s.tasks, s.slots, s.pending, s.handlers) && Holds(h) == Holds(s.handlers[c0])
    ensures Routed(s.tasks, s.slots, s.pending, s.handlers[c0 := h])
  {
    var handlers := s.handlers[c0 := h];
    forall i, c | 0 <= i < |s.slots| && 0 <= c < |s.pending|
      ensures RoutedAt(i, c, s.slots[i], OwnerPc(s.tasks, s.slots[i]), s.pending[c], Holds(handlers[c]))
    {
      assert RoutedAt(i, c, s.slots[i], OwnerPc(s.tasks, s.slots[i]), s.pending[c], Holds(s.handlers[c]));
    }
  }

  lemma HandlerOnce(s: State, c0: nat, h: Handler)
    requires c0 < |s.handlers| && !h.Complete? && !s.handlers[c0].Complete?
    requires ExactlyOnce(s.tasks, s.slots, s.handlers, s.generation, s.ran, s.finished)
    ensures ExactlyOnce(s.tasks, s.slots, s.handlers[c0 := h], s.generation, s.ran, s.finished)
  {
    var handlers := s.handlers[c0 := h];
    forall t, c | 0 <= t < |s.tasks| && 0 <= c < |s.handlers|
      ensures LiveLogAt(s.slots, handlers[c], s.ran, s.tasks[t].pc, c)
    {
      assert LiveLogAt(s.slots, s.handlers[c], s.ran, s.tasks[t].pc, c);
    }
  }

  /** A handler step that neither takes requests nor runs nor completes one. */
  lemma HandlerMoveKeeps(s: State, c0: nat, h: Handler, box: set<Message>, bell: bool)
    requires Inv(s) && c0 < |s.cpus|
    requires Holds(h) == Holds(s.handlers[c0]) && !h.Complete? && !s.handlers[c0].Complete? && HandlerOk(s.slots, h)
    requires box <= s.mailbox[c0] && (box != {} ==> bell || !h.Resting?)
    requires SawMessage(s.mailbox[c0], s.handlers[c0]) ==> SawMessage(box, h)
    ensures Inv(s.(handlers := s.handlers[c0 := h], mailbox := s.mailbox[c0 := box],
                   doorbell := s.doorbell[c0 := bell]))
  {
    HandlerRouted(s, c0, h);
    HandlerOnce(s, c0, h);
    var handlers, mailbox := s.handlers[c0 := h], s.mailbox[c0 := box];
    forall i, c | 0 <= c < |s.pending| && 0 <= i < |s.slots| && i in s.pending[c]
      ensures UnderWay(OwnerPc(s.tasks, s.slots[i]), c, mailbox[c], handlers[c])
    {
      assert UnderWay(OwnerPc(s.tasks, s.slots[i]), c, s.mailbox[c], s.handlers[c]);
    }
  }

  /** `call_function::handle_current` empties the pending mask into its batch. */
  lemma SwapKeeps(s: State, c0: nat)
    requires Inv(s) && c0 < |s.cpus| && s.handlers[c0].Dispatch? && s.fault.NoFault?
    requires CallFunction in s.handlers[c0].messages && TlbShootdown !in s.handlers[c0].messages
    ensures Good(HandlerDo(s, c0))
  {
    var h := Batch(s.pending[c0], s.handlers[c0].messages - {CallFunction});
    var pending, handlers := s.pending[c0 := {}], s.handlers[c0 := h];
    HandlerOnce(s, c0, h);
    SwapRouted(s, c0, h);
    forall i, c | 0 <= c < |pending| && 0 <= i < |s.slots| && i in pending[c]
      ensures UnderWay(OwnerPc(s.tasks, s.slots[i]), c, s.mailbox[c], handlers[c])
    {
      assert UnderWay(OwnerPc(s.tasks, s.slots[i]), c, s.mailbox[c], s.handlers[c]);
    }
  }

  lemma SwapRouted(s: State, c0: nat, h: Handler)
    requires c0 < |s.handlers| && Routed(s.tasks, s.slots, s.pending, s.handlers)
    requires Holds(s.handlers[c0]) == {} && Holds(h) == s.pending[c0]
    ensures Routed(s.tasks, s.slots, s.pending[c0 := {}], s.handlers[c0 := h])
  {
    var pending, handlers := s.pending[c0 := {}], s.handlers[c0 := h];
    forall i, c | 0 <= i < |s.slots| && 0 <= c < |s.pending|
      ensures RoutedAt(i, c, s.slots[i], OwnerPc(s.tasks, s.slots[i]), pending[c], Holds(handlers[c]))
    {
      assert RoutedAt(i, c, s.slots[i], OwnerPc(s.tasks, s.slots[i]), s.pending[c], Holds(s.handlers[c]));
    }
  }

  /** What a CPU knows about a request it holds: it is READY and shows its owner's payload. */
  lemma HeldRequest(s: State, c: nat, i: nat) returns (t: nat)
    requires Shape(s) && Ownership(s.tasks, s.slots) && Routed(s.tasks, s.slots, s.pending, s.handlers)
    requires c < |s.cpus| && i in Holds(s.handlers[c])
    ensures i < |s.slots| && t < |s.tasks| && s.slots[i].owner == Some(t) && s.slots[i].state.Ready?
    ensures Live(s.tasks[t].pc) && s.tasks[t].pc.frame.slot == i
    ensures s.slots[i].payload == Some(s.tasks[t].pc.frame.payload)
    ensures c in s.tasks[t].pc.frame.payload.targets && c !in s.slots[i].completed && i !in s.pending[c]
    ensures Passed(s.tasks[t].pc, c)
  {
    assert RoutedAt(i, c, s.slots[i], OwnerPc(s.tasks, s.slots[i]), s.pending[c], Holds(s.handlers[c]));
    t := s.slots[i].owner.value;
    assert TaskOk(s.slots, t, s.tasks[t].pc);
  }

  lemma RunKeeps(s: State, c0: nat)
    requires Inv(s) && c0 < |s.cpus| && s.handlers[c0].Run? && s.fault.NoFault?
    ensures Good(HandlerDo(s, c0))
  {
    var Run(i, p, rest, messages) := s.handlers[c0];
    assert HandlerOk(s.slots, s.handlers[c0]);
    var t := HeldRequest(s, c0, i);
    var h := Complete(i, rest, messages);
    HandlerRouted(s, c0, h);
    RunOnce(s, c0, t, i, h);
    var handlers := s.handlers[c0 := h];
    forall j, c | 0 <= c < |s.pending| && 0 <= j < |s.slots| && j in s.pending[c]
      ensures UnderWay(OwnerPc(s.tasks, s.slots[j]), c, s.mailbox[c], handlers[c])
    {
      assert UnderWay(OwnerPc(s.tasks, s.slots[j]), c, s.mailbox[c], s.handlers[c]);
    }
  }

  lemma RunOnce(s: State, c0: nat, t: nat, i: nat, h: Handler)
    requires c0 < |s.handlers| && t < |s.tasks| && i < |s.slots| && Ownership(s.tasks, s.slots)
    requires s.handlers[c0].Run? && h.Complete? && h.index == i
    requires Live(s.tasks[t].pc) && s.tasks[t].pc.frame.slot == i
    requires s.handlers[c0].payload == s.tasks[t].pc.frame.payload
    requires c0 !in s.slots[i].completed
    requires Accounted(s.tasks, s.generation, s.finished)
    requires ExactlyOnce(s.tasks, s.slots, s.handlers, s.generation, s.ran, s.finished)
    ensures
      var p := s.handlers[c0].payload;
      ExactlyOnce(s.tasks, s.slots, s.handlers[c0 := h], s.generation,
                  s.ran[(p.generation, c0) := Ran(s.ran, p.generation, c0) + [p.job]], s.finished)
  {
    var handlers := s.handlers[c0 := h];
    var p := s.handlers[c0].payload;
    var ran := s.ran[(p.generation, c0) := Ran(s.ran, p.generation, c0) + [p.job]];
    forall u, c | 0 <= u < |s.tasks| && 0 <= c < |s.handlers|
      ensures LiveLogAt(s.slots, handlers[c], ran, s.tasks[u].pc, c)
    {
      assert LiveLogAt(s.slots, s.handlers[c], s.ran, s.tasks[u].pc, c);
      assert TaskOk(s.slots, u, s.tasks[u].pc) && TaskOk(s.slots, t, s.tasks[t].pc);
    }
    forall g, c | g in s.finished && 0 <= c < |s.handlers|
      ensures LogAt(ran, s.finished[g], c, c in s.finished[g].targets)
    {
      assert LogAt(s.ran, s.finished[g], c, c in s.finished[g].targets);
    }
    forall g, c | g > s.generation && 0 <= c < |handlers| ensures Ran(ran, g, c) == [] {
      assert Ran(s.ran, g, c) == [];
    }
  }

  lemma CompleteKeeps(s: State, c0: nat)
    requires Inv(s) && c0 < |s.cpus| && s.handlers[c0].Complete? && s.fault.NoFault?
    ensures Good(HandlerDo(s, c0))
  {
    var Complete(i, rest, messages) := s.handlers[c0];
    assert HandlerOk(s.slots, s.handlers[c0]);
    var t := HeldRequest(s, c0, i);
    var h, slot := Batch(rest, messages), s.slots[i].(completed := s.slots[i].completed + {c0});
    CompleteOwnership(s, c0, t, i);
    CompleteRouted(s, c0, i, h);
    CompleteOnce(s, c0, i, h);
    CompleteRequest(s, c0, i, h);
    var handlers := s.handlers[c0 := h];
    forall c | 0 <= c < |handlers| ensures HandlerOk(s.slots[i := slot], handlers[c]) {
      assert HandlerOk(s.slots, s.handlers[c]);
    }
  }

  lemma CompleteOwnership(s: State, c0: nat, t: nat, i: nat)
    requires Ownership(s.tasks, s.slots) && i < |s.slots| && t < |s.tasks| && s.slots[i].owner == Some(t)
    requires Live(s.tasks[t].pc) && s.tasks[t].pc.frame.slot == i
    requires c0 in s.tasks[t].pc.frame.payload.targets && c0 !in s.slots[i].completed
    ensures Ownership(s.tasks, s.slots[i := s.slots[i].(completed := s.slots[i].completed + {c0})])
  {
    var slots := s.slots[i := s.slots[i].(completed := s.slots[i].completed + {c0})];
    forall u | 0 <= u < |s.tasks| ensures TaskOk(slots, u, s.tasks[u].pc) {
      assert TaskOk(s.slots, u, s.tasks[u].pc);
    }
    forall j | 0 <= j < |slots| ensures SlotOk(s.tasks, j, slots[j]) {
      assert SlotOk(s.tasks, j, s.slots[j]);
    }
  }

  lemma CompleteRouted(s: State, c0: nat, i: nat, h: Handler)
    requires Routed(s.tasks, s.slots, s.pending, s.handlers) && i < |s.slots| && c0 < |s.handlers|
    requires i in Holds(s.handlers[c0]) && Holds(h) == Holds(s.handlers[c0]) - {i}
    ensures Routed(s.tasks, s.slots[i := s.slots[i].(completed := s.slots[i].completed + {c0})],
                   s.pending, s.handlers[c0 := h])
  {
    var handlers := s.handlers[c0 := h];
    var slots := s.slots[i := s.slots[i].(completed := s.slots[i].completed + {c0})];
    forall j, c | 0 <= j < |slots| && 0 <= c < |s.pending|
      ensures RoutedAt(j, c, slots[j], OwnerPc(s.tasks, slots[j]), s.pending[c], Holds(handlers[c]))
    {
      assert RoutedAt(j, c, s.slots[j], OwnerPc(s.tasks, s.slots[j]), s.pending[c], Holds(s.handlers[c]));
    }
  }

  lemma CompleteRequest(s: State, c0: nat, i: nat, h: Handler)
    requires NoLostRequest(s.tasks, s.slots, s.pending, s.mailbox, s.handlers) && i < |s.slots| && c0 < |s.handlers|
    requires !s.handlers[c0].Dispatch?
    ensures NoLostRequest(s.tasks, s.slots[i := s.slots[i].(completed := s.slots[i].completed + {c0})],
                          s.pending, s.mailbox, s.handlers[c0 := h])
  {
    var handlers := s.handlers[c0 := h];
    forall j, c | 0 <= c < |s.pending| && 0 <= j < |s.slots| && j in s.pending[c]
      ensures UnderWay(OwnerPc(s.tasks, s.slots[j]), c, s.mailbox[c], handlers[c])
    {
      assert UnderWay(OwnerPc(s.tasks, s.slots[j]), c, s.mailbox[c], s.handlers[c]);
    }
  }

  lemma CompleteOnce(s: State, c0: nat, i: nat, h: Handler)
    requires i < |s.slots| && c0 < |s.handlers| && s.handlers[c0].Complete? && s.handlers[c0].index == i && !h.Complete?
    requires ExactlyOnce(s.tasks, s.slots, s.handlers, s.generation, s.ran, s.finished)
    ensures ExactlyOnce(s.tasks, s.slots[i := s.slots[i].(completed := s.slots[i].completed + {c0})],
                        s.handlers[c0 := h],
                        s.generation, s.ran, s.finished)
  {
    var handlers := s.handlers[c0 := h];
    var slots := s.slots[i := s.slots[i].(completed := s.slots[i].completed + {c0})];
    forall t, c | 0 <= t < |s.tasks| && 0 <= c < |s.handlers|
      ensures LiveLogAt(slots, handlers[c], s.ran, s.tasks[t].pc, c)
    {
      assert LiveLogAt(s.slots, s.handlers[c], s.ran, s.tasks[t].pc, c);
    }
  }

  /** The two checks on the payload hold. */
  lemma FetchKeeps(s: State, c: nat)
    requires Inv(s) && c < |s.cpus| && (s.handlers[c].Load? || s.handlers[c].Read?) && s.fault.NoFault?
    ensures Good(HandlerDo(s, c))
  {
    assert HandlerOk(s.slots, s.handlers[c]);
    var t := HeldRequest(s, c, s.handlers[c].index);
    HandlerMoveSame(s, c, HandlerDo(s, c).handlers[c]);
  }

  lemma TakeKeeps(s: State, c: nat)
    requires Inv(s) && c < |s.cpus| && s.handlers[c].Take? && s.fault.NoFault?
    ensures Good(HandlerDo(s, c))
  {
    HandlerMoveKeeps(s, c, HandlerDo(s, c).handlers[c], {}, s.doorbell[c]);
    assert s.doorbell[c := s.doorbell[c]] == s.doorbell;
  }

  lemma HandlerKeeps(s: State, c: nat)
    requires Inv(s) && c < |s.cpus| && !s.handlers[c].Resting? && s.fault.NoFault?
    ensures Good(HandlerDo(s, c))
  {
    match s.handlers[c]
    case Run(_, _, _, _) => RunKeeps(s, c);
    case Complete(_, _, _) => CompleteKeeps(s, c);
    case Load(_, _, _) => FetchKeeps(s, c);
    case Read(_, _, _) => FetchKeeps(s, c);
    case Take => TakeKeeps(s, c);
    case Dispatch(messages) =>
      if TlbShootdown !in messages && CallFunction in messages { SwapKeeps(s, c); }
      else { HandlerMoveSame(s, c, HandlerDo(s, c).handlers[c]); }
    case Batch(_, _) => HandlerMoveSame(s, c, HandlerDo(s, c).handlers[c]);
  }

  lemma HandlerMoveSame(s: State, c0: nat, h: Handler)
    requires Inv(s) && c0 < |s.cpus| && !h.Resting?
    requires Holds(h) == Holds(s.handlers[c0]) && !h.Complete? && !s.handlers[c0].Complete? && HandlerOk(s.slots, h)
    requires SawMessage(s.mailbox[c0], s.handlers[c0]) ==> SawMessage(s.mailbox[c0], h)
    ensures Inv(s.(handlers := s.handlers[c0 := h]))
  {
    HandlerMoveKeeps(s, c0, h, s.mailbox[c0], s.doorbell[c0]);
    assert s.doorbell[c0 := s.doorbell[c0]] == s.doorbell && s.mailbox[c0 := s.mailbox[c0]] == s.mailbox;
  }

  // ------------------------------------------------------------ whole runs

  lemma LifecycleKeeps(s: State, cpu: nat, expected: CpuState, next: CpuState)
    requires Inv(s) && cpu < |s.cpus| && Transition(expected, next) && s.cpus[cpu] == expected
    ensures Inv(s.(cpus := s.cpus[cpu := next]))
  {
    var cpus := s.cpus[cpu := next];
    forall t | 0 <= t < |s.tasks| ensures AllReady(cpus, Goals(s.tasks[t].pc)) {
      assert AllReady(s.cpus, Goals(s.tasks[t].pc));
    }
    forall c | 0 <= c < |s.mailbox| && s.mailbox[c] != {} ensures AllReady(cpus, {c}) {
      assert AllReady(s.cpus, {c});
    }
  }

  lemma AcknowledgeKeeps(s: State, c: nat)
    requires Inv(s) && c < |s.cpus| && s.handlers[c].Resting?
    ensures Inv(s.(doorbell := s.doorbell[c := false], handlers := s.handlers[c := Take]))
  {
    HandlerMoveKeeps(s, c, Take, s.mailbox[c], false);
    assert s.mailbox[c := s.mailbox[c]] == s.mailbox;
  }

  /** One atomic operation of any task or any CPU keeps the invariant and fails no protocol assertion. */
  lemma StepKeeps(s: State, step: Step)
    requires Inv(s) && Enabled(s, step)
    ensures Good(Do(s, step))
  {
    match step
    case LifecycleStep(cpu, expected, next) => if s.cpus[cpu] == expected { LifecycleKeeps(s, cpu, expected, next); }
    case BeginCall(t, _, _) => if Do(s, step).fault.NoFault? { MoveKeeps(s, t, Do(s, step).tasks[t].pc); }
    case BeginNotify(t, _, _) => MoveKeeps(s, t, Do(s, step).tasks[t].pc);
    case TaskStep(t) =>
      if s.tasks[t].pc.Call? { CallKeeps(s, t); }
      else if s.tasks[t].pc.Notify? { NotifyKeeps(s, t); }
      else { PrepareKeeps(s, t); }
    case Acknowledge(c) => AcknowledgeKeeps(s, c);
    case HandlerStep(c) => HandlerKeeps(s, c);
  }

  lemma InitHolds(s: State)
    requires Init(s)
    ensures Inv(s)
  {
  }

  lemma {:induction false} EveryState(trace: seq<State>, steps: seq<Step>, k: nat)
    requires Behaviour(trace, steps) && k < |trace|
    ensures Good(trace[k])
  {
    if k == 0 {
      InitHolds(trace[0]);
    } else {
      EveryState(trace, steps, k - 1);
      assert Enabled(trace[k - 1], steps[k - 1]);
      StepKeeps(trace[k - 1], steps[k - 1]);
    }
  }

  /** In every run only a caller's own mistake or the end of the generation counter can trip an assertion. */
  lemma ProtocolAssertionsHold(trace: seq<State>, steps: seq<Step>, k: nat)
    requires Behaviour(trace, steps) && k < |trace|
    ensures trace[k].fault.NoFault? || CallerFault(trace[k].fault)
  {
    EveryState(trace, steps, k);
  }

  /** The sender has not come to `c` yet. */
  predicate NotQueued(s: State, i: nat, c: nat)
    requires i < |s.slots|
  {
    !Passed(OwnerPc(s.tasks, s.slots[i]), c)
  }

  function Count(b: bool): nat { if b then 1 else 0 }

  /** Each target of a READY request is in exactly one of the four places. */
  lemma FourPlaces(trace: seq<State>, steps: seq<Step>, k: nat, i: nat, c: nat)
    requires Behaviour(trace, steps) && k < |trace| && trace[k].fault.NoFault?
    requires i < |trace[k].slots| && trace[k].slots[i].state.Ready? && c < |trace[k].cpus|
    ensures
      var s := trace[k];
      && |s.pending| == |s.cpus| == |s.handlers|
      && s.slots[i].payload.Some?
      && (c in s.slots[i].payload.value.targets ==>
            Count(NotQueued(s, i, c)) + Count(i in s.pending[c]) + Count(i in Holds(s.handlers[c]))
            + Count(c in s.slots[i].completed) == 1)
      && (c !in s.slots[i].payload.value.targets ==>
            i !in s.pending[c] && i !in Holds(s.handlers[c]) && c !in s.slots[i].completed)
  {
    EveryState(trace, steps, k);
    var s := trace[k];
    assert RoutedAt(i, c, s.slots[i], OwnerPc(s.tasks, s.slots[i]), s.pending[c], Holds(s.handlers[c]));
    assert SlotOk(s.tasks, i, s.slots[i]);
    assert TaskOk(s.slots, s.slots[i].owner.value, s.tasks[s.slots[i].owner.value].pc);
  }

  /** A slot that is free or being filled in is not referred to by any CPU. */
  lemma NeverReusedEarly(trace: seq<State>, steps: seq<Step>, k: nat, i: nat)
    requires Behaviour(trace, steps) && k < |trace| && trace[k].fault.NoFault?
    requires i < |trace[k].slots| && !trace[k].slots[i].state.Ready?
    ensures Shape(trace[k]) && Unused(trace[k], i)
  {
    EveryState(trace, steps, k);
    var s := trace[k];
    assert SlotOk(s.tasks, i, s.slots[i]);
    if s.slots[i].owner.Some? {
      assert TaskOk(s.slots, s.slots[i].owner.value, s.tasks[s.slots[i].owner.value].pc);
    }
    UnusedSlot(s, i);
  }

  /** A released call ran its function exactly once on each target and on no other CPU. */
  lemma CallbackRunsExactlyOnce(trace: seq<State>, steps: seq<Step>, k: nat, g: nat, c: nat)
    requires Behaviour(trace, steps) && k < |trace| && trace[k].fault.NoFault?
    requires g in trace[k].finished && c < |trace[k].cpus|
    ensures
      var p := trace[k].finished[g];
      Ran(trace[k].ran, g, c) == if c in p.targets then [p.job] else []
  {
    EveryState(trace, steps, k);
    var s := trace[k];
    assert LogAt(s.ran, s.finished[g], c, c in s.finished[g].targets);
  }

  /** While a call is in flight its function has run at most once on any CPU. */
  lemma CallbackNeverRunsTwice(trace: seq<State>, steps: seq<Step>, k: nat, t: nat, c: nat)
    requires Behaviour(trace, steps) && k < |trace| && trace[k].fault.NoFault?
    requires t < |trace[k].tasks| && trace[k].tasks[t].pc.Call? && c < |trace[k].cpus|
    ensures
      var p := trace[k].tasks[t].pc.frame.payload;
      var log := Ran(trace[k].ran, p.generation, c);
      log == [] || (log == [p.job] && c in p.targets)
  {
    EveryState(trace, steps, k);
    var s := trace[k];
    var pc := s.tasks[t].pc;
    assert LiveLogAt(s.slots, s.handlers[c], s.ran, pc, c) && TaskOk(s.slots, t, pc);
    var h := s.handlers[c];
    if Live(pc) && h.Complete? && h.index == pc.frame.slot {
      var u := HeldRequest(s, c, h.index);
    }
  }

  /** A message is never stranded, and neither is a pending request. */
  lemma NoIpiIsLost(trace: seq<State>, steps: seq<Step>, k: nat, c: nat)
    requires Behaviour(trace, steps) && k < |trace| && trace[k].fault.NoFault? && c < |trace[k].cpus|
    ensures
      var s := trace[k];
      && Shape(s)
      && (s.mailbox[c] != {} ==>
            s.cpus[c].IpiReady? && (s.doorbell[c] || !s.handlers[c].Resting? || SomeoneOwes(s.tasks, c)))
      && (forall i :: i in s.pending[c] ==>
            UnderWay(OwnerPc(s.tasks, s.slots[i]), c, s.mailbox[c], s.handlers[c]))
  {
    EveryState(trace, steps, k);
    assert trace[k].mailbox[c] != {} ==> AllReady(trace[k].cpus, {c});
  }

  /** Nothing is left to do: no doorbell, no handler, no sender between two operations. */
  predicate Quiescent(s: State) {
    && (forall c :: 0 <= c < |s.handlers| ==> s.handlers[c].Resting?)
    && (forall c :: 0 <= c < |s.doorbell| ==> !s.doorbell[c])
    && (forall t :: 0 <= t < |s.tasks| ==>
          s.tasks[t].pc.Idle? || s.tasks[t].pc.Reserve? || (s.tasks[t].pc.Call? && s.tasks[t].pc.phase.Await?))
  }

  /** The system cannot come to rest with a caller still waiting for a target. */
  lemma RestMeansCompleted(trace: seq<State>, steps: seq<Step>, k: nat, t: nat)
    requires Behaviour(trace, steps) && k < |trace| && trace[k].fault.NoFault? && Quiescent(trace[k])
    requires t < |trace[k].tasks| && trace[k].tasks[t].pc.Call?
    ensures
      var f := trace[k].tasks[t].pc.frame;
      f.slot < |trace[k].slots| && trace[k].slots[f.slot].completed == f.payload.targets
  {
    EveryState(trace, steps, k);
    var s := trace[k];
    var pc := s.tasks[t].pc;
    var i := pc.frame.slot;
    assert TaskOk(s.slots, t, pc) && PcShape(|s.cpus|, |s.slots|, pc);
    forall c | c in pc.frame.payload.targets ensures c in s.slots[i].completed {
      assert RoutedAt(i, c, s.slots[i], pc, s.pending[c], Holds(s.handlers[c]));
      assert i in s.pending[c] ==> UnderWay(pc, c, s.mailbox[c], s.handlers[c]);
      assert !SomeoneOwes(s.tasks, c);
    }
  }

  /** CPU states only advance, and a CPU that has become IPI-ready stays so. */
  lemma {:induction false} LifecycleAdvances(trace: seq<State>, steps: seq<Step>, j: nat, k: nat, c: nat)
    requires Behaviour(trace, steps) && j <= k < |trace| && c < |trace[j].cpus|
    ensures |trace[k].cpus| == |trace[j].cpus|
    ensures trace[j].cpus[c].Progress() <= trace[k].cpus[c].Progress()
    ensures trace[j].cpus[c].IpiReady? ==> trace[k].cpus[c].IpiReady?
    decreases k - j
  {
    if j < k {
      LifecycleAdvances(trace, steps, j, k - 1, c);
      assert Enabled(trace[k - 1], steps[k - 1]);
      StepLifecycle(trace[k - 1], steps[k - 1], c);
    }
  }

  lemma StepLifecycle(s: State, step: Step, c: nat)
    requires Enabled(s, step) && c < |s.cpus|
    ensures |Do(s, step).cpus| == |s.cpus|
    ensures s.cpus[c].Progress() <= Do(s, step).cpus[c].Progress()
    ensures s.cpus[c].IpiReady? ==> Do(s, step).cpus[c].IpiReady?
  {
  }
}
