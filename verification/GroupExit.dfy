/**
 `begin_group_exit` and `group_exit_status` of kernel/src/process.rs: any number
 of callers and observers race on one state word and one status word, one
 atomic access per step.
 */
module GroupExit {
  import opened Machine

  datatype Word = NoExit | Publishing | Active

  /** `Calling` and `Observing` are about to load the state word; `Won` has swung it from NoExit. */
  datatype Pc =
    | Outside
    | Calling(status: int)
    | Claiming(status: int)
    | Won(status: int)
    | Stored(status: int)
    | Loading(observer: bool)
    | Observing
    | Called(result: int)
    | Observed(seen: Option<int>)

  datatype State = State(word: Word, status: int, pcs: seq<Pc>)

  datatype Step = Call(status: int) | Observe | Run

  ghost predicate Init(s: State) {
    s.word == NoExit && forall t :: 0 <= t < |s.pcs| ==> s.pcs[t] == Outside
  }

  predicate Enabled(s: State, t: nat, step: Step) {
    && t < |s.pcs|
    && match step
       case Run => !s.pcs[t].Outside? && !s.pcs[t].Called? && !s.pcs[t].Observed?
       case _ => s.pcs[t].Outside? || s.pcs[t].Called? || s.pcs[t].Observed?
  }

  /** One atomic access of thread `t`; `Publishing` is a round of the spin loop. */
  function Do(s: State, t: nat, step: Step): State
    requires Enabled(s, t, step)
  {
    match step
    case Call(status) => s.(pcs := s.pcs[t := Calling(status)])
    case Observe => s.(pcs := s.pcs[t := Observing])
    case Run =>
      match s.pcs[t]
      case Calling(status) =>
        (match s.word
         case NoExit => s.(pcs := s.pcs[t := Claiming(status)])
         case Publishing => s
         case Active => s.(pcs := s.pcs[t := Loading(false)]))
      case Claiming(status) =>
        if s.word == NoExit then s.(word := Publishing, pcs := s.pcs[t := Won(status)])
        else s.(pcs := s.pcs[t := Calling(status)])
      case Won(status) => s.(status := status, pcs := s.pcs[t := Stored(status)])
      case Stored(status) => s.(word := Active, pcs := s.pcs[t := Called(status)])
      case Observing =>
        (match s.word
         case NoExit => s.(pcs := s.pcs[t := Observed(None)])
         case Publishing => s
         case Active => s.(pcs := s.pcs[t := Loading(true)]))
      case Loading(observer) => s.(pcs := s.pcs[t := if observer then Observed(Some(s.status)) else Called(s.status)])
  }

  /** Exactly the winner is between its claim and its publication. */
  ghost predicate Publisher(s: State, t: nat) {
    t < |s.pcs| && (s.pcs[t].Won? || s.pcs[t].Stored?)
  }

  ghost predicate ThreadOk(word: Word, status: int, pc: Pc) {
    match pc
    case Won(_) => word == Publishing
    case Stored(own) => word == Publishing && status == own
    case Loading(_) => word == Active
    case Called(result) => word == Active && result == status
    case Observed(Some(seen)) => word == Active && seen == status
    case _ => true
  }

  ghost predicate Inv(s: State) {
    && (forall t :: 0 <= t < |s.pcs| ==> ThreadOk(s.word, s.status, s.pcs[t]))
    && (forall t: nat, u: nat :: Publisher(s, t) && Publisher(s, u) ==> t == u)
  }

  lemma StepKeeps(s: State, t: nat, step: Step)
    requires Inv(s) && Enabled(s, t, step)
    ensures Inv(Do(s, t, step))
  {
    var s' := Do(s, t, step);
    assert ThreadOk(s.word, s.status, s.pcs[t]);
    forall u | 0 <= u < |s'.pcs| ensures ThreadOk(s'.word, s'.status, s'.pcs[u]) {
      assert ThreadOk(s.word, s.status, s.pcs[u]);
      assert u != t && Publisher(s, t) ==> !Publisher(s, u);
    }
    forall u: nat, v: nat | Publisher(s', u) && Publisher(s', v) ensures u == v {
      assert ThreadOk(s.word, s.status, s.pcs[u]) && ThreadOk(s.word, s.status, s.pcs[v]);
      assert u != t ==> Publisher(s, u);
      assert v != t ==> Publisher(s, v);
      assert Publisher(s', t) ==> Publisher(s, t) || s.word == NoExit;
    }
  }

  // ------------------------------------------------------------------ runs

  datatype Action = Action(thread: nat, step: Step)

  ghost predicate Runs(s: State, actions: seq<Action>, t: State)
    decreases |actions|
  {
    if actions == [] then s == t
    else
      && Enabled(s, actions[0].thread, actions[0].step)
      && Runs(Do(s, actions[0].thread, actions[0].step), actions[1..], t)
  }

  lemma {:induction false} RunsKeep(s: State, actions: seq<Action>, t: State)
    requires Inv(s) && Runs(s, actions, t)
    ensures Inv(t)
    decreases |actions|
  {
    if actions != [] {
      StepKeeps(s, actions[0].thread, actions[0].step);
      RunsKeep(Do(s, actions[0].thread, actions[0].step), actions[1..], t);
    }
  }

  /** Once published, the status never changes. */
  lemma {:induction false} PublishedForGood(s: State, actions: seq<Action>, t: State)
    requires Inv(s) && Runs(s, actions, t) && s.word == Active
    ensures t.word == Active && t.status == s.status
    decreases |actions|
  {
    if actions != [] {
      var a := actions[0];
      assert ThreadOk(s.word, s.status, s.pcs[a.thread]);
      StepKeeps(s, a.thread, a.step);
      PublishedForGood(Do(s, a.thread, a.step), actions[1..], t);
    }
  }

  /** What a thread has learnt, if anything. */
  function Learnt(pc: Pc): Option<int> {
    match pc
    case Called(result) => Some(result)
    case Observed(seen) => seen
    case _ => None
  }

  /**
   Whoever learns a status at any time, caller or observer, learns the same one.
   `s` and `t` are two states of one run.
   */
  lemma AllAgree(init: State, first: seq<Action>, s: State, more: seq<Action>, t: State, u: nat, v: nat)
    requires Init(init) && Runs(init, first, s) && Runs(s, more, t)
    requires u < |s.pcs| && v < |t.pcs| && Learnt(s.pcs[u]).Some? && Learnt(t.pcs[v]).Some?
    ensures Learnt(s.pcs[u]) == Learnt(t.pcs[v]) == Some(t.status)
  {
    RunsKeep(init, first, s);
    assert ThreadOk(s.word, s.status, s.pcs[u]);
    PublishedForGood(s, more, t);
    RunsKeep(s, more, t);
    assert ThreadOk(t.word, t.status, t.pcs[v]);
  }

  /** The common status is that of the thread whose claim succeeded. */
  lemma WinnerDecides(init: State, first: seq<Action>, s: State, w: nat, more: seq<Action>, t: State, v: nat)
    requires Init(init) && Runs(init, first, s) && w < |s.pcs| && s.pcs[w].Stored?
    requires Runs(Do(s, w, Run), more, t) && v < |t.pcs| && Learnt(t.pcs[v]).Some?
    ensures Learnt(t.pcs[v]) == Some(s.pcs[w].status)
  {
    RunsKeep(init, first, s);
    assert ThreadOk(s.word, s.status, s.pcs[w]);
    StepKeeps(s, w, Run);
    PublishedForGood(Do(s, w, Run), more, t);
    RunsKeep(Do(s, w, Run), more, t);
    assert ThreadOk(t.word, t.status, t.pcs[v]);
  }

  /** A publisher publishes its status before anyone else can be publisher. */
  lemma {:induction false} PublisherStays(s: State, actions: seq<Action>, t: State, u: nat)
    requires Inv(s) && Runs(s, actions, t) && Publisher(s, u)
    ensures t.word == Active || (Publisher(t, u) && t.pcs[u].status == s.pcs[u].status)
    decreases |actions|
  {
    if actions != [] {
      var a := actions[0];
      var s' := Do(s, a.thread, a.step);
      assert ThreadOk(s.word, s.status, s.pcs[u]) && ThreadOk(s.word, s.status, s.pcs[a.thread]);
      assert a.thread != u ==> !Publisher(s, a.thread);
      StepKeeps(s, a.thread, a.step);
      if s'.word == Active {
        PublishedForGood(s', actions[1..], t);
      } else {
        PublisherStays(s', actions[1..], t, u);
      }
    }
  }

  /** In all states of a run it is the same thread, with the same status, that publishes. */
  lemma OneWinner(init: State, first: seq<Action>, s: State, more: seq<Action>, t: State, u: nat, v: nat)
    requires Init(init) && Runs(init, first, s) && Runs(s, more, t) && Publisher(s, u) && Publisher(t, v)
    ensures u == v && s.pcs[u].status == t.pcs[v].status && s.word == t.word == Publishing
  {
    RunsKeep(init, first, s);
    assert ThreadOk(s.word, s.status, s.pcs[u]);
    PublisherStays(s, more, t, u);
    RunsKeep(s, more, t);
    assert ThreadOk(t.word, t.status, t.pcs[v]);
  }

  /** At most one claim ever succeeds: after one no later claim finds the word free. */
  lemma OneClaim(init: State, first: seq<Action>, s: State, u: nat, more: seq<Action>, t: State)
    requires Init(init) && Runs(init, first, s) && u < |s.pcs| && s.pcs[u].Claiming? && s.word == NoExit
    requires Runs(Do(s, u, Run), more, t)
    ensures t.word != NoExit
  {
    RunsKeep(init, first, s);
    StepKeeps(s, u, Run);
    RunsKeep(Do(s, u, Run), more, t);
    PublisherStays(Do(s, u, Run), more, t, u);
    assert Publisher(t, u) ==> ThreadOk(t.word, t.status, t.pcs[u]);
  }

  /** The thread is inside, or has just returned from, a call with this status. */
  predicate Carries(pc: Pc, status: int) {
    match pc
    case Calling(own) => own == status
    case Claiming(own) => own == status
    case Won(own) => own == status
    case Stored(own) => own == status
    case Loading(observer) => !observer
    case Called(_) => true
    case _ => false
  }

  /** Until it makes another call a thread carries the status it was called with. */
  lemma {:induction false} CallCarries(s: State, actions: seq<Action>, t: State, w: nat, status: int)
    requires Runs(s, actions, t) && w < |s.pcs| && Carries(s.pcs[w], status)
    requires forall i :: 0 <= i < |actions| && actions[i].thread == w ==> actions[i].step.Run?
    ensures w < |t.pcs| && Carries(t.pcs[w], status)
    decreases |actions|
  {
    if actions != [] {
      CallCarries(Do(s, actions[0].thread, actions[0].step), actions[1..], t, w, status);
    }
  }

  /**
   The status everyone learns is the argument of the winner's call. `s` is the
   state before that call, `u` one in which its claim has succeeded.
   */
  lemma WinnersArgument(init: State, first: seq<Action>, s: State, w: nat, status: int, between: seq<Action>, u: State,
                        more: seq<Action>, t: State, v: nat)
    requires Init(init) && Runs(init, first, s) && Enabled(s, w, Call(status))
    requires Runs(Do(s, w, Call(status)), between, u) && Publisher(u, w)
    requires forall i :: 0 <= i < |between| && between[i].thread == w ==> between[i].step.Run?
    requires Runs(u, more, t) && v < |t.pcs| && Learnt(t.pcs[v]).Some?
    ensures Learnt(t.pcs[v]) == Some(status)
  {
    RunsKeep(init, first, s);
    StepKeeps(s, w, Call(status));
    CallCarries(Do(s, w, Call(status)), between, u, w, status);
    RunsKeep(Do(s, w, Call(status)), between, u);
    PublishesItsOwn(u, more, t, w);
    RunsKeep(u, more, t);
    assert ThreadOk(t.word, t.status, t.pcs[v]);
  }

  /** What a publisher publishes is its own status. */
  lemma {:induction false} PublishesItsOwn(s: State, actions: seq<Action>, t: State, w: nat)
    requires Inv(s) && Runs(s, actions, t) && Publisher(s, w)
    ensures t.word == Active ==> t.status == s.pcs[w].status
    decreases |actions|
  {
    assert ThreadOk(s.word, s.status, s.pcs[w]);
    if actions != [] {
      var a := actions[0];
      var s' := Do(s, a.thread, a.step);
      assert ThreadOk(s.word, s.status, s.pcs[a.thread]);
      assert a.thread != w ==> !Publisher(s, a.thread);
      StepKeeps(s, a.thread, a.step);
      if Publisher(s', w) {
        PublishesItsOwn(s', actions[1..], t, w);
      } else {
        PublishedForGood(s', actions[1..], t);
      }
    }
  }

  /** The statuses that some call asked for. */
  function Asked(actions: seq<Action>): set<int> {
    set i | 0 <= i < |actions| && actions[i].step.Call? :: actions[i].step.status
  }

  ghost predicate Backed(s: State, asked: set<int>) {
    && (s.word == Active ==> s.status in asked)
    && forall t :: 0 <= t < |s.pcs| ==>
         match s.pcs[t]
         case Calling(own) => own in asked
         case Claiming(own) => own in asked
         case Won(own) => own in asked
         case Stored(own) => own in asked && s.status == own
         case _ => true
  }

  lemma {:induction false} StaysBacked(s: State, actions: seq<Action>, t: State, asked: set<int>)
    requires Inv(s) && Runs(s, actions, t) && Backed(s, asked)
    ensures Backed(t, asked + Asked(actions))
    decreases |actions|
  {
    if actions == [] {
      assert asked + Asked(actions) == asked;
    } else {
      var a := actions[0];
      var now := asked + if a.step.Call? then {a.step.status} else {};
      StepKeeps(s, a.thread, a.step);
      StepBacked(s, a.thread, a.step, asked);
      StaysBacked(Do(s, a.thread, a.step), actions[1..], t, now);
      AskedMore(actions);
      assert now + Asked(actions[1..]) == asked + Asked(actions);
    }
  }

  lemma AskedMore(actions: seq<Action>)
    requires actions != []
    ensures Asked(actions) == Asked(actions[1..]) + if actions[0].step.Call? then {actions[0].step.status} else {}
  {
    var rest := actions[1..];
    forall x | x in Asked(actions)
      ensures x in Asked(rest) || (actions[0].step.Call? && x == actions[0].step.status)
    {
      var i :| 0 <= i < |actions| && actions[i].step.Call? && actions[i].step.status == x;
      assert i > 0 ==> rest[i - 1] == actions[i];
    }
    forall x | x in Asked(rest) ensures x in Asked(actions) {
      var i :| 0 <= i < |rest| && rest[i].step.Call? && rest[i].step.status == x;
      assert actions[i + 1] == rest[i];
    }
  }

  lemma StepBacked(s: State, t: nat, step: Step, asked: set<int>)
    requires Inv(s) && Enabled(s, t, step) && Backed(s, asked)
    ensures Backed(Do(s, t, step), asked + if step.Call? then {step.status} else {})
  {
    assert ThreadOk(s.word, s.status, s.pcs[t]);
    forall u | 0 <= u < |s.pcs| && u != t && Publisher(s, t) ensures !s.pcs[u].Stored? {
      assert !Publisher(s, u);
    }
  }

  /** No status is ever learnt that no call asked for. */
  lemma NoStatusFromNowhere(init: State, actions: seq<Action>, t: State, v: nat)
    requires Init(init) && Runs(init, actions, t) && v < |t.pcs| && Learnt(t.pcs[v]).Some?
    ensures Learnt(t.pcs[v]).value in Asked(actions)
  {
    StaysBacked(init, actions, t, {});
    RunsKeep(init, actions, t);
    assert ThreadOk(t.word, t.status, t.pcs[v]);
  }

  /** Where a thread is that has asked after the publication of `status`. */
  predicate Sees(pc: Pc, status: int) {
    match pc
    case Called(result) => result == status
    case Observed(seen) => seen == Some(status)
    case Won(_) => false
    case Stored(_) => false
    case Outside => false
    case _ => true
  }

  /** Whoever calls or observes after the publication learns the status, in at most three accesses of its own. */
  lemma {:induction false} LateComer(s: State, actions: seq<Action>, t: State, v: nat)
    requires Inv(s) && Runs(s, actions, t) && s.word == Active && v < |s.pcs| && Sees(s.pcs[v], s.status)
    requires forall i :: 0 <= i < |actions| && actions[i].thread == v ==> actions[i].step.Run?
    ensures v < |t.pcs| && Sees(t.pcs[v], s.status)
    ensures Mine(actions, v) + Left(t.pcs[v]) == Left(s.pcs[v])
    ensures Left(t.pcs[v]) == 0 ==> Learnt(t.pcs[v]) == Some(s.status)
    decreases |actions|
  {
    if actions != [] {
      var s' := Do(s, actions[0].thread, actions[0].step);
      StepKeeps(s, actions[0].thread, actions[0].step);
      PublishedForGood(s, actions[..1], s');
      LateComer(s', actions[1..], t, v);
    }
  }

  /** How many steps are the thread's own. */
  function Mine(actions: seq<Action>, v: nat): nat {
    if actions == [] then 0 else (if actions[0].thread == v then 1 else 0) + Mine(actions[1..], v)
  }

  /** How many accesses a late comer still has to make. */
  function Left(pc: Pc): nat {
    match pc
    case Claiming(_) => 3
    case Calling(_) => 2
    case Observing => 2
    case Loading(_) => 1
    case _ => 0
  }
}
