/** Scheduler ticks and the one-shot clockevent of one CPU: kernel/src/time.rs. */
module Clockevent {
  import opened Machine

  const TICKS_PER_SECOND: nat := 100
  const HALF_RANGE: int := 0x8000_0000_0000_0000
  const U128: nat := U64 * U64
  const NANOS: nat := 1_000_000_000
  const MIN_DELTA_NS: nat := 1_000

  /** A point on the wrapping 64-bit counter. */
  type Instant = x: nat | x < U64

  // ------------------------------------------------------ wrapping arithmetic

  function Add(a: Instant, n: nat): Instant {
    (a + n) % U64
  }

  /** How far `a` is ahead of `b` on the wrapping counter. */
  function Sub(a: Instant, b: Instant): Instant {
    if a >= b then a - b else a + U64 - b
  }

  predicate After(a: Instant, b: Instant) {
    0 < Sub(a, b) < HALF_RANGE
  }

  predicate Reached(now: Instant, deadline: Instant) {
    now == deadline || After(now, deadline)
  }

  function Earlier(a: Instant, b: Instant): Instant {
    if After(b, a) then a else b
  }

  lemma AddSub(a: Instant, n: nat)
    requires n < U64
    ensures Sub(Add(a, n), a) == n
  {
  }

  lemma AddTwice(a: Instant, m: nat, n: nat)
    ensures Add(Add(a, m), n) == Add(a, m + n)
  {
  }

  lemma Distributes(p: nat, m: nat, n: nat)
    ensures p * (m + n) == p * m + p * n
  {
  }

  /** The signed distance from `now` to an instant, negative for the past. */
  function Distance(now: Instant, x: Instant): int {
    if Sub(x, now) < HALF_RANGE then Sub(x, now) else Sub(x, now) - U64
  }

  /** How far `b` lies behind `a` on the line around `now`. */
  function Gap(now: Instant, a: Instant, b: Instant): int {
    Distance(now, b) - Distance(now, a)
  }

  /** What the wrapping comparisons say about instants anywhere on the counter. */
  lemma WindowOrder(now: Instant, a: Instant, b: Instant)
    ensures After(b, a) <==> 0 < Gap(now, a, b) < HALF_RANGE || Gap(now, a, b) < -HALF_RANGE
    ensures Earlier(a, b) == if 0 < Gap(now, a, b) < HALF_RANGE || Gap(now, a, b) < -HALF_RANGE then a else b
    ensures Reached(now, a) <==> -HALF_RANGE < Distance(now, a) <= 0
  {
  }

  // -------------------------------------------------------------- conversion

  /** Cycles for a duration, rounded up: the fewest that last at least as long. */
  function CyclesFor(nanos: nat, frequency: nat): (cycles: nat)
    ensures nanos * frequency <= cycles * NANOS < nanos * frequency + NANOS
  {
    (nanos * frequency + (NANOS - 1)) / NANOS
  }

  /**
   `duration_to_cycles_round_up`; `None` stands for its four panics, which all
   come down to the last one.
   */
  function DurationToCycles(nanos: nat, frequency: nat): (r: Option<nat>)
    ensures r == if CyclesFor(nanos, frequency) < HALF_RANGE then Some(CyclesFor(nanos, frequency)) else None
  {
    if nanos * frequency >= U128 || nanos * frequency + (NANOS - 1) >= U128 then None
    else
      var cycles := (nanos * frequency + (NANOS - 1)) / NANOS;
      if cycles >= U64 || cycles >= HALF_RANGE then None else Some(cycles)
  }

  /** The fewest cycles, but at least one, that last a microsecond. */
  function MinDelta(frequency: nat): (d: nat)
    ensures d >= 1 && d * 1_000_000 >= frequency && (d > 1 ==> (d - 1) * 1_000_000 < frequency)
  {
    Max(CyclesFor(MIN_DELTA_NS, frequency), 1)
  }

  // --------------------------------------------------------------- the clock

  datatype Outcome = Fine | Panic

  class LocalClock {
    const frequency: nat
    var running: bool
    var active: bool
    var deadline: Instant
    var programmed: Instant
    var enabled: bool
    var ticks: Instant
    /** The deadline set when the tick was last armed, the ticks counted before and since. */
    ghost var origin: Instant
    ghost var base: nat
    ghost var since: nat

    /** A hundredth of a second in whole cycles. */
    function Period(): (cycles: nat)
      ensures 100 * cycles <= frequency < 100 * (cycles + 1)
    {
      frequency / TICKS_PER_SECOND
    }

    /** So many ticks in cycles. */
    function Span(n: nat): nat {
      Period() * n
    }

    /** The frequency is a machine word and not too small for the tick rate. */
    predicate Usable() {
      0 < Period() && frequency < U64
    }

    /** Then the period and the minimum delta are far below the half range. */
    lemma SmallSteps()
      requires Usable()
      ensures Period() < HALF_RANGE / 4 && MinDelta(frequency) < HALF_RANGE / 4
    {
    }

    /** No tick since arming is lost or counted twice: deadline and counter account for them all. */
    ghost predicate Valid()
      reads this
    {
      Usable() && ticks == (base + since) % U64 && (active ==> deadline == Add(origin, Span(since)))
    }

    constructor (frequency: nat)
      requires 0 < frequency / TICKS_PER_SECOND && frequency < U64
      ensures Valid() && this.frequency == frequency && !running && !active && programmed == 0
    {
      this.frequency := frequency;
      running, active, deadline, programmed, enabled, ticks := false, false, 0, 0, false, 0;
      origin, base, since := 0, 0, 0;
    }

    /** How far a deadline that is `overdue` cycles late is moved. */
    function Advance(overdue: nat): nat
      requires Period() > 0
    {
      overdue - overdue % Period() + Period()
    }

    /** Where a timer interrupt at `now` moves the tick. */
    function NextDeadline(now: Instant): Instant
      requires Period() > 0
      reads this
    {
      if active && Reached(now, deadline) then Add(deadline, Advance(Sub(now, deadline))) else deadline
    }

    /** A timer interrupt at `now` finds the tick so late that moving it takes half the range. */
    predicate TooLate(now: Instant)
      requires Period() > 0
      reads this
    {
      active && Reached(now, deadline) && Advance(Sub(now, deadline)) >= HALF_RANGE
    }

    /**
     `begin_timer_interrupt`. A due tick moves the deadline past `now` by whole
     periods and counts each of them; the panic is the half-range check.
     */
    method BeginTimerInterrupt(now: Instant) returns (elapsed: nat, r: Outcome)
      requires Valid() && running
      modifies this
      ensures Valid() && active == old(active) && running && programmed == 0 && enabled == old(enabled)
      ensures r == Panic <==> old(TooLate(now))
      ensures r == Fine ==> deadline == old(NextDeadline(now))
      ensures !(active && Reached(now, old(deadline))) ==>
        elapsed == 0 && deadline == old(deadline) && ticks == old(ticks)
      ensures r == Fine && active && Reached(now, old(deadline)) ==>
        && elapsed >= 1 && deadline == Add(old(deadline), Span(elapsed)) && ticks == Add(old(ticks), elapsed)
        && 0 < Sub(deadline, now) <= Period()
        && since == old(since) + elapsed && origin == old(origin) && base == old(base)
    {
      programmed := 0;
      elapsed := 0;
      r := Fine;
      if active && Reached(now, deadline) {
        elapsed, r := CountTicks(now);
      }
    }

    method CountTicks(now: Instant) returns (elapsed: nat, r: Outcome)
      requires Valid() && active && Reached(now, deadline)
      modifies `deadline, `ticks, `since
      ensures Valid()
      ensures r == Panic <==> old(TooLate(now))
      ensures r == Fine ==> deadline == old(NextDeadline(now)) && 0 < Sub(deadline, now) <= Period()
      ensures r == Fine ==> elapsed >= 1 && deadline == Add(old(deadline), Span(elapsed))
      ensures r == Fine ==> ticks == Add(old(ticks), elapsed) && since == old(since) + elapsed
      ensures r == Panic ==> deadline == old(deadline) && ticks == old(ticks) && since == old(since)
    {
      var overdue := Sub(now, deadline);
      var advance: nat;
      elapsed, advance := WholePeriods(overdue);
      if advance >= HALF_RANGE {
        return elapsed, Panic;
      }
      PastNow(now, deadline, overdue, advance);
      MorePeriods(origin, since, elapsed);
      MoreTicks(base + since, elapsed);
      deadline := Add(deadline, advance);
      ticks := Add(ticks, elapsed);
      since := since + elapsed;
      r := Fine;
    }

    /** The periods to skip so that a deadline `overdue` cycles late lies ahead again. */
    method WholePeriods(overdue: nat) returns (elapsed: nat, advance: nat)
      requires Period() > 0
      ensures elapsed >= 1 && advance == Span(elapsed) == Advance(overdue) && overdue < advance <= overdue + Period()
    {
      elapsed := overdue / Period() + 1;
      advance := Span(elapsed);
      AdvanceIs(overdue, elapsed);
    }

    lemma AdvanceIs(overdue: nat, elapsed: nat)
      requires Period() > 0 && elapsed == overdue / Period() + 1
      ensures Span(elapsed) == Advance(overdue) && overdue < Advance(overdue) <= overdue + Period()
    {
    }

    lemma PastNow(now: Instant, deadline: Instant, overdue: nat, advance: nat)
      requires Reached(now, deadline) && overdue == Sub(now, deadline) && overdue < advance <= overdue + Period()
      requires advance < HALF_RANGE
      ensures 0 < Sub(Add(deadline, advance), now) <= Period()
    {
    }

    lemma MorePeriods(origin: Instant, since: nat, elapsed: nat)
      ensures Add(Add(origin, Span(since)), Span(elapsed)) == Add(origin, Span(since + elapsed))
    {
      Distributes(Period(), since, elapsed);
      AddTwice(origin, Span(since), Span(elapsed));
    }

    lemma FullRound(n: nat)
      ensures (n + U64) % U64 == n % U64
    {
    }

    lemma {:induction false} MoreTicks(n: nat, elapsed: nat)
      ensures Add(n % U64, elapsed) == (n + elapsed) % U64
    {
      if n >= U64 {
        MoreTicks(n - U64, elapsed);
        FullRound(n - U64);
        FullRound(n - U64 + elapsed);
      }
    }

    /** The hardware will fire no later than the later of `x` and `now` plus the minimum delta. */
    ghost predicate ArmedFor(now: Instant, x: Instant)
      reads this
    {
      enabled && 0 < Distance(now, programmed) <= Later(Distance(now, x), MinDelta(frequency))
    }

    ghost predicate Armed(now: Instant)
      reads this
    {
      ArmedFor(now, deadline)
    }

    function Later(a: int, b: int): int {
      if a <= b then b else a
    }

    /** An event `ahead` cycles from now is half the range or more behind `x`, and not about to fire anyway. */
    predicate Hides(now: Instant, ahead: int, x: Instant) {
      ahead - Distance(now, x) >= HALF_RANGE && ahead > MinDelta(frequency)
    }

    /** The software deadline is so far behind the tick that the comparison takes it for the earlier one. */
    predicate Missed(now: Instant, tick: Instant, software: Option<Instant>) {
      software.Some? && Hides(now, Distance(now, software.value), tick)
    }

    /** The comparison of tick and software deadline is right: they differ by less than half the range. */
    predicate Ordered(now: Instant, tick: Instant, software: Instant) {
      -HALF_RANGE <= Gap(now, tick, software) < HALF_RANGE
    }

    /**
     `reprogram_local`: the earlier of the tick and the software deadline, but
     not sooner than the minimum delta. The panic is the zero-deadline check.
     For deadlines half the range apart the later one is programmed instead, so
     the tick is armed if and only if the software deadline does not hide it.
     */
    method Reprogram(now: Instant, software: Option<Instant>) returns (r: Outcome)
      requires Valid()
      modifies `programmed, `enabled
      ensures Valid() && (r == Panic <==> running && active && deadline == 0)
      ensures !running || r == Panic ==> programmed == old(programmed) && enabled == old(enabled)
      ensures r == Fine && running && active ==> (Armed(now) <==> !Missed(now, deadline, software))
      ensures r == Fine && running && software.Some? ==>
        (ArmedFor(now, software.value)
         <==> !(active && Gap(now, software.value, deadline) > HALF_RANGE
                && Distance(now, deadline) > MinDelta(frequency)))
      ensures r == Fine && running && !active && software.None? ==> programmed == 0
      ensures r == Fine && running && (active || software.Some?) ==>
        enabled && Distance(now, programmed) == Later(MinDelta(frequency), ChosenDistance(now, software))
    {
      if !running {
        return Fine;
      }
      if active && deadline == 0 {
        return Panic;
      }
      if !active && software.None? {
        programmed := 0;
        return Fine;
      }
      var chosen :=
        if active && software.Some? then Earlier(deadline, software.value)
        else if active then deadline
        else software.value;
      if active && software.Some? {
        WindowOrder(now, deadline, software.value);
      }
      var delta := MinDelta(frequency);
      SmallSteps();
      AddSub(now, delta);
      var distance := Sub(chosen, now);
      programmed := if distance < delta || distance >= HALF_RANGE then Add(now, delta) else chosen;
      enabled := true;
      return Fine;
    }

    /** How far away the earliest deadline there is lies, or the latest if the two are too far apart. */
    ghost function ChosenDistance(now: Instant, software: Option<Instant>): int
      requires active || software.Some?
      reads this
    {
      if !active then Distance(now, software.value)
      else if software.None? then Distance(now, deadline)
      else if Ordered(now, deadline, software.value) then
        if Gap(now, deadline, software.value) >= 0 then Distance(now, deadline) else Distance(now, software.value)
      else Later(Distance(now, deadline), Distance(now, software.value))
    }

    /** `arm_scheduler_tick_local`: the first deadline is one period away. */
    method Arm(now: Instant, later: Instant, software: Option<Instant>) returns (r: Outcome)
      requires Valid() && !running
      modifies this
      ensures Valid() && running && active && ticks == 0 && deadline == Add(now, Period())
      ensures r == Panic <==> Add(now, Period()) == 0
      ensures r == Fine ==> (Armed(later) <==> !Missed(later, Add(now, Period()), software))
    {
      running := true;
      ticks := 0;
      deadline := Add(now, Period());
      origin, base, since := deadline, 0, 0;
      active := true;
      SmallSteps();
      AddSub(now, Period());
      r := Reprogram(later, software);
    }

    /**
     `handle_timer_interrupt`: `later` is the time at which the hardware is
     programmed. It panics if the tick is so late that moving it takes half the
     range, or if the moved tick falls on the reserved deadline 0.
     */
    method HandleTimerInterrupt(now: Instant, later: Instant, software: Option<Instant>)
      returns (elapsed: nat, r: Outcome)
      requires Valid() && running
      modifies this
      ensures Valid() && active == old(active) && running
      ensures r == Panic <==> old(TooLate(now)) || (old(active) && old(NextDeadline(now)) == 0)
      ensures r == Fine ==> deadline == old(NextDeadline(now))
      ensures r == Fine && active ==> (Armed(later) <==> !Missed(later, old(NextDeadline(now)), software))
      ensures r == Fine && (active || software.Some?) ==>
        enabled && Distance(later, programmed) == Later(MinDelta(frequency), ChosenDistance(later, software))
      ensures !(active && Reached(now, old(deadline))) ==>
        elapsed == 0 && deadline == old(deadline) && ticks == old(ticks)
      ensures r == Fine && active && Reached(now, old(deadline)) ==>
        && elapsed >= 1 && 0 < Sub(deadline, now) <= Period()
        && deadline == Add(old(deadline), Span(elapsed)) && ticks == Add(old(ticks), elapsed)
    {
      elapsed, r := BeginTimerInterrupt(now);
      if r == Panic {
        return;
      }
      SmallSteps();
      r := Reprogram(later, software);
    }

    /** `enter_idle`: the tick stops, only software timers remain. */
    method EnterIdle(now: Instant, software: Option<Instant>) returns (r: Outcome)
      requires Valid()
      modifies this
      ensures Valid() && running == old(running) && r == Fine && ticks == old(ticks)
      ensures running ==> !active && (software.None? ==> programmed == 0)
      ensures running && software.Some? ==>
        enabled && Distance(now, programmed) == Later(MinDelta(frequency), Distance(now, software.value))
      ensures !running ==> active == old(active) && programmed == old(programmed)
    {
      if !running {
        return Fine;
      }
      if active {
        active := false;
        deadline := 0;
      }
      r := Reprogram(now, software);
    }

    /** The tick deadline with which idling ends. */
    function LeavingDeadline(now: Instant): Instant
      reads this
    {
      if !active || deadline == 0 then Add(now, Period()) else deadline
    }

    /** The hardware has to be programmed again when idling ends. */
    predicate Rearms(now: Instant)
      reads this
    {
      !active || programmed == 0 || Reached(now, programmed) || After(programmed, LeavingDeadline(now)) || !enabled
    }

    /**
     `leave_idle`: the tick is active again. Where the hardware is programmed
     anew it is armed unless a software deadline hides the tick; where it is left
     alone, unless what it is programmed for does.
     */
    method LeaveIdle(now: Instant, later: Instant, software: Option<Instant>) returns (r: Outcome)
      requires Valid()
      modifies this
      ensures Valid() && running == old(running) && ticks == old(ticks)
      ensures r == Panic <==> running && old(LeavingDeadline(now)) == 0 && old(Rearms(now))
      ensures running ==> active && deadline == old(LeavingDeadline(now))
      ensures !running ==> active == old(active) && deadline == old(deadline) && programmed == old(programmed)
      ensures r == Fine && running && old(Rearms(now)) ==>
        (Armed(later) <==> !Missed(later, old(LeavingDeadline(now)), software))
      ensures r == Fine && running && !old(Rearms(now)) ==>
        && programmed == old(programmed)
        && (Armed(now) <==> !Hides(now, Sub(old(programmed), now), old(LeavingDeadline(now))))
    {
      if !running {
        return Fine;
      }
      var wasActive := active;
      active := true;
      if !wasActive || deadline == 0 {
        deadline := Add(now, Period());
        origin, base, since := deadline, base + since, 0;
      }
      r := EnsureArmed(now, later, software, !wasActive);
    }

    /** Leave the hardware alone only if it seems to fire in time anyway. */
    method EnsureArmed(now: Instant, later: Instant, software: Option<Instant>, force: bool) returns (r: Outcome)
      requires Valid() && running && active && deadline == LeavingDeadline(now)
      modifies `programmed, `enabled
      ensures Valid() && (r == Panic <==> deadline == 0 && (force || old(Rearms(now))))
      ensures r == Fine && (force || old(Rearms(now))) ==> (Armed(later) <==> !Missed(later, deadline, software))
      ensures r == Fine && !(force || old(Rearms(now))) ==>
        && programmed == old(programmed)
        && (Armed(now) <==> !Hides(now, Sub(programmed, now), deadline))
    {
      var rearm := programmed == 0 || Reached(now, programmed) || After(programmed, deadline) || !enabled;
      if force || rearm {
        r := Reprogram(later, software);
      } else {
        WindowOrder(now, deadline, programmed);
        WindowOrder(now, programmed, deadline);
        SmallSteps();
        r := Fine;
      }
    }
  }

  // ------------------------------------------------------- where arming fails

  /** A tick one cycle overdue and a software deadline as far ahead as one may be: the later one wins. */
  lemma FarDeadlineHidesTick(now: Instant, tick: Instant, software: Instant)
    requires Distance(now, tick) == -1 && Distance(now, software) == HALF_RANGE - 1
    ensures Earlier(tick, software) == software
  {
  }

  /**
   That input as a run of the kernel's operations: the interrupt of the tick due at 2
   is handled until 4, and a timer of the longest duration is set meanwhile. The
   tick due at 3 is then not armed for, and nothing fires for half the range.
   */
  method FarTimerRun() returns (clock: LocalClock)
    ensures clock.Valid() && clock.running && clock.active && clock.deadline == 3
    ensures !clock.Armed(4) && Distance(4, clock.programmed) == HALF_RANGE - 1
  {
    clock := new LocalClock(100);
    var armed := clock.Arm(1, 1, None);
    var elapsed, handled := clock.HandleTimerInterrupt(2, 4, Some(Add(4, HALF_RANGE - 1)));
  }
}
