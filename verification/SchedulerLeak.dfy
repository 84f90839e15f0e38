/** What a hard recovery leaves behind: the active count stays too high by one for ever, the
    system is never idle again, and every window lasts as long as it may. */
module SchedulerLeak {
  import opened RuntimeTypes
  import opened Scheduler
  import opened SchedulerInvariant
  import opened SchedulerTheorems
  import opened SchedulerLedger

  predicate Leaked(s: Sys) { s.active > CountBracket(s.pc) }

  /** A hard recovery leaks. */
  lemma RecoveryLeaks(s: Sys, i: int)
    requires Inv(s) && Enabled(s, HardFires(i))
    ensures Leaked(HardExpiry(s, i))
  {
    assert SlotAt(s, i);
    CountBracketUpdate(s.pc, i, Top);
  }

  /** No step takes the leak back. */
  lemma LeakStays(s: Sys, l: Label)
    requires Inv(s) && Enabled(s, l) && Leaked(s)
    ensures Leaked(Apply(s, l))
  {
    var x := Item(0, User);
    var g := Items(Queued(s, x) + InHand(s.pc, x), 0, 0, 0, 0, s.active - CountBracket(s.pc));
    BalanceStep(g, s, l, x);
  }

  lemma LeakIsWork(s: Sys)
    requires Leaked(s)
    ensures HasWork(s) && !Idle(s)
  {}

  predicate SleepRequest(l: Label) { l.Request? && l.target == Sleep }

  /** Without requests a window is only ended by its total timer, into GRACE, and a grace period
      only by its grace timer. */
  lemma LeakedWindowStep(s: Sys, l: Label)
    requires Inv(s) && Enabled(s, l) && Leaked(s) && !Effective(s, l) && !SleepRequest(l)
    ensures var s' := Apply(s, l);
      && s'.windowStart == s.windowStart
      && s'.state == (if IsActive(s.state) && l.TotalFires? then GracePeriod
                      else if s.state == GracePeriod && l.GraceFires? then Sleep
                      else s.state)
  {
    LeakIsWork(s);
    WindowStep(s, l);
    if l.Worker? && s.pc[l.slot].Evaluating? {
      CountBracketUpdate(s.pc, l.slot, Top);
      LeakIsWork(s.(pc := s.pc[l.slot := Top]));
    }
  }

  ghost predicate NoSleepRequest(ls: seq<Label>) { forall i :: 0 <= i < |ls| ==> !SleepRequest(ls[i]) }

  /** s belongs to the window of kind k opened at time t, and is where a leak keeps it. */
  ghost predicate OnSchedule(s: Sys, t: int, k: RuntimeState) {
    && InWindow(s, t, k) && Leaked(s)
    && (s.state == GracePeriod ==>
          s.now >= t + Limit(k) && s.grace == Armed(t + Limit(k) + WINDOW_GRACE_PERIOD_MS))
    && (s.state == Sleep ==> s.now >= t + Limit(k) + WINDOW_GRACE_PERIOD_MS)
  }

  lemma ScheduleStep(s: Sys, l: Label, t: int, k: RuntimeState)
    requires OnSchedule(s, t, k) && Enabled(s, l) && !Effective(s, l) && !SleepRequest(l)
    ensures OnSchedule(Apply(s, l), t, k)
  {
    hide Leaked, Apply, Enabled;
    StepInv(s, l);
    LeakStays(s, l);
    LeakedWindowStep(s, l);
    WindowStep(s, l);
    StepTime(s, l);
  }

  lemma {:induction false} ScheduleRun(s: Sys, t: int, k: RuntimeState, ls: seq<Label>)
    requires OnSchedule(s, t, k) && Feasible(s, ls) && NoWindowOpens(s, ls) && NoSleepRequest(ls)
    ensures OnSchedule(Exec(s, ls), t, k)
    decreases |ls|
  {
    hide Apply, Enabled, Leaked;
    if ls != [] {
      assert !SleepRequest(ls[0]);
      ScheduleStep(s, ls[0], t, k);
      ScheduleRun(Apply(s, ls[0]), t, k, ls[1..]);
    }
  }

  lemma LeakedStart(s: Sys, k: RuntimeState, hooks: seq<Hook>)
    requires Inv(s) && Leaked(s) && Effective(s, Request(k, hooks))
    ensures OnSchedule(SetState(s, k, hooks), s.now, k)
  {
    SetStateInv(s, k, hooks);
  }

  /** The bound of BoundedWake is then also reached: after a window start of kind k, with no
      later one and no SLEEP request, the window stays open to its limit and the grace period lasts
      its full 700 ms, whatever the workers do and however idle they are. */
  lemma LeakKeepsAwake(s: Sys, k: RuntimeState, hooks: seq<Hook>, ls: seq<Label>)
    requires Reachable(s) && Leaked(s) && Effective(s, Request(k, hooks))
    requires Feasible(SetState(s, k, hooks), ls) && NoWindowOpens(SetState(s, k, hooks), ls) && NoSleepRequest(ls)
    ensures var s' := Exec(SetState(s, k, hooks), ls); var end := s.now + Limit(k);
      && (s'.now < end ==> s'.state == k)
      && (end < s'.now < end + WINDOW_GRACE_PERIOD_MS ==> s'.state == GracePeriod)
      && (s'.now > end + WINDOW_GRACE_PERIOD_MS ==> s'.state == Sleep)
  {
    hide Leaked, SetState;
    ReachableInv(s);
    LeakedStart(s, k, hooks);
    ScheduleRun(SetState(s, k, hooks), s.now, k, ls);
  }

  /** After any run from start-up the system is idle exactly if both queues are empty, no slot is
      between its increment and its decrement, and no worker has ever been killed. */
  lemma IdleIff(t: nat, ls: seq<Label>, x: Item)
    requires Feasible(Init(t), ls)
    ensures var s := Exec(Init(t), ls);
      Idle(s) <==>
        && s.queue == [] && s.maint == []
        && (forall i :: IsSlot(i) ==> !InBracket(s.pc[i]))
        && ItemsAfter(NO_ITEMS, Init(t), ls, x).recoveries == 0
  {
    Conservation(t, ls, x);
    CountBracketZero(Exec(Init(t), ls).pc);
  }
}
