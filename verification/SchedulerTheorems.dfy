/** Safety and timing of the scheduler over all runs. */
module SchedulerTheorems {
  import opened RuntimeTypes
  import opened Scheduler
  import opened SchedulerInvariant

  // ---------------------------------------------------------------- SLEEP and handlers

  /** No worker calls a handler in SLEEP. */
  lemma NoHandlerInSleep(s: Sys, i: int)
    requires Reachable(s) && Enabled(s, Worker(i))
    requires s.pc[i].Guarded?
    ensures s.state != Sleep
  {
    ReachableInv(s);
    assert SlotAt(s, i);
  }

  /** In SLEEP a worker can only dequeue an item or drop the one it has just dequeued;
      a worker anywhere else in its loop is suspended. */
  lemma WorkersInSleep(s: Sys, i: int)
    requires Reachable(s) && Enabled(s, Worker(i)) && s.state == Sleep
    ensures s.pc[i].Top? || s.pc[i].Taken?
    ensures s.pc[i].Taken? ==> WorkerStep(s, i) == s.(pc := s.pc[i := Top])
  {
    ReachableInv(s);
    RunnableOutsideSleep(s, i);
  }

  lemma SleepEntryByWorker(s: Sys, i: int)
    requires WellFormed(s) && Enabled(s, Worker(i))
    requires s.state != Sleep && WorkerStep(s, i).state == Sleep
    ensures WorkerStep(s, i).queue == [] && WorkerStep(s, i).suspended == AllSlots(true)
  {
    assert s.pc[i].Evaluating?;
  }

  lemma SleepEntryStep(s: Sys, l: Label)
    requires WellFormed(s) && Enabled(s, l)
    requires s.state != Sleep && Apply(s, l).state == Sleep
    ensures Apply(s, l).queue == [] && Apply(s, l).suspended == AllSlots(true)
  {
    match l
    case Worker(i) => SleepEntryByWorker(s, i);
    case _ =>
  }

  /** Every entry into SLEEP leaves the user queue empty and all workers suspended, with the
      abort flag of every slot between its increment and its decrement raised. */
  lemma SleepEntryEmptiesQueue(s: Sys, l: Label)
    requires Reachable(s) && Enabled(s, l)
    requires s.state != Sleep && Apply(s, l).state == Sleep
    ensures Apply(s, l).queue == []
    ensures forall i :: IsSlot(i) && InBracket(Apply(s, l).pc[i]) ==> Apply(s, l).abort[i]
    ensures forall i :: IsSlot(i) ==> Apply(s, l).suspended[i]
  {
    ReachableInv(s);
    StepInv(s, l);
    SleepEntryStep(s, l);
    var s' := Apply(s, l);
    forall i | IsSlot(i) && InBracket(s'.pc[i]) ensures s'.abort[i] { assert SlotAt(s', i); }
  }

  /** The flag stays raised, and the slot suspended, for as long as SLEEP lasts. */
  lemma AbortRaisedInSleep(s: Sys, i: int)
    requires Reachable(s) && IsSlot(i) && s.state == Sleep && InBracket(s.pc[i])
    ensures s.abort[i] && s.suspended[i]
  {
    ReachableInv(s);
    assert SlotAt(s, i);
  }

  // ---------------------------------------------------------------- windows

  /** A request that opens a window. */
  predicate Effective(s: Sys, l: Label) {
    l.Request? && IsActive(l.target) && s.state != l.target
  }

  /** What a step that opens no window can do to the state and the grace timer: nothing,
      or end the window, or enter SLEEP. */
  predicate WindowEffect(s: Sys, s': Sys) {
    && s'.windowStart == s.windowStart
    && (|| (s'.state == s.state && (s.state == GracePeriod ==> s'.grace == s.grace))
        || (IsActive(s.state) && s'.state == GracePeriod && s'.now == s.now
            && s'.grace == Armed(s.now + WINDOW_GRACE_PERIOD_MS))
        || (s.state != Sleep && s'.state == Sleep))
  }

  lemma WindowEffectOfEvaluation(s: Sys)
    ensures WindowEffect(s, EvaluateEarlyCurfew(s))
  {}

  lemma WindowStepWorker(s: Sys, i: int)
    requires WellFormed(s) && Enabled(s, Worker(i))
    ensures WindowEffect(s, WorkerStep(s, i))
  {
    if s.pc[i].Evaluating? { WindowEffectOfEvaluation(s.(pc := s.pc[i := Top])); }
  }

  lemma WindowStep(s: Sys, l: Label)
    requires WellFormed(s) && Enabled(s, l) && !Effective(s, l)
    ensures WindowEffect(s, Apply(s, l))
  {
    match l
    case Worker(i) => WindowStepWorker(s, i);
    case Maintenance => if s.maintPc.EarlyCurfew? { WindowEffectOfEvaluation(s.(maintPc := Waiting)); }
    case _ =>
  }

  ghost predicate NoWindowOpens(s: Sys, ls: seq<Label>)
    requires WellFormed(s) && Feasible(s, ls)
    decreases |ls|
  {
    ls == [] ||
    (!Effective(s, ls[0]) && (ApplyWellFormed(s, ls[0]); NoWindowOpens(Apply(s, ls[0]), ls[1..])))
  }

  /** s belongs to the window of kind k opened at time t, or to what follows it. */
  ghost predicate InWindow(s: Sys, t: int, k: RuntimeState) {
    && Inv(s)
    && (IsActive(s.state) ==> s.state == k && s.windowStart == t)
    && (s.state == GracePeriod ==> s.grace.deadline <= t + Limit(k) + WINDOW_GRACE_PERIOD_MS)
  }

  lemma {:induction false} InWindowRun(s: Sys, t: int, k: RuntimeState, ls: seq<Label>)
    requires InWindow(s, t, k) && Feasible(s, ls) && NoWindowOpens(s, ls)
    ensures InWindow(Exec(s, ls), t, k)
    decreases |ls|
  {
    if ls != [] {
      StepInv(s, ls[0]);
      WindowStep(s, ls[0]);
      InWindowRun(Apply(s, ls[0]), t, k, ls[1..]);
    }
  }

  /** Bounded wake time. After the last effective window start, at time s.now and of
      kind k, the state is SLEEP once limit + grace have passed, whatever else happens. */
  lemma BoundedWake(s: Sys, k: RuntimeState, hooks: seq<Hook>, ls: seq<Label>)
    requires Reachable(s) && Effective(s, Request(k, hooks))
    requires Feasible(SetState(s, k, hooks), ls) && NoWindowOpens(SetState(s, k, hooks), ls)
    ensures var s' := Exec(SetState(s, k, hooks), ls);
      && (s'.now > s.now + Limit(k) + WINDOW_GRACE_PERIOD_MS ==> s'.state == Sleep)
      && Limit(k) + WINDOW_GRACE_PERIOD_MS == if k == UiActive then 1000 else 860
  {
    ReachableInv(s);
    SetStateInv(s, k, hooks);
    InWindowRun(SetState(s, k, hooks), s.now, k, ls);
  }

  /** Only an effective window start ends SLEEP. */
  lemma {:induction false} SleepLasts(s: Sys, ls: seq<Label>)
    requires Inv(s) && s.state == Sleep && Feasible(s, ls) && NoWindowOpens(s, ls)
    ensures Exec(s, ls).state == Sleep
    decreases |ls|
  {
    if ls != [] {
      StepInv(s, ls[0]);
      WindowStep(s, ls[0]);
      SleepLasts(Apply(s, ls[0]), ls[1..]);
    }
  }

  // ---------------------------------------------------------------- timers

  /** The total-window timer is armed exactly in the active states, for the window's own
      limit, and a settlement timer armed in an active window ends within that limit. */
  lemma TimerDiscipline(s: Sys)
    requires Reachable(s)
    ensures s.total.Armed? <==> IsActive(s.state)
    ensures s.total.Armed? ==>
              s.total.deadline == s.windowStart + Limit(s.state)
              == s.windowStart + if s.state == UiActive then 300 else 160
    ensures IsActive(s.state) ==> s.now <= s.windowStart + Limit(s.state)
    ensures IsActive(s.state) && s.settlement.Armed? ==>
              s.now <= s.settlement.deadline <= s.windowStart + Limit(s.state)
    ensures s.state == GracePeriod ==> s.grace.Armed? && s.now <= s.grace.deadline
  {
    ReachableInv(s);
  }

  ghost predicate StaysIn(s: Sys, ls: seq<Label>, st: RuntimeState)
    requires WellFormed(s) && Feasible(s, ls)
    decreases |ls|
  {
    && s.state == st
    && (ls != [] ==> (ApplyWellFormed(s, ls[0]); StaysIn(Apply(s, ls[0]), ls[1..], st)))
  }

  lemma {:induction false} GraceTimerKept(s: Sys, ls: seq<Label>)
    requires Inv(s) && Feasible(s, ls) && StaysIn(s, ls, GracePeriod)
    ensures Exec(s, ls).grace == s.grace
    decreases |ls|
  {
    if ls != [] {
      assert Apply(s, ls[0]).state == GracePeriod;
      StepInv(s, ls[0]);
      WindowStep(s, ls[0]);
      GraceTimerKept(Apply(s, ls[0]), ls[1..]);
    }
  }

  /** A grace period always runs on the timer of its own entry: a grace timer left over
      from an earlier period never shortens it. */
  lemma GraceRunsItsOwnTimer(s: Sys, l: Label, ls: seq<Label>)
    requires Reachable(s) && Enabled(s, l) && s.state != GracePeriod
    requires WellFormed(Apply(s, l)) && Feasible(Apply(s, l), ls)
    requires StaysIn(Apply(s, l), ls, GracePeriod)
    ensures Exec(Apply(s, l), ls).grace == Armed(s.now + WINDOW_GRACE_PERIOD_MS)
  {
    ReachableInv(s);
    StepInv(s, l);
    WindowStep(s, l);
    GraceTimerKept(Apply(s, l), ls);
  }

  // ---------------------------------------------------------------- watchdog

  /** The watchdog bracket: a guarded slot has its soft timer armed for 30 ms after the
      start, or its hard timer for 40 ms after it with the abort flag up; any other slot
      has neither timer armed. So no slot is held beyond 40 ms. */
  lemma WatchdogBracket(s: Sys, i: int)
    requires Reachable(s) && IsSlot(i)
    ensures IsGuarded(s.pc[i]) ==>
      || (s.soft[i] == Armed(s.pc[i].since + 30) && s.hard[i] == Stopped && s.now <= s.pc[i].since + 30)
      || (s.soft[i] == Stopped && s.hard[i] == Armed(s.pc[i].since + 40) && s.abort[i]
          && s.now <= s.pc[i].since + 40)
    ensures !IsGuarded(s.pc[i]) ==> s.soft[i] == s.hard[i] == Stopped
  {
    ReachableInv(s);
    assert SlotAt(s, i);
  }

  /** A worker is killed exactly 40 ms after its watchdog was started, and only after its
      abort flag was raised. */
  lemma KilledOnlyAfterAbort(s: Sys, i: int)
    requires Reachable(s) && Enabled(s, HardFires(i))
    ensures IsGuarded(s.pc[i]) && s.abort[i] && s.now == s.pc[i].since + 40
  {
    ReachableInv(s);
    assert SlotAt(s, i);
  }

  /** Timer callbacks happen at their deadline, and time does not run back. */
  lemma StepTime(s: Sys, l: Label)
    requires WellFormed(s) && Enabled(s, l)
    ensures Apply(s, l).now >= s.now
    ensures l.TotalFires? ==> s.total == Armed(s.now)
    ensures l.GraceFires? ==> s.grace == Armed(s.now)
  {}

  // ---------------------------------------------------------------- late submissions

  /** The state in which a window has just been opened after start-up and one submission of
      item is past its state check. */
  function Submitting(item: Item): Sys {
    SetState(Init(0), BackgroundActive, []).(submitting := multiset{item})
  }

  lemma InitReachable(t: nat)
    ensures Reachable(Init(t))
  {
    assert Feasible(Init(t), []) && Exec(Init(t), []) == Init(t);
  }

  lemma FeasibleOne(s: Sys, l: Label, ls: seq<Label>)
    requires WellFormed(s) && Enabled(s, l)
    requires WellFormed(Apply(s, l)) && Feasible(Apply(s, l), ls)
    ensures Feasible(s, [l] + ls) && Exec(s, [l] + ls) == Exec(Apply(s, l), ls)
  {
    assert ([l] + ls)[1..] == ls;
  }

  lemma {:induction false} ExecAppend(s: Sys, ls: seq<Label>, l: Label)
    requires WellFormed(s) && Feasible(s, ls) && Enabled(Exec(s, ls), l)
    ensures Feasible(s, ls + [l]) && Exec(s, ls + [l]) == Apply(Exec(s, ls), l)
    decreases |ls|
  {
    if ls == [] {
      FeasibleOne(s, l, []);
    } else {
      ApplyWellFormed(s, ls[0]);
      ExecAppend(Apply(s, ls[0]), ls[1..], l);
      assert (ls + [l])[1..] == ls[1..] + [l];
    }
  }

  lemma ReachableStep(s: Sys, l: Label)
    requires Reachable(s) && WellFormed(s) && Enabled(s, l)
    ensures WellFormed(Apply(s, l)) && Reachable(Apply(s, l))
  {
    var t: nat, ls: seq<Label> :| Feasible(Init(t), ls) && Exec(Init(t), ls) == s;
    ExecAppend(Init(t), ls, l);
    ApplyWellFormed(s, l);
  }

  lemma SubmittingReachable(item: Item)
    ensures WellFormed(Submitting(item)) && Reachable(Submitting(item))
  {
    hide Reachable;
    var s := SetState(Init(0), BackgroundActive, []);
    InitReachable(0);
    ReachableStep(Init(0), Request(BackgroundActive, []));
    ReachableStep(s, SubmitCheck(item));
    assert SubmitChecked(s, item) == Submitting(item);
  }

  /** add_user_work checks the state and enqueues in two steps, so an item can reach the
      queue after SLEEP has been entered. */
  lemma LateSubmissionQueuesInSleep()
    ensures exists s: Sys :: Reachable(s) && s.state == Sleep && s.queue != []
  {
    hide Reachable;
    var item := Item(0, User);
    var s := Submitting(item);
    SubmittingReachable(item);
    ReachableStep(s, Advance(160));
    var s1 := s.(now := 160);
    ReachableStep(s1, TotalFires);
    ReachableStep(TotalExpiry(s1), SubmitPut(item));
  }

  lemma SleepAddsNothing(s: Sys, l: Label)
    requires Inv(s) && s.state == Sleep && s.queue == [] && s.submitting == multiset{}
    requires Enabled(s, l) && !Effective(s, l)
    ensures Apply(s, l).queue == [] && Apply(s, l).submitting == multiset{}
  {}

  lemma {:induction false} QueueStaysEmptyInSleep(s: Sys, ls: seq<Label>)
    requires Inv(s) && s.state == Sleep && s.queue == [] && s.submitting == multiset{}
    requires Feasible(s, ls) && NoWindowOpens(s, ls)
    ensures Exec(s, ls).queue == []
    decreases |ls|
  {
    hide Apply, Enabled;
    if ls != [] {
      StepInv(s, ls[0]);
      WindowStep(s, ls[0]);
      SleepAddsNothing(s, ls[0]);
      QueueStaysEmptyInSleep(Apply(s, ls[0]), ls[1..]);
    }
  }

  /** The queue emptied on entering SLEEP stays empty for as long as SLEEP lasts, whatever
      happens, exactly when no submission is in flight past its state check. */
  lemma QueueStaysEmptyIff(s: Sys)
    requires Reachable(s) && s.state == Sleep && s.queue == []
    ensures (forall ls :: Feasible(s, ls) && NoWindowOpens(s, ls) ==> Exec(s, ls).queue == [])
       <==> s.submitting == multiset{}
  {
    ReachableInv(s);
    if s.submitting == multiset{} {
      forall ls | Feasible(s, ls) && NoWindowOpens(s, ls) ensures Exec(s, ls).queue == [] {
        QueueStaysEmptyInSleep(s, ls);
      }
    } else {
      var item :| item in s.submitting;
      var l := SubmitPut(item);
      FeasibleOne(s, l, []);
      assert NoWindowOpens(s, [l] + []);
      assert Exec(s, [l] + []).queue != [];
    }
  }

  // ---------------------------------------------------------------- time goes on

  function Due(t: Timer, now: int): nat { if t == Armed(now) then 1 else 0 }

  function DueIn(ts: seq<Timer>, now: int): nat
    decreases |ts|
  {
    if ts == [] then 0 else DueIn(ts[..|ts| - 1], now) + Due(ts[|ts| - 1], now)
  }

  lemma {:induction false} DueInUpdate(ts: seq<Timer>, i: nat, t: Timer, now: int)
    requires i < |ts|
    ensures DueIn(ts[i := t], now) == DueIn(ts, now) - Due(ts[i], now) + Due(t, now)
    decreases |ts|
  {
    var n := |ts| - 1;
    var ts' := ts[i := t];
    if i == n {
      assert ts'[..n] == ts[..n];
    } else {
      assert ts'[..n] == ts[..n][i := t];
      DueInUpdate(ts[..n], i, t, now);
    }
  }

  function DueCount(s: Sys): nat {
    Due(s.total, s.now) + Due(s.grace, s.now) + Due(s.settlement, s.now)
    + DueIn(s.soft, s.now) + DueIn(s.hard, s.now)
  }

  predicate IsExpiry(l: Label) {
    l.TotalFires? || l.GraceFires? || l.SettlementFires? || l.SoftFires? || l.HardFires?
  }

  lemma SoftExpiryLeavesFewerDue(s: Sys, i: int)
    requires Inv(s) && Enabled(s, SoftFires(i))
    ensures DueCount(SoftExpiry(s, i)) < DueCount(s)
  {
    assert SlotAt(s, i);
    DueInUpdate(s.soft, i, Stopped, s.now);
    DueInUpdate(s.hard, i, Armed(s.now + TIMEOUT_USER_APP_HARD_MS), s.now);
  }

  lemma HardExpiryLeavesFewerDue(s: Sys, i: int)
    requires Inv(s) && Enabled(s, HardFires(i))
    ensures DueCount(HardExpiry(s, i)) < DueCount(s)
  {
    assert SlotAt(s, i);
    assert HardExpiry(s, i).soft == s.soft[i := Stopped];
    assert HardExpiry(s, i).hard == s.hard[i := Stopped];
    DueInUpdate(s.soft, i, Stopped, s.now);
    DueInUpdate(s.hard, i, Stopped, s.now);
  }

  /** A callback takes no time and leaves fewer timers due, whatever it restarts. */
  lemma ExpiryLeavesFewerDue(s: Sys, l: Label)
    requires Inv(s) && Enabled(s, l) && IsExpiry(l)
    ensures Apply(s, l).now == s.now && DueCount(Apply(s, l)) < DueCount(s)
  {
    match l
    case SoftFires(i) => SoftExpiryLeavesFewerDue(s, i);
    case HardFires(i) => HardExpiryLeavesFewerDue(s, i);
    case _ =>
  }

  lemma DueTimer(t: Timer, now: int)
    requires MayReach(t, now) && !MayReach(t, now + 1)
    ensures Fires(t, now)
  {}

  lemma DueSlot(s: Sys) returns (i: int)
    requires Inv(s) && !MayAdvance(s, s.now + 1)
    requires !Fires(s.total, s.now) && !Fires(s.grace, s.now) && !Fires(s.settlement, s.now)
    ensures Enabled(s, SoftFires(i)) || Enabled(s, HardFires(i))
  {
    i :| IsSlot(i) && (!MayReach(s.soft[i], s.now + 1) || !MayReach(s.hard[i], s.now + 1));
    if MayReach(s.soft[i], s.now + 1) { DueTimer(s.hard[i], s.now); } else { DueTimer(s.soft[i], s.now); }
  }

  lemma DueLabel(s: Sys) returns (l: Label)
    requires Inv(s) && !MayAdvance(s, s.now + 1)
    ensures IsExpiry(l) && Enabled(s, l)
  {
    if Fires(s.total, s.now) { l := TotalFires; }
    else if Fires(s.grace, s.now) { l := GraceFires; }
    else if Fires(s.settlement, s.now) { l := SettlementFires; }
    else {
      var i := DueSlot(s);
      l := if Fires(s.soft[i], s.now) then SoftFires(i) else HardFires(i);
    }
  }

  /** Time never gets stuck: finitely many callbacks, and nothing else, let it pass on. */
  lemma {:induction false} ClockNeverStuck(s: Sys) returns (ls: seq<Label>)
    requires Inv(s)
    ensures Feasible(s, ls) && forall k :: 0 <= k < |ls| ==> IsExpiry(ls[k])
    ensures Enabled(Exec(s, ls), Advance(s.now + 1))
    decreases DueCount(s)
  {
    if MayAdvance(s, s.now + 1) {
      ls := [];
    } else {
      var l := DueLabel(s);
      ExpiryLeavesFewerDue(s, l);
      StepInv(s, l);
      var rest := ClockNeverStuck(Apply(s, l));
      ls := [l] + rest;
      FeasibleOne(s, l, rest);
    }
  }
}
