/** What every step of the scheduler keeps. */
module SchedulerInvariant {
  import opened RuntimeTypes
  import opened Scheduler

  /** Between the increment and the decrement of the active count. */
  predicate InBracket(p: Pc) {
    p.Counted? || p.Guarded? || p.Handling? || p.Returned? || p.Released?
  }

  /** Between the start and the stop of the slot's watchdog. */
  predicate IsGuarded(p: Pc) { p.Guarded? || p.Handling? || p.Returned? }

  predicate HoldsItem(p: Pc) {
    p.Taken? || p.Checked? || p.Interrupted? || p.Counted? || IsGuarded(p)
  }

  function CountBracket(pc: seq<Pc>): (n: nat)
    decreases |pc|
  {
    if pc == [] then 0
    else CountBracket(pc[..|pc| - 1]) + (if InBracket(pc[|pc| - 1]) then 1 else 0)
  }

  lemma {:induction false} CountBracketUpdate(pc: seq<Pc>, i: nat, p: Pc)
    requires i < |pc|
    ensures CountBracket(pc[i := p])
         == CountBracket(pc) - (if InBracket(pc[i]) then 1 else 0) + (if InBracket(p) then 1 else 0)
    decreases |pc|
  {
    var n := |pc| - 1;
    var pc' := pc[i := p];
    if i == n {
      assert pc'[..n] == pc[..n];
    } else {
      assert pc'[..n] == pc[..n][i := p];
      CountBracketUpdate(pc[..n], i, p);
    }
  }

  lemma {:induction false} CountBracketZero(pc: seq<Pc>)
    ensures CountBracket(pc) == 0 <==> forall i :: 0 <= i < |pc| ==> !InBracket(pc[i])
    decreases |pc|
  {
    if pc != [] {
      CountBracketZero(pc[..|pc| - 1]);
      assert forall i :: 0 <= i < |pc| - 1 ==> pc[..|pc| - 1][i] == pc[i];
    }
  }

  /** The watchdog bracket of one slot. */
  predicate WatchdogOk(p: Pc, soft: Timer, hard: Timer, abort: bool) {
    if IsGuarded(p) then
      || (soft == Armed(p.since + TIMEOUT_USER_APP_SOFT_MS) && hard == Stopped)
      || (soft == Stopped && abort
          && hard == Armed(p.since + TIMEOUT_USER_APP_SOFT_MS + TIMEOUT_USER_APP_HARD_MS))
    else soft == Stopped && hard == Stopped
  }

  /** What holds of one slot, given the state of the system. */
  predicate SlotOk(st: RuntimeState, p: Pc, suspended: bool, soft: Timer, hard: Timer, abort: bool) {
    && WatchdogOk(p, soft, hard, abort)
    && (HoldsItem(p) ==> p.item.kind == User)
    && (st == Sleep ==> suspended || p.Top? || p.Taken?)
    && (st == Sleep && InBracket(p) ==> abort)
  }

  ghost predicate SlotsOk(s: Sys)
    requires WellFormed(s)
  {
    forall i :: IsSlot(i) ==> SlotOk(s.state, s.pc[i], s.suspended[i], s.soft[i], s.hard[i], s.abort[i])
  }

  predicate TimersOk(s: Sys) {
    && s.total == (if IsActive(s.state) then Armed(s.windowStart + Limit(s.state)) else Stopped)
    && (s.state == GracePeriod ==> s.grace.Armed?)
    && (IsActive(s.state) && s.settlement.Armed? ==>
          s.settlement.deadline <= s.windowStart + Limit(s.state))
  }

  ghost predicate Inv(s: Sys) {
    && WellFormed(s)
    && SlotsOk(s)
    && TimersOk(s)
    && MayAdvance(s, s.now)                            // no deadline has been passed
    && CountBracket(s.pc) <= s.active
    && |s.queue| <= USER_QUEUE_SIZE
    && |s.maint| <= MAINT_QUEUE_SIZE
    && (forall k :: 0 <= k < |s.queue| ==> s.queue[k].kind == User)
    && |s.hooks| <= MAX_CURFEW_HOOKS
    && (s.state == GracePeriod ==> s.hooks == [])
  }

  lemma InitInv(t: nat)
    ensures Inv(Init(t))
  {
    CountBracketZero(Init(t).pc);
  }

  lemma {:induction false} PutAllBound(q: seq<MaintItem>, items: seq<MaintItem>)
    requires |q| <= MAINT_QUEUE_SIZE
    ensures |PutAll(q, items)| <= MAINT_QUEUE_SIZE
    decreases |items|
  {
    if items != [] {
      if |q| < MAINT_QUEUE_SIZE { PutAllBound(q + [items[0]], items[1..]); }
      else { PutAllBound(q, items[1..]); }
    }
  }

  lemma SuspendedSlots(s: Sys)
    requires WellFormed(s) && SlotsOk(s)
    ensures SlotsOk(SuspendAll(ForceAbort(s)).(state := Sleep))
  {}

  lemma ShutdownInv(s: Sys)
    requires Inv(s.(total := if IsActive(s.state) then Armed(s.windowStart + Limit(s.state)) else Stopped,
                    grace := if s.state == GracePeriod then Armed(s.now) else Stopped))
    requires s.total == Stopped && MayReach(s.grace, s.now)
    ensures Inv(Shutdown(s))
  {
    SuspendedSlots(s);
  }

  /** What `Curfew` needs of the state it is called in, its own timers aside. */
  ghost predicate CurfewReady(s: Sys) {
    && IsActive(s.state)
    && Inv(s.(total := Armed(s.windowStart + Limit(s.state))))
  }

  lemma CurfewInv(s: Sys)
    requires CurfewReady(s)
    ensures Inv(Curfew(s))
  {
    PutAllBound(s.maint, HookItems(s.hooks));
    CountBracketZero(s.pc);
  }

  lemma EvaluateInv(s: Sys)
    requires Inv(s)
    ensures Inv(EvaluateEarlyCurfew(s))
  {
    if IsActive(s.state) { CurfewInv(s); }
  }

  lemma OpenWindowInv(s: Sys, target: RuntimeState, hooks: seq<Hook>)
    requires Inv(s) && IsActive(target)
    ensures Inv(OpenWindow(s, target, hooks))
  {}

  lemma SetStateInv(s: Sys, target: RuntimeState, hooks: seq<Hook>)
    requires Inv(s)
    ensures Inv(SetState(s, target, hooks))
  {
    if s.state != target {
      if IsActive(target) { OpenWindowInv(s, target, hooks); }
      else if target == Sleep { ShutdownInv(s.(total := Stopped, grace := Stopped, settlement := Stopped)); }
    }
  }

  lemma WindowTimersInv(s: Sys, l: Label)
    requires Inv(s) && Enabled(s, l)
    requires l.TotalFires? || l.GraceFires? || l.SettlementFires?
    ensures Inv(Apply(s, l))
  {
    match l
    case TotalFires => CurfewInv(s.(total := Stopped));
    case GraceFires =>
      if s.state == GracePeriod { ShutdownInv(s.(grace := Stopped)); }
    case SettlementFires =>
      var s1 := s.(settlement := Stopped);
      if IsActive(s1.state) && Idle(s1) { CurfewInv(s1); }
      else if s1.state == GracePeriod && Idle(s1) { SetStateInv(s1, Sleep, []); }
  }

  /** s' differs from s in slot i only, as far as slots go. */
  ghost predicate OnlySlot(s: Sys, s': Sys, i: int)
    requires WellFormed(s) && WellFormed(s') && IsSlot(i)
  {
    && s'.pc == s.pc[i := s'.pc[i]]
    && s'.suspended == s.suspended[i := s'.suspended[i]]
    && s'.soft == s.soft[i := s'.soft[i]]
    && s'.hard == s.hard[i := s'.hard[i]]
    && s'.abort == s.abort[i := s'.abort[i]]
  }

  ghost predicate SlotAt(s: Sys, i: int)
    requires WellFormed(s) && IsSlot(i)
  {
    && SlotOk(s.state, s.pc[i], s.suspended[i], s.soft[i], s.hard[i], s.abort[i])
    && MayReach(s.soft[i], s.now) && MayReach(s.hard[i], s.now)
  }

  /** The invariant survives a change of one slot that keeps that slot's own part. */
  lemma SlotFrame(s: Sys, s': Sys, i: int)
    requires Inv(s) && WellFormed(s') && IsSlot(i) && OnlySlot(s, s', i) && SlotAt(s', i)
    requires s'.now == s.now && s'.state == s.state && s'.total == s.total && s'.grace == s.grace
    requires s'.settlement == s.settlement || s'.settlement == Stopped
    requires s'.windowStart == s.windowStart && s'.hooks == s.hooks && s'.maint == s.maint
    requires s'.queue == s.queue || (s.queue != [] && s'.queue == s.queue[1..])
    requires s'.active - (if InBracket(s'.pc[i]) then 1 else 0)
          >= s.active - (if InBracket(s.pc[i]) then 1 else 0)
    ensures Inv(s')
  {
    CountBracketUpdate(s.pc, i, s'.pc[i]);
    forall j | IsSlot(j) ensures SlotAt(s', j) { if j != i { assert SlotAt(s, j); } }
    assert forall j :: IsSlot(j) ==> SlotAt(s', j) ==>
      SlotOk(s'.state, s'.pc[j], s'.suspended[j], s'.soft[j], s'.hard[j], s'.abort[j]);
  }

  lemma SoftInv(s: Sys, i: int)
    requires Inv(s) && Enabled(s, SoftFires(i))
    ensures Inv(SoftExpiry(s, i))
  {
    assert SlotAt(s, i);
    SlotFrame(s, SoftExpiry(s, i), i);
  }

  lemma HardInv(s: Sys, i: int)
    requires Inv(s) && Enabled(s, HardFires(i))
    ensures Inv(HardExpiry(s, i))
  {
    assert SlotAt(s, i);
    SlotFrame(s, HardExpiry(s, i), i);
  }

  /** A worker past the SLEEP check runs only outside SLEEP. */
  lemma RunnableOutsideSleep(s: Sys, i: int)
    requires Inv(s) && IsSlot(i) && !s.suspended[i]
    ensures SlotAt(s, i)
    ensures s.pc[i].Top? || s.pc[i].Taken? || s.state != Sleep
  {}

  lemma WorkerDequeueInv(s: Sys, i: int)
    requires Inv(s) && Enabled(s, Worker(i))
    requires s.pc[i].Top? || s.pc[i].Taken?
    ensures Inv(WorkerStep(s, i))
  {
    RunnableOutsideSleep(s, i);
    SlotFrame(s, WorkerStep(s, i), i);
  }

  lemma WorkerAdmitInv(s: Sys, i: int)
    requires Inv(s) && Enabled(s, Worker(i))
    requires s.pc[i].Checked? || s.pc[i].Interrupted?
    ensures Inv(WorkerStep(s, i))
  {
    RunnableOutsideSleep(s, i);
    SlotFrame(s, WorkerStep(s, i), i);
  }

  lemma WorkerGuardInv(s: Sys, i: int)
    requires Inv(s) && Enabled(s, Worker(i))
    requires s.pc[i].Counted? || s.pc[i].Guarded?
    ensures Inv(WorkerStep(s, i))
  {
    RunnableOutsideSleep(s, i);
    SlotFrame(s, WorkerStep(s, i), i);
  }

  lemma WorkerReturnInv(s: Sys, i: int)
    requires Inv(s) && Enabled(s, Worker(i))
    requires s.pc[i].Handling? || s.pc[i].Returned?
    ensures Inv(WorkerStep(s, i))
  {
    RunnableOutsideSleep(s, i);
    SlotFrame(s, WorkerStep(s, i), i);
  }

  lemma WorkerReleaseInv(s: Sys, i: int)
    requires Inv(s) && Enabled(s, Worker(i))
    requires s.pc[i].Released? || s.pc[i].Decremented?
    ensures Inv(WorkerStep(s, i))
  {
    RunnableOutsideSleep(s, i);
    SlotFrame(s, WorkerStep(s, i), i);
  }

  lemma WorkerEvaluateInv(s: Sys, i: int)
    requires Inv(s) && Enabled(s, Worker(i)) && s.pc[i].Evaluating?
    ensures Inv(WorkerStep(s, i))
  {
    var s1 := s.(pc := s.pc[i := Top]);
    RunnableOutsideSleep(s, i);
    SlotFrame(s, s1, i);
    EvaluateInv(s1);
  }

  lemma WorkerInv(s: Sys, i: int)
    requires Inv(s) && Enabled(s, Worker(i))
    ensures Inv(WorkerStep(s, i))
  {
    match s.pc[i]
    case Top => WorkerDequeueInv(s, i);
    case Taken(_) => WorkerDequeueInv(s, i);
    case Checked(_) => WorkerAdmitInv(s, i);
    case Interrupted(_) => WorkerAdmitInv(s, i);
    case Counted(_) => WorkerGuardInv(s, i);
    case Guarded(_, _) => WorkerGuardInv(s, i);
    case Handling(_, _) => WorkerReturnInv(s, i);
    case Returned(_, _) => WorkerReturnInv(s, i);
    case Released => WorkerReleaseInv(s, i);
    case Decremented => WorkerReleaseInv(s, i);
    case Evaluating => WorkerEvaluateInv(s, i);
  }

  lemma MaintInv(s: Sys)
    requires Inv(s) && Enabled(s, Maintenance)
    ensures Inv(MaintStep(s))
  {
    match s.maintPc
    case GraceExit => SuspendedSlots(s);
    case EarlyCurfew => EvaluateInv(s.(maintPc := Waiting));
    case _ =>
  }

  lemma AdvanceInv(s: Sys, to: int)
    requires Inv(s) && Enabled(s, Advance(to))
    ensures Inv(s.(now := to))
  {}

  lemma SubmitQueuedInv(s: Sys, item: Item)
    requires Inv(s)
    ensures Inv(SubmitQueued(s, item))
  {}

  lemma SubmitSystemInv(s: Sys, id: nat)
    requires Inv(s)
    ensures Inv(Apply(s, SubmitSystem(id)))
  {
    PutAllBound(s.maint, [SystemWork(id)]);
  }

  /** Every step of the scheduler keeps the invariant. */
  lemma StepInv(s: Sys, l: Label)
    requires Inv(s) && Enabled(s, l)
    ensures Inv(Apply(s, l))
  {
    match l
    case Advance(to) => AdvanceInv(s, to);
    case TotalFires => WindowTimersInv(s, l);
    case GraceFires => WindowTimersInv(s, l);
    case SettlementFires => WindowTimersInv(s, l);
    case SoftFires(i) => SoftInv(s, i);
    case HardFires(i) => HardInv(s, i);
    case Request(target, hooks) => SetStateInv(s, target, hooks);
    case SubmitCheck(_) =>
    case SubmitPut(item) => SubmitQueuedInv(s, item);
    case SubmitSystem(id) => SubmitSystemInv(s, id);
    case Worker(i) => WorkerInv(s, i);
    case Maintenance => MaintInv(s);
  }

  lemma {:induction false} ExecInv(s: Sys, ls: seq<Label>)
    requires Inv(s) && Feasible(s, ls)
    ensures Inv(Exec(s, ls))
    decreases |ls|
  {
    if ls != [] {
      StepInv(s, ls[0]);
      ExecInv(Apply(s, ls[0]), ls[1..]);
    }
  }

  lemma ReachableInv(s: Sys)
    requires Reachable(s)
    ensures Inv(s)
  {
    var t: nat, ls: seq<Label> :| Feasible(Init(t), ls) && Exec(Init(t), ls) == s;
    InitInv(t);
    ExecInv(Init(t), ls);
  }
}
