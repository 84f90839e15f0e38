/** The scheduler's static state and the functions that update it in place, each proved
    against the step system. Methods run in one atomic region each. */
module RuntimeManager {
  import opened RuntimeTypes
  import opened Scheduler
  import opened SchedulerInvariant

  /** A state reached by a step keeps the invariant. */
  lemma Keeps(s: Sys, l: Label)
    requires WellFormed(s)
    ensures Inv(s) && Enabled(s, l) ==> Inv(Apply(s, l))
  {
    if Inv(s) && Enabled(s, l) { StepInv(s, l); }
  }

  lemma CurfewKeeps(s: Sys)
    requires WellFormed(s)
    ensures Inv(s) ==> Inv(Demote(s)) && Inv(Scheduler.EvaluateEarlyCurfew(s))
  {
    if Inv(s) {
      EvaluateInv(s);
      if IsActive(s.state) { CurfewInv(s); }
    }
  }

  /** watchdog.c */
  class Watchdog {
    const soft: array<Timer>
    const hard: array<Timer>
    const abort: array<bool>

    ghost predicate Valid() {
      && soft.Length == WORKER_POOL_SIZE && hard.Length == WORKER_POOL_SIZE
      && abort.Length == WORKER_POOL_SIZE && soft != hard
    }

    constructor ()
      ensures Valid() && fresh(soft) && fresh(hard) && fresh(abort)
      ensures soft[..] == AllSlots(Stopped) && hard[..] == AllSlots(Stopped)
      ensures abort[..] == AllSlots(false)
    {
      soft := new Timer[WORKER_POOL_SIZE](_ => Stopped);
      hard := new Timer[WORKER_POOL_SIZE](_ => Stopped);
      abort := new bool[WORKER_POOL_SIZE](_ => false);
    }

    method StartUserApp(idx: int, now: int)
      requires Valid()
      modifies soft, abort
      ensures abort[..] == if IsSlot(idx) then old(abort[..])[idx := false] else old(abort[..])
      ensures soft[..] == if IsSlot(idx) then old(soft[..])[idx := Armed(now + TIMEOUT_USER_APP_SOFT_MS)]
                                         else old(soft[..])
    {
      if idx < 0 || idx >= WORKER_POOL_SIZE { return; }
      abort[idx] := false;
      soft[idx] := Armed(now + TIMEOUT_USER_APP_SOFT_MS);
    }

    method StopUserApp(idx: int)
      requires Valid()
      modifies soft, hard, abort
      ensures abort[..] == if IsSlot(idx) then old(abort[..])[idx := false] else old(abort[..])
      ensures soft[..] == if IsSlot(idx) then old(soft[..])[idx := Stopped] else old(soft[..])
      ensures hard[..] == if IsSlot(idx) then old(hard[..])[idx := Stopped] else old(hard[..])
    {
      if idx < 0 || idx >= WORKER_POOL_SIZE { return; }
      soft[idx] := Stopped;
      hard[idx] := Stopped;
      abort[idx] := false;
    }

    method ForceAllCooperativeAbort()
      requires Valid()
      modifies abort
      ensures abort[..] == AllSlots(true)
    {
      for i := 0 to WORKER_POOL_SIZE
        invariant forall k :: 0 <= k < i ==> abort[k]
      {
        abort[i] := true;
      }
    }
  }

  /** worker_pool.c; `pc` and `suspended` are what the kernel keeps for the pool's threads. */
  class WorkerPool {
    var queue: seq<Item>
    var active: int
    const pc: array<Pc>
    const suspended: array<bool>

    ghost predicate Valid() {
      pc.Length == WORKER_POOL_SIZE && suspended.Length == WORKER_POOL_SIZE
    }

    constructor ()
      ensures Valid() && fresh(pc) && fresh(suspended)
      ensures queue == [] && active == 0
      ensures pc[..] == AllSlots(Top) && suspended[..] == AllSlots(true)
    {
      queue, active := [], 0;
      pc := new Pc[WORKER_POOL_SIZE](_ => Top);
      suspended := new bool[WORKER_POOL_SIZE](_ => true);
    }

    method HasWork() returns (b: bool)
      ensures b <==> active > 0 || queue != []
    {
      b := active > 0 || |queue| > 0;
    }

    method EnqueueUserItem(item: Item) returns (ok: bool)
      modifies this`queue
      ensures ok <==> |old(queue)| < USER_QUEUE_SIZE
      ensures queue == if ok then old(queue) + [Item(item.id, User)] else old(queue)
    {
      ok := |queue| < USER_QUEUE_SIZE;
      if ok { queue := queue + [item.(kind := User)]; }
    }

    method PurgeQueue()
      modifies this`queue
      ensures queue == []
    {
      queue := [];
    }

    method ResumeAll()
      requires Valid()
      modifies suspended
      ensures suspended[..] == AllSlots(false)
    {
      for i := 0 to WORKER_POOL_SIZE
        invariant forall k :: 0 <= k < i ==> !suspended[k]
      {
        suspended[i] := false;
      }
    }

    method SuspendAll()
      requires Valid()
      modifies suspended
      ensures suspended[..] == AllSlots(true)
    {
      for i := 0 to WORKER_POOL_SIZE
        invariant forall k :: 0 <= k < i ==> suspended[k]
      {
        suspended[i] := true;
      }
    }

    /** The slot's thread is created anew: at the top of its loop, not suspended. */
    method RecoverStalledRunner(idx: int, wd: Watchdog)
      requires Valid() && wd.Valid() && wd.abort != suspended
      modifies pc, suspended, wd.soft, wd.hard, wd.abort
      ensures IsSlot(idx) ==>
        && pc[..] == old(pc[..])[idx := Top] && suspended[..] == old(suspended[..])[idx := false]
        && wd.soft[..] == old(wd.soft[..])[idx := Stopped]
        && wd.hard[..] == old(wd.hard[..])[idx := Stopped]
        && wd.abort[..] == old(wd.abort[..])[idx := false]
      ensures !IsSlot(idx) ==>
        && pc[..] == old(pc[..]) && suspended[..] == old(suspended[..])
        && wd.soft[..] == old(wd.soft[..]) && wd.hard[..] == old(wd.hard[..]) && wd.abort[..] == old(wd.abort[..])
    {
      if idx < 0 || idx >= WORKER_POOL_SIZE { return; }
      wd.StopUserApp(idx);
      pc[idx] := Top;
      suspended[idx] := false;
    }
  }

  /** runtime_manager.c and worker_mgmt.c, with the kernel clock. */
  class Runtime {
    const wd: Watchdog
    const pool: WorkerPool
    const activeWindowHooks: array<Hook>
    var now: int
    var currentState: RuntimeState
    var totalWorkWindowTimer: Timer
    var gracePeriodTimer: Timer
    var curfewSettlementTimer: Timer
    var windowStartTime: int
    var activeHookCount: nat
    var maintQueue: seq<MaintItem>
    var maintPc: MaintPc
    ghost var submitting: multiset<Item>

    ghost function Repr(): set<object> {
      {this, wd, wd.soft, wd.hard, wd.abort, pool, pool.pc, pool.suspended, activeWindowHooks}
    }

    ghost predicate Valid()
      reads this
    {
      && wd.Valid() && pool.Valid()
      && wd.abort != pool.suspended
      && activeWindowHooks.Length == MAX_CURFEW_HOOKS
      && activeHookCount <= MAX_CURFEW_HOOKS
    }

    /** The state of the step system. */
    ghost function View(): (s: Sys)
      requires Valid()
      reads this, Repr()
      ensures WellFormed(s)
    {
      Sys(now, currentState, totalWorkWindowTimer, gracePeriodTimer, curfewSettlementTimer,
          windowStartTime, activeWindowHooks[..activeHookCount], maintQueue, maintPc,
          pool.queue, pool.active, submitting, pool.pc[..], pool.suspended[..],
          wd.soft[..], wd.hard[..], wd.abort[..])
    }

    constructor (uptime: nat)
      ensures Valid() && fresh(Repr())
      ensures View() == Init(uptime) && Inv(View())
    {
      wd := new Watchdog();
      pool := new WorkerPool();
      activeWindowHooks := new Hook[MAX_CURFEW_HOOKS](_ => 0);
      now, currentState := uptime, Sleep;
      totalWorkWindowTimer, gracePeriodTimer, curfewSettlementTimer := Stopped, Stopped, Stopped;
      windowStartTime, activeHookCount := 0, 0;
      maintQueue, maintPc, submitting := [], Waiting, multiset{};
      new;
      InitInv(uptime);
    }

    method IsSystemCompletelyIdle() returns (b: bool)
      requires Valid()
      ensures b == Idle(View())
    {
      var work := pool.HasWork();
      b := !work && |maintQueue| == 0;
    }

    method AddSystemWork(item: MaintItem) returns (ok: bool)
      requires Valid()
      modifies this`maintQueue
      ensures ok <==> |old(maintQueue)| < MAINT_QUEUE_SIZE
      ensures maintQueue == PutAll(old(maintQueue), [item])
    {
      ok := |maintQueue| < MAINT_QUEUE_SIZE;
      if ok { maintQueue := maintQueue + [item]; }
    }

    /** The copying loop of set_runtime_state_with_hooks: the first four hooks are kept. */
    method StoreHooks(hooks: array<Hook>, hookCount: nat)
      requires activeWindowHooks.Length == MAX_CURFEW_HOOKS
      requires hookCount <= hooks.Length && hooks != activeWindowHooks
      modifies this`activeHookCount, activeWindowHooks
      ensures activeHookCount <= MAX_CURFEW_HOOKS
      ensures activeWindowHooks[..activeHookCount] == Truncate(old(hooks[..hookCount]))
    {
      activeHookCount := if hookCount > MAX_CURFEW_HOOKS then MAX_CURFEW_HOOKS else hookCount;
      for i := 0 to activeHookCount
        invariant forall k :: 0 <= k < i ==> activeWindowHooks[k] == hooks[k]
        modifies activeWindowHooks
      {
        activeWindowHooks[i] := hooks[i];
      }
    }

    /** The posting loop of execute_curfew_transition_locked. */
    method PostHooks()
      requires Valid()
      modifies this`maintQueue, this`activeHookCount
      ensures activeHookCount == 0
      ensures maintQueue == PutAll(old(maintQueue), HookItems(old(activeWindowHooks[..activeHookCount])))
    {
      ghost var items := HookItems(activeWindowHooks[..activeHookCount]);
      for i := 0 to activeHookCount
        invariant PutAll(maintQueue, items[i..]) == PutAll(old(maintQueue), items)
        modifies this`maintQueue
      {
        assert items[i..][0] == HookWork(activeWindowHooks[i]) && items[i..][1..] == items[i + 1..];
        var ok := AddSystemWork(HookWork(activeWindowHooks[i]));
      }
      activeHookCount := 0;
    }

    /** worker_mgmt_signal_window_start and the start of the total timer. */
    method StartTimersLocked(target: RuntimeState)
      requires Valid()
      modifies this`currentState, this`windowStartTime, this`curfewSettlementTimer, this`totalWorkWindowTimer
      ensures Valid()
      ensures View() == old(View()).(
        state := target, windowStart := now, settlement := Stopped, total := Armed(now + Limit(target)))
    {
      currentState := target;
      windowStartTime := now;
      curfewSettlementTimer := Stopped;
      var duration := if target == UiActive then WINDOW_UI_MAX_MS else WINDOW_BACKGROUND_MAX_MS;
      totalWorkWindowTimer := Armed(now + duration);
    }

    /** The branch of set_runtime_state_with_hooks that opens a window. */
    method OpenWindowLocked(target: RuntimeState, hooks: array<Hook>, hookCount: nat)
      requires Valid() && hookCount <= hooks.Length && hooks != activeWindowHooks
      modifies this, pool.suspended, activeWindowHooks
      ensures Valid() && View() == OpenWindow(old(View()), target, old(hooks[..hookCount]))
    {
      hide Truncate, Limit;
      StartTimersLocked(target);
      pool.ResumeAll();
      StoreHooks(hooks, hookCount);
    }

    /** The abort-suspend-purge sequence of the SLEEP request and of the grace expiry. */
    method ShutDownLocked()
      requires Valid()
      modifies this`currentState, wd.abort, pool.suspended, pool`queue
      ensures Valid() && View() == Shutdown(old(View()))
    {
      wd.ForceAllCooperativeAbort();
      pool.SuspendAll();
      pool.PurgeQueue();
      currentState := Sleep;
    }

    /** The branch of set_runtime_state_with_hooks that enters SLEEP. */
    method DropToSleepLocked()
      requires Valid()
      modifies Repr()
      ensures Valid()
      ensures View() == Shutdown(old(View()).(total := Stopped, grace := Stopped, settlement := Stopped))
    {
      totalWorkWindowTimer := Stopped;
      gracePeriodTimer := Stopped;
      curfewSettlementTimer := Stopped;
      ShutDownLocked();
    }

    method SetRuntimeStateWithHooks(target: RuntimeState, hooks: array<Hook>, hookCount: nat)
      requires Valid() && hookCount <= hooks.Length && hooks != activeWindowHooks
      modifies Repr()
      ensures Valid() && View() == SetState(old(View()), target, old(hooks[..hookCount]))
      ensures old(Inv(View()) && Enabled(View(), Request(target, hooks[..hookCount]))) ==> Inv(View())
    {
      hide Inv, Enabled, OpenWindow, Shutdown;
      Keeps(View(), Request(target, hooks[..hookCount]));
      if currentState == target { return; }
      if target == BackgroundActive || target == UiActive {
        OpenWindowLocked(target, hooks, hookCount);
      } else if target == Sleep {
        DropToSleepLocked();
      }
    }

    /** The branch of execute_curfew_transition_locked that enters GRACE. */
    method EnterGraceLocked()
      requires Valid()
      modifies this`currentState, this`gracePeriodTimer, this`maintQueue, this`activeHookCount
      ensures Valid()
      ensures View() == old(View()).(
        state := GracePeriod,
        grace := Armed(now + WINDOW_GRACE_PERIOD_MS),
        maint := PutAll(old(maintQueue), HookItems(old(activeWindowHooks[..activeHookCount]))),
        hooks := [])
    {
      hide PutAll, HookItems;
      currentState := GracePeriod;
      gracePeriodTimer := Armed(now + WINDOW_GRACE_PERIOD_MS);
      PostHooks();
    }

    method ExecuteCurfewTransitionLocked()
      requires Valid()
      modifies Repr()
      ensures Valid() && View() == Curfew(old(View()))
    {
      hide PutAll, HookItems;
      totalWorkWindowTimer := Stopped;
      curfewSettlementTimer := Stopped;
      var work := pool.HasWork();
      if activeHookCount == 0 && !work {
        currentState := Sleep;
        pool.SuspendAll();
        return;
      }
      EnterGraceLocked();
    }

    method DemoteToCurfew()
      requires Valid()
      modifies Repr()
      ensures Valid() && View() == Demote(old(View()))
      ensures old(Inv(View())) ==> Inv(View())
    {
      hide Inv;
      CurfewKeeps(View());
      if currentState == BackgroundActive || currentState == UiActive {
        ExecuteCurfewTransitionLocked();
      }
    }

    method TotalWorkWindowExpiry()
      requires Valid()
      modifies Repr()
      ensures Valid() && View() == TotalExpiry(old(View()))
      ensures old(Inv(View()) && Enabled(View(), TotalFires)) ==> Inv(View())
    {
      hide Inv, Enabled;
      Keeps(View(), TotalFires);
      totalWorkWindowTimer := Stopped;
      if currentState == BackgroundActive || currentState == UiActive {
        ExecuteCurfewTransitionLocked();
      }
    }

    method GracePeriodExpiry()
      requires Valid()
      modifies Repr()
      ensures Valid() && View() == GraceExpiry(old(View()))
      ensures old(Inv(View()) && Enabled(View(), GraceFires)) ==> Inv(View())
    {
      hide Inv, Enabled;
      Keeps(View(), GraceFires);
      gracePeriodTimer := Stopped;
      if currentState == GracePeriod { ShutDownLocked(); }
    }

    method CurfewSettlementExpiry()
      requires Valid()
      modifies Repr()
      ensures Valid() && View() == SettlementExpiry(old(View()))
      ensures old(Inv(View()) && Enabled(View(), SettlementFires)) ==> Inv(View())
    {
      hide Inv, Enabled;
      Keeps(View(), SettlementFires);
      curfewSettlementTimer := Stopped;
      if currentState == BackgroundActive || currentState == UiActive {
        var idle := IsSystemCompletelyIdle();
        if idle { DemoteToCurfew(); }
      } else if currentState == GracePeriod {
        var idle := IsSystemCompletelyIdle();
        if idle {
          var none := new Hook[0];
          SetRuntimeStateWithHooks(Sleep, none, 0);
        }
      }
    }

    method EvaluateEarlyCurfew()
      requires Valid()
      modifies Repr()
      ensures Valid() && View() == Scheduler.EvaluateEarlyCurfew(old(View()))
      ensures old(Inv(View())) ==> Inv(View())
    {
      hide Inv;
      CurfewKeeps(View());
      var state := currentState;
      if state == BackgroundActive || state == UiActive || state == GracePeriod {
        var idle := IsSystemCompletelyIdle();
        if idle {
          if curfewSettlementTimer.Armed? && curfewSettlementTimer.deadline - now > 0 { return; }
          var elapsed := now - windowStartTime;
          var limit := if state == UiActive then WINDOW_UI_MAX_MS else WINDOW_BACKGROUND_MAX_MS;
          var remaining := limit - elapsed;
          if remaining > 0 {
            var gap := if remaining < SETTLEMENT_MS then remaining else SETTLEMENT_MS;
            curfewSettlementTimer := Armed(now + gap);
          } else {
            DemoteToCurfew();
          }
        }
      }
    }

    method UserAppSoftExpiry(idx: int)
      requires Valid() && IsSlot(idx)
      modifies wd.soft, wd.hard, wd.abort
      ensures Valid() && View() == SoftExpiry(old(View()), idx)
      ensures old(Inv(View()) && Enabled(View(), SoftFires(idx))) ==> Inv(View())
    {
      hide Inv, Enabled;
      Keeps(View(), SoftFires(idx));
      wd.soft[idx] := Stopped;
      wd.abort[idx] := true;
      wd.hard[idx] := Armed(now + TIMEOUT_USER_APP_HARD_MS);
    }

    method UserAppHardExpiry(idx: int)
      requires Valid() && IsSlot(idx)
      modifies Repr()
      ensures Valid() && View() == HardExpiry(old(View()), idx)
      ensures old(Inv(View()) && Enabled(View(), HardFires(idx))) ==> Inv(View())
    {
      hide Inv, Enabled;
      Keeps(View(), HardFires(idx));
      wd.StopUserApp(idx);
      pool.RecoverStalledRunner(idx, wd);
    }

    /** add_user_work up to its state check; the caller goes on to enqueue if it passes. */
    method AddUserWorkCheck(item: Item) returns (pass: bool)
      requires Valid()
      modifies this`submitting
      ensures Valid() && View() == SubmitChecked(old(View()), item)
      ensures pass <==> currentState != Sleep
      ensures old(Inv(View()) && Enabled(View(), SubmitCheck(item))) ==> Inv(View())
    {
      hide Inv, Enabled;
      Keeps(View(), SubmitCheck(item));
      pass := currentState != Sleep;
      if pass { submitting := submitting + multiset{item}; }
    }

    method AddUserWorkPut(item: Item) returns (ok: bool)
      requires Valid() && item in submitting
      modifies this`submitting, pool`queue
      ensures Valid() && View() == SubmitQueued(old(View()), item)
      ensures ok <==> |old(pool.queue)| < USER_QUEUE_SIZE
      ensures old(Inv(View()) && Enabled(View(), SubmitPut(item))) ==> Inv(View())
    {
      hide Inv, Enabled;
      Keeps(View(), SubmitPut(item));
      submitting := submitting - multiset{item};
      ok := pool.EnqueueUserItem(item);
    }

    /** The points of pool_worker_entry's loop up to the increment of the active count. */
    method PoolWorkerAdmit(i: int)
      requires Valid() && IsSlot(i) && (pool.pc[i].Top? ==> pool.queue != [])
      requires pool.pc[i].Top? || pool.pc[i].Taken? || pool.pc[i].Checked? || pool.pc[i].Interrupted?
      modifies this`curfewSettlementTimer, pool`queue, pool`active, pool.pc
      ensures Valid() && View() == WorkerStep(old(View()), i)
    {
      match pool.pc[i]
      case Top =>
        pool.pc[i] := Taken(pool.queue[0]);
        pool.queue := pool.queue[1..];
      case Taken(item) => pool.pc[i] := if currentState == Sleep then Top else Checked(item);
      case Checked(item) =>
        curfewSettlementTimer := Stopped;
        pool.pc[i] := Interrupted(item);
      case Interrupted(item) =>
        pool.active := pool.active + 1;
        pool.pc[i] := Counted(item);
    }

    /** The points from the start of the watchdog to its stop. */
    method PoolWorkerGuard(i: int)
      requires Valid() && IsSlot(i)
      requires pool.pc[i].Counted? || pool.pc[i].Guarded? || pool.pc[i].Handling? || pool.pc[i].Returned?
      modifies pool.pc, wd.soft, wd.hard, wd.abort
      ensures Valid() && View() == WorkerStep(old(View()), i)
    {
      match pool.pc[i]
      case Counted(item) =>
        if item.kind == User { wd.StartUserApp(i, now); }
        pool.pc[i] := Guarded(item, now);
      case Guarded(item, since) => pool.pc[i] := Handling(item, since);
      case Handling(item, since) => pool.pc[i] := Returned(item, since);
      case Returned(item, _) =>
        if item.kind == User { wd.StopUserApp(i); }
        pool.pc[i] := Released;
    }

    /** One point of pool_worker_entry's loop, on slot i. */
    method PoolWorkerStep(i: int)
      requires Valid() && IsSlot(i) && (pool.pc[i].Top? ==> pool.queue != [])
      modifies Repr()
      ensures Valid() && View() == WorkerStep(old(View()), i)
      ensures old(Inv(View()) && Enabled(View(), Worker(i))) ==> Inv(View())
    {
      hide Inv, Enabled, Scheduler.EvaluateEarlyCurfew, StartWatchdog, StopWatchdog;
      Keeps(View(), Worker(i));
      match pool.pc[i]
      case Released =>
        pool.active := pool.active - 1;
        pool.pc[i] := Decremented;
      case Decremented => pool.pc[i] := if pool.active == 0 then Evaluating else Top;
      case Evaluating =>
        pool.pc[i] := Top;
        EvaluateEarlyCurfew();
      case Top => PoolWorkerAdmit(i);
      case Taken(_) => PoolWorkerAdmit(i);
      case Checked(_) => PoolWorkerAdmit(i);
      case Interrupted(_) => PoolWorkerAdmit(i);
      case _ => PoolWorkerGuard(i);
    }

    /** The locked region of sys_maint_thread_entry. */
    method EndGraceLocked()
      requires Valid()
      modifies this`gracePeriodTimer, this`currentState, wd.abort, pool.suspended
      ensures Valid() && View() == LeaveGrace(old(View()))
    {
      var work := pool.HasWork();
      if currentState == GracePeriod && !work {
        gracePeriodTimer := Stopped;
        wd.ForceAllCooperativeAbort();
        pool.SuspendAll();
        currentState := Sleep;
      }
    }

    /** One point of sys_maint_thread_entry's loop. */
    method MaintThreadStep()
      requires Valid() && (maintPc.Waiting? ==> maintQueue != [])
      modifies Repr()
      ensures Valid() && View() == MaintStep(old(View()))
      ensures old(Inv(View()) && Enabled(View(), Maintenance)) ==> Inv(View())
    {
      hide Inv, Enabled;
      Keeps(View(), Maintenance);
      match maintPc
      case Waiting =>
        maintPc := Serving(maintQueue[0]);
        maintQueue := maintQueue[1..];
      case Serving(_) => maintPc := DepthCheck;
      case DepthCheck => maintPc := if |maintQueue| == 0 then GraceExit else StateCheck;
      case GraceExit =>
        maintPc := StateCheck;
        EndGraceLocked();
      case StateCheck =>
        maintPc := if currentState == BackgroundActive || currentState == UiActive then EarlyCurfew else Waiting;
      case EarlyCurfew =>
        maintPc := Waiting;
        EvaluateEarlyCurfew();
    }
  }
}
