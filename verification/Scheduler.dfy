/** The scheduler as a timed step system. Each spinlocked region, each timer callback
    and each numbered point of a thread's loop is one atomic step. */
module Scheduler {
  import opened RuntimeTypes

  /** The static state of runtime_manager.c, worker_pool.c, watchdog.c and worker_mgmt.c,
      with the kernel's view of the threads. Per-slot arrays are indexed 0..9. */
  datatype Sys = Sys(
    now: int,
    state: RuntimeState,
    total: Timer,
    grace: Timer,
    settlement: Timer,
    windowStart: int,
    hooks: seq<Hook>,
    maint: seq<MaintItem>,
    maintPc: MaintPc,
    queue: seq<Item>,
    active: int,
    submitting: multiset<Item>,   // callers of add_user_work past the state check
    pc: seq<Pc>,
    suspended: seq<bool>,
    soft: seq<Timer>,
    hard: seq<Timer>,
    abort: seq<bool>)

  predicate WellFormed(s: Sys) {
    && |s.pc| == WORKER_POOL_SIZE
    && |s.suspended| == WORKER_POOL_SIZE
    && |s.soft| == WORKER_POOL_SIZE
    && |s.hard| == WORKER_POOL_SIZE
    && |s.abort| == WORKER_POOL_SIZE
  }

  predicate IsSlot(i: int) { 0 <= i < WORKER_POOL_SIZE }

  function AllSlots<T>(v: T): (r: seq<T>)
    ensures |r| == WORKER_POOL_SIZE && forall i :: IsSlot(i) ==> r[i] == v
  {
    seq(WORKER_POOL_SIZE, _ => v)
  }

  /** The state left by runtime_manager_init at time t. */
  function Init(t: int): (s: Sys)
    ensures WellFormed(s)
  {
    Sys(t, Sleep, Stopped, Stopped, Stopped, 0, [], [], Waiting, [], 0, multiset{},
        AllSlots(Top), AllSlots(true), AllSlots(Stopped), AllSlots(Stopped), AllSlots(false))
  }

  // ---------------------------------------------------------------- worker pool

  predicate HasWork(s: Sys) { s.active > 0 || |s.queue| > 0 }

  predicate Idle(s: Sys) { !HasWork(s) && |s.maint| == 0 }

  function SuspendAll(s: Sys): Sys { s.(suspended := AllSlots(true)) }

  function ResumeAll(s: Sys): Sys { s.(suspended := AllSlots(false)) }

  function PurgeQueue(s: Sys): Sys { s.(queue := []) }

  function StopWatchdog(s: Sys, i: int): Sys
    requires WellFormed(s) && IsSlot(i)
  {
    s.(abort := s.abort[i := false], soft := s.soft[i := Stopped], hard := s.hard[i := Stopped])
  }

  function RecoverRunner(s: Sys, i: int): Sys
    requires WellFormed(s) && IsSlot(i)
  {
    var s1 := StopWatchdog(s, i);
    s1.(pc := s1.pc[i := Top], suspended := s1.suspended[i := false])
  }

  // ---------------------------------------------------------------- watchdog

  function StartWatchdog(s: Sys, i: int): Sys
    requires WellFormed(s) && IsSlot(i)
  {
    s.(abort := s.abort[i := false], soft := s.soft[i := Armed(s.now + TIMEOUT_USER_APP_SOFT_MS)])
  }

  function ForceAbort(s: Sys): Sys { s.(abort := AllSlots(true)) }

  function SoftExpiry(s: Sys, i: int): Sys
    requires WellFormed(s) && IsSlot(i)
  {
    s.(soft := s.soft[i := Stopped],
       abort := s.abort[i := true],
       hard := s.hard[i := Armed(s.now + TIMEOUT_USER_APP_HARD_MS)])
  }

  function HardExpiry(s: Sys, i: int): Sys
    requires WellFormed(s) && IsSlot(i)
  {
    RecoverRunner(StopWatchdog(s, i), i)
  }

  // ---------------------------------------------------------------- window manager

  /** k_msgq_put without waiting, for each item in turn: what does not fit is refused. */
  function PutAll(q: seq<MaintItem>, items: seq<MaintItem>): seq<MaintItem>
    decreases |items|
  {
    if items == [] then q
    else if |q| < MAINT_QUEUE_SIZE then PutAll(q + [items[0]], items[1..])
    else PutAll(q, items[1..])
  }

  function HookItems(hooks: seq<Hook>): seq<MaintItem> {
    seq(|hooks|, i requires 0 <= i < |hooks| => HookWork(hooks[i]))
  }

  function OpenWindow(s: Sys, target: RuntimeState, hooks: seq<Hook>): Sys {
    ResumeAll(s).(
      state := target,
      windowStart := s.now,
      settlement := Stopped,
      total := Armed(s.now + Limit(target)),
      hooks := Truncate(hooks))
  }

  /** The forced drop shared by the SLEEP request and the grace expiry. */
  function Shutdown(s: Sys): Sys {
    PurgeQueue(SuspendAll(ForceAbort(s))).(state := Sleep)
  }

  function SetState(s: Sys, target: RuntimeState, hooks: seq<Hook>): Sys {
    if s.state == target then s
    else if IsActive(target) then OpenWindow(s, target, hooks)
    else if target == Sleep then
      Shutdown(s.(total := Stopped, grace := Stopped, settlement := Stopped))
    else s
  }

  function Curfew(s: Sys): Sys {
    var s1 := s.(total := Stopped, settlement := Stopped);
    if s1.hooks == [] && !HasWork(s1) then SuspendAll(s1).(state := Sleep)
    else
      s1.(state := GracePeriod,
          grace := Armed(s.now + WINDOW_GRACE_PERIOD_MS),
          maint := PutAll(s.maint, HookItems(s.hooks)),
          hooks := [])
  }

  function Demote(s: Sys): Sys {
    if IsActive(s.state) then Curfew(s) else s
  }

  function TotalExpiry(s: Sys): Sys {
    Demote(s.(total := Stopped))
  }

  function GraceExpiry(s: Sys): Sys {
    var s1 := s.(grace := Stopped);
    if s1.state == GracePeriod then Shutdown(s1) else s1
  }

  function SettlementExpiry(s: Sys): (r: Sys)
    ensures WellFormed(s) ==> WellFormed(r)
  {
    var s1 := s.(settlement := Stopped);
    if IsActive(s1.state) && Idle(s1) then Demote(s1)
    else if s1.state == GracePeriod && Idle(s1) then SetState(s1, Sleep, [])
    else s1
  }

  /** The part of evaluating an early curfew that follows the state and idleness tests. */
  function Settle(s: Sys): Sys {
    if s.settlement.Armed? && s.settlement.deadline > s.now then s
    else
      var remaining := Limit(s.state) - (s.now - s.windowStart);
      if remaining > 0 then
        var gap := if remaining < SETTLEMENT_MS then remaining else SETTLEMENT_MS;
        s.(settlement := Armed(s.now + gap))
      else Demote(s)
  }

  function EvaluateEarlyCurfew(s: Sys): Sys {
    if s.state != Sleep && Idle(s) then Settle(s) else s
  }

  /** The locked region in which the maintenance thread may end a grace period. */
  function LeaveGrace(s: Sys): Sys {
    if s.state == GracePeriod && !HasWork(s) then
      SuspendAll(ForceAbort(s.(grace := Stopped))).(state := Sleep)
    else s
  }

  // ---------------------------------------------------------------- steps

  datatype Label =
    | Advance(to: int)
    | TotalFires
    | GraceFires
    | SettlementFires
    | SoftFires(slot: int)
    | HardFires(slot: int)
    | Request(target: RuntimeState, hooks: seq<Hook>)
    | SubmitCheck(item: Item)      // add_user_work passes or fails its state check
    | SubmitPut(item: Item)        // and then enqueues
    | SubmitSystem(id: nat)
    | Worker(slot: int)
    | Maintenance

  predicate Fires(t: Timer, now: int) { t == Armed(now) }

  /** Time may reach `to` without passing t's deadline. */
  predicate MayReach(t: Timer, to: int) { t.Armed? ==> to <= t.deadline }

  ghost predicate MayAdvance(s: Sys, to: int)
    requires WellFormed(s)
  {
    && s.now <= to
    && MayReach(s.total, to) && MayReach(s.grace, to) && MayReach(s.settlement, to)
    && (forall i :: IsSlot(i) ==> MayReach(s.soft[i], to))
    && (forall i :: IsSlot(i) ==> MayReach(s.hard[i], to))
  }

  ghost predicate Enabled(s: Sys, l: Label)
    requires WellFormed(s)
  {
    match l
    case Advance(to) => MayAdvance(s, to)
    case TotalFires => Fires(s.total, s.now)
    case GraceFires => Fires(s.grace, s.now)
    case SettlementFires => Fires(s.settlement, s.now)
    case SoftFires(i) => IsSlot(i) && Fires(s.soft[i], s.now)
    case HardFires(i) => IsSlot(i) && Fires(s.hard[i], s.now)
    case Request(_, _) => true
    case SubmitCheck(_) => true
    case SubmitPut(item) => item in s.submitting
    case SubmitSystem(_) => true
    case Worker(i) => IsSlot(i) && !s.suspended[i] && (s.pc[i].Top? ==> s.queue != [])
    case Maintenance => s.maintPc.Waiting? ==> s.maint != []
  }

  function WorkerStep(s: Sys, i: int): (r: Sys)
    requires WellFormed(s) && IsSlot(i)
    requires s.pc[i].Top? ==> s.queue != []
    ensures WellFormed(r)
  {
    match s.pc[i]
    case Top => s.(pc := s.pc[i := Taken(s.queue[0])], queue := s.queue[1..])
    case Taken(item) => s.(pc := s.pc[i := if s.state == Sleep then Top else Checked(item)])
    case Checked(item) => s.(pc := s.pc[i := Interrupted(item)], settlement := Stopped)
    case Interrupted(item) => s.(pc := s.pc[i := Counted(item)], active := s.active + 1)
    case Counted(item) =>
      var s1 := s.(pc := s.pc[i := Guarded(item, s.now)]);
      if item.kind == User then StartWatchdog(s1, i) else s1
    case Guarded(item, since) => s.(pc := s.pc[i := Handling(item, since)])
    case Handling(item, since) => s.(pc := s.pc[i := Returned(item, since)])
    case Returned(item, _) =>
      var s1 := s.(pc := s.pc[i := Released]);
      if item.kind == User then StopWatchdog(s1, i) else s1
    case Released => s.(pc := s.pc[i := Decremented], active := s.active - 1)
    case Decremented => s.(pc := s.pc[i := if s.active == 0 then Evaluating else Top])
    case Evaluating => EvaluateEarlyCurfew(s.(pc := s.pc[i := Top]))
  }

  function MaintStep(s: Sys): (r: Sys)
    requires s.maintPc.Waiting? ==> s.maint != []
    ensures WellFormed(s) ==> WellFormed(r)
  {
    match s.maintPc
    case Waiting => s.(maintPc := Serving(s.maint[0]), maint := s.maint[1..])
    case Serving(_) => s.(maintPc := DepthCheck)
    case DepthCheck => s.(maintPc := if |s.maint| == 0 then GraceExit else StateCheck)
    case GraceExit => LeaveGrace(s.(maintPc := StateCheck))
    case StateCheck => s.(maintPc := if IsActive(s.state) then EarlyCurfew else Waiting)
    case EarlyCurfew => EvaluateEarlyCurfew(s.(maintPc := Waiting))
  }

  function SubmitChecked(s: Sys, item: Item): Sys {
    if s.state == Sleep then s else s.(submitting := s.submitting + multiset{item})
  }

  function SubmitQueued(s: Sys, item: Item): Sys {
    var s1 := s.(submitting := s.submitting - multiset{item});
    if |s.queue| < USER_QUEUE_SIZE then s1.(queue := s.queue + [item.(kind := User)]) else s1
  }

  function Apply(s: Sys, l: Label): Sys
    requires WellFormed(s) && Enabled(s, l)
  {
    match l
    case Advance(to) => s.(now := to)
    case TotalFires => TotalExpiry(s)
    case GraceFires => GraceExpiry(s)
    case SettlementFires => SettlementExpiry(s)
    case SoftFires(i) => SoftExpiry(s, i)
    case HardFires(i) => HardExpiry(s, i)
    case Request(target, hooks) => SetState(s, target, hooks)
    case SubmitCheck(item) => SubmitChecked(s, item)
    case SubmitPut(item) => SubmitQueued(s, item)
    case SubmitSystem(id) => s.(maint := PutAll(s.maint, [SystemWork(id)]))
    case Worker(i) => WorkerStep(s, i)
    case Maintenance => MaintStep(s)
  }

  lemma ApplyWellFormed(s: Sys, l: Label)
    requires WellFormed(s) && Enabled(s, l)
    ensures WellFormed(Apply(s, l))
  {}

  // ---------------------------------------------------------------- runs

  /** Every label of ls is enabled when its turn comes. */
  ghost predicate Feasible(s: Sys, ls: seq<Label>)
    requires WellFormed(s)
    decreases |ls|
  {
    ls == [] ||
    (Enabled(s, ls[0]) && (ApplyWellFormed(s, ls[0]); Feasible(Apply(s, ls[0]), ls[1..])))
  }

  ghost function Exec(s: Sys, ls: seq<Label>): (r: Sys)
    requires WellFormed(s) && Feasible(s, ls)
    ensures WellFormed(r)
    decreases |ls|
  {
    if ls == [] then s else ApplyWellFormed(s, ls[0]); Exec(Apply(s, ls[0]), ls[1..])
  }

  ghost predicate Reachable(s: Sys) {
    exists t: nat, ls: seq<Label> :: Feasible(Init(t), ls) && Exec(Init(t), ls) == s
  }
}
