/** Conservation over runs: where every curfew hook ends up. */
module SchedulerHooks {
  import opened RuntimeTypes
  import opened Scheduler
  import opened SchedulerTheorems
  import opened SchedulerLedger

  /** How often one hook was given to a window start, and what has become of it: beyond the
      fourth of its window, replaced by another window start before it was offered, or offered to
      the maintenance queue; and what has become of the offers. */
  datatype Hooks = Hooks(
    given: nat,
    excess: nat,
    replaced: nat,
    offered: nat,
    ran: nat,
    refused: nat)

  const NO_HOOKS := Hooks(0, 0, 0, 0, 0, 0)

  function Times(hooks: seq<Hook>, x: Hook): nat { multiset(hooks)[x] }

  /** How many of n items still fit in the maintenance queue. */
  function Room(maint: seq<MaintItem>, n: nat): (r: nat)
    ensures r <= n
  {
    if |maint| >= MAINT_QUEUE_SIZE then 0
    else if MAINT_QUEUE_SIZE - |maint| < n then MAINT_QUEUE_SIZE - |maint| else n
  }

  /** The step from an active state into GRACE. */
  predicate Posts(s: Sys, s': Sys) { IsActive(s.state) && s'.state == GracePeriod }

  ghost function HookStep(h: Hooks, s: Sys, l: Label, x: Hook): Hooks
    requires WellFormed(s) && Enabled(s, l)
  {
    if Effective(s, l) then
      h.(given := h.given + Times(l.hooks, x),
         excess := h.excess + Times(l.hooks[|Truncate(l.hooks)|..], x),
         replaced := h.replaced + Times(s.hooks, x))
    else if Posts(s, Apply(s, l)) then
      h.(offered := h.offered + Times(s.hooks, x),
         refused := h.refused + Times(s.hooks[Room(s.maint, |s.hooks|)..], x))
    else if l.Maintenance? && s.maintPc.Serving? then h.(ran := h.ran + One(s.maintPc.item == HookWork(x)))
    else h
  }

  ghost function HooksAfter(h: Hooks, s: Sys, ls: seq<Label>, x: Hook): Hooks
    requires WellFormed(s) && Feasible(s, ls)
    decreases |ls|
  {
    if ls == [] then h
    else ApplyWellFormed(s, ls[0]); HooksAfter(HookStep(h, s, ls[0], x), Apply(s, ls[0]), ls[1..], x)
  }

  function QueuedHook(maint: seq<MaintItem>, x: Hook): nat { multiset(maint)[HookWork(x)] }

  lemma {:induction false} QueuedHookItems(hooks: seq<Hook>, x: Hook)
    ensures QueuedHook(HookItems(hooks), x) == Times(hooks, x)
  {
    if hooks != [] {
      assert HookItems(hooks) == [HookWork(hooks[0])] + HookItems(hooks[1..]);
      assert hooks == [hooks[0]] + hooks[1..];
      QueuedHookItems(hooks[1..], x);
    }
  }

  /** Putting items one by one keeps exactly the prefix there is room for. */
  lemma {:induction false} PutAllPrefix(q: seq<MaintItem>, items: seq<MaintItem>)
    ensures PutAll(q, items) == q + items[..Room(q, |items|)]
    decreases |items|
  {
    if items == [] {
      assert q + items == q;
    } else if |q| < MAINT_QUEUE_SIZE {
      PutAllPrefix(q + [items[0]], items[1..]);
      var n := Room(q, |items|);
      assert items[..n] == [items[0]] + items[1..][..n - 1];
    } else {
      PutAllPrefix(q, items[1..]);
    }
  }

  /** The books of hook x balance. */
  predicate HooksBalanced(h: Hooks, s: Sys, x: Hook) {
    && h.given == Times(s.hooks, x) + h.excess + h.replaced + h.offered
    && h.offered == QueuedHook(s.maint, x) + One(s.maintPc == Serving(HookWork(x))) + h.ran + h.refused
  }

  // ---------------------------------------------------------------- one step

  /** The step into GRACE posts the pending hooks in order, as far as there is room, and clears
      them; any other step leaves hooks and maintenance queue as they are. */
  predicate HookEffect(s: Sys, s': Sys) {
    && s'.maintPc == s.maintPc
    && (if Posts(s, s') then
          s'.hooks == [] && s'.maint == s.maint + HookItems(s.hooks[..Room(s.maint, |s.hooks|)])
        else s'.hooks == s.hooks && s'.maint == s.maint)
  }

  predicate EndsWindow(s: Sys, s': Sys) { IsActive(s.state) && !IsActive(s'.state) }

  lemma HookEffectOfCurfew(s: Sys)
    requires IsActive(s.state)
    ensures HookEffect(s, Curfew(s)) && EndsWindow(s, Curfew(s)) && Curfew(s).hooks == []
  {
    PutAllPrefix(s.maint, HookItems(s.hooks));
    var n := Room(s.maint, |s.hooks|);
    assert HookItems(s.hooks)[..n] == HookItems(s.hooks[..n]);
  }

  lemma HookEffectOfEvaluation(s: Sys)
    ensures HookEffect(s, EvaluateEarlyCurfew(s))
    ensures EndsWindow(s, EvaluateEarlyCurfew(s)) ==> EvaluateEarlyCurfew(s).hooks == []
  {
    if IsActive(s.state) { HookEffectOfCurfew(s); }
  }

  lemma HookEffectOfTimers(s: Sys, l: Label)
    requires WellFormed(s) && Enabled(s, l)
    requires l.TotalFires? || l.GraceFires? || l.SettlementFires?
    ensures HookEffect(s, Apply(s, l)) && (EndsWindow(s, Apply(s, l)) ==> Apply(s, l).hooks == [])
  {
    if IsActive(s.state) {
      HookEffectOfCurfew(s.(total := Stopped));
      HookEffectOfCurfew(s.(settlement := Stopped));
    }
  }

  lemma HookEffectOfWorker(s: Sys, i: int)
    requires WellFormed(s) && Enabled(s, Worker(i))
    ensures HookEffect(s, WorkerStep(s, i)) && (EndsWindow(s, WorkerStep(s, i)) ==> WorkerStep(s, i).hooks == [])
  {
    if s.pc[i].Evaluating? { HookEffectOfEvaluation(s.(pc := s.pc[i := Top])); }
  }

  /** A window start, a point of the maintenance loop and a system submission aside, every step
      treats hooks like this. */
  lemma HookEffectOfStep(s: Sys, l: Label)
    requires WellFormed(s) && Enabled(s, l) && !Effective(s, l)
    requires !l.Maintenance? && !l.SubmitSystem?
    ensures HookEffect(s, Apply(s, l))
  {
    match l
    case TotalFires => HookEffectOfTimers(s, l);
    case GraceFires => HookEffectOfTimers(s, l);
    case SettlementFires => HookEffectOfTimers(s, l);
    case Worker(i) => HookEffectOfWorker(s, i);
    case _ =>
  }

  /** A request for SLEEP inside an active window that still has hooks. */
  predicate Forced(s: Sys, l: Label) {
    l.Request? && l.target == Sleep && IsActive(s.state) && s.hooks != []
  }

  /** The end of a window leaves no hook pending, except by a forced SLEEP request. */
  lemma WindowEndClearsHooksIff(s: Sys, l: Label)
    requires WellFormed(s) && Enabled(s, l)
    ensures (EndsWindow(s, Apply(s, l)) ==> Apply(s, l).hooks == []) <==> !Forced(s, l)
  {
    match l
    case TotalFires => HookEffectOfTimers(s, l);
    case GraceFires => HookEffectOfTimers(s, l);
    case SettlementFires => HookEffectOfTimers(s, l);
    case Worker(i) => HookEffectOfWorker(s, i);
    case Maintenance => if s.maintPc.EarlyCurfew? { HookEffectOfEvaluation(s.(maintPc := Waiting)); }
    case _ =>
  }

  // ---------------------------------------------------------------- all runs

  lemma HookBalanceFrom(h: Hooks, s: Sys, s': Sys, x: Hook)
    requires HooksBalanced(h, s, x) && HookEffect(s, s')
    ensures HooksBalanced(
      if Posts(s, s') then
        h.(offered := h.offered + Times(s.hooks, x),
           refused := h.refused + Times(s.hooks[Room(s.maint, |s.hooks|)..], x))
      else h, s', x)
  {
    if Posts(s, s') {
      var n := Room(s.maint, |s.hooks|);
      QueuedHookItems(s.hooks[..n], x);
      assert s.hooks == s.hooks[..n] + s.hooks[n..];
    }
  }

  lemma HookBalanceAtEvaluation(h: Hooks, s: Sys, x: Hook)
    requires WellFormed(s) && s.maintPc == EarlyCurfew && HooksBalanced(h, s, x)
    ensures HooksBalanced(HookStep(h, s, Maintenance, x), MaintStep(s), x)
  {
    hide EvaluateEarlyCurfew;
    var s1 := s.(maintPc := Waiting);
    HookEffectOfEvaluation(s1);
    HookBalanceFrom(h, s1, MaintStep(s), x);
  }

  lemma HookBalanceAtDequeue(h: Hooks, s: Sys, x: Hook)
    requires WellFormed(s) && s.maintPc == Waiting && s.maint != [] && HooksBalanced(h, s, x)
    ensures Enabled(s, Maintenance) && HooksBalanced(HookStep(h, s, Maintenance, x), MaintStep(s), x)
  {
    assert s.maint == [s.maint[0]] + s.maint[1..];
  }

  lemma HookBalanceAtMaintenance(h: Hooks, s: Sys, x: Hook)
    requires WellFormed(s) && Enabled(s, Maintenance) && HooksBalanced(h, s, x)
    ensures HooksBalanced(HookStep(h, s, Maintenance, x), MaintStep(s), x)
  {
    hide EvaluateEarlyCurfew;
    match s.maintPc
    case Waiting => HookBalanceAtDequeue(h, s, x);
    case EarlyCurfew => HookBalanceAtEvaluation(h, s, x);
    case _ =>
  }

  lemma HookBalanceAtStart(h: Hooks, s: Sys, l: Label, x: Hook)
    requires WellFormed(s) && Enabled(s, l) && Effective(s, l) && HooksBalanced(h, s, x)
    ensures HooksBalanced(HookStep(h, s, l, x), Apply(s, l), x)
  {
    var kept := Truncate(l.hooks);
    assert l.hooks == kept + l.hooks[|kept|..];
  }

  lemma HookBalanceStep(h: Hooks, s: Sys, l: Label, x: Hook)
    requires WellFormed(s) && Enabled(s, l) && HooksBalanced(h, s, x)
    ensures HooksBalanced(HookStep(h, s, l, x), Apply(s, l), x)
  {
    if Effective(s, l) {
      HookBalanceAtStart(h, s, l, x);
    } else if l.Maintenance? {
      HookBalanceAtMaintenance(h, s, x);
    } else if l.SubmitSystem? {
      PutAllPrefix(s.maint, [SystemWork(l.id)]);
      var put := [SystemWork(l.id)][..Room(s.maint, 1)];
      assert put == [] || put == [SystemWork(l.id)];
      assert QueuedHook(put, x) == 0;
    } else {
      HookEffectOfStep(s, l);
      HookBalanceFrom(h, s, Apply(s, l), x);
    }
  }

  lemma {:induction false} HookBalanceRun(h: Hooks, s: Sys, ls: seq<Label>, x: Hook)
    requires WellFormed(s) && Feasible(s, ls) && HooksBalanced(h, s, x)
    ensures HooksBalanced(HooksAfter(h, s, ls, x), Exec(s, ls), x)
    decreases |ls|
  {
    if ls != [] {
      HookBalanceStep(h, s, ls[0], x);
      ApplyWellFormed(s, ls[0]);
      HookBalanceRun(HookStep(h, s, ls[0], x), Apply(s, ls[0]), ls[1..], x);
    }
  }

  /** After any run every copy of a hook given to a window start is exactly one of pending,
      beyond the fourth, replaced by a later start, and offered at the end of a window; and every
      offer exactly one of queued, in the maintenance thread's hand, run, and refused because the
      queue was full. */
  lemma HooksConservation(t: nat, ls: seq<Label>, x: Hook)
    requires Feasible(Init(t), ls)
    ensures var h, s := HooksAfter(NO_HOOKS, Init(t), ls, x), Exec(Init(t), ls);
      && h.given == Times(s.hooks, x) + h.excess + h.replaced + h.offered
      && h.offered == QueuedHook(s.maint, x) + One(s.maintPc == Serving(HookWork(x))) + h.ran + h.refused
  {
    HookBalanceRun(NO_HOOKS, Init(t), ls, x);
  }

  // ---------------------------------------------------------------- pending hooks

  ghost predicate Disciplined(s: Sys, ls: seq<Label>)
    requires WellFormed(s) && Feasible(s, ls)
    decreases |ls|
  {
    ls == [] ||
    (!Forced(s, ls[0]) && (ApplyWellFormed(s, ls[0]); Disciplined(Apply(s, ls[0]), ls[1..])))
  }

  /** The hooks of the latest window start, at most four. */
  ghost function LatestHooks(hooks: seq<Hook>, s: Sys, ls: seq<Label>): seq<Hook>
    requires WellFormed(s) && Feasible(s, ls)
    decreases |ls|
  {
    if ls == [] then hooks
    else
      ApplyWellFormed(s, ls[0]);
      LatestHooks(if Effective(s, ls[0]) then Truncate(ls[0].hooks) else hooks, Apply(s, ls[0]), ls[1..])
  }

  predicate PendingAre(s: Sys, hooks: seq<Hook>) { s.hooks == if IsActive(s.state) then hooks else [] }

  lemma PendingStep(s: Sys, l: Label, hooks: seq<Hook>)
    requires WellFormed(s) && Enabled(s, l) && !Forced(s, l) && PendingAre(s, hooks)
    ensures PendingAre(Apply(s, l), if Effective(s, l) then Truncate(l.hooks) else hooks)
  {
    WindowEndClearsHooksIff(s, l);
    if !Effective(s, l) && !l.Maintenance? && !l.SubmitSystem? {
      HookEffectOfStep(s, l);
      WindowStep(s, l);
    } else if l.Maintenance? {
      WindowStep(s, l);
      if s.maintPc.EarlyCurfew? { HookEffectOfEvaluation(s.(maintPc := Waiting)); }
    }
  }

  lemma {:induction false} PendingRun(s: Sys, ls: seq<Label>, hooks: seq<Hook>)
    requires WellFormed(s) && Feasible(s, ls) && Disciplined(s, ls) && PendingAre(s, hooks)
    ensures PendingAre(Exec(s, ls), LatestHooks(hooks, s, ls))
    decreases |ls|
  {
    if ls != [] {
      var l := ls[0];
      PendingStep(s, l, hooks);
      ApplyWellFormed(s, l);
      PendingRun(Apply(s, l), ls[1..], if Effective(s, l) then Truncate(l.hooks) else hooks);
    }
  }

  /** After any run without a forced SLEEP request, hooks are pending in active states only and
      are those of the latest window start. */
  lemma PendingAreTheLatest(t: nat, ls: seq<Label>)
    requires Feasible(Init(t), ls) && Disciplined(Init(t), ls)
    ensures var s := Exec(Init(t), ls);
      s.hooks == if IsActive(s.state) then LatestHooks([], Init(t), ls) else []
  {
    PendingRun(Init(t), ls, []);
  }
}
