/** When an active window ends, and how soon once it is idle. */
module SchedulerEarly {
  import opened RuntimeTypes
  import opened Scheduler
  import opened SchedulerInvariant
  import opened SchedulerTheorems

  function Min(a: int, b: int): int { if a < b then a else b }

  /** The time at which a window runs out by itself. */
  function LimitEnd(s: Sys): int { s.windowStart + Limit(s.state) }

  /** A step that evaluates an early curfew. */
  predicate Evaluates(s: Sys, l: Label)
    requires WellFormed(s)
  {
    (l.Worker? && IsSlot(l.slot) && s.pc[l.slot].Evaluating?) || (l.Maintenance? && s.maintPc.EarlyCurfew?)
  }

  predicate SettlementRuns(s: Sys) { s.settlement.Armed? && s.settlement.deadline > s.now }

  /** The step to s' ends the active window exactly if `cause` holds; SLEEP follows if there are neither
      hooks nor user work, else GRACE. */
  predicate EndsIff(s: Sys, s': Sys, cause: bool) {
    && (!IsActive(s'.state) <==> cause)
    && (cause ==> s'.state == if s.hooks == [] && !HasWork(s) then Sleep else GracePeriod)
  }

  /** An evaluation at the limit with the system idle and no settlement timer to run. */
  predicate EvaluationEnds(s: Sys) { Idle(s) && !SettlementRuns(s) && s.now == LimitEnd(s) }

  lemma EvaluationEndsIff(s: Sys)
    requires TimersOk(s) && MayReach(s.total, s.now) && IsActive(s.state)
    ensures EndsIff(s, EvaluateEarlyCurfew(s), EvaluationEnds(s))
  {}

  lemma TotalInTime(s: Sys)
    requires Inv(s)
    ensures MayReach(s.total, s.now)
  {}

  lemma TimersEndIff(s: Sys, l: Label)
    requires WellFormed(s) && Enabled(s, l) && IsActive(s.state)
    requires l.TotalFires? || l.GraceFires? || l.SettlementFires?
    ensures EndsIff(s, Apply(s, l), l.TotalFires? || (l.SettlementFires? && Idle(s)))
  {}

  lemma WorkerEndsIff(s: Sys, i: int)
    requires Inv(s) && Enabled(s, Worker(i)) && IsActive(s.state)
    ensures EndsIff(s, WorkerStep(s, i), Evaluates(s, Worker(i)) && EvaluationEnds(s))
  {
    hide SlotsOk, MayAdvance, EvaluateEarlyCurfew;
    TotalInTime(s);
    if s.pc[i].Evaluating? { EvaluationEndsIff(s.(pc := s.pc[i := Top])); }
  }

  lemma MaintenanceEndsIff(s: Sys)
    requires Inv(s) && Enabled(s, Maintenance) && IsActive(s.state)
    ensures EndsIff(s, MaintStep(s), Evaluates(s, Maintenance) && EvaluationEnds(s))
  {
    hide SlotsOk, MayAdvance, EvaluateEarlyCurfew;
    TotalInTime(s);
    if s.maintPc.EarlyCurfew? { EvaluationEndsIff(s.(maintPc := Waiting)); }
  }

  /** Requests aside, a step ends an active window exactly if it is the total timer's, the settlement
      timer's with the system idle, or an evaluation at the limit with the system idle and no
      settlement timer to run. */
  lemma ActiveEndsIff(s: Sys, l: Label)
    requires Inv(s) && Enabled(s, l) && IsActive(s.state) && !l.Request?
    ensures EndsIff(s, Apply(s, l),
      || l.TotalFires?
      || (l.SettlementFires? && Idle(s))
      || (Evaluates(s, l) && EvaluationEnds(s)))
  {
    hide SlotsOk, MayAdvance, WorkerStep, MaintStep, TotalExpiry, GraceExpiry, SettlementExpiry;
    match l
    case TotalFires => TimersEndIff(s, l);
    case GraceFires => TimersEndIff(s, l);
    case SettlementFires => TimersEndIff(s, l);
    case Worker(i) => WorkerEndsIff(s, i);
    case Maintenance => MaintenanceEndsIff(s);
    case _ =>
  }

  /** An evaluation that finds the system idle, and no settlement timer to run, lets it run for 10 ms
      or until the limit, whichever comes first, and does nothing else. The limit of GRACE is that
      of a background window. */
  lemma EvaluationSettles(s: Sys)
    requires s.state != Sleep && Idle(s) && !SettlementRuns(s) && s.now < LimitEnd(s)
    ensures EvaluateEarlyCurfew(s) == s.(settlement := Armed(Min(s.now + SETTLEMENT_MS, LimitEnd(s))))
  {}

  /** Otherwise it changes nothing, except at the limit of an active window. */
  lemma EvaluationDoesNothing(s: Sys)
    requires s.state == Sleep || !Idle(s) || SettlementRuns(s) || (s.state == GracePeriod && s.now >= LimitEnd(s))
    ensures EvaluateEarlyCurfew(s) == s
  {}

  // ---------------------------------------------------------------- an idle window

  /** The settlement timer never has more than 10 ms to run. */
  predicate SettlesSoon(s: Sys) { s.settlement.Armed? ==> s.settlement.deadline <= s.now + SETTLEMENT_MS }

  lemma SettlesSoonEvaluation(s: Sys)
    requires SettlesSoon(s)
    ensures SettlesSoon(EvaluateEarlyCurfew(s))
  {}

  lemma SettlesSoonStep(s: Sys, l: Label)
    requires WellFormed(s) && Enabled(s, l) && SettlesSoon(s)
    ensures SettlesSoon(Apply(s, l))
  {
    match l
    case Worker(i) => if s.pc[i].Evaluating? { SettlesSoonEvaluation(s.(pc := s.pc[i := Top])); }
    case Maintenance => if s.maintPc.EarlyCurfew? { SettlesSoonEvaluation(s.(maintPc := Waiting)); }
    case _ =>
  }

  lemma {:induction false} SettlesSoonRun(s: Sys, ls: seq<Label>)
    requires WellFormed(s) && Feasible(s, ls) && SettlesSoon(s)
    ensures SettlesSoon(Exec(s, ls))
    decreases |ls|
  {
    hide SettlesSoon;
    if ls != [] {
      SettlesSoonStep(s, ls[0]);
      ApplyWellFormed(s, ls[0]);
      SettlesSoonRun(Apply(s, ls[0]), ls[1..]);
    }
  }

  lemma ReachableSettlesSoon(s: Sys)
    requires Reachable(s)
    ensures SettlesSoon(s)
  {
    var t: nat, ls: seq<Label> :| Feasible(Init(t), ls) && Exec(Init(t), ls) == s;
    SettlesSoonRun(Init(t), ls);
  }

  /** No thread has anything to do and nothing is on its way. */
  ghost predicate AtRest(s: Sys)
    requires WellFormed(s)
  {
    && (forall i :: IsSlot(i) ==> s.pc[i].Top?)
    && s.queue == [] && s.active == 0 && s.submitting == multiset{}
    && s.maint == [] && s.maintPc == Waiting
  }

  /** Neither a request nor new work. */
  predicate Still(l: Label) { !l.Request? && !l.SubmitCheck? && !l.SubmitSystem? }

  ghost predicate AllStill(ls: seq<Label>) { forall i :: 0 <= i < |ls| ==> Still(ls[i]) }

  /** When a window at rest ends. */
  function EndOf(s: Sys): int {
    if s.settlement.Armed? then s.settlement.deadline else LimitEnd(s)
  }

  /** A window of kind k at rest that ends at `end`, or has ended. */
  ghost predicate RestsUntil(s: Sys, k: RuntimeState, hooks: seq<Hook>, end: int) {
    && Inv(s) && IsActive(k)
    && (if IsActive(s.state) then s.state == k && AtRest(s) && EndOf(s) == end && s.hooks == hooks
        else s.now >= end && (hooks == [] ==> s.state == Sleep))
  }

  lemma NoWatchdogAtRest(s: Sys)
    requires Inv(s) && AtRest(s)
    ensures forall i :: IsSlot(i) ==> s.soft[i] == s.hard[i] == Stopped
  {
    forall i | IsSlot(i) ensures s.soft[i] == s.hard[i] == Stopped { assert SlotAt(s, i); }
  }

  /** At rest only timers and the clock move. */
  lemma AtRestStep(s: Sys, l: Label)
    requires Inv(s) && AtRest(s) && IsActive(s.state) && Enabled(s, l) && Still(l)
    ensures var s' := Apply(s, l);
      if IsActive(s'.state) then WellFormed(s') && AtRest(s') && s'.state == s.state && EndOf(s') == EndOf(s) && s'.hooks == s.hooks
      else s'.now == EndOf(s) && (s.hooks == [] ==> s'.state == Sleep)
  {
    NoWatchdogAtRest(s);
  }

  lemma RestsStep(s: Sys, l: Label, k: RuntimeState, hooks: seq<Hook>, end: int)
    requires RestsUntil(s, k, hooks, end) && Enabled(s, l) && Still(l)
    ensures RestsUntil(Apply(s, l), k, hooks, end)
  {
    hide Apply, Enabled;
    StepInv(s, l);
    StepTime(s, l);
    if IsActive(s.state) { AtRestStep(s, l); } else { WindowStep(s, l); }
  }

  lemma {:induction false} RestsRun(s: Sys, ls: seq<Label>, k: RuntimeState, hooks: seq<Hook>, end: int)
    requires RestsUntil(s, k, hooks, end) && Feasible(s, ls) && AllStill(ls)
    ensures RestsUntil(Exec(s, ls), k, hooks, end)
    decreases |ls|
  {
    hide Apply, Enabled, AtRest, Still;
    if ls != [] {
      RestsStep(s, ls[0], k, hooks, end);
      RestsRun(Apply(s, ls[0]), ls[1..], k, hooks, end);
    }
  }

  /** A window at rest ends when its settlement timer does, or else at its limit. */
  lemma RestingWindowEnds(s: Sys, ls: seq<Label>)
    requires Reachable(s) && IsActive(s.state) && AtRest(s) && Feasible(s, ls) && AllStill(ls)
    ensures var s' := Exec(s, ls);
      && (s'.now < EndOf(s) ==> s'.state == s.state)
      && (s'.now > EndOf(s) ==> !IsActive(s'.state))
  {
    ReachableInv(s);
    RestsRun(s, ls, s.state, s.hooks, EndOf(s));
  }

  /** What an evaluation that leaves the window at rest has done. */
  lemma LeftToSettle(s: Sys, l: Label)
    requires Inv(s) && SettlesSoon(s) && IsActive(s.state) && Enabled(s, l) && Evaluates(s, l)
    requires WellFormed(Apply(s, l)) && AtRest(Apply(s, l))
    ensures var s1 := Apply(s, l);
      if IsActive(s1.state) then s1.hooks == s.hooks && EndOf(s1) <= Min(s.now + SETTLEMENT_MS, LimitEnd(s))
      else s1.now == s.now && (s.hooks == [] ==> s1.state == Sleep)
  {
    ActiveEndsIff(s, l);
  }

  lemma {:induction false} InactiveLasts(s: Sys, ls: seq<Label>)
    requires WellFormed(s) && !IsActive(s.state) && Feasible(s, ls) && AllStill(ls)
    ensures !IsActive(Exec(s, ls).state) && (s.state == Sleep ==> Exec(s, ls).state == Sleep)
    decreases |ls|
  {
    hide Apply, Enabled;
    if ls != [] {
      assert Still(ls[0]);
      ApplyWellFormed(s, ls[0]);
      WindowStep(s, ls[0]);
      InactiveLasts(Apply(s, ls[0]), ls[1..]);
    }
  }

  /** A window that an evaluation leaves at rest ends within 10 ms of it, whatever its limit, and in
      SLEEP at once if it has no hooks. */
  lemma IdleWindowEnds(s: Sys, l: Label, ls: seq<Label>)
    requires Reachable(s) && IsActive(s.state) && Enabled(s, l) && Evaluates(s, l)
    requires WellFormed(Apply(s, l)) && AtRest(Apply(s, l)) && Feasible(Apply(s, l), ls) && AllStill(ls)
    ensures var s' := Exec(Apply(s, l), ls);
      s'.now > Min(s.now + SETTLEMENT_MS, LimitEnd(s)) ==>
        !IsActive(s'.state) && (s.hooks == [] ==> s'.state == Sleep)
  {
    hide Apply, Enabled, AtRest, Reachable, SettlesSoon;
    ReachableInv(s);
    ReachableSettlesSoon(s);
    var s1 := Apply(s, l);
    LeftToSettle(s, l);
    StepInv(s, l);
    if IsActive(s1.state) { RestsRun(s1, ls, s1.state, s1.hooks, EndOf(s1)); } else { InactiveLasts(s1, ls); }
  }

  // ---------------------------------------------------------------- a window nobody evaluates

  /** No request and no evaluation happens. */
  ghost predicate Unevaluated(s: Sys, ls: seq<Label>)
    requires WellFormed(s) && Feasible(s, ls)
    decreases |ls|
  {
    ls == [] ||
    (!ls[0].Request? && !Evaluates(s, ls[0]) &&
     (ApplyWellFormed(s, ls[0]); Unevaluated(Apply(s, ls[0]), ls[1..])))
  }

  /** The window of kind k opened at time t is still open and nothing will settle it, or it has
      reached its limit. */
  ghost predicate RunsOut(s: Sys, t: int, k: RuntimeState) {
    && Inv(s) && IsActive(k)
    && (if IsActive(s.state) then s.state == k && s.windowStart == t && s.settlement == Stopped
        else s.now >= t + Limit(k))
  }

  /** Only an evaluation starts the settlement timer. */
  lemma StaysUnsettled(s: Sys, l: Label)
    requires WellFormed(s) && Enabled(s, l) && s.settlement == Stopped && !Evaluates(s, l)
    ensures Apply(s, l).settlement == Stopped
  {}

  lemma RunsOutStep(s: Sys, l: Label, t: int, k: RuntimeState)
    requires RunsOut(s, t, k) && Enabled(s, l) && !l.Request? && !Evaluates(s, l)
    ensures RunsOut(Apply(s, l), t, k)
  {
    StepInv(s, l);
    StepTime(s, l);
    WindowStep(s, l);
    if IsActive(s.state) {
      ActiveEndsIff(s, l);
      StaysUnsettled(s, l);
    }
  }

  lemma {:induction false} RunsOutRun(s: Sys, ls: seq<Label>, t: int, k: RuntimeState)
    requires RunsOut(s, t, k) && Feasible(s, ls) && Unevaluated(s, ls)
    ensures RunsOut(Exec(s, ls), t, k)
    decreases |ls|
  {
    hide Apply, Enabled, Evaluates;
    if ls != [] {
      RunsOutStep(s, ls[0], t, k);
      RunsOutRun(Apply(s, ls[0]), ls[1..], t, k);
    }
  }

  /** A window that is never evaluated lasts exactly to its limit. */
  lemma UnevaluatedWindowLasts(s: Sys, k: RuntimeState, hooks: seq<Hook>, ls: seq<Label>)
    requires Reachable(s) && Effective(s, Request(k, hooks))
    requires Feasible(SetState(s, k, hooks), ls) && Unevaluated(SetState(s, k, hooks), ls)
    ensures var s' := Exec(SetState(s, k, hooks), ls);
      && (s'.now < s.now + Limit(k) ==> s'.state == k)
      && (s'.now > s.now + Limit(k) ==> !IsActive(s'.state))
  {
    ReachableInv(s);
    SetStateInv(s, k, hooks);
    RunsOutRun(SetState(s, k, hooks), ls, s.now, k);
  }
}
