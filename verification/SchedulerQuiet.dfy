/** Which window timers are left running when a window or a grace period ends. */
module SchedulerQuiet {
  import opened RuntimeTypes
  import opened Scheduler
  import opened SchedulerInvariant
  import opened SchedulerTheorems

  /** The step to s' ends an active window, and with it the total and the settlement timer; or it ends
      GRACE in SLEEP, and with it the grace timer. A request for SLEEP and the settlement timer stop
      the other timers too. */
  predicate TimersEnd(s: Sys, s': Sys, all: bool) {
    && (IsActive(s.state) && !IsActive(s'.state) ==> s'.total == s'.settlement == Stopped)
    && (s.state == GracePeriod && s'.state == Sleep ==> s'.total == s'.grace == Stopped)
    && (all && s.state == GracePeriod && s'.state == Sleep ==> s'.settlement == Stopped)
  }

  lemma TimersEndAtEvaluation(s: Sys)
    requires TimersOk(s)
    ensures TimersEnd(s, EvaluateEarlyCurfew(s), true)
  {}

  lemma TimersEndAtTimer(s: Sys, l: Label)
    requires Inv(s) && Enabled(s, l)
    requires l.TotalFires? || l.GraceFires? || l.SettlementFires?
    ensures TimersEnd(s, Apply(s, l), l.SettlementFires?)
  {
    hide SlotsOk, MayAdvance;
  }

  lemma TimersEndAtThread(s: Sys, l: Label)
    requires Inv(s) && Enabled(s, l) && (l.Worker? || l.Maintenance?)
    ensures TimersEnd(s, Apply(s, l), false)
  {
    hide SlotsOk, MayAdvance, EvaluateEarlyCurfew;
    match l
    case Worker(i) => if s.pc[i].Evaluating? { TimersEndAtEvaluation(s.(pc := s.pc[i := Top])); }
    case Maintenance => if s.maintPc.EarlyCurfew? { TimersEndAtEvaluation(s.(maintPc := Waiting)); }
  }

  /** SLEEP with no window timer running. */
  predicate Silent(s: Sys) { s.state == Sleep && s.total == s.grace == s.settlement == Stopped }

  /** Every end of a window or a grace period stops its timers. */
  lemma TimersEndStep(s: Sys, l: Label)
    requires Inv(s) && Enabled(s, l)
    ensures TimersEnd(s, Apply(s, l), l.Request? || l.SettlementFires?)
    ensures l.Request? && l.target == Sleep && s.state != Sleep ==> Silent(Apply(s, l))
  {
    hide SlotsOk, MayAdvance, WorkerStep, MaintStep, TotalExpiry, GraceExpiry, SettlementExpiry;
    match l
    case TotalFires => TimersEndAtTimer(s, l);
    case GraceFires => TimersEndAtTimer(s, l);
    case SettlementFires => TimersEndAtTimer(s, l);
    case Worker(_) => TimersEndAtThread(s, l);
    case Maintenance => TimersEndAtThread(s, l);
    case _ =>
  }

  lemma SilentStep(s: Sys, l: Label)
    requires WellFormed(s) && Enabled(s, l) && Silent(s) && !Effective(s, l)
    ensures Silent(Apply(s, l))
  {}

  lemma {:induction false} SilentRun(s: Sys, ls: seq<Label>)
    requires WellFormed(s) && Silent(s) && Feasible(s, ls) && NoWindowOpens(s, ls)
    ensures Silent(Exec(s, ls))
    decreases |ls|
  {
    hide Apply, Enabled, Silent, Effective;
    if ls != [] {
      SilentStep(s, ls[0]);
      ApplyWellFormed(s, ls[0]);
      SilentRun(Apply(s, ls[0]), ls[1..]);
    }
  }

  /** After a request for SLEEP no timer of a window runs until another window is opened. */
  lemma RequestedSleepIsSilent(s: Sys, hooks: seq<Hook>, ls: seq<Label>)
    requires Reachable(s) && s.state != Sleep
    requires Feasible(SetState(s, Sleep, hooks), ls) && NoWindowOpens(SetState(s, Sleep, hooks), ls)
    ensures Silent(Exec(SetState(s, Sleep, hooks), ls))
  {
    hide Silent;
    ReachableInv(s);
    TimersEndStep(s, Request(Sleep, hooks));
    SilentRun(SetState(s, Sleep, hooks), ls);
  }
}
