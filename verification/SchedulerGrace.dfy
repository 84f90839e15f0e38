/** Grace periods that nothing ends early, however idle the system is. */
module SchedulerGrace {
  import opened RuntimeTypes
  import opened Scheduler
  import opened SchedulerInvariant
  import opened SchedulerTheorems

  /** Requests aside, a step ends GRACE exactly if it is the grace timer's, the settlement timer's
      with the system idle, or the maintenance thread's behind its last item with no user work. */
  lemma GraceEndsIff(s: Sys, l: Label)
    requires WellFormed(s) && Enabled(s, l) && s.state == GracePeriod && !l.Request?
    ensures Apply(s, l).state == Sleep <==>
      || l.GraceFires?
      || (l.SettlementFires? && Idle(s))
      || (l.Maintenance? && s.maintPc == GraceExit && !HasWork(s))
  {}

  /** Evaluating an early curfew starts the settlement timer in GRACE only in the first 160 ms after
      the window start. */
  lemma SettlementInGrace(s: Sys)
    requires s.state == GracePeriod && EvaluateEarlyCurfew(s) != s
    ensures s.now - s.windowStart < WINDOW_BACKGROUND_MAX_MS
    ensures EvaluateEarlyCurfew(s).settlement.Armed?
    ensures EvaluateEarlyCurfew(s).settlement.deadline <= s.windowStart + WINDOW_BACKGROUND_MAX_MS
  {}

  /** GRACE at least 160 ms after the window start, with the maintenance thread waiting on an
      empty queue and no settlement timer running. */
  predicate Lingering(s: Sys) {
    && s.state == GracePeriod
    && s.now - s.windowStart >= WINDOW_BACKGROUND_MAX_MS
    && s.maint == [] && s.maintPc == Waiting
    && s.settlement == Stopped
  }

  predicate Quiet(l: Label) { !l.Request? && !l.SubmitSystem? }

  lemma LingeringWorker(s: Sys, i: int)
    requires WellFormed(s) && Enabled(s, Worker(i)) && Lingering(s)
    ensures Lingering(WorkerStep(s, i)) && WorkerStep(s, i).grace == s.grace
  {
    if s.pc[i].Evaluating? {
      var s1 := s.(pc := s.pc[i := Top]);
      assert EvaluateEarlyCurfew(s1) == s1;
    }
  }

  /** Without requests and system work only the grace timer ends such a period: evaluating an
      early curfew finds the background limit passed and starts no settlement timer. */
  lemma LingeringStep(s: Sys, l: Label)
    requires Inv(s) && Enabled(s, l) && Lingering(s) && Quiet(l)
    ensures if l.GraceFires? then Apply(s, l).state == Sleep
            else Lingering(Apply(s, l)) && Apply(s, l).grace == s.grace
  {
    match l
    case Worker(i) => LingeringWorker(s, i);
    case _ =>
  }

  ghost predicate AllQuiet(ls: seq<Label>) { forall i :: 0 <= i < |ls| ==> Quiet(ls[i]) }

  /** Such a period is still on, or it has run out. */
  ghost predicate LingersUntil(s: Sys, deadline: int) {
    && Inv(s)
    && ((Lingering(s) && s.grace == Armed(deadline)) || (s.state == Sleep && s.now >= deadline))
  }

  lemma LingersUntilStep(s: Sys, l: Label, deadline: int)
    requires LingersUntil(s, deadline) && Enabled(s, l) && Quiet(l)
    ensures LingersUntil(Apply(s, l), deadline)
  {
    hide Apply, Enabled;
    StepInv(s, l);
    WindowStep(s, l);
    StepTime(s, l);
    if s.state == GracePeriod { LingeringStep(s, l); }
  }

  lemma {:induction false} LingersUntilRun(s: Sys, ls: seq<Label>, deadline: int)
    requires LingersUntil(s, deadline) && Feasible(s, ls) && AllQuiet(ls)
    ensures LingersUntil(Exec(s, ls), deadline)
    decreases |ls|
  {
    hide Apply, Enabled, Lingering, Quiet;
    if ls != [] {
      LingersUntilStep(s, ls[0], deadline);
      LingersUntilRun(Apply(s, ls[0]), ls[1..], deadline);
    }
  }

  /** Such a grace period lasts to its deadline, whatever the workers do. */
  lemma GraceRunsOut(s: Sys, ls: seq<Label>)
    requires Reachable(s) && Lingering(s) && Feasible(s, ls) && AllQuiet(ls)
    ensures s.grace.Armed?
    ensures var s' := Exec(s, ls);
      && (s'.now < s.grace.deadline ==> s'.state == GracePeriod)
      && (s'.now > s.grace.deadline ==> s'.state == Sleep)
  {
    ReachableInv(s);
    LingersUntilRun(s, ls, s.grace.deadline);
  }
}
