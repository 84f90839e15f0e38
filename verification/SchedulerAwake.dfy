/** Which workers are suspended: all of them in SLEEP, none outside it, hard recoveries apart. */
module SchedulerAwake {
  import opened RuntimeTypes
  import opened Scheduler
  import opened SchedulerLedger

  ghost function RestartedStep(r: set<int>, s: Sys, l: Label): set<int>
    requires WellFormed(s) && Enabled(s, l)
  {
    if EntersSleep(s, Apply(s, l)) then {} else if l.HardFires? then r + {l.slot} else r
  }

  /** The slots killed and started anew since SLEEP was last entered. */
  ghost function Restarted(r: set<int>, s: Sys, ls: seq<Label>): set<int>
    requires WellFormed(s) && Feasible(s, ls)
    decreases |ls|
  {
    if ls == [] then r
    else ApplyWellFormed(s, ls[0]); Restarted(RestartedStep(r, s, ls[0]), Apply(s, ls[0]), ls[1..])
  }

  /** Suspended are, in SLEEP only, the slots outside r. */
  ghost predicate SuspendedBut(s: Sys, r: set<int>)
    requires WellFormed(s)
  {
    forall i :: IsSlot(i) ==> (s.suspended[i] <==> s.state == Sleep && i !in r)
  }

  lemma SuspendedByEvaluation(s: Sys, r: set<int>)
    requires WellFormed(s) && SuspendedBut(s, r)
    ensures var s' := EvaluateEarlyCurfew(s);
      WellFormed(s') && SuspendedBut(s', if EntersSleep(s, s') then {} else r)
  {}

  lemma SuspendedByWorker(s: Sys, i: int, r: set<int>)
    requires WellFormed(s) && Enabled(s, Worker(i)) && SuspendedBut(s, r)
    ensures SuspendedBut(WorkerStep(s, i), RestartedStep(r, s, Worker(i)))
  {
    if s.pc[i].Evaluating? { SuspendedByEvaluation(s.(pc := s.pc[i := Top]), r); }
  }

  lemma SuspendedByMaintenance(s: Sys, r: set<int>)
    requires WellFormed(s) && Enabled(s, Maintenance) && SuspendedBut(s, r)
    ensures SuspendedBut(MaintStep(s), RestartedStep(r, s, Maintenance))
  {
    if s.maintPc.EarlyCurfew? { SuspendedByEvaluation(s.(maintPc := Waiting), r); }
  }

  lemma SuspendedStep(s: Sys, l: Label, r: set<int>)
    requires WellFormed(s) && Enabled(s, l) && SuspendedBut(s, r)
    ensures WellFormed(Apply(s, l)) && SuspendedBut(Apply(s, l), RestartedStep(r, s, l))
  {
    match l
    case Worker(i) => SuspendedByWorker(s, i, r);
    case Maintenance => SuspendedByMaintenance(s, r);
    case _ =>
  }

  lemma {:induction false} SuspendedRun(s: Sys, ls: seq<Label>, r: set<int>)
    requires WellFormed(s) && Feasible(s, ls) && SuspendedBut(s, r)
    ensures SuspendedBut(Exec(s, ls), Restarted(r, s, ls))
    decreases |ls|
  {
    if ls != [] {
      SuspendedStep(s, ls[0], r);
      SuspendedRun(Apply(s, ls[0]), ls[1..], RestartedStep(r, s, ls[0]));
    }
  }

  /** After any run from start-up a slot is suspended exactly if the state is SLEEP and the slot
      has not been killed since it was entered. */
  lemma SuspendedIff(t: nat, ls: seq<Label>, i: int)
    requires Feasible(Init(t), ls) && IsSlot(i)
    ensures var s := Exec(Init(t), ls);
      s.suspended[i] <==> s.state == Sleep && i !in Restarted({}, Init(t), ls)
  {
    SuspendedRun(Init(t), ls, {});
  }

  /** Opening a window wakes every worker, and they stay awake until SLEEP. */
  lemma AwakeOutsideSleep(s: Sys)
    requires Reachable(s) && s.state != Sleep
    ensures s.suspended == AllSlots(false)
  {
    var t: nat, ls: seq<Label> :| Feasible(Init(t), ls) && Exec(Init(t), ls) == s;
    forall i | IsSlot(i) ensures !s.suspended[i] { SuspendedIff(t, ls, i); }
  }
}
