/** Runs from start-up into states that the theorems are about. */
module SchedulerRuns {
  import opened RuntimeTypes
  import opened Scheduler
  import opened SchedulerInvariant
  import opened SchedulerTheorems
  import opened SchedulerLeak
  import opened SchedulerGrace

  const ITEM := Item(0, User)

  /** A background window opened at time 0, at time t. */
  function Opened(t: int): (s: Sys)
    ensures WellFormed(s)
  {
    SetState(Init(0), BackgroundActive, []).(now := t)
  }

  /** The same with worker 0 at p. */
  function At(t: int, p: Pc, active: int, soft: Timer): (s: Sys)
    ensures WellFormed(s)
  {
    var s := Opened(t);
    s.(active := active, pc := s.pc[0 := p], soft := s.soft[0 := soft])
  }

  lemma QueuedReachable(t: int)
    requires 0 <= t <= 160
    ensures Reachable(Opened(t).(queue := [ITEM]))
  {
    hide Reachable;
    SubmittingReachable(ITEM);
    ReachableStep(Submitting(ITEM), SubmitPut(ITEM));
    var s := Opened(0).(queue := [ITEM]);
    assert SubmitQueued(Submitting(ITEM), ITEM) == s;
    ReachableStep(s, Advance(t));
  }

  lemma Moves(s: Sys, s': Sys)
    requires WellFormed(s) && Reachable(s) && Enabled(s, Worker(0)) && WorkerStep(s, 0) == s'
    ensures Reachable(s')
  {
    hide Reachable;
    ReachableStep(s, Worker(0));
  }

  lemma DequeuedReachable(t: int)
    requires 0 <= t <= 160
    ensures Reachable(At(t, Taken(ITEM), 0, Stopped))
  {
    hide Reachable;
    QueuedReachable(t);
    assert AllSlots(Stopped)[0 := Stopped] == AllSlots(Stopped);
    Moves(Opened(t).(queue := [ITEM]), At(t, Taken(ITEM), 0, Stopped));
  }

  lemma Replaced(p: Pc, p': Pc)
    ensures AllSlots(Top)[0 := p][0 := p'] == AllSlots(Top)[0 := p']
  {}

  lemma CountedReachable(t: int)
    requires 0 <= t <= 160
    ensures Reachable(At(t, Counted(ITEM), 1, Stopped))
  {
    hide Reachable;
    DequeuedReachable(t);
    Replaced(Taken(ITEM), Checked(ITEM));
    Moves(At(t, Taken(ITEM), 0, Stopped), At(t, Checked(ITEM), 0, Stopped));
    Replaced(Checked(ITEM), Interrupted(ITEM));
    Moves(At(t, Checked(ITEM), 0, Stopped), At(t, Interrupted(ITEM), 0, Stopped));
    Replaced(Interrupted(ITEM), Counted(ITEM));
    Moves(At(t, Interrupted(ITEM), 0, Stopped), At(t, Counted(ITEM), 1, Stopped));
  }

  /** Worker 0 has been in a handler since time t. */
  function Busy(t: int): (s: Sys)
    ensures WellFormed(s)
  {
    At(t, Handling(ITEM, t), 1, Armed(t + 30))
  }

  lemma BusyReachable(t: int)
    requires 0 <= t <= 160
    ensures Reachable(Busy(t))
  {
    hide Reachable;
    CountedReachable(t);
    var s, g := At(t, Counted(ITEM), 1, Stopped), At(t, Guarded(ITEM, t), 1, Armed(t + 30));
    Replaced(Counted(ITEM), Guarded(ITEM, t));
    assert AllSlots(false)[0 := false] == AllSlots(false);
    assert AllSlots(Stopped)[0 := Stopped][0 := Armed(t + 30)] == AllSlots(Stopped)[0 := Armed(t + 30)];
    Moves(s, g);
    Replaced(Guarded(ITEM, t), Handling(ITEM, t));
    Moves(g, Busy(t));
  }

  /** A handler that never returns is killed, and that leaks. */
  lemma LeakReachable()
    ensures exists s: Sys :: Reachable(s) && Leaked(s)
  {
    hide Reachable, Leaked, Inv;
    BusyReachable(0);
    var s := Busy(0);
    ReachableStep(s, Advance(30));
    var s1 := s.(now := 30);
    ReachableStep(s1, SoftFires(0));
    var s2 := SoftExpiry(s1, 0);
    ReachableStep(s2, Advance(40));
    var s3 := s2.(now := 40);
    ReachableStep(s3, HardFires(0));
    ReachableInv(s3);
    RecoveryLeaks(s3, 0);
  }

  /** GRACE entered while worker 0's handler is still running. */
  function Graced(p: Pc, active: int, soft: Timer): (s: Sys)
    ensures WellFormed(s)
  {
    At(160, p, active, soft).(state := GracePeriod, total := Stopped, grace := Armed(860))
  }

  lemma GracedReachable()
    ensures Reachable(Graced(Handling(ITEM, 140), 1, Armed(170)))
  {
    hide Reachable;
    BusyReachable(140);
    ReachableStep(Busy(140), Advance(160));
    var s := Busy(140).(now := 160);
    ReachableStep(s, TotalFires);
    assert TotalExpiry(s) == Graced(Handling(ITEM, 140), 1, Armed(170));
  }

  lemma StoppedAgain()
    ensures AllSlots(Stopped)[0 := Armed(170)][0 := Stopped] == AllSlots(Stopped)[0 := Stopped] == AllSlots(Stopped)
    ensures AllSlots(false)[0 := false] == AllSlots(false)
  {}

  /** It returns right after; the system is then idle, with nothing leaked, and 700 ms of GRACE
      still to come. */
  lemma LingeringReachable()
    ensures exists s: Sys ::
      && Reachable(s) && Lingering(s) && Idle(s) && !Leaked(s)
      && s.grace == Armed(s.now + WINDOW_GRACE_PERIOD_MS)
  {
    hide Reachable;
    GracedReachable();
    var s1 := Graced(Returned(ITEM, 140), 1, Armed(170));
    Replaced(Handling(ITEM, 140), Returned(ITEM, 140));
    Moves(Graced(Handling(ITEM, 140), 1, Armed(170)), s1);
    var s2 := Graced(Released, 1, Stopped);
    Replaced(Returned(ITEM, 140), Released);
    StoppedAgain();
    Moves(s1, s2);
    var s3 := Graced(Decremented, 0, Stopped);
    Replaced(Released, Decremented);
    Moves(s2, s3);
    CountBracketZero(s3.pc);
  }
}
