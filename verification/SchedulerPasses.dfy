/** What a thread does in one pass of its loop, when nothing else happens meanwhile. */
module SchedulerPasses {
  import opened RuntimeTypes
  import opened Scheduler
  import opened SchedulerInvariant
  import opened SchedulerTheorems

  /** n steps of one thread. */
  function Alone(l: Label, n: nat): (ls: seq<Label>)
    ensures |ls| == n
  {
    seq(n, _ => l)
  }

  /** n steps of one thread take s to s'. */
  ghost predicate Leads(s: Sys, l: Label, n: nat, s': Sys)
    requires WellFormed(s)
  {
    Feasible(s, Alone(l, n)) && Exec(s, Alone(l, n)) == s'
  }

  lemma OneMore(s: Sys, l: Label, n: nat, s': Sys)
    requires WellFormed(s) && Enabled(s, l) && WellFormed(Apply(s, l)) && Leads(Apply(s, l), l, n, s')
    ensures Leads(s, l, n + 1, s')
  {
    hide Apply, Enabled;
    assert Alone(l, n + 1) == [l] + Alone(l, n);
    FeasibleOne(s, l, Alone(l, n));
  }

  lemma NoMore(s: Sys, l: Label)
    requires WellFormed(s)
    ensures Leads(s, l, 0, s)
  {}

  /** The last step of a pass. */
  lemma Last(s: Sys, l: Label)
    requires WellFormed(s) && Enabled(s, l) && WellFormed(Apply(s, l))
    ensures Leads(s, l, 1, Apply(s, l))
  {
    hide Apply, Enabled;
    NoMore(Apply(s, l), l);
    OneMore(s, l, 0, Apply(s, l));
  }

  // ---------------------------------------------------------------- the maintenance thread

  /** What running a maintenance item leads to once its handler has returned. */
  function AfterItem(s: Sys): Sys {
    if s.state == GracePeriod && Idle(s) then
      s.(state := Sleep, grace := Stopped, suspended := AllSlots(true), abort := AllSlots(true), maintPc := Waiting)
    else if IsActive(s.state) then EvaluateEarlyCurfew(s.(maintPc := Waiting))
    else s.(maintPc := Waiting)
  }

  /** The number of points from the return of the handler on. */
  function PointsAfter(s: Sys): nat {
    3 + (if s.maint == [] then 1 else 0) + (if IsActive(s.state) then 1 else 0)
  }

  lemma FromStateCheck(s: Sys)
    requires WellFormed(s) && s.maintPc == StateCheck
    ensures Leads(s, Maintenance, if IsActive(s.state) then 2 else 1,
                  if IsActive(s.state) then EvaluateEarlyCurfew(s.(maintPc := Waiting)) else s.(maintPc := Waiting))
  {
    hide EvaluateEarlyCurfew;
    if IsActive(s.state) {
      Last(s.(maintPc := EarlyCurfew), Maintenance);
      OneMore(s, Maintenance, 1, EvaluateEarlyCurfew(s.(maintPc := Waiting)));
    } else {
      Last(s, Maintenance);
    }
  }

  /** When a maintenance handler has returned and nothing else happens, the thread ends a grace
      period exactly if its queue and the workers have nothing left, evaluates an early curfew in
      an active window, and does nothing otherwise. */
  lemma MaintenancePass(s: Sys)
    requires WellFormed(s) && s.maintPc.Serving?
    ensures Leads(s, Maintenance, PointsAfter(s), AfterItem(s))
  {
    hide Leads, EvaluateEarlyCurfew;
    var s1 := s.(maintPc := DepthCheck);
    if s.maint == [] {
      var s2 := s.(maintPc := GraceExit);
      var s3 := LeaveGrace(s.(maintPc := StateCheck));
      FromStateCheck(s3);
      var n := if IsActive(s.state) then 2 else 1;
      OneMore(s2, Maintenance, n, AfterItem(s));
      OneMore(s1, Maintenance, n + 1, AfterItem(s));
      OneMore(s, Maintenance, n + 2, AfterItem(s));
    } else {
      FromStateCheck(s.(maintPc := StateCheck));
      var n := if IsActive(s.state) then 2 else 1;
      OneMore(s1, Maintenance, n, AfterItem(s));
      OneMore(s, Maintenance, n + 1, AfterItem(s));
    }
  }

  lemma {:induction false} InTwoParts(s: Sys, l: Label, m: nat, s1: Sys, n: nat, s2: Sys)
    requires WellFormed(s) && Leads(s, l, m, s1)
    requires WellFormed(s1) && Leads(s1, l, n, s2)
    ensures Leads(s, l, m + n, s2)
    decreases m
  {
    hide Apply, Enabled;
    if m > 0 {
      assert Alone(l, m)[0] == l && Alone(l, m)[1..] == Alone(l, m - 1);
      ApplyWellFormed(s, l);
      InTwoParts(Apply(s, l), l, m - 1, s1, n, s2);
      OneMore(s, l, m - 1 + n, s2);
    }
  }

  /** The state in which a grace period ends when the maintenance thread has served everything. */
  function AllServed(s: Sys): Sys {
    s.(maint := [], state := Sleep, grace := Stopped, suspended := AllSlots(true), abort := AllSlots(true))
  }

  /** One item of a grace period without user work. */
  lemma ServeOne(s: Sys)
    requires WellFormed(s) && s.state == GracePeriod && !HasWork(s) && s.maintPc == Waiting && s.maint != []
    ensures if |s.maint| == 1 then Leads(s, Maintenance, 5, AllServed(s))
            else Leads(s, Maintenance, 4, s.(maint := s.maint[1..]))
  {
    hide Leads;
    var s1 := s.(maintPc := Serving(s.maint[0]), maint := s.maint[1..]);
    MaintenancePass(s1);
    OneMore(s, Maintenance, PointsAfter(s1), AfterItem(s1));
  }

  /** In a grace period without user work the maintenance thread, if nothing else happens, runs every
      item that is queued, and then SLEEP is entered. */
  lemma {:induction false} GraceServesAll(s: Sys)
    requires WellFormed(s) && s.state == GracePeriod && !HasWork(s) && s.maintPc == Waiting && s.maint != []
    ensures Leads(s, Maintenance, 4 * |s.maint| + 1, AllServed(s))
    decreases |s.maint|
  {
    hide Leads;
    ServeOne(s);
    if |s.maint| > 1 {
      var s1 := s.(maint := s.maint[1..]);
      GraceServesAll(s1);
      InTwoParts(s, Maintenance, 4, s1, 4 * |s1.maint| + 1, AllServed(s));
    }
  }

  // ---------------------------------------------------------------- a pool worker

  /** Slot i's watchdog is started. */
  function Watched(s: Sys, i: int): Sys
    requires WellFormed(s) && IsSlot(i)
  {
    s.(abort := s.abort[i := false], soft := s.soft[i := Armed(s.now + 30)])
  }

  lemma PcAgain(s: Sys, i: int, p: Pc, q: Pc)
    requires WellFormed(s) && IsSlot(i)
    ensures s.pc[i := p][i := q] == s.pc[i := q] && s.pc[i := p][i] == p
    ensures s.pc[i] == q ==> s.pc[i := q] == s.pc
  {}

  /** A worker from the SLEEP check on, outside SLEEP. */
  lemma Admitted(s: Sys, i: int, item: Item)
    requires WellFormed(s) && IsSlot(i) && s.pc[i] == Taken(item) && item.kind == User
    requires !s.suspended[i] && s.state != Sleep
    ensures Leads(s, Worker(i), 5,
      Watched(s, i).(pc := s.pc[i := Handling(item, s.now)], settlement := Stopped, active := s.active + 1))
  {
    hide Leads;
    var l := Worker(i);
    var s2 := s.(pc := s.pc[i := Checked(item)]);
    var s3 := s.(pc := s.pc[i := Interrupted(item)], settlement := Stopped);
    var s4 := s.(pc := s.pc[i := Counted(item)], settlement := Stopped, active := s.active + 1);
    var s5 := Watched(s, i).(pc := s.pc[i := Guarded(item, s.now)], settlement := Stopped, active := s.active + 1);
    var s6 := Watched(s, i).(pc := s.pc[i := Handling(item, s.now)], settlement := Stopped, active := s.active + 1);
    assert WorkerStep(s5, i) == s6;
    Last(s5, l);
    assert WorkerStep(s4, i) == s5;
    OneMore(s4, l, 1, s6);
    assert WorkerStep(s3, i) == s4;
    OneMore(s3, l, 2, s6);
    assert WorkerStep(s2, i) == s3;
    OneMore(s2, l, 3, s6);
    assert WorkerStep(s, i) == s2;
    OneMore(s, l, 4, s6);
  }

  /** A worker at the top of its loop takes the oldest item and, if nothing else happens, is soon in
      its handler, with the settlement timer stopped, the active count raised and the slot's watchdog
      started; in SLEEP it drops the item. */
  lemma WorkerDispatches(s: Sys, i: int)
    requires Inv(s) && Enabled(s, Worker(i)) && s.pc[i] == Top
    ensures if s.state == Sleep then Leads(s, Worker(i), 2, s.(queue := s.queue[1..]))
      else Leads(s, Worker(i), 6,
        Watched(s, i).(queue := s.queue[1..], pc := s.pc[i := Handling(s.queue[0], s.now)],
                       settlement := Stopped, active := s.active + 1))
  {
    hide Leads;
    var item := s.queue[0];
    var s1 := s.(queue := s.queue[1..], pc := s.pc[i := Taken(item)]);
    PcAgain(s, i, Taken(item), Top);
    if s.state == Sleep {
      Last(s1, Worker(i));
      OneMore(s, Worker(i), 1, s.(queue := s.queue[1..]));
    } else {
      Admitted(s1, i, item);
      PcAgain(s, i, Taken(item), Handling(item, s.now));
      OneMore(s, Worker(i), 5,
        Watched(s, i).(queue := s.queue[1..], pc := s.pc[i := Handling(item, s.now)],
                       settlement := Stopped, active := s.active + 1));
    }
  }

  /** The state a worker leaves once it has stopped its watchdog and lowered the active count. */
  function Finished(s: Sys, i: int): Sys
    requires WellFormed(s) && IsSlot(i)
  {
    s.(pc := s.pc[i := Top], active := s.active - 1,
       soft := s.soft[i := Stopped], hard := s.hard[i := Stopped], abort := s.abort[i := false])
  }

  /** From the return of the handler to the decrement. */
  lemma WorkerReleases(s: Sys, i: int)
    requires Inv(s) && Enabled(s, Worker(i)) && s.pc[i].Handling?
    ensures Leads(s, Worker(i), 3, Finished(s, i).(pc := s.pc[i := Decremented]))
  {
    hide Leads, EvaluateEarlyCurfew;
    assert SlotAt(s, i);
    var item, l := s.pc[i].item, Worker(i);
    var s1 := s.(pc := s.pc[i := Returned(item, s.pc[i].since)]);
    assert WorkerStep(s, i) == s1;
    var s2 := Finished(s, i).(pc := s.pc[i := Released], active := s.active);
    assert WorkerStep(s1, i) == s2;
    var s3 := Finished(s, i).(pc := s.pc[i := Decremented]);
    assert WorkerStep(s2, i) == s3;
    Last(s2, l);
    OneMore(s1, l, 1, s3);
    OneMore(s, l, 2, s3);
  }

  /** After the decrement. */
  lemma WorkerGoesOn(s: Sys, i: int)
    requires WellFormed(s) && Enabled(s, Worker(i)) && s.pc[i].Decremented?
    ensures var s' := s.(pc := s.pc[i := Top]);
      if s.active == 0 then Leads(s, Worker(i), 2, EvaluateEarlyCurfew(s')) else Leads(s, Worker(i), 1, s')
  {
    hide Leads, EvaluateEarlyCurfew;
    if s.active == 0 {
      var s1 := s.(pc := s.pc[i := Evaluating]);
      assert WorkerStep(s, i) == s1;
      PcAgain(s, i, Evaluating, Top);
      assert WorkerStep(s1, i) == EvaluateEarlyCurfew(s.(pc := s.pc[i := Top]));
      Last(s1, Worker(i));
      OneMore(s, Worker(i), 1, EvaluateEarlyCurfew(s.(pc := s.pc[i := Top])));
    } else {
      Last(s, Worker(i));
    }
  }

  /** A worker whose handler has returned, the last of them: it evaluates an early curfew. Any other
      goes on to the next item. */
  lemma WorkerFinishes(s: Sys, i: int)
    requires Inv(s) && Enabled(s, Worker(i)) && s.pc[i].Handling?
    ensures if s.active == 1 then Leads(s, Worker(i), 5, EvaluateEarlyCurfew(Finished(s, i)))
            else Leads(s, Worker(i), 4, Finished(s, i))
  {
    hide Leads, EvaluateEarlyCurfew, SlotsOk, MayAdvance;
    var s3 := Finished(s, i).(pc := s.pc[i := Decremented]);
    WorkerReleases(s, i);
    PcAgain(s, i, Decremented, Top);
    WorkerGoesOn(s3, i);
    if s.active == 1 {
      InTwoParts(s, Worker(i), 3, s3, 2, EvaluateEarlyCurfew(Finished(s, i)));
    } else {
      InTwoParts(s, Worker(i), 3, s3, 1, Finished(s, i));
    }
  }
}
