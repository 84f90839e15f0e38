/** Both queues are first in, first out, over all runs. */
module SchedulerOrder {
  import opened RuntimeTypes
  import opened Scheduler
  import opened SchedulerTheorems
  import opened SchedulerLedger
  import opened SchedulerHooks

  /** Items that went into one queue and items that left it, each in order. */
  datatype Traffic<T> = Traffic(put: seq<T>, left: seq<T>)

  // ---------------------------------------------------------------- user work

  /** A submission puts an item marked as user work if there is room. A worker takes the one it holds
      from then on; an entry into SLEEP takes all that are queued. */
  ghost function UserStep(t: Traffic<Item>, s: Sys, l: Label): Traffic<Item>
    requires WellFormed(s) && Enabled(s, l)
  {
    if EntersSleep(s, Apply(s, l)) then t.(left := t.left + s.queue)
    else if l.SubmitPut? && |s.queue| < USER_QUEUE_SIZE then t.(put := t.put + [Item(l.item.id, User)])
    else if l.Worker? && s.pc[l.slot].Top? then t.(left := t.left + [WorkerStep(s, l.slot).pc[l.slot].item])
    else t
  }

  ghost function UserTraffic(t: Traffic<Item>, s: Sys, ls: seq<Label>): Traffic<Item>
    requires WellFormed(s) && Feasible(s, ls)
    decreases |ls|
  {
    if ls == [] then t
    else ApplyWellFormed(s, ls[0]); UserTraffic(UserStep(t, s, ls[0]), Apply(s, ls[0]), ls[1..])
  }

  lemma UserOrderAtWorker(t: Traffic<Item>, s: Sys, i: int)
    requires WellFormed(s) && Enabled(s, Worker(i)) && t.put == t.left + s.queue
    ensures var t' := UserStep(t, s, Worker(i)); t'.put == t'.left + WorkerStep(s, i).queue
  {
    if s.pc[i].Top? { assert s.queue == [s.queue[0]] + s.queue[1..]; }
    if s.pc[i].Evaluating? { QueueEffectOfEvaluation(s.(pc := s.pc[i := Top])); }
  }

  lemma UserOrderStep(t: Traffic<Item>, s: Sys, l: Label)
    requires WellFormed(s) && Enabled(s, l) && t.put == t.left + s.queue
    ensures var t' := UserStep(t, s, l); t'.put == t'.left + Apply(s, l).queue
  {
    match l
    case Worker(i) => UserOrderAtWorker(t, s, i);
    case HardFires(_) =>
    case SubmitPut(_) =>
    case _ => QueueEffectOfStep(s, l);
  }

  lemma {:induction false} UserOrderRun(t: Traffic<Item>, s: Sys, ls: seq<Label>)
    requires WellFormed(s) && Feasible(s, ls) && t.put == t.left + s.queue
    ensures var t' := UserTraffic(t, s, ls); t'.put == t'.left + Exec(s, ls).queue
    decreases |ls|
  {
    hide Apply, Enabled, UserStep;
    if ls != [] {
      UserOrderStep(t, s, ls[0]);
      ApplyWellFormed(s, ls[0]);
      UserOrderRun(UserStep(t, s, ls[0]), Apply(s, ls[0]), ls[1..]);
    }
  }

  /** Over any run from start-up the items that workers took or a SLEEP entry purged, and then the
      queued ones, are the accepted ones in the order of their submission. */
  lemma UserWorkInOrder(t: nat, ls: seq<Label>)
    requires Feasible(Init(t), ls)
    ensures var u := UserTraffic(Traffic([], []), Init(t), ls);
      u.put == u.left + Exec(Init(t), ls).queue
  {
    UserOrderRun(Traffic([], []), Init(t), ls);
  }

  /** Submissions that passed their state check, and those that then went on to the queue, which
      took them or had no room. */
  datatype Submissions = Submissions(passed: multiset<Item>, done: multiset<Item>)

  function SubmissionStep(b: Submissions, s: Sys, l: Label): Submissions {
    match l
    case SubmitCheck(item) => if s.state != Sleep then b.(passed := b.passed + multiset{item}) else b
    case SubmitPut(item) => b.(done := b.done + multiset{item})
    case _ => b
  }

  ghost function SubmissionsAfter(b: Submissions, s: Sys, ls: seq<Label>): Submissions
    requires WellFormed(s) && Feasible(s, ls)
    decreases |ls|
  {
    if ls == [] then b
    else ApplyWellFormed(s, ls[0]); SubmissionsAfter(SubmissionStep(b, s, ls[0]), Apply(s, ls[0]), ls[1..])
  }

  lemma SubmissionBalance(b: Submissions, s: Sys, l: Label)
    requires WellFormed(s) && Enabled(s, l) && b.passed == b.done + s.submitting
    ensures var b' := SubmissionStep(b, s, l); b'.passed == b'.done + Apply(s, l).submitting
  {}

  lemma {:induction false} SubmissionsRun(b: Submissions, s: Sys, ls: seq<Label>)
    requires WellFormed(s) && Feasible(s, ls) && b.passed == b.done + s.submitting
    ensures var b' := SubmissionsAfter(b, s, ls); b'.passed == b'.done + Exec(s, ls).submitting
    decreases |ls|
  {
    hide Apply, Enabled, SubmissionStep;
    if ls != [] {
      SubmissionBalance(b, s, ls[0]);
      ApplyWellFormed(s, ls[0]);
      SubmissionsRun(SubmissionStep(b, s, ls[0]), Apply(s, ls[0]), ls[1..]);
    }
  }

  /** Over any run from start-up every submission that passed its state check, and no other, has gone
      on to the queue exactly once or is about to. */
  lemma EverySubmissionOnce(t: nat, ls: seq<Label>)
    requires Feasible(Init(t), ls)
    ensures var b := SubmissionsAfter(Submissions(multiset{}, multiset{}), Init(t), ls);
      b.passed == b.done + Exec(Init(t), ls).submitting
  {
    SubmissionsRun(Submissions(multiset{}, multiset{}), Init(t), ls);
  }

  // ---------------------------------------------------------------- maintenance work

  /** A system submission puts its item and the step into GRACE the pending hooks, as far as there
      is room. The maintenance thread takes the one that it then serves. */
  ghost function MaintTrafficStep(t: Traffic<MaintItem>, s: Sys, l: Label): Traffic<MaintItem>
    requires WellFormed(s) && Enabled(s, l)
  {
    if l.SubmitSystem? then
      if |s.maint| < MAINT_QUEUE_SIZE then t.(put := t.put + [SystemWork(l.id)]) else t
    else if Posts(s, Apply(s, l)) then
      t.(put := t.put + HookItems(s.hooks[..Room(s.maint, |s.hooks|)]))
    else if l.Maintenance? && s.maintPc.Waiting? then t.(left := t.left + [MaintStep(s).maintPc.item])
    else t
  }

  ghost function MaintTraffic(t: Traffic<MaintItem>, s: Sys, ls: seq<Label>): Traffic<MaintItem>
    requires WellFormed(s) && Feasible(s, ls)
    decreases |ls|
  {
    if ls == [] then t
    else ApplyWellFormed(s, ls[0]); MaintTraffic(MaintTrafficStep(t, s, ls[0]), Apply(s, ls[0]), ls[1..])
  }

  lemma MaintOrderAtMaintenance(t: Traffic<MaintItem>, s: Sys)
    requires WellFormed(s) && Enabled(s, Maintenance) && t.put == t.left + s.maint
    ensures var t' := MaintTrafficStep(t, s, Maintenance); t'.put == t'.left + MaintStep(s).maint
  {
    hide EvaluateEarlyCurfew, PutAll;
    match s.maintPc
    case Waiting => assert s.maint == [s.maint[0]] + s.maint[1..];
    case EarlyCurfew => HookEffectOfEvaluation(s.(maintPc := Waiting));
    case _ =>
  }

  lemma MaintOrderStep(t: Traffic<MaintItem>, s: Sys, l: Label)
    requires WellFormed(s) && Enabled(s, l) && t.put == t.left + s.maint
    ensures var t' := MaintTrafficStep(t, s, l); t'.put == t'.left + Apply(s, l).maint
  {
    if l.Maintenance? {
      MaintOrderAtMaintenance(t, s);
    } else if l.SubmitSystem? {
      PutAllPrefix(s.maint, [SystemWork(l.id)]);
    } else if !Effective(s, l) {
      HookEffectOfStep(s, l);
    }
  }

  lemma {:induction false} MaintOrderRun(t: Traffic<MaintItem>, s: Sys, ls: seq<Label>)
    requires WellFormed(s) && Feasible(s, ls) && t.put == t.left + s.maint
    ensures var t' := MaintTraffic(t, s, ls); t'.put == t'.left + Exec(s, ls).maint
    decreases |ls|
  {
    hide Apply, Enabled, MaintTrafficStep;
    if ls != [] {
      MaintOrderStep(t, s, ls[0]);
      ApplyWellFormed(s, ls[0]);
      MaintOrderRun(MaintTrafficStep(t, s, ls[0]), Apply(s, ls[0]), ls[1..]);
    }
  }

  /** Over any run from start-up the maintenance items served and then the queued ones are those
      that were put, in order. Nothing else ever leaves that queue. */
  lemma MaintenanceInOrder(t: nat, ls: seq<Label>)
    requires Feasible(Init(t), ls)
    ensures var m := MaintTraffic(Traffic([], []), Init(t), ls);
      m.put == m.left + Exec(Init(t), ls).maint
  {
    MaintOrderRun(Traffic([], []), Init(t), ls);
  }
}
