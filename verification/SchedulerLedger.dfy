/** Conservation over runs: where every accepted work item ends up. */
module SchedulerLedger {
  import opened RuntimeTypes
  import opened Scheduler
  import opened SchedulerInvariant

  // ---------------------------------------------------------------- user items

  /** How many copies of one work item were accepted, and what has become of them. */
  datatype Items = Items(
    accepted: nat,
    completed: nat,
    killed: nat,
    dropped: nat,
    purged: nat,
    recoveries: nat)   // of any slot, whatever item it held

  const NO_ITEMS := Items(0, 0, 0, 0, 0, 0)

  function One(b: bool): nat { if b then 1 else 0 }

  /** The worker has taken x and x's handler has not returned. */
  predicate Has(p: Pc, x: Item) {
    HoldsItem(p) && !p.Returned? && p.item == x
  }

  function InHand(pc: seq<Pc>, x: Item): nat
    decreases |pc|
  {
    if pc == [] then 0 else InHand(pc[..|pc| - 1], x) + One(Has(pc[|pc| - 1], x))
  }

  lemma {:induction false} InHandUpdate(pc: seq<Pc>, i: nat, p: Pc, x: Item)
    requires i < |pc|
    ensures InHand(pc[i := p], x) == InHand(pc, x) - One(Has(pc[i], x)) + One(Has(p, x))
    decreases |pc|
  {
    var n := |pc| - 1;
    var pc' := pc[i := p];
    if i == n {
      assert pc'[..n] == pc[..n];
    } else {
      assert pc'[..n] == pc[..n][i := p];
      InHandUpdate(pc[..n], i, p, x);
    }
  }

  lemma {:induction false} InHandEmpty(pc: seq<Pc>, x: Item)
    requires forall i :: 0 <= i < |pc| ==> pc[i].Top?
    ensures InHand(pc, x) == 0
    decreases |pc|
  {
    if pc != [] {
      assert forall i :: 0 <= i < |pc| - 1 ==> pc[..|pc| - 1][i] == pc[i];
      InHandEmpty(pc[..|pc| - 1], x);
    }
  }

  function Queued(s: Sys, x: Item): nat { multiset(s.queue)[x] }

  predicate EntersSleep(s: Sys, s': Sys) { s.state != Sleep && s'.state == Sleep }

  /** What one step adds to the books of item x. */
  ghost function ItemStep(g: Items, s: Sys, l: Label, x: Item): Items
    requires WellFormed(s) && Enabled(s, l)
  {
    if EntersSleep(s, Apply(s, l)) then g.(purged := g.purged + Queued(s, x))
    else match l
    case SubmitPut(item) =>
      g.(accepted := g.accepted + One(|s.queue| < USER_QUEUE_SIZE && item.(kind := User) == x))
    case HardFires(i) =>
      g.(recoveries := g.recoveries + 1, killed := g.killed + One(Has(s.pc[i], x)))
    case Worker(i) =>
      if s.pc[i].Handling? then g.(completed := g.completed + One(s.pc[i].item == x))
      else if s.pc[i].Taken? && s.state == Sleep then g.(dropped := g.dropped + One(s.pc[i].item == x))
      else g
    case _ => g
  }

  ghost function ItemsAfter(g: Items, s: Sys, ls: seq<Label>, x: Item): Items
    requires WellFormed(s) && Feasible(s, ls)
    decreases |ls|
  {
    if ls == [] then g
    else ApplyWellFormed(s, ls[0]); ItemsAfter(ItemStep(g, s, ls[0], x), Apply(s, ls[0]), ls[1..], x)
  }

  /** The books of item x balance. */
  ghost predicate Balanced(g: Items, s: Sys, x: Item)
    requires WellFormed(s)
  {
    && g.accepted == Queued(s, x) + InHand(s.pc, x) + g.completed + g.killed + g.dropped + g.purged
    && s.active == CountBracket(s.pc) + g.recoveries
  }

  /** Evaluating an early curfew, and every step but the worker's, the hard watchdog's and a
      submission, leaves the workers alone, and the queue too unless it enters SLEEP. */
  predicate QueueEffect(s: Sys, s': Sys) {
    && s'.pc == s.pc && s'.active == s.active
    && s'.queue == (if EntersSleep(s, s') then [] else s.queue)
  }

  lemma QueueEffectOfEvaluation(s: Sys)
    requires WellFormed(s)
    ensures QueueEffect(s, EvaluateEarlyCurfew(s))
  {}

  lemma QueueEffectOfStep(s: Sys, l: Label)
    requires WellFormed(s) && Enabled(s, l)
    requires !l.Worker? && !l.HardFires? && !l.SubmitPut?
    ensures QueueEffect(s, Apply(s, l))
  {
    match l
    case Maintenance => if s.maintPc.EarlyCurfew? { QueueEffectOfEvaluation(s.(maintPc := Waiting)); }
    case _ =>
  }

  lemma BalanceAtHardExpiry(g: Items, s: Sys, i: int, x: Item)
    requires Inv(s) && Enabled(s, HardFires(i)) && Balanced(g, s, x)
    ensures Balanced(ItemStep(g, s, HardFires(i), x), HardExpiry(s, i), x)
  {
    assert SlotAt(s, i);
    CountBracketUpdate(s.pc, i, Top);
    InHandUpdate(s.pc, i, Top, x);
  }

  lemma BalanceAtDequeue(g: Items, s: Sys, i: int, x: Item)
    requires WellFormed(s) && Enabled(s, Worker(i)) && s.pc[i].Top? && Balanced(g, s, x)
    ensures Balanced(g, WorkerStep(s, i), x)
  {
    CountBracketUpdate(s.pc, i, Taken(s.queue[0]));
    InHandUpdate(s.pc, i, Taken(s.queue[0]), x);
    assert s.queue == [s.queue[0]] + s.queue[1..];
  }

  lemma BalanceAtEvaluation(g: Items, s: Sys, i: int, x: Item)
    requires WellFormed(s) && Enabled(s, Worker(i)) && s.pc[i].Evaluating? && Balanced(g, s, x)
    ensures Balanced(ItemStep(g, s, Worker(i), x), WorkerStep(s, i), x)
  {
    var s1 := s.(pc := s.pc[i := Top]);
    CountBracketUpdate(s.pc, i, Top);
    InHandUpdate(s.pc, i, Top, x);
    QueueEffectOfEvaluation(s1);
  }

  /** The worker at p moves on to p' and takes nothing from the queue. */
  predicate MovesOn(s: Sys, s': Sys, i: int, x: Item)
    requires WellFormed(s) && WellFormed(s') && IsSlot(i)
  {
    && s'.pc == s.pc[i := s'.pc[i]] && s'.queue == s.queue && s'.state == s.state
    && s'.active - One(InBracket(s'.pc[i])) == s.active - One(InBracket(s.pc[i]))
    && One(Has(s.pc[i], x)) - One(Has(s'.pc[i], x))
       == One((s.pc[i].Handling? || (s.pc[i].Taken? && s.state == Sleep)) && s.pc[i].item == x)
  }

  lemma EarlyWorkerMovesOn(s: Sys, i: int, x: Item)
    requires WellFormed(s) && Enabled(s, Worker(i))
    requires s.pc[i].Taken? || s.pc[i].Checked? || s.pc[i].Interrupted? || s.pc[i].Counted?
    ensures MovesOn(s, WorkerStep(s, i), i, x)
  {}

  lemma LateWorkerMovesOn(s: Sys, i: int, x: Item)
    requires WellFormed(s) && Enabled(s, Worker(i))
    requires s.pc[i].Guarded? || s.pc[i].Handling? || s.pc[i].Returned? || s.pc[i].Released? || s.pc[i].Decremented?
    ensures MovesOn(s, WorkerStep(s, i), i, x)
  {}

  lemma BalanceAtMove(g: Items, s: Sys, i: int, x: Item)
    requires WellFormed(s) && Enabled(s, Worker(i)) && Balanced(g, s, x)
    requires MovesOn(s, WorkerStep(s, i), i, x)
    ensures Balanced(ItemStep(g, s, Worker(i), x), WorkerStep(s, i), x)
  {
    CountBracketUpdate(s.pc, i, WorkerStep(s, i).pc[i]);
    InHandUpdate(s.pc, i, WorkerStep(s, i).pc[i], x);
  }

  lemma BalanceAtWorker(g: Items, s: Sys, i: int, x: Item)
    requires WellFormed(s) && Enabled(s, Worker(i)) && Balanced(g, s, x)
    ensures Balanced(ItemStep(g, s, Worker(i), x), WorkerStep(s, i), x)
  {
    match s.pc[i]
    case Top => BalanceAtDequeue(g, s, i, x);
    case Evaluating => BalanceAtEvaluation(g, s, i, x);
    case Taken(_) => EarlyWorkerMovesOn(s, i, x); BalanceAtMove(g, s, i, x);
    case Checked(_) => EarlyWorkerMovesOn(s, i, x); BalanceAtMove(g, s, i, x);
    case Interrupted(_) => EarlyWorkerMovesOn(s, i, x); BalanceAtMove(g, s, i, x);
    case Counted(_) => EarlyWorkerMovesOn(s, i, x); BalanceAtMove(g, s, i, x);
    case _ => LateWorkerMovesOn(s, i, x); BalanceAtMove(g, s, i, x);
  }

  lemma BalanceStep(g: Items, s: Sys, l: Label, x: Item)
    requires Inv(s) && Enabled(s, l) && Balanced(g, s, x)
    ensures WellFormed(Apply(s, l)) && Balanced(ItemStep(g, s, l, x), Apply(s, l), x)
  {
    ApplyWellFormed(s, l);
    match l
    case Worker(i) => BalanceAtWorker(g, s, i, x);
    case HardFires(i) => BalanceAtHardExpiry(g, s, i, x);
    case SubmitPut(_) =>
    case _ => QueueEffectOfStep(s, l);
  }

  lemma {:induction false} BalanceRun(g: Items, s: Sys, ls: seq<Label>, x: Item)
    requires Inv(s) && Feasible(s, ls) && Balanced(g, s, x)
    ensures Balanced(ItemsAfter(g, s, ls, x), Exec(s, ls), x)
    decreases |ls|
  {
    if ls != [] {
      StepInv(s, ls[0]);
      BalanceStep(g, s, ls[0], x);
      BalanceRun(ItemStep(g, s, ls[0], x), Apply(s, ls[0]), ls[1..], x);
    }
  }

  /** Conservation. After any run from start-up every accepted copy of any item x is exactly
      one of queued, in hand, completed, killed, dropped in SLEEP, or purged; and the active
      count is the number of slots in the bracket plus the hard recoveries, which leak into it. */
  lemma Conservation(t: nat, ls: seq<Label>, x: Item)
    requires Feasible(Init(t), ls)
    ensures var g, s := ItemsAfter(NO_ITEMS, Init(t), ls, x), Exec(Init(t), ls);
      && g.accepted == Queued(s, x) + InHand(s.pc, x)
                       + g.completed + g.killed + g.dropped + g.purged
      && s.active == CountBracket(s.pc) + g.recoveries
  {
    InitInv(t);
    CountBracketZero(Init(t).pc);
    InHandEmpty(Init(t).pc, x);
    BalanceRun(NO_ITEMS, Init(t), ls, x);
  }
}
