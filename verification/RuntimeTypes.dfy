/** Constants and values shared by the runtime window scheduler
    (src/runtime_types.h and the static state of its four files). */
module RuntimeTypes {

  const WORKER_POOL_SIZE: nat := 10
  const TIMEOUT_USER_APP_SOFT_MS := 30
  const TIMEOUT_USER_APP_HARD_MS := 10
  const WINDOW_BACKGROUND_MAX_MS := 160
  const WINDOW_GRACE_PERIOD_MS := 700
  const WINDOW_UI_MAX_MS := 300
  const SETTLEMENT_MS := 10
  const MAX_CURFEW_HOOKS: nat := 4
  const USER_QUEUE_SIZE: nat := 16
  const MAINT_QUEUE_SIZE: nat := 12

  datatype RuntimeState = Sleep | BackgroundActive | GracePeriod | UiActive

  datatype WorkType = System | User

  /** A work item; its handler and arguments are identified by a number. */
  datatype Item = Item(id: nat, kind: WorkType)

  /** A curfew hook, identified by a number. */
  type Hook = nat

  /** What the maintenance queue holds: plain system work, or a hook behind the adapter. */
  datatype MaintItem = SystemWork(id: nat) | HookWork(hook: Hook)

  /** A one-shot timer with an absolute deadline in milliseconds. */
  datatype Timer = Stopped | Armed(deadline: int)

  /** Where a pool worker stands in its endless loop. `since` is the time at which
      its watchdog was started. */
  datatype Pc =
    | Top                               // about to dequeue
    | Taken(item: Item)                 // about to check for SLEEP
    | Checked(item: Item)               // about to stop the settlement timer
    | Interrupted(item: Item)           // about to increment the active count
    | Counted(item: Item)               // about to start the watchdog
    | Guarded(item: Item, since: int)   // about to call the handler
    | Handling(item: Item, since: int)  // inside the handler
    | Returned(item: Item, since: int)  // about to stop the watchdog
    | Released                          // about to decrement the active count
    | Decremented                       // about to read the active count
    | Evaluating                        // about to evaluate an early curfew

  /** Where the maintenance thread stands in its endless loop. */
  datatype MaintPc =
    | Waiting                      // about to dequeue
    | Serving(item: MaintItem)     // inside the handler
    | DepthCheck                   // about to read the queue depth
    | GraceExit                    // about to enter the locked region
    | StateCheck                   // about to read the state
    | EarlyCurfew                  // about to evaluate an early curfew

  predicate IsActive(st: RuntimeState) {
    st == BackgroundActive || st == UiActive
  }

  function Limit(st: RuntimeState): int {
    if st == UiActive then WINDOW_UI_MAX_MS else WINDOW_BACKGROUND_MAX_MS
  }

  function Truncate(hooks: seq<Hook>): seq<Hook> {
    if |hooks| > MAX_CURFEW_HOOKS then hooks[..MAX_CURFEW_HOOKS] else hooks
  }
}
