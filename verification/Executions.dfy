/** The scan-execution state machine (backend/app/services/execution_service.py).

A row of the executions table is a value: a transaction either replaces rows or is
rolled back, so nothing can alias a half-updated row. `trail` is the part of the audit
trail that concerns the row: its SCAN_STATE_CHANGE events, oldest first. */
module Executions {
  import opened Base

  datatype ScanState =
    | Draft | AwaitingApproval | Approved | Queued | Running | Cancelling
    | Completed | Failed | TimedOut | Denied | Expired | Cancelled

  datatype Classification = Passive | Active

  /** `from` is None for the creation event of a passive scan, whose payload has only `to`. */
  datatype Change = Change(from: Option<ScanState>, to: ScanState, at: int)

  /** The settings the lifecycle depends on; times are integers in one unit. */
  datatype Settings = Settings(
    maxGlobal: int, maxPerTarget: int, approvalWindow: int, maxRuntime: int)

  datatype Execution = Execution(
    target: nat,
    group: Option<nat>,
    cls: Classification,
    schedule: Option<nat>,
    state: ScanState,
    cancelRequested: bool,
    partial: bool,
    approvalExpiresAt: Option<int>,
    queuedAt: Option<int>,
    startedAt: Option<int>,
    runtimeDeadlineAt: Option<int>,
    finishedAt: Option<int>,
    // how many result sets have been committed for the execution
    persisted: nat,
    trail: seq<Change>)

  predicate Terminal(s: ScanState) {
    s.Completed? || s.Failed? || s.TimedOut? || s.Denied? || s.Expired? || s.Cancelled?
  }

  /** The states from which work has not started (`_NON_START` of the worker). */
  predicate NonStart(s: ScanState) {
    s.Draft? || s.AwaitingApproval? || s.Approved? || s.Queued?
  }

  /** States that hold a slot: QUEUED rows count as much as running ones. */
  predicate Occupying(s: ScanState) {
    s.Queued? || s.Running? || s.Cancelling?
  }

  /** The table ALLOWED. */
  predicate CanTransition(from: ScanState, to: ScanState) {
    match from
    case Draft => to.AwaitingApproval? || to.Queued? || to.Cancelled?
    case AwaitingApproval => to.Approved? || to.Denied? || to.Cancelled? || to.Expired?
    case Approved => to.Queued? || to.Cancelled? || to.Expired? || to.Failed?
    case Queued =>
      to.Running? || to.Approved? || to.Draft? || to.Cancelled? || to.Expired?
      || to.Cancelling? || to.Failed?
    case Running => to.Completed? || to.Failed? || to.Cancelling? || to.TimedOut?
    case Cancelling => to.Cancelled? || to.Failed?
    case _ => false
  }

  /** What `ScanService.transition` does to one row: True, False, or IllegalTransition. */
  datatype Transition = Moved(row: Execution) | NoOp | Illegal

  function Stamp(cfg: Settings, r: Execution, target: ScanState, now: int): Execution {
    if target.Queued? then
      r.(queuedAt := if r.queuedAt.Some? then r.queuedAt else Some(now))
    else if target.Running? then
      r.(startedAt := Some(now), runtimeDeadlineAt := Some(now + cfg.maxRuntime))
    else if Terminal(target) then
      r.(finishedAt := Some(now))
    else r
  }

  function Transit(cfg: Settings, r: Execution, target: ScanState, now: int): Transition {
    if r.state == target || Terminal(r.state) then NoOp
    else if !CanTransition(r.state, target) then Illegal
    else
      Moved(Stamp(cfg, r, target, now).(
            state := target,
            trail := r.trail + [Change(Some(r.state), target, now)]))
  }

  // ---- slots ---------------------------------------------------------------

  function Slots(rows: seq<Execution>): set<nat> {
    set i: nat | i < |rows| && Occupying(rows[i].state)
  }

  function TargetSlots(rows: seq<Execution>, target: nat): set<nat> {
    set i: nat | i < |rows| && Occupying(rows[i].state) && rows[i].target == target
  }

  function RunningRows(rows: seq<Execution>): set<nat> {
    set i: nat | i < |rows| && rows[i].state.Running?
  }

  function RunningOn(rows: seq<Execution>, target: nat): set<nat> {
    set i: nat | i < |rows| && rows[i].state.Running? && rows[i].target == target
  }

  /** `capacity_available`: the row itself is subtracted from the counts while QUEUED. */
  predicate CapacityAvailable(cfg: Settings, rows: seq<Execution>, i: nat)
    requires i < |rows|
  {
    var own := if rows[i].state.Queued? then 1 else 0;
    && |Slots(rows)| - own < cfg.maxGlobal
    && |TargetSlots(rows, rows[i].target)| - own < cfg.maxPerTarget
  }

  /** A QUEUED row may start exactly when fewer than the limits of other rows hold a slot. */
  lemma CapacityCountsOthers(cfg: Settings, rows: seq<Execution>, i: nat)
    requires i < |rows| && rows[i].state.Queued?
    ensures CapacityAvailable(cfg, rows, i) <==>
            && |set j: nat | j < |rows| && j != i && Occupying(rows[j].state)| < cfg.maxGlobal
            && |set j: nat | j < |rows| && j != i && Occupying(rows[j].state)
                             && rows[j].target == rows[i].target| < cfg.maxPerTarget
  {
    var others := set j: nat | j < |rows| && j != i && Occupying(rows[j].state);
    var here := set j: nat | j < |rows| && j != i && Occupying(rows[j].state)
                             && rows[j].target == rows[i].target;
    assert Slots(rows) == others + {i};
    assert TargetSlots(rows, rows[i].target) == here + {i};
  }
}
