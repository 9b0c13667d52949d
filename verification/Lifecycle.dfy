/** The scan lifecycle as a many-actor transition system.

One committed transaction is one step; each step reads the clock once (`now`). Rows of
a table are numbered by position, and nothing deletes an execution. A step answers with
what the caller sees and the state that is committed:
an HTTP refusal or an IllegalTransition rolls the whole transaction back. */
module Lifecycle {
  import opened Base
  import opened Executions

  // ---- the other tables ------------------------------------------------------

  datatype ApprovalState = Pending | Granted | Rejected

  datatype Approval = Approval(group: nat, occurrence: Option<nat>, state: ApprovalState,
                               expiresAt: Option<int>)

  datatype StopScope = All | Selected(ids: set<nat>)

  datatype StopState = Requested | Confirmed | StopFailed | Cleared

  datatype EmergencyStop = EmergencyStop(scope: StopScope, state: StopState)

  datatype Recurrence = Interval | Daily

  datatype Schedule = Schedule(
    target: nat, cls: Classification, recurrence: Recurrence, intervalMinutes: Option<nat>,
    skipOverlap: bool, enabled: bool, createdAt: int,
    nextRunAt: Option<int>, lastRunAt: Option<int>)

  datatype OccurrenceState =
    OccPending | OccAwaiting | OccRunning | OccExpired | OccDenied | OccSkipped

  datatype Occurrence = Occurrence(
    schedule: nat, scheduledFor: int, state: OccurrenceState, execution: Option<nat>)

  /** `sent`: executions for which a queue message was ever sent. A message may be
      delivered any number of times, at any later moment, or never.
      `begun`: executions some worker has passed the pre-flight of; each such worker may
      reach its persist step at any later moment, or never. */
  datatype State = State(
    executions: seq<Execution>,
    nextGroup: nat,
    approvals: seq<Approval>,
    stops: seq<EmergencyStop>,
    schedules: seq<Schedule>,
    occurrences: seq<Occurrence>,
    sent: set<nat>,
    begun: set<nat>)

  const Initial: State := State([], 0, [], [], [], [], {}, {})

  /** What the caller sees. OkConflict: committed, then answered with 409. */
  datatype Reply = Ok | OkConflict | Refused | Crashed

  datatype Outcome = Outcome(reply: Reply, state: State)

  // ---- one transaction over many rows ----------------------------------------

  datatype RowResult = Row(row: Execution) | Refuse | Crash

  function AsRow(r: Execution, t: Transition): RowResult {
    match t
    case Moved(r') => Row(r')
    case NoOp => Row(r)
    case Illegal => Crash
  }

  /** The first row that raises decides the reply; None when no row raises. */
  function FirstAbort(rs: seq<RowResult>): (a: Option<Reply>)
    ensures a.None? <==> forall i :: 0 <= i < |rs| ==> rs[i].Row?
    ensures a.Some? ==> a.value.Refused? || a.value.Crashed?
    ensures a == Some(Crashed) ==> exists i :: 0 <= i < |rs| && rs[i].Crash?
  {
    if rs == [] then None
    else match rs[0]
      case Refuse => Some(Refused)
      case Crash => Some(Crashed)
      case Row(_) => FirstAbort(rs[1..])
  }

  /** Commit every row, or roll everything back. */
  function Settle(s: State, rs: seq<RowResult>): Outcome {
    match FirstAbort(rs)
    case Some(reply) => Outcome(reply, s)
    case None =>
      Outcome(Ok, s.(executions := seq(|rs|, i requires 0 <= i < |rs| => rs[i].row)))
  }

  lemma SettleCommits(s: State, rs: seq<RowResult>, rows: seq<Execution>)
    requires |rows| == |rs| && forall i :: 0 <= i < |rs| ==> rs[i] == Row(rows[i])
    ensures Settle(s, rs) == Outcome(Ok, s.(executions := rows))
  {
    assert seq(|rs|, i requires 0 <= i < |rs| => rs[i].row) == rows;
  }

  lemma {:induction false} AbortsAt(rs: seq<RowResult>, k: nat)
    requires k < |rs| && !rs[k].Row? && forall i :: 0 <= i < k ==> rs[i].Row?
    ensures FirstAbort(rs) == Some(if rs[k].Refuse? then Refused else Crashed)
  {
    if k > 0 {
      assert forall i :: 0 <= i < k - 1 ==> rs[1..][i] == rs[i + 1];
      AbortsAt(rs[1..], k - 1);
    }
  }

  // ---- scans: a group, or one execution without or within a group ------------

  datatype ScanRef = Group(g: nat) | Single(id: nat)

  /** `executions_for`. */
  predicate InScan(r: Execution, i: nat, scan: ScanRef) {
    match scan
    case Group(g) => r.group == Some(g)
    case Single(id) => i == id
  }

  predicate Exists(rows: seq<Execution>, scan: ScanRef) {
    exists i: nat :: i < |rows| && InScan(rows[i], i, scan)
  }

  // ---- emergency stop ---------------------------------------------------------

  predicate IsActiveStop(stop: EmergencyStop) { !stop.state.Cleared? }

  /** `active_stop`: the latest request that is not cleared. */
  function ActiveStop(stops: seq<EmergencyStop>): (stop: Option<EmergencyStop>)
    ensures stop.None? <==> forall k :: 0 <= k < |stops| ==> !IsActiveStop(stops[k])
    ensures stop.Some? ==> IsActiveStop(stop.value)
  {
    if stops == [] then None
    else
      var last := stops[|stops| - 1];
      if IsActiveStop(last) then Some(last) else ActiveStop(stops[..|stops| - 1])
  }

  predicate InScope(scope: StopScope, i: nat) {
    scope.All? || i in scope.ids
  }

  /** `blocks_execution`. */
  predicate Blocks(stop: Option<EmergencyStop>, i: nat) {
    stop.Some? && InScope(stop.value.scope, i)
  }

  // ---- creation (api/scans.py, api/targets.py) ---------------------------------

  function NewRow(target: nat, group: Option<nat>, cls: Classification, schedule: Option<nat>,
                  state: ScanState, queuedAt: Option<int>, trail: seq<Change>): Execution
  {
    Execution(target, group, cls, schedule, state, false, false, None, queuedAt, None, None,
              None, 0, trail)
  }

  /** A passive scan waits in DRAFT. An active one passes through DRAFT to the approval
      queue within the same transaction. */
  function LaunchRow(cfg: Settings, target: nat, g: nat, cls: Classification, now: int): RowResult {
    if cls.Passive? then
      Row(NewRow(target, Some(g), Passive, None, Draft, None, [Change(None, Draft, now)]))
    else
      var r := NewRow(target, Some(g), Active, None, Draft, None, []);
      AsRow(r, Transit(cfg, r, AwaitingApproval, now))
  }

  /** `_launch_group`; `admitted` is the outcome of the archive, attestation, option and
      scope checks. */
  function Launch(cfg: Settings, s: State, targets: seq<nat>, cls: Classification, admitted: bool,
                  now: int): Outcome
  {
    if targets == [] || !admitted then Outcome(Refused, s)
    else
      var g := s.nextGroup;
      var made := seq(|targets|, i requires 0 <= i < |targets| =>
        LaunchRow(cfg, targets[i], g, cls, now));
      var o := Settle(s, made);
      if !o.reply.Ok? then o
      else
        Outcome(Ok, s.(executions := s.executions + o.state.executions,
                       nextGroup := g + 1,
                       approvals := if cls.Passive? then s.approvals
                                    else s.approvals + [Approval(g, None, Pending, None)]))
  }

  /** `run_passive_scan`: written directly in QUEUED, without a group. */
  function QueuePassive(s: State, target: nat, now: int): Outcome {
    Outcome(Ok, s.(
            executions := s.executions + [NewRow(target, None, Passive, None, Queued, Some(now),
                                                 [Change(Some(Draft), Queued, now)])],
            sent := s.sent + {|s.executions|}))
  }

  // ---- start, pause, stop, cancel (api/scans.py) -----------------------------

  function StartRow(cfg: Settings, r: Execution, inScan: bool, blocked: bool, now: int): RowResult {
    if !inScan || (r.cls.Active? && !r.state.Approved?)
       || !(r.state.Approved? || r.state.Draft?) then Row(r)
    else if blocked then Refuse
    else if r.approvalExpiresAt.Some? && now > r.approvalExpiresAt.value then
      AsRow(r, Transit(cfg, r, Expired, now))
    else
      match Transit(cfg, r, Queued, now)
      case Illegal => Crash
      case NoOp => Row(r.(queuedAt := Some(now)))
      case Moved(r') => Row(r'.(queuedAt := Some(now)))
  }

  function StartRows(cfg: Settings, s: State, scan: ScanRef, now: int): (rs: seq<RowResult>)
    ensures |rs| == |s.executions|
  {
    var stop := ActiveStop(s.stops);
    seq(|s.executions|, i requires 0 <= i < |s.executions| =>
      StartRow(cfg, s.executions[i], InScan(s.executions[i], i, scan), Blocks(stop, i), now))
  }

  /** The rows a start moved into the run queue. */
  function StartedIn(before: seq<Execution>, after: seq<Execution>): set<nat>
    requires |after| == |before|
  {
    set i: nat | i < |before| && after[i].state.Queued? && !before[i].state.Queued?
  }

  function QueuedIn(rows: seq<Execution>, scan: ScanRef): set<nat> {
    set i: nat | i < |rows| && InScan(rows[i], i, scan) && rows[i].state.Queued?
  }

  function Start(cfg: Settings, s: State, scan: ScanRef, now: int): Outcome {
    if !Exists(s.executions, scan) then Outcome(Refused, s)
    else
      var o := Settle(s, StartRows(cfg, s, scan, now));
      if !o.reply.Ok? then o
      else if StartedIn(s.executions, o.state.executions) == {} then Outcome(OkConflict, o.state)
      else Outcome(Ok, o.state.(sent := s.sent + QueuedIn(o.state.executions, scan)))
  }

  function PauseRow(cfg: Settings, r: Execution, inScan: bool, now: int): RowResult {
    if !inScan || !r.state.Queued? then Row(r)
    else
      match Transit(cfg, r, if r.cls.Active? then Approved else Draft, now)
      case Illegal => Crash
      case NoOp => Row(r.(queuedAt := None))
      case Moved(r') => Row(r'.(queuedAt := None))
  }

  function PauseRows(cfg: Settings, s: State, scan: ScanRef, now: int): (rs: seq<RowResult>)
    ensures |rs| == |s.executions|
  {
    seq(|s.executions|, i requires 0 <= i < |s.executions| =>
      PauseRow(cfg, s.executions[i], InScan(s.executions[i], i, scan), now))
  }

  function Pause(cfg: Settings, s: State, scan: ScanRef, now: int): Outcome {
    if QueuedIn(s.executions, scan) == {} then Outcome(Refused, s)
    else Settle(s, PauseRows(cfg, s, scan, now))
  }

  /** Flag a row for cancellation; one that has not started is cancelled at once. */
  function CancelRow(cfg: Settings, r: Execution, chosen: bool, now: int): RowResult {
    if !chosen || Terminal(r.state) then Row(r)
    else
      var r1 := r.(cancelRequested := true);
      if NonStart(r.state) then AsRow(r1, Transit(cfg, r1, Cancelled, now)) else Row(r1)
  }

  function StopRows(cfg: Settings, s: State, scan: ScanRef, now: int): (rs: seq<RowResult>)
    ensures |rs| == |s.executions|
  {
    seq(|s.executions|, i requires 0 <= i < |s.executions| =>
      CancelRow(cfg, s.executions[i], InScan(s.executions[i], i, scan), now))
  }

  function LiveIn(rows: seq<Execution>, scan: ScanRef): set<nat> {
    set i: nat | i < |rows| && InScan(rows[i], i, scan) && !Terminal(rows[i].state)
  }

  /** `stop_scan`, and `cancel_execution` on a single execution. */
  function StopScan(cfg: Settings, s: State, scan: ScanRef, now: int): Outcome {
    if LiveIn(s.executions, scan) == {} then Outcome(Refused, s)
    else Settle(s, StopRows(cfg, s, scan, now))
  }

  // ---- approvals (api/approvals.py) ---------------------------------------------

  function GrantRow(cfg: Settings, r: Execution, inGroup: bool, now: int): RowResult {
    if !inGroup then Row(r)
    else
      var r1 := r.(approvalExpiresAt := Some(now + cfg.approvalWindow));
      AsRow(r1, Transit(cfg, r1, Approved, now))
  }

  /** A scheduled occurrence starts on approval. */
  function QueueRow(cfg: Settings, r: Execution, inGroup: bool, now: int): RowResult {
    if !inGroup || !r.state.Approved? then Row(r)
    else
      match Transit(cfg, r, Queued, now)
      case Illegal => Crash
      case NoOp => Row(r.(queuedAt := Some(now)))
      case Moved(r') => Row(r'.(queuedAt := Some(now)))
  }

  function ApproveRow(cfg: Settings, r: Execution, inGroup: bool, scheduled: bool, now: int): RowResult {
    match GrantRow(cfg, r, inGroup, now)
    case Refuse => Refuse
    case Crash => Crash
    case Row(r1) => if scheduled then QueueRow(cfg, r1, inGroup, now) else Row(r1)
  }

  function ApproveRows(cfg: Settings, s: State, a: Approval, now: int): (rs: seq<RowResult>)
    ensures |rs| == |s.executions|
  {
    seq(|s.executions|, i requires 0 <= i < |s.executions| =>
      ApproveRow(cfg, s.executions[i], InScan(s.executions[i], i, Group(a.group)),
                 a.occurrence.Some?, now))
  }

  predicate AllAwaiting(rows: seq<Execution>, g: nat) {
    forall i: nat :: i < |rows| && InScan(rows[i], i, Group(g)) ==> rows[i].state.AwaitingApproval?
  }

  function MarkOccurrence(occs: seq<Occurrence>, o: Option<nat>, state: OccurrenceState)
    : (r: seq<Occurrence>)
    ensures |r| == |occs|
  {
    if o.Some? && o.value < |occs| then occs[o.value := occs[o.value].(state := state)] else occs
  }

  function Approve(cfg: Settings, s: State, aid: nat, now: int): Outcome {
    if aid >= |s.approvals| || !s.approvals[aid].state.Pending? then Outcome(Refused, s)
    else
      var a := s.approvals[aid];
      if !Exists(s.executions, Group(a.group)) || !AllAwaiting(s.executions, a.group) then
        Outcome(Refused, s)
      else
        var o := Settle(s, ApproveRows(cfg, s, a, now));
        if !o.reply.Ok? then o
        else
          Outcome(Ok, o.state.(
                  approvals := s.approvals[aid := a.(state := Granted,
                                                     expiresAt := Some(now + cfg.approvalWindow))],
                  occurrences := MarkOccurrence(s.occurrences, a.occurrence, OccRunning),
                  sent := if a.occurrence.None? then s.sent
                          else s.sent + QueuedIn(o.state.executions, Group(a.group))))
  }

  function DenyRow(cfg: Settings, r: Execution, inGroup: bool, now: int): RowResult {
    if !inGroup || !r.state.AwaitingApproval? then Row(r)
    else AsRow(r, Transit(cfg, r, Denied, now))
  }

  function DenyRows(cfg: Settings, s: State, a: Approval, now: int): (rs: seq<RowResult>)
    ensures |rs| == |s.executions|
  {
    seq(|s.executions|, i requires 0 <= i < |s.executions| =>
      DenyRow(cfg, s.executions[i], InScan(s.executions[i], i, Group(a.group)), now))
  }

  function Deny(cfg: Settings, s: State, aid: nat, now: int): Outcome {
    if aid >= |s.approvals| || !s.approvals[aid].state.Pending? then Outcome(Refused, s)
    else
      var a := s.approvals[aid];
      var o := Settle(s, DenyRows(cfg, s, a, now));
      if !o.reply.Ok? then o
      else
        Outcome(Ok, o.state.(
                approvals := s.approvals[aid := a.(state := Rejected)],
                occurrences := MarkOccurrence(s.occurrences, a.occurrence, OccDenied)))
  }

  // ---- emergency stop (services/emergency.py, api/emergency.py) --------------------

  function RequestRows(cfg: Settings, s: State, scope: StopScope, now: int): (rs: seq<RowResult>)
    ensures |rs| == |s.executions|
  {
    seq(|s.executions|, i requires 0 <= i < |s.executions| =>
      CancelRow(cfg, s.executions[i], InScope(scope, i), now))
  }

  function RequestStop(cfg: Settings, s: State, scope: StopScope, now: int): Outcome {
    if ActiveStop(s.stops).Some? then Outcome(Refused, s)
    else
      var o := Settle(s, RequestRows(cfg, s, scope, now));
      if !o.reply.Ok? then o
      else Outcome(Ok, o.state.(stops := s.stops + [EmergencyStop(scope, Requested)]))
  }

  /** Some execution the stop signalled has not finished. */
  predicate Outstanding(rows: seq<Execution>, scope: StopScope) {
    exists i: nat :: i < |rows| && InScope(scope, i)
                     && !Terminal(rows[i].state) && rows[i].cancelRequested
  }

  function ReconcileStop(rows: seq<Execution>, stop: EmergencyStop): EmergencyStop {
    if stop.state.Requested? && !Outstanding(rows, stop.scope) then stop.(state := Confirmed)
    else stop
  }

  function ReconcileStops(rows: seq<Execution>, stops: seq<EmergencyStop>): (r: seq<EmergencyStop>)
    ensures |r| == |stops|
  {
    seq(|stops|, k requires 0 <= k < |stops| => ReconcileStop(rows, stops[k]))
  }

  function Reconcile(s: State): Outcome {
    Outcome(Ok, s.(stops := ReconcileStops(s.executions, s.stops)))
  }

  function ClearStop(s: State, k: nat): Outcome {
    if k >= |s.stops| || s.stops[k].state.Cleared? then Outcome(Refused, s)
    else Outcome(Ok, s.(stops := s.stops[k := s.stops[k].(state := Cleared)]))
  }

  // ---- the worker (worker/runner.py) ------------------------------------------------

  /** What the pre-flight transaction does to its row, and whether the stages then run. */
  datatype Preflight = Preflight(result: RowResult, runs: bool)

  function PreflightRow(cfg: Settings, r: Execution, blocked: bool, capacity: bool, scopeOk: bool,
                        now: int): Preflight
  {
    if Terminal(r.state) then Preflight(Row(r), false)
    else if blocked && !r.state.Running? then
      Preflight(AsRow(r, Transit(cfg, r, Cancelled, now)), false)
    else if r.cancelRequested && NonStart(r.state) then
      Preflight(AsRow(r, Transit(cfg, r, Cancelled, now)), false)
    else if r.state.Queued? && !capacity then Preflight(Row(r), false)
    else if r.cls.Active? && NonStart(r.state)
            && r.approvalExpiresAt.Some? && now > r.approvalExpiresAt.value then
      Preflight(AsRow(r, Transit(cfg, r, Expired, now)), false)
    else if r.cls.Active? && !scopeOk then
      Preflight(AsRow(r, Transit(cfg, r, Failed, now)), false)
    else if r.state.Queued? then
      Preflight(AsRow(r, Transit(cfg, r, Running, now)), true)
    else Preflight(Row(r), r.state.Running?)
  }

  /** One delivered message. `scopeOk` is the answer of the scope re-check. */
  function Deliver(cfg: Settings, s: State, id: nat, scopeOk: bool, now: int): Outcome {
    if id !in s.sent || id >= |s.executions| then Outcome(Refused, s)
    else
      var p := PreflightRow(cfg, s.executions[id], Blocks(ActiveStop(s.stops), id),
                            CapacityAvailable(cfg, s.executions, id), scopeOk, now);
      match p.result
      case Refuse => Outcome(Refused, s)
      case Crash => Outcome(Crashed, s)
      case Row(r) =>
        Outcome(Ok, s.(executions := s.executions[id := r],
                       begun := if p.runs then s.begun + {id} else s.begun))
  }

  /** A row whose results are stored leaves RUNNING. */
  function FinishRow(cfg: Settings, stored: Execution, incomplete: bool, now: int): RowResult {
    if stored.runtimeDeadlineAt.Some? && now > stored.runtimeDeadlineAt.value then
      var r1 := stored.(partial := true);
      AsRow(r1, Transit(cfg, r1, TimedOut, now))
    else if stored.cancelRequested then
      match AsRow(stored, Transit(cfg, stored, Cancelling, now))
      case Refuse => Refuse
      case Crash => Crash
      case Row(r1) =>
        var r2 := r1.(partial := true);
        AsRow(r2, Transit(cfg, r2, Cancelled, now))
    else
      var r1 := stored.(partial := incomplete);
      AsRow(r1, Transit(cfg, r1, Completed, now))
  }

  /** The persist transaction. `parsed`: the stage outputs were normalised without error;
      on an error their rows are rolled back and only FAILED is committed. */
  function PersistRow(cfg: Settings, r: Execution, parsed: bool, incomplete: bool, now: int): RowResult {
    if Terminal(r.state) then Row(r)
    else if !parsed then AsRow(r, Transit(cfg, r, Failed, now))
    else FinishRow(cfg, r.(persisted := r.persisted + 1), incomplete, now)
  }

  function Persist(cfg: Settings, s: State, id: nat, parsed: bool, incomplete: bool, now: int): Outcome {
    if id !in s.begun || id >= |s.executions| then Outcome(Refused, s)
    else
      match PersistRow(cfg, s.executions[id], parsed, incomplete, now)
      case Refuse => Outcome(Refused, s)
      case Crash => Outcome(Crashed, s)
      case Row(r) => Outcome(Ok, s.(executions := s.executions[id := r]))
  }

  // ---- the sweep (worker/tasks.py) ----------------------------------------------------

  function ExpireRow(cfg: Settings, r: Execution, now: int): RowResult {
    if (r.state.AwaitingApproval? || r.state.Approved? || r.state.Queued?)
       && r.approvalExpiresAt.Some? && r.approvalExpiresAt.value < now then
      AsRow(r, Transit(cfg, r, Expired, now))
    else Row(r)
  }

  function ExpireRows(cfg: Settings, rows: seq<Execution>, now: int): (rs: seq<RowResult>)
    ensures |rs| == |rows|
  {
    seq(|rows|, i requires 0 <= i < |rows| => ExpireRow(cfg, rows[i], now))
  }

  /** The runtime cap; a CANCELLING row is written back to RUNNING without a transition. */
  function TimeoutRow(cfg: Settings, r: Execution, now: int): RowResult {
    if (r.state.Running? || r.state.Cancelling?)
       && r.runtimeDeadlineAt.Some? && r.runtimeDeadlineAt.value < now then
      var r1 := r.(cancelRequested := true, partial := true, state := Running);
      AsRow(r1, Transit(cfg, r1, TimedOut, now))
    else Row(r)
  }

  function TimeoutRows(cfg: Settings, rows: seq<Execution>, now: int): (rs: seq<RowResult>)
    ensures |rs| == |rows|
  {
    seq(|rows|, i requires 0 <= i < |rows| => TimeoutRow(cfg, rows[i], now))
  }

  function Requeued(cfg: Settings, rows: seq<Execution>): set<nat> {
    set i: nat | i < |rows| && rows[i].state.Queued? && CapacityAvailable(cfg, rows, i)
  }

  function Sweep(cfg: Settings, s: State, now: int): Outcome {
    var o := Settle(s, ExpireRows(cfg, s.executions, now));
    if !o.reply.Ok? then o
    else
      var s1 := Reconcile(o.state).state;
      var o2 := Settle(s1, TimeoutRows(cfg, s1.executions, now));
      if !o2.reply.Ok? then Outcome(o2.reply, s)
      else
        Outcome(Ok, o2.state.(sent := s.sent + Requeued(cfg, o2.state.executions)))
  }
}
