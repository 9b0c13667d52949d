/** Safety over whole runs: any interleaving of API calls, approvals, emergency stops,
message deliveries, worker persists, sweeps and schedule ticks, from the empty system. */
module LifecycleRuns {
  import opened Base
  import opened Executions
  import opened Lifecycle
  import opened Scheduling
  import opened RowInvariant
  import opened LifecycleInvariant
  import opened CreationInvariant

  datatype Action =
    | DoLaunch(targets: seq<nat>, cls: Classification, admitted: bool)
    | DoQueuePassive(target: nat)
    | DoStart(scan: ScanRef)
    | DoPause(scan: ScanRef)
    | DoStop(scan: ScanRef)
    | DoApprove(aid: nat)
    | DoDeny(aid: nat)
    | DoRequestStop(scope: StopScope)
    | DoReconcile
    | DoClearStop(stop: nat)
    | DoDeliver(id: nat, scopeOk: bool)
    | DoPersist(id: nat, parsed: bool, incomplete: bool)
    | DoSweep
    | DoTick(schedule: nat, attested: bool, daily: int, dies: bool)
    | DoAddSchedule(sched: Schedule)
    | DoEnable(schedule: nat, enabled: bool, daily: int)

  /** One transaction, with its one reading of the clock. Clocks are not assumed to advance. */
  datatype Event = Event(action: Action, now: int)

  function Step(cfg: Settings, s: State, e: Event): Outcome {
    match e.action
    case DoLaunch(targets, cls, admitted) => Launch(cfg, s, targets, cls, admitted, e.now)
    case DoQueuePassive(target) => QueuePassive(s, target, e.now)
    case DoStart(scan) => Start(cfg, s, scan, e.now)
    case DoPause(scan) => Pause(cfg, s, scan, e.now)
    case DoStop(scan) => StopScan(cfg, s, scan, e.now)
    case DoApprove(aid) => Approve(cfg, s, aid, e.now)
    case DoDeny(aid) => Deny(cfg, s, aid, e.now)
    case DoRequestStop(scope) => RequestStop(cfg, s, scope, e.now)
    case DoReconcile => Reconcile(s)
    case DoClearStop(k) => ClearStop(s, k)
    case DoDeliver(id, scopeOk) => Deliver(cfg, s, id, scopeOk, e.now)
    case DoPersist(id, parsed, incomplete) => Persist(cfg, s, id, parsed, incomplete, e.now)
    case DoSweep => Sweep(cfg, s, e.now)
    case DoTick(k, attested, daily, dies) => TickOne(s, k, attested, daily, dies, e.now)
    case DoAddSchedule(sched) => AddSchedule(s, sched)
    case DoEnable(k, enabled, daily) => Enable(s, k, enabled, daily, e.now)
  }

  function Run(cfg: Settings, s: State, es: seq<Event>): State {
    if es == [] then s
    else Step(cfg, Run(cfg, s, es[..|es| - 1]), es[|es| - 1]).state
  }

  function Reached(cfg: Settings, es: seq<Event>): State { Run(cfg, Initial, es) }

  // ---- one step ------------------------------------------------------------------

  /** Every step but an approval and a delivery. */
  lemma OrdinaryStepSafe(cfg: Settings, s: State, e: Event)
    requires Inv(cfg, s) && !e.action.DoApprove? && !e.action.DoDeliver?
    ensures Safe(cfg, s, Step(cfg, s, e))
  {
    hide Launch, QueuePassive, Start, Pause, StopScan, Deny, RequestStop, Reconcile, ClearStop, Persist;
    hide Sweep, TickOne, AddSchedule, Enable, SafeStep, WindowsKept, NothingStarts, Inv;
    match e.action
    case DoLaunch(targets, cls, admitted) => LaunchSafe(cfg, s, targets, cls, admitted, e.now);
    case DoQueuePassive(target) => QueuePassiveSafe(cfg, s, target, e.now);
    case DoStart(scan) => StartSafe(cfg, s, scan, e.now);
    case DoPause(scan) => PauseSafe(cfg, s, scan, e.now);
    case DoStop(scan) => StopScanSafe(cfg, s, scan, e.now);
    case DoDeny(aid) => DenySafe(cfg, s, aid, e.now);
    case DoRequestStop(scope) => RequestStopSafe(cfg, s, scope, e.now);
    case DoReconcile => ReconcileSafe(cfg, s);
    case DoClearStop(k) => ClearStopSafe(cfg, s, k);
    case DoPersist(id, parsed, incomplete) => PersistSafe(cfg, s, id, parsed, incomplete, e.now);
    case DoSweep => SweepSafe(cfg, s, e.now);
    case DoTick(k, attested, daily, dies) => TickOneSafe(cfg, s, k, attested, daily, dies, e.now);
    case DoAddSchedule(sched) => AddScheduleSafe(cfg, s, sched);
    case DoEnable(k, enabled, daily) => EnableSafe(cfg, s, k, enabled, daily, e.now);
  }

  lemma StepSafe(cfg: Settings, s: State, e: Event)
    requires Inv(cfg, s)
    ensures SafeStep(cfg, s, Step(cfg, s, e))
  {
    hide Launch, QueuePassive, Start, Pause, StopScan, Deny, RequestStop, Reconcile, ClearStop, Persist;
    hide Sweep, TickOne, AddSchedule, Enable, WindowsKept, NothingStarts, Inv, Approve, Deliver;
    match e.action
    case DoApprove(aid) => ApproveSafe(cfg, s, aid, e.now);
    case DoDeliver(id, scopeOk) => DeliverSafe(cfg, s, id, scopeOk, e.now);
    case _ => OrdinaryStepSafe(cfg, s, e);
  }

  // ---- whole runs -------------------------------------------------------------------

  lemma {:induction false} RunInv(cfg: Settings, s: State, es: seq<Event>)
    requires Inv(cfg, s)
    ensures Inv(cfg, Run(cfg, s, es))
  {
    if es != [] {
      RunInv(cfg, s, es[..|es| - 1]);
      StepSafe(cfg, Run(cfg, s, es[..|es| - 1]), es[|es| - 1]);
    }
  }

  lemma ReachedInv(cfg: Settings, es: seq<Event>)
    ensures Inv(cfg, Reached(cfg, es))
  {
    InitialInv(cfg);
    RunInv(cfg, Initial, es);
  }

  /** In every reachable state, whatever happens next, nobody asks for a transition outside
      ALLOWED. */
  lemma NoIllegalTransition(cfg: Settings, es: seq<Event>, e: Event)
    ensures !Step(cfg, Reached(cfg, es), e).reply.Crashed?
  {
    ReachedInv(cfg, es);
    StepSafe(cfg, Reached(cfg, es), e);
  }

  lemma {:induction false} RunSplit(cfg: Settings, s: State, es: seq<Event>, more: seq<Event>)
    ensures Run(cfg, s, es + more) == Run(cfg, Run(cfg, s, es), more)
  {
    if more == [] {
      assert es + more == es;
    } else {
      assert (es + more)[..|es + more| - 1] == es + more[..|more| - 1];
      RunSplit(cfg, s, es, more[..|more| - 1]);
    }
  }

  lemma {:induction false} RunGrows(cfg: Settings, s: State, es: seq<Event>)
    requires Inv(cfg, s)
    ensures Grows(s.executions, Run(cfg, s, es).executions)
  {
    if es != [] {
      var before := Run(cfg, s, es[..|es| - 1]);
      RunGrows(cfg, s, es[..|es| - 1]);
      RunInv(cfg, s, es[..|es| - 1]);
      StepSafe(cfg, before, es[|es| - 1]);
      GrowsTwice(s.executions, before.executions, Run(cfg, s, es).executions);
    }
  }

  /** A finished execution is never written again, its audit events only grow, its
      cancellation flag is never withdrawn and its approval window never moves. */
  lemma HistoryIsFinal(cfg: Settings, es: seq<Event>, more: seq<Event>, i: nat)
    requires i < |Reached(cfg, es).executions|
    ensures i < |Reached(cfg, es + more).executions|
    ensures var r, r' := Reached(cfg, es).executions[i], Reached(cfg, es + more).executions[i];
            && (Terminal(r.state) ==> r' == r)
            && r.trail <= r'.trail
            && (r.cancelRequested ==> r'.cancelRequested)
            && (r.approvalExpiresAt.Some? ==> r'.approvalExpiresAt == r.approvalExpiresAt)
  {
    ReachedInv(cfg, es);
    RunSplit(cfg, Initial, es, more);
    RunGrows(cfg, Reached(cfg, es), more);
  }

  /** At most one result set is ever committed for an execution, however many workers pick
      it up, and a COMPLETED execution was never asked to cancel. */
  lemma AtMostOnePersist(cfg: Settings, es: seq<Event>, i: nat)
    requires i < |Reached(cfg, es).executions|
    ensures var r := Reached(cfg, es).executions[i];
            && r.persisted <= 1
            && (r.persisted == 1 ==> Terminal(r.state))
            && (r.state.Completed? ==> r.persisted == 1 && !r.cancelRequested)
  {
    ReachedInv(cfg, es);
  }

  /** DRAFT/ACTIVE and CANCELLING are never committed, and a message or a worker at its
      persist step never finds a row in the approval queue. */
  lemma RestingStates(cfg: Settings, es: seq<Event>, i: nat)
    requires i < |Reached(cfg, es).executions|
    ensures var s := Reached(cfg, es);
            var r := s.executions[i];
            && !r.state.Cancelling? && !(r.cls.Active? && r.state.Draft?)
            && (i in s.sent ==> EverQueued(r) && !r.state.AwaitingApproval?)
            && (i in s.begun ==> r.state.Running? || Terminal(r.state))
  {
    ReachedInv(cfg, es);
  }

  // ---- the audit events of one execution ---------------------------------------------

  predicate Done(s: ScanState) { s.Running? || s.Cancelling? || Terminal(s) }

  lemma {:induction false} NeverRunsAgain(trail: seq<Change>, j: nat, k: nat)
    requires Linked(trail) && j < k < |trail| && Done(trail[j].to)
    ensures Done(trail[k].to) && !trail[k].to.Running?
  {
    assert trail[k].from == Some(trail[k - 1].to) && CanTransition(trail[k - 1].to, trail[k].to);
    if j < k - 1 { NeverRunsAgain(trail, j, k - 1); }
  }

  /** Once an active execution has left the approval queue it never returns. */
  lemma {:induction false} NeverAwaitsAgain(trail: seq<Change>, j: nat, k: nat)
    requires Linked(trail) && j < k < |trail|
    requires forall x :: 0 <= x < |trail| ==> !trail[x].to.Draft?
    requires !trail[j].to.AwaitingApproval?
    ensures !trail[k].to.AwaitingApproval?
  {
    assert CanTransition(trail[k - 1].to, trail[k].to);
    if j < k - 1 { NeverAwaitsAgain(trail, j, k - 1); }
  }

  lemma GrantIsUnique(cfg: Settings, r: Execution, g: nat, h: nat)
    requires RowInv(cfg, r) && r.cls.Active?
    requires g < |r.trail| && h < |r.trail| && IsGrant(r.trail[g]) && IsGrant(r.trail[h])
    ensures g == h
  {
    if g < h {
      assert r.trail[h].from == Some(r.trail[h - 1].to);
      if g < h - 1 { NeverAwaitsAgain(r.trail, g, h - 1); }
    } else if h < g {
      GrantIsUnique(cfg, r, h, g);
    }
  }

  /** The audit trail of an execution links from its creation to its current state. */
  lemma AuditTellsTheState(cfg: Settings, es: seq<Event>, i: nat)
    requires i < |Reached(cfg, es).executions|
    ensures var r := Reached(cfg, es).executions[i];
            && (forall k :: 0 < k < |r.trail| ==>
                              && r.trail[k].from == Some(r.trail[k - 1].to)
                              && CanTransition(r.trail[k - 1].to, r.trail[k].to))
            && (r.trail != [] ==> r.trail[|r.trail| - 1].to == r.state && OriginOk(r, r.trail[0]))
            && (r.trail == [] <==> r.cls.Active? && r.schedule.Some? && r.state.AwaitingApproval?)
  {
    ReachedInv(cfg, es);
    var r := Reached(cfg, es).executions[i];
    if r.trail != [] && r.cls.Active? && r.schedule.Some? && r.state.AwaitingApproval? {
      assert OriginOk(r, r.trail[0]);
      if |r.trail| > 1 { NeverAwaitsAgain(r.trail, 0, |r.trail| - 1); }
      assert false;
    }
  }

  /** An execution enters RUNNING at most once; an active one only after its one grant, and
      not after the window that the grant fixed, whatever pauses and restarts lie between. */
  lemma ActiveStartsOnceUnderItsGrant(cfg: Settings, es: seq<Event>, i: nat, k: nat) returns (g: nat)
    requires i < |Reached(cfg, es).executions|
    requires k < |Reached(cfg, es).executions[i].trail|
    requires Reached(cfg, es).executions[i].trail[k].to.Running?
    ensures var r := Reached(cfg, es).executions[i];
            && (forall j :: 0 <= j < |r.trail| && r.trail[j].to.Running? ==> j == k)
            && (r.cls.Active? ==>
                  && g < k && IsGrant(r.trail[g])
                  && (forall h :: 0 <= h < |r.trail| && IsGrant(r.trail[h]) ==> h == g)
                  && r.trail[k].at <= r.trail[g].at + cfg.approvalWindow
                  && r.approvalExpiresAt == Some(r.trail[g].at + cfg.approvalWindow))
  {
    ReachedInv(cfg, es);
    var r := Reached(cfg, es).executions[i];
    forall j | 0 <= j < |r.trail| && r.trail[j].to.Running? ensures j == k {
      if j < k { NeverRunsAgain(r.trail, j, k); }
      if k < j { NeverRunsAgain(r.trail, k, j); }
    }
    g := 0;
    if r.cls.Active? {
      assert GrantOk(cfg, r);
      g :| 0 <= g < |r.trail| && IsGrant(r.trail[g])
           && r.approvalExpiresAt.value == r.trail[g].at + cfg.approvalWindow;
      forall h | 0 <= h < |r.trail| && IsGrant(r.trail[h]) ensures h == g {
        GrantIsUnique(cfg, r, g, h);
      }
      if k < g { NeverRunsAgain(r.trail, k, g); }
    }
  }

  /** Only an approval opens a window, and it opens it for a scan that awaits approval as a
      whole. */
  lemma OnlyApprovalOpensWindows(cfg: Settings, s: State, e: Event, i: nat)
    requires Inv(cfg, s) && i < |Step(cfg, s, e).state.executions|
    requires Step(cfg, s, e).state.executions[i].approvalExpiresAt.Some?
    requires i < |s.executions| ==> s.executions[i].approvalExpiresAt.None?
    ensures e.action.DoApprove? && i < |s.executions|
    ensures var g := s.executions[i].group; g.Some? && AllAwaiting(s.executions, g.value)
    ensures Step(cfg, s, e).state.executions[i].approvalExpiresAt == Some(e.now + cfg.approvalWindow)
  {
    hide Launch, QueuePassive, Start, Pause, StopScan, Deny, RequestStop, Reconcile, ClearStop, Persist;
    hide Sweep, TickOne, AddSchedule, Enable, Inv, Deliver;
    match e.action
    case DoApprove(aid) => ApprovalOpensWindow(cfg, s, aid, e.now, i);
    case DoDeliver(id, scopeOk) => DeliverSafe(cfg, s, id, scopeOk, e.now); assert false;
    case _ => OrdinaryStepSafe(cfg, s, e); assert false;
  }

  lemma ApprovalOpensWindow(cfg: Settings, s: State, aid: nat, now: int, i: nat)
    requires Inv(cfg, s) && i < |Approve(cfg, s, aid, now).state.executions|
    requires Approve(cfg, s, aid, now).state.executions[i].approvalExpiresAt.Some?
    requires i < |s.executions| ==> s.executions[i].approvalExpiresAt.None?
    ensures i < |s.executions|
    ensures var g := s.executions[i].group; g.Some? && AllAwaiting(s.executions, g.value)
    ensures Approve(cfg, s, aid, now).state.executions[i].approvalExpiresAt
         == Some(now + cfg.approvalWindow)
  {
    if aid < |s.approvals| && s.approvals[aid].state.Pending?
       && AllAwaiting(s.executions, s.approvals[aid].group)
    {
      var rows' := ApproveRowsKeep(cfg, s, s.approvals[aid], now);
      assert InScan(s.executions[i], i, Group(s.approvals[aid].group));
    }
  }

  /** The approval that opened a window covered the whole scan: at that moment every one of
      its executions was awaiting approval, and the window is counted from that moment. */
  lemma {:induction false} ApprovedAsAWhole(cfg: Settings, es: seq<Event>, i: nat) returns (m: nat)
    requires i < |Reached(cfg, es).executions|
    requires Reached(cfg, es).executions[i].approvalExpiresAt.Some?
    ensures m < |es| && es[m].action.DoApprove?
    ensures var before := Reached(cfg, es[..m]).executions;
            var r := Reached(cfg, es).executions[i];
            && i < |before| && before[i].group == r.group && r.group.Some?
            && AllAwaiting(before, r.group.value)
            && r.approvalExpiresAt == Some(es[m].now + cfg.approvalWindow)
  {
    hide Step, Inv;
    var n := |es| - 1;
    var before := Reached(cfg, es[..n]);
    ReachedInv(cfg, es[..n]);
    StepSafe(cfg, before, es[n]);
    if i < |before.executions| && before.executions[i].approvalExpiresAt.Some? {
      m := ApprovedAsAWhole(cfg, es[..n], i);
      assert es[..n][..m] == es[..m];
    } else {
      m := n;
      OnlyApprovalOpensWindows(cfg, before, es[n], i);
    }
  }

  // ---- emergency stop -------------------------------------------------------------------

  lemma StopBlocksDelivery(cfg: Settings, s: State, id: nat, scopeOk: bool, now: int, k: nat, i: nat)
    requires Inv(cfg, s) && k < |s.stops| && IsActiveStop(s.stops[k]) && InScope(s.stops[k].scope, i)
    requires i < |s.executions| && Deliver(cfg, s, id, scopeOk, now).state.executions[i].state.Running?
    ensures s.executions[i].state.Running?
  {
    if id in s.sent && id == i {
      if !Blocks(ActiveStop(s.stops), i) { NotBlockedByAny(s.stops, i); }
      PreflightRowKeeps(cfg, s.executions[id], Blocks(ActiveStop(s.stops), id),
                        CapacityAvailable(cfg, s.executions, id), scopeOk, now);
    }
  }

  /** While a stop is not cleared nothing in its scope enters RUNNING. */
  lemma StopBlocksStarts(cfg: Settings, s: State, e: Event, k: nat, i: nat)
    requires Inv(cfg, s) && k < |s.stops| && IsActiveStop(s.stops[k]) && InScope(s.stops[k].scope, i)
    requires i < |Step(cfg, s, e).state.executions|
    requires Step(cfg, s, e).state.executions[i].state.Running?
    ensures i < |s.executions| && s.executions[i].state.Running?
  {
    hide Launch, QueuePassive, Start, Pause, StopScan, Deny, RequestStop, Reconcile, ClearStop, Persist;
    hide Sweep, TickOne, AddSchedule, Enable, Inv, Approve, PreflightRow;
    match e.action
    case DoApprove(aid) => ApproveSafe(cfg, s, aid, e.now);
    case DoDeliver(id, scopeOk) => StopBlocksDelivery(cfg, s, id, scopeOk, e.now, k, i);
    case _ => OrdinaryStepSafe(cfg, s, e);
  }

  /** Over any stretch of a run during which a stop is never cleared. */
  lemma {:induction false} NothingStartsUnderStop(cfg: Settings, s: State, es: seq<Event>, k: nat, i: nat)
    requires Inv(cfg, s)
    requires forall n :: 0 <= n <= |es| ==>
                           && k < |Run(cfg, s, es[..n]).stops|
                           && IsActiveStop(Run(cfg, s, es[..n]).stops[k])
                           && InScope(Run(cfg, s, es[..n]).stops[k].scope, i)
    requires i < |Run(cfg, s, es).executions| && Run(cfg, s, es).executions[i].state.Running?
    ensures i < |s.executions| && s.executions[i].state.Running?
  {
    if es != [] {
      var front := es[..|es| - 1];
      assert forall n :: 0 <= n <= |front| ==> front[..n] == es[..n];
      RunInv(cfg, s, front);
      StopBlocksStarts(cfg, Run(cfg, s, front), es[|es| - 1], k, i);
      NothingStartsUnderStop(cfg, s, front, k, i);
    }
  }

  /** An active stop has flagged everything RUNNING in its scope; a confirmed one, if its
      scope is ALL, means nothing is RUNNING. At most one stop is active. */
  lemma StopsTakeEffect(cfg: Settings, es: seq<Event>, k: nat, i: nat)
    requires var s := Reached(cfg, es);
             k < |s.stops| && IsActiveStop(s.stops[k]) && i < |s.executions|
    ensures var s := Reached(cfg, es);
            && (InScope(s.stops[k].scope, i) && s.executions[i].state.Running? ==>
                  s.executions[i].cancelRequested && !s.stops[k].state.Confirmed?)
            && (s.stops[k].state.Confirmed? && s.stops[k].scope.All? ==>
                  RunningRows(s.executions) == {})
            && ActiveStop(s.stops) == Some(s.stops[k])
  {
    ReachedInv(cfg, es);
    var s := Reached(cfg, es);
    assert StopHolds(s.executions, s.stops[k]);
    OnlyActiveStop(s.stops, k);
  }

  lemma {:induction false} OnlyActiveStop(stops: seq<EmergencyStop>, k: nat)
    requires OneActiveStop(stops) && k < |stops| && IsActiveStop(stops[k])
    ensures ActiveStop(stops) == Some(stops[k])
  {
    if k < |stops| - 1 {
      assert !IsActiveStop(stops[|stops| - 1]);
      var front := stops[..|stops| - 1];
      assert forall j :: 0 <= j < |front| ==> front[j] == stops[j];
      OnlyActiveStop(front, k);
    }
  }

  // ---- capacity ------------------------------------------------------------------------------

  lemma NeverOverCapacity(cfg: Settings, es: seq<Event>, t: nat)
    ensures var rows := Reached(cfg, es).executions;
            && |RunningRows(rows)| <= Max(cfg.maxGlobal, 0)
            && |RunningOn(rows, t)| <= Max(cfg.maxPerTarget, 0)
  {
    ReachedInv(cfg, es);
  }

  /** An execution in the queue is admitted by a delivered message exactly when no stop and
      no cancellation applies, fewer than the limits of other executions hold a slot and,
      if it is active, its window is open and the scope re-check passes. */
  lemma AdmittedExactlyWhen(cfg: Settings, s: State, id: nat, scopeOk: bool, now: int)
    requires Inv(cfg, s) && id in s.sent && s.executions[id].state.Queued?
    ensures var rows := s.executions;
            Deliver(cfg, s, id, scopeOk, now).state.executions[id].state.Running? <==>
            && !Blocks(ActiveStop(s.stops), id) && !rows[id].cancelRequested
            && |set j: nat | j < |rows| && j != id && Occupying(rows[j].state)| < cfg.maxGlobal
            && |set j: nat | j < |rows| && j != id && Occupying(rows[j].state)
                             && rows[j].target == rows[id].target| < cfg.maxPerTarget
            && (rows[id].cls.Active? ==> scopeOk && now <= rows[id].approvalExpiresAt.value)
  {
    CapacityCountsOthers(cfg, s.executions, id);
    assert RowInv(cfg, s.executions[id]);
  }

  // ---- schedules -----------------------------------------------------------------------------

  /** With overlap policy SKIP a schedule never has two unfinished executions, even when
      ticks die after their mid-loop commit. */
  lemma SkipNeverOverlaps(cfg: Settings, es: seq<Event>, i: nat, j: nat)
    requires var s := Reached(cfg, es);
             && i < |s.executions| && j < |s.executions| && i != j
             && s.executions[i].schedule.Some? && s.executions[i].schedule == s.executions[j].schedule
             && s.executions[i].schedule.value < |s.schedules|
             && s.schedules[s.executions[i].schedule.value].skipOverlap
    ensures var rows := Reached(cfg, es).executions;
            Terminal(rows[i].state) || Terminal(rows[j].state)
  {
    ReachedInv(cfg, es);
  }
}
