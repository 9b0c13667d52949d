/** What the tick guarantees over whole runs. */
module ScheduleRuns {
  import opened Base
  import opened Executions
  import opened Lifecycle
  import opened Scheduling
  import opened RowInvariant
  import opened LifecycleInvariant
  import opened ScheduleGuarantees
  import opened LifecycleRuns

  /** Occurrences may change their state, but not their schedule and grid point. */
  predicate SamePoints(a: seq<Occurrence>, b: seq<Occurrence>) {
    && |a| == |b|
    && forall x :: 0 <= x < |a| ==> b[x].schedule == a[x].schedule && b[x].scheduledFor == a[x].scheduledFor
  }

  predicate AboutSchedules(a: Action) { a.DoTick? || a.DoAddSchedule? || a.DoEnable? }

  /** Only the tick records occurrences, and only schedule requests touch schedules. */
  lemma OtherStepsLeaveSchedules(cfg: Settings, s: State, e: Event)
    requires !AboutSchedules(e.action)
    ensures Step(cfg, s, e).state.schedules == s.schedules
    ensures SamePoints(s.occurrences, Step(cfg, s, e).state.occurrences)
  {
    hide StartRow, PauseRow, CancelRow, ApproveRow, DenyRow, LaunchRow, PreflightRow, PersistRow;
    hide ExpireRow, TimeoutRow, ReconcileStop, CapacityAvailable, ActiveStop, Blocks, FirstAbort;
  }

  ghost predicate IntervalsOk(schedules: seq<Schedule>) {
    forall k :: 0 <= k < |schedules| ==> IntervalOk(schedules[k])
  }

  lemma ScheduleSteps(cfg: Settings, s: State, e: Event)
    requires AboutSchedules(e.action) && IntervalsOk(s.schedules) && OncePerPoint(s.occurrences)
    ensures IntervalsOk(Step(cfg, s, e).state.schedules)
    ensures OncePerPoint(Step(cfg, s, e).state.occurrences)
  {
    match e.action
    case DoTick(k, attested, daily, dies) => TickKeepsOncePerPoint(s, k, attested, daily, dies, e.now);
    case DoAddSchedule(_) =>
    case DoEnable(_, _, _) =>
  }

  lemma {:induction false} SchedulesOfRuns(cfg: Settings, es: seq<Event>)
    ensures IntervalsOk(Reached(cfg, es).schedules)
    ensures OncePerPoint(Reached(cfg, es).occurrences)
  {
    hide Step;
    if es != [] {
      var s, e := Reached(cfg, es[..|es| - 1]), es[|es| - 1];
      SchedulesOfRuns(cfg, es[..|es| - 1]);
      if AboutSchedules(e.action) {
        ScheduleSteps(cfg, s, e);
      } else {
        OtherStepsLeaveSchedules(cfg, s, e);
      }
    }
  }

  /** In every reachable state each grid point of a schedule has been handled at most once,
      whatever died in between. */
  lemma PointsAreHandledOnce(cfg: Settings, es: seq<Event>, x: nat, y: nat)
    requires x < |Reached(cfg, es).occurrences| && y < |Reached(cfg, es).occurrences|
    requires Reached(cfg, es).occurrences[x].schedule == Reached(cfg, es).occurrences[y].schedule
    requires Reached(cfg, es).occurrences[x].scheduledFor == Reached(cfg, es).occurrences[y].scheduledFor
    ensures x == y
  {
    SchedulesOfRuns(cfg, es);
  }

  /** In every reachable state a tick adds an execution for an INTERVAL schedule only within one
      interval after its grid point; for a DAILY one without an interval, within a day. */
  lemma RunsStartWithinOneInterval(cfg: Settings, es: seq<Event>, k: nat, attested: bool, daily: int,
                                   dies: bool, now: int)
    requires StartsRun(Reached(cfg, es), k, attested, daily, dies, now)
    ensures k < |Reached(cfg, es).schedules|
    ensures (var sched := Reached(cfg, es).schedules[k];
             && sched.nextRunAt.Some?
             && (sched.recurrence.Interval? ==>
                   && sched.intervalMinutes.Some?
                   && 0 <= now - sched.nextRunAt.value <= sched.intervalMinutes.value * MINUTE)
             && (sched.intervalMinutes.None? ==> 0 <= now - sched.nextRunAt.value <= 1440 * MINUTE))
  {
    SchedulesOfRuns(cfg, es);
    RunsAreFresh(Reached(cfg, es), k, attested, daily, dies, now);
  }

  // ---- occurrences and their executions -------------------------------------------------------

  /** An occurrence's execution belongs to its schedule, and an open occurrence has one. */
  ghost predicate OccurrencesOk(rows: seq<Execution>, occs: seq<Occurrence>) {
    forall x :: 0 <= x < |occs| ==>
                  && (IsOpen(occs[x].state) ==> occs[x].execution.Some?)
                  && (occs[x].execution.Some? ==>
                        && occs[x].execution.value < |rows|
                        && rows[occs[x].execution.value].schedule == Some(occs[x].schedule))
  }

  /** The only change: an occurrence that has an execution may get another state. */
  predicate SameLinks(a: seq<Occurrence>, b: seq<Occurrence>) {
    && |a| == |b|
    && forall x :: 0 <= x < |a| ==>
                     b[x] == a[x].(state := b[x].state) && (b[x].state == a[x].state || a[x].execution.Some?)
  }

  lemma OtherStepsKeepLinks(cfg: Settings, s: State, e: Event)
    requires Inv(cfg, s) && !e.action.DoTick?
    requires forall a :: 0 <= a < |s.approvals| && s.approvals[a].occurrence.Some? ==>
                           && s.approvals[a].occurrence.value < |s.occurrences|
                           && s.occurrences[s.approvals[a].occurrence.value].execution.Some?
    ensures SameLinks(s.occurrences, Step(cfg, s, e).state.occurrences)
  {
    hide StartRow, PauseRow, CancelRow, ApproveRow, DenyRow, LaunchRow, PreflightRow, PersistRow, Inv;
    hide ExpireRow, TimeoutRow, ReconcileStop, CapacityAvailable, ActiveStop, Blocks, FirstAbort;
  }

  lemma TickKeepsOccurrences(cfg: Settings, s: State, e: Event)
    requires OccurrencesOk(s.executions, s.occurrences) && e.action.DoTick?
    ensures OccurrencesOk(Step(cfg, s, e).state.executions, Step(cfg, s, e).state.occurrences)
  {
    hide HasOpenOccurrence, Recorded, NextRun, ToleranceOf;
  }

  lemma {:induction false} OccurrencesOfRuns(cfg: Settings, es: seq<Event>)
    ensures OccurrencesOk(Reached(cfg, es).executions, Reached(cfg, es).occurrences)
  {
    hide Step;
    if es != [] {
      var s, e := Reached(cfg, es[..|es| - 1]), es[|es| - 1];
      OccurrencesOfRuns(cfg, es[..|es| - 1]);
      ReachedInv(cfg, es[..|es| - 1]);
      if e.action.DoTick? {
        TickKeepsOccurrences(cfg, s, e);
      } else {
        assert forall a :: 0 <= a < |s.approvals| ==> ApprovalOk(s.executions, s.occurrences, s.approvals[a]);
        OtherStepsKeepLinks(cfg, s, e);
        StepSafe(cfg, s, e);
        hide Inv;
        assert forall i :: 0 <= i < |s.executions| ==> Evolves(s.executions[i], Step(cfg, s, e).state.executions[i]);
      }
    }
  }

  /** Some execution of the schedule has not finished. */
  predicate Busy(s: State, k: nat) {
    exists i: nat :: i < |s.executions| && s.executions[i].schedule == Some(k) && !Terminal(s.executions[i].state)
  }

  /** What the overlap policy looks at is whether the schedule has an unfinished execution. */
  lemma OpenMeansBusy(cfg: Settings, es: seq<Event>, k: nat)
    ensures HasOpenOccurrence(Reached(cfg, es), k) <==> Busy(Reached(cfg, es), k)
  {
    var s := Reached(cfg, es);
    OccurrencesOfRuns(cfg, es);
    ReachedInv(cfg, es);
    if Busy(s, k) {
      var i: nat :| i < |s.executions| && s.executions[i].schedule == Some(k) && !Terminal(s.executions[i].state);
      assert Covered(s.occurrences, k, i);
      var x :| 0 <= x < |s.occurrences| && s.occurrences[x].schedule == k
               && s.occurrences[x].execution == Some(i) && IsOpen(s.occurrences[x].state);
      assert HoldsOpen(s, k, s.occurrences[x]);
    }
  }

  // ---- what a tick does -------------------------------------------------------------------------

  /** How late a run may still start: one interval, and a day where there is none. */
  function Grace(sched: Schedule): int {
    if sched.intervalMinutes.Some? then sched.intervalMinutes.value * MINUTE else 1440 * MINUTE
  }

  predicate Handled(s: State, k: nat, due: int) {
    exists x :: 0 <= x < |s.occurrences| && s.occurrences[x].schedule == k && s.occurrences[x].scheduledFor == due
  }

  /** What becomes of the grid point `due`: the state of its occurrence. */
  function Fate(s: State, k: nat, due: int, attested: bool, now: int): OccurrenceState
    requires k < |s.schedules|
  {
    var sched := s.schedules[k];
    if now > due + Grace(sched) then OccExpired
    else if sched.skipOverlap && Busy(s, k) then OccSkipped
    else if sched.cls.Passive? then OccRunning
    else if attested then OccAwaiting
    else OccDenied
  }

  /** The new execution, in a group of its own. */
  function Scheduled(s: State, k: nat, now: int): Execution
    requires k < |s.schedules|
  {
    var passive := s.schedules[k].cls.Passive?;
    Execution(s.schedules[k].target, Some(s.nextGroup), s.schedules[k].cls, Some(k),
              if passive then Queued else AwaitingApproval, false, false, None,
              if passive then Some(now) else None, None, None, None, 0,
              if passive then [Change(Some(Draft), Queued, now)] else [])
  }

  predicate Due(s: State, k: nat, now: int) {
    k < |s.schedules| && s.schedules[k].enabled && s.schedules[k].nextRunAt.Some?
    && s.schedules[k].nextRunAt.value <= now
  }

  /** A tick that finishes, on a due schedule. A point that was handled before only moves the
      schedule on. Otherwise the point gets its occurrence, and an execution exactly when it is not
      too late, the policy does not skip it and it is passive or attested: a QUEUED one with its
      message, or one that awaits a new approval. */
  lemma TickVerdict(cfg: Settings, es: seq<Event>, k: nat, attested: bool, daily: int, now: int)
    requires Due(Reached(cfg, es), k, now)
    ensures (var s := Reached(cfg, es);
             var o := Step(cfg, s, Event(DoTick(k, attested, daily, false), now));
             var t := o.state;
             var sched, due, id := s.schedules[k], s.schedules[k].nextRunAt.value, |s.executions|;
             var fate := Fate(s, k, due, attested, now);
             var runs := fate.OccRunning? || fate.OccAwaiting?;
             && o.reply.Ok?
             && t.schedules == s.schedules[k := sched.(lastRunAt := Some(due),
                                                       nextRunAt := t.schedules[k].nextRunAt)]
             && (sched.recurrence.Daily? ==> t.schedules[k].nextRunAt == Some(daily))
             && (Handled(s, k, due) ==> t == s.(schedules := t.schedules))
             && (!Handled(s, k, due) ==>
                   t == s.(schedules := t.schedules,
                           occurrences := s.occurrences + [Occurrence(k, due, fate, if runs then Some(id) else None)],
                           executions := s.executions + if runs then [Scheduled(s, k, now)] else [],
                           nextGroup := s.nextGroup + if runs then 1 else 0,
                           sent := s.sent + if fate.OccRunning? then {id} else {},
                           approvals := s.approvals + if fate.OccAwaiting?
                                                      then [Approval(s.nextGroup, Some(|s.occurrences|), Pending, None)]
                                                      else [])))
  {
    var s := Reached(cfg, es);
    OpenMeansBusy(cfg, es, k);
    SchedulesOfRuns(cfg, es);
    assert IntervalOk(s.schedules[k]);
    GraceIsTolerance(s.schedules[k]);
    hide HasOpenOccurrence, Busy, ToleranceOf, Grace, NextRun, Reached;
    assert Recorded(s, k, s.schedules[k].nextRunAt.value) <==> Handled(s, k, s.schedules[k].nextRunAt.value);
  }

  lemma GraceIsTolerance(sched: Schedule)
    requires IntervalOk(sched)
    ensures ToleranceOf(sched.intervalMinutes) == Grace(sched)
  {
  }

  /** A schedule that is not due is left alone. A tick that is cut off commits only a passive run,
      exactly as the finished one would, and leaves the schedule where it is. */
  lemma CutTickVerdict(cfg: Settings, es: seq<Event>, k: nat, attested: bool, daily: int, now: int)
    ensures (var s := Reached(cfg, es);
             var whole := Step(cfg, s, Event(DoTick(k, attested, daily, false), now));
             var o := Step(cfg, s, Event(DoTick(k, attested, daily, true), now));
             && (!Due(s, k, now) ==> whole == Outcome(Refused, s) && o == whole)
             && (Due(s, k, now) ==>
                   var due := s.schedules[k].nextRunAt.value;
                   o == if !Handled(s, k, due) && Fate(s, k, due, attested, now).OccRunning?
                        then Outcome(Ok, whole.state.(schedules := s.schedules))
                        else Outcome(Refused, s)))
  {
    var s := Reached(cfg, es);
    if Due(s, k, now) {
      TickVerdict(cfg, es, k, attested, daily, now);
      OpenMeansBusy(cfg, es, k);
      SchedulesOfRuns(cfg, es);
      GraceIsTolerance(s.schedules[k]);
      hide HasOpenOccurrence, Busy, ToleranceOf, Grace, NextRun, Reached;
      assert Recorded(s, k, s.schedules[k].nextRunAt.value) <==> Handled(s, k, s.schedules[k].nextRunAt.value);
    }
  }

  /** Only `enabled` can be changed. A schedule that has no next run gets one when it is enabled: for
      an INTERVAL one the first point after now that is a whole number of intervals after its last
      run, or after its creation. */
  lemma EnableVerdict(cfg: Settings, es: seq<Event>, k: nat, enabled: bool, daily: int, now: int) returns (j: int)
    requires k < |Reached(cfg, es).schedules|
    ensures (var s := Reached(cfg, es);
             var sched := s.schedules[k];
             var o := Step(cfg, s, Event(DoEnable(k, enabled, daily), now));
             var base, step := sched.lastRunAt.GetOr(sched.createdAt), sched.intervalMinutes.GetOr(0) * MINUTE;
             && o.reply.Ok?
             && o.state == s.(schedules := s.schedules[k := sched.(enabled := enabled,
                                                                   nextRunAt := o.state.schedules[k].nextRunAt)])
             && (!enabled || sched.nextRunAt.Some? ==> o.state.schedules[k].nextRunAt == sched.nextRunAt)
             && (enabled && sched.nextRunAt.None? && sched.recurrence.Daily? ==>
                   o.state.schedules[k].nextRunAt == Some(daily))
             && (enabled && sched.nextRunAt.None? && sched.recurrence.Interval? ==>
                   && o.state.schedules[k].nextRunAt == Some(base + j * step) && j >= 1 && base + j * step > now
                   && forall i :: 1 <= i < j ==> base + i * step <= now))
  {
    SchedulesOfRuns(cfg, es);
    var sched := Reached(cfg, es).schedules[k];
    assert IntervalOk(sched);
    j := 1;
    if sched.recurrence.Interval? {
      j := NextOnGridIsLeast(sched.lastRunAt.GetOr(sched.createdAt), StepOf(sched.intervalMinutes), now);
    }
    hide NextOnGrid, Reached;
  }

  /** A new schedule is taken as it is, exactly when its interval is between a quarter of an hour and a
      week, where it has one, and it has one if it is to run at intervals. */
  lemma AddScheduleVerdict(cfg: Settings, es: seq<Event>, sched: Schedule, now: int)
    ensures (var s := Reached(cfg, es);
             var ok := if sched.intervalMinutes.Some? then 15 <= sched.intervalMinutes.value <= 7 * 24 * 60
                       else sched.recurrence.Daily?;
             Step(cfg, s, Event(DoAddSchedule(sched), now))
             == if ok then Outcome(Ok, s.(schedules := s.schedules + [sched])) else Outcome(Refused, s))
  {
  }
}
