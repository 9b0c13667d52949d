/** Schedule evaluation (backend/app/services/schedule_service.py).

Times are integers in microseconds. The DAILY computation depends on a time-zone
library; its answer is a parameter. */
module Scheduling {
  import opened Base
  import opened Executions
  import opened Lifecycle

  const MINUTE: int := 60_000_000

  /** Python's `int(value or default)`: an absent or zero interval reads as the default. */
  function IntervalOr(interval: Option<nat>, default: nat): nat {
    if interval.Some? && interval.value != 0 then interval.value else default
  }

  function StepOf(interval: Option<nat>): int {
    Max(IntervalOr(interval, 60), 15) * MINUTE
  }

  function ToleranceOf(interval: Option<nat>): int {
    Max(IntervalOr(interval, 1440), 15) * MINUTE
  }

  /** The first of base + step, base + 2 step, ... that is later than `after`. */
  function NextOnGrid(base: int, step: int, after: int): (next: int)
    requires step > 0
    ensures next > after
    ensures next - step <= after || next == base + step
    decreases if after < base then 0 else after - base + 1
  {
    if base + step > after then base + step else NextOnGrid(base + step, step, after)
  }

  /** The closed form: next is the least base + k * step, k >= 1, later than `after`. */
  lemma {:induction false} NextOnGridIsLeast(base: int, step: int, after: int) returns (k: int)
    requires step > 0
    ensures k >= 1 && NextOnGrid(base, step, after) == base + k * step
    ensures base + k * step > after
    ensures forall j :: 1 <= j < k ==> base + j * step <= after
    decreases if after < base then 0 else after - base + 1
  {
    if base + step > after {
      k := 1;
    } else {
      var k' := NextOnGridIsLeast(base + step, step, after);
      k := k' + 1;
      Distribute(k', step);
      forall j | 1 <= j < k ensures base + j * step <= after {
        if j > 1 {
          assert base + step + (j - 1) * step <= after;
          Distribute(j - 1, step);
        }
      }
    }
  }

  lemma Distribute(j: int, step: int)
    ensures (j + 1) * step == j * step + step
  {}

  /** The loop of `next_run_after` for an INTERVAL schedule. */
  method NextRunAfter(base: int, interval: Option<nat>, after: int) returns (next: int)
    ensures next == NextOnGrid(base, StepOf(interval), after)
  {
    var step := StepOf(interval);
    next := base + step;
    while next <= after
      invariant NextOnGrid(base, step, after) == NextOnGrid(next - step, step, after)
      decreases after - next
    {
      next := next + step;
    }
  }

  /** `next_run_after(sched, after)`; `daily` is what the DAILY branch would answer. */
  function NextRun(sched: Schedule, after: int, daily: int): int {
    if sched.recurrence.Interval? then
      NextOnGrid(sched.lastRunAt.GetOr(sched.createdAt), StepOf(sched.intervalMinutes), after)
    else daily
  }

  predicate IsOpen(state: OccurrenceState) {
    state.OccPending? || state.OccRunning? || state.OccAwaiting?
  }

  predicate HoldsOpen(s: State, k: nat, o: Occurrence) {
    && o.schedule == k && IsOpen(o.state)
    && (o.execution.None? || o.execution.value >= |s.executions|
        || !Terminal(s.executions[o.execution.value].state))
  }

  /** `_has_open_occurrence`, asked while the new occurrence is not yet in the table. */
  predicate HasOpenOccurrence(s: State, k: nat) {
    exists x :: 0 <= x < |s.occurrences| && HoldsOpen(s, k, s.occurrences[x])
  }

  predicate Recorded(s: State, k: nat, due: int) {
    exists x :: 0 <= x < |s.occurrences|
                && s.occurrences[x].schedule == k && s.occurrences[x].scheduledFor == due
  }

  predicate IsDue(s: State, k: nat, now: int) {
    && k < |s.schedules| && s.schedules[k].enabled
    && s.schedules[k].nextRunAt.Some? && s.schedules[k].nextRunAt.value <= now
  }

  function WithOccurrence(s: State, k: nat, due: int, state: OccurrenceState, e: Option<nat>): State {
    s.(occurrences := s.occurrences + [Occurrence(k, due, state, e)])
  }

  /** The occurrence of one due grid point. Both kinds of execution are written directly,
      without a transition; only the passive one gets a SCAN_STATE_CHANGE event. */
  function Record(s: State, k: nat, attested: bool, now: int): State
    requires IsDue(s, k, now)
  {
    var sched := s.schedules[k];
    var due := sched.nextRunAt.value;
    var id := |s.executions|;
    if now - due > ToleranceOf(sched.intervalMinutes) then
      WithOccurrence(s, k, due, OccExpired, None)
    else if HasOpenOccurrence(s, k) && sched.skipOverlap then
      WithOccurrence(s, k, due, OccSkipped, None)
    else if sched.cls.Passive? then
      WithOccurrence(s, k, due, OccRunning, Some(id)).(
      nextGroup := s.nextGroup + 1,
      sent := s.sent + {id},
      executions := s.executions + [NewRow(sched.target, Some(s.nextGroup), Passive, Some(k), Queued,
                                           Some(now), [Change(Some(Draft), Queued, now)])])
    else if !attested then
      WithOccurrence(s, k, due, OccDenied, None)
    else
      WithOccurrence(s, k, due, OccAwaiting, Some(id)).(
      nextGroup := s.nextGroup + 1,
      approvals := s.approvals + [Approval(s.nextGroup, Some(|s.occurrences|), Pending, None)],
      executions := s.executions + [NewRow(sched.target, Some(s.nextGroup), Active, Some(k),
                                           AwaitingApproval, None, [])])
  }

  /** The state after the iteration's mid-loop commit: the schedule has not advanced yet. */
  function TickBody(s: State, k: nat, attested: bool, now: int): State
    requires IsDue(s, k, now)
  {
    if Recorded(s, k, s.schedules[k].nextRunAt.value) then s else Record(s, k, attested, now)
  }

  function Advance(s: State, k: nat, daily: int, now: int): State
    requires IsDue(s, k, now)
  {
    var sched := s.schedules[k];
    var run := sched.(lastRunAt := sched.nextRunAt);
    s.(schedules := s.schedules[k := run.(nextRunAt := Some(NextRun(run, now, daily)))])
  }

  /** One iteration of the tick. `dies`: the process is lost between the mid-loop commit
      of a passive occurrence and the end of the iteration; the other branches commit
      nothing before the end, so losing the process there leaves no step at all. */
  function TickOne(s: State, k: nat, attested: bool, daily: int, dies: bool, now: int): Outcome {
    if !IsDue(s, k, now) then Outcome(Refused, s)
    else
      var body := TickBody(s, k, attested, now);
      if dies then
        if |body.executions| > |s.executions| && s.schedules[k].cls.Passive? then Outcome(Ok, body)
        else Outcome(Refused, s)
      else Outcome(Ok, Advance(body, k, daily, now))
  }

  const MIN_INTERVAL := 15
  const MAX_INTERVAL := 10080

  /** What the API asks of a new schedule: an interval, where there is one, is between a quarter
      of an hour and a week, and an INTERVAL schedule has one. */
  predicate IntervalOk(sched: Schedule) {
    && (sched.intervalMinutes.Some? ==> MIN_INTERVAL <= sched.intervalMinutes.value <= MAX_INTERVAL)
    && (sched.recurrence.Interval? ==> sched.intervalMinutes.Some?)
  }

  function AddSchedule(s: State, sched: Schedule): Outcome {
    if !IntervalOk(sched) then Outcome(Refused, s)
    else Outcome(Ok, s.(schedules := s.schedules + [sched]))
  }

  /** `update_schedule`: only `enabled` can be changed. */
  function Enable(s: State, k: nat, enabled: bool, daily: int, now: int): Outcome {
    if k >= |s.schedules| then Outcome(Refused, s)
    else
      var sched := s.schedules[k].(enabled := enabled);
      var next := if enabled && sched.nextRunAt.None? then Some(NextRun(sched, now, daily))
                  else sched.nextRunAt;
      Outcome(Ok, s.(schedules := s.schedules[k := sched.(nextRunAt := next)]))
  }
}

/** What the tick guarantees about grid points. */
module ScheduleGuarantees {
  import opened Base
  import opened Executions
  import opened Lifecycle
  import opened Scheduling

  /** A tick adds an execution for its grid point. */
  predicate StartsRun(s: State, k: nat, attested: bool, daily: int, dies: bool, now: int) {
    |TickOne(s, k, attested, daily, dies, now).state.executions| > |s.executions|
  }

  /** A run is created at most a tolerance after its grid point. */
  lemma RunsAreFresh(s: State, k: nat, attested: bool, daily: int, dies: bool, now: int)
    requires StartsRun(s, k, attested, daily, dies, now)
    ensures IsDue(s, k, now)
    ensures 0 <= now - s.schedules[k].nextRunAt.value <= ToleranceOf(s.schedules[k].intervalMinutes)
  {}

  /** A tick adds an execution later than one step after its grid point. */
  predicate StartsLate(s: State, k: nat, attested: bool, daily: int, dies: bool, now: int) {
    && StartsRun(s, k, attested, daily, dies, now)
    && k < |s.schedules| && s.schedules[k].nextRunAt.Some?
    && now - s.schedules[k].nextRunAt.value > StepOf(s.schedules[k].intervalMinutes)
  }

  ghost predicate CanStartLate(interval: Option<nat>) {
    exists s: State, k: nat, attested: bool, daily: int, dies: bool, now: int ::
      && StartsLate(s, k, attested, daily, dies, now)
      && s.schedules[k].recurrence.Interval? && s.schedules[k].intervalMinutes == interval
  }

  /** An INTERVAL schedule can start a run later than one step after its grid point if and only
      if its interval is missing or zero: the step then reads as an hour and the tolerance as a
      day. */
  lemma StartsLateExactlyWhen(interval: Option<nat>)
    ensures CanStartLate(interval) <==> interval.GetOr(0) == 0
  {
    if interval.GetOr(0) == 0 {
      var now := 23 * StepOf(interval);
      var sched := Schedule(0, Passive, Interval, interval, true, true, 0, Some(0), None);
      var s := Initial.(schedules := [sched]);
      assert IsDue(s, 0, now) && !HasOpenOccurrence(s, 0) && !Recorded(s, 0, 0);
      assert StartsLate(s, 0, true, 0, false, now);
    }
  }

  /** A finished iteration leaves the grid point recorded once and moves an INTERVAL
      schedule past the present, to the grid of the point it has just handled. */
  lemma TickMovesOn(s: State, k: nat, attested: bool, daily: int, now: int) returns (j: int)
    requires IsDue(s, k, now) && s.schedules[k].recurrence.Interval?
    ensures var t := TickOne(s, k, attested, daily, false, now).state;
            var due := s.schedules[k].nextRunAt.value;
            && Recorded(t, k, due) && !IsDue(t, k, now)
            && j >= 1 && t.schedules[k].lastRunAt == Some(due)
            && t.schedules[k].nextRunAt
            == Some(due + j * StepOf(s.schedules[k].intervalMinutes))
            && (forall i :: 1 <= i < j ==> due + i * StepOf(s.schedules[k].intervalMinutes) <= now)
  {
    var due := s.schedules[k].nextRunAt.value;
    j := NextOnGridIsLeast(due, StepOf(s.schedules[k].intervalMinutes), now);
    var body := TickBody(s, k, attested, now);
    if !Recorded(s, k, due) {
      var o := body.occurrences[|s.occurrences|];
      assert o.schedule == k && o.scheduledFor == due;
    }
    assert Recorded(body, k, due);
    assert TickOne(s, k, attested, daily, false, now).state.occurrences == body.occurrences;
  }

  /** One occurrence per schedule and grid point, whatever dies in between. */
  ghost predicate OncePerPoint(occs: seq<Occurrence>) {
    forall x, y :: 0 <= x < y < |occs| ==>
                     occs[x].schedule != occs[y].schedule || occs[x].scheduledFor != occs[y].scheduledFor
  }

  lemma TickKeepsOncePerPoint(s: State, k: nat, attested: bool, daily: int, dies: bool, now: int)
    requires OncePerPoint(s.occurrences)
    ensures OncePerPoint(TickOne(s, k, attested, daily, dies, now).state.occurrences)
  {
    if IsDue(s, k, now) {
      var body := TickBody(s, k, attested, now);
      var due := s.schedules[k].nextRunAt.value;
      if !Recorded(s, k, due) {
        assert forall x :: 0 <= x < |s.occurrences| ==> body.occurrences[x] == s.occurrences[x];
      }
    }
  }

  /** After a tick that died mid-loop, the next one adds no second execution for the point. */
  lemma DeadTickIsNotRepeated(s: State, k: nat, attested: bool, daily: int, dies: bool, now: int,
                              later: int)
    requires TickOne(s, k, attested, daily, true, now).reply.Ok?
    ensures var t := TickOne(s, k, attested, daily, true, now).state;
            var u := TickOne(t, k, attested, daily, dies, later).state;
            u.executions == t.executions && u.occurrences == t.occurrences
  {
    var t := TickOne(s, k, attested, daily, true, now).state;
    var o := t.occurrences[|s.occurrences|];
    assert o.schedule == k && o.scheduledFor == s.schedules[k].nextRunAt.value;
    assert Recorded(t, k, s.schedules[k].nextRunAt.value);
  }
}
