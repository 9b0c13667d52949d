/** The steps that add rows: launching a scan, and evaluating a schedule. */
module CreationInvariant {
  import opened Base
  import opened Executions
  import opened Lifecycle
  import opened Scheduling
  import opened RowInvariant
  import opened LifecycleInvariant

  /** A row as it is created: not running, without an approval window, alone or in the one
      group that is being created. */
  ghost predicate FreshRow(cfg: Settings, r: Execution, nextGroup: nat) {
    && RowInv(cfg, r) && !r.state.Running? && !Terminal(r.state) && r.approvalExpiresAt.None?
    && (r.group.None? || r.group == Some(nextGroup))
  }

  lemma AppendKeepsSlots(cfg: Settings, rows: seq<Execution>, made: seq<Execution>)
    requires CapacityOk(cfg, rows)
    requires forall i :: 0 <= i < |made| ==> !made[i].state.Running?
    ensures CapacityOk(cfg, rows + made)
  {
    assert RunningRows(rows + made) == RunningRows(rows);
    forall t: nat ensures RunningOn(rows + made, t) == RunningOn(rows, t) {}
  }

  lemma AppendKeepsApprovals(rows: seq<Execution>, made: seq<Execution>, occs: seq<Occurrence>,
                             occs': seq<Occurrence>, approvals: seq<Approval>, nextGroup: nat)
    requires ApprovalsOk(rows, occs, approvals, nextGroup) && occs <= occs'
    requires forall i :: 0 <= i < |made| ==> made[i].group.None? || made[i].group == Some(nextGroup)
    ensures ApprovalsOk(rows + made, occs', approvals, nextGroup + 1)
  {
    forall a | 0 <= a < |approvals| ensures ApprovalOk(rows + made, occs', approvals[a]) {
      assert ApprovalOk(rows, occs, approvals[a]);
      assert forall i: nat :: i < |rows + made| && InScan((rows + made)[i], i, Group(approvals[a].group)) ==>
                                i < |rows| && InScan(rows[i], i, Group(approvals[a].group));
    }
  }

  lemma AppendKeepsGroups(rows: seq<Execution>, made: seq<Execution>, nextGroup: nat)
    requires GroupsOk(rows, nextGroup)
    requires forall i :: 0 <= i < |made| ==> made[i].approvalExpiresAt.None?
                                             && (made[i].group.None? || made[i].group == Some(nextGroup))
    ensures GroupsOk(rows + made, nextGroup + 1)
  {}

  lemma AppendKeepsCoverage(rows: seq<Execution>, made: seq<Execution>, occs: seq<Occurrence>,
                            occs': seq<Occurrence>)
    requires CoverageOk(rows, occs) && occs <= occs'
    requires forall i: nat :: i < |made| && made[i].schedule.Some? ==>
                                Covered(occs', made[i].schedule.value, |rows| + i)
    ensures CoverageOk(rows + made, occs')
  {
    var all := rows + made;
    forall i: nat | i < |all| && all[i].schedule.Some? && !Terminal(all[i].state)
      ensures Covered(occs', all[i].schedule.value, i)
    {
      if i < |rows| {
        assert Covered(occs, rows[i].schedule.value, i);
        var x :| 0 <= x < |occs| && occs[x].schedule == rows[i].schedule.value
                 && occs[x].execution == Some(i) && IsOpen(occs[x].state);
        assert occs'[x] == occs[x];
      } else {
        assert all[i] == made[i - |rows|];
      }
    }
  }

  lemma AppendKeepsMessages(rows: seq<Execution>, made: seq<Execution>, sent: set<nat>, begun: set<nat>)
    requires SentOk(rows, sent) && BegunOk(rows, begun)
    ensures SentOk(rows + made, sent) && BegunOk(rows + made, begun)
  {
    forall i | i in sent
      ensures i < |rows + made| && EverQueued((rows + made)[i])
              && !(rows + made)[i].state.AwaitingApproval?
    {
      assert (rows + made)[i] == rows[i];
    }
  }

  lemma AppendKeepsStops(rows: seq<Execution>, made: seq<Execution>, stops: seq<EmergencyStop>)
    requires StopsOk(rows, stops)
    requires forall i :: 0 <= i < |made| ==> !made[i].state.Running?
    ensures StopsOk(rows + made, stops)
  {
    forall k | 0 <= k < |stops| ensures StopHolds(rows + made, stops[k]) {
      assert StopHolds(rows, stops[k]);
    }
  }

  /** Appending fresh rows of one new group keeps the invariant. */
  lemma AppendKeeps(cfg: Settings, s: State, made: seq<Execution>, occs': seq<Occurrence>)
    requires Inv(cfg, s) && s.occurrences <= occs'
    requires forall i :: 0 <= i < |made| ==> FreshRow(cfg, made[i], s.nextGroup)
    requires forall i: nat :: i < |made| && made[i].schedule.Some? ==>
                                Covered(occs', made[i].schedule.value, |s.executions| + i)
    requires SkipOk(s.executions + made, s.schedules)
    ensures Inv(cfg, s.(executions := s.executions + made, nextGroup := s.nextGroup + 1,
                        occurrences := occs'))
  {
    AppendKeepsSlots(cfg, s.executions, made);
    AppendKeepsApprovals(s.executions, made, s.occurrences, occs', s.approvals, s.nextGroup);
    AppendKeepsGroups(s.executions, made, s.nextGroup);
    AppendKeepsCoverage(s.executions, made, s.occurrences, occs');
    AppendKeepsMessages(s.executions, made, s.sent, s.begun);
    AppendKeepsStops(s.executions, made, s.stops);
  }

  /** A new approval for the group that has just been created. */
  lemma AddApprovalKeeps(cfg: Settings, s: State, a: Approval)
    requires Inv(cfg, s) && a.group < s.nextGroup
    requires forall b :: 0 <= b < |s.approvals| ==> s.approvals[b].group != a.group
    requires ApprovalOk(s.executions, s.occurrences, a)
    ensures Inv(cfg, s.(approvals := s.approvals + [a]))
  {
    var approvals' := s.approvals + [a];
    forall b | 0 <= b < |approvals'| ensures ApprovalOk(s.executions, s.occurrences, approvals'[b]) {
      if b < |s.approvals| { assert approvals'[b] == s.approvals[b]; }
    }
  }

  lemma LaunchRowFresh(cfg: Settings, target: nat, g: nat, cls: Classification, now: int)
    ensures var x := LaunchRow(cfg, target, g, cls, now);
            && x.Row? && FreshRow(cfg, x.row, g) && x.row.group == Some(g) && x.row.schedule.None?
            && (cls.Active? ==> x.row.state.AwaitingApproval?)
  {
    var x := LaunchRow(cfg, target, g, cls, now);
    if cls.Active? {
      assert x.row.trail == [Change(Some(Draft), AwaitingApproval, now)];
    }
  }

  lemma PrefixGrows(rows: seq<Execution>, rows': seq<Execution>)
    requires rows <= rows'
    requires forall i :: |rows| <= i < |rows'| ==>
                           rows'[i].approvalExpiresAt.None? && !rows'[i].state.Running?
    ensures Grows(rows, rows') && WindowsKept(rows, rows') && NothingStarts(rows, rows')
  {}

  /** The rows of a launched group. */
  lemma LaunchedRows(cfg: Settings, s: State, targets: seq<nat>, cls: Classification, now: int)
    returns (made: seq<Execution>)
    requires Inv(cfg, s)
    ensures Settle(s, seq(|targets|, i requires 0 <= i < |targets| =>
              LaunchRow(cfg, targets[i], s.nextGroup, cls, now))) == Outcome(Ok, s.(executions := made))
    ensures |made| == |targets|
    ensures forall i :: 0 <= i < |made| ==>
                          && FreshRow(cfg, made[i], s.nextGroup) && made[i].group == Some(s.nextGroup)
                          && made[i].schedule.None?
                          && (cls.Active? ==> made[i].state.AwaitingApproval?)
  {
    var rs := seq(|targets|, i requires 0 <= i < |targets| =>
      LaunchRow(cfg, targets[i], s.nextGroup, cls, now));
    forall i | 0 <= i < |rs|
      ensures rs[i].Row? && FreshRow(cfg, rs[i].row, s.nextGroup)
      ensures rs[i].row.group == Some(s.nextGroup) && rs[i].row.schedule.None?
      ensures cls.Active? ==> rs[i].row.state.AwaitingApproval?
    {
      LaunchRowFresh(cfg, targets[i], s.nextGroup, cls, now);
    }
    made := seq(|rs|, i requires 0 <= i < |rs| => rs[i].row);
    SettleCommits(s, rs, made);
  }

  lemma UnscheduledKeepsSkip(rows: seq<Execution>, made: seq<Execution>, schedules: seq<Schedule>)
    requires SkipOk(rows, schedules)
    requires forall i :: 0 <= i < |made| ==> made[i].schedule.None?
    ensures SkipOk(rows + made, schedules)
  {}

  lemma LaunchSafe(cfg: Settings, s: State, targets: seq<nat>, cls: Classification, admitted: bool,
                   now: int)
    requires Inv(cfg, s)
    ensures Safe(cfg, s, Launch(cfg, s, targets, cls, admitted, now))
  {
    if targets == [] || !admitted { return; }
    var made := LaunchedRows(cfg, s, targets, cls, now);
    UnscheduledKeepsSkip(s.executions, made, s.schedules);
    AppendKeeps(cfg, s, made, s.occurrences);
    PrefixGrows(s.executions, s.executions + made);
    if cls.Active? {
      var s1 := s.(executions := s.executions + made, nextGroup := s.nextGroup + 1);
      AddApprovalKeeps(cfg, s1, Approval(s.nextGroup, None, Pending, None));
    }
  }

  lemma QueuedRowFresh(cfg: Settings, target: nat, group: Option<nat>, schedule: Option<nat>,
                       nextGroup: nat, now: int)
    requires group.None? || group == Some(nextGroup)
    ensures var r := NewRow(target, group, Passive, schedule, Queued, Some(now),
                            [Change(Some(Draft), Queued, now)]);
            FreshRow(cfg, r, nextGroup) && EverQueued(r)
  {
    var r := NewRow(target, group, Passive, schedule, Queued, Some(now),
                    [Change(Some(Draft), Queued, now)]);
    assert r.trail[0].to.Queued?;
  }

  lemma SendNew(cfg: Settings, s: State)
    requires Inv(cfg, s) && s.executions != []
    requires EverQueued(s.executions[|s.executions| - 1])
    requires !s.executions[|s.executions| - 1].state.AwaitingApproval?
    ensures Inv(cfg, s.(sent := s.sent + {|s.executions| - 1}))
  {}

  lemma GrowGroups(cfg: Settings, s: State, n: nat)
    requires Inv(cfg, s) && n <= s.nextGroup
    requires forall i :: 0 <= i < |s.executions| && s.executions[i].group.Some? ==>
                           s.executions[i].group.value < n
    requires forall a :: 0 <= a < |s.approvals| ==> s.approvals[a].group < n
    ensures Inv(cfg, s.(nextGroup := n))
  {}

  lemma QueuePassiveSafe(cfg: Settings, s: State, target: nat, now: int)
    requires Inv(cfg, s)
    ensures Safe(cfg, s, QueuePassive(s, target, now))
  {
    var r := NewRow(target, None, Passive, None, Queued, Some(now),
                    [Change(Some(Draft), Queued, now)]);
    QueuedRowFresh(cfg, target, None, None, s.nextGroup, now);
    UnscheduledKeepsSkip(s.executions, [r], s.schedules);
    AppendKeeps(cfg, s, [r], s.occurrences);
    PrefixGrows(s.executions, s.executions + [r]);
    var s1 := s.(executions := s.executions + [r], nextGroup := s.nextGroup + 1);
    GrowGroups(cfg, s1, s.nextGroup);
    SendNew(cfg, s1.(nextGroup := s.nextGroup));
  }

  // ---- schedules ----------------------------------------------------------------

  lemma RecordMoreOccurrences(cfg: Settings, s: State, o: Occurrence)
    requires Inv(cfg, s)
    ensures Inv(cfg, s.(occurrences := s.occurrences + [o]))
  {
    assert s.executions + [] == s.executions;
    assert SkipOk(s.executions + [], s.schedules);
    AppendKeeps(cfg, s, [], s.occurrences + [o]);
    GrowGroups(cfg, s.(executions := s.executions, nextGroup := s.nextGroup + 1,
                       occurrences := s.occurrences + [o]), s.nextGroup);
  }

  /** With no open occurrence, every execution of the schedule has finished. */
  lemma NoOpenMeansFinished(s: State, k: nat)
    requires CoverageOk(s.executions, s.occurrences) && !HasOpenOccurrence(s, k)
    ensures forall i: nat :: i < |s.executions| && s.executions[i].schedule == Some(k) ==>
                               Terminal(s.executions[i].state)
  {
    forall i: nat | i < |s.executions| && s.executions[i].schedule == Some(k)
      ensures Terminal(s.executions[i].state)
    {
      if !Terminal(s.executions[i].state) {
        assert Covered(s.occurrences, k, i);
        var x :| 0 <= x < |s.occurrences| && s.occurrences[x].schedule == k
                 && s.occurrences[x].execution == Some(i) && IsOpen(s.occurrences[x].state);
        assert HoldsOpen(s, k, s.occurrences[x]);
      }
    }
  }

  lemma ScheduledRowKeepsSkip(s: State, k: nat, r: Execution)
    requires SkipOk(s.executions, s.schedules) && CoverageOk(s.executions, s.occurrences)
    requires k < |s.schedules| && r.schedule == Some(k)
    requires !(HasOpenOccurrence(s, k) && s.schedules[k].skipOverlap)
    ensures SkipOk(s.executions + [r], s.schedules)
  {
    if s.schedules[k].skipOverlap { NoOpenMeansFinished(s, k); }
    var all := s.executions + [r];
    forall i, j | 0 <= i < j < |all| && all[i].schedule.Some? && all[i].schedule == all[j].schedule
                  && s.schedules[all[i].schedule.value].skipOverlap
      ensures Terminal(all[i].state) || Terminal(all[j].state)
    {
      assert all[i] == s.executions[i];
      if j < |s.executions| { assert all[j] == s.executions[j]; } else { assert all[j] == r; }
    }
  }

  /** One execution and the occurrence that covers it. */
  lemma ScheduledRowKeeps(cfg: Settings, s: State, k: nat, r: Execution, o: Occurrence)
    requires Inv(cfg, s) && k < |s.schedules|
    requires FreshRow(cfg, r, s.nextGroup) && r.schedule == Some(k)
    requires o.schedule == k && o.execution == Some(|s.executions|) && IsOpen(o.state)
    requires !(HasOpenOccurrence(s, k) && s.schedules[k].skipOverlap)
    ensures Inv(cfg, s.(executions := s.executions + [r], nextGroup := s.nextGroup + 1,
                        occurrences := s.occurrences + [o]))
  {
    var occs' := s.occurrences + [o];
    ScheduledRowKeepsSkip(s, k, r);
    assert Covered(occs', k, |s.executions|) by {
      assert occs'[|s.occurrences|] == o;
    }
    AppendKeeps(cfg, s, [r], occs');
  }

  lemma RecordPassiveKeeps(cfg: Settings, s: State, k: nat, now: int)
    requires Inv(cfg, s) && IsDue(s, k, now) && s.schedules[k].cls.Passive?
    requires !(HasOpenOccurrence(s, k) && s.schedules[k].skipOverlap)
    requires now - s.schedules[k].nextRunAt.value <= ToleranceOf(s.schedules[k].intervalMinutes)
    ensures Inv(cfg, Record(s, k, true, now)) && Inv(cfg, Record(s, k, false, now))
  {
    var sched := s.schedules[k];
    var r := NewRow(sched.target, Some(s.nextGroup), Passive, Some(k), Queued, Some(now),
                    [Change(Some(Draft), Queued, now)]);
    var o := Occurrence(k, sched.nextRunAt.value, OccRunning, Some(|s.executions|));
    QueuedRowFresh(cfg, sched.target, Some(s.nextGroup), Some(k), s.nextGroup, now);
    ScheduledRowKeeps(cfg, s, k, r, o);
    SendNew(cfg, s.(executions := s.executions + [r], nextGroup := s.nextGroup + 1,
                    occurrences := s.occurrences + [o]));
  }

  lemma RecordActiveKeeps(cfg: Settings, s: State, k: nat, now: int)
    requires Inv(cfg, s) && IsDue(s, k, now) && s.schedules[k].cls.Active?
    requires !(HasOpenOccurrence(s, k) && s.schedules[k].skipOverlap)
    requires now - s.schedules[k].nextRunAt.value <= ToleranceOf(s.schedules[k].intervalMinutes)
    ensures Inv(cfg, Record(s, k, true, now))
  {
    var sched := s.schedules[k];
    var r := NewRow(sched.target, Some(s.nextGroup), Active, Some(k), AwaitingApproval, None, []);
    var o := Occurrence(k, sched.nextRunAt.value, OccAwaiting, Some(|s.executions|));
    ScheduledRowKeeps(cfg, s, k, r, o);
    var s1 := s.(executions := s.executions + [r], nextGroup := s.nextGroup + 1,
                 occurrences := s.occurrences + [o]);
    AddApprovalKeeps(cfg, s1, Approval(s.nextGroup, Some(|s.occurrences|), Pending, None));
  }

  lemma TickBodyKeeps(cfg: Settings, s: State, k: nat, attested: bool, now: int)
    requires Inv(cfg, s) && IsDue(s, k, now)
    ensures Inv(cfg, TickBody(s, k, attested, now))
  {
    var sched := s.schedules[k];
    var due := sched.nextRunAt.value;
    if Recorded(s, k, due) {
    } else if now - due > ToleranceOf(sched.intervalMinutes) {
      RecordMoreOccurrences(cfg, s, Occurrence(k, due, OccExpired, None));
    } else if HasOpenOccurrence(s, k) && sched.skipOverlap {
      RecordMoreOccurrences(cfg, s, Occurrence(k, due, OccSkipped, None));
    } else if sched.cls.Passive? {
      RecordPassiveKeeps(cfg, s, k, now);
    } else if attested {
      RecordActiveKeeps(cfg, s, k, now);
    } else {
      RecordMoreOccurrences(cfg, s, Occurrence(k, due, OccDenied, None));
    }
  }

  /** Changing a schedule row, but not its overlap policy. */
  lemma RescheduleKeeps(cfg: Settings, s: State, k: nat, sched: Schedule)
    requires Inv(cfg, s) && k < |s.schedules|
    requires sched.skipOverlap == s.schedules[k].skipOverlap
    ensures Inv(cfg, s.(schedules := s.schedules[k := sched]))
  {
    assert SkipOk(s.executions, s.schedules[k := sched]);
  }

  lemma TickBodyAppends(s: State, k: nat, attested: bool, now: int)
    requires IsDue(s, k, now)
    ensures s.executions <= TickBody(s, k, attested, now).executions
    ensures TickBody(s, k, attested, now).schedules == s.schedules
    ensures forall i :: |s.executions| <= i < |TickBody(s, k, attested, now).executions| ==>
                          var r := TickBody(s, k, attested, now).executions[i];
                          r.approvalExpiresAt.None? && !r.state.Running? && r.group == Some(s.nextGroup)
    ensures s.nextGroup <= TickBody(s, k, attested, now).nextGroup
  {}

  lemma TickOneSafe(cfg: Settings, s: State, k: nat, attested: bool, daily: int, dies: bool, now: int)
    requires Inv(cfg, s)
    ensures Safe(cfg, s, TickOne(s, k, attested, daily, dies, now))
  {
    if IsDue(s, k, now) {
      TickBodyKeeps(cfg, s, k, attested, now);
      TickBodyAppends(s, k, attested, now);
      var body := TickBody(s, k, attested, now);
      PrefixGrows(s.executions, body.executions);
      RescheduleKeeps(cfg, body, k, Advance(body, k, daily, now).schedules[k]);
    }
  }

  lemma AddScheduleSafe(cfg: Settings, s: State, sched: Schedule)
    requires Inv(cfg, s)
    ensures Safe(cfg, s, AddSchedule(s, sched))
  {
    assert SkipOk(s.executions, s.schedules + [sched]) by {
      forall i, j | 0 <= i < j < |s.executions| && s.executions[i].schedule.Some?
                    && s.executions[i].schedule == s.executions[j].schedule
                    && (s.schedules + [sched])[s.executions[i].schedule.value].skipOverlap
        ensures Terminal(s.executions[i].state) || Terminal(s.executions[j].state)
      {
        assert (s.schedules + [sched])[s.executions[i].schedule.value]
            == s.schedules[s.executions[i].schedule.value];
      }
    }
  }

  lemma EnableSafe(cfg: Settings, s: State, k: nat, enabled: bool, daily: int, now: int)
    requires Inv(cfg, s)
    ensures Safe(cfg, s, Enable(s, k, enabled, daily, now))
  {
    if k < |s.schedules| {
      RescheduleKeeps(cfg, s, k, Enable(s, k, enabled, daily, now).state.schedules[k]);
    }
  }
}
