/** The inductive invariant of the lifecycle, and its preservation by every step. */
module LifecycleInvariant {
  import opened Base
  import opened Executions
  import opened Lifecycle
  import opened Scheduling
  import opened RowInvariant

  ghost predicate RowsOk(cfg: Settings, rows: seq<Execution>) {
    forall i :: 0 <= i < |rows| ==> RowInv(cfg, rows[i])
  }

  /** A message exists only for an execution that has been QUEUED. */
  ghost predicate SentOk(rows: seq<Execution>, sent: set<nat>) {
    forall i :: i in sent ==>
                  i < |rows| && EverQueued(rows[i]) && !rows[i].state.AwaitingApproval?
  }

  ghost predicate BegunOk(rows: seq<Execution>, begun: set<nat>) {
    forall i :: i in begun ==> i < |rows| && (rows[i].state.Running? || Terminal(rows[i].state))
  }

  ghost predicate OneActiveStop(stops: seq<EmergencyStop>) {
    forall a, b :: 0 <= a < b < |stops| ==> !(IsActiveStop(stops[a]) && IsActiveStop(stops[b]))
  }

  /** A stop that is not cleared has flagged every RUNNING execution in its scope; once it
      is confirmed there is none. */
  ghost predicate StopHolds(rows: seq<Execution>, stop: EmergencyStop) {
    IsActiveStop(stop) ==>
      forall i: nat :: i < |rows| && InScope(stop.scope, i) && rows[i].state.Running? ==>
                         rows[i].cancelRequested && !stop.state.Confirmed?
  }

  ghost predicate StopsOk(rows: seq<Execution>, stops: seq<EmergencyStop>) {
    && OneActiveStop(stops)
    && forall k :: 0 <= k < |stops| ==> StopHolds(rows, stops[k])
  }

  ghost predicate CapacityOk(cfg: Settings, rows: seq<Execution>) {
    && (RunningRows(rows) == {} || |RunningRows(rows)| <= cfg.maxGlobal)
    && (forall t: nat ::
          RunningOn(rows, t) == {} || |RunningOn(rows, t)| <= cfg.maxPerTarget)
  }

  /** One approval window for the whole of a scan. */
  ghost predicate GroupsOk(rows: seq<Execution>, nextGroup: nat) {
    && (forall i :: 0 <= i < |rows| && rows[i].group.Some? ==> rows[i].group.value < nextGroup)
    && (forall i, j :: 0 <= i < |rows| && 0 <= j < |rows|
                       && rows[i].group.Some? && rows[i].group == rows[j].group ==>
                         rows[i].approvalExpiresAt == rows[j].approvalExpiresAt)
  }

  ghost predicate ApprovalOk(rows: seq<Execution>, occs: seq<Occurrence>, a: Approval) {
    && (a.state.Pending? ==>
          forall i: nat :: i < |rows| && InScan(rows[i], i, Group(a.group)) ==>
                             rows[i].state.AwaitingApproval? || Terminal(rows[i].state))
    && (a.occurrence.Some? ==>
          && a.occurrence.value < |occs| && occs[a.occurrence.value].execution.Some?
          && (var e := occs[a.occurrence.value].execution.value;
              && e < |rows| && InScan(rows[e], e, Group(a.group))
              && (forall i: nat :: i < |rows| && InScan(rows[i], i, Group(a.group)) ==> i == e)))
  }

  ghost predicate ApprovalsOk(rows: seq<Execution>, occs: seq<Occurrence>, approvals: seq<Approval>,
                              nextGroup: nat) {
    && (forall a :: 0 <= a < |approvals| ==>
                      approvals[a].group < nextGroup && ApprovalOk(rows, occs, approvals[a]))
    && (forall a, b :: 0 <= a < b < |approvals| ==> approvals[a].group != approvals[b].group)
  }

  ghost predicate Covered(occs: seq<Occurrence>, k: nat, i: nat) {
    exists x :: 0 <= x < |occs| && occs[x].schedule == k
                && occs[x].execution == Some(i) && IsOpen(occs[x].state)
  }

  /** Every unfinished scheduled execution is visible to `_has_open_occurrence`. */
  ghost predicate CoverageOk(rows: seq<Execution>, occs: seq<Occurrence>) {
    forall i: nat :: i < |rows| && rows[i].schedule.Some? && !Terminal(rows[i].state) ==>
                       Covered(occs, rows[i].schedule.value, i)
  }

  ghost predicate SkipOk(rows: seq<Execution>, schedules: seq<Schedule>) {
    && (forall i :: 0 <= i < |rows| && rows[i].schedule.Some? ==>
                      rows[i].schedule.value < |schedules|)
    && (forall i, j :: 0 <= i < j < |rows| && rows[i].schedule.Some?
                       && rows[i].schedule == rows[j].schedule
                       && schedules[rows[i].schedule.value].skipOverlap ==>
                         Terminal(rows[i].state) || Terminal(rows[j].state))
  }

  ghost predicate Inv(cfg: Settings, s: State) {
    && RowsOk(cfg, s.executions)
    && SentOk(s.executions, s.sent)
    && BegunOk(s.executions, s.begun)
    && StopsOk(s.executions, s.stops)
    && CapacityOk(cfg, s.executions)
    && GroupsOk(s.executions, s.nextGroup)
    && ApprovalsOk(s.executions, s.occurrences, s.approvals, s.nextGroup)
    && CoverageOk(s.executions, s.occurrences)
    && SkipOk(s.executions, s.schedules)
  }

  lemma InitialInv(cfg: Settings)
    ensures Inv(cfg, Initial)
  {
    assert RunningRows([]) == {};
    assert forall t: nat :: RunningOn([], t) == {};
  }

  // ---- the parts under an evolution of the rows ---------------------------------

  ghost predicate AllEvolve(rows: seq<Execution>, rows': seq<Execution>) {
    |rows'| == |rows| && forall i :: 0 <= i < |rows| ==> Evolves(rows[i], rows'[i])
  }

  ghost predicate AllCalm(rows: seq<Execution>, rows': seq<Execution>) {
    |rows'| == |rows| && forall i :: 0 <= i < |rows| ==> Calm(rows[i], rows'[i])
  }

  ghost predicate NothingStarts(rows: seq<Execution>, rows': seq<Execution>) {
    forall i :: 0 <= i < |rows'| && rows'[i].state.Running? ==>
                  i < |rows| && rows[i].state.Running?
  }

  lemma SentKept(rows: seq<Execution>, rows': seq<Execution>, sent: set<nat>)
    requires SentOk(rows, sent) && AllEvolve(rows, rows')
    ensures SentOk(rows', sent)
  {
    forall i | i in sent ensures EverQueued(rows'[i]) { assert Evolves(rows[i], rows'[i]); }
  }

  lemma CapacityKept(cfg: Settings, rows: seq<Execution>, rows': seq<Execution>)
    requires CapacityOk(cfg, rows) && AllEvolve(rows, rows') && NothingStarts(rows, rows')
    ensures CapacityOk(cfg, rows')
  {
    SubsetSize(RunningRows(rows'), RunningRows(rows));
    forall t: nat
      ensures RunningOn(rows', t) == {} || |RunningOn(rows', t)| <= cfg.maxPerTarget
    {
      SubsetSize(RunningOn(rows', t), RunningOn(rows, t));
    }
  }

  lemma SkipKept(rows: seq<Execution>, rows': seq<Execution>, schedules: seq<Schedule>)
    requires SkipOk(rows, schedules) && AllEvolve(rows, rows')
    ensures SkipOk(rows', schedules)
  {
    forall i, j | 0 <= i < j < |rows'| && rows'[i].schedule.Some?
                  && rows'[i].schedule == rows'[j].schedule
                  && schedules[rows'[i].schedule.value].skipOverlap
      ensures Terminal(rows'[i].state) || Terminal(rows'[j].state)
    {
      assert Evolves(rows[i], rows'[i]) && Evolves(rows[j], rows'[j]);
    }
  }

  /** Calm changes of the rows, and nothing else, keep the invariant. */
  lemma CalmKeeps(cfg: Settings, s: State, rows': seq<Execution>)
    requires Inv(cfg, s) && RowsOk(cfg, rows') && AllCalm(s.executions, rows')
    ensures Inv(cfg, s.(executions := rows'))
  {
    hide RowInv;
    assert AllEvolve(s.executions, rows');
    SentKept(s.executions, rows', s.sent);
    CapacityKept(cfg, s.executions, rows');
    SkipKept(s.executions, rows', s.schedules);
  }

  ghost predicate Grows(rows: seq<Execution>, rows': seq<Execution>) {
    |rows| <= |rows'| && forall i :: 0 <= i < |rows| ==> Evolves(rows[i], rows'[i])
  }

  /** No approval window is opened or moved, and a new row has none. */
  ghost predicate WindowsKept(rows: seq<Execution>, rows': seq<Execution>) {
    forall i :: 0 <= i < |rows'| ==>
                  rows'[i].approvalExpiresAt == if i < |rows| then rows[i].approvalExpiresAt else None
  }

  /** Row by row: no row raises, and the committed state keeps the invariant. */
  lemma SettleKeeps(cfg: Settings, s: State, rs: seq<RowResult>) returns (rows': seq<Execution>)
    requires Inv(cfg, s) && |rs| == |s.executions|
    requires forall i :: 0 <= i < |rs| ==>
                           rs[i].Row? && RowInv(cfg, rs[i].row) && Calm(s.executions[i], rs[i].row)
    ensures Settle(s, rs) == Outcome(Ok, s.(executions := rows'))
    ensures Inv(cfg, s.(executions := rows')) && AllCalm(s.executions, rows') && RowsOk(cfg, rows')
    ensures Grows(s.executions, rows') && WindowsKept(s.executions, rows')
    ensures NothingStarts(s.executions, rows')
    ensures forall i :: 0 <= i < |rs| ==> rs[i] == Row(rows'[i])
  {
    rows' := seq(|rs|, i requires 0 <= i < |rs| => rs[i].row);
    SettleCommits(s, rs, rows');
    CalmKeeps(cfg, s, rows');
  }

  /** A new row never joins a group that exists. */
  ghost predicate JoinsNoGroup(s: State, s': State) {
    && s.nextGroup <= s'.nextGroup
    && (forall i :: |s.executions| <= i < |s'.executions| && s'.executions[i].group.Some? ==>
                      s.nextGroup <= s'.executions[i].group.value)
  }

  /** A step never raises IllegalTransition, keeps the invariant, and only evolves rows. */
  ghost predicate SafeStep(cfg: Settings, s: State, o: Outcome) {
    && !o.reply.Crashed? && Inv(cfg, o.state)
    && Grows(s.executions, o.state.executions) && JoinsNoGroup(s, o.state)
  }

  /** Only an approval opens a window, and only a delivered message starts anything. */
  ghost predicate Safe(cfg: Settings, s: State, o: Outcome) {
    && SafeStep(cfg, s, o)
    && WindowsKept(s.executions, o.state.executions)
    && NothingStarts(s.executions, o.state.executions)
  }

  // ---- new messages ---------------------------------------------------------------

  lemma QueuedWasQueued(cfg: Settings, r: Execution)
    requires RowInv(cfg, r) && r.state.Queued?
    ensures EverQueued(r)
  {
    assert r.trail[|r.trail| - 1].to.Queued?;
  }

  lemma SendQueued(cfg: Settings, s: State, ids: set<nat>)
    requires Inv(cfg, s)
    requires forall i :: i in ids ==> i < |s.executions| && s.executions[i].state.Queued?
    ensures Inv(cfg, s.(sent := s.sent + ids))
  {
    forall i | i in s.sent + ids ensures EverQueued(s.executions[i]) {
      if i in ids { QueuedWasQueued(cfg, s.executions[i]); }
    }
  }

  // ---- start, pause, stop ---------------------------------------------------------

  lemma StartSafe(cfg: Settings, s: State, scan: ScanRef, now: int)
    requires Inv(cfg, s)
    ensures Safe(cfg, s, Start(cfg, s, scan, now))
  {
    hide StartRow, RowInv, Calm, Blocks;
    if !Exists(s.executions, scan) { return; }
    var rs := StartRows(cfg, s, scan, now);
    forall i | 0 <= i < |rs|
      ensures !rs[i].Crash?
      ensures rs[i].Row? ==> RowInv(cfg, rs[i].row) && Calm(s.executions[i], rs[i].row)
    {
      StartRowKeeps(cfg, s.executions[i], InScan(s.executions[i], i, scan),
                    Blocks(ActiveStop(s.stops), i), now);
    }
    if FirstAbort(rs).None? {
      var rows' := SettleKeeps(cfg, s, rs);
      var s' := s.(executions := rows');
      SendQueued(cfg, s', QueuedIn(rows', scan));
      assert Start(cfg, s, scan, now).state in {s', s'.(sent := s'.sent + QueuedIn(rows', scan))};
    } else {
      assert Start(cfg, s, scan, now) == Settle(s, rs);
      assert Settle(s, rs).state == s;
    }
  }

  lemma PauseSafe(cfg: Settings, s: State, scan: ScanRef, now: int)
    requires Inv(cfg, s)
    ensures Safe(cfg, s, Pause(cfg, s, scan, now))
  {
    hide PauseRow, RowInv, Calm;
    var rs := PauseRows(cfg, s, scan, now);
    forall i | 0 <= i < |rs|
      ensures rs[i].Row? && RowInv(cfg, rs[i].row) && Calm(s.executions[i], rs[i].row)
    {
      PauseRowKeeps(cfg, s.executions[i], InScan(s.executions[i], i, scan), now);
    }
    var rows' := SettleKeeps(cfg, s, rs);
  }

  lemma StopScanSafe(cfg: Settings, s: State, scan: ScanRef, now: int)
    requires Inv(cfg, s)
    ensures Safe(cfg, s, StopScan(cfg, s, scan, now))
  {
    hide CancelRow, RowInv, Calm;
    var rs := StopRows(cfg, s, scan, now);
    forall i | 0 <= i < |rs|
      ensures rs[i].Row? && RowInv(cfg, rs[i].row) && Calm(s.executions[i], rs[i].row)
    {
      CancelRowKeeps(cfg, s.executions[i], InScan(s.executions[i], i, scan), now);
    }
    var rows' := SettleKeeps(cfg, s, rs);
  }

  // ---- approvals ------------------------------------------------------------------------

  lemma ApproveRowsKeep(cfg: Settings, s: State, a: Approval, now: int) returns (rows': seq<Execution>)
    requires Inv(cfg, s) && AllAwaiting(s.executions, a.group)
    ensures Settle(s, ApproveRows(cfg, s, a, now)) == Outcome(Ok, s.(executions := rows'))
    ensures GrantedRows(cfg, s.executions, rows', a, now)
  {
    var rs := ApproveRows(cfg, s, a, now);
    forall i | 0 <= i < |rs|
      ensures rs[i].Row? && RowInv(cfg, rs[i].row) && Evolves(s.executions[i], rs[i].row)
      ensures if InScan(s.executions[i], i, Group(a.group)) then
                && rs[i].row.approvalExpiresAt == Some(now + cfg.approvalWindow)
                && rs[i].row.state == if a.occurrence.Some? then Queued else Approved
              else rs[i].row == s.executions[i]
    {
      ApproveRowKeeps(cfg, s.executions[i], InScan(s.executions[i], i, Group(a.group)),
                      a.occurrence.Some?, now);
    }
    rows' := seq(|rs|, i requires 0 <= i < |rs| => rs[i].row);
    SettleCommits(s, rs, rows');
  }

  /** Rewriting the state of the occurrence an approval belongs to. */
  lemma MarkKeepsCoverage(rows: seq<Execution>, occs: seq<Occurrence>, o: Option<nat>,
                          state: OccurrenceState)
    requires CoverageOk(rows, occs)
    requires IsOpen(state) || (o.Some? && o.value < |occs| ==>
                                 occs[o.value].execution.Some? &&
                                 var e := occs[o.value].execution.value;
                                 e < |rows| && Terminal(rows[e].state))
    ensures CoverageOk(rows, MarkOccurrence(occs, o, state))
  {
    var occs' := MarkOccurrence(occs, o, state);
    forall i: nat | i < |rows| && rows[i].schedule.Some? && !Terminal(rows[i].state)
      ensures Covered(occs', rows[i].schedule.value, i)
    {
      assert Covered(occs, rows[i].schedule.value, i);
      var x :| 0 <= x < |occs| && occs[x].schedule == rows[i].schedule.value
               && occs[x].execution == Some(i) && IsOpen(occs[x].state);
      assert occs'[x].execution == Some(i);
    }
  }

  lemma MarkKeepsApprovals(rows: seq<Execution>, occs: seq<Occurrence>, approvals: seq<Approval>,
                           nextGroup: nat, o: Option<nat>, state: OccurrenceState)
    requires ApprovalsOk(rows, occs, approvals, nextGroup)
    ensures ApprovalsOk(rows, MarkOccurrence(occs, o, state), approvals, nextGroup)
  {
    forall a | 0 <= a < |approvals|
      ensures ApprovalOk(rows, MarkOccurrence(occs, o, state), approvals[a])
    {
      assert ApprovalOk(rows, occs, approvals[a]);
    }
  }

  /** An approval that is no longer pending asks nothing of the states of its rows. */
  lemma DecideKeepsApprovals(rows: seq<Execution>, rows': seq<Execution>, occs: seq<Occurrence>,
                             approvals: seq<Approval>, nextGroup: nat, aid: nat, a': Approval)
    requires ApprovalsOk(rows, occs, approvals, nextGroup) && AllEvolve(rows, rows')
    requires aid < |approvals| && !a'.state.Pending?
    requires a'.group == approvals[aid].group && a'.occurrence == approvals[aid].occurrence
    requires forall i: nat :: i < |rows| && rows'[i] != rows[i] ==>
                                InScan(rows[i], i, Group(a'.group))
    ensures ApprovalsOk(rows', occs, approvals[aid := a'], nextGroup)
  {
    var approvals' := approvals[aid := a'];
    forall b | 0 <= b < |approvals'| ensures ApprovalOk(rows', occs, approvals'[b]) {
      assert ApprovalOk(rows, occs, approvals[b]);
      if b != aid {
        assert approvals[b].group != approvals[aid].group;
        assert forall i: nat :: i < |rows| && InScan(rows'[i], i, Group(approvals[b].group)) ==>
                                  rows'[i] == rows[i];
      }
    }
  }

  lemma GrantKeepsGroups(rows: seq<Execution>, rows': seq<Execution>, nextGroup: nat, g: nat,
                         expires: int)
    requires GroupsOk(rows, nextGroup) && AllEvolve(rows, rows')
    requires forall i: nat :: i < |rows| ==>
                                if InScan(rows[i], i, Group(g)) then
                                  rows'[i].approvalExpiresAt == Some(expires)
                                else rows'[i] == rows[i]
    ensures GroupsOk(rows', nextGroup)
  {}

  ghost predicate GrantedRows(cfg: Settings, rows: seq<Execution>, rows': seq<Execution>, a: Approval,
                              now: int)
  {
    && AllEvolve(rows, rows') && RowsOk(cfg, rows')
    && (forall i: nat :: i < |rows| ==>
                           if InScan(rows[i], i, Group(a.group)) then
                             && rows'[i].approvalExpiresAt == Some(now + cfg.approvalWindow)
                             && rows'[i].state == if a.occurrence.Some? then Queued else Approved
                           else rows'[i] == rows[i])
  }

  lemma GrantKeepsRows(cfg: Settings, s: State, rows': seq<Execution>, a: Approval, now: int)
    requires Inv(cfg, s) && GrantedRows(cfg, s.executions, rows', a, now)
    ensures SentOk(rows', s.sent) && BegunOk(rows', s.begun) && StopsOk(rows', s.stops)
    ensures CapacityOk(cfg, rows') && GroupsOk(rows', s.nextGroup) && SkipOk(rows', s.schedules)
    ensures CoverageOk(rows', s.occurrences)
  {
    SentKept(s.executions, rows', s.sent);
    CapacityKept(cfg, s.executions, rows');
    GrantKeepsGroups(s.executions, rows', s.nextGroup, a.group, now + cfg.approvalWindow);
    SkipKept(s.executions, rows', s.schedules);
  }

  lemma GrantKeeps(cfg: Settings, s: State, aid: nat, rows': seq<Execution>, a': Approval, now: int)
    requires Inv(cfg, s) && aid < |s.approvals| && !a'.state.Pending?
    requires a'.group == s.approvals[aid].group && a'.occurrence == s.approvals[aid].occurrence
    requires GrantedRows(cfg, s.executions, rows', a', now)
    ensures Inv(cfg, s.(executions := rows', approvals := s.approvals[aid := a'],
                        occurrences := MarkOccurrence(s.occurrences, a'.occurrence, OccRunning)))
  {
    GrantKeepsRows(cfg, s, rows', a', now);
    DecideKeepsApprovals(s.executions, rows', s.occurrences, s.approvals, s.nextGroup, aid, a');
    MarkKeepsApprovals(rows', s.occurrences, s.approvals[aid := a'], s.nextGroup, a'.occurrence,
                       OccRunning);
    MarkKeepsCoverage(rows', s.occurrences, a'.occurrence, OccRunning);
  }

  lemma ApproveSafe(cfg: Settings, s: State, aid: nat, now: int)
    requires Inv(cfg, s)
    ensures SafeStep(cfg, s, Approve(cfg, s, aid, now))
    ensures NothingStarts(s.executions, Approve(cfg, s, aid, now).state.executions)
  {
    hide ApproveRow;
    if Approve(cfg, s, aid, now).reply.Refused? { return; }
    var a := s.approvals[aid];
    var rows' := ApproveRowsKeep(cfg, s, a, now);
    var a' := a.(state := Granted, expiresAt := Some(now + cfg.approvalWindow));
    GrantKeeps(cfg, s, aid, rows', a', now);
    SendQueued(cfg, s.(executions := rows', approvals := s.approvals[aid := a'],
                       occurrences := MarkOccurrence(s.occurrences, a.occurrence, OccRunning)),
               QueuedIn(rows', Group(a.group)));
  }

  lemma DenySafe(cfg: Settings, s: State, aid: nat, now: int)
    requires Inv(cfg, s)
    ensures Safe(cfg, s, Deny(cfg, s, aid, now))
  {
    if aid >= |s.approvals| || !s.approvals[aid].state.Pending? { return; }
    var a := s.approvals[aid];
    var rs := DenyRows(cfg, s, a, now);
    forall i | 0 <= i < |rs|
      ensures rs[i].Row? && RowInv(cfg, rs[i].row) && Calm(s.executions[i], rs[i].row)
    {
      DenyRowKeeps(cfg, s.executions[i], InScan(s.executions[i], i, Group(a.group)), now);
    }
    var rows' := SettleKeeps(cfg, s, rs);
    var a' := a.(state := Rejected);
    assert AllEvolve(s.executions, rows');
    forall i: nat | i < |rows'| && rows'[i] != s.executions[i]
      ensures InScan(s.executions[i], i, Group(a.group))
    {
      assert rs[i] == Row(rows'[i]);
    }
    DecideKeepsApprovals(s.executions, rows', s.occurrences, s.approvals, s.nextGroup, aid, a');
    MarkKeepsApprovals(rows', s.occurrences, s.approvals[aid := a'], s.nextGroup, a.occurrence,
                       OccDenied);
    assert ApprovalOk(s.executions, s.occurrences, a);
    if a.occurrence.Some? {
      var e := s.occurrences[a.occurrence.value].execution.value;
      assert rs[e] == Row(rows'[e]);
      assert Terminal(rows'[e].state);
    }
    MarkKeepsCoverage(rows', s.occurrences, a.occurrence, OccDenied);
  }

  // ---- emergency stop ------------------------------------------------------------------

  lemma RequestStopSafe(cfg: Settings, s: State, scope: StopScope, now: int)
    requires Inv(cfg, s)
    ensures Safe(cfg, s, RequestStop(cfg, s, scope, now))
  {
    if ActiveStop(s.stops).Some? { return; }
    var rs := RequestRows(cfg, s, scope, now);
    forall i | 0 <= i < |rs|
      ensures rs[i].Row? && RowInv(cfg, rs[i].row) && Calm(s.executions[i], rs[i].row)
      ensures InScope(scope, i) && rs[i].row.state.Running? ==> rs[i].row.cancelRequested
    {
      CancelRowKeeps(cfg, s.executions[i], InScope(scope, i), now);
    }
    hide RowInv, CancelRow, Calm;
    var rows' := SettleKeeps(cfg, s, rs);
    assert forall i :: 0 <= i < |rs| ==> rs[i] == Row(rows'[i]);
    NewStopHolds(rows', s.stops, scope);
  }

  /** A stop whose scope has been flagged, beside stops that hold. */
  lemma NewStopHolds(rows: seq<Execution>, stops: seq<EmergencyStop>, scope: StopScope)
    requires StopsOk(rows, stops) && ActiveStop(stops).None?
    requires forall i: nat :: i < |rows| && InScope(scope, i) && rows[i].state.Running? ==>
                                rows[i].cancelRequested
    ensures StopsOk(rows, stops + [EmergencyStop(scope, Requested)])
  {
    var stops' := stops + [EmergencyStop(scope, Requested)];
    forall k | 0 <= k < |stops'| ensures StopHolds(rows, stops'[k]) {
      assert k < |stops| ==> stops'[k] == stops[k];
    }
    assert stops'[..|stops|] == stops;
  }

  lemma ReconcileSafe(cfg: Settings, s: State)
    requires Inv(cfg, s)
    ensures Safe(cfg, s, Reconcile(s))
  {
    var stops' := ReconcileStops(s.executions, s.stops);
    forall k | 0 <= k < |stops'| ensures StopHolds(s.executions, stops'[k]) {
      assert StopHolds(s.executions, s.stops[k]);
    }
  }

  lemma ClearStopSafe(cfg: Settings, s: State, k: nat)
    requires Inv(cfg, s)
    ensures Safe(cfg, s, ClearStop(s, k))
  {}

  // ---- the worker -------------------------------------------------------------------------

  lemma OneMore(slots: set<nat>, running: set<nat>, id: nat, limit: int)
    requires id in slots && running <= slots - {id} && |slots| - 1 < limit
    ensures |running + {id}| <= limit
  {
    SubsetSize(running, slots - {id});
  }

  lemma AdmissionKeepsCapacity(cfg: Settings, rows: seq<Execution>, id: nat, r: Execution)
    requires CapacityOk(cfg, rows) && id < |rows| && CapacityAvailable(cfg, rows, id)
    requires rows[id].state.Queued? && r.state.Running? && r.target == rows[id].target
    ensures CapacityOk(cfg, rows[id := r])
  {
    var rows' := rows[id := r];
    assert RunningRows(rows') == RunningRows(rows) + {id};
    OneMore(Slots(rows), RunningRows(rows), id, cfg.maxGlobal);
    forall t: nat
      ensures RunningOn(rows', t) == {} || |RunningOn(rows', t)| <= cfg.maxPerTarget
    {
      AdmissionOnTarget(cfg, rows, id, r, t);
    }
  }

  lemma AdmissionOnTarget(cfg: Settings, rows: seq<Execution>, id: nat, r: Execution, t: nat)
    requires CapacityOk(cfg, rows) && id < |rows| && CapacityAvailable(cfg, rows, id)
    requires rows[id].state.Queued? && r.state.Running? && r.target == rows[id].target
    ensures RunningOn(rows[id := r], t) == {} || |RunningOn(rows[id := r], t)| <= cfg.maxPerTarget
  {
    if t == r.target {
      assert RunningOn(rows[id := r], t) == RunningOn(rows, t) + {id};
      OneMore(TargetSlots(rows, t), RunningOn(rows, t), id, cfg.maxPerTarget);
    } else {
      assert RunningOn(rows[id := r], t) == RunningOn(rows, t);
    }
  }

  /** An admission: one QUEUED row that no stop blocks becomes RUNNING within capacity. */
  lemma AdmissionKeeps(cfg: Settings, s: State, id: nat, r': Execution)
    requires Inv(cfg, s) && id < |s.executions|
    requires RowInv(cfg, r') && Evolves(s.executions[id], r')
    requires s.executions[id].state.Queued? && r'.state.Running?
    requires r'.approvalExpiresAt == s.executions[id].approvalExpiresAt
    requires CapacityAvailable(cfg, s.executions, id) && !Blocks(ActiveStop(s.stops), id)
    ensures Inv(cfg, s.(executions := s.executions[id := r']))
  {
    hide RowInv, CapacityAvailable, Blocks;
    var rows, rows' := s.executions, s.executions[id := r'];
    assert AllEvolve(rows, rows');
    hide Evolves;
    SentKept(rows, rows', s.sent);
    AdmissionKeepsCapacity(cfg, rows, id, r');
    AdmissionKeepsStops(rows, s.stops, id, r');
    AdmissionKeepsApprovals(rows, rows', s.occurrences, s.approvals, s.nextGroup, id);
    SkipKept(rows, rows', s.schedules);
  }

  lemma AdmissionKeepsStops(rows: seq<Execution>, stops: seq<EmergencyStop>, id: nat, r': Execution)
    requires StopsOk(rows, stops) && id < |rows| && !Blocks(ActiveStop(stops), id)
    ensures StopsOk(rows[id := r'], stops)
  {
    NotBlockedByAny(stops, id);
    forall k | 0 <= k < |stops| ensures StopHolds(rows[id := r'], stops[k]) {
      assert StopHolds(rows, stops[k]);
    }
  }

  lemma OneRowGrows(rows: seq<Execution>, id: nat, r': Execution)
    requires id < |rows| && Evolves(rows[id], r')
    requires r'.approvalExpiresAt == rows[id].approvalExpiresAt
    ensures Grows(rows, rows[id := r']) && WindowsKept(rows, rows[id := r'])
  {}

  /** The row a delivered message leaves, in a state that keeps the invariant. */
  lemma DeliveredRow(cfg: Settings, s: State, id: nat, scopeOk: bool, now: int) returns (r': Execution)
    requires Inv(cfg, s) && id in s.sent
    ensures PreflightRow(cfg, s.executions[id], Blocks(ActiveStop(s.stops), id),
                         CapacityAvailable(cfg, s.executions, id), scopeOk, now).result == Row(r')
    ensures Evolves(s.executions[id], r') && r'.approvalExpiresAt == s.executions[id].approvalExpiresAt
    ensures Inv(cfg, s.(executions := s.executions[id := r']))
  {
    var r := s.executions[id];
    var stop := ActiveStop(s.stops);
    var capacity := CapacityAvailable(cfg, s.executions, id);
    PreflightRowKeeps(cfg, r, Blocks(stop, id), capacity, scopeOk, now);
    assert id < |s.executions| && !r.state.AwaitingApproval? && RowInv(cfg, r);
    hide PreflightRow, RowInv, Evolves, Inv, CapacityAvailable, Blocks;
    r' := PreflightRow(cfg, r, Blocks(stop, id), capacity, scopeOk, now).result.row;
    PreflightKeeps(cfg, s, id, r');
  }

  lemma PreflightKeeps(cfg: Settings, s: State, id: nat, r': Execution)
    requires Inv(cfg, s) && id < |s.executions| && !s.executions[id].state.AwaitingApproval?
    requires RowInv(cfg, r') && Evolves(s.executions[id], r')
    requires r'.approvalExpiresAt == s.executions[id].approvalExpiresAt
    requires r'.state.Running? && !s.executions[id].state.Running? ==>
               && !Blocks(ActiveStop(s.stops), id) && s.executions[id].state.Queued?
               && CapacityAvailable(cfg, s.executions, id)
    ensures Inv(cfg, s.(executions := s.executions[id := r']))
  {
    var r := s.executions[id];
    assert RowInv(cfg, r);
    hide RowInv, Evolves, CapacityAvailable, Blocks;
    if r'.state.Running? && !r.state.Running? {
      AdmissionKeeps(cfg, s, id, r');
    } else {
      AfterPreflightCalm(cfg, r, r');
      CalmKeeps(cfg, s, s.executions[id := r']);
    }
  }

  lemma RunsMeansRunning(cfg: Settings, r: Execution, blocked: bool, capacity: bool, scopeOk: bool,
                         now: int)
    requires RowInv(cfg, r) && !r.state.AwaitingApproval?
    ensures var p := PreflightRow(cfg, r, blocked, capacity, scopeOk, now);
            p.runs ==> p.result.Row? && p.result.row.state.Running?
  {
    PreflightRowKeeps(cfg, r, blocked, capacity, scopeOk, now);
  }

  lemma DeliverSafe(cfg: Settings, s: State, id: nat, scopeOk: bool, now: int)
    requires Inv(cfg, s)
    ensures SafeStep(cfg, s, Deliver(cfg, s, id, scopeOk, now))
    ensures WindowsKept(s.executions, Deliver(cfg, s, id, scopeOk, now).state.executions)
  {
    if id in s.sent && id < |s.executions| {
      var r' := DeliveredRow(cfg, s, id, scopeOk, now);
      OneRowGrows(s.executions, id, r');
      hide PreflightRow, RowInv, Evolves;
      RunsMeansRunning(cfg, s.executions[id], Blocks(ActiveStop(s.stops), id),
                       CapacityAvailable(cfg, s.executions, id), scopeOk, now);
      var s' := s.(executions := s.executions[id := r']);
      assert BegunOk(s'.executions, s'.begun);
      assert r'.state.Running? ==> Inv(cfg, s'.(begun := s'.begun + {id}));
    }
  }

  lemma AfterPreflightCalm(cfg: Settings, r: Execution, r': Execution)
    requires RowInv(cfg, r) && Evolves(r, r') && !r.state.AwaitingApproval?
    requires r'.approvalExpiresAt == r.approvalExpiresAt
    requires r'.state.Running? ==> r.state.Running?
    ensures Calm(r, r')
  {}

  /** With one active stop, not being blocked by it is not being blocked at all. */
  lemma {:induction false} NotBlockedByAny(stops: seq<EmergencyStop>, id: nat)
    requires OneActiveStop(stops) && !Blocks(ActiveStop(stops), id)
    ensures forall k :: 0 <= k < |stops| && IsActiveStop(stops[k]) ==> !InScope(stops[k].scope, id)
  {
    if stops != [] && !IsActiveStop(stops[|stops| - 1]) {
      var front := stops[..|stops| - 1];
      assert forall k :: 0 <= k < |front| ==> front[k] == stops[k];
      NotBlockedByAny(front, id);
      forall k | 0 <= k < |stops| && IsActiveStop(stops[k]) ensures !InScope(stops[k].scope, id) {
        assert front[k] == stops[k];
      }
    }
  }

  lemma AdmissionKeepsApprovals(rows: seq<Execution>, rows': seq<Execution>, occs: seq<Occurrence>,
                                approvals: seq<Approval>, nextGroup: nat, id: nat)
    requires ApprovalsOk(rows, occs, approvals, nextGroup) && AllEvolve(rows, rows')
    requires id < |rows| && rows[id].state.Queued?
    requires forall i :: 0 <= i < |rows| && i != id ==> rows'[i] == rows[i]
    ensures ApprovalsOk(rows', occs, approvals, nextGroup)
  {
    forall a | 0 <= a < |approvals| ensures ApprovalOk(rows', occs, approvals[a]) {
      assert ApprovalOk(rows, occs, approvals[a]);
    }
  }

  lemma PersistSafe(cfg: Settings, s: State, id: nat, parsed: bool, incomplete: bool, now: int)
    requires Inv(cfg, s)
    ensures Safe(cfg, s, Persist(cfg, s, id, parsed, incomplete, now))
  {
    hide PersistRow;
    if id in s.begun {
      PersistRowKeeps(cfg, s.executions[id], parsed, incomplete, now);
      var x := PersistRow(cfg, s.executions[id], parsed, incomplete, now);
      CalmKeeps(cfg, s, s.executions[id := x.row]);
    }
  }

  // ---- the sweep ------------------------------------------------------------------------------

  lemma EvolvesTwice(r: Execution, r': Execution, r'': Execution)
    requires Evolves(r, r') && Evolves(r', r'')
    ensures Evolves(r, r'')
  {}

  lemma GrowsTwice(rows: seq<Execution>, rows': seq<Execution>, rows'': seq<Execution>)
    requires Grows(rows, rows') && Grows(rows', rows'')
    ensures Grows(rows, rows'')
  {
    forall i | 0 <= i < |rows| ensures Evolves(rows[i], rows''[i]) {
      EvolvesTwice(rows[i], rows'[i], rows''[i]);
    }
  }

  lemma ExpirePhase(cfg: Settings, s: State, now: int) returns (rows': seq<Execution>)
    requires Inv(cfg, s)
    ensures Settle(s, ExpireRows(cfg, s.executions, now)) == Outcome(Ok, s.(executions := rows'))
    ensures Inv(cfg, s.(executions := rows'))
    ensures Grows(s.executions, rows') && WindowsKept(s.executions, rows')
    ensures NothingStarts(s.executions, rows')
  {
    var rs := ExpireRows(cfg, s.executions, now);
    forall i | 0 <= i < |rs|
      ensures rs[i].Row? && RowInv(cfg, rs[i].row) && Calm(s.executions[i], rs[i].row)
    {
      ExpireRowKeeps(cfg, s.executions[i], now);
    }
    rows' := SettleKeeps(cfg, s, rs);
  }

  lemma TimeoutPhase(cfg: Settings, s: State, now: int) returns (rows': seq<Execution>)
    requires Inv(cfg, s)
    ensures Settle(s, TimeoutRows(cfg, s.executions, now)) == Outcome(Ok, s.(executions := rows'))
    ensures Inv(cfg, s.(executions := rows'))
    ensures Grows(s.executions, rows') && WindowsKept(s.executions, rows')
    ensures NothingStarts(s.executions, rows')
  {
    var rs := TimeoutRows(cfg, s.executions, now);
    forall i | 0 <= i < |rs|
      ensures rs[i].Row? && RowInv(cfg, rs[i].row) && Calm(s.executions[i], rs[i].row)
    {
      TimeoutRowKeeps(cfg, s.executions[i], now);
    }
    rows' := SettleKeeps(cfg, s, rs);
  }

  lemma SweepSafe(cfg: Settings, s: State, now: int)
    requires Inv(cfg, s)
    ensures Safe(cfg, s, Sweep(cfg, s, now))
  {
    hide RowInv, ExpireRow, TimeoutRow, ReconcileStop, CapacityAvailable;
    var rows1 := ExpirePhase(cfg, s, now);
    var o := s.(executions := rows1);
    ReconcileSafe(cfg, o);
    var s1 := Reconcile(o).state;
    var rows2 := TimeoutPhase(cfg, s1, now);
    SendQueued(cfg, s1.(executions := rows2), Requeued(cfg, rows2));
    GrowsTwice(s.executions, rows1, rows2);
  }
}
