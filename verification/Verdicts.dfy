/** What each transaction of the lifecycle does in every reachable state: which reply it gives, what
becomes of every execution, and what else changes. Nothing here refers to how a row is computed. */
module Verdicts {
  import opened Base
  import opened Executions
  import opened Lifecycle
  import opened RowInvariant
  import opened LifecycleInvariant
  import opened LifecycleRuns

  // ---- words -------------------------------------------------------------------------------

  /** A row that has moved to another state, and the event that says so. */
  function Entered(r: Execution, to: ScanState, now: int): Execution {
    r.(state := to, trail := r.trail + [Change(Some(r.state), to, now)])
  }

  /** The same for a final state. */
  function Closed(r: Execution, to: ScanState, now: int): Execution {
    Entered(r, to, now).(finishedAt := Some(now))
  }

  predicate Named(r: Execution, i: nat, scan: ScanRef) {
    (scan.Group? && r.group == Some(scan.g)) || (scan.Single? && i == scan.id)
  }

  predicate Reaches(scope: StopScope, i: nat) { scope.All? || i in scope.ids }

  /** Some stop that is not cleared reaches the execution. */
  predicate Stopped(s: State, i: nat) {
    exists k :: 0 <= k < |s.stops| && !s.stops[k].state.Cleared? && Reaches(s.stops[k].scope, i)
  }

  predicate Overdue(r: Execution, now: int) {
    r.approvalExpiresAt.Some? && now > r.approvalExpiresAt.value
  }

  predicate Startable(r: Execution) { r.state.Draft? || r.state.Approved? }

  /** Fewer than the limits of other executions are QUEUED or RUNNING. */
  predicate SlotFree(cfg: Settings, rows: seq<Execution>, i: nat)
    requires i < |rows|
  {
    && |set j: nat | j < |rows| && j != i && (rows[j].state.Queued? || rows[j].state.Running?)| < cfg.maxGlobal
    && |set j: nat | j < |rows| && j != i && (rows[j].state.Queued? || rows[j].state.Running?)
                     && rows[j].target == rows[i].target| < cfg.maxPerTarget
  }

  lemma BlocksMeansStopped(s: State, i: nat)
    requires OneActiveStop(s.stops)
    ensures Blocks(ActiveStop(s.stops), i) <==> Stopped(s, i)
  {
    if !Blocks(ActiveStop(s.stops), i) {
      NotBlockedByAny(s.stops, i);
    } else {
      var k := ActiveIsAmong(s.stops);
    }
  }

  lemma {:induction false} ActiveIsAmong(stops: seq<EmergencyStop>) returns (k: nat)
    requires ActiveStop(stops).Some?
    ensures k < |stops| && stops[k] == ActiveStop(stops).value
  {
    k := |stops| - 1;
    if !IsActiveStop(stops[k]) { k := ActiveIsAmong(stops[..k]); }
  }

  lemma CapacityMeansSlotFree(cfg: Settings, rows: seq<Execution>, i: nat)
    requires RowsOk(cfg, rows) && i < |rows| && rows[i].state.Queued?
    ensures CapacityAvailable(cfg, rows, i) <==> SlotFree(cfg, rows, i)
  {
    hide CapacityAvailable;
    forall j | 0 <= j < |rows|
      ensures Occupying(rows[j].state) <==> rows[j].state.Queued? || rows[j].state.Running?
    {
      assert RowInv(cfg, rows[j]);
    }
    assert (set j: nat | j < |rows| && j != i && Occupying(rows[j].state))
        == (set j: nat | j < |rows| && j != i && (rows[j].state.Queued? || rows[j].state.Running?));
    assert (set j: nat | j < |rows| && j != i && Occupying(rows[j].state) && rows[j].target == rows[i].target)
        == (set j: nat | j < |rows| && j != i && (rows[j].state.Queued? || rows[j].state.Running?)
                         && rows[j].target == rows[i].target);
    CapacityCountsOthers(cfg, rows, i);
  }

  // ---- the end of a run ----------------------------------------------------------------------

  /** A worker that reaches its persist step: what was finished meanwhile stays. Otherwise the
      execution ends FAILED if its output could not be normalised, TIMED_OUT if its time was up,
      CANCELLED if that was asked for, and COMPLETED if none of these holds. */
  lemma PersistVerdict(cfg: Settings, es: seq<Event>, id: nat, parsed: bool, incomplete: bool, now: int)
    requires id in Reached(cfg, es).begun
    ensures id < |Reached(cfg, es).executions|
    ensures (var s := Reached(cfg, es);
             var r := s.executions[id];
             var o := Step(cfg, s, Event(DoPersist(id, parsed, incomplete), now));
             var r' :=
               if !r.state.Running? then r
               else if !parsed then Closed(r, Failed, now)
               else if now > r.startedAt.GetOr(now) + cfg.maxRuntime then
                 Closed(r, TimedOut, now).(partial := true, persisted := 1)
               else if r.cancelRequested then
                 Closed(Entered(r, Cancelling, now), Cancelled, now).(partial := true, persisted := 1)
               else Closed(r, Completed, now).(partial := incomplete, persisted := 1);
             && (r.state.Running? ==> r.startedAt.Some?)
             && o == Outcome(Ok, s.(executions := s.executions[id := r'])))
  {
    ReachedInv(cfg, es);
    var s := Reached(cfg, es);
    assert RowInv(cfg, s.executions[id]);
    FinishedRow(cfg, s.executions[id], parsed, incomplete, now);
    hide PersistRow;
  }

  lemma FinishedRow(cfg: Settings, r: Execution, parsed: bool, incomplete: bool, now: int)
    requires RowInv(cfg, r) && (r.state.Running? || Terminal(r.state))
    ensures PersistRow(cfg, r, parsed, incomplete, now)
         == Row(if !r.state.Running? then r
                else if !parsed then Closed(r, Failed, now)
                else if now > r.startedAt.GetOr(now) + cfg.maxRuntime then
                  Closed(r, TimedOut, now).(partial := true, persisted := 1)
                else if r.cancelRequested then
                  Closed(Entered(r, Cancelling, now), Cancelled, now).(partial := true, persisted := 1)
                else Closed(r, Completed, now).(partial := incomplete, persisted := 1))
  {
    hide TrailOk, GrantOk;
  }

  // ---- start, pause, stop ----------------------------------------------------------------------

  /** Start is refused when the scan does not exist, or a stop reaches one of its executions that
      could start. Otherwise exactly those that could start move: to QUEUED, or to EXPIRED when
      their window is over. Without one for the queue the answer is a conflict. */
  lemma StartVerdict(cfg: Settings, es: seq<Event>, scan: ScanRef, now: int)
    ensures (var s := Reached(cfg, es);
             var o := Step(cfg, s, Event(DoStart(scan), now));
             && (o.reply.Refused? <==>
                 || (forall i: nat :: i < |s.executions| ==> !Named(s.executions[i], i, scan))
                 || (exists i: nat :: i < |s.executions| && Named(s.executions[i], i, scan)
                                      && Startable(s.executions[i]) && Stopped(s, i)))
             && (o.reply.Refused? ==> o.state == s)
             && (o.reply.Ok? <==>
                 && !o.reply.Refused?
                 && exists i: nat :: i < |s.executions| && Named(s.executions[i], i, scan)
                                     && Startable(s.executions[i]) && !Overdue(s.executions[i], now))
             && (o.reply.Refused? || o.reply.Ok? || o.reply.OkConflict?)
             && (!o.reply.Refused? ==>
                 var rows := o.state.executions;
                 && |rows| == |s.executions|
                 && (forall i: nat :: i < |rows| ==>
                       var r := s.executions[i];
                       rows[i] == if !Named(r, i, scan) || !Startable(r) then r
                                  else if Overdue(r, now) then Closed(r, Expired, now)
                                  else Entered(r, Queued, now).(queuedAt := Some(now)))
                 && o.state == s.(executions := rows, sent := o.state.sent)
                 && o.state.sent == s.sent + if o.reply.OkConflict? then {} else
                      (set i: nat | i < |rows| && Named(rows[i], i, scan) && rows[i].state.Queued?)))
  {
    ReachedInv(cfg, es);
    var s := Reached(cfg, es);
    StartRowsAre(cfg, s, scan, now);
    hide Inv, Start, StartRows, StartedAs;
    StartRefused(cfg, s, scan, now);
    if !Start(cfg, s, scan, now).reply.Refused? { var rows := StartCommits(cfg, s, scan, now); }
    hide Stopped, Overdue, Named;
  }

  lemma StartRowsAre(cfg: Settings, s: State, scan: ScanRef, now: int)
    requires RowsOk(cfg, s.executions) && OneActiveStop(s.stops)
    ensures forall i: nat :: i < |s.executions| ==> StartRows(cfg, s, scan, now)[i] == StartedAs(s, scan, i, now)
  {
    hide StartRow, Stopped;
    forall i: nat | i < |s.executions|
      ensures StartRows(cfg, s, scan, now)[i] == StartedAs(s, scan, i, now)
    {
      BlocksMeansStopped(s, i);
      assert RowInv(cfg, s.executions[i]);
      StartedRow(cfg, s.executions[i], Named(s.executions[i], i, scan), Stopped(s, i), now);
    }
  }

  lemma StartRefused(cfg: Settings, s: State, scan: ScanRef, now: int)
    requires forall i: nat :: i < |s.executions| ==> StartRows(cfg, s, scan, now)[i] == StartedAs(s, scan, i, now)
    ensures (var o := Start(cfg, s, scan, now);
             && (o.reply.Refused? <==>
                 || (forall i: nat :: i < |s.executions| ==> !Named(s.executions[i], i, scan))
                 || (exists i: nat :: i < |s.executions| && Named(s.executions[i], i, scan)
                                      && Startable(s.executions[i]) && Stopped(s, i)))
             && (o.reply.Refused? ==> o.state == s)
             && (o.reply.Refused? <==> !Exists(s.executions, scan) || FirstAbort(StartRows(cfg, s, scan, now)).Some?))
  {
    hide StartRows, Stopped, Overdue;
    var rs := StartRows(cfg, s, scan, now);
    assert forall i: nat :: i < |s.executions| ==>
        (Named(s.executions[i], i, scan) <==> InScan(s.executions[i], i, scan));
    assert forall i: nat :: i < |rs| ==> !rs[i].Crash?;
    if i: nat :| i < |rs| && Named(s.executions[i], i, scan) && Startable(s.executions[i]) && Stopped(s, i) {
      assert rs[i].Refuse?;
      assert Exists(s.executions, scan);
    }
  }

  lemma StartCommits(cfg: Settings, s: State, scan: ScanRef, now: int) returns (rows: seq<Execution>)
    requires forall i: nat :: i < |s.executions| ==> StartRows(cfg, s, scan, now)[i] == StartedAs(s, scan, i, now)
    requires !Start(cfg, s, scan, now).reply.Refused?
    ensures (var o := Start(cfg, s, scan, now);
             && rows == o.state.executions && |rows| == |s.executions|
             && (forall i: nat :: i < |rows| ==>
                   var r := s.executions[i];
                   rows[i] == if !Named(r, i, scan) || !Startable(r) then r
                              else if Overdue(r, now) then Closed(r, Expired, now)
                              else Entered(r, Queued, now).(queuedAt := Some(now)))
             && (o.reply.Ok? <==>
                 exists i: nat :: i < |s.executions| && Named(s.executions[i], i, scan)
                                  && Startable(s.executions[i]) && !Overdue(s.executions[i], now))
             && (o.reply.Ok? || o.reply.OkConflict?)
             && o.state == s.(executions := rows, sent := o.state.sent)
             && o.state.sent == s.sent + if o.reply.OkConflict? then {} else
                  (set i: nat | i < |rows| && Named(rows[i], i, scan) && rows[i].state.Queued?))
  {
    StartRefused(cfg, s, scan, now);
    hide StartRows, Stopped, Overdue;
    var rs := StartRows(cfg, s, scan, now);
    rows := seq(|rs|, i requires 0 <= i < |rs| => rs[i].row);
    SettleCommits(s, rs, rows);
    hide Settle, FirstAbort;
    StartedOnly(s, scan, rows, now);
    hide StartedAs;
    if i: nat :| i < |rs| && Named(s.executions[i], i, scan) && Startable(s.executions[i])
                 && !Overdue(s.executions[i], now)
    {
      assert i in StartedIn(s.executions, rows);
    }
    if StartedIn(s.executions, rows) != {} { var i :| i in StartedIn(s.executions, rows); }
    assert QueuedIn(rows, scan) == set i: nat | i < |rows| && Named(rows[i], i, scan) && rows[i].state.Queued?;
  }

  lemma StartedOnly(s: State, scan: ScanRef, rows: seq<Execution>, now: int)
    requires |rows| == |s.executions|
    requires forall i: nat :: i < |rows| ==> StartedAs(s, scan, i, now) == Row(rows[i])
    ensures forall i: nat :: i < |rows| ==>
              var r := s.executions[i];
              rows[i] == if !Named(r, i, scan) || !Startable(r) then r
                         else if Overdue(r, now) then Closed(r, Expired, now)
                         else Entered(r, Queued, now).(queuedAt := Some(now))
    ensures forall i: nat :: i < |rows| ==>
              (rows[i].state.Queued? && !s.executions[i].state.Queued? <==>
               Named(s.executions[i], i, scan) && Startable(s.executions[i]) && !Overdue(s.executions[i], now))
    ensures forall i: nat :: i < |rows| ==> (InScan(rows[i], i, scan) <==> Named(rows[i], i, scan))
  {
  }

  function StartedAs(s: State, scan: ScanRef, i: nat, now: int): RowResult
    requires i < |s.executions|
  {
    var r := s.executions[i];
    if !Named(r, i, scan) || !Startable(r) then Row(r)
    else if Stopped(s, i) then Refuse
    else if Overdue(r, now) then Row(Closed(r, Expired, now))
    else Row(Entered(r, Queued, now).(queuedAt := Some(now)))
  }

  lemma StartedRow(cfg: Settings, r: Execution, inScan: bool, blocked: bool, now: int)
    requires RowInv(cfg, r)
    ensures StartRow(cfg, r, inScan, blocked, now)
         == if !inScan || !Startable(r) then Row(r)
            else if blocked then Refuse
            else if Overdue(r, now) then Row(Closed(r, Expired, now))
            else Row(Entered(r, Queued, now).(queuedAt := Some(now)))
  {
    hide TrailOk, GrantOk;
  }

  /** Pause is refused when nothing of the scan is QUEUED. Otherwise exactly that goes back to
      where it was queued from. */
  lemma PauseVerdict(cfg: Settings, es: seq<Event>, scan: ScanRef, now: int)
    ensures (var s := Reached(cfg, es);
             var o := Step(cfg, s, Event(DoPause(scan), now));
             var rows := o.state.executions;
             && (o.reply.Refused? <==>
                 forall i: nat :: i < |s.executions| ==>
                                    !(Named(s.executions[i], i, scan) && s.executions[i].state.Queued?))
             && (o.reply.Refused? || o.reply.Ok?)
             && o.state == s.(executions := rows) && |rows| == |s.executions|
             && (forall i: nat :: i < |rows| ==>
                   var r := s.executions[i];
                   rows[i] == if !Named(r, i, scan) || !r.state.Queued? then r
                              else Entered(r, if r.cls.Active? then Approved else Draft, now)
                                   .(queuedAt := None)))
  {
    var s := Reached(cfg, es);
    var rs := PauseRows(cfg, s, scan, now);
    var rows := PausedRows(cfg, s, scan, now);
    hide Reached, PauseRows;
    forall i: nat | i < |rs|
      ensures Named(s.executions[i], i, scan) && s.executions[i].state.Queued? <==> i in QueuedIn(s.executions, scan)
    {}
    if QueuedIn(s.executions, scan) == {} { assert rows == s.executions; }
  }

  lemma PausedRows(cfg: Settings, s: State, scan: ScanRef, now: int) returns (rows: seq<Execution>)
    ensures Settle(s, PauseRows(cfg, s, scan, now)) == Outcome(Ok, s.(executions := rows))
    ensures |rows| == |s.executions|
    ensures forall i: nat :: i < |rows| ==>
              var r := s.executions[i];
              rows[i] == if !Named(r, i, scan) || !r.state.Queued? then r
                         else Entered(r, if r.cls.Active? then Approved else Draft, now).(queuedAt := None)
  {
    var rs := PauseRows(cfg, s, scan, now);
    rows := seq(|rs|, i requires 0 <= i < |rs| =>
      var r := s.executions[i];
      if !Named(r, i, scan) || !r.state.Queued? then r
      else Entered(r, if r.cls.Active? then Approved else Draft, now).(queuedAt := None));
    hide PauseRow, Entered;
    forall i | 0 <= i < |rs| ensures rs[i] == Row(rows[i]) {
      PausedRow(cfg, s.executions[i], InScan(s.executions[i], i, scan), now);
    }
    SettleCommits(s, rs, rows);
  }

  lemma PausedRow(cfg: Settings, r: Execution, inScan: bool, now: int)
    ensures PauseRow(cfg, r, inScan, now)
         == Row(if !inScan || !r.state.Queued? then r
                else Entered(r, if r.cls.Active? then Approved else Draft, now).(queuedAt := None))
  {
  }

  /** What a stop makes of an execution that it reaches. */
  function StoppedAs(r: Execution, now: int): Execution {
    if Terminal(r.state) then r
    else if r.state.Running? then r.(cancelRequested := true)
    else Closed(r, Cancelled, now).(cancelRequested := true)
  }

  /** Stop, and cancel on one execution, are refused when nothing of the scan is unfinished.
      Otherwise what runs is asked to cancel, and everything else that is unfinished ends. */
  lemma StopVerdict(cfg: Settings, es: seq<Event>, scan: ScanRef, now: int)
    ensures (var s := Reached(cfg, es);
             var o := Step(cfg, s, Event(DoStop(scan), now));
             var rows := o.state.executions;
             && (o.reply.Refused? <==>
                 forall i: nat :: i < |s.executions| && Named(s.executions[i], i, scan) ==>
                                    Terminal(s.executions[i].state))
             && (o.reply.Refused? || o.reply.Ok?)
             && o.state == s.(executions := rows) && |rows| == |s.executions|
             && (forall i: nat :: i < |rows| ==>
                   rows[i] == if Named(s.executions[i], i, scan) then StoppedAs(s.executions[i], now)
                              else s.executions[i]))
  {
    ReachedInv(cfg, es);
    var s := Reached(cfg, es);
    var rs := StopRows(cfg, s, scan, now);
    var rows := seq(|rs|, i requires 0 <= i < |rs| =>
      if Named(s.executions[i], i, scan) then StoppedAs(s.executions[i], now) else s.executions[i]);
    forall i | 0 <= i < |rs| ensures rs[i] == Row(rows[i]) {
      assert RowInv(cfg, s.executions[i]);
      StoppedRow(cfg, s.executions[i], Named(s.executions[i], i, scan), now);
    }
    SettleCommits(s, rs, rows);
    if LiveIn(s.executions, scan) == {} {
      forall i: nat | i < |rs| && Named(s.executions[i], i, scan) ensures Terminal(s.executions[i].state) {
        assert i !in LiveIn(s.executions, scan);
      }
      assert rows == s.executions;
    } else {
      var i :| i in LiveIn(s.executions, scan);
    }
  }

  lemma StoppedRow(cfg: Settings, r: Execution, chosen: bool, now: int)
    requires RowInv(cfg, r)
    ensures CancelRow(cfg, r, chosen, now) == Row(if chosen then StoppedAs(r, now) else r)
  {
    hide TrailOk, GrantOk;
  }

  /** An emergency stop is refused while another is not cleared. Otherwise it reaches exactly the
      executions of its scope, and is REQUESTED. */
  lemma RequestStopVerdict(cfg: Settings, es: seq<Event>, scope: StopScope, now: int)
    ensures (var s := Reached(cfg, es);
             var o := Step(cfg, s, Event(DoRequestStop(scope), now));
             var rows := o.state.executions;
             && (o.reply.Refused? <==> exists k :: 0 <= k < |s.stops| && !s.stops[k].state.Cleared?)
             && (o.reply.Refused? ==> o.state == s)
             && (!o.reply.Refused? ==>
                   && o.reply.Ok? && |rows| == |s.executions|
                   && o.state == s.(executions := rows, stops := s.stops + [EmergencyStop(scope, Requested)])
                   && (forall i: nat :: i < |rows| ==>
                         rows[i] == if Reaches(scope, i) then StoppedAs(s.executions[i], now)
                                    else s.executions[i])))
  {
    ReachedInv(cfg, es);
    var s := Reached(cfg, es);
    if ActiveStop(s.stops).Some? {
      var k := ActiveIsAmong(s.stops);
      assert !s.stops[k].state.Cleared?;
    } else {
      var rs := RequestRows(cfg, s, scope, now);
      var rows := seq(|rs|, i requires 0 <= i < |rs| =>
        if Reaches(scope, i) then StoppedAs(s.executions[i], now) else s.executions[i]);
      forall i | 0 <= i < |rs| ensures rs[i] == Row(rows[i]) {
        assert RowInv(cfg, s.executions[i]);
        StoppedRow(cfg, s.executions[i], Reaches(scope, i), now);
      }
      SettleCommits(s, rs, rows);
      assert forall k :: 0 <= k < |s.stops| ==> !IsActiveStop(s.stops[k]);
    }
  }

  // ---- approvals -----------------------------------------------------------------------------

  /** An approval counts only while it is pending and its whole, non-empty group awaits it. Then
      exactly the group gets its window, counted from now, and the group of a scheduled occurrence
      goes on to the queue. */
  lemma ApproveVerdict(cfg: Settings, es: seq<Event>, aid: nat, now: int)
    ensures (var s := Reached(cfg, es);
             var o := Step(cfg, s, Event(DoApprove(aid), now));
             && (o.reply.Ok? <==>
                 && aid < |s.approvals| && s.approvals[aid].state.Pending?
                 && (exists i: nat :: i < |s.executions| && s.executions[i].group == Some(s.approvals[aid].group))
                 && (forall i: nat :: i < |s.executions| && s.executions[i].group == Some(s.approvals[aid].group)
                                      ==> s.executions[i].state.AwaitingApproval?))
             && (!o.reply.Ok? ==> o == Outcome(Refused, s))
             && (o.reply.Ok? ==>
                   var a, rows := s.approvals[aid], o.state.executions;
                   var until := Some(now + cfg.approvalWindow);
                   && |rows| == |s.executions|
                   && (forall i: nat :: i < |rows| ==>
                         var r := s.executions[i];
                         rows[i] ==
                           if r.group != Some(a.group) then r
                           else if a.occurrence.None? then Entered(r, Approved, now).(approvalExpiresAt := until)
                           else Entered(Entered(r, Approved, now), Queued, now)
                                .(approvalExpiresAt := until, queuedAt := Some(now)))
                   && o.state == s.(executions := rows, occurrences := o.state.occurrences, sent := o.state.sent,
                                    approvals := s.approvals[aid := a.(state := Granted, expiresAt := until)])
                   && o.state.occurrences == Marked(s.occurrences, a.occurrence, OccRunning)
                   && o.state.sent == s.sent + if a.occurrence.None? then {} else
                        (set i: nat | i < |rows| && rows[i].group == Some(a.group))))
  {
    ReachedInv(cfg, es);
    var s := Reached(cfg, es);
    hide Inv, Approve, Marked, Reached;
    if Decidable(s, aid) { ApproveCommits(cfg, s, aid, now); }
    ApproveRefused(cfg, s, aid, now);
  }

  predicate Decidable(s: State, aid: nat) {
    && aid < |s.approvals| && s.approvals[aid].state.Pending?
    && (exists i: nat :: i < |s.executions| && s.executions[i].group == Some(s.approvals[aid].group))
    && (forall i: nat :: i < |s.executions| && s.executions[i].group == Some(s.approvals[aid].group) ==>
                           s.executions[i].state.AwaitingApproval?)
  }

  lemma ApproveRefused(cfg: Settings, s: State, aid: nat, now: int)
    ensures !Decidable(s, aid) ==> Approve(cfg, s, aid, now) == Outcome(Refused, s)
  {
    hide ApproveRows;
    if aid < |s.approvals| {
      var g := s.approvals[aid].group;
      assert forall i: nat :: i < |s.executions| ==>
          (InScan(s.executions[i], i, Group(g)) <==> s.executions[i].group == Some(g));
    }
  }

  lemma ApproveCommits(cfg: Settings, s: State, aid: nat, now: int)
    requires Decidable(s, aid)
    ensures (var a := s.approvals[aid];
             var o := Approve(cfg, s, aid, now);
             var rows := seq(|s.executions|, i requires 0 <= i < |s.executions| =>
               ApprovedAs(cfg, s.executions[i], a, now));
             && o.reply.Ok?
             && o.state == s.(executions := rows,
                              approvals := s.approvals[aid := a.(state := Granted,
                                                                 expiresAt := Some(now + cfg.approvalWindow))],
                              occurrences := Marked(s.occurrences, a.occurrence, OccRunning),
                              sent := s.sent + if a.occurrence.None? then {} else
                                (set i: nat | i < |rows| && rows[i].group == Some(a.group))))
  {
    var a := s.approvals[aid];
    var rows := ApprovedRows(cfg, s, a, now);
    assert AllAwaiting(s.executions, a.group) && Exists(s.executions, Group(a.group)) by {
      var i: nat :| i < |s.executions| && s.executions[i].group == Some(a.group);
      assert InScan(s.executions[i], i, Group(a.group));
    }
    assert MarkOccurrence(s.occurrences, a.occurrence, OccRunning) == Marked(s.occurrences, a.occurrence, OccRunning);
    hide ApproveRows, ApprovedAs, Settle, Marked, Exists, AllAwaiting, MarkOccurrence, QueuedIn;
  }

  lemma ApprovedRows(cfg: Settings, s: State, a: Approval, now: int) returns (rows: seq<Execution>)
    requires forall i: nat :: i < |s.executions| && s.executions[i].group == Some(a.group) ==>
                                s.executions[i].state.AwaitingApproval?
    ensures rows == seq(|s.executions|, i requires 0 <= i < |s.executions| =>
                      ApprovedAs(cfg, s.executions[i], a, now))
    ensures Settle(s, ApproveRows(cfg, s, a, now)) == Outcome(Ok, s.(executions := rows))
    ensures a.occurrence.Some? ==>
              QueuedIn(rows, Group(a.group)) == set i: nat | i < |rows| && rows[i].group == Some(a.group)
  {
    var rs := ApproveRows(cfg, s, a, now);
    rows := seq(|rs|, i requires 0 <= i < |rs| => ApprovedAs(cfg, s.executions[i], a, now));
    hide ApproveRow, ApprovedAs;
    forall i: nat | i < |rs| ensures rs[i] == Row(rows[i]) {
      ApprovedRow(cfg, s.executions[i], InScan(s.executions[i], i, Group(a.group)), a, now);
    }
    SettleCommits(s, rs, rows);
    if a.occurrence.Some? { ApprovedAreQueued(cfg, s.executions, rows, a, now); }
  }

  lemma ApprovedRow(cfg: Settings, r: Execution, inGroup: bool, a: Approval, now: int)
    requires inGroup <==> r.group == Some(a.group)
    requires inGroup ==> r.state.AwaitingApproval?
    ensures ApproveRow(cfg, r, inGroup, a.occurrence.Some?, now) == Row(ApprovedAs(cfg, r, a, now))
  {
  }

  lemma ApprovedAreQueued(cfg: Settings, rows: seq<Execution>, rows': seq<Execution>, a: Approval, now: int)
    requires a.occurrence.Some? && |rows'| == |rows|
    requires forall i :: 0 <= i < |rows| ==> rows'[i] == ApprovedAs(cfg, rows[i], a, now)
    ensures QueuedIn(rows', Group(a.group)) == set i: nat | i < |rows'| && rows'[i].group == Some(a.group)
  {
    forall i: nat | i < |rows'| ensures rows'[i].group == Some(a.group) ==> rows'[i].state.Queued? {
      assert rows'[i] == ApprovedAs(cfg, rows[i], a, now);
    }
  }

  function ApprovedAs(cfg: Settings, r: Execution, a: Approval, now: int): Execution {
    if r.group != Some(a.group) then r
    else if a.occurrence.None? then
      Entered(r, Approved, now).(approvalExpiresAt := Some(now + cfg.approvalWindow))
    else
      Entered(Entered(r, Approved, now), Queued, now)
      .(approvalExpiresAt := Some(now + cfg.approvalWindow), queuedAt := Some(now))
  }

  /** The occurrence with that number, and no other, has a new state. */
  function Marked(occs: seq<Occurrence>, o: Option<nat>, state: OccurrenceState): seq<Occurrence> {
    seq(|occs|, x requires 0 <= x < |occs| => if o == Some(x) then occs[x].(state := state) else occs[x])
  }

  /** A denial counts only while the approval is pending; exactly the rows of its group that await
      it are denied. */
  lemma DenyVerdict(cfg: Settings, es: seq<Event>, aid: nat, now: int)
    ensures (var s := Reached(cfg, es);
             var o := Step(cfg, s, Event(DoDeny(aid), now));
             && (o.reply.Ok? <==> aid < |s.approvals| && s.approvals[aid].state.Pending?)
             && (!o.reply.Ok? ==> o == Outcome(Refused, s))
             && (o.reply.Ok? ==>
                   var a, rows := s.approvals[aid], o.state.executions;
                   && |rows| == |s.executions|
                   && (forall i: nat :: i < |rows| ==>
                         var r := s.executions[i];
                         rows[i] == if r.group == Some(a.group) && r.state.AwaitingApproval?
                                    then Closed(r, Denied, now) else r)
                   && o.state == s.(executions := rows,
                                    occurrences := Marked(s.occurrences, a.occurrence, OccDenied),
                                    approvals := s.approvals[aid := a.(state := Rejected)])))
  {
    ReachedInv(cfg, es);
    var s := Reached(cfg, es);
    if aid < |s.approvals| && s.approvals[aid].state.Pending? {
      var a := s.approvals[aid];
      var rs := DenyRows(cfg, s, a, now);
      var rows := seq(|rs|, i requires 0 <= i < |rs| =>
        if s.executions[i].group == Some(a.group) && s.executions[i].state.AwaitingApproval?
        then Closed(s.executions[i], Denied, now) else s.executions[i]);
      SettleCommits(s, rs, rows);
      assert MarkOccurrence(s.occurrences, a.occurrence, OccDenied) == Marked(s.occurrences, a.occurrence, OccDenied);
    }
  }

  // ---- a delivered message --------------------------------------------------------------------

  /** What a message makes of its execution. Only a QUEUED one with a free slot starts, and before
      it does, a stop cancels it, an elapsed window lets it expire and a failing scope re-check
      fails it. One that runs already is only re-checked, and one without a slot waits. */
  lemma DeliverVerdict(cfg: Settings, es: seq<Event>, id: nat, scopeOk: bool, now: int)
    requires id in Reached(cfg, es).sent
    ensures id < |Reached(cfg, es).executions|
    ensures (var s := Reached(cfg, es);
             var r := s.executions[id];
             var o := Step(cfg, s, Event(DoDeliver(id, scopeOk), now));
             var r' :=
               if Terminal(r.state) then r
               else if !r.state.Running? && Stopped(s, id) then Closed(r, Cancelled, now)
               else if r.state.Queued? && !SlotFree(cfg, s.executions, id) then r
               else if !r.state.Running? && Overdue(r, now) then Closed(r, Expired, now)
               else if r.cls.Active? && !scopeOk then Closed(r, Failed, now)
               else if !r.state.Queued? then r
               else Entered(r, Running, now).(startedAt := Some(now),
                                              runtimeDeadlineAt := Some(now + cfg.maxRuntime));
             && o.reply.Ok?
             && o.state == s.(executions := s.executions[id := r'],
                              begun := s.begun + if r'.state.Running? then {id} else {}))
  {
    ReachedInv(cfg, es);
    var s := Reached(cfg, es);
    var r := s.executions[id];
    assert RowInv(cfg, r);
    BlocksMeansStopped(s, id);
    if r.state.Queued? { CapacityMeansSlotFree(cfg, s.executions, id); }
    DeliveredAs(cfg, r, Stopped(s, id), CapacityAvailable(cfg, s.executions, id), scopeOk, now);
    hide PreflightRow, CapacityAvailable, SlotFree, Stopped, Blocks, Inv;
  }

  lemma DeliveredAs(cfg: Settings, r: Execution, blocked: bool, capacity: bool, scopeOk: bool, now: int)
    requires RowInv(cfg, r) && !r.state.AwaitingApproval?
    ensures (var r' :=
               if Terminal(r.state) then r
               else if !r.state.Running? && blocked then Closed(r, Cancelled, now)
               else if r.state.Queued? && !capacity then r
               else if !r.state.Running? && Overdue(r, now) then Closed(r, Expired, now)
               else if r.cls.Active? && !scopeOk then Closed(r, Failed, now)
               else if !r.state.Queued? then r
               else Entered(r, Running, now).(startedAt := Some(now),
                                              runtimeDeadlineAt := Some(now + cfg.maxRuntime));
             PreflightRow(cfg, r, blocked, capacity, scopeOk, now) == Preflight(Row(r'), r'.state.Running?))
  {
    hide TrailOk, GrantOk;
  }

  // ---- the sweep --------------------------------------------------------------------------------

  /** A stop that is only requested is confirmed once nothing in its scope is RUNNING with a
      cancellation asked for. */
  predicate Settled(s: State, stop: EmergencyStop) {
    stop.state.Requested?
    && forall i: nat :: i < |s.executions| && Reaches(stop.scope, i) && s.executions[i].state.Running? ==>
                          !s.executions[i].cancelRequested
  }

  function Confirmation(s: State): seq<EmergencyStop> {
    seq(|s.stops|, k requires 0 <= k < |s.stops| =>
      if Settled(s, s.stops[k]) then s.stops[k].(state := Confirmed) else s.stops[k])
  }

  /** The sweep lets what waits with an elapsed window expire, and times out what has run for
      longer than the cap; nothing else changes but that settled stops are confirmed and everything
      QUEUED with a free slot gets a message. */
  lemma SweepVerdict(cfg: Settings, es: seq<Event>, now: int)
    ensures (var s := Reached(cfg, es);
             var o := Step(cfg, s, Event(DoSweep, now));
             var rows := o.state.executions;
             && o.reply.Ok? && |rows| == |s.executions|
             && (forall i: nat :: i < |rows| ==>
                   var r := s.executions[i];
                   && (r.state.Running? ==> r.startedAt.Some?)
                   && rows[i] ==
                        if (r.state.AwaitingApproval? || r.state.Approved? || r.state.Queued?) && Overdue(r, now)
                        then Closed(r, Expired, now)
                        else if r.state.Running? && now > r.startedAt.GetOr(now) + cfg.maxRuntime
                        then Closed(r, TimedOut, now).(cancelRequested := true, partial := true)
                        else r)
             && o.state == s.(executions := rows, stops := Confirmation(s), sent := o.state.sent)
             && o.state.sent == s.sent + (set i: nat | i < |rows| && rows[i].state.Queued? && SlotFree(cfg, rows, i)))
  {
    ReachedInv(cfg, es);
    var s := Reached(cfg, es);
    assert RowsOk(cfg, s.executions);
    hide Inv, RowsOk, Settle, Settled, Confirmation, SlotFree, CapacityAvailable, Overdue, Requeued;
    hide ExpireRows, TimeoutRows, ReconcileStops, Sweep;
    var mid := ExpiredRows(cfg, s, now);
    ConfirmedAs(cfg, s, mid);
    var rows := TimedOutRows(cfg, s.(executions := mid, stops := Confirmation(s)), now);
    SweepIs(cfg, s, mid, rows, now);
    SweptAs(cfg, s.executions, mid, rows, now);
    RequeuedAre(cfg, rows);
    hide *;
  }

  lemma SweepIs(cfg: Settings, s: State, mid: seq<Execution>, rows: seq<Execution>, now: int)
    requires Settle(s, ExpireRows(cfg, s.executions, now)) == Outcome(Ok, s.(executions := mid))
    requires ReconcileStops(mid, s.stops) == Confirmation(s)
    requires Settle(s.(executions := mid, stops := Confirmation(s)), TimeoutRows(cfg, mid, now))
          == Outcome(Ok, s.(executions := rows, stops := Confirmation(s)))
    ensures Step(cfg, s, Event(DoSweep, now))
         == Outcome(Ok, s.(executions := rows, stops := Confirmation(s), sent := s.sent + Requeued(cfg, rows)))
  {
    hide Settle, ExpireRows, TimeoutRows, ReconcileStops, Confirmation, Requeued;
    assert Reconcile(s.(executions := mid)).state == s.(executions := mid, stops := Confirmation(s));
  }

  lemma SweptAs(cfg: Settings, rows: seq<Execution>, mid: seq<Execution>, later: seq<Execution>, now: int)
    requires RowsOk(cfg, rows) && |later| == |mid| == |rows|
    requires forall i: nat :: i < |rows| ==>
               mid[i] == if Waiting(rows[i]) && Overdue(rows[i], now) then Closed(rows[i], Expired, now) else rows[i]
    requires forall i: nat :: i < |rows| ==>
               later[i] == if mid[i].state.Running? && now > mid[i].startedAt.GetOr(now) + cfg.maxRuntime
                           then Closed(mid[i], TimedOut, now).(cancelRequested := true, partial := true) else mid[i]
    ensures forall i: nat :: i < |rows| ==>
              var r := rows[i];
              && (r.state.Running? ==> r.startedAt.Some?)
              && later[i] ==
                   if (r.state.AwaitingApproval? || r.state.Approved? || r.state.Queued?) && Overdue(r, now)
                   then Closed(r, Expired, now)
                   else if r.state.Running? && now > r.startedAt.GetOr(now) + cfg.maxRuntime
                   then Closed(r, TimedOut, now).(cancelRequested := true, partial := true)
                   else r
  {
    hide Overdue;
    forall i: nat | i < |rows| ensures rows[i].state.Running? ==> rows[i].startedAt.Some? {
      assert RowInv(cfg, rows[i]);
    }
  }

  lemma ExpiredRows(cfg: Settings, s: State, now: int) returns (mid: seq<Execution>)
    requires Inv(cfg, s)
    ensures Settle(s, ExpireRows(cfg, s.executions, now)) == Outcome(Ok, s.(executions := mid))
    ensures |mid| == |s.executions| && RowsOk(cfg, mid)
    ensures forall i: nat :: i < |mid| ==>
              mid[i] == if Waiting(s.executions[i]) && Overdue(s.executions[i], now)
                        then Closed(s.executions[i], Expired, now) else s.executions[i]
  {
    mid := ExpirePhase(cfg, s, now);
    hide ExpireRow;
    forall i: nat | i < |mid|
      ensures mid[i] == if Waiting(s.executions[i]) && Overdue(s.executions[i], now)
                        then Closed(s.executions[i], Expired, now) else s.executions[i]
    {
      assert ExpireRows(cfg, s.executions, now)[i] == Row(mid[i]);
      ExpiredAs(cfg, s.executions[i], now);
    }
  }

  lemma TimedOutRows(cfg: Settings, s: State, now: int) returns (rows: seq<Execution>)
    requires RowsOk(cfg, s.executions)
    ensures Settle(s, TimeoutRows(cfg, s.executions, now)) == Outcome(Ok, s.(executions := rows))
    ensures |rows| == |s.executions| && RowsOk(cfg, rows)
    ensures forall i: nat :: i < |rows| ==>
              var r := s.executions[i];
              rows[i] == if r.state.Running? && now > r.startedAt.GetOr(now) + cfg.maxRuntime
                         then Closed(r, TimedOut, now).(cancelRequested := true, partial := true) else r
  {
    var rs := TimeoutRows(cfg, s.executions, now);
    rows := seq(|rs|, i requires 0 <= i < |rs| =>
      var r := s.executions[i];
      if r.state.Running? && now > r.startedAt.GetOr(now) + cfg.maxRuntime
      then Closed(r, TimedOut, now).(cancelRequested := true, partial := true) else r);
    hide TimeoutRow, RowInv;
    forall i | 0 <= i < |rs| ensures rs[i] == Row(rows[i]) && RowInv(cfg, rows[i]) {
      TimedOutAs(cfg, s.executions[i], now);
      TimeoutRowKeeps(cfg, s.executions[i], now);
    }
    SettleCommits(s, rs, rows);
  }

  lemma RequeuedAre(cfg: Settings, rows: seq<Execution>)
    requires RowsOk(cfg, rows)
    ensures Requeued(cfg, rows) == set i: nat | i < |rows| && rows[i].state.Queued? && SlotFree(cfg, rows, i)
  {
    hide CapacityAvailable, SlotFree, RowInv;
    forall i: nat | i < |rows| && rows[i].state.Queued?
      ensures CapacityAvailable(cfg, rows, i) <==> SlotFree(cfg, rows, i)
    {
      CapacityMeansSlotFree(cfg, rows, i);
    }
  }

  predicate Waiting(r: Execution) { r.state.AwaitingApproval? || r.state.Approved? || r.state.Queued? }

  lemma ExpiredAs(cfg: Settings, r: Execution, now: int)
    ensures ExpireRow(cfg, r, now) == Row(if Waiting(r) && Overdue(r, now) then Closed(r, Expired, now) else r)
  {
  }

  lemma TimedOutAs(cfg: Settings, r: Execution, now: int)
    requires RowInv(cfg, r)
    ensures TimeoutRow(cfg, r, now)
         == Row(if r.state.Running? && now > r.startedAt.GetOr(now) + cfg.maxRuntime
                then Closed(r, TimedOut, now).(cancelRequested := true, partial := true) else r)
  {
    hide TrailOk, GrantOk;
  }

  /** Expiry does not touch what a stop waits for. */
  lemma ConfirmedAs(cfg: Settings, s: State, mid: seq<Execution>)
    requires RowsOk(cfg, s.executions) && RowsOk(cfg, mid) && |mid| == |s.executions|
    requires forall i :: 0 <= i < |mid| ==>
               mid[i] == s.executions[i] || (Terminal(mid[i].state) && Waiting(s.executions[i]))
    ensures ReconcileStops(mid, s.stops) == Confirmation(s)
  {
    forall k | 0 <= k < |s.stops|
      ensures s.stops[k].state.Requested? ==> (Outstanding(mid, s.stops[k].scope) <==> !Settled(s, s.stops[k]))
    {
      var scope := s.stops[k].scope;
      forall i: nat | i < |mid|
        ensures !Terminal(mid[i].state) && mid[i].cancelRequested <==>
                s.executions[i].state.Running? && s.executions[i].cancelRequested
      {
        assert RowInv(cfg, mid[i]) && RowInv(cfg, s.executions[i]);
      }
    }
  }

  /** A reconciliation confirms the settled stops. */
  lemma ReconcileVerdict(cfg: Settings, es: seq<Event>, now: int)
    ensures (var s := Reached(cfg, es);
             Step(cfg, s, Event(DoReconcile, now)) == Outcome(Ok, s.(stops := Confirmation(s))))
  {
    ReachedInv(cfg, es);
    ConfirmedAs(cfg, Reached(cfg, es), Reached(cfg, es).executions);
  }

  /** Clearing is refused for a stop that does not exist or is cleared; it changes that stop only. */
  lemma ClearStopVerdict(cfg: Settings, es: seq<Event>, k: nat, now: int)
    ensures (var s := Reached(cfg, es);
             Step(cfg, s, Event(DoClearStop(k), now))
             == if k < |s.stops| && !s.stops[k].state.Cleared?
                then Outcome(Ok, s.(stops := s.stops[k := EmergencyStop(s.stops[k].scope, Cleared)]))
                else Outcome(Refused, s))
  {
  }

  // ---- creation ---------------------------------------------------------------------------------

  /** A launch adds one row per target, all in one new group: DRAFT for a passive scan, and for an
      active one AWAITING_APPROVAL with a pending approval of the group. */
  lemma LaunchVerdict(cfg: Settings, es: seq<Event>, targets: seq<nat>, cls: Classification, admitted: bool, now: int)
    ensures (var s := Reached(cfg, es);
             var g := s.nextGroup;
             Step(cfg, s, Event(DoLaunch(targets, cls, admitted), now))
             == if !admitted || targets == [] then Outcome(Refused, s)
                else Outcome(Ok, s.(
                             executions := s.executions + seq(|targets|, i requires 0 <= i < |targets| =>
                               LaunchedAs(targets[i], g, cls, now)),
                             nextGroup := g + 1,
                             approvals := s.approvals
                                          + if cls.Passive? then [] else [Approval(g, None, Pending, None)])))
  {
    var s := Reached(cfg, es);
    if targets != [] && admitted {
      var made := seq(|targets|, i requires 0 <= i < |targets| => LaunchRow(cfg, targets[i], s.nextGroup, cls, now));
      var rows := seq(|targets|, i requires 0 <= i < |targets| => LaunchedAs(targets[i], s.nextGroup, cls, now));
      SettleCommits(s, made, rows);
    }
  }

  function LaunchedAs(target: nat, g: nat, cls: Classification, now: int): Execution {
    if cls.Passive? then
      Execution(target, Some(g), Passive, None, Draft, false, false, None, None, None, None, None, 0,
                [Change(None, Draft, now)])
    else
      Execution(target, Some(g), Active, None, AwaitingApproval, false, false, None, None, None, None, None, 0,
                [Change(Some(Draft), AwaitingApproval, now)])
  }

  /** The compatibility endpoint adds one QUEUED passive row outside any group, and its message. */
  lemma QueuePassiveVerdict(cfg: Settings, es: seq<Event>, target: nat, now: int)
    ensures (var s := Reached(cfg, es);
             var r := Execution(target, None, Passive, None, Queued, false, false, None, Some(now), None, None,
                                None, 0, [Change(Some(Draft), Queued, now)]);
             Step(cfg, s, Event(DoQueuePassive(target), now))
             == Outcome(Ok, s.(executions := s.executions + [r], sent := s.sent + {|s.executions|})))
  {
  }
}
