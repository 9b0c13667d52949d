/** The lifecycle operations as the program performs them: statements that update the tables
of one database, loop over the executions of a scan, and roll back when something raises.
Every method commits exactly the outcome that the transition system prescribes. */
module ScanDatabases {
  import opened Base
  import opened Executions
  import opened Lifecycle
  import opened Scheduling

  /** `ScanService.transition`: True, False, or IllegalTransition raised. */
  datatype Answer = Changed | Unchanged | IllegalTransition

  /** Granting every row and then queueing every row is approving row by row. */
  lemma TwoPhases(cfg: Settings, s: State, granted: seq<Execution>, rows: seq<Execution>, a: Approval,
                  now: int)
    requires |granted| == |rows| == |s.executions| && a.occurrence.Some?
    requires forall k: nat :: k < |rows| ==>
                                var r := s.executions[k];
                                GrantRow(cfg, r, InScan(r, k, Group(a.group)), now) == Row(granted[k])
    requires forall k: nat :: k < |rows| ==>
                                var r := granted[k];
                                QueueRow(cfg, r, InScan(r, k, Group(a.group)), now) == Row(rows[k])
    ensures Settle(s, ApproveRows(cfg, s, a, now)) == Outcome(Ok, s.(executions := rows))
  {
    var rs := ApproveRows(cfg, s, a, now);
    forall k: nat | k < |rows| ensures rs[k] == Row(rows[k]) {
      var r := s.executions[k];
      assert GrantRow(cfg, r, InScan(r, k, Group(a.group)), now) == Row(granted[k]);
      assert InScan(granted[k], k, Group(a.group)) == InScan(r, k, Group(a.group));
    }
    SettleCommits(s, rs, rows);
  }

  class ScanDatabase {
    const cfg: Settings
    var executions: seq<Execution>
    var nextGroup: nat
    var approvals: seq<Approval>
    var stops: seq<EmergencyStop>
    var schedules: seq<Schedule>
    var occurrences: seq<Occurrence>
    var sent: set<nat>
    var begun: set<nat>

    function Snapshot(): State
      reads this
    {
      State(executions, nextGroup, approvals, stops, schedules, occurrences, sent, begun)
    }

    constructor (cfg: Settings)
      ensures this.cfg == cfg && Snapshot() == Initial
    {
      this.cfg := cfg;
      executions, nextGroup, approvals, stops := [], 0, [], [];
      schedules, occurrences, sent, begun := [], [], {}, {};
    }

    /** The session is closed without a commit. */
    method Rollback(was: State)
      modifies this
      ensures Snapshot() == was
    {
      executions, nextGroup, approvals, stops := was.executions, was.nextGroup, was.approvals, was.stops;
      schedules, occurrences, sent, begun := was.schedules, was.occurrences, was.sent, was.begun;
    }

    method Transition(i: nat, target: ScanState, now: int) returns (answer: Answer)
      requires i < |executions|
      modifies this`executions
      ensures match Transit(cfg, old(executions)[i], target, now)
              case Illegal => answer.IllegalTransition? && executions == old(executions)
              case NoOp => answer.Unchanged? && executions == old(executions)
              case Moved(r) => answer.Changed? && executions == old(executions)[i := r]
    {
      var ex := executions[i];
      if ex.state == target { return Unchanged; }
      if Terminal(ex.state) { return Unchanged; }
      if !CanTransition(ex.state, target) { return IllegalTransition; }
      var prev := ex.state;
      ex := ex.(state := target);
      if target.Queued? {
        if ex.queuedAt.None? { ex := ex.(queuedAt := Some(now)); }
      } else if target.Running? {
        ex := ex.(startedAt := Some(now));
        ex := ex.(runtimeDeadlineAt := Some(now + cfg.maxRuntime));
      } else if Terminal(target) {
        ex := ex.(finishedAt := Some(now));
      }
      ex := ex.(trail := ex.trail + [Change(Some(prev), target, now)]);
      executions := executions[i := ex];
      return Changed;
    }

    /** `run_execution.delay` for every queued execution of a scan. */
    method SendQueued(scan: ScanRef)
      modifies this`sent
      ensures sent == old(sent) + QueuedIn(executions, scan)
    {
      for i := 0 to |executions|
        invariant sent == old(sent)
                       + (set j: nat | j < i && InScan(executions[j], j, scan) && executions[j].state.Queued?)
      {
        if InScan(executions[i], i, scan) && executions[i].state.Queued? {
          sent := sent + {i};
        }
      }
    }

    method Launch(targets: seq<nat>, cls: Classification, admitted: bool, now: int)
      returns (reply: Reply)
      modifies this
      ensures Outcome(reply, Snapshot())
           == Lifecycle.Launch(cfg, old(Snapshot()), targets, cls, admitted, now)
    {
      if targets == [] || !admitted { return Refused; }
      ghost var was := Snapshot();
      var saved, g, n := executions, nextGroup, |executions|;
      ghost var rs := seq(|targets|, i requires 0 <= i < |targets| =>
        LaunchRow(cfg, targets[i], g, cls, now));
      for i := 0 to |targets|
        modifies this`executions
        invariant |executions| == n + i && executions[..n] == saved
        invariant forall k :: 0 <= k < i ==> rs[k] == Row(executions[n + k])
      {
        if cls.Passive? {
          executions := executions + [NewRow(targets[i], Some(g), Passive, None, Draft, None,
                                             [Change(None, Draft, now)])];
        } else {
          executions := executions + [NewRow(targets[i], Some(g), Active, None, Draft, None, [])];
          var answer := Transition(n + i, AwaitingApproval, now);
        }
      }
      SettleCommits(was, rs, executions[n..]);
      nextGroup := g + 1;
      if cls.Active? { approvals := approvals + [Approval(g, None, Pending, None)]; }
      assert executions == saved + executions[n..];
      return Ok;
    }

    method QueuePassive(target: nat, now: int) returns (reply: Reply)
      modifies this
      ensures Outcome(reply, Snapshot()) == Lifecycle.QueuePassive(old(Snapshot()), target, now)
    {
      var id := |executions|;
      executions := executions + [NewRow(target, None, Passive, None, Queued, Some(now),
                                         [Change(Some(Draft), Queued, now)])];
      sent := sent + {id};
      return Ok;
    }

    /** One execution of a scan being started: moved is false when it expired instead. */
    method StartOne(i: nat, now: int) returns (reply: Reply, moved: bool)
      requires i < |executions| && (executions[i].state.Approved? || executions[i].state.Draft?)
      requires executions[i].cls.Active? ==> executions[i].state.Approved?
      modifies this`executions
      ensures match StartRow(cfg, old(executions)[i], true, false, now)
              case Row(r) =>
                && reply.Ok? && executions == old(executions)[i := r]
                && (moved <==> r.state.Queued?)
              case Crash => reply.Crashed? && executions == old(executions)
              case Refuse => false
    {
      var ex := executions[i];
      if ex.approvalExpiresAt.Some? && now > ex.approvalExpiresAt.value {
        reply := Move(i, Expired, now);
        return reply, false;
      }
      reply := Move(i, Queued, now);
      if reply.Ok? { executions := executions[i := executions[i].(queuedAt := Some(now))]; }
      return reply, true;
    }

    method Start(scan: ScanRef, now: int) returns (reply: Reply)
      modifies this
      ensures Outcome(reply, Snapshot()) == Lifecycle.Start(cfg, old(Snapshot()), scan, now)
    {
      hide Transit, FirstAbort, AsRow;
      if !Exists(executions, scan) { return Refused; }
      ghost var was := Snapshot();
      ghost var rs := StartRows(cfg, was, scan, now);
      var saved, stop, started := executions, ActiveStop(stops), 0;
      for i := 0 to |saved|
        modifies this`executions
        invariant |executions| == |saved|
        invariant forall k :: 0 <= k < i ==> rs[k] == Row(executions[k])
        invariant forall k :: i <= k < |saved| ==> executions[k] == saved[k]
        invariant started >= 0
        invariant started == 0 <==>
                  forall k :: 0 <= k < i ==> !executions[k].state.Queued? || saved[k].state.Queued?
      {
        var ex := executions[i];
        if InScan(ex, i, scan) && (ex.cls.Passive? || ex.state.Approved?)
           && (ex.state.Approved? || ex.state.Draft?)
        {
          var moved := false;
          if Blocks(stop, i) {
            reply := Refused;
          } else {
            reply, moved := StartOne(i, now);
          }
          if !reply.Ok? {
            AbortsAt(rs, i);
            executions := saved;
            return;
          }
          if moved { started := started + 1; }
        }
      }
      SettleCommits(was, rs, executions);
      assert started == 0 <==> StartedIn(saved, executions) == {} by {
        if k :| 0 <= k < |saved| && executions[k].state.Queued? && !saved[k].state.Queued? {
          assert k in StartedIn(saved, executions);
        }
      }
      if started == 0 { return OkConflict; }
      SendQueued(scan);
      return Ok;
    }

    method Pause(scan: ScanRef, now: int) returns (reply: Reply)
      modifies this
      ensures Outcome(reply, Snapshot()) == Lifecycle.Pause(cfg, old(Snapshot()), scan, now)
    {
      ghost var was := Snapshot();
      ghost var rs := PauseRows(cfg, was, scan, now);
      var saved, paused := executions, 0;
      for i := 0 to |saved|
        modifies this`executions
        invariant |executions| == |saved|
        invariant forall k :: 0 <= k < i ==> rs[k] == Row(executions[k])
        invariant forall k :: i <= k < |saved| ==> executions[k] == saved[k]
        invariant paused >= 0
        invariant paused == 0 <==>
                  forall k: nat :: k < i ==> !(InScan(saved[k], k, scan) && saved[k].state.Queued?)
        invariant paused == 0 ==> executions == saved
      {
        var ex := executions[i];
        if InScan(ex, i, scan) && ex.state.Queued? {
          var back := if ex.cls.Active? then Approved else Draft;
          var answer := Transition(i, back, now);
          assert answer.Changed?;
          executions := executions[i := executions[i].(queuedAt := None)];
          paused := paused + 1;
        }
      }
      SettleCommits(was, rs, executions);
      assert paused == 0 <==> QueuedIn(saved, scan) == {} by {
        if k: nat :| k < |saved| && InScan(saved[k], k, scan) && saved[k].state.Queued? {
          assert k in QueuedIn(saved, scan);
        }
      }
      if paused == 0 { return Refused; }
      return Ok;
    }

    /** `stop_scan`; `cancel_execution` is the same on a single execution. */
    method StopScan(scan: ScanRef, now: int) returns (reply: Reply)
      modifies this
      ensures Outcome(reply, Snapshot()) == Lifecycle.StopScan(cfg, old(Snapshot()), scan, now)
    {
      ghost var was := Snapshot();
      ghost var rs := StopRows(cfg, was, scan, now);
      var saved, stopped := executions, 0;
      for i := 0 to |saved|
        modifies this`executions
        invariant |executions| == |saved|
        invariant forall k :: 0 <= k < i ==> rs[k] == Row(executions[k])
        invariant forall k :: i <= k < |saved| ==> executions[k] == saved[k]
        invariant stopped >= 0
        invariant stopped == 0 <==>
                  forall k: nat :: k < i ==> !(InScan(saved[k], k, scan) && !Terminal(saved[k].state))
        invariant stopped == 0 ==> executions == saved
      {
        var ex := executions[i];
        if InScan(ex, i, scan) && !Terminal(ex.state) {
          executions := executions[i := ex.(cancelRequested := true)];
          if NonStart(ex.state) {
            var answer := Transition(i, Cancelled, now);
            assert answer.Changed?;
          }
          stopped := stopped + 1;
        }
      }
      SettleCommits(was, rs, executions);
      assert stopped == 0 <==> LiveIn(saved, scan) == {} by {
        if k: nat :| k < |saved| && InScan(saved[k], k, scan) && !Terminal(saved[k].state) {
          assert k in LiveIn(saved, scan);
        }
      }
      if stopped == 0 { return Refused; }
      return Ok;
    }

    method GrantPhase(scan: ScanRef, now: int)
      requires scan.Group? && AllAwaiting(executions, scan.g)
      modifies this`executions
      ensures |executions| == |old(executions)|
      ensures forall k: nat :: k < |executions| ==>
                           var r := old(executions)[k];
                           GrantRow(cfg, r, InScan(r, k, scan), now) == Row(executions[k])
    {
      var saved, expires := executions, now + cfg.approvalWindow;
      for i := 0 to |saved|
        invariant |executions| == |saved|
        invariant forall k: nat :: k < i ==>
                                     GrantRow(cfg, saved[k], InScan(saved[k], k, scan), now) == Row(executions[k])
        invariant forall k :: i <= k < |saved| ==> executions[k] == saved[k]
      {
        if InScan(executions[i], i, scan) {
          executions := executions[i := executions[i].(approvalExpiresAt := Some(expires))];
          var answer := Transition(i, Approved, now);
          assert answer.Changed?;
        }
      }
    }

    method QueuePhase(scan: ScanRef, now: int)
      modifies this`executions
      ensures |executions| == |old(executions)|
      ensures forall k: nat :: k < |executions| ==>
                           var r := old(executions)[k];
                           QueueRow(cfg, r, InScan(r, k, scan), now) == Row(executions[k])
    {
      var saved := executions;
      for i := 0 to |saved|
        invariant |executions| == |saved|
        invariant forall k: nat :: k < i ==>
                                     QueueRow(cfg, saved[k], InScan(saved[k], k, scan), now) == Row(executions[k])
        invariant forall k :: i <= k < |saved| ==> executions[k] == saved[k]
      {
        if InScan(executions[i], i, scan) && executions[i].state.Approved? {
          var answer := Transition(i, Queued, now);
          assert answer.Changed?;
          executions := executions[i := executions[i].(queuedAt := Some(now))];
        }
      }
    }

    method Approve(aid: nat, now: int) returns (reply: Reply)
      modifies this
      ensures Outcome(reply, Snapshot()) == Lifecycle.Approve(cfg, old(Snapshot()), aid, now)
    {
      hide Transit, FirstAbort, GrantRow, QueueRow;
      if aid >= |approvals| || !approvals[aid].state.Pending? { return Refused; }
      var a := approvals[aid];
      var scan := Group(a.group);
      if !Exists(executions, scan) || !AllAwaiting(executions, a.group) { return Refused; }
      ghost var was := Snapshot();
      approvals := approvals[aid := a.(state := Granted, expiresAt := Some(now + cfg.approvalWindow))];
      GrantPhase(scan, now);
      if a.occurrence.Some? {
        ghost var granted := executions;
        QueuePhase(scan, now);
        TwoPhases(cfg, was, granted, executions, a, now);
        occurrences := MarkOccurrence(occurrences, a.occurrence, OccRunning);
        SendQueued(scan);
      } else {
        SettleCommits(was, ApproveRows(cfg, was, a, now), executions);
      }
      return Ok;
    }

    method Deny(aid: nat, now: int) returns (reply: Reply)
      modifies this
      ensures Outcome(reply, Snapshot()) == Lifecycle.Deny(cfg, old(Snapshot()), aid, now)
    {
      if aid >= |approvals| || !approvals[aid].state.Pending? { return Refused; }
      ghost var was := Snapshot();
      var a := approvals[aid];
      ghost var rs := DenyRows(cfg, was, a, now);
      var saved := executions;
      approvals := approvals[aid := a.(state := Rejected)];
      for i := 0 to |saved|
        modifies this`executions
        invariant |executions| == |saved|
        invariant forall k :: 0 <= k < i ==> rs[k] == Row(executions[k])
        invariant forall k :: i <= k < |saved| ==> executions[k] == saved[k]
      {
        if InScan(executions[i], i, Group(a.group)) && executions[i].state.AwaitingApproval? {
          var answer := Transition(i, Denied, now);
          assert answer.Changed?;
        }
      }
      SettleCommits(was, rs, executions);
      occurrences := MarkOccurrence(occurrences, a.occurrence, OccDenied);
      return Ok;
    }

    method RequestStop(scope: StopScope, now: int) returns (reply: Reply)
      modifies this
      ensures Outcome(reply, Snapshot()) == Lifecycle.RequestStop(cfg, old(Snapshot()), scope, now)
    {
      if ActiveStop(stops).Some? { return Refused; }
      ghost var was := Snapshot();
      ghost var rs := RequestRows(cfg, was, scope, now);
      var saved := executions;
      stops := stops + [EmergencyStop(scope, Requested)];
      for i := 0 to |saved|
        modifies this`executions
        invariant |executions| == |saved|
        invariant forall k :: 0 <= k < i ==> rs[k] == Row(executions[k])
        invariant forall k :: i <= k < |saved| ==> executions[k] == saved[k]
      {
        var ex := executions[i];
        if !Terminal(ex.state) && InScope(scope, i) {
          executions := executions[i := ex.(cancelRequested := true)];
          if NonStart(ex.state) {
            var answer := Transition(i, Cancelled, now);
            assert answer.Changed?;
          }
        }
      }
      SettleCommits(was, rs, executions);
      return Ok;
    }

    method Reconcile() returns (reply: Reply)
      modifies this`stops
      ensures Outcome(reply, Snapshot()) == Lifecycle.Reconcile(old(Snapshot()))
    {
      var saved := stops;
      for k := 0 to |saved|
        invariant |stops| == |saved|
        invariant forall j :: 0 <= j < k ==> stops[j] == ReconcileStop(executions, saved[j])
        invariant forall j :: k <= j < |saved| ==> stops[j] == saved[j]
      {
        if stops[k].state.Requested? && !Outstanding(executions, stops[k].scope) {
          stops := stops[k := stops[k].(state := Confirmed)];
        }
      }
      assert stops == ReconcileStops(executions, saved);
      return Ok;
    }

    method ClearStop(k: nat) returns (reply: Reply)
      modifies this`stops
      ensures Outcome(reply, Snapshot()) == Lifecycle.ClearStop(old(Snapshot()), k)
    {
      if k >= |stops| || stops[k].state.Cleared? { return Refused; }
      stops := stops[k := stops[k].(state := Cleared)];
      return Ok;
    }

    /** The pre-flight transaction of `execute`. */
    method Deliver(id: nat, scopeOk: bool, now: int) returns (reply: Reply)
      modifies this
      ensures Outcome(reply, Snapshot()) == Lifecycle.Deliver(cfg, old(Snapshot()), id, scopeOk, now)
    {
      if id !in sent || id >= |executions| { return Refused; }
      var ex, was := executions[id], executions;
      assert was[id := ex] == was;
      if Terminal(ex.state) { return Ok; }
      if Blocks(ActiveStop(stops), id) && !ex.state.Running? {
        reply := Move(id, Cancelled, now);
        return;
      }
      if ex.cancelRequested && NonStart(ex.state) {
        reply := Move(id, Cancelled, now);
        return;
      }
      if ex.state.Queued? && !CapacityAvailable(cfg, executions, id) { return Ok; }
      if ex.cls.Active? {
        if NonStart(ex.state) && ex.approvalExpiresAt.Some? && now > ex.approvalExpiresAt.value {
          reply := Move(id, Expired, now);
          return;
        }
        if !scopeOk {
          reply := Move(id, Failed, now);
          return;
        }
      }
      if ex.state.Queued? {
        reply := Move(id, Running, now);
      } else if !ex.state.Running? {
        return Ok;
      } else {
        reply := Ok;
      }
      begun := begun + {id};
    }

    /** One transition and a commit, or a rollback. */
    method Move(id: nat, target: ScanState, now: int) returns (reply: Reply)
      requires id < |executions|
      modifies this`executions
      ensures match AsRow(old(executions)[id], Transit(cfg, old(executions)[id], target, now))
              case Row(r) => reply.Ok? && executions == old(executions)[id := r]
              case _ => reply.Crashed? && executions == old(executions)
    {
      var answer := Transition(id, target, now);
      assert old(executions)[id := old(executions)[id]] == old(executions);
      return if answer.IllegalTransition? then Crashed else Ok;
    }

    /** The end of the persist transaction, when the results are stored. */
    method Finish(id: nat, incomplete: bool, now: int) returns (reply: Reply)
      requires id < |executions|
      modifies this`executions
      ensures |executions| == |old(executions)|
      ensures match FinishRow(cfg, old(executions)[id], incomplete, now)
              case Row(r) => reply.Ok? && executions == old(executions)[id := r]
              case _ => reply.Crashed?
    {
      var ex := executions[id];
      if ex.runtimeDeadlineAt.Some? && now > ex.runtimeDeadlineAt.value {
        executions := executions[id := ex.(partial := true)];
        reply := Move(id, TimedOut, now);
      } else if ex.cancelRequested {
        reply := Move(id, Cancelling, now);
        if reply.Ok? {
          executions := executions[id := executions[id].(partial := true)];
          reply := Move(id, Cancelled, now);
        }
      } else {
        executions := executions[id := ex.(partial := incomplete)];
        reply := Move(id, Completed, now);
      }
    }

    /** The persist transaction of `execute`. */
    method Persist(id: nat, parsed: bool, incomplete: bool, now: int) returns (reply: Reply)
      modifies this
      ensures Outcome(reply, Snapshot())
           == Lifecycle.Persist(cfg, old(Snapshot()), id, parsed, incomplete, now)
    {
      if id !in begun || id >= |executions| { return Refused; }
      var ex, saved := executions[id], executions;
      assert saved[id := ex] == saved;
      if Terminal(ex.state) { return Ok; }
      if !parsed {
        reply := Move(id, Failed, now);
        return;
      }
      executions := executions[id := ex.(persisted := ex.persisted + 1)];
      reply := Finish(id, incomplete, now);
      if reply.Crashed? { executions := saved; }
    }

    method ExpirePhase(now: int) returns (reply: Reply)
      modifies this`executions
      ensures Outcome(reply, Snapshot())
           == Settle(old(Snapshot()), ExpireRows(cfg, old(executions), now))
    {
      var saved := executions;
      ghost var rs := ExpireRows(cfg, saved, now);
      for i := 0 to |saved|
        invariant |executions| == |saved|
        invariant forall k :: 0 <= k < i ==> rs[k] == Row(executions[k])
        invariant forall k :: i <= k < |saved| ==> executions[k] == saved[k]
      {
        var ex := executions[i];
        if (ex.state.AwaitingApproval? || ex.state.Approved? || ex.state.Queued?)
           && ex.approvalExpiresAt.Some? && ex.approvalExpiresAt.value < now
        {
          var answer := Transition(i, Expired, now);
          assert answer.Changed?;
        }
      }
      SettleCommits(old(Snapshot()), rs, executions);
      return Ok;
    }

    method TimeoutPhase(now: int) returns (reply: Reply)
      modifies this`executions
      ensures Outcome(reply, Snapshot())
           == Settle(old(Snapshot()), TimeoutRows(cfg, old(executions), now))
    {
      var saved := executions;
      ghost var rs := TimeoutRows(cfg, saved, now);
      for i := 0 to |saved|
        invariant |executions| == |saved|
        invariant forall k :: 0 <= k < i ==> rs[k] == Row(executions[k])
        invariant forall k :: i <= k < |saved| ==> executions[k] == saved[k]
      {
        var ex := executions[i];
        if (ex.state.Running? || ex.state.Cancelling?)
           && ex.runtimeDeadlineAt.Some? && ex.runtimeDeadlineAt.value < now
        {
          executions := executions[i := ex.(cancelRequested := true, partial := true)];
          if ex.state.Cancelling? {
            executions := executions[i := executions[i].(state := Running)];
          }
          var answer := Transition(i, TimedOut, now);
          assert answer.Changed?;
        }
      }
      SettleCommits(old(Snapshot()), rs, executions);
      return Ok;
    }

    method RequeuePhase()
      modifies this`sent
      ensures sent == old(sent) + Requeued(cfg, executions)
    {
      for i := 0 to |executions|
        invariant sent == old(sent)
                       + (set j: nat | j < i && executions[j].state.Queued? && CapacityAvailable(cfg, executions, j))
      {
        if executions[i].state.Queued? && CapacityAvailable(cfg, executions, i) {
          sent := sent + {i};
        }
      }
    }

    /** `lifecycle_sweep`: expiry, reconciliation, runtime cap, re-enqueue. */
    method Sweep(now: int) returns (reply: Reply)
      modifies this
      ensures Outcome(reply, Snapshot()) == Lifecycle.Sweep(cfg, old(Snapshot()), now)
    {
      var was := Snapshot();
      reply := ExpirePhase(now);
      if !reply.Ok? { return; }
      var confirmed := Reconcile();
      reply := TimeoutPhase(now);
      if !reply.Ok? {
        Rollback(was);
        return;
      }
      RequeuePhase();
    }

    /** One iteration of the schedule tick, with the commit that a passive occurrence makes
        in the middle of it. */
    method TickOne(k: nat, attested: bool, daily: int, dies: bool, now: int) returns (reply: Reply)
      modifies this
      ensures Outcome(reply, Snapshot())
           == Scheduling.TickOne(old(Snapshot()), k, attested, daily, dies, now)
    {
      if k >= |schedules| || !schedules[k].enabled || schedules[k].nextRunAt.None?
         || schedules[k].nextRunAt.value > now { return Refused; }
      var was := Snapshot();
      var sched, due, id := schedules[k], schedules[k].nextRunAt.value, |executions|;
      var committed := false;
      if !Recorded(Snapshot(), k, due) {
        var open := HasOpenOccurrence(Snapshot(), k);
        var occ := Occurrence(k, due, OccPending, None);
        if now - due > ToleranceOf(sched.intervalMinutes) {
          occ := occ.(state := OccExpired);
        } else if open && sched.skipOverlap {
          occ := occ.(state := OccSkipped);
        } else if sched.cls.Passive? {
          executions := executions + [NewRow(sched.target, Some(nextGroup), Passive, Some(k), Queued,
                                             Some(now), [Change(Some(Draft), Queued, now)])];
          nextGroup := nextGroup + 1;
          occ := occ.(state := OccRunning, execution := Some(id));
          sent := sent + {id};
          committed := true;
        } else if !attested {
          occ := occ.(state := OccDenied);
        } else {
          executions := executions + [NewRow(sched.target, Some(nextGroup), Active, Some(k), Draft,
                                             None, [])];
          executions := executions[id := executions[id].(state := AwaitingApproval)];
          approvals := approvals + [Approval(nextGroup, Some(|occurrences|), Pending, None)];
          nextGroup := nextGroup + 1;
          occ := occ.(state := OccAwaiting, execution := Some(id));
        }
        occurrences := occurrences + [occ];
      }
      assert Snapshot() == TickBody(was, k, attested, now);
      if dies {
        if committed { return Ok; }
        Rollback(was);
        return Refused;
      }
      var next := daily;
      if sched.recurrence.Interval? {
        next := NextRunAfter(due, sched.intervalMinutes, now);
      }
      schedules := schedules[k := sched.(lastRunAt := Some(due), nextRunAt := Some(next))];
      return Ok;
    }
  }
}
