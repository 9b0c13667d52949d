/** When a system in which nothing runs can start something on its own: the workers, the sweep
and the reconciliation of stops, but no human and no schedule. */
module Progress {
  import opened Base
  import opened Executions
  import opened Lifecycle
  import opened RowInvariant
  import opened LifecycleInvariant
  import opened LifecycleRuns

  predicate Automatic(a: Action) {
    a.DoDeliver? || a.DoPersist? || a.DoSweep? || a.DoReconcile?
  }

  ghost predicate AllAutomatic(es: seq<Event>) {
    forall n :: 0 <= n < |es| ==> Automatic(es[n].action)
  }

  /** Nothing happens before `now`, and nothing before what it follows. */
  ghost predicate Advancing(es: seq<Event>, now: int) {
    && (forall n :: 0 <= n < |es| ==> now <= es[n].now)
    && forall m, n :: 0 <= m < n < |es| ==> es[m].now <= es[n].now
  }

  /** The time at the end of a run that starts at `now`. */
  function EndOf(es: seq<Event>, now: int): int { if es == [] then now else es[|es| - 1].now }

  ghost predicate NothingRuns(rows: seq<Execution>) {
    forall i :: 0 <= i < |rows| ==> !rows[i].state.Running?
  }

  /** Nothing is RUNNING and no stop is active. Drafts, requests and approved scans that wait
      for a human may be there in any number. */
  ghost predicate Idle(s: State) {
    ActiveStop(s.stops).None? && NothingRuns(s.executions)
  }

  /** What is still QUEUED once the sweep has run at `moment`: an active execution leaves the
      queue when its window has elapsed. */
  predicate Waits(r: Execution, moment: int) {
    r.state.Queued? && (r.cls.Active? ==> r.approvalExpiresAt.Some? && r.approvalExpiresAt.value >= moment)
  }

  /** Fewer than the limits of other executions wait at that moment. */
  predicate HasRoom(cfg: Settings, rows: seq<Execution>, i: nat, moment: int)
    requires i < |rows|
  {
    && |set j: nat | j < |rows| && j != i && Waits(rows[j], moment)| < cfg.maxGlobal
    && |set j: nat | j < |rows| && j != i && Waits(rows[j], moment)
                     && rows[j].target == rows[i].target| < cfg.maxPerTarget
  }

  /** At some moment from `now` on an execution that still waits has room. */
  ghost predicate RoomFrom(cfg: Settings, rows: seq<Execution>, now: int) {
    exists moment: int, i: nat ::
      moment >= now && i < |rows| && Waits(rows[i], moment) && HasRoom(cfg, rows, i, moment)
  }

  /** Idle, and from `now` on no execution that still waits ever has room. */
  ghost predicate Gridlocked(cfg: Settings, s: State, now: int) {
    Idle(s) && !RoomFrom(cfg, s.executions, now)
  }

  /** What is queued in `later` was queued in `rows` and has not been touched, and whatever of
      `rows` still waits at `moment` is among it. */
  ghost predicate Between(rows: seq<Execution>, later: seq<Execution>, moment: int) {
    && |later| == |rows|
    && forall i :: 0 <= i < |rows| ==>
         && (later[i].state.Queued? ==> later[i] == rows[i])
         && (Waits(rows[i], moment) ==> later[i].state.Queued?)
  }

  /** After a sweep nothing is queued but what still waits. */
  ghost predicate Swept(rows: seq<Execution>, later: seq<Execution>, moment: int) {
    && Between(rows, later, moment)
    && forall i :: 0 <= i < |rows| && later[i].state.Queued? ==> Waits(rows[i], moment)
  }

  // ---- capacity in an idle system ----------------------------------------------------------

  /** Capacity counts all that is queued, so it is no more than the room. */
  lemma CapacityIsRoom(cfg: Settings, rows: seq<Execution>, later: seq<Execution>, moment: int, i: nat)
    requires Between(rows, later, moment) && i < |rows| && later[i].state.Queued?
    requires CapacityAvailable(cfg, later, i)
    ensures HasRoom(cfg, rows, i, moment)
  {
    CapacityCountsOthers(cfg, later, i);
    hide CapacityAvailable;
    SubsetSize(set j: nat | j < |rows| && j != i && Waits(rows[j], moment),
               set j: nat | j < |later| && j != i && Occupying(later[j].state));
    SubsetSize(set j: nat | j < |rows| && j != i && Waits(rows[j], moment) && rows[j].target == rows[i].target,
               set j: nat | j < |later| && j != i && Occupying(later[j].state)
                            && later[j].target == later[i].target);
  }

  /** Right after a sweep there is capacity for all that has room. */
  lemma RoomIsCapacity(cfg: Settings, rows: seq<Execution>, later: seq<Execution>, moment: int, i: nat)
    requires RowsOk(cfg, later) && NothingRuns(later) && Swept(rows, later, moment)
    requires i < |rows| && later[i].state.Queued? && HasRoom(cfg, rows, i, moment)
    ensures CapacityAvailable(cfg, later, i)
  {
    hide CapacityAvailable;
    forall j | 0 <= j < |rows| ensures Occupying(later[j].state) ==> Waits(rows[j], moment) {
      assert RowInv(cfg, later[j]);
    }
    SubsetSize(set j: nat | j < |later| && j != i && Occupying(later[j].state),
               set j: nat | j < |rows| && j != i && Waits(rows[j], moment));
    SubsetSize(set j: nat | j < |later| && j != i && Occupying(later[j].state)
                            && later[j].target == later[i].target,
               set j: nat | j < |rows| && j != i && Waits(rows[j], moment) && rows[j].target == rows[i].target);
    CapacityCountsOthers(cfg, later, i);
  }

  // ---- automatic steps in an idle system ----------------------------------------------------

  /** The sweep of an idle system takes elapsed rows out and sends messages for the others. */
  lemma IdleSweep(cfg: Settings, s: State, now: int) returns (rows': seq<Execution>)
    requires Inv(cfg, s) && Idle(s)
    ensures Sweep(cfg, s, now).state
         == s.(executions := rows', sent := s.sent + Requeued(cfg, rows'))
    ensures Swept(s.executions, rows', now) && NothingRuns(rows')
  {
    var rows := s.executions;
    forall i | 0 <= i < |rows|
      ensures ExpireRow(cfg, rows[i], now).Row?
      ensures !ExpireRow(cfg, rows[i], now).row.state.Running?
      ensures ExpireRow(cfg, rows[i], now).row.state.Queued? <==> Waits(rows[i], now)
      ensures ExpireRow(cfg, rows[i], now).row.state.Queued? ==> ExpireRow(cfg, rows[i], now).row == rows[i]
      ensures ExpireRow(cfg, rows[i], now).row.state.Cancelling? ==> rows[i].state.Cancelling?
    {
      ExpiredRow(cfg, rows[i], now);
    }
    var rs := ExpireRows(cfg, rows, now);
    rows' := seq(|rows|, i requires 0 <= i < |rows| => rs[i].row);
    SettleCommits(s, rs, rows');
    var s1 := s.(executions := rows');
    assert Reconcile(s1).state == s1 by { IdleReconcile(s1); }
    forall i | 0 <= i < |rows'| ensures TimeoutRow(cfg, rows'[i], now) == Row(rows'[i]) {
      assert RowInv(cfg, rows[i]);
    }
    SettleCommits(s1, TimeoutRows(cfg, rows', now), rows');
  }

  lemma ExpiredRow(cfg: Settings, r: Execution, now: int)
    requires RowInv(cfg, r) && !r.state.Running?
    ensures (var x := ExpireRow(cfg, r, now);
             && x.Row? && !x.row.state.Running? && !x.row.state.Cancelling?
             && (x.row.state.Queued? <==> Waits(r, now))
             && (x.row.state.Queued? ==> x.row == r))
  {
    ExpireRowKeeps(cfg, r, now);
  }

  lemma IdleReconcile(s: State)
    requires ActiveStop(s.stops).None?
    ensures Reconcile(s).state == s
  {
    assert ReconcileStops(s.executions, s.stops) == s.stops;
  }

  /** A message starts nothing without capacity inside a window, and takes nothing that still
      waits out of the queue. */
  lemma StuckDelivery(cfg: Settings, s: State, id: nat, scopeOk: bool, now: int)
    requires Inv(cfg, s) && Idle(s) && id in s.sent
    requires Waits(s.executions[id], now) ==> !CapacityAvailable(cfg, s.executions, id)
    ensures (var t := Deliver(cfg, s, id, scopeOk, now).state;
             t.stops == s.stops && NothingRuns(t.executions) && Between(s.executions, t.executions, now))
  {
    var r := s.executions[id];
    var blocked, capacity := Blocks(ActiveStop(s.stops), id), CapacityAvailable(cfg, s.executions, id);
    assert RowInv(cfg, r) && !r.state.AwaitingApproval? && !blocked;
    PreflightRowKeeps(cfg, r, blocked, capacity, scopeOk, now);
    hide CapacityAvailable, Blocks, Inv;
    StuckRow(cfg, r, capacity, scopeOk, now);
  }

  lemma StuckRow(cfg: Settings, r: Execution, capacity: bool, scopeOk: bool, now: int)
    requires RowInv(cfg, r) && !r.state.Running? && (Waits(r, now) ==> !capacity)
    ensures (var x := PreflightRow(cfg, r, false, capacity, scopeOk, now).result;
             x.Row? ==>
               && !x.row.state.Running?
               && (x.row.state.Queued? ==> x.row == r)
               && (Waits(r, now) ==> x.row.state.Queued?))
  {
    hide TrailOk, GrantOk;
  }

  lemma StuckPersist(cfg: Settings, s: State, id: nat, parsed: bool, incomplete: bool, now: int)
    requires Inv(cfg, s) && Idle(s)
    ensures Persist(cfg, s, id, parsed, incomplete, now).state == s
  {
    if id in s.begun { assert s.executions[id := s.executions[id]] == s.executions; }
  }

  lemma BetweenTwice(rows: seq<Execution>, mid: seq<Execution>, later: seq<Execution>, first: int, second: int)
    requires Between(rows, mid, first) && Between(mid, later, second) && first <= second
    ensures Between(rows, later, second)
  {
  }

  lemma StuckStep(cfg: Settings, rows: seq<Execution>, s: State, moment: int, e: Event)
    requires Inv(cfg, s) && Idle(s) && Between(rows, s.executions, moment)
    requires Automatic(e.action) && moment <= e.now && !RoomFrom(cfg, rows, e.now)
    ensures Idle(Step(cfg, s, e).state) && Between(rows, Step(cfg, s, e).state.executions, e.now)
  {
    hide Deliver, Persist, Reconcile, Sweep, HasRoom, CapacityAvailable;
    BetweenTwice(rows, s.executions, s.executions, moment, e.now);
    match e.action
    case DoSweep =>
      var rows' := IdleSweep(cfg, s, e.now);
      BetweenTwice(rows, s.executions, rows', moment, e.now);
    case DoDeliver(id, scopeOk) =>
      if id in s.sent {
        if Waits(s.executions[id], e.now) && CapacityAvailable(cfg, s.executions, id) {
          CapacityIsRoom(cfg, rows, s.executions, e.now, id);
          assert false;
        }
        StuckDelivery(cfg, s, id, scopeOk, e.now);
        BetweenTwice(rows, s.executions, Step(cfg, s, e).state.executions, moment, e.now);
      } else {
        NotSent(cfg, s, id, scopeOk, e.now);
      }
    case DoPersist(id, parsed, incomplete) => StuckPersist(cfg, s, id, parsed, incomplete, e.now);
    case DoReconcile => IdleReconcile(s);
  }

  lemma NotSent(cfg: Settings, s: State, id: nat, scopeOk: bool, now: int)
    requires id !in s.sent
    ensures Deliver(cfg, s, id, scopeOk, now).state == s
  {
  }

  lemma {:induction false} StuckRun(cfg: Settings, s: State, now: int, es: seq<Event>)
    requires Inv(cfg, s) && Gridlocked(cfg, s, now) && AllAutomatic(es) && Advancing(es, now)
    ensures Idle(Run(cfg, s, es)) && Between(s.executions, Run(cfg, s, es).executions, EndOf(es, now))
  {
    hide Step, Inv, RoomFrom, Between, Idle;
    if es == [] {
      Untouched(s.executions, now);
    } else {
      var front, e := es[..|es| - 1], es[|es| - 1];
      StuckRun(cfg, s, now, front);
      RunInv(cfg, s, front);
      NoRoomLater(cfg, s.executions, now, e.now);
      StuckStep(cfg, s.executions, Run(cfg, s, front), EndOf(front, now), e);
    }
  }

  lemma Untouched(rows: seq<Execution>, moment: int)
    ensures Between(rows, rows, moment)
  {
  }

  lemma NoRoomLater(cfg: Settings, rows: seq<Execution>, now: int, later: int)
    requires !RoomFrom(cfg, rows, now) && now <= later
    ensures !RoomFrom(cfg, rows, later)
  {
    hide HasRoom, Waits;
  }

  lemma RowsOfInv(cfg: Settings, s: State)
    requires Inv(cfg, s)
    ensures RowsOk(cfg, s.executions)
  {
  }

  // ---- main results --------------------------------------------------------------------

  /** QUEUED executions count one another. If from now on none that still waits ever has room,
      no sequence of deliveries, persists, sweeps and reconciliations starts anything, and each
      execution stays queued as it is, an active one until its window has elapsed. */
  lemma GridlockIsForever(cfg: Settings, s: State, now: int, es: seq<Event>, i: nat)
    requires Inv(cfg, s) && Gridlocked(cfg, s, now)
    requires AllAutomatic(es) && Advancing(es, now) && i < |s.executions|
    ensures NothingRuns(Run(cfg, s, es).executions)
    ensures i < |Run(cfg, s, es).executions|
    ensures (var r, r' := s.executions[i], Run(cfg, s, es).executions[i];
             && (r'.state.Queued? ==> r' == r)
             && (Waits(r, EndOf(es, now)) ==> r' == r))
  {
    StuckRun(cfg, s, now, es);
    hide Run;
  }

  /** What the workers and the sweep can do on their own from `now` on. */
  ghost predicate CanStartSomething(cfg: Settings, s: State, now: int) {
    exists es: seq<Event> ::
      AllAutomatic(es) && Advancing(es, now) && !NothingRuns(Run(cfg, s, es).executions)
  }

  lemma RunTwo(cfg: Settings, s: State, e1: Event, e2: Event)
    ensures Run(cfg, s, [e1, e2]) == Step(cfg, Step(cfg, s, e1).state, e2).state
  {
    hide Step;
    assert [e1, e2][..1] == [e1] && [e1][..0] == [];
    assert Run(cfg, s, [e1]) == Step(cfg, Run(cfg, s, []), e1).state;
  }

  lemma RoomStarts(cfg: Settings, s: State, i: nat, now: int)
    requires Inv(cfg, s) && Idle(s) && i in s.sent
    requires Waits(s.executions[i], now) && CapacityAvailable(cfg, s.executions, i)
    ensures i < |Deliver(cfg, s, i, true, now).state.executions|
    ensures Deliver(cfg, s, i, true, now).state.executions[i].state.Running?
  {
    assert RowInv(cfg, s.executions[i]);
    hide Inv, CapacityAvailable;
  }

  /** After a sweep at that moment a message for it is on its way, and it starts. */
  lemma SweptAndDelivered(cfg: Settings, s: State, now: int, moment: int, i: nat)
    requires Inv(cfg, s) && Idle(s) && i < |s.executions| && moment >= now
    requires Waits(s.executions[i], moment) && HasRoom(cfg, s.executions, i, moment)
    ensures CanStartSomething(cfg, s, now)
  {
    hide HasRoom, CapacityAvailable, Deliver, Sweep, Inv;
    var es := [Event(DoSweep, moment), Event(DoDeliver(i, true), moment)];
    SweepSafe(cfg, s, moment);
    var rows' := IdleSweep(cfg, s, moment);
    var t := Sweep(cfg, s, moment).state;
    RowsOfInv(cfg, t);
    RoomIsCapacity(cfg, s.executions, rows', moment, i);
    RoomStarts(cfg, t, i, moment);
    RunTwo(cfg, s, es[0], es[1]);
    assert AllAutomatic(es) && Advancing(es, now);
    assert !NothingRuns(Run(cfg, s, es).executions);
  }

  /** An idle system can start something on its own from now on if and only if, at some moment
      from now on, an execution that still waits sees fewer than the limits of others that still
      wait. */
  lemma IdleProgressesExactlyWhen(cfg: Settings, s: State, now: int)
    requires Inv(cfg, s) && Idle(s)
    ensures CanStartSomething(cfg, s, now) <==>
            exists moment: int, i: nat ::
              && moment >= now && i < |s.executions|
              && Waits(s.executions[i], moment) && HasRoom(cfg, s.executions, i, moment)
  {
    hide Inv, HasRoom;
    if RoomFrom(cfg, s.executions, now) {
      var moment: int, i: nat :| moment >= now && i < |s.executions| && Waits(s.executions[i], moment)
                                 && HasRoom(cfg, s.executions, i, moment);
      SweptAndDelivered(cfg, s, now, moment, i);
    } else if CanStartSomething(cfg, s, now) {
      var es: seq<Event> :|
        AllAutomatic(es) && Advancing(es, now) && !NothingRuns(Run(cfg, s, es).executions);
      StuckRun(cfg, s, now, es);
    }
  }

  /** With the default limits (two executions, one per target) two passive scans queued on
      the same target are already stuck, from whatever moment on. */
  lemma GridlockIsReachable(cfg: Settings, now: int, present: int)
    requires cfg.maxGlobal == 2 && cfg.maxPerTarget == 1
    ensures Gridlocked(cfg, Reached(cfg, [Event(DoQueuePassive(0), now), Event(DoQueuePassive(0), now)]), present)
  {
    var e := Event(DoQueuePassive(0), now);
    var s := Reached(cfg, [e, e]);
    RunTwo(cfg, Initial, e, e);
    assert s == QueuePassive(QueuePassive(Initial, 0, now).state, 0, now).state;
    assert |s.executions| == 2;
    forall moment: int, i: nat | i < 2 && Waits(s.executions[i], moment)
      ensures !HasRoom(cfg, s.executions, i, moment)
    {
      assert (set j: nat | j < 2 && j != i && Waits(s.executions[j], moment)
                           && s.executions[j].target == s.executions[i].target) == {1 - i};
    }
  }
}
