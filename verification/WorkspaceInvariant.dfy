/** What every transaction of the lab workspace keeps. */
module WorkspaceInvariant {
  import opened Base
  import opened Sanitizer
  import opened Streams
  import opened Workspaces

  // ---- the invariant ---------------------------------------------------------------

  /** Fencing tokens are fresh and at most one lease per session is active. */
  predicate LeasesOk(leases: seq<Lease>, sessions: nat) {
    && (forall i :: 0 <= i < |leases| ==> leases[i].token == i && leases[i].session < sessions)
    && forall i, j :: 0 <= i < j < |leases| && leases[i].active && leases[j].active ==>
                        leases[i].session != leases[j].session
  }

  predicate OneLive(sessions: seq<Session>) {
    forall i, j :: 0 <= i < j < |sessions| && Live(sessions[i].state) && Live(sessions[j].state) ==>
                     sessions[i].attempt != sessions[j].attempt
  }

  predicate OneGrant(grants: seq<TerminalGrant>) {
    forall i, j :: 0 <= i < j < |grants| && grants[i].active && grants[j].active ==>
                     grants[i].session != grants[j].session
  }

  /** How often an action ran for a request and its record was kept. */
  function RecordedRuns(effects: seq<Effect>, session: nat, request: string): nat {
    if effects == [] then 0
    else
      RecordedRuns(effects[..|effects| - 1], session, request)
      + if effects[|effects| - 1] == Ran(session, request, true) then 1 else 0
  }

  /** How many actions ran in a session and left a record. */
  function SessionRuns(effects: seq<Effect>, session: nat): nat {
    if effects == [] then 0
    else
      var last := effects[|effects| - 1];
      SessionRuns(effects[..|effects| - 1], session)
      + if last.Ran? && last.session == session && last.recorded then 1 else 0
  }

  function Echoes(effects: seq<Effect>, session: nat, request: string): nat {
    if effects == [] then 0
    else
      Echoes(effects[..|effects| - 1], session, request)
      + if effects[|effects| - 1] == Echoed(session, request) then 1 else 0
  }

  predicate CountsAsRun(r: Option<Record>) { r.Some? && Counted(r.value.state) }

  predicate CountsAsEcho(r: Option<Receipt>) { r.Some? && r.value.verdict.Accepted? }

  predicate RunsMatch(s: State, session: nat, request: string) {
    RecordedRuns(s.effects, session, request)
    == if CountsAsRun(FindRecord(s.records, session, request)) then 1 else 0
  }

  predicate EchoesMatch(s: State, session: nat, request: string) {
    Echoes(s.effects, session, request)
    == if CountsAsEcho(FindReceipt(s.receipts, session, request)) then 1 else 0
  }

  predicate InOrder(receipts: seq<Receipt>) {
    forall i :: 0 <= i < |receipts| ==> receipts[i].number == i + 1
  }

  ghost predicate RecordsOk(s: State) {
    && (forall session: nat ::
          SessionRuns(s.effects, session) == Used(s.records, session) <= TOTAL_INVOCATION_LIMIT)
    && (forall session: nat, request: string :: RunsMatch(s, session, request))
    && forall i :: 0 <= i < |s.records| && s.records[i].state.Completed? && s.records[i].action == "terminate" ==>
                     s.records[i].session < |s.sessions| && Dead(s.sessions[s.records[i].session].state)
  }

  ghost predicate FramesOk(s: State) {
    && (forall session: nat :: InOrder(ReceiptsOf(s.receipts, session)))
    && forall session: nat, request: string :: EchoesMatch(s, session, request)
  }

  ghost predicate Inv(s: State) {
    && LeasesOk(s.leases, |s.sessions|)
    && OneLive(s.sessions)
    && OneGrant(s.grants)
    && RecordsOk(s)
    && FramesOk(s)
    && Healthy(s.events)
  }

  // ---- how a state may evolve ----------------------------------------------------------

  predicate Moves(a: SessionState, b: SessionState) {
    || a == b
    || Dead(b)
    || (TakesInput(a) && TakesInput(b))
    || (a.Unverified? && TakesInput(b))
  }

  predicate SessionMoves(a: Session, b: Session) {
    && a.attempt == b.attempt && a.expiresAt == b.expiresAt
    && Moves(a.state, b.state)
    && (Dead(a.state) ==> Dead(b.state))
  }

  predicate LeaseMoves(a: Lease, b: Lease) {
    a.session == b.session && a.holder == b.holder && a.token == b.token && (b.active ==> a.active)
  }

  predicate SessionsGrow(a: seq<Session>, b: seq<Session>) {
    |a| <= |b| && forall i :: 0 <= i < |a| ==> SessionMoves(a[i], b[i])
  }

  predicate LeasesGrow(a: seq<Lease>, b: seq<Lease>) {
    |a| <= |b| && forall i :: 0 <= i < |a| ==> LeaseMoves(a[i], b[i])
  }

  /** Rows stay, dead sessions stay dead, inactive leases stay inactive, and records, receipts,
      effects and events are never changed. */
  predicate Grows(s: State, t: State) {
    && SessionsGrow(s.sessions, t.sessions)
    && LeasesGrow(s.leases, t.leases)
    && s.records <= t.records && s.receipts <= t.receipts
    && s.effects <= t.effects && s.events <= t.events
  }

  ghost predicate Safe(s: State, t: State) { Inv(t) && Grows(s, t) }

  // ---- sessions and leases -------------------------------------------------------------

  /** The tables that session and lease operations leave alone. */
  predicate SameWork(s: State, t: State) {
    && t.records == s.records && t.receipts == s.receipts && t.effects == s.effects
    && t.events == s.events && t.grants == s.grants
  }

  lemma SafeByParts(s: State, t: State)
    requires Inv(s) && SameWork(s, t)
    requires SessionsGrow(s.sessions, t.sessions) && LeasesGrow(s.leases, t.leases)
    requires LeasesOk(t.leases, |t.sessions|) && OneLive(t.sessions)
    ensures Safe(s, t)
  {
    forall session: nat, request: string
      ensures RunsMatch(t, session, request) && EchoesMatch(t, session, request)
    {
      assert RunsMatch(s, session, request) && EchoesMatch(s, session, request);
    }
    forall i | 0 <= i < |t.records| && t.records[i].state.Completed? && t.records[i].action == "terminate"
      ensures t.records[i].session < |t.sessions| && Dead(t.sessions[t.records[i].session].state)
    {
      assert SessionMoves(s.sessions[s.records[i].session], t.sessions[s.records[i].session]);
    }
  }

  /** Releasing deactivates every lease of the session, because at most one is active. */
  lemma ReleaseExactly(s: State, session: nat)
    requires session < |s.sessions| && LeasesOk(s.leases, |s.sessions|)
    ensures (var t := Release(s, session);
             && SameWork(s, t)
             && |t.leases| == |s.leases|
             && (forall i :: 0 <= i < |s.leases| ==>
                   t.leases[i] == if s.leases[i].session == session
                                  then s.leases[i].(active := false) else s.leases[i])
             && t.sessions == if s.sessions[session].state.Controlled?
                              then SetState(s, session, Ready).sessions else s.sessions)
    ensures LeasesOk(Release(s, session).leases, |s.sessions|)
    ensures ActiveLease(Release(s, session).leases, session).None?
  {
  }

  lemma EndSafe(s: State, session: nat, st: SessionState)
    requires Inv(s) && session < |s.sessions| && Dead(st)
    ensures Safe(s, Release(SetState(s, session, st), session))
  {
    var t := SetState(s, session, st);
    ReleaseExactly(t, session);
    var u := Release(t, session);
    assert u.sessions == t.sessions;
    SafeByParts(s, u);
  }

  lemma TerminateSafe(s: State, session: nat)
    requires Inv(s)
    ensures Safe(s, Terminate(s, session).state)
  {
    if session < |s.sessions| {
      var t := SetState(s, session, Stopping);
      ReleaseExactly(t, session);
      var u := Terminate(s, session).state;
      assert u.sessions == SetState(s, session, Closed).sessions;
      SafeByParts(s, u);
    }
  }

  lemma ReleaseSafe(s: State, session: nat)
    requires Inv(s)
    ensures Safe(s, ReleaseLease(s, session).state)
  {
    if session < |s.sessions| {
      ReleaseExactly(s, session);
      SafeByParts(s, Release(s, session));
    } else {
      SafeByParts(s, s);
    }
  }

  lemma EstablishSafe(s: State, attempt: nat, lifetime: int, now: int)
    requires Inv(s)
    ensures Safe(s, Establish(s, attempt, lifetime, now).state)
  {
    var t := Establish(s, attempt, lifetime, now).state;
    assert OneLive(t.sessions) by {
      forall i, j | 0 <= i < j < |t.sessions| && Live(t.sessions[i].state) && Live(t.sessions[j].state)
        ensures t.sessions[i].attempt != t.sessions[j].attempt
      {
        assert t.sessions[i] == s.sessions[i];
      }
    }
    SafeByParts(s, t);
  }

  lemma VerifySafe(s: State, session: nat, associated: bool)
    requires Inv(s)
    ensures Safe(s, Verify(s, session, associated).state)
  {
    SafeByParts(s, Verify(s, session, associated).state);
  }

  lemma ListenSafe(s: State, attempt: nat, boundaryOk: bool, fromFixture: bool, lifetime: int, now: int)
    requires Inv(s)
    ensures Safe(s, Listen(s, attempt, boundaryOk, fromFixture, lifetime, now).state)
  {
    EstablishSafe(s, attempt, lifetime, now);
    var t := Establish(s, attempt, lifetime, now).state;
    VerifySafe(t, |s.sessions|, fromFixture);
    SafeByParts(s, s);
  }

  lemma GrowsTwice(s: State, t: State, u: State)
    requires Grows(s, t) && Grows(t, u)
    ensures Grows(s, u)
  {
    forall i | 0 <= i < |s.sessions| ensures SessionMoves(s.sessions[i], u.sessions[i]) {
      assert SessionMoves(s.sessions[i], t.sessions[i]) && SessionMoves(t.sessions[i], u.sessions[i]);
    }
    forall i | 0 <= i < |s.leases| ensures LeaseMoves(s.leases[i], u.leases[i]) {
      assert LeaseMoves(s.leases[i], t.leases[i]) && LeaseMoves(t.leases[i], u.leases[i]);
    }
  }

  lemma IssueSafe(s: State, session: nat, holder: string, now: int)
    requires Inv(s) && session < |s.sessions| && ActiveLease(s.leases, session).None?
    ensures Safe(s, Issue(s, session, holder, now).state)
  {
    var t := Issue(s, session, holder, now).state;
    assert t.leases[..|s.leases|] == s.leases;
    SafeByParts(s, t);
  }

  /** Fencing out the active lease leaves the session without one. */
  lemma DeactivateSafe(s: State, session: nat)
    requires Inv(s) && ActiveLease(s.leases, session).Some?
    ensures (var t := s.(leases := Deactivate(s.leases, ActiveLease(s.leases, session).value));
             Safe(s, t) && ActiveLease(t.leases, session).None?)
  {
    SafeByParts(s, s.(leases := Deactivate(s.leases, ActiveLease(s.leases, session).value)));
  }

  lemma AcquireSafe(s: State, session: nat, holder: string, takeover: bool, now: int)
    requires Inv(s)
    ensures Safe(s, AcquireLease(s, session, holder, takeover, now).state)
  {
    hide Inv, Grows, Issue;
    Unchanged(s);
    if session < |s.sessions| {
      var current := ActiveLease(s.leases, session);
      if current.None? {
        IssueSafe(s, session, holder, now);
      } else {
        var lease := s.leases[current.value];
        RenewSafe(s, current.value, now);
        DeactivateSafe(s, session);
        var t := s.(leases := Deactivate(s.leases, current.value));
        IssueSafe(t, session, holder, now);
        GrowsTwice(s, t, Issue(t, session, holder, now).state);
      }
    }
  }

  lemma RenewSafe(s: State, i: nat, now: int)
    requires Inv(s) && i < |s.leases|
    ensures Safe(s, s.(leases := s.leases[i := s.leases[i].(expiresAt := now + LEASE_SECONDS)]))
  {
    SafeByParts(s, s.(leases := s.leases[i := s.leases[i].(expiresAt := now + LEASE_SECONDS)]));
  }

  lemma Unchanged(s: State)
    requires Inv(s)
    ensures Safe(s, s)
  {
    SafeByParts(s, s);
  }

  lemma HeartbeatSafe(s: State, session: nat, token: nat, now: int)
    requires Inv(s)
    ensures Safe(s, Heartbeat(s, session, token, now).state)
  {
    Unchanged(s);
    var current := ActiveLease(s.leases, session);
    if current.Some? { RenewSafe(s, current.value, now); }
  }

  lemma GiveUpExactly(s: State, session: nat)
    requires session < |s.sessions| && LeasesOk(s.leases, |s.sessions|)
    ensures (var t := GiveUp(s, session);
             && SameWork(s, t) && LeasesOk(t.leases, |s.sessions|)
             && t.sessions == s.sessions[session := s.sessions[session].(state := Lost)]
             && |t.leases| == |s.leases|
             && forall i :: 0 <= i < |s.leases| ==>
                  t.leases[i] == if s.leases[i].session == session
                                 then s.leases[i].(active := false) else s.leases[i])
  {
    ReleaseExactly(SetState(s, session, Lost), session);
  }

  predicate SessionsReconciled(s: State, t: State, gone: set<nat>, now: int, n: nat)
    requires n <= |s.sessions| && |t.sessions| == |s.sessions|
  {
    forall i :: 0 <= i < |s.sessions| ==>
                  t.sessions[i] == if i < n && Reconcilable(s.sessions[i], gone, now)
                                   then s.sessions[i].(state := Lost) else s.sessions[i]
  }

  predicate LeasesReconciled(s: State, t: State, gone: set<nat>, now: int, n: nat)
    requires n <= |s.sessions| && LeasesOk(s.leases, |s.sessions|)
  {
    && |t.leases| == |s.leases|
    && forall i :: 0 <= i < |s.leases| ==>
                     t.leases[i] ==
                       if s.leases[i].session < n && Reconcilable(s.sessions[s.leases[i].session], gone, now)
                       then s.leases[i].(active := false) else s.leases[i]
  }

  /** A restart gives up exactly the sessions that are past their lifetime or whose attempt is
      over, and takes the leases of exactly those away. */
  lemma {:induction false} ReconcileExactly(s: State, gone: set<nat>, now: int, n: nat)
    requires LeasesOk(s.leases, |s.sessions|) && n <= |s.sessions|
    ensures (var t := ReconcileFirst(s, gone, now, n);
             && SameWork(s, t)
             && LeasesOk(t.leases, |s.sessions|)
             && SessionsReconciled(s, t, gone, now, n)
             && LeasesReconciled(s, t, gone, now, n))
  {
    hide Reconcilable, LeasesOk, GiveUp;
    if n > 0 {
      ReconcileExactly(s, gone, now, n - 1);
      var t := ReconcileFirst(s, gone, now, n - 1);
      if Reconcilable(s.sessions[n - 1], gone, now) { GiveUpExactly(t, n - 1); }
    }
  }

  lemma ReconcileSafe(s: State, gone: set<nat>, now: int)
    requires Inv(s)
    ensures Safe(s, ReconcileSessions(s, gone, now).state)
  {
    ReconcileExactly(s, gone, now, |s.sessions|);
    SafeByParts(s, ReconcileSessions(s, gone, now).state);
  }

  // ---- guided actions, frames and other output -----------------------------------------

  /** The tables that guided actions and frames leave alone, once sessions are settled. */
  lemma WriteSafe(s: State, attempt: nat, w: Write)
    requires Inv(s)
    ensures Safe(s, s.(events := Append(s.events, attempt, w)))
  {
    hide LeasesOk, OneLive, OneGrant, Healthy, Append, SessionsGrow, LeasesGrow;
    Unchanged(s);
    AppendHealthy(s.events, attempt, w);
    var t := s.(events := Append(s.events, attempt, w));
    assert s.events <= t.events by { AppendGrows(s.events, attempt, w); }
    forall session: nat, request: string
      ensures RunsMatch(t, session, request) && EchoesMatch(t, session, request)
    {
      assert RunsMatch(s, session, request) && EchoesMatch(s, session, request);
    }
  }

  lemma AppendGrows(events: seq<StreamEvent>, attempt: nat, w: Write)
    ensures events <= Append(events, attempt, w)
  {
  }

  lemma RecordAdded(records: seq<Record>, r: Record, session: nat, request: string)
    requires FindRecord(records, r.session, r.request).None?
    ensures FindRecord(records + [r], session, request)
         == if r.session == session && r.request == request then Some(r)
            else FindRecord(records, session, request)
    ensures Used(records + [r], session)
         == Used(records, session) + if r.session == session && Counted(r.state) then 1 else 0
  {
    assert (records + [r])[..|records|] == records;
  }

  lemma EffectAdded(effects: seq<Effect>, e: Effect, session: nat, request: string)
    ensures RecordedRuns(effects + [e], session, request)
         == RecordedRuns(effects, session, request) + if e == Ran(session, request, true) then 1 else 0
    ensures Echoes(effects + [e], session, request)
         == Echoes(effects, session, request) + if e == Echoed(session, request) then 1 else 0
    ensures SessionRuns(effects + [e], session)
         == SessionRuns(effects, session)
            + if e.Ran? && e.session == session && e.recorded then 1 else 0
  {
    assert (effects + [e])[..|effects|] == effects;
  }

  lemma RecordMatches(s: State, r: Record, ran: seq<Effect>, session: nat, request: string)
    requires RunsMatch(s, session, request) && EchoesMatch(s, session, request)
    requires RunsMatch(s, r.session, r.request)
    requires FindRecord(s.records, r.session, r.request).None?
    requires ran == if Counted(r.state) then [Ran(r.session, r.request, true)] else []
    ensures (var t := s.(records := s.records + [r], effects := s.effects + ran);
             RunsMatch(t, session, request) && EchoesMatch(t, session, request))
  {
    hide FindRecord, FindReceipt, Counted, Used, RecordedRuns, Echoes, SessionRuns;
    RecordAdded(s.records, r, session, request);
    if Counted(r.state) {
      var e := Ran(r.session, r.request, true);
      assert ran == [e];
      EffectAdded(s.effects, e, session, request);
    } else {
      assert s.effects + ran == s.effects;
    }
  }

  lemma RecordCounts(s: State, r: Record, ran: seq<Effect>, session: nat)
    requires SessionRuns(s.effects, session) == Used(s.records, session)
    requires FindRecord(s.records, r.session, r.request).None?
    requires ran == if Counted(r.state) then [Ran(r.session, r.request, true)] else []
    ensures SessionRuns(s.effects + ran, session) == Used(s.records + [r], session)
         == Used(s.records, session) + if r.session == session && Counted(r.state) then 1 else 0
  {
    hide FindRecord, Counted, Used, SessionRuns, RecordedRuns, Echoes;
    RecordAdded(s.records, r, session, r.request);
    if Counted(r.state) {
      var e := Ran(r.session, r.request, true);
      assert ran == [e];
      EffectAdded(s.effects, e, session, r.request);
    } else {
      assert s.effects + ran == s.effects;
    }
  }

  /** Adding a record, together with the effect that a counted one stands for. */
  lemma RecordSafe(s: State, r: Record, ran: seq<Effect>)
    requires Inv(s) && FindRecord(s.records, r.session, r.request).None?
    requires ran == if Counted(r.state) then [Ran(r.session, r.request, true)] else []
    requires Counted(r.state) ==> Used(s.records, r.session) < TOTAL_INVOCATION_LIMIT
    requires r.state.Completed? && r.action == "terminate" ==>
               r.session < |s.sessions| && Dead(s.sessions[r.session].state)
    ensures Safe(s, s.(records := s.records + [r], effects := s.effects + ran))
  {
    hide LeasesOk, OneLive, OneGrant, Healthy, SessionsGrow, LeasesGrow, FindRecord, FindReceipt;
    hide RunsMatch, EchoesMatch, Used, SessionRuns, InOrder, ReceiptsOf, Counted, Dead;
    Unchanged(s);
    var t := s.(records := s.records + [r], effects := s.effects + ran);
    forall session: nat
      ensures SessionRuns(t.effects, session) == Used(t.records, session) <= TOTAL_INVOCATION_LIMIT
    {
      RecordCounts(s, r, ran, session);
    }
    forall session: nat, request: string
      ensures RunsMatch(t, session, request) && EchoesMatch(t, session, request)
    {
      assert RunsMatch(s, session, request) && EchoesMatch(s, session, request);
      assert RunsMatch(s, r.session, r.request);
      RecordMatches(s, r, ran, session, request);
    }
  }

  lemma RaisedSafe(s: State, session: nat, request: string)
    requires Inv(s)
    ensures Safe(s, s.(effects := s.effects + [Ran(session, request, false)]))
  {
    hide LeasesOk, OneLive, OneGrant, Healthy, SessionsGrow, LeasesGrow, FindRecord, FindReceipt;
    Unchanged(s);
    var t := s.(effects := s.effects + [Ran(session, request, false)]);
    forall any: nat, name: string ensures RunsMatch(t, any, name) && EchoesMatch(t, any, name) {
      assert RunsMatch(s, any, name) && EchoesMatch(s, any, name);
      EffectAdded(s.effects, Ran(session, request, false), any, name);
    }
    forall any: nat ensures SessionRuns(t.effects, any) == Used(t.records, any) {
      EffectAdded(s.effects, Ran(session, request, false), any, request);
    }
  }

  lemma PerformSafe(s: State, session: nat, action: string, request: string, result: Result)
    requires Inv(s) && session < |s.sessions| && FindRecord(s.records, session, request).None?
    requires Used(s.records, session) < TOTAL_INVOCATION_LIMIT
    ensures Safe(s, Perform(s, session, action, request, result).state)
  {
    hide Inv, Grows, FindRecord, Used, Append, Sanitize, Release;
    var attempt := s.sessions[session].attempt;
    var ran := [Ran(session, request, true)];
    match result
    case Raised => RaisedSafe(s, session, request);
    case Timeout =>
      var w := WriteGap("guided action outcome unknown");
      var t := s.(events := Append(s.events, attempt, w));
      WriteSafe(s, attempt, w);
      var r := Record(session, request, action, OutcomeUnknown, TimedOut, "");
      RecordSafe(t, r, ran);
      GrowsTwice(s, t, t.(records := t.records + [r], effects := t.effects + ran));
    case Returned(text) =>
      var output := Sanitize(text, MaxBytes(action));
      var w := WriteOutput("[" + action + "] " + output);
      var t := s.(events := Append(s.events, attempt, w));
      WriteSafe(s, attempt, w);
      var u := if action == "terminate" then Release(SetState(t, session, Closed), session) else t;
      Closing(t, s.effects + ran, session);
      if action == "terminate" {
        EndSafe(t, session, Closed);
        GrowsTwice(s, t, u);
      }
      var r := Record(session, request, action, Completed, Fine, output);
      RecordSafe(u, r, ran);
      GrowsTwice(s, u, u.(records := u.records + [r], effects := u.effects + ran));
  }

  /** Closing a session and noting an effect can be done in either order. */
  lemma Closing(s: State, effects: seq<Effect>, session: nat)
    requires Inv(s) && session < |s.sessions|
    ensures (var t := Release(SetState(s, session, Closed), session);
             && SameWork(s, t)
             && |t.sessions| == |s.sessions| && Dead(t.sessions[session].state)
             && Release(SetState(s.(effects := effects), session, Closed), session)
                == t.(effects := effects))
  {
    ReleaseExactly(SetState(s, session, Closed), session);
  }

  lemma DispatchSafe(s: State, session: nat, granted: set<string>, action: string,
                     params: map<string, Param>, token: nat, request: string, result: Result, now: int)
    requires Inv(s)
    ensures Safe(s, Dispatch(s, session, granted, action, params, token, request, result, now).state)
  {
    hide Inv, Grows, FindRecord, AcceptsInput, ParamsOk, Perform, Used;
    Unchanged(s);
    if session < |s.sessions| && FindRecord(s.records, session, request).None? {
      var objection := Objection(s, session, granted, action, params, token, now);
      if objection == Fine {
        PerformSafe(s, session, action, request, result);
      } else {
        var r := Record(session, request, action, Rejected, objection, "");
        RecordSafe(s, r, []);
        assert s.effects + [] == s.effects;
      }
    }
  }

  // ---- terminal frames -------------------------------------------------------------------

  lemma GrantSafe(s: State, session: nat, attested: bool, seconds: nat, now: int)
    requires Inv(s)
    ensures Safe(s, GrantTerminal(s, session, attested, seconds, now).state)
  {
    Unchanged(s);
    var t := GrantTerminal(s, session, attested, seconds, now).state;
    assert OneGrant(t.grants);
    forall any: nat, request: string ensures RunsMatch(t, any, request) && EchoesMatch(t, any, request) {
      assert RunsMatch(s, any, request) && EchoesMatch(s, any, request);
    }
  }

  lemma {:induction false} HighestOfOrdered(receipts: seq<Receipt>)
    requires InOrder(receipts)
    ensures HighestReceipt(receipts) == |receipts|
  {
    if receipts != [] { HighestOfOrdered(receipts[..|receipts| - 1]); }
  }

  lemma ReceiptAdded(receipts: seq<Receipt>, r: Receipt, session: nat, request: string)
    requires FindReceipt(receipts, r.session, r.request).None?
    ensures FindReceipt(receipts + [r], session, request)
         == if r.session == session && r.request == request then Some(r)
            else FindReceipt(receipts, session, request)
    ensures ReceiptsOf(receipts + [r], session)
         == ReceiptsOf(receipts, session) + if r.session == session then [r] else []
  {
    assert (receipts + [r])[..|receipts|] == receipts;
  }

  lemma StaysInOrder(receipts: seq<Receipt>, r: Receipt, session: nat)
    requires FindReceipt(receipts, r.session, r.request).None?
    requires InOrder(ReceiptsOf(receipts, r.session)) && InOrder(ReceiptsOf(receipts, session))
    requires r.number == HighestReceipt(ReceiptsOf(receipts, r.session)) + 1
    ensures InOrder(ReceiptsOf(receipts + [r], session))
  {
    ReceiptAdded(receipts, r, session, r.request);
    HighestOfOrdered(ReceiptsOf(receipts, r.session));
  }

  lemma ReceiptMatches(s: State, r: Receipt, echoed: seq<Effect>, session: nat, request: string)
    requires RunsMatch(s, session, request) && EchoesMatch(s, session, request)
    requires FindReceipt(s.receipts, r.session, r.request).None?
    requires EchoesMatch(s, r.session, r.request)
    requires echoed == if r.verdict.Accepted? then [Echoed(r.session, r.request)] else []
    ensures (var t := s.(receipts := s.receipts + [r], effects := s.effects + echoed);
             RunsMatch(t, session, request) && EchoesMatch(t, session, request))
  {
    hide FindRecord, FindReceipt, ReceiptsOf, Counted, RecordedRuns, Echoes, SessionRuns;
    ReceiptAdded(s.receipts, r, session, request);
    if r.verdict.Accepted? {
      var e := Echoed(r.session, r.request);
      assert echoed == [e];
      EffectAdded(s.effects, e, session, request);
    } else {
      assert s.effects + echoed == s.effects;
    }
  }

  lemma ReceiptSafe(s: State, r: Receipt, echoed: seq<Effect>)
    requires Inv(s) && FindReceipt(s.receipts, r.session, r.request).None?
    requires r.number == HighestReceipt(ReceiptsOf(s.receipts, r.session)) + 1
    requires echoed == if r.verdict.Accepted? then [Echoed(r.session, r.request)] else []
    ensures Safe(s, s.(receipts := s.receipts + [r], effects := s.effects + echoed))
  {
    hide LeasesOk, OneLive, OneGrant, Healthy, SessionsGrow, LeasesGrow, FindRecord, FindReceipt;
    hide InOrder, ReceiptsOf, HighestReceipt, RunsMatch, EchoesMatch, Used, SessionRuns;
    Unchanged(s);
    var t := s.(receipts := s.receipts + [r], effects := s.effects + echoed);
    forall session: nat ensures SessionRuns(t.effects, session) == SessionRuns(s.effects, session) {
      if r.verdict.Accepted? {
        EffectAdded(s.effects, echoed[0], session, r.request);
      } else {
        assert s.effects + echoed == s.effects;
      }
    }
    forall session: nat ensures InOrder(ReceiptsOf(t.receipts, session)) {
      assert InOrder(ReceiptsOf(s.receipts, session)) && InOrder(ReceiptsOf(s.receipts, r.session));
      StaysInOrder(s.receipts, r, session);
    }
    forall session: nat, request: string
      ensures RunsMatch(t, session, request) && EchoesMatch(t, session, request)
    {
      assert RunsMatch(s, session, request) && EchoesMatch(s, session, request);
      assert EchoesMatch(s, r.session, r.request);
      ReceiptMatches(s, r, echoed, session, request);
    }
  }

  lemma FrameSafe(s: State, session: nat, token: nat, input: string, request: string, now: int)
    requires Inv(s)
    ensures Safe(s, SubmitFrame(s, session, token, input, request, now).state)
  {
    hide Inv, Grows, FindReceipt, AcceptsInput, Append, Utf8Length, EchoText, ActiveGrant, ReceiptsOf;
    hide HighestReceipt;
    Unchanged(s);
    if session < |s.sessions| && FindReceipt(s.receipts, session, request).None? {
      var bytes := Utf8Length(input);
      var verdict := FrameObjection(s, session, token, bytes, now);
      var number := HighestReceipt(ReceiptsOf(s.receipts, session)) + 1;
      var r := Receipt(session, request, number, bytes, verdict);
      if verdict == Accepted {
        var echoed := [Echoed(session, request)];
        ReceiptSafe(s, r, echoed);
        var t := s.(receipts := s.receipts + [r], effects := s.effects + echoed);
        var attempt, w := s.sessions[session].attempt, WriteOutput(EchoText(input));
        WriteSafe(t, attempt, w);
        GrowsTwice(s, t, t.(events := Append(t.events, attempt, w)));
      } else {
        ReceiptSafe(s, r, []);
        assert s.effects + [] == s.effects;
      }
    }
  }
}
