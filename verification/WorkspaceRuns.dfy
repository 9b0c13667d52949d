/** Safety of the lab workspace over whole runs: any interleaving of its transactions, from the
empty workspace, with clock readings that need not advance. */
module WorkspaceRuns {
  import opened Base
  import opened Sanitizer
  import opened Streams
  import opened Workspaces
  import opened WorkspaceInvariant

  datatype Action =
    | DoEstablish(attempt: nat, lifetime: int)
    | DoVerify(session: nat, associated: bool)
    | DoListen(attempt: nat, boundaryOk: bool, fromFixture: bool, lifetime: int)
    | DoAcquire(session: nat, holder: string, takeover: bool)
    | DoHeartbeat(session: nat, token: nat)
    | DoRelease(session: nat)
    | DoQuarantine(session: nat)
    | DoTerminate(session: nat)
    | DoReconcile(gone: set<nat>)
    | DoDispatch(session: nat, granted: set<string>, action: string, params: map<string, Param>,
                 token: nat, request: string, result: Result)
    | DoGrant(session: nat, attested: bool, seconds: nat)
    | DoFrame(session: nat, token: nat, input: string, request: string)
    | DoWrite(attempt: nat, write: Write)

  datatype Event = Event(action: Action, now: int)

  function Step(s: State, e: Event): Outcome {
    match e.action
    case DoEstablish(attempt, lifetime) => Establish(s, attempt, lifetime, e.now)
    case DoVerify(session, associated) => Verify(s, session, associated)
    case DoListen(attempt, boundaryOk, fromFixture, lifetime) =>
      Listen(s, attempt, boundaryOk, fromFixture, lifetime, e.now)
    case DoAcquire(session, holder, takeover) => AcquireLease(s, session, holder, takeover, e.now)
    case DoHeartbeat(session, token) => Heartbeat(s, session, token, e.now)
    case DoRelease(session) => ReleaseLease(s, session)
    case DoQuarantine(session) => Quarantine(s, session)
    case DoTerminate(session) => Terminate(s, session)
    case DoReconcile(gone) => ReconcileSessions(s, gone, e.now)
    case DoDispatch(session, granted, action, params, token, request, result) =>
      Dispatch(s, session, granted, action, params, token, request, result, e.now)
    case DoGrant(session, attested, seconds) => GrantTerminal(s, session, attested, seconds, e.now)
    case DoFrame(session, token, input, request) => SubmitFrame(s, session, token, input, request, e.now)
    case DoWrite(attempt, write) => Outcome(Done, s.(events := Append(s.events, attempt, write)))
  }

  function Run(es: seq<Event>): State {
    if es == [] then Initial else Step(Run(es[..|es| - 1]), es[|es| - 1]).state
  }

  // ---- runs keep the invariant -----------------------------------------------------------

  lemma StepSafe(s: State, e: Event)
    requires Inv(s)
    ensures Safe(s, Step(s, e).state)
  {
    hide Inv, Grows, Establish, Verify, Listen, AcquireLease, Heartbeat, ReleaseLease, Terminate;
    hide ReconcileSessions, Dispatch, GrantTerminal, SubmitFrame, Append, Release, SetState;
    match e.action
    case DoEstablish(attempt, lifetime) => EstablishSafe(s, attempt, lifetime, e.now);
    case DoVerify(session, associated) => VerifySafe(s, session, associated);
    case DoListen(attempt, boundaryOk, fromFixture, lifetime) =>
      ListenSafe(s, attempt, boundaryOk, fromFixture, lifetime, e.now);
    case DoAcquire(session, holder, takeover) => AcquireSafe(s, session, holder, takeover, e.now);
    case DoHeartbeat(session, token) => HeartbeatSafe(s, session, token, e.now);
    case DoRelease(session) => ReleaseSafe(s, session);
    case DoQuarantine(session) =>
      if session < |s.sessions| { EndSafe(s, session, Quarantined); } else { Unchanged(s); }
    case DoTerminate(session) => TerminateSafe(s, session);
    case DoReconcile(gone) => ReconcileSafe(s, gone, e.now);
    case DoDispatch(session, granted, action, params, token, request, result) =>
      DispatchSafe(s, session, granted, action, params, token, request, result, e.now);
    case DoGrant(session, attested, seconds) => GrantSafe(s, session, attested, seconds, e.now);
    case DoFrame(session, token, input, request) => FrameSafe(s, session, token, input, request, e.now);
    case DoWrite(attempt, write) => WriteSafe(s, attempt, write);
  }

  lemma InitialInv()
    ensures Inv(Initial)
  {
  }

  lemma {:induction false} RunInv(es: seq<Event>)
    ensures Inv(Run(es))
  {
    hide Inv, Step;
    InitialInv();
    if es != [] {
      RunInv(es[..|es| - 1]);
      StepSafe(Run(es[..|es| - 1]), es[|es| - 1]);
    }
  }

  /** Whatever is recorded stays, dead sessions stay dead and inactive leases inactive. */
  lemma {:induction false} RunGrows(es: seq<Event>, k: nat)
    requires k <= |es|
    ensures Grows(Run(es[..k]), Run(es))
    decreases |es|
  {
    hide Inv, Step, Grows;
    RunInv(es);
    if k == |es| {
      assert es[..k] == es;
      Unchanged(Run(es));
    } else {
      var n := |es| - 1;
      RunGrows(es[..n], k);
      assert es[..n][..k] == es[..k];
      RunInv(es[..n]);
      StepSafe(Run(es[..n]), es[n]);
      GrowsTwice(Run(es[..k]), Run(es[..n]), Run(es));
    }
  }

  // ---- one writer --------------------------------------------------------------------------

  /** Whichever lease rows callers hold, two that are accepted for a session are the same lease,
      and a token is good for one session only. */
  lemma OneWriter(es: seq<Event>, i: nat, j: nat, now: int)
    requires i < |Run(es).leases| && j < |Run(es).leases|
    ensures (var s := Run(es);
             var a, b := s.leases[i], s.leases[j];
             && ((a.active && b.active && a.session == b.session) || a.token == b.token ==> a == b)
             && (Accepts(s, a.session, b.token, now) ==> a.session == b.session && b.active))
  {
    RunInv(es);
  }

  /** A token that was once revoked, by a takeover, a release, an expiry replacement or the end
      of its session, is never accepted again, for any session and at any time. */
  lemma RevokedForever(es: seq<Event>, k: nat, token: nat, session: nat, now: int)
    requires k <= |es| && token < |Run(es[..k]).leases| && !Run(es[..k]).leases[token].active
    ensures !Accepts(Run(es), session, token, now)
  {
    RunInv(es);
    RunGrows(es, k);
    assert LeaseMoves(Run(es[..k]).leases[token], Run(es).leases[token]);
  }

  /** A lease is refused exactly when another holder has one that has not run out and the caller
      does not take over. Granted, its token is the only active one of the session. */
  lemma AcquireExactly(es: seq<Event>, session: nat, holder: string, takeover: bool, now: int)
    requires session < |Run(es).sessions|
    ensures (var s := Run(es);
             var o := AcquireLease(s, session, holder, takeover, now);
             var held := LeaseOf(s, session);
             && (o.reply.Refused? <==>
                 held.Some? && !LeaseExpired(held.value, now) && held.value.holder != holder && !takeover)
             && (o.reply.Refused? ==> o.state == s)
             && (!o.reply.Refused? ==>
                 && o.reply.Issued?
                 && (forall i :: 0 <= i < |o.state.leases| && o.state.leases[i].session == session ==>
                       (o.state.leases[i].active <==> o.state.leases[i].token == o.reply.token))
                 && (forall t :: Accepts(o.state, session, t, now) ==> t == o.reply.token)
                 && (TakesInput(s.sessions[session].state) ==> Accepts(o.state, session, o.reply.token, now))))
  {
    RunInv(es);
    var s := Run(es);
    assert LeasesOk(s.leases, |s.sessions|);
    RefusedExactlyWhen(s, session, holder, takeover, now);
    AcquiredLease(s, session, holder, takeover, now);
    var o := AcquireLease(s, session, holder, takeover, now);
    AcquireSafe(s, session, holder, takeover, now);
    assert LeasesOk(o.state.leases, |o.state.sessions|);
    hide *;
    if o.reply.Issued? {
      OnlyItsToken(o.state, session, o.reply.token, now);
    }
  }

  lemma OnlyItsToken(s: State, session: nat, t: nat, now: int)
    requires LeasesOk(s.leases, |s.sessions|) && session < |s.sessions|
    requires t < |s.leases| && s.leases[t].active && s.leases[t].session == session
    requires !LeaseExpired(s.leases[t], now)
    ensures forall i :: 0 <= i < |s.leases| && s.leases[i].session == session ==>
                          (s.leases[i].active <==> s.leases[i].token == t)
    ensures forall u :: Accepts(s, session, u, now) ==> u == t
    ensures TakesInput(s.sessions[session].state) ==> Accepts(s, session, t, now)
  {
    OnlyActive(s.leases, |s.sessions|, t);
  }

  lemma RefusedExactlyWhen(s: State, session: nat, holder: string, takeover: bool, now: int)
    requires session < |s.sessions|
    ensures (var o := AcquireLease(s, session, holder, takeover, now);
             var held := LeaseOf(s, session);
             && (o.reply.Refused? <==>
                 held.Some? && !LeaseExpired(held.value, now) && held.value.holder != holder && !takeover)
             && (o.reply.Refused? ==> o.state == s))
  {
    hide ActiveLease;
  }

  /** What acquiring does to the one lease and the session it is about. */
  lemma AcquiredLease(s: State, session: nat, holder: string, takeover: bool, now: int)
    requires session < |s.sessions| && LeasesOk(s.leases, |s.sessions|)
    ensures (var o := AcquireLease(s, session, holder, takeover, now);
             && (o.reply.Refused? || o.reply.Issued?)
             && (o.reply.Issued? ==>
                 var t := o.reply.token;
                 && t < |o.state.leases| && o.state.leases[t].active && o.state.leases[t].token == t
                 && o.state.leases[t].session == session
                 && !LeaseExpired(o.state.leases[t], now)
                 && |o.state.sessions| == |s.sessions|
                 && (TakesInput(s.sessions[session].state) ==> TakesInput(o.state.sessions[session].state))))
  {
  }

  lemma OnlyActive(leases: seq<Lease>, sessions: nat, t: nat)
    requires LeasesOk(leases, sessions) && t < |leases| && leases[t].active
    ensures ActiveLease(leases, leases[t].session) == Some(t)
    ensures forall i :: 0 <= i < |leases| && leases[i].session == leases[t].session && leases[i].active ==> i == t
  {
  }

  /** After a release, a quarantine or a termination no token is accepted. */
  lemma ReleaseSilences(es: seq<Event>, e: Event, session: nat, token: nat, now: int)
    requires session < |Run(es).sessions|
    requires e.action == DoRelease(session) || e.action == DoQuarantine(session)
             || e.action == DoTerminate(session)
    ensures !Accepts(Run(es + [e]), session, token, now)
  {
    RunInv(es);
    assert (es + [e])[..|es|] == es;
    var s := Run(es);
    assert Run(es + [e]) == Step(s, e).state;
    hide Run, RecordsOk, FramesOk, Healthy, OneLive, OneGrant;
    if e.action.DoRelease? {
      ReleaseExactly(s, session);
      hide ActiveLease, Release;
    } else {
    }
  }

  /** The lifetime of a session is not looked at when input arrives; a reconciliation is what
      ends it, and it silences exactly the sessions it gives up. */
  lemma ReconcileSilencesExactly(es: seq<Event>, gone: set<nat>, now: int, session: nat, token: nat, later: int)
    requires session < |Run(es).sessions|
    ensures Accepts(ReconcileSessions(Run(es), gone, now).state, session, token, later)
       <==> Accepts(Run(es), session, token, later)
            && !Reconcilable(Run(es).sessions[session], gone, now)
  {
    RunInv(es);
    var s := Run(es);
    var t := ReconcileSessions(s, gone, now).state;
    ReconcileExactly(s, gone, now, |s.sessions|);
    hide RecordsOk, FramesOk, Healthy, OneLive, OneGrant, ReconcileFirst;
    if !Reconcilable(s.sessions[session], gone, now) {
      SameActive(s.leases, t.leases, |s.sessions|, session);
    }
  }

  lemma RunNext(es: seq<Event>, e: Event)
    ensures Run(es + [e]) == Step(Run(es), e).state
  {
    assert (es + [e])[..|es|] == es;
  }

  /** A verified session and its controller, the lease taken at `taken`. */
  function Opened(lifetime: int, holder: string, taken: int): State {
    Run([Event(DoListen(0, true, true, lifetime), 0)] + [Event(DoAcquire(0, holder, false), taken)])
  }

  lemma OpenedState(lifetime: int, holder: string, taken: int)
    ensures Opened(lifetime, holder, taken)
         == Initial.(sessions := [Session(0, Controlled, lifetime)],
                     leases := [Lease(0, holder, 0, true, taken + LEASE_SECONDS)])
  {
    var listen := Event(DoListen(0, true, true, lifetime), 0);
    RunNext([], listen);
    assert [] + [listen] == [listen];
    RunNext([listen], Event(DoAcquire(0, holder, false), taken));
    assert Run([listen]) == Initial.(sessions := [Session(0, Ready, lifetime)]);
  }

  /** A lease can be taken, and input is accepted, at any moment after a session's lifetime. */
  lemma LifetimeIsNotChecked(lifetime: int, holder: string, now: int)
    requires now > lifetime
    ensures (var s := Opened(lifetime, holder, now);
             |s.sessions| == 1 && now > s.sessions[0].expiresAt && Accepts(s, 0, 0, now))
  {
    OpenedState(lifetime, holder, now);
  }

  /** After a heartbeat its token is accepted exactly when its lease was still the active one and
      the session takes input; when the lease had run out does not matter. */
  lemma HeartbeatRenewsExactly(es: seq<Event>, session: nat, token: nat, now: int)
    ensures Accepts(Run(es + [Event(DoHeartbeat(session, token), now)]), session, token, now)
       <==> OnAir(Run(es), session) && LeaseOf(Run(es), session).Some?
            && LeaseOf(Run(es), session).value.token == token
  {
    RunNext(es, Event(DoHeartbeat(session, token), now));
    RunInv(es);
    var s := Run(es);
    var t := Heartbeat(s, session, token, now).state;
    hide Run, RecordsOk, FramesOk, Healthy, OneLive, OneGrant;
    HeartbeatSafe(s, session, token, now);
    var current := ActiveLease(s.leases, session);
    if session < |s.sessions| && current.Some? {
      OnlyActive(t.leases, |t.sessions|, current.value);
    }
  }

  /** A lease that has run out is refused, and accepted again after a heartbeat. */
  lemma HeartbeatRevives(lifetime: int, holder: string, now: int)
    requires now > LEASE_SECONDS
    ensures (var s := Opened(lifetime, holder, 0);
             && !Accepts(s, 0, 0, now)
             && Accepts(Heartbeat(s, 0, 0, now).state, 0, 0, now))
  {
    OpenedState(lifetime, holder, 0);
    var s := Opened(lifetime, holder, 0);
    assert ActiveLease(s.leases, 0) == Some(0);
    assert Heartbeat(s, 0, 0, now).state.leases == [Lease(0, holder, 0, true, now + LEASE_SECONDS)];
  }

  lemma SameActive(a: seq<Lease>, b: seq<Lease>, sessions: nat, session: nat)
    requires LeasesOk(a, sessions) && LeasesOk(b, sessions) && |a| == |b|
    requires forall i :: 0 <= i < |a| ==> a[i].session == b[i].session
    requires forall i :: 0 <= i < |a| && a[i].session == session ==> a[i] == b[i]
    ensures ActiveLease(a, session) == ActiveLease(b, session)
  {
    var i, j := ActiveLease(a, session), ActiveLease(b, session);
    if i.Some? { OnlyActive(b, sessions, i.value); }
    if j.Some? { OnlyActive(a, sessions, j.value); }
  }

  // ---- sessions -------------------------------------------------------------------------

  lemma OneLiveSession(es: seq<Event>, i: nat, j: nat)
    requires i < j < |Run(es).sessions|
    requires Live(Run(es).sessions[i].state) && Live(Run(es).sessions[j].state)
    ensures Run(es).sessions[i].attempt != Run(es).sessions[j].attempt
  {
    RunInv(es);
  }

  /** The events that put a session on the air: a verification with fixture association. */
  predicate PassesVerification(s: State, e: Event, session: nat) {
    || (e.action == DoVerify(session, true)
        && session < |s.sessions| && s.sessions[session].state.Unverified?)
    || (e.action.DoListen? && e.action.boundaryOk && e.action.fromFixture && session == |s.sessions|
        && !HasLive(s.sessions, e.action.attempt))
  }

  predicate OnAir(s: State, session: nat) {
    session < |s.sessions| && TakesInput(s.sessions[session].state)
  }

  lemma OnlyVerificationOpens(s: State, e: Event, session: nat)
    requires Inv(s) && OnAir(Step(s, e).state, session) && !OnAir(s, session)
    ensures PassesVerification(s, e, session)
  {
    hide RecordsOk, FramesOk, Healthy, OneGrant, Append, ActiveLease, Sanitize, FindRecord, FindReceipt;
    if e.action.DoListen? || e.action.DoVerify? || e.action.DoEstablish? {
    } else {
      StepSafe(s, e);
      if session < |s.sessions| {
        assert SessionMoves(s.sessions[session], Step(s, e).state.sessions[session]);
      }
      StaysUnverified(s, e, session);
    }
  }

  /** Besides a verification nothing adds a session or moves one out of UNVERIFIED, other than
      to its end. */
  lemma StaysUnverified(s: State, e: Event, session: nat)
    requires Inv(s) && !e.action.DoListen? && !e.action.DoVerify? && !e.action.DoEstablish?
    ensures |Step(s, e).state.sessions| == |s.sessions|
    ensures session < |s.sessions| && s.sessions[session].state.Unverified? ==>
              !TakesInput(Step(s, e).state.sessions[session].state)
  {
    hide RecordsOk, FramesOk, Healthy, OneGrant, Append, ActiveLease, Sanitize, FindRecord, FindReceipt;
    hide ReconcileFirst, AcceptsInput, ParamsOk, Used, Utf8Length, EchoText, ActiveGrant, WithoutGrants;
    if e.action.DoReconcile? {
      ReconcileExactly(s, e.action.gone, e.now, |s.sessions|);
    }
  }

  /** Event k put the session on the air, and it has been there ever since. */
  predicate OnAirSince(es: seq<Event>, k: nat, session: nat)
    requires k < |es|
  {
    && PassesVerification(Run(es[..k]), es[k], session)
    && forall m :: k < m <= |es| ==> OnAir(Run(es[..m]), session)
  }

  /** Input is accepted only in a session that passed verification with fixture association and
      has been READY or CONTROLLED ever since: never closed, lost or quarantined. */
  lemma {:induction false} InputMeansVerified(es: seq<Event>, session: nat, token: nat, now: int)
    requires Accepts(Run(es), session, token, now)
    ensures exists k: nat :: k < |es| && OnAirSince(es, k, session)
  {
    var k := OnAirMeansVerified(es, session);
    assert OnAirSince(es, k, session);
  }

  lemma {:induction false} OnAirMeansVerified(es: seq<Event>, session: nat) returns (k: nat)
    requires OnAir(Run(es), session)
    ensures k < |es| && OnAirSince(es, k, session)
    decreases |es|
  {
    hide Step, Inv, PassesVerification;
    assert es != [];
    var n := |es| - 1;
    assert es[..n + 1] == es;
    if OnAir(Run(es[..n]), session) {
      k := OnAirMeansVerified(es[..n], session);
      assert es[..n][..k] == es[..k];
      forall m | k < m <= |es| ensures OnAir(Run(es[..m]), session) {
        if m <= n { assert es[..n][..m] == es[..m]; }
      }
    } else {
      k := n;
      RunInv(es[..n]);
      OnlyVerificationOpens(Run(es[..n]), es[n], session);
    }
  }

  // ---- guided actions and frames -----------------------------------------------------------

  function EffectsOf(effects: seq<Effect>, session: nat): seq<Effect> {
    if effects == [] then []
    else
      var last := effects[|effects| - 1];
      EffectsOf(effects[..|effects| - 1], session) + if last.session == session then [last] else []
  }

  /** Each step has at most one effect, and only in a session that accepts the caller's token. */
  lemma EffectsAreFenced(s: State, e: Event)
    ensures Step(s, e).state.effects != s.effects ==>
              && (e.action.DoDispatch? || e.action.DoFrame?)
              && Accepts(s, e.action.session, e.action.token, e.now)
              && (exists f: Effect :: f.session == e.action.session && f.request == e.action.request
                                      && Step(s, e).state.effects == s.effects + [f])
  {
    hide Append, ActiveLease, Sanitize, FindRecord, FindReceipt, Used, HighestReceipt, ReceiptsOf, ActiveGrant;
    hide Utf8Length;
    if e.action.DoReconcile? { ReconcileHasNoEffect(s, e.action.gone, e.now, |s.sessions|); }
    if e.action.DoDispatch? && Step(s, e).state.effects != s.effects {
      var f := Ran(e.action.session, e.action.request, !e.action.result.Raised?);
      assert Step(s, e).state.effects == s.effects + [f];
    }
    if e.action.DoFrame? && Step(s, e).state.effects != s.effects {
      var f := Echoed(e.action.session, e.action.request);
      assert Step(s, e).state.effects == s.effects + [f];
    }
  }

  lemma {:induction false} ReconcileHasNoEffect(s: State, gone: set<nat>, now: int, n: nat)
    requires n <= |s.sessions|
    ensures ReconcileFirst(s, gone, now, n).effects == s.effects
  {
    if n > 0 { ReconcileHasNoEffect(s, gone, now, n - 1); }
  }

  lemma DeadStepIsSilent(s: State, e: Event, session: nat)
    requires session < |s.sessions| && Dead(s.sessions[session].state)
    ensures EffectsOf(Step(s, e).state.effects, session) == EffectsOf(s.effects, session)
  {
    EffectsAreFenced(s, e);
    hide Step;
    var t := Step(s, e).state;
    if t.effects != s.effects {
      var f: Effect :| f.session == e.action.session && t.effects == s.effects + [f];
      assert t.effects[..|s.effects|] == s.effects;
      assert f == t.effects[|s.effects|];
    }
  }

  /** Once a session is closed, lost or quarantined, nothing more happens in it. */
  lemma {:induction false} DeadSessionsAreSilent(es: seq<Event>, k: nat, session: nat)
    requires k <= |es| && session < |Run(es[..k]).sessions|
    requires Dead(Run(es[..k]).sessions[session].state)
    ensures EffectsOf(Run(es).effects, session) == EffectsOf(Run(es[..k]).effects, session)
    ensures session < |Run(es).sessions| && Dead(Run(es).sessions[session].state)
    decreases |es|
  {
    hide Step, Inv, EffectsOf;
    RunGrows(es, k);
    assert SessionMoves(Run(es[..k]).sessions[session], Run(es).sessions[session]);
    if k == |es| {
      assert es[..k] == es;
    } else {
      var n := |es| - 1;
      assert es[..n][..k] == es[..k];
      DeadSessionsAreSilent(es[..n], k, session);
      DeadStepIsSilent(Run(es[..n]), es[n], session);
    }
  }

  /** After a completed terminate action nothing is dispatched in the session. */
  lemma NothingAfterTerminate(es: seq<Event>, k: nat, i: nat)
    requires k <= |es| && i < |Run(es[..k]).records|
    requires Run(es[..k]).records[i].action == "terminate" && Run(es[..k]).records[i].state.Completed?
    ensures (var session := Run(es[..k]).records[i].session;
             EffectsOf(Run(es).effects, session) == EffectsOf(Run(es[..k]).effects, session))
  {
    RunInv(es[..k]);
    DeadSessionsAreSilent(es, k, Run(es[..k]).records[i].session);
  }

  lemma {:induction false} FoundInPrefix(a: seq<Record>, b: seq<Record>, session: nat, request: string)
    requires a <= b && FindRecord(a, session, request).Some?
    ensures FindRecord(b, session, request) == FindRecord(a, session, request)
    decreases |b|
  {
    if a != b {
      assert a <= b[..|b| - 1];
      FoundInPrefix(a, b[..|b| - 1], session, request);
    }
  }

  /** The first answer to a request is the last: the record never changes, so an unknown outcome
      is never sent again. */
  lemma RecordsAreFinal(es: seq<Event>, k: nat, session: nat, request: string)
    requires k <= |es| && FindRecord(Run(es[..k]).records, session, request).Some?
    ensures FindRecord(Run(es).records, session, request)
         == FindRecord(Run(es[..k]).records, session, request)
  {
    RunGrows(es, k);
    FoundInPrefix(Run(es[..k]).records, Run(es).records, session, request);
  }

  /** How often an action ran for a request, with or without a record. */
  function Runs(effects: seq<Effect>, session: nat, request: string): nat {
    if effects == [] then 0
    else
      var last := effects[|effects| - 1];
      Runs(effects[..|effects| - 1], session, request)
      + if last.Ran? && last.session == session && last.request == request then 1 else 0
  }

  /** What a step can add: an action that ran, recorded unless it raised, or an echo. */
  lemma NewEffect(s: State, e: Event)
    ensures (var t := Step(s, e).state;
             || t.effects == s.effects
             || (e.action.DoDispatch?
                 && t.effects == s.effects + [Ran(e.action.session, e.action.request, !e.action.result.Raised?)])
             || (e.action.DoFrame? && t.effects == s.effects + [Echoed(e.action.session, e.action.request)]))
  {
    hide Append, ActiveLease, Sanitize, FindRecord, FindReceipt, Used, HighestReceipt, ReceiptsOf, ActiveGrant;
    hide Utf8Length, ParamsOk;
    if e.action.DoReconcile? { ReconcileHasNoEffect(s, e.action.gone, e.now, |s.sessions|); }
  }

  /** The step runs the action of the request, and it raises. */
  predicate RaisesNow(s: State, e: Event, session: nat, request: string) {
    && e.action.DoDispatch? && e.action.session == session && e.action.request == request
    && e.action.result.Raised? && Step(s, e).state.effects != s.effects
  }

  function RaisedRuns(es: seq<Event>, session: nat, request: string): nat {
    if es == [] then 0
    else
      var front := es[..|es| - 1];
      RaisedRuns(front, session, request)
      + if RaisesNow(Run(front), es[|es| - 1], session, request) then 1 else 0
  }

  lemma StepCounts(s: State, e: Event, session: nat, request: string)
    ensures Runs(Step(s, e).state.effects, session, request)
            - RecordedRuns(Step(s, e).state.effects, session, request)
         == Runs(s.effects, session, request) - RecordedRuns(s.effects, session, request)
            + if RaisesNow(s, e, session, request) then 1 else 0
  {
    NewEffect(s, e);
    hide Step;
    var t := Step(s, e).state;
    if t.effects != s.effects { assert t.effects[..|s.effects|] == s.effects; }
  }

  lemma {:induction false} UnrecordedRunsRaised(es: seq<Event>, session: nat, request: string)
    ensures Runs(Run(es).effects, session, request)
         == RecordedRuns(Run(es).effects, session, request) + RaisedRuns(es, session, request)
  {
    hide Step, RaisesNow, Runs, RecordedRuns;
    if es == [] {
      NothingRan(session, request);
    } else {
      UnrecordedRunsRaised(es[..|es| - 1], session, request);
      StepCounts(Run(es[..|es| - 1]), es[|es| - 1], session, request);
    }
  }

  lemma NothingRan(session: nat, request: string)
    ensures Runs([], session, request) == 0 && RecordedRuns([], session, request) == 0
  {
  }

  /** How often a request runs its action: once for every time it raised, and once more exactly
      when its record says COMPLETED or OUTCOME_UNKNOWN. */
  lemma ActionRunsExactly(es: seq<Event>, session: nat, request: string)
    ensures Runs(Run(es).effects, session, request)
         == RaisedRuns(es, session, request)
            + if CountsAsRun(FindRecord(Run(es).records, session, request)) then 1 else 0
  {
    RunInv(es);
    UnrecordedRunsRaised(es, session, request);
    assert RunsMatch(Run(es), session, request);
  }

  predicate NeverRaises(es: seq<Event>) {
    forall i :: 0 <= i < |es| && es[i].action.DoDispatch? ==> !es[i].action.result.Raised?
  }

  lemma {:induction false} NoneRaised(es: seq<Event>, session: nat, request: string)
    requires NeverRaises(es)
    ensures RaisedRuns(es, session, request) == 0
  {
    if es != [] { NoneRaised(es[..|es| - 1], session, request); }
  }

  /** A request runs its action at most once, and once exactly when its record says COMPLETED or
      OUTCOME_UNKNOWN, as long as no implementation raises. */
  lemma ActionRunsAtMostOnce(es: seq<Event>, session: nat, request: string)
    requires NeverRaises(es)
    ensures Runs(Run(es).effects, session, request)
         == if CountsAsRun(FindRecord(Run(es).records, session, request)) then 1 else 0
  {
    ActionRunsExactly(es, session, request);
    NoneRaised(es, session, request);
  }

  /** When one raises, its record is rolled back with the transaction: the same request runs
      the action again, each time it is sent. */
  lemma RaisingRunsAgain(s: State, e: Event)
    requires e.action.DoDispatch? && e.action.result.Raised?
    requires Step(s, e).state.effects != s.effects
    ensures Runs(Step(Step(s, e).state, e).state.effects, e.action.session, e.action.request)
         == Runs(s.effects, e.action.session, e.action.request) + 2
  {
    hide ActiveLease, FindRecord, Used;
    var f := Ran(e.action.session, e.action.request, false);
    var t := Step(s, e).state;
    assert t == s.(effects := s.effects + [f]);
    var u := Step(t, e).state;
    assert u.effects == t.effects + [f];
    assert u.effects[..|t.effects|] == t.effects && t.effects[..|s.effects|] == s.effects;
  }

  /** Counted invocations are the actions that ran, and never more than the budget. */
  lemma BudgetHolds(es: seq<Event>, session: nat)
    ensures SessionRuns(Run(es).effects, session) == Used(Run(es).records, session) <= TOTAL_INVOCATION_LIMIT
  {
    RunInv(es);
  }

  /** Per session, receipts are numbered 1, 2, 3, ... and a request is echoed at most once, and
      once exactly when its receipt says accepted. */
  lemma FramesAreNumberedAndEchoedOnce(es: seq<Event>, session: nat, request: string)
    ensures InOrder(ReceiptsOf(Run(es).receipts, session))
    ensures Echoes(Run(es).effects, session, request)
         == if CountsAsEcho(FindReceipt(Run(es).receipts, session, request)) then 1 else 0
  {
    RunInv(es);
    assert EchoesMatch(Run(es), session, request);
  }

  /** Whatever the workspace does, every attempt's log stays numbered, bounded and clean. */
  lemma LogsStayHealthy(es: seq<Event>, attempt: nat)
    ensures LogOk(Of(Run(es).events, attempt))
  {
    RunInv(es);
  }
}
