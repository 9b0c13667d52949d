/** What each transaction of the lab workspace does in every reachable state: who is accepted, what a
request is answered and what it changes. Nothing here refers to how a decision is computed. */
module WorkspaceVerdicts {
  import opened Base
  import opened Sanitizer
  import opened Streams
  import opened Workspaces
  import opened WorkspaceInvariant
  import opened WorkspaceRuns

  // ---- acceptance -----------------------------------------------------------------------------

  /** A token is accepted in a session that is READY or CONTROLLED, as long as the lease with that
      number is of this session, active and has not run out. */
  predicate Holder(s: State, session: nat, token: nat, now: int) {
    && session < |s.sessions| && (s.sessions[session].state.Ready? || s.sessions[session].state.Controlled?)
    && token < |s.leases| && s.leases[token].session == session
    && s.leases[token].active && now <= s.leases[token].expiresAt
  }

  lemma AcceptedExactlyWhen(es: seq<Event>, session: nat, token: nat, now: int)
    ensures Accepts(Run(es), session, token, now) <==> Holder(Run(es), session, token, now)
  {
    RunInv(es);
    HolderIsAccepted(Run(es), session, token, now);
  }

  lemma HolderIsAccepted(s: State, session: nat, token: nat, now: int)
    requires LeasesOk(s.leases, |s.sessions|)
    ensures Accepts(s, session, token, now) <==> Holder(s, session, token, now)
  {
    if token < |s.leases| && s.leases[token].active { OnlyActive(s.leases, |s.sessions|, token); }
  }

  // ---- guided actions ---------------------------------------------------------------------------

  predicate Known(action: string) {
    action == "whoami" || action == "os-context" || action == "read-marker"
    || action == "capture-observation" || action == "terminate"
  }

  predicate ShortText(p: Param, limit: nat) { p.Text? && |p.text| <= limit }

  /** A marker of at most 64 characters must be named; a note of at most 256 may be; no other action
      takes a parameter, and none takes any other. */
  predicate ParamsFit(action: string, params: map<string, Param>) {
    if action == "read-marker" then params.Keys == {"marker"} && ShortText(params["marker"], 64)
    else if action == "capture-observation" then
      params.Keys == {} || (params.Keys == {"note"} && ShortText(params["note"], 256))
    else params.Keys == {}
  }

  lemma ParamsOkMeansFit(action: string, params: map<string, Param>)
    ensures ParamsOk(action, params) <==> ParamsFit(action, params)
  {
    assert params == map[] <==> params.Keys == {};
    if action == "read-marker" {
      assert "marker" in params && params.Keys <= {"marker"} <==> params.Keys == {"marker"};
    } else if action == "capture-observation" {
      assert params.Keys <= {"note"} <==> params.Keys == {} || params.Keys == {"note"};
    }
  }

  predicate Answered(s: State, session: nat, request: string) {
    exists i :: 0 <= i < |s.records| && s.records[i].session == session && s.records[i].request == request
  }

  /** The first thing that is wrong with a request, in this order. */
  function Fault(s: State, session: nat, granted: set<string>, action: string, params: map<string, Param>,
                 token: nat, now: int): Reason
  {
    if !Known(action) then UnknownAction
    else if action !in granted then NotInGrant
    else if !Holder(s, session, token, now) then NoLease
    else if !ParamsFit(action, params) then BadParameters
    else if SessionRuns(s.effects, session) >= 20 then OverBudget
    else Fine
  }

  lemma ObjectionIsFault(es: seq<Event>, session: nat, granted: set<string>, action: string,
                         params: map<string, Param>, token: nat, now: int)
    requires session < |Run(es).sessions|
    ensures Objection(Run(es), session, granted, action, params, token, now)
         == Fault(Run(es), session, granted, action, params, token, now)
  {
    ParamsOkMeansFit(action, params);
    AcceptedExactlyWhen(es, session, token, now);
    BudgetHolds(es, session);
    hide Run, ParamsOk, ParamsFit, Used, SessionRuns, ActiveLease, Holder;
    assert action in ACTIONS <==> Known(action);
  }

  /** A request runs its action if and only if its session exists, it has no record yet, the action
      is one of the five and in the caller's grant, the token is accepted at that moment, the
      parameters fit, and fewer than 20 actions of the session have run. */
  lemma DispatchRunsExactlyWhen(es: seq<Event>, session: nat, granted: set<string>, action: string,
                                params: map<string, Param>, token: nat, request: string, result: Result, now: int)
    ensures (var s := Run(es);
             var t := Step(s, Event(DoDispatch(session, granted, action, params, token, request, result), now)).state;
             && (t.effects != s.effects <==>
                 && session < |s.sessions| && !Answered(s, session, request)
                 && Known(action) && action in granted && Holder(s, session, token, now)
                 && ParamsFit(action, params) && SessionRuns(s.effects, session) < 20)
             && (t.effects != s.effects ==> t.effects == s.effects + [Ran(session, request, !result.Raised?)]))
  {
    var s := Run(es);
    FoundMeansAnswered(s, session, request);
    if session < |s.sessions| { ObjectionIsFault(es, session, granted, action, params, token, now); }
    hide Run, Objection, Append, Sanitize, FindRecord, SessionRuns, ParamsFit, Holder, Known, Release;
    assert s.effects != s.effects + [Ran(session, request, !result.Raised?)];
  }

  lemma FoundMeansAnswered(s: State, session: nat, request: string)
    ensures FindRecord(s.records, session, request).Some? <==> Answered(s, session, request)
  {
  }

  /** What else a request does. One that has a record is answered with it and changes nothing. One
      that is at fault leaves a REJECTED record with the reason and nothing else. One that runs
      leaves nothing but its effect when it raises, OUTCOME_UNKNOWN and a GAP when it times out, and
      otherwise COMPLETED with its cleaned output, which the stream shows; a terminate also closes
      its session and ends its leases. */
  lemma DispatchVerdict(es: seq<Event>, session: nat, granted: set<string>, action: string,
                        params: map<string, Param>, token: nat, request: string, result: Result, now: int)
    ensures (var s := Run(es);
             var o := Step(s, Event(DoDispatch(session, granted, action, params, token, request, result), now));
             && (session >= |s.sessions| ==> o == Outcome(Refused, s))
             && (session < |s.sessions| && Answered(s, session, request) ==>
                   && o.state == s && o.reply.Recorded? && o.reply.record in s.records
                   && o.reply.record.session == session && o.reply.record.request == request)
             && (session < |s.sessions| && !Answered(s, session, request) ==>
                   var fault := Fault(s, session, granted, action, params, token, now);
                   if fault != Fine then
                     var record := Record(session, request, action, Rejected, fault, "");
                     o == Outcome(Recorded(record), s.(records := s.records + [record]))
                   else if result.Raised? then
                     o == Outcome(Failed, s.(effects := s.effects + [Ran(session, request, false)]))
                   else
                     o == Outcome(Recorded(RecordOf(session, request, action, result)),
                                  AfterAction(s, session, request, action, result))))
  {
    var s := Run(es);
    FoundMeansAnswered(s, session, request);
    if session < |s.sessions| {
      ObjectionIsFault(es, session, granted, action, params, token, now);
      if !Answered(s, session, request) && Objection(s, session, granted, action, params, token, now) == Fine {
        RunInv(es);
        PerformedAs(s, session, action, request, result);
      }
    }
    hide Run, Objection, Append, Sanitize, FindRecord, SessionRuns, ParamsFit, Holder, Known, Release, Perform;
    hide AfterAction, RecordOf;
  }

  function RecordOf(session: nat, request: string, action: string, result: Result): Record
    requires !result.Raised?
  {
    match result
    case Timeout => Record(session, request, action, OutcomeUnknown, TimedOut, "")
    case Returned(text) =>
      Record(session, request, action, Completed, Fine, Sanitize(text, if action == "terminate" then 256 else 16384))
  }

  /** Every lease of the session ended. */
  function Ended(leases: seq<Lease>, session: nat): seq<Lease> {
    seq(|leases|, i requires 0 <= i < |leases| =>
      if leases[i].session == session then leases[i].(active := false) else leases[i])
  }

  function AfterAction(s: State, session: nat, request: string, action: string, result: Result): State
    requires !result.Raised? && session < |s.sessions|
  {
    var record := RecordOf(session, request, action, result);
    var attempt := s.sessions[session].attempt;
    var shown := if result.Timeout? then WriteGap("guided action outcome unknown")
                 else WriteOutput("[" + action + "] " + record.output);
    var t := s.(records := s.records + [record], effects := s.effects + [Ran(session, request, true)],
                events := Append(s.events, attempt, shown));
    if result.Returned? && action == "terminate"
    then t.(sessions := s.sessions[session := s.sessions[session].(state := Closed)],
            leases := Ended(s.leases, session))
    else t
  }

  lemma PerformedAs(s: State, session: nat, action: string, request: string, result: Result)
    requires session < |s.sessions| && LeasesOk(s.leases, |s.sessions|)
    ensures Perform(s, session, action, request, result)
         == if result.Raised? then Outcome(Failed, s.(effects := s.effects + [Ran(session, request, false)]))
            else Outcome(Recorded(RecordOf(session, request, action, result)),
                         AfterAction(s, session, request, action, result))
  {
    hide Append, Sanitize;
    if result.Returned? && action == "terminate" {
      var t := s.(effects := s.effects + [Ran(session, request, true)],
                  events := Append(s.events, s.sessions[session].attempt,
                                   WriteOutput("[" + action + "] " + Sanitize(result.output, 256))));
      ClosedAs(t, session, Closed);
    }
  }

  /** Giving a session its end also ends its leases. */
  lemma ClosedAs(s: State, session: nat, end: SessionState)
    requires session < |s.sessions| && LeasesOk(s.leases, |s.sessions|) && !end.Controlled?
    ensures Release(SetState(s, session, end), session)
         == s.(sessions := s.sessions[session := s.sessions[session].(state := end)],
               leases := Ended(s.leases, session))
  {
    LeasesEnded(s.leases, |s.sessions|, session);
    hide ActiveLease;
  }

  lemma LeasesEnded(leases: seq<Lease>, sessions: nat, session: nat)
    requires LeasesOk(leases, sessions)
    ensures (var current := ActiveLease(leases, session);
             Ended(leases, session) == if current.Some? then Deactivate(leases, current.value) else leases)
  {
    var current := ActiveLease(leases, session);
    if current.Some? { OnlyActive(leases, sessions, current.value); }
    hide ActiveLease;
    assert forall i :: 0 <= i < |leases| && !leases[i].active ==> leases[i].(active := false) == leases[i];
    assert forall i :: 0 <= i < |leases| && leases[i].session == session && leases[i].active ==>
        current == Some(i);
  }

  // ---- terminal frames ----------------------------------------------------------------------------

  predicate Received(s: State, session: nat, request: string) {
    exists i :: 0 <= i < |s.receipts| && s.receipts[i].session == session && s.receipts[i].request == request
  }

  predicate Granted(s: State, session: nat) {
    exists i :: 0 <= i < |s.grants| && s.grants[i].session == session && s.grants[i].active
  }

  predicate GrantOver(s: State, session: nat, now: int) {
    exists i :: 0 <= i < |s.grants| && s.grants[i].session == session && s.grants[i].active
                && now > s.grants[i].expiresAt
  }

  /** The first thing that is wrong with a frame, in this order. */
  function FrameFault(s: State, session: nat, token: nat, input: string, now: int): FrameVerdict {
    if !Granted(s, session) then NoGrant
    else if GrantOver(s, session, now) then GrantExpired
    else if !Holder(s, session, token, now) then NoInput
    else if Utf8Length(input) > 4096 then TooLong
    else Accepted
  }

  lemma FrameObjectionIsFault(es: seq<Event>, session: nat, token: nat, input: string, now: int)
    requires session < |Run(es).sessions|
    ensures FrameObjection(Run(es), session, token, Utf8Length(input), now)
         == FrameFault(Run(es), session, token, input, now)
  {
    AcceptedExactlyWhen(es, session, token, now);
    RunInv(es);
    GrantIsTheOne(Run(es), session, now);
    hide Run, Utf8Length, ActiveGrant, Holder, Inv, ActiveLease, Granted, GrantOver;
  }

  lemma GrantIsTheOne(s: State, session: nat, now: int)
    requires OneGrant(s.grants)
    ensures (var g := ActiveGrant(s.grants, session);
             && (Granted(s, session) <==> g.Some?)
             && (GrantOver(s, session, now) <==> g.Some? && now > g.value.expiresAt))
  {
    var g := ActiveGrant(s.grants, session);
    if g.Some? {
      var k :| 0 <= k < |s.grants| && s.grants[k] == g.value;
      assert forall i :: 0 <= i < |s.grants| && s.grants[i].session == session && s.grants[i].active ==> i == k;
    }
  }

  /** A frame that has a receipt is answered with it and changes nothing. Another one gets the next
      number of its session, and is echoed if and only if the session has an active terminal grant
      that has not run out, the token is accepted and the text has at most 4096 bytes. */
  lemma SubmitFrameVerdict(es: seq<Event>, session: nat, token: nat, input: string, request: string, now: int)
    ensures (var s := Run(es);
             var o := Step(s, Event(DoFrame(session, token, input, request), now));
             && (session >= |s.sessions| ==> o == Outcome(Refused, s))
             && (session < |s.sessions| && Received(s, session, request) ==>
                   && o.state == s && o.reply.Receipted? && o.reply.receipt in s.receipts
                   && o.reply.receipt.session == session && o.reply.receipt.request == request)
             && (session < |s.sessions| && !Received(s, session, request) ==>
                   var fault := FrameFault(s, session, token, input, now);
                   var r := Receipt(session, request, |ReceiptsOf(s.receipts, session)| + 1, Utf8Length(input), fault);
                   var t := s.(receipts := s.receipts + [r]);
                   o == Outcome(Receipted(r),
                                if fault != Accepted then t else
                                t.(effects := s.effects + [Echoed(session, request)],
                                   events := Append(s.events, s.sessions[session].attempt,
                                                    WriteOutput(EchoText(input)))))))
  {
    var s := Run(es);
    RunInv(es);
    assert InOrder(ReceiptsOf(s.receipts, session));
    if session < |s.sessions| {
      FrameObjectionIsFault(es, session, token, input, now);
      SubmittedAs(s, session, token, input, request, now);
    }
    hide *;
  }

  lemma SubmittedAs(s: State, session: nat, token: nat, input: string, request: string, now: int)
    requires session < |s.sessions| && InOrder(ReceiptsOf(s.receipts, session))
    requires FrameObjection(s, session, token, Utf8Length(input), now) == FrameFault(s, session, token, input, now)
    ensures (var o := SubmitFrame(s, session, token, input, request, now);
             && (Received(s, session, request) ==>
                   && o.state == s && o.reply.Receipted? && o.reply.receipt in s.receipts
                   && o.reply.receipt.session == session && o.reply.receipt.request == request)
             && (!Received(s, session, request) ==>
                   var fault := FrameFault(s, session, token, input, now);
                   var r := Receipt(session, request, |ReceiptsOf(s.receipts, session)| + 1, Utf8Length(input), fault);
                   var t := s.(receipts := s.receipts + [r]);
                   o == Outcome(Receipted(r),
                                if fault != Accepted then t else
                                t.(effects := s.effects + [Echoed(session, request)],
                                   events := Append(s.events, s.sessions[session].attempt,
                                                    WriteOutput(EchoText(input)))))))
  {
    HighestOfOrdered(ReceiptsOf(s.receipts, session));
    hide Append, Utf8Length, FindReceipt, ReceiptsOf, HighestReceipt, FrameObjection, FrameFault, EchoText;
    assert FindReceipt(s.receipts, session, request).Some? <==> Received(s, session, request);
  }

  /** A terminal grant is refused without the attestation or a session that takes input. Otherwise
      the earlier grants of the session end and the new one is there for the given time. */
  lemma GrantVerdict(es: seq<Event>, session: nat, attested: bool, seconds: nat, now: int)
    ensures (var s := Run(es);
             var o := Step(s, Event(DoGrant(session, attested, seconds), now));
             var n := |s.grants|;
             && (o.reply.Refused? <==>
                 || !attested || session >= |s.sessions|
                 || !(s.sessions[session].state.Ready? || s.sessions[session].state.Controlled?))
             && (o.reply.Refused? ==> o.state == s)
             && (!o.reply.Refused? ==>
                   && o.reply.Done? && o.state == s.(grants := o.state.grants) && |o.state.grants| == n + 1
                   && o.state.grants[n] == TerminalGrant(session, true, now + seconds)
                   && forall i :: 0 <= i < n ==>
                        o.state.grants[i] == if s.grants[i].session == session then s.grants[i].(active := false)
                                             else s.grants[i]))
  {
  }

  // ---- leases ---------------------------------------------------------------------------------------

  /** The active lease of a session, by its token. */
  predicate Leased(s: State, session: nat, token: nat) {
    token < |s.leases| && s.leases[token].session == session && s.leases[token].active
  }

  /** A holder whose lease has not run out keeps its token for another 15 seconds. Another caller is
      refused while there is such a holder and it does not take over. Otherwise a lease with a fresh
      token takes the place of the old one, and a READY session becomes CONTROLLED. */
  lemma AcquireVerdict(es: seq<Event>, session: nat, holder: string, takeover: bool, now: int)
    requires session < |Run(es).sessions|
    ensures (var s := Run(es);
             var o := Step(s, Event(DoAcquire(session, holder, takeover), now));
             var lease := Lease(session, holder, |s.leases|, true, now + 15);
             && (forall token: nat :: Leased(s, session, token) && now <= s.leases[token].expiresAt ==>
                   if s.leases[token].holder == holder then
                     o == Outcome(Issued(token),
                                  s.(leases := s.leases[token := s.leases[token].(expiresAt := now + 15)]))
                   else if !takeover then o == Outcome(Refused, s)
                   else o == Outcome(Issued(|s.leases|), Given(s, session, lease)))
             && ((forall token: nat :: Leased(s, session, token) ==> now > s.leases[token].expiresAt) ==>
                   o == Outcome(Issued(|s.leases|), Given(s, session, lease))))
  {
    var s := Run(es);
    RunInv(es);
    LeasesEnded(s.leases, |s.sessions|, session);
    ActiveIsLeased(s, session);
    hide Inv, Run, ActiveLease, LeasesOk;
  }

  lemma ActiveIsLeased(s: State, session: nat)
    requires LeasesOk(s.leases, |s.sessions|)
    ensures forall token: nat :: Leased(s, session, token) <==> ActiveLease(s.leases, session) == Some(token)
    ensures forall i :: 0 <= i < |s.leases| ==> s.leases[i].token == i
  {
    forall token: nat | Leased(s, session, token) ensures ActiveLease(s.leases, session) == Some(token) {
      OnlyActive(s.leases, |s.sessions|, token);
    }
  }

  function Given(s: State, session: nat, lease: Lease): State
    requires session < |s.sessions|
  {
    var st := if s.sessions[session].state.Ready? then Controlled else s.sessions[session].state;
    s.(leases := Ended(s.leases, session) + [lease],
       sessions := s.sessions[session := s.sessions[session].(state := st)])
  }

  /** A heartbeat counts only for the token of the active lease, and moves its expiry only. */
  lemma HeartbeatVerdict(es: seq<Event>, session: nat, token: nat, now: int)
    ensures (var s := Run(es);
             Step(s, Event(DoHeartbeat(session, token), now))
             == if session < |s.sessions| && Leased(s, session, token)
                then Outcome(Done, s.(leases := s.leases[token := s.leases[token].(expiresAt := now + 15)]))
                else Outcome(Refused, s))
  {
    RunInv(es);
    ActiveIsLeased(Run(es), session);
    hide Inv, Run, ActiveLease;
  }

  // ---- sessions -----------------------------------------------------------------------------------------

  /** Some session of the attempt has not ended. */
  predicate Taken(s: State, attempt: nat) {
    exists i :: 0 <= i < |s.sessions| && s.sessions[i].attempt == attempt
                && !(s.sessions[i].state.Closed? || s.sessions[i].state.Lost? || s.sessions[i].state.Quarantined?)
  }

  /** A callback adds a session for the given time, unless the boundary refuses it: quarantined when
      the attempt has a session already or the callback is not from its fixture, and READY otherwise. */
  lemma ListenVerdict(es: seq<Event>, attempt: nat, boundaryOk: bool, fromFixture: bool, lifetime: int, now: int)
    ensures (var s := Run(es);
             Step(s, Event(DoListen(attempt, boundaryOk, fromFixture, lifetime), now))
             == if !boundaryOk then Outcome(Refused, s)
                else Outcome(Done, s.(sessions := s.sessions + [Session(
                  attempt, if Taken(s, attempt) || !fromFixture then Quarantined else Ready, now + lifetime)])))
  {
    var s := Run(es);
    LiveMeansTaken(s, attempt);
    hide HasLive, Taken, Run;
    assert forall st: SessionState, se: Session ::
        (s.sessions + [se])[|s.sessions| := se.(state := st)] == s.sessions + [se.(state := st)];
  }

  lemma LiveMeansTaken(s: State, attempt: nat)
    ensures HasLive(s.sessions, attempt) <==> Taken(s, attempt)
  {
  }

  /** A session that is established apart from its verification waits for it, unless another one of
      its attempt has not ended. */
  lemma EstablishVerdict(es: seq<Event>, attempt: nat, lifetime: int, now: int)
    ensures (var s := Run(es);
             Step(s, Event(DoEstablish(attempt, lifetime), now))
             == Outcome(Done, s.(sessions := s.sessions + [Session(
                  attempt, if Taken(s, attempt) then Quarantined else Unverified, now + lifetime)])))
  {
    LiveMeansTaken(Run(es), attempt);
    hide HasLive, Taken, Run;
  }

  /** A verification decides about a session that waits for it, and about no other. */
  lemma VerifyVerdict(es: seq<Event>, session: nat, associated: bool, now: int)
    ensures (var s := Run(es);
             Step(s, Event(DoVerify(session, associated), now))
             == if session >= |s.sessions| then Outcome(Refused, s)
                else if !s.sessions[session].state.Unverified? then Outcome(Done, s)
                else Outcome(Done, s.(sessions := s.sessions[session := Session(
                  s.sessions[session].attempt, if associated then Ready else Quarantined,
                  s.sessions[session].expiresAt)])))
  {
  }

  /** Release, quarantine and termination end the leases of their session and nothing else; the first
      leaves CONTROLLED, the others end the session. */
  lemma EndVerdict(es: seq<Event>, session: nat, now: int)
    requires session < |Run(es).sessions|
    ensures (var s := Run(es);
             var st := s.sessions[session].state;
             && Step(s, Event(DoRelease(session), now)).state
                == EndedAs(s, session, if st.Controlled? then Ready else st)
             && Step(s, Event(DoQuarantine(session), now)).state == EndedAs(s, session, Quarantined)
             && Step(s, Event(DoTerminate(session), now)).state == EndedAs(s, session, Closed))
  {
    var s := Run(es);
    RunInv(es);
    ClosedAs(s, session, Quarantined);
    ClosedAs(s, session, Stopping);
    LeasesEnded(s.leases, |s.sessions|, session);
    hide Inv, Run, ActiveLease;
  }

  function EndedAs(s: State, session: nat, st: SessionState): State
    requires session < |s.sessions|
  {
    s.(sessions := s.sessions[session := s.sessions[session].(state := st)], leases := Ended(s.leases, session))
  }

  /** How the bytes of a frame are counted: character by character, by the ranges of UTF-8. */
  lemma {:induction false} Utf8LengthAdds(a: string, b: string, c: char)
    ensures Utf8Length(a + b) == Utf8Length(a) + Utf8Length(b)
    ensures (var n := c as int;
             && (n <= 0x7f ==> Utf8Length([c]) == 1)
             && (0x80 <= n <= 0x7ff ==> Utf8Length([c]) == 2)
             && (0x800 <= n <= 0xffff ==> Utf8Length([c]) == 3)
             && (n >= 0x10000 ==> Utf8Length([c]) == 4))
  {
    assert [c][1..] == "";
    if a == "" {
      assert a + b == b;
    } else {
      assert (a + b)[1..] == a[1..] + b;
      Utf8LengthAdds(a[1..], b, c);
    }
  }
}
