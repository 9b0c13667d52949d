/** The lab workspace as the code runs it: tables that the services update in place. Each
method is tied to the transaction it implements. */
module LabServices {
  import opened Base
  import opened Sanitizer
  import opened Streams
  import opened Workspaces

  class LabService {
    var sessions: seq<Session>
    var leases: seq<Lease>
    var records: seq<Record>
    var grants: seq<TerminalGrant>
    var receipts: seq<Receipt>
    var effects: seq<Effect>
    var events: seq<StreamEvent>

    function Snapshot(): State
      reads this
    {
      State(sessions, leases, records, grants, receipts, effects, events)
    }

    constructor ()
      ensures Snapshot() == Initial
    {
      sessions, leases, records, grants, receipts, effects, events := [], [], [], [], [], [], [];
    }

    /** The transaction failed: every table is as it was. What reached the target side stays. */
    method Rollback(was: State)
      modifies this
      ensures Snapshot() == was.(effects := old(effects))
    {
      sessions, leases, records := was.sessions, was.leases, was.records;
      grants, receipts, events := was.grants, was.receipts, was.events;
    }

    // ---- the event stream -----------------------------------------------------------

    method AppendEvent(attempt: nat, w: Write) returns (e: StreamEvent)
      modifies this`events
      ensures events == Append(old(events), attempt, w)
      ensures e == events[|events| - 1]
    {
      var log := Of(events, attempt);
      var number := Highest(log) + 1;
      match w {
        case WriteStatus(state) => e := StreamEvent(attempt, number, Status, Take(state, 64));
        case WriteEvidence(summary) =>
          e := StreamEvent(attempt, number, Evidence, Sanitize(summary, MAX_PAYLOAD));
        case WriteGap(reason) => e := StreamEvent(attempt, number, Gap, Sanitize(reason, 256));
        case WriteOutput(text) =>
          var clean := Sanitize(text, MAX_PAYLOAD);
          if OutputChars(log) + |clean| > TRANSCRIPT_LIMIT {
            e := StreamEvent(attempt, number, Gap, TRUNCATED);
          } else {
            e := StreamEvent(attempt, number, Output, clean);
          }
      }
      events := events + [e];
    }

    // ---- sessions and leases ----------------------------------------------------------

    method SetSessionState(session: nat, st: SessionState)
      requires session < |sessions|
      modifies this`sessions
      ensures Snapshot() == SetState(old(Snapshot()), session, st)
    {
      sessions := sessions[session := sessions[session].(state := st)];
    }

    method Establish(attempt: nat, lifetime: int, now: int) returns (session: nat)
      modifies this`sessions
      ensures session == |old(sessions)| < |sessions|
      ensures Snapshot() == Workspaces.Establish(old(Snapshot()), attempt, lifetime, now).state
    {
      var existing := HasLive(sessions, attempt);
      session := |sessions|;
      sessions := sessions + [Session(attempt, Unverified, now + lifetime)];
      if existing {
        sessions := sessions[session := sessions[session].(state := Quarantined)];
      }
    }

    method Verify(session: nat, associated: bool) returns (reply: Reply)
      modifies this`sessions
      ensures Outcome(reply, Snapshot()) == Workspaces.Verify(old(Snapshot()), session, associated)
    {
      if session >= |sessions| { return Refused; }
      if !sessions[session].state.Unverified? { return Done; }
      if associated {
        SetSessionState(session, Ready);
      } else {
        SetSessionState(session, Quarantined);
      }
      reply := Done;
    }

    method Listen(attempt: nat, boundaryOk: bool, fromFixture: bool, lifetime: int, now: int)
      returns (reply: Reply)
      modifies this`sessions
      ensures Outcome(reply, Snapshot())
           == Workspaces.Listen(old(Snapshot()), attempt, boundaryOk, fromFixture, lifetime, now)
    {
      if !boundaryOk { return Refused; }
      var session := Establish(attempt, lifetime, now);
      if sessions[session].state.Quarantined? { return Done; }
      reply := Verify(session, fromFixture);
    }

    method DeactivateCurrent(session: nat)
      modifies this`leases
      ensures leases == (var i := ActiveLease(old(leases), session);
                         if i.Some? then Deactivate(old(leases), i.value) else old(leases))
    {
      var current := ActiveLease(leases, session);
      if current.Some? {
        leases := leases[current.value := leases[current.value].(active := false)];
      }
    }

    method AcquireLease(session: nat, holder: string, takeover: bool, now: int) returns (reply: Reply)
      modifies this`leases, this`sessions
      ensures Outcome(reply, Snapshot())
           == Workspaces.AcquireLease(old(Snapshot()), session, holder, takeover, now)
    {
      if session >= |sessions| { return Refused; }
      var current := ActiveLease(leases, session);
      if current.Some? && !LeaseExpired(leases[current.value], now) {
        var lease := leases[current.value];
        if lease.holder == holder {
          leases := leases[current.value := lease.(expiresAt := now + LEASE_SECONDS)];
          return Issued(lease.token);
        }
        if !takeover { return Refused; }
        DeactivateCurrent(session);
      } else if current.Some? {
        DeactivateCurrent(session);
      }
      var lease := Lease(session, holder, |leases|, true, now + LEASE_SECONDS);
      leases := leases + [lease];
      if sessions[session].state.Ready? {
        SetSessionState(session, Controlled);
      }
      reply := Issued(lease.token);
    }

    method Heartbeat(session: nat, token: nat, now: int) returns (reply: Reply)
      modifies this`leases
      ensures Outcome(reply, Snapshot()) == Workspaces.Heartbeat(old(Snapshot()), session, token, now)
    {
      if session >= |sessions| { return Refused; }
      var current := ActiveLease(leases, session);
      if current.None? { return Refused; }
      var lease := leases[current.value];
      if !lease.active || lease.token != token { return Refused; }
      leases := leases[current.value := lease.(expiresAt := now + LEASE_SECONDS)];
      reply := Done;
    }

    method Release(session: nat)
      requires session < |sessions|
      modifies this`leases, this`sessions
      ensures Snapshot() == Workspaces.Release(old(Snapshot()), session)
    {
      DeactivateCurrent(session);
      if sessions[session].state.Controlled? {
        SetSessionState(session, Ready);
      }
    }

    method ReleaseLease(session: nat) returns (reply: Reply)
      modifies this`leases, this`sessions
      ensures Outcome(reply, Snapshot()) == Workspaces.ReleaseLease(old(Snapshot()), session)
    {
      if session >= |sessions| { return Refused; }
      Release(session);
      reply := Done;
    }

    method Quarantine(session: nat) returns (reply: Reply)
      modifies this`leases, this`sessions
      ensures Outcome(reply, Snapshot()) == Workspaces.Quarantine(old(Snapshot()), session)
    {
      if session >= |sessions| { return Refused; }
      SetSessionState(session, Quarantined);
      Release(session);
      reply := Done;
    }

    method Terminate(session: nat) returns (reply: Reply)
      modifies this`leases, this`sessions
      ensures Outcome(reply, Snapshot()) == Workspaces.Terminate(old(Snapshot()), session)
    {
      if session >= |sessions| { return Refused; }
      SetSessionState(session, Stopping);
      Release(session);
      SetSessionState(session, Closed);
      reply := Done;
    }

    method ReconcileSessions(gone: set<nat>, now: int) returns (n: nat)
      modifies this`leases, this`sessions
      ensures Snapshot() == Workspaces.ReconcileSessions(old(Snapshot()), gone, now).state
      ensures n == ReconcileCount(old(sessions), gone, now)
    {
      ghost var was := Snapshot();
      var live := sessions;
      n := 0;
      for i := 0 to |live|
        invariant Snapshot() == ReconcileFirst(was, gone, now, i)
        invariant n == ReconcileCount(live[..i], gone, now)
      {
        assert live[..i + 1][..i] == live[..i];
        if Reconcilable(sessions[i], gone, now) {
          SetSessionState(i, Lost);
          Release(i);
          n := n + 1;
        }
      }
      assert live[..|live|] == live;
    }

    // ---- guided actions ------------------------------------------------------------------

    method Reject(session: nat, action: string, request: string, reason: Reason) returns (reply: Reply)
      modifies this`records
      ensures Outcome(reply, Snapshot())
           == AddRecord(old(Snapshot()), Record(session, request, action, Rejected, reason, ""))
    {
      var record := Record(session, request, action, Rejected, reason, "");
      records := records + [record];
      reply := Recorded(record);
    }

    method Dispatch(session: nat, granted: set<string>, action: string, params: map<string, Param>,
                    token: nat, request: string, result: Result, now: int) returns (reply: Reply)
      modifies this
      ensures Outcome(reply, Snapshot())
           == Workspaces.Dispatch(old(Snapshot()), session, granted, action, params, token, request, result, now)
    {
      if session >= |sessions| { return Refused; }
      var existing := FindRecord(records, session, request);
      if existing.Some? { return Recorded(existing.value); }
      if action !in ACTIONS {
        reply := Reject(session, action, request, UnknownAction);
      } else if action !in granted {
        reply := Reject(session, action, request, NotInGrant);
      } else if !AcceptsInput(sessions[session], LeaseOf(Snapshot(), session), token, now) {
        reply := Reject(session, action, request, NoLease);
      } else if !ParamsOk(action, params) {
        reply := Reject(session, action, request, BadParameters);
      } else if Used(records, session) >= TOTAL_INVOCATION_LIMIT {
        reply := Reject(session, action, request, OverBudget);
      } else {
        reply := Perform(session, action, request, result);
      }
    }

    /** The intended action is recorded before it runs, and the record is settled after. */
    method Perform(session: nat, action: string, request: string, result: Result) returns (reply: Reply)
      requires session < |sessions|
      modifies this
      ensures Outcome(reply, Snapshot())
           == Workspaces.Perform(old(Snapshot()), session, action, request, result)
    {
      hide Append;
      var was := Snapshot();
      var attempt := sessions[session].attempt;
      var record := Record(session, request, action, Dispatched, Fine, "");
      records := records + [record];
      effects := effects + [Ran(session, request, !result.Raised?)];
      match result {
        case Raised =>
          Rollback(was);
          return Failed;
        case Timeout =>
          record := record.(state := OutcomeUnknown, reason := TimedOut);
          records := records[|was.records| := record];
          var _ := AppendEvent(attempt, WriteGap("guided action outcome unknown"));
        case Returned(text) =>
          var output := Sanitize(text, MaxBytes(action));
          record := record.(state := Completed, output := output);
          records := records[|was.records| := record];
          if action == "terminate" {
            SetSessionState(session, Closed);
            Release(session);
          }
          var _ := AppendEvent(attempt, WriteOutput("[" + action + "] " + output));
      }
      assert records == was.records + [record];
      reply := Recorded(record);
    }

    // ---- terminal --------------------------------------------------------------------------

    method EndGrants(session: nat)
      modifies this`grants
      ensures grants == WithoutGrants(old(grants), session)
    {
      ghost var target := WithoutGrants(grants, session);
      ghost var was := grants;
      hide WithoutGrants;
      for i := 0 to |grants|
        invariant |grants| == |was|
        invariant forall j :: 0 <= j < i ==> grants[j] == target[j]
        invariant forall j :: i <= j < |was| ==> grants[j] == was[j]
      {
        if grants[i].session == session && grants[i].active {
          grants := grants[i := grants[i].(active := false)];
        }
      }
    }

    method GrantTerminal(session: nat, attested: bool, seconds: nat, now: int) returns (reply: Reply)
      modifies this`grants
      ensures Outcome(reply, Snapshot())
           == Workspaces.GrantTerminal(old(Snapshot()), session, attested, seconds, now)
    {
      if session >= |sessions| { return Refused; }
      if !attested { return Refused; }
      if !TakesInput(sessions[session].state) { return Refused; }
      EndGrants(session);
      grants := grants + [TerminalGrant(session, true, now + seconds)];
      reply := Done;
    }

    method SubmitFrame(session: nat, token: nat, input: string, request: string, now: int)
      returns (reply: Reply)
      modifies this`receipts, this`effects, this`events
      ensures Outcome(reply, Snapshot())
           == Workspaces.SubmitFrame(old(Snapshot()), session, token, input, request, now)
    {
      hide Append, Utf8Length, FindReceipt;
      if session >= |sessions| { return Refused; }
      var existing := FindReceipt(receipts, session, request);
      if existing.Some? { return Receipted(existing.value); }
      var bytes := Utf8Length(input);
      var verdict := Accepted;
      var grant := ActiveGrant(grants, session);
      if grant.None? || !grant.value.active || grant.value.session != session {
        verdict := NoGrant;
      } else if now > grant.value.expiresAt {
        verdict := GrantExpired;
      } else if !AcceptsInput(sessions[session], LeaseOf(Snapshot(), session), token, now) {
        verdict := NoInput;
      } else if bytes > MAX_FRAME_BYTES {
        verdict := TooLong;
      }
      var receipt := Receipt(session, request, HighestReceipt(ReceiptsOf(receipts, session)) + 1, bytes, verdict);
      receipts := receipts + [receipt];
      if verdict.Accepted? {
        effects := effects + [Echoed(session, request)];
        var _ := AppendEvent(sessions[session].attempt, WriteOutput(EchoText(input)));
      }
      reply := Receipted(receipt);
    }
  }
}
