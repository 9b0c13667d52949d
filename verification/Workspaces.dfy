/** The lab workspace as a transition system: sessions and controller leases
(backend/app/services/session_broker.py, listener.py), guided actions (guided.py) and terminal
frames (terminal.py), writing to the event streams of the attempts. Each function is one
transaction with one reading of the clock. Rows are named by their position in their table. */
module Workspaces {
  import opened Base
  import opened Sanitizer
  import opened Streams

  // ---- data model ------------------------------------------------------------------

  datatype SessionState =
    | Pending | Unverified | Ready | Controlled | Stopping | Closed | Lost | Quarantined

  predicate Live(st: SessionState) {
    st.Pending? || st.Unverified? || st.Ready? || st.Controlled? || st.Stopping?
  }

  predicate TakesInput(st: SessionState) { st.Ready? || st.Controlled? }

  predicate Dead(st: SessionState) { st.Closed? || st.Lost? || st.Quarantined? }

  datatype Session = Session(attempt: nat, state: SessionState, expiresAt: int)

  datatype Lease = Lease(session: nat, holder: string, token: nat, active: bool, expiresAt: int)

  datatype RecordState = Dispatched | Completed | OutcomeUnknown | Rejected

  datatype Reason =
    | Fine | UnknownAction | NotInGrant | NoLease | BadParameters | OverBudget | TimedOut

  datatype Record = Record(session: nat, request: string, action: string, state: RecordState,
                           reason: Reason, output: string)

  datatype FrameVerdict = Accepted | NoGrant | GrantExpired | NoInput | TooLong

  datatype TerminalGrant = TerminalGrant(session: nat, active: bool, expiresAt: int)

  datatype Receipt = Receipt(session: nat, request: string, number: nat, bytes: nat,
                             verdict: FrameVerdict)

  /** What reached the target side. A guided action that raises leaves no record behind. */
  datatype Effect =
    | Ran(session: nat, request: string, recorded: bool)
    | Echoed(session: nat, request: string)

  datatype State = State(sessions: seq<Session>, leases: seq<Lease>, records: seq<Record>,
                         grants: seq<TerminalGrant>, receipts: seq<Receipt>,
                         effects: seq<Effect>, events: seq<StreamEvent>)

  const Initial := State([], [], [], [], [], [], [])

  datatype Reply = Done | Refused | Issued(token: nat) | Recorded(record: Record)
                 | Receipted(receipt: Receipt) | Failed

  datatype Outcome = Outcome(reply: Reply, state: State)

  const LEASE_SECONDS := 15
  const TOTAL_INVOCATION_LIMIT := 20
  const MAX_FRAME_BYTES := 4096

  // ---- leases ------------------------------------------------------------------------

  /** The first active lease of a session. */
  function ActiveLease(leases: seq<Lease>, session: nat): (r: Option<nat>)
    ensures r.Some? ==> r.value < |leases| && leases[r.value].session == session
                        && leases[r.value].active
    ensures r.None? <==> forall i :: 0 <= i < |leases| ==>
                                       !(leases[i].session == session && leases[i].active)
  {
    if leases == [] then None
    else
      var n := |leases| - 1;
      var earlier := ActiveLease(leases[..n], session);
      if earlier.Some? then earlier
      else if leases[n].session == session && leases[n].active then Some(n)
      else None
  }

  predicate LeaseExpired(lease: Lease, now: int) { now > lease.expiresAt }

  /** `accepts_input`: neither the session's own expiry nor the lease's session is looked at. */
  predicate AcceptsInput(session: Session, lease: Option<Lease>, token: nat, now: int) {
    && TakesInput(session.state)
    && lease.Some? && lease.value.active && lease.value.token == token
    && !LeaseExpired(lease.value, now)
  }

  /** The lease a caller passes on: it looks it up by session. */
  function LeaseOf(s: State, session: nat): Option<Lease> {
    var i := ActiveLease(s.leases, session);
    if i.Some? then Some(s.leases[i.value]) else None
  }

  predicate Accepts(s: State, session: nat, token: nat, now: int) {
    session < |s.sessions| && AcceptsInput(s.sessions[session], LeaseOf(s, session), token, now)
  }

  function Deactivate(leases: seq<Lease>, i: nat): seq<Lease>
    requires i < |leases|
  {
    leases[i := leases[i].(active := false)]
  }

  function SetState(s: State, session: nat, st: SessionState): State
    requires session < |s.sessions|
  {
    s.(sessions := s.sessions[session := s.sessions[session].(state := st)])
  }

  /** `release_lease`. */
  function Release(s: State, session: nat): State
    requires session < |s.sessions|
  {
    var current := ActiveLease(s.leases, session);
    var t := if current.Some? then s.(leases := Deactivate(s.leases, current.value)) else s;
    if s.sessions[session].state.Controlled? then SetState(t, session, Ready) else t
  }

  function Issue(s: State, session: nat, holder: string, now: int): Outcome
    requires session < |s.sessions|
  {
    var lease := Lease(session, holder, |s.leases|, true, now + LEASE_SECONDS);
    var t := s.(leases := s.leases + [lease]);
    Outcome(Issued(lease.token),
            if s.sessions[session].state.Ready? then SetState(t, session, Controlled) else t)
  }

  function AcquireLease(s: State, session: nat, holder: string, takeover: bool, now: int): Outcome {
    if session >= |s.sessions| then Outcome(Refused, s)
    else
      var current := ActiveLease(s.leases, session);
      if current.None? then Issue(s, session, holder, now)
      else
        var i := current.value;
        var lease := s.leases[i];
        if LeaseExpired(lease, now)
        then Issue(s.(leases := Deactivate(s.leases, i)), session, holder, now)
        else if lease.holder == holder
        then Outcome(Issued(lease.token),
                     s.(leases := s.leases[i := lease.(expiresAt := now + LEASE_SECONDS)]))
        else if !takeover then Outcome(Refused, s)
        else Issue(s.(leases := Deactivate(s.leases, i)), session, holder, now)
  }

  /** Renews whatever lease is active, even one that has run out. */
  function Heartbeat(s: State, session: nat, token: nat, now: int): Outcome {
    var current := ActiveLease(s.leases, session);
    if session >= |s.sessions| || current.None? || s.leases[current.value].token != token
    then Outcome(Refused, s)
    else
      var lease := s.leases[current.value].(expiresAt := now + LEASE_SECONDS);
      Outcome(Done, s.(leases := s.leases[current.value := lease]))
  }

  function ReleaseLease(s: State, session: nat): Outcome {
    if session >= |s.sessions| then Outcome(Refused, s) else Outcome(Done, Release(s, session))
  }

  // ---- sessions ------------------------------------------------------------------------

  predicate HasLive(sessions: seq<Session>, attempt: nat) {
    exists i :: 0 <= i < |sessions| && sessions[i].attempt == attempt && Live(sessions[i].state)
  }

  function Establish(s: State, attempt: nat, lifetime: int, now: int): Outcome {
    var st := if HasLive(s.sessions, attempt) then Quarantined else Unverified;
    Outcome(Done, s.(sessions := s.sessions + [Session(attempt, st, now + lifetime)]))
  }

  function Verify(s: State, session: nat, associated: bool): Outcome {
    if session >= |s.sessions| then Outcome(Refused, s)
    else if !s.sessions[session].state.Unverified? then Outcome(Done, s)
    else Outcome(Done, SetState(s, session, if associated then Ready else Quarantined))
  }

  /** `listener.establish`: a callback establishes a session and verifies it by its source. */
  function Listen(s: State, attempt: nat, boundaryOk: bool, fromFixture: bool, lifetime: int, now: int): Outcome {
    if !boundaryOk then Outcome(Refused, s)
    else
      var t := Establish(s, attempt, lifetime, now).state;
      if t.sessions[|s.sessions|].state.Quarantined? then Outcome(Done, t)
      else Verify(t, |s.sessions|, fromFixture)
  }

  function Quarantine(s: State, session: nat): Outcome {
    if session >= |s.sessions| then Outcome(Refused, s)
    else Outcome(Done, Release(SetState(s, session, Quarantined), session))
  }

  /** `listener.terminate`. */
  function Terminate(s: State, session: nat): Outcome {
    if session >= |s.sessions| then Outcome(Refused, s)
    else Outcome(Done, SetState(Release(SetState(s, session, Stopping), session), session, Closed))
  }

  /** Sessions that a restart gives up: past their lifetime, or of a finished attempt. */
  predicate Reconcilable(session: Session, gone: set<nat>, now: int) {
    && (session.state.Unverified? || TakesInput(session.state) || session.state.Stopping?)
    && (now > session.expiresAt || session.attempt in gone)
  }

  function GiveUp(s: State, session: nat): State
    requires session < |s.sessions|
  {
    Release(SetState(s, session, Lost), session)
  }

  /** `reconcile_sessions` over the first n sessions. */
  function ReconcileFirst(s: State, gone: set<nat>, now: int, n: nat): (t: State)
    requires n <= |s.sessions|
    ensures |t.sessions| == |s.sessions|
    ensures forall i :: n <= i < |s.sessions| ==> t.sessions[i] == s.sessions[i]
  {
    if n == 0 then s
    else
      var t := ReconcileFirst(s, gone, now, n - 1);
      if Reconcilable(s.sessions[n - 1], gone, now) then GiveUp(t, n - 1) else t
  }

  function ReconcileCount(sessions: seq<Session>, gone: set<nat>, now: int): (n: nat)
    ensures n <= |sessions|
  {
    if sessions == [] then 0
    else
      var last := |sessions| - 1;
      ReconcileCount(sessions[..last], gone, now)
      + if Reconcilable(sessions[last], gone, now) then 1 else 0
  }

  function ReconcileSessions(s: State, gone: set<nat>, now: int): Outcome {
    Outcome(Done, ReconcileFirst(s, gone, now, |s.sessions|))
  }

  // ---- guided actions ------------------------------------------------------------------

  datatype Param = Text(text: string) | NotText

  datatype Rule = Rule(name: string, required: bool, maxLength: nat)

  const ACTIONS: set<string> :=
    {"whoami", "os-context", "read-marker", "capture-observation", "terminate"}

  /** The one parameter an action has, if any. */
  function ParamRule(action: string): Option<Rule> {
    if action == "read-marker" then Some(Rule("marker", true, 64))
    else if action == "capture-observation" then Some(Rule("note", false, 256))
    else None
  }

  predicate ParamsOk(action: string, params: map<string, Param>) {
    match ParamRule(action)
    case None => params == map[]
    case Some(rule) =>
      && (rule.required ==> rule.name in params)
      && (rule.name in params ==>
            params[rule.name].Text? && |params[rule.name].text| <= rule.maxLength)
      && params.Keys <= {rule.name}
  }

  function MaxBytes(action: string): nat { if action == "terminate" then 256 else 16384 }

  /** How the action's implementation ended. */
  datatype Result = Returned(output: string) | Timeout | Raised

  function FindRecord(records: seq<Record>, session: nat, request: string): (r: Option<Record>)
    ensures r.Some? ==> r.value in records && r.value.session == session && r.value.request == request
    ensures r.None? <==> forall i :: 0 <= i < |records| ==>
                                       !(records[i].session == session && records[i].request == request)
  {
    if records == [] then None
    else
      var last := records[|records| - 1];
      var earlier := FindRecord(records[..|records| - 1], session, request);
      if earlier.Some? then earlier
      else if last.session == session && last.request == request then Some(last)
      else None
  }

  predicate Counted(st: RecordState) {
    st.Dispatched? || st.Completed? || st.OutcomeUnknown?
  }

  function Used(records: seq<Record>, session: nat): nat {
    if records == [] then 0
    else
      var last := records[|records| - 1];
      Used(records[..|records| - 1], session)
      + if last.session == session && Counted(last.state) then 1 else 0
  }

  /** Why an action is refused; Fine when it is not. */
  function Objection(s: State, session: nat, granted: set<string>, action: string,
                     params: map<string, Param>, token: nat, now: int): Reason
    requires session < |s.sessions|
  {
    if action !in ACTIONS then UnknownAction
    else if action !in granted then NotInGrant
    else if !AcceptsInput(s.sessions[session], LeaseOf(s, session), token, now) then NoLease
    else if !ParamsOk(action, params) then BadParameters
    else if Used(s.records, session) >= TOTAL_INVOCATION_LIMIT then OverBudget
    else Fine
  }

  function AddRecord(s: State, record: Record): Outcome {
    Outcome(Recorded(record), s.(records := s.records + [record]))
  }

  /** The part of `dispatch` after every check passed. */
  function Perform(s: State, session: nat, action: string, request: string, result: Result): Outcome
    requires session < |s.sessions|
  {
    var attempt := s.sessions[session].attempt;
    match result
    case Raised => Outcome(Failed, s.(effects := s.effects + [Ran(session, request, false)]))
    case Timeout =>
      AddRecord(s.(effects := s.effects + [Ran(session, request, true)],
                   events := Append(s.events, attempt, WriteGap("guided action outcome unknown"))),
                Record(session, request, action, OutcomeUnknown, TimedOut, ""))
    case Returned(text) =>
      var output := Sanitize(text, MaxBytes(action));
      var t := s.(effects := s.effects + [Ran(session, request, true)],
                  events := Append(s.events, attempt, WriteOutput("[" + action + "] " + output)));
      var u := if action == "terminate" then Release(SetState(t, session, Closed), session) else t;
      AddRecord(u, Record(session, request, action, Completed, Fine, output))
  }

  function Dispatch(s: State, session: nat, granted: set<string>, action: string,
                    params: map<string, Param>, token: nat, request: string, result: Result,
                    now: int): Outcome
  {
    if session >= |s.sessions| then Outcome(Refused, s)
    else
      var existing := FindRecord(s.records, session, request);
      if existing.Some? then Outcome(Recorded(existing.value), s)
      else
        var objection := Objection(s, session, granted, action, params, token, now);
        if objection != Fine
        then AddRecord(s, Record(session, request, action, Rejected, objection, ""))
        else Perform(s, session, action, request, result)
  }

  // ---- terminal ----------------------------------------------------------------------

  function FindReceipt(receipts: seq<Receipt>, session: nat, request: string): (r: Option<Receipt>)
    ensures r.Some? ==> r.value in receipts && r.value.session == session && r.value.request == request
    ensures r.None? <==> forall i :: 0 <= i < |receipts| ==>
                                       !(receipts[i].session == session && receipts[i].request == request)
  {
    if receipts == [] then None
    else
      var last := receipts[|receipts| - 1];
      var earlier := FindReceipt(receipts[..|receipts| - 1], session, request);
      if earlier.Some? then earlier
      else if last.session == session && last.request == request then Some(last)
      else None
  }

  function ReceiptsOf(receipts: seq<Receipt>, session: nat): seq<Receipt> {
    if receipts == [] then []
    else
      var last := receipts[|receipts| - 1];
      ReceiptsOf(receipts[..|receipts| - 1], session) + if last.session == session then [last] else []
  }

  function HighestReceipt(receipts: seq<Receipt>): nat {
    if receipts == [] then 0
    else Max(receipts[|receipts| - 1].number, HighestReceipt(receipts[..|receipts| - 1]))
  }

  /** The length of the UTF-8 form of a text (section 3 of RFC 3629). */
  function Utf8Length(text: string): nat {
    if text == "" then 0
    else
      var c := text[0] as int;
      Utf8Length(text[1..]) + if c < 0x80 then 1 else if c < 0x800 then 2 else if c < 0x10000 then 3 else 4
  }

  /** The first active terminal grant of a session. */
  function ActiveGrant(grants: seq<TerminalGrant>, session: nat): (r: Option<TerminalGrant>)
    ensures r.Some? ==> r.value in grants && r.value.session == session && r.value.active
    ensures r.None? <==> forall i :: 0 <= i < |grants| ==>
                                       !(grants[i].session == session && grants[i].active)
  {
    if grants == [] then None
    else
      var last := grants[|grants| - 1];
      var earlier := ActiveGrant(grants[..|grants| - 1], session);
      if earlier.Some? then earlier
      else if last.session == session && last.active then Some(last)
      else None
  }

  function WithoutGrants(grants: seq<TerminalGrant>, session: nat): (r: seq<TerminalGrant>)
    ensures |r| == |grants|
    ensures forall i :: 0 <= i < |grants| ==>
                          r[i] == if grants[i].session == session then grants[i].(active := false)
                                  else grants[i]
  {
    if grants == [] then []
    else
      var last := grants[|grants| - 1];
      WithoutGrants(grants[..|grants| - 1], session)
      + [if last.session == session then last.(active := false) else last]
  }

  function GrantTerminal(s: State, session: nat, attested: bool, seconds: nat, now: int): Outcome {
    if session >= |s.sessions| || !attested || !TakesInput(s.sessions[session].state)
    then Outcome(Refused, s)
    else
      var grant := TerminalGrant(session, true, now + seconds);
      Outcome(Done, s.(grants := WithoutGrants(s.grants, session) + [grant]))
  }

  function FrameObjection(s: State, session: nat, token: nat, bytes: nat, now: int): FrameVerdict
    requires session < |s.sessions|
  {
    var grant := ActiveGrant(s.grants, session);
    if grant.None? then NoGrant
    else if now > grant.value.expiresAt then GrantExpired
    else if !AcceptsInput(s.sessions[session], LeaseOf(s, session), token, now) then NoInput
    else if bytes > MAX_FRAME_BYTES then TooLong
    else Accepted
  }

  function EchoText(input: string): string {
    "$ " + input + "\n(fake session channel: command-output only; no PTY/exec)"
  }

  function SubmitFrame(s: State, session: nat, token: nat, input: string, request: string,
                       now: int): Outcome
  {
    if session >= |s.sessions| then Outcome(Refused, s)
    else
      var existing := FindReceipt(s.receipts, session, request);
      if existing.Some? then Outcome(Receipted(existing.value), s)
      else
        var bytes := Utf8Length(input);
        var verdict := FrameObjection(s, session, token, bytes, now);
        var number := HighestReceipt(ReceiptsOf(s.receipts, session)) + 1;
        var receipt := Receipt(session, request, number, bytes, verdict);
        var t := s.(receipts := s.receipts + [receipt]);
        Outcome(Receipted(receipt),
                if verdict != Accepted then t
                else t.(effects := s.effects + [Echoed(session, request)],
                        events := Append(s.events, s.sessions[session].attempt,
                                         WriteOutput(EchoText(input)))))
  }
}
