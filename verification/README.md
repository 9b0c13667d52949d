# A verified model of the scan platform

The platform runs security scans under an approval regime: scans are created, approved, started,
paused and stopped by people, executed by workers that take messages from a queue, created by
schedules, and cut short by emergency stops and a sweeper. Beside that core it keeps a hash-chained
audit log, a lab workspace with fenced operator sessions, a scope policy, and a history of findings
that is compared from run to run and projected into issues.

The project models these parts and proves what their code promises together. A component whose code
updates rows in place is modelled twice: as pure functions from state to state, and as a class whose
methods are proved to do what the functions say (`ScanDatabase`, `LabService`, `AuditTrail`,
`FindingStore`, `IssueBoard`). The theorems are about the functions and about every sequence of them:
what every run keeps, and, in Verdicts, ScheduleRuns, AuditContents, ScopeFacts and
WorkspaceVerdicts, what each transaction does, in words that do not use the functions that compute it.

| files | subject |
|---|---|
| Base, Text, Decimal | optional values, the Python string operations in use, decimal notation |
| Executions, Lifecycle, Scheduling | the scan lifecycle, one function per transaction |
| RowInvariant, LifecycleInvariant, CreationInvariant | the inductive invariant, row by row and transaction by transaction |
| LifecycleRuns, ScheduleRuns, Progress, ScanGroups | theorems over whole runs; schedules along runs; when an idle system can go on; the derived state of a scan |
| Verdicts | the exact outcome of every lifecycle transaction in every reachable state |
| ScanDatabase | the lifecycle in place |
| CanonicalJson, CanonicalJsonFacts, AuditChain, AuditContents | the canonical encoding, the audit log, and what it holds |
| Sanitizer, Streams | cleaning of untrusted output; the event stream and its replay |
| Workspaces, WorkspaceInvariant, WorkspaceRuns, LabService | sessions, leases, guided actions and terminal frames |
| WorkspaceVerdicts | the exact outcome of every workspace transaction in every reachable state |
| Cidr, Targets, Scope, ScopeFacts | IPv4 blocks, canonical targets, scope evaluation and the addresses handed to active stages |
| Ports | the port-specification parser |
| Findings, FingerprintFacts, Comparison, Issues, IssueFacts | fingerprints, which of them are shared, and recording, comparison with a baseline, issues |

## Reading of the code

- Each endpoint, each `with SessionLocal()` block, the sweep and each schedule of a tick is one
  serialised transaction with one reading of the clock. Clocks are not assumed to advance, except
  where Progress says what can happen from the present on.
- Queue messages are a set: a message, once sent, may be delivered any number of times, at any later
  moment, or never. A worker that passed the pre-flight may persist at any later moment, more than
  once or never; what its stages produced is arbitrary.
- Rows are named by their position in their table, and fresh UUIDs and tokens by the position of the
  row they are made for.
- SHA-256 over the UTF-8 form of a text is an unknown function. A claim that needs it free of
  collisions either says so or names the colliding texts.
- Visibility, roles, CSRF and feature flags are taken as passed; what a check of such a kind decides
  inside a modelled function is an input (`admitted`, `attested`, `boundaryOk`, `scopeOk`).

## Where the code differs from what it is meant to do

Each point names the lemma with the exact condition, and the witness.

- `capacity_available` counts other QUEUED executions as occupied slots, so queued executions can
  block one another with nothing running: `IdleProgressesExactlyWhen`, `GridlockIsReachable`.
- `schedule_service.tick` appends APPROVAL_REQUESTED with the id of a row that has not been flushed.
  The id is hashed as null and stored as the column default, so `verify_chain` fails from there on:
  `AppendVerifiesExactlyWhen`, `MissingIdChangesTheText`.
- For a network, deny rules are looked up at its two ends only: `EndsSufficeExactlyWhen`,
  `InnerDenialIsMissed`.
- The check that a domain is not an address literal has no effect, because the handler of its own
  `try` drops the error. The value of a domain deny rule (`backend/app/api/admin.py:192-200`) can be
  any IPv4 literal, and no IPv6 one: `QuadPassesExactlyWhen`, `ColonsNeverPass`, `LiteralsPassAsDomains`.
- The transcript is cut at the limit including its newlines, which the appends do not count:
  `TranscriptIsWholeExactlyWhen`, `FullTranscriptLosesItsEnd`.
- A session past its lifetime accepts input until a reconciliation, and a heartbeat renews a lease
  that has run out: `ReconcileSilencesExactly`, `HeartbeatRenewsExactly`, `LifetimeIsNotChecked`,
  `HeartbeatRevives`.
- The separator of a fingerprint can occur inside a field, and then two different findings can be
  taken for one. `ConfusableExactlyWhen` says for which reports there is such another one, and
  `FingerprintIdentifies` that there is none between reports with the separator in the key only. The
  nuclei adapter takes the rule from its output: `TemplateIdsConfuse`.

Five more promises hold for every input that the present callers produce, and fail beyond them:

- `_scrub` looks at the top level of a payload only: `ScrubCleansExactlyWhen`,
  `BuiltIsCleanExactlyWhen`, `ScrubIsShallow`. No caller of `append` in the repository passes a
  forbidden key in a nested dict.
- Without an interval the step of an INTERVAL schedule is an hour but the tolerance for a late run is
  a day: `StartsLateExactlyWhen`. The create endpoint (`backend/app/api/schedules.py:30-41`), the only
  place that creates schedules, refuses such a schedule, so no reachable run is late:
  `RunsStartWithinOneInterval`.
- A private range that cannot be read raises inside `any(...)`, so with one the order of the ranges
  matters: `OrderMattersExactlyWhen`, `OrderMattersWithUnreadableRanges`. Ranges are written by
  `backend/app/api/admin.py:142-160`, which parses them, and by `backend/app/seed.py:57-58`, a
  constant; it takes a row written around both.
- A guided action that raises anything but a timeout is not recorded and can run again:
  `ActionRunsExactly`, `RaisingRunsAgain`. The fixed implementations do not raise.
- Tool names with a colon would fuse issues: `ColonsFuse`. No tool name has one.

## Model

| member | source | states |
|---|---|---|
| LifecycleRuns.NoIllegalTransition | backend/app/services/execution_service.py:21-83 | in every state reachable by any interleaving of API calls, approvals, stops, message deliveries, persists, sweeps and ticks, no next step asks for a transition outside ALLOWED |
| LifecycleRuns.RestingStates | backend/app/worker/runner.py:93-165 | no commit leaves an execution CANCELLING or an active one DRAFT; a queue message only names an execution that was once QUEUED and is not awaiting approval; a worker at its persist step finds it RUNNING or finished |
| LifecycleRuns.HistoryIsFinal | backend/app/services/execution_service.py:72-81 | a finished execution is never written again; its audit events only grow, a cancellation is never withdrawn and an approval window never moves |
| LifecycleRuns.AtMostOnePersist | backend/app/worker/runner.py:249-313 | however many workers hold an execution, at most one set of results is committed; COMPLETED implies exactly one and no cancel request |
| LifecycleRuns.AuditTellsTheState | backend/app/services/execution_service.py:85-109 | consecutive SCAN_STATE_CHANGE events link and follow ALLOWED, the last one names the current state, and only a scheduled active execution still awaiting approval has none, despite the direct state writes |
| LifecycleRuns.ActiveStartsOnceUnderItsGrant | backend/app/api/approvals.py:94-115 | an execution enters RUNNING at most once; an active one only after its one grant and not after the window fixed at that grant, whatever pauses and restarts lie between |
| LifecycleRuns.OnlyApprovalOpensWindows | backend/app/api/approvals.py:101-115 | a step that gives an execution an approval window is an approval, of a group that awaits approval as a whole, and counts the window from that moment |
| LifecycleRuns.ApprovedAsAWhole | backend/app/api/approvals.py:97-112 | for every window in a reachable state there is the approval that opened it, and at that moment the whole group was AWAITING_APPROVAL |
| LifecycleRuns.StopBlocksStarts | backend/app/services/emergency.py:21-35 | while a stop is not cleared, no step moves an execution in its scope into RUNNING |
| LifecycleRuns.NothingStartsUnderStop | backend/app/services/emergency.py:21-35 | over any stretch of a run in which a stop stays uncleared, whatever is RUNNING in its scope at the end was RUNNING at the beginning |
| LifecycleRuns.StopsTakeEffect | backend/app/services/emergency.py:38-88 | at most one stop is active; everything RUNNING in its scope has cancel_requested; once an ALL stop is CONFIRMED nothing is RUNNING |
| LifecycleRuns.NeverOverCapacity | backend/app/services/execution_service.py:120-142 | RUNNING executions never exceed max_global_executions, nor max_per_target_executions on any target |
| LifecycleRuns.AdmittedExactlyWhen | backend/app/worker/runner.py:93-162 | a delivered QUEUED execution starts exactly when no stop or cancellation applies, fewer than the limits of other executions are QUEUED, RUNNING or CANCELLING and, if active, its window is open and the scope re-check passes |
| Executions.CapacityCountsOthers | backend/app/services/execution_service.py:120-142 | capacity_available, with its two corrections for an execution that is itself QUEUED, is a count of the others |
| Progress.GridlockIsForever | backend/app/worker/tasks.py:79-85 | once the system is idle and from the present on no execution that still waits ever has room, no sequence of deliveries, persists, sweeps and reconciliations along an advancing clock starts anything, and each QUEUED execution stays as it is, an active one until its window has elapsed |
| Progress.IdleProgressesExactlyWhen | backend/app/worker/tasks.py:79-85 | along advancing clocks, an idle system can start something on its own from the present on if and only if at some moment from then on an execution that still waits, passive or active inside its window, sees fewer than the limits of others that still wait: the expiry of active ones is what can free it |
| Progress.GridlockIsReachable | backend/app/services/execution_service.py:130-142 | with the default limits two passive scans queued on one target are already stuck, from whatever moment on |
| LifecycleRuns.SkipNeverOverlaps | backend/app/services/schedule_service.py:194-208 | with overlap policy SKIP a schedule never has two unfinished executions, even when a tick dies after its mid-loop commit |
| LifecycleRuns.StepSafe | backend/app/services/execution_service.py:65-117 | every step keeps the invariant, only lets executions evolve forwards and adds no member to an existing group |
| LifecycleRuns.ReachedInv | backend/app/services/execution_service.py:65-117 | the invariant holds in every reachable state |
| Verdicts.PersistVerdict | backend/app/worker/runner.py:249-313 | in every reachable state a persist leaves a finished execution alone; a RUNNING one ends FAILED iff its output was not parsed, else TIMED_OUT iff now > started + max_runtime, else CANCELLED iff that was asked for, else COMPLETED, with partial, persisted and the events of each case |
| Verdicts.StartVerdict | backend/app/api/scans.py:486-536 | refused iff the scan does not exist or a stop reaches an execution of it that could start; otherwise exactly the startable executions move, to QUEUED or with an elapsed window to EXPIRED, and all others stay; a conflict iff none is queued |
| Verdicts.PauseVerdict | backend/app/api/scans.py:539-572 | refused iff nothing of the scan is QUEUED; otherwise exactly that goes back to APPROVED or DRAFT and all others stay |
| Verdicts.StopVerdict | backend/app/api/scans.py:576-628 | refused iff nothing of the scan is unfinished; otherwise what runs is flagged, everything else unfinished in the scan is CANCELLED and all other rows stay |
| Verdicts.RequestStopVerdict | backend/app/services/emergency.py:38-69 | refused iff another stop is not cleared; otherwise exactly the executions of the scope are flagged or cancelled and the stop is REQUESTED |
| Verdicts.ReconcileVerdict | backend/app/services/emergency.py:72-88 | exactly the REQUESTED stops with nothing RUNNING and flagged in their scope are confirmed |
| Verdicts.ClearStopVerdict | backend/app/services/emergency.py:91-98 | refused iff there is no such stop or it is cleared; otherwise that stop is CLEARED and nothing else changes |
| Verdicts.ApproveVerdict | backend/app/api/approvals.py:89-149 | counts iff the approval is pending and its group is not empty and waits as a whole; exactly the group gets its window from now, and goes on to the queue with its messages iff the approval has an occurrence |
| Verdicts.DenyVerdict | backend/app/api/approvals.py:153-180 | counts iff the approval is pending; exactly the waiting rows of its group are DENIED, and its occurrence too |
| Verdicts.DeliverVerdict | backend/app/worker/runner.py:82-170 | what a message makes of its execution in each case: cancelled, waiting, expired, failed or started, by stop, free slot, window and scope re-check, with the stamps of a start |
| Verdicts.SweepVerdict | backend/app/worker/tasks.py:38-88 | a row expires iff it waits with an elapsed window, a RUNNING one is timed out iff started + max_runtime is before now, every other row stays; settled stops are confirmed, and exactly what is QUEUED with a free slot gets a message |
| Verdicts.LaunchVerdict | backend/app/api/scans.py:192-290 | refused iff not admitted or without targets; otherwise the new rows, field by field, their group and its pending approval |
| Verdicts.QueuePassiveVerdict | backend/app/api/targets.py:251-279 | the one new row, field by field, and its message |
| LifecycleInvariant.StartSafe | backend/app/api/scans.py:486-536 | start keeps the invariant |
| LifecycleInvariant.PauseSafe | backend/app/api/scans.py:539-572 | pause keeps the invariant, in particular the approval window |
| LifecycleInvariant.StopScanSafe | backend/app/api/scans.py:576-628 | stop and cancel keep the invariant |
| LifecycleInvariant.ApproveSafe | backend/app/api/approvals.py:89-149 | approve, with the automatic queueing of a scheduled occurrence, keeps the invariant |
| LifecycleInvariant.DenySafe | backend/app/api/approvals.py:153-180 | deny keeps the invariant |
| LifecycleInvariant.RequestStopSafe | backend/app/services/emergency.py:38-69 | requesting a stop keeps the invariant and establishes what an active stop means |
| LifecycleInvariant.ReconcileSafe | backend/app/services/emergency.py:72-88 | confirming a stop keeps the invariant: with no outstanding execution an ALL stop leaves nothing RUNNING |
| LifecycleInvariant.ClearStopSafe | backend/app/services/emergency.py:91-98 | clearing a stop keeps the invariant |
| LifecycleInvariant.DeliverSafe | backend/app/worker/runner.py:82-170 | a delivered, duplicated or stray message keeps the invariant, in particular both capacity limits |
| LifecycleInvariant.AdmissionKeepsCapacity | backend/app/services/execution_service.py:130-142 | an execution admitted by the slot test cannot bring the RUNNING count over the limit |
| LifecycleInvariant.PersistSafe | backend/app/worker/runner.py:249-313 | a persist, late or duplicated, keeps the invariant |
| LifecycleInvariant.SweepSafe | backend/app/worker/tasks.py:38-88 | the sweep keeps the invariant over its four phases, although it writes RUNNING directly |
| CreationInvariant.LaunchSafe | backend/app/api/scans.py:192-290 | creating a group keeps the invariant: active rows are never left DRAFT |
| CreationInvariant.QueuePassiveSafe | backend/app/api/targets.py:251-279 | the compatibility endpoint, which writes QUEUED directly, keeps the invariant |
| CreationInvariant.TickOneSafe | backend/app/services/schedule_service.py:85-190 | a schedule iteration, also one that dies after its commit, keeps the invariant |
| RowInvariant.StartRowKeeps | backend/app/api/scans.py:499-516 | one row of start keeps the link between state, fields and audit events |
| RowInvariant.PauseRowKeeps | backend/app/api/scans.py:549-558 | one row of pause keeps it |
| RowInvariant.CancelRowKeeps | backend/app/api/scans.py:588-597 | one row of a stop keeps it |
| RowInvariant.ApproveRowKeeps | backend/app/api/approvals.py:109-130 | one row of an approval keeps it and records the grant the window is counted from |
| RowInvariant.PreflightRowKeeps | backend/app/worker/runner.py:85-165 | one pre-flight keeps it and starts an active row only inside its window |
| RowInvariant.PersistRowKeeps | backend/app/worker/runner.py:249-313 | one persist keeps it and counts at most one committed set of results |
| RowInvariant.TimeoutRowKeeps | backend/app/worker/tasks.py:59-77 | the runtime cap keeps it, through the direct write of RUNNING |
| ScanDatabases.ScanDatabase.Transition | backend/app/services/execution_service.py:65-117 | the in-place transition: no-op, refusal, exception or the new row with its stamps and its event, as the row function says |
| ScanDatabases.ScanDatabase.Launch | backend/app/api/scans.py:192-290 | creates the rows of a group and its approval, as the transaction function says |
| ScanDatabases.ScanDatabase.QueuePassive | backend/app/api/targets.py:251-279 | inserts a QUEUED passive row and its creation event and sends its message |
| ScanDatabases.ScanDatabase.Start | backend/app/api/scans.py:486-536 | the loop of start, its early 409 under a stop (nothing committed) and its late 409 (expiries committed) |
| ScanDatabases.ScanDatabase.Pause | backend/app/api/scans.py:539-572 | the loop of pause and its two refusals |
| ScanDatabases.ScanDatabase.StopScan | backend/app/api/scans.py:576-628 | the loop of stop, and cancel as the case of one execution |
| ScanDatabases.ScanDatabase.Approve | backend/app/api/approvals.py:89-149 | the two loops of approve over the group |
| ScanDatabases.ScanDatabase.Deny | backend/app/api/approvals.py:153-180 | the loop of deny, the occurrence and the approval |
| ScanDatabases.ScanDatabase.RequestStop | backend/app/services/emergency.py:38-69 | the loop of request_stop over unfinished executions of its scope |
| ScanDatabases.ScanDatabase.Reconcile | backend/app/services/emergency.py:72-88 | every REQUESTED stop without outstanding executions becomes CONFIRMED, no other |
| ScanDatabases.ScanDatabase.ClearStop | backend/app/services/emergency.py:91-98 | the stop becomes CLEARED, nothing else changes |
| ScanDatabases.ScanDatabase.Deliver | backend/app/worker/runner.py:82-170 | the pre-flight transaction in the order of the source |
| ScanDatabases.ScanDatabase.Persist | backend/app/worker/runner.py:249-313 | the persist transaction, with its rollback to FAILED |
| ScanDatabases.ScanDatabase.Sweep | backend/app/worker/tasks.py:38-88 | expiry, reconciliation, runtime cap and re-enqueue, in this order and in one transaction |
| ScanDatabases.ScanDatabase.TickOne | backend/app/services/schedule_service.py:85-188 | one schedule of a tick, cut off after its mid-loop commit or finished |
| ScanDatabases.TwoPhases | backend/app/api/approvals.py:109-130 | granting every row and then queueing every row is the same as doing both row by row |
| ScanGroups.FinishedExactlyWhenAllAre | backend/app/services/scan_groups.py:29-54 | the derived state is terminal exactly when every execution is; otherwise it is the state of some execution |
| ScanGroups.UniformVerdicts | backend/app/services/scan_groups.py:34-43 | COMPLETED, CANCELLED, DENIED and EXPIRED mean that all executions are |
| ScanGroups.MostUrgentDecides | backend/app/services/scan_groups.py:51-54 | an unfinished scan has the most urgent state there is |
| ScanGroups.MixedVerdicts | backend/app/services/scan_groups.py:44-50 | a finished scan with different ends is PARTIAL, TIMED_OUT or FAILED under exactly these conditions |
| ScanGroups.OrderDoesNotMatter | backend/app/services/scan_groups.py:29-54 | only the set of states matters |
| ScanGroups.PermutationsAgree | backend/app/services/scan_groups.py:29-54 | the order of the executions does not matter |
| ScanGroups.FinishedGroupIsStable | backend/app/services/scan_groups.py:29-54 | once the derived state of a scan is terminal, no later step changes it |
| Scheduling.NextOnGrid | backend/app/services/schedule_service.py:57-65 | the result is later than the given moment and on the grid |
| Scheduling.NextOnGridIsLeast | backend/app/services/schedule_service.py:57-65 | it is base + k * step with k >= 1, and every earlier such point is not later than the given moment |
| Scheduling.NextRunAfter | backend/app/services/schedule_service.py:57-65 | the loop terminates with that point |
| ScheduleGuarantees.RunsAreFresh | backend/app/services/schedule_service.py:92-93 | whenever an iteration adds an execution, its schedule was due and now is at most the tolerance after the grid point |
| ScheduleRuns.RunsStartWithinOneInterval | backend/app/services/schedule_service.py:92-93 | in every reachable state a tick adds an execution for an INTERVAL schedule only when 0 <= now - due <= its interval, and for a DAILY one without interval within a day |
| ScheduleRuns.PointsAreHandledOnce | backend/app/services/schedule_service.py:95-103 | in every reachable state a schedule has at most one occurrence for a grid point, whatever died in between |
| ScheduleGuarantees.StartsLateExactlyWhen | backend/app/services/schedule_service.py:58-92 | an INTERVAL schedule can start a run more than one step after its grid point if and only if its interval is missing or 0 |
| ScheduleGuarantees.TickMovesOn | backend/app/services/schedule_service.py:187-188 | a finished iteration has recorded its grid point and moved the schedule to the first point of the grid after now |
| ScheduleGuarantees.TickKeepsOncePerPoint | backend/app/services/schedule_service.py:95-103 | one occurrence per schedule and grid point |
| ScheduleGuarantees.DeadTickIsNotRepeated | backend/app/services/schedule_service.py:95-138 | after a tick that died mid-loop the next one adds no execution and no occurrence for the point |
| ScheduleRuns.OpenMeansBusy | backend/app/services/schedule_service.py:194-208 | in every reachable state the overlap test holds iff the schedule has an unfinished execution |
| ScheduleRuns.TickVerdict | backend/app/services/schedule_service.py:85-190 | a finished tick on a due schedule adds nothing for a point that was handled; otherwise its occurrence is EXPIRED iff too late, else SKIPPED iff the policy is SKIP and the schedule has an unfinished execution, else RUNNING with a QUEUED execution iff passive, else AWAITING with an approval iff attested, else DENIED; the execution has the target, class and number of the schedule |
| ScheduleRuns.CutTickVerdict | backend/app/services/schedule_service.py:85-190 | a schedule that is not due is left alone; a tick that dies commits exactly a passive run, as the finished tick would, without moving the schedule |
| ScheduleRuns.EnableVerdict | backend/app/api/schedules.py:126-143 | only enabled changes; an INTERVAL schedule without a next run gets the first point after now on its own grid |
| ScheduleRuns.AddScheduleVerdict | backend/app/api/schedules.py:26-41 | a schedule is taken iff its interval is between 15 minutes and a week, and there is one for INTERVAL |
| CanonicalJsonFacts.EncodingIsCanonical | backend/app/services/audit_service.py:36-56 | two payload values have the same encoding if and only if they are equal, for nested dicts and arbitrary strings |
| CanonicalJsonFacts.KeyOrderIsIrrelevant | backend/app/services/audit_service.py:56 | the order in which a dict was filled does not show in its encoding |
| CanonicalJsonFacts.PrintSplit | backend/app/services/audit_service.py:56 | a printed value determines itself and where it ends, whatever follows |
| CanonicalJsonFacts.EscapeSplit | backend/app/services/audit_service.py:56 | an escaped string ends at its first bare quote and can be read back (section 7 of RFC 8259) |
| CanonicalJsonFacts.NormalMeansTheSame | backend/app/services/audit_service.py:56 | sorting the keys at every level keeps the value |
| CanonicalJsonFacts.NormalIsUnique | backend/app/services/audit_service.py:56 | equal values with sorted keys are the same term |
| Decimal.ValueOfDigits | backend/app/services/audit_service.py:56 | decimal notation can be read back |
| AuditChain.SplitIsUnique | backend/app/services/audit_service.py:59-60 | prev_hash followed by the canonical event can be split in one way only |
| AuditChain.SameInputSameContent | backend/app/services/audit_service.py:36-60 | one hash input means one event content |
| AuditChain.TamperEvidence | backend/app/services/audit_service.py:114-155 | two logs that verify and end in the same hash have equal length and are equal event by event, or two of their hash inputs collide |
| AuditChain.HeadsAgree | backend/app/services/audit_service.py:114-155 | equal hash inputs at the heads force equal lengths and equal predecessors |
| AuditChain.PrefixVerifies | backend/app/services/audit_service.py:114-155 | every prefix of a verifying log verifies: a truncated suffix cannot be seen |
| AuditChain.AppendVerifiesExactlyWhen | backend/app/services/audit_service.py:77-111 | an append keeps the chain verifiable exactly when the caller names its object (or a collision hides that it did not) |
| AuditChain.MissingIdChangesTheText | backend/app/services/schedule_service.py:173-177 | an event appended without an object id is hashed over another text than the one that is stored |
| AuditChain.BuiltVerifiesExactlyWhen | backend/app/services/audit_service.py:77-155 | a log written by append alone verifies exactly when every entry named its object |
| AuditChain.Scrub | backend/app/services/audit_service.py:63-70 | exactly the members with a forbidden key are dropped |
| AuditChain.ScrubCleansExactlyWhen | backend/app/services/audit_service.py:63-70 | what is kept holds no forbidden key at any depth if and only if every member whose own key is allowed holds none |
| AuditChain.BuiltIsCleanExactlyWhen | backend/app/services/audit_service.py:63-111 | a log written by append holds no forbidden key at any depth in any event if and only if no caller passed one below the top level of a kept member |
| AuditChain.ScrubIsShallow | backend/app/services/audit_service.py:63-70 | the smallest case of the other half: a forbidden key inside a nested dict is kept |
| AuditChain.AuditTrail.Append | backend/app/services/audit_service.py:77-111 | the new row, field by field from the entry and the last row, and the extended log |
| AuditContents.BuiltHolds | backend/app/services/audit_service.py:77-111 | event k of an appended log has number k+1, the time, actor, action and object type of entry k, its object id or the empty one, its kept members in order, and the digest of event k-1 |
| AuditContents.ScrubKeepsOrder | backend/app/services/audit_service.py:63-70 | what is kept are exactly the members whose key is none of the six words, in their order |
| AuditContents.DigestTellsTheEntry | backend/app/services/audit_service.py:36-111 | whoever reads a dict out of the hashed text of event k finds its eight fields: number, entry as passed, kept payload and the digest before |
| AuditChain.AuditTrail.VerifyChain | backend/app/services/audit_service.py:114-155 | ok exactly when every event checks; otherwise checked is the longest verifying prefix, and each of the three reasons is given exactly when it is the first that applies |
| Sanitizer.SanitizedIsClean | backend/app/services/stream.py:36-42 | no stripped control, no raw angle bracket or quote, within the bound, for every input and every cut |
| Sanitizer.EscapeIsOneSubstitution | backend/app/services/stream.py:41 | the five replacements in sequence are one substitution per character |
| Sanitizer.EscapeIsInvertible | backend/app/services/stream.py:41 | before it is cut, the escaped text can be read back |
| Sanitizer.SequencesVanish | backend/app/services/stream.py:32-39 | a complete escape sequence is removed, whatever follows |
| Sanitizer.PlainTextStays | backend/app/services/stream.py:32-39 | text without an escape character passes the first step unchanged |
| Sanitizer.OrdinaryTextSurvives | backend/app/services/stream.py:36-42 | text without controls is only escaped and cut |
| Streams.AppendHealthy | backend/app/services/stream.py:49-92 | whatever is appended to whichever attempt, every log stays numbered 1, 2, 3, ..., its OUTPUT text within the limit and its untrusted text clean, and other attempts see nothing |
| Streams.AppendedEvent | backend/app/services/stream.py:64-92 | the one event an append adds: next number, kind, cleaned and cut text, and the notice for an output past the limit |
| Streams.OutputFitsExactlyWhen | backend/app/services/stream.py:81-88 | an output is stored exactly when it still fits, and shows up as a GAP otherwise; a later shorter one may fit again |
| Streams.ReplayIsTheRest | backend/app/services/stream.py:95-115 | on a numbered log a cursor replays exactly the events after it |
| Streams.EventsAfter | backend/app/services/stream.py:95-115 | the loop returns the replay; with it the GAP in front for a cursor older than the first kept event |
| Streams.NothingLostOrRepeated | backend/app/services/stream.py:95-115 | however polls and appends interleave, what a client has received is the log up to its cursor |
| Streams.ReconnectsReceiveEverything | backend/app/services/stream.py:95-115 | after one more poll it has received the whole log, each event once and in order |
| Streams.TranscriptIsWholeExactlyWhen | backend/app/services/stream.py:118-124 | the transcript loses its end exactly when the newlines between outputs push it over the limit that the appends respect without them |
| Streams.FullTranscriptLosesItsEnd | backend/app/services/stream.py:64-124 | 128 appended outputs of the largest size are all kept, fill the limit exactly, and the transcript loses its end |
| WorkspaceRuns.OneWriter | backend/app/services/session_broker.py:97-142 | at most one lease per session is active, and a token is accepted for one session only |
| WorkspaceRuns.RevokedForever | backend/app/services/session_broker.py:112-170 | a token revoked by takeover, release, expiry replacement or the end of its session is never accepted again, for any session and at any later time |
| WorkspaceRuns.AcquireExactly | backend/app/services/session_broker.py:119-142 | a lease is refused exactly when another holder has an unexpired one and there is no takeover; otherwise its token is the only active one of the session |
| WorkspaceRuns.ReleaseSilences | backend/app/services/session_broker.py:152-170 | after release, disconnect, quarantine or termination no token is accepted |
| WorkspaceRuns.ReconcileSilencesExactly | backend/app/services/session_broker.py:186-208 | a reconciliation silences exactly the sessions past their lifetime or of a finished attempt |
| WorkspaceRuns.LifetimeIsNotChecked | backend/app/services/session_broker.py:97-109 | for every moment after the lifetime there is a run in which a lease is taken and input accepted at that moment |
| WorkspaceRuns.HeartbeatRenewsExactly | backend/app/services/session_broker.py:145-149 | after a heartbeat in any reachable state its token is accepted if and only if its lease is still the active one and the session is READY or CONTROLLED, whatever the old expiry |
| WorkspaceRuns.HeartbeatRevives | backend/app/services/session_broker.py:145-149 | a run in which a token is refused because its lease ran out, and accepted after its heartbeat |
| WorkspaceRuns.OneLiveSession | backend/app/services/session_broker.py:58-80 | two live sessions never belong to the same attempt |
| WorkspaceRuns.InputMeansVerified | backend/app/services/session_broker.py:83-109 | input is accepted only in a session that passed verify with fixture association and has been READY or CONTROLLED ever since |
| WorkspaceRuns.DeadSessionsAreSilent | backend/app/services/session_broker.py:97-109 | once closed, lost or quarantined a session stays so and nothing more is dispatched or echoed in it |
| WorkspaceRuns.NothingAfterTerminate | backend/app/services/guided.py:154-156 | nothing is dispatched after a completed terminate action |
| WorkspaceRuns.RecordsAreFinal | backend/app/services/guided.py:112-118 | the first answer to a request is its last: an unknown outcome is never sent again |
| WorkspaceRuns.ActionRunsExactly | backend/app/services/guided.py:105-165 | along every run a request runs its action once for every time the implementation raised, and once more exactly when its record is COMPLETED or OUTCOME_UNKNOWN |
| WorkspaceRuns.ActionRunsAtMostOnce | backend/app/services/guided.py:105-165 | so, as long as no implementation raises, it runs at most once, and once exactly when its record is COMPLETED or OUTCOME_UNKNOWN |
| WorkspaceRuns.RaisingRunsAgain | backend/app/services/guided.py:145-151 | if an implementation raises, its record is rolled back and every resend runs the action again |
| WorkspaceRuns.BudgetHolds | backend/app/services/guided.py:131-136 | counted invocations are the actions that ran, never more than 20 per session |
| WorkspaceRuns.FramesAreNumberedAndEchoedOnce | backend/app/services/terminal.py:77-122 | receipts of a session are numbered 1, 2, 3, ... and a request is echoed at most once, exactly when its receipt is accepted |
| WorkspaceRuns.EffectsAreFenced | backend/app/services/guided.py:125-127 | an action runs or a frame is echoed only for a token that is accepted at that moment |
| WorkspaceRuns.LogsStayHealthy | backend/app/services/stream.py:49-92 | in every reachable workspace every log is numbered, bounded and clean |
| WorkspaceVerdicts.AcceptedExactlyWhen | backend/app/services/session_broker.py:97-109 | in every reachable state a token is accepted iff the session is READY or CONTROLLED and the lease of that token is of the session, active and not run out |
| WorkspaceVerdicts.DispatchRunsExactlyWhen | backend/app/services/guided.py:105-136 | a request runs its action iff its session exists, it has no record, the action is one of the five and in the grant, the token is accepted, the parameters fit and fewer than 20 actions have run |
| WorkspaceVerdicts.DispatchVerdict | backend/app/services/guided.py:105-165 | everything else a request does: the stored record for a known one, the recorded reason in each refused case and nothing more, and after a run the record, the stream event and, for terminate, the closed session |
| WorkspaceVerdicts.SubmitFrameVerdict | backend/app/services/terminal.py:84-122 | the stored receipt for a known frame; otherwise the next number, the first of the four refusals that applies, and the echo iff none does |
| WorkspaceVerdicts.GrantVerdict | backend/app/services/terminal.py:57-74 | refused iff not attested or the session takes no input; otherwise the earlier grants of the session end and the new one has the given time |
| WorkspaceVerdicts.AcquireVerdict | backend/app/services/session_broker.py:119-142 | who keeps its token for another 15 seconds, who is refused and who gets a fresh token, and what becomes of the old lease and the session |
| WorkspaceVerdicts.HeartbeatVerdict | backend/app/services/session_broker.py:145-149 | counts iff the token is that of the active lease, and moves its expiry only |
| WorkspaceVerdicts.ListenVerdict | backend/app/services/listener.py:79-111 | the one new session: QUARANTINED iff the attempt has one that has not ended or the callback is not from its fixture, READY otherwise |
| WorkspaceVerdicts.EstablishVerdict | backend/app/services/session_broker.py:58-80 | the one new session: QUARANTINED iff the attempt has one that has not ended |
| WorkspaceVerdicts.VerifyVerdict | backend/app/services/session_broker.py:83-94 | only a session that waits for its verification moves: to READY iff associated, to QUARANTINED otherwise |
| WorkspaceVerdicts.EndVerdict | backend/app/services/session_broker.py:152-170 | release, quarantine and termination end exactly the leases of their session and set its state |
| WorkspaceInvariant.ReleaseExactly | backend/app/services/session_broker.py:152-157 | releasing deactivates the leases of exactly that session and turns CONTROLLED into READY |
| WorkspaceInvariant.ReconcileExactly | backend/app/services/session_broker.py:186-208 | exactly the lingering sessions become LOST and exactly their leases are released |
| WorkspaceInvariant.AcquireSafe | backend/app/services/session_broker.py:119-142 | acquiring keeps tokens unique and at most one lease per session active |
| WorkspaceInvariant.EstablishSafe | backend/app/services/session_broker.py:58-80 | an unexpected second session never becomes live |
| WorkspaceInvariant.ListenSafe | backend/app/services/listener.py:79-111 | a callback establishes and verifies without breaking the invariant |
| WorkspaceInvariant.TerminateSafe | backend/app/services/listener.py:114-120 | termination keeps the invariant |
| WorkspaceInvariant.DispatchSafe | backend/app/services/guided.py:105-165 | a guided action keeps the invariant: records and effects match, the budget holds |
| WorkspaceInvariant.GrantSafe | backend/app/services/terminal.py:57-74 | at most one terminal grant per session is active |
| WorkspaceInvariant.FrameSafe | backend/app/services/terminal.py:84-122 | a frame keeps the invariant: receipts and effects match, numbers have no gap |
| LabServices.LabService.Establish | backend/app/services/session_broker.py:58-80 | the new session, QUARANTINED exactly when the attempt has a live one |
| LabServices.LabService.Verify | backend/app/services/session_broker.py:83-94 | only ESTABLISHED_UNVERIFIED moves, to READY or QUARANTINED |
| LabServices.LabService.Listen | backend/app/services/listener.py:79-111 | boundary check, establishment and verification by callback source |
| LabServices.LabService.AcquireLease | backend/app/services/session_broker.py:119-142 | renewal, refusal, takeover and expiry replacement in place |
| LabServices.LabService.Heartbeat | backend/app/services/session_broker.py:145-149 | renews the active lease for its token, even after it ran out |
| LabServices.LabService.Release | backend/app/services/session_broker.py:152-157 | deactivates the active lease and leaves CONTROLLED |
| LabServices.LabService.Quarantine | backend/app/services/session_broker.py:167-170 | the session is quarantined and its lease released |
| LabServices.LabService.Terminate | backend/app/services/listener.py:114-120 | STOPPING, release, CLOSED |
| LabServices.LabService.ReconcileSessions | backend/app/services/session_broker.py:186-208 | the loop over lingering sessions, and the number it gave up |
| LabServices.LabService.Dispatch | backend/app/services/guided.py:105-136 | the checks in the order of the source; a known request only returns its record |
| LabServices.LabService.Perform | backend/app/services/guided.py:138-165 | the record is written before the action runs and settled after |
| LabServices.LabService.GrantTerminal | backend/app/services/terminal.py:57-74 | old grants of the session end, a new one is added |
| LabServices.LabService.SubmitFrame | backend/app/services/terminal.py:84-122 | deduplication, the four refusals in order, the numbered receipt and the echo |
| LabServices.LabService.AppendEvent | backend/app/services/stream.py:64-92 | one event is appended with the next number of its attempt |
| Cidr.NestedOrDisjoint | backend/app/services/scope_service.py:230-236 | two blocks are nested or disjoint |
| Cidr.ContainsIsInterval | backend/app/services/scope_service.py:139-146 | membership by masked address is membership in an interval |
| Cidr.SubnetMeansInclusion | backend/app/services/scope_service.py:233 | a subnet test on the two ends is inclusion of all addresses |
| Scope.EvaluateActiveScope | backend/app/services/scope_service.py:179-256 | allowed exactly when nothing is denied, a domain resolved, a network is covered by a range before any unreadable one, and every address to check is cleared; refusals by a deny rule come first |
| ScopeFacts.AllowedExactlyWhen | backend/app/services/scope_service.py:179-256 | the decision for each kind of target in terms of labels and of first and last addresses: allowed iff no address is denied, each is in a private range or under a boundary, a name is not denied and resolves, and a network is held by a range before any unreadable one |
| ScopeFacts.BoundaryClearsExactlyWhen | backend/app/services/scope_service.py:163-176 | a domain boundary clears a name iff its labels are the last labels of the name; an address boundary clears what lies between its ends |
| ScopeFacts.OtherNamesStayOut | backend/app/services/scope_service.py:163-176 | a name under no boundary is never allowed with an address in no range and no public block |
| ScopeFacts.SuffixRuleHitsExactlyWhen | backend/app/services/scope_service.py:128-136 | a suffix rule hits a name iff its labels, without leading dots and in lower case, are the last labels of the name |
| ScopeFacts.ExactRuleHitsExactlyWhen | backend/app/services/scope_service.py:128-136 | an exact rule hits the one name it says, up to case and dots around it |
| ScopeFacts.FirstHostsAre | backend/app/worker/runner.py:131-133 | the hosts that are handed over are exactly those after the network address and before the broadcast address, the first 1024 of them |
| Scope.FindDomainRule | backend/app/services/scope_service.py:128-136 | a hit exactly when some rule matches the domain |
| Scope.FindAddressRule | backend/app/services/scope_service.py:139-149 | a hit exactly when some readable rule matches the address |
| Scope.WithinAnyCidr | backend/app/services/scope_service.py:152-160 | true exactly when some readable range holds the address |
| Scope.WithinPublicBoundary | backend/app/services/scope_service.py:163-176 | true exactly when some boundary clears the target or the address |
| Scope.ContainedInAny | backend/app/services/scope_service.py:230-236 | covered, not covered, or an exception when an unreadable range comes before the first cover |
| Scope.HandedAddressesAreInScope | backend/app/worker/runner.py:126-138 | every address an allowed target hands to the active stages is in an approved private range or cleared by a boundary; those of a network are all private |
| Scope.HandedAddressesAreNotDenied | backend/app/worker/runner.py:126-138 | for an address or a domain none of them is denied |
| Scope.HostsInside | backend/app/worker/runner.py:131-133 | the first 1024 hosts of a network are in it, and there is at least one |
| Scope.AllowedNetworkIsInNoDeniedBlock | backend/app/services/scope_service.py:213-222 | an allowed network is contained in no denied block; a denied block touches it only strictly between its ends |
| Scope.EndsSufficeExactlyWhen | backend/app/services/scope_service.py:213-222 | checking the network and the broadcast address is as good as checking every address if and only if the denied block is not strictly between them |
| Scope.InnerDenialIsMissed | backend/app/services/scope_service.py:213-222 | a network is allowed although a host strictly between its ends is denied and handed over |
| Scope.FewerRulesAllowExactlyWhen | backend/app/services/scope_service.py:179-256 | what is allowed stays allowed with fewer deny rules and any list reordered or repeated if and only if, for a network, a covering range still comes before every unreadable one |
| Scope.MoreRulesNeverAllowMore | backend/app/services/scope_service.py:179-256 | adding deny rules and reordering or repeating any list never turns a refusal into an allowance, except for a network when a range cannot be read |
| Scope.OrderMattersExactlyWhen | backend/app/services/scope_service.py:230-236 | two orders of the ranges answer differently if and only if one range cannot be read and the target is a network that nothing else refuses; in particular some range covers it |
| Scope.SomeOrderRefusesExactlyWhen | backend/app/services/scope_service.py:230-236 | an allowed network is not allowed in some other order of the ranges if and only if one of them cannot be read |
| Scope.OrderMattersWithUnreadableRanges | backend/app/services/scope_service.py:232-236 | the smallest case: one covering and one unreadable range |
| Targets.CanonicalizeDomain | backend/app/services/scope_service.py:36-58 | the loop computes the canonical name, which the labels alone decide: the address-literal test before them has no effect, because the error it raises is dropped by its own handler |
| Targets.CanonicalizeTarget | backend/app/services/scope_service.py:61-89 | an IPv4 literal, a network with its host bits cleared, or the canonical domain name; IPv6 ends in the domain checks |
| Targets.DomainOfExactlyWhen | backend/app/services/scope_service.py:36-58 | a text with blanks and dots around it is accepted iff it has no blank, slash or at sign, the encoder makes a good label of each lower-case label, and there are enough of them; the name is the encoded labels joined |
| Targets.CanonicalNameIsFixed | backend/app/services/scope_service.py:36-58 | a canonical name is its own canonical name |
| Targets.ValidNamesAreFixed | backend/app/services/scope_service.py:36-58 | a name of valid labels is its own canonical name |
| Targets.QuadPassesExactlyWhen | backend/app/services/scope_service.py:36-58 | every IPv4 literal is accepted as a domain if and only if the encoder turns each of its four labels into a valid one |
| Targets.LiteralsPassAsDomains | backend/app/services/scope_service.py:40-45 | with an encoder that leaves digits alone every IPv4 literal is accepted and is its own canonical domain |
| Targets.ColonsNeverPass | backend/app/services/scope_service.py:36-58 | no text with a colon, such as an IPv6 literal, is accepted by an encoder that does not remove colons |
| Targets.CanonicalRangeIsFixed | backend/app/services/scope_service.py:72-79 | clearing host bits twice is clearing them once |
| Ports.ParsePortSpec | backend/app/scan_profiles.py:107-147 | the loop with its running total computes what the specification means |
| Ports.ParseIsIdempotent | backend/app/scan_profiles.py:107-147 | canonical text is accepted, is its own canonical text and denotes the same multiset of ports |
| Ports.AcceptedPortsAreBounded | backend/app/scan_profiles.py:100-147 | an accepted specification denotes between 1 and 6000 ports, repetitions counted, all in 1..65535 |
| Ports.ParseTokenOfShow | backend/app/scan_profiles.py:124-142 | a shown item is read back |
| Ports.ShownListExactlyWhen | backend/app/scan_profiles.py:107-147 | a list of ports and ranges with any blanks in it and commas around it parses to itself without them, iff it denotes at most 6000 ports |
| Ports.PortNumbersExactlyWhen | backend/app/scan_profiles.py:124-142 | a number is a port iff it is in 1..65535, and two are a range iff they are in order |
| Ports.ParseIntExactlyWhen | backend/app/scan_profiles.py:100-142 | int() reads exactly the numerals with a sign and blanks around them |
| Ports.TokensSay | backend/app/scan_profiles.py:121-142 | an empty token is skipped, a malformed one spoils the specification |
| Ports.MorePortsFurtherOn | backend/app/scan_profiles.py:143-144 | the running total only grows, so stopping early is right |
| Text.SplitOfJoin | backend/app/scan_profiles.py:121-147 | joining and splitting at a separator that no part holds is the identity |
| Text.EndsInPartsExactlyWhen | backend/app/services/scope_service.py:128-169 | a name is another or ends in it after a dot iff its last labels are those of the other |
| Text.DropKeepsTheRest | backend/app/scan_profiles.py:113-121 | what is left after a character is dropped are exactly the others, in order |
| Findings.FingerprintIdentifies | backend/app/services/findings.py:21-32 | without the separator in the first six fields two reports share a fingerprint if and only if their seven fields agree, or the hash collides |
| Findings.PortTextIdentifies | backend/app/services/findings.py:29 | the port field tells ports apart, except a missing port from port 0 |
| FingerprintFacts.ConfusableExactlyWhen | backend/app/services/findings.py:21-32 | for every report of a separator-free target: another report, of other fields, has the same fingerprint text if and only if the tool or rule holds the separator, the asset holds one after a character that is not blank, the protocol holds one before anything or ends in one in front of a port and a key, or a token of the key reads as a port |
| FingerprintFacts.NoSeparatorNoTwin | backend/app/services/findings.py:21-32 | a report without the separator in any field shares its text with no other fields, whatever separators the other report holds |
| FingerprintFacts.TemplateIdsConfuse | backend/app/adapters/nuclei.py:147-191 | for all template ids, ports and matchers within the bound of the key: two lines of nuclei output with different template ids and one fingerprint |
| Findings.RecordingAchieves | backend/app/services/findings.py:39-99 | each reported finding is sighted exactly once in the run and no other is; findings keep their identity, earlier sightings stay, the tally adds up |
| Findings.RecordOneShows | backend/app/services/findings.py:55-97 | one report: what the finding it concerns becomes, field by field, that all others stay, which counter moves and the sighting |
| Findings.ShowsItsLastReport | backend/app/services/findings.py:39-99 | after a run a finding shows the last report about it |
| Findings.OnlyBlanksDiffer | backend/app/services/findings.py:21-32 | two sightings of one finding agree on the key up to surrounding blanks |
| Findings.FindingStore.RecordFindings | backend/app/services/findings.py:39-99 | the nested loops are the fold over all reports |
| Findings.FindingStore.Record | backend/app/services/findings.py:55-97 | create or refresh, then sight once |
| Comparison.StageOk | backend/app/services/comparison.py:48-58 | the first entry of the stage decides, by coverage or by the old flags |
| Comparison.ClearsExactlyWhen | backend/app/services/coverage.py:31-54 | a stage clears its findings exactly when its first result ran to the end, succeeded, had its tool and had something in scope |
| Comparison.Compare | backend/app/services/comparison.py:70-148 | every classified finding once, counts that sum to the details, most severe first |
| Comparison.CountsMean | backend/app/services/comparison.py:111-138 | each counter is the number of findings with its verdict |
| Comparison.SeverityOrder | backend/app/services/findings.py:16-36 | INFO < LOW < MEDIUM < HIGH < CRITICAL, whatever the case; anything else counts as INFO |
| Comparison.CoverageVerdict | backend/app/services/coverage.py:31-54 | the outcome of a stage from its text, its flags and its note |
| Comparison.VerdictOfBoth | backend/app/services/comparison.py:118-121 | a finding both runs sighted is CHANGED iff severity or key differ |
| Comparison.VerdictsPartition | backend/app/services/comparison.py:111-125 | a currently sighted finding gets exactly one of NEW, STILL_OBSERVED, CHANGED; a baseline-only one is NOT_OBSERVED exactly when its stage was assessed and is left out otherwise |
| Comparison.ChangedMeans | backend/app/services/comparison.py:118-121 | CHANGED comes only from the severity or from blanks around the key |
| Comparison.OrderDoesNotMatter | backend/app/services/comparison.py:111-138 | the iteration order of the set changes neither the counts nor the details |
| Comparison.SortedInOrder | backend/app/services/comparison.py:140 | details are sorted by severity, then by verdict name |
| Comparison.ReflectAbsence | backend/app/services/comparison.py:167-172 | exactly the findings reported absent become NOT_OBSERVED |
| Comparison.FindBaseline | backend/app/services/comparison.py:32-45 | an eligible earlier run that finished last, and none exactly when there is none |
| Comparison.BaselineMeans | backend/app/services/comparison.py:32-45 | the baseline is another COMPLETED run of the same target and class, created before, that finished last, and there is one iff there is such a run |
| Issues.SameIssueExactlyWhenEquivalent | backend/app/services/issues.py:35-41 | two detectors share an issue if and only if they are declared equivalent, when no tool name has a colon |
| Issues.ColonsFuse | backend/app/services/issues.py:35-41 | every tool name with a colon is fused with a tool that is not equivalent |
| Issues.IssueBoard.DeriveIssues | backend/app/services/issues.py:52-126 | the loop is the projection of the sightings of the run; it returns the numbers of new rows |
| Issues.IssueBoard.BackfillAll | backend/app/services/issues.py:129-142 | the loop over the runs, and its totals |
| Issues.IssueBoard.UpsertIssue | backend/app/services/issues.py:79-101 | create, or merge severity, time span, title and status |
| Issues.IssueBoard.MaybeReopen | backend/app/services/review.py:120-137 | reopens exactly a RESOLVED_VERIFIED issue |
| IssueFacts.BackfillIsLossless | backend/app/services/issues.py:129-142 | occurrences correspond one to one with the sightings of existing findings, under the issue of the finding and with the sighted severity |
| IssueFacts.IssuesSumUp | backend/app/services/issues.py:44-142 | after a backfill of an empty board each issue has the highest severity, the first and last time and a title of the sighted findings of its kind, and each of those has its issue |
| IssueFacts.BackfillIsIdempotent | backend/app/services/issues.py:129-142 | a second backfill changes nothing and reopens nothing |
| IssueFacts.DeriveIsIdempotent | backend/app/services/issues.py:52-57 | deriving a run again changes nothing |
| IssueFacts.SettledIsFixed | backend/app/services/issues.py:74-124 | projecting a sighting that has its occurrence changes nothing |
| IssueFacts.SeverityNeverDrops | backend/app/services/issues.py:48-49 | no backfill lowers the severity of an issue |
| IssueFacts.ReopenedExactlyWhen | backend/app/services/issues.py:117-122 | a closed issue is reopened exactly by a sighting without an occurrence of a finding that is still observed |
| IssueFacts.BoardSurvivesRecording | backend/app/services/issues.py:10-12 | recording later runs does not invalidate the projection |

## Left out

- Subprocesses, tool adapters and their parsers: a stage's output is arbitrary. Of one adapter the fields of a finding without extracted results are modelled.
- The guard polled while stages run: it only shortens what they produce.
- The proof, lab and exploitation gates; the state of a proof attempt enters as a set of finished attempts.
- Listener boundary validation is an input; interface and address classes are not part of this model.
- Session evidence, notifications, operational logs, reports and response bodies.
- Schedule deletion, and DAILY schedules with their time zones: their next run is an arbitrary input; of the create endpoint only its guard on intervals.
- The reason texts of transitions and refusals, except where they are a verdict of their own.
- Aliasing between row objects of one transaction: rows are values in a table.
- Serialisation itself: database isolation and the advisory lock of the audit log are assumed.
- Floating-point numbers in JSON payloads, lone surrogates, and the text forms of IPv4 addresses, which a library reads.
- Case folding, white space and digits outside ASCII, and numerals longer than Python's limit for int().
- DNS and IDNA: resolved addresses are inputs and the label encoder is an unknown function.
- resolve_ports and the rate and profile tables, which would add easy members.
- Remediation steps other than the reopening, and the category of an issue, which is the prefix of its kind.
- Assets, candidates, exploitability scores and the derived severity histogram of a comparison.
- The limitations and summary texts of a comparison.
