/** What every committed execution row satisfies, and how one transaction may change it. */
module RowInvariant {
  import opened Base
  import opened Executions
  import opened Lifecycle

  /** The states a row can be committed in. ACTIVE never rests in DRAFT and nothing rests in
      CANCELLING; a passive row never meets the approval queue. */
  predicate FieldsOk(cfg: Settings, r: Execution) {
    && !r.state.Cancelling?
    && (r.cls.Active? ==> !r.state.Draft?)
    && (r.cls.Passive? ==>
          !r.state.AwaitingApproval? && !r.state.Approved? && r.approvalExpiresAt.None?)
    && (r.cls.Active? && r.state.AwaitingApproval? ==> r.approvalExpiresAt.None?)
    && (r.cls.Active? && (r.state.Approved? || r.state.Queued? || r.state.Running?) ==>
          r.approvalExpiresAt.Some?)
    && (r.state.Completed? ==> !r.cancelRequested && r.persisted == 1)
    && r.persisted <= 1
    && (r.persisted == 1 ==> r.state.Completed? || r.state.TimedOut? || r.state.Cancelled?)
    && (r.state.Running? ==>
          && r.startedAt.Some? && r.runtimeDeadlineAt == Some(r.startedAt.value + cfg.maxRuntime))
    && (r.finishedAt.Some? <==> Terminal(r.state))
    && (r.cancelRequested ==> r.state.Running? || Terminal(r.state))
  }

  /** Consecutive events link and follow ALLOWED. */
  predicate Linked(trail: seq<Change>) {
    forall k :: 0 < k < |trail| ==>
                  && trail[k].from == Some(trail[k - 1].to)
                  && CanTransition(trail[k - 1].to, trail[k].to)
  }

  predicate OriginOk(r: Execution, c: Change) {
    if r.cls.Passive? then
      (c.from.None? && c.to.Draft?) || (c.from == Some(Draft) && c.to.Queued?)
    else if r.schedule.None? then
      c.from == Some(Draft) && c.to.AwaitingApproval?
    else
      c.from == Some(AwaitingApproval) && CanTransition(AwaitingApproval, c.to)
  }

  /** The audit events of a row tell its whole story: they start at its creation, link, and
      end in its state. Only a scheduled active row still awaiting approval has none. */
  predicate TrailOk(r: Execution) {
    && Linked(r.trail)
    && (forall k :: 0 <= k < |r.trail| && r.cls.Active? ==> !r.trail[k].to.Draft?)
    && (if r.trail == [] then r.cls.Active? && r.schedule.Some? && r.state.AwaitingApproval?
        else OriginOk(r, r.trail[0]) && r.trail[|r.trail| - 1].to == r.state)
  }

  predicate IsGrant(c: Change) {
    c.from == Some(AwaitingApproval) && c.to.Approved?
  }

  /** The approval window was fixed by a grant, and no start of an active row is later. */
  predicate GrantOk(cfg: Settings, r: Execution) {
    && (r.approvalExpiresAt.Some? ==>
          exists g :: 0 <= g < |r.trail| && IsGrant(r.trail[g])
                      && r.approvalExpiresAt.value == r.trail[g].at + cfg.approvalWindow)
    && (forall k :: 0 <= k < |r.trail| && r.trail[k].to.Running? && r.cls.Active? ==>
                      r.approvalExpiresAt.Some? && r.trail[k].at <= r.approvalExpiresAt.value)
  }

  predicate RowInv(cfg: Settings, r: Execution) {
    FieldsOk(cfg, r) && TrailOk(r) && GrantOk(cfg, r)
  }

  predicate EverQueued(r: Execution) {
    exists k :: 0 <= k < |r.trail| && r.trail[k].to.Queued?
  }

  /** How any transaction may change a row. */
  predicate Evolves(r: Execution, r': Execution) {
    && r'.target == r.target && r'.group == r.group
    && r'.cls == r.cls && r'.schedule == r.schedule
    && (r.approvalExpiresAt.Some? ==> r'.approvalExpiresAt == r.approvalExpiresAt)
    && (Terminal(r.state) ==> r' == r)
    && (!r.state.AwaitingApproval? ==> !r'.state.AwaitingApproval?)
    && (r.state.Running? ==> r'.state.Running? || Terminal(r'.state))
    && (r.cancelRequested ==> r'.cancelRequested)
    && r.trail <= r'.trail
  }

  /** Every transaction but an approval and an admission to RUNNING. */
  predicate Calm(r: Execution, r': Execution) {
    && Evolves(r, r')
    && r'.approvalExpiresAt == r.approvalExpiresAt
    && (r'.state.Running? ==> r.state.Running?)
    && (r.state.AwaitingApproval? ==> r'.state.AwaitingApproval? || Terminal(r'.state))
  }

  lemma TrailGrows(r: Execution, r': Execution, now: int)
    requires TrailOk(r)
    requires r'.cls == r.cls && r'.schedule == r.schedule && CanTransition(r.state, r'.state)
    requires r'.trail == r.trail + [Change(Some(r.state), r'.state, now)]
    requires r.cls.Active? ==> !r'.state.Draft?
    ensures TrailOk(r')
  {
    var n := |r.trail|;
    forall k | 0 < k < |r'.trail|
      ensures r'.trail[k].from == Some(r'.trail[k - 1].to)
              && CanTransition(r'.trail[k - 1].to, r'.trail[k].to)
    {
      if k < n { assert r'.trail[k] == r.trail[k] && r'.trail[k - 1] == r.trail[k - 1]; }
    }
  }

  /** One transition that does not enter RUNNING keeps the grant facts. */
  lemma GrantKept(cfg: Settings, r: Execution, r': Execution, c: Change)
    requires GrantOk(cfg, r)
    requires r'.cls == r.cls && r'.approvalExpiresAt == r.approvalExpiresAt
    requires r'.trail == r.trail + [c]
    requires c.to.Running? && r.cls.Active? ==>
               r.approvalExpiresAt.Some? && c.at <= r.approvalExpiresAt.value
    ensures GrantOk(cfg, r')
  {
    if r.approvalExpiresAt.Some? {
      var g :| 0 <= g < |r.trail| && IsGrant(r.trail[g])
               && r.approvalExpiresAt.value == r.trail[g].at + cfg.approvalWindow;
      assert r'.trail[g] == r.trail[g];
    }
    forall k | 0 <= k < |r'.trail| && r'.trail[k].to.Running? && r'.cls.Active?
      ensures r'.approvalExpiresAt.Some? && r'.trail[k].at <= r'.approvalExpiresAt.value
    {
      if k < |r.trail| { assert r'.trail[k] == r.trail[k]; }
    }
  }

  /** One permitted transition, with any change to the cancellation, partial and persisted
      fields beside it, keeps the row invariant as far as trail and grant go. */
  lemma StepKeepsTrail(cfg: Settings, r: Execution, r': Execution, now: int)
    requires RowInv(cfg, r)
    requires r'.target == r.target && r'.group == r.group
    requires r'.cls == r.cls && r'.schedule == r.schedule
    requires r'.approvalExpiresAt == r.approvalExpiresAt
    requires CanTransition(r.state, r'.state)
    requires r'.trail == r.trail + [Change(Some(r.state), r'.state, now)]
    requires r.cls.Active? ==> !r'.state.Draft?
    requires r'.state.Running? && r.cls.Active? ==>
               r.approvalExpiresAt.Some? && now <= r.approvalExpiresAt.value
    ensures TrailOk(r') && GrantOk(cfg, r')
  {
    TrailGrows(r, r', now);
    GrantKept(cfg, r, r', Change(Some(r.state), r'.state, now));
  }

  // ---- one lemma per kind of row step ------------------------------------------

  lemma StartRowKeeps(cfg: Settings, r: Execution, inScan: bool, blocked: bool, now: int)
    requires RowInv(cfg, r)
    ensures var x := StartRow(cfg, r, inScan, blocked, now);
            !x.Crash? && (x.Row? ==> RowInv(cfg, x.row) && Calm(r, x.row))
  {
    hide Linked, TrailOk, GrantOk;
    var x := StartRow(cfg, r, inScan, blocked, now);
    if x.Row? && x.row != r { StepKeepsTrail(cfg, r, x.row, now); }
  }

  lemma PauseRowKeeps(cfg: Settings, r: Execution, inScan: bool, now: int)
    requires RowInv(cfg, r)
    ensures var x := PauseRow(cfg, r, inScan, now);
            x.Row? && RowInv(cfg, x.row) && Calm(r, x.row)
  {
    var x := PauseRow(cfg, r, inScan, now);
    if x.Row? && x.row != r { StepKeepsTrail(cfg, r, x.row, now); }
  }

  lemma CancelRowKeeps(cfg: Settings, r: Execution, chosen: bool, now: int)
    requires RowInv(cfg, r)
    ensures var x := CancelRow(cfg, r, chosen, now);
            && x.Row? && RowInv(cfg, x.row) && Calm(r, x.row)
            && (chosen && !Terminal(x.row.state) ==> x.row.state.Running? && x.row.cancelRequested)
  {
    var x := CancelRow(cfg, r, chosen, now);
    if x.Row? && x.row.trail != r.trail { StepKeepsTrail(cfg, r, x.row, now); }
  }

  lemma DenyRowKeeps(cfg: Settings, r: Execution, inGroup: bool, now: int)
    requires RowInv(cfg, r)
    ensures var x := DenyRow(cfg, r, inGroup, now);
            x.Row? && RowInv(cfg, x.row) && Calm(r, x.row)
  {
    var x := DenyRow(cfg, r, inGroup, now);
    if x.Row? && x.row != r { StepKeepsTrail(cfg, r, x.row, now); }
  }

  lemma ExpireRowKeeps(cfg: Settings, r: Execution, now: int)
    requires RowInv(cfg, r)
    ensures var x := ExpireRow(cfg, r, now);
            x.Row? && RowInv(cfg, x.row) && Calm(r, x.row)
  {
    var x := ExpireRow(cfg, r, now);
    if x.Row? && x.row != r { StepKeepsTrail(cfg, r, x.row, now); }
  }

  lemma TimeoutRowKeeps(cfg: Settings, r: Execution, now: int)
    requires RowInv(cfg, r)
    ensures var x := TimeoutRow(cfg, r, now);
            x.Row? && RowInv(cfg, x.row) && Calm(r, x.row)
  {
    var x := TimeoutRow(cfg, r, now);
    if x.Row? && x.row != r { StepKeepsTrail(cfg, r, x.row, now); }
  }

  lemma GrantedRowOk(cfg: Settings, r: Execution, now: int)
    requires RowInv(cfg, r) && r.state.AwaitingApproval?
    ensures RowInv(cfg, r.(approvalExpiresAt := Some(now + cfg.approvalWindow), state := Approved,
                           trail := r.trail + [Change(Some(AwaitingApproval), Approved, now)]))
  {
    var c := Change(Some(AwaitingApproval), Approved, now);
    var r2 := r.(approvalExpiresAt := Some(now + cfg.approvalWindow), state := Approved,
                 trail := r.trail + [c]);
    TrailGrows(r, r2, now);
    hide TrailOk;
    assert r2.trail[|r.trail|] == c && IsGrant(c);
    forall k | 0 <= k < |r2.trail| ensures !r2.trail[k].to.Running? {
      if k < |r.trail| { assert r2.trail[k] == r.trail[k]; }
    }
  }

  /** An approval of rows that all await it: the window starts now, once. */
  lemma ApproveRowKeeps(cfg: Settings, r: Execution, inGroup: bool, scheduled: bool, now: int)
    requires RowInv(cfg, r)
    requires inGroup ==> r.state.AwaitingApproval?
    ensures var x := ApproveRow(cfg, r, inGroup, scheduled, now);
            && x.Row? && RowInv(cfg, x.row) && Evolves(r, x.row)
            && (!inGroup ==> x.row == r)
            && (inGroup ==> && x.row.approvalExpiresAt == Some(now + cfg.approvalWindow)
                            && x.row.state == if scheduled then Queued else Approved)
  {
    var x := ApproveRow(cfg, r, inGroup, scheduled, now);
    if inGroup {
      var c := Change(Some(AwaitingApproval), Approved, now);
      var r2 := r.(approvalExpiresAt := Some(now + cfg.approvalWindow), state := Approved,
                   trail := r.trail + [c]);
      GrantedRowOk(cfg, r, now);
      hide TrailOk, GrantOk;
      if scheduled { StepKeepsTrail(cfg, r2, x.row, now); }
    }
  }

  /** A delivered message; `r` may be in any state a once-queued row can be in. */
  lemma PreflightRowKeeps(cfg: Settings, r: Execution, blocked: bool, capacity: bool,
                          scopeOk: bool, now: int)
    requires RowInv(cfg, r) && !r.state.AwaitingApproval?
    ensures var p := PreflightRow(cfg, r, blocked, capacity, scopeOk, now);
            && p.result.Row? && RowInv(cfg, p.result.row) && Evolves(r, p.result.row)
            && p.result.row.approvalExpiresAt == r.approvalExpiresAt
            && (p.runs ==> p.result.row.state.Running?)
            && (p.result.row.state.Running? && !r.state.Running? ==>
                  !blocked && r.state.Queued? && capacity)
  {
    hide Linked, TrailOk, GrantOk;
    var p := PreflightRow(cfg, r, blocked, capacity, scopeOk, now);
    if p.result.Row? && p.result.row != r { StepKeepsTrail(cfg, r, p.result.row, now); }
  }

  /** Through CANCELLING to CANCELLED within one transaction. */
  lemma TwoStepsKeepTrail(cfg: Settings, r: Execution, r': Execution, now: int)
    requires RowInv(cfg, r) && r.state.Running?
    requires r'.cls == r.cls && r'.schedule == r.schedule
    requires r'.approvalExpiresAt == r.approvalExpiresAt && r'.state.Cancelled?
    requires r'.trail == r.trail + [Change(Some(Running), Cancelling, now)]
                         + [Change(Some(Cancelling), Cancelled, now)]
    ensures TrailOk(r') && GrantOk(cfg, r') && r.trail <= r'.trail
  {
    var c := Change(Some(Running), Cancelling, now);
    var mid := r.(state := Cancelling, trail := r.trail + [c]);
    TrailGrows(r, mid, now);
    GrantKept(cfg, r, mid, c);
    TrailGrows(mid, r', now);
    GrantKept(cfg, mid, r', Change(Some(Cancelling), Cancelled, now));
  }

  lemma FinishRowKeeps(cfg: Settings, r: Execution, incomplete: bool, now: int)
    requires RowInv(cfg, r) && r.state.Running?
    ensures var x := FinishRow(cfg, r.(persisted := r.persisted + 1), incomplete, now);
            x.Row? && RowInv(cfg, x.row) && Calm(r, x.row) && Terminal(x.row.state)
  {
    hide Linked, TrailOk, GrantOk;
    var x := FinishRow(cfg, r.(persisted := r.persisted + 1), incomplete, now);
    var late := now > r.runtimeDeadlineAt.value;
    if !late && r.cancelRequested {
      TwoStepsKeepTrail(cfg, r, x.row, now);
    } else {
      StepKeepsTrail(cfg, r, x.row, now);
    }
  }

  lemma FailRowKeeps(cfg: Settings, r: Execution, now: int)
    requires RowInv(cfg, r) && r.state.Running?
    ensures var x := AsRow(r, Transit(cfg, r, Failed, now));
            x.Row? && RowInv(cfg, x.row) && Calm(r, x.row) && Terminal(x.row.state)
  {
    StepKeepsTrail(cfg, r, AsRow(r, Transit(cfg, r, Failed, now)).row, now);
  }

  /** The persist step of a worker whose row was RUNNING when its stages began. */
  lemma PersistRowKeeps(cfg: Settings, r: Execution, parsed: bool, incomplete: bool, now: int)
    requires RowInv(cfg, r) && (r.state.Running? || Terminal(r.state))
    ensures var x := PersistRow(cfg, r, parsed, incomplete, now);
            x.Row? && RowInv(cfg, x.row) && Calm(r, x.row) && Terminal(x.row.state)
  {
    hide FinishRow, RowInv, Transit;
    if r.state.Running? {
      if parsed {
        FinishRowKeeps(cfg, r, incomplete, now);
      } else {
        FailRowKeeps(cfg, r, now);
      }
    }
  }
}
