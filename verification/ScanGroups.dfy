/** The derived state of a scan (backend/app/services/scan_groups.py). */
module ScanGroups {
  import opened Base
  import opened Executions
  import opened Lifecycle
  import opened RowInvariant
  import opened LifecycleInvariant
  import opened LifecycleRuns

  datatype GroupState = Unknown | Mixed | Of(state: ScanState)

  /** The verdict Mixed is the source's PARTIAL. */
  predicate Finished(g: GroupState) {
    g.Mixed? || (g.Of? && Terminal(g.state))
  }

  predicate AllTerminal(states: seq<ScanState>) {
    forall i :: 0 <= i < |states| ==> Terminal(states[i])
  }

  /** `group_state`. */
  function StateOfGroup(states: seq<ScanState>): GroupState {
    if states == [] then Unknown
    else if AllTerminal(states) then
      var uniq := set s | s in states;
      if uniq == {Completed} then Of(Completed)
      else if uniq == {Cancelled} then Of(Cancelled)
      else if uniq == {Denied} then Of(Denied)
      else if uniq == {Expired} then Of(Expired)
      else if Completed in uniq && uniq <= {Completed, Cancelled, TimedOut, Failed} then Mixed
      else if TimedOut in uniq then Of(TimedOut)
      else if Failed in uniq then Of(Failed)
      else Mixed
    else if Cancelling in states then Of(Cancelling)
    else if Running in states then Of(Running)
    else if Queued in states then Of(Queued)
    else if Approved in states then Of(Approved)
    else if AwaitingApproval in states then Of(AwaitingApproval)
    else if Draft in states then Of(Draft)
    else Of(Running)
  }

  /** The derived state is finished exactly when every execution is, and an unfinished one is
      the state of some execution. */
  lemma FinishedExactlyWhenAllAre(states: seq<ScanState>)
    requires states != []
    ensures Finished(StateOfGroup(states)) <==> AllTerminal(states)
    ensures !AllTerminal(states) ==> StateOfGroup(states).Of? && StateOfGroup(states).state in states
  {
    if !AllTerminal(states) {
      var i :| 0 <= i < |states| && !Terminal(states[i]);
      assert states[i] in states;
    }
  }

  /** A verdict COMPLETED, CANCELLED, DENIED or EXPIRED means all of them are. */
  lemma UniformVerdicts(states: seq<ScanState>, v: ScanState)
    requires states != [] && (v.Completed? || v.Cancelled? || v.Denied? || v.Expired?)
    ensures StateOfGroup(states) == Of(v) <==> forall i :: 0 <= i < |states| ==> states[i] == v
  {
    var uniq := set s | s in states;
    assert forall i :: 0 <= i < |states| ==> states[i] in uniq;
    if forall i :: 0 <= i < |states| ==> states[i] == v {
      assert states[0] in uniq;
      assert uniq == {v};
    }
  }

  /** Neither the order nor the number of repetitions matters. */
  lemma OrderDoesNotMatter(a: seq<ScanState>, b: seq<ScanState>)
    requires forall s :: s in a <==> s in b
    ensures StateOfGroup(a) == StateOfGroup(b)
  {
    assert a == [] <==> b == [] by {
      if a != [] { assert a[0] in b; }
      if b != [] { assert b[0] in a; }
    }
    assert (set s | s in a) == (set s | s in b);
    assert AllTerminal(a) <==> forall s :: s in a ==> Terminal(s);
    assert AllTerminal(b) <==> forall s :: s in b ==> Terminal(s);
  }

  lemma PermutationsAgree(a: seq<ScanState>, b: seq<ScanState>)
    requires multiset(a) == multiset(b)
    ensures StateOfGroup(a) == StateOfGroup(b)
  {
    forall s ensures s in a <==> s in b {
      assert s in a <==> s in multiset(a);
      assert s in b <==> s in multiset(b);
    }
    OrderDoesNotMatter(a, b);
  }

  /** The states of the executions of group `g`, in table order. */
  function StatesOf(rows: seq<Execution>, g: nat): seq<ScanState> {
    if rows == [] then []
    else
      var last := rows[|rows| - 1];
      StatesOf(rows[..|rows| - 1], g) + (if last.group == Some(g) then [last.state] else [])
  }

  lemma {:induction false} StatesOfMembers(rows: seq<Execution>, g: nat, i: nat)
    requires i < |rows| && rows[i].group == Some(g) && AllTerminal(StatesOf(rows, g))
    ensures Terminal(rows[i].state)
  {
    var front := StatesOf(rows[..|rows| - 1], g);
    assert forall k :: 0 <= k < |front| ==> StatesOf(rows, g)[k] == front[k];
    if i == |rows| - 1 {
      assert StatesOf(rows, g)[|front|] == rows[i].state;
    } else {
      StatesOfMembers(rows[..|rows| - 1], g, i);
    }
  }

  /** If the members are unchanged and nobody joins, the list of states is unchanged. */
  lemma {:induction false} StatesOfKept(rows: seq<Execution>, rows': seq<Execution>, g: nat)
    requires |rows| <= |rows'|
    requires forall i :: 0 <= i < |rows| ==> rows'[i].group == rows[i].group
                                             && (rows[i].group == Some(g) ==> rows'[i].state == rows[i].state)
    requires forall i :: |rows| <= i < |rows'| ==> rows'[i].group != Some(g)
    ensures StatesOf(rows', g) == StatesOf(rows, g)
  {
    if rows' != [] {
      var front' := rows'[..|rows'| - 1];
      if |rows| == |rows'| {
        StatesOfKept(rows[..|rows| - 1], front', g);
      } else {
        StatesOfKept(rows, front', g);
      }
    }
  }

  lemma {:induction false} NobodyJoins(cfg: Settings, s: State, es: seq<Event>)
    requires Inv(cfg, s)
    ensures JoinsNoGroup(s, Run(cfg, s, es))
  {
    hide Step, Inv;
    if es != [] {
      var front := es[..|es| - 1];
      NobodyJoins(cfg, s, front);
      RunInv(cfg, s, front);
      RunGrows(cfg, s, front);
      StepSafe(cfg, Run(cfg, s, front), es[|es| - 1]);
    }
  }

  /** Once a scan is finished its derived state never changes again. */
  lemma FinishedGroupIsStable(cfg: Settings, es: seq<Event>, more: seq<Event>, g: nat)
    requires Finished(StateOfGroup(StatesOf(Reached(cfg, es).executions, g)))
    requires g < Reached(cfg, es).nextGroup
    ensures StateOfGroup(StatesOf(Reached(cfg, es + more).executions, g))
         == StateOfGroup(StatesOf(Reached(cfg, es).executions, g))
  {
    hide Step, Inv, StateOfGroup;
    var s := Reached(cfg, es);
    var s' := Reached(cfg, es + more);
    assert AllTerminal(StatesOf(s.executions, g)) by {
      FinishedMeansTerminal(s.executions, g);
    }
    RunSplit(cfg, Initial, es, more);
    ReachedInv(cfg, es);
    NobodyJoins(cfg, s, more);
    RunGrows(cfg, s, more);
    forall i | 0 <= i < |s.executions| && s.executions[i].group == Some(g)
      ensures s'.executions[i] == s.executions[i]
    {
      StatesOfMembers(s.executions, g, i);
      HistoryIsFinal(cfg, es, more, i);
    }
    forall i | 0 <= i < |s.executions| ensures s'.executions[i].group == s.executions[i].group {
      assert Evolves(s.executions[i], s'.executions[i]);
    }
    StatesOfKept(s.executions, s'.executions, g);
  }

  lemma FinishedMeansTerminal(rows: seq<Execution>, g: nat)
    requires Finished(StateOfGroup(StatesOf(rows, g)))
    ensures AllTerminal(StatesOf(rows, g))
  {
    if StatesOf(rows, g) != [] { FinishedExactlyWhenAllAre(StatesOf(rows, g)); }
  }

  /** Of a scan that is not finished the derived state is the most urgent one there is. */
  lemma MostUrgentDecides(states: seq<ScanState>)
    requires states != [] && !AllTerminal(states)
    ensures (var g := StateOfGroup(states);
             && (g == Of(Cancelling) <==> Cancelling in states)
             && (g == Of(Running) <==> Cancelling !in states && Running in states)
             && (g == Of(Queued) <==> Cancelling !in states && Running !in states && Queued in states)
             && (g == Of(Approved) <==>
                 && Cancelling !in states && Running !in states && Queued !in states && Approved in states)
             && (g == Of(Draft) <==> forall x :: x in states ==> x.Draft? || Terminal(x)))
  {
    FinishedExactlyWhenAllAre(states);
    var i :| 0 <= i < |states| && !Terminal(states[i]);
    assert states[i] in states;
  }

  /** A finished scan whose executions ended differently is PARTIAL when some completed and the others
      were cancelled, ran out of time or failed; otherwise one that ran out of time decides, then one
      that failed, and what is left is PARTIAL. */
  lemma MixedVerdicts(states: seq<ScanState>)
    requires AllTerminal(states) && exists x, y :: x in states && y in states && x != y
    ensures (var g := StateOfGroup(states);
             var part := Completed in states && Denied !in states && Expired !in states;
             && (g == Of(TimedOut) <==> !part && TimedOut in states)
             && (g == Of(Failed) <==> !part && TimedOut !in states && Failed in states)
             && (g == Mixed <==> part || (TimedOut !in states && Failed !in states)))
  {
    var x, y :| x in states && y in states && x != y;
    var uniq := set s | s in states;
    assert x in uniq && y in uniq;
    assert forall z :: z in uniq <==> z in states;
    if Completed in states && Denied !in states && Expired !in states {
      forall z | z in uniq ensures z in {Completed, Cancelled, TimedOut, Failed} {
        var i :| 0 <= i < |states| && states[i] == z;
        assert Terminal(z);
      }
    } else {
      assert !(Completed in uniq && uniq <= {Completed, Cancelled, TimedOut, Failed});
    }
  }
}
