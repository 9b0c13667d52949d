/** Canonical issues, a projection of findings and their sightings
(backend/app/services/issues.py; reopening: backend/app/services/review.py). */
module Issues {
  import opened Base
  import opened Text
  import opened Findings
  import opened Comparison

  // ---- which detectors mean the same condition -------------------------------------------

  const SHARED_RULES: set<string> :=
    {"tls-cert-expired", "tls-cert-expiring-soon", "tls-self-signed", "tls-hostname-mismatch",
     "tls-deprecated-protocol"}

  function IssueType(tool: string, rule: string): (t: string)
    ensures t != ""
  {
    if rule in SHARED_RULES then "tls:" + rule else tool + ":" + rule
  }

  /** Declared equivalent: the same detector, or the same shared rule. */
  predicate Equivalent(tool1: string, rule1: string, tool2: string, rule2: string) {
    rule1 == rule2 && (tool1 == tool2 || rule1 in SHARED_RULES)
  }

  lemma SplitAtColon(a: string, x: string, b: string, y: string)
    requires ':' !in a && ':' !in b
    ensures a + ":" + x == b + ":" + y <==> a == b && x == y
  {
    var s, t := ":" + x, ":" + y;
    FindAfter(a, s, ':');
    FindAfter(b, t, ':');
    assert a + ":" + x == a + s && b + ":" + y == b + t;
    if a + s == b + t {
      assert (a + s)[..|a|] == a && (b + t)[..|b|] == b;
      assert (a + s)[|a| + 1..] == x && (b + t)[|b| + 1..] == y;
    }
  }

  /** Two detectors share an issue exactly when they are declared equivalent, as long as the
      tools' names have no colon. A tool called `tls` does no harm. */
  lemma SameIssueExactlyWhenEquivalent(tool1: string, rule1: string, tool2: string, rule2: string)
    requires ':' !in tool1 && ':' !in tool2
    ensures IssueType(tool1, rule1) == IssueType(tool2, rule2) <==> Equivalent(tool1, rule1, tool2, rule2)
  {
    var a := if rule1 in SHARED_RULES then "tls" else tool1;
    var b := if rule2 in SHARED_RULES then "tls" else tool2;
    assert "tls:" == "tls" + ":";
    assert IssueType(tool1, rule1) == a + ":" + rule1;
    assert IssueType(tool2, rule2) == b + ":" + rule2;
    SplitAtColon(a, rule1, b, rule2);
  }

  lemma NoColonInShared(rule: string)
    requires rule in SHARED_RULES
    ensures ':' !in rule
  {
  }

  /** Every tool whose name has a colon is fused with another tool that is not equivalent. */
  lemma ColonsFuse(tool: string, rule: string)
    requires ':' in tool && rule !in SHARED_RULES
    ensures (var n := Find(tool, ':');
             var other, otherRule := tool[..n], tool[n + 1..] + ":" + rule;
             && ':' !in other
             && IssueType(other, otherRule) == IssueType(tool, rule)
             && !Equivalent(other, otherRule, tool, rule))
  {
    var n := Find(tool, ':');
    var otherRule := tool[n + 1..] + ":" + rule;
    assert otherRule[|tool| - n - 1] == ':';
    if otherRule in SHARED_RULES { NoColonInShared(otherRule); assert false; }
    hide Find;
    assert tool == tool[..n] + ":" + tool[n + 1..];
  }

  // ---- data model -------------------------------------------------------------------------

  datatype Remediation = Open | InProgress | Mitigated | ResolvedVerified | RiskAccepted

  datatype Issue = Issue(target: string, kind: string, title: string, severity: string,
                         status: Status, firstSeen: int, lastSeen: int,
                         remediation: Remediation, reopened: bool)

  datatype Occurrence = Occurrence(issue: nat, execution: nat, finding: nat, severity: string)

  datatype Board = Board(issues: seq<Issue>, occurrences: seq<Occurrence>)

  datatype Totals = Totals(issues: nat, occurrences: nat, executions: nat)

  function Higher(a: string, b: string): string {
    if SeverityRank(a) >= SeverityRank(b) then a else b
  }

  function KindOf(f: Finding): string { IssueType(f.tool, f.rule) }

  function TitleOf(f: Finding): (t: string)
    ensures t != ""
  {
    if f.name != "" then f.name else KindOf(f)
  }

  function FindIssue(issues: seq<Issue>, target: string, kind: string): (r: Option<nat>)
    ensures r.Some? ==> r.value < |issues| && issues[r.value].target == target && issues[r.value].kind == kind
    ensures r.Some? ==> forall i :: 0 <= i < r.value ==> !(issues[i].target == target && issues[i].kind == kind)
    ensures r.None? <==> forall i :: 0 <= i < |issues| ==> !(issues[i].target == target && issues[i].kind == kind)
  {
    if issues == [] then None
    else
      var n := |issues| - 1;
      var earlier := FindIssue(issues[..n], target, kind);
      if earlier.Some? then earlier
      else if issues[n].target == target && issues[n].kind == kind then Some(n)
      else None
  }

  function FindOccurrence(occs: seq<Occurrence>, issue: nat, execution: nat, finding: nat): (r: Option<nat>)
    ensures r.Some? ==> r.value < |occs| && Is(occs[r.value], issue, execution, finding)
    ensures r.Some? ==> forall i :: 0 <= i < r.value ==> !Is(occs[i], issue, execution, finding)
    ensures r.None? <==> forall i :: 0 <= i < |occs| ==> !Is(occs[i], issue, execution, finding)
  {
    if occs == [] then None
    else
      var n := |occs| - 1;
      var earlier := FindOccurrence(occs[..n], issue, execution, finding);
      if earlier.Some? then earlier
      else if Is(occs[n], issue, execution, finding) then Some(n)
      else None
  }

  predicate Is(o: Occurrence, issue: nat, execution: nat, finding: nat) {
    o.issue == issue && o.execution == execution && o.finding == finding
  }

  // ---- the projection ---------------------------------------------------------------------

  function NewIssue(f: Finding): Issue {
    Issue(f.target, KindOf(f), TitleOf(f), f.severity, Observed, f.firstSeen, f.lastSeen, Open, false)
  }

  function Merged(i: Issue, f: Finding): Issue {
    i.(severity := Higher(i.severity, f.severity),
       lastSeen := Max(i.lastSeen, f.lastSeen),
       firstSeen := Min(i.firstSeen, f.firstSeen),
       title := if i.title == "" then TitleOf(f) else i.title,
       status := if f.status.Observed? then Observed else i.status)
  }

  /** `maybe_reopen`. */
  function Reopened(i: Issue): Issue {
    if i.remediation.ResolvedVerified? then i.(remediation := Open, reopened := true) else i
  }

  function WithIssue(issues: seq<Issue>, f: Finding): (seq<Issue>, nat) {
    var found := FindIssue(issues, f.target, KindOf(f));
    if found.None? then (issues + [NewIssue(f)], |issues|)
    else (issues[found.value := Merged(issues[found.value], f)], found.value)
  }

  /** One sighting of a run. A sighting of a missing finding is skipped. */
  function Project(findings: seq<Finding>, b: Board, execution: nat, s: Sighting): Board {
    if s.finding >= |findings| then b
    else
      var f := findings[s.finding];
      var (issues, k) := WithIssue(b.issues, f);
      var existing := FindOccurrence(b.occurrences, k, execution, s.finding);
      if existing.Some? then
        Board(issues, b.occurrences[existing.value := b.occurrences[existing.value].(severity := s.severity)])
      else
        Board(if f.status.Observed? && k < |issues| then issues[k := Reopened(issues[k])] else issues,
              b.occurrences + [Occurrence(k, execution, s.finding, s.severity)])
  }

  function ProjectAll(findings: seq<Finding>, b: Board, execution: nat, sightings: seq<Sighting>): Board {
    if sightings == [] then b
    else
      Project(findings, ProjectAll(findings, b, execution, sightings[..|sightings| - 1]), execution,
              sightings[|sightings| - 1])
  }

  /** The sightings of a run, oldest first; each finding has at most one. */
  function SightingsOf(sightings: seq<Sighting>, execution: nat): (r: seq<Sighting>)
    ensures forall i :: 0 <= i < |r| ==> r[i] in sightings && r[i].execution == execution
    ensures forall s :: s in sightings && s.execution == execution ==> s in r
  {
    if sightings == [] then []
    else
      var last := sightings[|sightings| - 1];
      SightingsOf(sightings[..|sightings| - 1], execution) + if last.execution == execution then [last] else []
  }

  function Derive(store: Store, b: Board, execution: nat): Board {
    ProjectAll(store.findings, b, execution, SightingsOf(store.sightings, execution))
  }

  function Backfill(store: Store, b: Board, executions: seq<nat>): Board {
    if executions == [] then b
    else
      Derive(store, Backfill(store, b, executions[..|executions| - 1]), executions[|executions| - 1])
  }

  class IssueBoard {
    var issues: seq<Issue>
    var occurrences: seq<Occurrence>

    function Snapshot(): Board
      reads this
    {
      Board(issues, occurrences)
    }

    method MaybeReopen(k: nat) returns (reopened: bool)
      requires k < |issues|
      modifies this`issues
      ensures issues == old(issues)[k := Reopened(old(issues)[k])]
      ensures reopened <==> old(issues)[k].remediation.ResolvedVerified?
    {
      if !issues[k].remediation.ResolvedVerified? { return false; }
      issues := issues[k := issues[k].(remediation := Open, reopened := true)];
      reopened := true;
    }

    method UpsertIssue(f: Finding) returns (k: nat, created: bool)
      modifies this`issues
      ensures (issues, k) == WithIssue(old(issues), f) && k < |issues|
      ensures created <==> |issues| > |old(issues)|
      ensures |issues| == |old(issues)| + if created then 1 else 0
    {
      var kind := IssueType(f.tool, f.rule);
      var found := FindIssue(issues, f.target, kind);
      if found.None? {
        k := |issues|;
        issues := issues + [NewIssue(f)];
        return k, true;
      }
      k := found.value;
      var issue := issues[k];
      issue := issue.(severity := Higher(issue.severity, f.severity));
      if f.lastSeen > issue.lastSeen { issue := issue.(lastSeen := f.lastSeen); }
      if f.firstSeen < issue.firstSeen { issue := issue.(firstSeen := f.firstSeen); }
      if issue.title == "" { issue := issue.(title := TitleOf(f)); }
      if f.status.Observed? { issue := issue.(status := Observed); }
      issues := issues[k := issue];
      created := false;
    }

    /** `derive_issues`. */
    method DeriveIssues(store: Store, execution: nat) returns (nIssues: nat, nOccs: nat)
      modifies this
      ensures Snapshot() == Derive(store, old(Snapshot()), execution)
      ensures |issues| == |old(issues)| + nIssues
      ensures |occurrences| == |old(occurrences)| + nOccs
    {
      hide WithIssue, FindOccurrence, FindIssue, Merged;
      nIssues, nOccs := 0, 0;
      var sightings := SightingsOf(store.sightings, execution);
      ghost var was := Snapshot();
      if sightings == [] { return; }
      for i := 0 to |sightings|
        invariant Snapshot() == ProjectAll(store.findings, was, execution, sightings[..i])
        invariant |issues| == |was.issues| + nIssues
        invariant |occurrences| == |was.occurrences| + nOccs
      {
        assert sightings[..i + 1][..i] == sightings[..i];
        var s := sightings[i];
        if s.finding >= |store.findings| { continue; }
        var f := store.findings[s.finding];
        var k, created := UpsertIssue(f);
        if created { nIssues := nIssues + 1; }
        var existing := FindOccurrence(occurrences, k, execution, s.finding);
        if existing.None? {
          occurrences := occurrences + [Occurrence(k, execution, s.finding, s.severity)];
          nOccs := nOccs + 1;
          if f.status.Observed? { var _ := MaybeReopen(k); }
        } else {
          occurrences := occurrences[existing.value := occurrences[existing.value].(severity := s.severity)];
        }
      }
      assert sightings[..|sightings|] == sightings;
    }

    /** `backfill_all` over the runs, oldest first. */
    method BackfillAll(store: Store, executions: seq<nat>) returns (totals: Totals)
      modifies this
      ensures Snapshot() == Backfill(store, old(Snapshot()), executions)
      ensures |issues| == |old(issues)| + totals.issues
      ensures |occurrences| == |old(occurrences)| + totals.occurrences
      ensures totals.executions == |executions|
    {
      totals := Totals(0, 0, 0);
      ghost var was := Snapshot();
      hide Derive;
      for i := 0 to |executions|
        invariant Snapshot() == Backfill(store, was, executions[..i])
        invariant |issues| == |was.issues| + totals.issues
        invariant |occurrences| == |was.occurrences| + totals.occurrences
        invariant totals.executions == i
      {
        assert executions[..i + 1][..i] == executions[..i];
        var n, m := DeriveIssues(store, executions[i]);
        totals := Totals(totals.issues + n, totals.occurrences + m, totals.executions + 1);
      }
      assert executions[..|executions|] == executions;
    }
  }
}
