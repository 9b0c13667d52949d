/** The projection of findings into issues is lossless and idempotent. */
module IssueFacts {
  import opened Base
  import opened Text
  import opened Findings
  import opened Comparison
  import opened Issues

  // ---- invariants ----------------------------------------------------------------------

  predicate UniqueIssues(issues: seq<Issue>) {
    forall i, j :: 0 <= i < j < |issues| && issues[i].target == issues[j].target ==>
                     issues[i].kind != issues[j].kind
  }

  predicate IsOf(i: Issue, f: Finding) { i.target == f.target && i.kind == KindOf(f) }

  predicate OccurrenceOk(findings: seq<Finding>, issues: seq<Issue>, o: Occurrence) {
    && o.finding < |findings| && o.issue < |issues|
    && IsOf(issues[o.issue], findings[o.finding])
  }

  /** One issue per target and kind, one occurrence per run and finding, and each occurrence
      under the issue of its finding. */
  predicate BoardOk(findings: seq<Finding>, b: Board) {
    && UniqueIssues(b.issues)
    && (forall i :: 0 <= i < |b.occurrences| ==> OccurrenceOk(findings, b.issues, b.occurrences[i]))
    && forall i, j :: 0 <= i < j < |b.occurrences| && b.occurrences[i].execution == b.occurrences[j].execution ==>
                        b.occurrences[i].finding != b.occurrences[j].finding
  }

  /** Every occurrence comes from a sighting. */
  predicate Faithful(store: Store, b: Board) {
    forall i :: 0 <= i < |b.occurrences| ==>
                  SightedIn(store.sightings, b.occurrences[i].execution, b.occurrences[i].finding)
  }

  // ---- how issues evolve -----------------------------------------------------------------

  predicate IssueGrows(a: Issue, b: Issue) {
    && a.target == b.target && a.kind == b.kind
    && SeverityRank(b.severity) >= SeverityRank(a.severity)
    && b.lastSeen >= a.lastSeen && b.firstSeen <= a.firstSeen
    && (a.title != "" ==> b.title == a.title)
    && (a.status.Observed? ==> b.status.Observed?)
  }

  predicate IssuesGrow(a: seq<Issue>, b: seq<Issue>) {
    |a| <= |b| && forall i :: 0 <= i < |a| ==> IssueGrows(a[i], b[i])
  }

  predicate SameOccurrence(a: Occurrence, b: Occurrence) {
    a.issue == b.issue && a.execution == b.execution && a.finding == b.finding
  }

  predicate OccurrencesGrow(a: seq<Occurrence>, b: seq<Occurrence>) {
    |a| <= |b| && forall i :: 0 <= i < |a| ==> SameOccurrence(a[i], b[i])
  }

  /** Issues keep their identity, their severity never drops, their time span only widens, an
      observed one stays observed, and occurrences stay. */
  predicate Grows(a: Board, b: Board) {
    IssuesGrow(a.issues, b.issues) && OccurrencesGrow(a.occurrences, b.occurrences)
  }

  lemma GrowsTwice(a: Board, b: Board, c: Board)
    requires Grows(a, b) && Grows(b, c)
    ensures Grows(a, c)
  {
    hide SeverityRank;
    forall i | 0 <= i < |a.issues| ensures IssueGrows(a.issues[i], c.issues[i]) {
      assert IssueGrows(a.issues[i], b.issues[i]) && IssueGrows(b.issues[i], c.issues[i]);
    }
    forall i | 0 <= i < |a.occurrences| ensures SameOccurrence(a.occurrences[i], c.occurrences[i]) {
      assert SameOccurrence(a.occurrences[i], b.occurrences[i])
             && SameOccurrence(b.occurrences[i], c.occurrences[i]);
    }
  }

  /** Merging the finding again would change nothing. */
  predicate Absorbs(i: Issue, f: Finding) {
    && SeverityRank(i.severity) >= SeverityRank(f.severity)
    && i.lastSeen >= f.lastSeen && i.firstSeen <= f.firstSeen
    && i.title != ""
    && (f.status.Observed? ==> i.status.Observed?)
  }

  lemma IssueStep(issues: seq<Issue>, f: Finding)
    requires UniqueIssues(issues)
    ensures (var (r, k) := WithIssue(issues, f);
             && k < |r| && IsOf(r[k], f) && Absorbs(r[k], f)
             && UniqueIssues(r) && IssuesGrow(issues, r)
             && (forall i :: 0 <= i < |issues| && i != k ==> r[i] == issues[i]))
  {
    hide SeverityRank, IssueType;
  }

  // ---- one sighting ------------------------------------------------------------------------

  /** The sighting has its occurrence, under an issue that has absorbed its finding. */
  predicate SettledAt(findings: seq<Finding>, b: Board, execution: nat, s: Sighting, k: nat, j: nat)
    requires s.finding < |findings|
  {
    && k < |b.issues| && IsOf(b.issues[k], findings[s.finding]) && Absorbs(b.issues[k], findings[s.finding])
    && j < |b.occurrences| && Is(b.occurrences[j], k, execution, s.finding)
    && b.occurrences[j].severity == s.severity
  }

  predicate Settled(findings: seq<Finding>, b: Board, execution: nat, s: Sighting) {
    s.finding < |findings| ==>
      exists k, j :: 0 <= k < |b.issues| && 0 <= j < |b.occurrences| && SettledAt(findings, b, execution, s, k, j)
  }

  lemma ReopenGrows(issues: seq<Issue>, k: nat)
    requires k < |issues| && UniqueIssues(issues)
    ensures (var r := issues[k := Reopened(issues[k])];
             && IssuesGrow(issues, r) && UniqueIssues(r)
             && forall f :: Absorbs(issues[k], f) ==> Absorbs(r[k], f))
  {
    hide SeverityRank, IssueType;
  }

  lemma OccurrencesStayOk(findings: seq<Finding>, a: seq<Issue>, b: seq<Issue>, occs: seq<Occurrence>)
    requires IssuesGrow(a, b)
    requires forall i :: 0 <= i < |occs| ==> OccurrenceOk(findings, a, occs[i])
    ensures forall i :: 0 <= i < |occs| ==> OccurrenceOk(findings, b, occs[i])
  {
    forall i | 0 <= i < |occs| ensures OccurrenceOk(findings, b, occs[i]) {
      assert OccurrenceOk(findings, a, occs[i]);
      assert IssueGrows(a[occs[i].issue], b[occs[i].issue]);
    }
  }

  /** The issue an occurrence hangs under is determined by its finding, so no other occurrence
      of the run and the finding can exist when none is found. */
  lemma NoneElsewhere(findings: seq<Finding>, b: Board, k: nat, execution: nat, finding: nat)
    requires UniqueIssues(b.issues) && finding < |findings| && k < |b.issues|
    requires forall i :: 0 <= i < |b.occurrences| ==> OccurrenceOk(findings, b.issues, b.occurrences[i])
    requires IsOf(b.issues[k], findings[finding])
    requires FindOccurrence(b.occurrences, k, execution, finding).None?
    ensures forall i :: 0 <= i < |b.occurrences| ==>
                          !(b.occurrences[i].execution == execution && b.occurrences[i].finding == finding)
  {
    hide IssueType;
    forall i | 0 <= i < |b.occurrences| && b.occurrences[i].finding == finding
      ensures b.occurrences[i].issue == k
    {
      assert OccurrenceOk(findings, b.issues, b.occurrences[i]);
    }
  }

  lemma ProjectKeeps(findings: seq<Finding>, b: Board, execution: nat, s: Sighting)
    requires BoardOk(findings, b)
    ensures (var r := Project(findings, b, execution, s);
             && BoardOk(findings, r) && Grows(b, r)
             && Settled(findings, r, execution, s)
             && |r.occurrences| <= |b.occurrences| + 1
             && (|r.occurrences| > |b.occurrences| ==>
                 s.finding < |findings| && r.occurrences[|b.occurrences|].execution == execution
                 && r.occurrences[|b.occurrences|].finding == s.finding)
             && (forall i :: 0 <= i < |b.occurrences|
                             && !(b.occurrences[i].execution == execution && b.occurrences[i].finding == s.finding) ==>
                               r.occurrences[i] == b.occurrences[i]))
  {
    hide WithIssue, Absorbs, IssueGrows, KindOf, IsOf;
    if s.finding < |findings| {
      var f := findings[s.finding];
      IssueStep(b.issues, f);
      var (issues, k) := WithIssue(b.issues, f);
      OccurrencesStayOk(findings, b.issues, issues, b.occurrences);
      var mid := Board(issues, b.occurrences);
      var existing := FindOccurrence(b.occurrences, k, execution, s.finding);
      var r := Project(findings, b, execution, s);
      ReopenGrows(issues, k);
      IssuesGrowTwice(b.issues, issues, r.issues);
      OccurrencesStayOk(findings, b.issues, r.issues, b.occurrences);
      SameKind(issues, k, f);
      if existing.None? {
        NoneElsewhere(findings, mid, k, execution, s.finding);
        assert SettledAt(findings, r, execution, s, k, |b.occurrences|);
      } else {
        assert SettledAt(findings, r, execution, s, k, existing.value);
      }
    } else {
      NothingGrows(b);
    }
  }

  lemma SameKind(issues: seq<Issue>, k: nat, f: Finding)
    requires k < |issues| && IsOf(issues[k], f)
    ensures IsOf(Reopened(issues[k]), f)
  {
  }

  lemma NothingGrows(b: Board)
    ensures Grows(b, b)
  {
  }

  lemma IssuesGrowTwice(a: seq<Issue>, b: seq<Issue>, c: seq<Issue>)
    requires IssuesGrow(a, b) && (b == c || IssuesGrow(b, c))
    ensures IssuesGrow(a, c)
  {
    hide SeverityRank;
    forall i | 0 <= i < |a| ensures IssueGrows(a[i], c[i]) {
      assert IssueGrows(a[i], b[i]);
      if b != c { assert IssueGrows(b[i], c[i]); }
    }
  }

  predicate Concerns(o: Occurrence, execution: nat, finding: nat) {
    o.execution == execution && o.finding == finding
  }

  /** What is settled stays settled while other sightings are projected. */
  lemma StaysSettled(findings: seq<Finding>, a: Board, b: Board, execution: nat, s: Sighting)
    requires Settled(findings, a, execution, s) && Grows(a, b)
    requires forall j :: 0 <= j < |a.occurrences| && Concerns(a.occurrences[j], execution, s.finding) ==>
                           b.occurrences[j] == a.occurrences[j]
    ensures Settled(findings, b, execution, s)
  {
    hide SeverityRank, KindOf;
    if s.finding < |findings| {
      var k, j :| 0 <= k < |a.issues| && 0 <= j < |a.occurrences| && SettledAt(findings, a, execution, s, k, j);
      assert IssueGrows(a.issues[k], b.issues[k]);
      assert SettledAt(findings, b, execution, s, k, j);
    }
  }

  /** Projecting a settled sighting again changes nothing. */
  lemma SettledIsFixed(findings: seq<Finding>, b: Board, execution: nat, s: Sighting)
    requires BoardOk(findings, b) && Settled(findings, b, execution, s)
    ensures Project(findings, b, execution, s) == b
  {
    hide SeverityRank, IssueType;
    if s.finding < |findings| {
      var f := findings[s.finding];
      var k, j :| 0 <= k < |b.issues| && 0 <= j < |b.occurrences| && SettledAt(findings, b, execution, s, k, j);
      assert FindIssue(b.issues, f.target, KindOf(f)) == Some(k);
      assert Merged(b.issues[k], f) == b.issues[k];
      assert b.issues[k := b.issues[k]] == b.issues;
      assert FindOccurrence(b.occurrences, k, execution, s.finding) == Some(j);
      assert b.occurrences[j := b.occurrences[j].(severity := s.severity)] == b.occurrences;
    }
  }

  // ---- one run --------------------------------------------------------------------------

  predicate DistinctFindings(sightings: seq<Sighting>) {
    forall i, j :: 0 <= i < j < |sightings| ==> sightings[i].finding != sightings[j].finding
  }

  predicate AllSettled(findings: seq<Finding>, b: Board, execution: nat, sightings: seq<Sighting>) {
    forall i :: 0 <= i < |sightings| ==> Settled(findings, b, execution, sightings[i])
  }

  lemma {:induction false} ProjectAllKeeps(findings: seq<Finding>, b: Board, execution: nat, sightings: seq<Sighting>)
    requires BoardOk(findings, b) && DistinctFindings(sightings)
    ensures (var r := ProjectAll(findings, b, execution, sightings);
             && BoardOk(findings, r) && Grows(b, r)
             && AllSettled(findings, r, execution, sightings)
             && forall i :: 0 <= i < |b.occurrences| && b.occurrences[i].execution != execution ==>
                              r.occurrences[i] == b.occurrences[i])
  {
    hide Project, Settled, BoardOk, IssuesGrow;
    if sightings == [] {
      NothingGrows(b);
    } else {
      var n := |sightings| - 1;
      var init, last := sightings[..n], sightings[n];
      ProjectAllKeeps(findings, b, execution, init);
      var mid := ProjectAll(findings, b, execution, init);
      ProjectKeeps(findings, mid, execution, last);
      var r := Project(findings, mid, execution, last);
      GrowsTwice(b, mid, r);
      forall i | 0 <= i < |sightings| ensures Settled(findings, r, execution, sightings[i]) {
        if i < n {
          assert Settled(findings, mid, execution, init[i]);
          StaysSettled(findings, mid, r, execution, sightings[i]);
        }
      }
    }
  }

  lemma {:induction false} AllSettledIsFixed(findings: seq<Finding>, b: Board, execution: nat, sightings: seq<Sighting>)
    requires BoardOk(findings, b) && AllSettled(findings, b, execution, sightings)
    ensures ProjectAll(findings, b, execution, sightings) == b
  {
    hide Project, Settled, BoardOk;
    if sightings != [] {
      var n := |sightings| - 1;
      AllSettledIsFixed(findings, b, execution, sightings[..n]);
      SettledIsFixed(findings, b, execution, sightings[n]);
    }
  }

  lemma {:induction false} OneSightingEach(sightings: seq<Sighting>, execution: nat)
    requires OncePerRun(sightings)
    ensures DistinctFindings(SightingsOf(sightings, execution))
  {
    if sightings != [] {
      var n := |sightings| - 1;
      OneSightingEach(sightings[..n], execution);
      var earlier := SightingsOf(sightings[..n], execution);
      forall i | 0 <= i < |earlier| && sightings[n].execution == execution
        ensures earlier[i].finding != sightings[n].finding
      {
        assert earlier[i] in sightings[..n];
      }
    }
  }

  /** Whether everything a run sighted is settled. */
  predicate RunSettled(store: Store, b: Board, execution: nat) {
    AllSettled(store.findings, b, execution, SightingsOf(store.sightings, execution))
  }

  lemma DeriveKeeps(store: Store, b: Board, execution: nat)
    requires BoardOk(store.findings, b) && OncePerRun(store.sightings)
    ensures (var r := Derive(store, b, execution);
             && BoardOk(store.findings, r) && Grows(b, r) && RunSettled(store, r, execution)
             && forall i :: 0 <= i < |b.occurrences| && b.occurrences[i].execution != execution ==>
                              r.occurrences[i] == b.occurrences[i])
  {
    OneSightingEach(store.sightings, execution);
    ProjectAllKeeps(store.findings, b, execution, SightingsOf(store.sightings, execution));
  }

  lemma RunStaysSettled(store: Store, a: Board, b: Board, execution: nat)
    requires RunSettled(store, a, execution) && Grows(a, b)
    requires forall i :: 0 <= i < |a.occurrences| && a.occurrences[i].execution == execution ==>
                           b.occurrences[i] == a.occurrences[i]
    ensures RunSettled(store, b, execution)
  {
    hide Settled, Grows;
    var sightings := SightingsOf(store.sightings, execution);
    forall i | 0 <= i < |sightings| ensures Settled(store.findings, b, execution, sightings[i]) {
      assert Settled(store.findings, a, execution, sightings[i]);
      StaysSettled(store.findings, a, b, execution, sightings[i]);
    }
  }

  // ---- all runs --------------------------------------------------------------------------

  lemma {:induction false} BackfillKeeps(store: Store, b: Board, executions: seq<nat>)
    requires BoardOk(store.findings, b) && OncePerRun(store.sightings)
    requires forall i, j :: 0 <= i < j < |executions| ==> executions[i] != executions[j]
    ensures (var r := Backfill(store, b, executions);
             && BoardOk(store.findings, r) && Grows(b, r)
             && forall i :: 0 <= i < |executions| ==> RunSettled(store, r, executions[i]))
  {
    hide Derive, BoardOk, RunSettled, IssuesGrow;
    if executions == [] {
      NothingGrows(b);
    } else {
      var n := |executions| - 1;
      BackfillKeeps(store, b, executions[..n]);
      var mid := Backfill(store, b, executions[..n]);
      DeriveKeeps(store, mid, executions[n]);
      var r := Derive(store, mid, executions[n]);
      GrowsTwice(b, mid, r);
      forall i | 0 <= i < |executions| ensures RunSettled(store, r, executions[i]) {
        if i < n {
          assert RunSettled(store, mid, executions[..n][i]);
          RunStaysSettled(store, mid, r, executions[i]);
        }
      }
    }
  }

  lemma {:induction false} SettledRunsAreFixed(store: Store, b: Board, executions: seq<nat>)
    requires BoardOk(store.findings, b)
    requires forall i :: 0 <= i < |executions| ==> RunSettled(store, b, executions[i])
    ensures Backfill(store, b, executions) == b
  {
    hide BoardOk;
    if executions != [] {
      var n := |executions| - 1;
      assert forall i :: 0 <= i < n ==> executions[..n][i] == executions[i];
      SettledRunsAreFixed(store, b, executions[..n]);
      AllSettledIsFixed(store.findings, b, executions[n], SightingsOf(store.sightings, executions[n]));
    }
  }

  /** A second backfill changes nothing: no issue, no occurrence, nothing reopened. */
  lemma BackfillIsIdempotent(store: Store, b: Board, executions: seq<nat>)
    requires BoardOk(store.findings, b) && OncePerRun(store.sightings)
    requires forall i, j :: 0 <= i < j < |executions| ==> executions[i] != executions[j]
    ensures (var once := Backfill(store, b, executions); Backfill(store, once, executions) == once)
  {
    BackfillKeeps(store, b, executions);
    SettledRunsAreFixed(store, Backfill(store, b, executions), executions);
  }

  /** Re-deriving one run after it was derived changes nothing either. */
  lemma DeriveIsIdempotent(store: Store, b: Board, execution: nat)
    requires BoardOk(store.findings, b) && OncePerRun(store.sightings)
    ensures (var once := Derive(store, b, execution); Derive(store, once, execution) == once)
  {
    DeriveKeeps(store, b, execution);
    AllSettledIsFixed(store.findings, Derive(store, b, execution), execution,
                      SightingsOf(store.sightings, execution));
  }

  // ---- lossless ----------------------------------------------------------------------------

  lemma {:induction false} ProjectAllFaithful(store: Store, b: Board, execution: nat, sightings: seq<Sighting>)
    requires BoardOk(store.findings, b) && Faithful(store, b) && DistinctFindings(sightings)
    requires forall i :: 0 <= i < |sightings| ==> SightedIn(store.sightings, execution, sightings[i].finding)
    ensures Faithful(store, ProjectAll(store.findings, b, execution, sightings))
  {
    hide Project, BoardOk, Settled;
    if sightings != [] {
      var n := |sightings| - 1;
      var init, last := sightings[..n], sightings[n];
      ProjectAllFaithful(store, b, execution, init);
      ProjectAllKeeps(store.findings, b, execution, init);
      var mid := ProjectAll(store.findings, b, execution, init);
      ProjectKeeps(store.findings, mid, execution, last);
      var r := Project(store.findings, mid, execution, last);
      assert SightedIn(store.sightings, execution, last.finding);
      forall i | 0 <= i < |r.occurrences|
        ensures SightedIn(store.sightings, r.occurrences[i].execution, r.occurrences[i].finding)
      {
        if i < |mid.occurrences| { assert SameOccurrence(mid.occurrences[i], r.occurrences[i]); }
      }
    }
  }

  lemma DeriveFaithful(store: Store, b: Board, execution: nat)
    requires BoardOk(store.findings, b) && Faithful(store, b) && OncePerRun(store.sightings)
    ensures Faithful(store, Derive(store, b, execution))
  {
    OneSightingEach(store.sightings, execution);
    var sightings := SightingsOf(store.sightings, execution);
    forall i | 0 <= i < |sightings| ensures SightedIn(store.sightings, execution, sightings[i].finding) {
      assert sightings[i] in store.sightings;
    }
    ProjectAllFaithful(store, b, execution, sightings);
  }

  lemma {:induction false} BackfillFaithful(store: Store, b: Board, executions: seq<nat>)
    requires BoardOk(store.findings, b) && Faithful(store, b) && OncePerRun(store.sightings)
    requires forall i, j :: 0 <= i < j < |executions| ==> executions[i] != executions[j]
    ensures Faithful(store, Backfill(store, b, executions))
  {
    hide Derive, BoardOk, Faithful;
    if executions != [] {
      var n := |executions| - 1;
      BackfillFaithful(store, b, executions[..n]);
      BackfillKeeps(store, b, executions[..n]);
      DeriveFaithful(store, Backfill(store, b, executions[..n]), executions[n]);
    }
  }

  predicate OccursIn(b: Board, execution: nat, finding: nat) {
    exists i :: 0 <= i < |b.occurrences|
                && b.occurrences[i].execution == execution && b.occurrences[i].finding == finding
  }

  lemma SettledOccurs(findings: seq<Finding>, b: Board, execution: nat, s: Sighting)
    requires BoardOk(findings, b) && Settled(findings, b, execution, s) && s.finding < |findings|
    ensures OccursIn(b, execution, s.finding)
    ensures forall j :: 0 <= j < |b.occurrences| && Concerns(b.occurrences[j], execution, s.finding) ==>
                          b.occurrences[j].severity == s.severity
  {
    hide Absorbs, OccurrenceOk;
    var k, j :| 0 <= k < |b.issues| && 0 <= j < |b.occurrences| && SettledAt(findings, b, execution, s, k, j);
  }

  /** After a backfill the occurrences of the runs correspond one to one with the sightings of
      existing findings: each has exactly one, under the issue of its finding and with the
      severity it was sighted with, and there is no other. */
  lemma BackfillIsLossless(store: Store, b: Board, executions: seq<nat>, execution: nat, finding: nat)
    requires BoardOk(store.findings, b) && Faithful(store, b) && OncePerRun(store.sightings)
    requires forall i, j :: 0 <= i < j < |executions| ==> executions[i] != executions[j]
    requires execution in executions && finding < |store.findings|
    ensures (var r := Backfill(store, b, executions);
             && BoardOk(store.findings, r)
             && (OccursIn(r, execution, finding) <==> SightedIn(store.sightings, execution, finding))
             && (forall s, j :: s in store.sightings && s.execution == execution && s.finding == finding
                                && 0 <= j < |r.occurrences|
                                && Concerns(r.occurrences[j], execution, finding) ==>
                                  r.occurrences[j].severity == s.severity))
  {
    hide Backfill, Derive, Settled, BoardOk, Grows;
    BackfillKeeps(store, b, executions);
    BackfillFaithful(store, b, executions);
    var r := Backfill(store, b, executions);
    assert RunSettled(store, r, execution);
    forall s | s in store.sightings && s.execution == execution && s.finding == finding
      ensures OccursIn(r, execution, finding)
      ensures forall j :: 0 <= j < |r.occurrences| && Concerns(r.occurrences[j], execution, finding) ==>
                            r.occurrences[j].severity == s.severity
    {
      assert s in SightingsOf(store.sightings, execution);
      assert Settled(store.findings, r, execution, s);
      SettledOccurs(store.findings, r, execution, s);
    }
    hide RunSettled;
    if OccursIn(r, execution, finding) {
      var i :| 0 <= i < |r.occurrences|
               && r.occurrences[i].execution == execution && r.occurrences[i].finding == finding;
    }
    if SightedIn(store.sightings, execution, finding) {
      var i :| 0 <= i < |store.sightings|
               && store.sightings[i].execution == execution && store.sightings[i].finding == finding;
      assert store.sightings[i] in store.sightings;
    }
  }

  // ---- severity and reopening ------------------------------------------------------------

  /** No number of backfills lowers an issue's severity. */
  lemma SeverityNeverDrops(store: Store, b: Board, executions: seq<nat>, k: nat)
    requires BoardOk(store.findings, b) && OncePerRun(store.sightings) && k < |b.issues|
    requires forall i, j :: 0 <= i < j < |executions| ==> executions[i] != executions[j]
    ensures (var r := Backfill(store, b, executions);
             && k < |r.issues|
             && SeverityRank(r.issues[k].severity) >= SeverityRank(b.issues[k].severity))
  {
    BackfillKeeps(store, b, executions);
    assert IssueGrows(b.issues[k], Backfill(store, b, executions).issues[k]);
  }

  /** An issue is reopened exactly when it was closed as verified and a sighting that had no
      occurrence yet shows its finding, still observed. */
  lemma ReopenedExactlyWhen(findings: seq<Finding>, b: Board, execution: nat, s: Sighting, k: nat)
    requires BoardOk(findings, b) && k < |b.issues|
    ensures (var r := Project(findings, b, execution, s);
             && k < |r.issues|
             && ((b.issues[k].remediation.ResolvedVerified? && !r.issues[k].remediation.ResolvedVerified?)
                 <==> (b.issues[k].remediation.ResolvedVerified? && s.finding < |findings|
                       && IsOf(b.issues[k], findings[s.finding]) && findings[s.finding].status.Observed?
                       && !OccursIn(b, execution, s.finding)))
             && (r.issues[k].remediation == b.issues[k].remediation
                 || (b.issues[k].remediation.ResolvedVerified? && r.issues[k].remediation.Open?
                     && r.issues[k].reopened)))
  {
    hide SeverityRank, IssueType;
    if s.finding < |findings| {
      var f := findings[s.finding];
      IssueStep(b.issues, f);
      var (issues, m) := WithIssue(b.issues, f);
      assert IsOf(b.issues[k], f) <==> k == m;
      assert issues[k].remediation == b.issues[k].remediation;
      OccurrencesStayOk(findings, b.issues, issues, b.occurrences);
      if FindOccurrence(b.occurrences, m, execution, s.finding).None? {
        NoneElsewhere(findings, Board(issues, b.occurrences), m, execution, s.finding);
      }
    }
  }

  /** Findings keep their identity as later runs are recorded, so the projection stays valid. */
  lemma BoardSurvivesRecording(a: Store, c: Store, b: Board)
    requires BoardOk(a.findings, b) && Extends(a, c)
    ensures BoardOk(c.findings, b)
  {
    forall i | 0 <= i < |b.occurrences| ensures OccurrenceOk(c.findings, b.issues, b.occurrences[i]) {
      assert OccurrenceOk(a.findings, b.issues, b.occurrences[i]);
      assert SameIdentity(a.findings[b.occurrences[i].finding], c.findings[b.occurrences[i].finding]);
    }
  }

  // ---- what an issue shows -----------------------------------------------------------------

  /** Severity, time span and title of an issue are those of findings of its kind among the given
      ones; it is observed, and nobody has worked on it yet. */
  predicate Drawn(findings: seq<Finding>, ids: set<nat>, i: Issue) {
    && (exists x :: x in ids && x < |findings| && IsOf(i, findings[x]) && i.severity == findings[x].severity)
    && (exists x :: x in ids && x < |findings| && IsOf(i, findings[x]) && i.firstSeen == findings[x].firstSeen)
    && (exists x :: x in ids && x < |findings| && IsOf(i, findings[x]) && i.lastSeen == findings[x].lastSeen)
    && (exists x :: x in ids && x < |findings| && IsOf(i, findings[x]) && i.title == ShownTitle(findings[x]))
    && i.status.Observed? && i.remediation.Open? && !i.reopened
  }

  function ShownTitle(f: Finding): string { if f.name == "" then KindOf(f) else f.name }

  predicate AllDrawn(findings: seq<Finding>, ids: set<nat>, issues: seq<Issue>) {
    forall k :: 0 <= k < |issues| ==> Drawn(findings, ids, issues[k])
  }

  lemma DrawnAfter(findings: seq<Finding>, ids: set<nat>, b: Board, execution: nat, s: Sighting)
    requires AllDrawn(findings, ids, b.issues) && s.finding in ids
    ensures AllDrawn(findings, ids, Project(findings, b, execution, s).issues)
  {
    if s.finding < |findings| {
      var f := findings[s.finding];
      var (issues, k) := WithIssue(b.issues, f);
      hide SeverityRank, IssueType;
      if FindIssue(b.issues, f.target, KindOf(f)).Some? { MergedIsDrawn(findings, ids, b.issues[k], s.finding); }
      hide FindOccurrence, Merged, FindIssue, Drawn;
      assert Drawn(findings, ids, issues[k]) by { NewOrMerged(findings, ids, b.issues, s.finding); }
      assert Reopened(issues[k]) == issues[k] by { DrawnIsOpen(findings, ids, issues[k]); }
      assert issues[k := issues[k]] == issues;
    }
  }

  lemma DrawnIsOpen(findings: seq<Finding>, ids: set<nat>, i: Issue)
    requires Drawn(findings, ids, i)
    ensures i.remediation.Open?
  {
  }

  lemma NewOrMerged(findings: seq<Finding>, ids: set<nat>, issues: seq<Issue>, x: nat)
    requires AllDrawn(findings, ids, issues) && x in ids && x < |findings|
    ensures (var (r, k) := WithIssue(issues, findings[x]); k < |r| && Drawn(findings, ids, r[k]))
  {
    hide SeverityRank, IssueType;
    var found := FindIssue(issues, findings[x].target, KindOf(findings[x]));
    if found.Some? { MergedIsDrawn(findings, ids, issues[found.value], x); }
  }

  lemma MergedIsDrawn(findings: seq<Finding>, ids: set<nat>, i: Issue, x: nat)
    requires Drawn(findings, ids, i) && x in ids && x < |findings| && IsOf(i, findings[x])
    ensures Drawn(findings, ids, Merged(i, findings[x]))
  {
    hide SeverityRank, IssueType;
  }

  lemma {:induction false} AllDrawnAfter(findings: seq<Finding>, ids: set<nat>, b: Board, execution: nat,
                                         sightings: seq<Sighting>)
    requires AllDrawn(findings, ids, b.issues) && forall i :: 0 <= i < |sightings| ==> sightings[i].finding in ids
    ensures AllDrawn(findings, ids, ProjectAll(findings, b, execution, sightings).issues)
  {
    hide Project, AllDrawn;
    if sightings != [] {
      var n := |sightings| - 1;
      AllDrawnAfter(findings, ids, b, execution, sightings[..n]);
      DrawnAfter(findings, ids, ProjectAll(findings, b, execution, sightings[..n]), execution, sightings[n]);
    }
  }

  /** The findings that a run of the list sighted. */
  function SightedBy(sightings: seq<Sighting>, executions: seq<nat>): set<nat> {
    set s | s in sightings && s.execution in executions :: s.finding
  }

  lemma {:induction false} BackfillDraws(store: Store, executions: seq<nat>, ids: set<nat>)
    requires SightedBy(store.sightings, executions) <= ids
    ensures AllDrawn(store.findings, ids, Backfill(store, Board([], []), executions).issues)
  {
    hide AllDrawn, ProjectAll;
    if executions == [] {
      assert AllDrawn(store.findings, ids, []) by { NothingDrawn(store.findings, ids); }
    } else {
      var n := |executions| - 1;
      assert forall e :: e in executions[..n] ==> e in executions;
      BackfillDraws(store, executions[..n], ids);
      var sightings := SightingsOf(store.sightings, executions[n]);
      forall i | 0 <= i < |sightings| ensures sightings[i].finding in ids {
        assert sightings[i] in store.sightings && sightings[i].execution in executions;
        assert sightings[i].finding in SightedBy(store.sightings, executions);
      }
      AllDrawnAfter(store.findings, ids, Backfill(store, Board([], []), executions[..n]), executions[n], sightings);
    }
  }

  lemma NothingDrawn(findings: seq<Finding>, ids: set<nat>)
    ensures AllDrawn(findings, ids, [])
  {
  }

  /** A backfill of an empty board sums up what the runs sighted: every issue has the highest
      severity, the first and the last time and the title of sighted findings of its kind, it is
      observed and open, and every sighted finding has its issue. */
  lemma IssuesSumUp(store: Store, executions: seq<nat>)
    requires OncePerRun(store.sightings)
    requires forall i, j :: 0 <= i < j < |executions| ==> executions[i] != executions[j]
    ensures (var r := Backfill(store, Board([], []), executions);
             var ids := SightedBy(store.sightings, executions);
             && AllDrawn(store.findings, ids, r.issues)
             && (forall x :: x in ids && x < |store.findings| ==>
                   exists k :: 0 <= k < |r.issues| && IsOf(r.issues[k], store.findings[x]))
             && (forall x, k :: x in ids && x < |store.findings|
                                && 0 <= k < |r.issues| && IsOf(r.issues[k], store.findings[x]) ==>
                   && SeverityRank(store.findings[x].severity) <= SeverityRank(r.issues[k].severity)
                   && r.issues[k].firstSeen <= store.findings[x].firstSeen
                   && store.findings[x].lastSeen <= r.issues[k].lastSeen))
  {
    var b := Board([], []);
    var r, ids := Backfill(store, b, executions), SightedBy(store.sightings, executions);
    BackfillDraws(store, executions, ids);
    assert BoardOk(store.findings, b);
    BackfillKeeps(store, b, executions);
    hide Backfill, AllDrawn, Absorbs, OccurrenceOk;
    forall x | x in ids && x < |store.findings|
      ensures exists k :: 0 <= k < |r.issues| && IsOf(r.issues[k], store.findings[x])
                          && Absorbs(r.issues[k], store.findings[x])
    {
      var s :| s in store.sightings && s.execution in executions && s.finding == x;
      AbsorbedSomewhere(store, r, s);
    }
    forall x, k | x in ids && x < |store.findings|
                  && 0 <= k < |r.issues| && IsOf(r.issues[k], store.findings[x])
      ensures Absorbs(r.issues[k], store.findings[x])
    {
      var m :| 0 <= m < |r.issues| && IsOf(r.issues[m], store.findings[x]) && Absorbs(r.issues[m], store.findings[x]);
      assert m == k;
    }
  }

  lemma AbsorbedSomewhere(store: Store, r: Board, s: Sighting)
    requires RunSettled(store, r, s.execution) && s in store.sightings && s.finding < |store.findings|
    ensures exists k :: 0 <= k < |r.issues| && IsOf(r.issues[k], store.findings[s.finding])
                        && Absorbs(r.issues[k], store.findings[s.finding])
  {
    assert s in SightingsOf(store.sightings, s.execution);
    assert Settled(store.findings, r, s.execution, s);
  }
}
