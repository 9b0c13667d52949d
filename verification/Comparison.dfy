/** Coverage (backend/app/services/coverage.py) and the comparison of a run with its baseline
(backend/app/services/comparison.py). */
module Comparison {
  import opened Base
  import opened Text
  import opened Findings

  // ---- coverage ------------------------------------------------------------------------

  datatype Coverage = Assessed | CompletedWithGaps | NotAssessed | Inconclusive

  datatype StageResult = StageResult(stage: string, ok: bool, incomplete: bool, note: string, stderr: string)

  predicate Contains(s: string, part: string) {
    part <= s || (s != "" && Contains(s[1..], part))
  }

  predicate ToolMissing(r: StageResult) {
    var text := Lower(r.stderr);
    Contains(text, "not found") && (Contains(text, "binary") || Contains(text, "worker image"))
  }

  predicate NothingInScope(r: StageResult) { "no " <= Lower(Trim(r.note, WHITESPACE)) }

  /** `coverage_outcome`, most conservative first. */
  function CoverageOf(r: StageResult): Coverage {
    if ToolMissing(r) then NotAssessed
    else if r.incomplete then CompletedWithGaps
    else if !r.ok then Inconclusive
    else if NothingInScope(r) then NotAssessed
    else Assessed
  }

  /** What a run remembers of a stage; runs from before the coverage ledger have no coverage. */
  datatype Meta = Meta(stage: string, ok: bool, incomplete: bool, coverage: Option<Coverage>)

  function MetaOf(r: StageResult): Meta { Meta(r.stage, r.ok, r.incomplete, Some(CoverageOf(r))) }

  function MetasOf(results: seq<StageResult>): (metas: seq<Meta>)
    ensures |metas| == |results|
    ensures forall i :: 0 <= i < |results| ==> metas[i] == MetaOf(results[i])
  {
    if results == [] then [] else [MetaOf(results[0])] + MetasOf(results[1..])
  }

  /** `_stage_ok`: the first entry of the stage decides. */
  method StageOk(stages: seq<Meta>, name: string) returns (ok: bool)
    ensures ok == Clears(stages, name)
  {
    for i := 0 to |stages|
      invariant Clears(stages, name) == Clears(stages[i..], name)
    {
      assert stages[i..][1..] == stages[i + 1..];
      var meta := stages[i];
      if meta.stage == name {
        if meta.coverage.Some? { return meta.coverage.value == Assessed; }
        return meta.ok && !meta.incomplete;
      }
    }
    ok := false;
  }

  function Clears(stages: seq<Meta>, name: string): bool {
    if stages == [] then false
    else if stages[0].stage == name then
      match stages[0].coverage
      case Some(coverage) => coverage == Assessed
      case None => stages[0].ok && !stages[0].incomplete
    else Clears(stages[1..], name)
  }

  /** The first result of a stage. */
  function FirstOf(results: seq<StageResult>, name: string): (r: Option<nat>)
    ensures r.Some? ==> r.value < |results| && results[r.value].stage == name
    ensures forall j :: 0 <= j < r.GetOr(|results|) ==> results[j].stage != name
  {
    if results == [] then None
    else if results[0].stage == name then Some(0)
    else
      var later := FirstOf(results[1..], name);
      assert forall j :: 1 <= j < |results| ==> results[j] == results[1..][j - 1];
      if later.Some? then Some(later.value + 1) else None
  }

  predicate FirstAssessed(results: seq<StageResult>, name: string) {
    var i := FirstOf(results, name);
    && i.Some?
    && results[i.value].ok && !results[i.value].incomplete
    && !ToolMissing(results[i.value]) && !NothingInScope(results[i.value])
  }

  /** A stage clears its findings exactly when its first result ran to the end, succeeded, had
      its tool and had something to look at. */
  lemma {:induction false} ClearsExactlyWhen(results: seq<StageResult>, name: string)
    ensures Clears(MetasOf(results), name) <==> FirstAssessed(results, name)
  {
    hide ToolMissing, NothingInScope, CoverageOf;
    if results != [] {
      var metas := MetasOf(results);
      assert metas[0] == MetaOf(results[0]) && metas[1..] == MetasOf(results[1..]);
      AssessedExactlyWhen(results[0]);
      if results[0].stage != name { ClearsExactlyWhen(results[1..], name); }
    }
  }

  lemma AssessedExactlyWhen(r: StageResult)
    ensures CoverageOf(r) == Assessed <==> r.ok && !r.incomplete && !ToolMissing(r) && !NothingInScope(r)
  {
    hide ToolMissing, NothingInScope;
  }

  // ---- the comparison --------------------------------------------------------------------

  datatype Verdict = New | StillObserved | Changed | NotObservedNow

  const STAGES: seq<string> := ["nuclei", "httpx", "dnsx", "osint", "nmap"]

  datatype Detail = Detail(finding: nat, severity: string, verdict: Verdict)

  /** The sightings of a run by finding; a later one would replace an earlier one. */
  function ByFinding(sightings: seq<Sighting>, execution: nat): (m: map<nat, Sighting>)
    ensures forall id :: id in m ==> m[id] in sightings && m[id].finding == id && m[id].execution == execution
    ensures forall id :: id in m <==> SightedIn(sightings, execution, id)
  {
    if sightings == [] then map[]
    else
      var n := |sightings| - 1;
      var earlier := ByFinding(sightings[..n], execution);
      assert forall i :: 0 <= i < n ==> sightings[..n][i] == sightings[i];
      if sightings[n].execution == execution then earlier[sightings[n].finding := sightings[n]] else earlier
  }

  /** A finding of a tool that owns no stage cannot be absent. */
  function CanBeAbsent(stages: seq<Meta>, tool: string): bool { tool in STAGES && Clears(stages, tool) }

  datatype Pair = Pair(cur: map<nat, Sighting>, base: map<nat, Sighting>, findings: seq<Finding>, stages: seq<Meta>)

  function IdsOf(p: Pair): set<nat> { p.cur.Keys + p.base.Keys }

  function VerdictOf(p: Pair, id: nat): Option<Verdict>
    requires id in IdsOf(p)
  {
    if id >= |p.findings| then None
    else if id in p.cur && id !in p.base then Some(New)
    else if id in p.cur then
      if p.cur[id].key != p.base[id].key || p.cur[id].severity != p.base[id].severity
      then Some(Changed) else Some(StillObserved)
    else if CanBeAbsent(p.stages, p.findings[id].tool) then Some(NotObservedNow)
    else None
  }

  function DetailOf(p: Pair, id: nat): Detail
    requires id in IdsOf(p) && VerdictOf(p, id).Some?
  {
    Detail(id, p.findings[id].severity, VerdictOf(p, id).value)
  }

  datatype Counts = Counts(created: nat, still: nat, changed: nat, absent: nat)

  function Plus(c: Counts, v: Verdict): Counts {
    match v
    case New => c.(created := c.created + 1)
    case StillObserved => c.(still := c.still + 1)
    case Changed => c.(changed := c.changed + 1)
    case NotObservedNow => c.(absent := c.absent + 1)
  }

  function CountOf(details: seq<Detail>): Counts {
    if details == [] then Counts(0, 0, 0, 0)
    else Plus(CountOf(details[..|details| - 1]), details[|details| - 1].verdict)
  }

  const SEVERITIES: map<string, nat> :=
    map["INFO" := 0, "LOW" := 1, "MEDIUM" := 2, "HIGH" := 3, "CRITICAL" := 4]

  function SeverityRank(severity: string): nat {
    var s := Upper(if severity == "" then "INFO" else severity);
    if s in SEVERITIES then SEVERITIES[s] else 0
  }

  /** The order of the verdicts' names. */
  function VerdictRank(v: Verdict): nat {
    match v
    case Changed => 0
    case New => 1
    case NotObservedNow => 2
    case StillObserved => 3
  }

  predicate Before(a: Detail, b: Detail) {
    || SeverityRank(a.severity) > SeverityRank(b.severity)
    || (SeverityRank(a.severity) == SeverityRank(b.severity) && VerdictRank(a.verdict) <= VerdictRank(b.verdict))
  }

  predicate InOrder(details: seq<Detail>) {
    forall i, j :: 0 <= i < j < |details| ==> Before(details[i], details[j])
  }

  function InsertDetail(details: seq<Detail>, d: Detail): (r: seq<Detail>)
    ensures multiset(r) == multiset(details) + multiset{d}
  {
    if details == [] then [d]
    else
      var n := |details| - 1;
      assert details == details[..n] + [details[n]];
      if Before(details[n], d) then details + [d]
      else InsertDetail(details[..n], d) + [details[n]]
  }

  /** A stable sort, most severe first. */
  function SortDetails(details: seq<Detail>): (r: seq<Detail>)
    ensures multiset(r) == multiset(details)
  {
    if details == [] then []
    else
      var n := |details| - 1;
      assert details == details[..n] + [details[n]];
      InsertDetail(SortDetails(details[..n]), details[n])
  }

  lemma BeforeIsAnOrder(a: Detail, b: Detail, c: Detail)
    ensures Before(a, b) || Before(b, a)
    ensures Before(a, b) && Before(b, c) ==> Before(a, c)
  {
    hide SeverityRank;
  }

  lemma {:induction false} InsertInOrder(details: seq<Detail>, d: Detail)
    requires InOrder(details)
    ensures InOrder(InsertDetail(details, d))
  {
    hide Before;
    if details != [] {
      var n := |details| - 1;
      if Before(details[n], d) {
        forall i | 0 <= i < n ensures Before(details[i], d) { BeforeIsAnOrder(details[i], details[n], d); }
      } else {
        BeforeIsAnOrder(d, details[n], d);
        InsertInOrder(details[..n], d);
        var r := InsertDetail(details[..n], d);
        forall i | 0 <= i < |r| ensures Before(r[i], details[n]) {
          assert r[i] in multiset(r);
          assert r[i] in multiset(details[..n]) || r[i] == d;
          if r[i] != d { assert r[i] in details[..n]; }
        }
      }
    }
  }

  lemma {:induction false} SortedInOrder(details: seq<Detail>)
    ensures InOrder(SortDetails(details))
  {
    if details != [] {
      SortedInOrder(details[..|details| - 1]);
      InsertInOrder(SortDetails(details[..|details| - 1]), details[|details| - 1]);
    }
  }

  /** The details in the order in which the ids are visited. */
  function Visit(p: Pair, ids: seq<nat>): seq<Detail>
    requires forall i :: 0 <= i < |ids| ==> ids[i] in IdsOf(p)
  {
    if ids == [] then []
    else
      var id := ids[|ids| - 1];
      Visit(p, ids[..|ids| - 1]) + if VerdictOf(p, id).Some? then [DetailOf(p, id)] else []
  }

  /** An enumeration of a set: each element once, in any order. */
  predicate Enumerates(ids: seq<nat>, s: set<nat>) {
    && (forall i :: 0 <= i < |ids| ==> ids[i] in s)
    && (forall x :: x in s ==> x in ids)
    && forall i, j :: 0 <= i < j < |ids| ==> ids[i] != ids[j]
  }

  /** `compare`; the ids come in the order in which a set is iterated, which is not fixed. */
  method Compare(p: Pair, ids: seq<nat>) returns (counts: Counts, details: seq<Detail>)
    requires Enumerates(ids, IdsOf(p))
    ensures details == SortDetails(Visit(p, ids))
    ensures counts == CountOf(Visit(p, ids))
    ensures counts.created + counts.still + counts.changed + counts.absent == |details|
    ensures InOrder(details)
    ensures forall d :: d in details <==>
                          d.finding in IdsOf(p) && VerdictOf(p, d.finding).Some? && d == DetailOf(p, d.finding)
    ensures forall i, j :: 0 <= i < j < |details| ==> details[i].finding != details[j].finding
    ensures forall d :: d in details ==> d.finding < |p.findings| && d.severity == p.findings[d.finding].severity
    ensures counts.created == |OfVerdict(details, New)| && counts.still == |OfVerdict(details, StillObserved)|
    ensures counts.changed == |OfVerdict(details, Changed)| && counts.absent == |OfVerdict(details, NotObservedNow)|
  {
    details := [];
    counts := Counts(0, 0, 0, 0);
    for i := 0 to |ids|
      invariant details == Visit(p, ids[..i])
      invariant counts == CountOf(details)
    {
      assert ids[..i + 1][..i] == ids[..i];
      var id := ids[i];
      if id >= |p.findings| { continue; }
      var verdict := New;
      if id in p.cur && id in p.base {
        verdict := if p.cur[id].key != p.base[id].key || p.cur[id].severity != p.base[id].severity
                   then Changed else StillObserved;
      } else if id !in p.cur {
        if !CanBeAbsent(p.stages, p.findings[id].tool) { continue; }
        verdict := NotObservedNow;
      }
      counts := Plus(counts, verdict);
      ghost var before := details;
      details := details + [Detail(id, p.findings[id].severity, verdict)];
      assert details[..|before|] == before;
    }
    assert ids[..|ids|] == ids;
    CountsAddUp(details);
    VisitedExactly(p, ids);
    ghost var visited := details;
    details := SortDetails(details);
    SortedInOrder(visited);
    SameMembers(visited, details);
    CountsMean(visited);
    SameOfVerdict(visited, details);
    hide *;
  }

  lemma SameOfVerdict(a: seq<Detail>, b: seq<Detail>)
    requires forall d :: d in a <==> d in b
    ensures forall v :: OfVerdict(a, v) == OfVerdict(b, v)
  {
  }

  /** The findings that have a verdict. */
  function OfVerdict(details: seq<Detail>, v: Verdict): set<nat> {
    set d | d in details && d.verdict == v :: d.finding
  }

  predicate MarkedAbsent(details: seq<Detail>, id: nat) {
    exists i :: 0 <= i < |details| && details[i].finding == id && details[i].verdict.NotObservedNow?
  }

  /** `build_and_store` on the finding rows: exactly the absent ones change, and only their status. */
  method ReflectAbsence(findings: seq<Finding>, details: seq<Detail>) returns (after: seq<Finding>)
    ensures |after| == |findings|
    ensures forall id :: 0 <= id < |findings| ==>
                           after[id] == if MarkedAbsent(details, id)
                                        then findings[id].(status := NotObserved) else findings[id]
  {
    after := findings;
    for i := 0 to |details|
      invariant |after| == |findings|
      invariant forall id :: 0 <= id < |findings| ==>
                               after[id] == if MarkedAbsent(details[..i], id)
                                            then findings[id].(status := NotObserved) else findings[id]
    {
      var d := details[i];
      if d.verdict.NotObservedNow? && d.finding < |after| {
        after := after[d.finding := after[d.finding].(status := NotObserved)];
      }
    }
    assert details[..|details|] == details;
  }

  lemma {:induction false} CountsAddUp(details: seq<Detail>)
    ensures (var c := CountOf(details); c.created + c.still + c.changed + c.absent == |details|)
  {
    if details != [] { CountsAddUp(details[..|details| - 1]); }
  }

  predicate DistinctFindings(details: seq<Detail>) {
    forall i, j :: 0 <= i < j < |details| ==> details[i].finding != details[j].finding
  }

  lemma {:induction false} VisitedExactly(p: Pair, ids: seq<nat>)
    requires forall i :: 0 <= i < |ids| ==> ids[i] in IdsOf(p)
    requires forall i, j :: 0 <= i < j < |ids| ==> ids[i] != ids[j]
    ensures forall d :: d in Visit(p, ids) <==>
                          d.finding in ids && d.finding in IdsOf(p) && VerdictOf(p, d.finding).Some?
                          && d == DetailOf(p, d.finding)
    ensures DistinctFindings(Visit(p, ids))
  {
    hide VerdictOf;
    if ids != [] {
      var n := |ids| - 1;
      VisitedExactly(p, ids[..n]);
      assert forall x :: x in ids <==> x in ids[..n] || x == ids[n];
      assert ids[n] !in ids[..n];
      var earlier := Visit(p, ids[..n]);
      forall i | 0 <= i < |earlier| ensures earlier[i].finding != ids[n] {
        assert earlier[i] in earlier;
      }
    }
  }

  lemma SameMembers(a: seq<Detail>, b: seq<Detail>)
    requires multiset(a) == multiset(b) && DistinctFindings(a)
    ensures |a| == |b| && DistinctFindings(b)
    ensures forall d :: d in a <==> d in b
  {
    assert |multiset(a)| == |multiset(b)|;
    forall d ensures d in a <==> d in b {
      assert d in a <==> d in multiset(a);
      assert d in b <==> d in multiset(b);
    }
    forall i, j | 0 <= i < j < |b| ensures b[i].finding != b[j].finding {
      assert b[i] in a && b[j] in a;
      var k, l :| 0 <= k < |a| && a[k] == b[i] && 0 <= l < |a| && a[l] == b[j];
      if k == l {
        TwiceInMultiset(b, i, j);
        AtMostOnce(a, b[i]);
      }
    }
  }

  lemma TwiceInMultiset(s: seq<Detail>, i: nat, j: nat)
    requires i < j < |s| && s[i] == s[j]
    ensures multiset(s)[s[i]] >= 2
  {
    assert s == s[..j] + [s[j]] + s[j + 1..];
    assert s[..j][i] in multiset(s[..j]);
  }

  lemma {:induction false} AtMostOnce(s: seq<Detail>, d: Detail)
    requires DistinctFindings(s)
    ensures multiset(s)[d] <= 1
  {
    if s != [] {
      var n := |s| - 1;
      assert s == s[..n] + [s[n]];
      AtMostOnce(s[..n], d);
      assert forall i :: 0 <= i < n ==> s[..n][i].finding != s[n].finding;
      assert s[n] !in s[..n];
    }
  }

  // ---- main results ----------------------------------------------------------------------

  /** How many details have a verdict does not depend on the order of iteration, and neither do
      the details themselves, up to the order of equals. */
  lemma OrderDoesNotMatter(p: Pair, a: seq<nat>, b: seq<nat>)
    requires Enumerates(a, IdsOf(p)) && Enumerates(b, IdsOf(p))
    ensures multiset(Visit(p, a)) == multiset(Visit(p, b))
    ensures CountOf(Visit(p, a)) == CountOf(Visit(p, b))
  {
    VisitedExactly(p, a);
    VisitedExactly(p, b);
    var x, y := Visit(p, a), Visit(p, b);
    forall d ensures multiset(x)[d] == multiset(y)[d] {
      assert d in x <==> d in y;
      AtMostOnce(x, d);
      AtMostOnce(y, d);
      assert d in x <==> d in multiset(x);
      assert d in y <==> d in multiset(y);
    }
    CountsOfMultiset(x, y);
  }

  lemma {:induction false} CountsOfMultiset(a: seq<Detail>, b: seq<Detail>)
    requires multiset(a) == multiset(b)
    ensures CountOf(a) == CountOf(b)
    decreases |a|
  {
    if a == [] {
      assert |multiset(b)| == 0;
    } else {
      var n := |a| - 1;
      var d := a[n];
      assert a == a[..n] + [d];
      assert d in multiset(b);
      var k :| 0 <= k < |b| && b[k] == d;
      var rest := b[..k] + b[k + 1..];
      assert b == b[..k] + [d] + b[k + 1..];
      assert multiset(b) == multiset(b[..k]) + multiset{d} + multiset(b[k + 1..]);
      assert multiset(a) == multiset(a[..n]) + multiset{d};
      assert multiset(rest) == multiset(b[..k]) + multiset(b[k + 1..]);
      assert multiset(a[..n]) == multiset(a) - multiset{d};
      assert multiset(rest) == multiset(b) - multiset{d};
      CountsOfMultiset(a[..n], rest);
      CountWithout(b, k);
    }
  }

  lemma {:induction false} CountWithout(b: seq<Detail>, k: nat)
    requires k < |b|
    ensures CountOf(b) == Plus(CountOf(b[..k] + b[k + 1..]), b[k].verdict)
    decreases |b|
  {
    hide CountOf;
    var n := |b| - 1;
    if k == n {
      LastCounts(b);
      assert b[..k] + b[k + 1..] == b[..n];
    } else {
      CountWithout(b[..n], k);
      var rest := b[..k] + b[k + 1..];
      var inner := b[..n][..k] + b[..n][k + 1..];
      assert rest == inner + [b[n]];
      LastCounts(b);
      LastCounts(rest);
      assert rest[..|rest| - 1] == inner;
    }
  }

  lemma LastCounts(details: seq<Detail>)
    requires details != []
    ensures CountOf(details) == Plus(CountOf(details[..|details| - 1]), details[|details| - 1].verdict)
  {
  }

  /** A finding seen in this run gets one of the three verdicts of a sighted finding, whatever
      the stages say. One seen only in the baseline is NOT_OBSERVED exactly when its tool's stage
      was assessed in this run, and is left out otherwise. */
  lemma {:induction false} VerdictsPartition(store: Store, results: seq<StageResult>, cur: nat, base: nat, id: nat)
    requires id < |store.findings|
    requires SightedIn(store.sightings, cur, id) || SightedIn(store.sightings, base, id)
    ensures (var p := PairOf(store, MetasOf(results), cur, base);
             var v := VerdictOf(p, id);
             && (SightedIn(store.sightings, cur, id) <==>
                 v == Some(New) || v == Some(StillObserved) || v == Some(Changed))
             && (v == Some(New) <==> !SightedIn(store.sightings, base, id))
             && (v == Some(NotObservedNow) <==>
                 !SightedIn(store.sightings, cur, id) && store.findings[id].tool in STAGES
                 && FirstAssessed(results, store.findings[id].tool)))
  {
    ClearsExactlyWhen(results, store.findings[id].tool);
  }

  function PairOf(store: Store, stages: seq<Meta>, cur: nat, base: nat): Pair {
    Pair(ByFinding(store.sightings, cur), ByFinding(store.sightings, base), store.findings, stages)
  }

  /** CHANGED comes only from the severity or from blanks around the key. */
  lemma ChangedMeans(sha: string -> string, store: Store, stages: seq<Meta>, cur: nat, base: nat, id: nat)
    requires StoreOk(sha, true, store) && forall x, y :: !Collide(sha, x, y)
    requires SightedIn(store.sightings, cur, id) && SightedIn(store.sightings, base, id)
    ensures (var p := PairOf(store, stages, cur, base);
             && Trim(p.cur[id].key, WHITESPACE) == Trim(p.base[id].key, WHITESPACE)
             && (VerdictOf(p, id) == Some(Changed) <==>
                 p.cur[id].severity != p.base[id].severity || p.cur[id].key != p.base[id].key))
  {
    var p := PairOf(store, stages, cur, base);
    assert p.cur[id] in store.sightings && p.base[id] in store.sightings;
    var i :| 0 <= i < |store.sightings| && store.sightings[i] == p.cur[id];
    var j :| 0 <= j < |store.sightings| && store.sightings[j] == p.base[id];
    OnlyBlanksDiffer(sha, store, i, j);
    assert SightingOk(sha, true, store.findings, store.sightings[i]);
  }

  // ---- the baseline ----------------------------------------------------------------------

  datatype Run = Run(target: string, completed: bool, active: bool, createdAt: int, finishedAt: int)

  predicate Eligible(runs: seq<Run>, cur: nat, k: nat)
    requires cur < |runs| && k < |runs|
  {
    && runs[k].target == runs[cur].target && k != cur && runs[k].completed
    && runs[k].active == runs[cur].active && runs[k].createdAt < runs[cur].createdAt
  }

  /** `find_baseline`: of the eligible runs one that finished last. */
  function FindBaseline(runs: seq<Run>, cur: nat, n: nat): (r: Option<nat>)
    requires cur < |runs| && n <= |runs|
    ensures r.Some? ==> r.value < n && Eligible(runs, cur, r.value)
    ensures r.Some? ==> forall k :: 0 <= k < n && Eligible(runs, cur, k) ==>
                                      runs[k].finishedAt <= runs[r.value].finishedAt
    ensures r.None? <==> forall k :: 0 <= k < n ==> !Eligible(runs, cur, k)
  {
    if n == 0 then None
    else
      var earlier := FindBaseline(runs, cur, n - 1);
      if !Eligible(runs, cur, n - 1) then earlier
      else if earlier.Some? && runs[earlier.value].finishedAt >= runs[n - 1].finishedAt then earlier
      else Some(n - 1)
  }

  /** Whatever the rows are called: an eligible run is another COMPLETED one of the same target and
      class that was created before, and the baseline is one of them that finished last. */
  lemma BaselineMeans(runs: seq<Run>, cur: nat)
    requires cur < |runs|
    ensures (var r := FindBaseline(runs, cur, |runs|);
             var me := runs[cur];
             && (r.Some? ==>
                   && r.value < |runs| && r.value != cur && runs[r.value].completed
                   && runs[r.value].target == me.target && runs[r.value].active == me.active
                   && runs[r.value].createdAt < me.createdAt)
             && (forall k: nat :: k < |runs| && k != cur && runs[k].completed && runs[k].target == me.target
                                  && runs[k].active == me.active && runs[k].createdAt < me.createdAt ==>
                                    r.Some? && runs[k].finishedAt <= runs[r.value].finishedAt))
  {
    forall k: nat | k < |runs| && k != cur && runs[k].completed && runs[k].target == runs[cur].target
                    && runs[k].active == runs[cur].active && runs[k].createdAt < runs[cur].createdAt
      ensures Eligible(runs, cur, k)
    {}
  }

  /** A finding that both runs sighted, each once, is CHANGED exactly when severity or key differ. */
  lemma VerdictOfBoth(store: Store, stages: seq<Meta>, cur: nat, base: nat, i: nat, j: nat)
    requires OncePerRun(store.sightings) && i < |store.sightings| && j < |store.sightings|
    requires store.sightings[i].execution == cur && store.sightings[j].execution == base
    requires store.sightings[i].finding == store.sightings[j].finding < |store.findings|
    ensures (var a, b := store.sightings[i], store.sightings[j];
             VerdictOf(PairOf(store, stages, cur, base), a.finding)
             == Some(if a.severity != b.severity || a.key != b.key then Changed else StillObserved))
  {
    var p := PairOf(store, stages, cur, base);
    var id := store.sightings[i].finding;
    assert SightedIn(store.sightings, cur, id) && SightedIn(store.sightings, base, id);
    OnlySighting(store.sightings, i, p.cur[id]);
    OnlySighting(store.sightings, j, p.base[id]);
  }

  lemma OnlySighting(sightings: seq<Sighting>, i: nat, s: Sighting)
    requires OncePerRun(sightings) && i < |sightings| && s in sightings
    requires s.execution == sightings[i].execution && s.finding == sightings[i].finding
    ensures s == sightings[i]
  {
    var k :| 0 <= k < |sightings| && sightings[k] == s;
    assert k == i;
  }

  /** Each counter is the number of findings with its verdict. */
  lemma {:induction false} CountsMean(details: seq<Detail>)
    requires DistinctFindings(details)
    ensures (var c := CountOf(details);
             && c.created == |OfVerdict(details, New)| && c.still == |OfVerdict(details, StillObserved)|
             && c.changed == |OfVerdict(details, Changed)| && c.absent == |OfVerdict(details, NotObservedNow)|)
  {
    if details != [] {
      var n := |details| - 1;
      var d, front := details[n], details[..n];
      CountsMean(front);
      assert details == front + [d];
      forall x | x in front ensures x.finding != d.finding {
        var i :| 0 <= i < n && front[i] == x;
        assert details[i] == x;
      }
      hide OfVerdict;
      OneMoreOf(front, d, New);
      OneMoreOf(front, d, StillObserved);
      OneMoreOf(front, d, Changed);
      OneMoreOf(front, d, NotObservedNow);
    }
  }

  lemma OneMoreOf(front: seq<Detail>, d: Detail, v: Verdict)
    requires forall x :: x in front ==> x.finding != d.finding
    ensures |OfVerdict(front + [d], v)| == |OfVerdict(front, v)| + if v == d.verdict then 1 else 0
  {
    assert forall x :: x in front + [d] <==> x in front || x == d;
    if v == d.verdict {
      assert OfVerdict(front + [d], v) == OfVerdict(front, v) + {d.finding};
    } else {
      assert OfVerdict(front + [d], v) == OfVerdict(front, v);
    }
  }

  /** The severities, whatever their case: INFO < LOW < MEDIUM < HIGH < CRITICAL. None, and a word
      that is none of them, count as INFO. */
  lemma SeverityOrder(word: string)
    ensures SeverityRank("INFO") < SeverityRank("LOW") < SeverityRank("MEDIUM")
            < SeverityRank("HIGH") < SeverityRank("CRITICAL")
    ensures SeverityRank("") == SeverityRank("INFO")
    ensures word != "" ==> SeverityRank(word) == SeverityRank(Upper(word))
    ensures word != "" && Upper(word) !in {"LOW", "MEDIUM", "HIGH", "CRITICAL"} ==>
              SeverityRank(word) == SeverityRank("INFO")
  {
    KnownRanks();
    OtherRanks(word);
    hide SeverityRank;
  }

  lemma KnownRanks()
    ensures SeverityRank("INFO") == 0 && SeverityRank("LOW") == 1 && SeverityRank("MEDIUM") == 2
    ensures SeverityRank("HIGH") == 3 && SeverityRank("CRITICAL") == 4
  {
    hide SeverityRank;
    RankOfWord("INFO");
    RankOfWord("LOW");
    RankOfWord("MEDIUM");
    RankOfWord("HIGH");
    RankOfWord("CRITICAL");
  }

  lemma RankOfWord(word: string)
    requires word != "" && forall i :: 0 <= i < |word| ==> 'A' <= word[i] <= 'Z'
    ensures SeverityRank(word) == if word in SEVERITIES then SEVERITIES[word] else 0
  {
    UpperWord(word);
    hide Upper;
  }

  lemma OtherRanks(word: string)
    ensures SeverityRank("") == SeverityRank("INFO")
    ensures word != "" ==> SeverityRank(word) == SeverityRank(Upper(word))
    ensures word != "" && Upper(word) !in {"LOW", "MEDIUM", "HIGH", "CRITICAL"} ==> SeverityRank(word) == 0
  {
    UpperFixed(word);
    hide Upper;
  }

  lemma {:induction false} UpperFixed(s: string)
    ensures Upper(Upper(s)) == Upper(s) && |Upper(s)| == |s|
  {
    if s != "" { UpperFixed(s[1..]); }
  }

  lemma {:induction false} UpperWord(s: string)
    requires forall i :: 0 <= i < |s| ==> 'A' <= s[i] <= 'Z'
    ensures Upper(s) == s
  {
    if s != "" { UpperWord(s[1..]); }
  }

  predicate At(s: string, part: string, i: nat) { i <= |s| - |part| && s[i..i + |part|] == part }

  /** One text is in another exactly when it is somewhere in it. */
  lemma {:induction false} ContainsExactlyWhen(s: string, part: string)
    ensures Contains(s, part) <==> exists i: nat :: At(s, part, i)
  {
    if part <= s { assert At(s, part, 0); }
    if s == "" {
      if i: nat :| At(s, part, i) { assert part == s[i..i + |part|]; }
    } else {
      ContainsExactlyWhen(s[1..], part);
      if i: nat :| At(s[1..], part, i) {
        assert s[1..][i..i + |part|] == s[i + 1..i + 1 + |part|];
        assert At(s, part, i + 1);
      }
      if i: nat :| At(s, part, i) {
        if i == 0 {
          assert part == s[..|part|];
        } else {
          assert s[1..][i - 1..i - 1 + |part|] == s[i..i + |part|];
          assert At(s[1..], part, i - 1);
        }
      }
    }
  }

  /** Somewhere in the text, whatever its case. */
  ghost predicate Mentions(text: string, part: string) { exists i: nat :: At(Lower(text), part, i) }

  /** The outcome of a stage: NOT_ASSESSED when its tool is missing, COMPLETED_WITH_GAPS when it did not
      run to the end, INCONCLUSIVE when it failed, NOT_ASSESSED when its note starts with the word no,
      and ASSESSED otherwise. */
  lemma CoverageVerdict(r: StageResult)
    ensures CoverageOf(r) ==
              if Mentions(r.stderr, "not found") && (Mentions(r.stderr, "binary") || Mentions(r.stderr, "worker image"))
              then NotAssessed
              else if r.incomplete then CompletedWithGaps
              else if !r.ok then Inconclusive
              else if At(Lower(Trim(r.note, WHITESPACE)), "no ", 0) then NotAssessed
              else Assessed
  {
    ContainsExactlyWhen(Lower(r.stderr), "not found");
    ContainsExactlyWhen(Lower(r.stderr), "binary");
    ContainsExactlyWhen(Lower(r.stderr), "worker image");
    hide Contains, At, Lower, Trim;
    NoInFront(Lower(Trim(r.note, WHITESPACE)), "no ");
  }

  lemma NoInFront(s: string, part: string)
    ensures part <= s <==> At(s, part, 0)
  {
  }
}
