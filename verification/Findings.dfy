/** Finding fingerprints and the recording of a run's findings
(backend/app/services/findings.py). */
module Findings {
  import opened Base
  import opened Decimal
  import opened Text

  // ---- data model --------------------------------------------------------------------

  /** What a tool reports. */
  datatype Report = Report(asset: string, rule: string, protocol: string, port: Option<nat>,
                           key: string, severity: string, name: string, summary: string)

  datatype Item = Item(tool: string, report: Report)

  datatype StageOutput = StageOutput(tool: string, findings: seq<Report>)

  datatype Status = Observed | NotObserved

  datatype Finding = Finding(target: string, fingerprint: string, tool: string, rule: string,
                             asset: string, severity: string, name: string, summary: string,
                             status: Status, firstSeen: int, lastSeen: int)

  datatype Sighting = Sighting(finding: nat, execution: nat, severity: string, key: string)

  datatype Store = Store(findings: seq<Finding>, sightings: seq<Sighting>)

  // ---- fingerprints --------------------------------------------------------------------

  const SEPARATOR: char := 31 as char

  function PortText(port: Option<nat>): string {
    if port.None? || port.value == 0 then "" else Digits(port.value)
  }

  /** The seven fields that identify a finding. */
  function Fields(target: string, item: Item): (fields: seq<string>)
    ensures |fields| == 7
  {
    [target,
     Lower(Trim(item.report.asset, WHITESPACE)),
     item.tool,
     item.report.rule,
     if item.report.protocol == "" then "tcp" else item.report.protocol,
     PortText(item.report.port),
     Trim(item.report.key, WHITESPACE)]
  }

  function Canonical(target: string, item: Item): string { Join(Fields(target, item), SEPARATOR) }

  function Fingerprint(sha: string -> string, target: string, item: Item): string {
    sha(Canonical(target, item))
  }

  /** The separator may still be in the last field, the key. */
  predicate SeparatorFree(target: string, item: Item) {
    forall i :: 0 <= i < 6 ==> SEPARATOR !in Fields(target, item)[i]
  }

  predicate Collide(sha: string -> string, x: string, y: string) { x != y && sha(x) == sha(y) }

  /** Without the separator in the first six fields, one fingerprint means one set of fields:
      target, asset up to case and surrounding blanks, tool, rule, protocol, port, and key up to
      surrounding blanks; or the hash has a collision. */
  lemma FingerprintIdentifies(sha: string -> string, t: string, x: Item, u: string, y: Item)
    requires SeparatorFree(t, x) && SeparatorFree(u, y)
    ensures Fingerprint(sha, t, x) == Fingerprint(sha, u, y) <==>
              Fields(t, x) == Fields(u, y) || Collide(sha, Canonical(t, x), Canonical(u, y))
  {
    hide Fields;
    if Canonical(t, x) == Canonical(u, y) {
      JoinIdentifies(Fields(t, x), Fields(u, y), SEPARATOR);
    }
  }

  lemma PortTextIdentifies(p: Option<nat>, q: Option<nat>)
    ensures PortText(p) == PortText(q) <==> p.GetOr(0) == q.GetOr(0)
  {
    ValueOfDigits(p.GetOr(0));
    ValueOfDigits(q.GetOr(0));
  }

  // ---- recording -----------------------------------------------------------------------

  /** The finding of a target with a fingerprint; there is at most one. */
  function Lookup(findings: seq<Finding>, target: string, mark: string): (r: Option<nat>)
    ensures r.Some? ==> r.value < |findings| && findings[r.value].target == target
                        && findings[r.value].fingerprint == mark
    ensures r.None? <==> forall i :: 0 <= i < |findings| ==>
                                       !(findings[i].target == target && findings[i].fingerprint == mark)
  {
    if findings == [] then None
    else
      var n := |findings| - 1;
      var earlier := Lookup(findings[..n], target, mark);
      if earlier.Some? then earlier
      else if findings[n].target == target && findings[n].fingerprint == mark then Some(n)
      else None
  }

  datatype Tally = Tally(created: nat, still: nat, changed: nat)

  datatype Progress = Progress(store: Store, sighted: set<nat>, tally: Tally)

  /** The run that is being recorded. */
  datatype Context = Context(sha: string -> string, target: string, execution: nat, now: int)

  function Print(c: Context, item: Item): string { Fingerprint(c.sha, c.target, item) }

  function Fresh(c: Context, item: Item): Finding {
    var r := item.report;
    Finding(c.target, Print(c, item), item.tool, r.rule, r.asset, r.severity, r.name, r.summary,
            Observed, c.now, c.now)
  }

  function Refreshed(c: Context, f: Finding, r: Report): Finding {
    f.(severity := r.severity, name := if r.name != "" then r.name else f.name,
       summary := r.summary, status := Observed, lastSeen := c.now)
  }

  predicate Differs(f: Finding, r: Report) { f.severity != r.severity || f.summary != r.summary }

  function Upsert(c: Context, p: Progress, item: Item): (Progress, nat) {
    var existing := Lookup(p.store.findings, c.target, Print(c, item));
    if existing.None? then
      (p.(store := p.store.(findings := p.store.findings + [Fresh(c, item)]),
          tally := p.tally.(created := p.tally.created + 1)),
       |p.store.findings|)
    else
      var f := p.store.findings[existing.value];
      var updated := p.store.findings[existing.value := Refreshed(c, f, item.report)];
      (p.(store := p.store.(findings := updated),
          tally := if Differs(f, item.report) then p.tally.(changed := p.tally.changed + 1)
                   else p.tally.(still := p.tally.still + 1)),
       existing.value)
  }

  /** One report: the finding is created or refreshed, and sighted once per run. */
  function RecordOne(c: Context, p: Progress, item: Item): Progress {
    var (q, id) := Upsert(c, p, item);
    if id in q.sighted then q
    else
      var sighting := Sighting(id, c.execution, item.report.severity, item.report.key);
      q.(store := q.store.(sightings := q.store.sightings + [sighting]), sighted := q.sighted + {id})
  }

  function RecordMore(c: Context, p: Progress, items: seq<Item>): Progress {
    if items == [] then p
    else RecordOne(c, RecordMore(c, p, items[..|items| - 1]), items[|items| - 1])
  }

  function RecordAll(c: Context, store: Store, items: seq<Item>): Progress {
    RecordMore(c, Progress(store, {}, Tally(0, 0, 0)), items)
  }

  lemma {:induction false} RecordInTurn(c: Context, p: Progress, a: seq<Item>, b: seq<Item>)
    ensures RecordMore(c, p, a + b) == RecordMore(c, RecordMore(c, p, a), b)
  {
    if b == [] {
      assert a + b == a;
    } else {
      assert (a + b)[..|a + b| - 1] == a + b[..|b| - 1];
      RecordInTurn(c, p, a, b[..|b| - 1]);
    }
  }

  function ItemsOf(output: StageOutput): (items: seq<Item>)
    ensures |items| == |output.findings|
    ensures forall i :: 0 <= i < |items| ==> items[i] == Item(output.tool, output.findings[i])
    decreases |output.findings|
  {
    if output.findings == [] then []
    else
      var n := |output.findings| - 1;
      ItemsOf(output.(findings := output.findings[..n])) + [Item(output.tool, output.findings[n])]
  }

  function Flatten(outputs: seq<StageOutput>): seq<Item> {
    if outputs == [] then []
    else Flatten(outputs[..|outputs| - 1]) + ItemsOf(outputs[|outputs| - 1])
  }

  class FindingStore {
    var findings: seq<Finding>
    var sightings: seq<Sighting>

    function Snapshot(): Store
      reads this
    {
      Store(findings, sightings)
    }

    method Record(c: Context, item: Item, sighted: set<nat>, tally: Tally)
      returns (sightedNow: set<nat>, tallyNow: Tally)
      modifies this
      ensures Progress(Snapshot(), sightedNow, tallyNow)
           == RecordOne(c, Progress(old(Snapshot()), sighted, tally), item)
    {
      hide Fingerprint;
      sightedNow, tallyNow := sighted, tally;
      var mark := Fingerprint(c.sha, c.target, item);
      var existing := Lookup(findings, c.target, mark);
      var id;
      if existing.None? {
        id := |findings|;
        findings := findings + [Fresh(c, item)];
        tallyNow := tally.(created := tally.created + 1);
      } else {
        id := existing.value;
        var f := findings[id];
        if f.severity != item.report.severity || f.summary != item.report.summary {
          tallyNow := tally.(changed := tally.changed + 1);
        } else {
          tallyNow := tally.(still := tally.still + 1);
        }
        findings := findings[id := Refreshed(c, f, item.report)];
      }
      if id in sighted { return; }
      sightedNow := sighted + {id};
      sightings := sightings + [Sighting(id, c.execution, item.report.severity, item.report.key)];
    }

    method RecordOutput(c: Context, output: StageOutput, sighted: set<nat>, tally: Tally)
      returns (sightedNow: set<nat>, tallyNow: Tally)
      modifies this
      ensures Progress(Snapshot(), sightedNow, tallyNow)
           == RecordMore(c, Progress(old(Snapshot()), sighted, tally), ItemsOf(output))
    {
      hide RecordOne;
      ghost var p := Progress(Snapshot(), sighted, tally);
      ghost var items := ItemsOf(output);
      sightedNow, tallyNow := sighted, tally;
      for j := 0 to |output.findings|
        invariant Progress(Snapshot(), sightedNow, tallyNow) == RecordMore(c, p, items[..j])
      {
        sightedNow, tallyNow := Record(c, Item(output.tool, output.findings[j]), sightedNow, tallyNow);
        assert items[..j + 1][..j] == items[..j];
      }
      assert items[..|items|] == items;
    }

    /** `record_findings`. */
    method RecordFindings(c: Context, outputs: seq<StageOutput>) returns (tally: Tally)
      modifies this
      ensures (var p := RecordAll(c, old(Snapshot()), Flatten(outputs));
               Snapshot() == p.store && tally == p.tally)
    {
      hide RecordOne, ItemsOf, RecordMore;
      ghost var start := Progress(Snapshot(), {}, Tally(0, 0, 0));
      var sighted: set<nat> := {};
      tally := Tally(0, 0, 0);
      assert RecordMore(c, start, []) == start by { NothingRecorded(c, start); }
      for i := 0 to |outputs|
        invariant Progress(Snapshot(), sighted, tally) == RecordMore(c, start, Flatten(outputs[..i]))
      {
        sighted, tally := RecordOutput(c, outputs[i], sighted, tally);
        assert outputs[..i + 1][..i] == outputs[..i];
        RecordInTurn(c, start, Flatten(outputs[..i]), ItemsOf(outputs[i]));
      }
      assert outputs[..|outputs|] == outputs;
    }
  }

  lemma NothingRecorded(c: Context, p: Progress)
    ensures RecordMore(c, p, []) == p
  {
  }

  // ---- what recording keeps and achieves -------------------------------------------------

  predicate UniquePrints(findings: seq<Finding>) {
    forall i, j :: 0 <= i < j < |findings| && findings[i].target == findings[j].target ==>
                     findings[i].fingerprint != findings[j].fingerprint
  }

  predicate SightedIn(sightings: seq<Sighting>, execution: nat, id: nat) {
    exists i :: 0 <= i < |sightings| && sightings[i].execution == execution && sightings[i].finding == id
  }

  predicate OncePerRun(sightings: seq<Sighting>) {
    forall i, j :: 0 <= i < j < |sightings| && sightings[i].execution == sightings[j].execution ==>
                     sightings[i].finding != sightings[j].finding
  }

  /** A sighting belongs to the finding whose fingerprint its report has. With `clean`, the
      report had no separator in its first six fields. */
  ghost predicate SightingOk(sha: string -> string, clean: bool, findings: seq<Finding>, s: Sighting) {
    && s.finding < |findings|
    && exists item: Item ::
         && item.report.key == s.key && item.report.severity == s.severity
         && (clean ==> SeparatorFree(findings[s.finding].target, item))
         && Fingerprint(sha, findings[s.finding].target, item) == findings[s.finding].fingerprint
  }

  ghost predicate StoreOk(sha: string -> string, clean: bool, store: Store) {
    && UniquePrints(store.findings)
    && OncePerRun(store.sightings)
    && forall i :: 0 <= i < |store.sightings| ==> SightingOk(sha, clean, store.findings, store.sightings[i])
  }

  /** What identifies a finding never changes. */
  predicate SameIdentity(a: Finding, b: Finding) {
    && a.target == b.target && a.fingerprint == b.fingerprint && a.tool == b.tool
    && a.rule == b.rule && a.asset == b.asset && a.firstSeen == b.firstSeen
  }

  predicate Extends(a: Store, b: Store) {
    && |a.findings| <= |b.findings|
    && (forall i :: 0 <= i < |a.findings| ==> SameIdentity(a.findings[i], b.findings[i]))
    && a.sightings <= b.sightings
  }

  predicate Reported(c: Context, f: Finding, items: seq<Item>) {
    f.target == c.target && exists k :: 0 <= k < |items| && Print(c, items[k]) == f.fingerprint
  }

  /** The state of a recording after some items. */
  ghost predicate RecordingOk(c: Context, clean: bool, store: Store, p: Progress, items: seq<Item>) {
    && StoreOk(c.sha, clean, p.store)
    && Extends(store, p.store)
    && (forall id :: id in p.sighted <==> SightedIn(p.store.sightings, c.execution, id))
    && (forall id :: 0 <= id < |p.store.findings| ==>
          (id in p.sighted <==> Reported(c, p.store.findings[id], items)))
    && p.tally.created + p.tally.still + p.tally.changed == |items|
    && p.tally.created == |p.store.findings| - |store.findings|
  }

  lemma UpsertKeeps(c: Context, p: Progress, item: Item)
    requires UniquePrints(p.store.findings)
    ensures (var (q, id) := Upsert(c, p, item);
             && id < |q.store.findings|
             && q.store.findings[id].target == c.target
             && q.store.findings[id].fingerprint == Print(c, item)
             && Extends(p.store, q.store)
             && |q.store.findings| <= |p.store.findings| + 1
             && (|q.store.findings| > |p.store.findings| ==> id == |p.store.findings|)
             && UniquePrints(q.store.findings))
  {
    hide Fingerprint;
    var existing := Lookup(p.store.findings, c.target, Print(c, item));
    var q := Upsert(c, p, item).0;
    if existing.None? {
      assert q.store.findings[..|p.store.findings|] == p.store.findings;
    }
  }

  /** Refreshing or creating a finding, seen from the findings that were there before. */
  lemma UpsertReports(c: Context, p: Progress, item: Item, items: seq<Item>, k: nat)
    requires UniquePrints(p.store.findings) && k < |Upsert(c, p, item).0.store.findings|
    ensures (var (q, id) := Upsert(c, p, item);
             Reported(c, q.store.findings[k], items + [item])
             <==> k == id || (k < |p.store.findings| && Reported(c, p.store.findings[k], items)))
  {
    UpsertKeeps(c, p, item);
    hide Upsert, Fingerprint;
    var (q, id) := Upsert(c, p, item);
    var f := q.store.findings[k];
    assert (items + [item])[|items|] == item;
    assert forall j :: 0 <= j < |items| ==> (items + [item])[j] == items[j];
    if k == id {
      assert Print(c, (items + [item])[|items|]) == f.fingerprint;
    } else {
      assert k < |p.store.findings| && SameIdentity(p.store.findings[k], f);
      if Reported(c, f, items + [item]) {
        assert f.fingerprint != Print(c, item) by {
          var g := q.store.findings[id];
          if k < id { assert f.fingerprint != g.fingerprint; } else { assert g.fingerprint != f.fingerprint; }
        }
        var j :| 0 <= j < |items + [item]| && Print(c, (items + [item])[j]) == f.fingerprint;
        assert Print(c, items[j]) == f.fingerprint;
      }
      if Reported(c, p.store.findings[k], items) {
        var j :| 0 <= j < |items| && Print(c, items[j]) == f.fingerprint;
        assert Print(c, (items + [item])[j]) == f.fingerprint;
      }
    }
  }

  lemma SightedAfter(sightings: seq<Sighting>, s: Sighting, execution: nat, id: nat)
    ensures SightedIn(sightings + [s], execution, id)
       <==> SightedIn(sightings, execution, id) || (s.execution == execution && s.finding == id)
  {
    var more := sightings + [s];
    if SightedIn(sightings, execution, id) {
      var i :| 0 <= i < |sightings| && sightings[i].execution == execution && sightings[i].finding == id;
      assert more[i] == sightings[i];
    }
    if s.execution == execution && s.finding == id { assert more[|sightings|] == s; }
  }

  lemma RecordOneOk(c: Context, clean: bool, store: Store, p: Progress, items: seq<Item>, item: Item)
    requires RecordingOk(c, clean, store, p, items) && (clean ==> SeparatorFree(c.target, item))
    ensures RecordingOk(c, clean, store, RecordOne(c, p, item), items + [item])
  {
    hide Fingerprint, Fields, SeparatorFree, SightedIn, Reported;
    UpsertKeeps(c, p, item);
    var (q, id) := Upsert(c, p, item);
    var r := RecordOne(c, p, item);
    assert r.store.findings == q.store.findings;
    forall k | 0 <= k < |r.store.findings|
      ensures k in r.sighted <==> Reported(c, r.store.findings[k], items + [item])
    {
      UpsertReports(c, p, item, items, k);
    }
    if id !in q.sighted {
      var s := Sighting(id, c.execution, item.report.severity, item.report.key);
      assert SightingOk(c.sha, clean, r.store.findings, s);
      forall k ensures SightedIn(r.store.sightings, c.execution, k) <==> k in r.sighted {
        SightedAfter(q.store.sightings, s, c.execution, k);
      }
      OnceMore(p.store.sightings, s);
    }
  }

  lemma OnceMore(sightings: seq<Sighting>, s: Sighting)
    requires OncePerRun(sightings) && !SightedIn(sightings, s.execution, s.finding)
    ensures OncePerRun(sightings + [s])
  {
  }

  /** A run that has no sightings yet is recorded: every reported finding is sighted exactly once
      and no other is, findings keep their identity and earlier sightings stay, and the tally
      adds up, `created` being the number of findings that are there now and were not before.
      Reports whose fields are free of the separator keep the store clean. */
  lemma {:induction false} RecordingAchieves(c: Context, clean: bool, store: Store, items: seq<Item>)
    requires StoreOk(c.sha, clean, store)
    requires forall i :: 0 <= i < |store.sightings| ==> store.sightings[i].execution != c.execution
    requires clean ==> forall i :: 0 <= i < |items| ==> SeparatorFree(c.target, items[i])
    ensures RecordingOk(c, clean, store, RecordAll(c, store, items), items)
  {
    hide RecordOne, SeparatorFree, SightingOk;
    if items == [] {
    } else {
      hide RecordingOk;
      var n := |items| - 1;
      RecordingAchieves(c, clean, store, items[..n]);
      RecordOneOk(c, clean, store, RecordAll(c, store, items[..n]), items[..n], items[n]);
      assert items[..n] + [items[n]] == items;
    }
  }

  /** Two sightings of one finding agree on the key up to surrounding blanks, or the hash has a
      collision; so between two runs only the severity and those blanks can differ. */
  lemma OnlyBlanksDiffer(sha: string -> string, store: Store, i: nat, j: nat)
    requires StoreOk(sha, true, store) && i < |store.sightings| && j < |store.sightings|
    requires store.sightings[i].finding == store.sightings[j].finding
    requires forall x, y :: !Collide(sha, x, y)
    ensures Trim(store.sightings[i].key, WHITESPACE) == Trim(store.sightings[j].key, WHITESPACE)
  {
    var a, b := store.sightings[i], store.sightings[j];
    var f := store.findings[a.finding];
    assert SightingOk(sha, true, store.findings, a) && SightingOk(sha, true, store.findings, b);
    var x: Item :| x.report.key == a.key && SeparatorFree(f.target, x)
                   && Fingerprint(sha, f.target, x) == f.fingerprint;
    var y: Item :| y.report.key == b.key && SeparatorFree(f.target, y)
                   && Fingerprint(sha, f.target, y) == f.fingerprint;
    FingerprintIdentifies(sha, f.target, x, f.target, y);
    assert Fields(f.target, x)[6] == Fields(f.target, y)[6];
  }

  // ---- what a finding shows ----------------------------------------------------------------

  predicate Has(findings: seq<Finding>, target: string, mark: string, id: nat) {
    id < |findings| && findings[id].target == target && findings[id].fingerprint == mark
  }

  /** One report concerns one finding and leaves all others alone. A finding that was there takes
      over severity, summary, time and, unless it is empty, the name, and counts as changed if its
      severity or summary differ. A new one holds the report. It is sighted unless it was already. */
  lemma RecordOneShows(c: Context, p: Progress, item: Item) returns (id: nat)
    requires UniquePrints(p.store.findings)
    ensures (var q, r, mark := RecordOne(c, p, item), item.report, Print(c, item);
             var before, after := p.store.findings, q.store.findings;
             && Has(after, c.target, mark, id)
             && (forall i :: 0 <= i < |before| && i != id ==> after[i] == before[i])
             && (if id < |before| then
                   && Has(before, c.target, mark, id) && |after| == |before|
                   && after[id] == before[id].(severity := r.severity, summary := r.summary, status := Observed,
                                               lastSeen := c.now,
                                               name := if r.name == "" then before[id].name else r.name)
                   && q.tally == if before[id].severity != r.severity || before[id].summary != r.summary
                                 then p.tally.(changed := p.tally.changed + 1)
                                 else p.tally.(still := p.tally.still + 1)
                 else
                   && (forall i: nat :: !Has(before, c.target, mark, i))
                   && id == |before| && |after| == |before| + 1
                   && after[id] == Finding(c.target, mark, item.tool, r.rule, r.asset, r.severity, r.name,
                                           r.summary, Observed, c.now, c.now)
                   && q.tally == p.tally.(created := p.tally.created + 1))
             && q.sighted == p.sighted + {id}
             && q.store.sightings == p.store.sightings
                  + if id in p.sighted then [] else [Sighting(id, c.execution, r.severity, r.key)])
  {
    hide Fingerprint;
    id := Upsert(c, p, item).1;
    if id in p.sighted { assert p.sighted + {id} == p.sighted; }
  }

  /** After a run each finding it reports shows the last report about it. */
  lemma {:induction false} ShowsItsLastReport(c: Context, p: Progress, items: seq<Item>, k: nat) returns (id: nat)
    requires UniquePrints(p.store.findings) && k < |items|
    requires forall j :: k < j < |items| ==> Print(c, items[j]) != Print(c, items[k])
    ensures (var findings, r := RecordMore(c, p, items).store.findings, items[k].report;
             && UniquePrints(findings)
             && Has(findings, c.target, Print(c, items[k]), id)
             && findings[id].severity == r.severity && findings[id].summary == r.summary
             && findings[id].status.Observed? && findings[id].lastSeen == c.now
             && (r.name != "" ==> findings[id].name == r.name))
    decreases |items|
  {
    hide RecordOne, Fingerprint;
    var n := |items| - 1;
    var front := RecordMore(c, p, items[..n]);
    if k < n {
      id := ShowsItsLastReport(c, p, items[..n], k);
      var other := RecordOneShows(c, front, items[n]);
      PrintsStayUnique(c, front, items[n]);
    } else {
      MorePrintsStayUnique(c, p, items[..n]);
      id := RecordOneShows(c, front, items[n]);
      PrintsStayUnique(c, front, items[n]);
    }
  }

  lemma PrintsStayUnique(c: Context, p: Progress, item: Item)
    requires UniquePrints(p.store.findings)
    ensures UniquePrints(RecordOne(c, p, item).store.findings)
  {
    UpsertKeeps(c, p, item);
    hide Upsert;
  }

  lemma {:induction false} MorePrintsStayUnique(c: Context, p: Progress, items: seq<Item>)
    requires UniquePrints(p.store.findings)
    ensures UniquePrints(RecordMore(c, p, items).store.findings)
  {
    hide RecordOne;
    if items != [] {
      MorePrintsStayUnique(c, p, items[..|items| - 1]);
      PrintsStayUnique(c, RecordMore(c, p, items[..|items| - 1]), items[|items| - 1]);
    }
  }
}
