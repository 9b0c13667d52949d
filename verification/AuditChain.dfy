/** The tamper-evident audit trail (backend/app/services/audit_service.py).

SHA-256 over the UTF-8 form of a text is an unknown function `sha` from texts to digests.
A claim that needs it to be free of collisions names the two texts that would collide. */
module AuditChain {
  import opened Base
  import opened CanonicalJson
  import opened CanonicalJsonFacts

  /** A row of audit_events. `ts` is the UTC timestamp in ISO form. */
  datatype Event = Event(
    number: int, ts: string, actor: string, action: string, objectType: string, objectId: string,
    payload: seq<Member>, prevHash: string, currHash: string)

  function Repeat(c: char, n: nat): (s: string)
    ensures |s| == n && forall i :: 0 <= i < n ==> s[i] == c
  {
    if n == 0 then "" else [c] + Repeat(c, n - 1)
  }

  const GENESIS_HASH: string := Repeat('0', 64)

  const FORBIDDEN: set<string> :=
    {"password", "password_hash", "session", "session_token", "csrf_token", "secret"}

  function Body(number: int, ts: string, actor: string, action: string, objectType: string,
                objectId: Json, payload: seq<Member>, prevHash: string): seq<Member>
  {
    [Member("seq", Num(number)),
     Member("ts", Str(ts)),
     Member("actor", Str(actor)),
     Member("action", Str(action)),
     Member("object_type", Str(objectType)),
     Member("object_id", objectId),
     Member("payload", Obj(payload)),
     Member("prev_hash", Str(prevHash))]
  }

  function BodyOf(e: Event): seq<Member> {
    Body(e.number, e.ts, e.actor, e.action, e.objectType, Str(e.objectId), e.payload, e.prevHash)
  }

  /** The text that is hashed for an event, from the values its row holds. */
  function HashInput(e: Event): string { e.prevHash + Encode(Obj(BodyOf(e))) }

  // ---- verification ---------------------------------------------------------------

  function ExpectedPrev(log: seq<Event>, i: nat): string
    requires i <= |log|
  {
    if i == 0 then GENESIS_HASH else log[i - 1].currHash
  }

  predicate ValidAt(sha: string -> string, log: seq<Event>, i: nat)
    requires i < |log|
  {
    && log[i].number == i + 1
    && log[i].prevHash == ExpectedPrev(log, i)
    && sha(HashInput(log[i])) == log[i].currHash
  }

  predicate Verifies(sha: string -> string, log: seq<Event>) {
    forall i: nat :: i < |log| ==> ValidAt(sha, log, i)
  }

  datatype Reason = SequenceGap | PrevMismatch | HashMismatch

  datatype Verdict =
    | Intact(checked: nat, total: nat)
    | Broken(checked: nat, total: nat, failedSeq: int, reason: Reason)

  // ---- appending --------------------------------------------------------------------

  /** What a caller passes to `append`. The object id can be None: a schedule tick passes the
      id of an approval row that has not been flushed yet. */
  datatype Entry = Entry(ts: string, actor: string, action: string, objectType: string,
                         objectId: Option<string>, payload: Option<seq<Member>>)

  /** `_scrub`; `lower` is Python's str.lower. */
  function Scrub(lower: string -> string, payload: seq<Member>): (r: seq<Member>)
    ensures forall m :: m in r <==> m in payload && lower(m.key) !in FORBIDDEN
  {
    if payload == [] then []
    else if lower(payload[0].key) in FORBIDDEN then Scrub(lower, payload[1..])
    else [payload[0]] + Scrub(lower, payload[1..])
  }

  function HashedId(objectId: Option<string>): Json {
    if objectId.Some? then Str(objectId.value) else Null
  }

  /** The text `append` hashes: the object id as the caller passed it. */
  function AppendInput(lower: string -> string, log: seq<Event>, entry: Entry): string {
    var prev := ExpectedPrev(log, |log|);
    prev + Encode(Obj(Body(NextNumber(log), entry.ts, entry.actor, entry.action, entry.objectType,
                           HashedId(entry.objectId), Scrub(lower, entry.payload.GetOr([])), prev)))
  }

  function NextNumber(log: seq<Event>): int {
    (if log == [] then 0 else log[|log| - 1].number) + 1
  }

  /** The row that is stored: a missing object id becomes the column default "". */
  function Stored(sha: string -> string, lower: string -> string, log: seq<Event>, entry: Entry): Event {
    Event(NextNumber(log), entry.ts, entry.actor, entry.action, entry.objectType,
          entry.objectId.GetOr(""), Scrub(lower, entry.payload.GetOr([])),
          ExpectedPrev(log, |log|), sha(AppendInput(lower, log, entry)))
  }

  class AuditTrail {
    const sha: string -> string
    const lower: string -> string
    var events: seq<Event>

    constructor (sha: string -> string, lower: string -> string)
      ensures this.sha == sha && this.lower == lower && events == []
    {
      this.sha, this.lower, events := sha, lower, [];
    }

    method Append(entry: Entry) returns (event: Event)
      modifies this
      ensures event == Stored(sha, lower, old(events), entry)
      ensures events == old(events) + [event]
      ensures event.ts == entry.ts && event.actor == entry.actor && event.action == entry.action
      ensures event.objectType == entry.objectType
      ensures event.objectId == if entry.objectId.Some? then entry.objectId.value else ""
      ensures forall m :: m in event.payload <==>
                            entry.payload.Some? && m in entry.payload.value && lower(m.key) !in FORBIDDEN
      ensures old(events) == [] ==> event.number == 1 && event.prevHash == GENESIS_HASH
      ensures old(events) != [] ==>
                var last := old(events)[|old(events)| - 1];
                event.number == last.number + 1 && event.prevHash == last.currHash
    {
      hide Encode, Scrub, Body;
      var prevHash, number := GENESIS_HASH, 1;
      if events != [] {
        var last := events[|events| - 1];
        prevHash, number := last.currHash, last.number + 1;
      }
      var payload := Scrub(lower, entry.payload.GetOr([]));
      var canonical := Encode(Obj(Body(number, entry.ts, entry.actor, entry.action, entry.objectType,
                                       HashedId(entry.objectId), payload, prevHash)));
      event := Event(number, entry.ts, entry.actor, entry.action, entry.objectType,
                     entry.objectId.GetOr(""), payload, prevHash, sha(prevHash + canonical));
      events := events + [event];
    }

    /** `verify_chain`: the verdict names the longest verifying prefix and the first reason. */
    method VerifyChain() returns (v: Verdict)
      ensures v.Intact? <==> Verifies(sha, events)
      ensures v.total == |events| && v.checked <= |events|
      ensures forall i: nat :: i < v.checked ==> ValidAt(sha, events, i)
      ensures v.Intact? ==> v.checked == |events|
      ensures v.Broken? ==>
                && v.checked < |events| && !ValidAt(sha, events, v.checked)
                && v.failedSeq == events[v.checked].number
                && (v.reason.SequenceGap? <==> events[v.checked].number != v.checked + 1)
                && (v.reason.PrevMismatch? <==>
                      events[v.checked].number == v.checked + 1
                      && events[v.checked].prevHash != ExpectedPrev(events, v.checked))
                && (v.reason.HashMismatch? <==>
                      events[v.checked].number == v.checked + 1
                      && events[v.checked].prevHash == ExpectedPrev(events, v.checked))
    {
      hide HashInput;
      var expectedPrev := GENESIS_HASH;
      for i := 0 to |events|
        invariant expectedPrev == ExpectedPrev(events, i)
        invariant forall j: nat :: j < i ==> ValidAt(sha, events, j)
      {
        var event := events[i];
        if event.number != i + 1 {
          assert !ValidAt(sha, events, i);
          return Broken(i, |events|, event.number, SequenceGap);
        }
        if event.prevHash != expectedPrev {
          assert !ValidAt(sha, events, i);
          return Broken(i, |events|, event.number, PrevMismatch);
        }
        var recomputed := sha(HashInput(event));
        if recomputed != event.currHash {
          assert !ValidAt(sha, events, i);
          return Broken(i, |events|, event.number, HashMismatch);
        }
        expectedPrev := event.currHash;
      }
      return Intact(|events|, |events|);
    }
  }

  // ---- what the hash input determines ---------------------------------------------------

  lemma {:induction false} NotAmong(ms: seq<Member>, k: string)
    requires forall i :: 0 <= i < |ms| ==> ms[i].key != k
    ensures k !in Keys(ms)
  {
    if ms != [] { NotAmong(ms[1..], k); }
  }

  lemma {:induction false} DistinctFrom(ms: seq<Member>)
    requires forall i, j :: 0 <= i < j < |ms| ==> ms[i].key != ms[j].key
    ensures DistinctKeys(ms)
  {
    if ms != [] {
      DistinctFrom(ms[1..]);
      NotAmong(ms[1..], ms[0].key);
    }
  }

  lemma BodyIsDict(number: int, ts: string, actor: string, action: string, objectType: string,
                   objectId: Json, payload: seq<Member>, prevHash: string)
    requires IsDict(Obj(payload)) && IsDict(objectId)
    ensures IsDict(Obj(Body(number, ts, actor, action, objectType, objectId, payload, prevHash)))
  {
    DistinctFrom(Body(number, ts, actor, action, objectType, objectId, payload, prevHash));
  }

  lemma FieldMeaning(a: seq<Member>, b: seq<Member>, i: nat)
    requires DistinctKeys(a) && DistinctKeys(b) && DenoteMembers(a) == DenoteMembers(b)
    requires i < |a| && i < |b| && a[i].key == b[i].key
    ensures Denote(a[i].value) == Denote(b[i].value)
  {
    Lookup(a, a[i]);
    Lookup(b, b[i]);
  }

  predicate SameContent(a: Event, b: Event) {
    && a.number == b.number && a.ts == b.ts && a.actor == b.actor && a.action == b.action
    && a.objectType == b.objectType && a.objectId == b.objectId && a.prevHash == b.prevHash
    && Denote(Obj(a.payload)) == Denote(Obj(b.payload))
  }

  /** The length of the text before the first brace. */
  function BeforeBrace(s: string): nat {
    if s == "" || s[0] == '{' then 0 else 1 + BeforeBrace(s[1..])
  }

  lemma {:induction false} BraceAt(p: string, x: string)
    requires '{' !in p && x != "" && x[0] == '{'
    ensures BeforeBrace(p + x) == |p|
  {
    if p == "" {
      assert p + x == x;
    } else {
      assert (p + x)[1..] == p[1..] + x;
      BraceAt(p[1..], x);
    }
  }

  /** Canonical events start with a brace, digests never contain one: prev_hash followed by
      the canonical event can be split in only one way. */
  lemma SplitIsUnique(p: string, q: string, a: seq<Member>, b: seq<Member>)
    requires '{' !in p && '{' !in q
    requires p + Encode(Obj(a)) == q + Encode(Obj(b))
    ensures p == q && Encode(Obj(a)) == Encode(Obj(b))
  {
    var x, y := Encode(Obj(a)), Encode(Obj(b));
    FirstCharacter(Normal(Obj(a)), "");
    FirstCharacter(Normal(Obj(b)), "");
    BraceAt(p, x);
    BraceAt(q, y);
    Strip(p, q, x, y);
  }

  lemma SameInputSameContent(a: Event, b: Event)
    requires IsDict(Obj(a.payload)) && IsDict(Obj(b.payload))
    requires '{' !in a.prevHash && '{' !in b.prevHash && HashInput(a) == HashInput(b)
    ensures SameContent(a, b)
  {
    SplitIsUnique(a.prevHash, b.prevHash, BodyOf(a), BodyOf(b));
    BodyOfIsDict(a);
    BodyOfIsDict(b);
    hide BodyOf;
    EncodingIsCanonical(Obj(BodyOf(a)), Obj(BodyOf(b)));
    assert DenoteMembers(BodyOf(a)) == DenoteMembers(BodyOf(b));
    FieldsAgree(a, b);
  }

  lemma BodyOfIsDict(e: Event)
    requires IsDict(Obj(e.payload))
    ensures IsDict(Obj(BodyOf(e))) && DistinctKeys(BodyOf(e))
  {
    BodyIsDict(e.number, e.ts, e.actor, e.action, e.objectType, Str(e.objectId), e.payload, e.prevHash);
  }

  lemma FieldsAgree(a: Event, b: Event)
    requires a.prevHash == b.prevHash
    requires DistinctKeys(BodyOf(a)) && DistinctKeys(BodyOf(b))
    requires DenoteMembers(BodyOf(a)) == DenoteMembers(BodyOf(b))
    ensures SameContent(a, b)
  {
    hide DistinctKeys, DenoteMembers, Denote, SameContent;
    var x, y := BodyOf(a), BodyOf(b);
    FieldMeaning(x, y, 0);
    FieldMeaning(x, y, 1);
    FieldMeaning(x, y, 2);
    FieldMeaning(x, y, 3);
    FieldMeaning(x, y, 4);
    FieldMeaning(x, y, 5);
    FieldMeaning(x, y, 6);
    SameLeaves(a, b);
  }

  lemma SameLeaves(a: Event, b: Event)
    requires a.prevHash == b.prevHash && Denote(Num(a.number)) == Denote(Num(b.number))
    requires Denote(Str(a.ts)) == Denote(Str(b.ts)) && Denote(Str(a.actor)) == Denote(Str(b.actor))
    requires Denote(Str(a.action)) == Denote(Str(b.action))
    requires Denote(Str(a.objectType)) == Denote(Str(b.objectType))
    requires Denote(Str(a.objectId)) == Denote(Str(b.objectId))
    requires Denote(Obj(a.payload)) == Denote(Obj(b.payload))
    ensures SameContent(a, b)
  {
  }

  // ---- main results ------------------------------------------------------------------------

  ghost predicate DigestsHaveNoBrace(sha: string -> string) {
    forall x :: '{' !in sha(x)
  }

  ghost predicate PayloadsAreDicts(log: seq<Event>) {
    forall i :: 0 <= i < |log| ==> IsDict(Obj(log[i].payload))
  }

  lemma PrevHasNoBrace(sha: string -> string, log: seq<Event>, i: nat)
    requires DigestsHaveNoBrace(sha) && Verifies(sha, log) && i < |log|
    ensures '{' !in log[i].prevHash
  {
    assert ValidAt(sha, log, i);
    if i > 0 {
      assert ValidAt(sha, log, i - 1);
      assert '{' !in sha(HashInput(log[i - 1]));
    }
  }

  lemma PrefixVerifies(sha: string -> string, log: seq<Event>, n: nat)
    requires Verifies(sha, log) && n <= |log|
    ensures Verifies(sha, log[..n])
  {
    forall i: nat | i < n ensures ValidAt(sha, log[..n], i) {
      assert ValidAt(sha, log, i);
    }
  }

  /** The two texts hashed for a[i] and b[j] differ and have the same digest. */
  ghost predicate Collision(sha: string -> string, a: seq<Event>, b: seq<Event>, i: nat, j: nat) {
    && i < |a| && j < |b|
    && HashInput(a[i]) != HashInput(b[j]) && sha(HashInput(a[i])) == sha(HashInput(b[j]))
  }

  lemma SameNumber(a: Event, b: Event)
    requires SameContent(a, b)
    ensures a.number == b.number && a.prevHash == b.prevHash
  {}

  /** Heads hashed from one text: the same content, the same length, the same hash before. */
  lemma HeadsAgree(sha: string -> string, a: seq<Event>, b: seq<Event>)
    requires DigestsHaveNoBrace(sha) && PayloadsAreDicts(a) && PayloadsAreDicts(b)
    requires Verifies(sha, a) && Verifies(sha, b) && a != [] && b != []
    requires HashInput(a[|a| - 1]) == HashInput(b[|b| - 1])
    ensures |a| == |b| && SameContent(a[|a| - 1], b[|b| - 1])
    ensures |a| > 1 ==> a[|a| - 2].currHash == b[|b| - 2].currHash
  {
    hide HashInput, SameContent, IsDict, DigestsHaveNoBrace;
    assert ValidAt(sha, a, |a| - 1) && ValidAt(sha, b, |b| - 1);
    PrevHasNoBrace(sha, a, |a| - 1);
    PrevHasNoBrace(sha, b, |b| - 1);
    hide Verifies;
    SameInputSameContent(a[|a| - 1], b[|b| - 1]);
    SameNumber(a[|a| - 1], b[|b| - 1]);
  }

  /** Two logs that both verify and end in the same hash are equal event by event, or they
      exhibit a collision of the hash: nothing before the head can be altered, deleted,
      inserted or reordered. */
  lemma {:induction false} TamperEvidence(sha: string -> string, a: seq<Event>, b: seq<Event>)
    returns (i: nat, j: nat)
    requires DigestsHaveNoBrace(sha) && PayloadsAreDicts(a) && PayloadsAreDicts(b)
    requires Verifies(sha, a) && Verifies(sha, b) && a != [] && b != []
    requires a[|a| - 1].currHash == b[|b| - 1].currHash
    ensures Collision(sha, a, b, i, j) || SameLog(a, b)
    decreases |a|, 1
  {
    hide HashInput, SameContent;
    i, j := |a| - 1, |b| - 1;
    assert ValidAt(sha, a, i) && ValidAt(sha, b, j);
    if HashInput(a[i]) == HashInput(b[j]) {
      HeadsAgree(sha, a, b);
      if i > 0 {
        PrefixVerifies(sha, a, i);
        PrefixVerifies(sha, b, i);
        i, j := PrefixEvidence(sha, a, b);
      } else {
        assert SameLog(a, b);
      }
    }
  }

  lemma {:induction false} PrefixEvidence(sha: string -> string, a: seq<Event>, b: seq<Event>)
    returns (i: nat, j: nat)
    requires DigestsHaveNoBrace(sha) && PayloadsAreDicts(a) && PayloadsAreDicts(b)
    requires |a| == |b| > 1 && Verifies(sha, a[..|a| - 1]) && Verifies(sha, b[..|a| - 1])
    requires a[|a| - 2].currHash == b[|b| - 2].currHash
    requires SameContent(a[|a| - 1], b[|b| - 1]) && a[|a| - 1].currHash == b[|b| - 1].currHash
    ensures Collision(sha, a, b, i, j) || SameLog(a, b)
    decreases |a|, 0
  {
    hide HashInput, SameContent, Verifies, IsDict, DigestsHaveNoBrace;
    var n := |a| - 1;
    i, j := TamperEvidence(sha, a[..n], b[..n]);
    if SameLog(a[..n], b[..n]) {
      forall k | 0 <= k < |a| ensures SameContent(a[k], b[k]) && a[k].currHash == b[k].currHash {
        if k < n { assert a[..n][k] == a[k] && b[..n][k] == b[k]; }
      }
    } else {
      assert a[..n][i] == a[i] && b[..n][j] == b[j];
    }
  }

  ghost predicate SameLog(a: seq<Event>, b: seq<Event>) {
    && |a| == |b|
    && (forall k :: 0 <= k < |a| ==> SameContent(a[k], b[k]) && a[k].currHash == b[k].currHash)
  }

  /** The digest of an entry without an object id, over what will be stored in its place. */
  ghost predicate Unnoticed(sha: string -> string, lower: string -> string, log: seq<Event>, entry: Entry) {
    sha(AppendInput(lower, log, entry)) == sha(AppendInput(lower, log, entry.(objectId := Some(""))))
  }

  lemma StoredInput(sha: string -> string, lower: string -> string, log: seq<Event>, entry: Entry)
    ensures HashInput(Stored(sha, lower, log, entry))
         == AppendInput(lower, log, entry.(objectId := Some(entry.objectId.GetOr(""))))
  {
    hide Encode, Scrub;
  }

  /** Appending keeps the chain verifiable exactly when the caller passes an object id; an
      entry without one is hashed as null and stored as "", so only a collision hides it. */
  lemma AppendVerifiesExactlyWhen(sha: string -> string, lower: string -> string, log: seq<Event>,
                                  entry: Entry)
    requires Verifies(sha, log)
    ensures Verifies(sha, log + [Stored(sha, lower, log, entry)]) <==>
            entry.objectId.Some? || Unnoticed(sha, lower, log, entry)
  {
    hide HashInput, AppendInput;
    var e := Stored(sha, lower, log, entry);
    var log' := log + [e];
    StoredInput(sha, lower, log, entry);
    forall i: nat | i < |log| ensures ValidAt(sha, log', i) {
      assert ValidAt(sha, log, i);
    }
    if log != [] { assert ValidAt(sha, log, |log| - 1); }
    assert ValidAt(sha, log', |log|) <==> sha(HashInput(e)) == e.currHash;
    if entry.objectId.Some? { assert entry == entry.(objectId := Some(entry.objectId.GetOr(""))); }
  }

  /** Without an object id the two texts do differ. */
  lemma MissingIdChangesTheText(lower: string -> string, log: seq<Event>, entry: Entry)
    requires entry.objectId.None? && IsDict(Obj(Scrub(lower, entry.payload.GetOr([]))))
    ensures AppendInput(lower, log, entry) != AppendInput(lower, log, entry.(objectId := Some("")))
  {
    var prev, payload := ExpectedPrev(log, |log|), Scrub(lower, entry.payload.GetOr([]));
    var x := Body(NextNumber(log), entry.ts, entry.actor, entry.action, entry.objectType, Null, payload, prev);
    var y := Body(NextNumber(log), entry.ts, entry.actor, entry.action, entry.objectType, Str(""), payload, prev);
    if prev + Encode(Obj(x)) == prev + Encode(Obj(y)) {
      Strip(prev, prev, Encode(Obj(x)), Encode(Obj(y)));
      BodyIsDict(NextNumber(log), entry.ts, entry.actor, entry.action, entry.objectType, Null, payload, prev);
      BodyIsDict(NextNumber(log), entry.ts, entry.actor, entry.action, entry.objectType, Str(""), payload, prev);
      EncodingIsCanonical(Obj(x), Obj(y));
      FieldMeaning(x, y, 5);
    }
  }

  function Built(sha: string -> string, lower: string -> string, entries: seq<Entry>): seq<Event> {
    if entries == [] then []
    else
      var front := Built(sha, lower, entries[..|entries| - 1]);
      front + [Stored(sha, lower, front, entries[|entries| - 1])]
  }

  lemma {:induction false} BuiltLength(sha: string -> string, lower: string -> string, entries: seq<Entry>)
    ensures |Built(sha, lower, entries)| == |entries|
  {
    if entries != [] { BuiltLength(sha, lower, entries[..|entries| - 1]); }
  }

  /** A log written by `append` alone verifies exactly when every entry named its object (or
      a collision hides that it did not). */
  lemma {:induction false} BuiltVerifiesExactlyWhen(sha: string -> string, lower: string -> string,
                                                    entries: seq<Entry>)
    ensures Verifies(sha, Built(sha, lower, entries)) <==>
            forall k :: 0 <= k < |entries| ==>
                          || entries[k].objectId.Some?
                          || Unnoticed(sha, lower, Built(sha, lower, entries[..k]), entries[k])
  {
    hide HashInput, AppendInput, Stored, ValidAt, Unnoticed;
    if entries != [] {
      var n := |entries| - 1;
      var front, e := entries[..n], entries[n];
      BuiltVerifiesExactlyWhen(sha, lower, front);
      BuiltLength(sha, lower, front);
      assert forall k :: 0 <= k < n ==> front[k] == entries[k] && front[..k] == entries[..k];
      var log := Built(sha, lower, front);
      var log' := Built(sha, lower, entries);
      if Verifies(sha, log') {
        PrefixVerifies(sha, log', n);
        assert log'[..n] == log;
      }
      if Verifies(sha, log) { AppendVerifiesExactlyWhen(sha, lower, log, e); }
    }
  }

  // ---- forbidden keys ----------------------------------------------------------------

  /** No forbidden key at any depth. */
  predicate Clean(lower: string -> string, v: Json) {
    match v
    case Arr(items) => forall i :: 0 <= i < |items| ==> Clean(lower, items[i])
    case Obj(ms) =>
      forall i :: 0 <= i < |ms| ==> lower(ms[i].key) !in FORBIDDEN && Clean(lower, ms[i].value)
    case _ => true
  }

  /** Every member either goes, because its own key is forbidden, or holds no forbidden key. */
  predicate CleanOnceScrubbed(lower: string -> string, payload: seq<Member>) {
    forall i :: 0 <= i < |payload| ==>
                  lower(payload[i].key) in FORBIDDEN || Clean(lower, payload[i].value)
  }

  /** Scrubbing looks at the top level only, so it leaves no forbidden key at any depth if and
      only if every member it keeps holds none. */
  lemma ScrubCleansExactlyWhen(lower: string -> string, payload: seq<Member>)
    ensures Clean(lower, Obj(Scrub(lower, payload))) <==> CleanOnceScrubbed(lower, payload)
  {
    hide Scrub;
    var kept := Scrub(lower, payload);
    if CleanOnceScrubbed(lower, payload) {
      forall i | 0 <= i < |kept| ensures lower(kept[i].key) !in FORBIDDEN && Clean(lower, kept[i].value) {
        assert kept[i] in kept;
        var j :| 0 <= j < |payload| && payload[j] == kept[i];
      }
    }
    if Clean(lower, Obj(kept)) {
      forall i | 0 <= i < |payload| && lower(payload[i].key) !in FORBIDDEN
        ensures Clean(lower, payload[i].value)
      {
        assert payload[i] in kept;
        var j :| 0 <= j < |kept| && kept[j] == payload[i];
      }
    }
  }

  /** The same for every event of a log that `append` wrote: the log holds no forbidden key
      anywhere if and only if no caller passed one below the top level of a kept member. */
  lemma {:induction false} BuiltIsCleanExactlyWhen(sha: string -> string, lower: string -> string,
                                                   entries: seq<Entry>)
    ensures (forall k :: 0 <= k < |Built(sha, lower, entries)| ==>
                           Clean(lower, Obj(Built(sha, lower, entries)[k].payload)))
       <==> (forall k :: 0 <= k < |entries| ==>
                           CleanOnceScrubbed(lower, entries[k].payload.GetOr([])))
  {
    hide Clean, CleanOnceScrubbed, Scrub, AppendInput;
    BuiltLength(sha, lower, entries);
    if entries != [] {
      var n := |entries| - 1;
      BuiltIsCleanExactlyWhen(sha, lower, entries[..n]);
      BuiltLength(sha, lower, entries[..n]);
      ScrubCleansExactlyWhen(lower, entries[n].payload.GetOr([]));
      var log, log' := Built(sha, lower, entries[..n]), Built(sha, lower, entries);
      assert log' == log + [log'[n]] && log'[n].payload == Scrub(lower, entries[n].payload.GetOr([]));
      assert forall k :: 0 <= k < n ==> log'[k] == log[k] && entries[..n][k] == entries[k];
    }
  }

  /** A payload that scrubbing does not clean. */
  lemma ScrubIsShallow(lower: string -> string, secret: string)
    requires lower("request") == "request" && lower("password") == "password"
    ensures (var payload := [Member("request", Obj([Member("password", Str(secret))]))];
             Scrub(lower, payload) == payload && !Clean(lower, Obj(payload)))
  {
    var inner := Obj([Member("password", Str(secret))]);
    var payload := [Member("request", inner)];
    assert payload[1..] == [];
    assert !Clean(lower, inner) by { assert lower(inner.members[0].key) in FORBIDDEN; }
    assert !Clean(lower, Obj(payload)) by { assert !Clean(lower, payload[0].value); }
  }
}
