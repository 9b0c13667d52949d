/** What a log written by `append` holds: event by event what the callers passed, in the row and in
the text that is hashed. */
module AuditContents {
  import opened Base
  import opened CanonicalJson
  import opened CanonicalJsonFacts
  import opened Text
  import opened AuditChain

  // ---- the payload -----------------------------------------------------------------------------

  predicate Allowed(lower: string -> string, m: Member) {
    lower(m.key) !in {"csrf_token", "password", "password_hash", "secret", "session", "session_token"}
  }

  /** The members that are kept are those with allowed keys, in the order in which they came: the
      one at i was at at[i]. */
  predicate KeptInOrder(lower: string -> string, payload: seq<Member>, kept: seq<Member>, at: seq<nat>) {
    && |at| == |kept|
    && (forall i :: 0 <= i < |at| ==> at[i] < |payload| && kept[i] == payload[at[i]])
    && (forall i, j :: 0 <= i < j < |at| ==> at[i] < at[j])
    && forall k: nat :: k < |payload| ==> (k in at <==> Allowed(lower, payload[k]))
  }

  lemma {:induction false} ScrubKeepsOrder(lower: string -> string, payload: seq<Member>) returns (at: seq<nat>)
    ensures KeptInOrder(lower, payload, Scrub(lower, payload), at)
  {
    if payload == [] {
      at := [];
    } else {
      assert Allowed(lower, payload[0]) <==> lower(payload[0].key) !in FORBIDDEN;
      var later := ScrubKeepsOrder(lower, payload[1..]);
      var moved := seq(|later|, i requires 0 <= i < |later| => later[i] + 1);
      var kept := Scrub(lower, payload[1..]);
      StillKept(lower, payload, kept, later, moved);
      hide KeptInOrder;
      if Allowed(lower, payload[0]) {
        at := [0] + moved;
        OneInFront(lower, payload, kept, moved);
      } else {
        at := moved;
        NoneInFront(lower, payload, kept, moved);
      }
    }
  }

  /** The part of KeptInOrder that is about all members but the first. */
  predicate KeptAfterFirst(lower: string -> string, payload: seq<Member>, kept: seq<Member>, at: seq<nat>) {
    && |at| == |kept|
    && (forall i :: 0 <= i < |at| ==> 0 < at[i] < |payload| && kept[i] == payload[at[i]])
    && (forall i, j :: 0 <= i < j < |at| ==> at[i] < at[j])
    && forall k: nat :: 0 < k < |payload| ==> (k in at <==> Allowed(lower, payload[k]))
  }

  lemma StillKept(lower: string -> string, payload: seq<Member>, kept: seq<Member>, later: seq<nat>, moved: seq<nat>)
    requires payload != [] && KeptInOrder(lower, payload[1..], kept, later)
    requires |moved| == |later| && forall i :: 0 <= i < |later| ==> moved[i] == later[i] + 1
    ensures KeptAfterFirst(lower, payload, kept, moved)
  {
    hide Allowed;
    forall i | 0 <= i < |moved| ensures 0 < moved[i] < |payload| && kept[i] == payload[moved[i]] {
      assert payload[1..][later[i]] == payload[later[i] + 1];
    }
    forall k: nat | 0 < k < |payload| ensures k in moved <==> Allowed(lower, payload[k]) {
      MovedByOne(later, moved, k);
      assert payload[1..][k - 1] == payload[k];
    }
  }

  lemma NoneInFront(lower: string -> string, payload: seq<Member>, kept: seq<Member>, at: seq<nat>)
    requires payload != [] && !Allowed(lower, payload[0]) && KeptAfterFirst(lower, payload, kept, at)
    ensures KeptInOrder(lower, payload, kept, at)
  {
    hide Allowed;
  }

  lemma OneInFront(lower: string -> string, payload: seq<Member>, kept: seq<Member>, at: seq<nat>)
    requires payload != [] && Allowed(lower, payload[0]) && KeptAfterFirst(lower, payload, kept, at)
    ensures KeptInOrder(lower, payload, [payload[0]] + kept, [0] + at)
  {
    hide Allowed;
    var all, more := [0] + at, [payload[0]] + kept;
    forall i | 0 <= i < |all| ensures all[i] < |payload| && more[i] == payload[all[i]] {
      if i > 0 { assert all[i] == at[i - 1] && more[i] == kept[i - 1]; }
    }
    forall i, j | 0 <= i < j < |all| ensures all[i] < all[j] {
      assert all[j] == at[j - 1];
      if i > 0 { assert all[i] == at[i - 1]; }
    }
    forall k: nat | k < |payload| ensures k in all <==> Allowed(lower, payload[k]) {
      assert k in all <==> k == 0 || k in at;
    }
  }

  // ---- the row -----------------------------------------------------------------------------------

  /** Event k of a log holds what entry k says. */
  ghost predicate Holds(sha: string -> string, lower: string -> string, log: seq<Event>, k: nat, entry: Entry)
    requires k < |log|
  {
    var e := log[k];
    && e.number == k + 1
    && e.ts == entry.ts && e.actor == entry.actor && e.action == entry.action && e.objectType == entry.objectType
    && e.objectId == (if entry.objectId.Some? then entry.objectId.value else "")
    && (exists at: seq<nat> :: KeptInOrder(lower, entry.payload.GetOr([]), e.payload, at))
    && e.prevHash == (if k == 0 then GENESIS_HASH else log[k - 1].currHash)
  }

  lemma {:induction false} BuiltPrefix(sha: string -> string, lower: string -> string, entries: seq<Entry>, k: nat)
    requires k <= |entries|
    ensures |Built(sha, lower, entries)| == |entries|
    ensures Built(sha, lower, entries[..k]) == Built(sha, lower, entries)[..k]
    decreases |entries|
  {
    hide Stored;
    var n := |entries| - 1;
    BuiltLength(sha, lower, entries);
    if k == |entries| {
      assert entries[..k] == entries;
    } else {
      BuiltPrefix(sha, lower, entries[..n], k);
      assert entries[..n][..k] == entries[..k];
    }
  }

  /** Event k is what is stored after the k events before it. */
  lemma BuiltAt(sha: string -> string, lower: string -> string, entries: seq<Entry>, k: nat)
    requires k < |entries|
    ensures |Built(sha, lower, entries)| == |entries|
    ensures Built(sha, lower, entries)[k] == Stored(sha, lower, Built(sha, lower, entries)[..k], entries[k])
  {
    hide Stored;
    BuiltPrefix(sha, lower, entries, k);
    BuiltPrefix(sha, lower, entries, k + 1);
    var log, front := Built(sha, lower, entries), entries[..k + 1];
    assert front[..k] == entries[..k] && front[k] == entries[k];
    BuiltLength(sha, lower, front[..k]);
    assert log[k] == log[..k + 1][k] == Built(sha, lower, front)[k];
  }

  /** A log written by `append` alone: as many events as entries, and each holds its entry. */
  lemma BuiltHolds(sha: string -> string, lower: string -> string, entries: seq<Entry>, k: nat)
    requires k < |entries|
    ensures |Built(sha, lower, entries)| == |entries|
    ensures Holds(sha, lower, Built(sha, lower, entries), k, entries[k])
  {
    hide Stored, Holds, Built;
    BuiltAt(sha, lower, entries, k);
    if k > 0 { NumberedFrom(sha, lower, entries, k - 1); }
    StoredHolds(sha, lower, Built(sha, lower, entries), k, entries[k]);
  }

  lemma {:induction false} NumberedFrom(sha: string -> string, lower: string -> string, entries: seq<Entry>, k: nat)
    requires k < |entries|
    ensures |Built(sha, lower, entries)| == |entries| && Built(sha, lower, entries)[k].number == k + 1
  {
    hide Built, AppendInput, Scrub;
    BuiltAt(sha, lower, entries, k);
    if k > 0 { NumberedFrom(sha, lower, entries, k - 1); }
  }

  lemma StoredHolds(sha: string -> string, lower: string -> string, log: seq<Event>, k: nat, entry: Entry)
    requires k < |log| && log[k] == Stored(sha, lower, log[..k], entry) && (k > 0 ==> log[k - 1].number == k)
    ensures Holds(sha, lower, log, k, entry)
  {
    hide Scrub, AppendInput, KeptInOrder;
    var at := ScrubKeepsOrder(lower, entry.payload.GetOr([]));
  }

  // ---- the hashed text ---------------------------------------------------------------------------

  /** The dict that a reader of the hashed text finds. */
  ghost predicate Tells(found: map<string, Meaning>, number: int, entry: Entry, payload: seq<Member>,
                        prevHash: string)
  {
    && found.Keys == {"seq", "ts", "actor", "action", "object_type", "object_id", "payload", "prev_hash"}
    && found["seq"] == MNum(number)
    && found["ts"] == MStr(entry.ts)
    && found["actor"] == MStr(entry.actor)
    && found["action"] == MStr(entry.action)
    && found["object_type"] == MStr(entry.objectType)
    && found["object_id"] == (if entry.objectId.Some? then MStr(entry.objectId.value) else MNull)
    && found["payload"] == Denote(Obj(payload))
    && found["prev_hash"] == MStr(prevHash)
  }

  /** The digest of event k is taken over the digest before it and a text; whoever reads a dict out
      of that text, by whatever parser, finds the number, the entry as the caller passed it (a
      missing object id as null), the kept payload and the digest before. */
  lemma DigestTellsTheEntry(sha: string -> string, lower: string -> string, entries: seq<Entry>, k: nat)
    returns (text: string)
    requires k < |entries| && IsDict(Obj(entries[k].payload.GetOr([])))
    ensures |Built(sha, lower, entries)| == |entries|
    ensures (var e := Built(sha, lower, entries)[k];
             && e.currHash == sha(e.prevHash + text)
             && forall v: Json :: IsDict(v) && Encode(v) == text ==>
                  v.Obj? && Tells(DenoteMembers(v.members), k + 1, entries[k], e.payload, e.prevHash))
  {
    hide Encode, Body, IsDict, Denote, DenoteMembers, Scrub, Tells, Built;
    var body := EventBody(sha, lower, entries, k);
    var e, entry := Built(sha, lower, entries)[k], entries[k];
    text := Encode(Obj(body));
    ScrubbedIsDict(lower, entry.payload.GetOr([]));
    BodyTells(k + 1, entry, e.payload, e.prevHash);
    forall v: Json | IsDict(v) && Encode(v) == text
      ensures v.Obj? && Tells(DenoteMembers(v.members), k + 1, entry, e.payload, e.prevHash)
    {
      EncodingIsCanonical(v, Obj(body));
      SameMembersFound(v, body);
    }
  }

  lemma SameMembersFound(v: Json, body: seq<Member>)
    requires Denote(v) == Denote(Obj(body))
    ensures v.Obj? && DenoteMembers(v.members) == DenoteMembers(body)
  {
  }

  lemma EventBody(sha: string -> string, lower: string -> string, entries: seq<Entry>, k: nat)
    returns (body: seq<Member>)
    requires k < |entries|
    ensures |Built(sha, lower, entries)| == |entries|
    ensures (var e, entry := Built(sha, lower, entries)[k], entries[k];
             && body == Body(k + 1, entry.ts, entry.actor, entry.action, entry.objectType,
                             HashedId(entry.objectId), e.payload, e.prevHash)
             && e.payload == Scrub(lower, entry.payload.GetOr([]))
             && e.currHash == sha(e.prevHash + Encode(Obj(body))))
  {
    BuiltAt(sha, lower, entries, k);
    BuiltHolds(sha, lower, entries, k);
    hide Scrub, Body, Encode, KeptInOrder, Built;
    var e, entry := Built(sha, lower, entries)[k], entries[k];
    body := Body(k + 1, entry.ts, entry.actor, entry.action, entry.objectType, HashedId(entry.objectId),
                 e.payload, e.prevHash);
  }

  lemma {:induction false} ScrubbedIsDict(lower: string -> string, payload: seq<Member>)
    requires IsDict(Obj(payload))
    ensures IsDict(Obj(Scrub(lower, payload))) && Keys(Scrub(lower, payload)) <= Keys(payload)
  {
    if payload != [] {
      assert payload[0] in payload;
      ScrubbedIsDict(lower, payload[1..]);
    }
  }

  lemma BodyTells(number: int, entry: Entry, payload: seq<Member>, prevHash: string)
    requires IsDict(Obj(payload))
    ensures (var body := Body(number, entry.ts, entry.actor, entry.action, entry.objectType,
                              HashedId(entry.objectId), payload, prevHash);
             IsDict(Obj(body)) && Tells(DenoteMembers(body), number, entry, payload, prevHash))
  {
    var id := HashedId(entry.objectId);
    var body := Body(number, entry.ts, entry.actor, entry.action, entry.objectType, id, payload, prevHash);
    BodyIsDict(number, entry.ts, entry.actor, entry.action, entry.objectType, id, payload, prevHash);
    assert DistinctKeys(body);
    BodyKeys(body);
    BodyFields(body);
    hide DenoteMembers, Keys, DistinctKeys, IsDict;
  }

  lemma BodyFields(body: seq<Member>)
    requires |body| == 8 && DistinctKeys(body)
    ensures forall i :: 0 <= i < 8 ==>
                          body[i].key in DenoteMembers(body)
                          && DenoteMembers(body)[body[i].key] == Denote(body[i].value)
  {
    hide DistinctKeys, Denote, DenoteMembers;
    forall i | 0 <= i < 8
      ensures body[i].key in DenoteMembers(body) && DenoteMembers(body)[body[i].key] == Denote(body[i].value)
    {
      Lookup(body, body[i]);
    }
  }

  lemma BodyKeys(body: seq<Member>)
    requires |body| == 8
    ensures Keys(body) == {body[0].key, body[1].key, body[2].key, body[3].key, body[4].key, body[5].key,
                           body[6].key, body[7].key}
  {
    KeysAre(body);
    forall k | k in Keys(body) ensures k in {body[0].key, body[1].key, body[2].key, body[3].key, body[4].key,
                                             body[5].key, body[6].key, body[7].key}
    {
      var i :| 0 <= i < |body| && body[i].key == k;
    }
  }

  lemma {:induction false} KeysAre(ms: seq<Member>)
    ensures forall k :: k in Keys(ms) <==> exists i :: 0 <= i < |ms| && ms[i].key == k
  {
    if ms != [] {
      KeysAre(ms[1..]);
      forall k ensures k in Keys(ms) <==> exists i :: 0 <= i < |ms| && ms[i].key == k {
        if k in Keys(ms[1..]) {
          var i :| 0 <= i < |ms| - 1 && ms[1..][i].key == k;
          assert ms[i + 1].key == k;
        }
        if i :| 0 <= i < |ms| && ms[i].key == k {
          if i > 0 { assert ms[1..][i - 1].key == k; }
        }
      }
    }
  }
}
