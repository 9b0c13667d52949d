/** The ordered event stream of an attempt (backend/app/services/stream.py). One table holds
the events of every attempt. */
module Streams {
  import opened Base
  import opened Sanitizer

  datatype Kind = Status | Output | Evidence | Gap

  datatype StreamEvent = StreamEvent(attempt: nat, number: nat, kind: Kind, payload: string)

  /** What a producer asks to have appended. */
  datatype Write =
    | WriteStatus(state: string)
    | WriteEvidence(summary: string)
    | WriteOutput(text: string)
    | WriteGap(reason: string)

  const TRANSCRIPT_LIMIT := 1048576
  const MAX_PAYLOAD := 8192
  const TRUNCATED := "transcript limit reached \U{2014} subsequent output truncated"
  const TOO_OLD := "requested cursor is older than retained output"

  // ---- the table ---------------------------------------------------------------------

  /** The rows of one attempt, oldest first. */
  function Of(table: seq<StreamEvent>, attempt: nat): (log: seq<StreamEvent>)
    ensures forall i :: 0 <= i < |log| ==> log[i] in table && log[i].attempt == attempt
  {
    if table == [] then []
    else
      var last := table[|table| - 1];
      Of(table[..|table| - 1], attempt) + (if last.attempt == attempt then [last] else [])
  }

  /** max(seq), or 0 when there is no row. */
  function Highest(log: seq<StreamEvent>): (n: nat)
    ensures forall i :: 0 <= i < |log| ==> log[i].number <= n
  {
    if log == [] then 0 else Max(log[|log| - 1].number, Highest(log[..|log| - 1]))
  }

  function Lowest(log: seq<StreamEvent>): nat
    requires log != []
  {
    if |log| == 1 then log[0].number else Min(log[|log| - 1].number, Lowest(log[..|log| - 1]))
  }

  function OutputChars(log: seq<StreamEvent>): nat {
    if log == [] then 0
    else
      var last := log[|log| - 1];
      OutputChars(log[..|log| - 1]) + if last.kind.Output? then |last.payload| else 0
  }

  /** The event an append adds to an attempt's log. */
  function EventFor(log: seq<StreamEvent>, attempt: nat, w: Write): (e: StreamEvent)
    ensures e.attempt == attempt && e.number > Highest(log)
  {
    var number := Highest(log) + 1;
    match w
    case WriteStatus(state) => StreamEvent(attempt, number, Status, Take(state, 64))
    case WriteEvidence(summary) =>
      StreamEvent(attempt, number, Evidence, Sanitize(summary, MAX_PAYLOAD))
    case WriteGap(reason) => StreamEvent(attempt, number, Gap, Sanitize(reason, 256))
    case WriteOutput(text) =>
      var clean := Sanitize(text, MAX_PAYLOAD);
      if OutputChars(log) + |clean| > TRANSCRIPT_LIMIT
      then StreamEvent(attempt, number, Gap, TRUNCATED)
      else StreamEvent(attempt, number, Output, clean)
  }

  function Append(table: seq<StreamEvent>, attempt: nat, w: Write): seq<StreamEvent> {
    table + [EventFor(Of(table, attempt), attempt, w)]
  }

  // ---- what every append keeps -------------------------------------------------------

  predicate Numbered(log: seq<StreamEvent>) {
    forall i :: 0 <= i < |log| ==> log[i].number == i + 1
  }

  predicate Clean(text: string) {
    forall i :: 0 <= i < |text| ==> !IsControl(text[i]) && text[i] !in {'<', '>', '"', '\''}
  }

  /** Text that comes from a target is clean; a status token and the notice are our own. */
  predicate PayloadOk(e: StreamEvent) {
    e.kind.Status? || (e.kind.Gap? && e.payload == TRUNCATED) || Clean(e.payload)
  }

  predicate LogOk(log: seq<StreamEvent>) {
    && Numbered(log)
    && OutputChars(log) <= TRANSCRIPT_LIMIT
    && forall i :: 0 <= i < |log| ==> PayloadOk(log[i])
  }

  ghost predicate Healthy(table: seq<StreamEvent>) {
    forall attempt: nat :: LogOk(Of(table, attempt))
  }

  lemma OfAppended(table: seq<StreamEvent>, e: StreamEvent, attempt: nat)
    ensures Of(table + [e], attempt)
         == Of(table, attempt) + (if e.attempt == attempt then [e] else [])
  {
    assert (table + [e])[..|table|] == table;
  }

  lemma {:induction false} HighestOfNumbered(log: seq<StreamEvent>)
    requires Numbered(log)
    ensures Highest(log) == |log|
  {
    if log != [] { HighestOfNumbered(log[..|log| - 1]); }
  }

  lemma EventForIsOk(log: seq<StreamEvent>, attempt: nat, w: Write)
    requires LogOk(log)
    ensures LogOk(log + [EventFor(log, attempt, w)])
  {
    hide Sanitize, Highest;
    HighestOfNumbered(log);
    var e := EventFor(log, attempt, w);
    assert (log + [e])[..|log|] == log;
    EventForIsClean(log, attempt, w);
    assert OutputChars(log + [e]) <= TRANSCRIPT_LIMIT;
    hide PayloadOk;
    assert forall i :: 0 <= i < |log| ==> (log + [e])[i] == log[i];
  }

  lemma EventForIsClean(log: seq<StreamEvent>, attempt: nat, w: Write)
    ensures PayloadOk(EventFor(log, attempt, w))
  {
    hide Sanitize, OutputChars, Highest;
    match w
    case WriteStatus(_) =>
    case WriteEvidence(summary) => SanitizedIsClean(summary, MAX_PAYLOAD);
    case WriteGap(reason) => SanitizedIsClean(reason, 256);
    case WriteOutput(text) => SanitizedIsClean(text, MAX_PAYLOAD);
  }

  /** Whatever is appended to whichever attempt, each log stays numbered 1, 2, 3, ..., its
      OUTPUT text within the limit and its text clean; the other attempts see nothing. */
  lemma AppendHealthy(table: seq<StreamEvent>, attempt: nat, w: Write)
    requires Healthy(table)
    ensures Healthy(Append(table, attempt, w))
    ensures Of(Append(table, attempt, w), attempt)
         == Of(table, attempt) + [EventFor(Of(table, attempt), attempt, w)]
    ensures forall other: nat :: other != attempt ==>
                                   Of(Append(table, attempt, w), other) == Of(table, other)
  {
    hide Sanitize, OutputChars, Clean, LogOk, EventFor, Of;
    var e := EventFor(Of(table, attempt), attempt, w);
    forall any: nat
      ensures Of(table + [e], any) == Of(table, any) + (if any == attempt then [e] else [])
      ensures LogOk(Of(table + [e], any))
    {
      OfAppended(table, e, any);
      assert LogOk(Of(table, any));
      if any == attempt {
        EventForIsOk(Of(table, any), attempt, w);
      } else {
        assert Of(table + [e], any) == Of(table, any);
      }
    }
  }

  /** Output is refused only when it does not fit, and a refusal shows up as a GAP. */
  lemma OutputFitsExactlyWhen(log: seq<StreamEvent>, attempt: nat, text: string)
    ensures (var e := EventFor(log, attempt, WriteOutput(text));
             && (e.kind.Output? <==>
                 OutputChars(log) + |Sanitize(text, MAX_PAYLOAD)| <= TRANSCRIPT_LIMIT)
             && (e.kind.Output? || e.kind.Gap?)
             && OutputChars(log + [e])
                == OutputChars(log) + if e.kind.Output? then |Sanitize(text, MAX_PAYLOAD)| else 0)
  {
    var e := EventFor(log, attempt, WriteOutput(text));
    assert (log + [e])[..|log|] == log;
  }

  // ---- replay --------------------------------------------------------------------------

  function Newer(log: seq<StreamEvent>, after: int): seq<StreamEvent> {
    if log == [] then []
    else
      var last := log[|log| - 1];
      Newer(log[..|log| - 1], after) + (if last.number > after then [last] else [])
  }

  function InsertByNumber(log: seq<StreamEvent>, e: StreamEvent): seq<StreamEvent> {
    if log == [] || log[|log| - 1].number <= e.number then log + [e]
    else InsertByNumber(log[..|log| - 1], e) + [log[|log| - 1]]
  }

  /** ORDER BY seq. */
  function ByNumber(log: seq<StreamEvent>): seq<StreamEvent> {
    if log == [] then [] else InsertByNumber(ByNumber(log[..|log| - 1]), log[|log| - 1])
  }

  /** `events_after`, as one expression. */
  function Replay(table: seq<StreamEvent>, attempt: nat, after: int): seq<StreamEvent> {
    var log := Of(table, attempt);
    var rows := ByNumber(Newer(log, after));
    (if after > 0 && rows != [] && log != [] && after + 1 < Lowest(log)
     then [StreamEvent(attempt, after, Gap, TOO_OLD)] else []) + rows
  }

  function Clamp(cursor: int, n: nat): (k: nat)
    ensures k <= n
  {
    if cursor < 0 then 0 else if cursor > n then n else cursor
  }

  lemma DropThenAppend(init: seq<StreamEvent>, last: StreamEvent, k: nat)
    requires k <= |init|
    ensures init[k..] + [last] == (init + [last])[k..]
  {
  }

  lemma {:induction false} NewerOfNumbered(log: seq<StreamEvent>, after: int)
    requires Numbered(log)
    ensures Newer(log, after) == log[Clamp(after, |log|)..]
  {
    if log != [] {
      var init, last := log[..|log| - 1], log[|log| - 1];
      assert log == init + [last] && last.number == |log|;
      assert Numbered(init);
      NewerOfNumbered(init, after);
      hide Numbered;
      var k := Clamp(after, |init|);
      DropThenAppend(init, last, k);
      if after < |log| {
        assert Clamp(after, |log|) == k;
      } else {
        assert init[k..] == [] == log[|log|..];
      }
    }
  }

  lemma {:induction false} AlreadyByNumber(log: seq<StreamEvent>)
    requires forall i :: 0 < i < |log| ==> log[i - 1].number <= log[i].number
    ensures ByNumber(log) == log
  {
    if log != [] {
      AlreadyByNumber(log[..|log| - 1]);
    }
  }

  lemma {:induction false} LowestOfNumbered(log: seq<StreamEvent>)
    requires Numbered(log) && log != []
    ensures Lowest(log) == 1
  {
    if |log| > 1 { LowestOfNumbered(log[..|log| - 1]); }
  }

  /** On a numbered log a cursor replays exactly the events after it; a negative one replays
      all and one past the end none. */
  lemma ReplayIsTheRest(table: seq<StreamEvent>, attempt: nat, after: int)
    requires Numbered(Of(table, attempt))
    ensures Replay(table, attempt, after)
         == Of(table, attempt)[Clamp(after, |Of(table, attempt)|)..]
  {
    var log := Of(table, attempt);
    NewerOfNumbered(log, after);
    AlreadyByNumber(log[Clamp(after, |log|)..]);
    if log != [] { LowestOfNumbered(log); }
  }

  method EventsAfter(table: seq<StreamEvent>, attempt: nat, after: int)
    returns (out: seq<StreamEvent>)
    ensures out == Replay(table, attempt, after)
    ensures Numbered(Of(table, attempt)) ==>
              out == Of(table, attempt)[Clamp(after, |Of(table, attempt)|)..]
  {
    hide Of, Newer, ByNumber, Lowest;
    var log := Of(table, attempt);
    var rows := ByNumber(Newer(log, after));
    out := [];
    if after > 0 && rows != [] {
      if log != [] && after + 1 < Lowest(log) {
        out := [StreamEvent(attempt, after, Gap, TOO_OLD)];
      }
    }
    ghost var first := out;
    for i := 0 to |rows|
      invariant out == first + rows[..i]
    {
      out := out + [rows[i]];
    }
    if Numbered(log) { ReplayIsTheRest(table, attempt, after); }
  }

  // ---- a client that reconnects ---------------------------------------------------------

  datatype Moment = Wrote(attempt: nat, write: Write) | Polled

  datatype Client = Client(table: seq<StreamEvent>, received: seq<StreamEvent>, cursor: int)

  function Next(attempt: nat, c: Client, m: Moment): Client {
    match m
    case Wrote(a, w) => c.(table := Append(c.table, a, w))
    case Polled =>
      var news := Replay(c.table, attempt, c.cursor);
      c.(received := c.received + news,
         cursor := if news == [] then c.cursor else news[|news| - 1].number)
  }

  /** A client that follows one attempt, from a table that may already hold events. */
  function Follow(attempt: nat, table: seq<StreamEvent>, moments: seq<Moment>): Client {
    if moments == [] then Client(table, [], 0)
    else Next(attempt, Follow(attempt, table, moments[..|moments| - 1]), moments[|moments| - 1])
  }

  /** One poll of a client that is up to date with its cursor catches up completely. */
  lemma PollCatchesUp(attempt: nat, c: Client)
    requires Healthy(c.table) && 0 <= c.cursor <= |Of(c.table, attempt)|
    requires c.received == Of(c.table, attempt)[..c.cursor]
    ensures Next(attempt, c, Polled).received == Of(c.table, attempt)
    ensures Next(attempt, c, Polled).cursor == |Of(c.table, attempt)|
  {
    var log := Of(c.table, attempt);
    assert LogOk(log) && Numbered(log);
    assert |log| > 0 ==> log[|log| - 1].number == |log|;
    hide Of, Replay, LogOk, Healthy, Numbered;
    ReplayIsTheRest(c.table, attempt, c.cursor);
    assert Clamp(c.cursor, |log|) == c.cursor;
    hide Clamp;
    CaughtUp(log, c.cursor, c.received, Replay(c.table, attempt, c.cursor));
  }

  lemma CaughtUp(log: seq<StreamEvent>, k: nat, received: seq<StreamEvent>, news: seq<StreamEvent>)
    requires k <= |log| && received == log[..k] && news == log[k..]
    ensures received + news == log
    ensures if k == |log| then news == [] else news != [] && news[|news| - 1] == log[|log| - 1]
  {
    assert log[..k] + log[k..] == log;
  }

  lemma {:induction false} NothingLostOrRepeated(attempt: nat, table: seq<StreamEvent>, moments: seq<Moment>)
    requires Healthy(table)
    ensures Healthy(Follow(attempt, table, moments).table)
    ensures (var c := Follow(attempt, table, moments);
             && 0 <= c.cursor <= |Of(c.table, attempt)|
             && c.received == Of(c.table, attempt)[..c.cursor])
  {
    hide Of, Replay, Healthy, Append;
    if moments != [] {
      var before := moments[..|moments| - 1];
      NothingLostOrRepeated(attempt, table, before);
      var c := Follow(attempt, table, before);
      var log := Of(c.table, attempt);
      match moments[|moments| - 1]
      case Wrote(a, w) =>
        AppendHealthy(c.table, a, w);
        assert log <= Of(Append(c.table, a, w), attempt);
      case Polled => PollCatchesUp(attempt, c);
    }
  }

  /** However the polls fall between the appends, a client that polls once more at the end has
      received the whole log, each event once and in order. */
  lemma ReconnectsReceiveEverything(attempt: nat, table: seq<StreamEvent>, moments: seq<Moment>)
    requires Healthy(table)
    ensures (var c := Follow(attempt, table, moments + [Polled]);
             c.received == Of(c.table, attempt))
  {
    hide Of, Replay, Healthy;
    NothingLostOrRepeated(attempt, table, moments);
    assert (moments + [Polled])[..|moments|] == moments;
    PollCatchesUp(attempt, Follow(attempt, table, moments));
  }

  // ---- the transcript ---------------------------------------------------------------------

  /** The OUTPUT payloads joined by newlines. */
  function Joined(log: seq<StreamEvent>): string {
    if log == [] then ""
    else
      var init, last := log[..|log| - 1], log[|log| - 1];
      if !last.kind.Output? then Joined(init)
      else if OutputCount(init) == 0 then last.payload
      else Joined(init) + "\n" + last.payload
  }

  function OutputCount(log: seq<StreamEvent>): nat {
    if log == [] then 0
    else OutputCount(log[..|log| - 1]) + if log[|log| - 1].kind.Output? then 1 else 0
  }

  function Transcript(log: seq<StreamEvent>): string { Take(Joined(log), TRANSCRIPT_LIMIT) }

  lemma {:induction false} JoinedLength(log: seq<StreamEvent>)
    ensures |Joined(log)| == OutputChars(log) + Max(OutputCount(log) - 1, 0)
    ensures OutputCount(log) == 0 ==> OutputChars(log) == 0
  {
    if log != [] { JoinedLength(log[..|log| - 1]); }
  }

  /** The newlines between outputs are not part of the bound the appends respect, so the
      transcript loses its end exactly when they push it over. */
  lemma TranscriptIsWholeExactlyWhen(log: seq<StreamEvent>)
    ensures Transcript(log) == Joined(log)
       <==> OutputChars(log) + Max(OutputCount(log) - 1, 0) <= TRANSCRIPT_LIMIT
  {
    JoinedLength(log);
  }

  /** The table after n outputs of the same text to one attempt. */
  function Outputs(attempt: nat, text: string, n: nat): seq<StreamEvent> {
    if n == 0 then [] else Append(Outputs(attempt, text, n - 1), attempt, WriteOutput(text))
  }

  lemma {:induction false} OutputsFit(attempt: nat, text: string, n: nat)
    requires |Sanitize(text, MAX_PAYLOAD)| == MAX_PAYLOAD && n * MAX_PAYLOAD <= TRANSCRIPT_LIMIT
    ensures (var log := Of(Outputs(attempt, text, n), attempt);
             OutputChars(log) == n * MAX_PAYLOAD && OutputCount(log) == n)
  {
    if n > 0 {
      OutputsFit(attempt, text, n - 1);
      var table := Outputs(attempt, text, n - 1);
      hide Sanitize, Highest, Of;
      var log := Of(table, attempt);
      var e := EventFor(log, attempt, WriteOutput(text));
      assert Outputs(attempt, text, n) == table + [e];
      OfAppended(table, e, attempt);
      OutputFitsExactlyWhen(log, attempt, text);
      assert e.kind.Output? && |e.payload| == MAX_PAYLOAD;
      hide *;
      OneMoreOutput(log, e);
    } else {
      assert Of([], attempt) == [];
    }
  }

  lemma OneMoreOutput(log: seq<StreamEvent>, e: StreamEvent)
    requires e.kind.Output?
    ensures OutputChars(log + [e]) == OutputChars(log) + |e.payload|
    ensures OutputCount(log + [e]) == OutputCount(log) + 1
  {
    assert (log + [e])[..|log|] == log;
  }

  /** 128 outputs of the largest size fill the transcript to the last character and are all kept;
      the 127 newlines between them push its end out. */
  lemma FullTranscriptLosesItsEnd(attempt: nat, text: string)
    requires |text| == MAX_PAYLOAD && forall i :: 0 <= i < |text| ==> 'a' <= text[i] <= 'z'
    ensures (var log := Of(Outputs(attempt, text, 128), attempt);
             && OutputCount(log) == 128 && OutputChars(log) == TRANSCRIPT_LIMIT
             && Transcript(log) != Joined(log))
  {
    LettersSurvive(text, MAX_PAYLOAD);
    hide Sanitize, Outputs, Joined, Transcript, OutputChars, OutputCount, Of;
    OutputsFit(attempt, text, 128);
    TranscriptIsWholeExactlyWhen(Of(Outputs(attempt, text, 128), attempt));
  }

  /** What an append adds: the next number of its attempt, the kind of what was written, its text
      cleaned and cut, and for an output past the limit the notice. */
  lemma AppendedEvent(table: seq<StreamEvent>, attempt: nat, w: Write)
    requires Healthy(table)
    ensures (var log := Of(table, attempt);
             Append(table, attempt, w) == table + [match w
               case WriteStatus(state) =>
                 StreamEvent(attempt, |log| + 1, Status, if |state| <= 64 then state else state[..64])
               case WriteEvidence(summary) => StreamEvent(attempt, |log| + 1, Evidence, Sanitize(summary, 8192))
               case WriteGap(reason) => StreamEvent(attempt, |log| + 1, Gap, Sanitize(reason, 256))
               case WriteOutput(text) =>
                 if OutputChars(log) + |Sanitize(text, 8192)| <= 1048576
                 then StreamEvent(attempt, |log| + 1, Output, Sanitize(text, 8192))
                 else StreamEvent(attempt, |log| + 1, Gap, TRUNCATED)])
  {
    assert LogOk(Of(table, attempt));
    HighestOfNumbered(Of(table, attempt));
    hide Sanitize, Of, OutputChars, Highest;
  }
}
