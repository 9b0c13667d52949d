/** The canonical form of audit events: json.dumps with sorted keys, compact separators and
non-ASCII text kept (backend/app/services/audit_service.py). Strings are escaped as in
section 7 of RFC 8259. */
module CanonicalJson {
  import opened Decimal

  /** A JSON value as Python holds it: the members of a dict are in insertion order. */
  datatype Json =
    | Null
    | Bool(b: bool)
    | Num(n: int)
    | Str(s: string)
    | Arr(items: seq<Json>)
    | Obj(members: seq<Member>)

  datatype Member = Member(key: string, value: Json)

  /** What the value means: a dict is a finite map. */
  datatype Meaning =
    | MNull
    | MBool(b: bool)
    | MNum(n: int)
    | MStr(s: string)
    | MArr(items: seq<Meaning>)
    | MObj(members: map<string, Meaning>)

  function Keys(ms: seq<Member>): set<string> {
    if ms == [] then {} else {ms[0].key} + Keys(ms[1..])
  }

  predicate DistinctKeys(ms: seq<Member>) {
    ms == [] || (ms[0].key !in Keys(ms[1..]) && DistinctKeys(ms[1..]))
  }

  /** A Python dict never holds a key twice. */
  predicate IsDict(v: Json) {
    match v
    case Arr(items) => forall i :: 0 <= i < |items| ==> IsDict(items[i])
    case Obj(ms) => DistinctKeys(ms) && forall i :: 0 <= i < |ms| ==> IsDict(ms[i].value)
    case _ => true
  }

  function Denote(v: Json): Meaning {
    match v
    case Null => MNull
    case Bool(b) => MBool(b)
    case Num(n) => MNum(n)
    case Str(s) => MStr(s)
    case Arr(items) => MArr(DenoteItems(items))
    case Obj(ms) => MObj(DenoteMembers(ms))
  }

  function DenoteItems(items: seq<Json>): (r: seq<Meaning>)
    ensures |r| == |items|
    ensures forall i :: 0 <= i < |items| ==> r[i] == Denote(items[i])
  {
    if items == [] then [] else [Denote(items[0])] + DenoteItems(items[1..])
  }

  function DenoteMembers(ms: seq<Member>): (r: map<string, Meaning>)
    ensures r.Keys == Keys(ms)
  {
    if ms == [] then map[]
    else DenoteMembers(ms[1..])[ms[0].key := Denote(ms[0].value)]
  }

  // ---- strings ------------------------------------------------------------------

  function HexDigit(d: nat): char
    requires d < 16
  {
    if d < 10 then '0' + d as char else 'a' + (d - 10) as char
  }

  /** Quotation mark, reverse solidus and the controls below U+0020 are escaped. */
  function EscapeChar(c: char): (e: string)
    ensures e != "" && e[0] != '"'
  {
    if c == '"' then "\\\""
    else if c == '\\' then "\\\\"
    else if c == '\n' then "\\n"
    else if c == '\r' then "\\r"
    else if c == '\t' then "\\t"
    else if c as int == 8 then "\\b"
    else if c as int == 12 then "\\f"
    else if c as int < 32 then "\\u00" + [HexDigit(c as int / 16), HexDigit(c as int % 16)]
    else [c]
  }

  // ---- printing, in member order ---------------------------------------------------
  // Every printer takes the text that follows.

  /** The rest of a string literal, with its closing quotation mark. */
  function Escape(s: string, rest: string): string {
    if s == "" then "\"" + rest else EscapeChar(s[0]) + Escape(s[1..], rest)
  }

  function Quote(s: string, rest: string): string { "\"" + Escape(s, rest) }

  function IntText(n: int): (s: string)
    ensures s != "" && (s[0] == '-' || IsDigit(s[0]))
  {
    if n < 0 then "-" + Digits(-n) else Digits(n)
  }

  function Print(v: Json, rest: string): string
    decreases v, 1
  {
    match v
    case Null => "null" + rest
    case Bool(b) => (if b then "true" else "false") + rest
    case Num(n) => IntText(n) + rest
    case Str(s) => Quote(s, rest)
    case Arr(items) =>
      "[" + if items == [] then "]" + rest else Print(items[0], PrintItems(items[1..], rest))
    case Obj(ms) =>
      "{" + if ms == [] then "}" + rest else PrintMember(ms[0], PrintMembers(ms[1..], rest))
  }

  function PrintMember(m: Member, rest: string): string
    decreases m
  {
    Quote(m.key, ":" + Print(m.value, rest))
  }

  function PrintItems(items: seq<Json>, rest: string): string
    decreases items
  {
    if items == [] then "]" + rest
    else "," + Print(items[0], PrintItems(items[1..], rest))
  }

  function PrintMembers(ms: seq<Member>, rest: string): string
    decreases ms
  {
    if ms == [] then "}" + rest
    else "," + PrintMember(ms[0], PrintMembers(ms[1..], rest))
  }

  // ---- key order ---------------------------------------------------------------------

  predicate Less(a: string, b: string) {
    if b == "" then false
    else if a == "" then true
    else a[0] < b[0] || (a[0] == b[0] && Less(a[1..], b[1..]))
  }

  function Insert(m: Member, ms: seq<Member>): seq<Member> {
    if ms == [] || Less(m.key, ms[0].key) then [m] + ms
    else [ms[0]] + Insert(m, ms[1..])
  }

  /** sort_keys, at every depth. */
  function Normal(v: Json): Json {
    match v
    case Arr(items) => Arr(NormalItems(items))
    case Obj(ms) => Obj(NormalMembers(ms))
    case _ => v
  }

  function NormalItems(items: seq<Json>): (r: seq<Json>)
    ensures |r| == |items|
    ensures forall i :: 0 <= i < |items| ==> r[i] == Normal(items[i])
  {
    if items == [] then [] else [Normal(items[0])] + NormalItems(items[1..])
  }

  function NormalMembers(ms: seq<Member>): seq<Member> {
    if ms == [] then []
    else Insert(Member(ms[0].key, Normal(ms[0].value)), NormalMembers(ms[1..]))
  }

  /** json.dumps(v, sort_keys=True, separators=(",", ":"), ensure_ascii=False). */
  function Encode(v: Json): string { Print(Normal(v), "") }
}
