/** The canonical encoding means what it encodes: two dicts have the same encoding exactly
when they denote the same value, whatever the order of their keys. */
module CanonicalJsonFacts {
  import opened Decimal
  import opened CanonicalJson

  // ---- strings can be read back ---------------------------------------------------

  /** Equal texts with equally long beginnings. */
  lemma Strip(p: string, q: string, x: string, y: string)
    requires |p| == |q| && p + x == q + y
    ensures p == q && x == y
  {
    var whole := p + x;
    assert p == whole[..|p|] && q == whole[..|p|];
    assert x == whole[|p|..] && y == whole[|p|..];
  }

  lemma SameStart(p: string, q: string, x: string, y: string)
    requires p != "" && q != "" && p + x == q + y
    ensures p[0] == q[0]
  {
    assert (p + x)[0] == p[0] && (q + y)[0] == q[0];
  }

  lemma EscapeCharSplit(c: char, d: char, x: string, y: string)
    requires EscapeChar(c) + x == EscapeChar(d) + y
    ensures c == d && x == y
  {
    SameStart(EscapeChar(c), EscapeChar(d), x, y);
    if EscapeChar(c)[0] == '\\' {
      assert (EscapeChar(c) + x)[1] == EscapeChar(c)[1] && (EscapeChar(d) + y)[1] == EscapeChar(d)[1];
    }
    assert |EscapeChar(c)| == |EscapeChar(d)|;
    Strip(EscapeChar(c), EscapeChar(d), x, y);
    EscapeCharInjective(c, d);
  }

  lemma EscapeCharInjective(c: char, d: char)
    requires EscapeChar(c) == EscapeChar(d)
    ensures c == d
  {
    if |EscapeChar(c)| == 6 {
      assert EscapeChar(c)[4] == EscapeChar(d)[4] && EscapeChar(c)[5] == EscapeChar(d)[5];
    } else if |EscapeChar(c)| == 2 {
      assert EscapeChar(c)[1] == EscapeChar(d)[1];
    } else {
      assert EscapeChar(c)[0] == EscapeChar(d)[0];
    }
  }

  /** An escaped string ends at the first bare quotation mark. */
  lemma {:induction false} EscapeSplit(s: string, t: string, x: string, y: string)
    requires Escape(s, x) == Escape(t, y)
    ensures s == t && x == y
  {
    if s == "" && t == "" {
      Strip("\"", "\"", x, y);
    } else if s == "" {
      SameStart("\"", EscapeChar(t[0]), x, Escape(t[1..], y));
    } else if t == "" {
      SameStart(EscapeChar(s[0]), "\"", Escape(s[1..], x), y);
    } else {
      EscapeCharSplit(s[0], t[0], Escape(s[1..], x), Escape(t[1..], y));
      EscapeSplit(s[1..], t[1..], x, y);
      assert s == [s[0]] + s[1..] && t == [t[0]] + t[1..];
    }
  }

  lemma QuoteSplit(s: string, t: string, x: string, y: string)
    requires Quote(s, x) == Quote(t, y)
    ensures s == t && x == y
  {
    Strip("\"", "\"", Escape(s, x), Escape(t, y));
    EscapeSplit(s, t, x, y);
  }

  // ---- values can be read back --------------------------------------------------------

  /** What may follow a value inside a larger one, or nothing. */
  predicate Follows(x: string) {
    x == "" || x[0] == ',' || x[0] == ']' || x[0] == '}'
  }

  lemma IntSplit(m: int, n: int, x: string, y: string)
    requires IntText(m) + x == IntText(n) + y && Follows(x) && Follows(y)
    ensures m == n && x == y
  {
    SameStart(IntText(m), IntText(n), x, y);
    if m < 0 {
      Regroup("-", Digits(-m), x);
      Regroup("-", Digits(-n), y);
      Strip("-", "-", Digits(-m) + x, Digits(-n) + y);
      DigitsSplit(Digits(-m), Digits(-n), x, y);
      ValueOfDigits(-m);
      ValueOfDigits(-n);
    } else {
      DigitsSplit(Digits(m), Digits(n), x, y);
      ValueOfDigits(m);
      ValueOfDigits(n);
    }
  }

  lemma Regroup(a: string, b: string, c: string)
    ensures a + b + c == a + (b + c)
  {}

  /** The first character tells the kind of a value. */
  function KindOf(c: char): int {
    if c == 'n' then 0
    else if c == 't' || c == 'f' then 1
    else if c == '-' || IsDigit(c) then 2
    else if c == '"' then 3
    else if c == '[' then 4
    else if c == '{' then 5
    else 6
  }

  function Kind(v: Json): int {
    match v
    case Null => 0
    case Bool(_) => 1
    case Num(_) => 2
    case Str(_) => 3
    case Arr(_) => 4
    case Obj(_) => 5
  }

  lemma FirstCharacter(v: Json, x: string)
    ensures Print(v, x) != "" && KindOf(Print(v, x)[0]) == Kind(v)
  {
    if v.Num? { assert (IntText(v.n) + x)[0] == IntText(v.n)[0]; }
  }

  lemma {:induction false} PrintSplit(a: Json, b: Json, x: string, y: string)
    requires Print(a, x) == Print(b, y) && Follows(x) && Follows(y)
    ensures a == b && x == y
    decreases a, 1
  {
    FirstCharacter(a, x);
    FirstCharacter(b, y);
    match a
    case Null => Strip("null", "null", x, y);
    case Bool(p) => BoolSplit(p, b.b, x, y);
    case Num(n) => IntSplit(n, b.n, x, y);
    case Str(s) => QuoteSplit(s, b.s, x, y);
    case Arr(items) => ArraySplit(items, b.items, x, y);
    case Obj(ms) => ObjectSplit(ms, b.members, x, y);
  }

  lemma BoolSplit(p: bool, q: bool, x: string, y: string)
    requires Print(Bool(p), x) == Print(Bool(q), y)
    ensures p == q && x == y
  {
    SameStart(if p then "true" else "false", if q then "true" else "false", x, y);
    Strip(if p then "true" else "false", if q then "true" else "false", x, y);
  }

  lemma {:induction false} ArraySplit(a: seq<Json>, b: seq<Json>, x: string, y: string)
    requires Print(Arr(a), x) == Print(Arr(b), y) && Follows(x) && Follows(y)
    ensures a == b && x == y
    decreases a, 1
  {
    var left := if a == [] then "]" + x else Print(a[0], PrintItems(a[1..], x));
    var right := if b == [] then "]" + y else Print(b[0], PrintItems(b[1..], y));
    Strip("[", "[", left, right);
    if a != [] { FirstCharacter(a[0], PrintItems(a[1..], x)); }
    if b != [] { FirstCharacter(b[0], PrintItems(b[1..], y)); }
    assert a == [] ==> left[0] == ']';
    assert b == [] ==> right[0] == ']';
    if a == [] {
      Strip("]", "]", x, y);
    } else {
      PrintSplit(a[0], b[0], PrintItems(a[1..], x), PrintItems(b[1..], y));
      ItemsSplit(a[1..], b[1..], x, y);
      assert a == [a[0]] + a[1..] && b == [b[0]] + b[1..];
    }
  }

  lemma {:induction false} ItemsSplit(a: seq<Json>, b: seq<Json>, x: string, y: string)
    requires PrintItems(a, x) == PrintItems(b, y) && Follows(x) && Follows(y)
    ensures a == b && x == y
    decreases a, 0
  {
    assert PrintItems(a, x)[0] == if a == [] then ']' else ',';
    assert PrintItems(b, y)[0] == if b == [] then ']' else ',';
    if a == [] {
      Strip("]", "]", x, y);
    } else {
      Strip(",", ",", Print(a[0], PrintItems(a[1..], x)), Print(b[0], PrintItems(b[1..], y)));
      PrintSplit(a[0], b[0], PrintItems(a[1..], x), PrintItems(b[1..], y));
      ItemsSplit(a[1..], b[1..], x, y);
      assert a == [a[0]] + a[1..] && b == [b[0]] + b[1..];
    }
  }

  lemma {:induction false} MemberSplit(a: Member, b: Member, x: string, y: string)
    requires PrintMember(a, x) == PrintMember(b, y) && Follows(x) && Follows(y)
    ensures a == b && x == y
    decreases a, 0
  {
    QuoteSplit(a.key, b.key, ":" + Print(a.value, x), ":" + Print(b.value, y));
    Strip(":", ":", Print(a.value, x), Print(b.value, y));
    PrintSplit(a.value, b.value, x, y);
  }

  lemma {:induction false} ObjectSplit(a: seq<Member>, b: seq<Member>, x: string, y: string)
    requires Print(Obj(a), x) == Print(Obj(b), y) && Follows(x) && Follows(y)
    ensures a == b && x == y
    decreases a, 1
  {
    var left := if a == [] then "}" + x else PrintMember(a[0], PrintMembers(a[1..], x));
    var right := if b == [] then "}" + y else PrintMember(b[0], PrintMembers(b[1..], y));
    Strip("{", "{", left, right);
    assert left[0] == if a == [] then '}' else '"';
    assert right[0] == if b == [] then '}' else '"';
    if a == [] {
      Strip("}", "}", x, y);
    } else {
      MemberSplit(a[0], b[0], PrintMembers(a[1..], x), PrintMembers(b[1..], y));
      MembersSplit(a[1..], b[1..], x, y);
      assert a == [a[0]] + a[1..] && b == [b[0]] + b[1..];
    }
  }

  lemma {:induction false} MembersSplit(a: seq<Member>, b: seq<Member>, x: string, y: string)
    requires PrintMembers(a, x) == PrintMembers(b, y) && Follows(x) && Follows(y)
    ensures a == b && x == y
    decreases a, 0
  {
    assert PrintMembers(a, x)[0] == if a == [] then '}' else ',';
    assert PrintMembers(b, y)[0] == if b == [] then '}' else ',';
    if a == [] {
      Strip("}", "}", x, y);
    } else {
      Strip(",", ",", PrintMember(a[0], PrintMembers(a[1..], x)), PrintMember(b[0], PrintMembers(b[1..], y)));
      MemberSplit(a[0], b[0], PrintMembers(a[1..], x), PrintMembers(b[1..], y));
      MembersSplit(a[1..], b[1..], x, y);
      assert a == [a[0]] + a[1..] && b == [b[0]] + b[1..];
    }
  }

  // ---- the key order is a strict total order ---------------------------------------------

  lemma {:induction false} LessIrreflexive(a: string)
    ensures !Less(a, a)
  {
    if a != "" { LessIrreflexive(a[1..]); }
  }

  lemma {:induction false} LessTransitive(a: string, b: string, c: string)
    requires Less(a, b) && Less(b, c)
    ensures Less(a, c)
  {
    if a != "" && a[0] == b[0] && b[0] == c[0] { LessTransitive(a[1..], b[1..], c[1..]); }
  }

  lemma {:induction false} LessTotal(a: string, b: string)
    ensures a == b || Less(a, b) || Less(b, a)
  {
    if a != "" && b != "" && a[0] == b[0] {
      LessTotal(a[1..], b[1..]);
      assert a == [a[0]] + a[1..] && b == [b[0]] + b[1..];
    }
  }

  predicate Sorted(ms: seq<Member>) {
    ms == [] || ((forall k :: k in Keys(ms[1..]) ==> Less(ms[0].key, k)) && Sorted(ms[1..]))
  }

  // ---- sorting keeps the meaning ------------------------------------------------------------

  lemma {:induction false} InsertDenotes(m: Member, ms: seq<Member>)
    requires DistinctKeys(ms) && m.key !in Keys(ms)
    ensures Keys(Insert(m, ms)) == Keys(ms) + {m.key}
    ensures DenoteMembers(Insert(m, ms)) == DenoteMembers(ms)[m.key := Denote(m.value)]
  {
    if ms == [] || Less(m.key, ms[0].key) {
    } else {
      InsertDenotes(m, ms[1..]);
    }
  }

  lemma {:induction false} SortedKeysDiffer(ms: seq<Member>)
    requires Sorted(ms)
    ensures DistinctKeys(ms)
  {
    if ms != [] {
      LessIrreflexive(ms[0].key);
      SortedKeysDiffer(ms[1..]);
    }
  }

  lemma {:induction false} InsertSorted(m: Member, ms: seq<Member>)
    requires Sorted(ms) && m.key !in Keys(ms)
    ensures Sorted(Insert(m, ms))
  {
    if ms == [] || Less(m.key, ms[0].key) {
      assert ([m] + ms)[1..] == ms;
      forall k | k in Keys(ms) ensures Less(m.key, k) {
        if k != ms[0].key { LessTransitive(m.key, ms[0].key, k); }
      }
    } else {
      var rest := Insert(m, ms[1..]);
      InsertSorted(m, ms[1..]);
      SortedKeysDiffer(ms[1..]);
      InsertDenotes(m, ms[1..]);
      assert ([ms[0]] + rest)[1..] == rest;
      LessTotal(m.key, ms[0].key);
    }
  }

  lemma {:induction false} NormalMeansTheSame(v: Json)
    requires IsDict(v)
    ensures Denote(Normal(v)) == Denote(v)
    decreases v
  {
    match v
    case Arr(items) =>
      forall i | 0 <= i < |items| ensures Denote(Normal(items[i])) == Denote(items[i]) {
        NormalMeansTheSame(items[i]);
      }
      assert DenoteItems(NormalItems(items)) == DenoteItems(items);
    case Obj(ms) =>
      NormalMembersMeanTheSame(ms);
    case _ =>
  }

  lemma {:induction false} NormalMembersMeanTheSame(ms: seq<Member>)
    requires DistinctKeys(ms) && forall i :: 0 <= i < |ms| ==> IsDict(ms[i].value)
    ensures DenoteMembers(NormalMembers(ms)) == DenoteMembers(ms)
    ensures Sorted(NormalMembers(ms)) && Keys(NormalMembers(ms)) == Keys(ms)
    decreases ms
  {
    if ms != [] {
      NormalMeansTheSame(ms[0].value);
      NormalMembersMeanTheSame(ms[1..]);
      var m := Member(ms[0].key, Normal(ms[0].value));
      InsertSorted(m, NormalMembers(ms[1..]));
      SortedKeysDiffer(NormalMembers(ms[1..]));
      InsertDenotes(m, NormalMembers(ms[1..]));
    }
  }

  // ---- sorted forms are determined by their meaning ---------------------------------------------

  /** Sorted at every depth. */
  predicate IsNormal(v: Json) {
    match v
    case Arr(items) => forall i :: 0 <= i < |items| ==> IsNormal(items[i])
    case Obj(ms) => Sorted(ms) && forall i :: 0 <= i < |ms| ==> IsNormal(ms[i].value)
    case _ => true
  }

  lemma {:induction false} InsertKeepsNormal(m: Member, ms: seq<Member>)
    requires IsNormal(m.value) && forall i :: 0 <= i < |ms| ==> IsNormal(ms[i].value)
    ensures forall i :: 0 <= i < |Insert(m, ms)| ==> IsNormal(Insert(m, ms)[i].value)
  {
    if ms != [] && !Less(m.key, ms[0].key) { InsertKeepsNormal(m, ms[1..]); }
  }

  lemma {:induction false} NormalIsNormal(v: Json)
    requires IsDict(v)
    ensures IsNormal(Normal(v))
    decreases v
  {
    match v
    case Arr(items) =>
      forall i | 0 <= i < |items| ensures IsNormal(Normal(items[i])) { NormalIsNormal(items[i]); }
    case Obj(ms) =>
      NormalMembersMeanTheSame(ms);
      NormalMembersAreNormal(ms);
    case _ =>
  }

  lemma {:induction false} NormalMembersAreNormal(ms: seq<Member>)
    requires forall i :: 0 <= i < |ms| ==> IsDict(ms[i].value)
    ensures forall i :: 0 <= i < |NormalMembers(ms)| ==> IsNormal(NormalMembers(ms)[i].value)
    decreases ms
  {
    if ms != [] {
      NormalIsNormal(ms[0].value);
      NormalMembersAreNormal(ms[1..]);
      InsertKeepsNormal(Member(ms[0].key, Normal(ms[0].value)), NormalMembers(ms[1..]));
    }
  }

  lemma {:induction false} NormalIsUnique(a: Json, b: Json)
    requires IsNormal(a) && IsNormal(b) && Denote(a) == Denote(b)
    ensures a == b
    decreases a
  {
    match a
    case Arr(items) =>
      forall i | 0 <= i < |items| ensures items[i] == b.items[i] {
        assert DenoteItems(items)[i] == DenoteItems(b.items)[i];
        NormalIsUnique(items[i], b.items[i]);
      }
    case Obj(ms) => MembersAreUnique(ms, b.members);
    case _ =>
  }

  lemma {:induction false} MembersAreUnique(a: seq<Member>, b: seq<Member>)
    requires Sorted(a) && Sorted(b)
    requires forall i :: 0 <= i < |a| ==> IsNormal(a[i].value)
    requires forall i :: 0 <= i < |b| ==> IsNormal(b[i].value)
    requires DenoteMembers(a) == DenoteMembers(b)
    ensures a == b
    decreases a
  {
    assert Keys(a) == Keys(b);
    if a != [] && b != [] {
      var k, l := a[0].key, b[0].key;
      assert k in Keys(a) && l in Keys(b);
      if k != l {
        LessTransitive(k, l, k);
        LessIrreflexive(k);
      }
      assert DenoteMembers(a)[k] == Denote(a[0].value) && DenoteMembers(b)[k] == Denote(b[0].value);
      NormalIsUnique(a[0].value, b[0].value);
      TailMeaning(a);
      TailMeaning(b);
      MembersAreUnique(a[1..], b[1..]);
      assert a == [a[0]] + a[1..] && b == [b[0]] + b[1..];
    } else {
      assert a == [] <==> Keys(a) == {};
      assert b == [] <==> Keys(b) == {};
    }
  }

  lemma TailMeaning(ms: seq<Member>)
    requires ms != [] && Sorted(ms)
    ensures DenoteMembers(ms[1..]) == DenoteMembers(ms) - {ms[0].key}
  {
    LessIrreflexive(ms[0].key);
    var tail, k := DenoteMembers(ms[1..]), ms[0].key;
    assert k !in tail.Keys;
    assert DenoteMembers(ms) == tail[k := Denote(ms[0].value)];
    assert tail[k := Denote(ms[0].value)] - {k} == tail;
  }

  // ---- main result -----------------------------------------------------------------------------

  /** Equal encodings mean equal values, and equal values have equal encodings in whatever
      order their keys were inserted. */
  lemma EncodingIsCanonical(a: Json, b: Json)
    requires IsDict(a) && IsDict(b)
    ensures Encode(a) == Encode(b) <==> Denote(a) == Denote(b)
  {
    NormalMeansTheSame(a);
    NormalMeansTheSame(b);
    if Encode(a) == Encode(b) {
      PrintSplit(Normal(a), Normal(b), "", "");
    }
    if Denote(a) == Denote(b) {
      NormalIsNormal(a);
      NormalIsNormal(b);
      NormalIsUnique(Normal(a), Normal(b));
    }
  }

  lemma {:induction false} Lookup(ms: seq<Member>, m: Member)
    requires DistinctKeys(ms) && m in ms
    ensures m.key in Keys(ms) && DenoteMembers(ms)[m.key] == Denote(m.value)
  {
    if ms[0] != m {
      assert m in ms[1..] by { assert ms == [ms[0]] + ms[1..]; }
      Lookup(ms[1..], m);
    }
  }

  lemma {:induction false} MemberOfKey(ms: seq<Member>, k: string) returns (m: Member)
    requires k in Keys(ms)
    ensures m in ms && m.key == k
  {
    if ms[0].key == k { m := ms[0]; } else { m := MemberOfKey(ms[1..], k); }
  }

  /** The order in which a dict was filled leaves no trace in the encoding. */
  lemma KeyOrderIsIrrelevant(ms: seq<Member>, ns: seq<Member>)
    requires IsDict(Obj(ms)) && IsDict(Obj(ns))
    requires forall m :: m in ms <==> m in ns
    ensures Encode(Obj(ms)) == Encode(Obj(ns))
  {
    var left, right := DenoteMembers(ms), DenoteMembers(ns);
    forall k | k in left ensures k in right && right[k] == left[k] {
      var m := MemberOfKey(ms, k);
      Lookup(ms, m);
      Lookup(ns, m);
    }
    forall k | k in right ensures k in left {
      var m := MemberOfKey(ns, k);
      Lookup(ms, m);
    }
    assert left == right;
    EncodingIsCanonical(Obj(ms), Obj(ns));
  }
}
