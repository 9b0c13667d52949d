/** The port-specification parser (backend/app/scan_profiles.py). */
module Ports {
  import opened Base
  import opened Decimal
  import opened Text

  const MAX_SCAN_PORTS := 6000
  const MAX_PORT := 65535

  datatype Item = Single(port: int) | Span(lo: int, hi: int)

  /** Default is the source's None, Invalid its PortSpecError. */
  datatype Parsed = Default | Ports(text: string) | Invalid

  // ---- int(text) -----------------------------------------------------------------------

  /** Digits, with single underscores between them. */
  predicate Numeral(s: string) {
    && s != "" && IsDigit(s[0])
    && (forall i :: 0 <= i < |s| ==> IsDigit(s[i]) || s[i] == '_')
    && forall i :: 0 <= i < |s| && s[i] == '_' ==> i + 1 < |s| && IsDigit(s[i + 1])
  }

  lemma {:induction false} OnlyDigitsRemain(s: string)
    requires forall i :: 0 <= i < |s| ==> IsDigit(s[i]) || s[i] == '_'
    ensures AllDigits(Drop(s, '_'))
  {
    if s != "" { OnlyDigitsRemain(s[1..]); }
  }

  function NumeralValue(s: string): nat
    requires Numeral(s)
  {
    OnlyDigitsRemain(s);
    Value(Drop(s, '_'))
  }

  function ParseInt(s: string): Option<int> {
    var t := Trim(s, WHITESPACE);
    var signed := t != "" && t[0] in {'+', '-'};
    var body := if signed then t[1..] else t;
    if !Numeral(body) then None
    else
      var n: int := NumeralValue(body);
      Some(if signed && t[0] == '-' then -n else n)
  }

  // ---- tokens --------------------------------------------------------------------------

  predicate ItemOk(item: Item) {
    match item
    case Single(port) => 1 <= port <= MAX_PORT
    case Span(lo, hi) => 1 <= lo <= hi <= MAX_PORT
  }

  function ParseToken(token: string): (r: Option<Item>)
    ensures r.Some? ==> ItemOk(r.value)
  {
    if '-' in token then
      var n := Find(token, '-');
      var lo, hi := ParseInt(token[..n]), ParseInt(token[n + 1..]);
      if lo.Some? && hi.Some? && 1 <= lo.value <= hi.value <= MAX_PORT
      then Some(Span(lo.value, hi.value)) else None
    else
      var port := ParseInt(token);
      if port.Some? && 1 <= port.value <= MAX_PORT then Some(Single(port.value)) else None
  }

  /** The items of the tokens, empty ones skipped; None when one is malformed. */
  function Items(tokens: seq<string>): (r: Option<seq<Item>>)
    ensures r.Some? ==> forall i :: 0 <= i < |r.value| ==> ItemOk(r.value[i])
  {
    if tokens == [] then Some([])
    else
      var init, last := Items(tokens[..|tokens| - 1]), tokens[|tokens| - 1];
      if last == "" then init
      else
        var item := ParseToken(last);
        if init.Some? && item.Some? then Some(init.value + [item.value]) else None
  }

  function Show(item: Item): string
    requires ItemOk(item)
  {
    match item
    case Single(port) => Digits(port)
    case Span(lo, hi) => Digits(lo) + "-" + Digits(hi)
  }

  function ShowAll(items: seq<Item>): (parts: seq<string>)
    requires forall i :: 0 <= i < |items| ==> ItemOk(items[i])
    ensures |parts| == |items| && forall i :: 0 <= i < |items| ==> parts[i] == Show(items[i])
  {
    if items == [] then []
    else ShowAll(items[..|items| - 1]) + [Show(items[|items| - 1])]
  }

  // ---- what a specification denotes ----------------------------------------------------

  /** The ports of a range, each once. */
  function Interval(lo: int, hi: int): (m: multiset<int>)
    ensures forall p :: m[p] == if lo <= p <= hi then 1 else 0
    ensures |m| == Max(hi - lo + 1, 0)
    decreases hi - lo
  {
    if lo > hi then multiset{} else multiset{lo} + Interval(lo + 1, hi)
  }

  function Denote(items: seq<Item>): multiset<int> {
    if items == [] then multiset{}
    else
      var last := items[|items| - 1];
      Denote(items[..|items| - 1])
      + match last
        case Single(port) => multiset{port}
        case Span(lo, hi) => Interval(lo, hi)
  }

  /** The text before it is split: blanks gone, no comma at either end. */
  function Prepared(spec: string): string { Trim(Drop(spec, ' '), {','}) }

  function ItemsOf(spec: string): Option<seq<Item>> { Items(Split(Prepared(spec), ',')) }

  /** A specification is accepted when every token is an item and there are not too many ports. */
  predicate Acceptable(spec: string) {
    ItemsOf(spec).Some? && |Denote(ItemsOf(spec).value)| <= MAX_SCAN_PORTS
  }

  /** What a specification means, without the running total. */
  function Parse(spec: Option<string>): Parsed {
    if spec.None? || Prepared(spec.value) == "" then Default
    else if Acceptable(spec.value) then Ports(Join(ShowAll(ItemsOf(spec.value).value), ','))
    else Invalid
  }

  /** The loop over the tokens; None is an error. */
  method ParseTokens(tokens: seq<string>) returns (r: Option<seq<string>>)
    ensures r.Some? <==> Items(tokens).Some? && |Denote(Items(tokens).value)| <= MAX_SCAN_PORTS
    ensures r.Some? ==> r.value == ShowAll(Items(tokens).value)
  {
    hide ParseToken, Show, Interval, ShowAll, Denote, Items, Digits;
    var total := 0;
    var parts: seq<string> := [];
    ghost var items: seq<Item> := [];
    NoItems();
    for i := 0 to |tokens|
      invariant Items(tokens[..i]) == Some(items)
      invariant parts == ShowAll(items)
      invariant total == |Denote(items)| <= MAX_SCAN_PORTS
    {
      var token := tokens[i];
      assert tokens[..i + 1][..i] == tokens[..i];
      ItemsOneMore(tokens[..i + 1]);
      if token == "" { continue; }
      var item := ParseToken(token);
      if item.None? {
        MalformedSpoilsAll(tokens, i + 1);
        return None;
      }
      OneMore(items, item.value);
      match item.value {
        case Single(port) =>
          total := total + 1;
          parts := parts + [Digits(port)];
        case Span(lo, hi) =>
          total := total + (hi - lo + 1);
          parts := parts + [Digits(lo) + "-" + Digits(hi)];
      }
      items := items + [item.value];
      if total > MAX_SCAN_PORTS {
        MorePortsFurtherOn(tokens, i + 1);
        return None;
      }
    }
    assert tokens[..|tokens|] == tokens;
    r := Some(parts);
  }

  method ParsePortSpec(spec: Option<string>) returns (r: Parsed)
    ensures r == Parse(spec)
  {
    hide Trim, Drop, Split, Join, ShowAll, Denote, Items;
    if spec.None? { return Default; }
    var text := Trim(Drop(spec.value, ' '), {','});
    if text == "" { return Default; }
    var tokens := Split(text, ',');
    FirstTokenIsNotEmpty(spec.value);
    var parts := ParseTokens(tokens);
    if parts.None? { return Invalid; }
    SomeItem(tokens);
    if parts.value == [] { return Default; }
    r := Ports(Join(parts.value, ','));
  }

  lemma NoItems()
    ensures Items([]) == Some([]) && ShowAll([]) == [] && Denote([]) == multiset{}
  {
  }

  lemma ItemsOneMore(tokens: seq<string>)
    requires tokens != []
    ensures (var init, last := Items(tokens[..|tokens| - 1]), tokens[|tokens| - 1];
             Items(tokens) == if last == "" then init
                              else if init.Some? && ParseToken(last).Some?
                              then Some(init.value + [ParseToken(last).value]) else None)
  {
  }

  lemma OneMore(items: seq<Item>, item: Item)
    requires ItemOk(item) && forall i :: 0 <= i < |items| ==> ItemOk(items[i])
    ensures ShowAll(items + [item])
         == ShowAll(items) + [match item
                              case Single(port) => Digits(port)
                              case Span(lo, hi) => Digits(lo) + "-" + Digits(hi)]
    ensures |Denote(items + [item])|
         == |Denote(items)| + match item
                              case Single(_) => 1
                              case Span(lo, hi) => hi - lo + 1
  {
    hide ParseToken, Items;
    assert (items + [item])[..|items|] == items;
  }

  lemma FirstTokenIsNotEmpty(spec: string)
    requires Prepared(spec) != ""
    ensures Split(Prepared(spec), ',')[0] != ""
  {
    TrimmedEnds(Drop(spec, ' '), {','});
  }

  lemma {:induction false} MalformedSpoilsAll(tokens: seq<string>, n: nat)
    requires n <= |tokens| && Items(tokens[..n]).None?
    ensures Items(tokens).None?
    decreases |tokens|
  {
    if n == |tokens| {
      assert tokens[..n] == tokens;
    } else {
      assert tokens[..|tokens| - 1][..n] == tokens[..n];
      MalformedSpoilsAll(tokens[..|tokens| - 1], n);
    }
  }

  lemma {:induction false} MorePortsFurtherOn(tokens: seq<string>, n: nat)
    requires n <= |tokens| && Items(tokens[..n]).Some?
    ensures Items(tokens).Some? ==> |Denote(Items(tokens[..n]).value)| <= |Denote(Items(tokens).value)|
    decreases |tokens|
  {
    if n == |tokens| {
      assert tokens[..n] == tokens;
    } else {
      var init := tokens[..|tokens| - 1];
      assert init[..n] == tokens[..n];
      MorePortsFurtherOn(init, n);
      if Items(tokens).Some? && tokens[|tokens| - 1] != "" {
        var items := Items(tokens).value;
        assert items[..|items| - 1] == Items(init).value;
      }
    }
  }

  // ---- main results ----------------------------------------------------------------------

  lemma {:induction false} ParseIntOfDigits(n: nat)
    ensures ParseInt(Digits(n)) == Some(n)
  {
    var s := Digits(n);
    assert IsDigit(s[0]) && IsDigit(s[|s| - 1]);
    assert forall c :: c in WHITESPACE ==> !IsDigit(c);
    assert Trim(s, WHITESPACE) == s;
    assert '_' !in s by { assert !IsDigit('_'); }
    DropMissing(s, '_');
    ValueOfDigits(n);
  }

  lemma ParseTokenOfShow(item: Item)
    requires ItemOk(item)
    ensures ParseToken(Show(item)) == Some(item)
  {
    hide ParseInt, Digits;
    assert !IsDigit('-');
    match item
    case Single(port) => ParseIntOfDigits(port);
    case Span(lo, hi) =>
      ParseIntOfDigits(lo);
      ParseIntOfDigits(hi);
      var a, b := Digits(lo), "-" + Digits(hi);
      assert '-' !in a;
      FindAfter(a, b, '-');
      assert Show(item) == a + b;
      assert (a + b)[|a|] == '-';
      assert (a + b)[..|a|] == a && (a + b)[|a| + 1..] == Digits(hi);
  }

  predicate PartOk(part: string) {
    part != "" && ',' !in part && ' ' !in part && IsDigit(part[0]) && IsDigit(part[|part| - 1])
  }

  lemma ShownIsPart(item: Item)
    requires ItemOk(item)
    ensures PartOk(Show(item))
  {
    hide Digits;
    assert !IsDigit(',') && !IsDigit(' ');
  }

  lemma {:induction false} ItemsOfShown(items: seq<Item>)
    requires forall i :: 0 <= i < |items| ==> ItemOk(items[i])
    ensures Items(ShowAll(items)) == Some(items)
  {
    hide ParseToken, Show;
    if items != [] {
      var n := |items| - 1;
      ItemsOfShown(items[..n]);
      ParseTokenOfShow(items[n]);
      ShownIsPart(items[n]);
      assert ShowAll(items)[..n] == ShowAll(items[..n]);
      assert items == items[..n] + [items[n]];
    }
  }

  lemma {:induction false} JoinEnds(parts: seq<string>)
    requires parts != [] && forall i :: 0 <= i < |parts| ==> PartOk(parts[i])
    ensures (var s := Join(parts, ',');
             s != "" && ' ' !in s && IsDigit(s[0]) && IsDigit(s[|s| - 1]))
  {
    assert PartOk(parts[0]);
    if |parts| > 1 {
      JoinEnds(parts[1..]);
      assert Join(parts, ',') == parts[0] + [','] + Join(parts[1..], ',');
    }
  }

  lemma AlreadyPrepared(text: string)
    requires text != "" && ' ' !in text && IsDigit(text[0]) && IsDigit(text[|text| - 1])
    ensures Prepared(text) == text
  {
    DropMissing(text, ' ');
    assert !IsDigit(',');
  }

  lemma JoinedParts(parts: seq<string>)
    requires parts != [] && forall i :: 0 <= i < |parts| ==> PartOk(parts[i])
    ensures (var text := Join(parts, ',');
             text != "" && Prepared(text) == text && Split(text, ',') == parts)
  {
    hide Join, Split, Prepared;
    JoinEnds(parts);
    AlreadyPrepared(Join(parts, ','));
    forall i | 0 <= i < |parts| ensures ',' !in parts[i] { assert PartOk(parts[i]); }
    SplitOfJoin(parts, ',');
  }

  lemma ShownIsPrepared(items: seq<Item>)
    requires items != [] && forall i :: 0 <= i < |items| ==> ItemOk(items[i])
    ensures (var text := Join(ShowAll(items), ',');
             text != "" && Prepared(text) == text && ItemsOf(text) == Some(items))
  {
    hide Join, Split, Items, Show, Prepared, ShowAll, PartOk;
    var parts := ShowAll(items);
    forall i | 0 <= i < |parts| ensures PartOk(parts[i]) { ShownIsPart(items[i]); }
    JoinedParts(parts);
    ItemsOfShown(items);
  }

  /** Parsing is idempotent: the canonical text is accepted, it is its own canonical text, and
      it denotes the same ports with the same multiplicities. */
  lemma ParseIsIdempotent(spec: string)
    requires Parse(Some(spec)).Ports?
    ensures (var text := Parse(Some(spec)).text;
             && Parse(Some(text)) == Ports(text)
             && ItemsOf(text).Some? && ItemsOf(spec).Some?
             && Denote(ItemsOf(text).value) == Denote(ItemsOf(spec).value))
  {
    FirstTokenIsNotEmpty(spec);
    SomeItem(Split(Prepared(spec), ','));
    ShownIsPrepared(ItemsOf(spec).value);
  }

  lemma {:induction false} DenotedInRange(items: seq<Item>)
    requires forall i :: 0 <= i < |items| ==> ItemOk(items[i])
    ensures forall p :: p in Denote(items) ==> 1 <= p <= MAX_PORT
    ensures |Denote(items)| >= |items|
  {
    if items != [] { DenotedInRange(items[..|items| - 1]); }
  }

  /** An accepted specification denotes between 1 and MAX_SCAN_PORTS ports, repetitions counted,
      all of them port numbers. */
  lemma AcceptedPortsAreBounded(spec: string)
    requires Acceptable(spec) && Prepared(spec) != ""
    ensures (var ports := Denote(ItemsOf(spec).value);
             && 1 <= |ports| <= MAX_SCAN_PORTS
             && forall p :: p in ports ==> 1 <= p <= MAX_PORT)
  {
    FirstTokenIsNotEmpty(spec);
    SomeItem(Split(Prepared(spec), ','));
    DenotedInRange(ItemsOf(spec).value);
  }

  lemma {:induction false} SomeItem(tokens: seq<string>)
    requires tokens != [] && tokens[0] != "" && Items(tokens).Some?
    ensures Items(tokens).value != []
  {
    if |tokens| > 1 {
      assert tokens[..|tokens| - 1][0] == tokens[0];
      SomeItem(tokens[..|tokens| - 1]);
    }
  }

  // ---- which texts mean what -----------------------------------------------------------------

  function Signed(sign: string, n: int): int { if sign == "-" then -n else n }

  /** Blanks, at most one sign, a numeral and blanks. */
  predicate Reads(s: string, left: string, sign: string, body: string, right: string, n: int) {
    && s == left + sign + body + right
    && (forall i :: 0 <= i < |left| ==> left[i] in WHITESPACE)
    && (forall i :: 0 <= i < |right| ==> right[i] in WHITESPACE)
    && sign in {"", "+", "-"} && Numeral(body)
    && n == Signed(sign, NumeralValue(body))
  }

  /** int() reads exactly the numerals, with a sign and with blanks around them. */
  lemma ParseIntExactlyWhen(s: string, n: int)
    ensures ParseInt(s) == Some(n) <==>
            exists left: string, sign: string, body: string, right: string :: Reads(s, left, sign, body, right, n)
  {
    if ParseInt(s) == Some(n) { var left, sign, body, right := ReadOff(s, n); }
    forall left: string, sign: string, body: string, right: string | Reads(s, left, sign, body, right, n)
      ensures ParseInt(s) == Some(n)
    {
      SignedIsRead(left, sign, body, right);
    }
  }

  lemma ReadOff(s: string, n: int) returns (left: string, sign: string, body: string, right: string)
    requires ParseInt(s) == Some(n)
    ensures Reads(s, left, sign, body, right, n)
  {
    left, right := TrimmedAround(s, WHITESPACE);
    var t := Trim(s, WHITESPACE);
    hide Trim, NumeralValue, Numeral;
    var signed := t != "" && t[0] in {'+', '-'};
    sign, body := if signed then [t[0]] else "", if signed then t[1..] else t;
    assert t == sign + body;
    Grouped(left, sign, body, right);
  }

  lemma Grouped(left: string, sign: string, body: string, right: string)
    ensures left + (sign + body) + right == left + sign + body + right
  {
  }

  lemma SignedIsRead(left: string, sign: string, body: string, right: string)
    requires forall i :: 0 <= i < |left| ==> left[i] in WHITESPACE
    requires forall i :: 0 <= i < |right| ==> right[i] in WHITESPACE
    requires sign in {"", "+", "-"} && Numeral(body)
    ensures ParseInt(left + sign + body + right)
         == Some(Signed(sign, NumeralValue(body)))
  {
    NumeralEnds(body);
    var t := sign + body;
    assert t[|t| - 1] == body[|body| - 1];
    assert forall c :: c in WHITESPACE ==> !IsDigit(c);
    assert left + sign + body + right == left + t + right;
    TrimTakesTheEnds(left, t, right, WHITESPACE);
    hide Trim, NumeralValue, Numeral;
    if sign != "" { assert t[1..] == body; } else { assert t == body; }
  }

  lemma NumeralEnds(body: string)
    requires Numeral(body)
    ensures IsDigit(body[0]) && IsDigit(body[|body| - 1])
  {
    if body[|body| - 1] == '_' { assert false; }
  }

  /** Underscores and leading zeros of a numeral say nothing. */
  lemma NumeralSays(body: string, digits: string)
    requires Numeral(body) && AllDigits(digits)
    ensures Drop(body, '_') == digits ==> NumeralValue(body) == Value(digits)
    ensures Value("0" + digits) == Value(digits)
  {
    ZeroInFront(digits);
  }

  lemma {:induction false} ZeroInFront(digits: string)
    requires AllDigits(digits)
    ensures AllDigits("0" + digits) && Value("0" + digits) == Value(digits)
    decreases |digits|
  {
    var s := "0" + digits;
    assert AllDigits(s);
    if digits == "" {
      assert s[..0] == "" && s[0] == '0';
    } else {
      var n := |digits| - 1;
      ZeroInFront(digits[..n]);
      assert s[..|s| - 1] == "0" + digits[..n] && s[|s| - 1] == digits[n];
    }
  }

  /** A shown list of items, however many blanks are in it and whatever commas are around it, is
      accepted exactly when every item is within 1..65535 and there are at most 6000 ports, repetitions
      counted; its canonical text is the list as shown. */
  lemma ShownListExactlyWhen(spec: string, items: seq<Item>, left: string, right: string)
    requires items != [] && forall i :: 0 <= i < |items| ==> ItemOk(items[i])
    requires Drop(spec, ' ') == left + Join(ShowAll(items), ',') + right
    requires forall i :: 0 <= i < |left| ==> left[i] == ','
    requires forall i :: 0 <= i < |right| ==> right[i] == ','
    ensures Parse(Some(spec))
         == if |Denote(items)| <= 6000 then Ports(Join(ShowAll(items), ',')) else Invalid
  {
    hide Join, ShowAll, Items, Denote, Trim, Split;
    var text := Join(ShowAll(items), ',');
    ShownIsPrepared(items);
    ShownEnds(items);
    TrimTakesTheEnds(left, text, right, {','});
    assert Prepared(spec) == text;
  }

  lemma ShownEnds(items: seq<Item>)
    requires items != [] && forall i :: 0 <= i < |items| ==> ItemOk(items[i])
    ensures (var text := Join(ShowAll(items), ','); text != "" && text[0] != ',' && text[|text| - 1] != ',')
    ensures ' ' !in Join(ShowAll(items), ',')
  {
    hide Join, Show, ShowAll, PartOk;
    var parts := ShowAll(items);
    forall i | 0 <= i < |parts| ensures PartOk(parts[i]) { ShownIsPart(items[i]); }
    JoinEnds(parts);
    assert !IsDigit(',');
  }

  /** A lone number is a port exactly when it is one of 1..65535, and two with a hyphen between them
      are a range exactly when they are such numbers in order. */
  lemma PortNumbersExactlyWhen(a: nat, b: nat)
    ensures ParseToken(Digits(a)) == if 1 <= a <= 65535 then Some(Single(a)) else None
    ensures ParseToken(Digits(a) + "-" + Digits(b)) == if 1 <= a <= b <= 65535 then Some(Span(a, b)) else None
  {
    ParseIntOfDigits(a);
    ParseIntOfDigits(b);
    hide ParseInt, Digits;
    assert !IsDigit('-');
    var lo, hi := Digits(a), "-" + Digits(b);
    assert '-' !in lo;
    FindAfter(lo, hi, '-');
    assert Digits(a) + "-" + Digits(b) == lo + hi;
    assert (lo + hi)[|lo|] == '-' && (lo + hi)[..|lo|] == lo && (lo + hi)[|lo| + 1..] == Digits(b);
  }

  /** What the ports of a list are: the ones of its items together, each range from end to end. */
  lemma DenoteAdds(items: seq<Item>, item: Item, p: int)
    ensures Denote([])[p] == 0
    ensures Denote(items + [item])[p] == Denote(items)[p] + match item
              case Single(port) => if p == port then 1 else 0
              case Span(lo, hi) => if lo <= p <= hi then 1 else 0
  {
    assert (items + [item])[..|items|] == items;
  }

  /** An empty token is skipped, and one that is no item spoils the specification. */
  lemma TokensSay(tokens: seq<string>, k: nat)
    requires k < |tokens|
    ensures tokens[k] != "" && ParseToken(tokens[k]).None? ==> Items(tokens).None?
    ensures tokens[k] == "" ==> Items(tokens) == Items(tokens[..k] + tokens[k + 1..])
  {
    if tokens[k] != "" && ParseToken(tokens[k]).None? {
      assert tokens[..k + 1][..k] == tokens[..k];
      MalformedSpoilsAll(tokens, k + 1);
    }
    if tokens[k] == "" { SkippedToken(tokens, k); }
  }

  lemma {:induction false} SkippedToken(tokens: seq<string>, k: nat)
    requires k < |tokens| && tokens[k] == ""
    ensures Items(tokens) == Items(tokens[..k] + tokens[k + 1..])
    decreases |tokens|
  {
    hide ParseToken;
    var n := |tokens| - 1;
    if k == n {
      assert tokens[..k] + tokens[k + 1..] == tokens[..n];
    } else {
      SkippedToken(tokens[..n], k);
      var rest := tokens[..k] + tokens[k + 1..];
      assert tokens[..n][..k] + tokens[..n][k + 1..] == rest[..n - 1] && rest[n - 1] == tokens[n];
    }
  }
}
