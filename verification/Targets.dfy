/** Canonical names of targets (backend/app/services/scope_service.py). Reading an address and
encoding a label are library functions and parameters here. */
module Targets {
  import opened Base
  import opened Cidr
  import opened Decimal
  import opened Text

  /** What ip_address makes of a text; NotIp is its ValueError. */
  datatype Literal = NotIp | V4Literal(addr: Address) | V6Literal

  /** What ip_network(..., strict=False) makes of a text: address and prefix length. */
  datatype NetworkText = NotNetwork | V4Network(addr: Address, prefix: nat) | V6Network

  /** Rejected is a ScopeError that reaches the caller. */
  datatype Canonical = Ipv4(addr: Address) | Range(net: Network) | Domain(name: string) | Rejected

  /** The IDNA encoder of one label; None is its error. */
  type Idna = string -> Option<string>

  predicate LabelChar(c: char) { 'a' <= c <= 'z' || '0' <= c <= '9' || c == '-' }

  /** 1 to 63 lower-case letters, digits and hyphens, no hyphen at either end. */
  predicate LabelOk(part: string) {
    && 1 <= |part| <= 63
    && (forall i :: 0 <= i < |part| ==> LabelChar(part[i]))
    && part[0] != '-' && part[|part| - 1] != '-'
  }

  function EncodeAll(idna: Idna, labels: seq<string>): Option<seq<string>> {
    if labels == [] then Some([])
    else
      var head, tail := idna(labels[0]), EncodeAll(idna, labels[1..]);
      if head.Some? && tail.Some? then Some([head.value] + tail.value) else None
  }

  function Cleaned(raw: string): string { Lower(Trim(Trim(raw, WHITESPACE), {'.'})) }

  predicate Malformed(s: string) { s == "" || ' ' in s || '/' in s || '@' in s }

  /** The canonical domain name of a text, or None for a ScopeError. Whether the text is an
      address literal plays no part. */
  function DomainOf(idna: Idna, raw: string, multilabel: bool): Option<string> {
    var s := Cleaned(raw);
    if Malformed(s) then None
    else
      var labels := EncodeAll(idna, Split(s, '.'));
      if labels.None? || (multilabel && |labels.value| < 2) then None
      else if exists i :: 0 <= i < |labels.value| && !LabelOk(labels.value[i]) then None
      else Some(Join(labels.value, '.'))
  }

  /** The source also reads the text as an address literal. That test has no effect: the error
      raised for a literal is a ValueError, and the handler of the same block drops it. */
  method CanonicalizeDomain(idna: Idna, raw: string, multilabel: bool) returns (r: Option<string>)
    ensures r == DomainOf(idna, raw, multilabel)
  {
    var s := Lower(Trim(Trim(raw, WHITESPACE), {'.'}));
    if s == "" || ' ' in s || '/' in s || '@' in s { return None; }
    var labels := EncodeAll(idna, Split(s, '.'));
    if labels.None? { return None; }
    if multilabel && |labels.value| < 2 { return None; }
    for i := 0 to |labels.value|
      invariant forall j :: 0 <= j < i ==> LabelOk(labels.value[j])
    {
      if !LabelOk(labels.value[i]) { return None; }
    }
    r := Some(Join(labels.value, '.'));
  }

  method CanonicalizeTarget(idna: Idna, read: string -> Literal, network: string -> NetworkText,
                            raw: Option<string>) returns (c: Canonical)
    requires forall s: string :: network(s).V4Network? ==> network(s).prefix <= 32
    ensures raw.None? ==> c.Rejected?
    ensures raw.Some? ==>
              (var s := Trim(raw.value, WHITESPACE);
               && (c.Ipv4? <==> s != "" && '/' !in s && read(s).V4Literal?)
               && (c.Ipv4? ==> read(s) == V4Literal(c.addr))
               && (c.Range? <==> '/' in s && network(s).V4Network?)
               && (c.Range? ==> c.net.prefix == network(s).prefix && Contains(c.net, network(s).addr))
               && (c.Domain? <==> s != "" && '/' !in s && !read(s).V4Literal? && DomainOf(idna, s, true).Some?)
               && (c.Domain? ==> DomainOf(idna, s, true) == Some(c.name)))
  {
    if raw.None? { return Rejected; }
    var s := Trim(raw.value, WHITESPACE);
    if s == "" { return Rejected; }
    if '/' in s {
      var net := network(s);
      match net {
        case NotNetwork => return Rejected;
        case V6Network => return Rejected;
        case V4Network(addr, prefix) =>
          assert prefix <= 32;
          return Range(NetworkOf(addr, prefix));
      }
    }
    var literal := read(s);
    if literal.V4Literal? { return Ipv4(literal.addr); }
    // An IPv6 literal raises and is caught like an unreadable one.
    var name := CanonicalizeDomain(idna, s, true);
    if name.None? { return Rejected; }
    c := Domain(name.value);
  }

  /** Clearing the host bits of a canonical network changes nothing. */
  lemma CanonicalRangeIsFixed(net: Network)
    ensures NetworkOf(net.base, net.prefix) == net
  {
  }

  // ---- canonical names ------------------------------------------------------------------

  lemma {:induction false} FixedLabels(idna: Idna, labels: seq<string>)
    requires forall i :: 0 <= i < |labels| ==> idna(labels[i]) == Some(labels[i])
    ensures EncodeAll(idna, labels) == Some(labels)
  {
    if labels != [] {
      FixedLabels(idna, labels[1..]);
      assert labels == [labels[0]] + labels[1..];
    }
  }

  lemma {:induction false} JoinedLabels(labels: seq<string>)
    requires labels != [] && forall i :: 0 <= i < |labels| ==> LabelOk(labels[i])
    ensures (var s := Join(labels, '.');
             && s != "" && LabelChar(s[0]) && LabelChar(s[|s| - 1])
             && forall i :: 0 <= i < |s| ==> LabelChar(s[i]) || s[i] == '.')
  {
    assert LabelOk(labels[0]);
    if |labels| > 1 {
      JoinedLabels(labels[1..]);
      assert Join(labels, '.') == labels[0] + ['.'] + Join(labels[1..], '.');
    }
  }

  lemma LabelCharIsNoBlank(c: char)
    requires LabelChar(c)
    ensures c !in WHITESPACE && c !in {'.'}
  {
  }

  lemma NameIsClean(s: string)
    requires s != "" && LabelChar(s[0]) && LabelChar(s[|s| - 1])
    requires forall i :: 0 <= i < |s| ==> LabelChar(s[i]) || s[i] == '.'
    ensures Cleaned(s) == s && !Malformed(s)
  {
    hide Trim, Lower;
    LabelCharIsNoBlank(s[0]);
    LabelCharIsNoBlank(s[|s| - 1]);
    TrimFixed(s, WHITESPACE);
    TrimFixed(s, {'.'});
    LowerFixed(s);
  }

  /** A name of valid labels that the encoder leaves alone is its own canonical name, be it an
      address literal or not: 10.0.0.1 passes as a domain. */
  lemma ValidNamesAreFixed(idna: Idna, labels: seq<string>, multilabel: bool)
    requires labels != [] && (multilabel ==> |labels| >= 2)
    requires forall i :: 0 <= i < |labels| ==> LabelOk(labels[i]) && idna(labels[i]) == Some(labels[i])
    ensures DomainOf(idna, Join(labels, '.'), multilabel) == Some(Join(labels, '.'))
  {
    JoinedLabels(labels);
    hide Cleaned, Malformed, Join, Split, EncodeAll;
    NameIsClean(Join(labels, '.'));
    forall i | 0 <= i < |labels| ensures '.' !in labels[i] {
      assert LabelOk(labels[i]) && !LabelChar('.');
    }
    hide LabelOk;
    SplitOfJoin(labels, '.');
    FixedLabels(idna, labels);
  }

  lemma {:induction false} EncodedLabels(idna: Idna, labels: seq<string>, i: nat)
    requires EncodeAll(idna, labels).Some? && i < |labels|
    ensures |EncodeAll(idna, labels).value| == |labels|
    ensures Some(EncodeAll(idna, labels).value[i]) == idna(labels[i])
  {
    if |labels| > 1 { EncodedLabels(idna, labels[1..], if i > 0 then i - 1 else 0); }
  }

  // ---- address literals -----------------------------------------------------------------

  type Octet = n: nat | n < 256

  /** The four labels of an IPv4 literal, and the literal. */
  function QuadLabels(a: Octet, b: Octet, c: Octet, d: Octet): seq<string> {
    [Digits(a), Digits(b), Digits(c), Digits(d)]
  }

  function Quad(a: Octet, b: Octet, c: Octet, d: Octet): string { Join(QuadLabels(a, b, c, d), '.') }

  lemma OctetLabel(n: Octet)
    ensures LabelOk(Digits(n))
  {
    assert |Digits(n)| <= 3 by {
      if n >= 10 { assert |Digits(n / 10)| <= 2 by { if n >= 100 { assert |Digits(n / 10 / 10)| == 1; } } }
    }
    assert forall c :: IsDigit(c) ==> LabelChar(c) && c != '-';
  }

  /** An IPv4 literal passes as a domain if and only if the encoder turns each of its four labels
      into a valid one; it is then the domain of the encoded labels. */
  lemma QuadPassesExactlyWhen(idna: Idna, a: Octet, b: Octet, c: Octet, d: Octet)
    ensures (var labels := QuadLabels(a, b, c, d);
             DomainOf(idna, Quad(a, b, c, d), true).Some? <==>
             forall i :: 0 <= i < 4 ==> idna(labels[i]).Some? && LabelOk(idna(labels[i]).value))
  {
    var labels := QuadLabels(a, b, c, d);
    QuadIsSplit(a, b, c, d);
    assert |labels| == 4;
    hide QuadLabels, Cleaned, Malformed;
    EncodesExactlyWhen(idna, labels);
    if EncodeAll(idna, labels).Some? {
      EncodedLabels(idna, labels, 0);
      forall i | 0 <= i < 4 ensures EncodeAll(idna, labels).value[i] == idna(labels[i]).value {
        EncodedLabels(idna, labels, i);
      }
    }
  }

  lemma QuadIsSplit(a: Octet, b: Octet, c: Octet, d: Octet)
    ensures Cleaned(Quad(a, b, c, d)) == Quad(a, b, c, d) && !Malformed(Quad(a, b, c, d))
    ensures Split(Quad(a, b, c, d), '.') == QuadLabels(a, b, c, d)
  {
    var labels := QuadLabels(a, b, c, d);
    OctetLabel(a);
    OctetLabel(b);
    OctetLabel(c);
    OctetLabel(d);
    hide Digits;
    JoinedLabels(labels);
    NameIsClean(Join(labels, '.'));
    forall i | 0 <= i < |labels| ensures '.' !in labels[i] { assert LabelOk(labels[i]) && !LabelChar('.'); }
    SplitOfJoin(labels, '.');
  }

  lemma {:induction false} EncodesExactlyWhen(idna: Idna, labels: seq<string>)
    ensures EncodeAll(idna, labels).Some? <==> forall i :: 0 <= i < |labels| ==> idna(labels[i]).Some?
  {
    if labels != [] {
      EncodesExactlyWhen(idna, labels[1..]);
      assert labels == [labels[0]] + labels[1..];
    }
  }

  /** With an encoder that leaves digits alone every IPv4 literal is its own canonical domain. */
  lemma LiteralsPassAsDomains(idna: Idna, a: Octet, b: Octet, c: Octet, d: Octet)
    requires forall l: string :: LabelOk(l) && AllDigits(l) ==> idna(l) == Some(l)
    ensures DomainOf(idna, Quad(a, b, c, d), true) == Some(Quad(a, b, c, d))
  {
    OctetLabel(a);
    OctetLabel(b);
    OctetLabel(c);
    OctetLabel(d);
    ValidNamesAreFixed(idna, QuadLabels(a, b, c, d), true);
  }

  /** A text with a colon, such as an IPv6 literal, never passes, as long as the encoder does not
      make colons disappear. */
  lemma ColonsNeverPass(idna: Idna, raw: string, multilabel: bool)
    requires ':' in raw
    requires forall l: string :: ':' in l && idna(l).Some? ==> ':' in idna(l).value
    ensures DomainOf(idna, raw, multilabel).None?
  {
    var s := Cleaned(raw);
    ColonStays(raw);
    var parts := Split(s, '.');
    var i := PartWith(s, '.', ':');
    var labels := EncodeAll(idna, parts);
    if labels.Some? {
      EncodedLabels(idna, parts, i);
      var bad := labels.value[i];
      assert ':' in bad && !LabelChar(':');
      assert !LabelOk(bad);
    }
  }

  lemma {:induction false} TrimLeftKeeps(s: string, cut: set<char>, c: char)
    requires c in s && c !in cut
    ensures c in TrimLeft(s, cut)
  {
    if s[0] in cut { TrimLeftKeeps(s[1..], cut, c); }
  }

  lemma {:induction false} TrimRightKeeps(s: string, cut: set<char>, c: char)
    requires c in s && c !in cut
    ensures c in TrimRight(s, cut)
  {
    if s[|s| - 1] in cut {
      assert s == s[..|s| - 1] + [s[|s| - 1]];
      TrimRightKeeps(s[..|s| - 1], cut, c);
    }
  }

  lemma {:induction false} LowerKeepsColon(s: string)
    requires ':' in s
    ensures ':' in Lower(s)
  {
    if s[0] != ':' { LowerKeepsColon(s[1..]); }
  }

  lemma ColonStays(raw: string)
    requires ':' in raw
    ensures ':' in Cleaned(raw)
  {
    TrimLeftKeeps(raw, WHITESPACE, ':');
    TrimRightKeeps(TrimLeft(raw, WHITESPACE), WHITESPACE, ':');
    var s := Trim(raw, WHITESPACE);
    TrimLeftKeeps(s, {'.'}, ':');
    TrimRightKeeps(TrimLeft(s, {'.'}), {'.'}, ':');
    LowerKeepsColon(Trim(s, {'.'}));
  }

  /** A character other than the separator is in one of the parts. */
  lemma {:induction false} PartWith(s: string, c: char, x: char) returns (i: nat)
    requires x in s && x != c
    ensures i < |Split(s, c)| && x in Split(s, c)[i]
    decreases |s|
  {
    var n := Find(s, c);
    if n == |s| || x in s[..n] {
      i := 0;
    } else {
      assert s == s[..n] + [c] + s[n + 1..];
      var j := PartWith(s[n + 1..], c, x);
      i := j + 1;
    }
  }

  /** A canonical name is its own canonical name, if encoding an encoded label changes nothing. */
  lemma CanonicalNameIsFixed(idna: Idna, raw: string, multilabel: bool)
    requires DomainOf(idna, raw, multilabel).Some?
    requires forall l: string :: idna(l).Some? ==> idna(idna(l).value) == idna(l)
    ensures DomainOf(idna, DomainOf(idna, raw, multilabel).value, multilabel) == DomainOf(idna, raw, multilabel)
  {
    var parts := Split(Cleaned(raw), '.');
    var labels := EncodeAll(idna, parts).value;
    forall i | 0 <= i < |labels| ensures idna(labels[i]) == Some(labels[i]) {
      EncodedLabels(idna, parts, 0);
      EncodedLabels(idna, parts, i);
    }
    EncodedLabels(idna, parts, 0);
    ValidNamesAreFixed(idna, labels, multilabel);
  }

  // ---- which names are accepted ------------------------------------------------------------

  /** 1 to 63 characters out of a..z, 0..9 and the hyphen, with none at either end. */
  predicate GoodLabel(l: string) {
    && l != "" && |l| <= 63 && l[0] != '-' && l[|l| - 1] != '-'
    && forall c :: c in l ==> 'a' <= c <= 'z' || '0' <= c <= '9' || c == '-'
  }

  /** A text, with blanks and then dots around it, is taken in lower case. It is accepted exactly when
      it has no blank, slash or at sign in it, the encoder makes a good label of each of its labels,
      and there are two at least where that is asked for; the name is the encoded labels, joined. */
  lemma DomainOfExactlyWhen(idna: Idna, text: string, labels: seq<string>, multilabel: bool,
                            blanks: string, dots: string, moreDots: string, moreBlanks: string)
    requires labels != [] && Lower(text) == Join(labels, '.') && forall i :: 0 <= i < |labels| ==> '.' !in labels[i]
    requires text != "" && text[0] != '.' && text[|text| - 1] != '.'
    requires text[0] !in WHITESPACE && text[|text| - 1] !in WHITESPACE
    requires forall c :: c in blanks + moreBlanks ==> c in WHITESPACE
    requires forall c :: c in dots + moreDots ==> c == '.'
    ensures (var good := && ' ' !in Lower(text) && '/' !in Lower(text) && '@' !in Lower(text)
                         && (forall i :: 0 <= i < |labels| ==>
                               idna(labels[i]).Some? && GoodLabel(idna(labels[i]).value))
                         && (multilabel ==> |labels| >= 2);
             DomainOf(idna, blanks + (dots + text + moreDots) + moreBlanks, multilabel)
             == if !good then None
                else Some(Join(seq(|labels|, i requires 0 <= i < |labels| => idna(labels[i]).GetOr("")), '.')))
  {
    CleanedAs(text, blanks, dots, moreDots, moreBlanks);
    LowerIsFixed(text);
    NameOfLabels(idna, Lower(text), labels, multilabel, blanks + (dots + text + moreDots) + moreBlanks);
  }

  lemma CleanedAs(text: string, blanks: string, dots: string, moreDots: string, moreBlanks: string)
    requires text != "" && text[0] != '.' && text[|text| - 1] != '.'
    requires text[0] !in WHITESPACE && text[|text| - 1] !in WHITESPACE
    requires forall c :: c in blanks + moreBlanks ==> c in WHITESPACE
    requires forall c :: c in dots + moreDots ==> c == '.'
    ensures Cleaned(blanks + (dots + text + moreDots) + moreBlanks) == Lower(text)
  {
    OuterBlanks(text, blanks, dots, moreDots, moreBlanks);
    TrimTakesTheEnds(dots, text, moreDots, {'.'});
    hide Trim;
  }

  lemma NameOfLabels(idna: Idna, s: string, labels: seq<string>, multilabel: bool, raw: string)
    requires Cleaned(raw) == s && s != "" && labels != [] && s == Join(labels, '.')
    requires forall i :: 0 <= i < |labels| ==> '.' !in labels[i]
    ensures (var good := && ' ' !in s && '/' !in s && '@' !in s
                         && (forall i :: 0 <= i < |labels| ==>
                               idna(labels[i]).Some? && GoodLabel(idna(labels[i]).value))
                         && (multilabel ==> |labels| >= 2);
             DomainOf(idna, raw, multilabel)
             == if !good then None
                else Some(Join(seq(|labels|, i requires 0 <= i < |labels| => idna(labels[i]).GetOr("")), '.')))
  {
    SplitOfJoin(labels, '.');
    EncodesExactlyWhen(idna, labels);
    hide Cleaned, Split, Join;
    if EncodeAll(idna, labels).Some? {
      AllEncoded(idna, labels);
      var encoded := EncodeAll(idna, labels).value;
      forall i | 0 <= i < |labels| ensures LabelOk(encoded[i]) <==> GoodLabel(idna(labels[i]).value) {
        GoodMeansOk(encoded[i]);
      }
    }
    hide LabelOk, GoodLabel, EncodeAll;
  }

  lemma GoodMeansOk(l: string)
    ensures LabelOk(l) <==> GoodLabel(l)
  {
    assert forall i :: 0 <= i < |l| ==> l[i] in l;
  }

  lemma OuterBlanks(text: string, blanks: string, dots: string, moreDots: string, moreBlanks: string)
    requires text != "" && text[0] !in WHITESPACE && text[|text| - 1] !in WHITESPACE
    requires forall c :: c in blanks + moreBlanks ==> c in WHITESPACE
    requires forall c :: c in dots + moreDots ==> c == '.'
    ensures Trim(blanks + (dots + text + moreDots) + moreBlanks, WHITESPACE) == dots + text + moreDots
    ensures forall i :: 0 <= i < |dots| ==> dots[i] in {'.'}
    ensures forall i :: 0 <= i < |moreDots| ==> moreDots[i] in {'.'}
  {
    var middle := dots + text + moreDots;
    forall i | 0 <= i < |dots| ensures dots[i] == '.' { assert dots[i] in dots + moreDots; }
    forall i | 0 <= i < |moreDots| ensures moreDots[i] == '.' { assert moreDots[i] in dots + moreDots; }
    forall i | 0 <= i < |blanks| ensures blanks[i] in WHITESPACE { assert blanks[i] in blanks + moreBlanks; }
    forall i | 0 <= i < |moreBlanks| ensures moreBlanks[i] in WHITESPACE {
      assert moreBlanks[i] in blanks + moreBlanks;
    }
    assert middle[0] == if dots == "" then text[0] else dots[0];
    assert middle[|middle| - 1] == if moreDots == "" then text[|text| - 1] else moreDots[|moreDots| - 1];
    TrimTakesTheEnds(blanks, middle, moreBlanks, WHITESPACE);
  }

  lemma {:induction false} AllEncoded(idna: Idna, labels: seq<string>)
    requires EncodeAll(idna, labels).Some?
    ensures EncodeAll(idna, labels).value == seq(|labels|, i requires 0 <= i < |labels| => idna(labels[i]).GetOr(""))
  {
    if labels != [] { AllEncoded(idna, labels[1..]); }
  }
}
