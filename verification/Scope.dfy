/** Scope evaluation (backend/app/services/scope_service.py) and the addresses the worker then
hands to the active stages (backend/app/worker/runner.py). */
module Scope {
  import opened Base
  import opened Cidr
  import opened Text

  // ---- configuration -----------------------------------------------------------------

  /** A stored range: an IPv4 network, an IPv6 one, or text that denotes neither. */
  datatype Range = V4(net: Network) | V6 | Unreadable

  /** Addresses of deny rules that are IPv6 or unreadable match nothing and are None. */
  datatype DenyRule =
    | DomainExact(value: string)
    | DomainSuffix(value: string)
    | IpRule(addr: Option<Address>)
    | CidrRule(net: Option<Network>)

  /** An approved public target of the requester; an IPv4 address is a block of one. */
  datatype Boundary = PublicDomain(value: string) | PublicNet(net: Option<Network>)

  datatype Target = Ipv4Target(addr: Address) | CidrTarget(net: Network) | DomainTarget(name: string)

  datatype Decision =
    | Allowed
    | DeniedDomain(rule: DenyRule)
    | DeniedAddress(addr: Address, rule: DenyRule)
    | Unresolved
    | NotContained
    | OutsideScope(addr: Address)
    | Crashed

  // ---- what matches --------------------------------------------------------------------

  const DOT: set<char> := {'.'}

  predicate DomainHit(name: string, rule: DenyRule) {
    match rule
    case DomainExact(value) => name == Trim(Lower(value), DOT)
    case DomainSuffix(value) =>
      var suffix := Trim(TrimLeft(Lower(value), DOT), WHITESPACE);
      name == suffix || EndsWith(name, "." + suffix)
    case _ => false
  }

  predicate AddressHit(a: Address, rule: DenyRule) {
    match rule
    case IpRule(addr) => addr == Some(a)
    case CidrRule(net) => net.Some? && Contains(net.value, a)
    case _ => false
  }

  predicate BoundaryClears(target: Target, a: Address, b: Boundary) {
    match b
    case PublicDomain(value) =>
      target.DomainTarget? && (target.name == value || EndsWith(target.name, "." + value))
    case PublicNet(net) => net.Some? && Contains(net.value, a)
  }

  // ---- matching loops ----------------------------------------------------------------

  method FindDomainRule(name: string, rules: seq<DenyRule>) returns (hit: Option<DenyRule>)
    ensures hit.Some? ==> hit.value in rules && DomainHit(name, hit.value)
    ensures hit.None? <==> forall r :: r in rules ==> !DomainHit(name, r)
  {
    for i := 0 to |rules|
      invariant forall j :: 0 <= j < i ==> !DomainHit(name, rules[j])
    {
      if DomainHit(name, rules[i]) { return Some(rules[i]); }
    }
    hit := None;
  }

  method FindAddressRule(a: Address, rules: seq<DenyRule>) returns (hit: Option<DenyRule>)
    ensures hit.Some? ==> hit.value in rules && AddressHit(a, hit.value)
    ensures hit.None? <==> forall r :: r in rules ==> !AddressHit(a, r)
  {
    for i := 0 to |rules|
      invariant forall j :: 0 <= j < i ==> !AddressHit(a, rules[j])
    {
      if AddressHit(a, rules[i]) { return Some(rules[i]); }
    }
    hit := None;
  }

  predicate InRange(a: Address, range: Range) { range.V4? && Contains(range.net, a) }

  method WithinAnyCidr(a: Address, ranges: seq<Range>) returns (inside: bool)
    ensures inside <==> exists r :: r in ranges && InRange(a, r)
  {
    for i := 0 to |ranges|
      invariant forall j :: 0 <= j < i ==> !InRange(a, ranges[j])
    {
      if InRange(a, ranges[i]) { return true; }
    }
    inside := false;
  }

  method WithinPublicBoundary(target: Target, a: Address, boundaries: seq<Boundary>) returns (inside: bool)
    ensures inside <==> exists b :: b in boundaries && BoundaryClears(target, a, b)
  {
    for i := 0 to |boundaries|
      invariant forall j :: 0 <= j < i ==> !BoundaryClears(target, a, boundaries[j])
    {
      if BoundaryClears(target, a, boundaries[i]) { return true; }
    }
    inside := false;
  }

  predicate Covers(net: Network, range: Range) { range.V4? && SubnetOf(net, range.net) }

  /** The first readable range that covers the network, unless unreadable text comes before it:
      `any` stops at the first cover, and reading a malformed range raises. */
  method ContainedInAny(net: Network, ranges: seq<Range>) returns (contained: Option<bool>)
    ensures contained == Some(true) <==> CoveredFirst(net, ranges)
    ensures contained == Some(false) <==> forall r :: r in ranges ==> !Covers(net, r) && !r.Unreadable?
    ensures contained == None <==> Unreadable in ranges && !CoveredFirst(net, ranges)
  {
    for i := 0 to |ranges|
      invariant forall j :: 0 <= j < i ==> !Covers(net, ranges[j]) && !ranges[j].Unreadable?
    {
      if ranges[i].Unreadable? { return None; }
      if Covers(net, ranges[i]) { return Some(true); }
    }
    contained := Some(false);
  }

  predicate CoveredFirst(net: Network, ranges: seq<Range>) {
    exists i :: 0 <= i < |ranges| && Covers(net, ranges[i])
                && forall j :: 0 <= j < i ==> !ranges[j].Unreadable?
  }

  // ---- the decision ------------------------------------------------------------------

  datatype Config = Config(ranges: seq<Range>, rules: seq<DenyRule>, boundaries: seq<Boundary>)

  /** The addresses that stand for a literal target: of a network only the first and the last. */
  function LiteralEnds(target: Target): seq<Address> {
    match target
    case Ipv4Target(a) => [a]
    case CidrTarget(net) =>
      LastInSpace(net);
      [net.base, Last(net)]
    case DomainTarget(_) => []
  }

  predicate Cleared(cfg: Config, target: Target, a: Address) {
    || (exists r :: r in cfg.ranges && InRange(a, r))
    || (exists b :: b in cfg.boundaries && BoundaryClears(target, a, b))
  }

  predicate NotDenied(cfg: Config, target: Target, resolved: seq<Address>) {
    && (target.DomainTarget? ==> forall r :: r in cfg.rules ==> !DomainHit(target.name, r))
    && forall a, r :: a in LiteralEnds(target) + resolved && r in cfg.rules ==> !AddressHit(a, r)
  }

  /** The addresses that must be cleared one by one. */
  function Checked(target: Target, resolved: seq<Address>): seq<Address> {
    if target.CidrTarget? then resolved else LiteralEnds(target) + resolved
  }

  predicate Permits(cfg: Config, target: Target, resolved: seq<Address>) {
    && NotDenied(cfg, target, resolved)
    && (target.DomainTarget? ==> resolved != [])
    && (target.CidrTarget? ==> CoveredFirst(target.net, cfg.ranges))
    && forall a :: a in Checked(target, resolved) ==> Cleared(cfg, target, a)
  }

  method EvaluateActiveScope(cfg: Config, target: Target, resolved: seq<Address>) returns (d: Decision)
    ensures d.Allowed? <==> Permits(cfg, target, resolved)
    ensures d.DeniedDomain? || d.DeniedAddress? <==> !NotDenied(cfg, target, resolved)
    ensures d.Crashed? <==> target.CidrTarget? && NotDenied(cfg, target, resolved)
                            && Unreadable in cfg.ranges && !CoveredFirst(target.net, cfg.ranges)
    ensures d.DeniedDomain? <==> target.DomainTarget? && exists r :: r in cfg.rules && DomainHit(target.name, r)
    ensures d.DeniedDomain? ==> d.rule in cfg.rules && DomainHit(target.name, d.rule)
    ensures d.DeniedAddress? ==>
              d.addr in LiteralEnds(target) + resolved && d.rule in cfg.rules && AddressHit(d.addr, d.rule)
    ensures d.Unresolved? <==> target.DomainTarget? && resolved == [] && NotDenied(cfg, target, resolved)
    ensures d.NotContained? <==>
              && target.CidrTarget? && NotDenied(cfg, target, resolved)
              && forall r :: r in cfg.ranges ==> !Covers(target.net, r) && !r.Unreadable?
    ensures d.OutsideScope? ==> d.addr in Checked(target, resolved) && !Cleared(cfg, target, d.addr)
  {
    if target.DomainTarget? {
      var hit := FindDomainRule(target.name, cfg.rules);
      if hit.Some? { return DeniedDomain(hit.value); }
    }
    var literals := LiteralEnds(target);
    var all := literals + resolved;
    for i := 0 to |all|
      invariant forall j, r :: 0 <= j < i && r in cfg.rules ==> !AddressHit(all[j], r)
    {
      var hit := FindAddressRule(all[i], cfg.rules);
      if hit.Some? {
        assert all[i] in all;
        return DeniedAddress(all[i], hit.value);
      }
    }
    if target.DomainTarget? && resolved == [] { return Unresolved; }
    if target.CidrTarget? {
      var contained := ContainedInAny(target.net, cfg.ranges);
      if contained.None? { return Crashed; }
      if !contained.value { return NotContained; }
    }
    var checked := if !target.CidrTarget? then literals + resolved else resolved;
    for i := 0 to |checked|
      invariant forall j :: 0 <= j < i ==> Cleared(cfg, target, checked[j])
    {
      var inside := WithinAnyCidr(checked[i], cfg.ranges);
      if inside { continue; }
      inside := WithinPublicBoundary(target, checked[i], cfg.boundaries);
      if inside { continue; }
      assert checked[i] in Checked(target, resolved) && !Cleared(cfg, target, checked[i]);
      return OutsideScope(checked[i]);
    }
    d := Allowed;
  }

  // ---- the worker's hand-over ----------------------------------------------------------

  const MAX_HOSTS := 1024

  function Span(from: int, until: int): (s: seq<Address>)
    requires 0 <= from && until <= SPACE
    ensures |s| == Max(until - from, 0)
    ensures forall a: Address :: a in s <==> from <= a < until
    decreases until - from
  {
    if from >= until then [] else [from] + Span(from + 1, until)
  }

  /** The usable addresses of a network, cut to the first MAX_HOSTS. */
  function FirstHosts(net: Network): seq<Address> {
    LastInSpace(net);
    if net.prefix >= 31 then Span(net.base, Last(net) + 1)
    else Span(net.base + 1, Min(Last(net), net.base + 1 + MAX_HOSTS))
  }

  function LiteralHosts(target: Target): seq<Address> {
    match target
    case Ipv4Target(a) => [a]
    case CidrTarget(net) => if FirstHosts(net) != [] then FirstHosts(net) else [net.base]
    case DomainTarget(_) => []
  }

  /** The addresses of an allowed target that reach the active stages. */
  function Handed(target: Target, resolved: seq<Address>): set<Address> {
    (set a | a in resolved) + (set a | a in LiteralHosts(target))
  }

  lemma HostsInside(net: Network)
    ensures forall a :: a in FirstHosts(net) ==> Contains(net, a)
    ensures 1 <= |FirstHosts(net)| <= MAX_HOSTS
  {
    LastInSpace(net);
    forall a | a in FirstHosts(net) ensures Contains(net, a) { ContainsIsInterval(net, a); }
    if net.prefix >= 31 {
      assert Pow2(32 - net.prefix) <= 2;
    } else {
      Pow2Adds(30 - net.prefix, 2);
      assert Pow2(2) == 4;
      assert 30 - net.prefix + 2 == 32 - net.prefix;
      assert Size(net) == Pow2(30 - net.prefix) * 4;
    }
  }

  /** Whatever an allowed target hands to the active stages lies in an approved private range
      or was cleared by a public boundary. A network's addresses are all private, and there are
      at most MAX_HOSTS of them and at least one. */
  lemma HandedAddressesAreInScope(cfg: Config, target: Target, resolved: seq<Address>)
    requires Permits(cfg, target, resolved)
    ensures forall a :: a in Handed(target, resolved) ==> Cleared(cfg, target, a)
    ensures target.CidrTarget? ==>
              forall a :: a in LiteralHosts(target) ==> exists r :: r in cfg.ranges && InRange(a, r)
    ensures Handed(target, resolved) != {}
  {
    match target
    case CidrTarget(net) =>
      HostsInside(net);
      var i :| 0 <= i < |cfg.ranges| && Covers(net, cfg.ranges[i]);
      var range := cfg.ranges[i];
      SubnetMeansInclusion(net, range.net);
      forall a | a in LiteralHosts(target) ensures range in cfg.ranges && InRange(a, range) {
        assert Contains(range.net, a);
      }
      assert LiteralHosts(target)[0] in Handed(target, resolved);
    case Ipv4Target(a) =>
      assert a in LiteralHosts(target) && a in LiteralEnds(target);
      assert a in Handed(target, resolved);
    case DomainTarget(_) => assert resolved[0] in Handed(target, resolved);
  }

  /** Of an address or a domain, no address that is handed over is denied. */
  lemma HandedAddressesAreNotDenied(cfg: Config, target: Target, resolved: seq<Address>)
    requires Permits(cfg, target, resolved) && !target.CidrTarget?
    ensures forall a, r :: a in Handed(target, resolved) && r in cfg.rules ==> !AddressHit(a, r)
  {
    assert LiteralHosts(target) == LiteralEnds(target);
  }

  // ---- denials and networks ------------------------------------------------------------

  /** The addresses a deny rule speaks about, as a block. */
  function Denied(rule: DenyRule): Option<Network> {
    match rule
    case IpRule(addr) =>
      if addr.Some? then
        HostBlock(addr.value);
        Some(NetworkOf(addr.value, 32))
      else None
    case CidrRule(net) => net
    case _ => None
  }

  lemma HostBlock(a: Address)
    ensures NetworkOf(a, 32) == Block(a, 32)
    ensures forall x: Address :: Contains(Block(a, 32), x) <==> x == a
  {
    assert Pow2(0) == 1;
  }

  /** A block that lies strictly between the two ends of a network. */
  predicate StrictlyInside(rule: DenyRule, net: Network) {
    Denied(rule).Some? && net.base < Denied(rule).value.base && Last(Denied(rule).value) < Last(net)
  }

  predicate EndsClear(rule: DenyRule, net: Network)
  {
    forall a :: a in LiteralEnds(CidrTarget(net)) ==> !AddressHit(a, rule)
  }

  predicate AllClear(rule: DenyRule, net: Network) {
    forall a: Address :: Contains(net, a) ==> !AddressHit(a, rule)
  }

  /** Looking only at the two ends of a network is as good as looking at every address exactly
      when the denied block does not lie strictly between them. */
  lemma EndsSufficeExactlyWhen(rule: DenyRule, net: Network)
    ensures (EndsClear(rule, net) ==> AllClear(rule, net)) <==> !StrictlyInside(rule, net)
    ensures AllClear(rule, net) ==> EndsClear(rule, net)
  {
    LastInSpace(net);
    assert net.base in LiteralEnds(CidrTarget(net)) && Last(net) in LiteralEnds(CidrTarget(net));
    forall a: Address ensures Contains(net, a) <==> net.base <= a <= Last(net) {
      ContainsIsInterval(net, a);
    }
    forall a: Address
      ensures AddressHit(a, rule)
         <==> Denied(rule).Some? && Denied(rule).value.base <= a <= Last(Denied(rule).value)
    {
      if Denied(rule).Some? { ContainsIsInterval(Denied(rule).value, a); }
    }
    if Denied(rule).Some? {
      var d := Denied(rule).value;
      LastInSpace(d);
      NestedOrDisjoint(net, d);
      var first: Address := d.base;
      assert AddressHit(first, rule);
    }
  }

  /** An allowed network is contained in no denied block. A denied block touches it only if it
      lies strictly between its ends. */
  lemma AllowedNetworkIsInNoDeniedBlock(cfg: Config, net: Network, resolved: seq<Address>, rule: DenyRule)
    requires Permits(cfg, CidrTarget(net), resolved) && rule in cfg.rules && Denied(rule).Some?
    ensures !SubnetOf(net, Denied(rule).value)
    ensures Disjoint(net, Denied(rule).value) || StrictlyInside(rule, net)
  {
    var d := Denied(rule).value;
    LastInSpace(net);
    assert net.base in LiteralEnds(CidrTarget(net)) + resolved;
    assert Last(net) in LiteralEnds(CidrTarget(net)) + resolved;
    ContainsIsInterval(d, net.base);
    ContainsIsInterval(d, Last(net));
    NestedOrDisjoint(net, d);
  }

  /** A network is allowed although an address strictly between its ends is denied and is
      handed over: any of the first MAX_HOSTS hosts will do. */
  lemma InnerDenialIsMissed(net: Network, a: Address)
    requires net.prefix <= 30 && net.base < a < Last(net) && a <= net.base + MAX_HOSTS
    ensures (var rule := IpRule(Some(a));
             && Permits(Config([V4(net)], [rule], []), CidrTarget(net), [])
             && AddressHit(a, rule) && a in Handed(CidrTarget(net), []))
  {
    hide Contains, Last, FirstHosts;
    var cfg := Config([V4(net)], [IpRule(Some(a))], []);
    assert Covers(net, cfg.ranges[0]);
    assert NotDenied(cfg, CidrTarget(net), []);
    HostIsHanded(net, a);
  }

  lemma HostIsHanded(net: Network, a: Address)
    requires net.prefix <= 30 && net.base < a < Last(net) && a <= net.base + MAX_HOSTS
    ensures a in FirstHosts(net)
  {
    LastInSpace(net);
  }

  // ---- more rules, other orders ----------------------------------------------------------

  ghost predicate SameElements<T(!new)>(a: seq<T>, b: seq<T>) { forall x :: x in a <==> x in b }

  predicate MoreRules(a: seq<DenyRule>, b: seq<DenyRule>) { forall r :: r in a ==> r in b }

  /** What order has no part in: nothing is denied, some range covers a network, and every
      address to check is cleared. */
  predicate PermitsInSomeOrder(cfg: Config, target: Target, resolved: seq<Address>) {
    && NotDenied(cfg, target, resolved)
    && (target.DomainTarget? ==> resolved != [])
    && (target.CidrTarget? ==> exists r :: r in cfg.ranges && Covers(target.net, r))
    && forall a :: a in Checked(target, resolved) ==> Cleared(cfg, target, a)
  }

  lemma SomeOrderIsMonotone(a: Config, b: Config, target: Target, x: seq<Address>, y: seq<Address>)
    requires SameElements(a.ranges, b.ranges) && SameElements(a.boundaries, b.boundaries)
    requires MoreRules(a.rules, b.rules) && SameElements(x, y)
    requires PermitsInSomeOrder(b, target, y)
    ensures PermitsInSomeOrder(a, target, x)
  {
    assert NotDenied(a, target, x) by {
      forall p, r | p in LiteralEnds(target) + x && r in a.rules ensures !AddressHit(p, r) {
        assert p in LiteralEnds(target) + y && r in b.rules;
      }
    }
    forall p | p in Checked(target, x) ensures Cleared(a, target, p) {
      assert p in Checked(target, y);
      assert Cleared(b, target, p);
    }
    if target.DomainTarget? { assert y[0] in x; }
  }

  lemma OrderAside(cfg: Config, target: Target, resolved: seq<Address>)
    ensures Permits(cfg, target, resolved)
       <==> PermitsInSomeOrder(cfg, target, resolved)
            && (target.CidrTarget? ==> CoveredFirst(target.net, cfg.ranges))
  {
    if target.CidrTarget? && CoveredFirst(target.net, cfg.ranges) {
      var i :| 0 <= i < |cfg.ranges| && Covers(target.net, cfg.ranges[i]);
      assert cfg.ranges[i] in cfg.ranges;
    }
  }

  /** What is allowed stays allowed with fewer deny rules and with any list reordered or
      repeated, if and only if for a network a covering range still comes before every
      unreadable one. */
  lemma FewerRulesAllowExactlyWhen(a: Config, b: Config, target: Target, x: seq<Address>, y: seq<Address>)
    requires SameElements(a.ranges, b.ranges) && SameElements(a.boundaries, b.boundaries)
    requires MoreRules(a.rules, b.rules) && SameElements(x, y)
    requires Permits(b, target, y)
    ensures Permits(a, target, x) <==> (target.CidrTarget? ==> CoveredFirst(target.net, a.ranges))
  {
    OrderAside(b, target, y);
    SomeOrderIsMonotone(a, b, target, x, y);
    OrderAside(a, target, x);
  }

  /** Adding deny rules, and reordering or repeating any list, never turns a refusal into an
      allowance: for every target when the ranges can all be read, and for every target that is
      not a network in any case. */
  lemma MoreRulesNeverAllowMore(a: Config, b: Config, target: Target, x: seq<Address>, y: seq<Address>)
    requires SameElements(a.ranges, b.ranges) && SameElements(a.boundaries, b.boundaries)
    requires MoreRules(a.rules, b.rules) && SameElements(x, y)
    requires Permits(b, target, y)
    ensures Permits(a, target, x) || (target.CidrTarget? && Unreadable in a.ranges)
  {
    FewerRulesAllowExactlyWhen(a, b, target, x, y);
    if target.CidrTarget? && Unreadable !in a.ranges {
      OrderAside(b, target, y);
      var r :| r in b.ranges && Covers(target.net, r);
      var k :| 0 <= k < |a.ranges| && a.ranges[k] == r;
      assert CoveredFirst(target.net, a.ranges);
    }
  }

  ghost predicate Rearranged(a: seq<Range>, b: seq<Range>) { multiset(a) == multiset(b) }

  lemma RearrangedSame(a: seq<Range>, b: seq<Range>)
    requires Rearranged(a, b)
    ensures SameElements(a, b)
  {
    forall r ensures r in a <==> r in b {
      assert r in a <==> r in multiset(a);
      assert r in b <==> r in multiset(b);
    }
  }

  /** Bringing one range to the front. */
  lemma ToFront(ranges: seq<Range>, r: Range) returns (front: seq<Range>)
    requires r in ranges
    ensures Rearranged(front, ranges) && front != [] && front[0] == r
  {
    var i :| 0 <= i < |ranges| && ranges[i] == r;
    front := [r] + ranges[..i] + ranges[i + 1..];
    assert ranges == ranges[..i] + [r] + ranges[i + 1..];
  }

  /** The answers for two orders of the same ranges differ. */
  ghost predicate OrderMatters(cfg: Config, target: Target, resolved: seq<Address>) {
    exists p: seq<Range>, q: seq<Range> ::
      && Rearranged(p, cfg.ranges) && Rearranged(q, cfg.ranges)
      && Permits(cfg.(ranges := p), target, resolved) && !Permits(cfg.(ranges := q), target, resolved)
  }

  /** The order of the private ranges matters if and only if one of them cannot be read and the
      target is a network that would be allowed in some order. In particular it never matters
      when no range covers the network. */
  lemma OrderMattersExactlyWhen(cfg: Config, target: Target, resolved: seq<Address>)
    ensures OrderMatters(cfg, target, resolved)
       <==> target.CidrTarget? && Unreadable in cfg.ranges && PermitsInSomeOrder(cfg, target, resolved)
  {
    if OrderMatters(cfg, target, resolved) {
      var p: seq<Range>, q: seq<Range> :|
        && Rearranged(p, cfg.ranges) && Rearranged(q, cfg.ranges)
        && Permits(cfg.(ranges := p), target, resolved) && !Permits(cfg.(ranges := q), target, resolved);
      RearrangedSame(p, cfg.ranges);
      RearrangedSame(q, cfg.ranges);
      MoreRulesNeverAllowMore(cfg.(ranges := q), cfg.(ranges := p), target, resolved, resolved);
      OrderAside(cfg.(ranges := p), target, resolved);
      SomeOrderIsMonotone(cfg, cfg.(ranges := p), target, resolved, resolved);
    }
    if target.CidrTarget? && Unreadable in cfg.ranges && PermitsInSomeOrder(cfg, target, resolved) {
      var r :| r in cfg.ranges && Covers(target.net, r);
      var p := ToFront(cfg.ranges, r);
      var q := ToFront(cfg.ranges, Unreadable);
      RearrangedSame(p, cfg.ranges);
      SomeOrderIsMonotone(cfg.(ranges := p), cfg, target, resolved, resolved);
      assert CoveredFirst(target.net, p);
      OrderAside(cfg.(ranges := p), target, resolved);
      assert !CoveredFirst(target.net, q) by {
        assert forall i :: 0 <= i < |q| && Covers(target.net, q[i]) ==> i > 0 && q[0].Unreadable?;
      }
      assert !Permits(cfg.(ranges := q), target, resolved);
    }
  }

  /** A network that some order of the ranges allows is not allowed in some other order if and
      only if a range cannot be read. */
  lemma SomeOrderRefusesExactlyWhen(cfg: Config, net: Network, resolved: seq<Address>)
    requires Permits(cfg, CidrTarget(net), resolved)
    ensures (exists q: seq<Range> :: Rearranged(q, cfg.ranges)
                                     && !Permits(cfg.(ranges := q), CidrTarget(net), resolved))
       <==> Unreadable in cfg.ranges
  {
    var target := CidrTarget(net);
    assert cfg.(ranges := cfg.ranges) == cfg && Rearranged(cfg.ranges, cfg.ranges);
    OrderAside(cfg, target, resolved);
    OrderMattersExactlyWhen(cfg, target, resolved);
  }

  /** The smallest case: covering range first, the network is allowed; unreadable one first, it
      is not. */
  lemma OrderMattersWithUnreadableRanges(net: Network)
    ensures Permits(Config([V4(net), Unreadable], [], []), CidrTarget(net), [])
    ensures !Permits(Config([Unreadable, V4(net)], [], []), CidrTarget(net), [])
  {
    assert Covers(net, [V4(net), Unreadable][0]);
    var late := [Unreadable, V4(net)];
    assert late[0].Unreadable? && forall i :: 0 <= i < |late| && Covers(net, late[i]) ==> i == 1;
  }
}
