/** Which names and addresses the scope rules speak about, in terms of labels and of the first and the
last address of a block. */
module ScopeFacts {
  import opened Base
  import opened Cidr
  import opened Text
  import opened Scope

  /** The labels of the parent are the last labels of the name. */
  predicate Under(name: string, parent: string) { IsSuffix(Split(parent, '.'), Split(name, '.')) }

  predicate Inside(a: Address, net: Network) { net.base <= a <= Last(net) }

  // ---- boundaries ------------------------------------------------------------------------------

  /** A domain boundary clears every address of the targets under it and of no other; an address
      boundary clears the addresses between its ends, whatever the target. */
  lemma BoundaryClearsExactlyWhen(target: Target, a: Address, b: Boundary)
    ensures BoundaryClears(target, a, b) <==>
              match b
              case PublicDomain(value) => target.DomainTarget? && Under(target.name, value)
              case PublicNet(net) => net.Some? && Inside(a, net.value)
  {
    match b
    case PublicDomain(value) =>
      if target.DomainTarget? { EndsInPartsExactlyWhen(target.name, value, '.'); }
    case PublicNet(net) => if net.Some? { ContainsIsInterval(net.value, a); }
  }

  // ---- deny rules --------------------------------------------------------------------------------

  /** A suffix rule hits the names under what it says, whatever its case and however many dots it
      starts with. */
  lemma SuffixRuleHitsExactlyWhen(name: string, value: string, dots: string, parent: string)
    requires Lower(value) == dots + parent && forall i :: 0 <= i < |dots| ==> dots[i] == '.'
    requires parent != "" && parent[0] != '.' && parent[0] !in WHITESPACE && parent[|parent| - 1] !in WHITESPACE
    ensures DomainHit(name, DomainSuffix(value)) <==> Under(name, parent)
  {
    LeftTaken(dots, parent, DOT);
    TrimFixed(parent, WHITESPACE);
    EndsInPartsExactlyWhen(name, parent, '.');
    assert "." + parent == ['.'] + parent;
  }

  /** An exact rule hits the one name it says, up to case and dots around it. */
  lemma ExactRuleHitsExactlyWhen(name: string, value: string, left: string, other: string, right: string)
    requires Lower(value) == left + other + right
    requires other != "" && other[0] != '.' && other[|other| - 1] != '.'
    requires forall i :: 0 <= i < |left| ==> left[i] == '.'
    requires forall i :: 0 <= i < |right| ==> right[i] == '.'
    ensures DomainHit(name, DomainExact(value)) <==> name == other
  {
    TrimTakesTheEnds(left, other, right, DOT);
  }

  /** An address rule hits its address, and a block rule what lies between its ends. */
  predicate Strikes(rule: DenyRule, a: Address) {
    || (rule.IpRule? && rule.addr == Some(a))
    || (rule.CidrRule? && rule.net.Some? && Inside(a, rule.net.value))
  }

  lemma AddressRuleHitsExactlyWhen(a: Address, rule: DenyRule)
    ensures AddressHit(a, rule) <==> Strikes(rule, a)
  {
    if rule.CidrRule? && rule.net.Some? { ContainsIsInterval(rule.net.value, a); }
  }

  // ---- the decision --------------------------------------------------------------------------------

  predicate InSomeRange(cfg: Config, a: Address) {
    exists r :: r in cfg.ranges && r.V4? && Inside(a, r.net)
  }

  /** Private, public by its address, or public by the name it was resolved from. */
  predicate MayReach(cfg: Config, target: Target, a: Address) {
    || InSomeRange(cfg, a)
    || (exists b :: b in cfg.boundaries && b.PublicNet? && b.net.Some? && Inside(a, b.net.value))
    || (target.DomainTarget? && exists b :: b in cfg.boundaries && b.PublicDomain? && Under(target.name, b.value))
  }

  predicate Struck(cfg: Config, a: Address) { exists r :: r in cfg.rules && Strikes(r, a) }

  predicate NameStruck(cfg: Config, name: string) { exists r :: r in cfg.rules && DomainHit(name, r) }

  predicate EndStruck(cfg: Config, net: Network) {
    LastInSpace(net);
    Struck(cfg, net.base) || Struck(cfg, Last(net))
  }

  /** A range holds the whole network, and no range before it is unreadable. */
  predicate WithinReadable(cfg: Config, net: Network) {
    exists i :: 0 <= i < |cfg.ranges| && cfg.ranges[i].V4?
                && Inside(net.base, cfg.ranges[i].net) && Last(net) <= Last(cfg.ranges[i].net)
                && forall j :: 0 <= j < i ==> !cfg.ranges[j].Unreadable?
  }

  /** A target is allowed exactly when none of its addresses is denied and each may be reached. A
      name must not be denied itself and must resolve. A network stands or falls with its first and
      its last address, a range that holds it, and whatever was resolved beside it. */
  lemma AllowedExactlyWhen(cfg: Config, target: Target, resolved: seq<Address>)
    ensures Permits(cfg, target, resolved) <==>
              && (forall a :: a in resolved ==> !Struck(cfg, a) && MayReach(cfg, target, a))
              && match target
                 case Ipv4Target(a) => !Struck(cfg, a) && MayReach(cfg, target, a)
                 case DomainTarget(name) => !NameStruck(cfg, name) && resolved != []
                 case CidrTarget(net) => !EndStruck(cfg, net) && WithinReadable(cfg, net)
  {
    forall a: Address ensures Struck(cfg, a) <==> exists r :: r in cfg.rules && AddressHit(a, r) {
      DeniedMeansStruck(cfg, a);
    }
    forall a: Address ensures Cleared(cfg, target, a) <==> MayReach(cfg, target, a) {
      ClearedMeansMayReach(cfg, target, a);
    }
    hide Struck, MayReach, Cleared, AddressHit, DomainHit;
    var ends := LiteralEnds(target);
    assert forall a :: a in ends + resolved <==> a in ends || a in resolved;
    if target.CidrTarget? {
      LastInSpace(target.net);
      assert ends == [target.net.base, Last(target.net)];
      CoveredMeansWithin(cfg, target.net);
    }
  }

  lemma CoveredMeansWithin(cfg: Config, net: Network)
    ensures CoveredFirst(net, cfg.ranges) <==> WithinReadable(cfg, net)
  {
    LastInSpace(net);
    if CoveredFirst(net, cfg.ranges) {
      var i :| 0 <= i < |cfg.ranges| && Covers(net, cfg.ranges[i])
               && forall j :: 0 <= j < i ==> !cfg.ranges[j].Unreadable?;
      assert Inside(net.base, cfg.ranges[i].net);
    }
    if WithinReadable(cfg, net) {
      var i :| 0 <= i < |cfg.ranges| && cfg.ranges[i].V4?
               && Inside(net.base, cfg.ranges[i].net) && Last(net) <= Last(cfg.ranges[i].net)
               && forall j :: 0 <= j < i ==> !cfg.ranges[j].Unreadable?;
      assert Covers(net, cfg.ranges[i]);
    }
  }

  lemma DeniedMeansStruck(cfg: Config, a: Address)
    ensures Struck(cfg, a) <==> exists r :: r in cfg.rules && AddressHit(a, r)
  {
    forall r ensures AddressHit(a, r) <==> Strikes(r, a) { AddressRuleHitsExactlyWhen(a, r); }
  }

  lemma ClearedMeansMayReach(cfg: Config, target: Target, a: Address)
    ensures Cleared(cfg, target, a) <==> MayReach(cfg, target, a)
  {
    forall r: Range ensures InRange(a, r) <==> r.V4? && Inside(a, r.net) {
      if r.V4? { ContainsIsInterval(r.net, a); }
    }
    forall b: Boundary ensures BoundaryClears(target, a, b) <==>
        (b.PublicNet? && b.net.Some? && Inside(a, b.net.value))
        || (b.PublicDomain? && target.DomainTarget? && Under(target.name, b.value))
    {
      BoundaryClearsExactlyWhen(target, a, b);
    }
    hide BoundaryClears, InRange, Inside, Under;
  }

  /** A name under no boundary is never allowed with an address that is in no range and between the
      ends of no public block. */
  lemma OtherNamesStayOut(cfg: Config, name: string, resolved: seq<Address>, a: Address)
    requires forall b :: b in cfg.boundaries && b.PublicDomain? ==> !Under(name, b.value)
    requires a in resolved && !InSomeRange(cfg, a)
    requires forall b :: b in cfg.boundaries && b.PublicNet? && b.net.Some? ==> !Inside(a, b.net.value)
    ensures !Permits(cfg, DomainTarget(name), resolved)
  {
    AllowedExactlyWhen(cfg, DomainTarget(name), resolved);
  }

  /** The hosts of a network that are handed over: both or the one address of the smallest networks,
      and otherwise the addresses after the first up to the one before the last, 1024 at most. */
  lemma FirstHostsAre(net: Network)
    ensures forall a: Address :: a in FirstHosts(net) <==>
              if net.prefix >= 31 then Inside(a, net)
              else net.base < a < Last(net) && a <= net.base + 1024
    ensures |FirstHosts(net)| == if net.prefix >= 31 then Size(net) else Min(Size(net) - 2, 1024)
  {
    LastInSpace(net);
    HostsInside(net);
    if net.prefix < 31 { Pow2Adds(30 - net.prefix, 2); }
  }
}
