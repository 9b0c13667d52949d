/** IPv4 blocks in prefix notation (section 3.1 of RFC 4632). */
module Cidr {

  const SPACE: int := 0x1_0000_0000

  function Pow2(n: nat): (p: nat)
    ensures p > 0
  {
    if n == 0 then 1 else 2 * Pow2(n - 1)
  }

  type Address = a: int | 0 <= a < SPACE

  datatype Block = Block(base: int, prefix: int) {
    predicate Aligned() {
      && 0 <= prefix <= 32
      && 0 <= base < SPACE
      && base % Pow2(32 - prefix) == 0
    }
  }

  type Network = b: Block | b.Aligned() witness Block(0, 32)

  function Size(n: Network): int { Pow2(32 - n.prefix) }

  function Last(n: Network): int { n.base + Size(n) - 1 }

  /** The address with its host bits cleared. */
  function Mask(a: Address, prefix: nat): int
    requires prefix <= 32
  {
    a - a % Pow2(32 - prefix)
  }

  /** ip_network(..., strict=False): host bits are cleared. */
  function NetworkOf(a: Address, prefix: nat): (n: Network)
    requires prefix <= 32
  {
    MaskIsAligned(a, prefix);
    Block(Mask(a, prefix), prefix)
  }

  /** Membership is tested on the masked address. */
  predicate Contains(n: Network, a: Address) { Mask(a, n.prefix) == n.base }

  predicate SubnetOf(a: Network, b: Network) { b.base <= a.base && Last(b) >= Last(a) }

  predicate Disjoint(a: Network, b: Network) { Last(a) < b.base || Last(b) < a.base }

  // ---- arithmetic ------------------------------------------------------------------

  lemma MaskAligned(a: int, size: nat)
    requires size > 0 && a >= 0
    ensures (a - a % size) % size == 0
  {
    var q := a / size;
    assert a == q * size + a % size;
    MulMod(q, size);
  }

  lemma MaskIsAligned(a: Address, prefix: nat)
    requires prefix <= 32
    ensures Block(Mask(a, prefix), prefix).Aligned()
  {
    var size := Pow2(32 - prefix);
    MaskAligned(a, size);
    RemainderAtMost(a, size);
  }

  lemma MulMod(q: int, size: nat)
    requires size > 0
    ensures (q * size) % size == 0
  {
    ModUnique(q * size, size, q, 0);
  }

  /** The remainder is the only number below the divisor that fits. */
  lemma ModUnique(x: int, size: nat, q: int, r: int)
    requires size > 0 && x == q * size + r && 0 <= r < size
    ensures x % size == r && x / size == q
  {
    var q', r' := x / size, x % size;
    assert x == q' * size + r';
    assert (q - q') * size == r' - r && (q' - q) * size == r - r';
    if q > q' { Grows(q - q', size); }
    if q' > q { Grows(q' - q, size); }
  }

  lemma Grows(k: int, size: nat)
    requires k >= 1
    ensures k * size >= size
  {
  }

  lemma {:induction false} Pow2Adds(m: nat, n: nat)
    ensures Pow2(m + n) == Pow2(m) * Pow2(n)
  {
    if n > 0 {
      Pow2Adds(m, n - 1);
      assert Pow2(m + n) == 2 * (Pow2(m) * Pow2(n - 1)) == Pow2(m) * (2 * Pow2(n - 1));
    }
  }

  lemma WholeSpace()
    ensures Pow2(32) == SPACE
  {
    assert Pow2(8) == 256;
    Pow2Adds(8, 8);
    Pow2Adds(16, 16);
  }

  /** Cutting a remainder to a smaller power of two. */
  lemma RemainderOfRemainder(x: nat, small: nat, k: nat)
    requires small > 0 && k > 0
    ensures small * k > 0
    ensures (x % (small * k)) % small == x % small
    ensures x % (small * k) - x % small + small <= small * k
  {
    var big := small * k;
    assert big > 0 by { Grows(k, small); }
    var q, r := x / big, x % big;
    var p, s := r / small, r % small;
    assert x == q * big + r && r == p * small + s;
    assert x == (q * k + p) * small + s by {
      assert q * big == (q * k) * small;
    }
    ModUnique(x, small, q * k + p, s);
    assert p < k by {
      if p >= k {
        assert p * small >= k * small by { Monotone(k, p, small); }
        assert false;
      }
    }
    Monotone(p + 1, k, small);
    assert (p + 1) * small == p * small + small;
  }

  lemma Monotone(a: int, b: int, c: nat)
    requires a <= b
    ensures a * c <= b * c
  {
  }

  // ---- blocks ------------------------------------------------------------------------

  /** A block is the interval from its base to its last address. */
  lemma ContainsIsInterval(n: Network, a: Address)
    ensures Contains(n, a) <==> n.base <= a <= Last(n)
  {
    var size := Size(n);
    if Contains(n, a) {
      assert 0 <= a % size < size;
    } else if n.base <= a <= Last(n) {
      var q := n.base / size;
      assert n.base == q * size;
      ModUnique(a, size, q, a - n.base);
    }
  }

  lemma LastInSpace(n: Network)
    ensures n.base <= Last(n) < SPACE
    ensures Contains(n, n.base) && Contains(n, Last(n))
  {
    var size := Size(n);
    Pow2Adds(32 - n.prefix, n.prefix);
    WholeSpace();
    var k := Pow2(n.prefix);
    assert SPACE == size * k;
    RemainderOfRemainder(n.base, size, k);
    ModUnique(n.base, SPACE, 0, n.base);
    ContainsIsInterval(n, n.base);
    ContainsIsInterval(n, Last(n));
  }

  /** Two blocks that share an address are nested: the longer prefix is inside. */
  lemma SharingMeansNested(a: Network, b: Network, x: Address)
    requires Contains(a, x) && Contains(b, x) && a.prefix >= b.prefix
    ensures SubnetOf(a, b)
  {
    var k := Pow2(a.prefix - b.prefix);
    Pow2Adds(32 - a.prefix, a.prefix - b.prefix);
    assert 32 - a.prefix + (a.prefix - b.prefix) == 32 - b.prefix;
    assert Size(b) == Size(a) * k;
    RemainderOfRemainder(x, Size(a), k);
    RemainderAtMost(x % Size(b), Size(a));
  }

  lemma RemainderAtMost(x: nat, size: nat)
    requires size > 0
    ensures x % size <= x
  {
    if x < size { ModUnique(x, size, 0, x); }
  }

  lemma NestedOrDisjoint(a: Network, b: Network)
    ensures SubnetOf(a, b) || SubnetOf(b, a) || Disjoint(a, b)
  {
    LastInSpace(a);
    LastInSpace(b);
    if !Disjoint(a, b) {
      var x := if a.base >= b.base then a.base else b.base;
      ContainsIsInterval(a, x);
      ContainsIsInterval(b, x);
      if a.prefix >= b.prefix { SharingMeansNested(a, b, x); } else { SharingMeansNested(b, a, x); }
    }
  }

  /** Being a subnet is having every address in. */
  lemma SubnetMeansInclusion(a: Network, b: Network)
    ensures SubnetOf(a, b) <==> forall x: Address :: Contains(a, x) ==> Contains(b, x)
  {
    LastInSpace(a);
    LastInSpace(b);
    forall x: Address
      ensures (Contains(a, x) <==> a.base <= x <= Last(a)) && (Contains(b, x) <==> b.base <= x <= Last(b))
    {
      ContainsIsInterval(a, x);
      ContainsIsInterval(b, x);
    }
    var first: Address, last: Address := a.base, Last(a);
    assert Contains(a, first) && Contains(a, last);
  }
}
