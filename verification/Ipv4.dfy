/** IPv4 addresses as integers and CIDR networks, as the `ipnet` crate defines them. */
module Ipv4 {

  datatype Option<+T> = None | Some(value: T)

  const ADDRESS_COUNT: int := 0x1_0000_0000

  predicate IsAddress(ip: int) {
    0 <= ip < ADDRESS_COUNT
  }

  function Pow2(n: nat): (r: nat)
    ensures r > 0
  {
    if n == 0 then 1 else 2 * Pow2(n - 1)
  }

  lemma Pow2Add(a: nat, b: nat)
    ensures Pow2(a + b) == Pow2(a) * Pow2(b)
  {
    if a != 0 {
      Pow2Add(a - 1, b);
    }
  }

  lemma Pow2Of32()
    ensures Pow2(32) == ADDRESS_COUNT
  {
    assert Pow2(8) == 256;
    Pow2Add(8, 8);
    Pow2Add(16, 16);
  }

  /** Number of addresses in a block of the given prefix length. */
  function BlockSize(prefix: int): (r: nat)
    requires 0 <= prefix <= 32
    ensures r > 0
  {
    Pow2(32 - prefix)
  }

  /**
   * The first address of the block of the given prefix length around `ip`, found by descending
   * the binary address tree; BaseClearsHostBits relates it to masking.
   */
  function Base(ip: int, prefix: int): (b: int)
    requires IsAddress(ip) && 0 <= prefix <= 32
    ensures 0 <= b <= ip < b + BlockSize(prefix)
    ensures b + BlockSize(prefix) <= ADDRESS_COUNT
    decreases prefix
  {
    Pow2Of32();
    if prefix == 0 then 0
    else
      var parent := Base(ip, prefix - 1);
      if ip < parent + BlockSize(prefix) then parent else parent + BlockSize(prefix)
  }

  lemma Regroup(quotient: nat, size: nat)
    ensures quotient * (2 * size) == (2 * quotient) * size
    ensures (2 * quotient + 1) * size == (2 * quotient) * size + size
  {
  }

  /** Descending the tree clears exactly the host bits: the base is a multiple of the block size. */
  lemma {:induction false} BaseClearsHostBits(ip: int, prefix: int) returns (quotient: nat)
    requires IsAddress(ip) && 0 <= prefix <= 32
    ensures Base(ip, prefix) == quotient * BlockSize(prefix)
    decreases prefix
  {
    if prefix == 0 {
      quotient := 0;
    } else {
      var above := BaseClearsHostBits(ip, prefix - 1);
      Regroup(above, BlockSize(prefix));
      if Base(ip, prefix) == Base(ip, prefix - 1) {
        quotient := 2 * above;
      } else {
        quotient := 2 * above + 1;
      }
    }
  }

  /** Every address of a block has that block's base. */
  lemma {:induction false} BaseShared(ip: int, other: int, prefix: int)
    requires IsAddress(ip) && 0 <= prefix <= 32
    requires Base(ip, prefix) <= other < Base(ip, prefix) + BlockSize(prefix)
    ensures Base(other, prefix) == Base(ip, prefix)
    decreases prefix
  {
    if prefix > 0 {
      BaseShared(ip, other, prefix - 1);
    }
  }

  /** A shorter prefix cannot tell addresses of one block apart. */
  lemma {:induction false} BaseCoarser(ip: int, other: int, long: int, short: int)
    requires IsAddress(ip) && IsAddress(other) && 0 <= short <= long <= 32
    requires Base(ip, long) == Base(other, long)
    ensures Base(ip, short) == Base(other, short)
    ensures Base(ip, short) <= Base(ip, long)
    ensures Base(ip, long) + BlockSize(long) <= Base(ip, short) + BlockSize(short)
    decreases long
  {
    if short < long {
      BaseShared(ip, Base(ip, long), long - 1);
      BaseShared(other, Base(other, long), long - 1);
      BaseCoarser(ip, other, long - 1, short);
    }
  }

  /** `network` starts a block of the given prefix length in the binary address tree. */
  predicate Aligned(network: int, prefix: int)
    requires 0 <= prefix <= 32
    decreases prefix
  {
    if prefix == 0 then network == 0
    else Aligned(network, prefix - 1) || Aligned(network - BlockSize(prefix), prefix - 1)
  }

  /** A network whose host bits are zero; the lists the agent stores hold only these. */
  datatype Net = Net(network: int, prefix: int) {
    predicate Valid() {
      IsAddress(network) && 0 <= prefix <= 32 && Aligned(network, prefix)
    }
  }

  lemma {:induction false} BaseAligned(ip: int, prefix: int)
    requires IsAddress(ip) && 0 <= prefix <= 32
    ensures Aligned(Base(ip, prefix), prefix)
    decreases prefix
  {
    if prefix > 0 {
      BaseAligned(ip, prefix - 1);
      HalvesAligned(Base(ip, prefix - 1), prefix);
    }
  }

  lemma HalvesAligned(network: int, prefix: int)
    requires 0 < prefix <= 32 && Aligned(network, prefix - 1)
    ensures Aligned(network, prefix) && Aligned(network + BlockSize(prefix), prefix)
  {
    var upper := network + BlockSize(prefix);
    assert upper - BlockSize(prefix) == network;
  }

  lemma {:induction false} AlignedBase(network: int, prefix: int)
    requires IsAddress(network) && 0 <= prefix <= 32 && Aligned(network, prefix)
    ensures Base(network, prefix) == network
    decreases prefix
  {
    if prefix > 0 {
      if Aligned(network, prefix - 1) {
        AlignedBase(network, prefix - 1);
      } else {
        var parent := network - BlockSize(prefix);
        AlignedNotNegative(parent, prefix - 1);
        AlignedBase(parent, prefix - 1);
        BaseShared(parent, network, prefix - 1);
      }
    }
  }

  lemma {:induction false} AlignedNotNegative(network: int, prefix: int)
    requires 0 <= prefix <= 32 && Aligned(network, prefix)
    ensures network >= 0
    decreases prefix
  {
    if prefix > 0 {
      if Aligned(network, prefix - 1) {
        AlignedNotNegative(network, prefix - 1);
      } else {
        AlignedNotNegative(network - BlockSize(prefix), prefix - 1);
      }
    }
  }

  type Cidr = n: Net | n.Valid() witness Net(0, 0)

  function Broadcast(n: Cidr): (b: int)
    ensures n.network <= b
  {
    n.network + BlockSize(n.prefix) - 1
  }

  lemma BroadcastIsAddress(n: Cidr)
    ensures Broadcast(n) < ADDRESS_COUNT
  {
    AlignedBase(n.network, n.prefix);
  }

  predicate Has(n: Cidr, ip: int) {
    n.network <= ip <= Broadcast(n)
  }

  predicate Contains(outer: Cidr, inner: Cidr) {
    outer.network <= inner.network && Broadcast(inner) <= Broadcast(outer)
  }

  /** The network of the given prefix length around an address. */
  function Trunc(ip: int, prefix: int): (n: Cidr)
    requires IsAddress(ip) && 0 <= prefix <= 32
    ensures n.prefix == prefix && Has(n, ip)
  {
    BaseAligned(ip, prefix);
    Net(Base(ip, prefix), prefix)
  }

  /** The enclosing network one bit shorter; the whole address space has none. */
  function Supernet(n: Cidr): (r: Option<Cidr>)
    ensures r.None? <==> n.prefix == 0
    ensures r.Some? ==> r.value.prefix == n.prefix - 1 && Contains(r.value, n)
  {
    if n.prefix == 0 then None
    else
      AlignedBase(n.network, n.prefix);
      BaseCoarser(n.network, n.network, n.prefix, n.prefix - 1);
      Some(Trunc(n.network, n.prefix - 1))
  }

  /** Two aligned blocks never straddle: the smaller lies inside the larger or beside it. */
  lemma {:induction false} NestedOrDisjoint(small: Cidr, large: Cidr, ip: int)
    requires small.prefix >= large.prefix
    requires Has(small, ip) && Has(large, ip)
    ensures Contains(large, small)
  {
    AlignedBase(small.network, small.prefix);
    AlignedBase(large.network, large.prefix);
    BaseShared(small.network, ip, small.prefix);
    BaseShared(large.network, ip, large.prefix);
    BaseCoarser(small.network, ip, small.prefix, large.prefix);
  }

  /** `lower` and `upper` are the two halves of one network. */
  predicate Siblings(lower: Cidr, upper: Cidr) {
    && lower.prefix == upper.prefix > 0
    && lower.network < upper.network
    && Supernet(lower) == Supernet(upper)
  }

  /** How the aggregation recognises a sibling below it: same length, inside the parent. */
  lemma {:induction false} ParentContainsOnlySibling(lower: Cidr, upper: Cidr)
    requires lower.prefix == upper.prefix > 0 && lower.network < upper.network
    ensures Contains(Supernet(upper).value, lower) <==> Siblings(lower, upper)
    ensures Siblings(lower, upper) ==>
      && Supernet(upper).value.network == lower.network
      && Broadcast(lower) + 1 == upper.network
      && Broadcast(Supernet(upper).value) == Broadcast(upper)
  {
    AlignedBase(lower.network, lower.prefix);
    AlignedBase(upper.network, upper.prefix);
    if Contains(Supernet(upper).value, lower) {
      BaseShared(upper.network, lower.network, upper.prefix - 1);
    }
  }

  lemma ProductGrows(a: int, b: int, size: nat)
    requires a < b
    ensures a * size + size <= b * size
  {
    assert (b - a - 1) * size >= 0;
  }

  lemma QuotientIs(quotient: int, size: nat, x: int)
    requires size > 0 && quotient * size <= x < quotient * size + size
    ensures x / size == quotient
  {
    if x / size < quotient {
      ProductGrows(x / size, quotient, size);
    } else if quotient < x / size {
      ProductGrows(quotient, x / size, size);
    }
  }

  lemma InBlock(quotient: int, size: nat, y: int)
    requires size > 0
    ensures quotient * size <= y < quotient * size + size <==> y / size == quotient
  {
    if quotient * size <= y < quotient * size + size {
      QuotientIs(quotient, size, y);
    }
    assert y == (y / size) * size + y % size;
  }

  /** A network of an address has exactly the addresses with the same leading bits. */
  lemma SameBlock(x: int, y: int, prefix: int)
    requires IsAddress(x) && IsAddress(y) && 0 <= prefix <= 32
    ensures Has(Trunc(x, prefix), y) <==> x / BlockSize(prefix) == y / BlockSize(prefix)
  {
    var quotient := BaseClearsHostBits(x, prefix);
    InBlock(quotient, BlockSize(prefix), x);
    InBlock(quotient, BlockSize(prefix), y);
  }
}
