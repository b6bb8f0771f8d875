/** When two networks clash, as the rule editor and the tunnel address checks test it. */
module Overlap {
  import opened Ipv4
  import Routing

  /** Each check looks only at the first addresses. */
  predicate Overlaps(a: Cidr, b: Cidr) {
    Has(a, b.network) || Has(b, a.network)
  }

  predicate Shares(a: Cidr, b: Cidr, ip: int) {
    Has(a, ip) && Has(b, ip)
  }

  lemma SmallerInside(small: Cidr, large: Cidr, ip: int)
    requires small.prefix >= large.prefix && Shares(small, large, ip)
    ensures Has(large, small.network)
  {
    NestedOrDisjoint(small, large, ip);
  }

  /** Looking at the first addresses is enough: two networks clash exactly when they share an address. */
  lemma OverlapsIffShared(a: Cidr, b: Cidr)
    ensures Overlaps(a, b) <==> exists ip :: Shares(a, b, ip)
  {
    if Has(a, b.network) {
      assert Shares(a, b, b.network);
    }
    if Has(b, a.network) {
      assert Shares(a, b, a.network);
    }
    forall ip | Shares(a, b, ip)
      ensures Overlaps(a, b)
    {
      if a.prefix >= b.prefix {
        SmallerInside(a, b, ip);
      } else {
        SmallerInside(b, a, ip);
      }
    }
  }

  const FIRST_RESERVED: int := 0xc612_0000
  const LAST_RESERVED: int := 0xc613_ffff

  lemma BelowOneBlock(index: nat, size: nat, network: nat)
    requires network == index * size && network < size
    ensures network == 0
  {
    if index > 0 {
      TimesAtLeast(index, size);
    }
  }

  lemma TimesAtLeast(index: nat, size: nat)
    requires index > 0
    ensures index * size >= size
  {
    assert index * size == size + (index - 1) * size;
  }

  /** Half the index gives the parent block, at the same address or one block lower. */
  lemma ParentMultiple(index: nat, size: nat, network: nat)
    requires network == index * size
    ensures (index / 2) * (2 * size) == if index % 2 == 0 then network else network - size
  {
    Regroup(index / 2, size);
    var even := 2 * (index / 2);
    if index % 2 == 1 {
      assert (even + 1) * size == even * size + size;
    }
  }

  /** A multiple of a block's size starts a block. */
  lemma {:induction false} MultipleIsAligned(index: nat, prefix: int, network: nat)
    requires 0 <= prefix <= 32 && IsAddress(network) && network == index * BlockSize(prefix)
    ensures Aligned(network, prefix)
    decreases prefix
  {
    if prefix == 0 {
      Pow2Of32();
      BelowOneBlock(index, BlockSize(prefix), network);
    } else {
      ParentIsMultiple(index, prefix, network);
      var parent := if index % 2 == 0 then network else network - BlockSize(prefix);
      MultipleIsAligned(index / 2, prefix - 1, parent);
    }
  }

  lemma ParentIsMultiple(index: nat, prefix: int, network: nat)
    requires 0 < prefix <= 32 && network == index * BlockSize(prefix)
    ensures var parent := if index % 2 == 0 then network else network - BlockSize(prefix);
      0 <= parent <= network && parent == (index / 2) * BlockSize(prefix - 1)
  {
    ParentMultiple(index, BlockSize(prefix), network);
    ParentSize(prefix);
  }

  lemma ParentSize(prefix: int)
    requires 0 < prefix <= 32
    ensures BlockSize(prefix - 1) == 2 * BlockSize(prefix)
  {
  }

  lemma ReservedSize()
    ensures BlockSize(15) == 0x2_0000
  {
    Pow2Add(8, 9);
    assert Pow2(8) == 256;
    assert Pow2(9) == 2 * Pow2(8);
  }

  /** 198.18.0.0/15, the range of fake addresses. */
  function Reserved(): (n: Cidr)
    ensures n.network == FIRST_RESERVED && Broadcast(n) == LAST_RESERVED
  {
    ReservedSize();
    MultipleIsAligned(0x6309, 15, FIRST_RESERVED);
    Net(FIRST_RESERVED, 15)
  }

  /** A CIDR rule is accepted exactly when it matches no fake address. */
  predicate RuleAccepted(network: Cidr) {
    !Overlaps(network, Reserved())
  }

  lemma AcceptedRulesMissFakes(network: Cidr)
    ensures RuleAccepted(network) <==> forall ip :: FIRST_RESERVED <= ip <= LAST_RESERVED ==> !Has(network, ip)
  {
    OverlapsIffShared(network, Reserved());
    if RuleAccepted(network) {
      forall ip | FIRST_RESERVED <= ip <= LAST_RESERVED
        ensures !Has(network, ip)
      {
        assert !Shares(network, Reserved(), ip);
      }
    } else {
      var ip :| Shares(network, Reserved(), ip);
      assert FIRST_RESERVED <= ip <= LAST_RESERVED && Has(network, ip);
    }
  }

  // ----- the LAN ranges -----

  lemma SmallBlocks()
    ensures BlockSize(32) == 1 && BlockSize(16) == 0x1_0000 && BlockSize(12) == 0x10_0000
    ensures BlockSize(8) == 0x100_0000 && BlockSize(4) == 0x1000_0000
  {
    assert Pow2(4) == 16 && Pow2(8) == 256;
    Pow2Add(8, 8);
    Pow2Add(16, 4);
    Pow2Add(16, 8);
    Pow2Add(24, 4);
  }

  function BlockAt(index: nat, prefix: int, network: nat): (n: Cidr)
    requires 0 <= prefix <= 32 && IsAddress(network) && network == index * BlockSize(prefix)
    ensures n == Net(network, prefix)
  {
    MultipleIsAligned(index, prefix, network);
    Net(network, prefix)
  }

  /** `LAN_RANGES`, as networks. */
  function LanRanges(): (ranges: seq<Cidr>)
    ensures |ranges| == 7
  {
    SmallBlocks();
    [ BlockAt(0x0a, 8, 0x0a00_0000), BlockAt(0x7f, 8, 0x7f00_0000), BlockAt(0xa9fe, 16, 0xa9fe_0000),
      BlockAt(0xac1, 12, 0xac10_0000), BlockAt(0xc0a8, 16, 0xc0a8_0000), BlockAt(0xe, 4, 0xe000_0000),
      BlockAt(0xffff_ffff, 32, 0xffff_ffff) ]
  }

  /** The classifier's intervals are exactly the addresses of the seven networks. */
  lemma LanIsSevenNetworks(ip: int)
    ensures Routing.IsLan(ip) <==> exists i :: 0 <= i < 7 && Has(LanRanges()[i], ip)
  {
    SmallBlocks();
    var r := LanRanges();
    assert Has(r[0], ip) <==> 0x0a00_0000 <= ip <= 0x0aff_ffff;
    assert Has(r[1], ip) <==> 0x7f00_0000 <= ip <= 0x7fff_ffff;
    assert Has(r[2], ip) <==> 0xa9fe_0000 <= ip <= 0xa9fe_ffff;
    assert Has(r[3], ip) <==> 0xac10_0000 <= ip <= 0xac1f_ffff;
    assert Has(r[4], ip) <==> 0xc0a8_0000 <= ip <= 0xc0a8_ffff;
    assert Has(r[5], ip) <==> 0xe000_0000 <= ip <= 0xefff_ffff;
    assert Has(r[6], ip) <==> ip == 0xffff_ffff;
  }
}
