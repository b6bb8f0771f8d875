/** What makes a canonical list canonical: it is the unique and shortest list for its addresses. */
module CanonicalForm {
  import opened Ipv4
  import opened Aggregation

  /** One half of a network. */
  function Half(n: Cidr, upper: bool): (h: Cidr)
    requires n.prefix < 32
    ensures h.prefix == n.prefix + 1 && BlockSize(n.prefix) == 2 * BlockSize(h.prefix)
    ensures h.network == if upper then n.network + BlockSize(h.prefix) else n.network
    ensures Contains(n, h)
  {
    HalvesAreValid(n);
    if upper then Net(n.network + BlockSize(n.prefix + 1), n.prefix + 1) else Net(n.network, n.prefix + 1)
  }

  lemma HalvesAreValid(n: Cidr)
    requires n.prefix < 32
    ensures Net(n.network, n.prefix + 1).Valid()
    ensures Net(n.network + BlockSize(n.prefix + 1), n.prefix + 1).Valid()
  {
    AlignedBase(n.network, n.prefix);
    AlignedUpperHalf(n.network, n.prefix, n.network + BlockSize(n.prefix + 1));
  }

  lemma AlignedUpperHalf(network: int, prefix: int, upper: int)
    requires 0 <= prefix < 32 && Aligned(network, prefix)
    requires upper == network + BlockSize(prefix + 1)
    ensures Aligned(upper, prefix + 1)
  {
  }

  lemma HalvesAreSiblings(n: Cidr)
    requires n.prefix < 32
    ensures Siblings(Half(n, false), Half(n, true))
  {
    AlignedBase(n.network, n.prefix);
    BaseShared(n.network, Half(n, true).network, n.prefix);
  }

  lemma {:induction false} LongerIsSmaller(short: int, long: int)
    requires 0 <= short < long <= 32
    ensures BlockSize(long) < BlockSize(short)
    decreases long - short
  {
    if short + 1 < long {
      LongerIsSmaller(short + 1, long);
    }
  }

  lemma ContainedIsLonger(outer: Cidr, inner: Cidr)
    requires Contains(outer, inner)
    ensures outer.prefix <= inner.prefix
    ensures outer.prefix == inner.prefix ==> outer == inner
  {
    if inner.prefix < outer.prefix {
      LongerIsSmaller(inner.prefix, outer.prefix);
    }
  }

  lemma HasInOnlyOne(networks: seq<Cidr>, i: nat, j: nat, ip: int)
    requires Ascending(networks) && i < |networks| && j < |networks|
    requires Has(networks[i], ip) && Has(networks[j], ip)
    ensures i == j
  {
  }

  lemma GapBetween(networks: seq<Cidr>, i: nat, j: nat)
    requires Ascending(networks) && i + 1 < j < |networks|
    ensures Broadcast(networks[i]) + 1 < networks[j].network
  {
    assert Broadcast(networks[i]) < networks[i + 1].network <= Broadcast(networks[i + 1]) < networks[j].network;
  }

  /** In an ascending list nothing fits between two siblings. */
  lemma SiblingsAreNeighbours(networks: seq<Cidr>, i: nat, j: nat)
    requires Canonical(networks) && i < |networks| && j < |networks|
    ensures !Siblings(networks[i], networks[j])
  {
    if Siblings(networks[i], networks[j]) {
      ParentContainsOnlySibling(networks[i], networks[j]);
      if i + 1 < j {
        GapBetween(networks, i, j);
      }
    }
  }

  ghost predicate Inside(block: Cidr, networks: seq<Cidr>) {
    forall ip :: Has(block, ip) ==> ip in Cover(networks)
  }

  /** Every aligned block inside the covered addresses lies inside a single entry. */
  lemma {:induction false} BlockInsideOne(networks: seq<Cidr>, block: Cidr) returns (index: nat)
    requires Canonical(networks) && Inside(block, networks)
    ensures index < |networks| && Contains(networks[index], block)
    decreases 32 - block.prefix
  {
    assert Has(block, block.network);
    index :| 0 <= index < |networks| && Has(networks[index], block.network);
    if networks[index].prefix <= block.prefix {
      NestedOrDisjoint(block, networks[index], block.network);
    } else {
      var lower, upper := Half(block, false), Half(block, true);
      var i := BlockInsideOne(networks, lower);
      var j := BlockInsideOne(networks, upper);
      HasInOnlyOne(networks, i, index, block.network);
      ContainedIsLonger(networks[i], lower);
      if networks[j].prefix <= block.prefix {
        NestedOrDisjoint(block, networks[j], upper.network);
        index := j;
      } else {
        ContainedIsLonger(networks[j], upper);
        HalvesAreSiblings(block);
        SiblingsAreNeighbours(networks, i, j);
        assert false;
      }
    }
  }

  lemma FirstIsMember(networks: seq<Cidr>)
    requires networks != []
    ensures networks[0] in networks
  {
  }

  lemma {:induction false} SameMembersSameList(left: seq<Cidr>, right: seq<Cidr>)
    requires Ascending(left) && Ascending(right)
    requires forall n :: n in left <==> n in right
    ensures left == right
    decreases |left|
  {
    if left == [] {
      if right != [] {
        FirstIsMember(right);
      }
    } else {
      assert left[0] in right && right != [];
      assert right[0] in left;
      var j :| 0 <= j < |right| && right[j] == left[0];
      var i :| 0 <= i < |left| && left[i] == right[0];
      assert i == 0 && j == 0;
      forall n
        ensures n in left[1..] <==> n in right[1..]
      {
        if n in left[1..] {
          var k :| 1 <= k < |left| && left[k] == n;
          assert Broadcast(left[0]) < left[k].network;
          assert n in right;
        }
        if n in right[1..] {
          var k :| 1 <= k < |right| && right[k] == n;
          assert Broadcast(right[0]) < right[k].network;
          assert n in left;
        }
      }
      SameMembersSameList(left[1..], right[1..]);
    }
  }

  lemma MemberOfOther(left: seq<Cidr>, right: seq<Cidr>, i: nat)
    requires Canonical(left) && Canonical(right) && Cover(left) == Cover(right)
    requires i < |left|
    ensures left[i] in right
  {
    assert Inside(left[i], right) by {
      assert forall ip :: Has(left[i], ip) ==> ip in Cover(left);
    }
    var j := BlockInsideOne(right, left[i]);
    assert Inside(right[j], left) by {
      assert forall ip :: Has(right[j], ip) ==> ip in Cover(right);
    }
    var k := BlockInsideOne(left, right[j]);
    HasInOnlyOne(left, i, k, left[i].network);
    ContainedIsLonger(right[j], left[i]);
    ContainedIsLonger(left[i], right[j]);
  }

  /** The canonical list depends only on the addresses covered. */
  lemma CanonicalIsUnique(left: seq<Cidr>, right: seq<Cidr>)
    requires Canonical(left) && Canonical(right)
    requires Cover(left) == Cover(right)
    ensures left == right
  {
    forall n
      ensures n in left <==> n in right
    {
      if n in left {
        var i :| 0 <= i < |left| && left[i] == n;
        MemberOfOther(left, right, i);
      }
      if n in right {
        var i :| 0 <= i < |right| && right[i] == n;
        MemberOfOther(right, left, i);
      }
    }
    SameMembersSameList(left, right);
  }

  predicate HoldsOneOf(block: Cidr, other: seq<Cidr>) {
    exists j :: 0 <= j < |other| && Contains(block, other[j])
  }

  /** Disjoint blocks that each hold an entry of `other` need at least as many entries. */
  lemma {:induction false} OneEntryEach(blocks: seq<Cidr>, other: seq<Cidr>)
    requires Ascending(blocks)
    requires forall i :: 0 <= i < |blocks| ==> HoldsOneOf(blocks[i], other)
    ensures |blocks| <= |other|
    decreases |blocks|
  {
    if blocks != [] {
      var last := |blocks| - 1;
      var j :| 0 <= j < |other| && Contains(blocks[last], other[j]);
      var fewer := other[..j] + other[j + 1..];
      forall i | 0 <= i < last
        ensures HoldsOneOf(blocks[..last][i], fewer)
      {
        var k :| 0 <= k < |other| && Contains(blocks[i], other[k]);
        assert Has(blocks[i], other[k].network);
        assert k != j;
        assert fewer[if k < j then k else k - 1] == other[k];
      }
      OneEntryEach(blocks[..last], fewer);
    }
  }

  /** No list of networks covering the same addresses is shorter. */
  lemma CanonicalIsShortest(canonical: seq<Cidr>, other: seq<Cidr>)
    requires Canonical(canonical) && Cover(canonical) == Cover(other)
    ensures |canonical| <= |other|
  {
    forall i | 0 <= i < |canonical|
      ensures HoldsOneOf(canonical[i], other)
    {
      var ip := canonical[i].network;
      assert Has(canonical[i], ip);
      assert ip in Cover(canonical);
      var j :| 0 <= j < |other| && Has(other[j], ip);
      assert Inside(other[j], canonical) by {
        assert forall a :: Has(other[j], a) ==> a in Cover(other);
      }
      var k := BlockInsideOne(canonical, other[j]);
      HasInOnlyOne(canonical, i, k, ip);
    }
    OneEntryEach(canonical, other);
  }

  // ----- every list has a canonical form -----

  /** A network merged into a stack that it may be merged into. */
  ghost function MergedUp(stack: seq<Cidr>, network: Cidr, later: seq<Cidr>): (r: seq<Cidr>)
    requires Mergeable(stack, network) && BeforeAll(network, later)
    ensures r != [] && Canonical(r) && Cover(r) == Cover(stack + [network]) && BeforeAll(r[|r| - 1], later)
    decreases |stack|
  {
    if stack == [] || !Joins(stack[|stack| - 1], network) then
      NothingJoins(stack, network);
      stack + [network]
    else
      MergeKeeps(stack, stack[..|stack| - 1], network, later);
      MergedUp(stack[..|stack| - 1], Supernet(network).value, later)
  }

  /** The stack algorithm on what is left of an ordered list. */
  ghost function FormFrom(stack: seq<Cidr>, seen: seq<Cidr>, rest: seq<Cidr>): (r: seq<Cidr>)
    requires Canonical(stack) && Cover(stack) == Cover(seen) && Ordered(rest)
    requires stack != [] ==> BeforeAll(stack[|stack| - 1], rest)
    ensures Canonical(r) && Cover(r) == Cover(seen + rest)
    decreases |rest|
  {
    if rest == [] then
      assert seen + rest == seen;
      stack
    else
      var network, later := rest[0], rest[1..];
      assert rest == [network] + later && seen + rest == seen + [network] + later;
      OrderedRest(rest, 0);
      FormFrom(WithNext(stack, seen, network, later), seen + [network], later)
  }

  /** One more entry, which is not before any of the stack and not after any later one. */
  ghost function WithNext(stack: seq<Cidr>, seen: seq<Cidr>, network: Cidr, later: seq<Cidr>): (r: seq<Cidr>)
    requires Canonical(stack) && Cover(stack) == Cover(seen) && BeforeAll(network, later)
    requires stack != [] ==> BeforeAll(stack[|stack| - 1], [network] + later)
    ensures r != [] && Canonical(r) && Cover(r) == Cover(seen + [network]) && BeforeAll(r[|r| - 1], later)
  {
    CoverPush(stack, network);
    CoverPush(seen, network);
    if stack == [] then MergedUp(stack, network, later)
    else
      BeforeRest(stack[|stack| - 1], network, later);
      if Contains(stack[|stack| - 1], network) then
        ContainedAddsNothing(stack, seen, network);
        stack
      else
        NotContainedIsAbove(stack[|stack| - 1], network);
        MergedUp(stack, network, later)
  }

  ghost function CanonicalOf(networks: seq<Cidr>): (r: seq<Cidr>)
    ensures Canonical(r) && Cover(r) == Cover(networks)
  {
    var sorted := Sorted(networks);
    PermutationKeepsCover(sorted, networks);
    assert [] + sorted == sorted;
    FormFrom([], [], sorted)
  }
}
