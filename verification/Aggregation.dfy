/** Canonical CIDR lists: how `aggregate_ipv4` builds them and why they are unique and minimal. */
module Aggregation {
  import opened Ipv4

  /** The addresses a list of networks covers. */
  ghost function Cover(networks: seq<Cidr>): iset<int> {
    iset ip | Covers(networks, ip)
  }

  predicate Covers(networks: seq<Cidr>, ip: int) {
    exists i :: 0 <= i < |networks| && Has(networks[i], ip)
  }

  /** Sorted and pairwise disjoint. */
  predicate Ascending(networks: seq<Cidr>) {
    forall i, j :: 0 <= i < j < |networks| ==> Broadcast(networks[i]) < networks[j].network
  }

  /** Sorted, disjoint, and no two neighbours are halves of one network. */
  predicate Canonical(networks: seq<Cidr>) {
    && Ascending(networks)
    && forall i, j :: 0 <= i < |networks| && j == i + 1 < |networks| ==> !Siblings(networks[i], networks[j])
  }

  // ----- sorting by (network, prefix length), the order `Ipv4Net` derives -----

  predicate Before(left: Cidr, right: Cidr) {
    left.network < right.network || (left.network == right.network && left.prefix <= right.prefix)
  }

  predicate Ordered(networks: seq<Cidr>) {
    forall i, j :: 0 <= i <= j < |networks| ==> Before(networks[i], networks[j])
  }

  /** Where an entry belongs in a sorted list. */
  function Position(networks: seq<Cidr>, network: Cidr): (p: nat)
    ensures p <= |networks|
    ensures forall i :: 0 <= i < p ==> Before(networks[i], network)
    ensures p < |networks| ==> Before(network, networks[p])
  {
    if networks == [] || Before(network, networks[0]) then 0
    else 1 + Position(networks[1..], network)
  }

  lemma OrderedInsert(networks: seq<Cidr>, p: nat, network: Cidr)
    requires Ordered(networks) && p <= |networks|
    requires forall i :: 0 <= i < p ==> Before(networks[i], network)
    requires p < |networks| ==> Before(network, networks[p])
    ensures Ordered(networks[..p] + [network] + networks[p..])
  {
    var r := networks[..p] + [network] + networks[p..];
    forall i, j | 0 <= i <= j < |r|
      ensures Before(r[i], r[j])
    {
      var i', j' := if i <= p then i else i - 1, if j <= p then j else j - 1;
      if i != p && j != p {
        assert Before(networks[i'], networks[j']);
      } else if i == p && j > p {
        assert Before(networks[p], networks[j']);
      }
    }
  }

  function Inserted(networks: seq<Cidr>, network: Cidr): (r: seq<Cidr>)
    requires Ordered(networks)
    ensures Ordered(r) && multiset(r) == multiset(networks) + multiset{network}
  {
    var p := Position(networks, network);
    assert networks == networks[..p] + networks[p..];
    OrderedInsert(networks, p, network);
    networks[..p] + [network] + networks[p..]
  }

  function Sorted(networks: seq<Cidr>): (r: seq<Cidr>)
    ensures Ordered(r) && multiset(r) == multiset(networks)
  {
    if networks == [] then []
    else
      assert networks == networks[..|networks| - 1] + [networks[|networks| - 1]];
      Inserted(Sorted(networks[..|networks| - 1]), networks[|networks| - 1])
  }

  lemma PermutationKeepsCover(left: seq<Cidr>, right: seq<Cidr>)
    requires multiset(left) == multiset(right)
    ensures |left| == |right| && Cover(left) == Cover(right)
  {
    assert |left| == |multiset(left)| == |multiset(right)| == |right|;
    assert forall n :: n in left <==> n in multiset(left);
    assert forall n :: n in right <==> n in multiset(right);
    CoverOfMembers(left, right);
    CoverOfMembers(right, left);
  }

  lemma CoverOfMembers(part: seq<Cidr>, whole: seq<Cidr>)
    requires forall n :: n in part ==> n in whole
    ensures Cover(part) <= Cover(whole)
  {
    forall ip | ip in Cover(part)
      ensures ip in Cover(whole)
    {
      var i :| 0 <= i < |part| && Has(part[i], ip);
      assert part[i] in whole;
    }
  }

  // ----- the steps of the stack algorithm -----

  lemma NotContainedIsAbove(top: Cidr, network: Cidr)
    requires Before(top, network) && !Contains(top, network)
    ensures Broadcast(top) < network.network
  {
    if Broadcast(top) >= network.network {
      if top.prefix <= network.prefix {
        NestedOrDisjoint(network, top, network.network);
      } else {
        NestedOrDisjoint(top, network, network.network);
      }
    }
  }

  lemma CoverPush(networks: seq<Cidr>, network: Cidr)
    ensures Cover(networks + [network]) == Cover(networks) + Cover([network])
    ensures forall ip :: ip in Cover([network]) <==> Has(network, ip)
  {
    var all := networks + [network];
    forall ip
      ensures ip in Cover([network]) <==> Has(network, ip)
    {
      assert [network][0] == network;
    }
    forall ip
      ensures ip in Cover(all) <==> ip in Cover(networks) || Has(network, ip)
    {
      assert Has(all[|networks|], ip) <==> Has(network, ip);
      if ip in Cover(networks) {
        var i :| 0 <= i < |networks| && Has(networks[i], ip);
        assert Has(all[i], ip);
      }
    }
  }

  /** Replacing two siblings at the top of the stack by their parent. */
  lemma MergeStep(below: seq<Cidr>, top: Cidr, network: Cidr)
    requires Siblings(top, network)
    ensures Cover(below + [Supernet(network).value]) == Cover(below + [top] + [network])
  {
    var parent := Supernet(network).value;
    assert Cover([parent]) == Cover([top]) + Cover([network]) by {
      ParentContainsOnlySibling(top, network);
      CoverPush([], parent);
      CoverPush([], network);
      CoverPush([], top);
      assert [] + [parent] == [parent] && [] + [top] == [top] && [] + [network] == [network];
    }
    CoverPush(below, parent);
    CoverPush(below + [top], network);
    CoverPush(below, top);
  }

  lemma PushStep(stack: seq<Cidr>, network: Cidr)
    requires Canonical(stack)
    requires stack != [] ==> Broadcast(stack[|stack| - 1]) < network.network && !Siblings(stack[|stack| - 1], network)
    ensures Canonical(stack + [network])
  {
  }

  lemma PopStep(stack: seq<Cidr>, top: Cidr)
    requires Canonical(stack + [top])
    ensures Canonical(stack)
    ensures stack != [] ==> Broadcast(stack[|stack| - 1]) < top.network
  {
    var all := stack + [top];
    assert all[..|stack|] == stack;
    if stack != [] {
      assert Broadcast(all[|stack| - 1]) < all[|stack|].network;
    }
  }

  lemma ContainedAddsNothing(stack: seq<Cidr>, seen: seq<Cidr>, network: Cidr)
    requires Cover(stack) == Cover(seen)
    requires stack != [] && Contains(stack[|stack| - 1], network)
    ensures Cover(stack) == Cover(seen + [network])
  {
    CoverPush(seen, network);
    forall ip | Has(network, ip)
      ensures ip in Cover(stack)
    {
      assert Has(stack[|stack| - 1], ip);
    }
  }

  /** `network` may be merged into or pushed on the stack. */
  ghost predicate Mergeable(stack: seq<Cidr>, network: Cidr) {
    Canonical(stack) && (stack != [] ==> Broadcast(stack[|stack| - 1]) < network.network)
  }

  ghost predicate BeforeAll(network: Cidr, later: seq<Cidr>) {
    forall k :: 0 <= k < |later| ==> Before(network, later[k])
  }

  /** The test of the inner loop: same length, and the parent contains the entry below. */
  predicate Joins(previous: Cidr, network: Cidr) {
    match Supernet(network)
    case None => false
    case Some(parent) => previous.prefix == network.prefix && Contains(parent, previous)
  }

  lemma JoinsIsSiblings(previous: Cidr, network: Cidr)
    requires Broadcast(previous) < network.network
    ensures Joins(previous, network) <==> Siblings(previous, network)
  {
    if previous.prefix == network.prefix > 0 {
      ParentContainsOnlySibling(previous, network);
    }
  }

  /** One turn of the inner loop: the top goes, and the parent takes the network's place. */
  lemma MergeKeeps(stack: seq<Cidr>, below: seq<Cidr>, network: Cidr, later: seq<Cidr>)
    requires Mergeable(stack, network) && BeforeAll(network, later)
    requires stack != [] && below == stack[..|stack| - 1] && Joins(stack[|stack| - 1], network)
    ensures Mergeable(below, Supernet(network).value)
    ensures Cover(below + [Supernet(network).value]) == Cover(stack + [network])
    ensures BeforeAll(Supernet(network).value, later)
  {
    var top := stack[|stack| - 1];
    assert stack == below + [top];
    JoinsIsSiblings(top, network);
    assert Cover(below + [Supernet(network).value]) == Cover(below + [top] + [network]) by {
      MergeStep(below, top, network);
    }
    ParentContainsOnlySibling(top, network);
    PopStep(below, top);
  }

  /** The end of the inner loop: what cannot be merged can be pushed. */
  lemma NothingJoins(stack: seq<Cidr>, network: Cidr)
    requires Mergeable(stack, network) && (stack != [] ==> !Joins(stack[|stack| - 1], network))
    ensures Canonical(stack + [network])
  {
    if stack != [] {
      JoinsIsSiblings(stack[|stack| - 1], network);
    }
    PushStep(stack, network);
  }

  /**
   * The inner loop: while the top of the stack is the other half of `network`'s parent, pop it
   * and continue with the parent.
   */
  method MergeUp(networks: array<Cidr>, first: Cidr, top: nat, ghost later: seq<Cidr>) returns (network: Cidr,
    written: nat)
    requires top <= networks.Length && Mergeable(networks[..top], first) && BeforeAll(first, later)
    ensures written <= top
    ensures Canonical(networks[..written] + [network])
    ensures Cover(networks[..written] + [network]) == Cover(networks[..top] + [first])
    ensures BeforeAll(network, later)
  {
    network, written := first, top;
    while written > 0 && Joins(networks[written - 1], network)
      invariant written <= top
      invariant Mergeable(networks[..written], network)
      invariant Cover(networks[..written] + [network]) == Cover(networks[..top] + [first])
      invariant BeforeAll(network, later)
    {
      MergeKeeps(networks[..written], networks[..written - 1], network, later);
      written := written - 1;
      network := Supernet(network).value;
    }
    NothingJoins(networks[..written], network);
  }

  /** One pass of the outer loop: drop an entry inside the top, merge and push any other. */
  method Place(networks: array<Cidr>, top: nat, network: Cidr, ghost later: seq<Cidr>) returns (written: nat)
    requires top < networks.Length && Canonical(networks[..top]) && BeforeAll(network, later)
    requires top > 0 ==> Before(networks[top - 1], network) && BeforeAll(networks[top - 1], later)
    modifies networks
    ensures 0 < written <= top + 1
    ensures networks[top + 1..] == old(networks[top + 1..])
    ensures Canonical(networks[..written])
    ensures Cover(networks[..written]) == Cover(old(networks[..top]) + [network])
    ensures BeforeAll(networks[written - 1], later)
  {
    ghost var stack := networks[..top];
    if top > 0 && Contains(networks[top - 1], network) {
      ContainedAddsNothing(stack, stack, network);
      return top;
    }
    if top > 0 {
      NotContainedIsAbove(networks[top - 1], network);
    }
    var merged;
    merged, written := MergeUp(networks, network, top, later);
    ghost var result := networks[..written] + [merged];
    networks[written] := merged;
    written := written + 1;
    assert networks[..written] == result;
  }

  method SortInPlace(networks: array<Cidr>)
    modifies networks
    ensures networks[..] == Sorted(old(networks[..])) && Ordered(networks[..])
    ensures Cover(networks[..]) == Cover(old(networks[..]))
  {
    ghost var given := networks[..];
    var sorted := Sorted(networks[..]);
    PermutationKeepsCover(sorted, given);
    forall i | 0 <= i < networks.Length {
      networks[i] := sorted[i];
    }
    assert networks[..] == sorted;
  }

  /** After `read` sorted entries the first `written` places hold their canonical form, the rest are untouched. */
  ghost predicate Stage(vector: seq<Cidr>, sorted: seq<Cidr>, read: nat, written: nat) {
    && |vector| == |sorted| && written <= read <= |sorted|
    && vector[read..] == sorted[read..]
    && Canonical(vector[..written]) && Cover(vector[..written]) == Cover(sorted[..read])
    && (written > 0 ==> BeforeAll(vector[written - 1], sorted[read..]))
  }

  lemma FirstOfRest(vector: seq<Cidr>, sorted: seq<Cidr>, read: nat)
    requires read < |vector| == |sorted| && vector[read..] == sorted[read..]
    ensures vector[read] == sorted[read] && vector[read + 1..] == sorted[read + 1..]
    ensures sorted[..read + 1] == sorted[..read] + [sorted[read]]
    ensures sorted[read..] == [sorted[read]] + sorted[read + 1..]
  {
    assert vector[read] == vector[read..][0] == sorted[read..][0];
    assert vector[read + 1..] == vector[read..][1..] && sorted[read + 1..] == sorted[read..][1..];
  }

  lemma BeforeRest(network: Cidr, next: Cidr, later: seq<Cidr>)
    requires BeforeAll(network, [next] + later)
    ensures Before(network, next) && BeforeAll(network, later)
  {
    var all := [next] + later;
    assert Before(network, all[0]);
    forall k | 0 <= k < |later|
      ensures Before(network, later[k])
    {
      assert Before(network, all[k + 1]);
    }
  }

  lemma OrderedRest(sorted: seq<Cidr>, read: nat)
    requires Ordered(sorted) && read < |sorted|
    ensures BeforeAll(sorted[read], sorted[read + 1..])
  {
  }

  lemma StillTheRest(before: seq<Cidr>, after: seq<Cidr>, top: nat, read: nat)
    requires |before| == |after| && top <= read < |before| && after[top + 1..] == before[top + 1..]
    ensures after[read + 1..] == before[read + 1..]
  {
    assert after[read + 1..] == after[top + 1..][read - top..];
    assert before[read + 1..] == before[top + 1..][read - top..];
  }

  /** One pass of the outer loop on the vector. */
  method ReadOne(networks: array<Cidr>, ghost sorted: seq<Cidr>, read: nat, top: nat) returns (written: nat)
    requires read < networks.Length && Stage(networks[..], sorted, read, top) && Ordered(sorted)
    modifies networks
    ensures Stage(networks[..], sorted, read + 1, written)
  {
    ghost var vector, later := networks[..], sorted[read + 1..];
    FirstOfRest(vector, sorted, read);
    OrderedRest(sorted, read);
    CoverPush(vector[..top], sorted[read]);
    CoverPush(sorted[..read], sorted[read]);
    if top > 0 {
      BeforeRest(vector[top - 1], sorted[read], later);
    }
    assert networks[..top] == vector[..top];
    written := Place(networks, top, networks[read], later);
    assert networks[top + 1..] == networks[..][top + 1..] && networks[..written] == networks[..][..written];
    StillTheRest(vector, networks[..], top, read);
  }

  /**
   * `aggregate_ipv4`: after sorting, `networks[..written]` is a stack that each later entry is
   * compared with; the vector is then truncated to it.
   */
  method Aggregate(networks: array<Cidr>) returns (written: nat)
    modifies networks
    ensures written <= networks.Length
    ensures Canonical(networks[..written])
    ensures Cover(networks[..written]) == Cover(old(networks[..]))
  {
    SortInPlace(networks);
    ghost var sorted := networks[..];
    written := 0;
    for read := 0 to networks.Length
      invariant Ordered(sorted) && Stage(networks[..], sorted, read, written)
    {
      written := ReadOne(networks, sorted, read, written);
    }
    assert sorted[..networks.Length] == sorted && networks[..written] == networks[..][..written];
  }
}
