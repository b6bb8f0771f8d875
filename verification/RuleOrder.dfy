/** Rule orders: the server's check, and the panel's editing of the single ordered list. */
module RuleOrder {
  import opened Routing

  // ----- the server's check -----

  function AllRefs(domains: nat, ips: nat): seq<RuleRef> {
    seq(domains, (i: nat) => DomainRef(i)) + seq(ips, (i: nat) => IpRef(i))
  }

  predicate RefExists(ref: RuleRef, domains: nat, ips: nat) {
    match ref
    case DomainRef(index) => index < domains
    case IpRef(index) => index < ips
  }

  ghost predicate EachOnce(order: seq<RuleRef>, domains: nat, ips: nat) {
    && |order| == domains + ips
    && (forall i :: 0 <= i < |order| ==> RefExists(order[i], domains, ips))
    && (forall i, j :: 0 <= i < j < |order| ==> order[i] != order[j])
  }

  lemma SameSizeSubset<T>(part: set<T>, whole: set<T>)
    requires part <= whole && |part| == |whole|
    ensures part == whole
  {
    assert |whole - part| == |whole| - |part|;
  }

  lemma {:induction false} DistinctSize<T>(items: seq<T>)
    requires forall i, j :: 0 <= i < j < |items| ==> items[i] != items[j]
    ensures |set x | x in items| == |items|
    ensures forall x :: x in items ==> multiset(items)[x] == 1
    decreases |items|
  {
    if items != [] {
      var rest, last := items[..|items| - 1], items[|items| - 1];
      DistinctSize(rest);
      assert items == rest + [last];
      assert (set x | x in items) == (set x | x in rest) + {last};
    }
  }

  lemma AllRefsEachOnce(domains: nat, ips: nat)
    ensures EachOnce(AllRefs(domains, ips), domains, ips)
    ensures forall ref :: RefExists(ref, domains, ips) ==> ref in AllRefs(domains, ips)
  {
    var all := AllRefs(domains, ips);
    forall ref | RefExists(ref, domains, ips)
      ensures ref in all
    {
      match ref
      case DomainRef(index) => assert all[index] == ref;
      case IpRef(index) => assert all[domains + index] == ref;
    }
  }

  lemma MultisetsAgree(left: seq<RuleRef>, right: seq<RuleRef>)
    requires forall x :: x in left ==> multiset(left)[x] == 1
    requires forall x :: x in right ==> multiset(right)[x] == 1
    requires forall x :: x in left <==> x in right
    ensures multiset(left) == multiset(right)
  {
    forall x: RuleRef
      ensures multiset(left)[x] == multiset(right)[x]
    {
      assert x in left <==> x in multiset(left);
      assert x in right <==> x in multiset(right);
    }
  }

  /** Pigeonhole: as many distinct existing references as rules are all the references. */
  lemma EachOnceIsPermutation(order: seq<RuleRef>, domains: nat, ips: nat)
    requires EachOnce(order, domains, ips)
    ensures multiset(order) == multiset(AllRefs(domains, ips))
  {
    var all := AllRefs(domains, ips);
    AllRefsEachOnce(domains, ips);
    DistinctSize(order);
    DistinctSize(all);
    var some, every := (set x | x in order), (set x | x in all);
    SameSizeSubset(some, every);
    forall x: RuleRef
      ensures x in order <==> x in all
    {
      assert x in some <==> x in every;
    }
    MultisetsAgree(order, all);
  }

  lemma RepeatCounts(order: seq<RuleRef>, i: nat, j: nat)
    requires i < j < |order| && order[i] == order[j]
    ensures multiset(order)[order[j]] >= 2
  {
    assert order == order[..j] + [order[j]] + order[j + 1..];
    assert order[i] in order[..j];
  }

  lemma PermutationIsEachOnce(order: seq<RuleRef>, domains: nat, ips: nat)
    requires multiset(order) == multiset(AllRefs(domains, ips))
    ensures EachOnce(order, domains, ips)
  {
    var all := AllRefs(domains, ips);
    AllRefsEachOnce(domains, ips);
    DistinctSize(all);
    assert |order| == |multiset(order)| == |multiset(all)| == |all|;
    forall i | 0 <= i < |order|
      ensures RefExists(order[i], domains, ips)
    {
      assert order[i] in multiset(order);
      assert order[i] in all;
    }
    forall i, j | 0 <= i < j < |order|
      ensures order[i] != order[j]
    {
      if order[i] == order[j] {
        RepeatCounts(order, i, j);
      }
    }
  }

  /** A configuration without an order, or with a permutation of all its rules. */
  predicate OrderAccepted(config: RoutingConfig) {
    match config.ruleOrder
    case None => true
    case Some(order) => multiset(order) == multiset(AllRefs(|config.domainRules|, |config.ipRules|))
  }

  /** Every reference of an accepted configuration names one of its rules. */
  lemma AcceptedInRange(config: RoutingConfig)
    requires OrderAccepted(config)
    ensures InRange(config, RuleRefs(config))
  {
    if config.ruleOrder.Some? {
      PermutationIsEachOnce(config.ruleOrder.value, |config.domainRules|, |config.ipRules|);
      assert forall i :: 0 <= i < |config.ruleOrder.value| ==>
        RefExists(config.ruleOrder.value[i], |config.domainRules|, |config.ipRules|);
    }
  }

  /**
   * The order check of `normalize_routing`: the right length, and one flag per rule that each
   * reference finds unset. It accepts exactly the permutations of all references.
   */
  method CheckOrder(order: seq<RuleRef>, domains: nat, ips: nat) returns (accepted: bool)
    ensures accepted <==> multiset(order) == multiset(AllRefs(domains, ips))
  {
    if |order| != domains + ips {
      LengthDiffers(order, domains, ips);
      return false;
    }
    var domainSeen := new bool[domains](i => false);
    var ipSeen := new bool[ips](i => false);
    for i := 0 to |order|
      invariant forall k :: 0 <= k < i ==> RefExists(order[k], domains, ips)
      invariant forall j, k :: 0 <= j < k < i ==> order[j] != order[k]
      invariant forall d :: 0 <= d < domains ==> (domainSeen[d] <==> DomainRef(d) in order[..i])
      invariant forall d :: 0 <= d < ips ==> (ipSeen[d] <==> IpRef(d) in order[..i])
    {
      var exists', seen := false, false;
      match order[i] {
        case DomainRef(index) =>
          exists' := index < domains;
          if exists' {
            seen := domainSeen[index];
            domainSeen[index] := true;
          }
        case IpRef(index) =>
          exists' := index < ips;
          if exists' {
            seen := ipSeen[index];
            ipSeen[index] := true;
          }
      }
      assert order[..i + 1] == order[..i] + [order[i]];
      if !exists' || seen {
        if multiset(order) == multiset(AllRefs(domains, ips)) {
          PermutationIsEachOnce(order, domains, ips);
          RepeatRefuted(order, i, domains, ips, seen);
        }
        return false;
      }
    }
    EachOnceIsPermutation(order, domains, ips);
    accepted := true;
  }

  lemma LengthDiffers(order: seq<RuleRef>, domains: nat, ips: nat)
    requires |order| != domains + ips
    ensures multiset(order) != multiset(AllRefs(domains, ips))
  {
    assert |multiset(order)| == |order| && |multiset(AllRefs(domains, ips))| == domains + ips;
  }

  lemma RepeatRefuted(order: seq<RuleRef>, i: nat, domains: nat, ips: nat, seen: bool)
    requires EachOnce(order, domains, ips) && i < |order|
    ensures RefExists(order[i], domains, ips) && order[i] !in order[..i]
  {
  }
}
