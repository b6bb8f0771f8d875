/** The three readings of a canonical list: binary search, nft intervals, and the interval budget. */
module Intervals {
  import opened Ipv4
  import opened Aggregation

  /** `matches_ip`: `partition_point` on the network addresses, then one containment test. */
  method SearchNetworks(networks: seq<Cidr>, ip: int) returns (found: bool)
    requires Canonical(networks)
    ensures found <==> Covers(networks, ip)
  {
    var low, high := 0, |networks|;
    while low < high
      invariant 0 <= low <= high <= |networks|
      invariant forall i :: 0 <= i < low ==> networks[i].network <= ip
      invariant forall i :: high <= i < |networks| ==> ip < networks[i].network
    {
      var middle := (low + high) / 2;
      if networks[middle].network <= ip {
        low := middle + 1;
      } else {
        high := middle;
      }
    }
    found := low > 0 && Has(networks[low - 1], ip);
    LastBelowDecides(networks, low, ip);
  }

  /** Only the last network that starts at or below an address can contain it. */
  lemma LastBelowDecides(networks: seq<Cidr>, low: nat, ip: int)
    requires Canonical(networks) && low <= |networks|
    requires forall i :: 0 <= i < low ==> networks[i].network <= ip
    requires forall i :: low <= i < |networks| ==> ip < networks[i].network
    ensures Covers(networks, ip) <==> low > 0 && Has(networks[low - 1], ip)
  {
    forall i | 0 <= i < low - 1
      ensures !Has(networks[i], ip)
    {
      assert Broadcast(networks[i]) < networks[low - 1].network;
    }
  }

  datatype Interval = Interval(start: int, end: int)

  predicate InIntervals(intervals: seq<Interval>, ip: int) {
    exists i :: 0 <= i < |intervals| && intervals[i].start <= ip <= intervals[i].end
  }

  /** Nonempty, inside the address space, and with at least one address missing between any two. */
  predicate Separated(intervals: seq<Interval>) {
    && (forall i :: 0 <= i < |intervals| ==> 0 <= intervals[i].start <= intervals[i].end < ADDRESS_COUNT)
    && (forall i, j :: 0 <= i < j < |intervals| ==> intervals[i].end + 1 < intervals[j].start)
  }

  /** `u32::saturating_add(1)`. */
  function SaturatingNext(ip: int): int {
    if ip == ADDRESS_COUNT - 1 then ip else ip + 1
  }

  /** The charge of `GeoData::select`: one interval, and one more for each gap between neighbours. */
  function Charged(networks: seq<Cidr>, count: nat): nat
    requires count <= |networks|
  {
    if count == 0 then 0
    else if count == 1 then 1
    else
      Charged(networks, count - 1)
        + if networks[count - 1].network > SaturatingNext(Broadcast(networks[count - 2])) then 1 else 0
  }

  // ----- intervals as sets -----

  predicate Inside(interval: Interval, ip: int) {
    interval.start <= ip <= interval.end
  }

  ghost function Span(interval: Interval): iset<int> {
    iset ip | Inside(interval, ip)
  }

  ghost function Reach(intervals: seq<Interval>): iset<int> {
    iset ip | InIntervals(intervals, ip)
  }

  lemma InIntervalsPush(intervals: seq<Interval>, last: Interval, ip: int)
    ensures InIntervals(intervals + [last], ip) <==> InIntervals(intervals, ip) || last.start <= ip <= last.end
  {
    var all := intervals + [last];
    assert all[|intervals|] == last;
    if InIntervals(intervals, ip) {
      var i :| 0 <= i < |intervals| && intervals[i].start <= ip <= intervals[i].end;
      assert all[i] == intervals[i];
    }
  }

  lemma ReachPush(intervals: seq<Interval>, last: Interval)
    ensures Reach(intervals + [last]) == Reach(intervals) + Span(last)
  {
    forall ip
      ensures ip in Reach(intervals + [last]) <==> ip in Reach(intervals) || ip in Span(last)
    {
      InIntervalsPush(intervals, last, ip);
    }
  }

  lemma OneNetwork(network: Cidr)
    ensures Cover([network]) == Span(Interval(network.network, Broadcast(network)))
  {
    forall ip
      ensures ip in Cover([network]) <==> Has(network, ip)
    {
      assert Has([network][0], ip) == Has(network, ip);
    }
  }

  lemma CoverNext(networks: seq<Cidr>, next: nat)
    requires next < |networks|
    ensures Cover(networks[..next + 1]) ==
      Cover(networks[..next]) + Span(Interval(networks[next].network, Broadcast(networks[next])))
  {
    CoverPush(networks[..next], networks[next]);
    OneNetwork(networks[next]);
    assert networks[..next + 1] == networks[..next] + [networks[next]];
  }

  lemma SpanGrows(last: Interval, network: Cidr)
    requires last.start <= last.end < network.network <= SaturatingNext(last.end)
    ensures Span(Interval(last.start, Broadcast(network))) ==
      Span(last) + Span(Interval(network.network, Broadcast(network)))
  {
  }

  lemma ReachIsCover(intervals: seq<Interval>, networks: seq<Cidr>)
    requires Reach(intervals) == Cover(networks)
    ensures forall ip :: InIntervals(intervals, ip) <==> Covers(networks, ip)
  {
    forall ip
      ensures InIntervals(intervals, ip) <==> Covers(networks, ip)
    {
      assert ip in Reach(intervals) <==> ip in Cover(networks);
    }
  }

  // ----- rendering -----

  /** The intervals of the first `count` networks. */
  ghost predicate Rendered(intervals: seq<Interval>, networks: seq<Cidr>, count: nat)
    requires count <= |networks|
  {
    && Separated(intervals)
    && Reach(intervals) == Cover(networks[..count])
    && |intervals| == Charged(networks, count)
    && (intervals == [] <==> count == 0)
    && (count > 0 ==> intervals[|intervals| - 1].end == Broadcast(networks[count - 1]))
  }

  lemma SeparatedPush(intervals: seq<Interval>, last: Interval)
    requires Separated(intervals) && 0 <= last.start <= last.end < ADDRESS_COUNT
    requires intervals != [] ==> intervals[|intervals| - 1].end + 1 < last.start
    ensures Separated(intervals + [last])
  {
  }

  lemma StartInterval(intervals: seq<Interval>, networks: seq<Cidr>, next: nat)
    requires next < |networks| && Rendered(intervals, networks, next)
    requires intervals != [] ==> networks[next].network > SaturatingNext(intervals[|intervals| - 1].end)
    ensures Rendered(intervals + [Interval(networks[next].network, Broadcast(networks[next]))], networks, next + 1)
  {
    var last := Interval(networks[next].network, Broadcast(networks[next]));
    BroadcastIsAddress(networks[next]);
    ReachPush(intervals, last);
    CoverNext(networks, next);
    SeparatedPush(intervals, last);
  }

  lemma LongerSeparated(intervals: seq<Interval>, last: Interval, end: int)
    requires Separated(intervals + [last]) && last.end <= end < ADDRESS_COUNT
    ensures Separated(intervals + [Interval(last.start, end)]) && last.start <= last.end
  {
    var all, after := intervals + [last], intervals + [Interval(last.start, end)];
    assert all[|intervals|] == last;
    forall i | 0 <= i < |after|
      ensures 0 <= after[i].start <= after[i].end < ADDRESS_COUNT
    {
      assert 0 <= all[i].start <= all[i].end;
    }
    forall i, j | 0 <= i < j < |after|
      ensures after[i].end + 1 < after[j].start
    {
      assert all[i].end + 1 < all[j].start;
    }
  }

  /** A network no further than the next address extends the last interval. */
  lemma ExtendInterval(before: seq<Interval>, start: int, end: int, networks: seq<Cidr>, next: nat)
    requires Canonical(networks) && 0 < next < |networks| && end == Broadcast(networks[next - 1])
    requires Rendered(before + [Interval(start, end)], networks, next)
    requires networks[next].network <= SaturatingNext(end)
    ensures end < Broadcast(networks[next])
    ensures Rendered(before + [Interval(start, Broadcast(networks[next]))], networks, next + 1)
  {
    var last, longer := Interval(start, end), Interval(start, Broadcast(networks[next]));
    assert Broadcast(networks[next - 1]) < networks[next].network;
    BroadcastIsAddress(networks[next]);
    LongerSeparated(before, last, Broadcast(networks[next]));
    ReachPush(before, last);
    ReachPush(before, longer);
    CoverNext(networks, next);
    SpanGrows(last, networks[next]);
  }

  /** The inner loop: the interval grows while the next network is not beyond the address after its end. */
  method GrowInterval(networks: seq<Cidr>, first: nat, ghost before: seq<Interval>) returns (end: int, next: nat)
    requires Canonical(networks) && first < |networks|
    requires Rendered(before + [Interval(networks[first].network, Broadcast(networks[first]))], networks, first + 1)
    ensures first < next <= |networks|
    ensures Rendered(before + [Interval(networks[first].network, end)], networks, next)
    ensures next < |networks| ==> networks[next].network > SaturatingNext(end)
  {
    end, next := Broadcast(networks[first]), first + 1;
    while next < |networks| && networks[next].network <= SaturatingNext(end)
      invariant first < next <= |networks| && end == Broadcast(networks[next - 1])
      invariant Rendered(before + [Interval(networks[first].network, end)], networks, next)
    {
      ExtendInterval(before, networks[first].network, end, networks, next);
      end := if end < Broadcast(networks[next]) then Broadcast(networks[next]) else end;
      next := next + 1;
    }
  }

  /** `append_networks`: each pass starts an interval at the next network and extends it as far as it goes. */
  method AppendNetworks(networks: seq<Cidr>) returns (intervals: seq<Interval>)
    requires Canonical(networks)
    ensures Separated(intervals)
    ensures forall ip :: InIntervals(intervals, ip) <==> Covers(networks, ip)
    ensures |intervals| == Charged(networks, |networks|)
  {
    intervals := [];
    var next := 0;
    while next < |networks|
      invariant 0 <= next <= |networks|
      invariant Rendered(intervals, networks, next)
      invariant next < |networks| && intervals != [] ==>
        networks[next].network > SaturatingNext(intervals[|intervals| - 1].end)
    {
      var start, first := networks[next].network, next;
      StartInterval(intervals, networks, next);
      var end;
      end, next := GrowInterval(networks, first, intervals);
      intervals := intervals + [Interval(start, end)];
    }
    assert networks[..next] == networks;
    ReachIsCover(intervals, networks);
  }
}
