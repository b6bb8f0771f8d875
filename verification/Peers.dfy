/** WireGuard peers and the friend metadata of the server, as values. */
module Peers {
  import opened Ipv4
  import opened Overlap

  type Key = string

  /** An allowed IP: an IPv4 network, or something the IPv4 checks ignore. */
  datatype Route = V4(net: Cidr) | Opaque(text: string)

  type PeerMap = map<Key, seq<Route>>

  // ----- tunnel addresses -----

  const FIRST_HOST: int := 0x0aca_0002
  const LAST_HOST: int := 0x0aca_00fe
  const ALIAS_OFFSET: int := 0x100

  predicate IsTunnelAddress(ip: int) {
    FIRST_HOST <= ip <= LAST_HOST
  }

  function Host(ip: int): (n: Cidr)
    requires IsAddress(ip)
    ensures n.prefix == 32 && n.network == ip
    ensures forall x :: Has(n, x) <==> x == ip
  {
    assert BlockSize(32) == 1;
    Trunc(ip, 32)
  }

  /** `validate_tunnel_ip`: a single host of 10.202.0.2 to 10.202.0.254. */
  predicate IsTunnelRoute(route: Route) {
    route.V4? && route.net.prefix == 32 && IsTunnelAddress(route.net.network)
  }

  predicate Covers(route: Route, ip: int) {
    route.V4? && Has(route.net, ip)
  }

  predicate CoversOne(routes: seq<Route>, ip: int) {
    exists i :: 0 <= i < |routes| && Covers(routes[i], ip)
  }

  /** Some peer's networks contain the address. */
  predicate Taken(peers: PeerMap, ip: int) {
    exists key :: key in peers && CoversOne(peers[key], ip)
  }

  predicate RoutesClash(existing: seq<Route>, routes: seq<Route>) {
    exists i, j ::
      && 0 <= i < |existing| && 0 <= j < |routes|
      && existing[i].V4? && routes[j].V4? && Overlaps(existing[i].net, routes[j].net)
  }

  /** `routes_conflict`: another peer has a network that clashes with one of these. */
  ghost predicate Conflict(peers: PeerMap, key: Key, routes: seq<Route>) {
    exists other :: other in peers && other != key && RoutesClash(peers[other], routes)
  }

  // ----- wg set: an allowed IP belongs to one peer only -----

  function WithoutRoutes(routes: seq<Route>, taken: seq<Route>): (rest: seq<Route>)
    ensures forall r :: r in rest <==> r in routes && r !in taken
    ensures (forall r :: r in routes ==> r !in taken) ==> rest == routes
  {
    if routes == [] then []
    else
      assert routes == [routes[0]] + routes[1..];
      (if routes[0] in taken then [] else [routes[0]]) + WithoutRoutes(routes[1..], taken)
  }

  /** `wg set … allowed-ips`: the peer gets the routes, and any other peer that had one loses it. */
  function SetPeer(peers: PeerMap, key: Key, routes: seq<Route>): PeerMap {
    map k | k in peers.Keys + {key} :: if k == key then routes else WithoutRoutes(peers[k], routes)
  }

  /** WireGuard's rule: an allowed IP belongs to one peer. */
  ghost predicate Exclusive(peers: PeerMap) {
    forall a, b, r :: a in peers && b in peers && a != b && r in peers[a] ==> r !in peers[b]
  }

  lemma SetKeepsExclusive(peers: PeerMap, key: Key, routes: seq<Route>)
    requires Exclusive(peers)
    ensures Exclusive(SetPeer(peers, key, routes))
  {
    var after := SetPeer(peers, key, routes);
    forall a, b, r | a in after && b in after && a != b && r in after[a]
      ensures r !in after[b]
    {
      assert a != key && b != key ==> r in peers[a] && r !in peers[b];
    }
  }

  // ----- wg setconf that stops half-way -----

  predicate Given(conf: PeerMap, applied: set<Key>, route: Route) {
    exists k :: k in applied && k in conf && route in conf[k]
  }

  /** The routes that no applied peer has taken. */
  function Left(routes: seq<Route>, conf: PeerMap, applied: set<Key>): (rest: seq<Route>)
    ensures forall r :: r in rest <==> r in routes && !Given(conf, applied, r)
  {
    if routes == [] then []
    else
      assert routes == [routes[0]] + routes[1..];
      (if Given(conf, applied, routes[0]) then [] else [routes[0]]) + Left(routes[1..], conf, applied)
  }

  /** Some peers of a configuration were applied, and some of the former ones are still there. */
  function HalfApplied(peers: PeerMap, kept: set<Key>, conf: PeerMap, applied: set<Key>): PeerMap {
    map k | k in (peers.Keys * kept) + (conf.Keys * applied) ::
      if k in conf && k in applied then conf[k] else Left(peers[k], conf, applied)
  }

  /** What a half-applied configuration can look like: every peer is as it should be, or has no more than before. */
  ghost predicate Mixture(mixed: PeerMap, before: PeerMap, conf: PeerMap) {
    forall k :: k in mixed ==>
      (k in conf && mixed[k] == conf[k]) || (k in before && forall r :: r in mixed[k] ==> r in before[k])
  }

  lemma HalfAppliedMixes(peers: PeerMap, kept: set<Key>, conf: PeerMap, applied: set<Key>)
    requires Exclusive(peers) && Exclusive(conf)
    ensures Mixture(HalfApplied(peers, kept, conf, applied), peers, conf)
    ensures Exclusive(HalfApplied(peers, kept, conf, applied))
  {
    var after := HalfApplied(peers, kept, conf, applied);
    forall a, b, r | a in after && b in after && a != b && r in after[a]
      ensures r !in after[b]
    {
      assert a in conf && a in applied ==> Given(conf, applied, r);
      assert b in conf && b in applied && r in conf[b] ==> Given(conf, applied, r);
    }
  }

  /** No peer appears, and no peer but an owner gains a route. */
  ghost predicate NeverBroader(before: PeerMap, after: PeerMap, owners: seq<Key>) {
    forall k :: k in after ==> k in before && (k in owners || forall r :: r in after[k] ==> r in before[k])
  }

  /** Going back half-way from a state that is not broader ends in one that is not. */
  lemma MixtureIsNotBroader(start: PeerMap, before: PeerMap, mixed: PeerMap, owners: seq<Key>)
    requires NeverBroader(start, before, owners) && Mixture(mixed, before, start)
    ensures NeverBroader(start, mixed, owners)
  {
  }

  /** Without a clash no other peer loses a route. */
  lemma NoClashNoLoss(peers: PeerMap, key: Key, routes: seq<Route>)
    requires !Conflict(peers, key, routes) && forall j :: 0 <= j < |routes| ==> routes[j].V4?
    ensures SetPeer(peers, key, routes) == peers[key := routes]
  {
    forall k | k in peers && k != key
      ensures WithoutRoutes(peers[k], routes) == peers[k]
    {
      assert !RoutesClash(peers[k], routes);
      forall r | r in peers[k]
        ensures r !in routes
      {
        var i :| 0 <= i < |peers[k]| && peers[k][i] == r;
        NotAmong(peers[k], routes, i);
      }
    }
  }

  lemma NotAmong(existing: seq<Route>, routes: seq<Route>, i: nat)
    requires i < |existing| && !RoutesClash(existing, routes) && forall j :: 0 <= j < |routes| ==> routes[j].V4?
    ensures existing[i] !in routes
  {
    forall j | 0 <= j < |routes|
      ensures existing[i] != routes[j]
    {
      assert existing[i].V4? ==> !Overlaps(existing[i].net, routes[j].net);
      HasItself(routes[j].net);
    }
  }

  lemma HasItself(n: Cidr)
    ensures Has(n, n.network)
  {
  }

  /** An address nobody's networks contain does not clash with anybody. */
  lemma FreeAddressHasNoClash(peers: PeerMap, key: Key, ip: int)
    requires IsAddress(ip) && !Taken(peers, ip)
    ensures !Conflict(peers, key, [V4(Host(ip))])
  {
    forall other | other in peers
      ensures !RoutesClash(peers[other], [V4(Host(ip))])
    {
      assert !CoversOne(peers[other], ip);
      forall i | 0 <= i < |peers[other]| && peers[other][i].V4?
        ensures !Overlaps(peers[other][i].net, Host(ip))
      {
        assert !Covers(peers[other][i], ip);
        OverlapsIffShared(peers[other][i].net, Host(ip));
      }
    }
  }

  // ----- classification -----

  datatype PeerKind = Friend(ip: int) | Owner | Other

  function ClassifyFriend(routes: seq<Route>): PeerKind {
    if |routes| == 1 && IsTunnelRoute(routes[0]) then Friend(routes[0].net.network) else Other
  }

  function Classify(owners: seq<Key>, key: Key, routes: seq<Route>): PeerKind {
    if key in owners then Owner else ClassifyFriend(routes)
  }

  /** A friend has one route, a single tunnel address, and is no owner. */
  lemma FriendIs(owners: seq<Key>, key: Key, routes: seq<Route>, ip: int)
    requires IsAddress(ip)
    ensures Classify(owners, key, routes) == Friend(ip)
      <==> key !in owners && 0x0aca_0002 <= ip <= 0x0aca_00fe && routes == [V4(Host(ip))]
    ensures Classify(owners, key, routes) == Owner <==> key in owners
  {
  }

  // ----- metadata -----

  datatype Record = Record(key: Key, name: string, privateKey: Option<string>)

  datatype Metadata = Metadata(records: seq<Record>, owners: seq<Key>)

  predicate Recorded(records: seq<Record>, key: Key) {
    exists i :: 0 <= i < |records| && records[i].key == key
  }

  /** What reading the file insists on: every key once, as a friend or as an owner. */
  ghost predicate Readable(metadata: Metadata) {
    && (forall i, j :: 0 <= i < j < |metadata.records| ==> metadata.records[i].key != metadata.records[j].key)
    && (forall i, j :: 0 <= i < j < |metadata.owners| ==> metadata.owners[i] != metadata.owners[j])
    && (forall i, j :: 0 <= i < |metadata.records| && 0 <= j < |metadata.owners| ==>
          metadata.records[i].key != metadata.owners[j])
  }

  lemma NeverBoth(metadata: Metadata, key: Key)
    requires Readable(metadata) && key in metadata.owners
    ensures !Recorded(metadata.records, key)
  {
  }

  lemma RecordAdded(metadata: Metadata, record: Record)
    requires Readable(metadata) && record.key !in metadata.owners && !Recorded(metadata.records, record.key)
    ensures Readable(metadata.(records := metadata.records + [record]))
    ensures Recorded((metadata.records + [record]), record.key)
  {
    assert (metadata.records + [record])[|metadata.records|] == record;
    forall i | 0 <= i < |metadata.records|
      ensures metadata.records[i].key != record.key
    {
    }
  }

  lemma OwnerAdded(metadata: Metadata, key: Key)
    requires Readable(metadata) && key !in metadata.owners && !Recorded(metadata.records, key)
    ensures Readable(metadata.(owners := metadata.owners + [key]))
  {
    forall i | 0 <= i < |metadata.records|
      ensures metadata.records[i].key != key
    {
    }
  }

  lemma RecordRenamed(metadata: Metadata, i: nat, name: string)
    requires Readable(metadata) && i < |metadata.records|
    ensures Readable(metadata.(records := metadata.records[i := metadata.records[i].(name := name)]))
  {
  }

  /** The record of a key, as `find` returns it. */
  function IndexOf(records: seq<Record>, key: Key): (index: Option<nat>)
    ensures index.Some? <==> Recorded(records, key)
    ensures index.Some? ==> index.value < |records| && records[index.value].key == key
    ensures index.Some? ==> forall i :: 0 <= i < index.value ==> records[i].key != key
  {
    if records == [] then None
    else if records[0].key == key then Some(0)
    else
      var later := IndexOf(records[1..], key);
      assert forall i :: 1 <= i < |records| ==> records[i] == records[1..][i - 1];
      if later.None? then None else Some(later.value + 1)
  }

  /** The name an active friend shows: its record's, or its address when it has none. */
  function ShownName(metadata: Metadata, key: Key, ip: int, format: int -> string): string {
    var index := IndexOf(metadata.records, key);
    if index.Some? then metadata.records[index.value].name else format(ip)
  }

  // ----- WARP routes of router owners -----

  const CLIENT_SUBNET_FIRST: int := 0x0acb_0100

  /** 10.203.1.0/24, which legacy owners still carry. */
  function ClientSubnet(): Cidr {
    ClientSubnetSize();
    MultipleIsAligned(0xacb01, 24, CLIENT_SUBNET_FIRST);
    Net(CLIENT_SUBNET_FIRST, 24)
  }

  lemma ClientSubnetSize()
    ensures BlockSize(24) == 256
  {
    assert Pow2(8) == 256;
  }

  function TunnelRoutes(routes: seq<Route>): (r: seq<Route>)
    ensures forall x :: x in r <==> x in routes && IsTunnelRoute(x)
  {
    if routes == [] then []
    else
      assert routes == [routes[0]] + routes[1..];
      (if IsTunnelRoute(routes[0]) then [routes[0]] else []) + TunnelRoutes(routes[1..])
  }

  function AliasOf(primary: Route): Route
    requires IsTunnelRoute(primary)
  {
    V4(Host(primary.net.network + ALIAS_OFFSET))
  }

  /** The routes of an owner once WARP is authorised; only the recognised shapes qualify. */
  function OwnerPlan(routes: seq<Route>): Option<seq<Route>> {
    var primaries := TunnelRoutes(routes);
    if |primaries| != 1 then None
    else
      assert primaries[0] in primaries;
      var aliasRoute := AliasOf(primaries[0]);
      if exists r :: r in routes && r != primaries[0] && r != aliasRoute && r != V4(ClientSubnet()) then None
      else Some(if aliasRoute in routes then routes else routes + [aliasRoute])
  }

  function Primary(routes: seq<Route>): (r: Route)
    requires OwnerPlan(routes).Some?
    ensures r in routes && IsTunnelRoute(r)
  {
    assert TunnelRoutes(routes)[0] in TunnelRoutes(routes);
    TunnelRoutes(routes)[0]
  }

  lemma PlanIs(routes: seq<Route>)
    requires OwnerPlan(routes).Some?
    ensures forall r :: r in OwnerPlan(routes).value <==> r in routes || r == AliasOf(Primary(routes))
  {
  }

  /** Which routes can be planned: one tunnel address, and besides it only its alias and the network 10.203.1.0/24. */
  lemma PlannableShape(routes: seq<Route>)
    ensures OwnerPlan(routes).Some? <==>
      && |TunnelRoutes(routes)| == 1
      && forall r :: r in routes ==>
        r == TunnelRoutes(routes)[0] || IsAliasOf(r, TunnelRoutes(routes)[0]) || IsClientSubnet(r)
  {
    if |TunnelRoutes(routes)| == 1 {
      assert TunnelRoutes(routes)[0] in TunnelRoutes(routes);
      forall r
        ensures IsAliasOf(r, TunnelRoutes(routes)[0]) <==> r == AliasOf(TunnelRoutes(routes)[0])
        ensures IsClientSubnet(r) <==> r == V4(ClientSubnet())
      {
      }
    }
  }

  predicate IsAliasOf(route: Route, primary: Route) {
    route.V4? && primary.V4? && route.net.prefix == 32 && route.net.network == primary.net.network + 0x100
  }

  predicate IsClientSubnet(route: Route) {
    route.V4? && route.net.prefix == 24 && route.net.network == 0x0acb_0100
  }

  /** What every owner of an interface needs before WARP may be authorised. */
  ghost predicate Plannable(peers: PeerMap, key: Key)
    requires key in peers
  {
    OwnerPlan(peers[key]).Some? && !Conflict(peers, key, [AliasOf(Primary(peers[key]))])
  }

  /** The interface with the aliases of some owners added. */
  function WithAliases(peers: PeerMap, done: set<Key>): PeerMap {
    map k | k in peers :: if k in done && OwnerPlan(peers[k]).Some? then OwnerPlan(peers[k]).value else peers[k]
  }

  lemma AliasNotHeld(peers: PeerMap, key: Key, other: Key)
    requires key in peers && other in peers && key != other && Plannable(peers, key)
    ensures AliasOf(Primary(peers[key])) !in peers[other]
  {
    var added := AliasOf(Primary(peers[key]));
    assert !RoutesClash(peers[other], [added]);
    forall i | 0 <= i < |peers[other]|
      ensures peers[other][i] != added
    {
      HasItself(added.net);
      assert [added][0] == added;
    }
  }

  /** Two owners' plans have no route in common. */
  lemma PlansDisjoint(peers: PeerMap, a: Key, b: Key, r: Route)
    requires Exclusive(peers) && a in peers && b in peers && a != b && Plannable(peers, a) && Plannable(peers, b)
    requires r in OwnerPlan(peers[a]).value
    ensures r !in OwnerPlan(peers[b]).value
  {
    PlanIs(peers[a]);
    PlanIs(peers[b]);
    AliasNotHeld(peers, a, b);
    AliasNotHeld(peers, b, a);
    assert Primary(peers[a]) !in peers[b];
  }

  /** No other peer has a route of an owner's plan, its own alias included. */
  lemma PlanTakesNothing(peers: PeerMap, done: set<Key>, key: Key, k: Key)
    requires Exclusive(peers) && key in peers && Plannable(peers, key) && k in peers && k != key
    requires k in done ==> Plannable(peers, k)
    ensures WithoutRoutes(WithAliases(peers, done)[k], OwnerPlan(peers[key]).value) == WithAliases(peers, done)[k]
  {
    var held, routes := WithAliases(peers, done)[k], OwnerPlan(peers[key]).value;
    forall r | r in held
      ensures r !in routes
    {
      if k in done {
        PlansDisjoint(peers, k, key, r);
      } else {
        PlanIs(peers[key]);
        AliasNotHeld(peers, key, k);
      }
    }
  }

  lemma NothingTaken(peers: PeerMap, key: Key, routes: seq<Route>)
    requires forall k :: k in peers && k != key ==> WithoutRoutes(peers[k], routes) == peers[k]
    ensures SetPeer(peers, key, routes) == peers[key := routes]
  {
  }

  lemma AliasesGrow(peers: PeerMap, done: set<Key>, key: Key)
    requires key in peers && OwnerPlan(peers[key]).Some?
    ensures WithAliases(peers, done)[key := OwnerPlan(peers[key]).value] == WithAliases(peers, done + {key})
  {
  }

  /** Authorising one more owner takes nothing from anybody. */
  lemma OneMoreAlias(peers: PeerMap, done: set<Key>, key: Key)
    requires Exclusive(peers) && key in peers && Plannable(peers, key)
    requires forall k :: k in done ==> k in peers && Plannable(peers, k)
    ensures SetPeer(WithAliases(peers, done), key, OwnerPlan(peers[key]).value) == WithAliases(peers, done + {key})
  {
    var before, routes := WithAliases(peers, done), OwnerPlan(peers[key]).value;
    forall k | k in before && k != key
      ensures WithoutRoutes(before[k], routes) == before[k]
    {
      PlanTakesNothing(peers, done, key, k);
    }
    NothingTaken(before, key, routes);
    AliasesGrow(peers, done, key);
  }

  function KeySet(keys: seq<Key>): set<Key> {
    set k | k in keys
  }

  lemma KeySetGrows(keys: seq<Key>, i: nat)
    requires i < |keys|
    ensures KeySet(keys[..i + 1]) == KeySet(keys[..i]) + {keys[i]}
  {
    assert keys[..i + 1] == keys[..i] + [keys[i]];
  }
}
