/** The resolver's decisions: which answers belong to a question, and which upstream may be asked. */
module Resolver {
  import opened Ipv4
  import opened Dataplane
  import opened Routing

  // ----- answers -----

  datatype Record =
    | Address(name: string, ttl: int, ip: int)
    | Alias(name: string, canonical: string)
    | OtherRecord(name: string)

  datatype LanContext = LanContext(address: int, subnet: Cidr)

  /** An address answer for a relevant name that is neither a LAN destination nor on the router's own link. */
  predicate Rewritable(record: Record, names: set<string>, lan: LanContext) {
    record.name in names && record.Address?
    && !IsLan(record.ip) && record.ip != lan.address && !Has(lan.subnet, record.ip)
  }

  // ----- CNAME chains -----

  predicate FollowsAlias(record: Record, names: set<string>) {
    record.Alias? && record.name in names ==> record.canonical in names
  }

  /** A set of names that contains the target of each of its aliases. */
  ghost predicate Closed(records: seq<Record>, names: set<string>) {
    forall i :: 0 <= i < |records| ==> FollowsAlias(records[i], names)
  }

  function AllNames(records: seq<Record>, domain: string): (names: set<string>)
    ensures domain in names
    ensures forall i :: 0 <= i < |records| && records[i].Alias? ==> records[i].canonical in names
  {
    {domain} + set i | 0 <= i < |records| && records[i].Alias? :: records[i].canonical
  }

  /** One pass over the answers. */
  method FollowOnce(records: seq<Record>, domain: string, before: set<string>) returns (names: set<string>,
    changed: bool)
    requires domain in before && before <= AllNames(records, domain)
    ensures before <= names <= AllNames(records, domain)
    ensures !changed ==> names == before && Closed(records, names)
    ensures changed ==> before < names
    ensures forall s: set<string> :: before <= s && Closed(records, s) ==> names <= s
  {
    names := before;
    changed := false;
    for k := 0 to |records|
      invariant before <= names <= AllNames(records, domain)
      invariant !changed ==> names == before && forall i :: 0 <= i < k ==> FollowsAlias(records[i], names)
      invariant changed ==> before < names
      invariant forall s: set<string> :: before <= s && Closed(records, s) ==> names <= s
    {
      if records[k].Alias? && records[k].name in names {
        forall s: set<string> | before <= s && Closed(records, s)
          ensures records[k].canonical in s
        {
          assert FollowsAlias(records[k], s);
        }
        changed := changed || records[k].canonical !in names;
        names := names + {records[k].canonical};
      }
    }
  }

  /** `relevant_names`: the least set that contains the question and follows every alias. */
  method RelevantNames(records: seq<Record>, domain: string) returns (names: set<string>)
    ensures domain in names && Closed(records, names)
    ensures forall s: set<string> :: domain in s && Closed(records, s) ==> names <= s
  {
    names := {domain};
    var changed := true;
    while changed
      invariant domain in names && names <= AllNames(records, domain)
      invariant !changed ==> Closed(records, names)
      invariant forall s: set<string> :: domain in s && Closed(records, s) ==> names <= s
      decreases AllNames(records, domain) - names, changed
    {
      ghost var before := names;
      names, changed := FollowOnce(records, domain, names);
      forall s: set<string> | domain in s && Closed(records, s)
        ensures names <= s
      {
        assert before <= s;
      }
    }
  }

  // ----- upstream -----

  datatype Upstream = LocalResolver | TunnelDns | WarpDns

  /** The upstream and the mark of its socket. */
  datatype Route = Route(upstream: Upstream, mark: RouteTarget)

  /** `upstream_route`; a blocked name is refused. */
  function UpstreamRoute(config: RoutingConfig, geo: GeoData, domain: string, vpnEnabled: bool,
    isLocal: string -> bool): Option<Route> {
    var wanted := if isLocal(domain) then Direct else DnsTarget(config, geo, domain);
    match EffectiveTarget(wanted, vpnEnabled)
    case Block => None
    case Direct => Some(Route(LocalResolver, Direct))
    case Warp => Some(Route(WarpDns, Warp))
    case Vpn => Some(Route(TunnelDns, Vpn))
  }

  /**
   * The local resolver sees a public name only if every address outside the LAN that the answer could hold
   * goes out directly or is blocked; through the tunnel, no answer needs WARP.
   */
  lemma UpstreamCoversEveryAnswer(config: RoutingConfig, geo: GeoData, domain: string, vpnEnabled: bool,
    isLocal: string -> bool, ip: int)
    requires IsAddress(ip) && !IsLan(ip) && !isLocal(domain)
    ensures var route := UpstreamRoute(config, geo, domain, vpnEnabled, isLocal);
      var target := EffectiveTarget(Target(config, geo, domain, ip), vpnEnabled);
      match route
      case None => target != Vpn && (target == Block || !vpnEnabled)
      case Some(Route(LocalResolver, _)) => target == Direct || target == Block
      case Some(Route(TunnelDns, _)) => vpnEnabled && target != Warp
      case Some(Route(WarpDns, _)) => vpnEnabled
  {
    DnsIsAtLeastAsProtected(config, geo, domain, ip);
  }

  /**
   * The socket's mark goes with the upstream, and protects the lookup at least as much as any connection to an
   * answer will be; a name of the router's own network is asked locally, whatever the policy.
   */
  lemma LookupIsProtected(config: RoutingConfig, geo: GeoData, domain: string, vpnEnabled: bool,
    isLocal: string -> bool, ip: int)
    requires IsAddress(ip) && !IsLan(ip)
    ensures var route := UpstreamRoute(config, geo, domain, vpnEnabled, isLocal);
      var target := EffectiveTarget(Target(config, geo, domain, ip), vpnEnabled);
      if isLocal(domain) then route == Some(Route(LocalResolver, Direct))
      else route.Some? ==> AtLeastAsProtected(route.value.mark, target)
    ensures match UpstreamRoute(config, geo, domain, vpnEnabled, isLocal)
      case None => true
      case Some(Route(LocalResolver, mark)) => mark == Direct
      case Some(Route(TunnelDns, mark)) => mark == Vpn && vpnEnabled
      case Some(Route(WarpDns, mark)) => mark == Warp && vpnEnabled
  {
    DnsIsAtLeastAsProtected(config, geo, domain, ip);
  }

  /**
   * WARP protects more than the tunnel, and the tunnel more than the open path; what is blocked needs no
   * protection.
   */
  predicate AtLeastAsProtected(mark: RouteTarget, target: RouteTarget) {
    match target
    case Block => true
    case Direct => mark != Block
    case Vpn => mark == Vpn || mark == Warp
    case Warp => mark == Warp
  }

  /**
   * A name is refused exactly when no lookup is allowed: everything is blocked, or WARP is wanted without the
   * tunnel.
   */
  lemma RefusedExactly(config: RoutingConfig, geo: GeoData, domain: string, vpnEnabled: bool, isLocal: string -> bool)
    requires !isLocal(domain)
    ensures UpstreamRoute(config, geo, domain, vpnEnabled, isLocal).None?
      <==> DnsTarget(config, geo, domain) == Block || (DnsTarget(config, geo, domain) == Warp && !vpnEnabled)
  {
  }
}
