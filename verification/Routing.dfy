/** The routing policy: which egress a domain or an address gets, and which path its DNS lookup takes. */
module Routing {
  import opened Ipv4
  import opened Aggregation

  datatype RouteTarget = Direct | Vpn | Warp | Block

  datatype RoutingMode = Rules | All

  datatype RuleRef = DomainRef(index: nat) | IpRef(index: nat)

  datatype DomainMatch = Exact(value: string) | Suffix(value: string) | GeoSite(value: string)

  datatype DomainRule = DomainRule(name: string, enabled: bool, matcher: DomainMatch, target: RouteTarget)

  /** A CIDR rule holds its parsed network; a GeoIP rule the tag of a list. */
  datatype IpMatch = InNetwork(network: Cidr) | GeoIp(value: string)

  datatype IpRule = IpRule(name: string, enabled: bool, matcher: IpMatch, target: RouteTarget)

  datatype RoutingConfig = RoutingConfig(
    domainRules: seq<DomainRule>,
    ipRules: seq<IpRule>,
    defaultTarget: RouteTarget,
    mode: RoutingMode,
    ruleOrder: Option<seq<RuleRef>>)

  datatype Site = Site(full: set<string>, roots: set<string>, keywords: seq<string>, regexes: seq<string -> bool>)

  datatype GeoData = GeoData(sites: map<string, Site>, ips: map<string, seq<Cidr>>) {
    function IpNetworks(tag: string): seq<Cidr> {
      if tag in ips then ips[tag] else []
    }

    predicate MatchesSite(tag: string, domain: string) {
      tag in sites && SiteMatches(sites[tag], domain)
    }

    /** Every list was decoded by `decode_ip`. */
    predicate Valid() {
      forall tag :: tag in ips ==> Canonical(ips[tag])
    }
  }

  // ----- domains -----

  predicate HasSuffix(domain: string, suffix: string) {
    |suffix| <= |domain| && domain[|domain| - |suffix|..] == suffix
  }

  /** `domain` is `root` or a name below it, as a suffix rule tests it. */
  predicate SuffixMatches(root: string, domain: string) {
    || domain == root
    || (HasSuffix(domain, root) && |domain| > |root| && domain[|domain| - |root| - 1] == '.')
  }

  /** A suffix rule accepts its own name and every name that ends in a dot and its name. */
  lemma SuffixIs(root: string, domain: string)
    ensures SuffixMatches(root, domain) <==> domain == root || exists front: string :: domain == front + "." + root
  {
    if SuffixMatches(root, domain) && domain != root {
      var front := domain[..|domain| - |root| - 1];
      assert domain == front + "." + root;
    }
    if front: string :| domain == front + "." + root {
      assert domain[|domain| - |root|..] == root && domain[|front|] == '.';
    }
  }

  predicate ContainsAt(domain: string, keyword: string, at: nat) {
    at + |keyword| <= |domain| && domain[at..at + |keyword|] == keyword
  }

  /** Some dot of the domain is followed by a root, the test of `Site::matches`. */
  predicate RootBehindDot(roots: set<string>, domain: string) {
    exists offset :: 0 <= offset < |domain| && domain[offset] == '.' && domain[offset + 1..] in roots
  }

  predicate SiteMatches(site: Site, domain: string) {
    || domain in site.full
    || domain in site.roots
    || RootBehindDot(site.roots, domain)
    || (exists i ::
          0 <= i < |site.keywords| && exists at :: 0 <= at <= |domain| && ContainsAt(domain, site.keywords[i], at))
    || (exists i :: 0 <= i < |site.regexes| && site.regexes[i](domain))
  }

  /** The roots of a GeoSite list mean what suffix rules with the same values mean. */
  lemma RootsAreSuffixRules(site: Site, domain: string)
    requires site.full == {} && site.keywords == [] && site.regexes == []
    ensures SiteMatches(site, domain) <==> exists root :: root in site.roots && SuffixMatches(root, domain)
  {
    if SiteMatches(site, domain) && domain !in site.roots {
      var offset :| 0 <= offset < |domain| && domain[offset] == '.' && domain[offset + 1..] in site.roots;
      assert SuffixMatches(domain[offset + 1..], domain);
    }
    if domain in site.roots {
      assert SuffixMatches(domain, domain);
    }
    if root :| root in site.roots && SuffixMatches(root, domain) && domain != root {
      assert domain[|domain| - |root| - 1 + 1..] == root;
    }
  }

  predicate MatchesDomain(geo: GeoData, rule: DomainRule, domain: string) {
    match rule.matcher
    case Exact(value) => domain == value
    case Suffix(value) => SuffixMatches(value, domain)
    case GeoSite(value) => geo.MatchesSite(value, domain)
  }

  predicate MatchesIp(geo: GeoData, rule: IpRule, ip: int) {
    match rule.matcher
    case InNetwork(network) => Has(network, ip)
    case GeoIp(value) => Covers(geo.IpNetworks(value), ip)
  }

  // ----- targets -----

  /** `LAN_RANGES`: loopback, private, link-local, multicast and broadcast addresses. */
  predicate IsLan(ip: int) {
    || 0x0a00_0000 <= ip <= 0x0aff_ffff
    || 0x7f00_0000 <= ip <= 0x7fff_ffff
    || 0xa9fe_0000 <= ip <= 0xa9fe_ffff
    || 0xac10_0000 <= ip <= 0xac1f_ffff
    || 0xc0a8_0000 <= ip <= 0xc0a8_ffff
    || 0xe000_0000 <= ip <= 0xefff_ffff
    || ip == 0xffff_ffff
  }

  function RuleRefs(config: RoutingConfig): seq<RuleRef> {
    match config.ruleOrder
    case Some(order) => order
    case None =>
      seq(|config.domainRules|, (i: nat) => DomainRef(i)) + seq(|config.ipRules|, (i: nat) => IpRef(i))
  }

  /** The rule behind a reference, if it exists, is enabled and matches. */
  function RefTarget(config: RoutingConfig, geo: GeoData, ref: RuleRef, domain: string, ip: int): Option<RouteTarget> {
    match ref
    case DomainRef(index) =>
      if index < |config.domainRules| && config.domainRules[index].enabled
        && MatchesDomain(geo, config.domainRules[index], domain)
      then Some(config.domainRules[index].target) else None
    case IpRef(index) =>
      if index < |config.ipRules| && config.ipRules[index].enabled && MatchesIp(geo, config.ipRules[index], ip)
      then Some(config.ipRules[index].target) else None
  }

  function FirstTarget(config: RoutingConfig, geo: GeoData, refs: seq<RuleRef>, domain: string, ip: int): RouteTarget {
    if refs == [] then config.defaultTarget
    else
      match RefTarget(config, geo, refs[0], domain, ip)
      case Some(target) => target
      case None => FirstTarget(config, geo, refs[1..], domain, ip)
  }

  /** `target`: the egress of a connection to `ip` that was resolved from `domain`. */
  function Target(config: RoutingConfig, geo: GeoData, domain: string, ip: int): RouteTarget {
    if IsLan(ip) then Direct
    else if config.mode.All? then Vpn
    else FirstTarget(config, geo, RuleRefs(config), domain, ip)
  }

  function EffectiveFallback(config: RoutingConfig): RouteTarget {
    if config.mode.All? then Vpn else config.defaultTarget
  }

  /** `ip_rule_indices`. */
  function IpRuleIndices(config: RoutingConfig): seq<nat> {
    if config.mode.All? then [] else IpIndices(RuleRefs(config))
  }

  function IpIndices(refs: seq<RuleRef>): (r: seq<nat>)
    ensures |r| <= |refs|
  {
    if refs == [] then []
    else (if refs[0].IpRef? then [refs[0].index] else []) + IpIndices(refs[1..])
  }

  /** Every reference names an existing rule; `ip_target` indexes without a check. */
  predicate InRange(config: RoutingConfig, refs: seq<RuleRef>) {
    forall i :: 0 <= i < |refs| ==>
      match refs[i]
      case DomainRef(index) => index < |config.domainRules|
      case IpRef(index) => index < |config.ipRules|
  }

  function FirstIp(config: RoutingConfig, geo: GeoData, indices: seq<nat>, ip: int): RouteTarget
    requires forall i :: 0 <= i < |indices| ==> indices[i] < |config.ipRules|
  {
    if indices == [] then EffectiveFallback(config)
    else
      var rule := config.ipRules[indices[0]];
      if rule.enabled && MatchesIp(geo, rule, ip) then rule.target
      else FirstIp(config, geo, indices[1..], ip)
  }

  lemma {:induction false} IpIndicesInRange(config: RoutingConfig, refs: seq<RuleRef>)
    requires InRange(config, refs)
    ensures forall i :: 0 <= i < |IpIndices(refs)| ==> IpIndices(refs)[i] < |config.ipRules|
    decreases |refs|
  {
    if refs != [] {
      IpIndicesInRange(config, refs[1..]);
    }
  }

  /** `ip_target`: the egress of a connection to an address that FakeDNS did not hand out. */
  function IpTarget(config: RoutingConfig, geo: GeoData, ip: int): RouteTarget
    requires InRange(config, RuleRefs(config))
  {
    if IsLan(ip) then Direct
    else if config.mode.All? then Vpn
    else
      IpIndicesInRange(config, RuleRefs(config));
      FirstIp(config, geo, IpRuleIndices(config), ip)
  }

  predicate SomeDomainRuleMatches(config: RoutingConfig, geo: GeoData, refs: seq<RuleRef>, domain: string) {
    exists i :: 0 <= i < |refs| && refs[i].DomainRef? && refs[i].index < |config.domainRules|
      && config.domainRules[refs[i].index].enabled && MatchesDomain(geo, config.domainRules[refs[i].index], domain)
  }

  lemma {:induction false} FirstIpIsFirstTarget(config: RoutingConfig, geo: GeoData, refs: seq<RuleRef>,
    domain: string, ip: int)
    requires InRange(config, refs) && config.mode.Rules? && !SomeDomainRuleMatches(config, geo, refs, domain)
    ensures forall i :: 0 <= i < |IpIndices(refs)| ==> IpIndices(refs)[i] < |config.ipRules|
    ensures FirstIp(config, geo, IpIndices(refs), ip) == FirstTarget(config, geo, refs, domain, ip)
    decreases |refs|
  {
    IpIndicesInRange(config, refs);
    if refs != [] {
      assert forall i :: 0 <= i < |refs[1..]| ==> refs[1..][i] == refs[i + 1];
      FirstIpIsFirstTarget(config, geo, refs[1..], domain, ip);
      if refs[0].IpRef? {
        assert IpIndices(refs)[1..] == IpIndices(refs[1..]);
      } else {
        assert IpIndices(refs) == IpIndices(refs[1..]);
      }
    }
  }

  /** Without a matching domain rule the two readings of a policy agree. */
  lemma TargetsAgree(config: RoutingConfig, geo: GeoData, domain: string, ip: int)
    requires InRange(config, RuleRefs(config))
    requires !SomeDomainRuleMatches(config, geo, RuleRefs(config), domain)
    ensures Target(config, geo, domain, ip) == IpTarget(config, geo, ip)
  {
    if config.mode.Rules? {
      FirstIpIsFirstTarget(config, geo, RuleRefs(config), domain, ip);
    }
  }

  predicate TagKnown(geo: GeoData, ref: RuleRef, config: RoutingConfig) {
    match ref
    case DomainRef(index) =>
      index < |config.domainRules| && config.domainRules[index].enabled
        && config.domainRules[index].matcher.GeoSite? ==>
        config.domainRules[index].matcher.value in geo.sites
    case IpRef(index) =>
      index < |config.ipRules| && config.ipRules[index].enabled && config.ipRules[index].matcher.GeoIp? ==>
        config.ipRules[index].matcher.value in geo.ips
  }

  /** `compile` needs every tag that an enabled rule names. */
  predicate TagsKnown(config: RoutingConfig, geo: GeoData) {
    config.mode.Rules? ==>
      && (forall i :: 0 <= i < |config.domainRules| ==> TagKnown(geo, DomainRef(i), config))
      && (forall i :: 0 <= i < |config.ipRules| ==> TagKnown(geo, IpRef(i), config))
  }

  predicate UsesWarp(config: RoutingConfig) {
    && config.mode.Rules?
    && (|| config.defaultTarget == Warp
        || (exists i ::
              0 <= i < |config.domainRules| && config.domainRules[i].enabled && config.domainRules[i].target == Warp)
        || (exists i :: 0 <= i < |config.ipRules| && config.ipRules[i].enabled && config.ipRules[i].target == Warp))
  }

  // ----- DNS -----

  function Rank(target: RouteTarget): nat {
    match target
    case Block => 0
    case Direct => 1
    case Vpn => 2
    case Warp => 3
  }

  function Protect(left: RouteTarget, right: RouteTarget): RouteTarget {
    if Rank(left) >= Rank(right) then left else right
  }

  predicate CatchAll(rule: IpRule) {
    rule.matcher.InNetwork? && rule.matcher.network.prefix == 0
  }

  /** The targets a lookup of `domain` may still lead to, in rule order. */
  function Outcomes(config: RoutingConfig, geo: GeoData, refs: seq<RuleRef>, domain: string): (r: seq<RouteTarget>)
    ensures r != []
  {
    if refs == [] then [config.defaultTarget]
    else
      match refs[0]
      case DomainRef(index) =>
        if index < |config.domainRules| && config.domainRules[index].enabled
          && MatchesDomain(geo, config.domainRules[index], domain)
        then [config.domainRules[index].target]
        else Outcomes(config, geo, refs[1..], domain)
      case IpRef(index) =>
        if index < |config.ipRules| && config.ipRules[index].enabled then
          [config.ipRules[index].target]
            + if CatchAll(config.ipRules[index]) then [] else Outcomes(config, geo, refs[1..], domain)
        else Outcomes(config, geo, refs[1..], domain)
  }

  /** The element of highest rank. */
  function MostProtected(targets: seq<RouteTarget>): (r: RouteTarget)
    ensures targets != [] ==> r in targets
    ensures forall t :: t in targets ==> Rank(t) <= Rank(r)
  {
    if targets == [] then Block
    else
      var rest := MostProtected(targets[1..]);
      if |targets| == 1 then targets[0] else Protect(targets[0], rest)
  }

  function DnsTarget(config: RoutingConfig, geo: GeoData, domain: string): RouteTarget {
    if config.mode.All? then Vpn else MostProtected(Outcomes(config, geo, RuleRefs(config), domain))
  }

  lemma {:induction false} MostProtectedAppend(first: seq<RouteTarget>, second: seq<RouteTarget>)
    ensures MostProtected(first + second) == Protect(MostProtected(first), MostProtected(second))
    decreases |first|
  {
    if first == [] {
      assert first + second == second;
    } else {
      assert (first + second)[1..] == first[1..] + second;
      MostProtectedAppend(first[1..], second);
    }
  }

  /** `dns_target`: one pass that keeps the most protected possible outcome and may stop early. */
  method ComputeDnsTarget(config: RoutingConfig, geo: GeoData, domain: string) returns (target: RouteTarget)
    ensures target == DnsTarget(config, geo, domain)
  {
    if config.mode.All? {
      return Vpn;
    }
    var refs := RuleRefs(config);
    var possible := Block;
    for i := 0 to |refs|
      invariant DnsTarget(config, geo, domain)
        == Protect(possible, MostProtected(Outcomes(config, geo, refs[i..], domain)))
    {
      assert refs[i..][1..] == refs[i + 1..];
      match refs[i]
      case DomainRef(index) =>
        if index < |config.domainRules| && config.domainRules[index].enabled
          && MatchesDomain(geo, config.domainRules[index], domain)
        {
          return Protect(possible, config.domainRules[index].target);
        }
      case IpRef(index) =>
        if index < |config.ipRules| && config.ipRules[index].enabled {
          MostProtectedAppend([config.ipRules[index].target], Outcomes(config, geo, refs[i + 1..], domain));
          possible := Protect(possible, config.ipRules[index].target);
          if CatchAll(config.ipRules[index]) {
            return possible;
          }
        }
    }
    target := Protect(possible, config.defaultTarget);
  }

  lemma CatchAllMatches(network: Cidr, ip: int)
    requires network.prefix == 0 && IsAddress(ip)
    ensures Has(network, ip)
  {
    AlignedBase(network.network, 0);
    Pow2Of32();
  }

  /** Whatever address the answer holds, its target was one of the outcomes considered. */
  lemma {:induction false} TargetIsAnOutcome(config: RoutingConfig, geo: GeoData, refs: seq<RuleRef>,
    domain: string, ip: int)
    requires IsAddress(ip)
    ensures FirstTarget(config, geo, refs, domain, ip) in Outcomes(config, geo, refs, domain)
    decreases |refs|
  {
    if refs != [] {
      TargetIsAnOutcome(config, geo, refs[1..], domain, ip);
      if refs[0].IpRef? && refs[0].index < |config.ipRules| && CatchAll(config.ipRules[refs[0].index]) {
        CatchAllMatches(config.ipRules[refs[0].index].matcher.network, ip);
      }
    }
  }

  /**
   * What the ranks mean: WARP if it is possible, else the tunnel, else the open path; nothing only if all is
   * blocked.
   */
  lemma DnsTargetIs(config: RoutingConfig, geo: GeoData, domain: string)
    requires config.mode.Rules?
    ensures var possible, target := Outcomes(config, geo, RuleRefs(config), domain), DnsTarget(config, geo, domain);
      && (target == Warp <==> Warp in possible)
      && (target == Vpn <==> Vpn in possible && Warp !in possible)
      && (target == Direct <==> Direct in possible && Vpn !in possible && Warp !in possible)
      && (target == Block <==> forall t :: t in possible ==> t == Block)
  {
  }

  /** The rule behind a reference is enabled and matches. */
  predicate Decides(config: RoutingConfig, geo: GeoData, ref: RuleRef, domain: string, ip: int) {
    match ref
    case DomainRef(index) =>
      && index < |config.domainRules| && config.domainRules[index].enabled
      && MatchesDomain(geo, config.domainRules[index], domain)
    case IpRef(index) =>
      index < |config.ipRules| && config.ipRules[index].enabled && MatchesIp(geo, config.ipRules[index], ip)
  }

  function TargetOf(config: RoutingConfig, ref: RuleRef): RouteTarget
    requires InRange(config, [ref])
  {
    assert [ref][0] == ref;
    match ref
    case DomainRef(index) => config.domainRules[index].target
    case IpRef(index) => config.ipRules[index].target
  }

  /** A reference decides, and no earlier one does. */
  predicate DecidesFirst(config: RoutingConfig, geo: GeoData, refs: seq<RuleRef>, domain: string, ip: int, i: nat) {
    && i < |refs| && Decides(config, geo, refs[i], domain, ip)
    && forall k :: 0 <= k < i ==> !Decides(config, geo, refs[k], domain, ip)
  }

  predicate NoneDecides(config: RoutingConfig, geo: GeoData, refs: seq<RuleRef>, domain: string, ip: int) {
    forall k :: 0 <= k < |refs| ==> !Decides(config, geo, refs[k], domain, ip)
  }

  /** The first enabled rule in order that matches decides; without one, the default. */
  lemma {:induction false} FirstRuleDecides(config: RoutingConfig, geo: GeoData, refs: seq<RuleRef>, domain: string,
    ip: int, i: nat)
    ensures DecidesFirst(config, geo, refs, domain, ip, i) ==>
      InRange(config, [refs[i]]) && FirstTarget(config, geo, refs, domain, ip) == TargetOf(config, refs[i])
    ensures NoneDecides(config, geo, refs, domain, ip) ==>
      FirstTarget(config, geo, refs, domain, ip) == config.defaultTarget
    decreases |refs|
  {
    if refs != [] {
      assert forall k :: 0 <= k < |refs| - 1 ==> refs[1..][k] == refs[k + 1];
      if Decides(config, geo, refs[0], domain, ip) {
        assert DecidesFirst(config, geo, refs, domain, ip, i) ==> i == 0;
      } else {
        FirstRuleDecides(config, geo, refs[1..], domain, ip, if i > 0 then i - 1 else 0);
        if DecidesFirst(config, geo, refs, domain, ip, i) {
          assert i > 0 && DecidesFirst(config, geo, refs[1..], domain, ip, i - 1);
        }
      }
    }
  }

  /**
   * `target` in words: the LAN is direct, the tunnel takes everything in that mode, otherwise the first rule
   * decides.
   */
  lemma TargetIs(config: RoutingConfig, geo: GeoData, domain: string, ip: int, i: nat)
    ensures IsLan(ip) ==> Target(config, geo, domain, ip) == Direct
    ensures !IsLan(ip) && config.mode.All? ==> Target(config, geo, domain, ip) == Vpn
    ensures !IsLan(ip) && config.mode.Rules? && DecidesFirst(config, geo, RuleRefs(config), domain, ip, i) ==>
      InRange(config, [RuleRefs(config)[i]]) && Target(config, geo, domain, ip) == TargetOf(config, RuleRefs(config)[i])
    ensures !IsLan(ip) && config.mode.Rules? && NoneDecides(config, geo, RuleRefs(config), domain, ip) ==>
      Target(config, geo, domain, ip) == config.defaultTarget
  {
    FirstRuleDecides(config, geo, RuleRefs(config), domain, ip, i);
  }

  /** The switch that rejects IPv6 is set whenever some connection or lookup may want WARP. */
  lemma WarpIsUsed(config: RoutingConfig, geo: GeoData, domain: string, ip: int)
    ensures Target(config, geo, domain, ip) == Warp ==> UsesWarp(config)
    ensures DnsTarget(config, geo, domain) == Warp ==> UsesWarp(config)
  {
    if config.mode.Rules? {
      WarpComesFromRules(config, geo, RuleRefs(config), domain, ip);
      if DnsTarget(config, geo, domain) == Warp {
        DnsTargetIs(config, geo, domain);
      }
    }
  }

  lemma {:induction false} WarpComesFromRules(config: RoutingConfig, geo: GeoData, refs: seq<RuleRef>, domain: string,
    ip: int)
    requires config.mode.Rules?
    ensures FirstTarget(config, geo, refs, domain, ip) == Warp ==> UsesWarp(config)
    ensures Warp in Outcomes(config, geo, refs, domain) ==> UsesWarp(config)
    decreases |refs|
  {
    if refs != [] {
      WarpComesFromRules(config, geo, refs[1..], domain, ip);
    }
  }

  /** A lookup is at least as protected as the connection that follows it. */
  lemma DnsIsAtLeastAsProtected(config: RoutingConfig, geo: GeoData, domain: string, ip: int)
    requires IsAddress(ip) && !IsLan(ip)
    ensures Rank(DnsTarget(config, geo, domain)) >= Rank(Target(config, geo, domain, ip))
  {
    TargetIsAnOutcome(config, geo, RuleRefs(config), domain, ip);
  }
}
