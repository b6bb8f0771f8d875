/** The panel's rule list: flattening a stored policy, packing it again, and moving one rule. */
module RuleDrafts {
  import opened Ipv4
  import opened Routing
  import opened RuleOrder

  datatype DraftRule = DomainDraft(domain: DomainRule) | IpDraft(ip: IpRule)

  function DraftAt(config: RoutingConfig, ref: RuleRef): seq<DraftRule> {
    match ref
    case DomainRef(index) => if index < |config.domainRules| then [DomainDraft(config.domainRules[index])] else []
    case IpRef(index) => if index < |config.ipRules| then [IpDraft(config.ipRules[index])] else []
  }

  /** `cloneRules`: the rules in order; references to missing rules are dropped. */
  function Cloned(config: RoutingConfig, refs: seq<RuleRef>): seq<DraftRule> {
    if refs == [] then [] else DraftAt(config, refs[0]) + Cloned(config, refs[1..])
  }

  function CloneRules(config: RoutingConfig): seq<DraftRule> {
    Cloned(config, RuleRefs(config))
  }

  // ----- packing -----

  function TrimDomain(trim: string -> string, rule: DomainRule): DomainRule {
    rule.(name := trim(rule.name), matcher := match rule.matcher
      case Exact(value) => Exact(trim(value))
      case Suffix(value) => Suffix(trim(value))
      case GeoSite(value) => GeoSite(trim(value)))
  }

  function TrimIp(trim: string -> string, rule: IpRule): IpRule {
    rule.(name := trim(rule.name), matcher := match rule.matcher
      case InNetwork(network) => InNetwork(network)
      case GeoIp(value) => GeoIp(trim(value)))
  }

  function Domains(trim: string -> string, draft: seq<DraftRule>): seq<DomainRule> {
    if draft == [] then []
    else
      var last := draft[|draft| - 1];
      Domains(trim, draft[..|draft| - 1]) + if last.DomainDraft? then [TrimDomain(trim, last.domain)] else []
  }

  function Ips(trim: string -> string, draft: seq<DraftRule>): seq<IpRule> {
    if draft == [] then []
    else
      var last := draft[|draft| - 1];
      Ips(trim, draft[..|draft| - 1]) + if last.IpDraft? then [TrimIp(trim, last.ip)] else []
  }

  /** Each rule is referred to by the number of rules of its kind before it. */
  function Order(trim: string -> string, draft: seq<DraftRule>): (r: seq<RuleRef>)
    ensures |r| == |draft|
  {
    if draft == [] then []
    else
      var before := draft[..|draft| - 1];
      Order(trim, before)
        + [if draft[|draft| - 1].DomainDraft? then DomainRef(|Domains(trim, before)|) else IpRef(|Ips(trim, before)|)]
  }

  function Packed(trim: string -> string, mode: RoutingMode, fallback: RouteTarget,
    draft: seq<DraftRule>): RoutingConfig {
    RoutingConfig(Domains(trim, draft), Ips(trim, draft), fallback, mode, Some(Order(trim, draft)))
  }

  /** `packRules`: one pass that pushes into three lists. */
  method PackRules(trim: string -> string, mode: RoutingMode, fallback: RouteTarget, draft: seq<DraftRule>)
    returns (config: RoutingConfig)
    ensures config == Packed(trim, mode, fallback, draft)
  {
    var domainRules, ipRules, ruleOrder := [], [], [];
    for i := 0 to |draft|
      invariant domainRules == Domains(trim, draft[..i])
      invariant ipRules == Ips(trim, draft[..i])
      invariant ruleOrder == Order(trim, draft[..i])
    {
      assert draft[..i + 1][..i] == draft[..i];
      match draft[i]
      case DomainDraft(rule) =>
        ruleOrder := ruleOrder + [DomainRef(|domainRules|)];
        domainRules := domainRules + [TrimDomain(trim, rule)];
      case IpDraft(rule) =>
        ruleOrder := ruleOrder + [IpRef(|ipRules|)];
        ipRules := ipRules + [TrimIp(trim, rule)];
    }
    assert draft[..|draft|] == draft;
    config := RoutingConfig(domainRules, ipRules, fallback, mode, Some(ruleOrder));
  }

  /** Counting rules by kind never repeats a reference, so the server's check accepts the order. */
  lemma {:induction false} PackedOrderEachOnce(trim: string -> string, draft: seq<DraftRule>)
    ensures EachOnce(Order(trim, draft), |Domains(trim, draft)|, |Ips(trim, draft)|)
    decreases |draft|
  {
    if draft != [] {
      PackedOrderEachOnce(trim, draft[..|draft| - 1]);
    }
  }

  lemma PackedOrderAccepted(trim: string -> string, mode: RoutingMode, fallback: RouteTarget, draft: seq<DraftRule>)
    ensures var config := Packed(trim, mode, fallback, draft);
      multiset(config.ruleOrder.value) == multiset(AllRefs(|config.domainRules|, |config.ipRules|))
  {
    PackedOrderEachOnce(trim, draft);
    EachOnceIsPermutation(Order(trim, draft), |Domains(trim, draft)|, |Ips(trim, draft)|);
  }

  function TrimmedRule(trim: string -> string, rule: DraftRule): DraftRule {
    match rule
    case DomainDraft(d) => DomainDraft(TrimDomain(trim, d))
    case IpDraft(r) => IpDraft(TrimIp(trim, r))
  }

  /** Following the packed order gives back the (trimmed) draft. */
  function Trimmed(trim: string -> string, draft: seq<DraftRule>): seq<DraftRule> {
    seq(|draft|, i requires 0 <= i < |draft| => TrimmedRule(trim, draft[i]))
  }

  lemma {:induction false} ClonedAppend(config: RoutingConfig, first: seq<RuleRef>, second: seq<RuleRef>)
    ensures Cloned(config, first + second) == Cloned(config, first) + Cloned(config, second)
    decreases |first|
  {
    if first == [] {
      assert first + second == second;
    } else {
      assert (first + second)[1..] == first[1..] + second;
      ClonedAppend(config, first[1..], second);
    }
  }

  /** References that exist already do not see rules pushed later. */
  lemma {:induction false} ClonedGrows(config: RoutingConfig, larger: RoutingConfig, refs: seq<RuleRef>)
    requires config.domainRules <= larger.domainRules && config.ipRules <= larger.ipRules
    requires forall i :: 0 <= i < |refs| ==> RefExists(refs[i], |config.domainRules|, |config.ipRules|)
    ensures Cloned(config, refs) == Cloned(larger, refs)
    decreases |refs|
  {
    if refs != [] {
      ClonedGrows(config, larger, refs[1..]);
    }
  }

  lemma TrimmedLast(trim: string -> string, draft: seq<DraftRule>)
    requires draft != []
    ensures Trimmed(trim, draft) == Trimmed(trim, draft[..|draft| - 1]) + [TrimmedRule(trim, draft[|draft| - 1])]
  {
  }

  /** The last reference of a packed order names the rule that was packed last. */
  lemma LastRefNamesLast(trim: string -> string, mode: RoutingMode, fallback: RouteTarget, draft: seq<DraftRule>)
    requires draft != []
    ensures var order := Order(trim, draft);
      DraftAt(Packed(trim, mode, fallback, draft), order[|order| - 1]) == [TrimmedRule(trim, draft[|draft| - 1])]
  {
  }

  lemma PackedGrows(trim: string -> string, draft: seq<DraftRule>)
    requires draft != []
    ensures var before := draft[..|draft| - 1];
      && Domains(trim, before) <= Domains(trim, draft) && Ips(trim, before) <= Ips(trim, draft)
      && Order(trim, draft) == Order(trim, before) + [Order(trim, draft)[|draft| - 1]]
  {
  }

  lemma ClonedOne(config: RoutingConfig, ref: RuleRef)
    ensures Cloned(config, [ref]) == DraftAt(config, ref)
  {
    assert [ref][1..] == [];
  }

  lemma {:induction false} CloneOfPacked(trim: string -> string, mode: RoutingMode, fallback: RouteTarget,
    draft: seq<DraftRule>)
    ensures Cloned(Packed(trim, mode, fallback, draft), Order(trim, draft)) == Trimmed(trim, draft)
    decreases |draft|
  {
    if draft != [] {
      var before := draft[..|draft| - 1];
      var ref := Order(trim, draft)[|draft| - 1];
      var smaller, config := Packed(trim, mode, fallback, before), Packed(trim, mode, fallback, draft);
      CloneOfPacked(trim, mode, fallback, before);
      PackedOrderEachOnce(trim, before);
      PackedGrows(trim, draft);
      ClonedGrows(smaller, config, Order(trim, before));
      ClonedAppend(config, Order(trim, before), [ref]);
      ClonedOne(config, ref);
      LastRefNamesLast(trim, mode, fallback, draft);
      TrimmedLast(trim, draft);
    }
  }

  // ----- the policy of a flat list -----

  predicate DraftMatches(geo: GeoData, rule: DraftRule, domain: string, ip: int) {
    match rule
    case DomainDraft(d) => d.enabled && MatchesDomain(geo, d, domain)
    case IpDraft(r) => r.enabled && MatchesIp(geo, r, ip)
  }

  function DraftTarget(fallback: RouteTarget, geo: GeoData, draft: seq<DraftRule>, domain: string,
    ip: int): RouteTarget {
    if draft == [] then fallback
    else if DraftMatches(geo, draft[0], domain, ip) then
      (match draft[0] case DomainDraft(d) => d.target case IpDraft(r) => r.target)
    else DraftTarget(fallback, geo, draft[1..], domain, ip)
  }

  function DraftOutcomes(fallback: RouteTarget, geo: GeoData, draft: seq<DraftRule>, domain: string): seq<RouteTarget> {
    if draft == [] then [fallback]
    else
      match draft[0]
      case DomainDraft(d) =>
        if d.enabled && MatchesDomain(geo, d, domain) then [d.target]
        else DraftOutcomes(fallback, geo, draft[1..], domain)
      case IpDraft(r) =>
        if r.enabled then
          [r.target] + if CatchAll(r) then [] else DraftOutcomes(fallback, geo, draft[1..], domain)
        else DraftOutcomes(fallback, geo, draft[1..], domain)
  }

  /** A policy is decided by its flattened list alone, whatever its order names. */
  lemma {:induction false} PolicyOfClone(config: RoutingConfig, geo: GeoData, refs: seq<RuleRef>,
    domain: string, ip: int)
    ensures FirstTarget(config, geo, refs, domain, ip)
      == DraftTarget(config.defaultTarget, geo, Cloned(config, refs), domain, ip)
    ensures Outcomes(config, geo, refs, domain) ==
      DraftOutcomes(config.defaultTarget, geo, Cloned(config, refs), domain)
    decreases |refs|
  {
    if refs != [] {
      PolicyOfClone(config, geo, refs[1..], domain, ip);
      var head, rest := DraftAt(config, refs[0]), Cloned(config, refs[1..]);
      if head != [] {
        assert (head + rest)[1..] == rest;
      } else {
        assert head + rest == rest;
      }
    }
  }

  /** Values without surrounding blanks, as every stored policy has them after normalisation. */
  ghost predicate AlreadyTrimmed(trim: string -> string, config: RoutingConfig) {
    && (forall i :: 0 <= i < |config.domainRules| ==>
          trim(config.domainRules[i].name) == config.domainRules[i].name
          && trim(config.domainRules[i].matcher.value) == config.domainRules[i].matcher.value)
    && (forall i :: 0 <= i < |config.ipRules| ==>
          trim(config.ipRules[i].name) == config.ipRules[i].name
          && (config.ipRules[i].matcher.GeoIp? ==>
            trim(config.ipRules[i].matcher.value) == config.ipRules[i].matcher.value))
  }

  /** Trimming touches names and values and nothing else. */
  lemma TrimKeepsRules(trim: string -> string, config: RoutingConfig)
    requires AlreadyTrimmed(trim, config)
    ensures forall i :: 0 <= i < |config.domainRules| ==>
      TrimDomain(trim, config.domainRules[i]) == config.domainRules[i]
    ensures forall i :: 0 <= i < |config.ipRules| ==> TrimIp(trim, config.ipRules[i]) == config.ipRules[i]
  {
  }

  lemma {:induction false} ClonedTrimmed(trim: string -> string, config: RoutingConfig, refs: seq<RuleRef>)
    requires AlreadyTrimmed(trim, config)
    ensures Trimmed(trim, Cloned(config, refs)) == Cloned(config, refs)
    decreases |refs|
  {
    TrimKeepsRules(trim, config);
    if refs != [] {
      ClonedTrimmed(trim, config, refs[1..]);
      var head, rest := DraftAt(config, refs[0]), Cloned(config, refs[1..]);
      assert Trimmed(trim, head) == head;
      assert Trimmed(trim, head + rest) == Trimmed(trim, head) + Trimmed(trim, rest);
    }
  }

  /**
   * Opening the editor and saving without changes renumbers the rules into an order the server
   * accepts and changes neither the egress of any connection nor the path of any lookup.
   */
  lemma RepackKeepsPolicy(trim: string -> string, config: RoutingConfig, geo: GeoData, domain: string, ip: int)
    requires AlreadyTrimmed(trim, config)
    ensures var repacked := Packed(trim, config.mode, config.defaultTarget, CloneRules(config));
      && multiset(repacked.ruleOrder.value) == multiset(AllRefs(|repacked.domainRules|, |repacked.ipRules|))
      && Target(repacked, geo, domain, ip) == Target(config, geo, domain, ip)
      && DnsTarget(repacked, geo, domain) == DnsTarget(config, geo, domain)
  {
    var draft := CloneRules(config);
    var repacked := Packed(trim, config.mode, config.defaultTarget, draft);
    PackedOrderAccepted(trim, config.mode, config.defaultTarget, draft);
    CloneOfPacked(trim, config.mode, config.defaultTarget, draft);
    ClonedTrimmed(trim, config, RuleRefs(config));
    PolicyOfClone(config, geo, RuleRefs(config), domain, ip);
    PolicyOfClone(repacked, geo, RuleRefs(repacked), domain, ip);
  }

  // ----- moving a rule -----

  function Moved(rules: seq<DraftRule>, from: int, to: int): (r: seq<DraftRule>)
    requires 0 <= from < |rules| && 0 <= to < |rules|
    ensures |r| == |rules|
  {
    var rest := rules[..from] + rules[from + 1..];
    rest[..to] + [rules[from]] + rest[to..]
  }

  /** `reorderRules`: out-of-range or idle moves change nothing. */
  function ReorderRules(rules: seq<DraftRule>, from: int, to: int): seq<DraftRule> {
    if from == to || from < 0 || to < 0 || from >= |rules| || to >= |rules| then rules else Moved(rules, from, to)
  }

  lemma MoveSplits(rules: seq<DraftRule>, from: int, to: int)
    requires 0 <= from < |rules| && 0 <= to < |rules|
    ensures var moved := Moved(rules, from, to);
      && moved[to] == rules[from]
      && moved[..to] + moved[to + 1..] == rules[..from] + rules[from + 1..]
  {
    var rest := rules[..from] + rules[from + 1..];
    assert rest == rest[..to] + rest[to..];
  }

  lemma MultisetOfSplit(rules: seq<DraftRule>, at: int)
    requires 0 <= at < |rules|
    ensures multiset(rules) == multiset(rules[..at] + rules[at + 1..]) + multiset{rules[at]}
  {
    assert rules == rules[..at] + [rules[at]] + rules[at + 1..];
  }

  lemma InsertBack(rules: seq<DraftRule>, at: int)
    requires 0 <= at < |rules|
    ensures var rest := rules[..at] + rules[at + 1..]; rest[..at] + [rules[at]] + rest[at..] == rules
  {
  }

  /** A move keeps every rule, puts the chosen one where asked, and is undone by the reverse move. */
  lemma ReorderIsReversible(rules: seq<DraftRule>, from: int, to: int)
    ensures multiset(ReorderRules(rules, from, to)) == multiset(rules)
    ensures 0 <= from < |rules| && 0 <= to < |rules| ==> ReorderRules(rules, from, to)[to] == rules[from]
    ensures ReorderRules(ReorderRules(rules, from, to), to, from) == rules
  {
    if !(from == to || from < 0 || to < 0 || from >= |rules| || to >= |rules|) {
      var moved := Moved(rules, from, to);
      MoveSplits(rules, from, to);
      MultisetOfSplit(rules, from);
      MultisetOfSplit(moved, to);
      InsertBack(rules, from);
    }
  }
}
