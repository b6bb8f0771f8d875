/** The nft ruleset the agent renders, as rules with an evaluator, and what its marks mean. */
module Dataplane {
  import opened Ipv4
  import opened Aggregation
  import opened Intervals
  import opened Routing
  import opened MarkOperations

  const PANEL_VIRTUAL_IP: int := 0xc612_0000

  type Mac = int

  // ----- packets and rules -----

  datatype Protocol = Tcp | Udp | Other

  datatype Packet = Packet(
    fromLan: bool,
    protocol: Protocol,
    port: int,
    source: Mac,
    reply: bool,
    destination: int,
    local: bool)

  /** The packet mark and the connection mark. */
  datatype Marks<W> = Marks(meta: W, ct: W)

  datatype Match =
    | FromLan
    | NotFromLan
    | NotTcp
    | PortNotIn(ports: set<int>)
    | Port(protocol: Protocol, port: int)
    | FromExcluded
    | Original
    | Reply
    | Unmarked
    | Marked(target: RouteTarget)
    | To(ip: int)
    | ToLocal
    | ToNetwork(network: Cidr)
    | ToFake(target: RouteTarget)
    | ToLan
    | ToIpSet(index: nat)
    | Always

  datatype Statement =
    | ClearMeta
    | SetMeta(target: RouteTarget)
    | SetCt(target: RouteTarget)
    | OwnCt
    | DropPacket
    | Return

  datatype Rule = Rule(matches: seq<Match>, statements: seq<Statement>)

  /** The rendered table: its sets, the mark chain, and what the other chains depend on. */
  datatype Ruleset = Ruleset(
    exclusions: set<Mac>,
    fakeToReal: map<int, int>,
    fakeSets: set<(RouteTarget, int)>,
    ipSets: map<nat, seq<Interval>>,
    chain: seq<Rule>,
    mssClamp: bool,
    ipv6Reject: bool,
    warpSource: Option<int>)

  datatype Sets = Sets(exclusions: set<Mac>, fakeSets: set<(RouteTarget, int)>, ipSets: map<nat, seq<Interval>>)

  function SetsOf(ruleset: Ruleset): Sets {
    Sets(ruleset.exclusions, ruleset.fakeSets, ruleset.ipSets)
  }

  // ----- evaluation -----

  predicate Holds<W>(ops: MarkOps<W>, sets: Sets, packet: Packet, marks: Marks<W>, condition: Match) {
    match condition
    case FromLan => packet.fromLan
    case NotFromLan => !packet.fromLan
    case NotTcp => packet.protocol != Tcp
    case PortNotIn(ports) => packet.port !in ports
    case Port(protocol, port) => packet.protocol == protocol && packet.port == port
    case FromExcluded => packet.source in sets.exclusions
    case Original => !packet.reply
    case Reply => packet.reply
    case Unmarked => ops.unmarked(marks.meta)
    case Marked(target) => ops.carries(marks.meta, target)
    case To(ip) => packet.destination == ip
    case ToLocal => packet.local
    case ToNetwork(network) => Has(network, packet.destination)
    case ToFake(target) => (target, packet.destination) in sets.fakeSets
    case ToLan => IsLan(packet.destination)
    case ToIpSet(index) => index in sets.ipSets && InIntervals(sets.ipSets[index], packet.destination)
    case Always => true
  }

  predicate AllHold<W>(ops: MarkOps<W>, sets: Sets, packet: Packet, marks: Marks<W>, conditions: seq<Match>) {
    forall i :: 0 <= i < |conditions| ==> Holds(ops, sets, packet, marks, conditions[i])
  }

  /** Where a packet is after a statement, a rule or a chain. */
  datatype Outcome<W> = Next(marks: Marks<W>) | Returned(marks: Marks<W>) | Dropped

  function Execute<W>(ops: MarkOps<W>, marks: Marks<W>, statements: seq<Statement>): Outcome<W>
    decreases |statements|
  {
    if statements == [] then Next(marks)
    else
      match statements[0]
      case ClearMeta => Execute(ops, marks.(meta := ops.clear(marks.meta)), statements[1..])
      case SetMeta(target) => Execute(ops, marks.(meta := ops.with(marks.meta, target)), statements[1..])
      case SetCt(target) => Execute(ops, marks.(ct := ops.with(marks.ct, target)), statements[1..])
      case OwnCt => Execute(ops, marks.(ct := ops.own(marks.ct)), statements[1..])
      case DropPacket => Dropped
      case Return => Returned(marks)
  }

  function EvaluateRule<W>(ops: MarkOps<W>, sets: Sets, packet: Packet, marks: Marks<W>, rule: Rule): Outcome<W> {
    if AllHold(ops, sets, packet, marks, rule.matches) then Execute(ops, marks, rule.statements) else Next(marks)
  }

  function Evaluate<W>(ops: MarkOps<W>, sets: Sets, packet: Packet, marks: Marks<W>, chain: seq<Rule>): Outcome<W>
    decreases |chain|
  {
    if chain == [] then Next(marks)
    else
      var first := EvaluateRule(ops, sets, packet, marks, chain[0]);
      if first.Next? then Evaluate(ops, sets, packet, first.marks, chain[1..]) else first
  }

  /** A later part of the chain sees a packet only when no earlier rule ended it. */
  function Continue<W>(ops: MarkOps<W>, sets: Sets, packet: Packet, before: Outcome<W>, chain: seq<Rule>): Outcome<W> {
    if before.Next? then Evaluate(ops, sets, packet, before.marks, chain) else before
  }

  lemma EvaluateAppend<W>(ops: MarkOps<W>, sets: Sets, packet: Packet, marks: Marks<W>, first: seq<Rule>,
    second: seq<Rule>)
    ensures Evaluate(ops, sets, packet, marks, first + second)
      == Continue(ops, sets, packet, Evaluate(ops, sets, packet, marks, first), second)
    decreases |first|
  {
    if first == [] {
      assert first + second == second;
    } else {
      assert (first + second)[1..] == first[1..] + second;
      var head := EvaluateRule(ops, sets, packet, marks, first[0]);
      if head.Next? {
        EvaluateAppend(ops, sets, packet, head.marks, first[1..], second);
      }
    }
  }

  // ----- egress -----

  /** `VpnEgress`: whether the tunnel is on, and the source alias that WARP traffic needs. */
  datatype VpnEgress = VpnEgress(enabled: bool, warpSource: Option<int>)

  function EffectiveTarget(target: RouteTarget, vpnEnabled: bool): RouteTarget {
    match target
    case Vpn => if vpnEnabled then Vpn else Direct
    case Warp => if vpnEnabled then Warp else Block
    case _ => target
  }

  function EgressTarget(egress: VpnEgress, target: RouteTarget): RouteTarget {
    if target == Warp && egress.warpSource.None? then Block else EffectiveTarget(target, egress.enabled)
  }

  /** A protected target is used or blocked, never weakened; plain VPN traffic goes direct when the tunnel is off. */
  lemma EgressNeverWeakens(egress: VpnEgress, target: RouteTarget)
    ensures EgressTarget(egress, target) == Warp <==> target == Warp && ActiveWarpSource(egress).Some?
    ensures EgressTarget(egress, target) == Vpn <==> target == Vpn && egress.enabled
    ensures EgressTarget(egress, target) == Direct <==> target == Direct || (target == Vpn && !egress.enabled)
    ensures EgressTarget(egress, EgressTarget(egress, target)) == EgressTarget(egress, target)
  {
  }

  /** The alias as the other chains see it: absent when the tunnel is off. */
  function ActiveWarpSource(egress: VpnEgress): Option<int> {
    if egress.enabled then egress.warpSource else None
  }

  // ----- rendering -----

  datatype FakeMapping = FakeMapping(fake: int, realIp: int, target: RouteTarget)

  datatype Lan = Lan(subnet: Cidr)

  datatype PanelPorts = PanelPorts(http: int, https: int)

  function AllowedPorts(panel: PanelPorts): set<int> {
    {80, 443, 8081, 8443, panel.http, panel.https}
  }

  /** A rule that marks packets no earlier rule has marked. */
  function Marker(condition: Match, target: RouteTarget): Rule {
    Rule([FromLan, Unmarked, condition], [SetMeta(target)])
  }

  function DirectRule(condition: Match): Rule {
    Rule([FromLan, condition], [SetMeta(Direct)])
  }

  /** The panel address is a LAN TCP endpoint only. */
  function PanelRules(panel: PanelPorts): seq<Rule> {
    [ Rule([To(PANEL_VIRTUAL_IP), NotFromLan], [DropPacket]),
      Rule([To(PANEL_VIRTUAL_IP), NotTcp], [DropPacket]),
      Rule([To(PANEL_VIRTUAL_IP), PortNotIn(AllowedPorts(panel))], [DropPacket]) ]
  }

  /** DNS flows are recognised later by one bit of the connection mark. */
  function OwnershipRules(): seq<Rule> {
    [ Rule([FromLan, Original, Port(Udp, 53)], [OwnCt]),
      Rule([FromLan, Original, Port(Tcp, 53)], [OwnCt]) ]
  }

  function ExclusionRule(): Rule {
    Rule([FromLan, FromExcluded], [SetMeta(Direct), SetCt(Direct), Return])
  }

  function ReplyRules(): seq<Rule> {
    [ Rule([FromLan, Reply], [SetMeta(Direct)]),
      Rule([FromLan, Reply], [SetCt(Direct)]),
      Rule([FromLan, Reply], [Return]) ]
  }

  /** Established packets are classified again from here: panel, router and LAN addresses first. */
  function LocalRules(lan: Lan, rest: seq<Rule>): seq<Rule> {
    [Rule([FromLan], [ClearMeta])]
      + ([DirectRule(To(PANEL_VIRTUAL_IP))] + ([DirectRule(ToLocal)] + ([DirectRule(ToNetwork(lan.subnet))] + rest)))
  }

  const FAKE_TARGETS: seq<RouteTarget> := [Direct, Vpn, Warp, Block]

  function FakeRules(egress: VpnEgress, targets: seq<RouteTarget>): seq<Rule> {
    if targets == [] then []
    else [Marker(ToFake(targets[0]), EgressTarget(egress, targets[0]))] + FakeRules(egress, targets[1..])
  }

  function Destination(rule: IpRule, index: nat): Match {
    match rule.matcher
    case InNetwork(network) => ToNetwork(network)
    case GeoIp(_) => ToIpSet(index)
  }

  predicate IndicesInRange(config: RoutingConfig, indices: seq<nat>) {
    forall i :: 0 <= i < |indices| ==> indices[i] < |config.ipRules|
  }

  function IpRuleRules(config: RoutingConfig, egress: VpnEgress, indices: seq<nat>): seq<Rule>
    requires IndicesInRange(config, indices)
  {
    if indices == [] then []
    else
      var rule := config.ipRules[indices[0]];
      (if rule.enabled then [Marker(Destination(rule, indices[0]), EgressTarget(egress, rule.target))] else [])
        + IpRuleRules(config, egress, indices[1..])
  }

  function Fallback(config: RoutingConfig, egress: VpnEgress): seq<Rule> {
    [Marker(Always, EgressTarget(egress, EffectiveFallback(config)))]
  }

  function SaveRule(target: RouteTarget): Rule {
    Rule([FromLan, Marked(target)], [SetCt(target)])
  }

  /** The decision is copied to the connection, then blocked packets are dropped. */
  function Epilogue(): seq<Rule> {
    [SaveRule(Direct)] + ([SaveRule(Vpn)] + ([SaveRule(Warp)] + ([SaveRule(Block)]
      + ([Rule([FromLan, Marked(Block)], [DropPacket])] + []))))
  }

  function MarkChain(lan: Lan, egress: VpnEgress, config: RoutingConfig, panel: PanelPorts): seq<Rule>
    requires InRange(config, RuleRefs(config))
  {
    PanelRules(panel) + (OwnershipRules() + ([ExclusionRule()] + (ReplyRules()
      + LocalRules(lan, RemoteRules(config, egress)))))
  }

  /** LAN ranges, IP rules and the default, then the epilogue. */
  function AddressRules(config: RoutingConfig, egress: VpnEgress): seq<Rule>
    requires InRange(config, RuleRefs(config))
  {
    IndicesAreInRange(config);
    [Marker(ToLan, Direct)]
      + (IpRuleRules(config, egress, IpRuleIndices(config)) + (Fallback(config, egress) + Epilogue()))
  }

  function RemoteRules(config: RoutingConfig, egress: VpnEgress): seq<Rule>
    requires InRange(config, RuleRefs(config))
  {
    FakeRules(egress, FAKE_TARGETS) + AddressRules(config, egress)
  }

  lemma IndicesAreInRange(config: RoutingConfig)
    requires InRange(config, RuleRefs(config))
    ensures IndicesInRange(config, IpRuleIndices(config))
  {
    IpIndicesInRange(config, RuleRefs(config));
  }

  // ----- what the chain computes -----

  function MappingAt(mappings: seq<FakeMapping>, ip: int): Option<FakeMapping> {
    if mappings == [] then None
    else if mappings[0].fake == ip then Some(mappings[0])
    else MappingAt(mappings[1..], ip)
  }

  predicate IsLocal(lan: Lan, packet: Packet) {
    packet.destination == PANEL_VIRTUAL_IP || packet.local || Has(lan.subnet, packet.destination)
  }

  /** The policy's answer for a packet that is classified. */
  function Decision(lan: Lan, egress: VpnEgress, config: RoutingConfig, geo: GeoData,
    mappings: seq<FakeMapping>, packet: Packet): RouteTarget
    requires InRange(config, RuleRefs(config))
  {
    if IsLocal(lan, packet) then Direct
    else
      match MappingAt(mappings, packet.destination)
      case Some(mapping) => EgressTarget(egress, mapping.target)
      case None => EgressTarget(egress, IpTarget(config, geo, packet.destination))
  }

  function OwnedCt<W>(ops: MarkOps<W>, packet: Packet, ct: W): W {
    if packet.fromLan && !packet.reply && packet.port == 53 && packet.protocol != Other then ops.own(ct) else ct
  }

  /** The whole chain for any packet, given the policy's answer. */
  function Verdict<W>(ops: MarkOps<W>, exclusions: set<Mac>, panel: PanelPorts, decision: RouteTarget,
    packet: Packet, marks: Marks<W>): Outcome<W> {
    var ct := OwnedCt(ops, packet, marks.ct);
    if packet.destination == PANEL_VIRTUAL_IP
      && (!packet.fromLan || packet.protocol != Tcp || packet.port !in AllowedPorts(panel))
    then Dropped
    else if !packet.fromLan then Next(marks)
    else if packet.source in exclusions || packet.reply then
      Returned(Marks(ops.with(marks.meta, Direct), ops.with(ct, Direct)))
    else if decision == Block then Dropped
    else Next(Marks(ops.with(marks.meta, decision), ops.with(ct, decision)))
  }

  // ----- evaluating the segments -----

  lemma EvaluateCons<W>(ops: MarkOps<W>, sets: Sets, packet: Packet, marks: Marks<W>, rule: Rule, rest: seq<Rule>)
    ensures Evaluate(ops, sets, packet, marks, [rule] + rest)
      == Continue(ops, sets, packet, EvaluateRule(ops, sets, packet, marks, rule), rest)
  {
    assert ([rule] + rest)[1..] == rest;
  }

  lemma OneCondition<W>(ops: MarkOps<W>, sets: Sets, packet: Packet, marks: Marks<W>, a: Match)
    ensures AllHold(ops, sets, packet, marks, [a]) <==> Holds(ops, sets, packet, marks, a)
  {
    assert [a][0] == a;
  }

  lemma TwoConditions<W>(ops: MarkOps<W>, sets: Sets, packet: Packet, marks: Marks<W>, a: Match, b: Match)
    ensures AllHold(ops, sets, packet, marks, [a, b])
      <==> Holds(ops, sets, packet, marks, a) && Holds(ops, sets, packet, marks, b)
  {
    assert [a, b][0] == a && [a, b][1] == b;
  }

  lemma ThreeConditions<W>(ops: MarkOps<W>, sets: Sets, packet: Packet, marks: Marks<W>, a: Match, b: Match, c: Match)
    ensures AllHold(ops, sets, packet, marks, [a, b, c])
      <==>
        && Holds(ops, sets, packet, marks, a)
        && Holds(ops, sets, packet, marks, b)
        && Holds(ops, sets, packet, marks, c)
  {
    assert [a, b, c][0] == a && [a, b, c][1] == b && [a, b, c][2] == c;
  }

  /** A rule with two conditions and one statement in front of other rules. */
  lemma TwoThen<W>(ops: MarkOps<W>, sets: Sets, packet: Packet, marks: Marks<W>, a: Match, b: Match,
    statement: Statement, rest: seq<Rule>)
    ensures Evaluate(ops, sets, packet, marks, [Rule([a, b], [statement])] + rest) ==
      if Holds(ops, sets, packet, marks, a) && Holds(ops, sets, packet, marks, b)
      then Continue(ops, sets, packet, Execute(ops, marks, [statement]), rest)
      else Evaluate(ops, sets, packet, marks, rest)
  {
    TwoConditions(ops, sets, packet, marks, a, b);
    EvaluateCons(ops, sets, packet, marks, Rule([a, b], [statement]), rest);
  }

  lemma PanelDrops<W>(ops: MarkOps<W>, sets: Sets, packet: Packet, marks: Marks<W>, panel: PanelPorts)
    ensures Evaluate(ops, sets, packet, marks, PanelRules(panel)) ==
      if packet.destination == PANEL_VIRTUAL_IP
        && (!packet.fromLan || packet.protocol != Tcp || packet.port !in AllowedPorts(panel))
      then Dropped else Next(marks)
  {
    var rules := PanelRules(panel);
    assert rules == [rules[0]] + ([rules[1]] + ([rules[2]] + []));
    TwoThen(ops, sets, packet, marks, To(PANEL_VIRTUAL_IP), NotFromLan, DropPacket, [rules[1]] + ([rules[2]] + []));
    TwoThen(ops, sets, packet, marks, To(PANEL_VIRTUAL_IP), NotTcp, DropPacket, [rules[2]] + []);
    TwoThen(ops, sets, packet, marks, To(PANEL_VIRTUAL_IP), PortNotIn(AllowedPorts(panel)), DropPacket, []);
  }

  /** A rule with three conditions and one statement in front of other rules. */
  lemma ThreeThen<W>(ops: MarkOps<W>, sets: Sets, packet: Packet, marks: Marks<W>, a: Match, b: Match,
    c: Match, statement: Statement, rest: seq<Rule>)
    ensures Evaluate(ops, sets, packet, marks, [Rule([a, b, c], [statement])] + rest) ==
      if Holds(ops, sets, packet, marks, a) && Holds(ops, sets, packet, marks, b) && Holds(ops, sets, packet, marks, c)
      then Continue(ops, sets, packet, Execute(ops, marks, [statement]), rest)
      else Evaluate(ops, sets, packet, marks, rest)
  {
    ThreeConditions(ops, sets, packet, marks, a, b, c);
    EvaluateCons(ops, sets, packet, marks, Rule([a, b, c], [statement]), rest);
  }

  /** DNS ownership: at most one of the two rules applies. */
  lemma OwnershipOutcome<W>(ops: MarkOps<W>, sets: Sets, packet: Packet, marks: Marks<W>, rest: seq<Rule>)
    ensures Evaluate(ops, sets, packet, marks, OwnershipRules() + rest)
      == Evaluate(ops, sets, packet, marks.(ct := OwnedCt(ops, packet, marks.ct)), rest)
  {
    var rules := OwnershipRules();
    assert rules + rest == [rules[0]] + ([rules[1]] + rest);
    ThreeThen(ops, sets, packet, marks, FromLan, Original, Port(Udp, 53), OwnCt, [rules[1]] + rest);
    var udp := packet.fromLan && !packet.reply && packet.protocol == Udp && packet.port == 53;
    var after := if udp then marks.(ct := ops.own(marks.ct)) else marks;
    ThreeThen(ops, sets, packet, after, FromLan, Original, Port(Tcp, 53), OwnCt, rest);
  }

  lemma ExecuteBypass<W>(ops: MarkOps<W>, marks: Marks<W>)
    ensures Execute(ops, marks, [SetMeta(Direct), SetCt(Direct), Return])
      == Returned(Marks(ops.with(marks.meta, Direct), ops.with(marks.ct, Direct)))
  {
    var statements := [SetMeta(Direct), SetCt(Direct), Return];
    assert statements[1..] == [SetCt(Direct), Return] && statements[1..][1..] == [Return];
  }

  lemma ReplyOutcome<W>(ops: MarkOps<W>, sets: Sets, packet: Packet, marks: Marks<W>, rest: seq<Rule>)
    ensures Evaluate(ops, sets, packet, marks, ReplyRules() + rest) ==
      if packet.fromLan && packet.reply then
        Returned(Marks(ops.with(marks.meta, Direct), ops.with(marks.ct, Direct)))
      else Evaluate(ops, sets, packet, marks, rest)
  {
    var rules := ReplyRules();
    assert rules + rest == [rules[0]] + ([rules[1]] + ([rules[2]] + rest));
    var reply := packet.fromLan && packet.reply;
    var meta := if reply then marks.(meta := ops.with(marks.meta, Direct)) else marks;
    var both := if reply then meta.(ct := ops.with(marks.ct, Direct)) else marks;
    TwoThen(ops, sets, packet, marks, FromLan, Reply, SetMeta(Direct), [rules[1]] + ([rules[2]] + rest));
    TwoThen(ops, sets, packet, meta, FromLan, Reply, SetCt(Direct), [rules[2]] + rest);
    TwoThen(ops, sets, packet, both, FromLan, Reply, Return, rest);
  }

  /** Excluded devices and replies leave the chain marked Direct. */
  lemma BypassOutcome<W>(ops: MarkOps<W>, sets: Sets, packet: Packet, marks: Marks<W>, rest: seq<Rule>)
    ensures Evaluate(ops, sets, packet, marks, [ExclusionRule()] + (ReplyRules() + rest)) ==
      if packet.fromLan && (packet.source in sets.exclusions || packet.reply) then
        Returned(Marks(ops.with(marks.meta, Direct), ops.with(marks.ct, Direct)))
      else Evaluate(ops, sets, packet, marks, rest)
  {
    TwoConditions(ops, sets, packet, marks, FromLan, FromExcluded);
    ExecuteBypass(ops, marks);
    EvaluateCons(ops, sets, packet, marks, ExclusionRule(), ReplyRules() + rest);
    ReplyOutcome(ops, sets, packet, marks, rest);
  }

  // ----- classification -----

  lemma MarkerOutcome<W>(ops: MarkOps<W>, sets: Sets, packet: Packet, marks: Marks<W>, condition: Match,
    target: RouteTarget, rest: seq<Rule>)
    requires packet.fromLan && !condition.Marked? && !condition.Unmarked?
    ensures Evaluate(ops, sets, packet, marks, [Marker(condition, target)] + rest) ==
      if ops.unmarked(marks.meta) && Holds(ops, sets, packet, marks, condition)
      then Evaluate(ops, sets, packet, marks.(meta := ops.with(marks.meta, target)), rest)
      else Evaluate(ops, sets, packet, marks, rest)
  {
    ThreeConditions(ops, sets, packet, marks, FromLan, Unmarked, condition);
    EvaluateCons(ops, sets, packet, marks, Marker(condition, target), rest);
    assert [SetMeta(target)][1..] == [];
    assert Execute(ops, marks, [SetMeta(target)]) == Next(marks.(meta := ops.with(marks.meta, target)));
  }

  function LocalMarks<W>(ops: MarkOps<W>, marks: Marks<W>, direct: bool): Marks<W> {
    marks.(meta := if direct then ops.with(marks.meta, Direct) else ops.clear(marks.meta))
  }

  lemma DirectStep<W(!new)>(ops: MarkOps<W>, sets: Sets, packet: Packet, marks: Marks<W>, direct: bool,
    condition: Match, rest: seq<Rule>)
    requires packet.fromLan && Lawful(ops) && (condition.To? || condition.ToLocal? || condition.ToNetwork?)
    ensures Evaluate(ops, sets, packet, LocalMarks(ops, marks, direct), [DirectRule(condition)] + rest)
      == Evaluate(ops, sets, packet, LocalMarks(ops, marks, direct || Holds(ops, sets, packet, marks, condition)), rest)
  {
    var current := LocalMarks(ops, marks, direct);
    assert Holds(ops, sets, packet, current, condition) == Holds(ops, sets, packet, marks, condition);
    TwoThen(ops, sets, packet, current, FromLan, condition, SetMeta(Direct), rest);
    DirectAgain(ops, marks, direct);
  }

  lemma DirectAgain<W(!new)>(ops: MarkOps<W>, marks: Marks<W>, direct: bool)
    requires Lawful(ops)
    ensures var current := LocalMarks(ops, marks, direct);
      current.(meta := ops.with(current.meta, Direct)) == LocalMarks(ops, marks, true)
  {
    if direct {
      assert ops.with(ops.with(marks.meta, Direct), Direct) == ops.with(marks.meta, Direct);
    } else {
      assert ops.with(ops.clear(marks.meta), Direct) == ops.with(marks.meta, Direct);
    }
  }

  lemma ClearStep<W>(ops: MarkOps<W>, sets: Sets, packet: Packet, marks: Marks<W>, rest: seq<Rule>)
    requires packet.fromLan
    ensures Evaluate(ops, sets, packet, marks, [Rule([FromLan], [ClearMeta])] + rest)
      == Evaluate(ops, sets, packet, LocalMarks(ops, marks, false), rest)
  {
    OneCondition(ops, sets, packet, marks, FromLan);
    EvaluateCons(ops, sets, packet, marks, Rule([FromLan], [ClearMeta]), rest);
  }

  lemma LocalHolds<W>(ops: MarkOps<W>, sets: Sets, packet: Packet, marks: Marks<W>, lan: Lan)
    ensures IsLocal(lan, packet) ==
      (Holds(ops, sets, packet, marks, To(PANEL_VIRTUAL_IP)) || Holds(ops, sets, packet, marks, ToLocal)
       || Holds(ops, sets, packet, marks, ToNetwork(lan.subnet)))
  {
  }

  /** The panel, the router itself and the LAN are marked Direct whatever was marked before. */
  lemma LocalOutcome<W(!new)>(ops: MarkOps<W>, sets: Sets, packet: Packet, marks: Marks<W>, lan: Lan, rest: seq<Rule>)
    requires packet.fromLan && Lawful(ops)
    ensures Evaluate(ops, sets, packet, marks, LocalRules(lan, rest))
      == Evaluate(ops, sets, packet, LocalMarks(ops, marks, IsLocal(lan, packet)), rest)
  {
    var panel, router, subnet := To(PANEL_VIRTUAL_IP), ToLocal, ToNetwork(lan.subnet);
    var third := [DirectRule(subnet)] + rest;
    var second := [DirectRule(router)] + third;
    LocalHolds(ops, sets, packet, marks, lan);
    var atPanel := Holds(ops, sets, packet, marks, panel);
    var atRouter := atPanel || Holds(ops, sets, packet, marks, router);
    calc {
      Evaluate(ops, sets, packet, marks, LocalRules(lan, rest));
    ==
      { ClearStep(ops, sets, packet, marks, [DirectRule(panel)] + second); }
      Evaluate(ops, sets, packet, LocalMarks(ops, marks, false), [DirectRule(panel)] + second);
    ==
      { DirectStep(ops, sets, packet, marks, false, panel, second); }
      Evaluate(ops, sets, packet, LocalMarks(ops, marks, atPanel), second);
    ==
      { DirectStep(ops, sets, packet, marks, atPanel, router, third); }
      Evaluate(ops, sets, packet, LocalMarks(ops, marks, atRouter), third);
    ==
      { DirectStep(ops, sets, packet, marks, atRouter, subnet, rest); }
      Evaluate(ops, sets, packet, LocalMarks(ops, marks, IsLocal(lan, packet)), rest);
    }
  }

  /** Once a packet carries a decision, the remaining markers leave it alone. */
  lemma {:induction false} FakeOutcome<W(!new)>(ops: MarkOps<W>, sets: Sets, packet: Packet, marks: Marks<W>,
    egress: VpnEgress, targets: seq<RouteTarget>, rest: seq<Rule>)
    requires packet.fromLan && Lawful(ops)
    ensures Evaluate(ops, sets, packet, marks, FakeRules(egress, targets) + rest) ==
      var target := FakeTarget(sets, packet, targets);
      if ops.unmarked(marks.meta) && target.Some?
      then Evaluate(ops, sets, packet, marks.(meta := ops.with(marks.meta, EgressTarget(egress, target.value))), rest)
      else Evaluate(ops, sets, packet, marks, rest)
    decreases |targets|
  {
    if targets == [] {
      assert FakeRules(egress, targets) + rest == rest;
    } else {
      var target := EgressTarget(egress, targets[0]);
      var tail := FakeRules(egress, targets[1..]) + rest;
      assert FakeRules(egress, targets) + rest == [Marker(ToFake(targets[0]), target)] + tail;
      MarkerOutcome(ops, sets, packet, marks, ToFake(targets[0]), target, tail);
      FakeOutcome(ops, sets, packet, marks, egress, targets[1..], rest);
      var marked := marks.(meta := ops.with(marks.meta, target));
      FakeOutcome(ops, sets, packet, marked, egress, targets[1..], rest);
    }
  }

  function FakeTarget(sets: Sets, packet: Packet, targets: seq<RouteTarget>): Option<RouteTarget> {
    if targets == [] then None
    else if (targets[0], packet.destination) in sets.fakeSets then Some(targets[0])
    else FakeTarget(sets, packet, targets[1..])
  }

  /** The interval set of an enabled GeoIP rule holds the addresses of its list. */
  ghost predicate SetMatches(sets: Sets, geo: GeoData, rule: IpRule, index: nat) {
    rule.enabled && rule.matcher.GeoIp? ==>
      && index in sets.ipSets
      && forall ip :: InIntervals(sets.ipSets[index], ip) <==> Covers(geo.IpNetworks(rule.matcher.value), ip)
  }

  ghost predicate SetsMatch(sets: Sets, config: RoutingConfig, geo: GeoData, indices: seq<nat>)
    requires IndicesInRange(config, indices)
  {
    forall i :: 0 <= i < |indices| ==> SetMatches(sets, geo, config.ipRules[indices[i]], indices[i])
  }

  lemma DestinationHolds<W>(ops: MarkOps<W>, sets: Sets, packet: Packet, marks: Marks<W>, geo: GeoData,
    rule: IpRule, index: nat)
    requires rule.enabled && SetMatches(sets, geo, rule, index)
    ensures Holds(ops, sets, packet, marks, Destination(rule, index)) <==> MatchesIp(geo, rule, packet.destination)
  {
  }

  /** The first compiled IP rule marks an unmarked packet that it matches. */
  lemma FirstRuleOutcome<W(!new)>(ops: MarkOps<W>, sets: Sets, packet: Packet, marks: Marks<W>,
    config: RoutingConfig, geo: GeoData, egress: VpnEgress, indices: seq<nat>, after: seq<Rule>)
    requires packet.fromLan && Lawful(ops) && IndicesInRange(config, indices) && SetsMatch(sets, config, geo, indices)
    requires indices != []
    ensures var rule := config.ipRules[indices[0]];
      var decides := rule.enabled && MatchesIp(geo, rule, packet.destination) && ops.unmarked(marks.meta);
      var marks' := if decides then marks.(meta := ops.with(marks.meta, EgressTarget(egress, rule.target))) else marks;
      Evaluate(ops, sets, packet, marks, IpRuleRules(config, egress, indices) + after)
        == Evaluate(ops, sets, packet, marks', IpRuleRules(config, egress, indices[1..]) + after)
  {
    var rule := config.ipRules[indices[0]];
    var tail := IpRuleRules(config, egress, indices[1..]) + after;
    if rule.enabled {
      var condition, target := Destination(rule, indices[0]), EgressTarget(egress, rule.target);
      DestinationHolds(ops, sets, packet, marks, geo, rule, indices[0]);
      assert IpRuleRules(config, egress, indices) + after == [Marker(condition, target)] + tail;
      MarkerOutcome(ops, sets, packet, marks, condition, target, tail);
    } else {
      assert IpRuleRules(config, egress, indices) + after == tail;
    }
  }

  /** The compiled IP rules and the default give the mark of the first matching rule. */
  lemma {:induction false} IpRulesOutcome<W(!new)>(ops: MarkOps<W>, sets: Sets, packet: Packet, marks: Marks<W>,
    config: RoutingConfig, geo: GeoData, egress: VpnEgress, indices: seq<nat>, rest: seq<Rule>)
    requires packet.fromLan && Lawful(ops) && IndicesInRange(config, indices) && SetsMatch(sets, config, geo, indices)
    ensures var rules := IpRuleRules(config, egress, indices) + (Fallback(config, egress) + rest);
      var target := EgressTarget(egress, FirstIp(config, geo, indices, packet.destination));
      Evaluate(ops, sets, packet, marks, rules) ==
        if ops.unmarked(marks.meta) then Evaluate(ops, sets, packet, marks.(meta := ops.with(marks.meta, target)), rest)
        else Evaluate(ops, sets, packet, marks, rest)
    decreases |indices|
  {
    var fallback := Fallback(config, egress) + rest;
    if indices == [] {
      assert IpRuleRules(config, egress, indices) + fallback == fallback;
      MarkerOutcome(ops, sets, packet, marks, Always, EgressTarget(egress, EffectiveFallback(config)), rest);
    } else {
      var marked := marks.(meta := ops.with(marks.meta, EgressTarget(egress, config.ipRules[indices[0]].target)));
      FirstRuleOutcome(ops, sets, packet, marks, config, geo, egress, indices, fallback);
      IpRulesOutcome(ops, sets, packet, marks, config, geo, egress, indices[1..], rest);
      IpRulesOutcome(ops, sets, packet, marked, config, geo, egress, indices[1..], rest);
    }
  }

  /** The four save rules leave the decision on the connection. */
  lemma SavesOutcome<W(!new)>(ops: MarkOps<W>, sets: Sets, packet: Packet, marks: Marks<W>,
    decision: RouteTarget, rest: seq<Rule>)
    requires packet.fromLan && (forall t :: ops.carries(marks.meta, t) <==> t == decision)
    ensures Evaluate(ops, sets, packet, marks,
        [SaveRule(Direct)] + ([SaveRule(Vpn)] + ([SaveRule(Warp)] + ([SaveRule(Block)] + rest))))
      == Evaluate(ops, sets, packet, marks.(ct := ops.with(marks.ct, decision)), rest)
  {
    var saved := marks.(ct := ops.with(marks.ct, decision));
    var later := [SaveRule(Vpn)] + ([SaveRule(Warp)] + ([SaveRule(Block)] + rest));
    SaveOutcome(ops, sets, packet, marks, decision, Direct, later);
    var direct := if decision == Direct then saved else marks;
    SaveOutcome(ops, sets, packet, direct, decision, Vpn, [SaveRule(Warp)] + ([SaveRule(Block)] + rest));
    var vpn := if decision == Direct || decision == Vpn then saved else marks;
    SaveOutcome(ops, sets, packet, vpn, decision, Warp, [SaveRule(Block)] + rest);
    var warp := if decision != Block then saved else marks;
    SaveOutcome(ops, sets, packet, warp, decision, Block, rest);
  }

  lemma BlockOutcome<W>(ops: MarkOps<W>, sets: Sets, packet: Packet, marks: Marks<W>)
    requires packet.fromLan
    ensures Evaluate(ops, sets, packet, marks, [Rule([FromLan, Marked(Block)], [DropPacket])] + [])
      == if ops.carries(marks.meta, Block) then Dropped else Next(marks)
  {
    TwoThen(ops, sets, packet, marks, FromLan, Marked(Block), DropPacket, []);
  }

  /** Saving the decision on the connection, and dropping blocked packets. */
  lemma EpilogueOutcome<W(!new)>(ops: MarkOps<W>, sets: Sets, packet: Packet, marks: Marks<W>, decision: RouteTarget)
    requires packet.fromLan && Lawful(ops)
    ensures var marked := marks.(meta := ops.with(marks.meta, decision));
      Evaluate(ops, sets, packet, marked, Epilogue()) ==
        if decision == Block then Dropped else Next(marked.(ct := ops.with(marks.ct, decision)))
  {
    var marked := marks.(meta := ops.with(marks.meta, decision));
    SavesOutcome(ops, sets, packet, marked, decision, [Rule([FromLan, Marked(Block)], [DropPacket])] + []);
    BlockOutcome(ops, sets, packet, marked.(ct := ops.with(marks.ct, decision)));
  }

  lemma SaveOutcome<W(!new)>(ops: MarkOps<W>, sets: Sets, packet: Packet, marks: Marks<W>,
    decision: RouteTarget, target: RouteTarget, rest: seq<Rule>)
    requires packet.fromLan && (forall t :: ops.carries(marks.meta, t) <==> t == decision)
    ensures Evaluate(ops, sets, packet, marks, [SaveRule(target)] + rest) ==
      Evaluate(ops, sets, packet, if target == decision then marks.(ct := ops.with(marks.ct, target)) else marks, rest)
  {
    TwoThen(ops, sets, packet, marks, FromLan, Marked(target), SetCt(target), rest);
  }
}
