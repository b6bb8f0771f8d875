/** The renderer's loops over the policy, and the compiled policy on real 32-bit marks. */
module Renderer {
  import opened Intervals
  import opened Routing
  import opened MarkBits
  import opened MarkOperations
  import opened Dataplane
  import opened PolicyCompiler

  // ----- marks as nft sees them -----

  const DIRECT_MARK: bv32 := 0x10000
  const VPN_MARK: bv32 := 0x20000
  const BLOCK_MARK: bv32 := 0x30000
  const WARP_MARK: bv32 := 0x60000
  const DNS_OWNERSHIP: bv32 := 0x40000000

  function TargetMark(target: RouteTarget): bv32 {
    match target
    case Direct => DIRECT_MARK
    case Vpn => VPN_MARK
    case Warp => WARP_MARK
    case Block => BLOCK_MARK
  }

  /** The expressions of the script: `(mark & keep) | value`, `mark & mask == value`, and so on. */
  function NftMarks(): MarkOps<bv32> {
    MarkOps(
      (w: bv32, t: RouteTarget) => WithMark(w, TargetMark(t)),
      (w: bv32) => w & KEEP_FOREIGN,
      (w: bv32) => w | DNS_OWNERSHIP,
      (w: bv32, t: RouteTarget) => w & MARK_MASK == TargetMark(t),
      (w: bv32) => w & MARK_MASK == 0)
  }

  lemma TargetMarkInMask(target: RouteTarget)
    ensures TargetMark(target) & MARK_MASK == TargetMark(target) && TargetMark(target) != 0
  {
  }

  lemma TargetMarksDiffer(left: RouteTarget, right: RouteTarget)
    ensures TargetMark(left) == TargetMark(right) <==> left == right
  {
  }

  /** The bit layout obeys the laws the compiled policy relies on. */
  lemma NftMarksLawful()
    ensures Lawful(NftMarks())
  {
    var ops := NftMarks();
    forall w, t
      ensures !ops.unmarked(ops.with(w, t))
    {
      TargetMarkInMask(t);
      OwnBits(w, TargetMark(t));
    }
    forall w
      ensures ops.unmarked(ops.clear(w))
    {
      ClearedBits(w);
    }
    forall w, t
      ensures ops.with(ops.clear(w), t) == ops.with(w, t)
    {
      MarkAfterClear(w, TargetMark(t));
    }
    forall w, t, u
      ensures ops.carries(ops.with(w, t), u) <==> t == u
    {
      TargetMarkInMask(t);
      OwnBits(w, TargetMark(t));
      TargetMarksDiffer(t, u);
    }
    forall w, t, u
      ensures ops.with(ops.with(w, t), u) == ops.with(w, u)
    {
      TargetMarkInMask(t);
      MarkTwice(w, TargetMark(t), TargetMark(u));
    }
  }

  // ----- rendering -----

  ghost predicate MapsFakes(fakeToReal: map<int, int>, mappings: seq<FakeMapping>) {
    && (forall i :: 0 <= i < |mappings| ==>
          mappings[i].fake in fakeToReal && fakeToReal[mappings[i].fake] == mappings[i].realIp)
    && (forall fake :: fake in fakeToReal ==> MappingAt(mappings, fake).Some?)
  }

  ghost predicate Renders(ruleset: Ruleset, lan: Lan, egress: VpnEgress, config: RoutingConfig, geo: GeoData,
    mappings: seq<FakeMapping>, panel: PanelPorts, exclusions: seq<Mac>)
    requires InRange(config, RuleRefs(config)) && IndicesInRange(config, IpRuleIndices(config))
  {
    && ruleset.exclusions == (set mac | mac in exclusions)
    && MapsFakes(ruleset.fakeToReal, mappings)
    && ruleset.fakeSets == FakeSets(mappings)
    && SetsMatch(SetsOf(ruleset), config, geo, IpRuleIndices(config))
    && ruleset.chain == MarkChain(lan, egress, config, panel)
    && ruleset.mssClamp == egress.enabled
    && ruleset.ipv6Reject == (egress.enabled || UsesWarp(config))
    && ruleset.warpSource == ActiveWarpSource(egress)
  }

  /** `append_mappings`: the address map, then the fakes of each target in turn. */
  method AppendMappings(mappings: seq<FakeMapping>) returns (fakeToReal: map<int, int>,
    fakeSets: set<(RouteTarget, int)>)
    requires DistinctFakes(mappings)
    ensures MapsFakes(fakeToReal, mappings) && fakeSets == FakeSets(mappings)
  {
    fakeToReal := map[];
    for i := 0 to |mappings|
      invariant forall k :: 0 <= k < i ==>
        mappings[k].fake in fakeToReal && fakeToReal[mappings[k].fake] == mappings[k].realIp
      invariant forall fake :: fake in fakeToReal ==> exists k :: 0 <= k < i && mappings[k].fake == fake
    {
      fakeToReal := fakeToReal[mappings[i].fake := mappings[i].realIp];
    }
    forall fake | fake in fakeToReal
      ensures MappingAt(mappings, fake).Some?
    {
      MappingAtFinds(mappings, fake);
    }
    fakeSets := {};
    for t := 0 to |FAKE_TARGETS|
      invariant fakeSets == set m | m in mappings && m.target in FAKE_TARGETS[..t] :: (m.target, m.fake)
    {
      var target := FAKE_TARGETS[t];
      var keys := set m | m in mappings && m.target == target :: m.fake;
      fakeSets := fakeSets + set fake | fake in keys :: (target, fake);
      assert FAKE_TARGETS[..t + 1] == FAKE_TARGETS[..t] + [target];
    }
    forall m | m in mappings
      ensures m.target in FAKE_TARGETS[..|FAKE_TARGETS|]
    {
      assert FAKE_TARGETS[match m.target case Direct => 0 case Vpn => 1 case Warp => 2 case Block => 3] == m.target;
    }
  }

  /** One interval set for each enabled GeoIP rule. */
  method RenderIpSets(config: RoutingConfig, geo: GeoData, indices: seq<nat>) returns (ipSets: map<nat, seq<Interval>>)
    requires IndicesInRange(config, indices) && geo.Valid()
    ensures SetsMatch(Sets({}, {}, ipSets), config, geo, indices)
  {
    ipSets := map[];
    for i := 0 to |indices|
      invariant forall k :: 0 <= k < i ==> SetMatches(Sets({}, {}, ipSets), geo, config.ipRules[indices[k]], indices[k])
    {
      var rule := config.ipRules[indices[i]];
      if rule.enabled && rule.matcher.GeoIp? {
        var intervals := AppendNetworks(geo.IpNetworks(rule.matcher.value));
        ghost var before := ipSets;
        ipSets := ipSets[indices[i] := intervals];
        forall k | 0 <= k <= i
          ensures SetMatches(Sets({}, {}, ipSets), geo, config.ipRules[indices[k]], indices[k])
        {
          if indices[k] != indices[i] {
            assert SetMatches(Sets({}, {}, before), geo, config.ipRules[indices[k]], indices[k]);
          }
        }
      }
    }
  }

  method RenderFakeRules(egress: VpnEgress) returns (rules: seq<Rule>)
    ensures rules == FakeRules(egress, FAKE_TARGETS)
  {
    rules := [];
    for t := 0 to |FAKE_TARGETS|
      invariant rules + FakeRules(egress, FAKE_TARGETS[t..]) == FakeRules(egress, FAKE_TARGETS)
    {
      assert FAKE_TARGETS[t..][1..] == FAKE_TARGETS[t + 1..];
      rules := rules + [Marker(ToFake(FAKE_TARGETS[t]), EgressTarget(egress, FAKE_TARGETS[t]))];
    }
  }

  method RenderIpRules(config: RoutingConfig, egress: VpnEgress, indices: seq<nat>) returns (rules: seq<Rule>)
    requires IndicesInRange(config, indices)
    ensures rules == IpRuleRules(config, egress, indices)
  {
    rules := [];
    for i := 0 to |indices|
      invariant rules + IpRuleRules(config, egress, indices[i..]) == IpRuleRules(config, egress, indices)
    {
      assert indices[i..][1..] == indices[i + 1..];
      var rule := config.ipRules[indices[i]];
      if rule.enabled {
        rules := rules + [Marker(Destination(rule, indices[i]), EgressTarget(egress, rule.target))];
      }
    }
  }

  /** `render_with_exclusions`. */
  method Render(lan: Lan, egress: VpnEgress, config: RoutingConfig, geo: GeoData,
    mappings: seq<FakeMapping>, panel: PanelPorts, exclusions: seq<Mac>) returns (ruleset: Ruleset)
    requires InRange(config, RuleRefs(config)) && geo.Valid() && DistinctFakes(mappings)
    ensures IndicesInRange(config, IpRuleIndices(config))
    ensures Renders(ruleset, lan, egress, config, geo, mappings, panel, exclusions)
  {
    IndicesAreInRange(config);
    var indices := IpRuleIndices(config);
    var fakeToReal, fakeSets := AppendMappings(mappings);
    var ipSets := RenderIpSets(config, geo, indices);
    var fakes := RenderFakeRules(egress);
    var ips := RenderIpRules(config, egress, indices);
    var remote := fakes + ([Marker(ToLan, Direct)] + (ips + (Fallback(config, egress) + Epilogue())));
    var chain :=
      PanelRules(panel) + (OwnershipRules() + ([ExclusionRule()] + (ReplyRules() + LocalRules(lan, remote))));
    ruleset := Ruleset((set mac | mac in exclusions), fakeToReal, fakeSets, ipSets, chain,
      egress.enabled, egress.enabled || UsesWarp(config), ActiveWarpSource(egress));
    forall i | 0 <= i < |indices|
      ensures SetMatches(SetsOf(ruleset), geo, config.ipRules[indices[i]], indices[i])
    {
      assert SetMatches(Sets({}, {}, ipSets), geo, config.ipRules[indices[i]], indices[i]);
    }
  }

  // ----- the compiled policy on 32-bit marks -----

  /** The rendered table answers every packet as the policy does. */
  lemma RenderedTableComputesPolicy(ruleset: Ruleset, packet: Packet, marks: Marks<bv32>, lan: Lan, egress: VpnEgress,
    config: RoutingConfig, geo: GeoData, mappings: seq<FakeMapping>, panel: PanelPorts, exclusions: seq<Mac>)
    requires InRange(config, RuleRefs(config)) && IndicesInRange(config, IpRuleIndices(config))
    requires DistinctFakes(mappings)
    requires Renders(ruleset, lan, egress, config, geo, mappings, panel, exclusions)
    ensures Evaluate(NftMarks(), SetsOf(ruleset), packet, marks, ruleset.chain)
      == Verdict(NftMarks(), ruleset.exclusions, panel, Decision(lan, egress, config, geo, mappings, packet), packet,
        marks)
  {
    NftMarksLawful();
    ChainComputesPolicy(NftMarks(), SetsOf(ruleset), packet, marks, lan, config, geo, egress, mappings, panel);
  }

  /** `after` carries the decision in the agent's bits and is `before` everywhere else. */
  predicate CarriesExactly(before: bv32, after: bv32, decision: RouteTarget) {
    after & MARK_MASK == TargetMark(decision) && after & KEEP_FOREIGN == before & KEEP_FOREIGN
  }

  lemma MarkedExactly(word: bv32, decision: RouteTarget)
    ensures CarriesExactly(word, WithMark(word, TargetMark(decision)), decision)
  {
    TargetMarkInMask(decision);
    OwnBits(word, TargetMark(decision));
    ForeignBits(word, TargetMark(decision));
  }

  predicate Classified(exclusions: set<Mac>, panel: PanelPorts, packet: Packet) {
    && packet.fromLan && !packet.reply && packet.source !in exclusions
    && (packet.destination == PANEL_VIRTUAL_IP ==> packet.protocol == Tcp && packet.port in AllowedPorts(panel))
  }

  lemma ClassifiedVerdict<W>(ops: MarkOps<W>, exclusions: set<Mac>, panel: PanelPorts, decision: RouteTarget,
    packet: Packet, marks: Marks<W>)
    requires Classified(exclusions, panel, packet)
    ensures Verdict(ops, exclusions, panel, decision, packet, marks) ==
      if decision == Block then Dropped
      else Next(Marks(ops.with(marks.meta, decision), ops.with(OwnedCt(ops, packet, marks.ct), decision)))
  {
  }

  /** A classified packet leaves with the decision in its own bits and every other bit untouched. */
  lemma ClassifiedMarks(exclusions: set<Mac>, panel: PanelPorts, decision: RouteTarget, packet: Packet,
    marks: Marks<bv32>)
    requires Classified(exclusions, panel, packet)
    ensures match Verdict(NftMarks(), exclusions, panel, decision, packet, marks)
      case Dropped => decision == Block
      case Returned(_) => false
      case Next(after) =>
        && decision != Block
        && CarriesExactly(marks.meta, after.meta, decision)
        && CarriesExactly(OwnedCt(NftMarks(), packet, marks.ct), after.ct, decision)
  {
    ClassifiedVerdict(NftMarks(), exclusions, panel, decision, packet, marks);
    MarkedExactly(marks.meta, decision);
    MarkedExactly(OwnedCt(NftMarks(), packet, marks.ct), decision);
  }

  // ----- where the router sends a marked packet -----

  /** The router's policy rules 80 and 81 look at two bits of the mark. */
  datatype Path = MainTable | VpnTable | NoRule

  function PathOf(mark: bv32): Path {
    if mark & 0x30000 == 0x10000 then MainTable
    else if mark & 0x30000 == 0x20000 then VpnTable
    else NoRule
  }

  /** A decision's path: the tunnel for VPN and WARP, the main table for Direct; a third bit tells WARP from VPN. */
  predicate OnItsPath(before: bv32, after: bv32, decision: RouteTarget) {
    && PathOf(after) == (if decision == Direct then MainTable else if decision == Block then NoRule else VpnTable)
    && (after & 0x40000 != 0 <==> decision == Warp)
    && after & 0xfff8ffff == before & 0xfff8ffff
  }

  lemma MarkIsOnItsPath(before: bv32, decision: RouteTarget)
    ensures OnItsPath(before, WithMark(before, TargetMark(decision)), decision)
  {
    var after := WithMark(before, TargetMark(decision));
    match decision {
      case Direct => assert after & 0x30000 == 0x10000 && after & 0x40000 == 0;
      case Vpn => assert after & 0x30000 == 0x20000 && after & 0x40000 == 0;
      case Warp => assert after & 0x30000 == 0x20000 && after & 0x40000 == 0x40000;
      case Block => assert after & 0x30000 == 0x30000 && after & 0x40000 == 0;
    }
  }

  /** The panel's address 198.18.0.0 answers on its own TCP ports only. */
  predicate ClosedPanel(panel: PanelPorts, packet: Packet) {
    && packet.destination == 0xc612_0000
    && !(packet.protocol == Tcp && packet.port in {80, 443, 8081, 8443, panel.http, panel.https})
  }

  predicate IsDnsQuery(packet: Packet) {
    packet.fromLan && !packet.reply && packet.port == 53 && (packet.protocol == Tcp || packet.protocol == Udp)
  }

  /** The connections of LAN lookups are recognisable by one more bit. */
  lemma OwnershipBit(packet: Packet, ct: bv32)
    ensures var owned := OwnedCt(NftMarks(), packet, ct);
      && (owned & 0x4000_0000 != 0 <==> ct & 0x4000_0000 != 0 || IsDnsQuery(packet))
      && owned & 0xbfff_ffff == ct & 0xbfff_ffff
  {
    var owned := OwnedCt(NftMarks(), packet, ct);
    assert owned == if IsDnsQuery(packet) then ct | 0x4000_0000 else ct;
    OwnedBits(ct, owned, IsDnsQuery(packet));
  }

  lemma OwnedBits(ct: bv32, owned: bv32, query: bool)
    requires owned == if query then ct | 0x4000_0000 else ct
    ensures owned & 0x4000_0000 != 0 <==> ct & 0x4000_0000 != 0 || query
    ensures owned & 0xbfff_ffff == ct & 0xbfff_ffff
  {
    if query {
      OwnBit(ct);
    }
  }

  lemma OwnBit(w: bv32)
    ensures (w | 0x4000_0000) & 0x4000_0000 != 0 && (w | 0x4000_0000) & 0xbfff_ffff == w & 0xbfff_ffff
  {
  }

  /**
   * What happens to a packet from the LAN, given the policy's answer: it is dropped, or it and its connection
   * take a path.
   */
  predicate TakesItsPath(outcome: Outcome<bv32>, exclusions: set<Mac>, panel: PanelPorts, decision: RouteTarget,
    packet: Packet, marks: Marks<bv32>) {
    var ct := OwnedCt(NftMarks(), packet, marks.ct);
    match outcome
    case Dropped => ClosedPanel(panel, packet) || (decision == Block && packet.source !in exclusions && !packet.reply)
    case Returned(after) =>
      && (packet.source in exclusions || packet.reply) && !ClosedPanel(panel, packet)
      && OnItsPath(marks.meta, after.meta, Direct) && OnItsPath(ct, after.ct, Direct)
    case Next(after) =>
      && packet.source !in exclusions && !packet.reply && decision != Block && !ClosedPanel(panel, packet)
      && OnItsPath(marks.meta, after.meta, decision) && OnItsPath(ct, after.ct, decision)
  }

  lemma VerdictTakesItsPath(exclusions: set<Mac>, panel: PanelPorts, decision: RouteTarget, packet: Packet,
    marks: Marks<bv32>)
    requires packet.fromLan
    ensures TakesItsPath(Verdict(NftMarks(), exclusions, panel, decision, packet, marks), exclusions, panel, decision,
      packet, marks)
  {
    var ct := OwnedCt(NftMarks(), packet, marks.ct);
    MarkIsOnItsPath(marks.meta, Direct);
    MarkIsOnItsPath(ct, Direct);
    MarkIsOnItsPath(marks.meta, decision);
    MarkIsOnItsPath(ct, decision);
  }

  /** Under the rendered table every packet from the LAN takes the path of its decision, as does its connection. */
  lemma PacketTakesItsPath(ruleset: Ruleset, packet: Packet, marks: Marks<bv32>, lan: Lan, egress: VpnEgress,
    config: RoutingConfig, geo: GeoData, mappings: seq<FakeMapping>, panel: PanelPorts, exclusions: seq<Mac>)
    requires InRange(config, RuleRefs(config)) && IndicesInRange(config, IpRuleIndices(config))
    requires DistinctFakes(mappings) && packet.fromLan
    requires Renders(ruleset, lan, egress, config, geo, mappings, panel, exclusions)
    ensures TakesItsPath(Evaluate(NftMarks(), SetsOf(ruleset), packet, marks, ruleset.chain),
      (set mac | mac in exclusions), panel, Decision(lan, egress, config, geo, mappings, packet), packet, marks)
  {
    RenderedTableComputesPolicy(ruleset, packet, marks, lan, egress, config, geo, mappings, panel, exclusions);
    VerdictTakesItsPath(ruleset.exclusions, panel, Decision(lan, egress, config, geo, mappings, packet), packet, marks);
  }
}
