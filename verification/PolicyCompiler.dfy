/** Rendering a policy to nft rules, and the theorem that the rules compute the policy's answer. */
module PolicyCompiler {
  import opened Ipv4
  import opened Routing
  import opened MarkOperations
  import opened Dataplane

  // ----- packets from elsewhere -----

  predicate LanOnly(chain: seq<Rule>) {
    forall rule :: rule in chain ==> FromLan in rule.matches
  }

  lemma {:induction false} OthersPass<W>(ops: MarkOps<W>, sets: Sets, packet: Packet, marks: Marks<W>, chain: seq<Rule>)
    requires LanOnly(chain) && !packet.fromLan
    ensures Evaluate(ops, sets, packet, marks, chain) == Next(marks)
    decreases |chain|
  {
    if chain != [] {
      var i :| 0 <= i < |chain[0].matches| && chain[0].matches[i] == FromLan;
      assert !Holds(ops, sets, packet, marks, chain[0].matches[i]);
      OthersPass(ops, sets, packet, marks, chain[1..]);
    }
  }

  lemma {:induction false} FakeRulesLanOnly(egress: VpnEgress, targets: seq<RouteTarget>)
    ensures LanOnly(FakeRules(egress, targets))
    decreases |targets|
  {
    if targets != [] {
      FakeRulesLanOnly(egress, targets[1..]);
    }
  }

  lemma {:induction false} IpRuleRulesLanOnly(config: RoutingConfig, egress: VpnEgress, indices: seq<nat>)
    requires IndicesInRange(config, indices)
    ensures LanOnly(IpRuleRules(config, egress, indices))
    decreases |indices|
  {
    if indices != [] {
      IpRuleRulesLanOnly(config, egress, indices[1..]);
    }
  }

  // ----- classification -----

  ghost predicate DistinctFakes(mappings: seq<FakeMapping>) {
    forall i, j :: 0 <= i < j < |mappings| ==> mappings[i].fake != mappings[j].fake
  }

  function FakeSets(mappings: seq<FakeMapping>): set<(RouteTarget, int)> {
    set m | m in mappings :: (m.target, m.fake)
  }

  lemma {:induction false} MappingAtFinds(mappings: seq<FakeMapping>, ip: int)
    ensures match MappingAt(mappings, ip)
      case None => forall m :: m in mappings ==> m.fake != ip
      case Some(mapping) => mapping in mappings && mapping.fake == ip
    decreases |mappings|
  {
    if mappings != [] {
      MappingAtFinds(mappings[1..], ip);
    }
  }

  lemma {:induction false} FakeTargetFinds(sets: Sets, packet: Packet, targets: seq<RouteTarget>)
    ensures match FakeTarget(sets, packet, targets)
      case None => forall t :: t in targets ==> (t, packet.destination) !in sets.fakeSets
      case Some(t) => (t, packet.destination) in sets.fakeSets
    decreases |targets|
  {
    if targets != [] {
      FakeTargetFinds(sets, packet, targets[1..]);
    }
  }

  /** The fake sets partition the mapped addresses, so the order of their rules does not matter. */
  lemma FakeTargetIsMapping(sets: Sets, packet: Packet, mappings: seq<FakeMapping>)
    requires DistinctFakes(mappings) && sets.fakeSets == FakeSets(mappings)
    ensures FakeTarget(sets, packet, FAKE_TARGETS) ==
      match MappingAt(mappings, packet.destination)
      case None => None
      case Some(mapping) => Some(mapping.target)
  {
    var ip := packet.destination;
    MappingAtFinds(mappings, ip);
    forall t | (t, ip) in sets.fakeSets
      ensures MappingAt(mappings, ip).Some? && MappingAt(mappings, ip).value.target == t
    {
      var m :| m in mappings && (t, ip) == (m.target, m.fake);
      var i :| 0 <= i < |mappings| && mappings[i] == m;
      var j :| 0 <= j < |mappings| && mappings[j] == MappingAt(mappings, ip).value;
      assert i == j;
    }
    FakeTargetFinds(sets, packet, FAKE_TARGETS);
    forall t: RouteTarget
      ensures t in FAKE_TARGETS
    {
      assert FAKE_TARGETS[match t case Direct => 0 case Vpn => 1 case Warp => 2 case Block => 3] == t;
    }
    match MappingAt(mappings, ip) {
      case None =>
      case Some(mapping) => assert (mapping.target, ip) in sets.fakeSets;
    }
  }

  lemma FirstIpIsIpTarget(config: RoutingConfig, geo: GeoData, ip: int)
    requires InRange(config, RuleRefs(config)) && IndicesInRange(config, IpRuleIndices(config))
    ensures IpTarget(config, geo, ip) ==
      if IsLan(ip) then Direct else FirstIp(config, geo, IpRuleIndices(config), ip)
  {
  }

  lemma LanOutcome<W(!new)>(ops: MarkOps<W>, sets: Sets, packet: Packet, marks: Marks<W>,
    config: RoutingConfig, egress: VpnEgress)
    requires packet.fromLan && Lawful(ops) && InRange(config, RuleRefs(config)) && ops.unmarked(marks.meta)
    requires IndicesInRange(config, IpRuleIndices(config))
    ensures Evaluate(ops, sets, packet, marks, AddressRules(config, egress)) ==
      Evaluate(ops, sets, packet,
        if IsLan(packet.destination) then marks.(meta := ops.with(marks.meta, Direct)) else marks,
        IpRuleRules(config, egress, IpRuleIndices(config)) + (Fallback(config, egress) + Epilogue()))
  {
    MarkerOutcome(ops, sets, packet, marks, ToLan, Direct,
      IpRuleRules(config, egress, IpRuleIndices(config)) + (Fallback(config, egress) + Epilogue()));
  }

  /** LAN ranges, IP rules and the default answer for an address that is not mapped. */
  lemma UnmarkedOutcome<W(!new)>(ops: MarkOps<W>, sets: Sets, packet: Packet, marks: Marks<W>,
    config: RoutingConfig, geo: GeoData, egress: VpnEgress)
    requires packet.fromLan && Lawful(ops) && InRange(config, RuleRefs(config)) && ops.unmarked(marks.meta)
    requires IndicesInRange(config, IpRuleIndices(config)) && SetsMatch(sets, config, geo, IpRuleIndices(config))
    ensures Evaluate(ops, sets, packet, marks, AddressRules(config, egress)) ==
      Evaluate(ops, sets, packet,
        marks.(meta := ops.with(marks.meta, EgressTarget(egress, IpTarget(config, geo, packet.destination)))),
        Epilogue())
  {
    var ip, indices := packet.destination, IpRuleIndices(config);
    LanOutcome(ops, sets, packet, marks, config, egress);
    FirstIpIsIpTarget(config, geo, ip);
    var after := if IsLan(ip) then marks.(meta := ops.with(marks.meta, Direct)) else marks;
    IpRulesOutcome(ops, sets, packet, after, config, geo, egress, indices, Epilogue());
  }

  lemma MarkedOutcome<W(!new)>(ops: MarkOps<W>, sets: Sets, packet: Packet, marks: Marks<W>,
    config: RoutingConfig, geo: GeoData, egress: VpnEgress)
    requires packet.fromLan && Lawful(ops) && InRange(config, RuleRefs(config)) && !ops.unmarked(marks.meta)
    requires IndicesInRange(config, IpRuleIndices(config)) && SetsMatch(sets, config, geo, IpRuleIndices(config))
    ensures Evaluate(ops, sets, packet, marks, AddressRules(config, egress)) ==
      Evaluate(ops, sets, packet, marks, Epilogue())
  {
    var indices := IpRuleIndices(config);
    MarkerOutcome(ops, sets, packet, marks, ToLan, Direct,
      IpRuleRules(config, egress, indices) + (Fallback(config, egress) + Epilogue()));
    IpRulesOutcome(ops, sets, packet, marks, config, geo, egress, indices, Epilogue());
  }

  lemma RemoteOutcome<W(!new)>(ops: MarkOps<W>, sets: Sets, packet: Packet, marks: Marks<W>,
    config: RoutingConfig, geo: GeoData, egress: VpnEgress, mappings: seq<FakeMapping>)
    requires packet.fromLan && Lawful(ops) && InRange(config, RuleRefs(config))
    requires DistinctFakes(mappings) && sets.fakeSets == FakeSets(mappings)
    requires IndicesInRange(config, IpRuleIndices(config)) && SetsMatch(sets, config, geo, IpRuleIndices(config))
    ensures Evaluate(ops, sets, packet, marks, RemoteRules(config, egress)) ==
      Evaluate(ops, sets, packet,
        if ops.unmarked(marks.meta)
        then marks.(meta := ops.with(marks.meta, RemoteTarget(config, geo, egress, mappings, packet.destination)))
        else marks, Epilogue())
  {
    var target := FakeTarget(sets, packet, FAKE_TARGETS);
    FakeTargetIsMapping(sets, packet, mappings);
    FakeOutcome(ops, sets, packet, marks, egress, FAKE_TARGETS, AddressRules(config, egress));
    var faked := if ops.unmarked(marks.meta) && target.Some?
      then marks.(meta := ops.with(marks.meta, EgressTarget(egress, target.value))) else marks;
    if ops.unmarked(faked.meta) {
      UnmarkedOutcome(ops, sets, packet, faked, config, geo, egress);
    } else {
      MarkedOutcome(ops, sets, packet, faked, config, geo, egress);
    }
  }

  function RemoteTarget(config: RoutingConfig, geo: GeoData, egress: VpnEgress, mappings: seq<FakeMapping>,
    ip: int): RouteTarget
    requires InRange(config, RuleRefs(config))
  {
    match MappingAt(mappings, ip)
    case Some(mapping) => EgressTarget(egress, mapping.target)
    case None => EgressTarget(egress, IpTarget(config, geo, ip))
  }

  lemma ClassifiedOutcome<W(!new)>(ops: MarkOps<W>, sets: Sets, packet: Packet, marks: Marks<W>, lan: Lan,
    config: RoutingConfig, geo: GeoData, egress: VpnEgress, mappings: seq<FakeMapping>)
    requires packet.fromLan && Lawful(ops) && InRange(config, RuleRefs(config))
    requires DistinctFakes(mappings) && sets.fakeSets == FakeSets(mappings)
    requires IndicesInRange(config, IpRuleIndices(config)) && SetsMatch(sets, config, geo, IpRuleIndices(config))
    ensures var decision := Decision(lan, egress, config, geo, mappings, packet);
      Evaluate(ops, sets, packet, marks, LocalRules(lan, RemoteRules(config, egress))) ==
        if decision == Block then Dropped
        else Next(Marks(ops.with(marks.meta, decision), ops.with(marks.ct, decision)))
  {
    var decision := Decision(lan, egress, config, geo, mappings, packet);
    var local := LocalMarks(ops, marks, IsLocal(lan, packet));
    LocalOutcome(ops, sets, packet, marks, lan, RemoteRules(config, egress));
    RemoteOutcome(ops, sets, packet, local, config, geo, egress, mappings);
    EpilogueOutcome(ops, sets, packet, marks, decision);
  }

  /**
   * The compiled chain computes the policy: for every packet its verdict and both its marks are
   * those of the policy's decision for the destination.
   */
  lemma ChainComputesPolicy<W(!new)>(ops: MarkOps<W>, sets: Sets, packet: Packet, marks: Marks<W>, lan: Lan,
    config: RoutingConfig, geo: GeoData, egress: VpnEgress, mappings: seq<FakeMapping>, panel: PanelPorts)
    requires Lawful(ops) && InRange(config, RuleRefs(config))
    requires DistinctFakes(mappings) && sets.fakeSets == FakeSets(mappings)
    requires IndicesInRange(config, IpRuleIndices(config)) && SetsMatch(sets, config, geo, IpRuleIndices(config))
    ensures Evaluate(ops, sets, packet, marks, MarkChain(lan, egress, config, panel))
      == Verdict(ops, sets.exclusions, panel, Decision(lan, egress, config, geo, mappings, packet), packet, marks)
  {
    var classify := LocalRules(lan, RemoteRules(config, egress));
    var rest := OwnershipRules() + ([ExclusionRule()] + (ReplyRules() + classify));
    EvaluateAppend(ops, sets, packet, marks, PanelRules(panel), rest);
    PanelDrops(ops, sets, packet, marks, panel);
    if packet.fromLan {
      var owned := marks.(ct := OwnedCt(ops, packet, marks.ct));
      OwnershipOutcome(ops, sets, packet, marks, [ExclusionRule()] + (ReplyRules() + classify));
      BypassOutcome(ops, sets, packet, owned, classify);
      ClassifiedOutcome(ops, sets, packet, owned, lan, config, geo, egress, mappings);
    } else {
      ChainLanOnly(lan, egress, config);
      OthersPass(ops, sets, packet, marks, rest);
    }
  }

  lemma LanOnlyAppend(first: seq<Rule>, second: seq<Rule>)
    requires LanOnly(first) && LanOnly(second)
    ensures LanOnly(first + second)
  {
  }

  lemma RemoteLanOnly(egress: VpnEgress, config: RoutingConfig)
    requires InRange(config, RuleRefs(config))
    ensures LanOnly(RemoteRules(config, egress))
  {
    IndicesAreInRange(config);
    var indices := IpRuleIndices(config);
    FakeRulesLanOnly(egress, FAKE_TARGETS);
    IpRuleRulesLanOnly(config, egress, indices);
    LanOnlyAppend(Fallback(config, egress), Epilogue());
    LanOnlyAppend(IpRuleRules(config, egress, indices), Fallback(config, egress) + Epilogue());
    LanOnlyAppend([Marker(ToLan, Direct)],
      IpRuleRules(config, egress, indices) + (Fallback(config, egress) + Epilogue()));
    LanOnlyAppend(FakeRules(egress, FAKE_TARGETS), AddressRules(config, egress));
  }

  lemma ChainLanOnly(lan: Lan, egress: VpnEgress, config: RoutingConfig)
    requires InRange(config, RuleRefs(config))
    ensures var chain := ReplyRules() + LocalRules(lan, RemoteRules(config, egress));
      LanOnly(OwnershipRules() + ([ExclusionRule()] + chain))
  {
    RemoteLanOnly(egress, config);
    var remote := RemoteRules(config, egress);
    var local := [Rule([FromLan], [ClearMeta]), DirectRule(To(PANEL_VIRTUAL_IP)), DirectRule(ToLocal),
      DirectRule(ToNetwork(lan.subnet))];
    assert LocalRules(lan, remote) == local + remote;
    LanOnlyAppend(local, remote);
    LanOnlyAppend(ReplyRules(), LocalRules(lan, remote));
    LanOnlyAppend([ExclusionRule()], ReplyRules() + LocalRules(lan, remote));
    LanOnlyAppend(OwnershipRules(), [ExclusionRule()] + (ReplyRules() + LocalRules(lan, remote)));
  }
}
