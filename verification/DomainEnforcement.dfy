/** FakeDNS and the mark chain together: a packet to a fake address is treated as its domain's policy says. */
module DomainEnforcement {
  import opened Ipv4
  import opened Dataplane
  import opened FakeDns
  import opened Leases
  import opened PolicyCompiler
  import opened Renderer
  import opened Routing

  /** `policy.target` of a configuration. */
  function PolicyOf(config: RoutingConfig, geo: GeoData): Classifier {
    (domain: string, ip: int) => Target(config, geo, domain, ip)
  }

  function SetOf(kernel: Kernel, fake: int): RouteTarget {
    if InSet(kernel, Direct, fake) then Direct
    else if InSet(kernel, Vpn, fake) then Vpn
    else if InSet(kernel, Warp, fake) then Warp
    else Block
  }

  lemma SetOfIsIn(kernel: Kernel, fake: int)
    requires Partitioned(kernel) && fake in kernel.realOf
    ensures forall t :: InSet(kernel, t, fake) <==> t == SetOf(kernel, fake)
  {
    var t :| InSet(kernel, t, fake);
    assert t == Direct || t == Vpn || t == Warp || t == Block;
  }

  /** The kernel's mappings from one address up to another, as a list. */
  function Listing(kernel: Kernel, lo: int, hi: int): seq<FakeMapping>
    requires lo <= hi
    decreases hi - lo
  {
    if lo == hi then []
    else
      Listing(kernel, lo, hi - 1)
        + if hi - 1 in kernel.realOf then [FakeMapping(hi - 1, kernel.realOf[hi - 1], SetOf(kernel, hi - 1))] else []
  }

  lemma {:induction false} ListingMembers(kernel: Kernel, lo: int, hi: int, m: FakeMapping)
    requires lo <= hi
    ensures m in Listing(kernel, lo, hi) <==>
      && lo <= m.fake < hi && m.fake in kernel.realOf
      && m == FakeMapping(m.fake, kernel.realOf[m.fake], SetOf(kernel, m.fake))
    decreases hi - lo
  {
    if lo < hi {
      ListingMembers(kernel, lo, hi - 1, m);
    }
  }

  lemma {:induction false} ListingDistinct(kernel: Kernel, lo: int, hi: int)
    requires lo <= hi
    ensures DistinctFakes(Listing(kernel, lo, hi))
    decreases hi - lo
  {
    if lo < hi {
      ListingDistinct(kernel, lo, hi - 1);
      var front := Listing(kernel, lo, hi - 1);
      forall i | 0 <= i < |front|
        ensures front[i].fake < hi - 1
      {
        ListingMembers(kernel, lo, hi - 1, front[i]);
      }
    }
  }

  function WholeListing(kernel: Kernel): seq<FakeMapping> {
    Listing(kernel, FIRST_FAKE, LAST_FAKE + 1)
  }

  /** A partitioned kernel is the kernel of its listing. */
  lemma ListingIsKernel(kernel: Kernel)
    requires Partitioned(kernel) && forall fake :: fake in kernel.realOf ==> InPool(fake)
    ensures DistinctFakes(WholeListing(kernel)) && FakeSets(WholeListing(kernel)) == kernel.sets
  {
    ListingDistinct(kernel, FIRST_FAKE, LAST_FAKE + 1);
    var list := WholeListing(kernel);
    forall m | m in list
      ensures (m.target, m.fake) in kernel.sets
    {
      ListingMembers(kernel, FIRST_FAKE, LAST_FAKE + 1, m);
      SetOfIsIn(kernel, m.fake);
      assert InSet(kernel, m.target, m.fake);
    }
    forall t, fake | InSet(kernel, t, fake)
      ensures (t, fake) in FakeSets(list)
    {
      SetOfIsIn(kernel, fake);
      var m := FakeMapping(fake, kernel.realOf[fake], SetOf(kernel, fake));
      ListingMembers(kernel, FIRST_FAKE, LAST_FAKE + 1, m);
      assert m in list;
    }
    forall p | p in kernel.sets
      ensures p in FakeSets(list)
    {
      assert InSet(kernel, p.0, p.1);
    }
  }

  /** The listing answers for an address exactly when the kernel maps it. */
  lemma ListingAnswers(kernel: Kernel, ip: int)
    requires forall fake :: fake in kernel.realOf ==> InPool(fake)
    ensures MappingAt(WholeListing(kernel), ip) ==
      if ip in kernel.realOf then Some(FakeMapping(ip, kernel.realOf[ip], SetOf(kernel, ip))) else None
  {
    var list := WholeListing(kernel);
    MappingAtFinds(list, ip);
    if ip in kernel.realOf {
      ListingMembers(kernel, FIRST_FAKE, LAST_FAKE + 1, FakeMapping(ip, kernel.realOf[ip], SetOf(kernel, ip)));
    }
    match MappingAt(list, ip)
    case Some(m) => ListingMembers(kernel, FIRST_FAKE, LAST_FAKE + 1, m);
    case None =>
  }

  /** A store in agreement tracks a policy when its kernel and rows are classified by it. */
  lemma StoreTracks(kernel: Kernel, leases: LeaseMap, used: set<int>, rows: RowMap, classify: Classifier)
    requires Agree(leases, used, rows) && Within(kernel, rows) && Partitioned(kernel)
    requires KernelClassified(kernel, rows, classify) && RowsClassified(rows, classify)
    ensures Tracks(kernel, rows, classify)
  {
    MappedInPool(kernel, leases, used, rows);
  }

  lemma MappedInPool(kernel: Kernel, leases: LeaseMap, used: set<int>, rows: RowMap)
    requires Agree(leases, used, rows) && Within(kernel, rows)
    ensures forall fake :: fake in kernel.realOf ==> InPool(fake)
  {
    forall fake | fake in kernel.realOf
      ensures InPool(fake)
    {
      assert HasLease(leases, rows, fake);
      assert HasRow(leases, rows, KeyOf(rows[fake]));
    }
  }

  /** What the policy of a (domain, real) pair or of a plain address asks for, after the egress state. */
  function Wanted(config: RoutingConfig, geo: GeoData, egress: VpnEgress, kernel: Kernel, rows: RowMap,
    ip: int): RouteTarget
    requires InRange(config, RuleRefs(config))
  {
    if ip in kernel.realOf && ip in rows
    then EgressTarget(egress, Target(config, geo, rows[ip].domain, rows[ip].realIp))
    else EgressTarget(egress, IpTarget(config, geo, ip))
  }

  /**
   * In every state where the kernel holds a policy's targets: a packet to a mapped fake address gets the target of
   * its lease's domain and real address, and is sent on to that real address; a packet to any other remote address
   * gets the target of the address.
   */
  lemma PacketsFollowTheirDomain(kernel: Kernel, rows: RowMap, sets: Sets, packet: Packet, marks: Marks<bv32>, lan: Lan,
    egress: VpnEgress, config: RoutingConfig, geo: GeoData, panel: PanelPorts)
    requires Tracks(kernel, rows, PolicyOf(config, geo)) && sets.fakeSets == kernel.sets
    requires InRange(config, RuleRefs(config)) && IndicesInRange(config, IpRuleIndices(config))
    requires SetsMatch(sets, config, geo, IpRuleIndices(config)) && !IsLocal(lan, packet)
    ensures Evaluate(NftMarks(), sets, packet, marks, MarkChain(lan, egress, config, panel))
      == Verdict(NftMarks(), sets.exclusions, panel, Wanted(config, geo, egress, kernel, rows, packet.destination),
        packet, marks)
    ensures packet.destination in kernel.realOf ==>
      packet.destination in rows && kernel.realOf[packet.destination] == rows[packet.destination].realIp
  {
    var ip, list := packet.destination, WholeListing(kernel);
    ListingIsKernel(kernel);
    ListingAnswers(kernel, ip);
    if ip in kernel.realOf {
      SetOfIsIn(kernel, ip);
      assert InSet(kernel, SetOf(kernel, ip), ip);
    }
    assert Decision(lan, egress, config, geo, list, packet) == Wanted(config, geo, egress, kernel, rows, ip);
    NftMarksLawful();
    ChainComputesPolicy(NftMarks(), sets, packet, marks, lan, config, geo, egress, list, panel);
  }

  // ----- tables -----

  /** What the process is started with; `geo` holds the lists of the catalogs. */
  datatype Setting = Setting(lan: Lan, panel: PanelPorts, geo: GeoData)

  /** A table in the kernel, with the policy and egress it was rendered from. */
  datatype Installed = Installed(routing: RoutingConfig, egress: VpnEgress, table: Ruleset)

  predicate Usable(routing: RoutingConfig) {
    InRange(routing, RuleRefs(routing))
  }

  /** A table after scripts have replaced its exclusions and its mappings. */
  function Patched(table: Ruleset, exclusions: set<Mac>, fakes: Kernel): Ruleset {
    table.(exclusions := exclusions, fakeToReal := fakes.realOf, fakeSets := fakes.sets)
  }

  /** A table treats one packet as a policy asks: by the domain of its lease, or by its own address. */
  ghost predicate Treated(setting: Setting, table: Ruleset, routing: RoutingConfig, egress: VpnEgress, fakes: Kernel,
    rows: RowMap, packet: Packet, marks: Marks<bv32>)
    requires Usable(routing)
  {
    Evaluate(NftMarks(), SetsOf(table), packet, marks, table.chain) ==
      Verdict(NftMarks(), table.exclusions, setting.panel,
        Wanted(routing, setting.geo, egress, fakes, rows, packet.destination), packet, marks)
  }

  /**
   * What is fixed when a table is rendered: its switches, and that it treats every packet that is not local as its
   * policy asks, whatever exclusions and leases of that policy scripts put into it later.
   */
  ghost predicate Compiled(setting: Setting, installed: Installed) {
    var routing, egress, table := installed.routing, installed.egress, installed.table;
    && Usable(routing)
    && (forall exclusions: set<Mac>, fakes: Kernel, rows: RowMap, packet: Packet, marks: Marks<bv32> ::
          Tracks(fakes, rows, PolicyOf(routing, setting.geo)) && !IsLocal(setting.lan, packet) ==>
            Treated(setting, Patched(table, exclusions, fakes), routing, egress, fakes, rows, packet, marks))
    && table.mssClamp == egress.enabled
    && table.ipv6Reject == (egress.enabled || UsesWarp(routing))
    && table.warpSource == ActiveWarpSource(egress)
  }

  lemma SetsAlike(a: Sets, b: Sets, config: RoutingConfig, geo: GeoData, indices: seq<nat>)
    requires IndicesInRange(config, indices) && SetsMatch(a, config, geo, indices) && a.ipSets == b.ipSets
    ensures SetsMatch(b, config, geo, indices)
  {
    forall i | 0 <= i < |indices|
      ensures SetMatches(b, geo, config.ipRules[indices[i]], indices[i])
    {
      assert SetMatches(a, geo, config.ipRules[indices[i]], indices[i]);
    }
  }

  /** The renderer's table is compiled from its policy and egress. */
  lemma RenderedIsCompiled(setting: Setting, installed: Installed, mappings: seq<FakeMapping>, exclusions: seq<Mac>)
    requires Usable(installed.routing) && IndicesInRange(installed.routing, IpRuleIndices(installed.routing))
    requires Renders(installed.table, setting.lan, installed.egress, installed.routing, setting.geo, mappings,
      setting.panel, exclusions)
    ensures Compiled(setting, installed)
  {
    var routing, egress, table := installed.routing, installed.egress, installed.table;
    forall macs: set<Mac>, fakes: Kernel, rows: RowMap, packet: Packet, marks: Marks<bv32> |
      Tracks(fakes, rows, PolicyOf(routing, setting.geo)) && !IsLocal(setting.lan, packet)
      ensures Treated(setting, Patched(table, macs, fakes), routing, egress, fakes, rows, packet, marks)
    {
      var sets := SetsOf(Patched(table, macs, fakes));
      SetsAlike(SetsOf(table), sets, routing, setting.geo, IpRuleIndices(routing));
      PacketsFollowTheirDomain(fakes, rows, sets, packet, marks, setting.lan, egress, routing, setting.geo,
        setting.panel);
    }
  }

  /** The mappings of a new table are what the renderer put into it. */
  lemma RenderedIsCurrent(table: Ruleset, mappings: seq<FakeMapping>)
    requires DistinctFakes(mappings) && MapsFakes(table.fakeToReal, mappings) && table.fakeSets == FakeSets(mappings)
    ensures Patched(table, table.exclusions, AddAll(EMPTY_KERNEL, mappings)) == table
  {
    var realOf := AddAll(EMPTY_KERNEL, mappings).realOf;
    AddAllSets(EMPTY_KERNEL, mappings);
    AddAllMaps(mappings);
    forall fake
      ensures fake in table.fakeToReal <==> fake in realOf
      ensures fake in realOf ==> table.fakeToReal[fake] == realOf[fake]
    {
      MappingAtFinds(mappings, fake);
      if fake in realOf {
        var m :| m in mappings && m.fake == fake;
      }
    }
    assert table.fakeToReal == realOf;
  }

  // ----- runs of the store -----

  /** With the kernel's mappings in it, a table treats every packet that is not local as its policy asks. */
  ghost predicate TreatsAll(setting: Setting, installed: Installed, kernel: Kernel, rows: RowMap)
    requires Usable(installed.routing)
  {
    forall exclusions: set<Mac>, packet: Packet, marks: Marks<bv32> :: !IsLocal(setting.lan, packet) ==>
      Treated(setting, Patched(installed.table, exclusions, kernel), installed.routing, installed.egress, kernel, rows,
        packet, marks)
  }

  /**
   * Over any run of answers, purges and policy changes, under a table compiled from the policy in force: once some
   * policy was applied and adopted, and unless another one reached the kernel since, every packet that is not local
   * is treated as that policy asks.
   */
  method RunEnforces(store: Store, steps: seq<Step>, policy: Classifier, ghost setting: Setting,
    ghost installed: Installed)
    returns (current: Classifier, applied: bool, torn: bool)
    requires store.Stored() && Compiled(setting, installed)
    modifies store
    ensures store.Stored() && if applied then Apply(current, true) in steps else current == policy
    ensures var known := (old(store.Mapped()) && old(store.Classified(policy))) || applied;
      known && !torn && current == PolicyOf(installed.routing, setting.geo) ==>
        TreatsAll(setting, installed, store.kernel, store.rows)
  {
    ghost var classified := store.Mapped() && store.Classified(policy);
    var rendered, split;
    current, applied, rendered, torn, split := store.Run(steps, policy);
    if (classified || applied) && !torn {
      StoreTracks(store.kernel, store.leases, store.used, store.rows, current);
    }
  }
}
