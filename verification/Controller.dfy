/** The controller transaction: file, memory, table, leases, network and forwarding guard under arbitrary failures. */
module Controller {
  import opened Ipv4
  import opened Dataplane
  import opened DomainEnforcement
  import FakeDns
  import opened Leases
  import opened PolicyCompiler
  import opened Renderer
  import Resolver
  import opened Routing
  import opened RuleOrder
  import opened Servers

  // ----- what the outside sees -----

  /** A network change that has started may stop anywhere until it succeeds. */
  datatype Net = Settled(desired: Desired) | Unsettled

  /** `fakes` are the mappings now in the table, `rows` the leases in the database. */
  datatype View = View(
    disk: Config,
    memory: Config,
    rules: Option<Installed>,
    fakes: Kernel,
    rows: RowMap,
    exclusions: seq<Mac>,
    network: Net,
    guard: Option<seq<Mac>>)

  /** A file as `config::load` gives it: the exclusions are normalised. */
  function Loaded(file: Config): Config {
    file.(exclusions := Normalized(file.exclusions))
  }

  function CurrentTable(view: View): Ruleset
    requires view.rules.Some?
  {
    Patched(view.rules.value.table, (set mac | mac in view.exclusions), view.fakes)
  }

  /** The kernel, the leases and the tunnel are those of a configuration. */
  ghost predicate InForce(setting: Setting, view: View, config: Config) {
    && view.rules.Some?
    && view.rules.value.routing == config.routing
    && SameEgress(view.rules.value.egress, FromConfig(config))
    && Compiled(setting, view.rules.value)
    && Tracks(view.fakes, view.rows, PolicyOf(config.routing, setting.geo))
    && view.exclusions == config.exclusions
    && view.network == Settled(DesiredNetwork(config))
  }

  /** Two configurations that ask for the same kernel and the same tunnel. */
  predicate Alike(a: Config, b: Config) {
    && a.routing == b.routing && a.exclusions == b.exclusions
    && SameEgress(FromConfig(a), FromConfig(b)) && DesiredNetwork(a) == DesiredNetwork(b)
  }

  lemma AlikeInForce(setting: Setting, view: View, a: Config, b: Config)
    requires InForce(setting, view, a) && Alike(a, b)
    ensures InForce(setting, view, b)
  {
  }

  /**
   * The file lists normal exclusions, and forwarding is guarded or everything in force is what memory and disk
   * both ask for.
   */
  ghost predicate Safe(setting: Setting, view: View) {
    && Strictly(view.disk.exclusions)
    && (view.guard.Some? || (InForce(setting, view, view.memory) && Alike(view.memory, view.disk)))
  }

  // ----- what safety means for packets -----

  /** The address map sends every mapped fake to its lease's real address, and the switches are the configuration's. */
  ghost predicate MapsAs(view: View, config: Config)
    requires view.rules.Some?
  {
    var table, egress := CurrentTable(view), FromConfig(config);
    && (forall fake :: fake in table.fakeToReal ==>
          fake in view.rows && table.fakeToReal[fake] == view.rows[fake].realIp)
    && table.mssClamp == config.vpnEnabled
    && table.ipv6Reject == (config.vpnEnabled || UsesWarp(config.routing))
    && table.warpSource == ActiveWarpSource(egress)
  }

  lemma SameWanted(config: RoutingConfig, geo: GeoData, a: VpnEgress, b: VpnEgress, fakes: Kernel, rows: RowMap,
    ip: int)
    requires Usable(config) && SameEgress(a, b)
    ensures Wanted(config, geo, a, fakes, rows, ip) == Wanted(config, geo, b, fakes, rows, ip)
  {
  }

  /** One packet is treated as a configuration asks. */
  ghost predicate Enforces(setting: Setting, view: View, config: Config, packet: Packet, marks: Marks<bv32>)
    requires view.rules.Some? && Usable(config.routing)
  {
    var table, egress := CurrentTable(view), FromConfig(config);
    var wanted := Wanted(config.routing, setting.geo, egress, view.fakes, view.rows, packet.destination);
    && table.exclusions == (set mac | mac in config.exclusions)
    && Treated(setting, table, config.routing, egress, view.fakes, view.rows, packet, marks)
    && (packet.fromLan ==>
          TakesItsPath(Evaluate(NftMarks(), SetsOf(table), packet, marks, table.chain), table.exclusions, setting.panel,
            wanted, packet, marks))
  }

  /** What is in force is enforced: every packet that is not local is treated as the configuration asks. */
  lemma InForceEnforces(setting: Setting, view: View, config: Config, packet: Packet, marks: Marks<bv32>)
    requires InForce(setting, view, config) && !IsLocal(setting.lan, packet)
    ensures Enforces(setting, view, config, packet, marks) && MapsAs(view, config)
  {
    var installed, table := view.rules.value, CurrentTable(view);
    assert Treated(setting, table, config.routing, installed.egress, view.fakes, view.rows, packet, marks);
    SameWanted(config.routing, setting.geo, installed.egress, FromConfig(config), view.fakes, view.rows,
      packet.destination);
    if packet.fromLan {
      var wanted := Wanted(config.routing, setting.geo, FromConfig(config), view.fakes, view.rows, packet.destination);
      VerdictTakesItsPath(table.exclusions, setting.panel, wanted, packet, marks);
    }
  }

  /**
   * In a safe state forwarding is guarded, or the table treats every packet that is not local as the configuration
   * in memory and the one on disk both ask.
   */
  lemma SafeEnforces(setting: Setting, view: View, packet: Packet, marks: Marks<bv32>)
    requires Safe(setting, view) && view.guard.None? && !IsLocal(setting.lan, packet)
    ensures view.rules.Some? && Usable(view.memory.routing) && Usable(view.disk.routing)
    ensures Enforces(setting, view, view.memory, packet, marks) && Enforces(setting, view, view.disk, packet, marks)
    ensures MapsAs(view, view.memory) && MapsAs(view, view.disk)
  {
    InForceEnforces(setting, view, view.memory, packet, marks);
    AlikeInForce(setting, view, view.memory, view.disk);
    InForceEnforces(setting, view, view.disk, packet, marks);
  }

  /** The same for every state a run went through. */
  ghost predicate AllEnforced(setting: Setting, trace: seq<View>) {
    forall i, packet: Packet, marks: Marks<bv32> ::
      0 <= i < |trace| && trace[i].guard.None? && !IsLocal(setting.lan, packet) ==>
        && trace[i].rules.Some? && Usable(trace[i].memory.routing) && Usable(trace[i].disk.routing)
        && Enforces(setting, trace[i], trace[i].memory, packet, marks)
        && Enforces(setting, trace[i], trace[i].disk, packet, marks)
  }

  lemma SafeTraceEnforces(setting: Setting, trace: seq<View>)
    requires forall i :: 0 <= i < |trace| ==> Safe(setting, trace[i])
    ensures AllEnforced(setting, trace)
  {
    forall i, packet: Packet, marks: Marks<bv32> |
      0 <= i < |trace| && trace[i].guard.None? && !IsLocal(setting.lan, packet)
      ensures trace[i].rules.Some? && Usable(trace[i].memory.routing) && Usable(trace[i].disk.routing)
      ensures Enforces(setting, trace[i], trace[i].memory, packet, marks)
      ensures Enforces(setting, trace[i], trace[i].disk, packet, marks)
    {
      SafeEnforces(setting, trace[i], packet, marks);
    }
  }

  // ----- changes that leave everything in force -----

  lemma InvisibleStaysInForce(setting: Setting, view: View, config: Config, next: Config)
    requires InForce(setting, view, config) && Invisible(config, next)
    ensures InForce(setting, view, next)
  {
  }

  predicate SameButAutoUpdate(a: Config, b: Config) {
    a.(autoUpdate := false) == b.(autoUpdate := false)
  }

  lemma AutoUpdateIsInvisible(setting: Setting, view: View, a: Config, b: Config)
    requires SameButAutoUpdate(a, b)
    ensures InForce(setting, view, a) <==> InForce(setting, view, b)
    ensures DesiredNetwork(a) == DesiredNetwork(b) && (Valid(a) <==> Valid(b))
  {
    SameNetwork(a, b);
    assert ActiveServer(a) == ActiveServer(b);
  }

  // ----- outcomes -----

  /** A save either replaces the file, fails before the rename, or fails after it. */
  datatype SaveResult = Saved | Unpublished | Published

  datatype Outcome = Done | Failed | Committed

  datatype Operation =
    | Update(edit: Edit)
    | AutoUpdate(enabled: bool)
    | Reconcile
    | Answer(answers: seq<Resolver.Record>, additionals: seq<Resolver.Record>, domain: string,
      link: Resolver.LanContext, now: int)
    | Purge(now: int)

  class Controller {
    const setting: Setting
    // Process state; the store has the leases in memory, the database and the table's mappings.
    const store: FakeDns.Store
    var memory: Config
    var active: RoutingConfig
    var dnsVpn: bool
    var degraded: bool
    // Outside the process.
    var disk: Config
    var rules: Option<Installed>
    var exclusions: seq<Mac>
    var network: Net
    var guard: Option<seq<Mac>>
    // How many external steps have failed, but for those of the store.
    ghost var failures: nat
    // Every state the outside could have seen, in order.
    ghost var trace: seq<View>

    /** How many external steps have failed. */
    ghost function Faults(): nat
      reads this, store
    {
      failures + store.faults
    }

    /** An external step, which happens or fails. */
    method Try() returns (ok: bool)
      modifies `failures
      ensures failures == if ok then old(failures) else old(failures) + 1
    {
      ok := *;
      if !ok {
        failures := failures + 1;
      }
    }

    ghost function Now(): View
      reads this, store
    {
      View(disk, memory, rules, store.kernel, store.rows, exclusions, network, guard)
    }

    ghost predicate AllSafe()
      reads this, store
    {
      Safe(setting, Now()) && forall i :: 0 <= i < |trace| ==> Safe(setting, trace[i])
    }

    /** Every part agrees with the configuration in memory, which names its server. */
    ghost predicate Effective()
      reads this, store
    {
      && InForce(setting, Now(), memory) && DesiredNetwork(memory) != NoServer
      && active == memory.routing && dnsVpn == memory.vpnEnabled
    }

    /** Nothing is pending. */
    ghost predicate Clean()
      reads this, store
    {
      guard.None? && Effective()
    }

    /** The lease store is open, and every policy in use has an accepted order. */
    ghost predicate Ready()
      reads this, store
    {
      store.Stored() && setting.geo.Valid() && Usable(active) && Usable(memory.routing)
    }

    ghost predicate Inv()
      reads this, store
    {
      && AllSafe() && Ready()
      && Strictly(memory.exclusions) && SameButAutoUpdate(disk, memory)
      && (guard.None? ==> Effective())
      && (!degraded ==> guard.None?)
    }

    /** The table in the kernel was rendered from a policy and an egress. */
    ghost predicate RenderedFrom(routing: RoutingConfig, egress: VpnEgress)
      reads this
    {
      rules.Some? && rules.value.routing == routing && rules.value.egress == egress && Compiled(setting, rules.value)
    }

    /** Leases and mappings have the targets of a policy. */
    ghost predicate Follows(routing: RoutingConfig)
      reads this, store
    {
      Tracks(store.kernel, store.rows, PolicyOf(routing, setting.geo))
    }

    /**
     * A new process finds what an earlier one left outside, in whatever state that one stopped; it has loaded
     * nothing yet.
     */
    constructor (setting: Setting, left: View, limit: nat)
      requires setting.geo.Valid() && FakeDns.UniquePairs(left.rows)
      ensures this.setting == setting && fresh(store)
      ensures Fresh() && disk == Loaded(left.disk)
      ensures Now() == left.(disk := disk, memory := disk)
      ensures Safe(setting, left) ==> AllSafe()
    {
      this.setting := setting;
      store := new FakeDns.Store(left.rows, limit, left.fakes);
      disk := Loaded(left.disk);
      memory := Loaded(left.disk);
      rules := left.rules;
      exclusions := left.exclusions;
      network := left.network;
      guard := left.guard;
      active := left.disk.routing;
      dnsVpn := left.disk.vpnEnabled;
      degraded := true;
      failures := 0;
      trace := [];
      NormalFormIsCanonical(left.disk.exclusions, left.disk.exclusions);
    }

    ghost predicate Fresh()
      reads this, store
    {
      && trace == [] && degraded && memory == disk && Strictly(disk.exclusions)
      && setting.geo.Valid() && store.leases == map[] && FakeDns.UniquePairs(store.rows)
    }

    /** The file and the leases can be used, and no old table stands in the way. */
    ghost predicate Startable(rows: RowMap, now: int)
      reads this
    {
      && OrderAccepted(memory.routing) && |memory.exclusions| <= MAX_EXCLUSIONS
      && (rules.None? || memory.exclusions == [])
      && TagsKnown(memory.routing, setting.geo)
      && (forall fake :: fake in FakeDns.Kept(rows, now) ==> InPool(fake))
    }

    /**
     * Startup until the first reconcile. The guard goes up before anything else changes, and a failure leaves
     * either a guard or everything as it was found.
     */
    method Startup(now: int) returns (ok: bool)
      requires Fresh()
      modifies `exclusions, `guard, `active, `dnsVpn, `failures, `trace, store
      ensures Faults() >= old(Faults())
      ensures Faults() == old(Faults()) && Startable(old(store.rows), now) ==> ok
      ensures ok ==> Inv() && degraded && guard == Some(memory.exclusions) && |memory.exclusions| <= MAX_EXCLUSIONS
      ensures ok ==> active == memory.routing && dnsVpn == memory.vpnEnabled
      ensures ok ==> rules.None? || exclusions == memory.exclusions || memory.exclusions == []
      ensures ok ==> store.rows == FakeDns.Kept(old(store.rows), now)
      ensures !ok ==> guard.Some? || Now() == old(Now())
      ensures forall i :: 0 <= i < |trace| ==> trace[i].guard.Some? || trace[i] == old(Now())
      ensures old(Safe(setting, Now())) ==> AllSafe()
    {
      ok := LoadFile();
      if ok {
        ok := SynchronizeStartup(memory.exclusions);
      }
      if ok {
        ok := Begin(now);
      }
    }

    /**
     * The rest, behind the guard: policy and lease store; flow cleanup, geodata, certificates and listeners may
     * fail.
     */
    method Begin(now: int) returns (ok: bool)
      requires degraded && memory == disk && Strictly(disk.exclusions) && guard == Some(memory.exclusions)
      requires setting.geo.Valid() && Usable(memory.routing)
      requires store.leases == map[] && FakeDns.UniquePairs(store.rows)
      requires forall i :: 0 <= i < |trace| ==> trace[i].guard.Some? && Strictly(trace[i].disk.exclusions)
      modifies `active, `dnsVpn, `failures, `trace, store
      ensures Faults() >= old(Faults())
      ensures Faults() == old(Faults()) ==>
        (ok <==> TagsKnown(memory.routing, setting.geo) && forall fake :: fake in store.rows ==> InPool(fake))
      ensures AllSafe() && (ok ==> Inv()) && trace == old(trace) + [Now()]
      ensures active == memory.routing && dnsVpn == memory.vpnEnabled
      ensures store.rows == FakeDns.Kept(old(store.rows), now)
    {
      active := memory.routing;
      dnsVpn := memory.vpnEnabled;
      ok := OpenLeases(now);
      if ok {
        ok := Compile(memory.routing);
      }
    }

    /** Reading and syncing the file; a file that cannot be used puts up the strictest guard. */
    method LoadFile() returns (ok: bool)
      requires trace == []
      modifies `guard, `failures, `trace
      ensures failures >= old(failures)
      ensures failures == old(failures) ==>
        (ok <==> OrderAccepted(memory.routing) && |memory.exclusions| <= MAX_EXCLUSIONS)
      ensures ok ==>
        Usable(memory.routing) && |memory.exclusions| <= MAX_EXCLUSIONS && guard == old(guard) && trace == []
      ensures !ok ==> (guard == old(guard) || guard == Some([])) && trace == [Now()]
    {
      ok := Try();
      ok := ok && OrderAccepted(memory.routing) && |memory.exclusions| <= MAX_EXCLUSIONS;
      if ok {
        AcceptedInRange(memory.routing);
        ok := Try();
      }
      if !ok {
        var guarded := GuardAtStartup([]);
      }
    }

    /**
     * `synchronize_startup`: a left-over table must be able to honour the exclusions, or the strictest guard
     * goes up.
     */
    method SynchronizeStartup(macs: seq<Mac>) returns (ok: bool)
      modifies `exclusions, `guard, `failures, `trace
      ensures failures >= old(failures) && (failures == old(failures) && (rules.None? || macs == []) ==> ok)
      ensures if ok then guard == Some(macs) else guard == Some([]) || guard == old(guard)
      ensures exclusions == old(exclusions) || (ok && rules.Some? && exclusions == macs)
      ensures ok ==> rules.None? || exclusions == macs || macs == []
      ensures trace == old(trace) + [Now()]
    {
      ok := Try();
      // What the left-over table has is not known here.
      var hasSet: bool, hasReturns: bool := *, *;
      ok := ok && (rules.None? || macs == [] || (hasReturns && hasSet));
      if ok {
        ok := Try();
      }
      if !ok {
        var guarded := GuardAtStartup([]);
        return;
      }
      if rules.Some? && hasSet {
        exclusions := macs;
      }
      guard := Some(macs);
      trace := trace + [Now()];
    }

    /** The lease store opens behind the guard; the table may go on mapping rows that are deleted. */
    method OpenLeases(now: int) returns (ok: bool)
      requires store.leases == map[] && FakeDns.UniquePairs(store.rows)
      modifies `trace, store
      ensures ok ==> store.Stored()
      ensures store.faults == old(store.faults) && (ok <==> forall fake :: fake in store.rows ==> InPool(fake))
      ensures store.rows == FakeDns.Kept(old(store.rows), now) && store.kernel == old(store.kernel)
      ensures trace == old(trace) + [Now()]
    {
      ok := store.OpenRows(now);
      trace := trace + [Now()];
    }

    /** The guard script before anything is known to be safe. */
    method GuardAtStartup(macs: seq<Mac>) returns (ok: bool)
      modifies `guard, `failures, `trace
      ensures failures >= old(failures) && (failures == old(failures) ==> ok)
      ensures guard == if ok then Some(macs) else old(guard)
      ensures trace == old(trace) + [Now()]
    {
      ok := Try();
      if ok {
        guard := Some(macs);
      }
      trace := trace + [Now()];
    }

    /** Notes the state just reached. */
    ghost method Record()
      requires AllSafe()
      modifies `trace
      ensures AllSafe() && trace == old(trace) + [Now()]
    {
      trace := trace + [Now()];
    }

    // ----- external steps; an nft script that fails changes nothing -----

    method InstallGuard(macs: seq<Mac>) returns (ok: bool)
      requires AllSafe()
      modifies `guard, `failures, `trace
      ensures AllSafe() && old(trace) <= trace
      ensures failures == if ok then old(failures) else old(failures) + 1
      ensures guard == if ok then Some(macs) else old(guard)
    {
      ok := Try();
      if ok {
        guard := Some(macs);
      }
      Record();
    }

    /** Clearing is allowed only when what is in force is what both copies ask for. */
    method ClearGuard() returns (ok: bool)
      requires AllSafe() && InForce(setting, Now(), memory) && Alike(memory, disk)
      modifies `guard, `degraded, `failures, `trace
      ensures AllSafe() && old(trace) <= trace
      ensures failures == if ok then old(failures) else old(failures) + 1
      ensures guard == if ok then None else old(guard)
      ensures degraded == (old(degraded) || !ok)
    {
      ok := Try();
      if ok {
        guard := None;
      } else {
        degraded := true;
      }
      Record();
    }

    /** Lifting the guard over a state that is in force. */
    method Unguard() returns (ok: bool)
      requires AllSafe() && Ready() && Effective() && SameButAutoUpdate(disk, memory) && guard.Some?
      modifies `guard, `degraded, `failures, `trace
      ensures AllSafe() && Ready() && Effective() && old(trace) <= trace
      ensures failures == if ok then old(failures) else old(failures) + 1
      ensures guard == if ok then None else old(guard)
      ensures degraded == (old(degraded) || !ok)
    {
      SameNetwork(memory, disk);
      ok := ClearGuard();
    }

    /** Replaces the exclusion set and the guard in one script; there is no set without a table. */
    method PublishExclusions(macs: seq<Mac>) returns (ok: bool)
      requires AllSafe()
      modifies `exclusions, `guard, `failures, `trace
      ensures AllSafe() && old(trace) <= trace
      ensures ok ==> rules.Some? && failures == old(failures)
      ensures failures >= old(failures) && (failures == old(failures) && rules.Some? ==> ok)
      ensures exclusions == if ok then macs else old(exclusions)
      ensures guard == if ok then Some(macs) else old(guard)
    {
      ok := Try();
      ok := ok && rules.Some?;
      if ok {
        exclusions := macs;
        guard := Some(macs);
      }
      Record();
    }

    /** Lists every lease with its target and renders the table with these mappings. */
    method RenderTable(policy: RoutingConfig, egress: VpnEgress, macs: seq<Mac>)
      returns (mappings: seq<FakeMapping>, installed: Installed)
      requires store.Stored() && setting.geo.Valid() && Usable(policy)
      ensures ListsAll(mappings, store.leases, store.rows, PolicyOf(policy, setting.geo))
      ensures installed.routing == policy && installed.egress == egress && Compiled(setting, installed)
      ensures Patched(installed.table, (set mac | mac in macs), AddAll(EMPTY_KERNEL, mappings)) == installed.table
    {
      mappings := store.Reclassified(PolicyOf(policy, setting.geo));
      var table := Render(setting.lan, egress, policy, setting.geo, mappings, setting.panel, macs);
      installed := Installed(policy, egress, table);
      RenderedIsCompiled(setting, installed, mappings, macs);
      RenderedIsCurrent(table, mappings);
    }

    /** Installs the table with every lease reclassified, then commits the targets; each step may fail. */
    method ApplyPolicy(config: Config, policy: RoutingConfig, macs: seq<Mac>) returns (ok: bool)
      requires AllSafe() && guard.Some? && Ready() && Usable(policy)
      modifies `rules, `exclusions, `failures, `trace, store
      ensures AllSafe() && Ready() && old(trace) <= trace
      ensures if ok then Faults() == old(Faults()) else Faults() > old(Faults())
      ensures ok ==> RenderedFrom(policy, FromConfig(config)) && exclusions == macs && Follows(policy)
      ensures exclusions == old(exclusions) || exclusions == macs
    {
      ghost var classify := PolicyOf(policy, setting.geo);
      var mappings, installed := RenderTable(policy, FromConfig(config), macs);
      ok := Try();
      if !ok {
        return;
      }
      store.Install(mappings, classify);
      rules := Some(installed);
      exclusions := macs;
      assert CurrentTable(Now()) == installed.table;
      Record();
      ok := CommitLeases(policy);
    }

    /** `commit_targets`, after the table has the policy's targets. */
    method CommitLeases(policy: RoutingConfig) returns (ok: bool)
      requires AllSafe() && guard.Some? && Ready() && store.Mapped()
      requires KernelClassified(store.kernel, store.rows, PolicyOf(policy, setting.geo))
      modifies `trace, store
      ensures AllSafe() && Ready() && old(trace) <= trace
      ensures store.faults == if ok then old(store.faults) else old(store.faults) + 1
      ensures ok ==> Follows(policy)
    {
      var classify := PolicyOf(policy, setting.geo);
      FakeDns.RetargetKeeps(store.kernel, store.rows, classify);
      ok := store.CommitTargets(classify);
      if ok {
        StoreTracks(store.kernel, store.leases, store.used, store.rows, classify);
      }
      Record();
    }

    /** Starts or stops the tunnel step by step; a failure leaves it unsettled. */
    method ApplyNetwork(config: Config) returns (ok: bool)
      requires AllSafe() && guard.Some?
      modifies `network, `failures, `trace
      ensures AllSafe() && old(trace) <= trace
      ensures failures >= old(failures) && (failures == old(failures) ==> (ok <==> DesiredNetwork(config) != NoServer))
      ensures ok ==> failures == old(failures)
      ensures ok ==> network == Settled(DesiredNetwork(config)) && DesiredNetwork(config) != NoServer
      ensures !ok ==> network == if DesiredNetwork(config) == NoServer then old(network) else Unsettled
    {
      if config.vpnEnabled && ActiveServer(config).None? {
        return false;
      }
      network := Unsettled;
      Record();
      ok := Try();
      if ok {
        network := Settled(DesiredNetwork(config));
        Record();
      }
    }

    /** Restores a captured network state after the previous mode was replayed. */
    method RestoreNetwork(previous: Net) returns (ok: bool)
      requires AllSafe() && guard.Some?
      modifies `network, `failures, `trace
      ensures AllSafe() && old(trace) <= trace
      ensures failures == if ok then old(failures) else old(failures) + 1
      ensures ok ==> network == previous
    {
      network := Unsettled;
      Record();
      ok := Try();
      if ok {
        network := previous;
        Record();
      }
    }

    method Save(next: Config) returns (result: SaveResult)
      requires AllSafe() && Strictly(next.exclusions) && (guard.Some? || Alike(memory, next))
      modifies `disk, `failures, `trace
      ensures AllSafe() && old(trace) <= trace
      ensures failures == if result.Saved? then old(failures) else old(failures) + 1
      ensures disk == if result.Unpublished? then old(disk) else next
    {
      var ok := Try();
      result := Saved;
      if !ok {
        var renamed: bool := *;
        result := if renamed then Published else Unpublished;
      }
      if !result.Unpublished? {
        disk := next;
      }
      Record();
    }

    // ----- the transaction -----

    /** The new state is published but not in force everywhere: stay degraded, and revoke what can be revoked. */
    method CommittedFailure(syncRequired: bool) returns (repaired: bool, guarded: bool)
      requires AllSafe()
      modifies `degraded, `exclusions, `guard, `failures, `trace
      ensures AllSafe() && old(trace) <= trace
      ensures degraded && failures >= old(failures)
      ensures failures == old(failures) ==> repaired || guarded
      ensures guard == if repaired || guarded then Some(memory.exclusions) else old(guard)
      ensures exclusions == if repaired then memory.exclusions else old(exclusions)
    {
      degraded := true;
      guarded := false;
      repaired := true;
      if syncRequired {
        repaired := Try();
      }
      if repaired {
        repaired := PublishExclusions(memory.exclusions);
      }
      if !repaired {
        guarded := InstallGuard(memory.exclusions);
      }
    }

    method Attempt(change: Change, next: Config) returns (result: SaveResult)
      requires AllSafe() && guard.Some? && Ready() && Usable(next.routing) && !change.ConfigOnly?
      requires Strictly(next.exclusions)
      modifies `rules, `exclusions, `network, `disk, `failures, `trace, store
      ensures AllSafe() && Ready() && old(trace) <= trace
      ensures Faults() >= old(Faults())
      ensures if result.Saved? then Faults() == old(Faults()) else
        Faults() > old(Faults()) || (change.Network? && DesiredNetwork(next) == NoServer)
      ensures disk == if result.Unpublished? then old(disk) else next
      ensures change.Policy? ==> network == old(network)
      ensures !result.Unpublished? ==>
        && RenderedFrom(next.routing, FromConfig(next)) && Follows(next.routing)
        && exclusions == memory.exclusions
        && (change.Network? ==> network == Settled(DesiredNetwork(next)) && DesiredNetwork(next) != NoServer)
    {
      if change.Network? {
        var moved := ApplyNetwork(next);
        if !moved {
          return Unpublished;
        }
      }
      var applied := ApplyPolicy(next, next.routing, memory.exclusions);
      if !applied {
        return Unpublished;
      }
      result := Save(next);
    }

    method Rollback(change: Change, previous: Net) returns (ok: bool)
      requires AllSafe() && guard.Some? && Ready() && !change.ConfigOnly?
      modifies `rules, `exclusions, `network, `failures, `trace, store
      ensures AllSafe() && Ready() && old(trace) <= trace
      ensures change.Policy? ==> network == old(network)
      ensures Faults() >= old(Faults())
      ensures Faults() == old(Faults()) ==> ok || (change.Network? && DesiredNetwork(memory) == NoServer)
      ensures ok ==>
        && RenderedFrom(active, FromConfig(memory)) && Follows(active)
        && exclusions == memory.exclusions
        && (change.Network? ==> network == previous)
    {
      var restored := true;
      if change.Network? {
        restored := ApplyNetwork(memory);
        if restored {
          restored := RestoreNetwork(previous);
        }
      }
      ok := ApplyPolicy(memory, active, memory.exclusions);
      ok := ok && restored;
    }

    /** Memory, the active policy and the resolver move to the configuration that was just saved. */
    method Adopt(next: Config)
      requires AllSafe() && guard.Some?
      modifies `memory, `active, `dnsVpn, `trace
      ensures AllSafe() && old(trace) <= trace
      ensures memory == next && active == next.routing && dnsVpn == next.vpnEnabled
    {
      memory := next;
      Record();
      active := next.routing;
      dnsVpn := next.vpnEnabled;
    }

    /** A change of configuration only: nothing outside the file has to move. */
    method SaveOnly(next: Config) returns (r: Outcome)
      requires Inv() && !degraded && Invisible(memory, next)
      modifies `disk, `memory, `degraded, `exclusions, `guard, `failures, `trace
      ensures Inv() && old(trace) <= trace
      ensures failures >= old(failures) && (r.Done? <==> failures == old(failures))
      ensures r.Done? ==> memory == disk == next && !degraded
      ensures r.Failed? ==> memory == old(memory) && disk == old(disk) && !degraded
      ensures r.Committed? ==> memory == disk == next && degraded
    {
      InvisibleStaysInForce(setting, Now(), memory, next);
      r := Failed;
      var result := Save(next);
      if !result.Unpublished? {
        r := AdoptSaved(next, result);
      }
    }

    /** Memory follows the file; an uncertain save is repaired as far as it can be. */
    method AdoptSaved(next: Config, result: SaveResult) returns (r: Outcome)
      requires AllSafe() && Ready() && Effective() && !degraded && guard.None? && Strictly(memory.exclusions)
      requires disk == next && Invisible(memory, next) && !result.Unpublished?
      modifies `memory, `degraded, `exclusions, `guard, `failures, `trace
      ensures Inv() && old(trace) <= trace
      ensures failures >= old(failures) && memory == next && !r.Failed?
      ensures r.Done? ==> result.Saved? && !degraded && failures == old(failures)
      ensures r.Committed? ==> result.Published? && degraded
    {
      InvisibleStaysInForce(setting, Now(), memory, next);
      memory := next;
      Record();
      r := Done;
      if result.Published? {
        var repaired, again := CommittedFailure(true);
        r := Committed;
      }
    }

    /** A failed update goes back to the old state; the guard is lifted only if all of it came back. */
    method Revert(change: Change, previous: Net)
      requires AllSafe() && Ready() && guard == Some(memory.exclusions) && !change.ConfigOnly? && !degraded
      requires Strictly(memory.exclusions) && SameButAutoUpdate(disk, memory)
      requires active == memory.routing && dnsVpn == memory.vpnEnabled && DesiredNetwork(memory) != NoServer
      requires previous == Settled(DesiredNetwork(memory)) && (change.Policy? ==> network == previous)
      modifies `rules, `exclusions, `network, `degraded, `guard, `failures, `trace, store
      ensures Inv() && old(trace) <= trace
      ensures Faults() >= old(Faults()) && (Faults() == old(Faults()) ==> !degraded)
      ensures degraded ==> guard == Some(memory.exclusions)
    {
      var restored := Rollback(change, previous);
      if restored {
        assert Effective();
        var cleared := Unguard();
      } else {
        degraded := true;
      }
    }

    /** Publishes exclusions that changed, and drops the flows that depended on the old ones. */
    method Republish(exclusionsChanged: bool) returns (ok: bool)
      requires AllSafe() && guard.Some? && (!exclusionsChanged ==> exclusions == memory.exclusions)
      modifies `exclusions, `guard, `failures, `trace
      ensures AllSafe() && old(trace) <= trace && guard.Some?
      ensures failures >= old(failures) && (failures == old(failures) && rules.Some? ==> ok)
      ensures ok ==> failures == old(failures)
      ensures ok ==> exclusions == memory.exclusions
    {
      ok := true;
      if exclusionsChanged {
        ok := PublishExclusions(memory.exclusions);
        if ok {
          ok := Try();
        }
      }
    }

    /** The tail of a committed update: publish the exclusions if they changed, then lift the guard. */
    method Finish(exclusionsChanged: bool) returns (r: Outcome)
      requires AllSafe() && Ready() && guard.Some? && disk == memory && DesiredNetwork(memory) != NoServer
      requires active == memory.routing && dnsVpn == memory.vpnEnabled && Follows(memory.routing) && !degraded
      requires RenderedFrom(memory.routing, FromConfig(memory))
      requires network == Settled(DesiredNetwork(memory))
      requires !exclusionsChanged ==> exclusions == memory.exclusions
      modifies `exclusions, `guard, `degraded, `failures, `trace
      ensures Inv() && old(trace) <= trace
      ensures failures >= old(failures) && (r.Done? <==> failures == old(failures))
      ensures r.Done? ==> !degraded
      ensures r.Committed? ==> degraded
      ensures !r.Failed?
    {
      var ok := Republish(exclusionsChanged);
      if ok {
        assert Effective();
        ok := Unguard();
      }
      if !ok {
        var repaired, again := CommittedFailure(false);
        return Committed;
      }
      r := Done;
    }

    /** The new file is in place: memory follows, and what can be finished is finished. */
    method Commit(next: Config, result: SaveResult) returns (r: Outcome)
      requires AllSafe() && Ready() && guard.Some? && disk == next && !result.Unpublished? && !degraded
      requires DesiredNetwork(next) != NoServer && Usable(next.routing)
      requires RenderedFrom(next.routing, FromConfig(next)) && network == Settled(DesiredNetwork(next))
      requires Follows(next.routing) && exclusions == memory.exclusions
      modifies this
      ensures Inv() && old(trace) <= trace
      ensures Faults() >= old(Faults()) && (r.Done? <==> result.Saved? && Faults() == old(Faults()))
      ensures memory == disk == next && !r.Failed?
      ensures degraded == r.Committed?
    {
      var exclusionsChanged := memory.exclusions != next.exclusions;
      Adopt(next);
      if result.Published? {
        var repaired, again := CommittedFailure(true);
        return Committed;
      }
      r := Finish(exclusionsChanged);
    }

    /** An update of the policy or the network, between the snapshot and the guard's removal. */
    method Transact(change: Change, next: Config) returns (r: Outcome)
      requires Inv() && !degraded && Strictly(next.exclusions) && Usable(next.routing) && !change.ConfigOnly?
      requires change.Network? ==> DesiredNetwork(next) != NoServer
      requires change.Policy? ==> DesiredNetwork(next) == DesiredNetwork(memory)
      modifies this, store
      ensures Inv() && old(trace) <= trace
      ensures Faults() >= old(Faults()) && (r.Done? <==> Faults() == old(Faults()))
      ensures r.Failed? && Faults() == old(Faults()) + 1 ==> !degraded
      ensures r.Done? ==> memory == disk == next && !degraded
      ensures r.Failed? ==>
        memory == old(memory) && disk == old(disk) && (degraded ==> guard == Some(memory.exclusions))
      ensures r.Committed? ==> memory == disk == next && degraded
    {
      var guarded := InstallGuard(memory.exclusions);
      r := Failed;
      if guarded {
        r := TransactGuarded(change, next);
      }
    }

    /** The same behind the guard. */
    method TransactGuarded(change: Change, next: Config) returns (r: Outcome)
      requires AllSafe() && Ready() && Effective() && guard == Some(memory.exclusions) && !degraded
      requires Strictly(memory.exclusions) && SameButAutoUpdate(disk, memory)
      requires Strictly(next.exclusions) && Usable(next.routing) && !change.ConfigOnly?
      requires change.Network? ==> DesiredNetwork(next) != NoServer
      requires change.Policy? ==> DesiredNetwork(next) == DesiredNetwork(memory)
      modifies this, store
      ensures Inv() && old(trace) <= trace
      ensures Faults() >= old(Faults()) && (r.Done? <==> Faults() == old(Faults()))
      ensures r.Failed? && Faults() == old(Faults()) + 1 ==> !degraded
      ensures r.Done? ==> memory == disk == next && !degraded
      ensures r.Failed? ==>
        memory == old(memory) && disk == old(disk) && (degraded ==> guard == Some(memory.exclusions))
      ensures r.Committed? ==> memory == disk == next && degraded
    {
      var previous := network;
      var result := Attempt(change, next);
      if result.Unpublished? {
        Revert(change, previous);
        r := Failed;
      } else {
        r := Commit(next, result);
      }
    }

    /** `RoutingPolicy::compile`. */
    method Compile(routing: RoutingConfig) returns (ok: bool)
      modifies `failures
      ensures failures >= old(failures) && (failures == old(failures) ==> (ok <==> TagsKnown(routing, setting.geo)))
      ensures ok ==> failures == old(failures)
    {
      ok := Try();
      ok := ok && TagsKnown(routing, setting.geo);
    }

    /** What a transaction needs before the guard: the policy, and a snapshot if the network is to change. */
    method Prepare(change: Change, routing: RoutingConfig) returns (ok: bool)
      modifies `failures
      ensures failures >= old(failures) && (failures == old(failures) ==> (ok <==> TagsKnown(routing, setting.geo)))
      ensures ok ==> failures == old(failures)
    {
      ok := Compile(routing);
      if ok && change.Network? {
        ok := Try();
      }
    }

    /** Nothing but the file, or a policy or a network to be applied. */
    method Carry(change: Change, next: Config) returns (r: Outcome)
      requires Inv() && !degraded && Carriable(memory, change, next)
      modifies this, store
      ensures Inv() && old(trace) <= trace
      ensures Faults() >= old(Faults())
      ensures Faults() == old(Faults()) ==>
        if change.ConfigOnly? || TagsKnown(next.routing, setting.geo) then r.Done? else r.Failed?
      ensures r.Failed? && Faults() <= old(Faults()) + 1 ==> !degraded
      ensures r.Done? ==> memory == disk == next && !degraded
      ensures r.Failed? ==>
        memory == old(memory) && disk == old(disk) && (degraded ==> guard == Some(memory.exclusions))
      ensures r.Committed? ==> memory == disk == next && degraded
    {
      r := Failed;
      if change.ConfigOnly? {
        r := SaveOnly(next);
      } else {
        var prepared := Prepare(change, next.routing);
        if prepared {
          r := Transact(change, next);
        }
      }
    }

    /** An edit is carried out if it is not refused, and a policy or network to be applied compiles. */
    ghost predicate Accepted(config: Config, edit: Edit, valid: Validator) {
      var edited := RunEdit(config, edit, valid);
      edited.Edited? && (edited.change.ConfigOnly? || TagsKnown(edited.config.routing, setting.geo))
    }

    /**
     * `update_config`. From a clean state there are three outcomes: everything is the new state, everything is
     * the old state (or degraded behind the guard), or the new state is committed and degraded. If no step fails, an
     * accepted edit is done; if one fails and the update with it, a clean controller stays clean.
     */
    method UpdateConfig(edit: Edit, valid: Validator) returns (r: Outcome)
      requires Inv()
      modifies this, store
      ensures Inv() && old(trace) <= trace
      ensures Faults() >= old(Faults())
      ensures Faults() == old(Faults()) ==>
        if Accepted(old(memory), edit, valid) && !old(degraded) then r.Done? else r.Failed?
      ensures r.Failed? && Faults() == old(Faults()) + 1 ==> degraded == old(degraded)
      ensures old(degraded) ==> r == Failed && degraded && Now() == old(Now())
      ensures r.Done? || r.Committed? ==>
        RunEdit(old(memory), edit, valid).Edited? && memory == disk == RunEdit(old(memory), edit, valid).config
      ensures r.Done? ==> !degraded
      ensures r.Failed? ==>
        memory == old(memory) && disk == old(disk) && (degraded ==> old(degraded) || guard == Some(memory.exclusions))
      ensures r.Committed? ==> degraded
    {
      r := Failed;
      var locked := Try();
      if locked && !degraded {
        r := UpdateLocked(edit, valid);
      }
    }

    /** The same under the lock, from a clean state. */
    method UpdateLocked(edit: Edit, valid: Validator) returns (r: Outcome)
      requires Inv() && !degraded
      modifies this, store
      ensures Inv() && old(trace) <= trace
      ensures Faults() >= old(Faults())
      ensures Faults() == old(Faults()) ==> if Accepted(old(memory), edit, valid) then r.Done? else r.Failed?
      ensures r.Failed? && Faults() <= old(Faults()) + 1 ==> !degraded
      ensures r.Done? || r.Committed? ==>
        RunEdit(old(memory), edit, valid).Edited? && memory == disk == RunEdit(old(memory), edit, valid).config
      ensures degraded ==> r.Committed? || (r.Failed? && guard == Some(memory.exclusions))
      ensures r.Failed? ==> memory == old(memory) && disk == old(disk)
      ensures r.Committed? ==> degraded
    {
      r := Failed;
      var edited := RunEdit(memory, edit, valid);
      if edited.Edited? {
        EditFacts(memory, edit, valid);
        r := Carry(edited.change, edited.config);
      }
    }

    /** `set_auto_update`: after a published failure only the file has the new flag. */
    method SetAutoUpdate(enabled: bool) returns (result: SaveResult)
      requires Inv()
      modifies `disk, `memory, `failures, `trace
      ensures Inv() && old(trace) <= trace
      ensures failures >= old(failures) && (result.Saved? <==> failures == old(failures))
      ensures memory == if result.Saved? then old(memory).(autoUpdate := enabled) else old(memory)
      ensures disk == if result.Unpublished? then old(disk) else old(memory).(autoUpdate := enabled)
    {
      result := Unpublished;
      var locked := Try();
      if locked {
        result := SaveFlag(enabled);
      }
    }

    method SaveFlag(enabled: bool) returns (result: SaveResult)
      requires Inv()
      modifies `disk, `memory, `failures, `trace
      ensures Inv() && old(trace) <= trace
      ensures failures == if result.Saved? then old(failures) else old(failures) + 1
      ensures memory == if result.Saved? then old(memory).(autoUpdate := enabled) else old(memory)
      ensures disk == if result.Unpublished? then old(disk) else old(memory).(autoUpdate := enabled)
    {
      var next := memory.(autoUpdate := enabled);
      SameNetwork(memory, next);
      result := Save(next);
      if result.Saved? {
        memory := next;
        Record();
      }
    }

    /** `reconcile_locked` behind its guard: policy, resolver, then tunnel. */
    method Reapply() returns (ok: bool)
      requires AllSafe() && Ready() && guard.Some?
      modifies `rules, `exclusions, `active, `dnsVpn, `network, `failures, `trace, store
      ensures AllSafe() && Ready() && old(trace) <= trace
      ensures ok ==> Effective()
      ensures Faults() >= old(Faults()) && (Faults() == old(Faults()) ==> (ok <==> DesiredNetwork(memory) != NoServer))
      ensures ok ==> Faults() == old(Faults())
    {
      ok := ApplyPolicy(memory, memory.routing, memory.exclusions);
      if ok {
        active := memory.routing;
        dnsVpn := memory.vpnEnabled;
        // The cleanup of DNS flows.
        ok := Try();
      }
      if ok {
        ok := ApplyNetwork(memory);
      }
    }

    /** The effects of `reconcile_locked` under its guard. */
    method Restore() returns (ok: bool)
      requires AllSafe() && Ready() && Strictly(memory.exclusions) && SameButAutoUpdate(disk, memory)
      requires degraded && guard == Some(memory.exclusions)
      modifies `rules, `exclusions, `active, `dnsVpn, `network, `guard, `degraded, `failures, `trace, store
      ensures Inv() && old(trace) <= trace
      ensures degraded == !ok && Faults() >= old(Faults())
      ensures Faults() == old(Faults()) ==> (ok <==> DesiredNetwork(memory) != NoServer)
      ensures ok || guard == Some(memory.exclusions)
      ensures ok ==> Clean()
    {
      ok := Reapply();
      if ok {
        // The retirement of legacy routing.
        ok := Try();
      }
      if ok {
        ok := Lift();
      }
    }

    /** Everything was applied again: the guard goes, then the flag. */
    method Lift() returns (ok: bool)
      requires AllSafe() && Ready() && Strictly(memory.exclusions) && SameButAutoUpdate(disk, memory) && degraded
      requires guard.Some?
      requires active == memory.routing && dnsVpn == memory.vpnEnabled && Follows(memory.routing)
      requires InForce(setting, Now(), memory) && DesiredNetwork(memory) != NoServer
      modifies `guard, `degraded, `failures, `trace
      ensures Inv() && old(trace) <= trace
      ensures degraded == !ok && failures == if ok then old(failures) else old(failures) + 1
      ensures ok || guard == old(guard)
    {
      ok := Unguard();
      if ok {
        degraded := false;
      }
    }

    /**
     * `reconcile_locked`: the only operation that clears the degraded flag, and only by completing, which takes
     * a listed server.
     */
    method ReconcileLocked() returns (r: Outcome)
      requires Inv()
      modifies this, store
      ensures Inv() && old(trace) <= trace
      ensures Faults() >= old(Faults())
      ensures Faults() == old(Faults()) ==>
        (r.Done? <==> DesiredNetwork(memory) != NoServer && TagsKnown(memory.routing, setting.geo))
      ensures memory == old(memory) && disk == old(disk)
      ensures r.Done? ==> !degraded && Clean()
      ensures old(degraded) && !r.Done? ==> degraded
      ensures r.Failed? ==> Now() == old(Now()) || (degraded && guard == Some(memory.exclusions))
      ensures !r.Committed?
    {
      r := Failed;
      var locked := Try();
      if locked {
        degraded := true;
        var ready := PrepareReconcile();
        if ready {
          ready := RestoreGuarded();
          r := if ready then Done else Failed;
        }
      }
    }

    method RestoreGuarded() returns (ok: bool)
      requires Inv() && degraded
      modifies this, store
      ensures Inv() && old(trace) <= trace
      ensures memory == old(memory) && disk == old(disk) && degraded == !ok
      ensures ok ==> Clean()
      ensures !ok ==> Now() == old(Now()) || guard == Some(memory.exclusions)
      ensures Faults() >= old(Faults()) && (Faults() == old(Faults()) ==> (ok <==> DesiredNetwork(memory) != NoServer))
    {
      ok := InstallGuard(memory.exclusions);
      if ok {
        ok := Restore();
      }
    }

    /** Durability of the file first, then the policy. */
    method PrepareReconcile() returns (ok: bool)
      modifies `failures
      ensures failures >= old(failures)
      ensures failures == old(failures) ==> (ok <==> TagsKnown(memory.routing, setting.geo))
      ensures ok ==> failures == old(failures)
    {
      ok := Try();
      if ok {
        ok := Compile(memory.routing);
      }
    }

    // ----- leases -----

    /** The leases have moved and still have the targets of the policy in use. */
    lemma StillEffective(before: View)
      requires Now() == before.(fakes := store.kernel, rows := store.rows)
      requires InForce(setting, before, memory) && Follows(memory.routing) && SameButAutoUpdate(disk, memory)
      ensures InForce(setting, Now(), memory) && Alike(memory, disk)
    {
      SameNetwork(memory, disk);
    }

    /** A name is asked: the answers are rewritten by the active policy, and leased to it. */
    method AnswerQuery(answers: seq<Resolver.Record>, additionals: seq<Resolver.Record>, domain: string,
      link: Resolver.LanContext, now: int)
      returns (ok: bool, first: array<Resolver.Record>, second: array<Resolver.Record>, names: set<string>)
      requires Inv()
      modifies `trace, store
      ensures Inv() && old(trace) <= trace && fresh(first) && fresh(second)
      ensures ok ==>
        FakeDns.RewrittenBy(answers, first[..], additionals, second[..], domain, names, link, now, store.rows)
      ensures FakeDns.Grown(old(store.rows), store.rows)
      ensures Faults() >= old(Faults())
      ensures Faults() == old(Faults()) && old(store.Mapped()) && old(store.Room(|answers| + |additionals|)) ==> ok
    {
      ghost var before := Now();
      var classify := PolicyOf(active, setting.geo);
      first := new Resolver.Record[|answers|](k requires 0 <= k < |answers| => answers[k]);
      second := new Resolver.Record[|additionals|](k requires 0 <= k < |additionals| => additionals[k]);
      assert first[..] == answers && second[..] == additionals;
      var rewritten, twice;
      ok, rewritten, twice, names := store.Rewrite(first, second, domain, link, classify, now);
      if guard.None? {
        StoreTracks(store.kernel, store.leases, store.used, store.rows, classify);
        StillEffective(before);
      }
      Record();
    }

    /** The cleanup task drops expired leases, and no others. */
    method PurgeLeases(now: int) returns (ok: bool)
      requires Inv()
      modifies `trace, store
      ensures Inv() && old(trace) <= trace
      ensures store.rows == if ok then FakeDns.Kept(old(store.rows), now) else old(store.rows)
      ensures Faults() >= old(Faults())
      ensures Faults() == old(Faults()) && old(store.Synced()) && guard.None? ==> ok
    {
      ghost var before := Now();
      ghost var classify := PolicyOf(active, setting.geo);
      var twice;
      ok, twice := store.PurgeExpired(now, classify);
      if guard.None? {
        StoreTracks(store.kernel, store.leases, store.used, store.rows, classify);
        StillEffective(before);
      }
      Record();
    }

    /**
     * Any run of operations, whatever fails in it: every state on the way is safe. Once degraded, only a completed
     * reconcile ends it and no edit is accepted before, so a controller that starts with a missing server stays
     * degraded.
     */
    method Run(operations: seq<Operation>, valid: Validator) returns (completed: bool)
      requires Inv()
      modifies this, store
      ensures Inv() && old(trace) <= trace && AllEnforced(setting, trace)
      ensures old(degraded) && !completed ==> degraded && SameButAutoUpdate(old(memory), memory)
      ensures old(degraded) && DesiredNetwork(old(memory)) == NoServer ==> !completed
      ensures old(Valid(memory)) ==> Valid(memory)
    {
      completed := false;
      for i := 0 to |operations|
        invariant Inv() && old(trace) <= trace
        invariant old(degraded) && !completed ==> degraded && SameButAutoUpdate(old(memory), memory)
        invariant old(degraded) && DesiredNetwork(old(memory)) == NoServer ==> !completed
        invariant old(Valid(memory)) ==> Valid(memory)
      {
        ghost var before := memory;
        var done := Operate(operations[i], valid);
        if old(degraded) && !completed {
          SameNetwork(old(memory), before);
        }
        completed := completed || done;
      }
      SafeTraceEnforces(setting, trace);
    }

    /** One operation; a reconcile tells whether it completed. */
    method Operate(operation: Operation, valid: Validator) returns (completed: bool)
      requires Inv()
      modifies this, store
      ensures Inv() && old(trace) <= trace
      ensures old(degraded) && !completed ==> degraded
      ensures old(degraded) ==> SameButAutoUpdate(old(memory), memory)
      ensures old(degraded) && completed ==> DesiredNetwork(old(memory)) != NoServer
      ensures old(Valid(memory)) ==> Valid(memory)
    {
      completed := false;
      match operation {
        case Update(edit) =>
          ValidAfterEdit(memory, edit, valid);
          var outcome := UpdateConfig(edit, valid);
        case AutoUpdate(enabled) =>
          var result := SetAutoUpdate(enabled);
          SameNetwork(old(memory), memory);
        case Reconcile =>
          var outcome := ReconcileLocked();
          completed := outcome.Done?;
        case Answer(answers, additionals, domain, link, now) =>
          var ok, first, second, names := AnswerQuery(answers, additionals, domain, link, now);
        case Purge(now) =>
          var ok := PurgeLeases(now);
      }
    }
  }

  lemma SameNetwork(a: Config, b: Config)
    requires SameButAutoUpdate(a, b)
    ensures DesiredNetwork(a) == DesiredNetwork(b) && (Valid(a) <==> Valid(b)) && Alike(a, b)
  {
    assert a.servers == b.servers && a.activeKey == b.activeKey;
    assert ActiveServer(a) == ActiveServer(b);
  }

  lemma UsableAfterEdit(config: Config, edit: Edit, valid: Validator)
    requires Usable(config.routing) && RunEdit(config, edit, valid).Edited?
    ensures Usable(RunEdit(config, edit, valid).config.routing)
  {
    EditKeepsRouting(config, edit, valid);
    if OrderAccepted(RunEdit(config, edit, valid).config.routing) {
      AcceptedInRange(RunEdit(config, edit, valid).config.routing);
    }
  }

  /** What carrying an edit out relies on. */
  lemma EditFacts(config: Config, edit: Edit, valid: Validator)
    requires Usable(config.routing) && Strictly(config.exclusions) && DesiredNetwork(config) != NoServer
    requires RunEdit(config, edit, valid).Edited?
    ensures Carriable(config, RunEdit(config, edit, valid).change, RunEdit(config, edit, valid).config)
  {
    EditKeepsRouting(config, edit, valid);
    UsableAfterEdit(config, edit, valid);
    match RunEdit(config, edit, valid).change {
      case ConfigOnly => LabelIsRight(config, edit, valid);
      case Policy => PolicyKeepsNetwork(config, edit, valid);
      case Network => NetworkNamesServer(config, edit, valid);
    }
  }

  /** A new configuration, with a label that is right. */
  predicate Carriable(config: Config, change: Change, next: Config) {
    && Usable(next.routing) && Strictly(next.exclusions)
    && match change
       case ConfigOnly => Invisible(config, next)
       case Policy => DesiredNetwork(next) == DesiredNetwork(config)
       case Network => DesiredNetwork(next) != NoServer
  }

  lemma ValidAfterEdit(config: Config, edit: Edit, valid: Validator)
    ensures Valid(config) && RunEdit(config, edit, valid).Edited? ==> Valid(RunEdit(config, edit, valid).config)
  {
    if Valid(config) && RunEdit(config, edit, valid).Edited? {
      EditKeepsValid(config, edit, valid);
    }
  }
}
