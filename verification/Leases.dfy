/** The lease table, its database rows and the kernel's mapping, as values. */
module Leases {
  import opened Ipv4
  import opened Dataplane
  import Overlap
  import opened PolicyCompiler
  import opened Routing

  const FIRST_FAKE: int := 0xc612_0001
  const LAST_FAKE: int := 0xc613_fffe
  const POOL: int := 0x1_fffe
  const GRACE: int := 86400

  datatype LeaseKey = LeaseKey(domain: string, realIp: int)

  datatype Lease = Lease(mapping: FakeMapping, expires: int)

  /** A row of the table; its key is the fake address. */
  datatype Row = Row(domain: string, realIp: int, target: RouteTarget, expires: int)

  type LeaseMap = map<LeaseKey, Lease>
  type RowMap = map<int, Row>

  /** `policy.target(domain, address)` of some policy. */
  type Classifier = (string, int) -> RouteTarget

  predicate InPool(fake: int) {
    FIRST_FAKE <= fake <= LAST_FAKE
  }

  /** No fake address is the panel's, on the LAN, or matched by an accepted CIDR rule. */
  lemma PoolIsReserved(fake: int, network: Cidr)
    requires InPool(fake) && Overlap.RuleAccepted(network)
    ensures fake != PANEL_VIRTUAL_IP && !IsLan(fake) && !Has(network, fake)
  {
    Overlap.AcceptedRulesMissFakes(network);
  }

  function KeyOf(row: Row): LeaseKey {
    LeaseKey(row.domain, row.realIp)
  }

  function RowOf(key: LeaseKey, lease: Lease): Row {
    Row(key.domain, key.realIp, lease.mapping.target, lease.expires)
  }

  // ----- the lease table and the database -----

  predicate HasRow(leases: LeaseMap, rows: RowMap, key: LeaseKey)
    requires key in leases
  {
    var lease := leases[key];
    && lease.mapping.realIp == key.realIp
    && InPool(lease.mapping.fake)
    && lease.mapping.fake in rows && rows[lease.mapping.fake] == RowOf(key, lease)
  }

  predicate HasLease(leases: LeaseMap, rows: RowMap, fake: int)
    requires fake in rows
  {
    KeyOf(rows[fake]) in leases && leases[KeyOf(rows[fake])].mapping.fake == fake
  }

  /** Memory and database hold the same leases, and `used` is exactly their fake addresses. */
  ghost predicate Agree(leases: LeaseMap, used: set<int>, rows: RowMap) {
    && used == rows.Keys
    && (forall key :: key in leases ==> HasRow(leases, rows, key))
    && (forall fake :: fake in rows ==> HasLease(leases, rows, fake))
  }

  /** (domain, real) and fake determine each other, and every fake is in the pool. */
  lemma Bijection(leases: LeaseMap, used: set<int>, rows: RowMap, a: LeaseKey, b: LeaseKey)
    requires Agree(leases, used, rows) && a in leases && b in leases
    ensures leases[a].mapping.fake == leases[b].mapping.fake <==> a == b
    ensures leases[a].mapping.fake in used && InPool(leases[a].mapping.fake)
    ensures KeyOf(rows[leases[a].mapping.fake]) == a
  {
    assert HasRow(leases, rows, a) && HasRow(leases, rows, b);
  }

  lemma AgreeInsert(leases: LeaseMap, used: set<int>, rows: RowMap, key: LeaseKey, lease: Lease)
    requires Agree(leases, used, rows) && key !in leases && lease.mapping.fake !in used
    requires lease.mapping.realIp == key.realIp && InPool(lease.mapping.fake)
    ensures Agree(leases[key := lease], used + {lease.mapping.fake}, rows[lease.mapping.fake := RowOf(key, lease)])
  {
    var leases', rows' := leases[key := lease], rows[lease.mapping.fake := RowOf(key, lease)];
    forall k | k in leases'
      ensures HasRow(leases', rows', k)
    {
      assert k == key || HasRow(leases, rows, k);
    }
    forall fake | fake in rows'
      ensures HasLease(leases', rows', fake)
    {
      assert fake == lease.mapping.fake || HasLease(leases, rows, fake);
    }
  }

  function Renewed(lease: Lease, expires: int): Lease {
    lease.(expires := expires)
  }

  lemma AgreeRenew(leases: LeaseMap, used: set<int>, rows: RowMap, key: LeaseKey, expires: int)
    requires Agree(leases, used, rows) && key in leases && HasRow(leases, rows, key)
    ensures var fake := leases[key].mapping.fake;
      Agree(leases[key := Renewed(leases[key], expires)], used, rows[fake := rows[fake].(expires := expires)])
  {
    var fake := leases[key].mapping.fake;
    var leases', rows' := leases[key := Renewed(leases[key], expires)], rows[fake := rows[fake].(expires := expires)];
    forall k | k in leases'
      ensures HasRow(leases', rows', k)
    {
      Bijection(leases, used, rows, k, key);
      assert HasRow(leases, rows, k);
    }
    forall f | f in rows'
      ensures HasLease(leases', rows', f)
    {
      assert HasLease(leases, rows, f);
    }
  }

  function LeasesWithout(leases: LeaseMap, fakes: set<int>): LeaseMap {
    map key | key in leases && leases[key].mapping.fake !in fakes :: leases[key]
  }

  lemma AgreeRemove(leases: LeaseMap, used: set<int>, rows: RowMap, fakes: set<int>)
    requires Agree(leases, used, rows)
    ensures Agree(LeasesWithout(leases, fakes), used - fakes, rows - fakes)
  {
    var leases', rows' := LeasesWithout(leases, fakes), rows - fakes;
    forall k | k in leases'
      ensures HasRow(leases', rows', k)
    {
      assert HasRow(leases, rows, k);
    }
    forall f | f in rows'
      ensures HasLease(leases', rows', f)
    {
      assert HasLease(leases, rows, f);
    }
  }

  function Retargeted(leases: LeaseMap, classify: Classifier): LeaseMap {
    map key | key in leases ::
      leases[key].(mapping := leases[key].mapping.(target := classify(key.domain, leases[key].mapping.realIp)))
  }

  function RowsRetargeted(rows: RowMap, classify: Classifier): RowMap {
    map fake | fake in rows :: rows[fake].(target := classify(rows[fake].domain, rows[fake].realIp))
  }

  lemma AgreeRetarget(leases: LeaseMap, used: set<int>, rows: RowMap, classify: Classifier)
    requires Agree(leases, used, rows)
    ensures Agree(Retargeted(leases, classify), used, RowsRetargeted(rows, classify))
  {
    var leases', rows' := Retargeted(leases, classify), RowsRetargeted(rows, classify);
    forall k | k in leases'
      ensures HasRow(leases', rows', k)
    {
      assert HasRow(leases, rows, k);
    }
    forall f | f in rows'
      ensures HasLease(leases', rows', f)
    {
      assert HasLease(leases, rows, f);
    }
  }

  lemma NoLeases(leases: LeaseMap, used: set<int>, rows: RowMap)
    requires Agree(leases, used, rows) && |leases| == 0
    ensures used == {}
  {
    assert forall key :: key !in leases.Keys;
    assert forall fake :: fake in rows ==> HasLease(leases, rows, fake);
    assert forall fake :: fake !in rows;
  }

  lemma RemoveOne(leases: LeaseMap, used: set<int>, rows: RowMap, key: LeaseKey)
    requires Agree(leases, used, rows) && key in leases
    ensures leases[key].mapping.fake in used
    ensures LeasesWithout(leases, {leases[key].mapping.fake}) == leases - {key}
  {
    forall k | k in leases
      ensures leases[k].mapping.fake == leases[key].mapping.fake <==> k == key
    {
      Bijection(leases, used, rows, k, key);
    }
    Bijection(leases, used, rows, key, key);
  }

  lemma OneFewer(leases: LeaseMap, key: LeaseKey)
    requires key in leases
    ensures |leases| == |leases - {key}| + 1
  {
    assert leases == (leases - {key})[key := leases[key]];
  }

  /** There are as many fake addresses in use as leases. */
  lemma {:induction false} LeaseCount(leases: LeaseMap, used: set<int>, rows: RowMap)
    requires Agree(leases, used, rows)
    ensures |leases| == |used|
    decreases |leases|
  {
    if |leases| == 0 {
      NoLeases(leases, used, rows);
    } else {
      var key :| key in leases;
      var fake := leases[key].mapping.fake;
      RemoveOne(leases, used, rows, key);
      OneFewer(leases, key);
      AgreeRemove(leases, used, rows, {fake});
      LeaseCount(leases - {key}, used - {fake}, rows - {fake});
    }
  }

  // ----- the kernel -----

  /** The map from fake to real addresses, and the four target sets as tagged elements. */
  datatype Kernel = Kernel(realOf: map<int, int>, sets: set<(RouteTarget, int)>)

  const EMPTY_KERNEL := Kernel(map[], {})

  function AddOne(kernel: Kernel, m: FakeMapping): Kernel {
    Kernel(kernel.realOf[m.fake := m.realIp], kernel.sets + {(m.target, m.fake)})
  }

  function AddAll(kernel: Kernel, mappings: seq<FakeMapping>): Kernel {
    if mappings == [] then kernel else AddOne(AddAll(kernel, mappings[..|mappings| - 1]), mappings[|mappings| - 1])
  }

  function Fakes(mappings: seq<FakeMapping>): set<int> {
    set m | m in mappings :: m.fake
  }

  function RemoveAll(kernel: Kernel, mappings: seq<FakeMapping>): Kernel {
    Kernel(kernel.realOf - Fakes(mappings), kernel.sets - FakeSets(mappings))
  }

  /** Every kernel mapping is a lease's. */
  ghost predicate Within(kernel: Kernel, rows: RowMap) {
    forall fake :: fake in kernel.realOf ==> fake in rows && rows[fake].realIp == kernel.realOf[fake]
  }

  predicate InSet(kernel: Kernel, target: RouteTarget, fake: int) {
    (target, fake) in kernel.sets
  }

  /** The four sets partition the mapped addresses. */
  ghost predicate Partitioned(kernel: Kernel) {
    && (forall t, fake :: InSet(kernel, t, fake) ==> fake in kernel.realOf)
    && (forall fake :: fake in kernel.realOf ==> exists t :: InSet(kernel, t, fake))
    && (forall t, u, fake :: InSet(kernel, t, fake) && InSet(kernel, u, fake) ==> t == u)
  }

  /** Every mapped address is in the set of its classified target. */
  ghost predicate KernelClassified(kernel: Kernel, rows: RowMap, classify: Classifier) {
    forall t, fake :: InSet(kernel, t, fake) ==> fake in rows && t == classify(rows[fake].domain, rows[fake].realIp)
  }

  /** The kernel maps pool addresses of leases only, and both are where a policy puts them. */
  ghost predicate Tracks(kernel: Kernel, rows: RowMap, classify: Classifier) {
    && Within(kernel, rows) && Partitioned(kernel)
    && KernelClassified(kernel, rows, classify) && RowsClassified(rows, classify)
    && (forall fake :: fake in kernel.realOf ==> InPool(fake))
  }

  ghost predicate RowsClassified(rows: RowMap, classify: Classifier) {
    forall fake :: fake in rows ==> rows[fake].target == classify(rows[fake].domain, rows[fake].realIp)
  }

  /** Mappings of current leases, each address once. */
  ghost predicate Leased(mappings: seq<FakeMapping>, rows: RowMap) {
    && DistinctFakes(mappings)
    && (forall i :: 0 <= i < |mappings| ==>
          mappings[i].fake in rows && rows[mappings[i].fake].realIp == mappings[i].realIp)
  }

  lemma {:induction false} AddAllReal(kernel: Kernel, mappings: seq<FakeMapping>, rows: RowMap)
    requires Leased(mappings, rows) && Within(kernel, rows)
    ensures Within(AddAll(kernel, mappings), rows)
    ensures AddAll(kernel, mappings).realOf.Keys == kernel.realOf.Keys + Fakes(mappings)
  {
    if mappings != [] {
      var front, m := mappings[..|mappings| - 1], mappings[|mappings| - 1];
      assert mappings == front + [m];
      AddAllReal(kernel, front, rows);
    }
  }

  lemma {:induction false} AddAllSets(kernel: Kernel, mappings: seq<FakeMapping>)
    ensures AddAll(kernel, mappings).sets == kernel.sets + FakeSets(mappings)
  {
    if mappings != [] {
      assert mappings == mappings[..|mappings| - 1] + [mappings[|mappings| - 1]];
      AddAllSets(kernel, mappings[..|mappings| - 1]);
    }
  }

  lemma {:induction false} AddAllMaps(mappings: seq<FakeMapping>)
    requires DistinctFakes(mappings)
    ensures var realOf := AddAll(EMPTY_KERNEL, mappings).realOf;
      && realOf.Keys == Fakes(mappings)
      && forall i :: 0 <= i < |mappings| ==>
        mappings[i].fake in realOf && realOf[mappings[i].fake] == mappings[i].realIp
  {
    if mappings != [] {
      var front, m := mappings[..|mappings| - 1], mappings[|mappings| - 1];
      assert mappings == front + [m];
      AddAllMaps(front);
    }
  }

  /** Each address of a list is in one of the list's sets, and in only one. */
  lemma ListPartitioned(mappings: seq<FakeMapping>)
    requires DistinctFakes(mappings)
    ensures Partitioned(Kernel(map fake | fake in Fakes(mappings) :: fake, FakeSets(mappings)))
  {
    var kernel := Kernel(map fake | fake in Fakes(mappings) :: fake, FakeSets(mappings));
    forall fake | fake in Fakes(mappings)
      ensures exists t :: InSet(kernel, t, fake)
    {
      var m :| m in mappings && m.fake == fake;
      assert InSet(kernel, m.target, fake);
    }
  }

  /** Two partitions of disjoint addresses make one. */
  lemma PartitionsJoin(a: Kernel, b: Kernel, both: Kernel)
    requires Partitioned(a) && Partitioned(b) && a.realOf.Keys !! b.realOf.Keys
    requires both.realOf.Keys == a.realOf.Keys + b.realOf.Keys && both.sets == a.sets + b.sets
    ensures Partitioned(both)
  {
    forall t, fake | InSet(both, t, fake)
      ensures fake in both.realOf
    {
      assert InSet(a, t, fake) || InSet(b, t, fake);
    }
    forall fake | fake in both.realOf
      ensures exists t :: InSet(both, t, fake)
    {
      if fake in a.realOf {
        var t :| InSet(a, t, fake);
        assert InSet(both, t, fake);
      } else {
        var t :| InSet(b, t, fake);
        assert InSet(both, t, fake);
      }
    }
    forall t, u, fake | InSet(both, t, fake) && InSet(both, u, fake)
      ensures t == u
    {
      assert InSet(a, t, fake) || InSet(b, t, fake);
      assert InSet(a, u, fake) || InSet(b, u, fake);
    }
  }

  /** New addresses enter the kernel without disturbing the partition. */
  lemma AddAllPartitioned(kernel: Kernel, mappings: seq<FakeMapping>, rows: RowMap)
    requires Leased(mappings, rows) && Within(kernel, rows) && Partitioned(kernel)
    requires Fakes(mappings) !! kernel.realOf.Keys
    ensures Partitioned(AddAll(kernel, mappings))
  {
    AddAllReal(kernel, mappings, rows);
    AddAllSets(kernel, mappings);
    ListPartitioned(mappings);
    PartitionsJoin(kernel, Kernel(map fake | fake in Fakes(mappings) :: fake, FakeSets(mappings)),
      AddAll(kernel, mappings));
  }

  /** The elements of every mapping are in the kernel, as a delete script needs. */
  predicate Present(kernel: Kernel, mappings: seq<FakeMapping>) {
    forall i :: 0 <= i < |mappings| ==>
      mappings[i].fake in kernel.realOf && InSet(kernel, mappings[i].target, mappings[i].fake)
  }

  /** No mapped address would change its real address, as an add script needs. */
  predicate Compatible(kernel: Kernel, mappings: seq<FakeMapping>) {
    forall i :: 0 <= i < |mappings| ==>
      mappings[i].fake in kernel.realOf ==> kernel.realOf[mappings[i].fake] == mappings[i].realIp
  }

  lemma ElementOfAddress(kernel: Kernel, mappings: seq<FakeMapping>, t: RouteTarget, fake: int)
    requires Partitioned(kernel) && Present(kernel, mappings) && InSet(kernel, t, fake) && fake in Fakes(mappings)
    ensures (t, fake) in FakeSets(mappings)
  {
    var i :| 0 <= i < |mappings| && mappings[i].fake == fake;
    assert InSet(kernel, mappings[i].target, fake);
    assert mappings[i] in mappings;
  }

  /** Removing present mappings takes their addresses out of the map and of every set. */
  lemma RemoveAllPartitioned(kernel: Kernel, mappings: seq<FakeMapping>)
    requires Partitioned(kernel) && Present(kernel, mappings)
    ensures Partitioned(RemoveAll(kernel, mappings))
  {
    var after := RemoveAll(kernel, mappings);
    forall t, fake | InSet(after, t, fake)
      ensures fake in after.realOf
    {
      assert InSet(kernel, t, fake);
      if fake in Fakes(mappings) {
        ElementOfAddress(kernel, mappings, t, fake);
      }
    }
    forall fake | fake in after.realOf
      ensures exists t :: InSet(after, t, fake)
    {
      var t :| InSet(kernel, t, fake);
      assert InSet(after, t, fake);
    }
    forall t, u, fake | InSet(after, t, fake) && InSet(after, u, fake)
      ensures t == u
    {
      assert InSet(kernel, t, fake) && InSet(kernel, u, fake);
    }
  }

  lemma PresentElements(kernel: Kernel, mappings: seq<FakeMapping>)
    requires Present(kernel, mappings)
    ensures FakeSets(mappings) <= kernel.sets && Fakes(mappings) <= kernel.realOf.Keys
  {
    forall p | p in FakeSets(mappings)
      ensures p in kernel.sets
    {
      var i :| 0 <= i < |mappings| && p == (mappings[i].target, mappings[i].fake);
      assert InSet(kernel, mappings[i].target, mappings[i].fake);
    }
  }

  lemma SameReals(a: Kernel, b: Kernel, rows: RowMap)
    requires Within(a, rows) && Within(b, rows) && a.realOf.Keys == b.realOf.Keys
    ensures a.realOf == b.realOf
  {
    forall fake | fake in a.realOf.Keys
      ensures fake in b.realOf && a.realOf[fake] == b.realOf[fake]
    {
    }
  }

  /** Putting removed mappings back restores the kernel exactly. */
  lemma ReinstallRestores(kernel: Kernel, mappings: seq<FakeMapping>, rows: RowMap)
    requires Within(kernel, rows) && Leased(mappings, rows) && Present(kernel, mappings)
    ensures AddAll(RemoveAll(kernel, mappings), mappings) == kernel
  {
    var removed := RemoveAll(kernel, mappings);
    PresentElements(kernel, mappings);
    AddAllReal(removed, mappings, rows);
    AddAllSets(removed, mappings);
    assert removed.realOf.Keys + Fakes(mappings) == kernel.realOf.Keys;
    SameReals(AddAll(removed, mappings), kernel, rows);
    assert (kernel.sets - FakeSets(mappings)) + FakeSets(mappings) == kernel.sets;
  }

  // ----- a whole policy in the kernel -----

  function Reclassify(key: LeaseKey, lease: Lease, classify: Classifier): FakeMapping {
    lease.mapping.(target := classify(key.domain, lease.mapping.realIp))
  }

  /** `mappings` lists every lease once, with its new target. */
  ghost predicate ListsAll(mappings: seq<FakeMapping>, leases: LeaseMap, rows: RowMap, classify: Classifier) {
    && Leased(mappings, rows)
    && (forall i :: 0 <= i < |mappings| ==>
          mappings[i].target == classify(rows[mappings[i].fake].domain, mappings[i].realIp))
    && Fakes(mappings) == rows.Keys
  }

  /** What the kernel holds after a policy was applied: every lease, in the set of its target. */
  lemma AppliedKernel(mappings: seq<FakeMapping>, leases: LeaseMap, rows: RowMap, classify: Classifier)
    requires ListsAll(mappings, leases, rows, classify)
    ensures var kernel := AddAll(EMPTY_KERNEL, mappings);
      && Within(kernel, rows) && Partitioned(kernel) && KernelClassified(kernel, rows, classify)
      && kernel.realOf.Keys == rows.Keys
  {
    AddAllReal(EMPTY_KERNEL, mappings, rows);
    AddAllSets(EMPTY_KERNEL, mappings);
    AddAllPartitioned(EMPTY_KERNEL, mappings, rows);
  }

  /** New leases of one policy keep the kernel classified by it. */
  lemma AddAllClassified(kernel: Kernel, mappings: seq<FakeMapping>, rows: RowMap, classify: Classifier)
    requires KernelClassified(kernel, rows, classify) && Leased(mappings, rows)
    requires forall i :: 0 <= i < |mappings| ==>
      mappings[i].target == classify(rows[mappings[i].fake].domain, mappings[i].realIp)
    ensures KernelClassified(AddAll(kernel, mappings), rows, classify)
  {
    AddAllSets(kernel, mappings);
    var after := AddAll(kernel, mappings);
    forall t, fake | InSet(after, t, fake)
      ensures fake in rows && t == classify(rows[fake].domain, rows[fake].realIp)
    {
      if !InSet(kernel, t, fake) {
        assert (t, fake) in FakeSets(mappings);
      }
    }
  }

  // ----- the address search -----

  /** The `offset`-th address of the pool, counted cyclically from `next`. */
  function Candidate(next: int, offset: int): (fake: int)
    requires InPool(next) && 0 <= offset < POOL
    ensures InPool(fake)
  {
    FIRST_FAKE + (next - FIRST_FAKE + offset) % POOL
  }

  /** The search passes through the whole pool. */
  lemma CandidateCovers(next: int, fake: int)
    requires InPool(next) && InPool(fake)
    ensures var offset := (fake - next) % POOL; 0 <= offset < POOL && Candidate(next, offset) == fake
  {
  }

  /** The addresses from `lo` up to `hi`. */
  function Range(lo: int, hi: int): (s: set<int>)
    requires lo <= hi
    ensures forall x :: x in s <==> lo <= x < hi
    ensures |s| == hi - lo
    decreases hi - lo
  {
    if lo == hi then {} else Range(lo, hi - 1) + {hi - 1}
  }

  lemma SubsetSize(small: set<int>, large: set<int>)
    requires small <= large
    ensures |small| <= |large|
  {
    assert large == small + (large - small);
  }

  /** With fewer addresses in use than the pool has, one is free. */
  lemma FreeAddressExists(used: set<int>)
    requires |used| < POOL
    ensures exists fake :: InPool(fake) && fake !in used
  {
    var pool := Range(FIRST_FAKE, LAST_FAKE + 1);
    if forall fake :: InPool(fake) ==> fake in used {
      assert forall fake :: fake in pool ==> InPool(fake);
      SubsetSize(pool, used);
    }
  }
}
