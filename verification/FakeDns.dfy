/** The FakeDNS allocator: memory, database and kernel under failing steps and failing rollbacks. */
module FakeDns {
  import opened Ipv4
  import opened Dataplane
  import opened Leases
  import opened Resolver
  import opened Routing

  datatype Allocation = Allocated(mapping: FakeMapping, isNew: bool) | LimitReached | PoolExhausted | DatabaseFailed

  function Clamp(ttl: int): int {
    if ttl < 30 then 30 else if ttl > 3600 then 3600 else ttl
  }

  function Later(a: int, b: int): int {
    if a < b then b else a
  }

  function Expiry(now: int, ttl: int): int {
    now + Clamp(ttl) + 300
  }

  // ----- how the rows of one run relate -----

  predicate SameLease(before: Row, after: Row) {
    before == after.(expires := before.expires) && before.expires <= after.expires
  }

  /** `after` has the rows of `before`, perhaps renewed, and those of `gained` besides. */
  ghost predicate Extends(before: RowMap, after: RowMap, gained: set<int>) {
    && gained !! before.Keys
    && after.Keys == before.Keys + gained
    && (forall fake :: fake in before ==> SameLease(before[fake], after[fake]))
  }

  lemma ExtendsBoth(a: RowMap, b: RowMap, c: RowMap, first: set<int>, second: set<int>)
    requires Extends(a, b, first) && Extends(b, c, second)
    ensures Extends(a, c, first + second)
  {
    forall fake | fake in a
      ensures SameLease(a[fake], c[fake])
    {
      assert SameLease(a[fake], b[fake]) && SameLease(b[fake], c[fake]);
    }
  }

  lemma ExtendsWithout(before: RowMap, after: RowMap, gained: set<int>)
    requires Extends(before, after, gained)
    ensures Extends(before, after - gained, {})
  {
    forall fake | fake in before
      ensures SameLease(before[fake], (after - gained)[fake])
    {
      assert SameLease(before[fake], after[fake]);
    }
  }

  lemma ExtendedWithin(kernel: Kernel, before: RowMap, after: RowMap, gained: set<int>)
    requires Within(kernel, before) && Extends(before, after, gained)
    ensures Within(kernel, after)
  {
    forall fake | fake in kernel.realOf
      ensures fake in after && after[fake].realIp == kernel.realOf[fake]
    {
      assert SameLease(before[fake], after[fake]);
    }
  }

  lemma ExtendedClassified(kernel: Kernel, before: RowMap, after: RowMap, gained: set<int>, classify: Classifier)
    requires KernelClassified(kernel, before, classify) && RowsClassified(before, classify)
    requires Extends(before, after, gained)
    requires forall fake :: fake in gained ==>
      fake in after && after[fake].target == classify(after[fake].domain, after[fake].realIp)
    ensures KernelClassified(kernel, after, classify) && RowsClassified(after, classify)
  {
    forall fake | fake in after
      ensures after[fake].target == classify(after[fake].domain, after[fake].realIp)
    {
      assert fake in before ==> SameLease(before[fake], after[fake]);
    }
    forall t, fake | InSet(kernel, t, fake)
      ensures fake in after && t == classify(after[fake].domain, after[fake].realIp)
    {
      assert SameLease(before[fake], after[fake]);
    }
  }

  /** A mapping is the lease of a key for at least a time. */
  predicate LeasedTo(rows: RowMap, mapping: FakeMapping, key: LeaseKey, expires: int) {
    && mapping.fake in rows && mapping.realIp == key.realIp
    && KeyOf(rows[mapping.fake]) == key && rows[mapping.fake].expires >= expires
  }

  /** A mapping is a lease that did not exist before, in the pool and at an address nobody had. */
  ghost predicate NewLease(before: RowMap, after: RowMap, key: LeaseKey, mapping: FakeMapping,
    target: RouteTarget, expires: int) {
    && InPool(mapping.fake) && mapping == FakeMapping(mapping.fake, key.realIp, target)
    && Extends(before, after, {mapping.fake})
    && after[mapping.fake] == Row(key.domain, key.realIp, target, expires)
  }

  /** A new lease never takes an address that the kernel still maps. */
  lemma NeverReleasedWhileMapped(kernel: Kernel, before: RowMap, after: RowMap, key: LeaseKey,
    mapping: FakeMapping, target: RouteTarget, expires: int)
    requires Within(kernel, before) && NewLease(before, after, key, mapping, target, expires)
    ensures mapping.fake !in kernel.realOf
  {
  }

  // ----- opening -----

  /** The rows that outlived their grace period are deleted at start. */
  function Kept(rows: RowMap, now: int): RowMap {
    map fake | fake in rows && rows[fake].expires > now - GRACE :: rows[fake]
  }

  /** The database's UNIQUE(domain, real). */
  ghost predicate UniquePairs(rows: RowMap) {
    forall a, b :: a in rows && b in rows && KeyOf(rows[a]) == KeyOf(rows[b]) ==> a == b
  }

  /** After a restart the kernel is within the leases exactly when no mapped row was too old to keep. */
  lemma OpenKeepsMapped(rows: RowMap, now: int, kernel: Kernel)
    requires Within(kernel, rows)
    ensures Within(kernel, Kept(rows, now))
      <==> forall fake :: fake in kernel.realOf ==> rows[fake].expires > now - GRACE
  {
    if Within(kernel, Kept(rows, now)) {
      forall fake | fake in kernel.realOf
        ensures rows[fake].expires > now - GRACE
      {
        assert fake in Kept(rows, now);
      }
    }
  }

  /** A row that expired in its grace period while the kernel still maps it. */
  lemma StaleKernelAfterOpen()
    ensures var rows := map[FIRST_FAKE := Row("a.example", 0x0101_0101, Vpn, 0)];
      var kernel := Kernel(map[FIRST_FAKE := 0x0101_0101], {(Vpn, FIRST_FAKE)});
      Within(kernel, rows) && Partitioned(kernel) && !Within(kernel, Kept(rows, GRACE))
  {
    var rows := map[FIRST_FAKE := Row("a.example", 0x0101_0101, Vpn, 0)];
    var kernel := Kernel(map[FIRST_FAKE := 0x0101_0101], {(Vpn, FIRST_FAKE)});
    assert InSet(kernel, Vpn, FIRST_FAKE);
    assert FIRST_FAKE in kernel.realOf && FIRST_FAKE !in Kept(rows, GRACE);
  }

  /** Without the expired rows, what is left is what is kept. */
  lemma NotExpired(rows: RowMap, fakes: set<int>, now: int)
    requires forall fake :: fake in fakes <==> fake in rows && rows[fake].expires <= now - GRACE
    ensures rows - fakes == Kept(rows, now)
  {
    var left, kept := rows - fakes, Kept(rows, now);
    forall fake
      ensures fake in left <==> fake in kept
      ensures fake in left ==> left[fake] == kept[fake]
    {
    }
  }

  /** A fake address in an answer outlives every copy of the answer, and a day of connections opened from it. */
  lemma AnswersOutlived(before: Record, after: Record, domain: string, names: set<string>, lan: LanContext, now: int,
    rows: RowMap, later: int)
    requires RewrittenTo(before, after, domain, names, lan, now, rows) && Rewritable(before, names, lan)
    requires later < now + after.ttl + 300 + 86400
    ensures after.ip in Kept(rows, later) && 30 <= after.ttl <= 3600
    ensures 30 <= before.ttl <= 3600 ==> after.ttl == before.ttl
  {
  }

  function LeaseOf(fake: int, row: Row): Lease {
    Lease(FakeMapping(fake, row.realIp, row.target), row.expires)
  }

  lemma NotLoadedYet(leases: LeaseMap, rows: RowMap, fake: int)
    requires UniquePairs(rows) && fake in rows
    requires forall key :: key in leases ==> HasRow(leases, rows, key) && leases[key].mapping.fake != fake
    ensures KeyOf(rows[fake]) !in leases
  {
    assert forall key :: key in leases ==> KeyOf(rows[leases[key].mapping.fake]) == key;
  }

  /** Loading one row leaves the leases loaded before it in place. */
  lemma LoadOne(leases: LeaseMap, rows: RowMap, fake: int)
    requires UniquePairs(rows) && fake in rows && InPool(fake)
    requires forall key :: key in leases ==> HasRow(leases, rows, key) && leases[key].mapping.fake != fake
    ensures KeyOf(rows[fake]) !in leases
    ensures var after := leases[KeyOf(rows[fake]) := LeaseOf(fake, rows[fake])];
      && (forall key :: key in after ==> HasRow(after, rows, key))
      && HasLease(after, rows, fake)
      && (forall f :: f in rows && HasLease(leases, rows, f) ==> HasLease(after, rows, f))
  {
    var key := KeyOf(rows[fake]);
    NotLoadedYet(leases, rows, fake);
    var after := leases[key := LeaseOf(fake, rows[fake])];
    forall k | k in after
      ensures HasRow(after, rows, k)
    {
      assert k == key || HasRow(leases, rows, k);
    }
  }

  // ----- lists of leases -----

  /** `mappings` lists the leases of distinct keys, up to their targets. */
  ghost predicate ListsKeys(mappings: seq<FakeMapping>, keys: seq<LeaseKey>, leases: LeaseMap) {
    && |mappings| == |keys|
    && (forall i, j :: 0 <= i < j < |keys| ==> keys[i] != keys[j])
    && (forall i :: 0 <= i < |keys| ==> ListsKey(mappings[i], keys[i], leases))
  }

  predicate ListsKey(mapping: FakeMapping, key: LeaseKey, leases: LeaseMap) {
    key in leases && mapping == leases[key].mapping.(target := mapping.target)
  }

  lemma ListOneMore(mappings: seq<FakeMapping>, keys: seq<LeaseKey>, leases: LeaseMap, key: LeaseKey,
    mapping: FakeMapping)
    requires ListsKeys(mappings, keys, leases) && key !in keys && ListsKey(mapping, key, leases)
    ensures ListsKeys(mappings + [mapping], keys + [key], leases)
  {
  }

  lemma ListedKeysLeased(mappings: seq<FakeMapping>, keys: seq<LeaseKey>, leases: LeaseMap, used: set<int>,
    rows: RowMap)
    requires Agree(leases, used, rows) && ListsKeys(mappings, keys, leases)
    ensures Leased(mappings, rows)
  {
    forall i, j | 0 <= i < j < |mappings|
      ensures mappings[i].fake != mappings[j].fake
    {
      assert ListsKey(mappings[i], keys[i], leases) && ListsKey(mappings[j], keys[j], leases);
      Bijection(leases, used, rows, keys[i], keys[j]);
    }
    forall i | 0 <= i < |mappings|
      ensures mappings[i].fake in rows && rows[mappings[i].fake].realIp == mappings[i].realIp
    {
      assert ListsKey(mappings[i], keys[i], leases) && HasRow(leases, rows, keys[i]);
    }
  }

  /** An address is listed exactly when the key of its row is. */
  lemma ListedFakes(mappings: seq<FakeMapping>, keys: seq<LeaseKey>, leases: LeaseMap, used: set<int>, rows: RowMap)
    requires Agree(leases, used, rows) && ListsKeys(mappings, keys, leases)
    ensures forall fake :: fake in Fakes(mappings) <==> fake in rows && KeyOf(rows[fake]) in keys
  {
    forall fake | fake in Fakes(mappings)
      ensures fake in rows && KeyOf(rows[fake]) in keys
    {
      var i :| 0 <= i < |mappings| && mappings[i].fake == fake;
      assert ListsKey(mappings[i], keys[i], leases) && HasRow(leases, rows, keys[i]);
    }
    forall fake | fake in rows && KeyOf(rows[fake]) in keys
      ensures fake in Fakes(mappings)
    {
      var i :| 0 <= i < |keys| && keys[i] == KeyOf(rows[fake]);
      assert HasLease(leases, rows, fake) && ListsKey(mappings[i], keys[i], leases);
      assert mappings[i] in mappings;
    }
  }

  lemma AllListed(mappings: seq<FakeMapping>, keys: seq<LeaseKey>, leases: LeaseMap, used: set<int>, rows: RowMap)
    requires Agree(leases, used, rows) && ListsKeys(mappings, keys, leases)
    requires forall key :: key in leases ==> key in keys
    ensures Fakes(mappings) == rows.Keys
  {
    ListedFakes(mappings, keys, leases, used, rows);
    forall fake | fake in rows
      ensures fake in Fakes(mappings)
    {
      assert HasLease(leases, rows, fake);
    }
  }

  /** Committing a policy's targets moves no address and agrees with the kernel's sets. */
  lemma RetargetKeeps(kernel: Kernel, rows: RowMap, classify: Classifier)
    requires Within(kernel, rows) && KernelClassified(kernel, rows, classify)
    ensures Within(kernel, RowsRetargeted(rows, classify))
    ensures KernelClassified(kernel, RowsRetargeted(rows, classify), classify)
    ensures RowsClassified(RowsRetargeted(rows, classify), classify)
    ensures RowsRetargeted(rows, classify).Keys == rows.Keys
  {
  }

  // ----- purging -----

  /** What uninstalling does to a kernel that is within the leases. */
  lemma Uninstalled(kernel: Kernel, rows: RowMap, mappings: seq<FakeMapping>)
    requires Leased(mappings, rows) && Present(kernel, mappings)
    ensures Within(kernel, rows) ==> Within(RemoveAll(kernel, mappings), rows)
    ensures Within(kernel, rows) ==> AddAll(RemoveAll(kernel, mappings), mappings) == kernel
    ensures Partitioned(kernel) ==> Partitioned(RemoveAll(kernel, mappings))
    ensures RemoveAll(kernel, mappings).realOf.Keys == kernel.realOf.Keys - Fakes(mappings)
  {
    if Within(kernel, rows) {
      ReinstallRestores(kernel, mappings, rows);
    }
    if Partitioned(kernel) {
      RemoveAllPartitioned(kernel, mappings);
    }
  }

  lemma UninstalledClassified(kernel: Kernel, rows: RowMap, mappings: seq<FakeMapping>, classify: Classifier)
    requires Leased(mappings, rows) && Present(kernel, mappings)
    ensures Partitioned(kernel) && KernelClassified(kernel, rows, classify) ==>
      KernelClassified(RemoveAll(kernel, mappings), rows - Fakes(mappings), classify)
  {
    if Partitioned(kernel) && KernelClassified(kernel, rows, classify) {
      var after := RemoveAll(kernel, mappings);
      RemoveAllPartitioned(kernel, mappings);
      forall t, fake | InSet(after, t, fake)
        ensures fake in rows - Fakes(mappings) && t == classify(rows[fake].domain, rows[fake].realIp)
      {
        assert fake in after.realOf && InSet(kernel, t, fake);
      }
    }
  }

  lemma StillWithin(kernel: Kernel, rows: RowMap, fakes: set<int>)
    requires kernel.realOf.Keys !! fakes
    ensures Within(kernel, rows) ==> Within(kernel, rows - fakes)
  {
  }

  // ----- answers -----

  ghost predicate AnyRewritable(records: seq<Record>, count: nat, names: set<string>, lan: LanContext)
    requires count <= |records|
  {
    exists i :: 0 <= i < count && Rewritable(records[i], names, lan)
  }

  lemma AnyOneMore(records: seq<Record>, count: nat, names: set<string>, lan: LanContext)
    requires count < |records|
    ensures AnyRewritable(records, count + 1, names, lan)
      <==> AnyRewritable(records, count, names, lan) || Rewritable(records[count], names, lan)
  {
  }

  /** The answer after rewriting: a fake address leased to (domain, real), or the record itself. */
  predicate RewrittenTo(before: Record, after: Record, domain: string, names: set<string>, lan: LanContext, now: int,
    rows: RowMap) {
    if Rewritable(before, names, lan) then
      && after.Address? && after.name == before.name && after.ttl == Clamp(before.ttl)
      && after.ip in rows && KeyOf(rows[after.ip]) == LeaseKey(domain, before.ip)
      && rows[after.ip].expires >= Expiry(now, before.ttl)
    else after == before
  }

  ghost predicate AllRewritten(before: seq<Record>, after: seq<Record>, count: nat, domain: string,
    names: set<string>, lan: LanContext, now: int, rows: RowMap)
    requires count <= |before| == |after|
  {
    forall i :: 0 <= i < count ==> RewrittenTo(before[i], after[i], domain, names, lan, now, rows)
  }

  /** Answers inside the LAN, on the router's own link or for other names are passed on as they came. */
  lemma LocalAnswersStay(before: Record, after: Record, domain: string, names: set<string>, lan: LanContext, now: int,
    rows: RowMap)
    requires RewrittenTo(before, after, domain, names, lan, now, rows)
    ensures before.Address? && (IsLan(before.ip) || before.ip == lan.address || Has(lan.subnet, before.ip)) ==>
      after == before
    ensures !before.Address? || before.name !in names ==> after == before
  {
  }

  /** A section of which the first records are done. */
  ghost predicate HalfRewritten(before: seq<Record>, after: seq<Record>, count: nat, domain: string,
    names: set<string>, lan: LanContext, now: int, rows: RowMap)
  {
    && count <= |before| == |after|
    && AllRewritten(before, after, count, domain, names, lan, now, rows)
    && after[count..] == before[count..]
  }

  lemma OneMoreRewritten(before: seq<Record>, half: seq<Record>, after: seq<Record>, i: nat, domain: string,
    names: set<string>, lan: LanContext, now: int, rows: RowMap)
    requires HalfRewritten(before, half, i, domain, names, lan, now, rows)
    requires i < |half| == |after| && after == half[i := after[i]]
    requires RewrittenTo(half[i], after[i], domain, names, lan, now, rows)
    ensures HalfRewritten(before, after, i + 1, domain, names, lan, now, rows)
  {
    assert half[i] == half[i..][0] == before[i..][0] == before[i];
    assert after[i + 1..] == half[i..][1..] && before[i + 1..] == before[i..][1..];
  }

  /** The new mappings carry the policy's targets, in the database too. */
  ghost predicate FreshTargets(mappings: seq<FakeMapping>, rows: RowMap, classify: Classifier) {
    forall i :: 0 <= i < |mappings| ==>
      && mappings[i].fake in rows
      && mappings[i].target == rows[mappings[i].fake].target
      && mappings[i].target == classify(rows[mappings[i].fake].domain, mappings[i].realIp)
  }

  /** `after` has the rows of `before` and perhaps more. */
  ghost predicate Grown(before: RowMap, after: RowMap) {
    Extends(before, after, after.Keys - before.Keys)
  }

  lemma SameGrown(rows: RowMap)
    ensures Grown(rows, rows)
  {
    assert rows.Keys - rows.Keys == {};
  }

  lemma GrownBoth(a: RowMap, b: RowMap, c: RowMap)
    requires Grown(a, b) && Grown(b, c)
    ensures Grown(a, c)
  {
    ExtendsBoth(a, b, c, b.Keys - a.Keys, c.Keys - b.Keys);
    assert (b.Keys - a.Keys) + (c.Keys - b.Keys) == c.Keys - a.Keys;
  }

  /** The leases made for one response so far. */
  ghost predicate Batch(start: RowMap, rows: RowMap, added: seq<FakeMapping>, classify: Classifier) {
    Leased(added, rows) && Extends(start, rows, Fakes(added)) && FreshTargets(added, rows, classify)
  }

  lemma StillRewritten(before: seq<Record>, after: seq<Record>, count: nat, domain: string, names: set<string>,
    lan: LanContext, now: int, rows0: RowMap, rows1: RowMap)
    requires count <= |before| == |after| && AllRewritten(before, after, count, domain, names, lan, now, rows0)
    requires Grown(rows0, rows1)
    ensures AllRewritten(before, after, count, domain, names, lan, now, rows1)
  {
    forall i | 0 <= i < count
      ensures RewrittenTo(before[i], after[i], domain, names, lan, now, rows1)
    {
      assert RewrittenTo(before[i], after[i], domain, names, lan, now, rows0);
      assert after[i].Address? && after[i].ip in rows0 ==> SameLease(rows0[after[i].ip], rows1[after[i].ip]);
    }
  }

  lemma KeptListed(rows0: RowMap, rows1: RowMap, gained: set<int>, added: seq<FakeMapping>, classify: Classifier)
    requires Extends(rows0, rows1, gained) && Leased(added, rows0) && FreshTargets(added, rows0, classify)
    ensures Leased(added, rows1) && FreshTargets(added, rows1, classify)
  {
    forall i | 0 <= i < |added|
      ensures added[i].fake in rows1 && SameLease(rows0[added[i].fake], rows1[added[i].fake])
    {
    }
  }

  lemma SameAdded(start: RowMap, rows0: RowMap, rows1: RowMap, added: seq<FakeMapping>, classify: Classifier)
    requires Batch(start, rows0, added, classify) && Extends(rows0, rows1, {})
    ensures Batch(start, rows1, added, classify) && Grown(rows0, rows1)
  {
    ExtendsBoth(start, rows0, rows1, Fakes(added), {});
    KeptListed(rows0, rows1, {}, added, classify);
    assert Fakes(added) + {} == Fakes(added);
    assert rows1.Keys - rows0.Keys == {};
  }

  lemma AddedOne(start: RowMap, rows0: RowMap, rows1: RowMap, added: seq<FakeMapping>, mapping: FakeMapping,
    classify: Classifier)
    requires Batch(start, rows0, added, classify) && Extends(rows0, rows1, {mapping.fake})
    requires rows1[mapping.fake].realIp == mapping.realIp
    requires mapping.target == rows1[mapping.fake].target == classify(rows1[mapping.fake].domain, mapping.realIp)
    ensures Batch(start, rows1, added + [mapping], classify) && Grown(rows0, rows1)
  {
    assert rows1.Keys - rows0.Keys == {mapping.fake};
    assert Fakes(added + [mapping]) == Fakes(added) + {mapping.fake};
    ExtendsBoth(start, rows0, rows1, Fakes(added), {mapping.fake});
    KeptListed(rows0, rows1, {mapping.fake}, added, classify);
    forall i | 0 <= i < |added|
      ensures added[i].fake != mapping.fake
    {
    }
  }

  /** A response whose sections were rewritten for the names that the answers make relevant. */
  ghost predicate RewrittenBy(asked: seq<Record>, answers: seq<Record>, extra: seq<Record>, additionals: seq<Record>,
    domain: string, names: set<string>, lan: LanContext, now: int, rows: RowMap)
  {
    && |asked| == |answers| && |extra| == |additionals|
    && domain in names && Closed(asked, names)
    && (forall s: set<string> :: domain in s && Closed(asked, s) ==> names <= s)
    && AllRewritten(asked, answers, |asked|, domain, names, lan, now, rows)
    && AllRewritten(extra, additionals, |extra|, domain, names, lan, now, rows)
  }

  lemma EmptyBatch(rows: RowMap, classify: Classifier)
    ensures Batch(rows, rows, [], classify)
  {
  }

  /** Installing a batch, giving it up, or keeping it without installing it. */
  lemma BatchEffect(kernel: Kernel, start: RowMap, rows: RowMap, added: seq<FakeMapping>, classify: Classifier)
    requires Batch(start, rows, added, classify)
    ensures Grown(start, rows) && Extends(start, rows - Fakes(added), {})
    ensures added == [] ==> Extends(start, rows, {})
    ensures Within(kernel, start) ==>
      && Within(kernel, rows) && Within(kernel, rows - Fakes(added)) && Within(AddAll(kernel, added), rows)
      && AddAll(kernel, added).realOf.Keys == kernel.realOf.Keys + Fakes(added)
      && (Partitioned(kernel) ==> Partitioned(AddAll(kernel, added)))
    ensures KernelClassified(kernel, start, classify) && RowsClassified(start, classify) ==>
      && KernelClassified(kernel, rows, classify) && RowsClassified(rows, classify)
      && KernelClassified(AddAll(kernel, added), rows, classify)
      && KernelClassified(kernel, rows - Fakes(added), classify) && RowsClassified(rows - Fakes(added), classify)
  {
    assert rows.Keys - start.Keys == Fakes(added);
    ExtendsWithout(start, rows, Fakes(added));
    if Within(kernel, start) {
      ExtendedWithin(kernel, start, rows, Fakes(added));
      ExtendedWithin(kernel, start, rows - Fakes(added), {});
      AddAllReal(kernel, added, rows);
      if Partitioned(kernel) {
        AddAllPartitioned(kernel, added, rows);
      }
    }
    if KernelClassified(kernel, start, classify) && RowsClassified(start, classify) {
      NewTargets(rows, added, classify);
      ExtendedClassified(kernel, start, rows, Fakes(added), classify);
      ExtendedClassified(kernel, start, rows - Fakes(added), {}, classify);
      AddAllClassified(kernel, added, rows, classify);
    }
  }

  lemma NewTargets(rows: RowMap, added: seq<FakeMapping>, classify: Classifier)
    requires Leased(added, rows) && FreshTargets(added, rows, classify)
    ensures forall fake :: fake in Fakes(added) ==>
      fake in rows && rows[fake].target == classify(rows[fake].domain, rows[fake].realIp)
  {
  }

  /** New leases are new to a kernel that maps earlier ones only. */
  lemma BatchIsCompatible(kernel: Kernel, start: RowMap, rows: RowMap, added: seq<FakeMapping>, classify: Classifier)
    requires Batch(start, rows, added, classify)
    ensures Within(kernel, start) ==> Compatible(kernel, added)
  {
    forall i | 0 <= i < |added|
      ensures added[i].fake !in start
    {
      assert added[i] in added && added[i].fake in Fakes(added);
    }
  }

  /** What a synchronised kernel maps is there to be removed. */
  lemma LeasedPresent(kernel: Kernel, rows: RowMap, mappings: seq<FakeMapping>, classify: Classifier)
    requires Within(kernel, rows) && Partitioned(kernel) && kernel.realOf.Keys == rows.Keys
    requires RowsClassified(rows, classify) && KernelClassified(kernel, rows, classify)
    requires Leased(mappings, rows)
    requires forall i :: 0 <= i < |mappings| ==> mappings[i].target == rows[mappings[i].fake].target
    ensures Present(kernel, mappings)
  {
    forall i | 0 <= i < |mappings|
      ensures mappings[i].fake in kernel.realOf && InSet(kernel, mappings[i].target, mappings[i].fake)
    {
      var t :| InSet(kernel, t, mappings[i].fake);
    }
  }

  datatype Step =
    | Answer(answers: seq<Record>, additionals: seq<Record>, domain: string, lan: LanContext, now: int)
    | Purge(now: int)
    // A policy is adopted when answers use it from then on, or did already; one that could not be saved is not.
    | Apply(classify: Classifier, adopted: bool)

  // ----- the store -----

  class Store {
    // Memory.
    var leases: LeaseMap
    var used: set<int>
    var next: int
    const maxLeases: nat
    // The database table and the kernel's mapping.
    var rows: RowMap
    var kernel: Kernel
    // How many external steps have failed.
    ghost var faults: nat

    /** An external step, which happens or fails. */
    method Try() returns (ok: bool)
      modifies `faults
      ensures faults == if ok then old(faults) else old(faults) + 1
    {
      ok := *;
      if !ok {
        faults := faults + 1;
      }
    }

    /** How many leases fit under the limit and into the pool. */
    ghost function Capacity(): nat {
      if maxLeases < POOL then maxLeases else POOL
    }

    /** There is room for so many new leases. */
    ghost predicate Room(count: nat)
      reads this
    {
      |leases| + count <= Capacity()
    }

    ghost predicate Stored()
      reads this
    {
      Agree(leases, used, rows) && InPool(next)
    }

    /** The kernel maps only leased addresses, each in one target set. */
    ghost predicate Mapped()
      reads this
    {
      Within(kernel, rows) && Partitioned(kernel)
    }

    /** The kernel maps every leased address. */
    ghost predicate Synced()
      reads this
    {
      Mapped() && kernel.realOf.Keys == rows.Keys
    }

    /** Memory, database and kernel all hold the policy's targets. */
    ghost predicate Classified(classify: Classifier)
      reads this
    {
      RowsClassified(rows, classify) && KernelClassified(kernel, rows, classify)
    }

    /** A database and a kernel as an earlier process left them; nothing is in memory yet. */
    constructor (saved: RowMap, limit: nat, left: Kernel)
      ensures leases == map[] && rows == saved && kernel == left && maxLeases == limit && faults == 0
    {
      rows := saved;
      kernel := left;
      maxLeases := limit;
      next := FIRST_FAKE;
      used := {};
      leases := map[];
      faults := 0;
    }

    /** `open`: deletes what is too old, reads the rest, and refuses an address outside the pool. */
    method OpenRows(now: int) returns (ok: bool)
      requires leases == map[] && UniquePairs(rows)
      modifies `rows, `leases, `used, `next
      ensures rows == Kept(old(rows), now)
      ensures ok <==> forall fake :: fake in rows ==> InPool(fake)
      ensures ok ==> Stored()
    {
      rows := Kept(rows, now);
      ok := forall fake :: fake in rows ==> InPool(fake);
      if ok {
        next := FIRST_FAKE;
        used := rows.Keys;
        Load();
      }
    }

    /** Fills memory from the rows, in the order of their fake addresses. */
    method Load()
      requires UniquePairs(rows) && used == rows.Keys && leases == map[] && InPool(next)
      requires forall fake :: fake in rows ==> InPool(fake)
      modifies `leases
      ensures Stored()
    {
      var fake := FIRST_FAKE;
      while fake <= LAST_FAKE
        invariant fake <= LAST_FAKE + 1
        invariant forall key :: key in leases ==> HasRow(leases, rows, key) && leases[key].mapping.fake < fake
        invariant forall f :: f in rows && f < fake ==> HasLease(leases, rows, f)
      {
        if fake in rows {
          LoadOne(leases, rows, fake);
          leases := leases[KeyOf(rows[fake]) := LeaseOf(fake, rows[fake])];
        }
        fake := fake + 1;
      }
    }

    /** The first free address at or after `next`, going once around the pool. */
    method FindFree() returns (fake: Option<int>, ghost offset: int)
      requires InPool(next)
      ensures fake.Some? ==> 0 <= offset < POOL && fake.value == Candidate(next, offset) && fake.value !in used
      ensures fake.Some? ==> forall k :: 0 <= k < offset ==> Candidate(next, k) in used
      ensures fake.None? ==> forall f :: InPool(f) ==> f in used
    {
      var k := 0;
      while k < POOL
        invariant 0 <= k <= POOL
        invariant forall j :: 0 <= j < k ==> Candidate(next, j) in used
      {
        if Candidate(next, k) !in used {
          return Some(Candidate(next, k)), k;
        }
        k := k + 1;
      }
      forall f | InPool(f)
        ensures f in used
      {
        CandidateCovers(next, f);
      }
      return None, 0;
    }

    /** The renewal branch of `allocate`: a later expiry is written, an earlier one is ignored. */
    method Renew(key: LeaseKey, expires: int) returns (ok: bool)
      requires Stored() && key in leases
      modifies `leases, `rows, `faults
      ensures Stored() && key in leases && leases[key].mapping == old(leases)[key].mapping
      ensures !ok ==> leases == old(leases) && rows == old(rows)
      ensures Extends(old(rows), rows, {})
      ensures ok ==> leases[key].expires >= expires
      ensures ok ==> leases[key].expires == Later(old(leases)[key].expires, expires)
      ensures |leases| == |old(leases)|
      ensures if ok then faults == old(faults) else faults > old(faults)
    {
      var lease := leases[key];
      assert HasRow(leases, rows, key);
      ok := true;
      if expires > lease.expires {
        ok := Try();
        if ok {
          AgreeRenew(leases, used, rows, key, expires);
          rows := rows[lease.mapping.fake := rows[lease.mapping.fake].(expires := expires)];
          leases := leases[key := Renewed(lease, expires)];
        }
      }
    }

    /** The insertion branch of `allocate`: the pointer moves on even when the insert then fails. */
    method Insert(key: LeaseKey, target: RouteTarget, expires: int) returns (r: Allocation)
      requires Stored() && key !in leases
      modifies `leases, `used, `next, `rows, `faults
      ensures Stored() && !(r.Allocated? && !r.isNew)
      ensures !r.Allocated? ==> leases == old(leases) && used == old(used) && rows == old(rows)
      ensures r.PoolExhausted? ==> maxLeases > |old(leases)| >= POOL
      ensures if r.DatabaseFailed? then faults > old(faults) else faults == old(faults)
      ensures |leases| <= |old(leases)| + 1
      ensures r.LimitReached? <==> |old(leases)| >= maxLeases
      ensures r.Allocated? ==> NewLease(old(rows), rows, key, r.mapping, target, expires)
      ensures r.Allocated? ==> next == if r.mapping.fake == LAST_FAKE then FIRST_FAKE else r.mapping.fake + 1
    {
      if |leases| >= maxLeases {
        return LimitReached;
      }
      ghost var offset;
      var fake: Option<int>;
      fake, offset := FindFree();
      if fake.None? {
        LeaseCount(leases, used, rows);
        if |used| < POOL {
          FreeAddressExists(used);
        }
        return PoolExhausted;
      }
      next := if fake.value == LAST_FAKE then FIRST_FAKE else fake.value + 1;
      var mapping := FakeMapping(fake.value, key.realIp, target);
      var inserted := Try();
      if !inserted {
        return DatabaseFailed;
      }
      AgreeInsert(leases, used, rows, key, Lease(mapping, expires));
      rows := rows[fake.value := RowOf(key, Lease(mapping, expires))];
      used := used + {fake.value};
      leases := leases[key := Lease(mapping, expires)];
      r := Allocated(mapping, true);
    }

    /** `allocate`: renews a lease or takes the next free address; a failure keeps all leases. */
    method Allocate(domain: string, realIp: int, target: RouteTarget, ttl: int, now: int) returns (r: Allocation)
      requires Stored()
      modifies `leases, `used, `next, `rows, `faults
      ensures Stored()
      ensures !r.Allocated? ==> leases == old(leases) && used == old(used) && rows == old(rows)
      ensures r.PoolExhausted? ==> maxLeases > |old(leases)| >= POOL && LeaseKey(domain, realIp) !in leases
      ensures r.LimitReached? ==> |old(leases)| >= maxLeases && LeaseKey(domain, realIp) !in leases
      ensures if r.DatabaseFailed? then faults > old(faults) else faults == old(faults)
      ensures |leases| <= |old(leases)| + 1
      ensures r.Allocated? ==> r.isNew == (LeaseKey(domain, realIp) !in old(leases))
      ensures r.Allocated? ==> LeasedTo(rows, r.mapping, LeaseKey(domain, realIp), Expiry(now, ttl))
      ensures r.Allocated? && !r.isNew ==>
        && r.mapping == old(leases)[LeaseKey(domain, realIp)].mapping && Extends(old(rows), rows, {})
        && rows[r.mapping.fake].expires == Later(old(leases)[LeaseKey(domain, realIp)].expires, Expiry(now, ttl))
      ensures r.Allocated? && r.isNew ==>
        |old(leases)| < maxLeases
          && NewLease(old(rows), rows, LeaseKey(domain, realIp), r.mapping, target, Expiry(now, ttl))
    {
      var key := LeaseKey(domain, realIp);
      var expires := Expiry(now, ttl);
      if key in leases {
        assert HasRow(leases, rows, key);
        var renewed := Renew(key, expires);
        assert HasRow(leases, rows, key);
        r := if renewed then Allocated(leases[key].mapping, false) else DatabaseFailed;
      } else {
        r := Insert(key, target, expires);
      }
    }

    /** `remove_mappings` of the store: one transaction, then memory. */
    method RemoveStored(mappings: seq<FakeMapping>) returns (ok: bool)
      requires Stored()
      modifies `leases, `used, `rows, `faults
      ensures Stored()
      ensures rows == if ok then old(rows) - Fakes(mappings) else old(rows)
      ensures leases == if ok then LeasesWithout(old(leases), Fakes(mappings)) else old(leases)
      ensures faults == if ok then old(faults) else old(faults) + 1
      ensures used == if ok then old(used) - Fakes(mappings) else old(used)
    {
      ok := Try();
      if ok {
        AgreeRemove(leases, used, rows, Fakes(mappings));
        rows := rows - Fakes(mappings);
        used := used - Fakes(mappings);
        leases := LeasesWithout(leases, Fakes(mappings));
      }
    }

    /** `commit_targets`: one transaction, then memory. */
    method CommitTargets(classify: Classifier) returns (ok: bool)
      requires Stored()
      modifies `leases, `rows, `faults
      ensures Stored()
      ensures rows == if ok then RowsRetargeted(old(rows), classify) else old(rows)
      ensures faults == if ok then old(faults) else old(faults) + 1
      ensures leases == if ok then Retargeted(old(leases), classify) else old(leases)
    {
      ok := Try();
      if ok {
        AgreeRetarget(leases, used, rows, classify);
        rows := RowsRetargeted(rows, classify);
        leases := Retargeted(leases, classify);
      }
    }

    // ----- listings -----

    /** `reclassified`: every lease with the target a policy gives it. */
    method Reclassified(classify: Classifier) returns (mappings: seq<FakeMapping>)
      requires Stored()
      ensures ListsAll(mappings, leases, rows, classify)
    {
      mappings := [];
      ghost var keys: seq<LeaseKey> := [];
      var remaining := leases.Keys;
      while |remaining| > 0
        invariant ListsKeys(mappings, keys, leases) && remaining <= leases.Keys
        invariant forall key :: key in keys <==> key in leases && key !in remaining
        invariant forall i :: 0 <= i < |keys| ==> mappings[i] == Reclassify(keys[i], leases[keys[i]], classify)
      {
        var key :| key in remaining;
        ListOneMore(mappings, keys, leases, key, Reclassify(key, leases[key], classify));
        mappings := mappings + [Reclassify(key, leases[key], classify)];
        keys := keys + [key];
        remaining := remaining - {key};
      }
      ListedKeysLeased(mappings, keys, leases, used, rows);
      AllListed(mappings, keys, leases, used, rows);
      forall i | 0 <= i < |mappings|
        ensures mappings[i].target == classify(rows[mappings[i].fake].domain, mappings[i].realIp)
      {
        assert HasRow(leases, rows, keys[i]);
      }
    }

    /** `expired_at`: the leases past their grace period. */
    method ExpiredAt(now: int) returns (mappings: seq<FakeMapping>)
      requires Stored()
      ensures Leased(mappings, rows)
      ensures forall i :: 0 <= i < |mappings| ==> mappings[i].target == rows[mappings[i].fake].target
      ensures forall fake :: fake in Fakes(mappings) <==> fake in rows && rows[fake].expires <= now - GRACE
    {
      mappings := [];
      ghost var keys: seq<LeaseKey> := [];
      var remaining := leases.Keys;
      while |remaining| > 0
        invariant ListsKeys(mappings, keys, leases) && remaining <= leases.Keys
        invariant forall key ::
          key in keys <==> key in leases && key !in remaining && leases[key].expires <= now - GRACE
        invariant forall i :: 0 <= i < |keys| ==> mappings[i] == leases[keys[i]].mapping
      {
        var key :| key in remaining;
        if leases[key].expires <= now - GRACE {
          ListOneMore(mappings, keys, leases, key, leases[key].mapping);
          mappings := mappings + [leases[key].mapping];
          keys := keys + [key];
        }
        remaining := remaining - {key};
      }
      ListedKeysLeased(mappings, keys, leases, used, rows);
      ListedFakes(mappings, keys, leases, used, rows);
      forall i | 0 <= i < |mappings|
        ensures mappings[i].target == rows[mappings[i].fake].target
      {
        assert HasRow(leases, rows, keys[i]);
      }
      forall fake | fake in rows
        ensures KeyOf(rows[fake]) in leases && leases[KeyOf(rows[fake])].expires == rows[fake].expires
      {
        assert HasLease(leases, rows, fake);
        assert HasRow(leases, rows, KeyOf(rows[fake]));
      }
    }

    // ----- kernel scripts: one transaction each -----

    /** `install_mappings`: an address already mapped elsewhere makes the script fail; no mappings, no script. */
    method InstallMappings(mappings: seq<FakeMapping>) returns (ok: bool)
      modifies `kernel, `faults
      ensures kernel == if ok then AddAll(old(kernel), mappings) else old(kernel)
      ensures mappings == [] ==> ok
      ensures faults >= old(faults) && (faults == old(faults) && Compatible(old(kernel), mappings) ==> ok)
    {
      ok := true;
      if mappings != [] {
        ok := Try();
        ok := ok && Compatible(kernel, mappings);
      }
      if ok {
        kernel := AddAll(kernel, mappings);
      }
    }

    /** `remove_mappings` of the dataplane: a missing element makes the script fail. */
    method UninstallMappings(mappings: seq<FakeMapping>) returns (ok: bool)
      modifies `kernel, `faults
      ensures kernel == if ok then RemoveAll(old(kernel), mappings) else old(kernel)
      ensures ok ==> Present(old(kernel), mappings)
      ensures faults >= old(faults) && (faults == old(faults) && Present(old(kernel), mappings) ==> ok)
    {
      ok := Try();
      ok := ok && Present(kernel, mappings);
      if ok {
        kernel := RemoveAll(kernel, mappings);
      }
    }

    // ----- policies -----

    /** A new ruleset with the mappings just listed replaces whatever the kernel had. */
    method Install(mappings: seq<FakeMapping>, ghost classify: Classifier)
      requires Stored() && ListsAll(mappings, leases, rows, classify)
      modifies `kernel
      ensures kernel == AddAll(EMPTY_KERNEL, mappings) && Synced() && KernelClassified(kernel, rows, classify)
    {
      kernel := AddAll(EMPTY_KERNEL, mappings);
      AppliedKernel(mappings, leases, rows, classify);
    }

    /** The kernel half of `apply_policy`: the whole ruleset is replaced. */
    method RenderPolicy(classify: Classifier) returns (ok: bool)
      requires Stored()
      modifies `kernel, `faults
      ensures !ok ==> kernel == old(kernel)
      ensures faults == if ok then old(faults) else old(faults) + 1
      ensures ok ==> Synced() && KernelClassified(kernel, rows, classify)
    {
      var mappings := Reclassified(classify);
      ok := Try();
      if ok {
        Install(mappings, classify);
      }
    }

    /** `apply_policy`: the kernel first, then the targets in the store. */
    method ApplyPolicy(classify: Classifier) returns (rendered: bool, ok: bool)
      requires Stored()
      modifies `leases, `rows, `kernel, `faults
      ensures Stored() && used == old(used)
      ensures if ok then faults == old(faults) else faults > old(faults)
      ensures !rendered ==> !ok && kernel == old(kernel)
      ensures !ok ==> leases == old(leases) && rows == old(rows)
      ensures rendered ==> Synced() && KernelClassified(kernel, rows, classify)
      ensures ok ==> rendered && Classified(classify) && rows == RowsRetargeted(old(rows), classify)
    {
      rendered := RenderPolicy(classify);
      ok := false;
      if rendered {
        RetargetKeeps(kernel, rows, classify);
        ok := CommitTargets(classify);
      }
    }

    // ----- purging -----

    /** `purge_expired`: the kernel lets go first, and takes the mappings back if the store keeps them. */
    method PurgeExpired(now: int, ghost classify: Classifier) returns (ok: bool, doubleFailure: bool)
      requires Stored()
      modifies `leases, `used, `rows, `kernel, `faults
      ensures Stored()
      ensures old(Mapped()) ==> Mapped()
      ensures old(Synced()) && !doubleFailure ==> Synced()
      ensures old(Mapped()) && old(Classified(classify)) ==> Classified(classify)
      ensures faults >= old(faults)
      ensures faults == old(faults) && old(Synced()) && old(Classified(classify)) ==> ok
      ensures ok ==> !doubleFailure && rows == Kept(old(rows), now)
      ensures forall fake :: fake in rows ==> fake in old(rows) && rows[fake] == old(rows)[fake]
      ensures !ok ==> rows == old(rows) && leases == old(leases)
      ensures !ok && !doubleFailure && old(Mapped()) ==> kernel == old(kernel)
    {
      doubleFailure := false;
      var expired := ExpiredAt(now);
      if expired == [] {
        NotExpired(rows, {}, now);
        assert rows - {} == rows;
        return true, false;
      }
      if Synced() && Classified(classify) {
        LeasedPresent(kernel, rows, expired, classify);
      }
      ok := UninstallMappings(expired);
      if !ok {
        return;
      }
      Uninstalled(old(kernel), rows, expired);
      UninstalledClassified(old(kernel), rows, expired, classify);
      ok := RemoveStored(expired);
      if ok {
        NotExpired(old(rows), Fakes(expired), now);
        StillWithin(kernel, old(rows), Fakes(expired));
      } else {
        var restored := InstallMappings(expired);
        doubleFailure := !restored;
      }
    }

    // ----- answers -----

    /** One answer: a fake address in place of a real one outside the LAN, everything else as it was. */
    method RewriteOne(record: Record, domain: string, names: set<string>, lan: LanContext,
      classify: Classifier, now: int,
      before: seq<FakeMapping>, ghost start: RowMap)
      returns (ok: bool, after: Record, added: seq<FakeMapping>)
      requires Stored() && Batch(start, rows, before, classify)
      modifies `leases, `used, `next, `rows, `faults
      ensures Stored() && Batch(start, rows, added, classify) && Grown(old(rows), rows)
      ensures faults >= old(faults) && |leases| <= |old(leases)| + 1
      ensures faults == old(faults) && !ok ==> |old(leases)| >= Capacity()
      ensures ok ==> RewrittenTo(record, after, domain, names, lan, now, rows)
    {
      added := before;
      after := record;
      if Rewritable(record, names, lan) {
        var r := Allocate(domain, record.ip, classify(domain, record.ip), record.ttl, now);
        if !r.Allocated? {
          SameGrown(rows);
          return false, after, added;
        }
        if r.isNew {
          AddedOne(start, old(rows), rows, added, r.mapping, classify);
          added := added + [r.mapping];
        } else {
          SameAdded(start, old(rows), rows, added, classify);
        }
        after := Address(record.name, Clamp(record.ttl), r.mapping.fake);
      } else {
        SameGrown(rows);
      }
      ok := true;
    }

    /** One record of a section, in place. */
    method RewriteAt(records: array<Record>, i: nat, domain: string, names: set<string>, lan: LanContext,
      classify: Classifier, now: int,
      before: seq<FakeMapping>, seen: bool, ghost start: RowMap, ghost was: seq<Record>)
      returns (ok: bool, rewritten: bool, added: seq<FakeMapping>)
      requires Stored() && Batch(start, rows, before, classify)
      requires i < records.Length && HalfRewritten(was, records[..], i, domain, names, lan, now, rows)
      requires seen <==> AnyRewritable(was, i, names, lan)
      modifies `leases, `used, `next, `rows, `faults, records
      ensures Stored() && Batch(start, rows, added, classify) && Grown(old(rows), rows)
      ensures ok ==> HalfRewritten(was, records[..], i + 1, domain, names, lan, now, rows)
      ensures i < |was| && (rewritten <==> AnyRewritable(was, i + 1, names, lan))
      ensures faults >= old(faults) && |leases| <= |old(leases)| + 1
      ensures faults == old(faults) && !ok ==> |old(leases)| >= Capacity()
    {
      ghost var given := records[..];
      assert given[i] == given[i..][0] == was[i..][0];
      AnyOneMore(was, i, names, lan);
      rewritten := seen || Rewritable(records[i], names, lan);
      var after;
      ok, after, added := RewriteOne(records[i], domain, names, lan, classify, now, before, start);
      if ok {
        StillRewritten(was, given, i, domain, names, lan, now, old(rows), rows);
        records[i] := after;
        OneMoreRewritten(was, given, records[..], i, domain, names, lan, now, rows);
      }
    }

    /**
     * The free `rewrite_records`: every answer for one of `names` outside the LAN gets a fake address of
     * (domain, real). What was allocated on the way is added to the list, also when a later one fails.
     */
    method RewriteSection(records: array<Record>, domain: string, names: set<string>, lan: LanContext,
      classify: Classifier, now: int,
      before: seq<FakeMapping>, ghost start: RowMap)
      returns (ok: bool, rewritten: bool, added: seq<FakeMapping>)
      requires Stored() && Batch(start, rows, before, classify)
      modifies `leases, `used, `next, `rows, `faults, records
      ensures Stored() && Batch(start, rows, added, classify) && Grown(old(rows), rows)
      ensures ok ==> AllRewritten(old(records[..]), records[..], records.Length, domain, names, lan, now, rows)
      ensures faults >= old(faults) && |leases| <= |old(leases)| + records.Length
      ensures faults == old(faults) && !ok ==> |old(leases)| + records.Length > Capacity()
      ensures ok ==> (rewritten <==> AnyRewritable(old(records[..]), records.Length, names, lan))
    {
      ghost var was, count := records[..], |leases|;
      added := before;
      rewritten := false;
      ok := true;
      SameGrown(rows);
      for i := 0 to records.Length
        invariant ok && Stored() && Batch(start, rows, added, classify) && Grown(old(rows), rows)
        invariant HalfRewritten(was, records[..], i, domain, names, lan, now, rows)
        invariant rewritten <==> AnyRewritable(was, i, names, lan)
        invariant faults >= old(faults) && |leases| <= count + i
      {
        ghost var rows0 := rows;
        ok, rewritten, added := RewriteAt(records, i, domain, names, lan, classify, now, added, rewritten, start, was);
        GrownBoth(old(rows), rows0, rows);
        if !ok {
          return;
        }
      }
    }

    /** Both sections of a response; the answers decide which names are relevant. */
    method RewriteBoth(answers: array<Record>, additionals: array<Record>, domain: string, lan: LanContext,
      classify: Classifier, now: int)
      returns (ok: bool, rewritten: bool, added: seq<FakeMapping>, names: set<string>)
      requires Stored() && answers != additionals
      modifies `leases, `used, `next, `rows, `faults, answers, additionals
      ensures Stored() && Batch(old(rows), rows, added, classify)
      ensures ok ==>
        RewrittenBy(old(answers[..]), answers[..], old(additionals[..]), additionals[..], domain, names, lan, now, rows)
      ensures faults >= old(faults)
      ensures faults == old(faults) && old(Room(answers.Length + additionals.Length)) ==> ok
      ensures ok ==> (rewritten <==> AnyRewritable(old(answers[..]), answers.Length, names, lan)
                                     || AnyRewritable(old(additionals[..]), additionals.Length, names, lan))
    {
      ghost var start := rows;
      ghost var asked := answers[..];
      names := RelevantNames(answers[..], domain);
      EmptyBatch(rows, classify);
      ok, rewritten, added := RewriteSection(answers, domain, names, lan, classify, now, [], start);
      if ok {
        ghost var rows0 := rows;
        var more;
        ok, more, added := RewriteSection(additionals, domain, names, lan, classify, now, added, start);
        rewritten := rewritten || more;
        StillRewritten(asked, answers[..], answers.Length, domain, names, lan, now, rows0, rows);
      }
    }

    /**
     * `FakeDns::rewrite_records`: the new mappings enter the kernel only when both sections are done; otherwise the
     * store gives them up again.
     */
    method Rewrite(answers: array<Record>, additionals: array<Record>, domain: string, lan: LanContext,
      classify: Classifier, now: int)
      returns (ok: bool, rewritten: bool, doubleFailure: bool, names: set<string>)
      requires Stored() && answers != additionals
      modifies `leases, `used, `next, `rows, `kernel, `faults, answers, additionals
      ensures Stored()
      ensures old(Mapped()) ==> Mapped()
      ensures old(Synced()) && !doubleFailure ==> Synced()
      ensures old(Mapped()) && old(Classified(classify)) ==> Classified(classify)
      ensures Grown(old(rows), rows)
      ensures faults >= old(faults)
      ensures faults == old(faults) && old(Mapped()) && old(Room(answers.Length + additionals.Length)) ==> ok
      ensures ok ==> (rewritten <==> AnyRewritable(old(answers[..]), answers.Length, names, lan)
                                     || AnyRewritable(old(additionals[..]), additionals.Length, names, lan))
      ensures ok ==> !doubleFailure
      ensures ok ==>
        RewrittenBy(old(answers[..]), answers[..], old(additionals[..]), additionals[..], domain, names, lan, now, rows)
      ensures !ok ==> kernel == old(kernel) && (!doubleFailure ==> Extends(old(rows), rows, {}))
    {
      ghost var start := rows;
      doubleFailure := false;
      var added;
      ok, rewritten, added, names := RewriteBoth(answers, additionals, domain, lan, classify, now);
      BatchEffect(kernel, start, rows, added, classify);
      if ok {
        BatchIsCompatible(kernel, start, rows, added, classify);
        ok := InstallMappings(added);
      }
      if !ok && added != [] {
        var removed := RemoveStored(added);
        doubleFailure := !removed;
      }
    }

    /**
     * Any run of responses, purges and policy applications, whatever fails in it. Answers use the policy in force,
     * `current`: the last one that was applied completely and adopted. `torn` tells that another one reached the
     * kernel since; unless torn, memory, database and kernel hold the targets of the policy in force. `split` tells
     * that a rollback failed since a policy was rendered; unless split, the kernel maps every lease.
     */
    method Run(steps: seq<Step>, policy: Classifier)
      returns (current: Classifier, applied: bool, rendered: bool, torn: bool, split: bool)
      requires Stored()
      modifies this
      ensures Stored()
      ensures old(Mapped()) || rendered ==> Mapped()
      ensures (old(Synced()) || rendered) && !split ==> Synced()
      ensures ((old(Mapped()) && old(Classified(policy))) || applied) && !torn ==> Mapped() && Classified(current)
      ensures if applied then Apply(current, true) in steps else current == policy
      ensures applied ==> rendered
    {
      current, applied, rendered, torn, split := policy, false, false, false, false;
      for i := 0 to |steps|
        invariant Stored()
        invariant old(Mapped()) || rendered ==> Mapped()
        invariant (old(Synced()) || rendered) && !split ==> Synced()
        invariant ((old(Mapped()) && old(Classified(policy))) || applied) && !torn ==> Mapped() && Classified(current)
        invariant if applied then Apply(current, true) in steps else current == policy
        invariant applied ==> rendered
      {
        var failedTwice := false;
        match steps[i] {
          case Answer(answers, additionals, domain, lan, now) =>
            var first := new Record[|answers|](k requires 0 <= k < |answers| => answers[k]);
            var second := new Record[|additionals|](k requires 0 <= k < |additionals| => additionals[k]);
            var ok, rewritten, twice, names := Rewrite(first, second, domain, lan, current, now);
            failedTwice := twice;
          case Purge(now) =>
            var ok, twice := PurgeExpired(now, current);
            failedTwice := twice;
          case Apply(classify, adopted) =>
            var replaced, ok := ApplyPolicy(classify);
            if ok && adopted {
              assert steps[i] in steps;
              current, applied, torn := classify, true, false;
            } else if replaced {
              torn := true;
            }
            rendered, split := rendered || replaced, split && !replaced;
        }
        split := split || failedTwice;
      }
    }
  }

  /** Opening deletes what is too old, and refuses a table with an address outside the pool. */
  method Open(saved: RowMap, now: int, limit: nat, left: Kernel) returns (store: Store?)
    requires UniquePairs(saved)
    ensures store == null <==> exists fake :: fake in Kept(saved, now) && !InPool(fake)
    ensures store != null ==> fresh(store) && store.Stored() && store.rows == Kept(saved, now) && store.kernel == left
    ensures store != null ==> (store.Mapped() <==> Within(left, Kept(saved, now)) && Partitioned(left))
  {
    var found := new Store(saved, limit, left);
    var ok := found.OpenRows(now);
    store := if ok then found else null;
  }

  /**
   * A policy that was applied and not adopted: a lease of before has the target of the new policy, a lease of
   * after that of the old one, and neither policy classifies the rows.
   */
  lemma AppliedNotAdopted(rows: RowMap, after: RowMap, old': Classifier, next: Classifier, before: int,
    key: LeaseKey, mapping: FakeMapping, expires: int)
    requires before in rows && RowsClassified(rows, old')
    requires old'(rows[before].domain, rows[before].realIp) != next(rows[before].domain, rows[before].realIp)
    requires old'(key.domain, key.realIp) != next(key.domain, key.realIp)
    requires NewLease(RowsRetargeted(rows, next), after, key, mapping, old'(key.domain, key.realIp), expires)
    ensures RowsClassified(RowsRetargeted(rows, next), next)
    ensures !RowsClassified(after, old') && !RowsClassified(after, next)
  {
    var mid := RowsRetargeted(rows, next);
    assert SameLease(mid[before], after[before]);
    assert after[before].target != old'(after[before].domain, after[before].realIp);
    assert after[mapping.fake].target != next(after[mapping.fake].domain, after[mapping.fake].realIp);
  }

  /**
   * One such run: everything goes direct, a change to the tunnel reaches kernel and rows and is not adopted,
   * and a name is asked.
   */
  lemma AppliedNotAdoptedExists()
    ensures var direct: Classifier, vpn: Classifier := (_, _) => Direct, (_, _) => Vpn;
      var rows := map[FIRST_FAKE := Row("a.example", 0x0101_0101, Direct, 900)];
      var mapping := FakeMapping(FIRST_FAKE + 1, 0x0101_0102, Direct);
      var after := RowsRetargeted(rows, vpn)[mapping.fake := Row("b.example", 0x0101_0102, Direct, 900)];
      && RowsClassified(rows, direct) && RowsClassified(RowsRetargeted(rows, vpn), vpn)
      && NewLease(RowsRetargeted(rows, vpn), after, LeaseKey("b.example", 0x0101_0102), mapping, Direct, 900)
      && !RowsClassified(after, direct) && !RowsClassified(after, vpn)
  {
    var direct: Classifier, vpn: Classifier := (_, _) => Direct, (_, _) => Vpn;
    var rows := map[FIRST_FAKE := Row("a.example", 0x0101_0101, Direct, 900)];
    var mapping := FakeMapping(FIRST_FAKE + 1, 0x0101_0102, Direct);
    var key := LeaseKey("b.example", 0x0101_0102);
    var after := RowsRetargeted(rows, vpn)[mapping.fake := Row("b.example", 0x0101_0102, Direct, 900)];
    assert rows[FIRST_FAKE].target == Direct;
    AppliedNotAdopted(rows, after, direct, vpn, FIRST_FAKE, key, mapping, 900);
  }
}
