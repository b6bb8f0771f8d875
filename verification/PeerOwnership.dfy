/** The server's peers in three places: the live interface, its saved configuration and the metadata file. */
module PeerOwnership {
  import opened Ipv4
  import opened Peers
  import Servers

  /** A metadata write fails before the rename, or after it. */
  datatype WriteResult = Written | Unpublished | Published

  datatype Result = Done | Refused | StoreFailed | RolledBack | RollbackFailed

  datatype Operation =
    | CreateFriend(key: Key, privateKey: string, name: string)
    | RenameFriend(key: Key, name: string)
    | RevokeFriend(key: Key)
    | AddOwner(key: Key, address: Route, prepared: bool)
    | RemoveOwner(key: Key)
    | Authorize(prepared: bool)
    | AddPlain(key: Key, address: Route)
    | RemovePlain(key: Key)
    | Restart

  /** The routes `add_router_peer` gives an owner: its address, and the WARP alias once WARP is prepared. */
  function OwnerRoutes(address: Route, prepared: bool): (routes: seq<Route>)
    requires IsTunnelRoute(address)
    ensures forall j :: 0 <= j < |routes| ==> routes[j].V4?
  {
    [address] + if prepared then [AliasOf(address)] else []
  }

  /** Some host of the tunnel is left. */
  ghost predicate HasFreeHost(peers: PeerMap) {
    exists host :: IsTunnelAddress(host) && !Taken(peers, host)
  }

  /** There is an active owner, and every one has a plan. */
  ghost predicate Authorisable(peers: PeerMap, owners: seq<Key>) {
    && (exists k :: k in peers && k in owners)
    && (forall k :: k in peers && k in owners ==> Plannable(peers, k))
  }

  /** An active owner whose routes cannot be planned. */
  ghost predicate BadOwner(peers: PeerMap, owners: seq<Key>, key: Key) {
    key in peers && key in owners && !Plannable(peers, key)
  }

  /** An active owner with a plan. */
  ghost predicate PlanFor(peers: PeerMap, owners: seq<Key>, key: Key) {
    key in peers && key in owners && Plannable(peers, key)
  }

  ghost predicate AllPlanned(peers: PeerMap, owners: seq<Key>, keys: seq<Key>) {
    forall k :: k in keys ==> PlanFor(peers, owners, k)
  }

  lemma PlanOf(peers: PeerMap, owners: seq<Key>, keys: seq<Key>, i: nat)
    requires AllPlanned(peers, owners, keys) && i < |keys|
    ensures PlanFor(peers, owners, keys[i])
  {
    assert keys[i] in keys;
  }

  /** The aliases of some owners have been added to the starting peers, and nothing else has changed. */
  ghost predicate Aliased(start: PeerMap, done: set<Key>, now: PeerMap, owners: seq<Key>) {
    Exclusive(start) && now == WithAliases(start, done) && forall k :: k in done ==> PlanFor(start, owners, k)
  }

  lemma NoAliases(start: PeerMap, owners: seq<Key>)
    requires Exclusive(start)
    ensures Aliased(start, {}, start, owners)
  {
  }

  lemma OneMoreOwner(start: PeerMap, done: set<Key>, now: PeerMap, key: Key, owners: seq<Key>)
    requires Aliased(start, done, now, owners) && PlanFor(start, owners, key)
    ensures Aliased(start, done + {key}, SetPeer(now, key, OwnerPlan(start[key]).value), owners)
  {
    OneMoreAlias(start, done, key);
  }

  lemma AliasesAreNotBroader(start: PeerMap, done: set<Key>, now: PeerMap, owners: seq<Key>)
    requires Aliased(start, done, now, owners)
    ensures NeverBroader(start, now, owners)
  {
  }

  function ActiveOwners(peers: PeerMap, owners: seq<Key>): set<Key> {
    set k | k in peers && k in owners
  }

  lemma WholePlan(peers: PeerMap, owners: seq<Key>, keys: seq<Key>)
    requires forall k :: k in keys <==> k in peers && k in owners
    ensures KeySet(keys) == ActiveOwners(peers, owners)
  {
  }

  // ----- states between two commands -----

  /** `enrolled` are the keys that were given to WireGuard as router owners and not withdrawn again. */
  datatype State = State(live: PeerMap, saved: PeerMap, metadata: Metadata, enrolled: set<Key>)

  /** No enrolled owner is reachable without being known as an owner. */
  ghost predicate Known(enrolled: set<Key>, peers: PeerMap, owners: seq<Key>) {
    forall k :: k in enrolled && k in peers ==> k in owners
  }

  /** Now and after a reboot enrolled owners are known, and every allowed IP belongs to one peer. */
  ghost predicate Consistent(s: State) {
    && Readable(s.metadata)
    && Known(s.enrolled, s.live, s.metadata.owners) && Known(s.enrolled, s.saved, s.metadata.owners)
    && Exclusive(s.live) && Exclusive(s.saved)
  }

  class Server {
    var live: PeerMap
    var saved: PeerMap
    var metadata: Metadata
    const fold: string -> string
    const format: int -> string
    ghost var enrolled: set<Key>
    // How many commands and writes have failed.
    ghost var faults: nat
    // Every state that a command left behind, in order.
    ghost var trace: seq<State>

    /** A command, which succeeds or fails. */
    method Try() returns (ok: bool)
      modifies `faults
      ensures faults == if ok then old(faults) else old(faults) + 1
    {
      ok := *;
      if !ok {
        faults := faults + 1;
      }
    }

    ghost function Here(): State
      reads this
    {
      State(live, saved, metadata, enrolled)
    }

    /** Holds between two commands, and held between all earlier ones. */
    ghost predicate Stable()
      reads this
    {
      Consistent(Here()) && forall i :: 0 <= i < |trace| ==> Consistent(trace[i])
    }

    /** Holds between operations. */
    ghost predicate Inv()
      reads this
    {
      Stable() && forall k :: k in enrolled ==> k in metadata.owners
    }

    /** A configuration without peers, written by the current software. */
    constructor (fold: string -> string, format: int -> string)
      ensures Inv() && live == map[] && metadata == Metadata([], [])
    {
      this.fold := fold;
      this.format := format;
      live := map[];
      saved := map[];
      metadata := Metadata([], []);
      enrolled := {};
      faults := 0;
      trace := [];
    }

    /**
     * A crash after any command, and a reboot: the saved configuration comes up. A key whose owner entry was taken
     * back before WireGuard kept it is no longer enrolled.
     */
    constructor Recovered(left: State, fold: string -> string, format: int -> string)
      requires Consistent(left)
      ensures Inv() && live == saved == left.saved && metadata == left.metadata
      ensures enrolled == set k | k in left.enrolled && k in left.metadata.owners
      ensures forall k :: k in left.enrolled && k in live ==> Kind(k).Owner? && k in enrolled
    {
      this.fold := fold;
      this.format := format;
      live := left.saved;
      saved := left.saved;
      metadata := left.metadata;
      enrolled := set k | k in left.enrolled && k in left.metadata.owners;
      faults := 0;
      trace := [];
    }

    // ----- commands -----

    /** `wg set`; a failed command may have taken effect. */
    method WgSet(key: Key, routes: seq<Route>) returns (ok: bool, ghost effective: bool)
      requires Stable() && (key in enrolled ==> key in metadata.owners)
      modifies `live, `faults, `trace
      ensures Stable() && old(trace) <= trace
      ensures faults == if ok then old(faults) else old(faults) + 1
      ensures live == (if effective then SetPeer(old(live), key, routes) else old(live)) && (ok ==> effective)
    {
      SetKeepsExclusive(live, key, routes);
      ok := Try();
      var happened: bool := *;
      effective := ok || happened;
      if ok || happened {
        live := SetPeer(live, key, routes);
      }
      trace := trace + [Here()];
    }

    method WgRemove(key: Key) returns (ok: bool)
      requires Stable()
      modifies `live, `faults, `trace
      ensures Stable() && old(trace) <= trace
      ensures faults == if ok then old(faults) else old(faults) + 1
      ensures live == old(live) - {key} || (!ok && live == old(live))
    {
      ok := Try();
      var effective: bool := *;
      if ok || effective {
        live := live - {key};
      }
      trace := trace + [Here()];
    }

    /** `wg setconf`; a failed command may have applied any part. */
    method SetConf(conf: PeerMap) returns (ok: bool)
      requires Stable() && Known(enrolled, conf, metadata.owners) && Exclusive(conf)
      modifies `live, `faults, `trace
      ensures Stable() && old(trace) <= trace
      ensures faults == if ok then old(faults) else old(faults) + 1
      ensures ok ==> live == conf
      ensures Mixture(live, old(live), conf)
    {
      ok := Try();
      if ok {
        live := conf;
      } else {
        var kept: set<Key>, applied: set<Key> := *, *;
        HalfAppliedMixes(live, kept, conf, applied);
        live := HalfApplied(live, kept, conf, applied);
      }
      trace := trace + [Here()];
    }

    method SaveConf() returns (ok: bool)
      requires Stable()
      modifies `saved, `faults, `trace
      ensures Stable() && old(trace) <= trace
      ensures faults == if ok then old(faults) else old(faults) + 1
      ensures saved == live || (!ok && saved == old(saved))
    {
      ok := Try();
      var effective: bool := *;
      if ok || effective {
        saved := live;
      }
      trace := trace + [Here()];
    }

    method WriteStore(next: Metadata) returns (r: WriteResult)
      requires Stable() && Readable(next) && Known(enrolled, live, next.owners) && Known(enrolled, saved, next.owners)
      modifies `metadata, `faults, `trace
      ensures Stable() && old(trace) <= trace
      ensures faults == if r.Written? then old(faults) else old(faults) + 1
      ensures metadata == if r.Unpublished? then old(metadata) else next
    {
      var ok := Try();
      r := Written;
      if !ok {
        var renamed: bool := *;
        r := if renamed then Published else Unpublished;
      }
      if !r.Unpublished? {
        metadata := next;
      }
      trace := trace + [Here()];
    }

    // ----- queries -----

    /** `allocate_tunnel_ip`: the least host that no assigned network contains. */
    method AllocateTunnelIp() returns (ip: Option<int>)
      ensures ip.Some? ==> IsTunnelAddress(ip.value) && !Taken(live, ip.value)
      ensures ip.Some? ==> forall lower :: FIRST_HOST <= lower < ip.value ==> Taken(live, lower)
      ensures ip.None? ==> forall host :: IsTunnelAddress(host) ==> Taken(live, host)
    {
      for candidate := FIRST_HOST to LAST_HOST + 1
        invariant forall lower :: FIRST_HOST <= lower < candidate ==> Taken(live, lower)
      {
        if !Taken(live, candidate) {
          return Some(candidate);
        }
      }
      ip := None;
    }

    /** `routes_conflict`, peer by peer. */
    method RoutesConflict(key: Key, routes: seq<Route>) returns (conflict: bool)
      ensures conflict <==> Conflict(live, key, routes)
    {
      var remaining := live.Keys;
      while |remaining| > 0
        invariant remaining <= live.Keys
        invariant forall other :: other in live && other !in remaining && other != key ==>
          !RoutesClash(live[other], routes)
      {
        var other :| other in remaining;
        if other != key && RoutesClash(live[other], routes) {
          return true;
        }
        remaining := remaining - {other};
      }
      conflict := false;
    }

    function Kind(key: Key): PeerKind
      requires key in live
      reads `live, `metadata
    {
      Classify(metadata.owners, key, live[key])
    }

    /** `active_name`: another active friend shows this name, up to letter case. */
    predicate ActiveName(except: Option<Key>, name: string)
      reads `live, `metadata, this
    {
      exists key :: key in live && Some(key) != except && Kind(key).Friend?
        && fold(ShownName(metadata, key, Kind(key).ip, format)) == fold(name)
    }

    // ----- friends -----

    /** Undoes a failed change: the previous peers, saved, then the previous metadata. */
    method Undo(previous: PeerMap, before: Metadata) returns (ok: bool)
      requires Stable() && Known(enrolled, previous, metadata.owners) && Exclusive(previous)
      requires Readable(before) && before.owners == metadata.owners
      modifies `live, `saved, `metadata, `faults, `trace
      ensures Stable() && old(trace) <= trace
      ensures faults >= old(faults) && (ok <==> faults == old(faults))
      ensures ok ==> live == saved == previous && metadata == before
      ensures metadata == before || metadata == old(metadata)
    {
      ok := SetConf(previous);
      if ok {
        ok := SaveConf();
      }
      if ok {
        var written := WriteStore(before);
        ok := written.Written?;
      }
    }

    /** `create`, for a freshly generated key pair. */
    method Create(key: Key, privateKey: string, name: string) returns (r: Result, ip: int)
      requires Inv()
      requires key !in live && key !in saved && key !in metadata.owners && !Recorded(metadata.records, key)
      modifies `live, `saved, `metadata, `faults, `trace
      ensures Inv() && old(trace) <= trace && metadata.owners == old(metadata.owners)
      ensures faults >= old(faults) && (faults <= old(faults) + 1 ==> !r.RollbackFailed?)
      ensures faults == old(faults) ==>
        if !old(ActiveName(None, name)) && HasFreeHost(old(live)) then r.Done? else r.Refused?
      ensures r.Done? ==> !old(ActiveName(None, name)) && IsTunnelAddress(ip) && !Taken(old(live), ip)
      ensures r.Done? ==> live == saved == old(live)[key := [V4(Host(ip))]]
      ensures r.Done? ==> metadata.records == old(metadata.records) + [Record(key, name, Some(privateKey))]
      ensures r.Refused? ==> live == old(live) && saved == old(saved) && metadata == old(metadata)
      ensures r.StoreFailed? ==> live == old(live) && saved == old(saved)
      ensures r.RolledBack? ==> live == saved == old(live) && metadata == old(metadata)
    {
      ip := 0;
      if ActiveName(None, name) {
        return Refused, ip;
      }
      var chosen := AllocateTunnelIp();
      if chosen.None? {
        return Refused, ip;
      }
      ip := chosen.value;
      var before := metadata;
      RecordAdded(metadata, Record(key, name, Some(privateKey)));
      var written := WriteStore(metadata.(records := metadata.records + [Record(key, name, Some(privateKey))]));
      if !written.Written? {
        return StoreFailed, ip;
      }
      r := InstallFriend(key, ip, before);
    }

    /** The rest of it, once the record is stored. */
    method InstallFriend(key: Key, ip: int, before: Metadata) returns (r: Result)
      requires Inv() && IsTunnelAddress(ip) && !Taken(live, ip) && key !in enrolled
      requires Readable(before) && before.owners == metadata.owners
      modifies `live, `saved, `metadata, `faults, `trace
      ensures Inv() && old(trace) <= trace && (metadata == before || metadata == old(metadata))
      ensures faults >= old(faults) && (r.Done? <==> faults == old(faults))
      ensures faults <= old(faults) + 1 ==> !r.RollbackFailed?
      ensures !r.Refused? && !r.StoreFailed?
      ensures r.Done? ==> live == saved == old(live)[key := [V4(Host(ip))]] && metadata == old(metadata)
      ensures r.RolledBack? ==> live == saved == old(live) && metadata == before
    {
      var previous := live;
      FreeAddressHasNoClash(live, key, ip);
      NoClashNoLoss(live, key, [V4(Host(ip))]);
      var ok := SetAndSave(key, [V4(Host(ip))]);
      if !ok {
        var undone := Undo(previous, before);
        return if undone then RolledBack else RollbackFailed;
      }
      r := Done;
    }

    /** `rename`; a friend without a record gets one. */
    method Rename(key: Key, name: string) returns (r: Result)
      requires Inv()
      modifies `metadata, `faults, `trace
      ensures Inv() && old(trace) <= trace && metadata.owners == old(metadata.owners)
      ensures faults >= old(faults) && (r.Done? || r.Refused? <==> faults == old(faults))
      ensures r.Refused? <==> key !in live || !old(Kind(key).Friend?) || old(ActiveName(Some(key), name))
      ensures key in metadata.owners ==> r.Refused?
      ensures r.Refused? ==> metadata == old(metadata)
      ensures r.Done? ==> key in live && Kind(key).Friend? && !old(ActiveName(Some(key), name))
      ensures r.Done? ==> ShownName(metadata, key, Kind(key).ip, format) == name
      ensures forall other :: other != key ==>
        (Recorded(metadata.records, other) <==> old(Recorded(metadata.records, other)))
    {
      if key !in live || !Kind(key).Friend? || ActiveName(Some(key), name) {
        return Refused;
      }
      var index := IndexOf(metadata.records, key);
      var next := metadata;
      if index.Some? {
        RecordRenamed(metadata, index.value, name);
        next := metadata.(records := metadata.records[index.value := metadata.records[index.value].(name := name)]);
      } else {
        RecordAdded(metadata, Record(key, name, None));
        next := metadata.(records := metadata.records + [Record(key, name, None)]);
      }
      OthersRecorded(metadata.records, next.records, key);
      ShownAfterRename(metadata, next, key, name, Kind(key).ip, format);
      var written := WriteStore(next);
      r := if written.Written? then Done else StoreFailed;
    }

    /** An active friend, or a record of an inactive one. */
    predicate Revocable(key: Key)
      reads `live, `metadata
    {
      key !in metadata.owners && if key in live then Kind(key).Friend? else Recorded(metadata.records, key)
    }

    /** `revoke`: an active friend is removed and saved; an inactive recorded one only needs the save. */
    method Revoke(key: Key) returns (r: Result)
      requires Inv()
      modifies `live, `saved, `metadata, `faults, `trace
      ensures Inv() && old(trace) <= trace && metadata.owners == old(metadata.owners)
      ensures faults >= old(faults) && (faults <= old(faults) + 1 ==> !r.RollbackFailed?)
      ensures r.Refused? <==> !old(Revocable(key))
      ensures faults == old(faults) ==> r.Done? || r.Refused?
      ensures key in metadata.owners ==> r.Refused?
      ensures r.Done? ==> key !in live && key !in saved && Recorded(metadata.records, key)
      ensures r.Done? ==> live == saved == old(live) - {key}
      ensures forall other :: other != key ==>
        (Recorded(metadata.records, other) <==> old(Recorded(metadata.records, other)))
      ensures r.Refused? ==> live == old(live) && saved == old(saved) && metadata == old(metadata)
      ensures r.StoreFailed? ==> live == old(live)
      ensures r.RolledBack? ==> live == saved == old(live) && metadata == old(metadata)
    {
      if key in metadata.owners {
        return Refused;
      }
      if key !in live {
        if !Recorded(metadata.records, key) {
          return Refused;
        }
        var kept := SaveConf();
        assert old(live) - {key} == old(live);
        return if kept then Done else StoreFailed;
      }
      if !Kind(key).Friend? {
        return Refused;
      }
      var before := metadata;
      var next := metadata;
      if !Recorded(metadata.records, key) {
        RecordAdded(metadata, Record(key, format(Kind(key).ip), None));
        next := metadata.(records := metadata.records + [Record(key, format(Kind(key).ip), None)]);
      }
      OthersRecorded(before.records, next.records, key);
      var written := WriteStore(next);
      if !written.Written? {
        return StoreFailed;
      }
      r := RemoveFriend(key, before);
    }

    /** The rest of it, once the record is stored. */
    method RemoveFriend(key: Key, before: Metadata) returns (r: Result)
      requires Inv() && Readable(before) && before.owners == metadata.owners
      modifies `live, `saved, `metadata, `faults, `trace
      ensures Inv() && old(trace) <= trace && (metadata == before || metadata == old(metadata))
      ensures faults >= old(faults) && (r.Done? <==> faults == old(faults))
      ensures faults <= old(faults) + 1 ==> !r.RollbackFailed?
      ensures !r.Refused? && !r.StoreFailed?
      ensures r.Done? ==> live == saved == old(live) - {key} && metadata == old(metadata)
      ensures r.RolledBack? ==> live == saved == old(live) && metadata == before
    {
      var previous := live;
      var ok := WgRemove(key);
      if ok {
        ok := SaveConf();
      }
      if !ok {
        var undone := Undo(previous, before);
        return if undone then RolledBack else RollbackFailed;
      }
      r := Done;
    }

    // ----- router owners -----

    /** Undoes a failed change of the interface only. */
    method UndoPeers(previous: PeerMap) returns (ok: bool)
      requires Stable() && Known(enrolled, previous, metadata.owners) && Exclusive(previous)
      modifies `live, `saved, `faults, `trace
      ensures Stable() && old(trace) <= trace
      ensures faults >= old(faults) && (ok <==> faults == old(faults))
      ensures ok ==> live == saved == previous
      ensures Mixture(live, old(live), previous)
      ensures saved == previous || (!ok && saved == old(saved))
    {
      ok := SetConf(previous);
      if ok {
        ok := SaveConf();
      }
    }

    /** A tunnel address whose routes clash with nobody, for an owner or a key that nobody has. */
    ghost predicate Enrollable(key: Key, address: Route, prepared: bool)
      reads `live, `metadata
    {
      && IsTunnelRoute(address) && !Conflict(live, key, OwnerRoutes(address, prepared))
      && !Recorded(metadata.records, key) && (key in metadata.owners || key !in live)
    }

    /** `add_router_peer`: the identity is in the metadata before WireGuard learns of the peer. */
    method AddRouterPeer(key: Key, address: Route, prepared: bool) returns (r: Result)
      requires Inv()
      modifies `live, `saved, `metadata, `enrolled, `faults, `trace
      ensures Inv() && old(trace) <= trace && metadata.records == old(metadata.records)
      ensures old(Recorded(metadata.records, key)) || (key !in old(metadata.owners) && key in old(live)) ==> r.Refused?
      ensures faults >= old(faults) && (faults <= old(faults) + 1 ==> !r.RollbackFailed?)
      ensures r.Refused? <==> !old(Enrollable(key, address, prepared))
      ensures faults == old(faults) ==> r.Done? || r.Refused?
      ensures r.Done? ==> IsTunnelRoute(address) && !Conflict(old(live), key, OwnerRoutes(address, prepared))
      ensures r.Done? ==>
        live == saved == old(live)[key := OwnerRoutes(address, prepared)] && key in enrolled && key in metadata.owners
      ensures r.Refused? ==> live == old(live) && saved == old(saved) && metadata == old(metadata)
      ensures r.StoreFailed? ==> live == old(live) && saved == old(saved)
      ensures r.RolledBack? ==> live == saved == old(live) && metadata == old(metadata)
      ensures old(enrolled) <= enrolled <= old(enrolled) + {key}
      ensures key !in enrolled ==> (key in live ==> key in old(live)) && (key in saved ==> key in old(saved))
    {
      if !IsTunnelRoute(address) {
        return Refused;
      }
      var routes := OwnerRoutes(address, prepared);
      var conflict := RoutesConflict(key, routes);
      var existing := key in metadata.owners;
      if conflict || Recorded(metadata.records, key) || (!existing && key in live) {
        return Refused;
      }
      var before := metadata;
      var next := metadata;
      if !existing {
        OwnerAdded(metadata, key);
        next := metadata.(owners := metadata.owners + [key]);
      }
      var written := WriteStore(next);
      if !written.Written? {
        return StoreFailed;
      }
      r := InstallOwner(key, routes, existing, before);
    }

    /**
     * The rest of it, once the identity is stored; a new identity is taken back when WireGuard could not be
     * changed.
     */
    method InstallOwner(key: Key, routes: seq<Route>, existing: bool, before: Metadata) returns (r: Result)
      requires Inv() && key in metadata.owners && !Conflict(live, key, routes)
      requires forall j :: 0 <= j < |routes| ==> routes[j].V4?
      requires if existing then before == metadata
        else before == metadata.(owners := before.owners) && metadata.owners == before.owners + [key]
      requires Readable(before) && (key in before.owners <==> existing)
      requires !existing ==> key !in live && key !in enrolled
      modifies `live, `saved, `metadata, `enrolled, `faults, `trace
      ensures Inv() && old(trace) <= trace && metadata.records == old(metadata.records)
      ensures r.Done? ==> live == saved == old(live)[key := routes] && key in enrolled && key in metadata.owners
      ensures !r.Refused? && !r.StoreFailed?
      ensures faults >= old(faults) && (r.Done? <==> faults == old(faults))
      ensures faults <= old(faults) + 1 ==> !r.RollbackFailed?
      ensures r.RolledBack? ==> live == saved == old(live) && metadata == before
      ensures old(enrolled) <= enrolled <= old(enrolled) + {key}
      ensures key !in enrolled ==> (key in live ==> key in old(live)) && (key in saved ==> key in old(saved))
    {
      var previous := live;
      enrolled := enrolled + {key};
      NoClashNoLoss(live, key, routes);
      var ok := SetAndSave(key, routes);
      r := Done;
      if !ok {
        ok := UndoPeers(previous);
        if ok && !existing {
          ok := Withdraw(key, before);
        }
        r := if ok then RolledBack else RollbackFailed;
      }
    }

    /** `wg set`, then the save. */
    method SetAndSave(key: Key, routes: seq<Route>) returns (ok: bool)
      requires Stable() && (key in enrolled ==> key in metadata.owners)
      modifies `live, `saved, `faults, `trace
      ensures Stable() && old(trace) <= trace
      ensures faults == if ok then old(faults) else old(faults) + 1
      ensures ok ==> live == saved == SetPeer(old(live), key, routes)
    {
      ghost var effective;
      ok, effective := WgSet(key, routes);
      if ok {
        ok := SaveConf();
      }
    }

    /** Takes back an identity that no configuration has. */
    method Withdraw(key: Key, before: Metadata) returns (ok: bool)
      requires Inv() && key !in live && key !in saved && Readable(before)
      requires before == metadata.(owners := before.owners) && metadata.owners == before.owners + [key]
      modifies `metadata, `enrolled, `faults, `trace
      ensures Inv() && old(trace) <= trace
      ensures metadata == before || metadata == old(metadata)
      ensures faults == if ok then old(faults) else old(faults) + 1
      ensures ok ==> metadata == before
      ensures enrolled == old(enrolled) || enrolled == old(enrolled) - {key}
    {
      var popped := WriteStore(before);
      if !popped.Unpublished? {
        enrolled := enrolled - {key};
      }
      ok := popped.Written?;
    }

    /** `remove_router_peer`: the owner entry stays as a tombstone. */
    method RemoveRouterPeer(key: Key) returns (r: Result)
      requires Inv()
      modifies `live, `saved, `faults, `trace
      ensures Inv() && old(trace) <= trace
      ensures r.Refused? <==> key !in metadata.owners
      ensures faults >= old(faults) && (faults <= old(faults) + 1 ==> !r.RollbackFailed?)
      ensures faults == old(faults) ==> r.Done? || r.Refused?
      ensures r.Done? ==> live == saved == old(live) - {key}
      ensures r.Refused? ==> live == old(live) && saved == old(saved)
      ensures r.RolledBack? ==> live == saved == old(live)
      ensures !r.StoreFailed?
    {
      if key !in metadata.owners {
        return Refused;
      }
      var previous := live;
      var ok := WgRemove(key);
      if ok {
        ok := SaveConf();
      }
      if !ok {
        var undone := UndoPeers(previous);
        return if undone then RolledBack else RollbackFailed;
      }
      r := Done;
    }

    /** `warp_routes`: the plan of every active owner, or a refusal if one has an unknown shape or none is active. */
    method WarpRoutes() returns (plan: Option<seq<Key>>)
      ensures plan.Some? ==> plan.value != [] && forall k :: k in plan.value <==> k in live && k in metadata.owners
      ensures plan.Some? <==> Authorisable(live, metadata.owners)
      ensures plan.Some? ==> AllPlanned(live, metadata.owners, plan.value)
      ensures plan.None? ==>
        forall k :: k in live && k in metadata.owners ==> exists bad :: BadOwner(live, metadata.owners, bad)
    {
      var keys: seq<Key> := [];
      var remaining := live.Keys;
      while |remaining| > 0
        invariant remaining <= live.Keys
        invariant forall k :: k in keys <==> k in live && k in metadata.owners && k !in remaining
        invariant AllPlanned(live, metadata.owners, keys)
      {
        var key :| key in remaining;
        remaining := remaining - {key};
        if key in metadata.owners {
          if OwnerPlan(live[key]).None? {
            assert BadOwner(live, metadata.owners, key);
            return None;
          }
          var conflict := RoutesConflict(key, [AliasOf(Primary(live[key]))]);
          if conflict {
            assert BadOwner(live, metadata.owners, key);
            return None;
          }
          keys := keys + [key];
        }
      }
      if keys == [] {
        assert forall k :: k in live && k in metadata.owners ==> k in keys;
        return None;
      }
      assert keys[0] in keys;
      plan := Some(keys);
    }

    /** One step of `authorize_warp`: an owner gets the routes planned from the first listing. */
    method SetAlias(ghost start: PeerMap, ghost done: set<Key>, key: Key, routes: seq<Route>)
      returns (ok: bool, ghost reached: set<Key>)
      requires Stable() && Aliased(start, done, live, metadata.owners)
      requires PlanFor(start, metadata.owners, key) && routes == OwnerPlan(start[key]).value
      modifies `live, `faults, `trace
      ensures Stable() && old(trace) <= trace && Aliased(start, reached, live, metadata.owners)
      ensures faults == if ok then old(faults) else old(faults) + 1
      ensures reached == done + {key} || (!ok && reached == done)
    {
      ghost var before, effective := live, false;
      ok, effective := WgSet(key, routes);
      reached := done;
      if effective {
        OneMoreOwner(start, done, before, key, metadata.owners);
        reached := done + {key};
      }
    }

    /** The same for one key of the plan. */
    method SetAliasAt(start: PeerMap, ghost done: set<Key>, keys: seq<Key>, i: nat)
      returns (ok: bool, ghost reached: set<Key>)
      requires Stable() && Aliased(start, done, live, metadata.owners)
      requires AllPlanned(start, metadata.owners, keys) && i < |keys| && done == KeySet(keys[..i])
      modifies `live, `faults, `trace
      ensures Stable() && old(trace) <= trace && Aliased(start, reached, live, metadata.owners)
      ensures faults == if ok then old(faults) else old(faults) + 1
      ensures ok ==> reached == KeySet(keys[..i + 1])
    {
      KeySetGrows(keys, i);
      PlanOf(start, metadata.owners, keys, i);
      ok, reached := SetAlias(start, done, keys[i], OwnerPlan(start[keys[i]]).value);
    }

    /** The loop of `authorize_warp`: a failure leaves the aliases of the first owners. */
    method SetAliases(keys: seq<Key>) returns (ok: bool, ghost done: set<Key>)
      requires Stable() && AllPlanned(live, metadata.owners, keys)
      modifies `live, `faults, `trace
      ensures Stable() && old(trace) <= trace && Aliased(old(live), done, live, metadata.owners)
      ensures faults == if ok then old(faults) else old(faults) + 1
      ensures ok ==> done == KeySet(keys)
    {
      var start := live;
      done := {};
      NoAliases(start, metadata.owners);
      for i := 0 to |keys|
        invariant Stable() && old(trace) <= trace && Aliased(start, done, live, metadata.owners)
        invariant faults == old(faults)
        invariant done == KeySet(keys[..i])
      {
        ok, done := SetAliasAt(start, done, keys, i);
        if !ok {
          return;
        }
      }
      assert keys[..|keys|] == keys;
      ok := true;
    }

    /**
     * `authorize_warp`: exactly the active owners' aliases are added; whatever fails, nobody but an owner gains
     * a route.
     */
    method AuthorizeWarp(prepared: bool) returns (r: Result)
      requires Inv()
      modifies `live, `saved, `faults, `trace
      ensures Inv() && old(trace) <= trace
      ensures NeverBroader(old(live), live, metadata.owners)
      ensures saved == old(saved) || NeverBroader(old(live), saved, metadata.owners)
      ensures faults >= old(faults) && (faults <= old(faults) + 1 ==> !r.RollbackFailed?)
      ensures r.Refused? <==> !(prepared && old(Authorisable(live, metadata.owners)))
      ensures faults == old(faults) ==> r.Done? || r.Refused?
      ensures r.Done? ==> prepared && live == saved == WithAliases(old(live), ActiveOwners(old(live), metadata.owners))
      ensures r.Refused? ==> live == old(live) && saved == old(saved)
      ensures r.RolledBack? ==> live == saved == old(live)
      ensures !r.StoreFailed?
    {
      if !prepared {
        return Refused;
      }
      var plan := WarpRoutes();
      if plan.None? {
        return Refused;
      }
      var previous := live;
      var ok;
      ghost var done;
      ok, done := SetAliases(plan.value);
      ghost var aliased := live;
      AliasesAreNotBroader(previous, done, aliased, metadata.owners);
      if ok {
        WholePlan(previous, metadata.owners, plan.value);
        ok := SaveConf();
      }
      if !ok {
        var undone := UndoPeers(previous);
        MixtureIsNotBroader(previous, aliased, live, metadata.owners);
        return if undone then RolledBack else RollbackFailed;
      }
      r := Done;
    }

    // ----- the plain commands -----

    /** `add_peer`: no metadata, so a key that is an owner stays one. */
    method AddPeer(key: Key, address: Route) returns (r: Result)
      requires Inv()
      modifies `live, `saved, `faults, `trace
      ensures Inv() && old(trace) <= trace
      ensures faults >= old(faults) && (faults <= old(faults) + 1 ==> !r.RollbackFailed?)
      ensures r.Refused? <==> !(IsTunnelRoute(address) && !old(Conflict(live, key, [address])))
      ensures faults == old(faults) ==> r.Done? || r.Refused?
      ensures r.Done? ==> IsTunnelRoute(address) && live == saved == old(live)[key := [address]]
      ensures r.Refused? ==> live == old(live) && saved == old(saved)
      ensures r.RolledBack? ==> live == saved == old(live)
    {
      if !IsTunnelRoute(address) {
        return Refused;
      }
      var conflict := RoutesConflict(key, [address]);
      if conflict {
        return Refused;
      }
      NoClashNoLoss(live, key, [address]);
      var previous := live;
      var ok := SetAndSave(key, [address]);
      if !ok {
        var undone := UndoPeers(previous);
        return if undone then RolledBack else RollbackFailed;
      }
      r := Done;
    }

    /** The plain removal has no rollback. */
    method RemovePeer(key: Key) returns (ok: bool)
      requires Inv()
      modifies `live, `saved, `faults, `trace
      ensures Inv() && old(trace) <= trace
      ensures faults >= old(faults) && (ok <==> faults == old(faults))
      ensures ok ==> live == saved == old(live) - {key}
    {
      ok := WgRemove(key);
      if ok {
        ok := SaveConf();
      }
    }

    /** A reboot brings up the saved configuration. */
    method Reboot()
      requires Inv()
      modifies `live, `faults, `trace
      ensures Inv() && old(trace) <= trace && live == saved
    {
      live := saved;
      trace := trace + [Here()];
    }

    /** `create_router_profile`, for a freshly generated key. */
    method CreateRouterProfile(key: Key, prepared: bool) returns (r: Result)
      requires Inv()
      requires key !in live && key !in saved && key !in metadata.owners && !Recorded(metadata.records, key)
      modifies `live, `saved, `metadata, `enrolled, `faults, `trace
      ensures Inv() && old(trace) <= trace && old(enrolled) <= enrolled
      ensures faults >= old(faults) && (faults <= old(faults) + 1 ==> !r.RollbackFailed?)
      ensures faults == old(faults) ==> r.Done? || r.Refused?
      ensures faults == old(faults) && !prepared ==> (r.Done? <==> HasFreeHost(old(live)))
      ensures r.Done? ==> key in enrolled && key in live && saved == live
      ensures r.RolledBack? ==> live == saved == old(live) && metadata == old(metadata)
    {
      var chosen := AllocateTunnelIp();
      if chosen.None? {
        return Refused;
      }
      r := AddRouterPeer(key, V4(Host(chosen.value)), prepared);
    }

    /** Any run of commands, whatever fails in it: an enrolled owner stays an owner. */
    method Run(operations: seq<Operation>)
      requires Inv()
      modifies this
      ensures Inv() && old(trace) <= trace && old(enrolled) <= enrolled
      ensures forall k :: k in old(enrolled) && k in live ==> Kind(k).Owner?
    {
      for i := 0 to |operations|
        invariant Inv() && old(trace) <= trace && old(enrolled) <= enrolled
      {
        match operations[i] {
          case CreateFriend(key, privateKey, name) =>
            // A generated key is new; the others come from a listing or a user.
            if key !in live && key !in saved && key !in metadata.owners && !Recorded(metadata.records, key) {
              var r, ip := Create(key, privateKey, name);
            }
          case RenameFriend(key, name) =>
            var r := Rename(key, name);
          case RevokeFriend(key) =>
            var r := Revoke(key);
          case AddOwner(key, address, prepared) =>
            var r := AddRouterPeer(key, address, prepared);
          case RemoveOwner(key) =>
            var r := RemoveRouterPeer(key);
          case Authorize(prepared) =>
            var r := AuthorizeWarp(prepared);
          case AddPlain(key, address) =>
            var r := AddPeer(key, address);
          case RemovePlain(key) =>
            var ok := RemovePeer(key);
          case Restart =>
            Reboot();
        }
      }
    }
  }

  /** The alias that the agent sends WARP traffic from is the one that the server authorises for its owner. */
  lemma AliasesAgree(address: int)
    requires IsAddress(address)
    ensures 0x0aca_0002 <= address <= 0x0aca_00fe <==> Servers.WarpAlias(address).Some?
    ensures IsTunnelAddress(address) <==> Servers.WarpAlias(address).Some?
    ensures IsTunnelAddress(address) ==>
      && Servers.WarpAlias(address).value == address + 256
      && IsTunnelRoute(V4(Host(address)))
      && AliasOf(V4(Host(address))) == V4(Host(Servers.WarpAlias(address).value))
  {
  }

  /** Preparing WARP first and authorising it later give an owner the same routes: its address and its alias. */
  lemma PreparedOrAuthorised(address: Route)
    requires IsTunnelRoute(address)
    ensures OwnerRoutes(address, false) == [address] && OwnerRoutes(address, true) == [address, AliasOf(address)]
    ensures OwnerPlan(OwnerRoutes(address, false)) == Some(OwnerRoutes(address, true))
    ensures OwnerPlan(OwnerRoutes(address, true)) == Some(OwnerRoutes(address, true))
  {
    assert !IsTunnelRoute(AliasOf(address));
    assert [address][1..] == [] && [AliasOf(address)][1..] == [];
    assert [address, AliasOf(address)][1..] == [AliasOf(address)];
    assert TunnelRoutes([]) == [] && TunnelRoutes([AliasOf(address)]) == [];
    assert TunnelRoutes([address]) == [address] && TunnelRoutes([address, AliasOf(address)]) == [address];
    assert [address] + [AliasOf(address)] == [address, AliasOf(address)];
  }

  /** Two record lists that hold the same keys, up to one. */
  lemma OthersRecorded(before: seq<Record>, after: seq<Record>, key: Key)
    requires |before| <= |after| && (forall i :: 0 <= i < |before| ==> after[i].key == before[i].key)
    requires forall i :: |before| <= i < |after| ==> after[i].key == key
    ensures forall other :: other != key ==> (Recorded(before, other) <==> Recorded(after, other))
  {
    forall other | other != key
      ensures Recorded(before, other) <==> Recorded(after, other)
    {
      if Recorded(before, other) {
        var i :| 0 <= i < |before| && before[i].key == other;
        assert after[i].key == other;
      }
    }
  }

  lemma ShownAfterRename(before: Metadata, after: Metadata, key: Key, name: string, ip: int, format: int -> string)
    requires Readable(after)
    requires exists i :: 0 <= i < |after.records| && after.records[i].key == key && after.records[i].name == name
    ensures ShownName(after, key, ip, format) == name
  {
    var i :| 0 <= i < |after.records| && after.records[i].key == key && after.records[i].name == name;
    assert Recorded(after.records, key);
  }
}
