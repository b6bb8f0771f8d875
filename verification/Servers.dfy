/** The controller's configuration and its edits, each labelled with how much must be applied again. */
module Servers {
  import opened Ipv4
  import opened Dataplane
  import opened Renderer
  import opened Routing
  import opened RuleOrder

  type Key = string

  datatype Management = Management(host: string, port: int, hostKey: string)

  datatype Server = Server(
    name: string,
    emoji: string,
    endpoint: string,
    publicKey: Key,
    tunnelAddress: Option<int>,
    privateKey: Option<Key>,
    management: Option<Management>)

  datatype Config = Config(
    autoUpdate: bool,
    exclusions: seq<Mac>,
    vpnEnabled: bool,
    activeKey: Option<Key>,
    servers: seq<Server>,
    routing: RoutingConfig)

  // ----- lookups -----

  /** The first server with a key, as `position` finds it. */
  function Position(servers: seq<Server>, key: Key): (index: Option<nat>)
    ensures index.Some? <==> exists i :: 0 <= i < |servers| && servers[i].publicKey == key
    ensures index.Some? ==> index.value < |servers| && servers[index.value].publicKey == key
    ensures index.Some? ==> forall i :: 0 <= i < index.value ==> servers[i].publicKey != key
  {
    if servers == [] then None
    else if servers[0].publicKey == key then Some(0)
    else
      var later := Position(servers[1..], key);
      assert forall i :: 1 <= i < |servers| ==> servers[i] == servers[1..][i - 1];
      if later.None? then None else Some(later.value + 1)
  }

  function Listed(servers: seq<Server>, key: Key): Option<Server> {
    var index := Position(servers, key);
    if index.None? then None else Some(servers[index.value])
  }

  function ActiveServer(config: Config): Option<Server> {
    if config.activeKey.None? then None else Listed(config.servers, config.activeKey.value)
  }

  predicate UniqueKeys(servers: seq<Server>) {
    forall i, j :: 0 <= i < j < |servers| ==> servers[i].publicKey != servers[j].publicKey
  }

  /** What every edit keeps. */
  predicate Valid(config: Config) {
    && UniqueKeys(config.servers)
    && (config.activeKey.Some? ==> ActiveServer(config).Some?)
    && (config.vpnEnabled ==> config.activeKey.Some?)
    && Strictly(config.exclusions) && |config.exclusions| <= MAX_EXCLUSIONS
  }

  // ----- exclusions -----

  const MAX_EXCLUSIONS: nat := 256

  predicate Strictly(macs: seq<Mac>) {
    forall i, j :: 0 <= i < j < |macs| ==> macs[i] < macs[j]
  }

  function WithMac(macs: seq<Mac>, mac: Mac): (sorted: seq<Mac>)
    requires Strictly(macs)
    ensures Strictly(sorted)
    ensures forall x :: x in sorted <==> x in macs || x == mac
  {
    if macs == [] then [mac]
    else if mac < macs[0] then [mac] + macs
    else if mac == macs[0] then macs
    else
      assert macs == [macs[0]] + macs[1..];
      var later := WithMac(macs[1..], mac);
      assert forall i :: 0 <= i < |later| ==> later[i] in later;
      [macs[0]] + later
  }

  /** Sorting and removing duplicates. */
  function Normalized(macs: seq<Mac>): (sorted: seq<Mac>)
    ensures Strictly(sorted)
    ensures forall x :: x in sorted <==> x in macs
  {
    if macs == [] then []
    else
      assert macs == [macs[0]] + macs[1..];
      WithMac(Normalized(macs[1..]), macs[0])
  }

  /** A strictly ascending list is determined by its elements. */
  lemma {:induction false} AscendingIsUnique(a: seq<Mac>, b: seq<Mac>)
    requires Strictly(a) && Strictly(b) && forall x :: x in a <==> x in b
    ensures a == b
  {
    assert a == [] || a[0] in a;
    assert b == [] || b[0] in b;
    if a != [] && b != [] {
      assert a == [a[0]] + a[1..] && b == [b[0]] + b[1..];
      forall x
        ensures x in a[1..] <==> x in b[1..]
      {
        assert x in a[1..] ==> x in a && x != a[0];
        assert x in b[1..] ==> x in b && x != b[0];
      }
      AscendingIsUnique(a[1..], b[1..]);
    }
  }

  /** The normal form depends on the set of addresses only; a normal list is its own normal form. */
  lemma NormalFormIsCanonical(a: seq<Mac>, b: seq<Mac>)
    requires forall x :: x in a <==> x in b
    ensures Normalized(a) == Normalized(b)
    ensures Strictly(a) ==> Normalized(a) == a
  {
    AscendingIsUnique(Normalized(a), Normalized(b));
    if Strictly(a) {
      AscendingIsUnique(Normalized(a), a);
    }
  }

  // ----- edits -----

  datatype Change = ConfigOnly | Policy | Network

  datatype Edit =
    | Import(server: Server)
    | Add(server: Server)
    | Update(previous: Key, name: string, emoji: Option<string>, endpoint: string, key: Key)
    | Select(key: Key)
    | Delete(key: Key, pinsKept: bool)
    | SetMode(enabled: bool)
    | SetExclusion(mac: Mac, excluded: bool)
    | SetRouting(routing: RoutingConfig)

  datatype EditResult = Edited(config: Config, change: Change) | Refused

  /** Server validation is a check of text formats. */
  type Validator = Server -> bool

  function InsertServer(config: Config, server: Server): EditResult {
    if Position(config.servers, server.publicKey).Some? then Refused
    else
      var becomesActive := config.activeKey.None?;
      var activeKey := if becomesActive then Some(server.publicKey) else config.activeKey;
      Edited(config.(activeKey := activeKey, servers := config.servers + [server]),
        if becomesActive && config.vpnEnabled then Network else ConfigOnly)
  }

  /** Reimporting a known key keeps its emoji, and a managed server's endpoint. */
  function ReplaceImported(config: Config, server: Server, index: nat): EditResult
    requires index < |config.servers|
  {
    var previous := config.servers[index];
    var kept := if previous.management.Some?
      then server.(management := previous.management, endpoint := previous.endpoint, emoji := previous.emoji)
      else server.(emoji := previous.emoji);
    Edited(config.(servers := config.servers[index := kept]),
      if config.vpnEnabled && config.activeKey == Some(server.publicKey) then Network else ConfigOnly)
  }

  function ImportServer(config: Config, server: Server): EditResult {
    var index := Position(config.servers, server.publicKey);
    if index.Some? then ReplaceImported(config, server, index.value) else InsertServer(config, server)
  }

  function UpdateServer(config: Config, previous: Key, name: string, emoji: Option<string>, endpoint: string,
    key: Key, valid: Validator): EditResult {
    var position := Position(config.servers, previous);
    if position.None? then Refused
    else
      var index := position.value;
      var old' := config.servers[index];
      var moved := old'.endpoint != endpoint || old'.publicKey != key;
      var server := old'.(name := name, endpoint := endpoint, publicKey := key,
        emoji := if emoji.Some? then emoji.value else old'.emoji);
      if old'.management.Some? && moved then Refused
      else if !valid(server) then Refused
      else if KeyElsewhere(config.servers, index, key) then Refused
      else
        var wasActive := config.activeKey == Some(previous);
        var activeKey := if wasActive then Some(key) else config.activeKey;
        Edited(config.(activeKey := activeKey, servers := config.servers[index := server]),
          if wasActive && config.vpnEnabled && moved then Network else ConfigOnly)
  }

  /** Another server than the one at an index has a key. */
  predicate KeyElsewhere(servers: seq<Server>, index: nat, key: Key) {
    exists other :: 0 <= other < |servers| && other != index && servers[other].publicKey == key
  }

  function SelectServer(config: Config, key: Key): EditResult {
    if Position(config.servers, key).None? then Refused
    else if config.activeKey == Some(key) then Edited(config, ConfigOnly)
    else Edited(config.(activeKey := Some(key)), if config.vpnEnabled then Network else ConfigOnly)
  }

  function Without(servers: seq<Server>, key: Key): (rest: seq<Server>)
    ensures forall s :: s in rest <==> s in servers && s.publicKey != key
    ensures UniqueKeys(servers) ==> UniqueKeys(rest)
  {
    if servers == [] then []
    else
      assert servers == [servers[0]] + servers[1..];
      if servers[0].publicKey == key then Without(servers[1..], key)
      else [servers[0]] + Without(servers[1..], key)
  }

  function DeleteServer(config: Config, key: Key, pinsKept: bool): EditResult {
    var rest := Without(config.servers, key);
    if !pinsKept || |rest| == |config.servers| then Refused
    else if config.activeKey == Some(key) then
      if config.vpnEnabled && rest == [] then Refused
      else
        Edited(config.(activeKey := if rest == [] then None else Some(rest[0].publicKey), servers := rest),
          if config.vpnEnabled then Network else ConfigOnly)
    else Edited(config.(servers := rest), ConfigOnly)
  }

  function SetVpn(config: Config, enabled: bool): EditResult {
    var next := config.(vpnEnabled := enabled);
    if enabled && ActiveServer(next).None? then Refused
    else Edited(next, if config.vpnEnabled == enabled then Policy else Network)
  }

  function RemoveMac(macs: seq<Mac>, mac: Mac): (rest: seq<Mac>)
    ensures forall x :: x in rest <==> x in macs && x != mac
  {
    if macs == [] then []
    else
      assert macs == [macs[0]] + macs[1..];
      (if macs[0] == mac then [] else [macs[0]]) + RemoveMac(macs[1..], mac)
  }

  function SetExcluded(config: Config, mac: Mac, excluded: bool): EditResult {
    var macs := Normalized(RemoveMac(config.exclusions, mac) + if excluded then [mac] else []);
    if |macs| > MAX_EXCLUSIONS then Refused else Edited(config.(exclusions := macs), Policy)
  }

  function Apply(config: Config, edit: Edit, valid: Validator): EditResult {
    match edit
    case Import(server) => if valid(server) then ImportServer(config, server) else Refused
    case Add(server) => if valid(server) then InsertServer(config, server) else Refused
    case Update(previous, name, emoji, endpoint, key) =>
      UpdateServer(config, previous, name, emoji, endpoint, key, valid)
    case Select(key) => SelectServer(config, key)
    case Delete(key, pinsKept) => DeleteServer(config, key, pinsKept)
    case SetMode(enabled) => SetVpn(config, enabled)
    case SetExclusion(mac, excluded) => SetExcluded(config, mac, excluded)
    case SetRouting(routing) =>
      if OrderAccepted(routing) then Edited(config.(routing := routing), Policy) else Refused
  }

  /** An edit as `update_config` runs it: the exclusions are normalised again afterwards. */
  function RunEdit(config: Config, edit: Edit, valid: Validator): EditResult {
    var result := Apply(config, edit, valid);
    if result.Refused? then Refused
    else
      var macs := Normalized(result.config.exclusions);
      if |macs| > MAX_EXCLUSIONS then Refused else Edited(result.config.(exclusions := macs), result.change)
  }

  // ----- every edit keeps the configuration valid -----

  lemma ListedIs(servers: seq<Server>, i: nat)
    requires UniqueKeys(servers) && i < |servers|
    ensures Position(servers, servers[i].publicKey) == Some(i)
  {
  }

  lemma ReplacedKeysUnique(servers: seq<Server>, i: nat, server: Server)
    requires UniqueKeys(servers) && i < |servers|
    requires forall k :: 0 <= k < |servers| && k != i ==> servers[k].publicKey != server.publicKey
    ensures UniqueKeys(servers[i := server])
  {
  }

  /** A server's listing after one entry is replaced. */
  lemma ListedAfterReplace(servers: seq<Server>, i: nat, server: Server, key: Key)
    requires UniqueKeys(servers) && i < |servers|
    requires forall k :: 0 <= k < |servers| && k != i ==> servers[k].publicKey != server.publicKey
    ensures Listed(servers[i := server], key) ==
      if key == server.publicKey then Some(server)
      else if key == servers[i].publicKey then None
      else Listed(servers, key)
  {
    var after := servers[i := server];
    ReplacedKeysUnique(servers, i, server);
    if key == server.publicKey {
      ListedIs(after, i);
    } else if key == servers[i].publicKey {
      assert forall k :: 0 <= k < |after| ==> after[k].publicKey != key;
    } else {
      var index := Position(servers, key);
      if index.Some? {
        ListedIs(after, index.value);
      } else {
        assert forall k :: 0 <= k < |after| ==> after[k].publicKey != key;
      }
    }
  }

  lemma ListedAfterAppend(servers: seq<Server>, server: Server, key: Key)
    requires UniqueKeys(servers) && Position(servers, server.publicKey).None?
    ensures UniqueKeys(servers + [server])
    ensures Listed(servers + [server], key) == if key == server.publicKey then Some(server) else Listed(servers, key)
  {
    var after := servers + [server];
    if key == server.publicKey {
      ListedIs(after, |servers|);
    } else {
      var index := Position(servers, key);
      if index.Some? {
        ListedIs(after, index.value);
      } else {
        assert forall k :: 0 <= k < |after| ==> after[k].publicKey != key;
      }
    }
  }

  /** Deleting one key leaves the listings of the others alone. */
  lemma {:induction false} OthersListing(servers: seq<Server>, removed: Key, key: Key)
    requires key != removed
    ensures Listed(Without(servers, removed), key) == Listed(servers, key)
  {
    if servers != [] {
      OthersListing(servers[1..], removed, key);
      ListedCons(servers[0], servers[1..], key);
      assert servers == [servers[0]] + servers[1..];
      if servers[0].publicKey != removed {
        ListedCons(servers[0], Without(servers[1..], removed), key);
      }
    }
  }

  lemma ListedCons(server: Server, rest: seq<Server>, key: Key)
    ensures Listed([server] + rest, key) == if server.publicKey == key then Some(server) else Listed(rest, key)
  {
    assert ([server] + rest)[1..] == rest;
  }

  lemma InsertKeepsValid(config: Config, server: Server)
    requires Valid(config) && InsertServer(config, server).Edited?
    ensures Valid(InsertServer(config, server).config)
  {
    ListedAfterAppend(config.servers, server, server.publicKey);
    if config.activeKey.Some? {
      ListedAfterAppend(config.servers, server, config.activeKey.value);
    }
  }

  lemma ImportKeepsValid(config: Config, server: Server)
    requires Valid(config) && ImportServer(config, server).Edited?
    ensures Valid(ImportServer(config, server).config)
  {
    var index := Position(config.servers, server.publicKey);
    if index.None? {
      InsertKeepsValid(config, server);
    } else {
      var kept := ReplaceImported(config, server, index.value).config.servers[index.value];
      ReplacedKeysUnique(config.servers, index.value, kept);
      if config.activeKey.Some? {
        ListedAfterReplace(config.servers, index.value, kept, config.activeKey.value);
      }
    }
  }

  lemma UpdateKeepsValid(config: Config, previous: Key, name: string, emoji: Option<string>, endpoint: string,
    key: Key, valid: Validator)
    requires Valid(config) && UpdateServer(config, previous, name, emoji, endpoint, key, valid).Edited?
    ensures Valid(UpdateServer(config, previous, name, emoji, endpoint, key, valid).config)
  {
    var index := Position(config.servers, previous).value;
    var next := UpdateServer(config, previous, name, emoji, endpoint, key, valid).config;
    ReplacedKeysUnique(config.servers, index, next.servers[index]);
    if config.activeKey.Some? {
      ListedAfterReplace(config.servers, index, next.servers[index], next.activeKey.value);
    }
  }

  lemma DeleteKeepsValid(config: Config, key: Key, pinsKept: bool)
    requires Valid(config) && DeleteServer(config, key, pinsKept).Edited?
    ensures Valid(DeleteServer(config, key, pinsKept).config)
  {
    var rest := Without(config.servers, key);
    if config.activeKey == Some(key) {
      if rest != [] {
        ListedIs(rest, 0);
      }
    } else if config.activeKey.Some? {
      OthersListing(config.servers, key, config.activeKey.value);
    }
  }

  lemma ApplyKeepsValid(config: Config, edit: Edit, valid: Validator)
    requires Valid(config) && Apply(config, edit, valid).Edited?
    ensures Valid(Apply(config, edit, valid).config)
  {
    match edit {
      case Import(server) => ImportKeepsValid(config, server);
      case Add(server) => InsertKeepsValid(config, server);
      case Update(previous, name, emoji, endpoint, key) =>
        UpdateKeepsValid(config, previous, name, emoji, endpoint, key, valid);
      case Delete(key, pinsKept) => DeleteKeepsValid(config, key, pinsKept);
      case _ =>
    }
  }

  /** Every edit keeps keys unique, the active key listed, and a server selected while the VPN is on. */
  lemma EditKeepsValid(config: Config, edit: Edit, valid: Validator)
    requires Valid(config) && RunEdit(config, edit, valid).Edited?
    ensures Apply(config, edit, valid).Edited?
    ensures RunEdit(config, edit, valid) == Apply(config, edit, valid)
    ensures Valid(RunEdit(config, edit, valid).config)
  {
    ApplyKeepsValid(config, edit, valid);
    var next := Apply(config, edit, valid).config;
    NormalFormIsCanonical(next.exclusions, next.exclusions);
  }

  /** Exactly which edits are accepted; the number of exclusions is checked after every edit. */
  lemma AcceptedExactly(config: Config, edit: Edit, valid: Validator)
    requires Strictly(config.exclusions) && |config.exclusions| <= MAX_EXCLUSIONS
    ensures RunEdit(config, edit, valid).Edited? <==>
      match edit
      case Import(server) => valid(server)
      case Add(server) => valid(server) && Listed(config.servers, server.publicKey).None?
      case Update(previous, name, emoji, endpoint, key) =>
        Updatable(config, previous, name, emoji, endpoint, key, valid)
      case Select(key) => Listed(config.servers, key).Some?
      case Delete(key, pinsKept) => Deletable(config, key, pinsKept)
      case SetMode(enabled) => enabled ==> ActiveServer(config).Some?
      case SetExclusion(mac, excluded) => excluded ==> mac in config.exclusions || |config.exclusions| < MAX_EXCLUSIONS
      case SetRouting(routing) => OrderAccepted(routing)
  {
    NormalFormIsCanonical(config.exclusions, config.exclusions);
    match edit {
      case Update(previous, name, emoji, endpoint, key) =>
        UpdateAccepted(config, previous, name, emoji, endpoint, key, valid);
      case Delete(key, pinsKept) => DeleteAccepted(config, key, pinsKept);
      case SetExclusion(mac, excluded) => ExclusionAccepted(config, mac, excluded);
      case _ =>
    }
  }

  lemma UpdateAccepted(config: Config, previous: Key, name: string, emoji: Option<string>, endpoint: string, key: Key,
    valid: Validator)
    ensures var result := UpdateServer(config, previous, name, emoji, endpoint, key, valid);
      && (result.Edited? <==> Updatable(config, previous, name, emoji, endpoint, key, valid))
      && (result.Edited? ==> result.config.exclusions == config.exclusions)
  {
  }

  lemma DeleteAccepted(config: Config, key: Key, pinsKept: bool)
    ensures var result := DeleteServer(config, key, pinsKept);
      && (result.Edited? <==> Deletable(config, key, pinsKept))
      && (result.Edited? ==> result.config.exclusions == config.exclusions)
  {
    DeletedSome(config.servers, key);
    var rest := Without(config.servers, key);
    assert rest != [] ==> rest[0] in rest;
    assert (exists s :: s in config.servers && s.publicKey != key) <==> exists s :: s in rest;
  }

  lemma ExclusionAccepted(config: Config, mac: Mac, excluded: bool)
    requires Strictly(config.exclusions) && |config.exclusions| <= MAX_EXCLUSIONS
    ensures var result := SetExcluded(config, mac, excluded);
      && (result.Edited? <==> (excluded ==> mac in config.exclusions || |config.exclusions| < MAX_EXCLUSIONS))
      && (result.Edited? ==> |Normalized(result.config.exclusions)| <= MAX_EXCLUSIONS)
  {
    var next := Normalized(RemoveMac(config.exclusions, mac) + if excluded then [mac] else []);
    ExclusionCount(config.exclusions, mac, excluded);
    NormalFormIsCanonical(next, next);
  }

  /** Any listed server may go, but for the last one while the tunnel uses it. */
  predicate Deletable(config: Config, key: Key, pinsKept: bool) {
    && pinsKept && Listed(config.servers, key).Some?
    && (config.vpnEnabled && config.activeKey == Some(key) ==> exists s :: s in config.servers && s.publicKey != key)
  }

  /** A listed server may be changed unless it is managed and would move, the result is invalid or its key is taken. */
  predicate Updatable(config: Config, previous: Key, name: string, emoji: Option<string>, endpoint: string, key: Key,
    valid: Validator) {
    var listed := Listed(config.servers, previous);
    && listed.Some?
    && (listed.value.management.Some? ==> endpoint == listed.value.endpoint && key == listed.value.publicKey)
    && valid(listed.value.(name := name, endpoint := endpoint, publicKey := key,
               emoji := if emoji.Some? then emoji.value else listed.value.emoji))
    && !KeyElsewhere(config.servers, Position(config.servers, previous).value, key)
  }

  lemma {:induction false} DeletedSome(servers: seq<Server>, key: Key)
    ensures |Without(servers, key)| <= |servers|
    ensures |Without(servers, key)| == |servers| <==> Listed(servers, key).None?
  {
    if servers != [] {
      DeletedSome(servers[1..], key);
      assert Listed(servers[1..], key).Some? ==> Listed(servers, key).Some? by {
        if Position(servers[1..], key).Some? {
          assert servers[Position(servers[1..], key).value + 1].publicKey == key;
        }
      }
      if servers[0].publicKey != key && Position(servers, key).Some? {
        var i := Position(servers, key).value;
        assert servers[1..][i - 1].publicKey == key;
      }
    }
  }

  lemma {:induction false} OneMoreMac(macs: seq<Mac>, mac: Mac)
    requires Strictly(macs)
    ensures |WithMac(macs, mac)| == |macs| + if mac in macs then 0 else 1
  {
    if macs != [] && macs[0] < mac {
      assert macs == [macs[0]] + macs[1..];
      OneMoreMac(macs[1..], mac);
    } else if macs != [] {
      assert mac in macs ==> mac == macs[0];
    }
  }

  lemma {:induction false} OneMacLess(macs: seq<Mac>, mac: Mac)
    requires Strictly(macs)
    ensures |RemoveMac(macs, mac)| == |macs| - if mac in macs then 1 else 0
    ensures Strictly(RemoveMac(macs, mac))
  {
    if macs != [] {
      assert macs == [macs[0]] + macs[1..];
      OneMacLess(macs[1..], mac);
      var rest := RemoveMac(macs[1..], mac);
      assert forall i :: 0 <= i < |rest| ==> rest[i] in rest && rest[i] in macs[1..];
    }
  }

  lemma ExclusionCount(macs: seq<Mac>, mac: Mac, excluded: bool)
    requires Strictly(macs)
    ensures var next := Normalized(RemoveMac(macs, mac) + if excluded then [mac] else []);
      |next| == |macs| + (if excluded && mac !in macs then 1 else 0) - (if !excluded && mac in macs then 1 else 0)
  {
    var next := Normalized(RemoveMac(macs, mac) + if excluded then [mac] else []);
    OneMoreMac(macs, mac);
    OneMacLess(macs, mac);
    AscendingIsUnique(next, if excluded then WithMac(macs, mac) else RemoveMac(macs, mac));
  }

  /** What the edits of rules, exclusions, mode and selection do, and that they do nothing else. */
  lemma OtherEditsSet(config: Config, edit: Edit, valid: Validator)
    requires Strictly(config.exclusions) && RunEdit(config, edit, valid).Edited?
    ensures var next := RunEdit(config, edit, valid).config;
      match edit
      case SetRouting(routing) => next == config.(routing := routing)
      case SetMode(enabled) => next == config.(vpnEnabled := enabled)
      case Select(key) => next == config.(activeKey := Some(key)) && Listed(config.servers, key).Some?
      case SetExclusion(mac, excluded) =>
        && next == config.(exclusions := next.exclusions) && Strictly(next.exclusions)
        && forall m :: m in next.exclusions <==> if m == mac then excluded else m in config.exclusions
      case Delete(_, _) => next == config.(servers := next.servers, activeKey := next.activeKey)
      case Import(server) => next == config.(servers := next.servers, activeKey := next.activeKey)
        && next.activeKey == if config.activeKey.None? && Listed(config.servers, server.publicKey).None?
                             then Some(server.publicKey) else config.activeKey
      case Add(server) => next == config.(servers := config.servers + [server], activeKey := next.activeKey)
        && next.activeKey == if config.activeKey.None? then Some(server.publicKey) else config.activeKey
      case Update(_, _, _, _, _) => next == config.(servers := next.servers, activeKey := next.activeKey)
  {
    NormalFormIsCanonical(config.exclusions, config.exclusions);
    if edit.SetExclusion? {
      var next := RunEdit(config, edit, valid).config;
      var applied := Apply(config, edit, valid).config;
      NormalFormIsCanonical(applied.exclusions, next.exclusions);
      NormalFormIsCanonical(next.exclusions, next.exclusions);
    }
  }

  /**
   * But for an import, which may bring new credentials, an edit is labelled as one of the network exactly if it
   * changes the desired tunnel and does not give its server to a dangling key.
   */
  lemma NetworkExactly(config: Config, edit: Edit, valid: Validator)
    requires RunEdit(config, edit, valid).Edited? && !edit.Import?
    ensures var edited := RunEdit(config, edit, valid);
      (edited.change == Network) ==
        (DesiredNetwork(edited.config) != DesiredNetwork(config) && !NamesDangling(config, edit))
  {
    match RunEdit(config, edit, valid).change {
      case ConfigOnly => LabelIsRight(config, edit, valid);
      case Policy => PolicyKeepsNetwork(config, edit, valid);
      case Network => NetworkMoves(config, edit, valid);
    }
  }

  lemma NetworkMoves(config: Config, edit: Edit, valid: Validator)
    requires Apply(config, edit, valid).Edited? && Apply(config, edit, valid).change == Network && !edit.Import?
    ensures DesiredNetwork(Apply(config, edit, valid).config) != DesiredNetwork(config) && !NamesDangling(config, edit)
  {
    var next := Apply(config, edit, valid).config;
    match edit {
      case Add(server) => FirstListing(config.servers, server, server.publicKey);
      case Update(previous, _, _, _, key) =>
        var index := Position(config.servers, previous).value;
        ReplacedListing(config.servers, index, next.servers[index], key);
      case Delete(key, _) =>
        assert next.servers != [] ==> next.servers[0] in next.servers;
      case _ =>
    }
  }

  /** An edit is labelled as one of the network only while the tunnel is, or comes, on or goes off. */
  lemma NetworkNeedsTunnel(config: Config, edit: Edit, valid: Validator)
    requires RunEdit(config, edit, valid).Edited? && RunEdit(config, edit, valid).change == Network
    ensures config.vpnEnabled || RunEdit(config, edit, valid).config.vpnEnabled
  {
  }

  /** Rules change only by an edit of the rules, and then to an accepted order. */
  lemma EditKeepsRouting(config: Config, edit: Edit, valid: Validator)
    requires RunEdit(config, edit, valid).Edited?
    ensures RunEdit(config, edit, valid).config.routing == config.routing
      || OrderAccepted(RunEdit(config, edit, valid).config.routing)
    ensures Strictly(RunEdit(config, edit, valid).config.exclusions)
  {
  }

  // ----- what each edit does to the list -----

  /** Importing adds or replaces one server; a known one keeps its emoji, a managed one its endpoint and management. */
  lemma ImportTouchesOne(config: Config, server: Server, key: Key)
    requires UniqueKeys(config.servers)
    ensures var previous := Listed(config.servers, server.publicKey);
      var after := Listed(ImportServer(config, server).config.servers, key);
      after ==
        if key != server.publicKey then Listed(config.servers, key)
        else if previous.None? then Some(server)
        else Some(server.(emoji := previous.value.emoji,
          management := if previous.value.management.Some? then previous.value.management else server.management,
          endpoint := if previous.value.management.Some? then previous.value.endpoint else server.endpoint))
  {
    var index := Position(config.servers, server.publicKey);
    if index.None? {
      ListedAfterAppend(config.servers, server, key);
    } else {
      var kept := ReplaceImported(config, server, index.value).config.servers[index.value];
      ListedAfterReplace(config.servers, index.value, kept, key);
    }
  }

  /** Updating renames one key at most, keeps its credentials, and never moves a managed server. */
  lemma UpdateTouchesOne(config: Config, previous: Key, name: string, emoji: Option<string>, endpoint: string,
    newKey: Key, valid: Validator, key: Key)
    requires UniqueKeys(config.servers) && UpdateServer(config, previous, name, emoji, endpoint, newKey, valid).Edited?
    ensures var next := UpdateServer(config, previous, name, emoji, endpoint, newKey, valid).config;
      var before := Listed(config.servers, previous);
      && before.Some? && (before.value.management.Some? ==> before.value.endpoint == endpoint && previous == newKey)
      && (config.activeKey == Some(previous) ==> next.activeKey == Some(newKey))
      && (config.activeKey != Some(previous) ==> next.activeKey == config.activeKey)
      && Listed(next.servers, key) ==
        if key == newKey then
          Some(before.value.(name := name, endpoint := endpoint, publicKey := newKey,
            emoji := if emoji.Some? then emoji.value else before.value.emoji))
        else if key == previous then None
        else Listed(config.servers, key)
  {
    var index := Position(config.servers, previous).value;
    var next := UpdateServer(config, previous, name, emoji, endpoint, newKey, valid).config;
    ListedAfterReplace(config.servers, index, next.servers[index], key);
  }

  /** Deleting removes one server; if it was active, the first remaining one takes over. */
  lemma DeleteTouchesOne(config: Config, removed: Key, pinsKept: bool, key: Key)
    requires UniqueKeys(config.servers) && DeleteServer(config, removed, pinsKept).Edited?
    ensures var next := DeleteServer(config, removed, pinsKept).config;
      && Listed(next.servers, key) == (if key == removed then None else Listed(config.servers, key))
      && (config.activeKey != Some(removed) ==> next.activeKey == config.activeKey)
      && (config.activeKey == Some(removed) ==>
            next.activeKey == if next.servers == [] then None else Some(next.servers[0].publicKey))
  {
    if key != removed {
      OthersListing(config.servers, removed, key);
    } else {
      NoneLeft(config.servers, removed);
    }
  }

  lemma NoneLeft(servers: seq<Server>, removed: Key)
    ensures Listed(Without(servers, removed), removed) == None
  {
    var rest := Without(servers, removed);
    assert forall k :: 0 <= k < |rest| ==> rest[k] in rest && rest[k].publicKey != removed;
  }

  // ----- what the kernel and the tunnel see -----

  /** The tunnel a configuration asks for. */
  datatype Desired =
    | Bypass
    | NoServer
    | Tunnel(endpoint: string, publicKey: Key, address: Option<int>, privateKey: Option<Key>)

  function DesiredNetwork(config: Config): Desired {
    if !config.vpnEnabled then Bypass
    else
      var active := ActiveServer(config);
      if active.None? then NoServer
      else Tunnel(active.value.endpoint, active.value.publicKey, active.value.tunnelAddress, active.value.privateKey)
  }

  /** The alias 10.202.1.host of a tunnel address 10.202.0.2 to 10.202.0.254. */
  function WarpAlias(address: int): Option<int> {
    if 0x0aca_0002 <= address <= 0x0aca_00fe then Some(address + 0x100) else None
  }

  function FromConfig(config: Config): VpnEgress {
    var active := ActiveServer(config);
    VpnEgress(config.vpnEnabled,
      if active.Some? && active.value.management.Some? && active.value.tunnelAddress.Some?
      then WarpAlias(active.value.tunnelAddress.value) else None)
  }

  /** Two egress states the renderer cannot tell apart: with the tunnel off, the alias does not matter. */
  predicate SameEgress(a: VpnEgress, b: VpnEgress) {
    a.enabled == b.enabled && ActiveWarpSource(a) == ActiveWarpSource(b)
  }

  lemma SameTargets(a: VpnEgress, b: VpnEgress, target: RouteTarget)
    requires SameEgress(a, b)
    ensures EgressTarget(a, target) == EgressTarget(b, target)
  {
  }

  lemma {:induction false} SameFakeRules(a: VpnEgress, b: VpnEgress, targets: seq<RouteTarget>)
    requires SameEgress(a, b)
    ensures FakeRules(a, targets) == FakeRules(b, targets)
  {
    if targets != [] {
      SameTargets(a, b, targets[0]);
      SameFakeRules(a, b, targets[1..]);
    }
  }

  lemma {:induction false} SameIpRules(config: RoutingConfig, a: VpnEgress, b: VpnEgress, indices: seq<nat>)
    requires SameEgress(a, b) && IndicesInRange(config, indices)
    ensures IpRuleRules(config, a, indices) == IpRuleRules(config, b, indices)
  {
    if indices != [] {
      SameTargets(a, b, config.ipRules[indices[0]].target);
      SameIpRules(config, a, b, indices[1..]);
    }
  }

  lemma SameChain(lan: Lan, a: VpnEgress, b: VpnEgress, config: RoutingConfig, panel: PanelPorts)
    requires SameEgress(a, b) && InRange(config, RuleRefs(config))
    ensures MarkChain(lan, a, config, panel) == MarkChain(lan, b, config, panel)
  {
    IndicesAreInRange(config);
    SameFakeRules(a, b, FAKE_TARGETS);
    SameIpRules(config, a, b, IpRuleIndices(config));
    SameTargets(a, b, EffectiveFallback(config));
  }

  /** Everything but the servers and their keys. */
  predicate SamePolicy(a: Config, b: Config) {
    && a.routing == b.routing && a.exclusions == b.exclusions
    && a.vpnEnabled == b.vpnEnabled && a.autoUpdate == b.autoUpdate
  }

  predicate Invisible(config: Config, next: Config) {
    && SamePolicy(config, next)
    && SameEgress(FromConfig(config), FromConfig(next))
    && DesiredNetwork(config) == DesiredNetwork(next)
  }

  /** While the VPN is on, the active server is the same but for its name and emoji, or there is none. */
  predicate SameActive(config: Config, next: Config) {
    var before, after := ActiveServer(config), ActiveServer(next);
    config.vpnEnabled ==>
      && before.Some? == after.Some?
      && (before.Some? ==> before.value.(name := "", emoji := "") == after.value.(name := "", emoji := ""))
  }

  lemma SameActiveIsInvisible(config: Config, next: Config)
    requires SamePolicy(config, next) && SameActive(config, next)
    ensures Invisible(config, next)
  {
  }

  /** The tunnel is on for a key that names no server, and the edit gives that key to one. */
  predicate NamesDangling(config: Config, edit: Edit) {
    && config.vpnEnabled && config.activeKey.Some? && ActiveServer(config).None?
    && match edit
       case Import(server) => server.publicKey == config.activeKey.value
       case Add(server) => server.publicKey == config.activeKey.value
       case Update(_, _, _, _, key) => key == config.activeKey.value
       case _ => false
  }

  /** Appending never changes an earlier listing. */
  lemma {:induction false} FirstListing(servers: seq<Server>, server: Server, key: Key)
    ensures Listed(servers + [server], key) ==
      if Listed(servers, key).Some? then Listed(servers, key)
      else if server.publicKey == key then Some(server)
      else None
  {
    if servers != [] {
      assert (servers + [server])[1..] == servers[1..] + [server];
      FirstListing(servers[1..], server, key);
    }
  }

  /**
   * Replacing an entry leaves other keys' listings alone and becomes the listing of its own key if no entry
   * precedes it.
   */
  lemma ReplacedListing(servers: seq<Server>, i: nat, server: Server, key: Key)
    requires i < |servers|
    ensures key != server.publicKey && key != servers[i].publicKey ==>
      Listed(servers[i := server], key) == Listed(servers, key)
    ensures key == server.publicKey && (forall k :: 0 <= k < i ==> servers[k].publicKey != key) ==>
      Listed(servers[i := server], key) == Some(server)
  {
    var after := servers[i := server];
    assert after[i] == server && forall k :: 0 <= k < |after| && k != i ==> after[k] == servers[k];
    var index := Position(servers, key);
    assert index.Some? ==> after[index.value] == if index.value == i then server else servers[index.value];
  }

  lemma InsertLabel(config: Config, server: Server)
    requires InsertServer(config, server).Edited? && InsertServer(config, server).change == ConfigOnly
    ensures var next := InsertServer(config, server).config;
      if NamesDangling(config, Add(server)) then ActiveServer(next).Some? else SameActive(config, next)
  {
    if config.vpnEnabled {
      FirstListing(config.servers, server, config.activeKey.value);
    }
  }

  lemma ImportLabel(config: Config, server: Server)
    requires ImportServer(config, server).Edited? && ImportServer(config, server).change == ConfigOnly
    ensures var next := ImportServer(config, server).config;
      if NamesDangling(config, Import(server)) then ActiveServer(next).Some? else SameActive(config, next)
  {
    var index := Position(config.servers, server.publicKey);
    if index.None? {
      InsertLabel(config, server);
    } else if config.vpnEnabled && config.activeKey.Some? {
      var kept := ReplaceImported(config, server, index.value).config.servers[index.value];
      ReplacedListing(config.servers, index.value, kept, config.activeKey.value);
    }
  }

  lemma UpdateLabel(config: Config, previous: Key, name: string, emoji: Option<string>, endpoint: string,
    key: Key, valid: Validator)
    requires var result := UpdateServer(config, previous, name, emoji, endpoint, key, valid);
      result.Edited? && result.change == ConfigOnly
    ensures var next := UpdateServer(config, previous, name, emoji, endpoint, key, valid).config;
      if NamesDangling(config, Update(previous, name, emoji, endpoint, key)) then ActiveServer(next).Some?
      else SameActive(config, next)
  {
    if config.vpnEnabled && config.activeKey.Some? {
      var index := Position(config.servers, previous).value;
      var next := UpdateServer(config, previous, name, emoji, endpoint, key, valid).config;
      ReplacedListing(config.servers, index, next.servers[index], next.activeKey.value);
    }
  }

  lemma DeleteLabel(config: Config, key: Key, pinsKept: bool)
    requires DeleteServer(config, key, pinsKept).Edited? && DeleteServer(config, key, pinsKept).change == ConfigOnly
    ensures SameActive(config, DeleteServer(config, key, pinsKept).config)
  {
    if config.vpnEnabled && config.activeKey.Some? {
      OthersListing(config.servers, key, config.activeKey.value);
    }
  }

  lemma ApplyLabel(config: Config, edit: Edit, valid: Validator)
    requires Apply(config, edit, valid).Edited? && Apply(config, edit, valid).change == ConfigOnly
    ensures var next := Apply(config, edit, valid).config;
      && SamePolicy(config, next)
      && if NamesDangling(config, edit) then ActiveServer(next).Some? else SameActive(config, next)
  {
    match edit {
      case Import(server) => ImportLabel(config, server);
      case Add(server) => InsertLabel(config, server);
      case Update(previous, name, emoji, endpoint, key) =>
        UpdateLabel(config, previous, name, emoji, endpoint, key, valid);
      case Delete(key, pinsKept) => DeleteLabel(config, key, pinsKept);
      case _ =>
    }
  }

  /**
   * Exactly when the label "configuration only" is right, for every configuration and every edit: the tunnel
   * changes in one case only, and nothing at all is to be applied again if the exclusions were normal too.
   */
  lemma LabelIsRight(config: Config, edit: Edit, valid: Validator)
    requires RunEdit(config, edit, valid).Edited? && RunEdit(config, edit, valid).change == ConfigOnly
    ensures DesiredNetwork(config) == DesiredNetwork(RunEdit(config, edit, valid).config)
      <==> !NamesDangling(config, edit)
    ensures Invisible(config, RunEdit(config, edit, valid).config)
      <==> Strictly(config.exclusions) && !NamesDangling(config, edit)
  {
    var applied := Apply(config, edit, valid).config;
    var next := RunEdit(config, edit, valid).config;
    ApplyLabel(config, edit, valid);
    NormalFormIsCanonical(config.exclusions, config.exclusions);
    assert ActiveServer(next) == ActiveServer(applied);
    if !NamesDangling(config, edit) {
      SameActiveIsInvisible(config, applied);
    }
  }

  /**
   * Two edits labelled configuration only that bring up a tunnel: adding the missing server, and renaming
   * another to its key.
   */
  lemma LabelCanBeWrong(routing: RoutingConfig)
    ensures
      var other := Server("other", "a", "192.0.2.1:51820", "other", None, None, None);
      var config := Config(false, [], true, Some("gone"), [other], routing);
      var added := RunEdit(config, Add(other.(publicKey := "gone")), _ => true);
      var renamed := RunEdit(config, Update("other", "other", None, other.endpoint, "gone"), _ => true);
      && DesiredNetwork(config) == NoServer
      && added.Edited? && added.change == ConfigOnly && DesiredNetwork(added.config).Tunnel?
      && renamed.Edited? && renamed.change == ConfigOnly && DesiredNetwork(renamed.config).Tunnel?
  {
    var other := Server("other", "a", "192.0.2.1:51820", "other", None, None, None);
    var config := Config(false, [], true, Some("gone"), [other], routing);
    assert Position(config.servers, "gone").None? && Position(config.servers, "other") == Some(0);
    var update := Update("other", "other", None, other.endpoint, "gone");
    assert Apply(config, Add(other.(publicKey := "gone")), _ => true).Edited?;
    assert Apply(config, update, _ => true).Edited?;
    ApplyLabel(config, Add(other.(publicKey := "gone")), _ => true);
    ApplyLabel(config, update, _ => true);
  }

  /** An edit labelled as configuration only leaves the tunnel alone, and the ruleset in force stays the right one. */
  lemma ConfigOnlyIsInvisible(config: Config, edit: Edit, valid: Validator)
    requires Valid(config)
    requires RunEdit(config, edit, valid).Edited? && RunEdit(config, edit, valid).change == ConfigOnly
    ensures Invisible(config, RunEdit(config, edit, valid).config)
  {
    LabelIsRight(config, edit, valid);
  }

  lemma InvisibleRendersAlike(config: Config, next: Config, ruleset: Ruleset, lan: Lan, geo: GeoData,
    mappings: seq<FakeMapping>, panel: PanelPorts)
    requires Invisible(config, next) && InRange(config.routing, RuleRefs(config.routing))
    ensures IndicesInRange(config.routing, IpRuleIndices(config.routing))
    ensures Renders(ruleset, lan, FromConfig(config), config.routing, geo, mappings, panel, config.exclusions)
      <==> Renders(ruleset, lan, FromConfig(next), next.routing, geo, mappings, panel, next.exclusions)
  {
    IndicesAreInRange(config.routing);
    SameChain(lan, FromConfig(config), FromConfig(next), config.routing, panel);
  }

  /** An edit that changes the tunnel asks for a listed server, or for none. */
  lemma NetworkNamesServer(config: Config, edit: Edit, valid: Validator)
    requires RunEdit(config, edit, valid).Edited? && RunEdit(config, edit, valid).change == Network
    ensures DesiredNetwork(RunEdit(config, edit, valid).config) != NoServer
  {
    var next := Apply(config, edit, valid).config;
    match edit {
      case Import(server) =>
        var index := Position(config.servers, server.publicKey);
        if index.None? {
          FirstListing(config.servers, server, server.publicKey);
        } else {
          var kept := ReplaceImported(config, server, index.value).config.servers[index.value];
          ReplacedListing(config.servers, index.value, kept, server.publicKey);
        }
      case Add(server) => FirstListing(config.servers, server, server.publicKey);
      case Update(previous, _, _, _, key) =>
        var index := Position(config.servers, previous).value;
        assert next.servers[index].publicKey == key;
      case Delete(_, _) => assert next.servers != [] ==> Listed(next.servers, next.servers[0].publicKey).Some?;
      case _ =>
    }
  }

  /** An edit labelled as policy leaves the tunnel alone. */
  lemma PolicyKeepsNetwork(config: Config, edit: Edit, valid: Validator)
    requires RunEdit(config, edit, valid).Edited? && RunEdit(config, edit, valid).change == Policy
    ensures DesiredNetwork(RunEdit(config, edit, valid).config) == DesiredNetwork(config)
  {
  }
}
