# Verification of the Gofro agent, server and relay

A Dafny model of the parts of Gofro that turn a policy into packet marks, move a router between
configurations, hand out fake addresses, derive password keys and manage peers, with proofs about all inputs,
all runs and all failures. Each module follows one file of the program or one part of it.

- **IPv4 policy compiler.** `Ipv4`, `Aggregation`, `CanonicalForm` and `Intervals` model network lists: the
  in-place aggregation, its canonical form and its three readings. `Wire`, `WireReader`, `GeoIpCatalog`,
  `GeoIpDecoder`, `OfflinePrepare` and `PreparedCatalog` model the binary catalogs as the agent and the offline
  tool read them. `Routing` is the meaning of a policy; `Dataplane`, `PolicyCompiler`, `MarkBits`,
  `MarkOperations` and `Renderer` are the nft chain as rules with an evaluator, and the proof that the chain
  computes the policy. `RuleOrder`, `RuleDrafts` and `Overlap` model the checks and edits of rule lists.
- **Controller.** `Servers` has the configuration edits and how much each must apply again; `Controller` is the
  transaction over file, memory, kernel, network and forwarding guard. Every external step may fail; the class
  records every state the outside could see. It renders and installs real tables and owns the lease store, so that
  each of these states is guarded, or treats every packet as the configuration asks.
- **FakeDNS.** `Leases` and `FakeDns` keep memory, database rows and the kernel's mapping together; `Resolver`
  decides which answers are rewritten and which upstream is asked. `DomainEnforcement` puts FakeDNS, the renderer
  and the mark chain together.
- **Password keys.** `RoMix`, `Salsa`, `SalsaVector`, `CheckpointedRoMix` and `Scrypt` prove the memory-bounded
  scrypt equal to RFC 7914 (sections 3 to 6 and 8). `Sessions` is the protocol of setup, login, password change and
  logout.
- **VPS peers.** `Peers` and `PeerOwnership` keep live WireGuard, its saved configuration and the metadata file
  consistent when commands, saves and rollbacks fail.
- **Relay.** `Relay` is the packet envelope for any keystream generator, `RelayCodec` the program's own.

External commands, files and the database are steps with a nondeterministic outcome. An nft script and a
database transaction either happen or do not. A failed WireGuard command may or may not have taken effect, and a
failed configuration reload may have applied any part. File writes can fail before or after the rename. Failures
are counted, so contracts also say when an operation succeeds. Clocks, generated keys, decoded catalogs,
PBKDF2 and text validation are parameters.

Four findings hold of the code as it is. After a restart FakeDNS may have deleted a row whose address a
surviving kernel table still maps; `FakeDns.OpenKeepsMapped` says exactly when, and the next applied policy
removes the difference. With the VPN on and an active key that names no server, an edit that gives this key to a
server is labelled as if nothing had to be applied, and it changes the tunnel; `Servers.LabelIsRight` says that
this is the only case. Loading a file does not exclude such a configuration, but the controller never meets the
case: no edit is accepted before a reconcile completes, and none completes without the server
(`Controller.Controller.Run`). After a failure past publication, `set_auto_update` leaves the old flag in memory,
so agreement of file and memory is stated up to that flag. When a policy was committed to table and leases, the
save failed and the rollback failed too, answers go on using the old policy, and the leases soon follow neither
(`FakeDns.AppliedNotAdopted`); forwarding is guarded then, and as long as it is not, the leases follow the active
policy (`Controller.Controller.Run`).

`dafny verify dfyconfig.toml` checks the whole project.

## Model

| member | source | states |
|---|---|---|
| `Aggregation.SortInPlace` | crates/gofro-agent/src/geodata.rs:365 | the vector is replaced by a permutation ordered by network and then prefix length, covering the same addresses |
| `Aggregation.MergeUp` | crates/gofro-agent/src/geodata.rs:372-382 | the inner loop pops the other half of the parent as long as there is one; what is left can be pushed and covers the same addresses |
| `Aggregation.Place` | crates/gofro-agent/src/geodata.rs:368-385 | one pass of the outer loop: an entry inside the top is dropped, any other is merged and pushed, and the unread entries are untouched |
| `Aggregation.Aggregate` | crates/gofro-agent/src/geodata.rs:364-388 | in place: the result is canonical (sorted, disjoint, no two siblings) and covers exactly the addresses it was given |
| `CanonicalForm.BlockInsideOne` | crates/gofro-agent/src/geodata.rs:364-388 | an aligned block whose addresses are all covered by a canonical list lies inside one entry of it |
| `CanonicalForm.CanonicalIsUnique` | crates/gofro-agent/src/geodata.rs:364-388 | two canonical lists that cover the same addresses are equal, so the result depends on the covered set only: it is idempotent and independent of order |
| `CanonicalForm.CanonicalOf` | crates/gofro-agent/src/geodata.rs:364-388 | every list has a canonical list with the same cover |
| `CanonicalForm.CanonicalIsShortest` | crates/gofro-agent/src/geodata.rs:364-388 | no list of networks for the same addresses is shorter than the canonical one |
| `CanonicalForm.SiblingsAreNeighbours` | crates/gofro-agent/src/geodata.rs:374-381 | in a sorted disjoint list two siblings can only be adjacent, which is why comparing with the top of the stack suffices |
| `Ipv4.ParentContainsOnlySibling` | crates/gofro-agent/src/geodata.rs:374-381 | the test of the inner loop (same length, inside the parent) recognises exactly the sibling |
| `Ipv4.BaseClearsHostBits` | crates/gofro-agent/src/geodata.rs:349-353 | truncating a network keeps a multiple of its block size |
| `Ipv4.SameBlock` | crates/gofro-agent/src/geodata.rs:349-353 | a network has exactly the addresses with the same leading bits |
| `Intervals.SearchNetworks` | crates/gofro-agent/src/geodata.rs:251-255 | on a canonical list the binary search answers as a test of every network does |
| `Intervals.LastBelowDecides` | crates/gofro-agent/src/geodata.rs:251-255 | only the last network starting at or below an address can contain it |
| `Intervals.GrowInterval` | crates/gofro-agent/src/dataplane.rs:265-272 | the inner loop extends one interval as far as networks are adjacent, with no overflow at the last address |
| `Intervals.AppendNetworks` | crates/gofro-agent/src/dataplane.rs:260-283 | the emitted intervals cover exactly the networks, are separated by gaps, and are as many as the budget of `select` charges (`geodata.rs:206-215`) |
| `Routing.RootsAreSuffixRules` | crates/gofro-agent/src/geodata.rs:52-63 | the loop over dots that looks names up among the roots accepts exactly the names at or below a root |
| `Wire.WriteVarint` | deploy/prepare-geodata.py:9-15 | the loop writes the base-128 form |
| `Wire.VarintRoundTrip` | deploy/prepare-geodata.py:9-30 | reading inverts writing for exactly the values below 2^64, whatever follows; larger values are refused |
| `Wire.LowGroupFirst` | deploy/prepare-geodata.py:9-15 | the low seven bits come first, with the high bit set when more follow |
| `Wire.ReadVarintFits` | crates/gofro-agent/src/geodata/wire.rs:40-54 | every accepted integer is below 2^64 |
| `Wire.ParseVarint` | deploy/prepare-geodata.py:18-30 | the loop over shifts with an accumulator computes the recursive reading and the new offset |
| `WireReader.Reader.ReadInteger` | crates/gofro-agent/src/geodata/wire.rs:40-54 | the reader's loop computes the same reading of the bytes left, and moves past it |
| `WireReader.Reader.Skip` | crates/gofro-agent/src/geodata/wire.rs:63-70 | moves forward inside the current end or fails without moving |
| `WireReader.Reader.NextBytes` | crates/gofro-agent/src/geodata/wire.rs:88-96 | a length-delimited value becomes its place in the file; it fails exactly when the bytes are not there |
| `WireReader.Reader.NextField` | crates/gofro-agent/src/geodata/wire.rs:72-104 | one field by position equals one field parsed from the bytes left; it fails exactly when parsing does, and a field read strictly advances |
| `WireReader.Reader.Enter` | crates/gofro-agent/src/geodata/wire.rs:106-114 | entering a range makes the bytes left equal to the extracted slice |
| `WireReader.Reader.Leave` | crates/gofro-agent/src/geodata/wire.rs:115-118 | leaving restores position and end |
| `Wire.MessageParses` | deploy/prepare-geodata.py:58-59 | the tool's `message` reads back as one length-delimited field with the same content, whatever follows |
| `Wire.MessageHeader` | deploy/prepare-geodata.py:58-59 | a message starts with its number and wire type 2, then its length |
| `Wire.IntegerFieldParses` | deploy/prepare-geodata.py:102-107 | an integer field it writes reads back as that integer |
| `Wire.RunStep` | crates/gofro-agent/src/geodata/wire.rs:72-104 | reading a message lazily field by field gives what parsing it whole and folding over the fields gives |
| `GeoIpDecoder.ReadCidr` | crates/gofro-agent/src/geodata.rs:331-356 | the callback on one CIDR message returns the network of its last address and prefix, none for another address length or a prefix over 32, and restores the reader |
| `GeoIpDecoder.DecodeIp` | crates/gofro-agent/src/geodata.rs:322-362 | the returned list is canonical and covers exactly the IPv4 networks of the entry; it fails exactly when the message is malformed |
| `GeoIpDecoder.ReadHead` | crates/gofro-agent/src/geodata.rs:77-95 | the last tag, lower-cased, and the last inverse flag of an entry |
| `GeoIpDecoder.OpenIndex` | crates/gofro-agent/src/geodata.rs:67-105 | the index maps every tag to the place of its last non-inverse entry; it fails exactly when the file is malformed |
| `OfflinePrepare.ParseField` | deploy/prepare-geodata.py:33-55 | one turn of the generator: the field at an offset and the next offset, or an error exactly when parsing fails |
| `OfflinePrepare.ReadNetwork` | deploy/prepare-geodata.py:86-99 | the innermost loop collects a network from four address bytes and a prefix up to 32 |
| `OfflinePrepare.ReadEntry` | deploy/prepare-geodata.py:70-99 | the middle loop keeps the last tag, the last flag and all networks of an entry |
| `OfflinePrepare.WriteEntry` | deploy/prepare-geodata.py:100-109 | the rewritten entry: tag, then the flag or the collapsed networks |
| `OfflinePrepare.PrepareCatalog` | deploy/prepare-geodata.py:62-111 | the lazy loop produces the prepared catalog of the whole input, or fails exactly when it has none |
| `GeoIpCatalog.CidrMessagesAgree` | crates/gofro-agent/src/geodata.rs:331-356 | agent and tool read the same network from every CIDR message, and reject the same messages |
| `GeoIpCatalog.BytesInNetworkOrder` | crates/gofro-agent/src/geodata.rs:340-353 | the first byte is the most significant: for 0 to 4 whole bytes, a network has an address exactly if the leading bytes agree |
| `GeoIpCatalog.LowerIgnoresCase` | crates/gofro-agent/src/geodata.rs:85 | tags are the same exactly if they differ at most in the case of ASCII letters |
| `GeoIpCatalog.LastEntryWins` | crates/gofro-agent/src/geodata.rs:67-105 | the index has exactly the tags of entries that are not inverse, and of several the last |
| `GeoIpCatalog.CookedParses` | deploy/prepare-geodata.py:100-109 | a rewritten entry parses into its tag and its flag or networks |
| `GeoIpCatalog.CollapseExists` | deploy/prepare-geodata.py:104 | a collapse as the library documents it exists |
| `GeoIpCatalog.PreparationIsInvisible` | deploy/prepare-geodata.py:62-111 | for every catalog the tool accepts and the agent can index, indexing the original and the prepared file gives the same tags and equal decoded lists |
| `PreparedCatalog.DecodeTag` | crates/gofro-agent/src/geodata.rs:67-122 | opening a file and asking for a tag: unreadable, missing, malformed or the canonical list of the entry, exactly as the whole file says |
| `PreparedCatalog.LookupsAgree` | deploy/prepare-geodata.py:62-111 | any two such lookups in an indexable file and its prepared form are equal, and neither is malformed |
| `PreparedCatalog.DecodeBoth` | deploy/prepare-geodata.py:62-111 | the loops composed: preparing a file and asking it for a tag gives what asking the original file gives |
| `Routing.ComputeDnsTarget` | crates/gofro-agent/src/routing.rs:149-194 | the one-pass loop with early stops returns the most protected of the outcomes still possible |
| `Routing.TargetIsAnOutcome` | crates/gofro-agent/src/routing.rs:116-139 | whatever address the answer holds, its target is among the outcomes considered |
| `Routing.DnsIsAtLeastAsProtected` | crates/gofro-agent/src/routing.rs:149-194 | for every domain and non-LAN address the lookup ranks at least as high as the connection |
| `Routing.DnsTargetIs` | crates/gofro-agent/src/routing.rs:149-194 | a lookup goes to WARP if any outcome is WARP, else to the tunnel if any is, else directly if any is, and is blocked exactly if all are |
| `Routing.TargetIs` | crates/gofro-agent/src/routing.rs:116-139 | the LAN is direct, the tunnel takes everything in that mode, otherwise the first enabled rule in order that matches decides, or the default |
| `Routing.SuffixIs` | crates/gofro-agent/src/routing.rs:232-243 | a suffix rule accepts its own name and the names that end in a dot and its name |
| `Routing.WarpIsUsed` | crates/gofro-agent/src/dataplane.rs:597-605 | the switch that rejects IPv6 is on whenever a connection or a lookup may want WARP |
| `Routing.TargetsAgree` | crates/gofro-agent/src/routing.rs:100-139 | without a matching domain rule, `target` and `ip_target` agree |
| `Dataplane.EgressNeverWeakens` | crates/gofro-agent/src/dataplane.rs:58-64 | exactly when each target survives, turns direct or is blocked; WARP is never weakened |
| `Dataplane.BypassOutcome` | crates/gofro-agent/src/dataplane.rs:439-457 | excluded devices and replies leave the chain marked direct, everything else goes on with its marks unchanged |
| `Dataplane.LocalOutcome` | crates/gofro-agent/src/dataplane.rs:459-482 | panel, router and LAN subnet are direct whatever was marked before; any other packet is unmarked again |
| `Dataplane.FakeOutcome` | crates/gofro-agent/src/dataplane.rs:484-491 | a mapped fake address gets the mark of its set |
| `Dataplane.IpRulesOutcome` | crates/gofro-agent/src/dataplane.rs:499-523 | the first enabled matching IP rule decides, otherwise the default, and a packet already marked is left alone |
| `Dataplane.EpilogueOutcome` | crates/gofro-agent/src/dataplane.rs:524-535 | the decision is saved on the connection and blocked packets are dropped |
| `PolicyCompiler.ChainComputesPolicy` | crates/gofro-agent/src/dataplane.rs:418-535 | evaluating the whole chain gives the policy's verdict for every packet and mark, for any lawful mark operations |
| `Renderer.AppendMappings` | crates/gofro-agent/src/dataplane.rs:285-313 | the address map and the four target sets hold exactly the mappings |
| `Renderer.RenderIpSets` | crates/gofro-agent/src/dataplane.rs:398-417 | each enabled GeoIP rule's set matches exactly the addresses of its list |
| `Renderer.Render` | crates/gofro-agent/src/dataplane.rs:362-622 | the emitted ruleset: exclusions, maps, sets, the mark chain and the three switches other chains depend on |
| `Renderer.NftMarksLawful` | crates/gofro-agent/src/dataplane.rs:19-26 | the masks and values of the script set, clear and test marks without interfering |
| `Renderer.RenderedTableComputesPolicy` | crates/gofro-agent/src/dataplane.rs:418-535 | the rendered table answers every packet with 32-bit marks as the policy does |
| `Renderer.ClassifiedMarks` | crates/gofro-agent/src/dataplane.rs:418-535 | a LAN original-direction packet of a device that is not excluded leaves with exactly the decision in mark bits 0x70000 and every other bit unchanged, or is dropped exactly when blocked |
| `Renderer.PacketTakesItsPath` | deploy/openwrt/root/usr/libexec/gofro/mode:52-57 | under the rendered table a packet from the LAN and its connection match the router's rule for the VPN table exactly if the decision is VPN or WARP, the rule for the main table exactly if it is direct, excluded or a reply; one more bit tells WARP; it is dropped exactly if blocked or sent to a closed panel port; all other bits stay |
| `Renderer.OwnershipBit` | crates/gofro-agent/src/dataplane.rs:435-438 | connections of LAN lookups carry bit 0x40000000 and no others gain it |
| `RuleOrder.CheckOrder` | crates/gofro-agent/src/config.rs:232-250 | the flag arrays accept an order exactly when it is a permutation of all rule references |
| `RuleOrder.AcceptedInRange` | crates/gofro-agent/src/config.rs:232-250 | every reference of an accepted configuration names one of its rules, so indexing is safe |
| `RuleDrafts.PackRules` | web/src/pages/routing-rules.ts:15-29 | one pass builds both lists and the order |
| `RuleDrafts.PackedOrderAccepted` | web/src/pages/routing-rules.ts:15-29 | the order of a packed draft is a permutation of all its references, so the server accepts it |
| `RuleDrafts.CloneOfPacked` | web/src/pages/routing-rules.ts:7-29 | cloning a packed draft gives the draft back, trimmed |
| `RuleDrafts.RepackKeepsPolicy` | web/src/pages/routing-rules.ts:7-29 | cloning and packing an accepted configuration changes no domain's DNS target and no (domain, address)'s target |
| `RuleDrafts.ReorderIsReversible` | web/src/pages/routing-rules.ts:31-36 | moving a rule keeps all rules and is undone by the opposite move |
| `Overlap.LanIsSevenNetworks` | crates/gofro-agent/src/routing.rs:18-32 | the LAN test accepts exactly the addresses of the seven networks |
| `DomainEnforcement.PacketsFollowTheirDomain` | crates/gofro-agent/src/dataplane.rs:418-535 | in every state where the kernel holds a policy's targets: a packet to a fake address gets the mark of its lease's domain and real address and is mapped to that address, any other remote packet the mark of its address |
| `DomainEnforcement.RunEnforces` | crates/gofro-agent/src/fake_dns/server.rs:88-103 | over any run of the store from any opened state, under a table compiled from the policy in force: once a policy was applied and adopted, and unless another reached the kernel since, every packet that is not local is treated as that policy asks |
| `DomainEnforcement.RenderedIsCompiled` | crates/gofro-agent/src/dataplane.rs:362-622 | the rendered table treats every packet that is not local as its policy asks, whatever exclusions and leases of that policy are put into it later |
| `DomainEnforcement.RenderedIsCurrent` | crates/gofro-agent/src/dataplane.rs:285-313 | the mappings of a new table are exactly those of the kernel that received them one by one |
| `Overlap.OverlapsIffShared` | crates/gofro-agent/src/config.rs:269 | looking at the first addresses of two networks is enough: they clash exactly when they share an address |
| `Overlap.AcceptedRulesMissFakes` | crates/gofro-agent/src/config.rs:263-272 | a CIDR rule is accepted exactly when it matches no address of 198.18.0.0/15 |
| `Servers.NormalFormIsCanonical` | crates/gofro-agent/src/config.rs:349-357 | normalised exclusions depend on the set of addresses only, and normalising twice changes nothing |
| `Servers.ImportTouchesOne` | crates/gofro-agent/src/controller/servers.rs:16-52 | importing adds or replaces one server; a known one keeps its emoji, a managed one its endpoint and management data |
| `Servers.UpdateTouchesOne` | crates/gofro-agent/src/controller/servers.rs:80-123 | an update changes one server, keeps its credentials, follows the active key and cannot move a managed server |
| `Servers.DeleteTouchesOne` | crates/gofro-agent/src/controller/servers.rs:146-171 | one server goes; if it was active the first remaining one takes over |
| `Servers.EditKeepsValid` | crates/gofro-agent/src/controller/servers.rs:11-172 | every accepted edit keeps server keys unique, the active key listed and a server selected while the VPN is on |
| `Servers.EditKeepsRouting` | crates/gofro-agent/src/controller/routing.rs:6-12 | rules change only by an edit of the rules, and then to an accepted order |
| `Servers.AcceptedExactly` | crates/gofro-agent/src/controller/servers.rs:11-172 | exactly which edits are accepted, for every kind of edit |
| `Servers.OtherEditsSet` | crates/gofro-agent/src/controller.rs:23-37 | edits of rules, mode, selection and exclusions set exactly that, membership of every address included; edits of servers touch only the list and the active key |
| `Servers.NetworkNamesServer` | crates/gofro-agent/src/controller/servers.rs:18-171 | an edit that changes the tunnel asks for a listed server or for none |
| `Servers.NetworkNeedsTunnel` | crates/gofro-agent/src/controller/servers.rs:18-171 | no edit touches the tunnel while the VPN is and stays off |
| `Servers.ConfigOnlyIsInvisible` | crates/gofro-agent/src/controller/servers.rs:18-171 | from a valid configuration an edit labelled as configuration only changes neither policy, exclusions and egress as rendered, nor the desired tunnel |
| `Servers.InvisibleRendersAlike` | crates/gofro-agent/src/dataplane.rs:43-64 | after such an edit a ruleset is the right one exactly when it was before; the WARP alias does not matter while the VPN is off |
| `Servers.PolicyKeepsNetwork` | crates/gofro-agent/src/controller/mode.rs:13-26 | an edit labelled as policy leaves the desired tunnel alone, for every configuration |
| `Servers.LabelIsRight` | crates/gofro-agent/src/controller/servers.rs:16-171 | for every configuration, valid or not, and every edit labelled as configuration only: the desired tunnel stays exactly unless the VPN is on, the active key names no server and the edit adds, imports or renames a server to that key; nothing else has to be applied exactly if the exclusions were normal too |
| `Servers.LabelCanBeWrong` | crates/gofro-agent/src/controller/servers.rs:59-122 | one configuration and two such edits, an addition and an update, that bring up a tunnel under that label |
| `Servers.NetworkExactly` | crates/gofro-agent/src/controller/servers.rs:18-171 | but for imports, an edit is labelled as one of the network exactly if it changes the desired tunnel, outside the case of `LabelIsRight` |
| `Controller.Controller.constructor` | crates/gofro-agent/src/config.rs:321-357 | a new process finds kernel, tunnel and guard as an earlier one left them, and its file with normal exclusions; if the earlier one stopped in a safe state, the new one starts in one |
| `Controller.Controller.Startup` | crates/gofro-agent/src/main.rs:178-244 | step by step: if startup succeeds the guard is up with the configuration's exclusions, old rows are deleted behind it and routing is degraded; if it fails there is a guard or nothing has changed; every state on the way is guarded or the one found, and safe if that was; without a failing step it succeeds if file and leases can be used and no old table stands in the way |
| `Controller.Controller.SynchronizeStartup` | crates/gofro-agent/src/dataplane.rs:160-235 | a left-over table that cannot honour the exclusions makes it fail; success installs the guard, and the exclusion set with it where there is one; failure tries the strictest guard |
| `Controller.Controller.InstallGuard` | crates/gofro-agent/src/controller.rs:175-180 | the guard goes up or nothing changes |
| `Controller.Controller.PublishExclusions` | crates/gofro-agent/src/controller.rs:182-189 | exclusion set and guard change together or not at all |
| `Controller.SafeEnforces` | crates/gofro-agent/src/controller.rs:52-145 | a safe state without a guard enforces: the table in the kernel treats every packet that is not local as the configuration in memory and the one on disk both ask, by the domain of its lease or by its own address, and maps fakes to the real addresses of their leases |
| `Controller.Controller.RenderTable` | crates/gofro-agent/src/controller.rs:191-217 | every lease with its target, and the rendered table that holds exactly these mappings |
| `Controller.Controller.ApplyPolicy` | crates/gofro-agent/src/controller.rs:191-217 | the rendered table and its exclusions in one step, then the lease targets; either may fail, and after both table, mappings and leases are the policy's |
| `Controller.Controller.ApplyNetwork` | crates/gofro-agent/src/controller/mode.rs:61-72 | on success the tunnel is the one the configuration asks for, and it names a listed server if the VPN is on; a failure leaves the tunnel unsettled, except that a missing server is noticed before anything is touched |
| `Controller.Controller.ClearGuard` | crates/gofro-agent/src/controller.rs:219-224 | the guard may go only when what is in force is what memory and file ask for; a failure is latched |
| `Controller.Controller.Save` | crates/gofro-agent/src/config.rs:392-417 | three outcomes: saved, failed before the file was replaced, failed after |
| `Controller.Controller.CommittedFailure` | crates/gofro-agent/src/controller.rs:147-173 | stays degraded; the exclusions in memory are published, or only the guard has them, or both scripts failed and guard and exclusions are as before |
| `Controller.Controller.Rollback` | crates/gofro-agent/src/controller.rs:109-121 | a rollback that succeeds restores policy, exclusions and the captured network |
| `Controller.Controller.UpdateConfig` | crates/gofro-agent/src/controller.rs:53-145 | the three outcomes: all new and clean; all old, and clean or degraded behind the old exclusions' guard; or new on disk and in memory and degraded. Every state on the way is guarded or in force. If no step fails, it succeeds exactly if the controller is not degraded and the edit is accepted with known tags; if one step fails and the update with it, a clean controller stays clean |
| `Controller.Controller.SetAutoUpdate` | crates/gofro-agent/src/controller.rs:39-50 | after a failure past publication only the file has the new flag; it succeeds exactly if no step fails |
| `Controller.Controller.ReconcileLocked` | crates/gofro-agent/src/controller/mode.rs:34-59 | clears the degraded flag exactly by completing, which puts everything in force and needs a listed server; every state on the way is guarded or in force; if no step fails it completes exactly if the server is listed and all tags are known |
| `Controller.Controller.AnswerQuery` | crates/gofro-agent/src/fake_dns/server.rs:88-103 | an answer is rewritten by the active policy, whatever was applied before, and succeeds if no step fails and there is room for its leases |
| `Controller.Controller.PurgeLeases` | crates/gofro-agent/src/fake_dns/resolver.rs:114-137 | purging leaves exactly the leases inside their grace period, or changes none; it succeeds if no step fails, nothing is guarded and the table maps every lease |
| `Controller.Controller.Run` | crates/gofro-agent/src/controller.rs:52-145 | over any run of updates, reconciles, answers and purges with any failures every visible state is guarded or enforces memory and disk on every packet; without a guard leases and mappings have the active policy's targets; a degraded controller stays degraded and keeps its configuration, up to the update flag, until a reconcile completes, which none does while the VPN is on without its server |
| `Controller.AutoUpdateIsInvisible` | crates/gofro-agent/src/controller.rs:39-50 | configurations that differ in the update flag only are in force together |
| `Leases.Bijection` | crates/gofro-agent/src/fake_dns/store.rs:171-213 | (domain, real) and fake address determine each other, and every fake is in 198.18.0.1 to 198.19.255.254 |
| `Leases.PoolIsReserved` | crates/gofro-agent/src/fake_dns/store.rs:15-16 | no fake address is the panel's, a LAN address, or matched by an accepted CIDR rule |
| `Leases.LeaseCount` | crates/gofro-agent/src/fake_dns/store.rs:185-194 | there are exactly as many addresses in use as leases |
| `Leases.FreeAddressExists` | crates/gofro-agent/src/fake_dns/store.rs:190-195 | with fewer addresses in use than the pool has, one is free |
| `Leases.AppliedKernel` | crates/gofro-agent/src/dataplane.rs:285-313 | a freshly rendered kernel maps every lease, in exactly one set, that of its target |
| `Leases.ReinstallRestores` | crates/gofro-agent/src/fake_dns/resolver.rs:127-134 | putting removed mappings back restores the kernel exactly |
| `Leases.AgreeRemove` | crates/gofro-agent/src/fake_dns/store.rs:216-236 | removing by fake address keeps rows, leases and used addresses in agreement |
| `Leases.AgreeRetarget` | crates/gofro-agent/src/fake_dns/store.rs:127-145 | committing targets keeps them in agreement |
| `FakeDns.OpenKeepsMapped` | crates/gofro-agent/src/fake_dns/store.rs:69-72 | after a restart the kernel maps only leases exactly when no mapped row was too old to keep |
| `FakeDns.StaleKernelAfterOpen` | crates/gofro-agent/src/fake_dns/store.rs:69-72 | a concrete row for which it does not |
| `FakeDns.NeverReleasedWhileMapped` | crates/gofro-agent/src/fake_dns/store.rs:190-213 | a new lease never takes an address the kernel still maps |
| `FakeDns.Store.Load` | crates/gofro-agent/src/fake_dns/store.rs:73-107 | leases, used addresses and rows agree after loading every row |
| `FakeDns.Store.OpenRows` | crates/gofro-agent/src/fake_dns/store.rs:69-115 | rows past their grace period are deleted; memory and rows agree, or opening fails, exactly when a kept row lies outside the pool |
| `FakeDns.Open` | crates/gofro-agent/src/fake_dns/store.rs:51-115 | opening fails exactly when a kept row lies outside the pool; otherwise memory and rows agree, and the kernel is within the leases exactly when its mappings were kept |
| `FakeDns.Store.FindFree` | crates/gofro-agent/src/fake_dns/store.rs:190-195 | the first free address at or after `next`, cyclically; none exactly when the pool is full |
| `FakeDns.Store.Renew` | crates/gofro-agent/src/fake_dns/store.rs:173-181 | a later expiry is written, an earlier one ignored; the mapping never changes |
| `FakeDns.Store.Insert` | crates/gofro-agent/src/fake_dns/store.rs:185-213 | limit, pool and database failures keep all leases; success adds one new lease at a free address |
| `FakeDns.Store.Allocate` | crates/gofro-agent/src/fake_dns/store.rs:164-214 | an existing lease is renewed and returned, otherwise a new one is made; the pool is never exhausted within a limit that fits it; the expiry is the later one, and only a failing step or a reached limit makes it fail |
| `FakeDns.Store.RemoveStored` | crates/gofro-agent/src/fake_dns/store.rs:216-237 | rows, leases and used addresses lose exactly the given fakes, or nothing |
| `FakeDns.Store.CommitTargets` | crates/gofro-agent/src/fake_dns/store.rs:127-145 | all targets in database and memory become the policy's, or none |
| `FakeDns.Store.Reclassified` | crates/gofro-agent/src/fake_dns/store.rs:117-125 | every lease once, with the policy's target |
| `FakeDns.Store.ExpiredAt` | crates/gofro-agent/src/fake_dns/store.rs:155-162 | exactly the leases past their grace period |
| `FakeDns.Store.UninstallMappings` | crates/gofro-agent/src/dataplane.rs:315-324 | removes exactly the elements, and fails if one is missing |
| `FakeDns.Store.ApplyPolicy` | crates/gofro-agent/src/controller.rs:191-217 | once rendered, the kernel maps every lease in the set of its target; on success memory and database agree with it |
| `FakeDns.Store.PurgeExpired` | crates/gofro-agent/src/fake_dns/resolver.rs:114-137 | expired leases leave kernel and store; any failure but a double one keeps both, and classification is kept; without a failing step it succeeds on a synchronised, classified store |
| `FakeDns.Store.RewriteSection` | crates/gofro-agent/src/fake_dns/resolver.rs:261-291 | every answer for a relevant name outside the LAN becomes a fake leased to (domain, real) with a clamped lifetime, the others stay; what was allocated is remembered also on failure |
| `FakeDns.Store.Rewrite` | crates/gofro-agent/src/fake_dns/resolver.rs:213-258 | mappings enter the kernel only when both sections are rewritten; otherwise the store gives them up again; a synchronised kernel stays so unless that fails too; without a failing step it succeeds if there is room |
| `FakeDns.AnswersOutlived` | crates/gofro-agent/src/fake_dns/store.rs:155-172 | a fake address in an answer stays leased for the answer's lifetime of 30 to 3600 seconds, five minutes and a day |
| `FakeDns.LocalAnswersStay` | crates/gofro-agent/src/fake_dns/resolver.rs:271-276 | answers inside the LAN, on the router's own link or for other names are passed on unchanged |
| `FakeDns.Store.Run` | crates/gofro-agent/src/fake_dns/resolver.rs:114-258 | over any run with any failures rows, leases and used addresses agree and the kernel maps only leases; since a policy was rendered it maps all of them unless a rollback failed after that; answers use the policy applied and adopted last, and memory, database and kernel hold its targets unless another policy reached the kernel since |
| `FakeDns.AppliedNotAdopted` | crates/gofro-agent/src/controller.rs:89-127 | why the exception is needed: a policy that was committed to rows and kernel and then not adopted, followed by a lease under the old one, leaves rows that neither policy classifies |
| `FakeDns.AppliedNotAdoptedExists` | crates/gofro-agent/src/controller.rs:89-127 | a concrete such run |
| `Resolver.RelevantNames` | crates/gofro-agent/src/fake_dns/resolver.rs:293-307 | the least set of names that contains the question and follows every alias |
| `Resolver.UpstreamCoversEveryAnswer` | crates/gofro-agent/src/fake_dns/resolver.rs:309-336 | the local resolver is asked for a public name only if every possible answer goes direct or is blocked |
| `Resolver.LookupIsProtected` | crates/gofro-agent/src/fake_dns/resolver.rs:309-336 | the socket's mark goes with the upstream, and protects the lookup at least as much as any connection to an answer; a local name is always asked locally |
| `Resolver.RefusedExactly` | crates/gofro-agent/src/fake_dns/resolver.rs:309-336 | a lookup is refused exactly when its target is blocked, or is WARP without the tunnel |
| `RoMix.RecomputedIsTableEntry` | crates/gofro-kdf/src/lib.rs:39-44 | a dropped block recomputed from its checkpoint is the table entry of the standard |
| `RoMix.CheckpointedIsDense` | crates/gofro-kdf/src/lib.rs:29-49 | keeping every stride-th block equals dense scryptROMix for every block, mixing function and stride dividing N |
| `Salsa.QuarterRound` | crates/gofro-kdf/src/lib.rs:73-78 | four words change as in the standard, the others do not |
| `Salsa.Rows` | crates/gofro-kdf/src/lib.rs:87-90 | the four in-place row rounds are the column round of the transposed matrix |
| `Salsa.Salsa8InPlace` | crates/gofro-kdf/src/lib.rs:80-95 | Salsa20/8 of section 3 of RFC 7914, in place |
| `SalsaVector.SalsaGivesVector` | crates/gofro-kdf/src/lib.rs:73-95 | the test vector of section 8 of RFC 7914 |
| `SalsaVector.OctetOrder` | crates/gofro-kdf/src/lib.rs:24-26 | words are read and written with the low octet first |
| `Salsa.TargetInvertsSource` | crates/gofro-kdf/src/lib.rs:66 | the destination index is the inverse of the even-then-odd order of the standard |
| `Salsa.BlockMixInPlace` | crates/gofro-kdf/src/lib.rs:58-70 | scryptBlockMix of section 4 of RFC 7914, in place |
| `CheckpointedRoMix.Fill` | crates/gofro-kdf/src/lib.rs:29-35 | the first loop leaves V[N] in the block and every stride-th V in the table, with N calls of BlockMix |
| `CheckpointedRoMix.Rebuild` | crates/gofro-kdf/src/lib.rs:40-44 | the rebuilt block is the checkpoint mixed index mod stride times |
| `CheckpointedRoMix.RoMixInPlace` | crates/gofro-kdf/src/lib.rs:27-49 | in place it equals dense scryptROMix, with a table of N / stride blocks and at most N (1 + stride) calls of BlockMix |
| `Scrypt.DecodeInvertsEncode` | crates/gofro-kdf/src/lib.rs:24-26 | reading little-endian words inverts writing them |
| `Scrypt.MaskIsIntegerify` | crates/gofro-kdf/src/lib.rs:38-39 | masking the low word is Integerify of all 64 octets modulo 16384 |
| `Scrypt.Derive` | crates/gofro-kdf/src/lib.rs:20-54 | the derived key is the standard's scrypt with N = 16384, r = 8, p = 1 for every password, salt and length; at most 147456 mixings and 2 MiB of checkpoints |
| `Peers.SetKeepsExclusive` | crates/gofro-server/src/managed.rs:506-524 | setting a peer keeps every allowed IP with one peer |
| `Peers.HalfAppliedMixes` | crates/gofro-server/src/managed.rs:525-531 | a configuration reload that stops half-way leaves each peer as configured or with no more than before, and every allowed IP with one peer |
| `Peers.NoClashNoLoss` | crates/gofro-server/src/main.rs:432-449 | without a conflict, setting a peer takes no allowed IP from another |
| `Peers.FreeAddressHasNoClash` | crates/gofro-server/src/main.rs:409-422 | an address no assigned network contains conflicts with nobody |
| `Peers.NeverBoth` | crates/gofro-server/src/managed/store.rs:124-144 | a key known as an owner is never recorded as a friend |
| `Peers.PlansDisjoint` | crates/gofro-server/src/managed.rs:462-504 | the routes planned for two owners have nothing in common |
| `Peers.PlannableShape` | crates/gofro-server/src/managed.rs:462-504 | a plan needs exactly one tunnel address and, besides it, only its alias and 10.203.1.0/24 |
| `Peers.FriendIs` | crates/gofro-server/src/managed.rs:48-56 | a friend has exactly one route, a single address of 10.202.0.2 to 10.202.0.254, and is no owner |
| `Peers.OneMoreAlias` | crates/gofro-server/src/managed.rs:506-524 | authorising one more owner takes nothing from any other peer |
| `PeerOwnership.Server.AllocateTunnelIp` | crates/gofro-server/src/main.rs:409-422 | the least host of 10.202.0.2 to 10.202.0.254 that no assigned network contains |
| `PeerOwnership.Server.RoutesConflict` | crates/gofro-server/src/main.rs:432-449 | true exactly when another peer has an overlapping network |
| `PeerOwnership.Server.Create` | crates/gofro-server/src/managed.rs:196-260 | on success one more friend at a free address, live, saved and recorded; a failure whose rollback succeeds restores peers and metadata exactly; without a failing step it succeeds exactly if the name is free and some host is left; one failing step never leaves it half done |
| `PeerOwnership.Server.Rename` | crates/gofro-server/src/managed.rs:262-286 | an active friend shows the new name, no other active friend has it; owners are refused; a step that fails is the only other reason not to |
| `PeerOwnership.Server.Revoke` | crates/gofro-server/src/managed.rs:288-340 | success means the key is neither live nor saved but still recorded; owners are refused; a failure that rolls back restores peers and metadata exactly; it is refused exactly for what is no active friend and no recorded one |
| `PeerOwnership.Server.AddRouterPeer` | crates/gofro-server/src/managed.rs:397-459 | the key is an owner before WireGuard knows it and stays one while it is live or saved; friends and unclassified peers are refused; a rollback that succeeds restores all; it is refused exactly for a bad or clashing address, a recorded friend or a live key that is no owner |
| `PeerOwnership.Server.RemoveRouterPeer` | crates/gofro-server/src/managed.rs:540-568 | the peer leaves live and saved configuration, the owner entry stays |
| `PeerOwnership.Server.WarpRoutes` | crates/gofro-server/src/managed.rs:462-504 | all active owners if each has exactly one tunnel address, known routes and a free alias; nothing otherwise |
| `PeerOwnership.AliasesAgree` | crates/wireguard-status/src/warp.rs:9-13 | the alias the agent sends WARP traffic from is the one the server authorises, for every tunnel address, and there is none for any other |
| `PeerOwnership.PreparedOrAuthorised` | crates/gofro-server/src/managed.rs:397-504 | an owner added after WARP was prepared has the routes that authorising it later would give |
| `PeerOwnership.Server.AuthorizeWarp` | crates/gofro-server/src/managed.rs:506-538 | on success every active owner gains its alias and nobody else gains or loses a route; whatever fails, the rollback included, no peer appears and nobody but an owner has more routes than before, live or saved; it is refused exactly if WARP is not prepared, no owner is active or one cannot be planned |
| `PeerOwnership.Server.AddPeer` | crates/gofro-server/src/main.rs:354-387 | one peer with one tunnel address, or a rollback to the same peers |
| `PeerOwnership.Server.RemovePeer` | crates/gofro-server/src/main.rs:185-200 | on success the key is in neither configuration |
| `PeerOwnership.Server.CreateRouterProfile` | crates/gofro-server/src/managed.rs:369-395 | a new owner at a free address |
| `PeerOwnership.Server.InstallOwner` | crates/gofro-server/src/managed.rs:428-459 | the peer is set and saved, or undone and a new identity taken back |
| `PeerOwnership.Server.Recovered` | crates/gofro-server/src/managed.rs:196-568 | a crash after any single command and a reboot: every enrolled owner that comes up is classified as owner |
| `PeerOwnership.Server.Run` | crates/gofro-server/src/managed.rs:196-568 | over any run of commands, reboots and failures every state between two commands keeps owners and friends disjoint, every allowed IP with one peer, and enrolled owners known, live and saved |
| `Relay.Encode` | crates/gofro-relay/src/codec.rs:23-47 | the buffer holds the packet of the seed and the payload, the rest of it is untouched; it fails exactly for payloads over 65535 bytes or too small a buffer |
| `Relay.Decode` | crates/gofro-relay/src/codec.rs:49-70 | returns the payload exactly when all lengths agree and it fits; a rejected packet writes nothing |
| `Relay.RoundTrip` | crates/gofro-relay/src/codec.rs:23-70 | decoding an encoded datagram gives it back, for every seed and generator |
| `Relay.OtherLengthsRejected` | crates/gofro-relay/src/codec.rs:60-62 | every strict prefix and strict extension of an encoded packet is rejected |
| `Relay.AcceptedIsEncoded` | crates/gofro-relay/src/codec.rs:49-70 | an accepted packet is, but for its padding, the encoding of what it decodes to |
| `RelayCodec.BytesLawful` | crates/gofro-relay/src/codec.rs:24-36 | byte masking, length bytes and the padding mask obey the laws the codec needs |
| `RelayCodec.DatagramSurvives` | crates/gofro-relay/src/codec.rs:23-85 | the round trip on real bytes with the 64-bit xorshift |
| `RelayCodec.CutOrGrownRejected` | crates/gofro-relay/src/codec.rs:60-62 | cut or extended packets are rejected on real bytes |
| `RelayCodec.AcceptedIsPacket` | crates/gofro-relay/src/codec.rs:49-85 | an accepted packet is the packet of its payload under its own seed, but for the padding bytes |
| `RelayCodec.KnownPacket` | crates/gofro-relay/src/codec.rs:23-85 | one packet written out octet for octet: seed, masked length, masked payload and padding |
| `RelayCodec.TunnelMtuIsLargest` | crates/gofro-relay/src/lib.rs:4-18 | the tunnel MTU is the largest one whose packets fit a 1480-byte uplink under every seed |
| `Sessions.Inner.Issue` | crates/gofro-agent/src/auth.rs:94-111 | expired sessions go, then the oldest until there is room, then one is added: at most 32 |
| `Sessions.Inner.Remove` | crates/gofro-agent/src/auth.rs:362-365 | logout removes the sessions of one token and no other |
| `Sessions.StepKeeps` | crates/gofro-agent/src/auth.rs:151-375 | every step of setup, login, password change, logout and expiry keeps the invariant of permit, lock, record and sessions |
| `Sessions.NobodyGetsInWithoutProof` | crates/gofro-agent/src/auth.rs:151-375 | in every run from every state, whoever is logged in at the end and was not at the start was let in by a request that proved itself by setup code, password or session with password, and went on from there |
| `Sessions.SessionsAreEarned` | crates/gofro-agent/src/auth.rs:151-375 | the same for each session that appears and each record that is written |
| `Sessions.OnlyProvedAdd` | crates/gofro-agent/src/auth.rs:94-111 | a session that appears is its own request's, lasts 1800 seconds and belongs to the record on disk |
| `Sessions.FailedProof` | crates/gofro-agent/src/auth.rs:229-254 | a request whose verification fails alters neither sessions nor record and gets nowhere; a failed password change sets the throttle |
| `Sessions.FailedLoginThrottles` | crates/gofro-agent/src/auth.rs:247-254 | a failed login ends with the throttle set, unless the request is dropped |
| `Sessions.ThrottleHolds` | crates/gofro-agent/src/auth.rs:218-227 | for a second after a failure no password is looked at |
| `Sessions.SetupComesFirst` | crates/gofro-agent/src/auth.rs:151-215 | before setup no login starts, and after it no setup gets past its check |
| `Sessions.ChangeIsAuthorised` | crates/gofro-agent/src/auth.rs:282-330 | a password change takes a live session with its csrf token and the password |
| `Sessions.LogoutIsAuthorised` | crates/gofro-agent/src/auth.rs:353-366 | a logout takes a live session with its csrf token |
| `Sessions.OnlyThenRemoved` | crates/gofro-agent/src/auth.rs:94-111 | a session goes only by expiry, logout, 32 newer ones or a password change |
| `Sessions.LoginSucceeds` | crates/gofro-agent/src/auth.rs:200-262 | the right password opens a session when nothing disturbs the request |
| `Sessions.SetupSucceeds` | crates/gofro-agent/src/auth.rs:151-198 | the setup code stores the first record and opens a session |
| `Sessions.ChangeSucceeds` | crates/gofro-agent/src/auth.rs:263-351 | a session with its password replaces the record, and one session is left |
| `Sessions.LogoutSucceeds` | crates/gofro-agent/src/auth.rs:353-375 | logging out removes exactly the sessions of its token and the expired ones |
| `Sessions.ReadersSeeCurrentSessions` | crates/gofro-agent/src/auth.rs:417-430 | in every interleaving, whoever gets the lock sees at most 32 sessions, all issued against the record on disk, and none before setup |
| `Sessions.ChangeIsAllOrNothing` | crates/gofro-agent/src/auth.rs:282-351 | a change that fails before publication alters neither record nor sessions; one that fails after leaves no session; a success leaves one |
| `Sessions.ChangeIsAtomic` | crates/gofro-agent/src/auth.rs:282-351 | in every interleaving, while a change holds the lock the sessions are those it found, and when it gives the lock back record and sessions are both as found or both new |
| `Sessions.ChangeFromLock` | crates/gofro-agent/src/auth.rs:282-351 | the same from the step that takes the lock, for any steps after it |
| `Sessions.ClearingExcludesOthers` | crates/gofro-agent/src/auth.rs:333-350 | between a published record and the end of its change no other request touches sessions or record |

## Left out

- Text of the nft scripts, and the chains with fixed rules (DNS redirection, MSS clamp, IPv6 reject, WARP and DNS egress guards): only the mark chain, its sets and the switches the other chains depend on are modelled.
- Renderer.Render: the emitted rules are a list of rules with an evaluator, not text; DNAT to the real address appears only as the address map, and DNS redirection, the MSS clamp, the IPv6 reject and the WARP and DNS egress chains only as the three switches they depend on.
- The GeoSite decoder, regular expressions, IDNA and name normalisation: a site holds its sets and its expressions as predicates, and names arrive normalised.
- `decode_site` limits, the memory cache of `IndexedFile::get` and the budget error of `select`: only the interval count it charges is stated.
- The counters that `prepare` prints, and the file replacement around it.
- OfflinePrepare.WriteEntry: `ipaddress.collapse_addresses` is a parameter that must return a canonical list for the same addresses, as its library documents.
- GeoIpCatalog.PreparationIsInvisible: the prepared file is assumed shorter than 2^64 bytes.
- Server validation, profile parsing and tag or name length checks: they are text formats; validation is a parameter of the edits.
- Servers.RunEdit: edits work on a private copy of the configuration in the source; here they are functions from configuration to configuration, so updating that copy in place is not modelled.
- Controller.Controller.constructor: of what loading a file normalises only the exclusions are modelled; loading may fail for any other reason.
- Controller.Controller.Startup: geodata, certificates and listeners are one step that may fail after the guard is up.
- Controller.Setting: the catalogs are one set of decoded lists for the whole run; compiling a policy may fail for a tag that is missing.
- Controller.Controller.AnswerQuery: an answer waits for the update lock, so answers and purges happen between operations; the response itself is stated in `FakeDns.Store.Rewrite`.
- Controller.Controller.ApplyNetwork: the steps of starting, selecting and stopping the tunnel are one step that may stop anywhere; an absent client address keeps the previous one, which the model does not track.
- Poisoned locks, and concurrency inside the controller: its writers hold the same locks throughout, so one operation runs at a time; taking the locks may fail.
- DNS message encoding, sockets, DNSSEC stripping, removal of IPv6 answers, EDNS client subnet removal and the recognition of local names: a record is an address, an alias or something else, and locality is a parameter.
- SQLite itself: the table is a map with atomic transactions; out-of-range values in its columns are not modelled.
- HMAC and PBKDF2: a parameter of `Scrypt.Derive`; clearing secrets from memory is not modelled.
- Migration of schema-1 metadata, file permissions, symbolic links and locks of the server: the ownership model starts from a file of the current schema.
- PeerOwnership.Server.Create: the generated key is assumed to be new.
- Sending and receiving, and the choice of the seed in the relay: a packet's seed is a parameter.
- Cookies, headers, hosts and origins, the onboarding window and the password hash check: their outcome is part of a step of `Sessions.Step`.
- Status pages, statistics, SSH bootstrap and diagnostics, TLS, the web interface beyond the rule list, and LAN device inventory.
