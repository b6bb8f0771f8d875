/** GeoIP catalogs: what the agent reads from one, and what the offline tool writes instead. */
module GeoIpCatalog {
  import opened Ipv4
  import opened Aggregation
  import opened CanonicalForm
  import opened Wire

  // ----- the agent's reading -----

  function Lower(tag: seq<Byte>): (r: seq<Byte>)
    ensures |r| == |tag|
  {
    seq(|tag|, i requires 0 <= i < |tag| => if 65 <= tag[i] <= 90 then tag[i] + 32 else tag[i])
  }

  /** Tags are equal in the index exactly when they differ at most in the case of ASCII letters. */
  lemma LowerIgnoresCase(a: seq<Byte>, b: seq<Byte>)
    ensures Lower(a) == Lower(b) <==>
      |a| == |b| && forall i :: 0 <= i < |a| ==> a[i] == b[i] || (SameLetter(a[i], b[i]))
    ensures Lower(Lower(a)) == Lower(a)
  {
    if Lower(a) == Lower(b) {
      forall i | 0 <= i < |a|
        ensures a[i] == b[i] || SameLetter(a[i], b[i])
      {
        assert Lower(a)[i] == Lower(b)[i];
      }
    }
  }

  /** Two cases of one letter from A to Z. */
  predicate SameLetter(a: Byte, b: Byte) {
    || ('A' as int <= a <= 'Z' as int && b == a + 32)
    || ('A' as int <= b <= 'Z' as int && a == b + 32)
  }

  datatype Head = Head(tag: seq<Byte>, inverse: bool)

  /** The fields of an entry that matter to the index; the last tag and the last flag win. */
  function HeadStep(utf8: seq<Byte> -> bool): (Head, Field) -> Option<Head> {
    (head: Head, field: Field) =>
      if field.number == 1 then
        if field.value.Bytes? && |field.value.content| <= 64 && utf8(field.value.content) then
          Some(head.(tag := Lower(field.value.content)))
        else None
      else if field.number == 3 then
        if field.value.Integer? then Some(head.(inverse := field.value.value != 0)) else None
      else Some(head)
  }

  type Entries = map<seq<Byte>, seq<Byte>>

  /** `IndexedFile::open` for a GeoIP file: the last entry of a tag wins, inverse entries are dropped. */
  function IndexStep(utf8: seq<Byte> -> bool): (Entries, Field) -> Option<Entries> {
    (entries: Entries, field: Field) =>
      if field.number != 1 then Some(entries)
      else if !field.value.Bytes? then None
      else
        match Run(HeadStep(utf8), Head([], false), field.value.content)
        case None => None
        case Some(head) =>
          if head.inverse then Some(entries) else Some(entries[head.tag := field.value.content])
  }

  function Index(utf8: seq<Byte> -> bool, data: seq<Byte>): Option<Entries> {
    Run(IndexStep(utf8), map[], data)
  }

  /** An entry that the index keeps under a tag. */
  predicate Keeps(utf8: seq<Byte> -> bool, field: Field, tag: seq<Byte>) {
    && field.number == 1 && field.value.Bytes?
    && match Run(HeadStep(utf8), Head([], false), field.value.content)
       case None => false
       case Some(head) => !head.inverse && head.tag == tag
  }

  predicate NoneKept(utf8: seq<Byte> -> bool, fields: seq<Field>, from: nat, tag: seq<Byte>) {
    forall k :: from <= k < |fields| ==> !Keeps(utf8, fields[k], tag)
  }

  /** The index has exactly the tags of the entries it keeps, and of several with one tag the last. */
  lemma {:induction false} LastEntryWins(utf8: seq<Byte> -> bool, entries: Entries, fields: seq<Field>, tag: seq<Byte>,
    i: nat)
    requires Fold(IndexStep(utf8), entries, fields).Some?
    ensures var after := Fold(IndexStep(utf8), entries, fields).value;
      && (NoneKept(utf8, fields, 0, tag) ==>
            (tag in after <==> tag in entries) && (tag in entries ==> after[tag] == entries[tag]))
      && (i < |fields| && Keeps(utf8, fields[i], tag) && NoneKept(utf8, fields, i + 1, tag) ==>
            tag in after && after[tag] == fields[i].value.content)
    decreases |fields|
  {
    if fields != [] {
      assert forall k :: 0 <= k < |fields| - 1 ==> fields[1..][k] == fields[k + 1];
      var next := IndexStep(utf8)(entries, fields[0]).value;
      LastEntryWins(utf8, next, fields[1..], tag, if i > 0 then i - 1 else 0);
    }
  }

  function FromBytes(bytes: seq<Byte>): (ip: int)
    requires |bytes| == 4
    ensures IsAddress(ip)
  {
    var a: int, b: int, c: int, d: int := bytes[0], bytes[1], bytes[2], bytes[3];
    0x100_0000 * a + 0x1_0000 * b + 0x100 * c + d
  }

  lemma OctetBlocks()
    ensures BlockSize(0) == 0x1_0000_0000 && BlockSize(8) == 0x100_0000 && BlockSize(16) == 0x1_0000
    ensures BlockSize(24) == 0x100 && BlockSize(32) == 1
  {
    Pow2Of32();
    assert Pow2(8) == 256;
    Pow2Add(8, 8);
    Pow2Add(8, 16);
  }

  /** The first byte is the most significant one: a prefix of whole bytes compares leading bytes. */
  lemma BytesInNetworkOrder(a: seq<Byte>, b: seq<Byte>, k: nat)
    requires |a| == |b| == 4 && k <= 4
    ensures Has(Trunc(FromBytes(a), 8 * k), FromBytes(b)) <==> a[..k] == b[..k]
  {
    SameBlock(FromBytes(a), FromBytes(b), 8 * k);
    OctetBlocks();
    SameQuotient(a, b, k, BlockSize(8 * k));
  }

  lemma SameQuotient(a: seq<Byte>, b: seq<Byte>, k: nat, size: nat)
    requires |a| == |b| == 4 && k <= 4
    requires size == if k == 0 then 0x1_0000_0000 else if k == 1 then 0x100_0000 else if k == 2 then 0x1_0000
      else if k == 3 then 0x100 else 1
    ensures FromBytes(a) / size == FromBytes(b) / size <==> a[..k] == b[..k]
  {
    LeadingBytes(a);
    LeadingBytes(b);
    SameLeading(a, b, k);
    if k == 1 {
      assert size == 0x100_0000;
    } else if k == 2 {
      SameTwo(a, b);
    } else if k == 3 {
      SameThree(a, b);
    }
  }

  lemma SameTwo(a: seq<Byte>, b: seq<Byte>)
    requires |a| == |b| == 4
    ensures 0x100 * a[0] as int + a[1] as int == 0x100 * b[0] as int + b[1] as int <==> a[0] == b[0] && a[1] == b[1]
  {
  }

  lemma SameThree(a: seq<Byte>, b: seq<Byte>)
    requires |a| == |b| == 4
    ensures 0x1_0000 * a[0] as int + 0x100 * a[1] as int + a[2] as int
        == 0x1_0000 * b[0] as int + 0x100 * b[1] as int + b[2] as int
      <==> a[0] == b[0] && a[1] == b[1] && a[2] == b[2]
  {
  }

  lemma SameLeading(a: seq<Byte>, b: seq<Byte>, k: nat)
    requires |a| == |b| == 4 && k <= 4
    ensures a[..k] == b[..k] <==>
      && (k > 0 ==> a[0] == b[0]) && (k > 1 ==> a[1] == b[1])
      && (k > 2 ==> a[2] == b[2]) && (k > 3 ==> a[3] == b[3])
  {
    if a[..k] == b[..k] {
      assert forall i :: 0 <= i < k ==> a[i] == a[..k][i] == b[..k][i] == b[i];
    }
  }

  lemma LeadingBytes(a: seq<Byte>)
    requires |a| == 4
    ensures FromBytes(a) / 0x1_0000_0000 == 0
    ensures FromBytes(a) / 0x100_0000 == a[0] as int
    ensures FromBytes(a) / 0x1_0000 == 0x100 * a[0] as int + a[1] as int
    ensures FromBytes(a) / 0x100 == 0x1_0000 * a[0] as int + 0x100 * a[1] as int + a[2] as int
    ensures FromBytes(a) == 0x100_0000 * a[0] as int + 0x1_0000 * a[1] as int + 0x100 * a[2] as int + a[3] as int
  {
  }

  datatype CidrState = CidrState(address: Option<int>, prefix: nat)

  /** One field of a CIDR message; an address that is not four bytes long is skipped. */
  function CidrStep(state: CidrState, field: Field): (r: Option<CidrState>) {
    if field.number == 1 then
      if field.value.Bytes? then
        Some(state.(address := if |field.value.content| == 4 then Some(FromBytes(field.value.content)) else None))
      else None
    else if field.number == 2 then
      if field.value.Integer? then Some(state.(prefix := field.value.value)) else None
    else Some(state)
  }

  function NetworkOf(state: CidrState): seq<Cidr> {
    if state.address.Some? && IsAddress(state.address.value) && state.prefix <= 32 then
      [Trunc(state.address.value, state.prefix)]
    else []
  }

  function NetworksStep(networks: seq<Cidr>, field: Field): Option<seq<Cidr>> {
    if field.number != 2 then Some(networks)
    else if !field.value.Bytes? then None
    else
      match Run(CidrStep, CidrState(None, 0), field.value.content)
      case None => None
      case Some(state) => Some(networks + NetworkOf(state))
  }

  /** The networks of one entry as `decode_ip` collects them, before aggregation. */
  function Networks(entry: seq<Byte>): Option<seq<Cidr>> {
    Run(NetworksStep, [], entry)
  }

  /** `list` is what `decode_ip` returns for `entry`. */
  ghost predicate DecodesTo(entry: seq<Byte>, list: seq<Cidr>) {
    Networks(entry).Some? && Canonical(list) && Cover(list) == Cover(Networks(entry).value)
  }

  // ----- the offline tool -----

  function Packed(ip: int): (r: seq<Byte>)
    requires IsAddress(ip)
    ensures |r| == 4 && FromBytes(r) == ip
  {
    var low := ip % 0x100_0000;
    var lower := low % 0x1_0000;
    [ip / 0x100_0000, low / 0x1_0000, lower / 0x100, lower % 0x100]
  }

  datatype RawCidr = RawCidr(address: seq<Byte>, prefix: nat)

  function RawCidrStep(state: RawCidr, field: Field): Option<RawCidr> {
    if field.number == 1 then
      if field.value.Bytes? then Some(state.(address := field.value.content)) else None
    else if field.number == 2 then
      if field.value.Integer? then Some(state.(prefix := field.value.value)) else None
    else Some(state)
  }

  function RawNetwork(state: RawCidr): seq<Cidr> {
    if |state.address| == 4 && state.prefix <= 32 then [Trunc(FromBytes(state.address), state.prefix)] else []
  }

  datatype Entry = Entry(tag: seq<Byte>, inverse: bool, networks: seq<Cidr>)

  function EntryStep(utf8: seq<Byte> -> bool): (Entry, Field) -> Option<Entry> {
    (entry: Entry, field: Field) =>
      if field.number == 1 then
        if field.value.Bytes? && utf8(field.value.content) then Some(entry.(tag := field.value.content)) else None
      else if field.number == 3 then
        if field.value.Integer? then Some(entry.(inverse := field.value.value != 0)) else None
      else if field.number == 2 then
        if !field.value.Bytes? then None
        else
          match Run(RawCidrStep, RawCidr([], 0), field.value.content)
          case None => None
          case Some(state) => Some(entry.(networks := entry.networks + RawNetwork(state)))
      else Some(entry)
  }

  function CidrBytes(network: Cidr): seq<Byte> {
    Message(1, Packed(network.network)) + if network.prefix != 0 then IntegerField(2, network.prefix) else []
  }

  function CidrMessages(networks: seq<Cidr>): seq<Byte> {
    if networks == [] then [] else Message(2, CidrBytes(networks[0])) + CidrMessages(networks[1..])
  }

  /** The rewritten entry; `collapse` is the library's `collapse_addresses`. */
  function Cooked(collapse: seq<Cidr> -> seq<Cidr>, entry: Entry): seq<Byte> {
    Message(1, entry.tag)
      + if entry.inverse then IntegerField(3, 1) else CidrMessages(collapse(entry.networks))
  }

  function PrepareFields(utf8: seq<Byte> -> bool, collapse: seq<Cidr> -> seq<Cidr>,
    fields: seq<Field>): Option<seq<Byte>> {
    if fields == [] then Some([])
    else if fields[0].number != 1 then PrepareFields(utf8, collapse, fields[1..])
    else if !fields[0].value.Bytes? then None
    else
      match Run(EntryStep(utf8), Entry([], false, []), fields[0].value.content)
      case None => None
      case Some(entry) =>
        match PrepareFields(utf8, collapse, fields[1..])
        case None => None
        case Some(rest) => Some(Message(1, Cooked(collapse, entry)) + rest)
  }

  function Prepare(utf8: seq<Byte> -> bool, collapse: seq<Cidr> -> seq<Cidr>, data: seq<Byte>): Option<seq<Byte>> {
    match ParseFields(data)
    case None => None
    case Some(fields) => PrepareFields(utf8, collapse, fields)
  }

  /** What the library documents: the shortest list for the same addresses. */
  ghost predicate Collapses(collapse: seq<Cidr> -> seq<Cidr>) {
    forall networks :: Canonical(collapse(networks)) && Cover(collapse(networks)) == Cover(networks)
  }

  /** There is such a function: every list has a canonical form. */
  lemma CollapseExists()
    ensures exists collapse :: Collapses(collapse)
  {
    var collapse: seq<Cidr> -> seq<Cidr> := networks => CanonicalOf(networks);
    assert Collapses(collapse);
  }

  // ----- both programs read the same entry -----

  ghost predicate SameCidr(state: CidrState, raw: RawCidr) {
    && state.prefix == raw.prefix
    && state.address == if |raw.address| == 4 then Some(FromBytes(raw.address)) else None
  }

  lemma {:induction false} CidrsAgree(state: CidrState, raw: RawCidr, fields: seq<Field>)
    requires SameCidr(state, raw)
    ensures Fold(CidrStep, state, fields).Some? <==> Fold(RawCidrStep, raw, fields).Some?
    ensures Fold(CidrStep, state, fields).Some? ==>
      SameCidr(Fold(CidrStep, state, fields).value, Fold(RawCidrStep, raw, fields).value)
    decreases |fields|
  {
    if fields != [] && CidrStep(state, fields[0]).Some? {
      CidrsAgree(CidrStep(state, fields[0]).value, RawCidrStep(raw, fields[0]).value, fields[1..]);
    }
  }

  lemma CidrMessagesAgree(content: seq<Byte>)
    ensures Run(CidrStep, CidrState(None, 0), content).Some? <==> Run(RawCidrStep, RawCidr([], 0), content).Some?
    ensures Run(CidrStep, CidrState(None, 0), content).Some? ==>
      NetworkOf(Run(CidrStep, CidrState(None, 0), content).value)
        == RawNetwork(Run(RawCidrStep, RawCidr([], 0), content).value)
  {
    match ParseFields(content)
    case None =>
    case Some(fields) => CidrsAgree(CidrState(None, 0), RawCidr([], 0), fields);
  }

  /** An entry the tool accepts is decoded by the agent to the networks the tool saw. */
  lemma {:induction false} NetworksAgree(utf8: seq<Byte> -> bool, entry: Entry, fields: seq<Field>)
    requires Fold(EntryStep(utf8), entry, fields).Some?
    ensures Fold(NetworksStep, entry.networks, fields)
      == Some(Fold(EntryStep(utf8), entry, fields).value.networks)
    decreases |fields|
  {
    if fields != [] {
      if fields[0].number == 2 {
        CidrMessagesAgree(fields[0].value.content);
      }
      NetworksAgree(utf8, EntryStep(utf8)(entry, fields[0]).value, fields[1..]);
    }
  }

  ghost predicate SameHead(utf8: seq<Byte> -> bool, head: Head, entry: Entry) {
    head.tag == Lower(entry.tag) && head.inverse == entry.inverse && |entry.tag| <= 64 && utf8(entry.tag)
  }

  lemma {:induction false} HeadsAgree(utf8: seq<Byte> -> bool, head: Head, entry: Entry, fields: seq<Field>)
    requires SameHead(utf8, head, entry)
    requires Fold(HeadStep(utf8), head, fields).Some? && Fold(EntryStep(utf8), entry, fields).Some?
    ensures SameHead(utf8, Fold(HeadStep(utf8), head, fields).value, Fold(EntryStep(utf8), entry, fields).value)
    decreases |fields|
  {
    if fields != [] {
      HeadsAgree(utf8, HeadStep(utf8)(head, fields[0]).value, EntryStep(utf8)(entry, fields[0]).value, fields[1..]);
    }
  }

  // ----- reading back what the tool writes -----

  function CidrFields(networks: seq<Cidr>): seq<Field> {
    if networks == [] then [] else [Field(2, Bytes(CidrBytes(networks[0])))] + CidrFields(networks[1..])
  }

  lemma CidrReadsBack(network: Cidr)
    ensures Run(CidrStep, CidrState(None, 0), CidrBytes(network)) ==
      Some(CidrState(Some(network.network), network.prefix))
    ensures NetworkOf(CidrState(Some(network.network), network.prefix)) == [network]
  {
    RemainingIs64Bits();
    AlignedBase(network.network, network.prefix);
    var address := Message(1, Packed(network.network));
    var prefix := if network.prefix != 0 then IntegerField(2, network.prefix) else [];
    MessageParses(1, Packed(network.network), prefix);
    RunStep(CidrStep, CidrState(None, 0), address + prefix);
    assert (address + prefix)[|address|..] == prefix;
    var state := CidrState(Some(network.network), 0);
    RunStep(CidrStep, state, prefix);
    if network.prefix != 0 {
      IntegerFieldParses(2, network.prefix, []);
      assert prefix + [] == prefix;
      assert prefix[|prefix|..] == [];
      RunStep(CidrStep, state.(prefix := network.prefix), []);
    }
  }

  lemma {:induction false} CidrMessagesParse(networks: seq<Cidr>)
    requires |CidrMessages(networks)| < Remaining(0)
    ensures ParseFields(CidrMessages(networks)) == Some(CidrFields(networks))
    decreases |networks|
  {
    if networks != [] {
      var content, rest := CidrBytes(networks[0]), CidrMessages(networks[1..]);
      CidrMessagesParse(networks[1..]);
      MessageParses(2, content, rest);
      ParseCons(Message(2, content), Field(2, Bytes(content)), rest);
    }
  }

  lemma {:induction false} CidrFieldsDecode(networks: seq<Cidr>, before: seq<Cidr>)
    ensures Fold(NetworksStep, before, CidrFields(networks)) == Some(before + networks)
    decreases |networks|
  {
    if networks == [] {
      assert before + networks == before;
    } else {
      var fields := CidrFields(networks);
      CidrReadsBack(networks[0]);
      assert fields[1..] == CidrFields(networks[1..]);
      CidrFieldsDecode(networks[1..], before + [networks[0]]);
      assert before + [networks[0]] + networks[1..] == before + networks;
    }
  }

  /** The fields of a rewritten entry. */
  function CookedFields(collapse: seq<Cidr> -> seq<Cidr>, entry: Entry): seq<Field> {
    [Field(1, Bytes(entry.tag))]
      + if entry.inverse then [Field(3, Integer(1))] else CidrFields(collapse(entry.networks))
  }

  lemma CookedParses(collapse: seq<Cidr> -> seq<Cidr>, entry: Entry)
    requires |Cooked(collapse, entry)| < Remaining(0)
    ensures ParseFields(Cooked(collapse, entry)) == Some(CookedFields(collapse, entry))
  {
    var tag := Message(1, entry.tag);
    var rest := if entry.inverse then IntegerField(3, 1) else CidrMessages(collapse(entry.networks));
    MessageParses(1, entry.tag, rest);
    ParseCons(tag, Field(1, Bytes(entry.tag)), rest);
    if entry.inverse {
      RemainingIs64Bits();
      IntegerFieldParses(3, 1, []);
      assert rest + [] == rest;
      ParseCons(rest, Field(3, Integer(1)), []);
      assert [Field(3, Integer(1))] + [] == [Field(3, Integer(1))];
    } else {
      CidrMessagesParse(collapse(entry.networks));
    }
  }

  /** In fields other than tags and flags the head does not change. */
  lemma {:induction false} CidrFieldsKeepHead(utf8: seq<Byte> -> bool, head: Head, networks: seq<Cidr>)
    ensures Fold(HeadStep(utf8), head, CidrFields(networks)) == Some(head)
    decreases |networks|
  {
    if networks != [] {
      assert CidrFields(networks)[1..] == CidrFields(networks[1..]);
      CidrFieldsKeepHead(utf8, head, networks[1..]);
    }
  }

  lemma CookedHead(utf8: seq<Byte> -> bool, collapse: seq<Cidr> -> seq<Cidr>, entry: Entry)
    requires |entry.tag| <= 64 && utf8(entry.tag)
    ensures Fold(HeadStep(utf8), Head([], false), CookedFields(collapse, entry))
      == Some(Head(Lower(entry.tag), entry.inverse))
  {
    var fields := CookedFields(collapse, entry);
    var head := Head(Lower(entry.tag), false);
    if entry.inverse {
      var flag := [Field(3, Integer(1))];
      assert fields[1..] == flag && flag[1..] == [];
      assert Fold(HeadStep(utf8), head, flag) == Some(head.(inverse := true));
    } else {
      assert fields[1..] == CidrFields(collapse(entry.networks));
      CidrFieldsKeepHead(utf8, head, collapse(entry.networks));
    }
  }

  lemma CookedNetworks(collapse: seq<Cidr> -> seq<Cidr>, entry: Entry)
    requires |Cooked(collapse, entry)| < Remaining(0) && !entry.inverse
    ensures Networks(Cooked(collapse, entry)) == Some(collapse(entry.networks))
  {
    CookedParses(collapse, entry);
    assert CookedFields(collapse, entry)[1..] == CidrFields(collapse(entry.networks));
    CidrFieldsDecode(collapse(entry.networks), []);
    assert [] + collapse(entry.networks) == collapse(entry.networks);
  }

  // ----- the catalog as a whole -----

  /** Two entries decode, and to the same list. */
  ghost predicate SameLists(left: seq<Byte>, right: seq<Byte>) {
    && Networks(left).Some? && Networks(right).Some?
    && Cover(Networks(left).value) == Cover(Networks(right).value)
  }

  ghost predicate SameEntries(left: Entries, right: Entries) {
    && left.Keys == right.Keys
    && forall tag :: tag in left ==> SameLists(left[tag], right[tag])
  }

  lemma EntryPrepared(utf8: seq<Byte> -> bool, collapse: seq<Cidr> -> seq<Cidr>, content: seq<Byte>)
    requires Collapses(collapse) && utf8([])
    requires Run(HeadStep(utf8), Head([], false), content).Some?
    requires Run(EntryStep(utf8), Entry([], false, []), content).Some?
    requires |Cooked(collapse, Run(EntryStep(utf8), Entry([], false, []), content).value)| < Remaining(0)
    ensures var cooked := Cooked(collapse, Run(EntryStep(utf8), Entry([], false, []), content).value);
      var head := Run(HeadStep(utf8), Head([], false), content).value;
      && Run(HeadStep(utf8), Head([], false), cooked) == Some(head)
      && (!head.inverse ==> SameLists(content, cooked))
  {
    var fields := ParseFields(content).value;
    var entry := Run(EntryStep(utf8), Entry([], false, []), content).value;
    HeadsAgree(utf8, Head([], false), Entry([], false, []), fields);
    NetworksAgree(utf8, Entry([], false, []), fields);
    CookedParses(collapse, entry);
    CookedHead(utf8, collapse, entry);
    if !entry.inverse {
      CookedNetworks(collapse, entry);
    }
  }

  lemma {:induction false} IndexOfPrepared(utf8: seq<Byte> -> bool, collapse: seq<Cidr> -> seq<Cidr>,
    fields: seq<Field>, original: Entries, prepared: Entries)
    requires Collapses(collapse) && utf8([]) && SameEntries(original, prepared)
    requires Fold(IndexStep(utf8), original, fields).Some?
    requires PrepareFields(utf8, collapse, fields).Some?
    requires |PrepareFields(utf8, collapse, fields).value| < Remaining(0)
    ensures var output := PrepareFields(utf8, collapse, fields).value;
      && Run(IndexStep(utf8), prepared, output).Some?
      && SameEntries(Fold(IndexStep(utf8), original, fields).value, Run(IndexStep(utf8), prepared, output).value)
    decreases |fields|
  {
    if fields == [] {
    } else if fields[0].number != 1 {
      IndexOfPrepared(utf8, collapse, fields[1..], original, prepared);
    } else {
      var content := fields[0].value.content;
      var entry := Run(EntryStep(utf8), Entry([], false, []), content).value;
      var cooked := Cooked(collapse, entry);
      var rest := PrepareFields(utf8, collapse, fields[1..]).value;
      EntryPrepared(utf8, collapse, content);
      var encoded := Message(1, cooked);
      MessageParses(1, cooked, rest);
      RunStep(IndexStep(utf8), prepared, encoded + rest);
      assert (encoded + rest)[|encoded|..] == rest;
      var original' := IndexStep(utf8)(original, fields[0]).value;
      var prepared' := IndexStep(utf8)(prepared, Field(1, Bytes(cooked))).value;
      IndexOfPrepared(utf8, collapse, fields[1..], original', prepared');
    }
  }

  /**
   * Preparing a catalog offline is invisible to the agent: it finds the same tags and decodes
   * every one of them to the same list.
   */
  lemma PreparationIsInvisible(utf8: seq<Byte> -> bool, collapse: seq<Cidr> -> seq<Cidr>, data: seq<Byte>)
    requires Collapses(collapse) && utf8([])
    requires Prepare(utf8, collapse, data).Some? && Index(utf8, data).Some?
    requires |Prepare(utf8, collapse, data).value| < Remaining(0)
    ensures var before, after := Index(utf8, data), Index(utf8, Prepare(utf8, collapse, data).value);
      && after.Some? && after.value.Keys == before.value.Keys
      && (forall tag :: tag in before.value ==>
            Networks(before.value[tag]).Some? && Networks(after.value[tag]).Some?)
      && (forall tag, list, list' | tag in before.value ::
            DecodesTo(before.value[tag], list) && DecodesTo(after.value[tag], list') ==> list == list')
  {
    IndexOfPrepared(utf8, collapse, ParseFields(data).value, map[], map[]);
    var before, after := Index(utf8, data).value, Index(utf8, Prepare(utf8, collapse, data).value).value;
    forall tag, list, list' | tag in before && DecodesTo(before[tag], list) && DecodesTo(after[tag], list')
      ensures list == list'
    {
      assert SameLists(before[tag], after[tag]);
      CanonicalIsUnique(list, list');
    }
  }
}
