/** The offline tool's loops: reading fields lazily, collecting networks and writing the smaller catalog. */
module OfflinePrepare {
  import opened Ipv4
  import opened GeoIpCatalog
  import opened Wire

  // ----- fields -----

  lemma RestOfRest(data: seq<Byte>, offset: nat, length: nat)
    requires offset + length <= |data|
    ensures data[offset..][length..] == data[offset + length..]
  {
  }

  lemma SliceOfRest(data: seq<Byte>, offset: nat, from: nat, to: nat)
    requires offset + to <= |data| && from <= to
    ensures data[offset..][from..to] == data[offset + from..offset + to]
  {
  }

  /** The value behind a key; `used` is the key's length. */
  method ParseValue(data: seq<Byte>, offset: nat, used: nat, number: nat, wire: nat) returns (r: Option<(Field, nat)>)
    requires offset + used <= |data|
    ensures r == match ReadValue(number, wire, data[offset..], used)
      case None => None
      case Some((field, length)) => Some((field, offset + length))
  {
    RestOfRest(data, offset, used);
    if wire == 0 {
      var value := ParseVarint(data, offset + used);
      return if value.None? then None else Some((Field(number, Integer(value.value.0)), value.value.1));
    }
    if wire != 1 && wire != 2 && wire != 5 {
      return None;
    }
    var length, start: nat := if wire == 1 then 8 else 4, offset + used;
    if wire == 2 {
      var size := ParseVarint(data, start);
      if size.None? {
        return None;
      }
      length, start := size.value.0, size.value.1;
    }
    if start + length > |data| {
      return None;
    }
    SliceOfRest(data, offset, start - offset, start - offset + length);
    r := Some((Field(number, if wire == 2 then Bytes(data[start..start + length]) else Fixed), start + length));
  }

  /** One turn of `fields`. */
  method ParseField(data: seq<Byte>, offset: nat) returns (r: Option<(Field, nat)>)
    requires offset < |data|
    ensures r == match ReadField(data[offset..])
      case None => None
      case Some((field, length)) => Some((field, offset + length))
    ensures r.Some? ==> offset < r.value.1 <= |data| && data[r.value.1..] == data[offset..][r.value.1 - offset..]
  {
    var key := ParseVarint(data, offset);
    if key.None? {
      return None;
    }
    var number := key.value.0 / 8;
    if !(1 <= number <= 0x1fff_ffff) {
      return None;
    }
    r := ParseValue(data, offset, key.value.1 - offset, number, key.value.0 % 8);
    if r.Some? {
      RestOfRest(data, offset, r.value.1 - offset);
    }
  }

  // ----- one entry -----

  /** The innermost loop: the last address and prefix of a CIDR message, if they make a network. */
  method ReadNetwork(content: seq<Byte>) returns (r: Option<seq<Cidr>>)
    ensures r == match Run(RawCidrStep, RawCidr([], 0), content)
      case None => None
      case Some(state) => Some(RawNetwork(state))
  {
    var state, offset := RawCidr([], 0), 0;
    ghost var total := Run(RawCidrStep, state, content);
    assert content[0..] == content;
    while offset < |content|
      invariant offset <= |content| && total == Run(RawCidrStep, state, content[offset..])
    {
      RunStep(RawCidrStep, state, content[offset..]);
      var read := ParseField(content, offset);
      if read.None? {
        return None;
      }
      var next := RawCidrStep(state, read.value.0);
      if next.None? {
        return None;
      }
      state, offset := next.value, read.value.1;
    }
    RunStep(RawCidrStep, state, content[offset..]);
    r := Some(RawNetwork(state));
  }

  /** One field of an entry. */
  method ReadPart(utf8: seq<Byte> -> bool, entry: Entry, field: Field) returns (next: Option<Entry>)
    ensures next == EntryStep(utf8)(entry, field)
  {
    if field.number == 1 {
      var readable := field.value.Bytes? && utf8(field.value.content);
      next := if readable then Some(entry.(tag := field.value.content)) else None;
    } else if field.number == 3 {
      next := if field.value.Integer? then Some(entry.(inverse := field.value.value != 0)) else None;
    } else if field.number == 2 {
      if !field.value.Bytes? {
        return None;
      }
      var networks := ReadNetwork(field.value.content);
      next := if networks.None? then None else Some(entry.(networks := entry.networks + networks.value));
    } else {
      next := Some(entry);
    }
  }

  /** The middle loop: tag, flag and networks of an entry. */
  method ReadEntry(utf8: seq<Byte> -> bool, content: seq<Byte>) returns (r: Option<Entry>)
    ensures r == Run(EntryStep(utf8), Entry([], false, []), content)
  {
    var entry, offset := Entry([], false, []), 0;
    ghost var total := Run(EntryStep(utf8), entry, content);
    assert content[0..] == content;
    while offset < |content|
      invariant offset <= |content| && total == Run(EntryStep(utf8), entry, content[offset..])
    {
      RunStep(EntryStep(utf8), entry, content[offset..]);
      var read := ParseField(content, offset);
      if read.None? {
        return None;
      }
      var next := ReadPart(utf8, entry, read.value.0);
      if next.None? {
        return None;
      }
      entry, offset := next.value, read.value.1;
    }
    RunStep(EntryStep(utf8), entry, content[offset..]);
    r := Some(entry);
  }

  /** The output of one entry: an inverse entry keeps its flag and loses its networks. */
  method WriteEntry(collapse: seq<Cidr> -> seq<Cidr>, entry: Entry) returns (cooked: seq<Byte>)
    ensures cooked == Cooked(collapse, entry)
  {
    cooked := Message(1, entry.tag);
    if entry.inverse {
      return cooked + IntegerField(3, 1);
    }
    var networks, written := collapse(entry.networks), [];
    for i := 0 to |networks|
      invariant written + CidrMessages(networks[i..]) == CidrMessages(networks)
    {
      assert networks[i..][1..] == networks[i + 1..];
      assert written + (Message(2, CidrBytes(networks[i])) + CidrMessages(networks[i + 1..]))
        == written + Message(2, CidrBytes(networks[i])) + CidrMessages(networks[i + 1..]);
      written := written + Message(2, CidrBytes(networks[i]));
    }
    cooked := cooked + written;
  }

  // ----- the whole catalog -----

  /** Preparing lazily, one field at a time, refuses and accepts the same catalogs. */
  lemma PrepareStep(utf8: seq<Byte> -> bool, collapse: seq<Cidr> -> seq<Cidr>, data: seq<Byte>)
    ensures data == [] ==> Prepare(utf8, collapse, data) == Some([])
    ensures data != [] && ReadField(data).None? ==> Prepare(utf8, collapse, data) == None
    ensures data != [] && ReadField(data).Some? ==>
      var (field, length) := ReadField(data).value;
      var rest := Prepare(utf8, collapse, data[length..]);
      Prepare(utf8, collapse, data) == After(utf8, collapse, field, rest)
  {
    if data != [] && ReadField(data).Some? {
      var (field, length) := ReadField(data).value;
      var fields := ParseFields(data[length..]);
      if fields.Some? {
        assert ([field] + fields.value)[1..] == fields.value;
      }
    }
  }

  /** What one field contributes in front of the rest. */
  function After(utf8: seq<Byte> -> bool, collapse: seq<Cidr> -> seq<Cidr>, field: Field,
    rest: Option<seq<Byte>>): Option<seq<Byte>> {
    if field.number != 1 then rest
    else if !field.value.Bytes? then None
    else
      match Run(EntryStep(utf8), Entry([], false, []), field.value.content)
      case None => None
      case Some(entry) => if rest.None? then None else Some(Message(1, Cooked(collapse, entry)) + rest.value)
  }

  /** What has been written, in front of what is still to come. */
  function Pending(output: seq<Byte>, rest: Option<seq<Byte>>): Option<seq<Byte>> {
    if rest.None? then None else Some(output + rest.value)
  }

  lemma PendingAppend(output: seq<Byte>, more: seq<Byte>, rest: Option<seq<Byte>>)
    ensures Pending(output, if rest.None? then None else Some(more + rest.value)) == Pending(output + more, rest)
  {
    if rest.Some? {
      assert output + (more + rest.value) == output + more + rest.value;
    }
  }

  lemma PendingEnds(output: seq<Byte>, rest: Option<seq<Byte>>)
    ensures Pending([], rest) == rest && Pending(output, Some([])) == Some(output)
  {
    if rest.Some? {
      assert [] + rest.value == rest.value;
    }
    assert output + [] == output;
  }

  /** `prepare`, without its two counters. */
  method PrepareCatalog(utf8: seq<Byte> -> bool, collapse: seq<Cidr> -> seq<Cidr>,
    data: seq<Byte>) returns (r: Option<seq<Byte>>)
    ensures r == Prepare(utf8, collapse, data)
  {
    var output: seq<Byte>, offset := [], 0;
    ghost var total := Prepare(utf8, collapse, data);
    assert data[0..] == data;
    PendingEnds(output, total);
    while offset < |data|
      invariant offset <= |data| && total == Pending(output, Prepare(utf8, collapse, data[offset..]))
    {
      PrepareStep(utf8, collapse, data[offset..]);
      var read := ParseField(data, offset);
      if read.None? {
        return None;
      }
      var field := read.value.0;
      ghost var rest := Prepare(utf8, collapse, data[read.value.1..]);
      offset := read.value.1;
      if field.number == 1 {
        if !field.value.Bytes? {
          return None;
        }
        var entry := ReadEntry(utf8, field.value.content);
        if entry.None? {
          return None;
        }
        var cooked := WriteEntry(collapse, entry.value);
        PendingAppend(output, Message(1, cooked), rest);
        output := output + Message(1, cooked);
      }
    }
    PrepareStep(utf8, collapse, data[offset..]);
    PendingEnds(output, total);
    r := Some(output);
  }
}
