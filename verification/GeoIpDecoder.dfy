/** The agent's loops over a GeoIP file, proved against the whole-message reading of GeoIpCatalog. */
module GeoIpDecoder {
  import opened Ipv4
  import opened Aggregation
  import opened Wire
  import opened WireReader
  import opened GeoIpCatalog

  /** `Reader::bytes::<4>` at an address field. */
  method ReadAddress(reader: Reader, range: Range) returns (ip: int)
    requires reader.Valid() && reader.InFile(range) && range.len == 4
    modifies reader
    ensures reader.Valid() && reader.position == old(reader.position) && reader.end == old(reader.end)
    ensures ip == FromBytes(reader.Slice(range))
  {
    var position, end := reader.Enter(range);
    ip := FromBytes(reader.file[reader.position..reader.position + 4]);
    reader.position := reader.position + 4;
    reader.Leave(position, end);
  }

  /** The callback of `decode_ip` on one CIDR message: at most one network. */
  method ReadCidr(reader: Reader, range: Range) returns (result: Option<seq<Cidr>>)
    requires reader.Valid() && reader.InFile(range)
    modifies reader
    ensures reader.Valid() && reader.position == old(reader.position) && reader.end == old(reader.end)
    ensures result == match Run(CidrStep, CidrState(None, 0), reader.Slice(range))
      case None => None
      case Some(state) => Some(NetworkOf(state))
  {
    ghost var total := Run(CidrStep, CidrState(None, 0), reader.Slice(range));
    var position, end := reader.Enter(range);
    var state := CidrState(None, 0);
    var ok := true;
    while ok
      invariant reader.Valid() && reader.end == range.start + range.len
      invariant total == if ok then Run(CidrStep, state, reader.Rest()) else None
      decreases ok, reader.end - reader.position
    {
      RunStep(CidrStep, state, reader.Rest());
      var read := reader.NextField();
      if read.Finished? {
        break;
      }
      if read.Failed? {
        ok := false;
        break;
      }
      if read.number == 1 && read.value.RawBytes? {
        if read.value.range.len == 4 {
          var ip := ReadAddress(reader, read.value.range);
          state := state.(address := Some(ip));
        } else {
          state := state.(address := None);
        }
      } else if read.number == 2 && read.value.RawInteger? {
        state := state.(prefix := read.value.value);
      } else if read.number == 1 || read.number == 2 {
        ok := false;
      }
    }
    reader.Leave(position, end);
    result := if ok then Some(NetworkOf(state)) else None;
  }

  /** `decode_ip`: the entry's IPv4 networks, aggregated in place. */
  method DecodeIp(reader: Reader) returns (result: Option<seq<Cidr>>)
    requires reader.Valid()
    modifies reader
    ensures result.None? <==> Networks(old(reader.Rest())).None?
    ensures result.Some? ==> DecodesTo(old(reader.Rest()), result.value)
  {
    ghost var total := Networks(reader.Rest());
    var collected: seq<Cidr> := [];
    while true
      invariant reader.Valid()
      invariant total == Run(NetworksStep, collected, reader.Rest())
      decreases reader.end - reader.position
    {
      RunStep(NetworksStep, collected, reader.Rest());
      var read := reader.NextField();
      if read.Finished? {
        break;
      }
      if read.Failed? {
        return None;
      }
      if read.number == 2 {
        if !read.value.RawBytes? {
          return None;
        }
        var network := ReadCidr(reader, read.value.range);
        if network.None? {
          return None;
        }
        collected := collected + network.value;
      }
    }
    var networks := new Cidr[|collected|](i requires 0 <= i < |collected| => collected[i]);
    assert networks[..] == collected;
    var written := Aggregate(networks);
    result := Some(networks[..written]);
  }

  /** `Reader::string` with its limit, then the lower-cased tag. */
  method ReadTag(utf8: seq<Byte> -> bool, reader: Reader, range: Range) returns (tag: Option<seq<Byte>>)
    requires reader.Valid() && reader.InFile(range)
    modifies reader
    ensures reader.Valid() && reader.position == old(reader.position) && reader.end == old(reader.end)
    ensures tag == if range.len <= 64 && utf8(reader.Slice(range)) then Some(Lower(reader.Slice(range))) else None
  {
    if range.len > 64 {
      return None;
    }
    var position, end := reader.Enter(range);
    var bytes := reader.file[reader.position..reader.position + range.len];
    reader.position := reader.position + range.len;
    reader.Leave(position, end);
    tag := if utf8(bytes) then Some(Lower(bytes)) else None;
  }

  /** The callback of `IndexedFile::open` on one entry. */
  method ReadHead(utf8: seq<Byte> -> bool, reader: Reader, range: Range) returns (result: Option<Head>)
    requires reader.Valid() && reader.InFile(range)
    modifies reader
    ensures reader.Valid() && reader.position == old(reader.position) && reader.end == old(reader.end)
    ensures result == Run(HeadStep(utf8), Head([], false), reader.Slice(range))
  {
    ghost var total := Run(HeadStep(utf8), Head([], false), reader.Slice(range));
    var position, end := reader.Enter(range);
    var head := Head([], false);
    var ok := true;
    while ok
      invariant reader.Valid() && reader.end == range.start + range.len
      invariant total == if ok then Run(HeadStep(utf8), head, reader.Rest()) else None
      decreases ok, reader.end - reader.position
    {
      RunStep(HeadStep(utf8), head, reader.Rest());
      var read := reader.NextField();
      if read.Finished? {
        break;
      }
      if read.Failed? {
        ok := false;
        break;
      }
      if read.number == 1 {
        if read.value.RawBytes? {
          var tag := ReadTag(utf8, reader, read.value.range);
          if tag.None? {
            ok := false;
          } else {
            head := head.(tag := tag.value);
          }
        } else {
          ok := false;
        }
      } else if read.number == 3 {
        if read.value.RawInteger? {
          head := head.(inverse := read.value.value != 0);
        } else {
          ok := false;
        }
      }
    }
    reader.Leave(position, end);
    result := if ok then Some(head) else None;
  }

  ghost predicate Locates(reader: Reader, ranges: map<seq<Byte>, Range>, entries: Entries) {
    && ranges.Keys == entries.Keys
    && forall tag :: tag in ranges ==> reader.InFile(ranges[tag]) && reader.Slice(ranges[tag]) == entries[tag]
  }

  /** `IndexedFile::open`: the place of every kept entry, found in one pass. */
  method OpenIndex(utf8: seq<Byte> -> bool, file: seq<Byte>) returns (reader: Reader,
    result: Option<map<seq<Byte>, Range>>)
    ensures reader.file == file && fresh(reader)
    ensures result.None? <==> Index(utf8, file).None?
    ensures result.Some? ==> Locates(reader, result.value, Index(utf8, file).value)
  {
    reader := new Reader(file);
    var ranges: map<seq<Byte>, Range> := map[];
    ghost var entries: Entries := map[];
    while true
      invariant reader.Valid() && reader.file == file
      invariant Locates(reader, ranges, entries)
      invariant Index(utf8, file) == Run(IndexStep(utf8), entries, reader.Rest())
      decreases reader.end - reader.position
    {
      RunStep(IndexStep(utf8), entries, reader.Rest());
      var read := reader.NextField();
      if read.Finished? {
        break;
      }
      if read.Failed? {
        return reader, None;
      }
      if read.number == 1 {
        if !read.value.RawBytes? {
          return reader, None;
        }
        var head := ReadHead(utf8, reader, read.value.range);
        if head.None? {
          return reader, None;
        }
        if !head.value.inverse {
          entries := entries[head.value.tag := reader.Slice(read.value.range)];
          ranges := ranges[head.value.tag := read.value.range];
        }
      }
    }
    result := Some(ranges);
  }
}
