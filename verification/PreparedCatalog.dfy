/** From a catalog to a decoded list, as the agent goes, for an original file and its prepared form. */
module PreparedCatalog {
  import opened Ipv4
  import opened Wire
  import opened WireReader
  import opened GeoIpCatalog
  import opened GeoIpDecoder
  import opened OfflinePrepare

  /** What asking a file for a tag gives. */
  datatype Lookup = UnreadableFile | NoSuchTag | MalformedEntry | Decoded(list: seq<Cidr>)

  /** The lookup of a tag, in terms of the whole file. */
  ghost predicate Answers(utf8: seq<Byte> -> bool, file: seq<Byte>, tag: seq<Byte>, lookup: Lookup) {
    match Index(utf8, file)
    case None => lookup == UnreadableFile
    case Some(entries) =>
      if tag !in entries then lookup == NoSuchTag
      else if Networks(entries[tag]).None? then lookup == MalformedEntry
      else lookup.Decoded? && DecodesTo(entries[tag], lookup.list)
  }

  /** `IndexedFile::open` and then `get` with `decode_ip`, which reads inside the entry's range. */
  method DecodeTag(utf8: seq<Byte> -> bool, file: seq<Byte>, tag: seq<Byte>) returns (lookup: Lookup)
    ensures Answers(utf8, file, tag, lookup)
  {
    var indexer, ranges := OpenIndex(utf8, file);
    if ranges.None? {
      return UnreadableFile;
    }
    if tag !in ranges.value {
      return NoSuchTag;
    }
    var reader := new Reader(file);
    assert reader.Slice(ranges.value[tag]) == indexer.Slice(ranges.value[tag]);
    var position, end := reader.Enter(ranges.value[tag]);
    var list := DecodeIp(reader);
    reader.Leave(position, end);
    lookup := if list.None? then MalformedEntry else Decoded(list.value);
  }

  /** A file's lookup and its prepared form's lookup are equal, and decode. */
  lemma LookupsAgree(utf8: seq<Byte> -> bool, collapse: seq<Cidr> -> seq<Cidr>, data: seq<Byte>, tag: seq<Byte>,
    before: Lookup, after: Lookup)
    requires Collapses(collapse) && utf8([])
    requires Prepare(utf8, collapse, data).Some? && |Prepare(utf8, collapse, data).value| < Remaining(0)
    requires Answers(utf8, data, tag, before) && Answers(utf8, Prepare(utf8, collapse, data).value, tag, after)
    ensures !before.UnreadableFile? ==> after == before && (before == NoSuchTag || before.Decoded?)
  {
    if Index(utf8, data).Some? {
      PreparationIsInvisible(utf8, collapse, data);
    }
  }

  /** Preparing a file and asking it for a tag gives what asking the original file gives, for every tag. */
  method DecodeBoth(utf8: seq<Byte> -> bool, collapse: seq<Cidr> -> seq<Cidr>, data: seq<Byte>, tag: seq<Byte>)
    returns (prepared: Option<seq<Byte>>, before: Lookup, after: Lookup)
    requires Collapses(collapse) && utf8([])
    ensures prepared == Prepare(utf8, collapse, data) && Answers(utf8, data, tag, before)
    ensures prepared.Some? && |prepared.value| < Remaining(0) && !before.UnreadableFile? ==> after == before
  {
    prepared := PrepareCatalog(utf8, collapse, data);
    before := DecodeTag(utf8, data, tag);
    after := UnreadableFile;
    if prepared.Some? {
      after := DecodeTag(utf8, prepared.value, tag);
      if |prepared.value| < Remaining(0) {
        LookupsAgree(utf8, collapse, data, tag, before, after);
      }
    }
  }
}
