/** The agent's bounded, seekable reader: fields are offsets into the file, never copies. */
module WireReader {
  import opened Ipv4
  import opened Wire

  datatype Range = Range(start: nat, len: nat)

  datatype RawValue = RawInteger(value: nat) | RawBytes(range: Range) | RawFixed

  datatype Read = Failed | Finished | Found(number: nat, value: RawValue)

  class Reader {
    const file: seq<Byte>
    var position: nat
    var end: nat

    ghost predicate Valid()
      reads this
    {
      position <= end <= |file|
    }

    /** The bytes the reader may still consume. */
    ghost function Rest(): seq<Byte>
      requires Valid()
      reads this
    {
      file[position..end]
    }

    predicate InFile(range: Range) {
      range.start + range.len <= |file|
    }

    function Slice(range: Range): seq<Byte>
      requires InFile(range)
    {
      file[range.start..range.start + range.len]
    }

    constructor (file: seq<Byte>)
      ensures Valid() && this.file == file && Rest() == file && position == 0 && end == |file|
    {
      this.file, position, end := file, 0, |file|;
    }

    method ReadInteger() returns (result: Option<nat>)
      requires Valid()
      modifies this`position
      ensures Valid() && old(position) <= position
      ensures match ReadVarint(old(Rest()), 0)
        case None => result.None?
        case Some((value, length)) => result == Some(value) && position == old(position) + length
    {
      ghost var rest := Rest();
      ghost var total := ReadVarint(rest, 0);
      var value: nat, scale: nat := 0, 1;
      for index := 0 to 10
        invariant Valid() && index <= 9 && position == old(position) + index
        invariant Rest() == rest[index..]
        invariant total == Accumulated(value, scale, index, ReadVarint(Rest(), index))
      {
        if position == end {
          return None;
        }
        AccumulateGroup(value, scale, index, Rest());
        assert Rest()[1..] == file[position + 1..end] == rest[index + 1..];
        var byte := file[position];
        position := position + 1;
        if index == 9 && byte > 1 {
          return None;
        }
        value := WithGroup(value, scale, byte);
        if byte < 128 {
          return Some(value);
        }
        scale := scale * 128;
      }
    }

    method Skip(len: nat) returns (ok: bool)
      requires Valid()
      modifies this`position
      ensures Valid()
      ensures ok <==> old(position) + len <= end
      ensures position == if ok then old(position) + len else old(position)
    {
      ok := position + len <= end;
      if ok {
        position := position + len;
      }
    }

    /** A length-delimited value, seen from the bytes behind its key. */
    static lemma BytesBehindKey(number: nat, rest: seq<Byte>, used: nat)
      requires used <= |rest|
      ensures ReadValue(number, 2, rest, used) ==
        var tail := rest[used..];
        match ReadVarint(tail, 0)
        case None => None
        case Some((size, length)) =>
          if length + size <= |tail| then
            Some((Field(number, Bytes(tail[length..length + size])), used + length + size))
          else None
    {
      match ReadVarint(rest[used..], 0)
      case None =>
      case Some((size, length)) =>
        if length + size <= |rest[used..]| {
          assert rest[used..][length..length + size] == rest[used + length..used + length + size];
        }
    }

    static lemma SliceWithin(file: seq<Byte>, from: nat, end: nat, start: nat, len: nat)
      requires from <= start && start + len <= end <= |file|
      ensures file[start..start + len] == file[from..end][start - from..start - from + len]
    {
      var part, at := file[from..end], start - from;
      var left, right := file[start..start + len], part[at..at + len];
      forall i | 0 <= i < len
        ensures left[i] == right[i]
      {
        assert right[i] == part[at + i] == file[from + (at + i)];
      }
    }

    /** A length and as many bytes, which are skipped rather than read. */
    method NextBytes() returns (result: Option<Range>)
      requires Valid()
      modifies this`position
      ensures Valid() && old(position) <= position
      ensures match ReadVarint(old(Rest()), 0)
        case None => result.None?
        case Some((size, length)) =>
          if length + size <= |old(Rest())| then
            && result == Some(Range(old(position) + length, size))
            && position == old(position) + length + size
            && InFile(result.value) && Slice(result.value) == old(Rest())[length..length + size]
          else result.None?
    {
      ghost var rest, from := Rest(), position;
      var len := ReadInteger();
      if len.None? {
        return None;
      }
      var range := Range(position, len.value);
      var ok := Skip(len.value);
      if !ok {
        return None;
      }
      SliceWithin(file, from, end, range.start, range.len);
      return Some(range);
    }

    /** The value of a field whose key, `used` bytes of `rest`, has just been read. */
    method NextValue(number: nat, wire: nat, ghost rest: seq<Byte>, ghost used: nat) returns (value: Option<RawValue>)
      requires Valid() && used <= |rest| && Rest() == rest[used..]
      modifies this`position
      ensures Valid() && old(position) <= position
      ensures value.None? <==> ReadValue(number, wire, rest, used).None?
      ensures value.Some? ==>
        && (value.value.RawBytes? ==> InFile(value.value.range) && old(position) < value.value.range.start)
        && ReadValue(number, wire, rest, used)
          == Some((Field(number, Content(value.value)), used + (position - old(position))))
    {
      if wire == 0 {
        var n := ReadInteger();
        return if n.None? then None else Some(RawInteger(n.value));
      } else if wire == 1 || wire == 5 {
        var ok := Skip(if wire == 1 then 8 else 4);
        return if ok then Some(RawFixed) else None;
      } else if wire == 2 {
        BytesBehindKey(number, rest, used);
        var range := NextBytes();
        return if range.None? then None else Some(RawBytes(range.value));
      } else {
        return None;
      }
    }

    /** One field; a length-delimited value is returned as its place in the file. */
    method NextField() returns (read: Read)
      requires Valid()
      modifies this`position
      ensures Valid()
      ensures read.Finished? <==> old(Rest()) == []
      ensures read.Failed? <==> old(Rest()) != [] && ReadField(old(Rest())).None?
      ensures read.Finished? ==> position == old(position)
      ensures read.Found? ==>
        && old(position) < position && Rest() == old(Rest())[position - old(position)..]
        && (read.value.RawBytes? ==> InFile(read.value.range) && old(position) < read.value.range.start)
        && ReadField(old(Rest())) == Some((Field(read.number, Content(read.value)), position - old(position)))
    {
      if position == end {
        return Finished;
      }
      ghost var rest, start := Rest(), position;
      var key := ReadInteger();
      if key.None? {
        return Failed;
      }
      var number := key.value / 8;
      if !(1 <= number <= 0x1fff_ffff) {
        return Failed;
      }
      assert Rest() == rest[position - start..];
      var value := NextValue(number, key.value % 8, rest, position - start);
      return if value.None? then Failed else Found(number, value.value);
    }

    ghost function Content(value: RawValue): Value
    {
      match value
      case RawInteger(n) => Integer(n)
      case RawFixed => Fixed
      case RawBytes(range) => if InFile(range) then Bytes(Slice(range)) else Fixed
    }

    /** Entering a range, as `within` does before it hands the reader to its callback. */
    method Enter(range: Range) returns (position': nat, end': nat)
      requires Valid() && InFile(range)
      modifies this`position, this`end
      ensures Valid() && Rest() == Slice(range) && position == range.start && end == range.start + range.len
      ensures position' == old(position) && end' == old(end)
    {
      position', end' := position, end;
      position, end := range.start, range.start + range.len;
    }

    /** Leaving it again, whatever the callback returned. */
    method Leave(position': nat, end': nat)
      requires position' <= end' <= |file|
      modifies this`position, this`end
      ensures Valid() && position == position' && end == end'
    {
      position, end := position', end';
    }
  }
}
