/** The protobuf wire format as the agent's bounded reader and the offline tool both read it. */
module Wire {
  import opened Ipv4

  type Byte = b: int | 0 <= b < 256

  // ----- integers -----

  /** The base-128 encoding the offline tool writes: low group first, high bit on all but the last. */
  function Varint(value: nat): (r: seq<Byte>)
    ensures r != []
  {
    if value < 128 then [value] else [value % 128 + 128] + Varint(value / 128)
  }

  /**
   * The integer at the start of `data` and its length, when `index` groups were read before it.
   * The tenth group may only hold one bit, so every accepted integer fits in 64 bits.
   */
  function ReadVarint(data: seq<Byte>, index: nat): (r: Option<(nat, nat)>)
    requires index <= 9
    ensures r.Some? ==> 0 < r.value.1 <= |data|
    decreases |data|
  {
    if data == [] then None
    else if index == 9 && data[0] > 1 then None
    else if data[0] < 128 then Some((data[0], 1))
    else
      match ReadVarint(data[1..], index + 1)
      case None => None
      case Some((high, length)) => Some((data[0] - 128 + 128 * high, length + 1))
  }

  /** What is left of 64 bits after `index` groups. */
  function Remaining(index: nat): (r: nat)
    requires index <= 9
    ensures index == 9 ==> r == 2
    ensures index < 9 ==> r == 128 * Remaining(index + 1)
    decreases 9 - index
  {
    if index == 9 then 2 else 128 * Remaining(index + 1)
  }

  lemma RemainingIs64Bits()
    ensures Remaining(0) == 0x1_0000_0000_0000_0000
  {
    assert Remaining(4) == 128 * 128 * 128 * 128 * 128 * 2;
  }

  /** Reading inverts writing for every value that fits, and refuses every value that does not. */
  lemma {:induction false} VarintRoundTrip(value: nat, index: nat, rest: seq<Byte>)
    requires index <= 9
    ensures ReadVarint(Varint(value) + rest, index)
      == if value < Remaining(index) then Some((value, |Varint(value)|)) else None
    decreases 9 - index
  {
    var data := Varint(value) + rest;
    if value >= 128 && index < 9 {
      assert data[1..] == Varint(value / 128) + rest;
      VarintRoundTrip(value / 128, index + 1, rest);
    }
  }

  lemma {:induction false} ReadVarintFits(data: seq<Byte>, index: nat)
    requires index <= 9
    ensures ReadVarint(data, index).Some? ==> ReadVarint(data, index).value.0 < Remaining(index)
    decreases 9 - index
  {
    if data != [] && data[0] >= 128 && index < 9 {
      ReadVarintFits(data[1..], index + 1);
    }
  }

  // ----- fields -----

  datatype Value = Integer(value: nat) | Bytes(content: seq<Byte>) | Fixed

  datatype Field = Field(number: nat, value: Value)

  /** The field at the start of `data` and the number of bytes it takes. */
  function ReadField(data: seq<Byte>): (r: Option<(Field, nat)>)
    ensures r.Some? ==> 0 < r.value.1 <= |data|
  {
    match ReadVarint(data, 0)
    case None => None
    case Some((key, used)) =>
      if !(1 <= key / 8 <= 0x1fff_ffff) then None
      else ReadValue(key / 8, key % 8, data, used)
  }

  function ReadValue(number: nat, wire: nat, data: seq<Byte>, used: nat): (r: Option<(Field, nat)>)
    requires used <= |data|
    ensures r.Some? ==> used <= r.value.1 <= |data| && r.value.0.number == number
  {
    if wire == 0 then
      match ReadVarint(data[used..], 0)
      case None => None
      case Some((value, length)) => Some((Field(number, Integer(value)), used + length))
    else if wire == 1 then
      if used + 8 <= |data| then Some((Field(number, Fixed), used + 8)) else None
    else if wire == 2 then
      match ReadVarint(data[used..], 0)
      case None => None
      case Some((size, length)) =>
        var start := used + length;
        if start + size <= |data| then
          Some((Field(number, Bytes(data[start..start + size])), start + size))
        else None
    else if wire == 5 then
      if used + 4 <= |data| then Some((Field(number, Fixed), used + 4)) else None
    else None
  }

  /** All fields of a message, or nothing when any part of it is malformed. */
  function ParseFields(data: seq<Byte>): Option<seq<Field>>
    decreases |data|
  {
    if data == [] then Some([])
    else
      match ReadField(data)
      case None => None
      case Some((field, length)) =>
        match ParseFields(data[length..])
        case None => None
        case Some(rest) => Some([field] + rest)
  }

  /** The offline tool's `message`: a length-delimited field. */
  function Message(number: nat, content: seq<Byte>): seq<Byte> {
    Varint(number * 8 + 2) + Varint(|content|) + content
  }

  /** The low seven bits come first, with the high bit of a byte set when more follow. */
  lemma LowGroupFirst(value: nat)
    ensures value < 128 ==> Varint(value) == [value]
    ensures value >= 128 ==>
      |Varint(value)| > 1 && Varint(value)[0] == 128 + value % 128 && Varint(value)[1..] == Varint(value / 128)
    ensures Varint(300) == [0xac, 0x02]
  {
    assert Varint(2) == [2];
    assert Varint(300) == [300 % 128 + 128] + Varint(2);
  }

  /** A message starts with its number and wire type 2 in one byte, and its length. */
  lemma MessageHeader(number: nat, content: seq<Byte>)
    requires number < 16 && |content| < 128
    ensures Message(number, content) == [8 * number + 2, |content|] + content
    ensures number < 16 ==> IntegerField(number, |content|) == [8 * number, |content|]
  {
  }

  /** A varint field as the offline tool writes it. */
  function IntegerField(number: nat, value: nat): seq<Byte> {
    Varint(number * 8) + Varint(value)
  }

  /** A key that reads back as number and wire type leads to the value behind it. */
  lemma KeyParses(number: nat, wire: nat, key: seq<Byte>, tail: seq<Byte>)
    requires 1 <= number <= 0x1fff_ffff && wire < 8
    requires ReadVarint(key + tail, 0) == Some((number * 8 + wire, |key|))
    ensures ReadField(key + tail) == ReadValue(number, wire, key + tail, |key|)
  {
    assert (number * 8 + wire) / 8 == number && (number * 8 + wire) % 8 == wire;
  }

  lemma KeyReads(number: nat, wire: nat, tail: seq<Byte>)
    requires number <= 0x1fff_ffff && wire < 8
    ensures ReadVarint(Varint(number * 8 + wire) + tail, 0) == Some((number * 8 + wire, |Varint(number * 8 + wire)|))
  {
    RemainingIs64Bits();
    VarintRoundTrip(number * 8 + wire, 0, tail);
  }

  lemma BytesParse(number: nat, key: seq<Byte>, size: seq<Byte>, content: seq<Byte>, rest: seq<Byte>)
    requires ReadVarint(size + (content + rest), 0) == Some((|content|, |size|))
    ensures ReadValue(number, 2, key + (size + (content + rest)), |key|)
      == Some((Field(number, Bytes(content)), |key| + |size| + |content|))
  {
    var data := key + (size + (content + rest));
    assert data[|key|..] == size + (content + rest);
    var start := |key| + |size|;
    assert data[start..start + |content|] == content by {
      forall i | 0 <= i < |content|
        ensures data[start + i] == content[i]
      {
      }
    }
  }

  lemma MessageParses(number: nat, content: seq<Byte>, rest: seq<Byte>)
    requires 1 <= number <= 0x1fff_ffff && |content| < Remaining(0)
    ensures ReadField(Message(number, content) + rest)
      == Some((Field(number, Bytes(content)), |Message(number, content)|))
  {
    var key, size := Varint(number * 8 + 2), Varint(|content|);
    KeyReads(number, 2, size + (content + rest));
    KeyParses(number, 2, key, size + (content + rest));
    VarintRoundTrip(|content|, 0, content + rest);
    BytesParse(number, key, size, content, rest);
    FourParts(key, size, content, rest);
  }

  lemma FourParts(a: seq<Byte>, b: seq<Byte>, c: seq<Byte>, d: seq<Byte>)
    ensures a + b + c + d == a + (b + (c + d))
  {
  }

  lemma ThreeParts(a: seq<Byte>, b: seq<Byte>, c: seq<Byte>)
    ensures a + b + c == a + (b + c)
  {
  }

  lemma IntegerFieldParses(number: nat, value: nat, rest: seq<Byte>)
    requires 1 <= number <= 0x1fff_ffff && value < Remaining(0)
    ensures ReadField(IntegerField(number, value) + rest)
      == Some((Field(number, Integer(value)), |IntegerField(number, value)|))
  {
    var key, tail := Varint(number * 8), Varint(value) + rest;
    VarintRoundTrip(value, 0, rest);
    KeyReads(number, 0, tail);
    KeyParses(number, 0, key, tail);
    IntegerParses(number, key, tail);
    ThreeParts(key, Varint(value), rest);
  }

  lemma IntegerParses(number: nat, key: seq<Byte>, tail: seq<Byte>)
    requires ReadVarint(tail, 0).Some?
    ensures ReadValue(number, 0, key + tail, |key|)
      == Some((Field(number, Integer(ReadVarint(tail, 0).value.0)), |key| + ReadVarint(tail, 0).value.1))
  {
    assert (key + tail)[|key|..] == tail;
  }

  lemma ParseCons(encoded: seq<Byte>, field: Field, rest: seq<Byte>)
    requires encoded != [] && ReadField(encoded + rest) == Some((field, |encoded|))
    ensures ParseFields(encoded + rest)
      == match ParseFields(rest) case None => None case Some(fields) => Some([field] + fields)
  {
    assert (encoded + rest)[|encoded|..] == rest;
  }

  // ----- folding over the fields of a message -----

  /** Both programs read a message by updating some state field by field, refusing on the first error. */
  function Fold<S>(step: (S, Field) -> Option<S>, state: S, fields: seq<Field>): Option<S> {
    if fields == [] then Some(state)
    else
      match step(state, fields[0])
      case None => None
      case Some(next) => Fold(step, next, fields[1..])
  }

  function Run<S>(step: (S, Field) -> Option<S>, state: S, data: seq<Byte>): Option<S> {
    match ParseFields(data)
    case None => None
    case Some(fields) => Fold(step, state, fields)
  }

  /** Reading lazily, one field at a time, refuses and accepts the same messages. */
  lemma RunStep<S>(step: (S, Field) -> Option<S>, state: S, data: seq<Byte>)
    ensures data == [] ==> Run(step, state, data) == Some(state)
    ensures data != [] && ReadField(data).None? ==> Run(step, state, data) == None
    ensures data != [] && ReadField(data).Some? ==>
      var (field, length) := ReadField(data).value;
      Run(step, state, data) ==
        match step(state, field)
        case None => None
        case Some(next) => Run(step, next, data[length..])
  {
    if data != [] && ReadField(data).Some? {
      var (field, length) := ReadField(data).value;
      var rest := ParseFields(data[length..]);
      if rest.Some? {
        assert ([field] + rest.value)[1..] == rest.value;
      }
    }
  }

  // ----- the offline tool's loops -----

  method WriteVarint(value: nat) returns (result: seq<Byte>)
    ensures result == Varint(value)
  {
    result := [];
    var left := value;
    while left >= 128
      invariant result + Varint(left) == Varint(value)
    {
      assert Varint(left) == [left % 128 + 128] + Varint(left / 128);
      result := result + [left % 128 + 128];
      left := left / 128;
    }
    result := result + [left];
  }

  /** The groups already read, and the rest of the integer scaled behind them. */
  function Accumulated(value: nat, scale: nat, index: nat, rest: Option<(nat, nat)>): Option<(nat, nat)> {
    match rest
    case None => None
    case Some((high, length)) => Some((value + scale * high, index + length))
  }

  /** One group of the reading loop: `value |= (byte & 0x7f) << shift`. */
  function WithGroup(value: nat, scale: nat, byte: Byte): nat {
    value + scale * (byte % 128)
  }

  lemma AccumulateGroup(value: nat, scale: nat, index: nat, data: seq<Byte>)
    requires index <= 9 && data != []
    ensures Accumulated(value, scale, index, ReadVarint(data, index)) ==
      if index == 9 && data[0] > 1 then None
      else if data[0] < 128 then Some((WithGroup(value, scale, data[0]), index + 1))
      else Accumulated(WithGroup(value, scale, data[0]), scale * 128, index + 1, ReadVarint(data[1..], index + 1))
  {
    if data[0] >= 128 && index < 9 {
      match ReadVarint(data[1..], index + 1)
      case None =>
      case Some((high, length)) => Distribute(value, scale, data[0] - 128, high);
    }
  }

  lemma Distribute(value: nat, scale: nat, low: nat, high: nat)
    ensures value + scale * low + (scale * 128) * high == value + scale * (low + 128 * high)
  {
  }

  method ParseVarint(data: seq<Byte>, offset: nat) returns (result: Option<(nat, nat)>)
    requires offset <= |data|
    ensures result == match ReadVarint(data[offset..], 0)
      case None => None
      case Some((value, length)) => Some((value, offset + length))
  {
    var value: nat, at: nat, scale: nat := 0, offset, 1;
    ghost var total := ReadVarint(data[offset..], 0);
    for index := 0 to 10
      invariant index <= 9 && at == offset + index <= |data|
      invariant total == Accumulated(value, scale, index, ReadVarint(data[at..], index))
    {
      if at == |data| {
        return None;
      }
      AccumulateGroup(value, scale, index, data[at..]);
      assert data[at..][1..] == data[at + 1..];
      var byte := data[at];
      at := at + 1;
      if index == 9 && byte > 1 {
        return None;
      }
      value := WithGroup(value, scale, byte);
      if byte < 128 {
        return Some((value, at));
      }
      scale := scale * 128;
    }
  }
}
