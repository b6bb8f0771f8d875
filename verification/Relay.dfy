/** The relay envelope: a seed, then length, payload and padding under the seed's keystream. */
module Relay {
  import opened Ipv4

  const HEADER_SIZE: nat := 10
  const MAX_LENGTH: nat := 65535
  const MAX_PADDING: nat := 31

  /** How bytes are masked, split from a length and joined to one; `pad` is a byte's low five bits. */
  datatype ByteOps<!B> = ByteOps(xor: (B, B) -> B, low: nat -> B, high: nat -> B, join: (B, B) -> nat, pad: B -> nat)

  ghost predicate Lawful<B(!new)>(ops: ByteOps<B>) {
    && (forall a, b :: ops.xor(ops.xor(a, b), b) == a)
    && (forall n :: 0 <= n <= MAX_LENGTH ==> ops.join(ops.low(n), ops.high(n)) == n)
    && (forall a, b :: ops.join(a, b) <= MAX_LENGTH && ops.low(ops.join(a, b)) == a && ops.high(ops.join(a, b)) == b)
    && (forall b :: ops.pad(b) <= MAX_PADDING)
  }

  /** A keystream generator: where a seed starts it, one step, and the byte a state gives. */
  datatype Generator<!S, !B> = Generator(start: seq<B> -> S, advance: S -> S, output: S -> B)

  function StateAt<S, B>(gen: Generator<S, B>, s: S, steps: nat): S {
    if steps == 0 then s else gen.advance(StateAt(gen, s, steps - 1))
  }

  /** The keystream byte at a position. */
  function KeyByte<S, B>(gen: Generator<S, B>, s: S, position: nat): B {
    gen.output(StateAt(gen, s, position + 1))
  }

  function Keystream<S, B>(gen: Generator<S, B>, s: S, first: nat, count: nat): (k: seq<B>)
    ensures |k| == count
  {
    seq(count, (i: nat) => KeyByte(gen, s, first + i))
  }

  function Masked<B>(ops: ByteOps<B>, text: seq<B>, key: seq<B>): (r: seq<B>)
    requires |text| == |key|
    ensures |r| == |text|
  {
    seq(|text|, i requires 0 <= i < |text| => ops.xor(text[i], key[i]))
  }

  lemma MaskedTwice<B(!new)>(ops: ByteOps<B>, text: seq<B>, key: seq<B>)
    requires Lawful(ops) && |text| == |key|
    ensures Masked(ops, Masked(ops, text, key), key) == text
  {
  }

  // ----- the envelope -----

  function Padding<S, B>(ops: ByteOps<B>, gen: Generator<S, B>, seed: seq<B>): nat {
    ops.pad(KeyByte(gen, gen.start(seed), 0))
  }

  /** The packet of a datagram under a seed. */
  function Encoded<S, B>(ops: ByteOps<B>, gen: Generator<S, B>, seed: seq<B>, plain: seq<B>): (packet: seq<B>)
    requires |seed| == 8
    ensures |packet| == HEADER_SIZE + |plain| + Padding(ops, gen, seed)
  {
    var s := gen.start(seed);
    seed + ([ops.xor(ops.low(|plain|), KeyByte(gen, s, 1)), ops.xor(ops.high(|plain|), KeyByte(gen, s, 2))]
      + (Masked(ops, plain, Keystream(gen, s, 3, |plain|)) + Keystream(gen, s, 3 + |plain|, Padding(ops, gen, seed))))
  }

  /** A packet of two bytes, with one byte of padding, written out. */
  lemma ShortPacket<S, B>(ops: ByteOps<B>, gen: Generator<S, B>, seed: seq<B>, first: B, second: B, key: seq<B>)
    requires |seed| == 8 && |key| == 6 && ops.pad(key[0]) == 1
    requires forall k :: 0 <= k < 6 ==> KeyByte(gen, gen.start(seed), k) == key[k]
    ensures Encoded(ops, gen, seed, [first, second]) ==
      seed + [ops.xor(ops.low(2), key[1]), ops.xor(ops.high(2), key[2]), ops.xor(first, key[3]),
              ops.xor(second, key[4]), key[5]]
  {
    var start, plain := gen.start(seed), [first, second];
    assert Keystream(gen, start, 3, 2) == [key[3], key[4]];
    assert Masked(ops, plain, Keystream(gen, start, 3, 2)) == [ops.xor(first, key[3]), ops.xor(second, key[4])];
    assert Keystream(gen, start, 5, 1) == [key[5]];
  }

  /** The length a packet's header announces. */
  function Announced<S, B>(ops: ByteOps<B>, gen: Generator<S, B>, packet: seq<B>): nat
    requires |packet| >= HEADER_SIZE
  {
    var s := gen.start(packet[..8]);
    ops.join(ops.xor(packet[8], KeyByte(gen, s, 1)), ops.xor(packet[9], KeyByte(gen, s, 2)))
  }

  /** A packet is accepted when its own length is exactly the announced one and the payload fits. */
  predicate Accepted<S, B>(ops: ByteOps<B>, gen: Generator<S, B>, packet: seq<B>, limit: nat) {
    && |packet| >= HEADER_SIZE && Announced(ops, gen, packet) <= limit
    && HEADER_SIZE + Announced(ops, gen, packet) + Padding(ops, gen, packet[..8]) == |packet|
  }

  function Decoded<S, B>(ops: ByteOps<B>, gen: Generator<S, B>, packet: seq<B>, limit: nat): Option<seq<B>> {
    if !Accepted(ops, gen, packet, limit) then None
    else
      var length := Announced(ops, gen, packet);
      Some(Masked(ops, packet[HEADER_SIZE..HEADER_SIZE + length], Keystream(gen, gen.start(packet[..8]), 3, length)))
  }

  /** A packet that starts like an encoded one announces the same length. */
  lemma HeaderAnnounces<S, B(!new)>(ops: ByteOps<B>, gen: Generator<S, B>, seed: seq<B>, plain: seq<B>, packet: seq<B>)
    requires Lawful(ops) && |seed| == 8 && |plain| <= MAX_LENGTH && |packet| >= HEADER_SIZE
    requires packet[..HEADER_SIZE] == Encoded(ops, gen, seed, plain)[..HEADER_SIZE]
    ensures packet[..8] == seed && Announced(ops, gen, packet) == |plain|
  {
    assert packet[..8] == packet[..HEADER_SIZE][..8] == seed;
    assert packet[8] == packet[..HEADER_SIZE][8] && packet[9] == packet[..HEADER_SIZE][9];
  }

  /** Decoding gives back every datagram that fits, whatever the seed. */
  lemma RoundTrip<S, B(!new)>(ops: ByteOps<B>, gen: Generator<S, B>, seed: seq<B>, plain: seq<B>, limit: nat)
    requires Lawful(ops) && |seed| == 8 && |plain| <= MAX_LENGTH
    ensures Decoded(ops, gen, Encoded(ops, gen, seed, plain), limit) == if |plain| <= limit then Some(plain) else None
  {
    var packet := Encoded(ops, gen, seed, plain);
    HeaderAnnounces(ops, gen, seed, plain, packet);
    var key := Keystream(gen, gen.start(seed), 3, |plain|);
    assert packet[HEADER_SIZE..HEADER_SIZE + |plain|] == Masked(ops, plain, key);
    MaskedTwice(ops, plain, key);
  }

  /** Every strict prefix and every strict extension of an encoded packet is rejected. */
  lemma OtherLengthsRejected<S, B(!new)>(ops: ByteOps<B>, gen: Generator<S, B>, seed: seq<B>, plain: seq<B>,
    packet: seq<B>, limit: nat)
    requires Lawful(ops) && |seed| == 8 && |plain| <= MAX_LENGTH
    requires packet < Encoded(ops, gen, seed, plain) || Encoded(ops, gen, seed, plain) < packet
    ensures Decoded(ops, gen, packet, limit).None?
  {
    if |packet| >= HEADER_SIZE {
      var encoded := Encoded(ops, gen, seed, plain);
      assert packet[..HEADER_SIZE] == encoded[..HEADER_SIZE];
      HeaderAnnounces(ops, gen, seed, plain, packet);
    }
  }

  lemma ThreeParts<B>(packet: seq<B>, length: nat)
    requires HEADER_SIZE + length <= |packet|
    ensures packet[..HEADER_SIZE + length] ==
      packet[..8] + ([packet[8], packet[9]] + packet[HEADER_SIZE..HEADER_SIZE + length])
  {
  }

  lemma FrontOfFour<B>(seed: seq<B>, a: B, b: B, body: seq<B>, tail: seq<B>)
    requires |seed| == 8
    ensures (seed + ([a, b] + (body + tail)))[..HEADER_SIZE + |body|] == seed + ([a, b] + body)
  {
  }

  /** An accepted packet is, but for its padding, the encoding of what it decodes to. */
  lemma AcceptedIsEncoded<S, B(!new)>(ops: ByteOps<B>, gen: Generator<S, B>, packet: seq<B>, limit: nat)
    requires Lawful(ops) && Decoded(ops, gen, packet, limit).Some?
    ensures var plain := Decoded(ops, gen, packet, limit).value;
      && |plain| <= MAX_LENGTH && |plain| <= limit
      && |packet| == |Encoded(ops, gen, packet[..8], plain)|
      && packet[..HEADER_SIZE + |plain|] == Encoded(ops, gen, packet[..8], plain)[..HEADER_SIZE + |plain|]
  {
    var s, length := gen.start(packet[..8]), Announced(ops, gen, packet);
    var body := packet[HEADER_SIZE..HEADER_SIZE + length];
    var key := Keystream(gen, s, 3, length);
    MaskedTwice(ops, body, key);
    ThreeParts(packet, length);
    FrontOfFour(packet[..8], packet[8], packet[9], body, Keystream(gen, s, 3 + length, Padding(ops, gen, packet[..8])));
  }

  // ----- the loops -----

  ghost predicate SameOutside<B>(before: seq<B>, after: seq<B>, lo: nat, hi: nat) {
    |before| == |after| && forall i :: 0 <= i < |after| && !(lo <= i < hi) ==> after[i] == before[i]
  }

  /** Writes a text under the keystream, one drawn byte at a time; decoding is the same loop. */
  method MaskInto<S, B>(ops: ByteOps<B>, gen: Generator<S, B>, ghost s: S, stream: S, ghost position: nat,
    text: seq<B>, output: array<B>, at: nat)
    returns (after: S)
    requires at + |text| <= output.Length && stream == StateAt(gen, s, position)
    modifies output
    ensures after == StateAt(gen, s, position + |text|)
    ensures output[at..at + |text|] == Masked(ops, text, Keystream(gen, s, position, |text|))
    ensures SameOutside(old(output[..]), output[..], at, at + |text|)
  {
    after := stream;
    for i := 0 to |text|
      invariant after == StateAt(gen, s, position + i)
      invariant forall k :: 0 <= k < i ==> output[at + k] == ops.xor(text[k], KeyByte(gen, s, position + k))
      invariant SameOutside(old(output[..]), output[..], at, at + |text|)
    {
      after := gen.advance(after);
      output[at + i] := ops.xor(text[i], gen.output(after));
    }
  }

  method PadInto<S, B>(gen: Generator<S, B>, ghost s: S, stream: S, ghost position: nat, count: nat,
    output: array<B>, at: nat)
    requires at + count <= output.Length && stream == StateAt(gen, s, position)
    modifies output
    ensures output[at..at + count] == Keystream(gen, s, position, count)
    ensures SameOutside(old(output[..]), output[..], at, at + count)
  {
    var after := stream;
    for i := 0 to count
      invariant after == StateAt(gen, s, position + i)
      invariant output[at..at + i] == Keystream(gen, s, position, i)
      invariant SameOutside(old(output[..]), output[..], at, at + count)
    {
      ghost var before := output[at..at + i];
      after := gen.advance(after);
      output[at + i] := gen.output(after);
      assert output[at..at + i + 1] == before + [output[at + i]];
      assert Keystream(gen, s, position, i + 1) == Keystream(gen, s, position, i) + [KeyByte(gen, s, position + i)];
    }
  }

  method CopyInto<B>(text: seq<B>, output: array<B>)
    requires |text| <= output.Length
    modifies output
    ensures output[..|text|] == text && SameOutside(old(output[..]), output[..], 0, |text|)
  {
    for i := 0 to |text|
      invariant forall k :: 0 <= k < i ==> output[k] == text[k]
      invariant SameOutside(old(output[..]), output[..], 0, |text|)
    {
      output[i] := text[i];
    }
  }

  lemma Assembled<B>(seed: seq<B>, header: seq<B>, body: seq<B>, tail: seq<B>, first: seq<B>, second: seq<B>,
    third: seq<B>, last: seq<B>)
    requires |seed| == 8 && |header| == 2 && HEADER_SIZE + |body| + |tail| <= |last|
    requires SameOutside(first, second, 8, 10) && SameOutside(second, third, 10, 10 + |body|)
    requires SameOutside(third, last, 10 + |body|, 10 + |body| + |tail|)
    requires first[..8] == seed && second[8..10] == header && third[10..10 + |body|] == body
    requires last[10 + |body|..10 + |body| + |tail|] == tail
    ensures last[..10 + |body| + |tail|] == seed + (header + (body + tail))
    ensures last[10 + |body| + |tail|..] == first[10 + |body| + |tail|..]
  {
    forall i | 0 <= i < 10 + |body| + |tail|
      ensures last[i] == (seed + (header + (body + tail)))[i]
    {
      if i < 8 {
        assert last[i] == first[..8][i];
      } else if i < 10 {
        assert last[i] == second[8..10][i - 8];
      } else if i < 10 + |body| {
        assert last[i] == third[10..10 + |body|][i - 10];
      } else {
        assert last[i] == last[10 + |body|..10 + |body| + |tail|][i - 10 - |body|];
      }
    }
  }

  function Header<S, B>(ops: ByteOps<B>, gen: Generator<S, B>, seed: seq<B>, length: nat): (h: seq<B>)
    ensures |h| == 2
  {
    Masked(ops, [ops.low(length), ops.high(length)], Keystream(gen, gen.start(seed), 1, 2))
  }

  lemma EncodedParts<S, B>(ops: ByteOps<B>, gen: Generator<S, B>, seed: seq<B>, plain: seq<B>)
    requires |seed| == 8
    ensures Encoded(ops, gen, seed, plain) == seed + (Header(ops, gen, seed, |plain|)
      + (Masked(ops, plain, Keystream(gen, gen.start(seed), 3, |plain|))
      + Keystream(gen, gen.start(seed), 3 + |plain|, Padding(ops, gen, seed))))
  {
    var s := gen.start(seed);
    assert Header(ops, gen, seed, |plain|)
      == [ops.xor(ops.low(|plain|), KeyByte(gen, s, 1)), ops.xor(ops.high(|plain|), KeyByte(gen, s, 2))];
  }

  /** Writes the four parts of a packet one after the other. */
  method WriteParts<S, B>(ops: ByteOps<B>, gen: Generator<S, B>, seed: seq<B>, plain: seq<B>, output: array<B>,
    stream: S, padding: nat)
    requires |seed| == 8 && stream == StateAt(gen, gen.start(seed), 1) && padding == Padding(ops, gen, seed)
    requires HEADER_SIZE + |plain| + padding <= output.Length
    modifies output
    ensures output[..HEADER_SIZE + |plain| + padding] == Encoded(ops, gen, seed, plain)
    ensures output[HEADER_SIZE + |plain| + padding..] == old(output[HEADER_SIZE + |plain| + padding..])
  {
    ghost var s := gen.start(seed);
    ghost var start := output[..];
    CopyInto(seed, output);
    ghost var first := output[..];
    var after := MaskInto(ops, gen, s, stream, 1, [ops.low(|plain|), ops.high(|plain|)], output, 8);
    ghost var second := output[..];
    after := MaskInto(ops, gen, s, after, 3, plain, output, HEADER_SIZE);
    ghost var third := output[..];
    PadInto(gen, s, after, 3 + |plain|, padding, output, HEADER_SIZE + |plain|);
    EncodedParts(ops, gen, seed, plain);
    Assembled(seed, Header(ops, gen, seed, |plain|), Masked(ops, plain, Keystream(gen, s, 3, |plain|)),
      Keystream(gen, s, 3 + |plain|, padding), first, second, third, output[..]);
  }

  /** `encode`: the seed's keystream is drawn byte by byte while the packet is written. */
  method Encode<S, B>(ops: ByteOps<B>, gen: Generator<S, B>, seed: seq<B>, plain: seq<B>,
    output: array<B>) returns (size: Option<nat>)
    requires |seed| == 8
    modifies output
    ensures size.Some? <==> |plain| <= MAX_LENGTH && |Encoded(ops, gen, seed, plain)| <= output.Length
    ensures size.Some? ==> size.value <= output.Length && output[..size.value] == Encoded(ops, gen, seed, plain)
    ensures size.Some? ==> output[size.value..] == old(output[size.value..])
    ensures size.None? ==> output[..] == old(output[..])
  {
    if |plain| > MAX_LENGTH {
      return None;
    }
    var stream := gen.advance(gen.start(seed));
    assert stream == StateAt(gen, gen.start(seed), 1);
    var padding := ops.pad(gen.output(stream));
    if output.Length < HEADER_SIZE + |plain| + padding {
      return None;
    }
    WriteParts(ops, gen, seed, plain, output, stream, padding);
    size := Some(HEADER_SIZE + |plain| + padding);
  }

  /** `decode`: the header is unmasked first, and nothing is written unless all lengths agree. */
  method Decode<S, B>(ops: ByteOps<B>, gen: Generator<S, B>, packet: seq<B>,
    output: array<B>) returns (length: Option<nat>)
    modifies output
    ensures length.Some? == Decoded(ops, gen, packet, output.Length).Some?
    ensures length.Some? ==>
      length.value <= output.Length && output[..length.value] == Decoded(ops, gen, packet, output.Length).value
    ensures length.None? ==> output[..] == old(output[..])
  {
    if |packet| < HEADER_SIZE {
      return None;
    }
    ghost var s := gen.start(packet[..8]);
    var stream := gen.advance(gen.start(packet[..8]));
    assert stream == StateAt(gen, s, 1);
    var padding := ops.pad(gen.output(stream));
    stream := gen.advance(stream);
    var low := ops.xor(packet[8], gen.output(stream));
    assert stream == StateAt(gen, s, 2);
    stream := gen.advance(stream);
    var high := ops.xor(packet[9], gen.output(stream));
    assert stream == StateAt(gen, s, 3);
    var announced := ops.join(low, high);
    if announced > output.Length || HEADER_SIZE + announced + padding != |packet| {
      return None;
    }
    stream := MaskInto(ops, gen, s, stream, 3, packet[HEADER_SIZE..HEADER_SIZE + announced], output, 0);
    length := Some(announced);
  }
}
