/** The relay's own bytes and generator: a 64-bit xorshift started from the seed in the packet. */
module RelayCodec {
  import opened Ipv4
  import opened Relay

  type Byte = bv8

  // ----- bytes -----

  function Join(low: Byte, high: Byte): nat {
    low as nat + 256 * high as nat
  }

  lemma NextByte(b: Byte)
    requires b != 255
    ensures (b + 1) as nat == b as nat + 1
  {
  }

  lemma ByteBound(b: Byte)
    ensures b as nat < 256 && (b == 255 <==> b as nat == 255)
  {
  }

  lemma SameValue(a: Byte, b: Byte)
    requires a as nat == b as nat
    ensures a == b
  {
  }

  /** The byte of a value below 256. */
  function ToByte(n: nat): (b: Byte)
    requires n < 256
    ensures b as nat == n
  {
    if n == 0 then 0
    else
      var before := ToByte(n - 1);
      ByteBound(before);
      NextByte(before);
      before + 1
  }

  lemma ByteOfValue(b: Byte, n: nat)
    requires n == b as nat
    ensures n < 256 && ToByte(n) == b
  {
    ByteBound(b);
    SameValue(ToByte(n), b);
  }

  function LowByte(length: nat): Byte {
    ToByte(length % 256)
  }

  function HighByte(length: nat): Byte {
    ToByte(length / 256 % 256)
  }

  function Pad(b: Byte): nat {
    (b & 31) as nat
  }

  function Bytes(): ByteOps<Byte> {
    ByteOps((a: Byte, b: Byte) => a ^ b, LowByte, HighByte, Join, Pad)
  }

  lemma TwoDigits(length: nat)
    requires length <= MAX_LENGTH
    ensures length == length % 256 + 256 * (length / 256 % 256)
  {
  }

  lemma Digits(low: nat, high: nat)
    requires low < 256 && high < 256
    ensures low + 256 * high <= MAX_LENGTH
    ensures (low + 256 * high) % 256 == low && (low + 256 * high) / 256 % 256 == high
  {
  }

  lemma JoinSplits(length: nat)
    requires length <= MAX_LENGTH
    ensures Join(LowByte(length), HighByte(length)) == length
  {
    TwoDigits(length);
  }

  lemma SplitJoins(low: Byte, high: Byte, l: nat, h: nat)
    requires l == low as nat && h == high as nat
    ensures Join(low, high) == l + 256 * h <= MAX_LENGTH
    ensures LowByte(l + 256 * h) == low && HighByte(l + 256 * h) == high
  {
    ByteOfValue(low, l);
    ByteOfValue(high, h);
    Digits(l, h);
  }

  lemma XorTwice(a: Byte, b: Byte)
    ensures (a ^ b) ^ b == a
  {
  }

  lemma PadBound(b: Byte)
    ensures (b & 31) as nat <= MAX_PADDING
  {
  }

  lemma BytesLawful()
    ensures Lawful(Bytes())
  {
    var ops := Bytes();
    forall a, b
      ensures ops.xor(ops.xor(a, b), b) == a
    {
      XorTwice(a, b);
    }
    forall n: nat | n <= MAX_LENGTH
      ensures ops.join(ops.low(n), ops.high(n)) == n
    {
      JoinSplits(n);
    }
    forall a, b
      ensures ops.join(a, b) <= MAX_LENGTH
      ensures ops.low(ops.join(a, b)) == a && ops.high(ops.join(a, b)) == b
    {
      SplitJoins(a, b, a as nat, b as nat);
    }
    forall b
      ensures ops.pad(b) <= MAX_PADDING
    {
      PadBound(b);
    }
  }

  // ----- the generator -----

  const STREAM_MASK: bv64 := 0xa076_1d64_78bd_642f

  function FromOctets(s: seq<Byte>): bv64 {
    if |s| != 8 then 0
    else
      (s[0] as bv64) | ((s[1] as bv64) << 8) | ((s[2] as bv64) << 16) | ((s[3] as bv64) << 24)
        | ((s[4] as bv64) << 32) | ((s[5] as bv64) << 40) | ((s[6] as bv64) << 48) | ((s[7] as bv64) << 56)
  }

  function ToOctets(w: bv64): (s: seq<Byte>)
    ensures |s| == 8
  {
    [ (w & 0xff) as Byte, ((w >> 8) & 0xff) as Byte, ((w >> 16) & 0xff) as Byte, ((w >> 24) & 0xff) as Byte,
      ((w >> 32) & 0xff) as Byte, ((w >> 40) & 0xff) as Byte, ((w >> 48) & 0xff) as Byte, ((w >> 56) & 0xff) as Byte ]
  }

  lemma SeedOctets(w: bv64)
    ensures FromOctets(ToOctets(w)) == w
  {
  }

  lemma OctetsOfSeed(s: seq<Byte>)
    requires |s| == 8
    ensures ToOctets(FromOctets(s)) == s
  {
  }

  function Advance(state: bv64): bv64 {
    var a := state ^ (state << 13);
    var b := a ^ (a >> 7);
    b ^ (b << 17)
  }

  function Start(seed: seq<Byte>): bv64 {
    FromOctets(seed) ^ STREAM_MASK
  }

  function Output(state: bv64): Byte {
    (state >> 56) as Byte
  }

  function Xorshift(): Generator<bv64, Byte> {
    Generator(Start, Advance, Output)
  }

  // ----- the codec on real packets -----

  function Packet(seed: bv64, plain: seq<Byte>): seq<Byte> {
    Encoded(Bytes(), Xorshift(), ToOctets(seed), plain)
  }

  function Payload(packet: seq<Byte>, limit: nat): Option<seq<Byte>> {
    Decoded(Bytes(), Xorshift(), packet, limit)
  }

  /** Every datagram that fits survives the envelope, under every seed. */
  lemma DatagramSurvives(seed: bv64, plain: seq<Byte>, limit: nat)
    requires |plain| <= MAX_LENGTH
    ensures Payload(Packet(seed, plain), limit) == if |plain| <= limit then Some(plain) else None
  {
    BytesLawful();
    RoundTrip(Bytes(), Xorshift(), ToOctets(seed), plain, limit);
  }

  /** No strict prefix and no strict extension of a packet is accepted. */
  lemma CutOrGrownRejected(seed: bv64, plain: seq<Byte>, packet: seq<Byte>, limit: nat)
    requires |plain| <= MAX_LENGTH && (packet < Packet(seed, plain) || Packet(seed, plain) < packet)
    ensures Payload(packet, limit).None?
  {
    BytesLawful();
    OtherLengthsRejected(Bytes(), Xorshift(), ToOctets(seed), plain, packet, limit);
  }

  /** An accepted packet is the encoding of its payload under its own seed, but for the padding bytes. */
  lemma AcceptedIsPacket(packet: seq<Byte>, limit: nat)
    requires Payload(packet, limit).Some?
    ensures var plain := Payload(packet, limit).value;
      var own := Packet(FromOctets(packet[..8]), plain);
      |packet| == |own| && packet[..HEADER_SIZE + |plain|] == own[..HEADER_SIZE + |plain|]
  {
    BytesLawful();
    OctetsOfSeed(packet[..8]);
    AcceptedIsEncoded(Bytes(), Xorshift(), packet, limit);
  }

  // ----- the tunnel's packet budget -----

  const MIN_UPLINK_MTU: nat := 1480
  const IPV4_UDP_OVERHEAD: nat := 28
  const WIREGUARD_DATA_OVERHEAD: nat := 32
  const TUNNEL_MTU: nat := MIN_UPLINK_MTU - IPV4_UDP_OVERHEAD - WIREGUARD_DATA_OVERHEAD - HEADER_SIZE - MAX_PADDING

  lemma PacketBound(seed: bv64, plain: seq<Byte>)
    ensures |plain| + HEADER_SIZE <= |Packet(seed, plain)| <= |plain| + HEADER_SIZE + MAX_PADDING
  {
    BytesLawful();
  }

  /** A seed whose first key byte asks for all of the padding. */
  const WIDEST_SEED: bv64 := 0x4d00_0000_0000

  lemma WidestPacket(plain: seq<Byte>)
    ensures |Packet(WIDEST_SEED, plain)| == |plain| + HEADER_SIZE + MAX_PADDING
  {
    var gen, start := Xorshift(), WIDEST_SEED ^ STREAM_MASK;
    SeedOctets(WIDEST_SEED);
    assert StateAt(gen, start, 1) == Advance(StateAt(gen, start, 0)) == Advance(start);
    assert Pad(Output(Advance(start))) == MAX_PADDING;
  }

  /**
   * The tunnel's MTU is the largest one: a WireGuard packet of so many inner bytes, whatever its seed, fits the
   * smallest uplink, and one byte more does not.
   */
  lemma TunnelMtuIsLargest(plain: seq<Byte>)
    ensures |plain| <= TUNNEL_MTU + WIREGUARD_DATA_OVERHEAD
      <==> forall seed: bv64 :: |Packet(seed, plain)| + IPV4_UDP_OVERHEAD <= MIN_UPLINK_MTU
  {
    WidestPacket(plain);
    forall seed: bv64
      ensures |Packet(seed, plain)| <= |plain| + HEADER_SIZE + MAX_PADDING
    {
      PacketBound(seed, plain);
    }
  }

  // ----- one packet, byte for byte -----

  const KNOWN_SEED: bv64 := 0x579b_e024_68ac_f0e3

  lemma KnownStates()
    ensures var gen, start := Xorshift(), KNOWN_SEED ^ STREAM_MASK;
      && KeyByte(gen, start, 0) == 0xa1 && KeyByte(gen, start, 1) == 0xdc && KeyByte(gen, start, 2) == 0xbf
      && KeyByte(gen, start, 3) == 0x32 && KeyByte(gen, start, 4) == 0xbb && KeyByte(gen, start, 5) == 0xc4
  {
    var gen, start := Xorshift(), KNOWN_SEED ^ STREAM_MASK;
    assert StateAt(gen, start, 0) == 0xf7ed_fd40_1011_94cc;
    assert StateAt(gen, start, 1) == Advance(StateAt(gen, start, 0)) == 0xa1ac_3926_af07_04e5;
    assert StateAt(gen, start, 2) == Advance(StateAt(gen, start, 1)) == 0xdcfa_7b16_e45c_93ac;
    assert StateAt(gen, start, 3) == Advance(StateAt(gen, start, 2)) == 0xbf1b_0f58_cfd3_418b;
    assert StateAt(gen, start, 4) == Advance(StateAt(gen, start, 3)) == 0x3252_33d4_293d_e5c8;
    assert StateAt(gen, start, 5) == Advance(StateAt(gen, start, 4)) == 0xbbfc_02c1_aaa9_ec03;
    assert StateAt(gen, start, 6) == Advance(StateAt(gen, start, 5)) == 0xc424_03f4_0031_df1b;
  }

  lemma KnownSeed()
    ensures ToOctets(KNOWN_SEED) == [0xe3, 0xf0, 0xac, 0x68, 0x24, 0xe0, 0x9b, 0x57]
  {
  }

  lemma LowIs(length: nat, low: Byte)
    requires low as nat == length % 256
    ensures LowByte(length) == low
  {
    SameValue(LowByte(length), low);
  }

  lemma HighIs(length: nat, high: Byte)
    requires high as nat == length / 256 % 256
    ensures HighByte(length) == high
  {
    SameValue(HighByte(length), high);
  }

  lemma KnownPadding()
    ensures Pad(0xa1) == 1
  {
    assert (0xa1 as Byte) & 31 == 1;
  }

  lemma KnownXors()
    ensures (2 as Byte) ^ 0xdc == 0xde && (0 as Byte) ^ 0xbf == 0xbf
    ensures (0x47 as Byte) ^ 0x32 == 0x75 && (0x6f as Byte) ^ 0xbb == 0xd4
  {
  }

  /** The packet of the octets 47 6f under one seed: the seed, the masked length, two masked octets, one of padding. */
  lemma KnownPacket()
    ensures Packet(KNOWN_SEED, [0x47, 0x6f]) ==
      [0xe3, 0xf0, 0xac, 0x68, 0x24, 0xe0, 0x9b, 0x57]
        + [0xde, 0xbf, 0x75, 0xd4, 0xc4]
  {
    var key: seq<Byte> := [0xa1, 0xdc, 0xbf, 0x32, 0xbb, 0xc4];
    KnownStates();
    KnownSeed();
    LowIs(2, 2);
    HighIs(2, 0);
    KnownPadding();
    KnownXors();
    SeedOctets(KNOWN_SEED);
    ShortPacket(Bytes(), Xorshift(), ToOctets(KNOWN_SEED), 0x47, 0x6f, key);
  }
}
