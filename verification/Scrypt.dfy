/** The password format's scrypt: N = 16384, r = 8, p = 1, over 32-bit words (crates/gofro-kdf). */
module Scrypt {
  import opened CheckpointedRoMix
  import opened Ipv4
  import opened RoMix
  import opened Salsa

  type Byte = bv8

  const N: nat := 16384
  const R: nat := 8
  const STRIDE: nat := 8
  const WORDS: nat := 256
  const BYTES: nat := 1024

  const WORD_OPS: WordOps<bv32> := WordOps(
    (x, y) => x ^ y,
    (x, y) => x + y,
    (t: bv32, a: bv32, b: bv32, k: nat) => t ^ Rotated(a + b, k))

  /** The rotations of the core; no other amount occurs. */
  function Rotated(w: bv32, amount: nat): bv32 {
    match amount
    case 7 => w.RotateLeft(7)
    case 9 => w.RotateLeft(9)
    case 13 => w.RotateLeft(13)
    case 18 => w.RotateLeft(18)
    case _ => w
  }

  // ----- words and octets -----

  function ToOctets(w: bv32): (o: seq<Byte>)
    ensures |o| == 4
  {
    [(w & 0xff) as Byte, ((w >> 8) & 0xff) as Byte, ((w >> 16) & 0xff) as Byte, (w >> 24) as Byte]
  }

  function FromOctets(a: Byte, b: Byte, c: Byte, d: Byte): bv32 {
    (a as bv32) | ((b as bv32) << 8) | ((c as bv32) << 16) | ((d as bv32) << 24)
  }

  lemma OctetsInvert(w: bv32, a: Byte, b: Byte, c: Byte, d: Byte)
    ensures ToOctets(FromOctets(a, b, c, d)) == [a, b, c, d]
    ensures var o := ToOctets(w); FromOctets(o[0], o[1], o[2], o[3]) == w
  {
  }

  function Encode(words: seq<bv32>): (octets: seq<Byte>)
    ensures |octets| == 4 * |words|
  {
    if words == [] then [] else ToOctets(words[0]) + Encode(words[1..])
  }

  function Decode(octets: seq<Byte>): (words: seq<bv32>)
    requires |octets| % 4 == 0
    ensures 4 * |words| == |octets|
  {
    if octets == [] then []
    else [FromOctets(octets[0], octets[1], octets[2], octets[3])] + Decode(octets[4..])
  }

  lemma {:induction false} DecodeInvertsEncode(words: seq<bv32>)
    ensures Decode(Encode(words)) == words
  {
    if words != [] {
      var o := ToOctets(words[0]);
      assert Encode(words)[4..] == Encode(words[1..]);
      OctetsInvert(words[0], o[0], o[1], o[2], o[3]);
      DecodeInvertsEncode(words[1..]);
    }
  }

  // ----- Integerify -----

  /** The number a little-endian octet string stands for. */
  function LittleEndian(octets: seq<Byte>): nat {
    if octets == [] then 0 else octets[0] as nat + 256 * LittleEndian(octets[1..])
  }

  /** The last 64 octets of a block as a little-endian number (section 5 of RFC 7914). */
  function Integerify(block: seq<bv32>): nat {
    if |block| >= 16 then LittleEndian(Encode(block[|block| - 16..])) else 0
  }

  /** The agent's selection: the low word of that number, masked. */
  function Mask(w: bv32): (index: nat)
    ensures index < N
  {
    MaskIsLow14(w);
    (w & 0x3fff) as nat
  }

  function Low16(w: bv32): bv16 {
    (w & 0xffff) as bv16
  }

  lemma Narrowed(w: bv32)
    ensures ((w & 0x3fff) as bv14) as nat == (w & 0x3fff) as nat
  {
  }

  lemma SameLow14(w: bv32)
    ensures (w & 0x3fff) as bv14 == (((w & 0xffff) as bv16) & 0x3fff) as bv14
  {
  }

  lemma MaskIsLow14(w: bv32)
    ensures (w & 0x3fff) as nat == ((Low16(w) & 0x3fff) as bv14) as nat
  {
    Narrowed(w);
    SameLow14(w);
  }

  lemma Split14(x: bv16)
    ensures ((x & 0x3fff) as bv14) as nat + 16384 * ((x >> 14) as bv2) as nat == x as nat
  {
  }

  lemma SplitOctets(x: bv16)
    ensures ((x & 0xff) as Byte) as nat + 256 * ((x >> 8) as Byte) as nat == x as nat
  {
  }

  lemma LowOctets(w: bv32)
    ensures ToOctets(w)[0] == (Low16(w) & 0xff) as Byte && ToOctets(w)[1] == (Low16(w) >> 8) as Byte
  {
  }

  lemma LowBitsOnly(index: nat, top: nat, low: nat, high: nat)
    requires index < 16384 && low == index + 16384 * top
    ensures (low + 65536 * high) % 16384 == index
  {
    assert low + 65536 * high == index + 16384 * (top + 4 * high);
  }

  lemma LowTwoOctets(octets: seq<Byte>)
    requires |octets| >= 2
    ensures LittleEndian(octets) == octets[0] as nat + 256 * octets[1] as nat + 65536 * LittleEndian(octets[1..][1..])
  {
  }

  lemma LowWord(w: bv32, rest: nat)
    ensures (ToOctets(w)[0] as nat + 256 * ToOctets(w)[1] as nat + 65536 * rest) % 16384 == Mask(w)
  {
    LowOctets(w);
    SplitOctets(Low16(w));
    Split14(Low16(w));
    MaskIsLow14(w);
    LowBitsOnly(Mask(w), ((Low16(w) >> 14) as bv2) as nat, Low16(w) as nat, rest);
  }

  /** Only the low word of Integerify matters, since N divides 2^16. */
  lemma MaskIsIntegerify(block: seq<bv32>)
    ensures Picked(Mask, block) == Integerify(block) % N
  {
    if |block| >= 16 {
      var tail := block[|block| - 16..];
      var octets := Encode(tail);
      assert octets[0] == ToOctets(tail[0])[0] && octets[1] == ToOctets(tail[0])[1];
      LowTwoOctets(octets);
      LowWord(tail[0], LittleEndian(octets[1..][1..]));
    }
  }

  lemma MaskPicks()
    ensures PicksIntegerify(Mask, Integerify, N)
  {
    forall y
      ensures Picker(Mask)(y) == Integerify(y) % N
    {
      MaskIsIntegerify(y);
    }
  }

  // ----- key derivation -----

  type Pbkdf2 = (seq<Byte>, seq<Byte>, nat) -> Option<seq<Byte>>

  /** A key derivation returns exactly the octets asked for. */
  ghost predicate Sized(pbkdf2: Pbkdf2) {
    forall password, salt, length :: pbkdf2(password, salt, length).Some? ==>
      |pbkdf2(password, salt, length).value| == length
  }

  /** scryptROMix on octets, as section 5 of RFC 7914 defines it. */
  function RoMixOctets(octets: seq<Byte>): seq<Byte>
    requires |octets| == BYTES
  {
    Encode(Dense(Mixer(WORD_OPS, R), Combiner(WORD_OPS), Integerify, Decode(octets), N))
  }

  /** scrypt with p = 1, as section 6 of RFC 7914 defines it. */
  ghost function Standard(pbkdf2: Pbkdf2, password: seq<Byte>, salt: seq<Byte>, length: nat): Option<seq<Byte>>
    requires Sized(pbkdf2)
  {
    var first := pbkdf2(password, salt, BYTES);
    if first.None? then None else pbkdf2(password, RoMixOctets(first.value), length)
  }

  lemma {:induction false} DecodedAt(octets: seq<Byte>, i: nat)
    requires |octets| % 4 == 0 && 4 * i < |octets|
    ensures Decode(octets)[i] == FromOctets(octets[4 * i], octets[4 * i + 1], octets[4 * i + 2], octets[4 * i + 3])
    decreases i
  {
    if i > 0 {
      DecodedAt(octets[4..], i - 1);
    }
  }

  lemma {:induction false} EncodeAppend(words: seq<bv32>, w: bv32)
    ensures Encode(words + [w]) == Encode(words) + ToOctets(w)
  {
    if words == [] {
      assert [w][1..] == [];
    } else {
      assert (words + [w])[1..] == words[1..] + [w];
      EncodeAppend(words[1..], w);
    }
  }

  method LoadWords(octets: seq<Byte>, block: array<bv32>)
    requires |octets| == 4 * block.Length
    modifies block
    ensures block[..] == Decode(octets)
  {
    for i := 0 to block.Length
      invariant forall k :: 0 <= k < i ==> block[k] == Decode(octets)[k]
    {
      DecodedAt(octets, i);
      block[i] := FromOctets(octets[4 * i], octets[4 * i + 1], octets[4 * i + 2], octets[4 * i + 3]);
    }
  }

  method StoreWords(block: array<bv32>) returns (octets: seq<Byte>)
    ensures octets == Encode(block[..])
  {
    octets := [];
    for i := 0 to block.Length
      invariant octets == Encode(block[..i])
    {
      EncodeAppend(block[..i], block[i]);
      assert block[..i + 1] == block[..i] + [block[i]];
      octets := octets + ToOctets(block[i]);
    }
    assert block[..block.Length] == block[..];
  }

  lemma CallBudget()
    ensures Repeated(1 + STRIDE, N) == 147456 && WORDS * (N / STRIDE) == 524288
  {
    RepeatedIsProduct(1 + STRIDE, N);
  }

  /** `scrypt`: the standard's key for every password, salt and length, with 2 MiB of checkpoints. */
  method Derive(pbkdf2: Pbkdf2, password: seq<Byte>, salt: seq<Byte>, length: nat)
    returns (key: Option<seq<Byte>>, ghost calls: nat, ghost stored: nat)
    requires Sized(pbkdf2)
    ensures key == Standard(pbkdf2, password, salt, length)
    ensures calls <= 147456 && stored <= 524288
  {
    calls, stored := 0, 0;
    var first := pbkdf2(password, salt, BYTES);
    if first.None? {
      return None, calls, stored;
    }
    var block := new bv32[WORDS];
    LoadWords(first.value, block);
    MaskPicks();
    calls, stored := RoMixInPlace(WORD_OPS, Mask, Integerify, R, N, STRIDE, block);
    CallBudget();
    var mixed := StoreWords(block);
    key := pbkdf2(password, mixed, length);
  }
}
