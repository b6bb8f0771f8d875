/** The test vector of section 8 of RFC 7914, for the words of the program's own Salsa20/8. */
module SalsaVector {
  import opened Salsa
  import opened Scrypt

  /** A quarter round takes four words to four others. */
  predicate QuarterGives<W(==)>(ops: WordOps<W>, x: seq<W>, z: seq<W>, a: nat, b: nat, c: nat, d: nat)
    requires |x| == |z| == 16 && a < 16 && b < 16 && c < 16 && d < 16
  {
    && z[b] == ops.step(x[b], x[a], x[d], 7) && z[c] == ops.step(x[c], z[b], x[a], 9)
    && z[d] == ops.step(x[d], z[c], z[b], 13) && z[a] == ops.step(x[a], z[d], z[c], 18)
  }

  lemma ColumnsGive<W>(ops: WordOps<W>, x: seq<W>, z: seq<W>)
    requires |x| == |z| == 16
    requires QuarterGives(ops, x, z, 0, 4, 8, 12) && QuarterGives(ops, x, z, 5, 9, 13, 1)
    requires QuarterGives(ops, x, z, 10, 14, 2, 6) && QuarterGives(ops, x, z, 15, 3, 7, 11)
    ensures ColumnRound(ops, x) == z
  {
  }

  lemma RowsGive<W>(ops: WordOps<W>, x: seq<W>, z: seq<W>)
    requires |x| == |z| == 16
    requires QuarterGives(ops, x, z, 0, 1, 2, 3) && QuarterGives(ops, x, z, 5, 6, 7, 4)
    requires QuarterGives(ops, x, z, 10, 11, 8, 9) && QuarterGives(ops, x, z, 15, 12, 13, 14)
    ensures RowRound(ops, x) == z
  {
    ColumnsGive(ops, Transpose(x), Transpose(z));
  }

  const VECTOR_0: seq<bv32> :=
    [ 0x219a877e, 0x86c93e4f, 0xe640a97c, 0x268f7141, 0x5b55eeba, 0xb5c1618c, 0x1146f80d, 0x1d3bcd6d,
      0x19f324ee, 0x853d9bdf, 0x4b1e1214, 0x32aac55a, 0x291d0276, 0x2948c709, 0x8dc6ebed, 0x5ec2b8b8 ]

  const VECTOR_1: seq<bv32> :=
    [ 0x08857f83, 0xbc4dffa4, 0x225a0768, 0x90307809, 0x0091149f, 0xc3e54d59, 0xd113843e, 0xfb5a4eb0,
      0x4ecb1eaa, 0xc0727641, 0x6585dfa2, 0x6a7df42b, 0xaf742b9d, 0x4ee75de5, 0xbf43fb43, 0x55af2fd9 ]

  const VECTOR_2: seq<bv32> :=
    [ 0x482665b1, 0xe6b639e8, 0x5528d0b6, 0x7163bf72, 0x93580e01, 0x0c50b5fd, 0xea23785c, 0xead125ec,
      0xf701a95d, 0xd590a7ea, 0x209aedeb, 0x965705b9, 0xd6e1a597, 0x6f4dbdbc, 0x53299386, 0x10a42604 ]

  const VECTOR_3: seq<bv32> :=
    [ 0xb4cf7248, 0xb8e79720, 0x3e130cef, 0x0cf661a1, 0x175daa0e, 0xde3bd4f1, 0x5dbd3119, 0xdfde6fd7,
      0xff1ed7e2, 0x56e75513, 0xd8b882ab, 0x0c781823, 0x46dfa758, 0x1f5b9d7a, 0x0c1ab003, 0x0f4f975e ]

  const VECTOR_4: seq<bv32> :=
    [ 0xe9e67835, 0x5a0e63c0, 0x85bf1cf2, 0xbce03a58, 0x95e02c9d, 0x10a33116, 0x91024ee3, 0xa399c709,
      0x678d68da, 0x70e69077, 0x3dffe364, 0xc393c734, 0xf3fc17d5, 0x8805fb7c, 0x4e709f83, 0x64b0ce84 ]

  const VECTOR_5: seq<bv32> :=
    [ 0xfbef1227, 0x12c789d1, 0x56808ce8, 0x9eaae64c, 0x64a829f3, 0x43dbdd85, 0xd82bca5e, 0x14f0670f,
      0x7ac93847, 0x282cfb42, 0x60e759d5, 0xaa38b147, 0xdfbb4c3b, 0x285d4b0d, 0xcf69bc64, 0x05ea3220 ]

  const VECTOR_6: seq<bv32> :=
    [ 0x28f2a180, 0x5e3bb01c, 0x03040a5c, 0x69e5ea6b, 0x997f9f3c, 0x1c650ad9, 0x9a28760a, 0x1c5778b3,
      0x89e18946, 0x5055ce7c, 0x3fec3108, 0x20123a83, 0x764c0e51, 0x44dda9f5, 0xf8616b01, 0x5632c6dc ]

  const VECTOR_7: seq<bv32> :=
    [ 0xb0e98b83, 0x346a63e9, 0x3d22e238, 0x4b6545d0, 0x062877f3, 0x1abe5aed, 0x22bcf3e0, 0x2c4e21f0,
      0xbfd36f18, 0x0008b4c1, 0x678d4e77, 0x4cea3475, 0x0aad76ee, 0x9fa29dcd, 0xf232e26c, 0x0fa7223d ]

  const VECTOR_8: seq<bv32> :=
    [ 0x7aea9826, 0x1302ca17, 0xe589d7bf, 0xdf5f9ac1, 0x25cb5c4a, 0xc7729c16, 0x51d583f0, 0x0bf39b29,
      0x4e3e14c6, 0x37a92e04, 0x6ca759ea, 0x87eba846, 0xe7af226e, 0x332bca23, 0xafa0c137, 0x22cca90f ]

  lemma VectorRound0()
    ensures ColumnRound(WORD_OPS, VECTOR_0) == VECTOR_1
  {
    ColumnsGive(WORD_OPS, VECTOR_0, VECTOR_1);
  }

  lemma VectorRound1()
    ensures RowRound(WORD_OPS, VECTOR_1) == VECTOR_2
  {
    RowsGive(WORD_OPS, VECTOR_1, VECTOR_2);
  }

  lemma VectorRound2()
    ensures ColumnRound(WORD_OPS, VECTOR_2) == VECTOR_3
  {
    ColumnsGive(WORD_OPS, VECTOR_2, VECTOR_3);
  }

  lemma VectorRound3()
    ensures RowRound(WORD_OPS, VECTOR_3) == VECTOR_4
  {
    RowsGive(WORD_OPS, VECTOR_3, VECTOR_4);
  }

  lemma VectorRound4()
    ensures ColumnRound(WORD_OPS, VECTOR_4) == VECTOR_5
  {
    ColumnsGive(WORD_OPS, VECTOR_4, VECTOR_5);
  }

  lemma VectorRound5()
    ensures RowRound(WORD_OPS, VECTOR_5) == VECTOR_6
  {
    RowsGive(WORD_OPS, VECTOR_5, VECTOR_6);
  }

  lemma VectorRound6()
    ensures ColumnRound(WORD_OPS, VECTOR_6) == VECTOR_7
  {
    ColumnsGive(WORD_OPS, VECTOR_6, VECTOR_7);
  }

  lemma VectorRound7()
    ensures RowRound(WORD_OPS, VECTOR_7) == VECTOR_8
  {
    RowsGive(WORD_OPS, VECTOR_7, VECTOR_8);
  }

  const VECTOR_OUTPUT: seq<bv32> :=
    [ 0x9c851fa4, 0x99cc0866, 0xcbca813b, 0x05ef0c02, 0x81214b04, 0x7d33fda2, 0x631c7bfd, 0x292f6896,
      0x683139b4, 0xbce6c9e3, 0xb7c56bfe, 0xba966da0, 0x10cc24e4, 0x5c74912c, 0x3d67ad24, 0x818f61c7 ]

  lemma VectorRounds()
    ensures DoubleRounds(WORD_OPS, VECTOR_0, 4) == VECTOR_8
  {
    VectorRound0();
    VectorRound1();
    VectorRound2();
    VectorRound3();
    VectorRound4();
    VectorRound5();
    VectorRound6();
    VectorRound7();
    assert DoubleRounds(WORD_OPS, VECTOR_0, 0) == VECTOR_0;
    assert DoubleRounds(WORD_OPS, VECTOR_0, 1) == VECTOR_2;
    assert DoubleRounds(WORD_OPS, VECTOR_0, 2) == VECTOR_4;
    assert DoubleRounds(WORD_OPS, VECTOR_0, 3) == VECTOR_6;
  }

  lemma {:induction false} DecodeFirst(octets: seq<Byte>)
    requires |octets| >= 4 && |octets| % 4 == 0
    ensures Decode(octets) == [FromOctets(octets[0], octets[1], octets[2], octets[3])] + Decode(octets[4..])
  {
  }

  /** The words of an octet string, one by one. */
  lemma {:induction false} DecodeAt(octets: seq<Byte>, i: nat)
    requires |octets| % 4 == 0 && 4 * i + 4 <= |octets|
    ensures Decode(octets)[i] == FromOctets(octets[4 * i], octets[4 * i + 1], octets[4 * i + 2], octets[4 * i + 3])
  {
    DecodeFirst(octets);
    if i > 0 {
      DecodeAt(octets[4..], i - 1);
    }
  }

  /** The low octet comes first: the standard's listing starts with 7e 87 9a 21 and ends with c7 61 8f 81. */
  lemma OctetOrder()
    ensures FromOctets(0x7e, 0x87, 0x9a, 0x21) == 0x219a877e == VECTOR_0[0]
    ensures ToOctets(0x818f61c7) == [0xc7, 0x61, 0x8f, 0x81] && VECTOR_OUTPUT[15] == 0x818f61c7
  {
  }

  predicate SumsAt<W(==)>(ops: WordOps<W>, x: seq<W>, y: seq<W>, z: seq<W>, i: nat)
    requires |x| == |y| == |z| == 16 && i + 3 < 16
  {
    && z[i] == ops.add(x[i], y[i]) && z[i + 1] == ops.add(x[i + 1], y[i + 1])
    && z[i + 2] == ops.add(x[i + 2], y[i + 2]) && z[i + 3] == ops.add(x[i + 3], y[i + 3])
  }

  lemma SumsGive<W>(ops: WordOps<W>, x: seq<W>, y: seq<W>, z: seq<W>)
    requires |x| == |y| == |z| == 16
    requires SumsAt(ops, x, y, z, 0) && SumsAt(ops, x, y, z, 4) && SumsAt(ops, x, y, z, 8) && SumsAt(ops, x, y, z, 12)
    ensures AddWords(ops, x, y) == z
  {
  }

  lemma FeedForward()
    ensures AddWords(WORD_OPS, VECTOR_0, VECTOR_8) == VECTOR_OUTPUT
  {
    SumsGive(WORD_OPS, VECTOR_0, VECTOR_8, VECTOR_OUTPUT);
  }

  /** Salsa20/8 of the standard's input is the standard's output. */
  lemma SalsaGivesVector()
    ensures Salsa8(WORD_OPS, VECTOR_0) == VECTOR_OUTPUT
  {
    VectorRounds();
    FeedForward();
  }
}
