/** CRC-32 as section 8 of RFC 1952 computes it in 32-bit words, without the table, and what a receiver that checks one
sees. */
module Crc32 {
  import opened MachineWords
  import opened Words
  import opened Lfsr
  import opened Crc
  import opened CrcTable
  import opened CrcTheorems

  const MIRRORED: Uint32 := Uint32(0xEDB8_8320)
  const ALL_ONES: Uint32 := Uint32(0xFFFF_FFFF)

  function Shifted(c: Uint32): (c': Uint32) {
    if Odd(c) then Sum(Half(c), MIRRORED) else Half(c)
  }

  function Times(c: Uint32, n: nat): (c': Uint32)
    decreases n
  {
    if n == 0 then c else Shifted(Times(c, n - 1))
  }

  function Updated(c: Uint32, data: seq<Byte>): (c': Uint32) {
    if data == [] then c else Times(Sum(Updated(c, data[..|data| - 1]), Octet(data[|data| - 1])), 8)
  }

  function StandardCrc32(data: seq<Byte>): (crc: Uint32) {
    Sum(Updated(ALL_ONES, data), ALL_ONES)
  }

  lemma BitsShifted(c: Uint32)
    ensures Bits(Shifted(c)) == var w := Bits(c); if w[0] then Xor(Shr(w, 1), Bits(MIRRORED)) else Shr(w, 1)
  {
    hide Half;
    hide Odd;
    hide Sum;
    hide Bits;
    BitsHalf(c);
    BitsSum(Half(c), MIRRORED);
  }

  /** The polynomial and its mirror image are the constants of the source and of RFC 1952. */
  lemma Crc32Constant()
    ensures FromBits(Crc32Polynomial()) == 0x04C1_1DB7
    ensures Bits(MIRRORED) == Reverse(Crc32Polynomial())
  {
    PolynomialBits();
    BitsValue(Uint32(0x04C1_1DB7));
    MirroredBits();
  }

  lemma PolynomialBits()
    ensures Bits(Uint32(0x04C1_1DB7)) == Crc32Polynomial()
  {
    var w := Crc32Polynomial();
    assert w[0..4] == [true, true, true, false] == Digit(Uint32(0x04C1_1DB7));
    assert Sixteenth(Uint32(0x04C1_1DB7)) == Uint32(0x004C_11DB);
    assert w[4..8] == [true, true, false, true] == Digit(Uint32(0x004C_11DB));
    assert Sixteenth(Uint32(0x004C_11DB)) == Uint32(0x0004_C11D);
    assert w[8..12] == [true, false, true, true] == Digit(Uint32(0x0004_C11D));
    assert Sixteenth(Uint32(0x0004_C11D)) == Uint32(0x0000_4C11);
    assert w[12..16] == [true, false, false, false] == Digit(Uint32(0x0000_4C11));
    assert Sixteenth(Uint32(0x0000_4C11)) == Uint32(0x0000_04C1);
    assert w[16..20] == [true, false, false, false] == Digit(Uint32(0x0000_04C1));
    assert Sixteenth(Uint32(0x0000_04C1)) == Uint32(0x0000_004C);
    assert w[20..24] == [false, false, true, true] == Digit(Uint32(0x0000_004C));
    assert Sixteenth(Uint32(0x0000_004C)) == Uint32(0x0000_0004);
    assert w[24..28] == [false, false, true, false] == Digit(Uint32(0x0000_0004));
    assert Sixteenth(Uint32(0x0000_0004)) == Uint32(0x0000_0000);
    assert w[28..32] == [false, false, false, false] == Digit(Uint32(0x0000_0000));
    SameDigits(Uint32(0x04C1_1DB7), w);
  }

  lemma MirroredBits()
    ensures Bits(MIRRORED) == Reverse(Crc32Polynomial())
  {
    var w := Reverse(Crc32Polynomial());
    assert w[0..4] == [false, false, false, false] == Digit(Uint32(0xEDB8_8320));
    assert Sixteenth(Uint32(0xEDB8_8320)) == Uint32(0x0EDB_8832);
    assert w[4..8] == [false, true, false, false] == Digit(Uint32(0x0EDB_8832));
    assert Sixteenth(Uint32(0x0EDB_8832)) == Uint32(0x00ED_B883);
    assert w[8..12] == [true, true, false, false] == Digit(Uint32(0x00ED_B883));
    assert Sixteenth(Uint32(0x00ED_B883)) == Uint32(0x000E_DB88);
    assert w[12..16] == [false, false, false, true] == Digit(Uint32(0x000E_DB88));
    assert Sixteenth(Uint32(0x000E_DB88)) == Uint32(0x0000_EDB8);
    assert w[16..20] == [false, false, false, true] == Digit(Uint32(0x0000_EDB8));
    assert Sixteenth(Uint32(0x0000_EDB8)) == Uint32(0x0000_0EDB);
    assert w[20..24] == [true, true, false, true] == Digit(Uint32(0x0000_0EDB));
    assert Sixteenth(Uint32(0x0000_0EDB)) == Uint32(0x0000_00ED);
    assert w[24..28] == [true, false, true, true] == Digit(Uint32(0x0000_00ED));
    assert Sixteenth(Uint32(0x0000_00ED)) == Uint32(0x0000_000E);
    assert w[28..32] == [false, true, true, true] == Digit(Uint32(0x0000_000E));
    SameDigits(MIRRORED, w);
  }

  /* ---------------------------------------------------------------- the two forms agree */

  lemma TimesNext(c: Uint32, n: nat)
    ensures Times(c, 0) == c && Times(c, n + 1) == Shifted(Times(c, n))
  {
  }

  lemma {:induction false} TimesConsume(c: Uint32, g: Word, v: Word, e: seq<bool>, n: nat)
    requires g == Reverse(Bits(MIRRORED)) && Consumed(32, Reverse(Bits(c)), g, v, e, 0) && n <= |e|
    ensures Consumed(32, Reverse(Bits(Times(c, n))), g, v, e, n)
    decreases n
  {
    hide Consumed;
    hide Bits;
    hide Shifted;
    hide Times;
    if n == 0 {
      TimesNext(c, 0);
    } else {
      var before := Times(c, n - 1);
      TimesConsume(c, g, v, e, n - 1);
      TimesNext(c, n - 1);
      ShiftedConsumes(before, g, v, e, n - 1);
    }
  }

  lemma ShiftedConsumes(c: Uint32, g: Word, v: Word, e: seq<bool>, i: nat)
    requires g == Reverse(Bits(MIRRORED)) && Consumed(32, Reverse(Bits(c)), g, v, e, i) && i < |e|
    ensures Consumed(32, Reverse(Bits(Shifted(c))), g, v, e, i + 1)
  {
    hide Consumed;
    hide Bits;
    hide Shifted;
    BitsShifted(c);
    NextBitLsb(Bits(c), Bits(MIRRORED), g, v, e, i);
  }

  /** Adding a byte and eight steps feed the byte into the mirrored register. */
  lemma ByteFeeds(c: Uint32, b: Byte)
    ensures Reverse(Bits(Times(Sum(c, Octet(b)), 8))) == Feed(Crc32Polynomial(), Reverse(Bits(c)), b)
  {
    var g, v, loaded := Crc32Polynomial(), Reverse(Bits(c)), Sum(c, Octet(b));
    Crc32Constant();
    ReverseTwice(g);
    BitsSum(c, Octet(b));
    BitsOctet(b);
    hide Bits;
    hide Octet;
    hide Sum;
    LoadReflected(g, Bits(c), b);
    TimesConsume(loaded, g, v, b, 8);
    LastBit(32, Reverse(Bits(Times(loaded, 8))), g, v, b);
  }

  lemma {:induction false} UpdatedIsRegister(c: Uint32, data: seq<Byte>)
    ensures CRC_32.Valid()
    ensures Reverse(Bits(Updated(c, data))) == Register(CRC_32, Reverse(Bits(c)), data)
  {
    Crc32Valid();
    hide Bits;
    hide Octet;
    hide Sum;
    hide Times;
    if data != [] {
      var init, last := data[..|data| - 1], data[|data| - 1];
      UpdatedIsRegister(c, init);
      ByteFeeds(Updated(c, init), last);
      NextRegister(Reverse(Bits(c)), init, last);
      assert data == init + [last];
    }
  }

  lemma NextRegister(start: Word, data: seq<Byte>, b: Byte)
    requires |start| == 32
    ensures CRC_32.Valid()
    ensures Register(CRC_32, start, data + [b]) == Feed(Crc32Polynomial(), Register(CRC_32, start, data), b)
  {
    Crc32Valid();
    assert CRC_32.Generator() == Crc32Polynomial();
    StreamOne(true, data, b);
    FeedConcat(Crc32Polynomial(), start, Stream(true, data), b);
  }

  lemma AllOnes()
    ensures Bits(ALL_ONES) == Ones(32) == Reverse(Ones(32))
  {
    BitDigits(ALL_ONES);
    hide Bits;
    assert Bits(ALL_ONES) == Ones(32) == Reverse(Ones(32));
  }

  /** The value that reports a register. */
  lemma PackedWord(w: Word)
    requires |w| == 32
    ensures CRC_32.Valid() && Pack(CRC_32, Reverse(w)) == Xor(w, Ones(32))
  {
    Crc32Valid();
    ReverseTwice(w);
    assert Ones(32)[..32] == Ones(32);
    assert Xor(w, Ones(32)) + Zeros(0) == Xor(w, Ones(32));
  }

  /** The CRC-32 of any data is what section 8 of RFC 1952 computes for it. */
  lemma Crc32IsStandard(data: seq<Byte>)
    ensures CRC_32.Valid() && CrcOf(CRC_32, data) == Bits(StandardCrc32(data))
  {
    AllOnes();
    UpdatedIsRegister(ALL_ONES, data);
    PackedWord(Bits(Updated(ALL_ONES, data)));
    BitsSum(Updated(ALL_ONES, data), ALL_ONES);
    hide Bits;
    assert Ones(32)[..32] == Ones(32);
  }

  /* ---------------------------------------------------------------- the check value */

  /** The character of a decimal digit. */
  function DigitByte(d: bv4): (b: Byte) {
    [d & 1 != 0, d & 2 != 0, d & 4 != 0, d & 8 != 0, true, true, false, false]
  }

  lemma DigitOctet(d: bv4)
    ensures Octet(DigitByte(d)) == Uint32(0x30 | (d as bv32))
  {
  }

  lemma NextDigit(data: seq<Byte>, d: bv4, c: Uint32)
    requires Updated(ALL_ONES, data) == c
    ensures Updated(ALL_ONES, data + [DigitByte(d)]) == Times(Sum(c, Uint32(0x30 | (d as bv32))), 8)
  {
    hide Times;
    hide Octet;
    hide DigitByte;
    var all := data + [DigitByte(d)];
    assert all[..|all| - 1] == data;
    DigitOctet(d);
  }

  /** CRC-32 of "123456789" is the check value the source states. */
  lemma CheckValue()
    ensures CRC_32.Valid()
    ensures var text := [DigitByte(1), DigitByte(2), DigitByte(3), DigitByte(4), DigitByte(5), DigitByte(6), DigitByte(7),
                         DigitByte(8), DigitByte(9)];
            FromBits(CrcOf(CRC_32, text)) == 0xCBF4_3926
  {
    hide DigitByte;
    hide Updated;
    hide Bits;
    var t0: seq<Byte> := [];
    var t1 := t0 + [DigitByte(1)];
    var t2 := t1 + [DigitByte(2)];
    var t3 := t2 + [DigitByte(3)];
    var t4 := t3 + [DigitByte(4)];
    var t5 := t4 + [DigitByte(5)];
    var t6 := t5 + [DigitByte(6)];
    var t7 := t6 + [DigitByte(7)];
    var t8 := t7 + [DigitByte(8)];
    var t9 := t8 + [DigitByte(9)];
    Start(ALL_ONES);
    NextDigit(t0, 1, ALL_ONES);
    assert Updated(ALL_ONES, t1) == Uint32(0x7C23_1048);
    NextDigit(t1, 2, Uint32(0x7C23_1048));
    assert Updated(ALL_ONES, t2) == Uint32(0xB0AC_BB32);
    NextDigit(t2, 3, Uint32(0xB0AC_BB32));
    assert Updated(ALL_ONES, t3) == Uint32(0x77B7_9C2D);
    NextDigit(t3, 4, Uint32(0x77B7_9C2D));
    assert Updated(ALL_ONES, t4) == Uint32(0x641C_1F5C);
    NextDigit(t4, 5, Uint32(0x641C_1F5C));
    assert Updated(ALL_ONES, t5) == Uint32(0x340A_C5E3);
    NextDigit(t5, 6, Uint32(0x340A_C5E3));
    assert Updated(ALL_ONES, t6) == Uint32(0xF68D_2C9E);
    NextDigit(t6, 7, Uint32(0xF68D_2C9E));
    assert Updated(ALL_ONES, t7) == Uint32(0xAFFC_9660);
    NextDigit(t7, 8, Uint32(0xAFFC_9660));
    assert Updated(ALL_ONES, t8) == Uint32(0x651F_2550);
    NextDigit(t8, 9, Uint32(0x651F_2550));
    assert Updated(ALL_ONES, t9) == Uint32(0x340B_C6D9);
    Crc32IsStandard(t9);
    assert t9 == [DigitByte(1), DigitByte(2), DigitByte(3), DigitByte(4), DigitByte(5), DigitByte(6), DigitByte(7),
                  DigitByte(8), DigitByte(9)];
    CheckBits();
  }

  lemma CheckBits()
    ensures FromBits(Bits(Uint32(0xCBF4_3926))) == 0xCBF4_3926
  {
    BitsValue(Uint32(0xCBF4_3926));
  }

  lemma Start(c: Uint32)
    ensures Updated(c, []) == c
  {
  }

  /* ---------------------------------------------------------------- what a receiver sees */

  /** A CRC as four bytes, lowest first. */
  function CrcBytes(crc: Word): (data: seq<Byte>)
    requires |crc| == 32
    ensures |data| == 4
  {
    [crc[..8], crc[8..16], crc[16..24], crc[24..]]
  }

  lemma BytesStream(crc: Word)
    requires |crc| == 32
    ensures Stream(true, CrcBytes(crc)) == crc
  {
    StreamOne(true, [], crc[..8]);
    StreamOne(true, [crc[..8]], crc[8..16]);
    StreamOne(true, [crc[..8], crc[8..16]], crc[16..24]);
    StreamOne(true, [crc[..8], crc[8..16], crc[16..24]], crc[24..]);
    assert [] + [crc[..8]] == [crc[..8]] && Stream(true, []) == [];
    assert [crc[..8]] + [crc[8..16]] == [crc[..8], crc[8..16]];
    assert [crc[..8], crc[8..16]] + [crc[16..24]] == [crc[..8], crc[8..16], crc[16..24]];
    assert [crc[..8], crc[8..16], crc[16..24]] + [crc[24..]] == CrcBytes(crc);
    hide Stream;
    assert [] + crc[..8] + crc[8..16] + crc[16..24] + crc[24..] == crc;
  }

  /** Feeding a register its own complement leaves what 32 ones leave in an empty one. */
  lemma ComplementFed(g: Word, r: Word)
    requires |g| == |r| == 32
    ensures Feed(g, r, Xor(Reverse(r), Ones(32))) == Feed(g, Zeros(32), Ones(32))
  {
    var e := Xor(Reverse(r), Ones(32));
    FeedSplit(g, r, e);
    assert Top(r, 32) == Reverse(r) && Xor(e, Reverse(r)) == Ones(32) && Shl(r, 32) == Zeros(32);
    var f := Feed(g, Zeros(32), Ones(32));
    assert Xor(Zeros(32), f) == f;
  }

  lemma OnesFed()
    ensures Feed(Crc32Polynomial(), Zeros(32), Ones(32)) == Reverse(Bits(Uint32(0xDEBB_20E3)))
  {
    var g := Crc32Polynomial();
    AllOnes();
    assert Pending(32, Zeros(32), Ones(32)) == Ones(32);
    FirstBit(32, Ones(32), g, Zeros(32), Ones(32));
    Crc32Constant();
    ReverseTwice(g);
    hide Bits;
    hide Consumed;
    TimesConsume(ALL_ONES, g, Zeros(32), Ones(32), 32);
    LastBit(32, Reverse(Bits(Times(ALL_ONES, 32))), g, Zeros(32), Ones(32));
    ThirtyTwo();
  }

  lemma ThirtyTwo()
    ensures Times(ALL_ONES, 32) == Uint32(0xDEBB_20E3)
  {
    assert Times(ALL_ONES, 8) == Uint32(0x2DFD_1072);
    assert Times(ALL_ONES, 16) == Uint32(0xBE26_ED00);
    assert Times(ALL_ONES, 24) == Uint32(0x00BE_26ED);
  }

  /** A receiver that continues the CRC-32 of a message over the four bytes behind it gets one and the same value exactly
  when those are the message's CRC. */
  lemma Residue(m: seq<Byte>, t: seq<Byte>)
    requires |t| == 4
    ensures CRC_32.Valid()
    ensures FromBits(CrcOf(CRC_32, m + t)) == 0x2144_DF1C <==> t == CrcBytes(CrcOf(CRC_32, m))
  {
    Crc32Valid();
    ResidueOfCrc(m);
    ResidueBits();
    var u := CrcBytes(CrcOf(CRC_32, m));
    if t != u {
      assert (m + t)[..|m|] == m == (m + u)[..|m|];
      assert (m + t)[|m|..] == t && (m + u)[|m|..] == u;
      Crc32DetectsFourBytes(m + t, m + u, |m|);
      FromBitsDiffer(CrcOf(CRC_32, m + t), CrcOf(CRC_32, m + u));
    }
  }

  lemma FromBitsDiffer(a: Word, b: Word)
    requires |a| == |b| && a != b
    ensures FromBits(a) != FromBits(b)
  {
    if FromBits(a) == FromBits(b) {
      FromBitsInjective(a, b);
    }
  }

  lemma ResidueBits()
    ensures FromBits(Bits(Uint32(0x2144_DF1C))) == 0x2144_DF1C
  {
    BitsValue(Uint32(0x2144_DF1C));
  }

  lemma ResidueOfCrc(m: seq<Byte>)
    ensures CRC_32.Valid() && CrcOf(CRC_32, m + CrcBytes(CrcOf(CRC_32, m))) == Bits(Uint32(0x2144_DF1C))
  {
    Crc32Valid();
    var g, start := Crc32Polynomial(), InitialRegister(CRC_32);
    assert CRC_32.Generator() == g;
    var r, crc := Register(CRC_32, start, m), CrcOf(CRC_32, m);
    ReverseTwice(r);
    PackedWord(Reverse(r));
    BytesStream(crc);
    StreamConcat(true, m, CrcBytes(crc));
    FeedConcat(g, start, Stream(true, m), crc);
    ComplementFed(g, r);
    OnesFed();
    PackedWord(Bits(Uint32(0xDEBB_20E3)));
    AllOnes();
    BitsSum(Uint32(0xDEBB_20E3), ALL_ONES);
    hide Bits;
    assert Sum(Uint32(0xDEBB_20E3), ALL_ONES) == Uint32(0x2144_DF1C);
  }
}
