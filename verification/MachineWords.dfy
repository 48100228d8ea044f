/** The unsigned 32-bit integers of a processor, and their bits as words. */
module MachineWords {
  import opened Words

  /** A machine word, of which the proofs by induction see the lowest bit and the others only. */
  datatype Uint32 = Uint32(value: bv32)

  predicate Odd(m: Uint32) {
    m.value & 1 != 0
  }

  /** m >> 1 */
  function Half(m: Uint32): (h: Uint32) {
    Uint32(m.value >> 1)
  }

  /** a ^ b */
  function Sum(a: Uint32, b: Uint32): (s: Uint32) {
    Uint32(a.value ^ b.value)
  }

  /** A byte as a number. */
  function Octet(b: Byte): (w: Uint32) {
    Uint32((if b[0] then 1 else 0) | (if b[1] then 2 else 0) | (if b[2] then 4 else 0) | (if b[3] then 8 else 0) |
           (if b[4] then 16 else 0) | (if b[5] then 32 else 0) | (if b[6] then 64 else 0) | (if b[7] then 128 else 0))
  }

  /* ---------------------------------------------------------------- bits */

  function Low(m: Uint32, n: nat): (w: Word)
    ensures |w| == n
    decreases n
  {
    if n == 0 then [] else [Odd(m)] + Low(Half(m), n - 1)
  }

  /** The bits of a machine word, lowest first. */
  function Bits(m: Uint32): (w: Word)
    ensures |w| == 32
  {
    Low(m, 32)
  }

  lemma SumHalves(a: Uint32, b: Uint32)
    ensures Half(Sum(a, b)) == Sum(Half(a), Half(b)) && Odd(Sum(a, b)) == (Odd(a) != Odd(b))
  {
  }

  lemma {:induction false} LowSum(a: Uint32, b: Uint32, n: nat)
    ensures Low(Sum(a, b), n) == Xor(Low(a, n), Low(b, n))
    decreases n
  {
    hide Half;
    hide Odd;
    hide Sum;
    if n > 0 {
      SumHalves(a, b);
      LowSum(Half(a), Half(b), n - 1);
    }
  }

  lemma BitsSum(a: Uint32, b: Uint32)
    ensures Bits(Sum(a, b)) == Xor(Bits(a), Bits(b))
  {
    LowSum(a, b, 32);
    hide Sum;
  }

  /** m >> 4 */
  function Sixteenth(m: Uint32): (s: Uint32) {
    Uint32(m.value >> 4)
  }

  lemma FourHalves(m: Uint32)
    ensures Half(Half(Half(Half(m)))) == Sixteenth(m)
  {
  }

  function Digit(m: Uint32): (d: Word)
    ensures |d| == 4
  {
    [m.value & 1 != 0, m.value & 2 != 0, m.value & 4 != 0, m.value & 8 != 0]
  }

  lemma DigitIs(m: Uint32)
    ensures Digit(m) == [Odd(m), Odd(Half(m)), Odd(Half(Half(m))), Odd(Half(Half(Half(m))))]
  {
  }

  lemma LowFour(m: Uint32, n: nat)
    ensures Low(m, n + 4) == [Odd(m)] + ([Odd(Half(m))] + ([Odd(Half(Half(m)))] + ([Odd(Half(Half(Half(m))))]
                             + Low(Half(Half(Half(Half(m)))), n))))
  {
    hide Half;
    hide Odd;
    var h1 := Half(m);
    var h2 := Half(h1);
    var h3 := Half(h2);
    assert Low(m, n + 4) == [Odd(m)] + Low(h1, n + 3);
    assert Low(h1, n + 3) == [Odd(h1)] + Low(h2, n + 2);
    assert Low(h2, n + 2) == [Odd(h2)] + Low(h3, n + 1);
  }

  lemma JoinFour(a: bool, b: bool, c: bool, d: bool, rest: Word)
    ensures [a] + ([b] + ([c] + ([d] + rest))) == [a, b, c, d] + rest
  {
  }

  lemma LowDigit(m: Uint32, n: nat)
    ensures Low(m, n + 4) == Digit(m) + Low(Sixteenth(m), n)
  {
    LowFour(m, n);
    JoinFour(Odd(m), Odd(Half(m)), Odd(Half(Half(m))), Odd(Half(Half(Half(m)))), Low(Half(Half(Half(Half(m)))), n));
    FourHalves(m);
    DigitIs(m);
    hide Half;
    hide Odd;
    hide Digit;
    hide Sixteenth;
    hide Low;
  }

  lemma FourDigits(s0: Uint32, n: nat)
    ensures var s1 := Sixteenth(s0);
            var s2 := Sixteenth(s1);
            var s3 := Sixteenth(s2);
            Low(s0, n + 16) == Digit(s0) + (Digit(s1) + (Digit(s2) + (Digit(s3) + Low(Sixteenth(s3), n))))
  {
    hide Digit;
    hide Sixteenth;
    hide Low;
    LowDigit(s0, n + 12);
    LowDigit(Sixteenth(s0), n + 8);
    LowDigit(Sixteenth(Sixteenth(s0)), n + 4);
    LowDigit(Sixteenth(Sixteenth(Sixteenth(s0))), n);
  }

  /** The bits of a word, one hexadecimal digit after another. */
  lemma BitDigits(s0: Uint32)
    ensures var s1 := Sixteenth(s0);
            var s2 := Sixteenth(s1);
            var s3 := Sixteenth(s2);
            var s4 := Sixteenth(s3);
            var s5 := Sixteenth(s4);
            var s6 := Sixteenth(s5);
            Bits(s0) == Digit(s0) + (Digit(s1) + (Digit(s2) + (Digit(s3) + (Digit(s4) + (Digit(s5) + (Digit(s6)
                        + (Digit(Sixteenth(s6)) + [])))))))
  {
    hide Digit;
    hide Sixteenth;
    hide Low;
    FourDigits(s0, 16);
    var s4 := Sixteenth(Sixteenth(Sixteenth(Sixteenth(s0))));
    FourDigits(s4, 0);
    assert Low(Sixteenth(Sixteenth(Sixteenth(Sixteenth(s4)))), 0) == [];
  }

  /** The value is below 2^n. */
  predicate Short(m: Uint32, n: nat)
    decreases n
  {
    if n == 0 then m == Uint32(0) else Short(Half(m), n - 1)
  }

  lemma ShortDigit(m: Uint32, n: nat)
    ensures Short(m, n + 4) == Short(Sixteenth(m), n)
  {
    FourHalves(m);
    hide Half;
    hide Sixteenth;
    assert Short(m, n + 4) == Short(Half(m), n + 3) == Short(Half(Half(m)), n + 2) == Short(Half(Half(Half(m))), n + 1);
  }

  lemma EightDigitsGone(m: Uint32)
    ensures Sixteenth(Sixteenth(Sixteenth(Sixteenth(Sixteenth(Sixteenth(Sixteenth(Sixteenth(m)))))))) == Uint32(0)
  {
  }

  lemma EveryShort(m: Uint32)
    ensures Short(m, 32)
  {
    EightDigitsGone(m);
    hide Sixteenth;
    var s1 := Sixteenth(m);
    var s2 := Sixteenth(s1);
    var s3 := Sixteenth(s2);
    var s4 := Sixteenth(s3);
    var s5 := Sixteenth(s4);
    var s6 := Sixteenth(s5);
    var s7 := Sixteenth(s6);
    ShortDigit(m, 28);
    ShortDigit(s1, 24);
    ShortDigit(s2, 20);
    ShortDigit(s3, 16);
    ShortDigit(s4, 12);
    ShortDigit(s5, 8);
    ShortDigit(s6, 4);
    ShortDigit(s7, 0);
  }

  lemma {:induction false} LowPadded(m: Uint32, n: nat)
    requires Short(m, n)
    ensures Low(m, n + 1) == Low(m, n) + [false]
    decreases n
  {
    hide Half;
    if n == 0 {
      assert !Odd(Uint32(0));
    } else {
      hide Odd;
      LowPadded(Half(m), n - 1);
    }
  }

  lemma BitsHalf(m: Uint32)
    ensures Bits(Half(m)) == Shr(Bits(m), 1) && Bits(m)[0] == Odd(m)
  {
    hide Half;
    hide Odd;
    EveryShort(m);
    LowPadded(Half(m), 31);
    assert Low(m, 32) == [Odd(m)] + Low(Half(m), 31);
    hide Low;
    hide Short;
    ShiftedOut(Odd(m), Low(Half(m), 31));
  }

  lemma ShiftedOut(b: bool, w: Word)
    ensures Shr([b] + w, 1) == w + [false]
  {
  }

  lemma {:induction false} LowZero(n: nat)
    ensures Low(Uint32(0), n) == Zeros(n)
  {
    if n > 0 {
      LowZero(n - 1);
      assert Half(Uint32(0)) == Uint32(0) && !Odd(Uint32(0));
      hide Half;
    }
  }

  /* ---------------------------------------------------------------- constants by their digits */

  function DigitValue(m: Uint32): (n: nat) {
    (if m.value & 1 != 0 then 1 else 0) + (if m.value & 2 != 0 then 2 else 0) + (if m.value & 4 != 0 then 4 else 0) +
    (if m.value & 8 != 0 then 8 else 0)
  }

  lemma LowValue(m: Uint32, n: nat)
    ensures FromBits(Low(m, n + 4)) == DigitValue(m) + 16 * FromBits(Low(Sixteenth(m), n))
  {
    LowDigit(m, n);
    var d := Digit(m);
    FromBitsDigit(d[0], d[1], d[2], d[3], Low(Sixteenth(m), n));
    assert d == [d[0], d[1], d[2], d[3]];
    hide Low;
    hide Sixteenth;
    hide FromBits;
  }

  /** The number a machine word is, by its hexadecimal digits. */
  lemma BitsValue(s0: Uint32)
    ensures var s1 := Sixteenth(s0);
            var s2 := Sixteenth(s1);
            var s3 := Sixteenth(s2);
            var s4 := Sixteenth(s3);
            var s5 := Sixteenth(s4);
            var s6 := Sixteenth(s5);
            FromBits(Bits(s0)) == DigitValue(s0) + 16 * (DigitValue(s1) + 16 * (DigitValue(s2) + 16 * (DigitValue(s3) + 16 *
              (DigitValue(s4) + 16 * (DigitValue(s5) + 16 * (DigitValue(s6) + 16 * DigitValue(Sixteenth(s6))))))))
  {
    hide DigitValue;
    hide Sixteenth;
    hide Low;
    hide FromBits;
    var s1 := Sixteenth(s0);
    var s2 := Sixteenth(s1);
    var s3 := Sixteenth(s2);
    var s4 := Sixteenth(s3);
    var s5 := Sixteenth(s4);
    var s6 := Sixteenth(s5);
    LowValue(s0, 28);
    LowValue(s1, 24);
    LowValue(s2, 20);
    LowValue(s3, 16);
    LowValue(s4, 12);
    LowValue(s5, 8);
    LowValue(s6, 4);
    LowValue(Sixteenth(s6), 0);
    NoBits(Sixteenth(Sixteenth(s6)));
  }

  lemma NoBits(m: Uint32)
    ensures FromBits(Low(m, 0)) == 0
  {
  }

  lemma BitsOctet(b: Byte)
    ensures Bits(Octet(b)) == b + Zeros(24)
  {
    hide Digit;
    hide Sixteenth;
    hide Octet;
    var m := Octet(b);
    OctetDigits(b);
    LowDigit(m, 28);
    LowDigit(Sixteenth(m), 24);
    LowZero(24);
    hide Low;
    assert b == [b[0], b[1], b[2], b[3]] + [b[4], b[5], b[6], b[7]];
  }

  lemma OctetDigits(b: Byte)
    ensures var m := Octet(b);
            && Digit(m) == [b[0], b[1], b[2], b[3]] && Digit(Sixteenth(m)) == [b[4], b[5], b[6], b[7]]
            && Sixteenth(Sixteenth(m)) == Uint32(0)
  {
  }

  lemma SameDigits(s0: Uint32, w: Word)
    requires |w| == 32
    requires var s1 := Sixteenth(s0);
             var s2 := Sixteenth(s1);
             var s3 := Sixteenth(s2);
             var s4 := Sixteenth(s3);
             var s5 := Sixteenth(s4);
             var s6 := Sixteenth(s5);
             && w[0..4] == Digit(s0) && w[4..8] == Digit(s1) && w[8..12] == Digit(s2) && w[12..16] == Digit(s3)
             && w[16..20] == Digit(s4) && w[20..24] == Digit(s5) && w[24..28] == Digit(s6)
             && w[28..32] == Digit(Sixteenth(s6))
    ensures Bits(s0) == w
  {
    BitDigits(s0);
    Groups(w, w[0..4], w[4..8], w[8..12], w[12..16], w[16..20], w[20..24], w[24..28], w[28..32]);
  }

  lemma Groups(w: Word, d0: Word, d1: Word, d2: Word, d3: Word, d4: Word, d5: Word, d6: Word, d7: Word)
    requires |w| == 32 && w[0..4] == d0 && w[4..8] == d1 && w[8..12] == d2 && w[12..16] == d3
    requires w[16..20] == d4 && w[20..24] == d5 && w[24..28] == d6 && w[28..32] == d7
    ensures w == d0 + (d1 + (d2 + (d3 + (d4 + (d5 + (d6 + (d7 + [])))))))
  {
  }
}
