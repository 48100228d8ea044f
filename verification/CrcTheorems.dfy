/** What the CRC engine promises, for every well-formed parameter set and every input. */
module CrcTheorems {
  import opened Collections
  import opened Words
  import opened Gf2Poly
  import opened Lfsr
  import opened Crc
  import opened CrcTable

  /** x^W + polynomial. */
  ghost function GeneratorPoly(p: Parameters): (g: Poly)
    requires p.Valid()
    ensures |g| == p.width + 1 && g[p.width]
  {
    p.Generator() + [true]
  }

  /** start * x^8n + message * x^W. */
  ghost function Augmented(p: Parameters, start: Word, data: seq<Byte>): (a: Poly)
    requires p.Valid() && |start| == p.width
  {
    Dividend(start, Stream(p.reflectInput, data))
  }

  /** The remainder with its highest coefficient first if the output is reflected, XORed, and zeros above the width. */
  ghost predicate Reports(p: Parameters, crc: Word, r: Poly)
    requires p.Valid() && |r| == p.width && |crc| == p.bits
  {
    forall i :: 0 <= i < p.bits ==>
      crc[i] == (i < p.width && r[if p.reflectOutput then p.width - 1 - i else i] != p.finalXOR[i])
  }

  /** A CRC reports the remainder of its message by the generator, and nothing else. */
  lemma CrcIsRemainder(p: Parameters, data: seq<Byte>, crc: Word, r: Poly)
    requires p.Valid() && |r| == p.width && |crc| == p.bits && Reports(p, crc, r)
    ensures CrcOf(p, data) == crc
       <==> IsRemainder(Augmented(p, Orient(p.reflectInput, p.initialValue[..p.width]), data), GeneratorPoly(p), r)
  {
    assert crc == Pack(p, r);
    hide Pack;
    var start := InitialRegister(p);
    var reg := Register(p, start, data);
    FeedIsRemainder(p.Generator(), start, Stream(p.reflectInput, data));
    if IsRemainder(Augmented(p, start, data), GeneratorPoly(p), r) {
      RemainderUnique(Augmented(p, start, data), GeneratorPoly(p), r, reg);
    }
    if Pack(p, reg) == Pack(p, r) {
      UnpackPack(p, reg);
      UnpackPack(p, r);
    }
  }

  /** Both loops leave, in the low W bits, the remainder of the message continued from `before`. */
  lemma LoopIsRemainder(p: Parameters, before: Word, data: seq<Byte>, after: Word)
    requires p.Valid() && |before| == p.bits && Remainder(p, before, data, after)
    requires p.reflectInput ==> Fits(before, p.width)
    ensures IsRemainder(Augmented(p, Orient(p.reflectInput, before[..p.width]), data), GeneratorPoly(p),
                        Orient(p.reflectInput, after[..p.width]))
  {
    var start := Orient(p.reflectInput, before[..p.width]);
    FeedIsRemainder(p.Generator(), start, Stream(p.reflectInput, data));
    if p.reflectInput {
      ReflectedLoop(p, before, data, after);
    }
  }

  /** A reflected remainder that starts below 2^W stays below 2^W. */
  lemma ReflectedLoop(p: Parameters, before: Word, data: seq<Byte>, after: Word)
    requires p.Valid() && p.reflectInput && |before| == p.bits && Fits(before, p.width)
    requires Remainder(p, before, data, after)
    ensures after == Reverse(Register(p, Reverse(before[..p.width]), data)) + Zeros(p.bits - p.width)
    ensures Fits(after, p.width)
    ensures Reverse(after[..p.width]) == Register(p, Reverse(before[..p.width]), data)
  {
    var low := before[..p.width];
    var reg := Register(p, Reverse(low), data);
    MaskLow(before, p.width);
    MaskFits(before, p.width);
    ReverseTwice(low);
    HoldsReflected(p, before, Reverse(low));
    RemainderHolds(p, before, data, after, Reverse(low));
    HoldsReflected(p, after, reg);
    ReverseTwice(reg);
    assert after[..p.width] == Reverse(reg);
  }

  /** The two remainder loops agree under BIT_MASK, and bit for bit if reflected or if the type is as wide as the CRC. */
  lemma LoopsAgree(p: Parameters, before: Word, data: seq<Byte>, bitwise: Word, byTable: Word)
    requires p.Valid() && |before| == p.bits
    requires Remainder(p, before, data, bitwise) && Remainder(p, before, data, byTable)
    ensures Mask(bitwise, p.width) == Mask(byTable, p.width)
    ensures p.reflectInput || p.width == p.bits ==> bitwise == byTable
  {
    if p.reflectInput {
      ReverseTwice(bitwise);
      ReverseTwice(byTable);
    } else {
      MaskLow(bitwise, p.width);
      MaskLow(byTable, p.width);
      if p.width == p.bits {
        assert bitwise[..p.width] == bitwise && byTable[..p.width] == byTable;
      }
    }
  }

  function Wider(a: nat, b: nat): (c: nat) {
    if a < b then b else a
  }

  /** The two loops agree bit for bit on every input if and only if they are reflected or the type has no bits above
  those the loops work on. Where it has, one zero start and one byte 1 tell them apart, whatever the polynomial: the bits
  above the width are quotient bits in the one loop and register bits in the other. */
  lemma LoopsAgreeExactly(p: Parameters)
    requires p.Valid()
    ensures (forall before, data :: |before| == p.bits ==> BitLoop(p, before, data) == TableLoop(p, before, data))
       <==> p.reflectInput || p.bits == Wider(p.width, 8)
  {
    if p.reflectInput || p.bits == Wider(p.width, 8) {
      forall before, data | |before| == p.bits ensures BitLoop(p, before, data) == TableLoop(p, before, data) {
        LoopsEqual(p, before, data);
      }
    } else {
      OneByteDiffers(p);
      assert |Zeros(p.bits)| == p.bits;
    }
  }

  lemma LoopsEqual(p: Parameters, before: Word, data: seq<Byte>)
    requires p.Valid() && |before| == p.bits && (p.reflectInput || p.bits == Wider(p.width, 8))
    ensures BitLoop(p, before, data) == TableLoop(p, before, data)
  {
    var bitwise, byTable := BitLoop(p, before, data), TableLoop(p, before, data);
    BitLoopIsRemainder(p, before, data);
    TableLoopIsRemainder(p, before, data);
    LoopsAgree(p, before, data, bitwise, byTable);
    if !p.reflectInput && p.width < 8 {
      MaskFits(bitwise, p.width);
      MaskFits(byTable, p.width);
    }
  }

  /** The word with only bit k set. */
  function Unit(n: nat, k: nat): (w: Word)
    ensures |w| == n && forall i {:trigger w[i]} :: 0 <= i < n ==> w[i] == (i == k)
  {
    seq(n, i => i == k)
  }

  lemma {:induction false} UnitMoves(n: nat, polynomial: Word, k: nat, m: nat, j: nat)
    requires k + j < m <= n == |polynomial|
    ensures Steps(Unit(n, k), polynomial, m, j) == Unit(n, k + j)
  {
    if j > 0 {
      UnitMoves(n, polynomial, k, m, j - 1);
      assert Shl(Unit(n, k + j - 1), 1) == Unit(n, k + j);
    }
  }

  /** Eight steps carry the bit over the top, where the polynomial does not reach. */
  lemma UnitLeaves(n: nat, polynomial: Word, k: nat)
    requires k + 8 < n == |polynomial| && !polynomial[k + 8]
    ensures Steps(Unit(n, k), polynomial, k + 8, 8)[k + 8]
  {
    UnitMoves(n, polynomial, k, k + 8, 7);
    assert Shl(Unit(n, k + 7), 1) == Unit(n, k + 8);
  }

  const ONE: Byte := Unit(8, 0)

  lemma OneByteDiffers(p: Parameters)
    requires p.Valid() && !p.reflectInput && p.bits > Wider(p.width, 8)
    ensures BitLoop(p, Zeros(p.bits), [ONE]) != TableLoop(p, Zeros(p.bits), [ONE])
  {
    if p.width >= 8 {
      OneByteWide(p);
    } else {
      OneByteNarrow(p);
    }
  }

  lemma OneByteWide(p: Parameters)
    requires p.Valid() && 8 <= p.width < p.bits
    ensures WideLoop(p, Zeros(p.bits), [ONE])[p.width] && !WideTable(p, Zeros(p.bits), [ONE])[p.width]
  {
    var zero := Zeros(p.bits);
    assert [ONE][..1] == [ONE] && [ONE][..0] == [];
    assert WideLoop(p, zero, []) == zero && WideTable(p, zero, []) == zero;
    hide WideLoop;
    hide WideTable;
    OneByteBits(p, zero);
    OneByteTable(p, zero);
  }

  lemma OneByteBits(p: Parameters, zero: Word)
    requires p.Valid() && 8 <= p.width < p.bits && zero == Zeros(p.bits)
    requires [ONE][..1] == [ONE] && [ONE][..0] == [] && WideLoop(p, zero, []) == zero
    ensures WideLoop(p, zero, [ONE])[p.width]
  {
    hide WideLoop;
    hide Steps;
    WideNext(p, zero, [ONE], 0);
    UnitWide(p, zero);
    UnitLeaves(p.bits, p.polynomial, p.width - 8);
  }

  lemma OneByteTable(p: Parameters, zero: Word)
    requires p.Valid() && 8 <= p.width < p.bits && zero == Zeros(p.bits)
    requires [ONE][..1] == [ONE] && [ONE][..0] == [] && WideTable(p, zero, []) == zero
    ensures !WideTable(p, zero, [ONE])[p.width]
  {
    hide WideTable;
    WideTableNext(p, zero, [ONE], 0);
    UnitWide(p, zero);
    WideEntry(p, WideIndex(p, zero, ONE));
    hide Entry;
    hide WideIndex;
  }

  lemma UnitWide(p: Parameters, zero: Word)
    requires p.Valid() && 8 <= p.width < p.bits && zero == Zeros(p.bits)
    ensures Xor(zero, Shl(ONE + Zeros(p.bits - 8), p.width - 8)) == Unit(p.bits, p.width - 8)
    ensures !p.polynomial[p.width] && !Shl(zero, 8)[p.width]
  {
    assert Xor(zero, Shl(ONE + Zeros(p.bits - 8), p.width - 8)) == Unit(p.bits, p.width - 8);
  }

  lemma WideEntry(p: Parameters, b: Byte)
    requires p.Valid() && 8 <= p.width < p.bits
    ensures !Entry(p, b)[p.width]
  {
  }

  lemma OneByteNarrow(p: Parameters)
    requires p.Valid() && !p.reflectInput && p.width < 8 < p.bits
    ensures NarrowLoop(p, Zeros(p.bits), [ONE])[p.width]
    ensures !Shr(NarrowEntry(p, Zeros(p.bits), [ONE]), 8 - p.width)[p.width]
  {
    var zero, shift := Zeros(p.bits), 8 - p.width;
    NarrowNext(p, zero, [ONE], 0);
    NarrowEntryNext(p, zero, [ONE], 0);
    NarrowFirst(p, zero);
    assert [ONE][..1] == [ONE] && [ONE][..0] == [];
    hide NarrowWord;
    UnitFirst(p, zero, shift);
    UnitLeaves(p.bits, Shl(p.polynomial, shift), 0);
    NarrowEntryTop(p, Unit(p.bits, 0)[..8]);
    hide Entry;
    hide Steps;
  }

  lemma UnitFirst(p: Parameters, zero: Word, shift: nat)
    requires p.Valid() && p.bits > 8 > p.width && zero == Zeros(p.bits) && shift == 8 - p.width
    ensures Xor(Shl(zero, shift), ONE + Zeros(p.bits - 8)) == Unit(p.bits, 0) && !Shl(p.polynomial, shift)[8]
  {
    assert Xor(Shl(zero, shift), ONE + Zeros(p.bits - 8)) == Unit(p.bits, 0);
  }

  lemma NarrowEntryTop(p: Parameters, b: Byte)
    requires p.Valid() && !p.reflectInput && p.width < 8 < p.bits
    ensures !Entry(p, b)[8]
  {
  }

  /* ---------------------------------------------------------------- multi-part CRCs */

  lemma UnpackPack(p: Parameters, r: Word)
    requires p.Valid() && |r| == p.width
    ensures Unpack(p, Pack(p, r)) == r
  {
    var x := p.finalXOR[..p.width];
    assert Pack(p, r)[..p.width] == Xor(Orient(p.reflectOutput, r), x);
    XorCancels(Orient(p.reflectOutput, r), x);
    ReverseTwice(r);
  }

  lemma RegisterConcat(p: Parameters, start: Word, a: seq<Byte>, b: seq<Byte>)
    requires p.Valid() && |start| == p.width
    ensures Register(p, start, a + b) == Register(p, Register(p, start, a), b)
  {
    StreamConcat(p.reflectInput, a, b);
    FeedConcat(p.Generator(), start, Stream(p.reflectInput, a), Stream(p.reflectInput, b));
  }

  /** Continuing the CRC of a with b gives the CRC of a + b. */
  lemma MultiPart(p: Parameters, a: seq<Byte>, b: seq<Byte>)
    requires p.Valid()
    ensures CrcAfter(p, CrcOf(p, a), b) == CrcOf(p, a + b)
  {
    UnpackPack(p, Register(p, InitialRegister(p), a));
    RegisterConcat(p, InitialRegister(p), a, b);
  }

  lemma MultiPartAfter(p: Parameters, crc: Word, a: seq<Byte>, b: seq<Byte>)
    requires p.Valid() && |crc| == p.bits
    ensures CrcAfter(p, CrcAfter(p, crc, a), b) == CrcAfter(p, crc, a + b)
  {
    UnpackPack(p, Register(p, Unpack(p, crc), a));
    RegisterConcat(p, Unpack(p, crc), a, b);
  }

  ghost function CrcOfChunks(p: Parameters, chunks: seq<seq<Byte>>): (crc: Word)
    requires p.Valid()
    ensures |crc| == p.bits
  {
    if chunks == [] then CrcOf(p, [])
    else CrcAfter(p, CrcOfChunks(p, chunks[..|chunks| - 1]), chunks[|chunks| - 1])
  }

  /** However the data is cut into parts, one pass over all of it gives the same CRC. */
  lemma {:induction false} AnySplit(p: Parameters, chunks: seq<seq<Byte>>)
    requires p.Valid()
    ensures CrcOfChunks(p, chunks) == CrcOf(p, Flatten(chunks))
  {
    if chunks != [] {
      var init, last := chunks[..|chunks| - 1], chunks[|chunks| - 1];
      AnySplit(p, init);
      MultiPart(p, Flatten(init), last);
    }
  }

  /* ---------------------------------------------------------------- reflection of the input */

  function Mirrored(data: seq<Byte>): (m: seq<Byte>)
    ensures |m| == |data| && forall i :: 0 <= i < |m| ==> m[i] == Reverse(data[i])
  {
    seq(|data|, i requires 0 <= i < |data| => Reverse(data[i]))
  }

  lemma {:induction false} MirroredStream(data: seq<Byte>)
    ensures Stream(false, Mirrored(data)) == Stream(true, data)
  {
    if data != [] {
      var init, last := data[..|data| - 1], data[|data| - 1];
      MirroredStream(init);
      assert Mirrored(data) == Mirrored(init) + [Reverse(last)];
      StreamOne(false, Mirrored(init), Reverse(last));
      ReverseTwice(last);
    }
  }

  /** The reflected loop is the mirror image of the other one: mirror every byte and the start,
  run the non-reflected loop, and mirror what it leaves in the low W bits. */
  lemma ReflectedLoopIsMirror(p: Parameters, before: Word, data: seq<Byte>, after: Word, mirrored: Word)
    requires p.Valid() && p.reflectInput && |before| == p.bits && Fits(before, p.width)
    requires Remainder(p, before, data, after)
    requires Remainder(p.(reflectInput := false), Reflected(before, p.width), Mirrored(data), mirrored)
    ensures Reflected(mirrored, p.width) == after
  {
    var low := before[..p.width];
    MirroredStream(data);
    ReflectedLoop(p, before, data, after);
    ReflectedLow(before, p.width);
    assert Reflected(before, p.width)[..p.width] == Reverse(low);
    ReflectedLow(mirrored, p.width);
  }

  /* ---------------------------------------------------------------- error detection */

  /** Inputs of equal length that differ only inside a window of at most W bits have different CRCs,
  if the polynomial is odd. */
  lemma BurstDetected(p: Parameters, a: seq<Byte>, b: seq<Byte>, from: nat, k: nat)
    requires p.Valid() && p.polynomial[0]
    requires |a| == |b| && a != b && from + k <= |a| && 8 * k <= p.width
    requires a[..from] == b[..from] && a[from + k..] == b[from + k..]
    ensures CrcOf(p, a) != CrcOf(p, b)
  {
    var head, x, y, tail := a[..from], a[from..from + k], b[from..from + k], a[from + k..];
    var start := InitialRegister(p);
    assert a == head + (x + tail) && b == head + (y + tail);
    RegisterConcat(p, start, head, x + tail);
    RegisterConcat(p, start, head, y + tail);
    UnpackPack(p, Register(p, start, a));
    UnpackPack(p, Register(p, start, b));
    if CrcOf(p, a) == CrcOf(p, b) {
      WindowDetermined(p, Register(p, start, head), x, y, tail);
    }
  }

  lemma WindowDetermined(p: Parameters, start: Word, x: seq<Byte>, y: seq<Byte>, tail: seq<Byte>)
    requires p.Valid() && p.polynomial[0] && |start| == p.width
    requires |x| == |y| && 8 * |x| <= p.width
    requires Register(p, start, x + tail) == Register(p, start, y + tail)
    ensures x == y
  {
    var g, e, e' := p.Generator(), Stream(p.reflectInput, x), Stream(p.reflectInput, y);
    RegisterConcat(p, start, x, tail);
    RegisterConcat(p, start, y, tail);
    FeedInjective(g, Feed(g, start, e), Feed(g, start, e'), Stream(p.reflectInput, tail));
    FeedWindow(g, start, e, e');
    StreamInjective(p.reflectInput, x, y);
  }

  lemma {:induction false} StreamInjective(reflect: bool, a: seq<Byte>, b: seq<Byte>)
    requires |a| == |b| && Stream(reflect, a) == Stream(reflect, b)
    ensures a == b
  {
    if a != [] {
      var n := |a| - 1;
      ConcatInjective(Stream(reflect, a[..n]), FeedOrder(reflect, a[n]),
                      Stream(reflect, b[..n]), FeedOrder(reflect, b[n]));
      StreamInjective(reflect, a[..n], b[..n]);
      FeedOrderInjective(reflect, a[n], b[n]);
      LastEqual(a, b);
    }
  }

  lemma LastEqual<T>(a: seq<T>, b: seq<T>)
    requires |a| == |b| > 0 && a[..|a| - 1] == b[..|b| - 1] && a[|a| - 1] == b[|b| - 1]
    ensures a == b
  {
    assert a == a[..|a| - 1] + [a[|a| - 1]] && b == b[..|b| - 1] + [b[|b| - 1]];
  }

  lemma FeedOrderInjective(reflect: bool, a: Byte, b: Byte)
    requires FeedOrder(reflect, a) == FeedOrder(reflect, b)
    ensures a == b
  {
    ReverseTwice(a);
    ReverseTwice(b);
  }

  /** Every bit string of whole bytes is the stream of some data. */
  lemma {:induction false} StreamReaches(reflect: bool, e: seq<bool>, n: nat) returns (data: seq<Byte>)
    requires |e| == 8 * n
    ensures |data| == n && Stream(reflect, data) == e
    decreases n
  {
    if n == 0 {
      return [];
    }
    var last: Byte := FeedOrder(reflect, e[8 * n - 8..]);
    data := StreamReaches(reflect, e[..8 * n - 8], n - 1);
    StreamOne(reflect, data, last);
    ReverseTwice(e[8 * n - 8..]);
    data := data + [last];
  }

  /** Data can be continued by as many bytes as the CRC has so that it gets any CRC, if the polynomial is odd. */
  lemma EveryCrcReached(p: Parameters, head: seq<Byte>, r: Word, n: nat) returns (tail: seq<Byte>)
    requires p.Valid() && p.polynomial[0] && p.width == 8 * n && |r| == p.width
    ensures |tail| == n && CrcOf(p, head + tail) == Pack(p, r)
  {
    var start := Register(p, InitialRegister(p), head);
    var e := WindowReaches(p.Generator(), start, r);
    tail := StreamReaches(p.reflectInput, e, n);
    RegisterConcat(p, InitialRegister(p), head, tail);
  }

  /** A change that occurs twice, with the second occurrence a distance of bytes after the first, is missed if and only
  if the register it leaves by itself comes back after that many bytes of zeros. */
  lemma DoubledChange(p: Parameters, head: seq<Byte>, x: seq<Byte>, y: seq<Byte>, mid: seq<Byte>)
    requires p.Valid() && |x| == |y|
    ensures var g, change := p.Generator(), ChangeRegister(p, x, y);
            (CrcOf(p, head + x + mid + x) == CrcOf(p, head + y + mid + y))
            == (Feed(g, change, Zeros(8 * |x + mid|)) == change)
  {
    var g, start := p.Generator(), InitialRegister(p);
    var r, change := Register(p, start, head), ChangeRegister(p, x, y);
    var rx, ry := Register(p, start, head + x + mid + x), Register(p, start, head + y + mid + y);
    DoubledRegister(p, start, head, x, y, mid);
    UnpackPack(p, rx);
    UnpackPack(p, ry);
    hide Register;
    hide Pack;
    hide ChangeRegister;
    var after := Feed(g, change, Zeros(8 * |x + mid|));
    if rx == ry {
      XorSelf(rx);
      XorZero(after, change);
    }
    if after == change {
      XorSelf(change);
      XorZero(rx, ry);
    }
  }

  /** What the register is changed by when x is read instead of y. */
  ghost function ChangeRegister(p: Parameters, x: seq<Byte>, y: seq<Byte>): (d: Word)
    requires p.Valid() && |x| == |y|
    ensures |d| == p.width
  {
    Feed(p.Generator(), Zeros(p.width), Xor(Stream(p.reflectInput, x), Stream(p.reflectInput, y)))
  }

  lemma ChangedRegister(p: Parameters, r: Word, s: Word, x: seq<Byte>, y: seq<Byte>)
    requires p.Valid() && |r| == |s| == p.width && |x| == |y|
    ensures Xor(Register(p, r, x), Register(p, s, y))
         == Xor(Feed(p.Generator(), Xor(r, s), Zeros(8 * |x|)), ChangeRegister(p, x, y))
  {
    var g, d := p.Generator(), Xor(r, s);
    var ex, ey := Stream(p.reflectInput, x), Stream(p.reflectInput, y);
    var e, zeros := Xor(ex, ey), Zeros(8 * |x|);
    FeedXor(g, r, s, ex, ey);
    FeedXor(g, d, Zeros(p.width), zeros, e);
    assert Xor(d, Zeros(p.width)) == d && Xor(zeros, e) == e;
  }

  lemma DoubledRegister(p: Parameters, start: Word, head: seq<Byte>, x: seq<Byte>, y: seq<Byte>, mid: seq<Byte>)
    requires p.Valid() && |start| == p.width && |x| == |y|
    ensures var change := ChangeRegister(p, x, y);
            Xor(Register(p, start, head + x + mid + x), Register(p, start, head + y + mid + y))
              == Xor(Feed(p.Generator(), change, Zeros(8 * |x + mid|)), change)
  {
    hide Register;
    hide ChangeRegister;
    hide Feed;
    hide Stream;
    var g, change := p.Generator(), ChangeRegister(p, x, y);
    var r := Register(p, start, head);
    var r1, s1 := Register(p, r, x), Register(p, r, y);
    var r2, s2 := Register(p, r1, mid), Register(p, s1, mid);
    RegisterConcat(p, start, head, x);
    RegisterConcat(p, start, head, y);
    RegisterConcat(p, start, head + x, mid);
    RegisterConcat(p, start, head + y, mid);
    RegisterConcat(p, start, head + x + mid, x);
    RegisterConcat(p, start, head + y + mid, y);
    ChangedRegister(p, r, r, x, y);
    XorSelf(r);
    ZerosStay(g, 8 * |x|);
    assert Xor(Zeros(p.width), change) == change;
    ChangedRegister(p, r1, s1, mid, mid);
    SameChange(p, mid);
    var moved := Feed(g, change, Zeros(8 * |mid|));
    assert Xor(moved, Zeros(p.width)) == moved;
    ChangedRegister(p, r2, s2, x, y);
    assert Zeros(8 * |mid|) + Zeros(8 * |x|) == Zeros(8 * |x + mid|);
    FeedConcat(g, change, Zeros(8 * |mid|), Zeros(8 * |x|));
  }

  /** An empty register stays empty without input. */
  lemma {:induction false} ZerosStay(g: Word, n: nat)
    requires |g| > 0
    ensures Feed(g, Zeros(|g|), Zeros(n)) == Zeros(|g|)
    decreases n
  {
    if n > 0 {
      ZerosStay(g, n - 1);
      assert Zeros(n)[..n - 1] == Zeros(n - 1);
      assert BitStep(g, Zeros(|g|), false) == Zeros(|g|);
    }
  }

  lemma SameChange(p: Parameters, x: seq<Byte>)
    requires p.Valid()
    ensures ChangeRegister(p, x, x) == Zeros(p.width)
  {
    XorSelf(Stream(p.reflectInput, x));
    ZerosStay(p.Generator(), 8 * |x|);
  }

  /* ---------------------------------------------------------------- CRC-32 */

  /** The generator of section 8 of RFC 1952 and section 8.1.1.6.2 of ITU-T V.42, by the powers of x in it below x^32. */
  function Crc32Polynomial(): (w: Word)
    ensures |w| == 32 && w[0]
  {
    seq(32, i => i in {0, 1, 2, 4, 5, 7, 8, 10, 11, 12, 16, 22, 23, 26})
  }

  function Ones(n: nat): (w: Word)
    ensures |w| == n && forall i :: 0 <= i < n ==> w[i]
  {
    seq(n, _ => true)
  }

  const CRC_32: Parameters := Parameters(32, 32, Crc32Polynomial(), Ones(32), Ones(32), true, true)

  lemma Crc32Valid()
    ensures CRC_32.Valid() && CRC_32.polynomial[0]
  {
  }

  /** CRC-32 tells apart any two inputs of equal length that differ only inside four consecutive bytes. */
  lemma Crc32DetectsFourBytes(a: seq<Byte>, b: seq<Byte>, from: nat)
    requires |a| == |b| && a != b && from <= |a|
    requires a[..from] == b[..from]
    requires from + 4 < |a| ==> a[from + 4..] == b[from + 4..]
    ensures CRC_32.Valid() && CrcOf(CRC_32, a) != CrcOf(CRC_32, b)
  {
    Crc32Valid();
    var k := if from + 4 <= |a| then 4 else |a| - from;
    BurstDetected(CRC_32, a, b, from, k);
  }
}
