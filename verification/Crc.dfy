/** The CRC engine: reflection, finalisation and the bit-by-bit remainder. */
module Crc {
  import opened Words
  import opened Lfsr

  /** CRC parameters, with the template arguments: `bits` is the size of CRCType, `width` is CRCWidth. */
  datatype Parameters = Parameters(bits: nat, width: nat, polynomial: Word, initialValue: Word,
                                   finalXOR: Word, reflectInput: bool, reflectOutput: bool)
  {
    ghost predicate Valid() {
      && 8 <= bits && 1 <= width <= bits
      && |polynomial| == |initialValue| == |finalXOR| == bits
      && Fits(polynomial, width) && Fits(initialValue, width) && Fits(finalXOR, width)
    }

    /** The generator's low coefficients. */
    ghost function Generator(): (g: Word)
      requires Valid()
      ensures |g| == width
    {
      polynomial[..width]
    }
  }

  /** The message bits in the order they enter the register. */
  ghost function Stream(reflect: bool, data: seq<Byte>): (e: seq<bool>)
    ensures |e| == 8 * |data|
  {
    if data == [] then []
    else Stream(reflect, data[..|data| - 1]) + FeedOrder(reflect, data[|data| - 1])
  }

  function FeedOrder(reflect: bool, b: Word): (e: seq<bool>)
    ensures |e| == |b|
  {
    if reflect then b else Reverse(b)
  }

  lemma StreamOne(reflect: bool, data: seq<Byte>, b: Byte)
    ensures Stream(reflect, data + [b]) == Stream(reflect, data) + FeedOrder(reflect, b)
  {
    assert (data + [b])[..|data|] == data;
  }

  lemma {:induction false} StreamConcat(reflect: bool, a: seq<Byte>, b: seq<Byte>)
    ensures Stream(reflect, a + b) == Stream(reflect, a) + Stream(reflect, b)
  {
    if b == [] {
      assert a + b == a;
    } else {
      var init, last := b[..|b| - 1], b[|b| - 1];
      assert b == init + [last];
      StreamConcat(reflect, a, init);
      StreamSnoc(reflect, a, init, last);
    }
  }

  lemma StreamSnoc(reflect: bool, a: seq<Byte>, b: seq<Byte>, last: Byte)
    requires Stream(reflect, a + b) == Stream(reflect, a) + Stream(reflect, b)
    ensures Stream(reflect, a + (b + [last])) == Stream(reflect, a) + Stream(reflect, b + [last])
  {
    var e := FeedOrder(reflect, last);
    StreamOne(reflect, b, last);
    StreamOne(reflect, a + b, last);
    ConcatAssociates(a, b, [last]);
    ConcatAssociates(Stream(reflect, a), Stream(reflect, b), e);
  }

  /* ---------------------------------------------------------------- reflection and finalisation */

  ghost function Reflected(v: Word, n: nat): (c: Word)
    ensures |c| == |v|
  {
    seq(|v|, i requires 0 <= i < |v| => i < n && n - 1 - i < |v| && v[n - 1 - i])
  }

  lemma ReflectedLow(v: Word, n: nat)
    requires n <= |v|
    ensures Reflected(v, n) == Reverse(v[..n]) + Zeros(|v| - n)
  {
  }

  lemma ReflectStep(v: Word, i: nat)
    ensures Or(Shl(Reflected(v, i), 1), Mask(Shr(v, i), 1)) == Reflected(v, i + 1)
    ensures Shr(Shr(v, i), 1) == Shr(v, i + 1)
  {
    assert Or(Shl(Reflected(v, i), 1), Mask(Shr(v, i), 1)) == Reflected(v, i + 1);
    assert Shr(Shr(v, i), 1) == Shr(v, i + 1);
  }

  method Reflect(value: Word, numBits: nat) returns (reversedValue: Word)
    ensures reversedValue == Reflected(value, numBits)
  {
    var v := value;
    reversedValue := Zeros(|value|);
    var i := 0;
    while i < numBits
      invariant i <= numBits
      invariant v == Shr(value, i)
      invariant reversedValue == Reflected(value, i)
    {
      ReflectStep(value, i);
      reversedValue := Or(Shl(reversedValue, 1), Mask(v, 1));
      v := Shr(v, 1);
      i := i + 1;
    }
  }

  ghost function Finalized(width: nat, remainder: Word, finalXOR: Word, reflectOutput: bool): (c: Word)
    requires |remainder| == |finalXOR|
    ensures |c| == |remainder|
  {
    Mask(Xor(if reflectOutput then Reflected(remainder, width) else remainder, finalXOR), width)
  }

  ghost function Unfinalized(width: nat, crc: Word, finalXOR: Word, reflectOutput: bool): (c: Word)
    requires |crc| == |finalXOR|
    ensures |c| == |crc|
  {
    var c := Xor(Mask(crc, width), finalXOR);
    if reflectOutput then Reflected(c, width) else c
  }

  method Finalize(width: nat, remainder: Word, finalXOR: Word, reflectOutput: bool) returns (crc: Word)
    requires |remainder| == |finalXOR|
    ensures crc == Finalized(width, remainder, finalXOR, reflectOutput)
  {
    var r := remainder;
    if reflectOutput {
      r := Reflect(r, width);
    }
    crc := Mask(Xor(r, finalXOR), width);
  }

  method UndoFinalize(width: nat, crc: Word, finalXOR: Word, reflectOutput: bool) returns (remainder: Word)
    requires |crc| == |finalXOR|
    ensures remainder == Unfinalized(width, crc, finalXOR, reflectOutput)
  {
    remainder := Xor(Mask(crc, width), finalXOR);
    if reflectOutput {
      remainder := Reflect(remainder, width);
    }
  }

  /** Reflecting twice gives the value back exactly when it fits in the reflected bits. */
  lemma ReflectTwice(v: Word, n: nat)
    requires n <= |v|
    ensures Reflected(Reflected(v, n), n) == v <==> Fits(v, n)
  {
    assert Reflected(Reflected(v, n), n) == Mask(v, n);
    MaskFits(v, n);
  }

  /** Undoing a finalisation gives the remainder back exactly when the remainder is below 2^width. */
  lemma UndoFinalizeFinalize(width: nat, r: Word, x: Word, reflect: bool)
    requires width <= |r| == |x| && Fits(x, width)
    ensures Unfinalized(width, Finalized(width, r, x, reflect), x, reflect) == r <==> Fits(r, width)
  {
    var u := Unfinalized(width, Finalized(width, r, x, reflect), x, reflect);
    assert u == Mask(r, width);
    MaskFits(r, width);
  }

  /** Finalising what was undone gives the CRC back exactly when the CRC is below 2^width. */
  lemma FinalizeUndoFinalize(width: nat, c: Word, x: Word, reflect: bool)
    requires width <= |c| == |x| && Fits(x, width)
    ensures Finalized(width, Unfinalized(width, c, x, reflect), x, reflect) == c <==> Fits(c, width)
  {
    var f := Finalized(width, Unfinalized(width, c, x, reflect), x, reflect);
    assert f == Mask(c, width);
    MaskFits(c, width);
  }

  /* ---------------------------------------------------------------- the register inside a remainder */

  /** The register a running remainder stands for. A reflected remainder is a whole mirrored word;
  otherwise the bits from `width` upwards carry nothing. */
  ghost function View(p: Parameters, remainder: Word): (v: Word)
    requires p.Valid() && |remainder| == p.bits
    ensures |v| == |ViewGenerator(p)|
  {
    if p.reflectInput then Reverse(remainder) else remainder[..p.width]
  }

  ghost function ViewGenerator(p: Parameters): (g: Word)
    requires p.Valid()
    ensures |g| == if p.reflectInput then p.bits else p.width
  {
    if p.reflectInput then Zeros(p.bits - p.width) + p.Generator() else p.Generator()
  }

  /** The remainder after `data`, whichever loop computes it. */
  ghost predicate Remainder(p: Parameters, before: Word, data: seq<Byte>, after: Word)
    requires p.Valid() && |before| == p.bits
  {
    && |after| == p.bits
    && View(p, after) == Feed(ViewGenerator(p), View(p, before), Stream(p.reflectInput, data))
  }

  /** The same, while a narrow register is kept at the top of the low byte. */
  ghost predicate RemainderHigh(p: Parameters, before: Word, data: seq<Byte>, w: Word)
    requires p.Valid() && |before| == p.bits && !p.reflectInput
  {
    && |w| == p.bits
    && HeldHigh(w, Feed(p.Generator(), View(p, before), Stream(false, data)))
  }

  /** A register with its pending input bits already added at its top end, as the byte loops hold it:
  m bits, of which the upper |r| are the register. */
  ghost function Pending(m: nat, r: Word, rest: seq<bool>): (w: Word)
    requires |r| <= m && |rest| <= m
    ensures |w| == m
  {
    Xor(Zeros(m - |r|) + r, Zeros(m - |rest|) + Reverse(rest))
  }

  lemma PendingStep(m: nat, g: Word, r: Word, rest: seq<bool>)
    requires 0 < |g| == |r| <= m && 0 < |rest| <= m
    ensures BitStep(Zeros(m - |g|) + g, Pending(m, r, rest), false)
         == Pending(m, BitStep(g, r, rest[0]), rest[1..])
  {
    var s := m - |g|;
    var w, w' := Pending(m, r, rest), Pending(m, BitStep(g, r, rest[0]), rest[1..]);
    var out := BitStep(Zeros(s) + g, w, false);
    assert w[m - 1] == (r[|r| - 1] != rest[0]);
    forall i | 0 <= i < m ensures out[i] == w'[i] {
      var shifted := [false] + w[..m - 1];
      var a := (Zeros(s) + ([false] + r[..|r| - 1]))[i];
      var b := (Zeros(m - |rest| + 1) + Reverse(rest[1..]))[i];
      assert shifted[i] == (a != b);
    }
    assert out == w';
  }

  lemma MirroredPolynomial(p: Parameters)
    requires p.Valid() && p.reflectInput
    ensures Reverse(Reflected(p.polynomial, p.width)) == ViewGenerator(p)
  {
    assert Reverse(Reflected(p.polynomial, p.width)) == ViewGenerator(p);
  }

  /** Adding a byte at the top of the register makes its bits the pending ones. */
  lemma LoadReflected(g: Word, w: Word, b: Word)
    requires 8 == |b| <= |w| == |g|
    ensures Consumed(|w|, Reverse(Xor(w, b + Zeros(|w| - 8))), g, Reverse(w), b, 0)
  {
    ReverseXor(w, b + Zeros(|w| - 8));
    assert Reverse(b + Zeros(|w| - 8)) == Zeros(|w| - 8) + Reverse(b);
    assert Zeros(0) + Reverse(w) == Reverse(w);
    FirstBit(|w|, Reverse(Xor(w, b + Zeros(|w| - 8))), g, Reverse(w), b);
  }

  lemma LoadWide(g: Word, w: Word, b: Word)
    requires 8 == |b| <= |g| <= |w|
    ensures var w' := Xor(w, Shl(b + Zeros(|w| - 8), |g| - 8));
            Consumed(|g|, w'[..|g|], g, w[..|g|], Reverse(b), 0)
  {
    ReverseTwice(b);
    var placed := Shl(b + Zeros(|w| - 8), |g| - 8);
    assert placed[..|g|] == Zeros(|g| - 8) + b;
    assert Zeros(0) + w[..|g|] == w[..|g|];
    assert Xor(w, placed)[..|g|] == Xor(w[..|g|], placed[..|g|]);
    FirstBit(|g|, Xor(w, placed)[..|g|], g, w[..|g|], Reverse(b));
  }

  /** A register of fewer than eight bits is kept at the top of the low byte. */
  ghost predicate HeldHigh(w: Word, v: Word) {
    |v| <= 8 <= |w| && w[..8] == Zeros(8 - |v|) + v
  }

  lemma LoadNarrow(g: Word, v: Word, w: Word, b: Word)
    requires 0 < |g| == |v| && |b| == 8 && HeldHigh(w, v)
    ensures Consumed(8, Xor(w, b + Zeros(|w| - 8))[..8], g, v, Reverse(b), 0)
  {
    ReverseTwice(b);
    var w' := Xor(w, b + Zeros(|w| - 8));
    assert Zeros(0) + b == b == (b + Zeros(|w| - 8))[..8];
    assert w'[..8] == Xor(w[..8], b);
    FirstBit(8, w'[..8], g, v, Reverse(b));
  }

  lemma ShiftUp(w: Word, width: nat)
    requires width <= 8 <= |w|
    ensures HeldHigh(Shl(w, 8 - width), w[..width])
  {
    assert Shl(w, 8 - width)[..8] == Zeros(8 - width) + w[..width];
  }

  lemma ShiftDown(w: Word, v: Word)
    requires HeldHigh(w, v)
    ensures Shr(w, 8 - |v|)[..|v|] == v
  {
    forall i | 0 <= i < |v| ensures Shr(w, 8 - |v|)[i] == v[i] {
      assert w[i + (8 - |v|)] == w[..8][i + (8 - |v|)];
    }
  }

  /** One inner step, testing bit m - 1. */
  function MsbWord(w: Word, polynomial: Word, m: nat): (r: Word)
    requires 0 < m <= |w| == |polynomial|
    ensures |r| == |w|
  {
    if w[m - 1] then Xor(Shl(w, 1), polynomial) else Shl(w, 1)
  }

  /** The highest-bit-first inner step, on the m bits that matter. */
  lemma MsbStep(w: Word, poly: Word, m: nat)
    requires 0 < m <= |w| == |poly|
    ensures MsbWord(w, poly, m)[..m] == BitStep(poly[..m], w[..m], false)
  {
    assert Shl(w, 1)[..m] == [false] + w[..m - 1];
    assert Xor(Shl(w, 1), poly)[..m] == Xor(Shl(w, 1)[..m], poly[..m]);
  }

  /** The lowest-bit-first inner step is the same step on the mirrored word. */
  lemma LsbStep(w: Word, poly: Word)
    requires 0 < |w| == |poly|
    ensures Reverse(if w[0] then Xor(Shr(w, 1), poly) else Shr(w, 1))
         == BitStep(Reverse(poly), Reverse(w), false)
  {
    assert Reverse(Shr(w, 1)) == [false] + Reverse(w)[..|w| - 1];
    ReverseXor(Shr(w, 1), poly);
  }

  /** `w` holds a register that has consumed the first i bits of e, and still has the others pending. */
  ghost predicate Consumed(m: nat, w: Word, g: Word, v: Word, e: seq<bool>, i: nat) {
    && 0 < |g| == |v| <= m
    && i <= |e| <= m
    && w == Pending(m, Feed(g, v, e[..i]), e[i..])
  }

  lemma FirstBit(m: nat, w: Word, g: Word, v: Word, e: seq<bool>)
    requires 0 < |g| == |v| <= m && |e| <= m && w == Pending(m, v, e)
    ensures Consumed(m, w, g, v, e, 0)
  {
    assert e[..0] == [] && e[0..] == e;
  }

  lemma LastBit(m: nat, w: Word, g: Word, v: Word, e: seq<bool>)
    requires Consumed(m, w, g, v, e, |e|)
    ensures w == Zeros(m - |v|) + Feed(g, v, e)
    ensures m == |v| ==> w == Feed(g, v, e)
  {
    assert e[..|e|] == e && e[|e|..] == [];
    var r := Feed(g, v, e);
    assert Pending(m, r, []) == Zeros(m - |r|) + r;
    assert Zeros(0) + r == r;
  }

  lemma NextBit(m: nat, w: Word, g: Word, v: Word, e: seq<bool>, i: nat)
    requires Consumed(m, w, g, v, e, i) && i < |e|
    ensures Consumed(m, BitStep(Zeros(m - |g|) + g, w, false), g, v, e, i + 1)
  {
    PendingStep(m, g, Feed(g, v, e[..i]), e[i..]);
    assert e[..i + 1] == e[..i] + [e[i]];
    assert e[i..][1..] == e[i + 1..];
    FeedOne(g, v, e[..i], e[i]);
  }

  lemma NextBitLsb(w: Word, poly: Word, g: Word, v: Word, e: seq<bool>, i: nat)
    requires Consumed(|w|, Reverse(w), g, v, e, i) && i < |e|
    requires |poly| == |w| && Reverse(poly) == g
    ensures Consumed(|w|, Reverse(if w[0] then Xor(Shr(w, 1), poly) else Shr(w, 1)), g, v, e, i + 1)
  {
    LsbStep(w, poly);
    assert Zeros(0) + g == g;
    NextBit(|w|, Reverse(w), g, v, e, i);
  }

  lemma NextBitMsb(m: nat, w: Word, poly: Word, g: Word, v: Word, e: seq<bool>, i: nat)
    requires 0 < m <= |w| == |poly| && Consumed(m, w[..m], g, v, e, i) && i < |e|
    requires poly[..m] == Zeros(m - |g|) + g
    ensures Consumed(m, MsbWord(w, poly, m)[..m], g, v, e, i + 1)
  {
    MsbStep(w, poly, m);
    NextBit(m, w[..m], g, v, e, i);
  }

  /* ---------------------------------------------------------------- bit by bit */

  method RemainderReflected(data: seq<Byte>, p: Parameters, remainder: Word) returns (r: Word)
    requires p.Valid() && |remainder| == p.bits && p.reflectInput
    ensures Remainder(p, remainder, data, r)
  {
    var polynomial := Reflect(p.polynomial, p.width);
    MirroredPolynomial(p);
    r := remainder;
    ghost var g := ViewGenerator(p);
    var current := 0;
    while current < |data|
      invariant current <= |data|
      invariant Remainder(p, remainder, data[..current], r)
    {
      ghost var v, e := View(p, r), data[current];
      ghost var r0 := r;
      LoadReflected(g, r, data[current]);
      r := Xor(r, data[current] + Zeros(p.bits - 8));
      var i := 0;
      while i < 8
        invariant i <= 8 && |r| == p.bits
        invariant Consumed(p.bits, Reverse(r), g, v, e, i)
      {
        NextBitLsb(r, polynomial, g, v, e, i);
        r := if r[0] then Xor(Shr(r, 1), polynomial) else Shr(r, 1);
        i := i + 1;
      }
      LastBit(p.bits, Reverse(r), g, v, e);
      NextRemainder(p, remainder, data, current, r0, r);
      current := current + 1;
    }
    assert data[..current] == data;
  }

  /* ---------------------------------------------------------------- highest bit first */

  function Steps(w: Word, polynomial: Word, m: nat, n: nat): (r: Word)
    requires 0 < m <= |w| == |polynomial|
    ensures |r| == |w|
  {
    if n == 0 then w else MsbWord(Steps(w, polynomial, m, n - 1), polynomial, m)
  }

  /** n steps consume n of the bits added at the top of the register. */
  lemma {:induction false} StepsConsume(w: Word, polynomial: Word, m: nat, g: Word, v: Word, e: seq<bool>, n: nat)
    requires 0 < m <= |w| == |polynomial| && Consumed(m, w[..m], g, v, e, 0) && n <= |e|
    requires |g| <= m && polynomial[..m] == Zeros(m - |g|) + g
    ensures Consumed(m, Steps(w, polynomial, m, n)[..m], g, v, e, n)
  {
    hide Consumed;
    hide MsbWord;
    if n > 0 {
      StepsConsume(w, polynomial, m, g, v, e, n - 1);
      NextBitMsb(m, Steps(w, polynomial, m, n - 1), polynomial, g, v, e, n - 1);
    }
  }

  lemma EightFeed(w: Word, polynomial: Word, m: nat, g: Word, v: Word, e: seq<bool>)
    requires |e| == 8 && 0 < m <= |w| == |polynomial| && Consumed(m, w[..m], g, v, e, 0)
    requires polynomial[..m] == Zeros(m - |g|) + g
    ensures Steps(w, polynomial, m, 8)[..m] == Zeros(m - |v|) + Feed(g, v, e)
    ensures m == |v| ==> Steps(w, polynomial, m, 8)[..m] == Feed(g, v, e)
  {
    StepsConsume(w, polynomial, m, g, v, e, 8);
    LastBit(m, Steps(w, polynomial, m, 8)[..m], g, v, e);
  }

  /** The inner loop of both highest-bit-first branches. */
  method EightSteps(remainder: Word, polynomial: Word, m: nat) returns (r: Word)
    requires 0 < m <= |remainder| == |polynomial|
    ensures r == Steps(remainder, polynomial, m, 8)
  {
    r := remainder;
    var i := 0;
    while i < 8
      invariant i <= 8 && r == Steps(remainder, polynomial, m, i)
    {
      r := if r[m - 1] then Xor(Shl(r, 1), polynomial) else Shl(r, 1);
      i := i + 1;
    }
  }

  /** The word the loop for width 8 and more leaves, with what it shifts out above the width. */
  function WideLoop(p: Parameters, before: Word, data: seq<Byte>): (r: Word)
    requires 8 <= p.width <= p.bits && |before| == |p.polynomial| == p.bits
    ensures |r| == p.bits
  {
    if data == [] then before
    else
      var r, b := WideLoop(p, before, data[..|data| - 1]), data[|data| - 1];
      Steps(Xor(r, Shl(b + Zeros(p.bits - 8), p.width - 8)), p.polynomial, p.width, 8)
  }

  lemma WideNext(p: Parameters, before: Word, data: seq<Byte>, current: nat)
    requires 8 <= p.width <= p.bits && |before| == |p.polynomial| == p.bits && current < |data|
    ensures var r := WideLoop(p, before, data[..current]);
            WideLoop(p, before, data[..current + 1])
              == Steps(Xor(r, Shl(data[current] + Zeros(p.bits - 8), p.width - 8)), p.polynomial, p.width, 8)
  {
    hide Steps;
    var d := data[..current + 1];
    assert d[..|d| - 1] == data[..current] && d[|d| - 1] == data[current];
  }

  lemma {:induction false} WideLoopIsRemainder(p: Parameters, before: Word, data: seq<Byte>)
    requires p.Valid() && |before| == p.bits && !p.reflectInput && p.width >= 8
    ensures Remainder(p, before, data, WideLoop(p, before, data))
  {
    if data != [] {
      var n := |data| - 1;
      var r, g := WideLoop(p, before, data[..n]), ViewGenerator(p);
      WideLoopIsRemainder(p, before, data[..n]);
      LoadWide(g, r, data[n]);
      assert p.polynomial[..p.width] == Zeros(0) + g;
      EightFeed(Xor(r, Shl(data[n] + Zeros(p.bits - 8), p.width - 8)), p.polynomial, p.width, g, View(p, r), Reverse(data[n]));
      NextRemainder(p, before, data, n, r, WideLoop(p, before, data));
      assert data[..n + 1] == data;
    }
  }

  method RemainderWide(data: seq<Byte>, p: Parameters, remainder: Word) returns (r: Word)
    requires p.Valid() && |remainder| == p.bits && !p.reflectInput && p.width >= 8
    ensures Remainder(p, remainder, data, r) && r == WideLoop(p, remainder, data)
  {
    hide Remainder;
    hide Steps;
    r := remainder;
    var current := 0;
    while current < |data|
      invariant current <= |data| && r == WideLoop(p, remainder, data[..current])
    {
      WideNext(p, remainder, data, current);
      r := Xor(r, Shl(data[current] + Zeros(p.bits - 8), p.width - 8));
      r := EightSteps(r, p.polynomial, p.width);
      current := current + 1;
    }
    assert data[..current] == data;
    WideLoopIsRemainder(p, remainder, data);
  }

  /** The word inside the narrow loop, where the register stands at the top of the low byte. */
  function NarrowWord(p: Parameters, before: Word, data: seq<Byte>): (r: Word)
    requires p.width < 8 <= p.bits && |before| == |p.polynomial| == p.bits
    ensures |r| == p.bits
  {
    if data == [] then Shl(before, 8 - p.width)
    else
      var r, b := NarrowWord(p, before, data[..|data| - 1]), data[|data| - 1];
      Steps(Xor(r, b + Zeros(p.bits - 8)), Shl(p.polynomial, 8 - p.width), 8, 8)
  }

  /** The word the loop for widths below 8 leaves. */
  function NarrowLoop(p: Parameters, before: Word, data: seq<Byte>): (r: Word)
    requires p.width < 8 <= p.bits && |before| == |p.polynomial| == p.bits
    ensures |r| == p.bits
  {
    Shr(NarrowWord(p, before, data), 8 - p.width)
  }

  lemma NarrowFirst(p: Parameters, before: Word)
    requires p.width < 8 <= p.bits && |before| == |p.polynomial| == p.bits
    ensures NarrowWord(p, before, []) == Shl(before, 8 - p.width)
  {
  }

  lemma NarrowNext(p: Parameters, before: Word, data: seq<Byte>, current: nat)
    requires p.width < 8 <= p.bits && |before| == |p.polynomial| == p.bits && current < |data|
    ensures var r := NarrowWord(p, before, data[..current]);
            NarrowWord(p, before, data[..current + 1])
              == Steps(Xor(r, data[current] + Zeros(p.bits - 8)), Shl(p.polynomial, 8 - p.width), 8, 8)
  {
    hide Steps;
    var d := data[..current + 1];
    assert d[..|d| - 1] == data[..current] && d[|d| - 1] == data[current];
  }

  /** One round of the narrow loop. */
  lemma NarrowByte(w: Word, byte: Byte, polynomial: Word, g: Word, v: Word)
    requires 0 < |g| == |v| < 8 && |polynomial| == |w| && HeldHigh(w, v) && HeldHigh(polynomial, g)
    ensures HeldHigh(Steps(Xor(w, byte + Zeros(|w| - 8)), polynomial, 8, 8), Feed(g, v, Reverse(byte)))
  {
    LoadNarrow(g, v, w, byte);
    EightFeed(Xor(w, byte + Zeros(|w| - 8)), polynomial, 8, g, v, Reverse(byte));
  }

  lemma {:induction false} NarrowWordIsRemainder(p: Parameters, before: Word, data: seq<Byte>)
    requires p.Valid() && |before| == p.bits && !p.reflectInput && p.width < 8
    ensures RemainderHigh(p, before, data, NarrowWord(p, before, data))
  {
    hide Feed;
    hide Stream;
    hide Steps;
    var g := p.Generator();
    if data == [] {
      ShiftUp(before, p.width);
      NothingFed(g, View(p, before), false);
    } else {
      var n := |data| - 1;
      var v := Feed(g, View(p, before), Stream(false, data[..n]));
      NarrowWordIsRemainder(p, before, data[..n]);
      ShiftUp(p.polynomial, p.width);
      NarrowByte(NarrowWord(p, before, data[..n]), data[n], Shl(p.polynomial, 8 - p.width), g, v);
      NextHigh(p, before, data, n, v, NarrowWord(p, before, data));
      assert data[..n + 1] == data;
    }
  }

  lemma NarrowLoopIsRemainder(p: Parameters, before: Word, data: seq<Byte>)
    requires p.Valid() && |before| == p.bits && !p.reflectInput && p.width < 8
    ensures Remainder(p, before, data, NarrowLoop(p, before, data))
  {
    hide Feed;
    hide Stream;
    NarrowWordIsRemainder(p, before, data);
    ShiftDown(NarrowWord(p, before, data), Feed(p.Generator(), View(p, before), Stream(false, data)));
  }

  method RemainderNarrow(data: seq<Byte>, p: Parameters, remainder: Word) returns (r: Word)
    requires p.Valid() && |remainder| == p.bits && !p.reflectInput && p.width < 8
    ensures Remainder(p, remainder, data, r) && r == NarrowLoop(p, remainder, data)
  {
    hide Remainder;
    hide Steps;
    hide NarrowWord;
    NarrowFirst(p, remainder);
    var shift := 8 - p.width;
    var polynomial := Shl(p.polynomial, shift);
    r := Shl(remainder, shift);
    var current := 0;
    assert data[..0] == [];
    while current < |data|
      invariant current <= |data| && r == NarrowWord(p, remainder, data[..current])
    {
      NarrowNext(p, remainder, data, current);
      r := Xor(r, data[current] + Zeros(p.bits - 8));
      r := EightSteps(r, polynomial, 8);
      current := current + 1;
    }
    assert data[..current] == data;
    r := Shr(r, shift);
    NarrowLoopIsRemainder(p, remainder, data);
  }

  /** The word the bit-by-bit loop leaves. A reflected one is all register. */
  ghost function BitLoop(p: Parameters, before: Word, data: seq<Byte>): (r: Word)
    requires p.Valid() && |before| == p.bits
    ensures |r| == p.bits
  {
    if p.reflectInput then Reverse(Feed(ViewGenerator(p), View(p, before), Stream(true, data)))
    else if p.width >= 8 then WideLoop(p, before, data)
    else NarrowLoop(p, before, data)
  }

  lemma BitLoopIsRemainder(p: Parameters, before: Word, data: seq<Byte>)
    requires p.Valid() && |before| == p.bits
    ensures Remainder(p, before, data, BitLoop(p, before, data))
  {
    if p.reflectInput {
      ReverseTwice(Feed(ViewGenerator(p), View(p, before), Stream(true, data)));
    } else if p.width >= 8 {
      WideLoopIsRemainder(p, before, data);
    } else {
      NarrowLoopIsRemainder(p, before, data);
    }
  }

  method CalculateRemainder(data: seq<Byte>, p: Parameters, remainder: Word) returns (r: Word)
    requires p.Valid() && |remainder| == p.bits
    ensures Remainder(p, remainder, data, r) && r == BitLoop(p, remainder, data)
  {
    if p.reflectInput {
      r := RemainderReflected(data, p, remainder);
      ReverseTwice(r);
    } else if p.width >= 8 {
      r := RemainderWide(data, p, remainder);
    } else {
      r := RemainderNarrow(data, p, remainder);
    }
  }

  lemma NextRemainder(p: Parameters, before: Word, data: seq<Byte>, current: nat, r: Word, r': Word)
    requires p.Valid() && |before| == p.bits && current < |data|
    requires Remainder(p, before, data[..current], r)
    requires |r'| == p.bits
    requires View(p, r') == Feed(ViewGenerator(p), View(p, r), FeedOrder(p.reflectInput, data[current]))
    ensures Remainder(p, before, data[..current + 1], r')
  {
    FeedByte(ViewGenerator(p), View(p, before), p.reflectInput, data, current);
  }

  lemma NothingFed(g: Word, v: Word, reflect: bool)
    requires |g| == |v| > 0
    ensures Feed(g, v, Stream(reflect, [])) == v
  {
  }

  lemma NextHigh(p: Parameters, before: Word, data: seq<Byte>, current: nat, v: Word, r': Word)
    requires p.Valid() && |before| == p.bits && !p.reflectInput && current < |data|
    requires v == Feed(p.Generator(), View(p, before), Stream(false, data[..current]))
    requires |r'| == p.bits && HeldHigh(r', Feed(p.Generator(), v, Reverse(data[current])))
    ensures RemainderHigh(p, before, data[..current + 1], r')
  {
    FeedByte(p.Generator(), View(p, before), false, data, current);
  }

  lemma FeedByte(g: Word, v: Word, reflect: bool, data: seq<Byte>, current: nat)
    requires |g| == |v| > 0 && current < |data|
    ensures Feed(g, v, Stream(reflect, data[..current + 1]))
         == Feed(g, Feed(g, v, Stream(reflect, data[..current])), FeedOrder(reflect, data[current]))
  {
    assert data[..current + 1] == data[..current] + [data[current]];
    StreamOne(reflect, data[..current], data[current]);
    assert Stream(reflect, data[..current + 1]) == Stream(reflect, data[..current]) + FeedOrder(reflect, data[current]);
    FeedConcat(g, v, Stream(reflect, data[..current]), FeedOrder(reflect, data[current]));
  }
}
