/** The 256-entry lookup table, the byte-at-a-time remainder and the four `Calculate` operations. */
module CrcTable {
  import opened Words
  import opened Lfsr
  import opened Crc

  /* ---------------------------------------------------------------- registers of `width` bits */

  ghost function Register(p: Parameters, start: Word, data: seq<Byte>): (r: Word)
    requires p.Valid() && |start| == p.width
    ensures |r| == p.width
  {
    Feed(p.Generator(), start, Stream(p.reflectInput, data))
  }

  /** `remainder` is the word that represents the register `r`. */
  ghost predicate Holds(p: Parameters, remainder: Word, r: Word)
    requires p.Valid()
  {
    && |remainder| == p.bits && |r| == p.width
    && View(p, remainder) == if p.reflectInput then Zeros(p.bits - p.width) + r else r
  }

  lemma RemainderHolds(p: Parameters, before: Word, data: seq<Byte>, after: Word, r: Word)
    requires p.Valid() && Holds(p, before, r) && Remainder(p, before, data, after)
    ensures Holds(p, after, Register(p, r, data))
  {
    if p.reflectInput {
      FeedPadded(p.bits - p.width, p.Generator(), r, Stream(true, data));
    }
  }

  lemma HoldsReflected(p: Parameters, remainder: Word, r: Word)
    requires p.Valid() && p.reflectInput && |remainder| == p.bits && |r| == p.width
    ensures Holds(p, remainder, r) <==> remainder == Reverse(r) + Zeros(p.bits - p.width)
  {
    ReversePadded(remainder, r, p.bits - p.width);
  }

  /* ---------------------------------------------------------------- the table */

  /** A register as it lies in a table entry. */
  ghost function EntryWord(p: Parameters, f: Word): (w: Word)
    requires p.Valid() && |f| == p.width
    ensures |w| == p.bits
  {
    if p.reflectInput then Reverse(f) + Zeros(p.bits - p.width)
    else if p.width >= 8 then f + Zeros(p.bits - p.width)
    else Zeros(8 - p.width) + f + Zeros(p.bits - 8)
  }

  /** The entry for a byte: the register it leaves when fed into an empty one. */
  ghost function Entry(p: Parameters, b: Byte): (w: Word)
    requires p.Valid()
    ensures |w| == p.bits
  {
    EntryWord(p, Register(p, Zeros(p.width), [b]))
  }

  lemma EmptyHolds(p: Parameters)
    requires p.Valid()
    ensures Holds(p, Zeros(p.bits), Zeros(p.width))
  {
    assert Reverse(Zeros(p.bits)) == Zeros(p.bits - p.width) + Zeros(p.width);
    assert Zeros(p.bits)[..p.width] == Zeros(p.width);
  }

  /** What `MakeEntry` computes for a byte: the masked remainder, moved up for a narrow CRC. */
  lemma EntryFromRemainder(p: Parameters, b: Byte, r: Word)
    requires p.Valid() && Remainder(p, Zeros(p.bits), [b], r)
    ensures (if !p.reflectInput && p.width < 8 then Shl(Mask(r, p.width), 8 - p.width) else Mask(r, p.width))
         == Entry(p, b)
  {
    var f := Register(p, Zeros(p.width), [b]);
    EmptyHolds(p);
    RemainderHolds(p, Zeros(p.bits), [b], r, Zeros(p.width));
    MaskedEntry(p, f, r);
  }

  lemma MaskedEntry(p: Parameters, f: Word, r: Word)
    requires p.Valid() && Holds(p, r, f)
    ensures (if !p.reflectInput && p.width < 8 then Shl(Mask(r, p.width), 8 - p.width) else Mask(r, p.width))
         == EntryWord(p, f)
  {
    if p.reflectInput {
      HoldsReflected(p, r, f);
      MaskFits(r, p.width);
    } else {
      MaskLow(r, p.width);
      ShlPadded(f, p.bits, if p.width < 8 then 8 - p.width else 0);
    }
  }

  class Table {
    const parameters: Parameters
    const table: array<Word>

    /** Entries for the bytes below n are in place. */
    ghost predicate FilledTo(n: nat)
      requires parameters.Valid() && table.Length == 256
      reads table
    {
      forall b: Byte :: FromBits(b) < n ==> FromBits(b) < 256 && table[FromBits(b)] == Entry(parameters, b)
    }

    ghost predicate Valid()
      reads table
    {
      parameters.Valid() && table.Length == 256 && FilledTo(256)
    }

    constructor (p: Parameters)
      requires p.Valid()
      ensures Valid() && fresh(table) && parameters == p
    {
      parameters := p;
      table := new Word[256](_ => []);
      new;
      InitTable();
    }

    method MakeEntry(byte: Byte) returns (crc: Word)
      requires parameters.Valid()
      ensures crc == Entry(parameters, byte)
    {
      crc := CalculateRemainder([byte], parameters, Zeros(parameters.bits));
      EntryFromRemainder(parameters, byte, crc);
      crc := Mask(crc, parameters.width);
      if !parameters.reflectInput && parameters.width < 8 {
        crc := Shl(crc, 8 - parameters.width);
      }
    }

    method SetEntry(byte: Byte)
      requires parameters.Valid() && table.Length == 256
      requires FromBits(byte) < 256 && FilledTo(FromBits(byte))
      modifies table
      ensures FilledTo(FromBits(byte) + 1)
    {
      var crc := MakeEntry(byte);
      table[FromBits(byte)] := crc;
      forall b: Byte | FromBits(b) <= FromBits(byte) ensures table[FromBits(b)] == Entry(parameters, b) {
        if FromBits(b) == FromBits(byte) {
          FromBitsInjective(b, byte);
        }
      }
    }

    method InitTable()
      requires parameters.Valid() && table.Length == 256
      modifies table
      ensures Valid()
    {
      var byte: Byte := Zeros(8);
      var more := true;
      ghost var filled := 0;
      FromBitsZeros(8);
      while more
        invariant filled <= 256 && more == (filled < 256)
        invariant FromBits(byte) == if more then filled else 0
        invariant FilledTo(filled)
        decreases 256 - filled
      {
        SetEntry(byte);
        NextCount(byte);
        byte := Increment(byte);
        more := FromBits(byte) != 0;
        filled := filled + 1;
      }
    }

    /** `operator[]`, indexed by an unsigned char. */
    method At(index: Byte) returns (entry: Word)
      requires Valid()
      ensures entry == Entry(parameters, index)
    {
      ByteBound(index);
      entry := table[FromBits(index)];
    }
  }

  /* ---------------------------------------------------------------- byte at a time */

  lemma StreamByte(reflect: bool, b: Byte)
    ensures Stream(reflect, [b]) == FeedOrder(reflect, b)
  {
    StreamOne(reflect, [], b);
    assert [] + [b] == [b];
  }

  /** The looked-up byte holds the bits that leave the register, combined with the incoming ones. */
  lemma IndexReflected(w: Word, e: Word)
    requires |e| == 8 <= |w|
    ensures Xor(w, e + Zeros(|w| - 8))[..8] == Xor(e, Top(Reverse(w), 8))
  {
  }

  lemma IndexWide(w: Word, width: nat, e: Word)
    requires |e| == 8 <= width <= |w|
    ensures Reverse(Xor(Shr(w, width - 8), e + Zeros(|w| - 8))[..8]) == Xor(Reverse(e), Top(w[..width], 8))
  {
    var x := Xor(Shr(w, width - 8), e + Zeros(|w| - 8))[..8];
    forall i | 0 <= i < 8 ensures Reverse(x)[i] == Xor(Reverse(e), Top(w[..width], 8))[i] {
      assert x[7 - i] == (w[width - 1 - i] != e[7 - i]);
    }
  }

  lemma IndexNarrow(w: Word, v: Word, e: Word)
    requires |v| < 8 == |e| && HeldHigh(w, v)
    ensures Reverse(Xor(w, e + Zeros(|w| - 8))[..8]) == Xor(Reverse(e), Top(v, 8))
  {
    var x := Xor(w, e + Zeros(|w| - 8))[..8];
    forall i | 0 <= i < 8 ensures Reverse(x)[i] == Xor(Reverse(e), Top(v, 8))[i] {
      assert x[7 - i] == (w[..8][7 - i] != e[7 - i]);
    }
  }

  lemma EntryView(p: Parameters, b: Byte)
    requires p.Valid() && p.reflectInput
    ensures Reverse(Entry(p, b)) == Feed(ViewGenerator(p), Zeros(p.bits), b)
  {
    EmptyFeed(p, b);
    StreamByte(true, b);
    EntryWordView(p, Register(p, Zeros(p.width), [b]));
  }

  lemma EntryWordView(p: Parameters, f: Word)
    requires p.Valid() && p.reflectInput && |f| == p.width
    ensures Reverse(EntryWord(p, f)) == Zeros(p.bits - p.width) + f
  {
    ReversePadded(EntryWord(p, f), f, p.bits - p.width);
  }

  lemma EmptyFeed(p: Parameters, e: seq<bool>)
    requires p.Valid() && p.reflectInput
    ensures Feed(ViewGenerator(p), Zeros(p.bits), e)
         == Zeros(p.bits - p.width) + Feed(p.Generator(), Zeros(p.width), e)
  {
    ZerosSplit(p.bits - p.width, p.width);
    FeedPadded(p.bits - p.width, p.Generator(), Zeros(p.width), e);
  }

  lemma ZerosSplit(m: nat, n: nat)
    ensures Zeros(m + n) == Zeros(m) + Zeros(n)
  {
  }

  lemma LookupReflected(p: Parameters, w: Word, b: Byte, index: Byte)
    requires p.Valid() && p.reflectInput && |w| == p.bits
    requires index == Xor(w, b + Zeros(p.bits - 8))[..8]
    ensures Reverse(Xor(Shr(w, 8), Entry(p, index))) == Feed(ViewGenerator(p), Reverse(w), b)
  {
    EntryView(p, index);
    FeedSplit(ViewGenerator(p), Reverse(w), b);
    IndexReflected(w, b);
    ReverseXor(Shr(w, 8), Entry(p, index));
    ReverseShr(w, 8);
  }

  lemma LookupWide(p: Parameters, w: Word, b: Byte, index: Byte)
    requires p.Valid() && !p.reflectInput && p.width >= 8 && |w| == p.bits
    requires index == Xor(Shr(w, p.width - 8), b + Zeros(p.bits - 8))[..8]
    ensures Xor(Shl(w, 8), Entry(p, index))[..p.width]
         == Feed(p.Generator(), w[..p.width], Reverse(b))
  {
    FeedSplit(p.Generator(), w[..p.width], Reverse(b));
    IndexWide(w, p.width, b);
    StreamByte(false, index);
    ShlLow(w, 8, p.width);
    XorLow(Shl(w, 8), Entry(p, index), p.width);
  }

  lemma LookupNarrow(p: Parameters, v: Word, w: Word, b: Byte, index: Byte)
    requires p.Valid() && !p.reflectInput && p.width < 8 && |w| == p.bits
    requires |v| == p.width && HeldHigh(w, v)
    requires index == Xor(w, b + Zeros(p.bits - 8))[..8]
    ensures HeldHigh(Entry(p, index), Feed(p.Generator(), v, Reverse(b)))
  {
    FeedSplit(p.Generator(), v, Reverse(b));
    IndexNarrow(w, v, b);
    StreamByte(false, index);
    var f := Register(p, Zeros(p.width), [index]);
    XorEmptied(v, f);
    assert Entry(p, index)[..8] == Zeros(8 - p.width) + f;
  }

  lemma XorEmptied(v: Word, f: Word)
    requires |v| == |f| < 8
    ensures Xor(Shl(v, 8), f) == f
  {
  }

  method LookupRemainderReflected(data: seq<Byte>, lookupTable: Table, remainder: Word) returns (r: Word)
    requires lookupTable.Valid() && |remainder| == lookupTable.parameters.bits
    requires lookupTable.parameters.reflectInput
    ensures Remainder(lookupTable.parameters, remainder, data, r)
  {
    var p := lookupTable.parameters;
    r := remainder;
    var current := 0;
    while current < |data|
      invariant current <= |data|
      invariant Remainder(p, remainder, data[..current], r)
    {
      ghost var r0 := r;
      var index: Byte := Xor(r, data[current] + Zeros(p.bits - 8))[..8];
      var entry := lookupTable.At(index);
      LookupReflected(p, r, data[current], index);
      r := Xor(Shr(r, 8), entry);
      NextRemainder(p, remainder, data, current, r0, r);
      current := current + 1;
    }
    assert data[..current] == data;
  }

  /** The top byte of the register, combined with the incoming one. */
  function WideIndex(p: Parameters, r: Word, b: Byte): (index: Byte)
    requires 8 <= p.width <= p.bits == |r|
  {
    Xor(Shr(r, p.width - 8), b + Zeros(p.bits - 8))[..8]
  }

  /** The word the table loop for width 8 and more leaves, with what it shifts out above the width. */
  ghost function WideTable(p: Parameters, before: Word, data: seq<Byte>): (r: Word)
    requires p.Valid() && p.width >= 8 && |before| == p.bits
    ensures |r| == p.bits
  {
    if data == [] then before
    else
      var r, b := WideTable(p, before, data[..|data| - 1]), data[|data| - 1];
      Xor(Shl(r, 8), Entry(p, WideIndex(p, r, b)))
  }

  lemma WideTableNext(p: Parameters, before: Word, data: seq<Byte>, current: nat)
    requires p.Valid() && p.width >= 8 && |before| == p.bits && current < |data|
    ensures var r := WideTable(p, before, data[..current]);
            WideTable(p, before, data[..current + 1]) == Xor(Shl(r, 8), Entry(p, WideIndex(p, r, data[current])))
  {
    hide Entry;
    var d := data[..current + 1];
    assert d[..|d| - 1] == data[..current] && d[|d| - 1] == data[current];
  }

  lemma {:induction false} WideTableIsRemainder(p: Parameters, before: Word, data: seq<Byte>)
    requires p.Valid() && !p.reflectInput && p.width >= 8 && |before| == p.bits
    ensures Remainder(p, before, data, WideTable(p, before, data))
  {
    if data != [] {
      var n := |data| - 1;
      var r := WideTable(p, before, data[..n]);
      WideTableIsRemainder(p, before, data[..n]);
      LookupWide(p, r, data[n], WideIndex(p, r, data[n]));
      NextRemainder(p, before, data, n, r, WideTable(p, before, data));
      assert data[..n + 1] == data;
    }
  }

  method LookupRemainderWide(data: seq<Byte>, lookupTable: Table, remainder: Word) returns (r: Word)
    requires lookupTable.Valid() && |remainder| == lookupTable.parameters.bits
    requires !lookupTable.parameters.reflectInput && lookupTable.parameters.width >= 8
    ensures Remainder(lookupTable.parameters, remainder, data, r)
    ensures r == WideTable(lookupTable.parameters, remainder, data)
  {
    hide Remainder;
    hide Entry;
    var p := lookupTable.parameters;
    r := remainder;
    var current := 0;
    assert data[..0] == [] && WideTable(p, remainder, []) == remainder;
    hide WideTable;
    while current < |data|
      invariant current <= |data| && r == WideTable(p, remainder, data[..current])
    {
      WideTableNext(p, remainder, data, current);
      var index := WideIndex(p, r, data[current]);
      var entry := lookupTable.At(index);
      r := Xor(Shl(r, 8), entry);
      current := current + 1;
    }
    assert data[..current] == data;
    WideTableIsRemainder(p, remainder, data);
  }

  /** The word inside the narrow table loop. */
  ghost function NarrowEntry(p: Parameters, before: Word, data: seq<Byte>): (r: Word)
    requires p.Valid() && p.width < 8 && |before| == p.bits
    ensures |r| == p.bits
  {
    if data == [] then Shl(before, 8 - p.width)
    else
      var r, b := NarrowEntry(p, before, data[..|data| - 1]), data[|data| - 1];
      Entry(p, Xor(r, b + Zeros(p.bits - 8))[..8])
  }

  lemma NarrowEntryNext(p: Parameters, before: Word, data: seq<Byte>, current: nat)
    requires p.Valid() && p.width < 8 && |before| == p.bits && current < |data|
    ensures var r := NarrowEntry(p, before, data[..current]);
            NarrowEntry(p, before, data[..current + 1]) == Entry(p, Xor(r, data[current] + Zeros(p.bits - 8))[..8])
  {
    hide Entry;
    var d := data[..current + 1];
    assert d[..|d| - 1] == data[..current] && d[|d| - 1] == data[current];
  }

  lemma {:induction false} NarrowEntryIsRemainder(p: Parameters, before: Word, data: seq<Byte>)
    requires p.Valid() && !p.reflectInput && p.width < 8 && |before| == p.bits
    ensures RemainderHigh(p, before, data, NarrowEntry(p, before, data))
  {
    hide Feed;
    hide Stream;
    hide Entry;
    var g := p.Generator();
    if data == [] {
      ShiftUp(before, p.width);
      NothingFed(g, View(p, before), false);
    } else {
      var n := |data| - 1;
      var v, r := Feed(g, View(p, before), Stream(false, data[..n])), NarrowEntry(p, before, data[..n]);
      NarrowEntryIsRemainder(p, before, data[..n]);
      LookupNarrow(p, v, r, data[n], Xor(r, data[n] + Zeros(p.bits - 8))[..8]);
      NextHigh(p, before, data, n, v, NarrowEntry(p, before, data));
      assert data[..n + 1] == data;
    }
  }

  lemma NarrowTableIsRemainder(p: Parameters, before: Word, data: seq<Byte>)
    requires p.Valid() && |before| == p.bits && !p.reflectInput && p.width < 8
    ensures Remainder(p, before, data, Shr(NarrowEntry(p, before, data), 8 - p.width))
  {
    hide Feed;
    hide Stream;
    NarrowEntryIsRemainder(p, before, data);
    ShiftDown(NarrowEntry(p, before, data), Feed(p.Generator(), View(p, before), Stream(false, data)));
  }

  method LookupRemainderNarrow(data: seq<Byte>, lookupTable: Table, remainder: Word) returns (r: Word)
    requires lookupTable.Valid() && |remainder| == lookupTable.parameters.bits
    requires !lookupTable.parameters.reflectInput && lookupTable.parameters.width < 8
    ensures Remainder(lookupTable.parameters, remainder, data, r)
    ensures r == Shr(NarrowEntry(lookupTable.parameters, remainder, data), 8 - lookupTable.parameters.width)
  {
    var p := lookupTable.parameters;
    var shift := 8 - p.width;
    r := Shl(remainder, shift);
    var current := 0;
    while current < |data|
      invariant current <= |data| && r == NarrowEntry(p, remainder, data[..current])
    {
      NarrowEntryNext(p, remainder, data, current);
      var index: Byte := Xor(r, data[current] + Zeros(p.bits - 8))[..8];
      var entry := lookupTable.At(index);
      r := entry;
      current := current + 1;
    }
    assert data[..current] == data;
    r := Shr(r, shift);
    NarrowTableIsRemainder(p, remainder, data);
  }

  /** The word the table-driven loop leaves. A reflected one is all register. */
  ghost function TableLoop(p: Parameters, before: Word, data: seq<Byte>): (r: Word)
    requires p.Valid() && |before| == p.bits
    ensures |r| == p.bits
  {
    if p.reflectInput then Reverse(Feed(ViewGenerator(p), View(p, before), Stream(true, data)))
    else if p.width >= 8 then WideTable(p, before, data)
    else Shr(NarrowEntry(p, before, data), 8 - p.width)
  }

  lemma TableLoopIsRemainder(p: Parameters, before: Word, data: seq<Byte>)
    requires p.Valid() && |before| == p.bits
    ensures Remainder(p, before, data, TableLoop(p, before, data))
  {
    if p.reflectInput {
      ReverseTwice(Feed(ViewGenerator(p), View(p, before), Stream(true, data)));
    } else if p.width >= 8 {
      WideTableIsRemainder(p, before, data);
    } else {
      NarrowTableIsRemainder(p, before, data);
    }
  }

  method LookupRemainder(data: seq<Byte>, lookupTable: Table, remainder: Word) returns (r: Word)
    requires lookupTable.Valid() && |remainder| == lookupTable.parameters.bits
    ensures Remainder(lookupTable.parameters, remainder, data, r)
    ensures r == TableLoop(lookupTable.parameters, remainder, data)
  {
    if lookupTable.parameters.reflectInput {
      r := LookupRemainderReflected(data, lookupTable, remainder);
      ReverseTwice(r);
    } else if lookupTable.parameters.width >= 8 {
      r := LookupRemainderWide(data, lookupTable, remainder);
    } else {
      r := LookupRemainderNarrow(data, lookupTable, remainder);
    }
  }

  /* ---------------------------------------------------------------- complete CRCs */

  ghost function Orient(reflect: bool, r: Word): (w: Word)
    ensures |w| == |r|
  {
    if reflect then Reverse(r) else r
  }

  ghost function InitialRegister(p: Parameters): (r: Word)
    requires p.Valid()
    ensures |r| == p.width
  {
    Orient(p.reflectInput, p.initialValue[..p.width])
  }

  /** The CRC value that reports a register. */
  ghost function Pack(p: Parameters, r: Word): (crc: Word)
    requires p.Valid() && |r| == p.width
    ensures |crc| == p.bits
  {
    Xor(Orient(p.reflectOutput, r), p.finalXOR[..p.width]) + Zeros(p.bits - p.width)
  }

  /** The register a CRC value reports. */
  ghost function Unpack(p: Parameters, crc: Word): (r: Word)
    requires p.Valid() && |crc| == p.bits
    ensures |r| == p.width
  {
    Orient(p.reflectOutput, Xor(crc[..p.width], p.finalXOR[..p.width]))
  }

  ghost function CrcOf(p: Parameters, data: seq<Byte>): (crc: Word)
    requires p.Valid()
    ensures |crc| == p.bits
  {
    Pack(p, Register(p, InitialRegister(p), data))
  }

  ghost function CrcAfter(p: Parameters, crc: Word, data: seq<Byte>): (crc': Word)
    requires p.Valid() && |crc| == p.bits
    ensures |crc'| == p.bits
  {
    Pack(p, Register(p, Unpack(p, crc), data))
  }

  lemma FinalizePacks(p: Parameters, remainder: Word, r: Word)
    requires p.Valid() && Holds(p, remainder, r)
    ensures Finalized(p.width, remainder, p.finalXOR, p.reflectInput != p.reflectOutput) == Pack(p, r)
  {
    HeldLow(p, remainder, r);
    ReflectedLow(remainder, p.width);
    ReverseTwice(r);
    var t := if p.reflectInput != p.reflectOutput then Reflected(remainder, p.width) else remainder;
    assert t[..p.width] == Orient(p.reflectOutput, r);
    MaskXor(t, p.finalXOR, p.width);
  }

  lemma HeldLow(p: Parameters, remainder: Word, r: Word)
    requires p.Valid() && Holds(p, remainder, r)
    ensures remainder[..p.width] == Orient(p.reflectInput, r)
  {
    if p.reflectInput {
      HoldsReflected(p, remainder, r);
    }
  }

  lemma UndoFinalizeUnpacks(p: Parameters, crc: Word)
    requires p.Valid() && |crc| == p.bits
    ensures Holds(p, Unfinalized(p.width, crc, p.finalXOR, p.reflectInput != p.reflectOutput), Unpack(p, crc))
  {
    var x := Xor(crc[..p.width], p.finalXOR[..p.width]);
    var c := Xor(Mask(crc, p.width), p.finalXOR);
    var u := Unfinalized(p.width, crc, p.finalXOR, p.reflectInput != p.reflectOutput);
    assert c == x + Zeros(p.bits - p.width);
    if p.reflectInput != p.reflectOutput {
      assert u == Reverse(x) + Zeros(p.bits - p.width);
    }
    ReverseTwice(x);
    if p.reflectInput {
      HoldsReflected(p, u, Unpack(p, crc));
    }
  }

  lemma InitialHolds(p: Parameters)
    requires p.Valid()
    ensures Holds(p, p.initialValue, InitialRegister(p))
  {
    var low := p.initialValue[..p.width];
    if p.reflectInput {
      HoldsReflected(p, p.initialValue, Reverse(low));
      ReverseTwice(low);
      assert p.initialValue == low + Zeros(p.bits - p.width);
    }
  }

  method Calculate(data: seq<Byte>, p: Parameters) returns (crc: Word)
    requires p.Valid()
    ensures crc == CrcOf(p, data)
  {
    var remainder := CalculateRemainder(data, p, p.initialValue);
    InitialHolds(p);
    RemainderHolds(p, p.initialValue, data, remainder, InitialRegister(p));
    FinalizePacks(p, remainder, Register(p, InitialRegister(p), data));
    crc := Finalize(p.width, remainder, p.finalXOR, p.reflectInput != p.reflectOutput);
  }

  method CalculateMore(data: seq<Byte>, p: Parameters, crc: Word) returns (crc': Word)
    requires p.Valid() && |crc| == p.bits
    ensures crc' == CrcAfter(p, crc, data)
  {
    var before := UndoFinalize(p.width, crc, p.finalXOR, p.reflectInput != p.reflectOutput);
    UndoFinalizeUnpacks(p, crc);
    var after := CalculateRemainder(data, p, before);
    RemainderHolds(p, before, data, after, Unpack(p, crc));
    FinalizePacks(p, after, Register(p, Unpack(p, crc), data));
    crc' := Finalize(p.width, after, p.finalXOR, p.reflectInput != p.reflectOutput);
  }

  method CalculateByTable(data: seq<Byte>, lookupTable: Table) returns (crc: Word)
    requires lookupTable.Valid()
    ensures crc == CrcOf(lookupTable.parameters, data)
  {
    var p := lookupTable.parameters;
    var remainder := LookupRemainder(data, lookupTable, p.initialValue);
    InitialHolds(p);
    RemainderHolds(p, p.initialValue, data, remainder, InitialRegister(p));
    FinalizePacks(p, remainder, Register(p, InitialRegister(p), data));
    crc := Finalize(p.width, remainder, p.finalXOR, p.reflectInput != p.reflectOutput);
  }

  method CalculateMoreByTable(data: seq<Byte>, lookupTable: Table, crc: Word) returns (crc': Word)
    requires lookupTable.Valid() && |crc| == lookupTable.parameters.bits
    ensures crc' == CrcAfter(lookupTable.parameters, crc, data)
  {
    var p := lookupTable.parameters;
    var before := UndoFinalize(p.width, crc, p.finalXOR, p.reflectInput != p.reflectOutput);
    UndoFinalizeUnpacks(p, crc);
    var after := LookupRemainder(data, lookupTable, before);
    RemainderHolds(p, before, data, after, Unpack(p, crc));
    FinalizePacks(p, after, Register(p, Unpack(p, crc), data));
    crc' := Finalize(p.width, after, p.finalXOR, p.reflectInput != p.reflectOutput);
  }
}
