/** The checksum of a file, computed chunk by chunk through one reused buffer. */
module FileChecksum {
  import opened Words
  import opened Lfsr
  import opened Crc
  import opened CrcTable
  import opened CrcTheorems

  const DFS_BUFFERSIZE: nat := 4096
  const UINT32_RANGE: nat := 0x1_0000_0000

  /** What the file system answers: `lstat` succeeds if the file is present, `open` may fail, and reads beyond
  the first `readable` bytes fail. */
  datatype File = File(present: bool, content: seq<Byte>, opens: bool, readable: nat)

  function Min(a: nat, b: nat): nat {
    if a < b then a else b
  }

  function BufferSize(size: nat): (b: nat)
    ensures 0 < b <= DFS_BUFFERSIZE && (0 < size ==> b <= size)
  {
    if size >= DFS_BUFFERSIZE then DFS_BUFFERSIZE
    else if size / 2 == 0 then 1 else size / 2
  }

  /** The number of rounds, as the 32-bit counter holds it. */
  function ChunkCount(size: nat, b: nat): (c: nat)
    requires 0 < b
  {
    ((size / b) % UINT32_RANGE + (if size % b != 0 then 1 else 0)) % UINT32_RANGE
  }

  /** The number of chunks the file has. */
  function Chunks(size: nat, b: nat): (c: nat)
    requires 0 < b
  {
    size / b + if size % b != 0 then 1 else 0
  }

  /** The read position after k rounds. */
  function Position(size: nat, b: nat, k: nat): (at: nat)
    ensures at <= size
  {
    if k == 0 then 0 else Min(Position(size, b, k - 1) + b, size)
  }

  /** The rounds that run before the counter is reached or a read fails. */
  function Rounds(file: File): (k: nat) {
    var n, b := |file.content|, BufferSize(|file.content|);
    if file.readable >= n then ChunkCount(n, b) else Min(ChunkCount(n, b), file.readable / b)
  }

  /** r is what the size leaves over after full buffers of b. */
  ghost predicate Cut(size: nat, b: nat, r: nat) {
    0 < b && r < b && (0 < r ==> b <= size)
  }

  /** What the last round hashes beyond the end of the file: the bytes its short read left in the buffer. */
  ghost function Tail(content: seq<Byte>, b: nat, r: nat): (t: seq<Byte>)
    requires Cut(|content|, b, r)
  {
    if r == 0 then [] else content[|content| - b..|content| - r]
  }

  /** The bytes hashed when the read position is `at`. */
  ghost function Hashed(content: seq<Byte>, b: nat, r: nat, at: nat): (h: seq<Byte>)
    requires Cut(|content|, b, r)
  {
    if at < |content| then content[..at] else content + Tail(content, b, r)
  }

  ghost function HashedBytes(file: File): (h: seq<Byte>) {
    var n, b := |file.content|, BufferSize(|file.content|);
    Hashed(file.content, b, n % b, Position(n, b, Rounds(file)))
  }

  ghost function FileTail(content: seq<Byte>): (t: seq<Byte>) {
    Tail(content, BufferSize(|content|), |content| % BufferSize(|content|))
  }

  /** The parameter sets for which the seed 0 continues from nothing. */
  ghost predicate FreshAtZero(p: Parameters) {
    p.Valid() && Unpack(p, Zeros(p.bits)) == InitialRegister(p)
  }

  ghost function ChecksumBy(p: Parameters, file: File): (crc: Word)
    requires p.Valid()
    ensures |crc| == p.bits
  {
    if file.present && file.opens then CrcOf(p, HashedBytes(file)) else Zeros(p.bits)
  }

  ghost function Checksum(file: File): (crc: Word)
    ensures |crc| == 32
  {
    Crc32Valid();
    ChecksumBy(CRC_32, file)
  }

  /* ---------------------------------------------------------------- arithmetic of the chunks */

  lemma MulAtLeast(b: nat, x: nat, y: nat)
    requires x <= y
    ensures b * x <= b * y
  {
  }

  lemma DivMod(n: nat, b: nat)
    requires 0 < b
    ensures n == b * (n / b) + n % b
  {
  }

  lemma DivBound(n: nat, b: nat, k: nat)
    requires 0 < b
    ensures k < n / b <==> (k + 1) * b <= n
  {
    var q := n / b;
    assert n == b * q + n % b && (k + 1) * b == b * (k + 1);
    if k < q {
      MulAtLeast(b, k + 1, q);
    } else {
      MulAtLeast(b, q + 1, k + 1);
    }
  }

  lemma ChunkExists(n: nat, b: nat, k: nat)
    requires 0 < b
    ensures k < Chunks(n, b) <==> k * b < n
  {
    var q := n / b;
    assert n == b * q + n % b && k * b == b * k;
    if k < q {
      MulAtLeast(b, k + 1, q);
    } else {
      MulAtLeast(b, q, k);
      if q < k {
        MulAtLeast(b, q + 1, k);
      }
    }
  }

  lemma {:induction false} PositionClosed(size: nat, b: nat, k: nat)
    ensures Position(size, b, k) == Min(k * b, size)
  {
    if k > 0 {
      PositionClosed(size, b, k - 1);
      assert k * b == (k - 1) * b + b;
    }
  }

  /** There is a round k exactly if the read position has not reached the end. */
  lemma RoundExists(size: nat, b: nat, k: nat)
    requires 0 < b
    ensures k < Chunks(size, b) <==> Position(size, b, k) < size
  {
    PositionClosed(size, b, k);
    ChunkExists(size, b, k);
  }

  /** A read from `at` is a full buffer, or it reaches the end with just what the size leaves over. */
  ghost predicate OnGrid(size: nat, b: nat, r: nat, at: nat) {
    at + b < size || if r == 0 then at + b == size else b <= at && at + r == size
  }

  lemma PositionOnGrid(size: nat, b: nat, k: nat)
    requires 0 < b <= size && k < Chunks(size, b)
    ensures OnGrid(size, b, size % b, Position(size, b, k))
  {
    hide OnGrid;
    hide Position;
    PositionClosed(size, b, k);
    ChunkExists(size, b, k);
    ChunkExists(size, b, k + 1);
    DivMod(size, b);
    LastOnGrid(size, b, size / b, size % b, k);
  }

  lemma LastOnGrid(size: nat, b: nat, q: nat, r: nat, k: nat)
    requires size == b * q + r && r < b <= size && k * b < size
    requires (k + 1) * b < size || (if r == 0 then k + 1 == q else k == q)
    ensures OnGrid(size, b, r, k * b)
  {
    assert k * b == b * k && (k + 1) * b == k * b + b;
    if k == q && r != 0 {
      MulAtLeast(b, 1, q);
    }
  }

  lemma ModUnique(a: nat, m: nat, q: nat, r: nat)
    requires r < m && a == m * q + r
    ensures a % m == r
  {
    var d := a / m;
    assert a == m * d + a % m;
    if q < d {
      MulAtLeast(m, q + 1, d);
    } else if d < q {
      MulAtLeast(m, d + 1, q);
    }
  }

  lemma WrapOne(x: nat, e: nat, m: nat)
    requires e <= 1 < m
    ensures (x % m + e) % m == (x + e) % m
  {
    var q, r := x / m, x % m;
    assert x == m * q + r;
    if r + e == m {
      ModUnique(x + e, m, q + 1, 0);
      ModUnique(r + e, m, 1, 0);
    } else {
      ModUnique(x + e, m, q, r + e);
    }
  }

  lemma ChunkCountWraps(size: nat, b: nat)
    requires 0 < b
    ensures ChunkCount(size, b) == Chunks(size, b) % UINT32_RANGE <= Chunks(size, b)
    ensures ChunkCount(size, b) == Chunks(size, b) <==> Chunks(size, b) < UINT32_RANGE
  {
    WrapOne(size / b, if size % b != 0 then 1 else 0, UINT32_RANGE);
  }

  /** The loop leaves after the number of rounds that `Rounds` says. */
  lemma RoundsAre(file: File, b: nat, k: nat)
    requires b == BufferSize(|file.content|)
    requires k <= ChunkCount(|file.content|, b) && Position(|file.content|, b, k) <= file.readable
    requires k == ChunkCount(|file.content|, b) || file.readable < Position(|file.content|, b, k + 1)
    ensures k == Rounds(file)
  {
    ChunkCountWraps(|file.content|, b);
    RoundsCounted(|file.content|, b, file.readable, ChunkCount(|file.content|, b), k);
  }

  lemma RoundsCounted(n: nat, b: nat, readable: nat, count: nat, k: nat)
    requires 0 < b && k <= count <= Chunks(n, b) && Position(n, b, k) <= readable
    requires k == count || readable < Position(n, b, k + 1)
    ensures k == if readable >= n then count else Min(count, readable / b)
  {
    PositionClosed(n, b, k);
    PositionClosed(n, b, k + 1);
    DivBound(readable, b, k);
    hide Position;
    if 0 < k {
      ChunkExists(n, b, k - 1);
      DivBound(readable, b, k - 1);
    }
    hide Chunks;
  }

  lemma RoundsRun(size: nat, b: nat, count: nat)
    requires b == BufferSize(size) && count <= ChunkCount(size, b)
    ensures forall k: nat :: k < count ==>
              Position(size, b, k) < size && OnGrid(size, b, size % b, Position(size, b, k))
  {
    ChunkCountWraps(size, b);
    forall k: nat | k < count
      ensures Position(size, b, k) < size && OnGrid(size, b, size % b, Position(size, b, k))
    {
      RoundExists(size, b, k);
      PositionOnGrid(size, b, k);
    }
  }

  lemma SizeIsCut(size: nat)
    ensures Cut(size, BufferSize(size), size % BufferSize(size))
  {
  }

  /* ---------------------------------------------------------------- the hashed bytes */

  /** What the read at `at` leaves in the buffer, given what was there before. */
  ghost function Refilled(content: seq<Byte>, at: nat, before: seq<Byte>): (after: seq<Byte>)
    requires at <= |content|
    ensures |after| == |before|
  {
    var size := Min(|before|, |content| - at);
    content[at..at + size] + before[size..]
  }

  /** Before the read at `at`, the buffer holds the previous chunk, which was a full one. */
  ghost predicate HoldsChunk(content: seq<Byte>, at: nat, buffer: seq<Byte>) {
    0 < at <= |content| ==> |buffer| <= at && buffer == content[at - |buffer|..at]
  }

  lemma NextHashed(content: seq<Byte>, b: nat, r: nat, at: nat, before: seq<Byte>)
    requires at < |content| && |before| == b && Cut(|content|, b, r) && OnGrid(|content|, b, r, at)
    requires HoldsChunk(content, at, before)
    ensures Hashed(content, b, r, Min(at + b, |content|)) == Hashed(content, b, r, at) + Refilled(content, at, before)
    ensures at + b < |content| ==> HoldsChunk(content, at + b, Refilled(content, at, before))
  {
    if at + b < |content| || r == 0 {
      FullChunk(content, before, at);
    } else {
      ShortChunk(content, before, at, r);
    }
  }

  lemma FullChunk(s: seq<Byte>, before: seq<Byte>, at: nat)
    requires at + |before| <= |s|
    ensures s[..at + |before|] == s[..at] + Refilled(s, at, before)
    ensures Refilled(s, at, before) == s[at..at + |before|]
    ensures s[..|s|] == s + []
  {
    assert before[|before|..] == [];
  }

  /** A short read at the end of the file leaves the end of the previous chunk behind it. */
  lemma ShortChunk(s: seq<Byte>, before: seq<Byte>, at: nat, size: nat)
    requires |before| <= at && size <= |before| && at + size == |s| && before == s[at - |before|..at]
    ensures s[..at] + Refilled(s, at, before) == s + s[|s| - |before|..|s| - size]
  {
    assert s == s[..at] + s[at..at + size];
    assert before[size..] == s[|s| - |before|..|s| - size];
  }

  /** What the checksum loop knows when the read position is `at`. */
  ghost predicate After(p: Parameters, content: seq<Byte>, b: nat, r: nat, at: nat, buffer: seq<Byte>, crc: Word) {
    && p.Valid() && Cut(|content|, b, r) && |buffer| == b
    && (at < |content| ==> HoldsChunk(content, at, buffer))
    && crc == CrcOf(p, Hashed(content, b, r, at))
  }

  lemma NextRound(p: Parameters, content: seq<Byte>, b: nat, r: nat, at: nat, before: seq<Byte>, crc: Word,
                  next: nat, after: seq<Byte>, crc': Word)
    requires After(p, content, b, r, at, before, crc)
    requires at < |content| && OnGrid(|content|, b, r, at)
    requires next == Min(at + b, |content|) && after == Refilled(content, at, before) && crc' == CrcAfter(p, crc, after)
    ensures After(p, content, b, r, next, after, crc')
  {
    NextHashed(content, b, r, at, before);
    MultiPart(p, Hashed(content, b, r, at), after);
  }

  /* ---------------------------------------------------------------- the checksum */

  /** From a seed that continues from nothing, a continued CRC is the CRC of the data alone. */
  lemma SeedZero(p: Parameters, data: seq<Byte>)
    requires FreshAtZero(p)
    ensures CrcAfter(p, Zeros(p.bits), data) == CrcOf(p, data)
    ensures CrcOf(p, []) == Zeros(p.bits)
  {
    var x, zero := p.finalXOR[..p.width], Zeros(p.bits);
    assert zero[..p.width] == Zeros(p.width);
    XorZeros(x);
    ReverseTwice(x);
    XorSelf(x);
    assert Pack(p, InitialRegister(p)) == zero;
  }

  lemma XorZeros(x: Word)
    ensures Xor(Zeros(|x|), x) == x
  {
  }

  lemma Crc32Fresh()
    ensures CRC_32.Valid() && FreshAtZero(CRC_32)
  {
    Crc32Valid();
    assert Xor(Zeros(32)[..32], Ones(32)[..32]) == Ones(32);
  }

  lemma StartOfFile(p: Parameters, content: seq<Byte>, b: nat, r: nat, buffer: seq<Byte>)
    requires FreshAtZero(p) && Cut(|content|, b, r) && |buffer| == b && (|content| == 0 ==> r == 0)
    ensures After(p, content, b, r, 0, buffer, Zeros(p.bits))
  {
    SeedZero(p, []);
    assert Hashed(content, b, r, 0) == [];
  }

  /** `stream.read`: fills the front of the buffer and leaves the rest as it was. */
  method Read(buffer: array<Byte>, content: seq<Byte>, position: nat, size: nat)
    requires position + size <= |content| && size == Min(buffer.Length, |content| - position)
    modifies buffer
    ensures buffer[..] == Refilled(content, position, old(buffer[..]))
  {
    forall i | 0 <= i < size {
      buffer[i] := content[position + i];
    }
    assert buffer[..] == content[position..position + size] + old(buffer[..])[size..];
  }

  method DfsFileChecksum(file: File, table: Table) returns (crc: Word)
    requires table.Valid() && table.parameters == CRC_32
    ensures crc == Checksum(file)
  {
    Crc32Fresh();
    crc := ChecksumWith(file, table);
  }

  method ChecksumWith(file: File, table: Table) returns (crc: Word)
    requires table.Valid() && FreshAtZero(table.parameters)
    ensures crc == ChecksumBy(table.parameters, file)
  {
    crc := Zeros(table.parameters.bits);
    if !file.present {
      return;
    }
    var fileSize := |file.content|;
    var bufferSize := BufferSize(fileSize);
    var buffer := new Byte[bufferSize];
    var chunkCount := ChunkCount(fileSize, bufferSize);
    if !file.opens {
      return;
    }
    ghost var k;
    SizeIsCut(fileSize);
    RoundsRun(fileSize, bufferSize, chunkCount);
    crc, k := ChecksumLoop(file, table, buffer, chunkCount, fileSize % bufferSize);
    RoundsAre(file, bufferSize, k);
  }

  /** One successful round: refill the buffer up to `next` and hash all of it. */
  method HashChunk(content: seq<Byte>, table: Table, buffer: array<Byte>, ghost r: nat, at: nat, next: nat, crc: Word)
    returns (crc': Word)
    requires table.Valid() && buffer as object != table.table as object
    requires After(table.parameters, content, buffer.Length, r, at, buffer[..], crc)
    requires at < |content| && next == Min(at + buffer.Length, |content|) && OnGrid(|content|, buffer.Length, r, at)
    modifies buffer
    ensures After(table.parameters, content, buffer.Length, r, next, buffer[..], crc')
  {
    ghost var before := buffer[..];
    Read(buffer, content, at, next - at);
    var after := buffer[..];
    crc' := CalculateMoreByTable(after, table, crc);
    NextRound(table.parameters, content, buffer.Length, r, at, before, crc, next, after, crc');
  }

  method ChecksumLoop(file: File, table: Table, buffer: array<Byte>, chunkCount: nat, ghost r: nat)
    returns (crc: Word, ghost k: nat)
    requires table.Valid() && FreshAtZero(table.parameters) && buffer as object != table.table as object
    requires Cut(|file.content|, buffer.Length, r) && (|file.content| == 0 ==> r == 0)
    requires forall k: nat :: k < chunkCount ==>
               && Position(|file.content|, buffer.Length, k) < |file.content|
               && OnGrid(|file.content|, buffer.Length, r, Position(|file.content|, buffer.Length, k))
    modifies buffer
    ensures crc == CrcOf(table.parameters,
                         Hashed(file.content, buffer.Length, r, Position(|file.content|, buffer.Length, k)))
    ensures k <= chunkCount && Position(|file.content|, buffer.Length, k) <= file.readable
    ensures k == chunkCount || file.readable < Position(|file.content|, buffer.Length, k + 1)
  {
    hide CrcOf;
    hide Hashed;
    hide OnGrid;
    ghost var p := table.parameters;
    var fileSize, bufferSize := |file.content|, buffer.Length;
    crc := Zeros(table.parameters.bits);
    var chunkSequence, currentPosition := 0, 0;
    StartOfFile(p, file.content, bufferSize, r, buffer[..]);
    while chunkCount != chunkSequence
      invariant chunkSequence <= chunkCount
      invariant currentPosition == Position(fileSize, bufferSize, chunkSequence) <= file.readable
      invariant After(p, file.content, bufferSize, r, currentPosition, buffer[..], crc)
      decreases chunkCount - chunkSequence
    {
      k := chunkSequence;
      var next := Min(currentPosition + bufferSize, fileSize);
      if next > file.readable {
        return;
      }
      crc := HashChunk(file.content, table, buffer, r, currentPosition, next, crc);
      chunkSequence, currentPosition := chunkSequence + 1, next;
    }
    k := chunkSequence;
  }

  /* ---------------------------------------------------------------- what the checksum says */

  ghost predicate Readable(file: File) {
    file.present && file.opens && file.readable >= |file.content|
  }

  ghost predicate CounterFits(size: nat) {
    Chunks(size, BufferSize(size)) < UINT32_RANGE
  }

  /** A readable file's checksum is the CRC-32 of its bytes and then the tail, as long as the chunk counter does
  not wrap around; beyond that it covers a proper prefix only. */
  lemma ChecksumCoversFile(file: File)
    requires Readable(file)
    ensures CRC_32.Valid() && Checksum(file) == CrcOf(CRC_32, HashedBytes(file))
    ensures file.content <= HashedBytes(file) <==> CounterFits(|file.content|)
    ensures CounterFits(|file.content|) ==> HashedBytes(file) == file.content + FileTail(file.content)
  {
    Crc32Valid();
    var n, b := |file.content|, BufferSize(|file.content|);
    ChunkCountWraps(n, b);
    RoundExists(n, b, Rounds(file));
  }

  /** The bytes hashed twice, by the size of the file alone: from 4096 bytes on the buffer has 4096; below, it is half the
  file, so that an odd size leaves one byte for the last round and the rest of the buffer is hashed again. */
  ghost function HashedTwice(s: seq<Byte>): (t: seq<Byte>) {
    var n := |s|;
    if n >= 4096 then (if n % 4096 == 0 then [] else s[n - 4096..n - n % 4096])
    else if n % 2 == 0 || n == 1 then []
    else s[n / 2 + 1..n - 1]
  }

  lemma HashedBytesAre(file: File)
    requires Readable(file) && |file.content| <= 4096 * 0xFFFF_FFFF
    ensures CRC_32.Valid() && Checksum(file) == CrcOf(CRC_32, file.content + HashedTwice(file.content))
  {
    hide HashedTwice;
    hide FileTail;
    hide Checksum;
    hide HashedBytes;
    hide CrcOf;
    hide CounterFits;
    ChecksumCoversFile(file);
    SizesThatFit(|file.content|);
    TailOf(file.content);
  }

  lemma TailOf(s: seq<Byte>)
    ensures FileTail(s) == HashedTwice(s)
  {
    var n := |s|;
    if 4 <= n < 4096 {
      ModUnique(n, n / 2, 2, n % 2);
    }
  }

  /** The chunk counter does not wrap around up to 2^32 - 1 full buffers. */
  lemma SizesThatFit(n: nat)
    ensures CounterFits(n) <==> n <= 4096 * 0xFFFF_FFFF
  {
    ChunkExists(n, BufferSize(n), 0xFFFF_FFFF);
    if n < 4096 {
      ChunkExists(n, BufferSize(n), n);
      MulAtLeast(n, 1, BufferSize(n));
    }
  }

  /** A file that is missing or cannot be opened has checksum 0, and one whose reads fail has that of the whole buffers
  before the first byte that cannot be read. */
  lemma UnreadableChecksum(file: File, b: nat, k: nat)
    requires var n := |file.content|; b == if n >= 4096 then 4096 else if n >= 2 then n / 2 else 1
    requires k * b <= file.readable < (k + 1) * b
    ensures CRC_32.Valid()
    ensures !file.present || !file.opens ==> Checksum(file) == Zeros(32)
    ensures file.present && file.opens && file.readable < |file.content| <= 4096 * 0xFFFF_FFFF ==>
              Checksum(file) == CrcOf(CRC_32, file.content[..k * b])
  {
    Crc32Valid();
    hide CrcOf;
    if file.present && file.opens && file.readable < |file.content| <= 4096 * 0xFFFF_FFFF {
      RoundsRead(file, b, k);
      hide Rounds;
      hide Position;
    }
  }

  lemma RoundsRead(file: File, b: nat, k: nat)
    requires b == BufferSize(|file.content|) && file.readable < |file.content| <= 4096 * 0xFFFF_FFFF
    requires k * b <= file.readable < (k + 1) * b
    ensures Position(|file.content|, b, Rounds(file)) == k * b < |file.content|
  {
    var n := |file.content|;
    SizesThatFit(n);
    hide BufferSize;
    ChunkCountWraps(n, b);
    WholeBuffers(n, b, file.readable, k);
    hide ChunkCount;
  }

  lemma WholeBuffers(n: nat, b: nat, readable: nat, k: nat)
    requires 0 < b && readable < n && k * b <= readable < (k + 1) * b
    ensures readable / b == k < Chunks(n, b) && Position(n, b, k) == k * b < n
  {
    Quotient(readable, b, k);
    ChunkExists(n, b, k);
    PositionClosed(n, b, k);
    hide Position;
    hide Chunks;
  }

  lemma Quotient(readable: nat, b: nat, k: nat)
    requires 0 < b && k * b <= readable < (k + 1) * b
    ensures readable / b == k
  {
    var d := readable / b;
    DivMod(readable, b);
    assert (k + 1) * b == b * (k + 1) && k * b == b * k && b * (d + 1) == b * d + b;
    if k < d {
      MulAtLeast(b, k + 1, d);
    } else if d < k {
      MulAtLeast(b, d + 1, k);
    }
  }

  /** The tail is empty exactly when the buffer size divides the file size, and shorter than the buffer. */
  lemma TailEmpty(content: seq<Byte>)
    ensures FileTail(content) == [] <==> |content| % BufferSize(|content|) == 0
    ensures |FileTail(content)| < BufferSize(|content|)
  {
  }

  /** Two files of one size that differ only inside four consecutive bytes, none of which the last round
  hashes a second time, have different checksums. */
  lemma ShortChangeDetected(a: File, b: File, from: nat)
    requires Readable(a) && Readable(b) && CounterFits(|a.content|)
    requires |a.content| == |b.content| && a.content != b.content && from <= |a.content|
    requires a.content[..from] == b.content[..from]
    requires from + 4 < |a.content| ==> a.content[from + 4..] == b.content[from + 4..]
    requires FileTail(a.content) == FileTail(b.content)
    ensures Checksum(a) != Checksum(b)
  {
    var x, y, t := a.content, b.content, FileTail(a.content);
    ChecksumCoversFile(a);
    ChecksumCoversFile(b);
    SameAround(x, y, t, from);
    Crc32DetectsFourBytes(x + t, y + t, from);
  }

  /** Two files of one size that differ only in bytes the last round hashes a second time: the change is missed if and
  only if the register it leaves by itself comes back after a buffer of zeros. */
  lemma TailChangeDetected(a: File, b: File)
    requires Readable(a) && Readable(b) && CounterFits(|a.content|) && |a.content| == |b.content|
    requires var n, m := |a.content|, BufferSize(|a.content|);
             && n % m > 0 && m <= n
             && a.content[..n - m] == b.content[..n - m] && a.content[n - n % m..] == b.content[n - n % m..]
    ensures CRC_32.Valid()
    ensures var m := BufferSize(|a.content|);
            var change := ChangeRegister(CRC_32, FileTail(a.content), FileTail(b.content));
            Checksum(a) == Checksum(b) <==> Feed(CRC_32.Generator(), change, Zeros(8 * m)) == change
  {
    Crc32Valid();
    hide CrcOf;
    hide Feed;
    hide ChangeRegister;
    var n, m := |a.content|, BufferSize(|a.content|);
    ChecksumCoversFile(a);
    ChecksumCoversFile(b);
    hide Checksum;
    hide HashedBytes;
    hide CounterFits;
    var head, mid := a.content[..n - m], a.content[n - n % m..];
    var x, y := FileTail(a.content), FileTail(b.content);
    TailParts(a.content, m, n % m);
    TailParts(b.content, m, n % m);
    hide FileTail;
    hide BufferSize;
    assert |mid| == n % m && |x + mid| == m;
    DoubledChange(CRC_32, head, x, y, mid);
  }

  lemma TailParts(content: seq<Byte>, m: nat, r: nat)
    requires m == BufferSize(|content|) && r == |content| % m && 0 < r && m <= |content|
    ensures var n := |content|;
            && |FileTail(content)| == m - r
            && content + FileTail(content) == content[..n - m] + FileTail(content) + content[n - r..] + FileTail(content)
  {
    var n := |content|;
    assert content[..n - m] + content[n - m..n - r] + content[n - r..] == content;
  }

  lemma SameAround(x: seq<Byte>, y: seq<Byte>, t: seq<Byte>, from: nat)
    requires |x| == |y| && x != y && from <= |x| && x[..from] == y[..from]
    requires from + 4 < |x| ==> x[from + 4..] == y[from + 4..]
    ensures x + t != y + t && (x + t)[..from] == (y + t)[..from]
    ensures from + 4 < |x + t| ==> (x + t)[from + 4..] == (y + t)[from + 4..]
  {
    assert (x + t)[..from] == x[..from] && (y + t)[..from] == y[..from];
    assert (x + t)[..|x|] == x && (y + t)[..|x|] == y;
    if from + 4 < |x| {
      assert (x + t)[from + 4..] == x[from + 4..] + t && (y + t)[from + 4..] == y[from + 4..] + t;
    } else if from + 4 < |x + t| {
      assert (x + t)[from + 4..] == t[from + 4 - |x|..] && (y + t)[from + 4..] == t[from + 4 - |x|..];
    }
  }
}
