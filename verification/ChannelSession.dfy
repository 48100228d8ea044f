/** One session of the shared-memory channel: a proxy thread, one segment with its two semaphores, and the
cache worker that serves the request. */
module ChannelSession {
  import opened Collections

  type Octet = b: int | 0 <= b < 256
  type Octets = seq<Octet>
  type Path = string

  /** What the cache holds; a path that is missing makes `simplecache_get` fail. */
  type Files = map<Path, Octets>

  /** MAX_SIMPLE_CACHE_QUEUE_SIZE, the size of `content` in `struct message`. */
  const CHUNK: nat := 824

  /** `struct message` as it lies in the segment, and the semaphores /sem_1_id and /sem_2_id. */
  datatype Segment = Segment(kind: int, fileLen: int, contentLen: int, content: Octets, sem1: nat, sem2: nat)

  datatype Header = NoHeader | NotFound | Found(length: int)

  /** The next statement of `handle_with_cache`. */
  datatype ProxyPc =
    | Idle
    | WaitPool | TestPool | PollPost | PopPool | PostPool | SendRequest
    | WaitHeader | ReadKind
    | ClearMissing | ReturnMissing | SendMissing
    | SendHeader | TestDone | WaitChunk | CopyChunk | SendChunk | AddChunk | PostChunk
    | ClearSegment | ReturnSegment

  /** A proxy thread: its locals, the header it sent and the bytes it passed to `gfs_send`. */
  datatype Proxy = Proxy(pc: ProxyPc, path: Path, id: nat, transferred: int, buffer: Octets, header: Header,
                         sent: Octets)

  /** The next statement of `worker_thread`. */
  datatype WorkerPc =
    | Receive | Lookup
    | MarkMissing | PostMissing
    | MarkFound | WriteLength | PostHeader
    | ReadFile | WaitSlot | ZeroContent | WriteContent | WriteContentLength | PostSlot

  datatype Worker = Worker(pc: WorkerPc, path: Path, id: nat, offset: int, buffer: Octets)

  /** Who is serving the request of a held segment. */
  datatype Server = Unsent | Queued | Serving(worker: Worker) | Served

  /* ---------------------------------------------------------------- C arithmetic and memory */

  /** The conversion of an `int` to `size_t`. */
  function ToSize(i: int): (n: int) {
    if i < 0 then i + 0x1_0000_0000_0000_0000 else i
  }

  function Zeroed(n: nat): (z: Octets)
    ensures |z| == n
  {
    seq(n, _ => 0)
  }

  /** The n bytes `memcpy` takes from the start of s; an overrun takes whatever is there. */
  function Front(s: Octets, n: int): (t: Octets) {
    if 0 <= n <= |s| then s[..n] else s
  }

  /** s over the start of t. */
  function Overlay(s: Octets, t: Octets): (u: Octets) {
    s + (if |s| <= |t| then t[|s|..] else [])
  }

  function ChunkEnd(offset: int, length: int): (n: int) {
    if offset + CHUNK < length then offset + CHUNK else length
  }

  /* ---------------------------------------------------------------- the steps of a session */

  /** One statement of the proxy on its segment; None while it has to wait. */
  function ProxyStep(g: Segment, x: Proxy): (r: Option<(Segment, Proxy)>) {
    match x.pc
    case WaitHeader => if g.sem1 == 0 then None else Some((g.(sem1 := g.sem1 - 1), x.(pc := ReadKind)))
    case ReadKind => Some((g, x.(pc := if g.kind == -1 then ClearMissing else SendHeader)))
    case ClearMissing => Some((Cleared(g), x.(pc := ReturnMissing)))
    case SendHeader => Some((g, x.(pc := TestDone, header := Found(ToSize(g.fileLen)), transferred := 0)))
    case TestDone => Some((g, x.(pc := if x.transferred < ToSize(g.fileLen) then WaitChunk else ClearSegment)))
    case WaitChunk => if g.sem1 == 0 then None else Some((g.(sem1 := g.sem1 - 1), x.(pc := CopyChunk)))
    case CopyChunk => Some((g, x.(pc := SendChunk, buffer := Front(g.content, g.contentLen))))
    case SendChunk => Some((g, x.(pc := AddChunk, sent := x.sent + Front(x.buffer, g.contentLen))))
    case AddChunk => Some((g, x.(pc := PostChunk, transferred := x.transferred + g.contentLen, buffer := [])))
    case PostChunk => Some((g.(sem2 := g.sem2 + 1), x.(pc := TestDone)))
    case ClearSegment => Some((Cleared(g), x.(pc := ReturnSegment)))
    case _ => None
  }

  /** `memset` of the whole message. */
  function Cleared(g: Segment): (c: Segment) {
    g.(kind := 0, fileLen := 0, contentLen := 0, content := Zeroed(CHUNK))
  }

  /** One statement of the cache worker on the segment it serves; None while it has to wait. */
  function WorkerStep(files: Files, g: Segment, y: Worker): (r: Option<(Segment, Worker)>) {
    var file := if y.path in files then files[y.path] else [];
    match y.pc
    case Receive => None
    case Lookup => Some((g, y.(pc := if y.path in files then MarkFound else MarkMissing)))
    case MarkMissing => Some((g.(kind := -1), y.(pc := PostMissing)))
    case PostMissing => Some((g.(sem1 := g.sem1 + 1), y.(pc := Receive)))
    case MarkFound => Some((g.(kind := 1), y.(pc := WriteLength, offset := 0)))
    case WriteLength => Some((g.(fileLen := ToInt(|file|)), y.(pc := PostHeader)))
    case PostHeader => Some((g.(sem1 := g.sem1 + 1), y.(pc := ReadFile)))
    case ReadFile =>
      var chunk := if 0 <= y.offset < |file| then file[y.offset..ChunkEnd(y.offset, |file|)] else [];
      Some((g, y.(pc := if chunk == [] then Receive else WaitSlot, buffer := chunk)))
    case WaitSlot => if g.sem2 == 0 then None else Some((g.(sem2 := g.sem2 - 1), y.(pc := ZeroContent)))
    case ZeroContent => Some((g.(content := Zeroed(CHUNK)), y.(pc := WriteContent)))
    case WriteContent => Some((g.(content := Overlay(y.buffer, g.content)), y.(pc := WriteContentLength)))
    case WriteContentLength =>
      Some((g.(contentLen := |y.buffer|), y.(pc := PostSlot, offset := y.offset + |y.buffer|)))
    case PostSlot => Some((g.(sem1 := g.sem1 + 1), y.(pc := ReadFile)))
  }

  /* ---------------------------------------------------------------- what holds during a session */

  /** The proxy owns a segment between the pop and the enqueue. */
  predicate Holding(pc: ProxyPc) {
    pc !in {Idle, WaitPool, TestPool, PollPost, PopPool, SendMissing}
  }

  /** The worker writes the segment's chunk fields. */
  predicate Writing(pc: WorkerPc) {
    pc in {ZeroContent, WriteContent, WriteContentLength, PostSlot}
  }

  /** The proxy reads the segment's chunk fields. */
  predicate Reading(pc: ProxyPc) {
    pc in {CopyChunk, SendChunk, AddChunk}
  }

  predicate BeforeHeader(pc: WorkerPc) {
    pc in {Lookup, MarkMissing, PostMissing, MarkFound, WriteLength, PostHeader}
  }

  /** The worker will still touch the segment of its last request. */
  predicate Active(files: Files, y: Worker) {
    && y.pc != Receive
    && !(y.pc == ReadFile && y.path in files && y.offset == |files[y.path]|)
  }

  ghost predicate FilesFit(files: Files) {
    forall path :: path in files ==> |files[path]| < 0x8000_0000
  }

  ghost predicate AtRest(g: Segment) {
    g.sem1 == 0 && g.sem2 == 1
  }

  ghost predicate Loaded(g: Segment, file: Octets, from: int, to: int) {
    0 <= from <= to <= |file| && g.contentLen == to - from <= |g.content| && g.content[..to - from] == file[from..to]
  }

  /** The joint state once the header of a file is posted: `posted` bytes were handed over by the worker, which
  is in its write section if `writing`. Semaphore 1 counts the header and the unread chunk together. */
  ghost predicate Transfer(g: Segment, x: Proxy, file: Octets, posted: int, writing: bool) {
    var n, b := |file|, x.transferred;
    var header := if x.pc == WaitHeader then 1 else 0;
    && 0 <= b <= posted <= n
    && (writing ==> posted < n)
    && (x.pc in {WaitHeader, ReadKind, SendHeader} ==> b == 0 && x.header == NoHeader)
    && (x.pc !in {WaitHeader, ReadKind, SendHeader} ==> x.header == Found(n))
    && (x.pc != ReturnSegment ==> g.kind == 1 && g.fileLen == n)
    && x.sent == file[..if x.pc == AddChunk then posted else b]
    && match x.pc
       case WaitHeader | ReadKind | SendHeader | TestDone | WaitChunk =>
         && (x.pc == WaitChunk ==> b < n)
         && ((posted == b && g.sem1 == header && g.sem2 == (if writing then 0 else 1))
             || (posted == ChunkEnd(b, n) > b && g.sem1 == header + 1 && g.sem2 == 0 && !writing
                 && Loaded(g, file, b, posted)))
       case CopyChunk | SendChunk | AddChunk =>
         && posted == ChunkEnd(b, n) > b && g.sem1 == 0 && g.sem2 == 0 && !writing && Loaded(g, file, b, posted)
         && (x.pc == SendChunk ==> x.buffer == file[b..posted])
       case PostChunk => posted == b && g.sem1 == 0 && g.sem2 == 0 && !writing
       case ClearSegment | ReturnSegment => posted == b == n && AtRest(g) && !writing
       case _ => false
  }

  /** The worker's side before it posts the header. */
  ghost predicate Opening(files: Files, g: Segment, x: Proxy, y: Worker) {
    && x.pc == WaitHeader && AtRest(g) && x.transferred == 0 && x.sent == [] && x.header == NoHeader
    && (y.pc in {MarkMissing, PostMissing} ==> y.path !in files)
    && (y.pc == PostMissing ==> g.kind == -1)
    && (y.pc in {MarkFound, WriteLength, PostHeader} ==> y.path in files)
    && (y.pc in {WriteLength, PostHeader} ==> g.kind == 1 && y.offset == 0)
    && (y.pc == PostHeader ==> g.fileLen == |files[y.path]|)
  }

  /** The worker's side after it posted the header. */
  ghost predicate Sending(files: Files, g: Segment, x: Proxy, y: Worker) {
    && y.path in files
    && var file := files[y.path];
       var posted := if y.pc == PostSlot then y.offset - |y.buffer| else y.offset;
       && Transfer(g, x, file, posted, Writing(y.pc))
       && (y.pc != ReadFile ==> posted < |file| && y.buffer == file[posted..ChunkEnd(posted, |file|)])
       && (y.pc == WriteContent ==> |g.content| == CHUNK)
       && (y.pc in {WriteContentLength, PostSlot} ==>
             |y.buffer| <= |g.content| && g.content[..|y.buffer|] == y.buffer)
       && (y.pc == PostSlot ==> g.contentLen == |y.buffer|)
  }

  /** The request was for a missing file and the worker has answered. */
  ghost predicate MissingAnswered(g: Segment, x: Proxy) {
    && x.transferred == 0 && x.sent == [] && x.header == NoHeader && g.sem2 == 1
    && g.sem1 == (if x.pc == WaitHeader then 1 else 0)
    && (x.pc in {WaitHeader, ReadKind} ==> g.kind == -1)
    && x.pc in {WaitHeader, ReadKind, ClearMissing, ReturnMissing}
  }

  ghost predicate Session(files: Files, g: Segment, x: Proxy, v: Server) {
    match v
    case Unsent =>
      x.pc in {PostPool, SendRequest} && AtRest(g) && x.transferred == 0 && x.sent == [] && x.header == NoHeader
    case Queued =>
      x.pc == WaitHeader && AtRest(g) && x.transferred == 0 && x.sent == [] && x.header == NoHeader
    case Serving(y) =>
      && y.id == x.id && y.path == x.path && Active(files, y)
      && if BeforeHeader(y.pc) then Opening(files, g, x, y)
         else Sending(files, g, x, y)
    case Served =>
      if x.path in files then Transfer(g, x, files[x.path], |files[x.path]|, false)
      else MissingAnswered(g, x)
  }

  /** The server after the worker's step. */
  function ServerAfter(files: Files, y: Worker): (v: Server) {
    if Active(files, y) then Serving(y) else Served
  }

  /* ---------------------------------------------------------------- both sides keep it */

  lemma SmallSize(n: nat)
    requires n < 0x8000_0000
    ensures ToInt(n) == n && ToSize(n) == n
  {
  }

  lemma ProxyTransfers(g: Segment, x: Proxy, file: Octets, posted: int, writing: bool)
    requires |file| < 0x8000_0000 && Transfer(g, x, file, posted, writing) && ProxyStep(g, x).Some?
    ensures var (g', x') := ProxyStep(g, x).value; Transfer(g', x', file, posted, writing) && Holding(x'.pc)
  {
    SmallSize(|file|);
    if x.pc == SendChunk {
      assert file[..x.transferred] + file[x.transferred..posted] == file[..posted];
      assert x.buffer[..|x.buffer|] == x.buffer;
    }
  }

  /** A step of the proxy keeps its session. */
  lemma ProxyKeeps(files: Files, g: Segment, x: Proxy, v: Server)
    requires FilesFit(files) && Session(files, g, x, v) && ProxyStep(g, x).Some?
    ensures var (g', x') := ProxyStep(g, x).value;
            Session(files, g', x', v) && Holding(x'.pc) && x'.id == x.id && x'.path == x.path
  {
    ProxySame(g, x);
    if v.Serving? && !BeforeHeader(v.worker.pc) {
      ProxySends(files, g, x, v.worker);
    } else if v == Served && x.path in files {
      ProxyTransfers(g, x, files[x.path], |files[x.path]|, false);
    } else {
      ProxyWaits(files, g, x, v);
    }
  }

  lemma ProxySame(g: Segment, x: Proxy)
    requires ProxyStep(g, x).Some?
    ensures ProxyStep(g, x).value.1.id == x.id && ProxyStep(g, x).value.1.path == x.path
  {
  }

  lemma ProxyWaits(files: Files, g: Segment, x: Proxy, v: Server)
    requires Session(files, g, x, v) && ProxyStep(g, x).Some?
    requires v.Serving? ==> BeforeHeader(v.worker.pc)
    requires v == Served ==> x.path !in files
    ensures var (g', x') := ProxyStep(g, x).value; Session(files, g', x', v) && Holding(x'.pc)
  {
  }

  lemma ProxySends(files: Files, g: Segment, x: Proxy, y: Worker)
    requires FilesFit(files) && y.path in files && Sending(files, g, x, y) && ProxyStep(g, x).Some?
    ensures var (g', x') := ProxyStep(g, x).value; Sending(files, g', x', y) && Holding(x'.pc)
  {
    var posted := if y.pc == PostSlot then y.offset - |y.buffer| else y.offset;
    ProxyTransfers(g, x, files[y.path], posted, Writing(y.pc));
  }

  /** A step of the worker keeps the session of the proxy it serves. */
  lemma WorkerKeeps(files: Files, g: Segment, x: Proxy, y: Worker)
    requires FilesFit(files) && Session(files, g, x, Serving(y)) && WorkerStep(files, g, y).Some?
    ensures var (g', y') := WorkerStep(files, g, y).value;
            Session(files, g', x, ServerAfter(files, y')) && y'.id == y.id
  {
    if BeforeHeader(y.pc) {
      if y.path in files {
        SmallSize(|files[y.path]|);
        assert files[y.path][..0] == [];
      }
    } else {
      WorkerSends(files, g, x, y);
    }
  }

  lemma WorkerSends(files: Files, g: Segment, x: Proxy, y: Worker)
    requires FilesFit(files) && Session(files, g, x, Serving(y)) && WorkerStep(files, g, y).Some?
    requires y.pc != Receive && !BeforeHeader(y.pc)
    ensures var (g', y') := WorkerStep(files, g, y).value;
            Session(files, g', x, ServerAfter(files, y')) && y'.id == y.id
  {
    if y.pc in {ReadFile, WaitSlot} {
      WorkerFetches(files, g, x, y);
    } else if y.pc in {ZeroContent, WriteContent} {
      WorkerWrites(files, g, x, y);
    } else {
      WorkerPosts(files, g, x, y);
    }
  }

  lemma WorkerFetches(files: Files, g: Segment, x: Proxy, y: Worker)
    requires Session(files, g, x, Serving(y)) && WorkerStep(files, g, y).Some? && y.pc in {ReadFile, WaitSlot}
    ensures var (g', y') := WorkerStep(files, g, y).value;
            Session(files, g', x, ServerAfter(files, y')) && y'.id == y.id
  {
  }

  lemma WorkerWrites(files: Files, g: Segment, x: Proxy, y: Worker)
    requires Session(files, g, x, Serving(y)) && y.pc in {ZeroContent, WriteContent}
    ensures var (g', y') := WorkerStep(files, g, y).value;
            Session(files, g', x, ServerAfter(files, y')) && y'.id == y.id
  {
    if y.pc == WriteContent {
      assert Overlay(y.buffer, g.content)[..|y.buffer|] == y.buffer;
    }
  }

  lemma WorkerPosts(files: Files, g: Segment, x: Proxy, y: Worker)
    requires Session(files, g, x, Serving(y)) && y.pc in {WriteContentLength, PostSlot}
    ensures var (g', y') := WorkerStep(files, g, y).value;
            Session(files, g', x, ServerAfter(files, y')) && y'.id == y.id
  {
  }

  /** A session begins when the proxy takes a segment at rest, sends its request and a worker receives it. */
  lemma SessionBegins(files: Files, g: Segment, x: Proxy)
    requires AtRest(g) && x.transferred == 0 && x.sent == [] && x.header == NoHeader
    ensures x.pc == PostPool ==> Session(files, g, x, Unsent)
    ensures x.pc == WaitHeader ==> Session(files, g, x, Queued)
    ensures x.pc == WaitHeader ==> Session(files, g, x, Serving(Worker(Lookup, x.path, x.id, 0, [])))
  {
  }

  /** Neither side waits for the other at the same time. */
  lemma SessionNeverStuck(files: Files, g: Segment, x: Proxy, y: Worker)
    requires Session(files, g, x, Serving(y))
    ensures ProxyStep(g, x).Some? || WorkerStep(files, g, y).Some?
  {
  }

  lemma ServedNeverStuck(files: Files, g: Segment, x: Proxy)
    requires Session(files, g, x, Served)
    ensures ProxyStep(g, x).Some? || x.pc in {ReturnMissing, ReturnSegment}
  {
  }

  /** A chunk is not written while it is read, and what is read is the next chunk of the file. */
  lemma ChunkIsSafe(files: Files, g: Segment, x: Proxy, v: Server)
    requires FilesFit(files) && Session(files, g, x, v)
    ensures Reading(x.pc) ==>
              && (v.Serving? ==> !Writing(v.worker.pc))
              && x.path in files
              && Loaded(g, files[x.path], x.transferred, ChunkEnd(x.transferred, |files[x.path]|))
  {
  }

  /** A segment that is handed back is at rest and nobody serves it any more. */
  lemma ReturnedAtRest(files: Files, g: Segment, x: Proxy, v: Server)
    requires FilesFit(files) && Session(files, g, x, v) && x.pc in {ReturnMissing, ReturnSegment}
    ensures AtRest(g) && v == Served
    ensures x.pc == ReturnSegment ==> x.path in files && x.sent == files[x.path] && x.header == Found(|files[x.path]|)
    ensures x.pc == ReturnMissing ==> x.path !in files && x.transferred == 0 && x.sent == [] && x.header == NoHeader
  {
  }
}
