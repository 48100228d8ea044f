/** Interleaved calls of the file server: the handlers, the write lock, the directory and the buffers of open streams. */
module DfsHandlers {
  import opened Collections
  import opened Words
  import opened FileChecksum
  import opened DfsServer

  datatype Kind = Storing | Deleting | Locking

  /** The next statement of a handler: the file test of DeleteFile, CheckLock, the checksum test, the open, one write,
  the remove, ReleaseLock, and the destructor of the stream, which writes what is still buffered. */
  datatype Pc = Look | Enter | Compare | Open | Write | Unlink | Release | Flush | Finished

  /** A call under way: `next` messages were given to the stream, which has the file `node` open, wrote `written` bytes
  of them and has the others `pending`. */
  datatype Handler = Handler(kind: Kind, client: string, name: string, messages: seq<FileMessage>, pc: Pc,
                             next: nat, node: nat, written: nat, pending: seq<Byte>, status: Status)

  /** The directory and the files it or an open stream refers to. */
  datatype Disk = Disk(names: map<string, nat>, nodes: seq<seq<Byte>>)

  /** `last` records which handler opened a file last; no step looks at it. */
  datatype State = State(writeMap: WriteMap, disk: Disk, handlers: seq<Handler>, last: map<string, nat>)

  /** A call arrives, or a handler takes its next step; `opens` says whether an open for writing succeeds, and `keep` how
  many bytes at most a write leaves in the buffer. */
  datatype Step = Arrive(h: Handler) | Move(i: nat, opens: bool, keep: nat)

  datatype Effect = Effect(writeMap: WriteMap, disk: Disk, h: Handler)

  /* ---------------------------------------------------------------- calls */

  /** The messages a client sends for one file. */
  ghost predicate OneFile(messages: seq<FileMessage>, client: string, name: string) {
    messages != [] && forall k :: 0 <= k < |messages| ==> messages[k].name == name && messages[k].clientId == client
  }

  ghost predicate Fresh(h: Handler) {
    && h.next == h.node == h.written == 0 && h.pending == []
    && match h.kind
       case Storing => h.pc == Enter && OneFile(h.messages, h.client, h.name)
       case Deleting => h.pc == Look
       case Locking => h.pc == Enter
  }

  /* ---------------------------------------------------------------- the disk */

  /** What the directory shows. */
  function View(d: Disk): (files: Files) {
    map n | n in d.names && d.names[n] < |d.nodes| :: d.nodes[d.names[n]]
  }

  /** A file after a write at an offset; a hole reads as zeros, and nothing written changes nothing. */
  function WriteAt(file: seq<Byte>, at: nat, data: seq<Byte>): (after: seq<Byte>)
    ensures |after| == if data != [] && |file| < at + |data| then at + |data| else |file|
    ensures forall i {:trigger after[i]} :: 0 <= i < |after| ==>
              after[i] == if at <= i < at + |data| then data[i - at] else if i < |file| then file[i] else Zeros(8)
  {
    if data == [] then file
    else if at <= |file| then file[..at] + data + (if at + |data| <= |file| then file[at + |data|..] else [])
    else file + seq(at - |file|, _ => Zeros(8)) + data
  }

  function Put(d: Disk, node: nat, at: nat, data: seq<Byte>): (after: Disk) {
    if node < |d.nodes| then d.(nodes := d.nodes[node := WriteAt(d.nodes[node], at, data)]) else d
  }

  /** The file a stream opens for writing: emptied, or new. */
  function Opened(d: Disk, name: string): (r: (Disk, nat)) {
    if name in d.names && d.names[name] < |d.nodes| then (d.(nodes := d.nodes[d.names[name] := []]), d.names[name])
    else (Disk(d.names[name := |d.nodes|], d.nodes + [[]]), |d.nodes|)
  }

  /** The stream gets data and leaves the last `keep` bytes it has, at most, in its buffer. */
  function Streamed(d: Disk, h: Handler, data: seq<Byte>, keep: nat): (r: (Disk, Handler)) {
    var bytes := h.pending + data;
    var k := if keep <= |bytes| then |bytes| - keep else 0;
    (Put(d, h.node, h.written, bytes[..k]), h.(written := h.written + k, pending := bytes[k..]))
  }

  /* ---------------------------------------------------------------- steps */

  function End(h: Handler, status: Status): (r: Handler) {
    h.(pc := Finished, status := status)
  }

  /** The handler stored its file and has the stream still open. */
  predicate Stores(h: Handler) {
    h.kind == Storing && h.status == Ok
  }

  ghost function Moved(writeMap: WriteMap, disk: Disk, h: Handler, opens: bool, keep: nat): (r: Option<Effect>) {
    match h.pc
    case Look => Some(Effect(writeMap, disk, if h.name in View(disk) then h.(pc := Enter) else End(h, NotFound)))
    case Enter =>
      if !MayWrite(writeMap, h.client, h.name) then Some(Effect(writeMap, disk, End(h, ResourceExhausted)))
      else
        var after := Locked(writeMap, h.client, h.name);
        Some(Effect(after, disk,
                    match h.kind
                    case Storing => h.(pc := Compare)
                    case Deleting => h.(pc := Unlink)
                    case Locking => End(h, Ok)))
    case Compare =>
      var same := First(h.messages).crc == Checksum(OnDisk(View(disk), h.name));
      Some(Effect(writeMap, disk, if same then h.(pc := Release, status := AlreadyExists) else h.(pc := Open)))
    case Open =>
      if opens then
        var (disk', node) := Opened(disk, h.name);
        Some(Effect(writeMap, disk', h.(pc := Write, node := node)))
      else Some(Effect(writeMap, disk, h.(pc := Release, status := Cancelled)))
    case Write =>
      if h.next >= |h.messages| then Some(Effect(writeMap, disk, h.(pc := Release, status := Ok)))
      else
        var (disk', h') := Streamed(disk, h, h.messages[h.next].content, keep);
        Some(Effect(writeMap, disk', h'.(next := h.next + 1)))
    case Unlink => Some(Effect(writeMap, disk.(names := disk.names - {h.name}), h.(pc := Release, status := Ok)))
    case Release =>
      if Stores(h) then Some(Effect(Released(writeMap, Last(h.messages).name), disk, h.(pc := Flush)))
      else Some(Effect(Released(writeMap, h.name), disk, h.(pc := Finished)))
    case Flush =>
      var (disk', h') := Streamed(disk, h, [], 0);
      Some(Effect(writeMap, disk', h'.(pc := Finished)))
    case Finished => None
  }

  ghost function Next(s: State, step: Step): (r: Option<State>) {
    match step
    case Arrive(h) => if Fresh(h) then Some(s.(handlers := s.handlers + [h])) else None
    case Move(i, opens, keep) =>
      if i >= |s.handlers| then None
      else match Moved(s.writeMap, s.disk, s.handlers[i], opens, keep)
        case None => None
        case Some(e) =>
          var h := s.handlers[i];
          var last := if h.pc == Open && opens then s.last[h.name := i]
                      else if h.pc == Unlink then s.last - {h.name} else s.last;
          Some(State(e.writeMap, e.disk, s.handlers[i := e.h], last))
  }

  ghost predicate Init(s: State) {
    s.writeMap == map[] && s.handlers == [] && s.last == map[] && DiskOk(s.disk)
  }

  /** Every name has its own file. */
  ghost predicate DiskOk(d: Disk) {
    && (forall n :: n in d.names ==> d.names[n] < |d.nodes|)
    && (forall m, n :: m in d.names && n in d.names && d.names[m] == d.names[n] ==> m == n)
  }

  /* ---------------------------------------------------------------- runs */

  /** The state after a run; None if some step of it cannot be taken. */
  ghost function Run(s: State, steps: seq<Step>): (r: Option<State>)
    decreases |steps|
  {
    if steps == [] then Some(s)
    else match Next(s, steps[0])
      case None => None
      case Some(s') => Run(s', steps[1..])
  }

  lemma {:induction false} RunConcat(s: State, a: seq<Step>, b: seq<Step>)
    requires Run(s, a).Some?
    ensures Run(s, a + b) == Run(Run(s, a).value, b)
    decreases |a|
  {
    hide Next;
    if a == [] {
      assert a + b == b;
    } else {
      assert (a + b)[0] == a[0] && (a + b)[1..] == a[1..] + b;
      RunConcat(Next(s, a[0]).value, a[1..], b);
    }
  }

  /** Between a successful CheckLock and ReleaseLock. */
  predicate InSection(h: Handler) {
    h.pc in {Compare, Open, Write, Unlink, Release}
  }

  /** Two handlers are in their sections for one file. */
  predicate Meet(h: Handler, k: Handler) {
    InSection(h) && InSection(k) && h.name == k.name
  }

  /** The handler takes the lock in this step and works under it. */
  predicate Takes(s: State, step: Step) {
    && step.Move? && step.i < |s.handlers|
    && var h := s.handlers[step.i]; h.pc == Enter && h.kind != Locking && MayWrite(s.writeMap, h.client, h.name)
  }

  /** The client has a name, and no other call of it is in its section for the file. */
  ghost predicate Clean(s: State, h: Handler) {
    && h.client != ""
    && forall j :: 0 <= j < |s.handlers| && InSection(s.handlers[j]) && s.handlers[j].name == h.name
                   ==> s.handlers[j].client != h.client
  }

  /** Every step of the run that takes the lock is clean. */
  ghost predicate CleanRun(s: State, steps: seq<Step>)
    decreases |steps|
  {
    steps != [] && Next(s, steps[0]).Some? ==>
      (Takes(s, steps[0]) ==> Clean(s, s.handlers[steps[0].i])) && CleanRun(Next(s, steps[0]).value, steps[1..])
  }

  /** A Store that wrote its file releases the lock in this step. */
  predicate Releases(s: State, step: Step) {
    && step.Move? && step.i < |s.handlers|
    && var h := s.handlers[step.i]; h.pc == Release && Stores(h)
  }

  /** Every Store of the run that wrote its file has nothing buffered when it releases the lock. */
  ghost predicate FlushedRun(s: State, steps: seq<Step>)
    decreases |steps|
  {
    steps != [] && Next(s, steps[0]).Some? ==>
      && (Releases(s, steps[0]) ==> s.handlers[steps[0].i].pending == [])
      && FlushedRun(Next(s, steps[0]).value, steps[1..])
  }

  lemma {:induction false} CleanConcat(s: State, a: seq<Step>, b: seq<Step>)
    requires Run(s, a).Some? && CleanRun(s, a) && CleanRun(Run(s, a).value, b)
    ensures CleanRun(s, a + b)
    decreases |a|
  {
    hide Next;
    hide Clean;
    hide Takes;
    if a == [] {
      assert a + b == b;
    } else {
      assert (a + b)[0] == a[0] && (a + b)[1..] == a[1..] + b;
      CleanConcat(Next(s, a[0]).value, a[1..], b);
    }
  }

  lemma {:induction false} FlushedConcat(s: State, a: seq<Step>, b: seq<Step>)
    requires Run(s, a).Some? && FlushedRun(s, a) && FlushedRun(Run(s, a).value, b)
    ensures FlushedRun(s, a + b)
    decreases |a|
  {
    hide Next;
    hide Releases;
    if a == [] {
      assert a + b == b;
    } else {
      assert (a + b)[0] == a[0] && (a + b)[1..] == a[1..] + b;
      FlushedConcat(Next(s, a[0]).value, a[1..], b);
    }
  }

  lemma OneStep(s: State, step: Step)
    requires Next(s, step).Some?
    ensures Run(s, [step]) == Next(s, step)
    ensures (Takes(s, step) ==> Clean(s, s.handlers[step.i])) ==> CleanRun(s, [step])
    ensures (Releases(s, step) ==> s.handlers[step.i].pending == []) ==> FlushedRun(s, [step])
  {
    assert [step][1..] == [];
  }

  /* ---------------------------------------------------------------- progress of one handler */

  /** How far a handler is from ReleaseLock. */
  function SectionRank(h: Handler): (r: nat) {
    match h.pc
    case Compare => |h.messages| + 5
    case Open => |h.messages| + 4
    case Write => if h.next <= |h.messages| then |h.messages| - h.next + 3 else 3
    case Unlink => 3
    case Release => 2
    case _ => 0
  }

  /** How far it is from its end. */
  function Rank(h: Handler): (r: nat) {
    match h.pc
    case Look => |h.messages| + 7
    case Enter => |h.messages| + 6
    case Flush => 1
    case _ => SectionRank(h)
  }

  lemma MoveLowersRank(writeMap: WriteMap, disk: Disk, h: Handler, opens: bool, keep: nat)
    requires h.pc != Finished
    ensures Moved(writeMap, disk, h, opens, keep).Some?
    ensures Rank(Moved(writeMap, disk, h, opens, keep).value.h) < Rank(h)
  {
    hide Checksum;
    hide View;
  }
}
