/** The buffer of a stream that outlives the lock: what it can spoil, and the exact condition under which it cannot. */
module DfsBuffers {
  import opened Collections
  import opened Words
  import opened CrcTheorems
  import opened FileChecksum
  import opened DfsServer
  import opened DfsHandlers
  import opened DfsLocking
  import opened DfsFiles
  import opened DfsAlone

  /** Storing a file of one message. */
  function Sender(client: string, name: string, crc: Word, content: seq<Byte>): (h: Handler) {
    Handler(Storing, client, name, [FileMessage(name, client, crc, content)], Enter, 0, 0, 0, [], Ok)
  }

  /** Every Store that arrives sends the checksum of what it stores. */
  ghost predicate Honest(steps: seq<Step>) {
    forall k :: 0 <= k < |steps| && steps[k].Arrive? && steps[k].h.kind == Storing && steps[k].h.messages != [] ==>
      steps[k].h.messages[0].crc == Checksum(Local(Concat(steps[k].h.messages)))
  }

  /** Some continuation in which everybody else takes the lock cleanly and writes everything before releasing it breaks
  the promise to a Store that answered OK. */
  ghost predicate CanSpoil(s: State) {
    exists steps :: Run(s, steps).Some? && CleanRun(s, steps) && FlushedRun(s, steps) && Honest(steps)
                    && !Kept(Run(s, steps).value)
  }

  lemma InOrderNeverSpoils(s: State)
    requires LockInv(s) && FileInv(s)
    ensures !CanSpoil(s)
  {
    hide LockInv;
    hide FileInv;
    hide Kept;
    forall steps | Run(s, steps).Some? && CleanRun(s, steps) && FlushedRun(s, steps) ensures Kept(Run(s, steps).value) {
      RunKeepsFiles(s, steps);
      InvKept(Run(s, steps).value);
    }
  }

  /* ---------------------------------------------------------------- a call alone is a run */

  function KeepNothing(n: nat): (keep: nat) {
    0
  }

  /** The handler has opened its file and is on its way to OK. */
  predicate OnItsWay(h: Handler) {
    h.pc == Write || (h.pc in {Release, Flush, Finished} && h.status == Ok)
  }

  lemma MovedUnbuffered(writeMap: WriteMap, disk: Disk, h: Handler, e: Effect)
    requires h.kind == Storing && h.pc !in {Look, Unlink} && h.pending == []
    requires Moved(writeMap, disk, h, true, 0) == Some(e)
    ensures e.h.kind == Storing && e.h.pc !in {Look, Unlink, Enter} && e.h.pending == [] && e.h.name == h.name
    ensures OnItsWay(e.h) ==> OnItsWay(h) || h.pc == Open
  {
    hide View;
    hide Checksum;
    hide Put;
    hide Opened;
  }

  /** A Store that buffers nothing, run to its end. */
  lemma {:induction false} AloneRuns(s: State, k: nat) returns (steps: seq<Step>)
    requires k < |s.handlers| && s.handlers[k].kind == Storing && s.handlers[k].pc !in {Look, Unlink}
    requires s.handlers[k].pending == []
    requires s.handlers[k].pc == Enter ==> Clean(s, s.handlers[k])
    requires OnItsWay(s.handlers[k]) ==> s.handlers[k].name in s.last && s.last[s.handlers[k].name] == k
    ensures Run(s, steps).Some? && CleanRun(s, steps) && FlushedRun(s, steps)
    ensures forall j :: 0 <= j < |steps| ==> steps[j].Move?
    ensures var t, h := Run(s, steps).value, s.handlers[k];
            && |t.handlers| == |s.handlers|
            && (forall j :: 0 <= j < |s.handlers| && j != k ==> t.handlers[j] == s.handlers[j])
            && Effect(t.writeMap, t.disk, t.handlers[k]) == Alone(s.writeMap, s.disk, h, true, KeepNothing)
            && t.handlers[k].name == h.name
            && (OnItsWay(t.handlers[k]) ==> h.name in t.last && t.last[h.name] == k)
    decreases Rank(s.handlers[k])
  {
    var h, step := s.handlers[k], Move(k, true, 0);
    if h.pc == Finished {
      StopAlone(s.writeMap, s.disk, h, true, KeepNothing);
      return [];
    }
    MoveLowersRank(s.writeMap, s.disk, h, true, 0);
    var e := Moved(s.writeMap, s.disk, h, true, 0).value;
    StepAlone(s.writeMap, s.disk, h, true, KeepNothing, e);
    MovedUnbuffered(s.writeMap, s.disk, h, e);
    OneStep(s, step);
    hide Moved;
    hide Alone;
    var u := Next(s, step).value;
    var rest := AloneRuns(u, k);
    RunConcat(s, [step], rest);
    CleanConcat(s, [step], rest);
    FlushedConcat(s, [step], rest);
    return [step] + rest;
  }

  /* ---------------------------------------------------------------- the exact condition */

  function Bit(n: nat): (b: Byte) {
    Zeros(8)[n % 8 := true]
  }

  lemma ByteChecksums(a: Byte, b: Byte)
    requires a != b
    ensures Checksum(Local([a])) != Checksum(Local([b]))
  {
    assert [a] != [b] by {
      assert [a][0] == a && [b][0] == b;
    }
    assert BufferSize(1) == 1 && FileTail([a]) == FileTail([b]) == [];
    ShortChangeDetected(Local([a]), Local([b]), 0);
  }

  /** A byte with another checksum than the given one that does not start the given data. */
  lemma PickByte(crc: Word, data: seq<Byte>) returns (z: Byte)
    ensures Checksum(Local([z])) != crc && (data != [] ==> data[0] != z)
  {
    var a, b, c := Zeros(8), Bit(0), Bit(1);
    assert b[0] && !a[0] && c[1] && !a[1] && !b[1];
    ByteChecksums(a, b);
    ByteChecksums(a, c);
    ByteChecksums(b, c);
    hide Checksum;
    if Checksum(Local([a])) != crc && (data != [] ==> data[0] != a) {
      return a;
    } else if Checksum(Local([b])) != crc && (data != [] ==> data[0] != b) {
      return b;
    }
    return c;
  }

  /** Pending bytes that arrive in a file of another client's byte change it. */
  lemma LateBytesSpoil(z: Byte, at: nat, pending: seq<Byte>)
    requires pending != [] && pending[0] != z
    ensures WriteAt([z], at, pending) != [z]
  {
    if at == 0 {
      assert WriteAt([z], at, pending)[0] == pending[0];
    } else {
      assert |WriteAt([z], at, pending)| > 1;
    }
  }

  /** The state in which a Store has released the lock over pending bytes. */
  ghost predicate Overdue(s: State, i: nat)
    requires i < |s.handlers|
  {
    var h := s.handlers[i];
    && h.pc == Flush && h.pending != [] && DiskOk(s.disk) && Owner(s.writeMap, h.name) == ""
    && h.name in s.disk.names && s.disk.names[h.name] == h.node
    && forall j :: 0 <= j < |s.handlers| && s.handlers[j].name == h.name ==> !InSection(s.handlers[j])
  }

  lemma SenderSends(client: string, name: string, crc: Word, z: Byte)
    ensures var b := Sender(client, name, crc, [z]);
            && Fresh(b) && b.kind == Storing && b.pc == Enter && b.pending == [] && b.client == client && b.name == name
            && b.messages != [] && b.messages[0].crc == crc && Concat(b.messages) == [z]
  {
    assert Sender(client, name, crc, [z]).messages[1..] == [];
  }

  /** The Store that arrived last runs to its end. */
  lemma LastStores(s: State, k: nat, z: Byte) returns (steps: seq<Step>)
    requires k < |s.handlers| && Fresh(s.handlers[k]) && s.handlers[k].kind == Storing && Clean(s, s.handlers[k])
    requires var b := s.handlers[k];
             && DiskOk(s.disk) && b.name in s.disk.names && MayWrite(s.writeMap, b.client, b.name)
             && b.messages[0].crc != Checksum(OnDisk(View(s.disk), b.name)) && Concat(b.messages) == [z]
    ensures Run(s, steps).Some? && CleanRun(s, steps) && FlushedRun(s, steps)
    ensures forall j :: 0 <= j < |steps| ==> steps[j].Move?
    ensures var t, b := Run(s, steps).value, s.handlers[k];
            && |t.handlers| == |s.handlers|
            && (forall j :: 0 <= j < |s.handlers| && j != k ==> t.handlers[j] == s.handlers[j])
            && t.disk.names == s.disk.names && DiskOk(t.disk) && t.disk.nodes[s.disk.names[b.name]] == [z]
            && b.name in t.last && t.last[b.name] == k && t.handlers[k].pc == Finished && t.handlers[k].status == Ok
            && t.handlers[k].name == b.name && Concat(t.handlers[k].messages) == [z]
  {
    var b := s.handlers[k];
    hide Checksum;
    hide Concat;
    hide Clean;
    hide MayWrite;
    steps := AloneRuns(s, k);
    AcceptedAlone(s.writeMap, s.disk, b, KeepNothing);
    SameMessages(s.writeMap, s.disk, b, true, KeepNothing);
    hide Alone;
    hide Run;
    hide CleanRun;
    hide FlushedRun;
    ShownIn(Run(s, steps).value.disk, b.name);
  }

  /** A new client stores the byte z in the meantime. */
  lemma StoresMeanwhile(s: State, i: nat, z: Byte) returns (steps: seq<Step>)
    requires i < |s.handlers| && Overdue(s, i)
    requires Checksum(Local([z])) != Checksum(OnDisk(View(s.disk), s.handlers[i].name))
    ensures Run(s, steps).Some? && CleanRun(s, steps) && FlushedRun(s, steps) && Honest(steps)
    ensures var t, k, name := Run(s, steps).value, |s.handlers|, s.handlers[i].name;
            && |t.handlers| == k + 1 && t.handlers[i] == s.handlers[i] && t.disk.names == s.disk.names && DiskOk(t.disk)
            && t.disk.nodes[s.handlers[i].node] == [z]
            && name in t.last && t.last[name] == k && t.handlers[k].pc == Finished && t.handlers[k].status == Ok
            && t.handlers[k].name == name && Concat(t.handlers[k].messages) == [z]
  {
    var name, k := s.handlers[i].name, |s.handlers|;
    var b := Sender("x", name, Checksum(Local([z])), [z]);
    SenderSends("x", name, Checksum(Local([z])), z);
    hide Sender;
    hide Checksum;
    hide Concat;
    var s1 := s.(handlers := s.handlers + [b]);
    OneStep(s, Arrive(b));
    assert s1.handlers[k] == b && forall j :: 0 <= j < k ==> s1.handlers[j] == s.handlers[j];
    assert Clean(s1, b) && MayWrite(s1.writeMap, "x", name);
    hide Clean;
    hide MayWrite;
    hide Moved;
    hide Fresh;
    var rest := LastStores(s1, k, z);
    RunConcat(s, [Arrive(b)], rest);
    CleanConcat(s, [Arrive(b)], rest);
    FlushedConcat(s, [Arrive(b)], rest);
    steps := [Arrive(b)] + rest;
  }

  lemma {:induction false} SameMessages(writeMap: WriteMap, disk: Disk, h: Handler, opens: bool, keep: nat -> nat)
    ensures Alone(writeMap, disk, h, opens, keep).h.messages == h.messages
    decreases Rank(h)
  {
    if h.pc != Finished {
      MoveLowersRank(writeMap, disk, h, opens, keep(h.next));
      var e := Moved(writeMap, disk, h, opens, keep(h.next)).value;
      MovedMessages(writeMap, disk, h, opens, keep(h.next));
      hide Moved;
      SameMessages(e.writeMap, e.disk, e.h, opens, keep);
    }
  }

  lemma MovedMessages(writeMap: WriteMap, disk: Disk, h: Handler, opens: bool, keep: nat)
    requires Moved(writeMap, disk, h, opens, keep).Some?
    ensures Moved(writeMap, disk, h, opens, keep).value.h.messages == h.messages
  {
    hide View;
    hide Put;
    hide Opened;
    hide Checksum;
  }

  /** Then the stream of the first Store is closed, and its bytes land in the other one's file. */
  lemma OverdueSpoils(s: State, i: nat)
    requires i < |s.handlers| && Overdue(s, i)
    ensures CanSpoil(s)
  {
    var h, k := s.handlers[i], |s.handlers|;
    var z := PickByte(Checksum(OnDisk(View(s.disk), h.name)), h.pending);
    var steps := StoresMeanwhile(s, i, z);
    var t := Run(s, steps).value;
    var step := Move(i, true, 0);
    OneStep(t, step);
    FlushesInto(t, i, z);
    hide Moved;
    hide Checksum;
    var u := Next(t, step).value;
    RunConcat(s, steps, [step]);
    CleanConcat(s, steps, [step]);
    FlushedConcat(s, steps, [step]);
    assert !Takes(t, step) && !Releases(t, step);
    NotKept(u, h.name, k);
    assert Honest(steps + [step]);
    assert Run(s, steps + [step]) == Some(u);
  }

  lemma NotKept(s: State, name: string, k: nat)
    requires name in s.last && s.last[name] == k < |s.handlers|
    requires s.handlers[k].pc == Finished && s.handlers[k].status == Ok && !HasOwnChunks(s.disk, s.handlers[k])
    ensures !Kept(s)
  {
    hide HasOwnChunks;
  }

  lemma FlushesInto(t: State, i: nat, z: Byte)
    requires i < |t.handlers| && DiskOk(t.disk)
    requires var h := t.handlers[i];
             && h.pc == Flush && h.pending != [] && h.pending[0] != z
             && h.name in t.disk.names && t.disk.names[h.name] == h.node && t.disk.nodes[h.node] == [z]
    ensures var u, h := Next(t, Move(i, true, 0)), t.handlers[i];
            && u.Some? && |u.value.handlers| == |t.handlers| && u.value.last == t.last
            && (forall j :: 0 <= j < |t.handlers| && j != i ==> u.value.handlers[j] == t.handlers[j])
            && h.name in View(u.value.disk) && View(u.value.disk)[h.name] != [z]
  {
    var h := t.handlers[i];
    assert h.pending + [] == h.pending && h.pending[..|h.pending|] == h.pending;
    LateBytesSpoil(z, h.written, h.pending);
    hide WriteAt;
  }

  /** Releasing the lock after the writes is safe exactly if nothing is pending: otherwise, however the others behave, a
  continuation in which they all take the lock cleanly and write everything before they release it brings another Store
  to answer OK and then lose its file. */
  lemma ReleaseIsExact(s: State, i: nat, opens: bool, keep: nat)
    requires LockInv(s) && FileInv(s) && Releases(s, Move(i, opens, keep))
    ensures Next(s, Move(i, opens, keep)).Some?
    ensures s.handlers[i].pending == [] <==> !CanSpoil(Next(s, Move(i, opens, keep)).value)
  {
    StoreIsWhole(s, i, opens, keep);
    var h, t := s.handlers[i], Next(s, Move(i, opens, keep)).value;
    if h.pending == [] {
      NotTaking(s, i, opens, keep);
      StepKeepsLock(s, Move(i, opens, keep));
      StepKeepsFiles(s, Move(i, opens, keep));
      InOrderNeverSpoils(t);
    } else {
      BecomesOverdue(s, i, opens, keep);
      OverdueSpoils(t, i);
    }
  }

  lemma NotTaking(s: State, i: nat, opens: bool, keep: nat)
    requires Releases(s, Move(i, opens, keep))
    ensures !Takes(s, Move(i, opens, keep))
  {
  }

  lemma BecomesOverdue(s: State, i: nat, opens: bool, keep: nat)
    requires LockInv(s) && FileInv(s) && Releases(s, Move(i, opens, keep)) && s.handlers[i].pending != []
    ensures var t := Next(s, Move(i, opens, keep));
            t.Some? && |t.value.handlers| == |s.handlers| && Overdue(t.value, i)
  {
    hide HasOwnChunks;
    hide Checksum;
    hide Concat;
    var h := s.handlers[i];
    assert WellFormed(h) && FileOk(s, i);
    assert Last(h.messages).name == h.name;
    forall j | 0 <= j < |s.handlers| && s.handlers[j].name == h.name && j != i ensures !InSection(s.handlers[j]) {
      assert Meet(h, s.handlers[j]) ==> i == j;
    }
  }

  /** From no state of the run can the others break the promise to a Store that answered OK. */
  ghost predicate NeverSpoils(s: State, steps: seq<Step>)
    decreases |steps|
  {
    !CanSpoil(s) && (steps != [] && Next(s, steps[0]).Some? ==> NeverSpoils(Next(s, steps[0]).value, steps[1..]))
  }

  /** Over a whole run in which the lock is taken cleanly, every Store that answered OK leaves its own chunks, whatever
  such calls follow at any point of it, if and only if no lock is released while bytes are pending. */
  lemma {:induction false} WholeIffFlushed(s: State, steps: seq<Step>)
    requires LockInv(s) && FileInv(s) && CleanRun(s, steps)
    ensures NeverSpoils(s, steps) <==> FlushedRun(s, steps)
    decreases |steps|
  {
    hide LockInv;
    hide FileInv;
    hide Next;
    hide Clean;
    hide Takes;
    hide CanSpoil;
    InOrderNeverSpoils(s);
    if steps != [] && Next(s, steps[0]).Some? {
      if Releases(s, steps[0]) {
        ReleaseIsExact(s, steps[0].i, steps[0].opens, steps[0].keep);
        assert steps[0] == Move(steps[0].i, steps[0].opens, steps[0].keep);
      }
      if Releases(s, steps[0]) ==> s.handlers[steps[0].i].pending == [] {
        StepKeepsLock(s, steps[0]);
        StepKeepsFiles(s, steps[0]);
        WholeIffFlushed(Next(s, steps[0]).value, steps[1..]);
      }
    }
  }

  /** Clients that serialise their calls, and streams that are empty when the lock is released: every Store that
  answered OK leaves its own chunks, in every interleaving. */
  lemma SerialisedAndFlushedIsWhole(s: State, steps: seq<Step>)
    requires Init(s) && SerialisedRun(s, steps) && FlushedRun(s, steps) && Run(s, steps).Some?
    ensures Kept(Run(s, steps).value)
  {
    hide Kept;
    InitLock(s);
    InitFiles(s);
    SerialisedIsSafe(s, steps);
    RunKeepsFiles(s, steps);
    InvKept(Run(s, steps).value);
  }

  /* ---------------------------------------------------------------- two serialised clients */

  /** n steps of one handler whose stream keeps up to `keep` bytes. */
  function Moves(i: nat, keep: nat, n: nat): (steps: seq<Step>) {
    if n == 0 then [] else [Move(i, true, keep)] + Moves(i, keep, n - 1)
  }

  /** What n steps of a handler do with nobody else moving; None if it ends before. */
  ghost function After(writeMap: WriteMap, disk: Disk, h: Handler, keep: nat, n: nat): (r: Option<Effect>)
    decreases n
  {
    if n == 0 then Some(Effect(writeMap, disk, h))
    else match Moved(writeMap, disk, h, true, keep)
      case None => None
      case Some(e) => After(e.writeMap, e.disk, e.h, keep, n - 1)
  }

  lemma MoveNext(s: State, i: nat, keep: nat, e: Effect)
    requires i < |s.handlers| && Moved(s.writeMap, s.disk, s.handlers[i], true, keep) == Some(e)
    ensures var t := Next(s, Move(i, true, keep));
            && t.Some? && t.value.writeMap == e.writeMap && t.value.disk == e.disk
            && t.value.handlers == s.handlers[i := e.h]
  {
    hide Moved;
  }

  lemma {:induction false} MovesRun(s: State, i: nat, keep: nat, n: nat)
    requires i < |s.handlers| && After(s.writeMap, s.disk, s.handlers[i], keep, n).Some?
    ensures var e, t := After(s.writeMap, s.disk, s.handlers[i], keep, n).value, Run(s, Moves(i, keep, n));
            t.Some? && t.value.writeMap == e.writeMap && t.value.disk == e.disk && t.value.handlers == s.handlers[i := e.h]
    decreases n
  {
    hide Moved;
    hide Next;
    if n > 0 {
      var e := Moved(s.writeMap, s.disk, s.handlers[i], true, keep).value;
      MoveNext(s, i, keep, e);
      assert Moves(i, keep, n)[1..] == Moves(i, keep, n - 1);
      MovesRun(Next(s, Move(i, true, keep)).value, i, keep, n - 1);
    }
  }

  lemma StepAfter(writeMap: WriteMap, disk: Disk, h: Handler, keep: nat, n: nat, e: Effect)
    requires 0 < n && Moved(writeMap, disk, h, true, keep) == Some(e)
    ensures After(writeMap, disk, h, keep, n) == After(e.writeMap, e.disk, e.h, keep, n - 1)
  {
  }

  /** A handler that has its one message in the buffer and releases the lock. */
  function Buffered(h: Handler, content: seq<Byte>): (r: Handler) {
    h.(pc := Flush, next := 1, pending := content, status := Ok)
  }

  /** From the first write to ReleaseLock, with everything kept in the buffer. */
  lemma BuffersAndReleases(writeMap: WriteMap, disk: Disk, h: Handler, content: seq<Byte>, keep: nat, n: nat)
    requires h.pc == Write && h.kind == Storing && h.next == 0 && h.pending == [] && |h.messages| == 1
    requires h.messages[0].content == content && h.messages[0].name == h.name && |content| < keep && 3 <= n
    ensures After(writeMap, disk, h, keep, n)
         == After(Released(writeMap, h.name), disk, Buffered(h, content), keep, n - 3)
  {
    hide After;
    assert [] + content == content && content[0..] == content && content[..0] == [];
    PutNothing(disk, h.node, h.written);
    var h1 := h.(next := 1, pending := content);
    StepAfter(writeMap, disk, h, keep, n, Effect(writeMap, disk, h1));
    StepAfter(writeMap, disk, h1, keep, n - 1, Effect(writeMap, disk, h1.(pc := Release, status := Ok)));
    var h2 := h1.(pc := Release, status := Ok);
    StepAfter(writeMap, disk, h2, keep, n - 2, Effect(Released(writeMap, h.name), disk, Buffered(h, content)));
  }

  /** From CheckLock to the open. */
  lemma Opens(writeMap: WriteMap, disk: Disk, h: Handler, keep: nat, n: nat)
    requires Fresh(h) && h.kind == Storing && MayWrite(writeMap, h.client, h.name) && 3 <= n
    requires h.messages[0].crc != Checksum(OnDisk(View(disk), h.name))
    ensures var (disk', node) := Opened(disk, h.name);
            After(writeMap, disk, h, keep, n)
              == After(Locked(writeMap, h.client, h.name), disk', h.(pc := Write, node := node), keep, n - 3)
  {
    hide After;
    hide Checksum;
    hide View;
    hide Opened;
    var locked := Locked(writeMap, h.client, h.name);
    StepAfter(writeMap, disk, h, keep, n, Effect(locked, disk, h.(pc := Compare)));
    StepAfter(locked, disk, h.(pc := Compare), keep, n - 1, Effect(locked, disk, h.(pc := Open)));
    var (disk', node) := Opened(disk, h.name);
    StepAfter(locked, disk, h.(pc := Open), keep, n - 2, Effect(locked, disk', h.(pc := Write, node := node)));
  }

  /** The destructor of the stream. */
  lemma Closes(writeMap: WriteMap, name: string, file: seq<Byte>, h: Handler, keep: nat, n: nat)
    requires h.pc == Flush && h.node == h.written == 0 && 1 <= n
    ensures var e := After(writeMap, Disk(map[name := 0], [file]), h, keep, n);
            e == After(writeMap, Disk(map[name := 0], [WriteAt(file, 0, h.pending)]),
                       h.(pc := Finished, written := |h.pending|, pending := []), keep, n - 1)
  {
    hide After;
    hide WriteAt;
    var disk := Disk(map[name := 0], [file]);
    assert h.pending + [] == h.pending && h.pending[..|h.pending|] == h.pending && h.pending[|h.pending|..] == [];
    assert [file][0 := WriteAt(file, 0, h.pending)] == [WriteAt(file, 0, h.pending)];
    StepAfter(writeMap, disk, h, keep, n, Effect(writeMap, Disk(map[name := 0], [WriteAt(file, 0, h.pending)]),
                                                 h.(pc := Finished, written := |h.pending|, pending := [])));
  }

  /* ---------------------------------------------------------------- two serialised clients */

  /** Two Stores of one file, with the checksums they send. */
  function TwoStores(a: string, b: string, name: string, c: Word, x: seq<Byte>, d: Word, y: seq<Byte>): (s: State) {
    State(map[], Disk(map[], []), [Sender(a, name, c, x), Sender(b, name, d, y)], map[])
  }

  /** Two Stores, the first one closing its stream after the second one has opened the file. */
  function LateSteps(keep: nat): (steps: seq<Step>) {
    Moves(0, keep, 6) + Moves(1, keep, 3) + Moves(0, keep, 1) + Moves(1, keep, 4)
  }

  /** Two handlers of two named clients are serialised, whatever they do. */
  lemma {:induction false} TwoAreSerialised(s: State, steps: seq<Step>)
    requires |s.handlers| == 2 && WellFormed(s.handlers[0]) && WellFormed(s.handlers[1])
    requires s.handlers[0].client != "" && s.handlers[1].client != "" && s.handlers[0].client != s.handlers[1].client
    requires forall k :: 0 <= k < |steps| ==> steps[k].Move?
    ensures SerialisedRun(s, steps)
    decreases |steps|
  {
    if steps != [] && Next(s, steps[0]).Some? {
      var h, step := s.handlers[steps[0].i], steps[0];
      MovedFormed(s.writeMap, s.disk, h, step.opens, step.keep);
      hide Moved;
      hide WellFormed;
      TwoAreSerialised(Next(s, steps[0]).value, steps[1..]);
    }
  }

  lemma {:induction false} AllMoves(i: nat, keep: nat, n: nat)
    ensures forall k :: 0 <= k < |Moves(i, keep, n)| ==> Moves(i, keep, n)[k].Move?
    decreases n
  {
    if n > 0 {
      AllMoves(i, keep, n - 1);
    }
  }

  lemma SenderFormed(client: string, name: string, crc: Word, x: seq<Byte>)
    ensures var h := Sender(client, name, crc, x);
            && Fresh(h) && WellFormed(h) && h.kind == Storing && h.client == client && h.name == name
            && |h.messages| == 1 && h.messages[0] == FileMessage(name, client, crc, x) && h.written == 0
  {
  }

  lemma NewFile(a: string, b: string, name: string)
    ensures Opened(Disk(map[], []), name) == (Disk(map[name := 0], [[]]), 0)
    ensures Opened(Disk(map[name := 0], [[]]), name) == (Disk(map[name := 0], [[]]), 0)
    ensures Locked(map[], a, name) == map[name := a] && Locked(map[name := ""], b, name) == map[name := b]
    ensures Released(map[name := a], name) == map[name := ""] && Released(map[name := b], name) == map[name := ""]
    ensures name !in View(Disk(map[], [])) && OnDisk(View(Disk(map[name := 0], [[]])), name) == Local([])
  {
    var d := Disk(map[name := 0], [[]]);
    assert d.nodes[0 := []] == d.nodes;
    var empty := Disk(map[], []);
    assert empty.nodes + [[]] == [[]] && empty.names[name := 0] == map[name := 0];
    assert name in View(d) && View(d)[name] == [];
  }

  /** The first Store up to ReleaseLock. */
  lemma FirstReleases(a: string, name: string, c: Word, x: seq<Byte>, keep: nat)
    requires c != Zeros(32) && |x| < keep
    ensures After(map[], Disk(map[], []), Sender(a, name, c, x), keep, 6)
         == Some(Effect(map[name := ""], Disk(map[name := 0], [[]]), Buffered(Sender(a, name, c, x).(pc := Write), x)))
  {
    var h := Sender(a, name, c, x);
    SenderFormed(a, name, c, x);
    hide Sender;
    NewFile(a, a, name);
    MissingChecksum(View(Disk(map[], [])), name);
    hide Checksum;
    hide View;
    hide Opened;
    hide Locked;
    hide Released;
    hide WellFormed;
    assert h.node == 0 && h.next == 0 && h.pending == [];
    Opens(map[], Disk(map[], []), h, keep, 6);
    hide Fresh;
    var h1 := h.(pc := Write);
    assert h.(pc := Write, node := 0) == h1;
    BuffersAndReleases(map[name := a], Disk(map[name := 0], [[]]), h1, x, keep, 3);
  }

  /** The second one up to its open: the file is there, still empty. */
  lemma SecondOpens(b: string, name: string, d: Word, y: seq<Byte>, keep: nat)
    requires d != Zeros(32)
    ensures After(map[name := ""], Disk(map[name := 0], [[]]), Sender(b, name, d, y), keep, 3)
         == Some(Effect(map[name := b], Disk(map[name := 0], [[]]), Sender(b, name, d, y).(pc := Write, node := 0)))
  {
    var disk := Disk(map[name := 0], [[]]);
    var k := Sender(b, name, d, y);
    SenderFormed(b, name, d, y);
    hide Sender;
    NewFile(b, b, name);
    EmptyLooksMissing(map[], name);
    hide Checksum;
    hide View;
    hide Opened;
    hide Locked;
    hide WellFormed;
    Opens(map[name := ""], disk, k, keep, 3);
  }

  /** And from its write to the end. */
  lemma SecondEnds(b: string, name: string, x: seq<Byte>, d: Word, y: seq<Byte>, keep: nat)
    requires |y| < keep
    ensures var k := Sender(b, name, d, y).(pc := Write, node := 0);
            After(map[name := b], Disk(map[name := 0], [x]), k, keep, 4)
              == Some(Effect(map[name := ""], Disk(map[name := 0], [WriteAt(x, 0, y)]),
                             Buffered(k, y).(pc := Finished, written := |y|, pending := [])))
  {
    var k := Sender(b, name, d, y).(pc := Write, node := 0);
    SenderFormed(b, name, d, y);
    hide Sender;
    hide WriteAt;
    BuffersAndReleases(map[name := b], Disk(map[name := 0], [x]), k, y, keep, 4);
    assert Released(map[name := b], name) == map[name := ""];
    Closes(map[name := ""], name, x, Buffered(k, y), keep, 1);
  }

  lemma FirstCloses(a: string, b: string, name: string, c: Word, x: seq<Byte>, keep: nat)
    ensures var h := Buffered(Sender(a, name, c, x).(pc := Write), x);
            After(map[name := b], Disk(map[name := 0], [[]]), h, keep, 1)
              == Some(Effect(map[name := b], Disk(map[name := 0], [WriteAt([], 0, x)]),
                             h.(pc := Finished, written := |x|, pending := [])))
  {
    var h := Buffered(Sender(a, name, c, x).(pc := Write), x);
    hide WriteAt;
    Closes(map[name := b], name, [], h, keep, 1);
  }

  /** Whatever checksums other than 0 they send, both Stores answer OK, their clients are named and have one call each, and
  the file is the shorter content over the rest of the longer one: nobody's chunks, unless the one begins the other. */
  lemma LateFlush(a: string, b: string, name: string, c: Word, x: seq<Byte>, d: Word, y: seq<Byte>)
    requires a != "" && b != "" && a != b && 0 < |y| < |x| && c != Zeros(32) && d != Zeros(32)
    ensures var s, steps := TwoStores(a, b, name, c, x, d, y), LateSteps(|x| + 1);
            var t := Run(s, steps);
            && SerialisedRun(s, steps) && t.Some? && |t.value.handlers| == 2
            && t.value.handlers[0].pc == t.value.handlers[1].pc == Finished
            && t.value.handlers[0].status == t.value.handlers[1].status == Ok
            && View(t.value.disk) == map[name := y + x[|y|..]]
  {
    hide Sender;
    hide Checksum;
    hide Run;
    hide SerialisedRun;
    LateRun(a, b, name, c, x, d, y, |x| + 1);
    LateSerialised(a, b, name, c, x, d, y, |x| + 1);
    Overwritten(name, x, y);
    hide View;
    hide WriteAt;
  }

  lemma Overwritten(name: string, x: seq<Byte>, y: seq<Byte>)
    requires 0 < |y| < |x|
    ensures View(Disk(map[name := 0], [WriteAt(WriteAt([], 0, x), 0, y)])) == map[name := y + x[|y|..]]
  {
    assert WriteAt([], 0, x) == x && WriteAt(x, 0, y) == y + x[|y|..];
  }

  lemma LateSerialised(a: string, b: string, name: string, c: Word, x: seq<Byte>, d: Word, y: seq<Byte>, keep: nat)
    requires a != "" && b != "" && a != b
    ensures SerialisedRun(TwoStores(a, b, name, c, x, d, y), LateSteps(keep))
  {
    SenderFormed(a, name, c, x);
    SenderFormed(b, name, d, y);
    AllMoves(0, keep, 6);
    AllMoves(1, keep, 3);
    AllMoves(0, keep, 1);
    AllMoves(1, keep, 4);
    hide Sender;
    hide Moves;
    hide Checksum;
    hide WellFormed;
    TwoAreSerialised(TwoStores(a, b, name, c, x, d, y), LateSteps(keep));
  }

  lemma LateRun(a: string, b: string, name: string, c: Word, x: seq<Byte>, d: Word, y: seq<Byte>, keep: nat)
    requires |x| < keep && |y| < keep && c != Zeros(32) && d != Zeros(32)
    ensures var t := Run(TwoStores(a, b, name, c, x, d, y), LateSteps(keep));
            && t.Some? && |t.value.handlers| == 2
            && t.value.handlers[0].pc == t.value.handlers[1].pc == Finished
            && t.value.handlers[0].status == t.value.handlers[1].status == Ok
            && t.value.disk == Disk(map[name := 0], [WriteAt(WriteAt([], 0, x), 0, y)])
  {
    hide Checksum;
    hide WriteAt;
    hide Moves;
    hide After;
    hide Run;
    FirstReleases(a, name, c, x, keep);
    SecondOpens(b, name, d, y, keep);
    FirstCloses(a, b, name, c, x, keep);
    SecondEnds(b, name, WriteAt([], 0, x), d, y, keep);
    var s := TwoStores(a, b, name, c, x, d, y);
    hide Sender;
    MovesRun(s, 0, keep, 6);
    var t := Run(s, Moves(0, keep, 6)).value;
    MovesRun(t, 1, keep, 3);
    var u := Run(t, Moves(1, keep, 3)).value;
    MovesRun(u, 0, keep, 1);
    var v := Run(u, Moves(0, keep, 1)).value;
    MovesRun(v, 1, keep, 4);
    RunConcat(s, Moves(0, keep, 6), Moves(1, keep, 3));
    RunConcat(s, Moves(0, keep, 6) + Moves(1, keep, 3), Moves(0, keep, 1));
    RunConcat(s, Moves(0, keep, 6) + Moves(1, keep, 3) + Moves(0, keep, 1), Moves(1, keep, 4));
  }
}
