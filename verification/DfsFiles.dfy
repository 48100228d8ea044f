/** What a Store that answered OK leaves in its file, and what the buffer of its stream has to do with it. */
module DfsFiles {
  import opened Collections
  import opened Words
  import opened FileChecksum
  import opened DfsServer
  import opened DfsHandlers
  import opened DfsLocking

  /** The handler has the file open and holds the lock. */
  predicate Writing(h: Handler) {
    h.kind == Storing && (h.pc == Write || (h.pc == Release && h.status == Ok))
  }

  /** The file of handler i is what it wrote; with what is pending it is what it was given. */
  ghost predicate Wrote(s: State, i: nat)
    requires i < |s.handlers|
  {
    var h := s.handlers[i];
    && h.name in s.disk.names && s.disk.names[h.name] == h.node < |s.disk.nodes| && h.next <= |h.messages|
    && s.disk.nodes[h.node] + h.pending == Concat(h.messages[..h.next]) && h.written == |s.disk.nodes[h.node]|
    && h.name in s.last && s.last[h.name] == i
  }

  /** The file holds the chunks of the handler and nothing else. */
  ghost predicate HasOwnChunks(d: Disk, h: Handler) {
    h.name in View(d) && View(d)[h.name] == Concat(h.messages)
  }

  ghost predicate FileOk(s: State, i: nat)
    requires i < |s.handlers|
  {
    var h := s.handlers[i];
    && (Writing(h) ==> Wrote(s, i))
    && (h.pc == Flush ==> h.pending == [])
  }

  /** The last handler to open file n is still at it, or has left its own chunks there. */
  ghost predicate LastOk(s: State, n: string)
    requires n in s.last
  {
    && s.last[n] < |s.handlers|
    && var h := s.handlers[s.last[n]];
       && h.kind == Storing && h.name == n && h.pc in {Write, Release, Flush, Finished}
       && (h.pc != Write ==> h.status == Ok)
       && (h.pc in {Flush, Finished} ==> HasOwnChunks(s.disk, h))
  }

  ghost predicate FileInv(s: State) {
    && DiskOk(s.disk)
    && (forall i: nat :: i < |s.handlers| ==> FileOk(s, i))
    && (forall n :: n in s.last ==> LastOk(s, n))
  }

  /** What a client is promised: once its Store has answered OK, the file is the concatenation of its chunks until
  another call opens or removes it. */
  ghost predicate Kept(s: State) {
    forall n :: n in s.last && s.last[n] < |s.handlers| ==>
      var h := s.handlers[s.last[n]]; h.pc == Finished && h.status == Ok ==> HasOwnChunks(s.disk, h)
  }

  lemma InvKept(s: State)
    requires FileInv(s)
    ensures Kept(s)
  {
    hide HasOwnChunks;
    forall n | n in s.last && s.last[n] < |s.handlers|
      ensures s.handlers[s.last[n]].pc == Finished && s.handlers[s.last[n]].status == Ok ==>
                HasOwnChunks(s.disk, s.handlers[s.last[n]])
    {
      assert LastOk(s, n);
    }
  }

  /* ---------------------------------------------------------------- what a step leaves alone */

  /** The directory entry and the content of file n. */
  ghost predicate SameFile(d: Disk, d': Disk, n: string) {
    && (n in d'.names <==> n in d.names)
    && (n in d.names ==> d'.names[n] == d.names[n]
                         && (d.names[n] < |d.nodes| ==>
                               d.names[n] < |d'.nodes| && d'.nodes[d.names[n]] == d.nodes[d.names[n]]))
  }

  ghost predicate Spares(s: State, s': State, n: string) {
    Owner(s'.writeMap, n) == Owner(s.writeMap, n) && SameFile(s.disk, s'.disk, n)
  }

  lemma OpenedFile(d: Disk, name: string)
    requires DiskOk(d)
    ensures var (d', node) := Opened(d, name);
            && DiskOk(d') && name in d'.names && d'.names[name] == node < |d'.nodes| && d'.nodes[node] == []
            && (name in d.names ==> d'.names == d.names)
            && forall n :: n != name ==> SameFile(d, d', n)
  {
  }

  lemma PutFile(d: Disk, name: string, node: nat, at: nat, data: seq<Byte>)
    requires DiskOk(d) && name in d.names && d.names[name] == node
    ensures var d' := Put(d, node, at, data);
            && DiskOk(d') && d'.names == d.names && d'.nodes[node] == WriteAt(d.nodes[node], at, data)
            && forall n :: n != name ==> SameFile(d, d', n)
  {
    hide WriteAt;
  }

  lemma PutNothing(d: Disk, node: nat, at: nat)
    ensures Put(d, node, at, []) == d
  {
  }

  /* ---------------------------------------------------------------- every step keeps the files */

  /** The step of handler i is confined to its own file, which nobody else is writing. */
  ghost predicate Confined(s: State, s': State, i: nat)
    requires i < |s.handlers|
  {
    var name := s.handlers[i].name;
    && |s'.handlers| == |s.handlers| && s'.handlers == s.handlers[i := s'.handlers[i]] && DiskOk(s'.disk)
    && (forall n :: n != name ==> SameFile(s.disk, s'.disk, n))
    && (forall n :: n != name ==> (n in s'.last <==> n in s.last) && (n in s.last ==> s'.last[n] == s.last[n]))
    && ((s'.disk == s.disk && s'.last == s.last) || InSection(s.handlers[i]))
  }

  lemma ConfinedKeeps(s: State, s': State, i: nat)
    requires LockInv(s) && FileInv(s) && i < |s.handlers| && Confined(s, s', i)
    requires FileOk(s', i) && (s.handlers[i].name in s'.last ==> LastOk(s', s.handlers[i].name))
    ensures FileInv(s')
  {
    hide WellFormed;
    hide Holds;
    var name := s.handlers[i].name;
    forall j: nat | j < |s'.handlers| && j != i ensures FileOk(s', j) {
      assert FileOk(s, j);
      if Writing(s.handlers[j]) && InSection(s.handlers[i]) {
        assert Meet(s.handlers[i], s.handlers[j]) ==> i == j;
        assert SameFile(s.disk, s'.disk, s.handlers[j].name);
      }
    }
    forall n | n in s'.last && n != name ensures LastOk(s', n) {
      assert LastOk(s, n) && SameFile(s.disk, s'.disk, n);
    }
  }

  /** The steps that leave the disk alone. */
  predicate LeavesDisk(h: Handler, opens: bool) {
    match h.pc
    case Open => !opens
    case Write => h.next >= |h.messages|
    case Unlink => false
    case _ => true
  }

  /** What the handler is after such a step. */
  lemma LeavingDisk(s: State, i: nat, opens: bool, keep: nat)
    requires i < |s.handlers| && Next(s, Move(i, opens, keep)).Some? && LeavesDisk(s.handlers[i], opens)
    requires s.handlers[i].pc == Flush ==> s.handlers[i].pending == []
    ensures var s', h := Next(s, Move(i, opens, keep)).value, s.handlers[i];
            var h' := s'.handlers[i];
            && s'.disk == s.disk && s'.last == s.last && s'.handlers == s.handlers[i := h']
            && (h.pc !in {Write, Release, Flush, Finished} ==>
                  h'.pc !in {Write, Flush} && (h.kind == Storing && h'.pc == Release ==> h'.status != Ok))
            && (h.pc == Write ==> h' == h.(pc := Release, status := Ok))
            && (h.pc == Release ==> h' == h.(pc := if Stores(h) then Flush else Finished))
            && (h.pc == Flush ==> h'.pc == Finished && h' == h.(pc := Finished, written := h'.written, pending := []))
  {
    hide Checksum;
    hide View;
    hide MayWrite;
    var h := s.handlers[i];
    if h.pc == Flush {
      PutNothing(s.disk, h.node, h.written);
    }
    hide Put;
  }

  lemma LeavingFileOk(s: State, s': State, i: nat)
    requires LockInv(s) && FileInv(s) && i < |s.handlers| == |s'.handlers| && s'.disk == s.disk && s'.last == s.last
    requires s'.handlers == s.handlers[i := s'.handlers[i]]
    requires var h, h' := s.handlers[i], s'.handlers[i];
             && (h.pc !in {Write, Release, Flush, Finished} ==>
                  h'.pc !in {Write, Flush} && (h.kind == Storing && h'.pc == Release ==> h'.status != Ok))
             && (h.pc == Write ==> h' == h.(pc := Release, status := Ok))
             && (h.pc == Release ==> h' == h.(pc := if Stores(h) then Flush else Finished))
             && (h.pc == Release && Stores(h) ==> h.pending == [])
             && (h.pc == Flush ==> h'.pc == Finished && h' == h.(pc := Finished, written := h'.written, pending := []))
             && h'.kind == h.kind && h'.name == h.name && h.pc != Finished
    ensures FileOk(s', i) && (s.handlers[i].name in s'.last ==> LastOk(s', s.handlers[i].name))
  {
    var h := s.handlers[i];
    assert FileOk(s, i);
    assert h.name in s.last ==> LastOk(s, h.name);
    if h.pc == Release && Stores(h) {
      OwnChunks(s, i);
    }
    hide FileInv;
    hide LockInv;
    hide Concat;
    hide View;
  }

  lemma LeavingDiskKeeps(s: State, i: nat, opens: bool, keep: nat)
    requires LockInv(s) && FileInv(s) && Next(s, Move(i, opens, keep)).Some? && LeavesDisk(s.handlers[i], opens)
    requires Releases(s, Move(i, opens, keep)) ==> s.handlers[i].pending == []
    ensures FileInv(Next(s, Move(i, opens, keep)).value) && Confined(s, Next(s, Move(i, opens, keep)).value, i)
  {
    var h, s' := s.handlers[i], Next(s, Move(i, opens, keep)).value;
    assert h.pc == Flush ==> h.pending == [] by {
      assert FileOk(s, i);
    }
    assert WellFormed(h);
    LeavingDisk(s, i, opens, keep);
    MovedFormed(s.writeMap, s.disk, h, opens, keep);
    assert h.pc != Finished;
    hide Next;
    hide Moved;
    hide WellFormed;
    hide LockInv;
    assert DiskOk(s.disk);
    LeavingFileOk(s, s', i);
    hide FileInv;
    hide FileOk;
    hide LastOk;
    DiskSame(s.disk);
    hide SameFile;
    ConfinedKeeps(s, s', i);
  }

  lemma DiskSame(d: Disk)
    ensures forall n :: SameFile(d, d, n)
  {
  }

  /** A Store about to release the lock finds its own chunks in the file exactly if nothing is pending. */
  lemma OwnChunks(s: State, i: nat)
    requires LockInv(s) && FileInv(s) && i < |s.handlers| && s.handlers[i].pc == Release && Stores(s.handlers[i])
    ensures HasOwnChunks(s.disk, s.handlers[i]) <==> s.handlers[i].pending == []
  {
    var h := s.handlers[i];
    assert FileOk(s, i) && WellFormed(h);
    hide Concat;
    assert h.messages[..h.next] == h.messages;
    assert |s.disk.nodes[h.node] + h.pending| == |s.disk.nodes[h.node]| + |h.pending|;
    if h.pending == [] {
      assert s.disk.nodes[h.node] + [] == s.disk.nodes[h.node];
    }
  }

  lemma OpenKeeps(s: State, i: nat, keep: nat)
    requires LockInv(s) && FileInv(s) && i < |s.handlers| && s.handlers[i].pc == Open
    ensures Next(s, Move(i, true, keep)).Some?
    ensures FileInv(Next(s, Move(i, true, keep)).value) && Confined(s, Next(s, Move(i, true, keep)).value, i)
  {
    var h, s' := s.handlers[i], Next(s, Move(i, true, keep)).value;
    assert WellFormed(h);
    assert DiskOk(s.disk);
    OpenedFile(s.disk, h.name);
    hide Opened;
    hide SameFile;
    hide Checksum;
    assert h.messages[..0] == [] && Concat([]) == [];
    hide Concat;
    assert Confined(s, s', i);
    hide HasOwnChunks;
    hide FileInv;
    hide LockInv;
    ConfinedKeeps(s, s', i);
  }

  /** The bytes that leave the buffer are appended to the file. */
  lemma Appends(file: seq<Byte>, bytes: seq<Byte>, k: nat)
    requires k <= |bytes|
    ensures WriteAt(file, |file|, bytes[..k]) == file + bytes[..k]
    ensures WriteAt(file, |file|, bytes[..k]) + bytes[k..] == file + bytes
  {
    assert file[..|file|] == file;
    assert bytes[..k] + bytes[k..] == bytes;
  }

  lemma NextChunk(messages: seq<FileMessage>, next: nat, file: seq<Byte>, pending: seq<Byte>)
    requires next < |messages| && file + pending == Concat(messages[..next])
    ensures file + (pending + messages[next].content) == Concat(messages[..next + 1])
  {
    ConcatAppend(messages[..next], messages[next]);
    assert messages[..next] + [messages[next]] == messages[..next + 1];
    hide Concat;
    assert file + (pending + messages[next].content) == file + pending + messages[next].content;
  }

  /** One write of the stream, on the disk alone. */
  lemma StreamedFile(d: Disk, h: Handler, data: seq<Byte>, keep: nat)
    requires DiskOk(d) && h.name in d.names && d.names[h.name] == h.node && h.written == |d.nodes[h.node]|
    ensures var (d', h') := Streamed(d, h, data, keep);
            && DiskOk(d') && d'.names == d.names && (forall n :: n != h.name ==> SameFile(d, d', n))
            && d'.nodes[h.node] + h'.pending == d.nodes[h.node] + (h.pending + data)
            && h'.written == |d'.nodes[h.node]| && h' == h.(written := h'.written, pending := h'.pending)
  {
    var bytes := h.pending + data;
    var k := if keep <= |bytes| then |bytes| - keep else 0;
    PutFile(d, h.name, h.node, h.written, bytes[..k]);
    Appends(d.nodes[h.node], bytes, k);
    hide WriteAt;
    hide Put;
  }

  lemma WriteKeeps(s: State, i: nat, opens: bool, keep: nat)
    requires LockInv(s) && FileInv(s) && i < |s.handlers| && s.handlers[i].pc == Write
    requires s.handlers[i].next < |s.handlers[i].messages|
    ensures Next(s, Move(i, opens, keep)).Some?
    ensures FileInv(Next(s, Move(i, opens, keep)).value) && Confined(s, Next(s, Move(i, opens, keep)).value, i)
  {
    var h, s' := s.handlers[i], Next(s, Move(i, opens, keep)).value;
    assert WellFormed(h) && FileOk(s, i) && LastOk(s, h.name);
    StreamedFile(s.disk, h, h.messages[h.next].content, keep);
    NextChunk(h.messages, h.next, s.disk.nodes[h.node], h.pending);
    hide Streamed;
    hide HasOwnChunks;
    hide Concat;
    ConfinedKeeps(s, s', i);
  }

  lemma UnlinkKeeps(s: State, i: nat, opens: bool, keep: nat)
    requires LockInv(s) && FileInv(s) && i < |s.handlers| && s.handlers[i].pc == Unlink
    ensures Next(s, Move(i, opens, keep)).Some?
    ensures FileInv(Next(s, Move(i, opens, keep)).value) && Confined(s, Next(s, Move(i, opens, keep)).value, i)
  {
    var h, s' := s.handlers[i], Next(s, Move(i, opens, keep)).value;
    assert WellFormed(h) && DiskOk(s.disk);
    var disk := s.disk.(names := s.disk.names - {h.name});
    assert s' == State(s.writeMap, disk, s.handlers[i := h.(pc := Release, status := Ok)], s.last - {h.name});
    hide Next;
    hide Moved;
    hide LockInv;
    hide WellFormed;
    hide FileInv;
    Unlinked(s.disk, h.name);
    hide SameFile;
    hide DiskOk;
    assert Confined(s, s', i);
    assert FileOk(s', i);
    ConfinedKeeps(s, s', i);
  }

  lemma Unlinked(d: Disk, name: string)
    requires DiskOk(d)
    ensures var d' := d.(names := d.names - {name}); DiskOk(d') && forall n :: n != name ==> SameFile(d, d', n)
  {
  }

  lemma ArriveKeepsFiles(s: State, h: Handler)
    requires FileInv(s) && Fresh(h)
    ensures FileInv(s.(handlers := s.handlers + [h]))
  {
    hide HasOwnChunks;
    var s' := s.(handlers := s.handlers + [h]);
    forall i: nat | i < |s'.handlers| ensures FileOk(s', i) {
      assert i < |s.handlers| ==> FileOk(s, i);
    }
    forall n | n in s'.last ensures LastOk(s', n) {
      assert LastOk(s, n);
    }
  }

  /** Every step keeps the files in order, as long as no lock is released while bytes are pending. */
  lemma StepKeepsFiles(s: State, step: Step)
    requires LockInv(s) && FileInv(s) && Next(s, step).Some?
    requires Releases(s, step) ==> s.handlers[step.i].pending == []
    ensures FileInv(Next(s, step).value)
    ensures step.Move? ==> step.i < |s.handlers| && Confined(s, Next(s, step).value, step.i)
  {
    if step.Arrive? {
      ArriveKeepsFiles(s, step.h);
    } else {
      var h := s.handlers[step.i];
      hide LockInv;
      hide FileInv;
      hide Moved;
      if LeavesDisk(h, step.opens) {
        LeavingDiskKeeps(s, step.i, step.opens, step.keep);
      } else if h.pc == Open {
        OpenKeeps(s, step.i, step.keep);
      } else if h.pc == Write {
        WriteKeeps(s, step.i, step.opens, step.keep);
      } else {
        UnlinkKeeps(s, step.i, step.opens, step.keep);
      }
    }
  }

  lemma {:induction false} RunKeepsFiles(s: State, steps: seq<Step>)
    requires LockInv(s) && FileInv(s) && Run(s, steps).Some? && CleanRun(s, steps) && FlushedRun(s, steps)
    ensures FileInv(Run(s, steps).value)
    decreases |steps|
  {
    hide LockInv;
    hide FileInv;
    hide Next;
    hide Clean;
    hide Takes;
    hide Releases;
    if steps != [] {
      StepKeepsLock(s, steps[0]);
      StepKeepsFiles(s, steps[0]);
      RunKeepsFiles(Next(s, steps[0]).value, steps[1..]);
    }
  }

  lemma InitFiles(s: State)
    requires Init(s)
    ensures FileInv(s)
  {
  }

  /* ---------------------------------------------------------------- what nobody else touches */

  /** While a handler is in its section no other one touches its lock or its file. */
  lemma Undisturbed(s: State, i: nat, j: nat, opens: bool, keep: nat)
    requires LockInv(s) && FileInv(s) && i < |s.handlers| && j < |s.handlers| && i != j && InSection(s.handlers[i])
    requires Next(s, Move(j, opens, keep)).Some?
    requires Releases(s, Move(j, opens, keep)) ==> s.handlers[j].pending == []
    ensures Spares(s, Next(s, Move(j, opens, keep)).value, s.handlers[i].name)
  {
    var h, k := s.handlers[i], s.handlers[j];
    StepKeepsFiles(s, Move(j, opens, keep));
    hide FileInv;
    DiskSame(s.disk);
    assert Holds(s.writeMap, h) && WellFormed(k);
    assert Meet(h, k) ==> i == j;
    MovedLock(s.writeMap, s.disk, k, opens, keep);
    hide Moved;
    hide SameFile;
    hide WellFormed;
  }

  /** A client that was granted the lock finds its file as it was, whatever handlers of other clients do. */
  lemma GrantedIsSpared(s: State, j: nat, opens: bool, keep: nat, n: string)
    requires LockInv(s) && FileInv(s) && Owner(s.writeMap, n) != "" && Next(s, Move(j, opens, keep)).Some?
    requires s.handlers[j].client != Owner(s.writeMap, n)
    requires Releases(s, Move(j, opens, keep)) ==> s.handlers[j].pending == []
    ensures Spares(s, Next(s, Move(j, opens, keep)).value, n)
  {
    StepKeepsFiles(s, Move(j, opens, keep));
    OwnerStays(s, j, opens, keep, n);
    assert Holds(s.writeMap, s.handlers[j]);
    DiskSame(s.disk);
    hide FileInv;
    hide Moved;
    hide SameFile;
    hide WellFormed;
  }

  /** A Store that releases the lock after its writes leaves the lock free, and its own chunks in the file exactly if
  nothing is pending. */
  lemma StoreIsWhole(s: State, i: nat, opens: bool, keep: nat)
    requires LockInv(s) && FileInv(s) && Releases(s, Move(i, opens, keep))
    ensures var next, h := Next(s, Move(i, opens, keep)), s.handlers[i];
            && next.Some? && next.value.handlers[i] == h.(pc := Flush) && Owner(next.value.writeMap, h.name) == ""
            && next.value.disk == s.disk
            && (HasOwnChunks(next.value.disk, h) <==> h.pending == [])
  {
    OwnChunks(s, i);
    assert WellFormed(s.handlers[i]);
    hide HasOwnChunks;
    hide Checksum;
  }
}
