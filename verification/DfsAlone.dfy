/** A call of the file server that nobody interferes with: its handler does what the server's method does, however its
stream buffers. */
module DfsAlone {
  import opened Collections
  import opened Words
  import opened FileChecksum
  import opened DfsServer
  import opened DfsHandlers
  import opened DfsLocking
  import opened DfsFiles

  /** The lock map, the disk and the handler after it has run to its end; `keep` says how much each write leaves in the
  buffer. */
  ghost function Alone(writeMap: WriteMap, disk: Disk, h: Handler, opens: bool, keep: nat -> nat): (e: Effect)
    decreases Rank(h)
  {
    if h.pc == Finished then Effect(writeMap, disk, h)
    else
      MoveLowersRank(writeMap, disk, h, opens, keep(h.next));
      var e := Moved(writeMap, disk, h, opens, keep(h.next)).value;
      Alone(e.writeMap, e.disk, e.h, opens, keep)
  }

  lemma StepAlone(writeMap: WriteMap, disk: Disk, h: Handler, opens: bool, keep: nat -> nat, e: Effect)
    requires h.pc != Finished && Moved(writeMap, disk, h, opens, keep(h.next)) == Some(e)
    ensures Alone(writeMap, disk, h, opens, keep) == Alone(e.writeMap, e.disk, e.h, opens, keep)
  {
  }

  lemma StopAlone(writeMap: WriteMap, disk: Disk, h: Handler, opens: bool, keep: nat -> nat)
    requires h.pc == Finished
    ensures Alone(writeMap, disk, h, opens, keep) == Effect(writeMap, disk, h)
  {
  }

  /** Releasing without a stream. */
  lemma ReleaseAlone(writeMap: WriteMap, disk: Disk, h: Handler, opens: bool, keep: nat -> nat)
    requires h.pc == Release && !Stores(h)
    ensures Alone(writeMap, disk, h, opens, keep) == Effect(Released(writeMap, h.name), disk, h.(pc := Finished))
  {
    var e := Effect(Released(writeMap, h.name), disk, h.(pc := Finished));
    StepAlone(writeMap, disk, h, opens, keep, e);
    StopAlone(e.writeMap, e.disk, e.h, opens, keep);
  }

  /** The last steps of a Store: ReleaseLock, and then the destructor of the stream. */
  lemma CloseAlone(writeMap: WriteMap, disk: Disk, h: Handler, opens: bool, keep: nat -> nat)
    requires h.pc == Release && Stores(h)
    requires DiskOk(disk) && h.name in disk.names && disk.names[h.name] == h.node && h.written == |disk.nodes[h.node]|
    ensures var e := Alone(writeMap, disk, h, opens, keep);
            && e.writeMap == Released(writeMap, Last(h.messages).name) && e.h.pc == Finished && e.h.status == Ok
            && DiskOk(e.disk) && e.disk.names == disk.names && (forall n :: n != h.name ==> SameFile(disk, e.disk, n))
            && e.disk.nodes[h.node] == disk.nodes[h.node] + h.pending
  {
    var released, h1 := Released(writeMap, Last(h.messages).name), h.(pc := Flush);
    StepAlone(writeMap, disk, h, opens, keep, Effect(released, disk, h1));
    StreamedFile(disk, h1, [], 0);
    var (disk', h2) := Streamed(disk, h1, [], 0);
    assert h2.pending == [] && h.pending + [] == h.pending && disk'.nodes[h.node] + [] == disk'.nodes[h.node];
    hide Streamed;
    StepAlone(released, disk, h1, opens, keep, Effect(released, disk', h2.(pc := Finished)));
    StopAlone(released, disk', h2.(pc := Finished), opens, keep);
  }

  lemma {:induction false} WritesAlone(writeMap: WriteMap, disk: Disk, h: Handler, opens: bool, keep: nat -> nat)
    requires h.pc == Write && h.kind == Storing && h.next <= |h.messages|
    requires DiskOk(disk) && h.name in disk.names && disk.names[h.name] == h.node && h.written == |disk.nodes[h.node]|
    requires disk.nodes[h.node] + h.pending == Concat(h.messages[..h.next])
    ensures var e := Alone(writeMap, disk, h, opens, keep);
            && e.writeMap == Released(writeMap, Last(h.messages).name) && e.h.pc == Finished && e.h.status == Ok
            && DiskOk(e.disk) && e.disk.names == disk.names && (forall n :: n != h.name ==> SameFile(disk, e.disk, n))
            && e.disk.nodes[h.node] == Concat(h.messages)
    decreases |h.messages| - h.next
  {
    hide Concat;
    if h.next == |h.messages| {
      var h1 := h.(pc := Release, status := Ok);
      StepAlone(writeMap, disk, h, opens, keep, Effect(writeMap, disk, h1));
      CloseAlone(writeMap, disk, h1, opens, keep);
      assert h.messages[..h.next] == h.messages;
    } else {
      var data := h.messages[h.next].content;
      StreamedFile(disk, h, data, keep(h.next));
      NextChunk(h.messages, h.next, disk.nodes[h.node], h.pending);
      var (disk', h1) := Streamed(disk, h, data, keep(h.next));
      StepAlone(writeMap, disk, h, opens, keep, Effect(writeMap, disk', h1.(next := h.next + 1)));
      hide Streamed;
      WritesAlone(writeMap, disk', h1.(next := h.next + 1), opens, keep);
      hide Alone;
      SameFileTwice(disk, disk', Alone(writeMap, disk, h, opens, keep).disk, h.name);
    }
  }

  lemma SameFileTwice(d: Disk, d': Disk, d'': Disk, name: string)
    requires DiskOk(d) && DiskOk(d')
    requires forall n :: n != name ==> SameFile(d, d', n)
    requires forall n :: n != name ==> SameFile(d', d'', n)
    ensures forall n :: n != name ==> SameFile(d, d'', n)
  {
    forall n | n != name ensures SameFile(d, d'', n) {
      assert SameFile(d, d', n) && SameFile(d', d'', n);
    }
  }

  lemma ShownSame(d: Disk, d': Disk, n: string)
    requires DiskOk(d) && DiskOk(d') && SameFile(d, d', n)
    ensures n in View(d') <==> n in View(d)
    ensures n in View(d) ==> View(d')[n] == View(d)[n]
  {
  }

  /** What the directory shows when only one file was stored or removed. */
  lemma ViewAfter(d: Disk, d': Disk, name: string)
    requires DiskOk(d) && DiskOk(d') && forall n :: n != name ==> SameFile(d, d', n)
    ensures name in d'.names ==> View(d') == View(d)[name := d'.nodes[d'.names[name]]]
    ensures name !in d'.names ==> View(d') == View(d) - {name}
  {
    forall n | n != name
      ensures (n in View(d') <==> n in View(d)) && (n in View(d) ==> View(d')[n] == View(d)[n])
    {
      ShownSame(d, d', n);
    }
    if name in d'.names {
      ShownIn(d', name);
    } else {
      assert name !in View(d');
    }
    hide SameFile;
    hide DiskOk;
    hide View;
  }

  lemma ShownIn(d: Disk, name: string)
    requires DiskOk(d) && name in d.names
    ensures name in View(d) && View(d)[name] == d.nodes[d.names[name]]
  {
  }

  /** From CheckLock to the first write. */
  lemma OpenAlone(writeMap: WriteMap, disk: Disk, h: Handler, opens: bool, keep: nat -> nat)
    requires Fresh(h) && h.kind == Storing && opens && MayWrite(writeMap, h.client, h.name)
    requires h.messages[0].crc != Checksum(OnDisk(View(disk), h.name))
    ensures var (disk', node) := Opened(disk, h.name);
            Alone(writeMap, disk, h, opens, keep)
              == Alone(Locked(writeMap, h.client, h.name), disk', h.(pc := Write, node := node), opens, keep)
  {
    hide Checksum;
    hide View;
    hide Opened;
    hide Alone;
    var locked := Locked(writeMap, h.client, h.name);
    StepAlone(writeMap, disk, h, opens, keep, Effect(locked, disk, h.(pc := Compare)));
    StepAlone(locked, disk, h.(pc := Compare), opens, keep, Effect(locked, disk, h.(pc := Open)));
    var (disk', node) := Opened(disk, h.name);
    StepAlone(locked, disk, h.(pc := Open), opens, keep, Effect(locked, disk', h.(pc := Write, node := node)));
  }

  lemma RefusedAlone(writeMap: WriteMap, disk: Disk, h: Handler, opens: bool, keep: nat -> nat)
    requires Fresh(h) && h.kind == Storing && MayWrite(writeMap, h.client, h.name)
    requires !opens || h.messages[0].crc == Checksum(OnDisk(View(disk), h.name))
    ensures var e := Alone(writeMap, disk, h, opens, keep);
            && e.writeMap == Released(Locked(writeMap, h.client, h.name), h.name) && e.disk == disk
            && e.h.status == if h.messages[0].crc == Checksum(OnDisk(View(disk), h.name)) then AlreadyExists else Cancelled
  {
    hide Checksum;
    hide View;
    hide Opened;
    hide Alone;
    var locked := Locked(writeMap, h.client, h.name);
    StepAlone(writeMap, disk, h, opens, keep, Effect(locked, disk, h.(pc := Compare)));
    if h.messages[0].crc == Checksum(OnDisk(View(disk), h.name)) {
      StepAlone(locked, disk, h.(pc := Compare), opens, keep, Effect(locked, disk, h.(pc := Release, status := AlreadyExists)));
      ReleaseAlone(locked, disk, h.(pc := Release, status := AlreadyExists), opens, keep);
    } else {
      StepAlone(locked, disk, h.(pc := Compare), opens, keep, Effect(locked, disk, h.(pc := Open)));
      StepAlone(locked, disk, h.(pc := Open), opens, keep, Effect(locked, disk, h.(pc := Release, status := Cancelled)));
      ReleaseAlone(locked, disk, h.(pc := Release, status := Cancelled), opens, keep);
    }
  }

  lemma LockedOutAlone(writeMap: WriteMap, disk: Disk, h: Handler, opens: bool, keep: nat -> nat)
    requires h.pc == Enter && !MayWrite(writeMap, h.client, h.name)
    ensures Alone(writeMap, disk, h, opens, keep) == Effect(writeMap, disk, End(h, ResourceExhausted))
  {
    StepAlone(writeMap, disk, h, opens, keep, Effect(writeMap, disk, End(h, ResourceExhausted)));
    StopAlone(writeMap, disk, End(h, ResourceExhausted), opens, keep);
  }

  /** A Store that is granted the lock, is no repeat and can open its file. */
  lemma AcceptedAlone(writeMap: WriteMap, disk: Disk, h: Handler, keep: nat -> nat)
    requires DiskOk(disk) && Fresh(h) && h.kind == Storing && MayWrite(writeMap, h.client, h.name)
    requires h.messages[0].crc != Checksum(OnDisk(View(disk), h.name))
    ensures var e := Alone(writeMap, disk, h, true, keep);
            && e.writeMap == Released(Locked(writeMap, h.client, h.name), h.name) && e.h.pc == Finished && e.h.status == Ok
            && DiskOk(e.disk) && View(e.disk) == View(disk)[h.name := Concat(h.messages)]
            && (h.name in disk.names ==> e.disk.names == disk.names)
  {
    OpenAlone(writeMap, disk, h, true, keep);
    OpenedFile(disk, h.name);
    var (disk', node) := Opened(disk, h.name);
    hide Opened;
    hide Checksum;
    var h1 := h.(pc := Write, node := node);
    assert h.messages[..0] == [] && Concat([]) == [] && disk'.nodes[node] + h1.pending == [];
    hide Concat;
    WritesAlone(Locked(writeMap, h.client, h.name), disk', h1, true, keep);
    assert Last(h.messages).name == h.name;
    hide Alone;
    var e := Alone(writeMap, disk, h, true, keep);
    SameFileTwice(disk, disk', e.disk, h.name);
    ViewAfter(disk, e.disk, h.name);
  }

  /** A Store nobody interferes with answers, writes and releases as the method of the server does. */
  lemma StoreAlone(writeMap: WriteMap, disk: Disk, h: Handler, opens: bool, keep: nat -> nat)
    requires DiskOk(disk) && Fresh(h) && h.kind == Storing
    ensures var e := Alone(writeMap, disk, h, opens, keep);
            var granted := MayWrite(writeMap, h.client, h.name);
            var same := h.messages[0].crc == Checksum(OnDisk(View(disk), h.name));
            && e.h.status == (if !granted then ResourceExhausted else if same then AlreadyExists
                              else if opens then Ok else Cancelled)
            && View(e.disk) == (if e.h.status == Ok then View(disk)[h.name := Concat(h.messages)] else View(disk))
            && forall n :: Owner(e.writeMap, n) == if granted && n == h.name then "" else Owner(writeMap, n)
  {
    hide Alone;
    hide Concat;
    hide Checksum;
    hide View;
    if !MayWrite(writeMap, h.client, h.name) {
      LockedOutAlone(writeMap, disk, h, opens, keep);
    } else if opens && h.messages[0].crc != Checksum(OnDisk(View(disk), h.name)) {
      AcceptedAlone(writeMap, disk, h, keep);
    } else {
      RefusedAlone(writeMap, disk, h, opens, keep);
    }
  }

  /** The same for a Delete: a missing file leaves the lock as it was. */
  lemma DeleteAlone(writeMap: WriteMap, disk: Disk, h: Handler, opens: bool, keep: nat -> nat)
    requires DiskOk(disk) && Fresh(h) && h.kind == Deleting
    ensures var e := Alone(writeMap, disk, h, opens, keep);
            && e.h.status == (if h.name !in View(disk) then NotFound
                              else if MayWrite(writeMap, h.client, h.name) then Ok else ResourceExhausted)
            && View(e.disk) == (if e.h.status == Ok then View(disk) - {h.name} else View(disk))
            && forall n :: Owner(e.writeMap, n) == if e.h.status == Ok && n == h.name then "" else Owner(writeMap, n)
  {
    hide Alone;
    hide Checksum;
    if h.name !in View(disk) {
      StepAlone(writeMap, disk, h, opens, keep, Effect(writeMap, disk, End(h, NotFound)));
      StopAlone(writeMap, disk, End(h, NotFound), opens, keep);
    } else {
      var h1 := h.(pc := Enter);
      StepAlone(writeMap, disk, h, opens, keep, Effect(writeMap, disk, h1));
      if !MayWrite(writeMap, h.client, h.name) {
        LockedOutAlone(writeMap, disk, h1, opens, keep);
      } else {
        var locked, disk' := Locked(writeMap, h.client, h.name), disk.(names := disk.names - {h.name});
        var h2 := h.(pc := Release, status := Ok);
        StepAlone(writeMap, disk, h1, opens, keep, Effect(locked, disk, h.(pc := Unlink)));
        StepAlone(locked, disk, h.(pc := Unlink), opens, keep, Effect(locked, disk', h2));
        ReleaseAlone(locked, disk', h2, opens, keep);
        ViewAfter(disk, disk', h.name);
      }
    }
  }

  /** A WriteLock: it answers OK and leaves the client the owner exactly if the lock was free or the client's own. */
  lemma LockAlone(writeMap: WriteMap, disk: Disk, h: Handler, opens: bool, keep: nat -> nat)
    requires Fresh(h) && h.kind == Locking
    ensures var e := Alone(writeMap, disk, h, opens, keep);
            var granted := Owner(writeMap, h.name) == "" || Owner(writeMap, h.name) == h.client;
            && e.h.status == (if granted then Ok else ResourceExhausted) && e.h.pc == Finished && e.disk == disk
            && forall n :: Owner(e.writeMap, n) == if granted && n == h.name then h.client else Owner(writeMap, n)
  {
    hide Alone;
    if MayWrite(writeMap, h.client, h.name) {
      var locked := Locked(writeMap, h.client, h.name);
      StepAlone(writeMap, disk, h, opens, keep, Effect(locked, disk, End(h, Ok)));
      StopAlone(locked, disk, End(h, Ok), opens, keep);
    } else {
      LockedOutAlone(writeMap, disk, h, opens, keep);
    }
  }

  lemma {:induction false} MovesAlone(s: State, k: nat, opens: bool, keep: nat -> nat) returns (steps: seq<Step>)
    requires k < |s.handlers|
    ensures Run(s, steps).Some?
    ensures var t := Run(s, steps).value;
            && |t.handlers| == |s.handlers|
            && (forall j :: 0 <= j < |s.handlers| && j != k ==> t.handlers[j] == s.handlers[j])
            && Effect(t.writeMap, t.disk, t.handlers[k]) == Alone(s.writeMap, s.disk, s.handlers[k], opens, keep)
    decreases Rank(s.handlers[k])
  {
    var h := s.handlers[k];
    if h.pc == Finished {
      StopAlone(s.writeMap, s.disk, h, opens, keep);
      return [];
    }
    var step := Move(k, opens, keep(h.next));
    MoveLowersRank(s.writeMap, s.disk, h, opens, keep(h.next));
    StepAlone(s.writeMap, s.disk, h, opens, keep, Moved(s.writeMap, s.disk, h, opens, keep(h.next)).value);
    OneStep(s, step);
    hide Moved;
    hide Alone;
    hide Takes;
    hide Releases;
    var rest := MovesAlone(Next(s, step).value, k, opens, keep);
    RunConcat(s, [step], rest);
    return [step] + rest;
  }

  /** In every state any call can arrive and be run to its end by itself, as the lemmas above say. */
  lemma CallRuns(s: State, h: Handler, opens: bool, keep: nat -> nat) returns (steps: seq<Step>)
    requires Fresh(h)
    ensures Run(s, [Arrive(h)] + steps).Some?
    ensures var t := Run(s, [Arrive(h)] + steps).value;
            && |t.handlers| == |s.handlers| + 1 && t.handlers[..|s.handlers|] == s.handlers
            && Effect(t.writeMap, t.disk, t.handlers[|s.handlers|]) == Alone(s.writeMap, s.disk, h, opens, keep)
  {
    hide Alone;
    hide Rank;
    OneStep(s, Arrive(h));
    var u := Next(s, Arrive(h)).value;
    steps := MovesAlone(u, |s.handlers|, opens, keep);
    RunConcat(s, [Arrive(h)], steps);
    hide Run;
    hide Fresh;
  }

  /** A file the server does not have is stored if and only if the checksum sent for it, its own, is not 0. */
  lemma MissingIsStored(writeMap: WriteMap, disk: Disk, h: Handler, keep: nat -> nat)
    requires DiskOk(disk) && Fresh(h) && h.kind == Storing && MayWrite(writeMap, h.client, h.name)
    requires h.name !in View(disk)
    ensures var status := Alone(writeMap, disk, h, true, keep).h.status;
            && status == (if h.messages[0].crc == Zeros(32) then AlreadyExists else Ok)
            && (h.messages[0].crc == Checksum(Local(Concat(h.messages))) ==>
                  (status == Ok <==> Checksum(Local(Concat(h.messages))) != Zeros(32)))
  {
    StoreAlone(writeMap, disk, h, true, keep);
    MissingChecksum(View(disk), h.name);
    hide Checksum;
    hide Alone;
  }

  lemma MissingChecksum(files: Files, name: string)
    requires name !in files
    ensures Checksum(OnDisk(files, name)) == Zeros(32)
  {
  }
}
