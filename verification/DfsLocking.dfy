/** What the write lock needs from its callers, and what it then gives: at most one handler in its section for a file. */
module DfsLocking {
  import opened Collections
  import opened Words
  import opened FileChecksum
  import opened DfsServer
  import opened DfsHandlers

  ghost predicate WellFormed(h: Handler) {
    && h.next <= |h.messages|
    && (h.kind == Storing ==> OneFile(h.messages, h.client, h.name) && h.pc !in {Look, Unlink})
    && (h.kind == Deleting ==> h.pc !in {Compare, Open, Write})
    && (h.kind == Locking ==> h.pc in {Enter, Finished})
    && (h.pc == Flush ==> Stores(h))
    && (h.pc in {Look, Enter, Compare, Open} ==> h.next == 0 && h.written == 0 && h.pending == [])
    && (h.pc in {Release, Flush} && Stores(h) ==> h.next == |h.messages|)
  }

  /** A handler in its section has a named client, which owns the lock. */
  ghost predicate Holds(writeMap: WriteMap, h: Handler) {
    InSection(h) ==> h.client != "" && Owner(writeMap, h.name) == h.client
  }

  /** At most one handler is in its section for a file. */
  ghost predicate Exclusive(s: State) {
    forall i, j :: 0 <= i < |s.handlers| && 0 <= j < |s.handlers| && Meet(s.handlers[i], s.handlers[j]) ==> i == j
  }

  ghost predicate LockInv(s: State) {
    && (forall i :: 0 <= i < |s.handlers| ==> WellFormed(s.handlers[i]))
    && (forall i :: 0 <= i < |s.handlers| ==> Holds(s.writeMap, s.handlers[i]))
    && Exclusive(s)
  }

  /* ---------------------------------------------------------------- every step keeps it */

  lemma MovedFormed(writeMap: WriteMap, disk: Disk, h: Handler, opens: bool, keep: nat)
    requires WellFormed(h) && Moved(writeMap, disk, h, opens, keep).Some?
    ensures var h' := Moved(writeMap, disk, h, opens, keep).value.h;
            && WellFormed(h') && h'.kind == h.kind && h'.name == h.name && h'.client == h.client
            && h'.messages == h.messages
  {
    hide View;
    hide Checksum;
    hide OnDisk;
    hide Owner;
    hide MayWrite;
    hide Locked;
    hide Released;
    hide WriteAt;
    hide Put;
    hide Opened;
  }

  /** A step changes no lock but that of its own file, takes it only at CheckLock and frees it only at ReleaseLock. */
  lemma MovedLock(writeMap: WriteMap, disk: Disk, h: Handler, opens: bool, keep: nat)
    requires WellFormed(h) && Moved(writeMap, disk, h, opens, keep).Some?
    ensures var e := Moved(writeMap, disk, h, opens, keep).value;
            && (forall n :: n != h.name ==> Owner(e.writeMap, n) == Owner(writeMap, n))
            && (h.pc !in {Enter, Release} ==> e.writeMap == writeMap && InSection(e.h) == InSection(h))
            && (h.pc == Release ==> Owner(e.writeMap, h.name) == "" && !InSection(e.h))
            && (h.pc == Enter ==> Owner(e.writeMap, h.name) == Owner(Locked(writeMap, h.client, h.name), h.name)
                                  && (InSection(e.h) <==> h.kind != Locking && MayWrite(writeMap, h.client, h.name)))
  {
    hide View;
    hide Put;
    hide Opened;
  }

  lemma ArriveKeepsLock(s: State, h: Handler)
    requires LockInv(s) && Fresh(h)
    ensures LockInv(s.(handlers := s.handlers + [h]))
  {
    var s' := s.(handlers := s.handlers + [h]);
    assert forall i :: 0 <= i < |s.handlers| ==> s'.handlers[i] == s.handlers[i];
    assert WellFormed(h) && !InSection(h);
  }

  lemma OthersKeepLock(s: State, s': State, i: nat)
    requires LockInv(s) && i < |s.handlers| == |s'.handlers|
    requires forall j :: 0 <= j < |s.handlers| && j != i ==> s'.handlers[j] == s.handlers[j]
    requires WellFormed(s'.handlers[i]) && Holds(s'.writeMap, s'.handlers[i])
    requires s'.handlers[i].name == s.handlers[i].name
    requires forall j :: 0 <= j < |s.handlers| && j != i && InSection(s.handlers[j]) ==>
               && Owner(s'.writeMap, s.handlers[j].name) == Owner(s.writeMap, s.handlers[j].name)
               && !Meet(s'.handlers[i], s.handlers[j])
    ensures LockInv(s')
  {
    hide WellFormed;
  }

  /** Every step keeps the invariant, as long as the lock is only taken cleanly. */
  lemma StepKeepsLock(s: State, step: Step)
    requires LockInv(s) && Next(s, step).Some?
    requires Takes(s, step) ==> Clean(s, s.handlers[step.i])
    ensures LockInv(Next(s, step).value)
  {
    if step.Arrive? {
      ArriveKeepsLock(s, step.h);
    } else {
      var i, h, s' := step.i, s.handlers[step.i], Next(s, step).value;
      MovedFormed(s.writeMap, s.disk, h, step.opens, step.keep);
      MovedLock(s.writeMap, s.disk, h, step.opens, step.keep);
      hide Moved;
      hide WellFormed;
      forall j | 0 <= j < |s.handlers| && j != i && InSection(s.handlers[j])
        ensures Owner(s'.writeMap, s.handlers[j].name) == Owner(s.writeMap, s.handlers[j].name)
        ensures !Meet(s'.handlers[i], s.handlers[j])
      {
        assert Holds(s.writeMap, s.handlers[j]);
        assert Meet(h, s.handlers[j]) ==> i == j;
      }
      OthersKeepLock(s, s', i);
    }
  }

  lemma {:induction false} RunKeepsLock(s: State, steps: seq<Step>)
    requires LockInv(s) && Run(s, steps).Some? && CleanRun(s, steps)
    ensures LockInv(Run(s, steps).value)
    decreases |steps|
  {
    hide LockInv;
    hide Next;
    hide Clean;
    hide Takes;
    if steps != [] {
      StepKeepsLock(s, steps[0]);
      RunKeepsLock(Next(s, steps[0]).value, steps[1..]);
    }
  }

  lemma InitLock(s: State)
    requires Init(s)
    ensures LockInv(s)
  {
  }

  /** Two handlers between CheckLock and ReleaseLock of one file never belong to different clients. */
  lemma NeverTwoClients(s: State, i: nat, j: nat)
    requires LockInv(s) && i < |s.handlers| && j < |s.handlers| && Meet(s.handlers[i], s.handlers[j])
    ensures i == j && s.handlers[i].client == Owner(s.writeMap, s.handlers[i].name) != ""
  {
    hide WellFormed;
    assert Holds(s.writeMap, s.handlers[i]);
  }

  /* ---------------------------------------------------------------- the exact condition */

  /** Handlers of two clients are in their sections for one file. */
  ghost predicate TwoClients(s: State) {
    exists i, j :: 0 <= i < |s.handlers| && 0 <= j < |s.handlers| && Meet(s.handlers[i], s.handlers[j])
                   && s.handlers[i].client != s.handlers[j].client
  }

  /** Some continuation in which everybody else takes the lock cleanly lets two clients in at once. */
  ghost predicate CanMeet(s: State) {
    exists steps :: Run(s, steps).Some? && CleanRun(s, steps) && TwoClients(Run(s, steps).value)
  }

  lemma LockedNeverMeets(s: State)
    requires LockInv(s)
    ensures !CanMeet(s)
  {
    forall steps | Run(s, steps).Some? && CleanRun(s, steps) ensures !TwoClients(Run(s, steps).value) {
      RunKeepsLock(s, steps);
    }
  }

  lemma CanMeetLater(s: State, steps: seq<Step>)
    requires Run(s, steps).Some? && CleanRun(s, steps) && CanMeet(Run(s, steps).value)
    ensures CanMeet(s)
  {
    var t := Run(s, steps).value;
    var more :| Run(t, more).Some? && CleanRun(t, more) && TwoClients(Run(t, more).value);
    RunConcat(s, steps, more);
    CleanConcat(s, steps, more);
    assert TwoClients(Run(s, steps + more).value);
  }

  /** Storing an empty file. */
  function EmptyStore(client: string, name: string): (h: Handler) {
    Handler(Storing, client, name, [FileMessage(name, client, Zeros(32), [])], Enter, 0, 0, 0, [], Ok)
  }

  /** A handler in its section cannot keep a new client b out of a lock that is free. */
  lemma LetIn(s: State, i: nat, b: string)
    requires i < |s.handlers| && InSection(s.handlers[i]) && s.handlers[i].client != b && b != ""
    requires Owner(s.writeMap, s.handlers[i].name) == ""
    requires forall j :: 0 <= j < |s.handlers| && Meet(s.handlers[j], s.handlers[i]) ==> s.handlers[j].client != b
    ensures CanMeet(s)
  {
    var name := s.handlers[i].name;
    var h, k := EmptyStore(b, name), |s.handlers|;
    assert Fresh(h);
    var s1 := s.(handlers := s.handlers + [h]);
    OneStep(s, Arrive(h));
    assert s1.handlers[k] == h && forall j :: 0 <= j < k ==> s1.handlers[j] == s.handlers[j];
    var step := Move(k, true, 0);
    assert Clean(s1, h);
    OneStep(s1, step);
    var t := Next(s1, step).value;
    assert Meet(t.handlers[i], t.handlers[k]) && t.handlers[i].client != t.handlers[k].client;
    RunConcat(s, [Arrive(h)], [step]);
    CleanConcat(s, [Arrive(h)], [step]);
    assert TwoClients(Run(s, [Arrive(h)] + [step]).value);
  }

  /** A client other than the given one. */
  function Other(c: string): (b: string)
    ensures b != "" && b != c
  {
    c + "x"
  }

  /** A call without a client name leaves the lock free and its section open to anybody. */
  lemma AnonymousLetsIn(s: State, i: nat, opens: bool, keep: nat)
    requires LockInv(s) && Takes(s, Move(i, opens, keep)) && s.handlers[i].client == ""
    ensures CanMeet(Next(s, Move(i, opens, keep)).value)
  {
    var h, t := s.handlers[i], Next(s, Move(i, opens, keep)).value;
    MovedFormed(s.writeMap, s.disk, h, opens, keep);
    MovedLock(s.writeMap, s.disk, h, opens, keep);
    hide Moved;
    hide WellFormed;
    forall j | 0 <= j < |t.handlers| && Meet(t.handlers[j], t.handlers[i]) ensures t.handlers[j].client != Other("") {
      assert j != i ==> Holds(s.writeMap, s.handlers[j]);
    }
    LetIn(t, i, Other(""));
  }

  /** A handler left to itself goes on until it has released the lock, and touches no other handler. */
  lemma {:induction false} RunsOut(s: State, j: nat) returns (steps: seq<Step>)
    requires j < |s.handlers| && InSection(s.handlers[j]) && WellFormed(s.handlers[j])
    ensures Run(s, steps).Some? && CleanRun(s, steps)
    ensures var t := Run(s, steps).value;
            && |t.handlers| == |s.handlers| && !InSection(t.handlers[j]) && Owner(t.writeMap, s.handlers[j].name) == ""
            && forall k :: 0 <= k < |s.handlers| && k != j ==> t.handlers[k] == s.handlers[k]
    decreases SectionRank(s.handlers[j])
  {
    var h, step := s.handlers[j], Move(j, true, 0);
    MoveLowersRank(s.writeMap, s.disk, h, true, 0);
    MovedFormed(s.writeMap, s.disk, h, true, 0);
    MovedLock(s.writeMap, s.disk, h, true, 0);
    OneStep(s, step);
    hide Moved;
    hide WellFormed;
    var u := Next(s, step).value;
    if h.pc == Release {
      return [step];
    }
    var rest := RunsOut(u, j);
    RunConcat(s, [step], rest);
    CleanConcat(s, [step], rest);
    return [step] + rest;
  }

  /** A second call of the client in its section is still there when the first one has released the lock to others. */
  lemma SecondCallLetsIn(s: State, i: nat, opens: bool, keep: nat, j: nat)
    requires LockInv(s) && Takes(s, Move(i, opens, keep)) && j < |s.handlers| && InSection(s.handlers[j])
    requires s.handlers[j].name == s.handlers[i].name && s.handlers[j].client == s.handlers[i].client
    ensures CanMeet(Next(s, Move(i, opens, keep)).value)
  {
    var h, t := s.handlers[i], Next(s, Move(i, opens, keep)).value;
    MovedFormed(s.writeMap, s.disk, h, opens, keep);
    MovedLock(s.writeMap, s.disk, h, opens, keep);
    assert j != i && WellFormed(s.handlers[j]);
    hide Moved;
    hide WellFormed;
    var steps := RunsOut(t, j);
    var u := Run(t, steps).value;
    forall k | 0 <= k < |u.handlers| && k != i ensures !Meet(u.handlers[k], u.handlers[i]) {
      assert k != j && Meet(s.handlers[k], s.handlers[j]) ==> k == j;
    }
    LetIn(u, i, Other(h.client));
    CanMeetLater(t, steps);
  }

  /** Taking the lock is safe exactly if it is clean: otherwise, however the others behave, a continuation in which
  they all take it cleanly brings two clients into their sections for one file. */
  lemma TakingIsExact(s: State, i: nat, opens: bool, keep: nat)
    requires LockInv(s) && Takes(s, Move(i, opens, keep))
    ensures Next(s, Move(i, opens, keep)).Some?
    ensures Clean(s, s.handlers[i]) <==> !CanMeet(Next(s, Move(i, opens, keep)).value)
  {
    var h := s.handlers[i];
    MoveLowersRank(s.writeMap, s.disk, h, opens, keep);
    hide LockInv;
    hide CanMeet;
    hide Moved;
    if Clean(s, h) {
      StepKeepsLock(s, Move(i, opens, keep));
      LockedNeverMeets(Next(s, Move(i, opens, keep)).value);
    } else if h.client == "" {
      AnonymousLetsIn(s, i, opens, keep);
    } else {
      var j :| 0 <= j < |s.handlers| && InSection(s.handlers[j]) && s.handlers[j].name == h.name
               && s.handlers[j].client == h.client;
      SecondCallLetsIn(s, i, opens, keep, j);
    }
  }

  /** From no state of the run can the others bring two clients into their sections for one file. */
  ghost predicate NeverMeets(s: State, steps: seq<Step>)
    decreases |steps|
  {
    !CanMeet(s) && (steps != [] && Next(s, steps[0]).Some? ==> NeverMeets(Next(s, steps[0]).value, steps[1..]))
  }

  /** Over a whole run the lock keeps clients apart, whatever clean calls follow at any point of it, if and only if it is
  only taken cleanly. */
  lemma {:induction false} SafeIffClean(s: State, steps: seq<Step>)
    requires LockInv(s)
    ensures NeverMeets(s, steps) <==> CleanRun(s, steps)
    decreases |steps|
  {
    hide LockInv;
    hide Next;
    hide Clean;
    hide Takes;
    hide CanMeet;
    LockedNeverMeets(s);
    if steps != [] && Next(s, steps[0]).Some? {
      var s' := Next(s, steps[0]).value;
      if Takes(s, steps[0]) {
        TakesMove(s, steps[0]);
        TakingIsExact(s, steps[0].i, steps[0].opens, steps[0].keep);
      }
      if Takes(s, steps[0]) ==> Clean(s, s.handlers[steps[0].i]) {
        StepKeepsLock(s, steps[0]);
        SafeIffClean(s', steps[1..]);
      }
    }
  }

  lemma TakesMove(s: State, step: Step)
    requires Takes(s, step)
    ensures step.Move? && step == Move(step.i, step.opens, step.keep) && step.i < |s.handlers|
  {
  }

  /* ---------------------------------------------------------------- clients that meet it */

  /** Clients have names and each has at most one call under way. */
  ghost predicate Serialised(s: State) {
    forall i :: 0 <= i < |s.handlers| && s.handlers[i].pc != Finished ==>
      && s.handlers[i].client != ""
      && forall j | 0 <= j < |s.handlers| && s.handlers[j].pc != Finished ::
           s.handlers[j].client == s.handlers[i].client ==> i == j
  }

  ghost predicate SerialisedRun(s: State, steps: seq<Step>)
    decreases |steps|
  {
    Serialised(s) && (steps != [] && Next(s, steps[0]).Some? ==> SerialisedRun(Next(s, steps[0]).value, steps[1..]))
  }

  lemma SerialisedIsClean(s: State, step: Step)
    requires Serialised(s) && Takes(s, step)
    ensures Clean(s, s.handlers[step.i])
  {
    var h := s.handlers[step.i];
    forall j | 0 <= j < |s.handlers| && InSection(s.handlers[j]) && s.handlers[j].name == h.name
      ensures s.handlers[j].client != h.client
    {
      assert s.handlers[j].pc != Finished && s.handlers[step.i].pc != Finished && j != step.i;
    }
  }

  /** Clients that serialise their calls, as the client mutex does, are kept apart in every interleaving. */
  lemma {:induction false} SerialisedIsSafe(s: State, steps: seq<Step>)
    requires LockInv(s) && SerialisedRun(s, steps)
    ensures CleanRun(s, steps) && NeverMeets(s, steps)
    decreases |steps|
  {
    hide LockInv;
    hide Next;
    hide Clean;
    hide Serialised;
    hide CanMeet;
    LockedNeverMeets(s);
    if steps != [] && Next(s, steps[0]).Some? {
      if Takes(s, steps[0]) {
        SerialisedIsClean(s, steps[0]);
      }
      StepKeepsLock(s, steps[0]);
      SerialisedIsSafe(Next(s, steps[0]).value, steps[1..]);
    }
  }

  /* ---------------------------------------------------------------- what a granted lock is worth */

  /** A client that was granted the lock, by WriteLock say, keeps it whatever handlers of other clients do. */
  lemma OwnerStays(s: State, j: nat, opens: bool, keep: nat, n: string)
    requires LockInv(s) && Owner(s.writeMap, n) != "" && Next(s, Move(j, opens, keep)).Some?
    requires s.handlers[j].client != Owner(s.writeMap, n)
    ensures Owner(Next(s, Move(j, opens, keep)).value.writeMap, n) == Owner(s.writeMap, n)
  {
    var h := s.handlers[j];
    assert WellFormed(h) && Holds(s.writeMap, h);
    hide WellFormed;
    MovedLock(s.writeMap, s.disk, h, opens, keep);
    hide Moved;
  }

  /** No handler of client c moves in the run. */
  ghost predicate OthersOnly(s: State, c: string, steps: seq<Step>)
    decreases |steps|
  {
    steps != [] && Next(s, steps[0]).Some? ==>
      && (steps[0].Move? ==> steps[0].i < |s.handlers| && s.handlers[steps[0].i].client != c)
      && OthersOnly(Next(s, steps[0]).value, c, steps[1..])
  }

  /** The client's own StoreFile or DeleteFile is then never refused, however many other calls come in between. */
  lemma {:induction false} GrantedIsServed(s: State, c: string, n: string, steps: seq<Step>)
    requires LockInv(s) && c != "" && Owner(s.writeMap, n) == c
    requires Run(s, steps).Some? && CleanRun(s, steps) && OthersOnly(s, c, steps)
    ensures Owner(Run(s, steps).value.writeMap, n) == c && MayWrite(Run(s, steps).value.writeMap, c, n)
    decreases |steps|
  {
    hide LockInv;
    hide Clean;
    if steps != [] {
      StepKeepsLock(s, steps[0]);
      if steps[0].Move? {
        OwnerStays(s, steps[0].i, steps[0].opens, steps[0].keep, n);
      }
      hide Takes;
      hide Moved;
      GrantedIsServed(Next(s, steps[0]).value, c, n, steps[1..]);
    }
  }

  /** A handler that passed CheckLock always comes to release the lock: nothing makes it wait, each of its steps brings
  it nearer, and when it leaves the section the lock is free. */
  lemma SectionEnds(s: State, i: nat, opens: bool, keep: nat)
    requires LockInv(s) && i < |s.handlers| && InSection(s.handlers[i])
    ensures Next(s, Move(i, opens, keep)).Some?
    ensures var s' := Next(s, Move(i, opens, keep)).value;
            var h' := s'.handlers[i];
            && SectionRank(h') < SectionRank(s.handlers[i])
            && (!InSection(h') ==> h'.pc in {Flush, Finished} && Owner(s'.writeMap, h'.name) == "")
  {
    var h := s.handlers[i];
    assert WellFormed(h);
    MovedFormed(s.writeMap, s.disk, h, opens, keep);
    MovedLock(s.writeMap, s.disk, h, opens, keep);
    MoveLowersRank(s.writeMap, s.disk, h, opens, keep);
    LeavesAtRelease(s.writeMap, s.disk, h, opens, keep);
    hide Moved;
    hide WellFormed;
  }

  lemma LeavesAtRelease(writeMap: WriteMap, disk: Disk, h: Handler, opens: bool, keep: nat)
    requires InSection(h) && Moved(writeMap, disk, h, opens, keep).Some?
    ensures var h' := Moved(writeMap, disk, h, opens, keep).value.h;
            InSection(h') || (h.pc == Release && h'.pc in {Flush, Finished})
  {
    hide View;
    hide Put;
    hide Opened;
  }

  /* ---------------------------------------------------------------- without it */

  function Calls(h: Handler, k: Handler, l: Handler): (s: State) {
    State(map[], Disk(map[], []), [h, k, l], map[])
  }

  /** Two calls of client a and one of client b: the second call of a is still in its section when its first one has
  released the lock to b. */
  lemma TwoCallsOfOneClient(a: string, b: string, name: string)
    requires a != "" && a != b
    ensures var s := Calls(EmptyStore(a, name), EmptyStore(a, name), EmptyStore(b, name));
            var t := Run(s, [Move(0, true, 0), Move(1, true, 0), Move(0, true, 0), Move(0, true, 0), Move(2, true, 0)]);
            LockInv(s) && t.Some? && TwoClients(t.value)
  {
    hide Run;
    hide Next;
    hide TwoClients;
    var h, k := EmptyStore(a, name), EmptyStore(b, name);
    CallsLocked(h, h, k);
    hide LockInv;
    assert h.client == a && k.client == b && h.name == k.name;
    hide EmptyStore;
    var s0 := Calls(h, h, k);
    var s1 := s0.(writeMap := map[name := a], handlers := s0.handlers[0 := h.(pc := Compare)]);
    var s2 := s1.(handlers := s1.handlers[1 := h.(pc := Compare)]);
    var s3 := s2.(handlers := s2.handlers[0 := h.(pc := Release, status := AlreadyExists)]);
    var s4 := s3.(writeMap := map[name := ""],
                  handlers := s3.handlers[0 := h.(pc := Finished, status := AlreadyExists)]);
    var s5 := s4.(writeMap := map[name := b], handlers := s4.handlers[2 := k.(pc := Compare)]);
    StoreEnters(s0, s1, 0, a, name);
    StoreEnters(s1, s2, 1, a, name);
    StoreRepeats(s2, s3, 0, a, name);
    StoreReleases(s3, s4, 0, a, name);
    StoreEnters(s4, s5, 2, b, name);
    var steps := [Move(0, true, 0), Move(1, true, 0), Move(0, true, 0), Move(0, true, 0), Move(2, true, 0)];
    assert steps[0..] == steps && steps[5..] == [];
    RunStep(s0, s1, steps, 0);
    RunStep(s1, s2, steps, 1);
    RunStep(s2, s3, steps, 2);
    RunStep(s3, s4, steps, 3);
    RunStep(s4, s5, steps, 4);
    RunNothing(s5);
    MeetAt(s5, 1, 2);
  }

  lemma CallsLocked(h: Handler, k: Handler, l: Handler)
    requires Fresh(h) && Fresh(k) && Fresh(l)
    ensures LockInv(Calls(h, k, l))
  {
    assert WellFormed(h) && WellFormed(k) && WellFormed(l);
    hide WellFormed;
  }

  lemma MeetAt(s: State, i: nat, j: nat)
    requires i < |s.handlers| && j < |s.handlers| && Meet(s.handlers[i], s.handlers[j])
    requires s.handlers[i].client != s.handlers[j].client
    ensures TwoClients(s)
  {
  }

  lemma StoreEnters(s: State, t: State, i: nat, client: string, name: string)
    requires i < |s.handlers| && s.handlers[i] == EmptyStore(client, name)
    requires s.writeMap in {map[], map[name := ""], map[name := client]}
    requires t == s.(writeMap := map[name := client], handlers := s.handlers[i := s.handlers[i].(pc := Compare)])
    ensures Next(s, Move(i, true, 0)) == Some(t)
  {
    assert Locked(s.writeMap, client, name) == map[name := client];
  }

  lemma StoreRepeats(s: State, t: State, i: nat, client: string, name: string)
    requires i < |s.handlers| && s.handlers[i] == EmptyStore(client, name).(pc := Compare) && s.disk.names == map[]
    requires t == s.(handlers := s.handlers[i := s.handlers[i].(pc := Release, status := AlreadyExists)])
    ensures Next(s, Move(i, true, 0)) == Some(t)
  {
    assert name !in View(s.disk);
  }

  lemma StoreReleases(s: State, t: State, i: nat, client: string, name: string)
    requires i < |s.handlers| && s.handlers[i] == EmptyStore(client, name).(pc := Release, status := AlreadyExists)
    requires s.writeMap == map[name := client]
    requires t == s.(writeMap := map[name := ""], handlers := s.handlers[i := s.handlers[i].(pc := Finished)])
    ensures Next(s, Move(i, true, 0)) == Some(t)
  {
    assert Released(s.writeMap, name) == map[name := ""];
  }

  lemma RunNothing(s: State)
    ensures Run(s, []) == Some(s)
  {
  }

  lemma RunStep(s: State, t: State, steps: seq<Step>, k: nat)
    requires k < |steps| && Next(s, steps[k]) == Some(t)
    ensures Run(s, steps[k..]) == Run(t, steps[k + 1..])
  {
    assert steps[k..][1..] == steps[k + 1..];
  }
}
