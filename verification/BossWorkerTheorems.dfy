/** What the boss-worker client guarantees over whole runs: exactly-once delivery and a shutdown that completes. */
module BossWorkerTheorems {
  import opened Collections
  import opened BossWorker

  /** The state after a run; None if some step of it cannot be taken. */
  ghost function Run(s: State, steps: seq<Step>): (r: Option<State>)
    decreases |steps|
  {
    if steps == [] then Some(s)
    else match Next(s, steps[0])
      case None => None
      case Some(s') => Run(s', steps[1..])
  }

  lemma {:induction false} RunKeepsInv(s: State, steps: seq<Step>)
    requires Inv(s) && Run(s, steps).Some?
    ensures Inv(Run(s, steps).value)
    decreases |steps|
  {
    hide Inv;
    if steps != [] {
      NextKeepsInv(s, steps[0]);
      RunKeepsInv(Next(s, steps[0]).value, steps[1..]);
    }
  }

  /* ---------------------------------------------------------------- the queue in every state */

  /** Popped and queued requests are together what was enqueued so far, in that order, and "Done" is in the queue at
  most once and at its end. */
  lemma DoneIsLast(s: State)
    requires Inv(s) && s.pc != BossDone && Path("Done") !in s.requests
    ensures s.taken + s.queue + (if HoldsDone(s) then [Path("Done")] else [])
         == (s.requests + [Path("Done")])[..Enqueued(s)]
    ensures forall k :: 0 <= k < |s.queue| && s.queue[k] == Path("Done") ==> k == |s.queue| - 1
  {
    assert Done() == Path("Done");
    hide Done;
    hide WakeUp;
    hide Downloads;
    hide Conserved;
    hide Mutex;
    var all := s.taken + s.queue + DoneInHand(s);
    forall k | 0 <= k < |s.queue| && s.queue[k] == Done() ensures k == |s.queue| - 1 {
      assert all[|s.taken| + k] == Done() == Items(s.requests)[|s.taken| + k];
    }
  }

  /** Once "Done" is enqueued, a worker that tests the queue finds it not empty: nobody falls asleep any more. */
  lemma NoSleepAfterDone(s: State, w: nat)
    requires Inv(s) && w < |s.workers| && s.workers[w].pc == Test && Enqueued(s) == |s.requests| + 1
    ensures s.queue != [] && NextWorker(s, w).value.workers[w].pc == Pop
  {
    hide Done;
    hide WakeUp;
    hide Downloads;
    hide Ordered;
    assert s.owner == ByThread(w) && !HoldsDone(s);
    assert Items(s.requests)[..|s.requests| + 1] == Items(s.requests);
    assert Count(Items(s.requests), Done()) > 0 by {
      assert Items(s.requests)[|s.requests|] == Done();
    }
    assert s.queue + [] == s.queue;
  }

  /** Once "Done" is enqueued, an awake worker stays awake until it broadcasts, and its broadcast wakes everybody. */
  lemma AwakeUntilBroadcast(s: State, w: nat)
    requires Inv(s) && w < |s.workers| && Awake(s.workers[w].pc) && Enqueued(s) == |s.requests| + 1
    requires NextWorker(s, w).Some?
    ensures var s' := NextWorker(s, w).value;
            && |s'.workers| == |s.workers|
            && if s.workers[w].pc == Broadcast then !SomeAsleep(s'.workers) else Awake(s'.workers[w].pc)
  {
    hide Inv;
    hide NextWorker;
    if s.workers[w].pc == Test {
      NoSleepAfterDone(s, w);
    }
    AwakeStep(s, w);
  }

  lemma AwakeStep(s: State, w: nat)
    requires w < |s.workers| && Awake(s.workers[w].pc) && NextWorker(s, w).Some?
    ensures var s' := NextWorker(s, w).value;
            && |s'.workers| == |s.workers|
            && (s.workers[w].pc == Broadcast ==> !SomeAsleep(s'.workers))
            && (s.workers[w].pc != Broadcast && (s.workers[w].pc == Test ==> s.queue != []) ==> Awake(s'.workers[w].pc))
  {
    hide Done;
  }

  /** A sleeping worker is never forgotten: the boss will still signal, or somebody is awake. */
  lemma SleeperIsRemembered(s: State)
    requires Inv(s) && SomeAsleep(s.workers)
    ensures s.pc in {BossLock, BossEnqueue, BossUnlock, BossSignal}
            || exists w: nat :: w < |s.workers| && Awake(s.workers[w].pc)
  {
    hide Done;
    hide Downloads;
    hide Ordered;
    if s.pc == BossJoin && s.owner == Nobody {
      hide Conserved;
      SleeperHasCompany(s);
    } else if s.pc == BossJoin {
      hide Conserved;
      assert InSection(s.workers[s.owner.w].pc);
      assert Awake(s.workers[s.owner.w].pc);
    }
  }

  /* ---------------------------------------------------------------- the end of a run */

  predicate AllExited(s: State) {
    forall w :: 0 <= w < |s.workers| ==> s.workers[w].pc == Exited
  }

  lemma SameCounts(p: seq<Path>, q: seq<Path>)
    requires forall x :: Count(p, x) == Count(q, x)
    ensures multiset(p) == multiset(q)
  {
    assert forall x :: multiset(p)[x] == Count(p, x) == Count(q, x) == multiset(q)[x];
  }

  lemma DownloadedWhatWasTaken(s: State)
    requires Downloads(s) && AllExited(s)
    ensures multiset(s.performed) == multiset(s.taken)
  {
    forall x ensures Count(s.performed, x) == Count(s.taken, x) {
      NothingInHand(s.workers, x);
    }
    SameCounts(s.performed, s.taken);
  }

  /** When all workers have joined, every request was downloaded exactly once if and only if none is named "Done". */
  lemma ExactlyOnce(s: State)
    requires Inv(s) && AllExited(s)
    ensures multiset(s.performed) == multiset(s.requests) <==> Path("Done") !in s.requests
    ensures Path("Done") !in s.requests ==> s.taken == s.requests
  {
    assert Done() == Path("Done");
    hide Done;
    hide Items;
    hide Mutex;
    hide WakeUp;
    DownloadedWhatWasTaken(s);
    hide Downloads;
    if Done() in s.requests {
      assert Done() in multiset(s.requests) && Done() !in multiset(s.taken);
    } else {
      assert WorkerOk(s.workers[0]) && s.workers[0].done;
      assert SomeDone(s);
    }
  }

  /** Paths as the workload files have them are none of them "Done", so all of them are downloaded. */
  lemma PathsAreDownloaded(s: State)
    requires Inv(s) && AllExited(s)
    requires forall r :: r in s.requests ==> r.text != "" && r.text[0] == '/'
    ensures multiset(s.performed) == multiset(s.requests) && s.taken == s.requests
  {
    assert "Done"[0] == 'D';
    ExactlyOnce(s);
    hide Inv;
  }

  /** What is left in the queue before it is destroyed is "Done" alone, under the same condition. */
  lemma OnlyDoneLeft(s: State)
    requires Inv(s) && s.pc == BossJoin && s.next == |s.workers|
    ensures AllExited(s)
    ensures s.queue == [Path("Done")] <==> Path("Done") !in s.requests
  {
    assert Done() == Path("Done");
    hide Done;
    hide WakeUp;
    hide Downloads;
    hide Kept;
    var all := Items(s.requests)[..|s.requests| + 1];
    assert all == s.requests + [Done()];
    assert !HoldsDone(s) && s.queue + [] == s.queue;
    if Done() in s.requests {
      CountAppend(s.requests, Done(), Done());
      assert Count(s.requests, Done()) > 0;
      assert Count(s.queue, Done()) >= 2;
      CountAppend([], Done(), Done());
      assert [] + [Done()] == [Done()];
    } else {
      ExactlyOnce(s);
      hide Conserved;
      assert s.requests + s.queue + [] == s.requests + [Done()];
      assert s.queue == (s.requests + s.queue + [])[|s.requests|..] == [Done()];
    }
  }

  /* ---------------------------------------------------------------- no deadlock */

  ghost predicate Enabled(s: State, step: Step) {
    !step.Spurious? && Next(s, step).Some?
  }

  /** The holder of the mutex can always move. */
  lemma OwnerMoves(s: State)
    requires Inv(s) && s.owner != Nobody
    ensures exists step :: Enabled(s, step)
  {
    hide Done;
    hide WakeUp;
    hide Downloads;
    hide Ordered;
    hide Conserved;
    if s.owner == Boss {
      assert Enabled(s, BossStep(0));
    } else {
      var w := s.owner.w;
      assert InSection(s.workers[w].pc);
      assert Enabled(s, WorkerStep(w));
    }
  }

  /** While the boss joins, a sleeping worker has company: someone awake is there to pop "Done" and broadcast. */
  lemma SleeperHasCompany(s: State)
    requires Inv(s) && s.pc == BossJoin && s.owner == Nobody && SomeAsleep(s.workers)
    ensures exists w: nat :: w < |s.workers| && Awake(s.workers[w].pc)
  {
    hide Done;
    hide Downloads;
    hide Ordered;
    assert Items(s.requests)[..|s.requests| + 1] == Items(s.requests);
    assert Count(Items(s.requests), Done()) > 0 by {
      assert Items(s.requests)[|s.requests|] == Done();
    }
    assert s.queue + [] == s.queue;
  }

  /** Until the boss has destroyed the queue, some thread can take a step. */
  lemma NoDeadlock(s: State)
    requires Inv(s) && s.pc != BossDone
    ensures exists step :: Enabled(s, step)
  {
    hide Done;
    hide WakeUp;
    hide Downloads;
    hide Ordered;
    hide Conserved;
    if s.owner != Nobody {
      OwnerMoves(s);
    } else if s.pc == BossSignal {
      SignalMoves(s);
    } else if s.pc != BossJoin || s.next == |s.workers| || s.workers[s.next].pc == Exited {
      assert Enabled(s, BossStep(0));
    } else if s.workers[s.next].pc == Asleep {
      SleeperHasCompany(s);
      var w: nat :| w < |s.workers| && Awake(s.workers[w].pc);
      AwakeMoves(s, w);
    } else {
      AwakeMoves(s, s.next);
    }
  }

  lemma SignalMoves(s: State)
    requires s.pc == BossSignal
    ensures exists step :: Enabled(s, step)
  {
    var wake: nat :| SomeAsleep(s.workers) ==> wake < |s.workers| && s.workers[wake].pc == Asleep;
    assert Enabled(s, BossStep(wake));
  }

  lemma AwakeMoves(s: State, w: nat)
    requires Mutex(s) && s.owner == Nobody && w < |s.workers| && Awake(s.workers[w].pc)
    ensures exists step :: Enabled(s, step)
  {
    hide Done;
    assert !InSection(s.workers[w].pc);
    assert Enabled(s, WorkerStep(w));
  }

  /** When nothing but spurious wake-ups can happen, the shutdown is complete. */
  lemma ShutdownCompletes(s: State)
    requires Inv(s) && forall step :: !Enabled(s, step)
    ensures s.pc == BossDone && AllExited(s) && s.queue == []
  {
    hide Done;
    hide WakeUp;
    hide Downloads;
    hide Ordered;
    hide Conserved;
    if s.pc != BossDone {
      NoDeadlock(s);
    }
  }
}
