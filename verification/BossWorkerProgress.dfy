/** A measure that every step but a spurious wake-up uses up, so that the shutdown is reached. */
module BossWorkerProgress {
  import opened Collections
  import opened BossWorker
  import opened BossWorkerTheorems

  /** The statements a worker is away from the next pop, or from its exit once it holds "Done". */
  function WorkerRank(y: Worker): (r: nat) {
    match y.pc
    case Lock | Test | Asleep | Pop => 5
    case PutBack => 4
    case Unlock => if y.done then 3 else 8
    case Broadcast => if y.done then 2 else 7
    case Download => 6
    case Exited => 0
  }

  /** The statements a worker is away from sleeping or popping. */
  function IdleRank(y: Worker): (r: nat) {
    match y.pc
    case Lock => 3
    case Test => 2
    case Pop => 1
    case _ => 0
  }

  function BossRank(s: State): (r: nat)
    requires Threads(s)
  {
    var left, n := |s.requests| + 1 - s.next, |s.workers|;
    match s.pc
    case BossLock => 4 * left + n + 1
    case BossEnqueue => 4 * left + n
    case BossUnlock => 4 * left + n - 1
    case BossSignal => 4 * left + n - 2
    case BossJoin => n - s.next + 1
    case BossDone => 0
  }

  function WorkerRanks(ys: seq<Worker>): (r: nat) {
    if ys == [] then 0 else WorkerRank(ys[0]) + WorkerRanks(ys[1..])
  }

  function IdleRanks(ys: seq<Worker>): (r: nat)
    ensures r <= 3 * |ys|
  {
    if ys == [] then 0 else IdleRank(ys[0]) + IdleRanks(ys[1..])
  }

  /** The first component: requests not yet popped, what the workers have in hand and what the boss has to do. */
  ghost function Work(s: State): (r: nat)
    requires Threads(s) && Conserved(s)
  {
    8 * (|Kept(s.requests)| - |s.taken|) + WorkerRanks(s.workers) + BossRank(s)
  }

  lemma {:induction false} RanksUpdate(ys: seq<Worker>, w: nat, y: Worker)
    requires w < |ys|
    ensures WorkerRanks(ys[w := y]) == WorkerRanks(ys) - WorkerRank(ys[w]) + WorkerRank(y)
    ensures IdleRanks(ys[w := y]) == IdleRanks(ys) - IdleRank(ys[w]) + IdleRank(y)
    decreases w
  {
    hide WorkerRank;
    hide IdleRank;
    if w == 0 {
      assert ys[w := y][1..] == ys[1..];
    } else {
      RanksUpdate(ys[1..], w - 1, y);
      assert ys[w := y][1..] == ys[1..][w - 1 := y];
    }
  }

  lemma {:induction false} RanksWoken(ys: seq<Worker>)
    ensures WorkerRanks(WakeAll(ys)) == WorkerRanks(ys)
    decreases |ys|
  {
    if ys != [] {
      RanksWoken(ys[1..]);
      assert WakeAll(ys)[1..] == WakeAll(ys[1..]);
    }
  }

  /** Every step but a spurious wake-up lowers the pair, compared first component first. */
  lemma StepUsesWork(s: State, step: Step)
    requires Inv(s) && Enabled(s, step)
    ensures var s' := Next(s, step).value;
            && Inv(s') && |s'.workers| == |s.workers|
            && (Work(s') < Work(s) || (Work(s') == Work(s) && IdleRanks(s'.workers) < IdleRanks(s.workers)))
  {
    NextKeepsInv(s, step);
    var s' := Next(s, step).value;
    InvParts(s);
    InvParts(s');
    hide Inv;
    if step.WorkerStep? {
      WorkerUsesWork(s, step.w);
    } else {
      BossUsesWork(s, step.wake);
    }
  }

  lemma InvParts(s: State)
    requires Inv(s)
    ensures Threads(s) && Conserved(s)
  {
  }

  lemma BossUsesWork(s: State, wake: nat)
    requires Threads(s) && Conserved(s) && NextBoss(s, wake).Some?
    ensures var s' := NextBoss(s, wake).value;
            && |s'.workers| == |s.workers|
            && (Threads(s') && Conserved(s') ==> Work(s') < Work(s))
  {
    hide Flow;
    hide Items;
    hide Kept;
    hide Done;
    hide WorkerRanks;
    if s.pc == BossSignal && SomeAsleep(s.workers) {
      RanksUpdate(s.workers, wake, Woken(s.workers[wake]));
    }
  }

  lemma WorkerUsesWork(s: State, w: nat)
    requires Threads(s) && Conserved(s) && w < |s.workers| && NextWorker(s, w).Some?
    ensures var s' := NextWorker(s, w).value;
            && |s'.workers| == |s.workers|
            && (Threads(s') && Conserved(s') ==>
                  Work(s') < Work(s) || (Work(s') == Work(s) && IdleRanks(s'.workers) < IdleRanks(s.workers)))
  {
    hide Flow;
    hide Items;
    hide Kept;
    hide Done;
    hide WorkerRanks;
    hide IdleRanks;
    var s' := NextWorker(s, w).value;
    WorkerLowersRanks(s, w);
    SameBossRank(s, w);
    hide WorkerOk;
    hide NextWorker;
  }

  lemma SameBossRank(s: State, w: nat)
    requires Threads(s) && w < |s.workers| && NextWorker(s, w).Some?
    ensures var s' := NextWorker(s, w).value;
            && |s'.workers| == |s.workers| && s'.requests == s.requests
            && (Threads(s') ==> BossRank(s') == BossRank(s))
  {
    hide Threads;
    SameBoss(s, w);
    hide NextWorker;
  }

  lemma SameBoss(s: State, w: nat)
    requires w < |s.workers| && NextWorker(s, w).Some?
    ensures var s' := NextWorker(s, w).value;
            |s'.workers| == |s.workers| && s'.requests == s.requests && s'.pc == s.pc && s'.next == s.next
  {
  }

  lemma WorkerLowersRanks(s: State, w: nat)
    requires Threads(s) && w < |s.workers| && NextWorker(s, w).Some?
    ensures var s' := NextWorker(s, w).value;
            var popped := |s'.taken| - |s.taken|;
            || WorkerRanks(s'.workers) < WorkerRanks(s.workers) + 8 * popped
            || (WorkerRanks(s'.workers) == WorkerRanks(s.workers) && popped == 0
                && IdleRanks(s'.workers) < IdleRanks(s.workers))
  {
    hide Items;
    hide Done;
    hide WorkerRanks;
    hide IdleRanks;
    var y, s' := s.workers[w], NextWorker(s, w).value;
    assert WorkerOk(y);
    if y.pc == Broadcast {
      RanksWoken(s.workers);
      RanksUpdate(WakeAll(s.workers), w, s'.workers[w]);
    } else {
      RanksUpdate(s.workers, w, s'.workers[w]);
    }
  }

  /* ---------------------------------------------------------------- bounded runs */

  /** The pair as one number. */
  ghost function Measure(s: State): (r: nat)
    requires Threads(s) && Conserved(s)
  {
    Flat(Work(s), IdleRanks(s.workers), 3 * |s.workers| + 1)
  }

  function Flat(first: nat, second: nat, width: nat): (r: nat) {
    first * width + second
  }

  lemma FlatLess(a: nat, b: nat, c: nat, d: nat, width: nat)
    requires b < width && d < width && (a < c || (a == c && b < d))
    ensures Flat(a, b, width) < Flat(c, d, width)
  {
    if a < c {
      assert a * width + width == (a + 1) * width <= c * width;
    }
  }

  lemma FlatPlus(a: nat, b: nat, width: nat)
    ensures Flat(a, b + 3, width) == Flat(a, b, width) + 3
  {
  }

  lemma StepLowersMeasure(s: State, step: Step)
    requires Inv(s) && Enabled(s, step)
    ensures Inv(Next(s, step).value) && Measure(Next(s, step).value) < Measure(s)
  {
    StepUsesWork(s, step);
    var s' := Next(s, step).value;
    InvParts(s);
    InvParts(s');
    hide Next;
    LowerMeasure(s, s');
  }

  lemma LowerMeasure(s: State, s': State)
    requires Threads(s) && Conserved(s) && Threads(s') && Conserved(s') && |s'.workers| == |s.workers|
    requires Work(s') < Work(s) || (Work(s') == Work(s) && IdleRanks(s'.workers) < IdleRanks(s.workers))
    ensures Measure(s') < Measure(s)
  {
    hide Flat;
    hide Work;
    hide Threads;
    hide Conserved;
    FlatLess(Work(s'), IdleRanks(s'.workers), Work(s), IdleRanks(s.workers), 3 * |s.workers| + 1);
  }

  /** Any sleeper may wake up at any time; that costs three statements more. */
  lemma SpuriousRaisesMeasure(s: State, w: nat)
    requires Inv(s) && w < |s.workers| && s.workers[w].pc == Asleep
    ensures Next(s, Spurious(w)).Some?
    ensures var s' := Next(s, Spurious(w)).value; Inv(s') && Measure(s') == Measure(s) + 3
  {
    NextKeepsInv(s, Spurious(w));
    var s' := Next(s, Spurious(w)).value;
    InvParts(s);
    InvParts(s');
    hide Inv;
    assert s' == s.(workers := s.workers[w := Woken(s.workers[w])]);
    hide Next;
    RaisedMeasure(s, s', w);
  }

  lemma RaisedMeasure(s: State, s': State, w: nat)
    requires Threads(s) && Conserved(s) && Threads(s') && Conserved(s') && w < |s.workers| && s.workers[w].pc == Asleep
    requires s' == s.(workers := s.workers[w := Woken(s.workers[w])])
    ensures Measure(s') == Measure(s) + 3
  {
    hide Threads;
    hide Conserved;
    hide Flat;
    hide Kept;
    RanksUpdate(s.workers, w, Woken(s.workers[w]));
    FlatPlus(Work(s), IdleRanks(s.workers), 3 * |s.workers| + 1);
  }

  function SpuriousSteps(steps: seq<Step>): (n: nat)
    ensures n <= |steps|
  {
    if steps == [] then 0 else (if steps[0].Spurious? then 1 else 0) + SpuriousSteps(steps[1..])
  }

  /** However the threads are scheduled, a run is no longer than the measure of its first state and three more steps
  for each spurious wake-up. */
  lemma {:induction false} RunsAreBounded(s: State, steps: seq<Step>)
    requires Inv(s) && Run(s, steps).Some?
    ensures Inv(Run(s, steps).value)
    ensures |steps| - SpuriousSteps(steps) + Measure(Run(s, steps).value) <= Measure(s) + 3 * SpuriousSteps(steps)
    decreases |steps|
  {
    hide Inv;
    hide Measure;
    InvParts(s);
    if steps != [] {
      var s' := Next(s, steps[0]).value;
      if steps[0].Spurious? {
        SpuriousRaisesMeasure(s, steps[0].w);
      } else {
        StepLowersMeasure(s, steps[0]);
      }
      InvParts(s');
      RunsAreBounded(s', steps[1..]);
      InvParts(Run(s', steps[1..]).value);
    }
  }

  /** A run from the start that cannot be continued, except by spurious wake-ups, ends with the queue destroyed, all
  workers gone and, unless a request is named "Done", every request downloaded exactly once. */
  lemma MaximalRunsFinish(s: State, steps: seq<Step>)
    requires Init(s) && Run(s, steps).Some? && forall step :: !Enabled(Run(s, steps).value, step)
    ensures var t := Run(s, steps).value;
            && t.pc == BossDone && AllExited(t) && t.queue == []
            && t.requests == s.requests
            && (multiset(t.performed) == multiset(s.requests) <==> Path("Done") !in s.requests)
            && ((forall r :: r in s.requests ==> r.text != "" && r.text[0] == '/') ==> t.taken == s.requests)
  {
    hide Inv;
    hide Done;
    InitInv(s);
    RunKeepsInv(s, steps);
    RunKeepsRequests(s, steps);
    ShutdownCompletes(Run(s, steps).value);
    ExactlyOnce(Run(s, steps).value);
    assert "Done"[0] == 'D';
  }

  lemma {:induction false} RunKeepsRequests(s: State, steps: seq<Step>)
    requires Run(s, steps).Some?
    ensures Run(s, steps).value.requests == s.requests
    decreases |steps|
  {
    if steps != [] {
      RunKeepsRequests(Next(s, steps[0]).value, steps[1..]);
    }
  }
}
