/** The multithreaded download client: a boss that fills a queue under a mutex, workers that empty it, and "Done". */
module BossWorker {
  import opened Collections

  /** What the queue holds: the text of a path. */
  datatype Path = Path(text: string)

  function Done(): (r: Path) {
    Path("Done")
  }

  /** The next statement of a worker; a worker in `pthread_cond_wait` is Asleep, and back at Lock once woken. */
  datatype WorkerPc = Lock | Test | Asleep | Pop | PutBack | Unlock | Broadcast | Download | Exited

  datatype Worker = Worker(pc: WorkerPc, item: Path, done: bool)

  /** The next statement of `main`: the loop over the requests and "Done", then the joins and the destroy. */
  datatype BossPc = BossLock | BossEnqueue | BossUnlock | BossSignal | BossJoin | BossDone

  datatype Owner = Nobody | Boss | ByThread(w: nat)

  /** `owner` holds m_client. `taken` records the requests in the order of their pops and `performed` the downloads;
  no step looks at these two. */
  datatype State = State(requests: seq<Path>, queue: seq<Path>, owner: Owner, pc: BossPc, next: nat,
                         workers: seq<Worker>, taken: seq<Path>, performed: seq<Path>)

  /** A signal wakes the given worker, if any is asleep; a spurious wake-up may happen at any time. */
  datatype Step = BossStep(wake: nat) | WorkerStep(w: nat) | Spurious(w: nat)

  ghost predicate Init(s: State) {
    && s.queue == [] && s.owner == Nobody && s.pc == BossLock && s.next == 0 && s.taken == [] && s.performed == []
    && s.workers != [] && forall w :: 0 <= w < |s.workers| ==> s.workers[w] == Worker(Lock, Path(""), false)
  }

  /* ---------------------------------------------------------------- steps */

  /** What the boss enqueues in all. */
  function Items(requests: seq<Path>): (r: seq<Path>)
    ensures |r| == |requests| + 1
  {
    requests + [Done()]
  }

  function Woken(y: Worker): (r: Worker) {
    if y.pc == Asleep then y.(pc := Lock) else y
  }

  function WakeAll(ys: seq<Worker>): (r: seq<Worker>)
    ensures |r| == |ys| && forall w :: 0 <= w < |ys| ==> r[w] == Woken(ys[w])
  {
    seq(|ys|, w requires 0 <= w < |ys| => Woken(ys[w]))
  }

  ghost predicate SomeAsleep(ys: seq<Worker>) {
    exists w :: 0 <= w < |ys| && ys[w].pc == Asleep
  }

  /** Workers after a signal that wakes the given worker; None if that one is not asleep but another is. */
  ghost function Signalled(ys: seq<Worker>, wake: nat): (r: Option<seq<Worker>>) {
    if !SomeAsleep(ys) then Some(ys)
    else if wake < |ys| && ys[wake].pc == Asleep then Some(ys[wake := Woken(ys[wake])])
    else None
  }

  /** One statement of `main`; None while it has to wait. */
  ghost function NextBoss(s: State, wake: nat): (r: Option<State>) {
    match s.pc
    case BossLock => if s.owner != Nobody then None else Some(s.(owner := Boss, pc := BossEnqueue))
    case BossEnqueue =>
      if s.next > |s.requests| then None
      else Some(s.(queue := s.queue + [Items(s.requests)[s.next]], pc := BossUnlock))
    case BossUnlock => Some(s.(owner := Nobody, pc := BossSignal))
    case BossSignal =>
      var ys := Signalled(s.workers, wake);
      if ys.None? then None
      else if s.next < |s.requests| then Some(s.(workers := ys.value, next := s.next + 1, pc := BossLock))
      else Some(s.(workers := ys.value, next := 0, pc := BossJoin))
    case BossJoin =>
      if s.next >= |s.workers| then Some(s.(queue := [], pc := BossDone))
      else if s.workers[s.next].pc == Exited then Some(s.(next := s.next + 1))
      else None
    case BossDone => None
  }

  /** One statement of `worker_thread`; None while the worker has to wait. */
  function NextWorker(s: State, w: nat): (r: Option<State>)
    requires w < |s.workers|
  {
    var y := s.workers[w];
    match y.pc
    case Lock => if s.owner != Nobody then None else Some(Set(s, w, y.(pc := Test)).(owner := ByThread(w)))
    case Test =>
      if s.queue == [] then Some(Set(s, w, y.(pc := Asleep)).(owner := Nobody))
      else Some(Set(s, w, y.(pc := Pop)))
    case Asleep => None
    case Pop =>
      if s.queue == [] then None
      else if s.queue[0] == Done()
      then Some(Set(s, w, y.(pc := PutBack, item := Done())).(queue := s.queue[1..]))
      else Some(Set(s, w, y.(pc := Unlock, item := s.queue[0]))
                .(queue := s.queue[1..], taken := s.taken + [s.queue[0]]))
    case PutBack => Some(Set(s, w, y.(pc := Unlock, done := true)).(queue := s.queue + [Done()]))
    case Unlock => Some(Set(s, w, y.(pc := Broadcast)).(owner := Nobody))
    case Broadcast =>
      Some(s.(workers := WakeAll(s.workers)[w := y.(pc := if y.done then Exited else Download)]))
    case Download => Some(Set(s, w, y.(pc := Lock)).(performed := s.performed + [y.item]))
    case Exited => None
  }

  function Set(s: State, w: nat, y: Worker): (r: State)
    requires w < |s.workers|
  {
    s.(workers := s.workers[w := y])
  }

  ghost function Next(s: State, step: Step): (r: Option<State>) {
    match step
    case BossStep(wake) => NextBoss(s, wake)
    case WorkerStep(w) => if w < |s.workers| then NextWorker(s, w) else None
    case Spurious(w) =>
      if w < |s.workers| && s.workers[w].pc == Asleep then Some(Set(s, w, Woken(s.workers[w]))) else None
  }

  /* ---------------------------------------------------------------- the invariant */

  /** How many items the boss has enqueued. */
  function Enqueued(s: State): (n: nat) {
    match s.pc
    case BossLock | BossEnqueue => s.next
    case BossUnlock | BossSignal => s.next + 1
    case BossJoin | BossDone => |s.requests| + 1
  }

  predicate InSection(pc: WorkerPc) {
    pc in {Test, Pop, PutBack, Unlock}
  }

  /** m_client is a mutex. */
  ghost predicate Mutex(s: State) {
    && (s.owner == Boss <==> s.pc in {BossEnqueue, BossUnlock})
    && (s.owner.ByThread? ==> s.owner.w < |s.workers|)
    && (forall w: nat :: w < |s.workers| ==> (InSection(s.workers[w].pc) <==> s.owner == ByThread(w)))
  }

  predicate WorkerOk(y: Worker) {
    && (y.done ==> y.pc in {Unlock, Broadcast, Exited})
    && (y.pc == Exited ==> y.done)
  }

  ghost predicate Threads(s: State) {
    && s.workers != []
    && (forall w: nat :: w < |s.workers| ==> WorkerOk(s.workers[w]))
    && (s.pc !in {BossJoin, BossDone} ==> s.next <= |s.requests|)
    && (s.pc == BossJoin ==> s.next <= |s.workers| && forall w: nat :: w < s.next ==> s.workers[w].pc == Exited)
    && (s.pc == BossDone ==> s.queue == [] && forall w: nat :: w < |s.workers| ==> s.workers[w].pc == Exited)
  }

  /** A worker holds "Done" between its pop and its enqueue. */
  predicate HoldsDone(s: State) {
    s.owner.ByThread? && s.owner.w < |s.workers| && s.workers[s.owner.w].pc == PutBack
  }

  function DoneInHand(s: State): (r: seq<Path>) {
    if HoldsDone(s) then [Done()] else []
  }

  /** The items other than "Done". */
  function Kept(q: seq<Path>): (r: seq<Path>)
    ensures Done() !in r && |r| <= |q|
  {
    if q == [] then [] else (if q[0] == Done() then [] else [q[0]]) + Kept(q[1..])
  }

  /** Of n items enqueued: the requests were popped in their order, whatever their names, and each "Done" stays in the
  queue or in the hand of a worker. */
  ghost predicate Flow(requests: seq<Path>, n: nat, taken: seq<Path>, queue: seq<Path>, hand: seq<Path>)
    requires n <= |requests| + 1
  {
    InOrder(taken, queue, Items(requests)[..n]) && SameDones(queue + hand, Items(requests)[..n])
  }

  ghost predicate InOrder(taken: seq<Path>, queue: seq<Path>, items: seq<Path>) {
    taken + Kept(queue) == Kept(items)
  }

  ghost predicate SameDones(q: seq<Path>, items: seq<Path>) {
    Count(q, Done()) == Count(items, Done())
  }

  /** First in, first out. */
  ghost predicate Fifo(requests: seq<Path>, n: nat, taken: seq<Path>, queue: seq<Path>, hand: seq<Path>)
    requires n <= |requests| + 1
  {
    taken + queue + hand == Items(requests)[..n]
  }

  ghost predicate Conserved(s: State)
    requires Threads(s)
  {
    && |s.taken| <= |Kept(s.requests)|
    && Done() !in s.taken
    && (s.pc != BossDone ==> Flow(s.requests, Enqueued(s), s.taken, s.queue, DoneInHand(s)))
  }

  ghost predicate SomeDone(s: State) {
    HoldsDone(s) || exists w: nat :: w < |s.workers| && s.workers[w].done
  }

  /** With no request named "Done" the queue is first-in first-out, and "Done" comes out after every request. */
  ghost predicate Ordered(s: State)
    requires Threads(s)
  {
    Done() !in s.requests ==>
      && (s.pc != BossDone ==> Fifo(s.requests, Enqueued(s), s.taken, s.queue, DoneInHand(s)))
      && (SomeDone(s) ==> s.taken == s.requests)
  }

  predicate Awake(pc: WorkerPc) {
    pc != Asleep && pc != Exited
  }

  /** No wake-up is lost: while a worker sleeps over a queue that is not empty, the boss is about to signal or a worker
  is awake, and that one will pop and broadcast. */
  ghost predicate WakeUp(s: State) {
    SomeAsleep(s.workers) && s.queue != [] ==>
      s.pc in {BossUnlock, BossSignal} || exists w: nat :: w < |s.workers| && Awake(s.workers[w].pc)
  }

  predicate Carries(y: Worker) {
    y.pc in {Unlock, Broadcast, Download} && !y.done
  }

  function Load(y: Worker, x: Path): (n: nat) {
    if Carries(y) && y.item == x then 1 else 0
  }

  /** How often request x is popped but not yet downloaded. */
  function InHand(ys: seq<Worker>, x: Path): (n: nat) {
    if ys == [] then 0 else Load(ys[0], x) + InHand(ys[1..], x)
  }

  ghost predicate Downloads(s: State) {
    forall x :: Count(s.performed, x) + InHand(s.workers, x) == Count(s.taken, x)
  }

  /** A worker that found the queue not empty still finds it so when it pops. */
  ghost predicate Ready(s: State) {
    forall w: nat :: w < |s.workers| && s.workers[w].pc == Pop ==> s.queue != []
  }

  ghost predicate Inv(s: State) {
    Mutex(s) && Threads(s) && Ready(s) && Conserved(s) && Ordered(s) && WakeUp(s) && Downloads(s)
  }

  /* ---------------------------------------------------------------- every step keeps it */

  lemma MutexKept(s: State, step: Step)
    requires Mutex(s) && Next(s, step).Some?
    ensures Mutex(Next(s, step).value)
  {
    hide Done;
    var s' := Next(s, step).value;
    if step.WorkerStep? {
      WorkerMutex(s, step.w);
    } else {
      assert forall w: nat :: w < |s.workers| ==> InSection(s'.workers[w].pc) == InSection(s.workers[w].pc);
    }
  }

  lemma WorkerMutex(s: State, w: nat)
    requires Mutex(s) && w < |s.workers| && NextWorker(s, w).Some?
    ensures Mutex(NextWorker(s, w).value)
  {
    hide Done;
    var y, s' := s.workers[w], NextWorker(s, w).value;
    assert InSection(y.pc) <==> s.owner == ByThread(w);
    assert InSection(s'.workers[w].pc) <==> s'.owner == ByThread(w);
    forall v: nat | v < |s.workers| && v != w
      ensures InSection(s'.workers[v].pc) == InSection(s.workers[v].pc)
    {
    }
  }

  lemma ThreadsKept(s: State, step: Step)
    requires Threads(s) && Next(s, step).Some?
    ensures Threads(Next(s, step).value)
  {
    hide Done;
    var s' := Next(s, step).value;
    if step.BossStep? {
      hide Items;
      assert forall w: nat :: w < |s.workers| ==> s'.workers[w] in {s.workers[w], Woken(s.workers[w])};
    } else if step.WorkerStep? {
      WorkerOkKept(s, step.w);
    }
  }

  lemma WorkerOkKept(s: State, w: nat)
    requires Threads(s) && w < |s.workers| && NextWorker(s, w).Some?
    ensures Threads(NextWorker(s, w).value)
  {
    hide Done;
    var s' := NextWorker(s, w).value;
    assert WorkerOk(s.workers[w]) && WorkerOk(s'.workers[w]);
    forall v: nat | v < |s.workers| && v != w ensures s'.workers[v] in {s.workers[v], Woken(s.workers[v])} {
    }
  }

  lemma {:induction false} KeptAppend(q: seq<Path>, item: Path)
    ensures Kept(q + [item]) == Kept(q) + (if item == Done() then [] else [item])
    decreases |q|
  {
    hide Done;
    if q == [] {
      assert q + [item] == [item] && [item][1..] == [];
    } else {
      KeptAppend(q[1..], item);
      assert (q + [item])[1..] == q[1..] + [item];
    }
  }

  /** The boss adds the next item to what is enqueued. */
  lemma EnqueuedGrows(requests: seq<Path>, n: nat)
    requires n <= |requests|
    ensures Items(requests)[..n + 1] == Items(requests)[..n] + [Items(requests)[n]]
  {
    hide Done;
  }

  lemma {:induction false} KeptPrefix(q: seq<Path>, n: nat)
    requires n <= |q|
    ensures |Kept(q[..n])| <= |Kept(q)|
    decreases |q|
  {
    hide Done;
    if n == 0 {
    } else {
      KeptPrefix(q[1..], n - 1);
      assert q[..n][1..] == q[1..][..n - 1];
    }
  }

  lemma KeptItems(requests: seq<Path>, n: nat)
    requires n <= |requests| + 1
    ensures |Kept(Items(requests)[..n])| <= |Kept(requests)|
  {
    hide Done;
    KeptPrefix(Items(requests), n);
    KeptAppend(requests, Done());
  }

  /** The step takes nothing from the queue and puts nothing in. */
  predicate Quiet(s: State, step: Step) {
    match step
    case BossStep(_) => s.pc != BossEnqueue && !(s.pc == BossJoin && s.next >= |s.workers|)
    case WorkerStep(w) => w < |s.workers| && s.workers[w].pc !in {Pop, PutBack}
    case Spurious(_) => true
  }

  ghost predicate SameQueue(s: State, s': State) {
    && s'.requests == s.requests && s'.queue == s.queue && s'.taken == s.taken && Enqueued(s') == Enqueued(s)
    && HoldsDone(s') == HoldsDone(s) && SomeDone(s') == SomeDone(s) && (s'.pc == BossDone <==> s.pc == BossDone)
  }

  lemma QuietStep(s: State, step: Step)
    requires Mutex(s) && Threads(s) && Next(s, step).Some? && Quiet(s, step)
    ensures SameQueue(s, Next(s, step).value)
  {
    var s' := Next(s, step).value;
    hide Items;
    if step.WorkerStep? {
      QuietWorker(s, step.w);
    } else {
      SameHands(s, s');
    }
  }

  lemma QuietWorker(s: State, w: nat)
    requires Mutex(s) && w < |s.workers| && NextWorker(s, w).Some? && s.workers[w].pc !in {Pop, PutBack}
    ensures SameQueue(s, NextWorker(s, w).value)
  {
    var y, s' := s.workers[w], NextWorker(s, w).value;
    assert InSection(y.pc) <==> s.owner == ByThread(w);
    SameHands(s, s');
  }

  lemma SameHands(s: State, s': State)
    requires |s'.workers| == |s.workers|
    requires s'.owner == s.owner || (!HoldsDone(s) && !HoldsDone(s'))
    requires forall w: nat :: w < |s.workers| ==>
               s'.workers[w].done == s.workers[w].done && (s'.workers[w].pc == PutBack <==> s.workers[w].pc == PutBack)
    ensures HoldsDone(s') == HoldsDone(s) && SomeDone(s') == SomeDone(s)
  {
  }

  lemma OrderAppend(taken: seq<Path>, queue: seq<Path>, items: seq<Path>, item: Path)
    requires InOrder(taken, queue, items)
    ensures InOrder(taken, queue + [item], items + [item])
  {
    hide Done;
    KeptAppend(queue, item);
    KeptAppend(items, item);
    hide Kept;
    assert taken + (Kept(queue) + [item]) == taken + Kept(queue) + [item];
    assert Kept(queue) + [] == Kept(queue) && Kept(items) + [] == Kept(items);
  }

  lemma FlowEnqueue(requests: seq<Path>, n: nat, taken: seq<Path>, queue: seq<Path>)
    requires n <= |requests| && Flow(requests, n, taken, queue, [])
    ensures Flow(requests, n + 1, taken, queue + [Items(requests)[n]], [])
  {
    hide Done;
    var items, item := Items(requests), Items(requests)[n];
    EnqueuedGrows(requests, n);
    OrderAppend(taken, queue, items[..n], item);
    hide Items;
    hide InOrder;
    assert queue + [item] + [] == queue + [] + [item];
  }

  lemma FifoEnqueue(requests: seq<Path>, n: nat, taken: seq<Path>, queue: seq<Path>)
    requires n <= |requests| && Fifo(requests, n, taken, queue, [])
    ensures Fifo(requests, n + 1, taken, queue + [Items(requests)[n]], [])
  {
    hide Done;
    EnqueuedGrows(requests, n);
    hide Items;
    assert taken + (queue + [Items(requests)[n]]) + [] == taken + queue + [] + [Items(requests)[n]];
  }

  lemma OrderPop(taken: seq<Path>, queue: seq<Path>, items: seq<Path>)
    requires InOrder(taken, queue, items) && queue != [] && queue[0] != Done()
    ensures InOrder(taken + [queue[0]], queue[1..], items) && |taken| < |Kept(items)|
  {
    hide Done;
    assert Kept(queue) == [queue[0]] + Kept(queue[1..]);
    hide Kept;
    assert taken + [queue[0]] + Kept(queue[1..]) == taken + ([queue[0]] + Kept(queue[1..]));
  }

  lemma FlowPop(requests: seq<Path>, n: nat, taken: seq<Path>, queue: seq<Path>)
    requires n <= |requests| + 1 && queue != [] && queue[0] != Done() && Flow(requests, n, taken, queue, [])
    ensures Flow(requests, n, taken + [queue[0]], queue[1..], []) && |taken| < |Kept(requests)|
  {
    hide Done;
    hide Kept;
    hide InOrder;
    KeptItems(requests, n);
    OrderPop(taken, queue, Items(requests)[..n]);
    hide Items;
    assert queue + [] == [queue[0]] + (queue[1..] + []);
  }

  lemma FifoPop(requests: seq<Path>, n: nat, taken: seq<Path>, queue: seq<Path>)
    requires n <= |requests| + 1 && queue != [] && Fifo(requests, n, taken, queue, [])
    ensures Fifo(requests, n, taken + [queue[0]], queue[1..], [])
  {
    hide Done;
    assert taken + [queue[0]] + queue[1..] + [] == taken + queue + [];
  }

  lemma FlowPopDone(requests: seq<Path>, n: nat, taken: seq<Path>, queue: seq<Path>)
    requires n <= |requests| + 1 && queue != [] && queue[0] == Done() && Flow(requests, n, taken, queue, [])
    ensures Flow(requests, n, taken, queue[1..], [Done()])
  {
    hide Done;
    hide Items;
    assert queue + [] == [Done()] + queue[1..];
    assert Kept(queue) == Kept(queue[1..]);
  }

  lemma FifoPopDone(requests: seq<Path>, n: nat, taken: seq<Path>, queue: seq<Path>)
    requires n <= |requests| + 1 && queue != [] && queue[0] == Done() && Done() !in requests
    requires Fifo(requests, n, taken, queue, [])
    ensures Fifo(requests, n, taken, queue[1..], [Done()]) && taken == requests && n == |requests| + 1
  {
    hide Done;
    var all, items := taken + queue + [], Items(requests);
    assert all[|taken|] == Done() == items[|taken|];
    assert |taken| == |requests| && |all| == n;
    assert taken == all[..|taken|] == items[..|taken|] == requests;
    assert queue == [Done()] && taken + queue[1..] + [Done()] == all;
  }

  lemma FlowPutBack(requests: seq<Path>, n: nat, taken: seq<Path>, queue: seq<Path>)
    requires n <= |requests| + 1 && Flow(requests, n, taken, queue, [Done()])
    ensures Flow(requests, n, taken, queue + [Done()], [])
  {
    hide Done;
    hide Items;
    KeptAppend(queue, Done());
    hide Kept;
    assert Kept(queue) + [] == Kept(queue);
    assert queue + [Done()] + [] == queue + [Done()];
  }

  lemma FifoPutBack(requests: seq<Path>, n: nat, taken: seq<Path>, queue: seq<Path>)
    requires n <= |requests| + 1 && Fifo(requests, n, taken, queue, [Done()])
    ensures Fifo(requests, n, taken, queue + [Done()], [])
  {
    hide Done;
    hide Items;
    assert taken + (queue + [Done()]) + [] == taken + queue + [Done()];
  }

  lemma EnqueueKeeps(s: State, wake: nat)
    requires Mutex(s) && Threads(s) && Conserved(s) && Ordered(s) && s.pc == BossEnqueue
    ensures NextBoss(s, wake).Some?
    ensures var s' := NextBoss(s, wake).value; Threads(s') && Conserved(s') && Ordered(s')
  {
    hide Done;
    hide Flow;
    hide Fifo;
    hide Kept;
    hide Items;
    FlowEnqueue(s.requests, s.next, s.taken, s.queue);
    if Done() !in s.requests {
      FifoEnqueue(s.requests, s.next, s.taken, s.queue);
    }
    assert SomeDone(NextBoss(s, wake).value) ==> SomeDone(s);
  }

  /** What a pop or a put-back does to the queue and to the hands of the workers. */
  ghost predicate Handles(s: State, s': State, queue: seq<Path>, taken: seq<Path>, before: seq<Path>,
                          after: seq<Path>)
  {
    && s'.requests == s.requests && s'.pc == s.pc != BossDone && s'.next == s.next
    && s'.queue == queue && s'.taken == taken && DoneInHand(s) == before && DoneInHand(s') == after
  }

  lemma PopHandles(s: State, w: nat)
    requires Mutex(s) && Threads(s) && w < |s.workers| && s.workers[w].pc == Pop
    requires s.queue != [] && s.queue[0] != Done()
    ensures NextWorker(s, w).Some?
    ensures var s' := NextWorker(s, w).value;
            && Threads(s') && Handles(s, s', s.queue[1..], s.taken + [s.queue[0]], [], [])
            && (SomeDone(s') ==> SomeDone(s))
  {
    hide Done;
    WorkerOkKept(s, w);
    hide WorkerOk;
    var s' := NextWorker(s, w).value;
    assert s.workers[w].pc != Exited && s.owner == ByThread(w) && !HoldsDone(s);
    forall v: nat | v < |s'.workers| && s'.workers[v].done ensures s.workers[v].done {
    }
  }

  lemma PopDoneHandles(s: State, w: nat)
    requires Mutex(s) && Threads(s) && w < |s.workers| && s.workers[w].pc == Pop
    requires s.queue != [] && s.queue[0] == Done()
    ensures NextWorker(s, w).Some?
    ensures var s' := NextWorker(s, w).value; Threads(s') && Handles(s, s', s.queue[1..], s.taken, [], [Done()])
  {
    hide Done;
    WorkerOkKept(s, w);
    hide WorkerOk;
    assert s.workers[w].pc != Exited && s.owner == ByThread(w) && !HoldsDone(s);
  }

  lemma PutBackHandles(s: State, w: nat)
    requires Mutex(s) && Threads(s) && w < |s.workers| && s.workers[w].pc == PutBack
    ensures NextWorker(s, w).Some?
    ensures var s' := NextWorker(s, w).value;
            Threads(s') && Handles(s, s', s.queue + [Done()], s.taken, [Done()], []) && SomeDone(s)
  {
    hide Done;
    WorkerOkKept(s, w);
    hide WorkerOk;
    assert s.workers[w].pc != Exited && s.owner == ByThread(w) && HoldsDone(s);
  }

  lemma PopKeeps(s: State, s': State)
    requires Threads(s) && Conserved(s) && Ordered(s) && Threads(s') && s.queue != [] && s.queue[0] != Done()
    requires Handles(s, s', s.queue[1..], s.taken + [s.queue[0]], [], []) && (SomeDone(s') ==> SomeDone(s))
    ensures Conserved(s') && Ordered(s')
  {
    hide Done;
    hide Threads;
    hide Flow;
    hide Fifo;
    hide Kept;
    hide Items;
    hide DoneInHand;
    hide SomeDone;
    EnqueuedBound(s);
    FlowPop(s.requests, Enqueued(s), s.taken, s.queue);
    if Done() !in s.requests {
      FifoPop(s.requests, Enqueued(s), s.taken, s.queue);
      NoLaterPop(s);
    }
  }

  lemma EnqueuedBound(s: State)
    requires Threads(s)
    ensures Enqueued(s) <= |s.requests| + 1
  {
  }

  /** After "Done" came out nothing but "Done" comes out. */
  lemma NoLaterPop(s: State)
    requires Threads(s) && Conserved(s) && Ordered(s) && Done() !in s.requests && s.pc != BossDone
    requires s.queue != [] && s.queue[0] != Done() && DoneInHand(s) == []
    ensures !SomeDone(s)
  {
    hide Done;
    FlowPop(s.requests, Enqueued(s), s.taken, s.queue);
    NothingDropped(s.requests);
  }

  lemma {:induction false} NothingDropped(q: seq<Path>)
    requires Done() !in q
    ensures Kept(q) == q
    decreases |q|
  {
    hide Done;
    if q != [] {
      NothingDropped(q[1..]);
    }
  }

  lemma PopDoneKeeps(s: State, s': State)
    requires Threads(s) && Conserved(s) && Ordered(s) && Threads(s') && s.queue != [] && s.queue[0] == Done()
    requires Handles(s, s', s.queue[1..], s.taken, [], [Done()])
    ensures Conserved(s') && Ordered(s')
  {
    hide Done;
    hide Threads;
    hide Flow;
    hide Fifo;
    hide Kept;
    hide Items;
    hide DoneInHand;
    hide SomeDone;
    EnqueuedBound(s);
    FlowPopDone(s.requests, Enqueued(s), s.taken, s.queue);
    if Done() !in s.requests {
      FifoPopDone(s.requests, Enqueued(s), s.taken, s.queue);
    }
  }

  lemma PutBackKeeps(s: State, s': State)
    requires Threads(s) && Conserved(s) && Ordered(s) && Threads(s') && SomeDone(s)
    requires Handles(s, s', s.queue + [Done()], s.taken, [Done()], [])
    ensures Conserved(s') && Ordered(s')
  {
    hide Done;
    hide Threads;
    hide Flow;
    hide Fifo;
    hide Kept;
    hide Items;
    hide DoneInHand;
    hide SomeDone;
    EnqueuedBound(s);
    FlowPutBack(s.requests, Enqueued(s), s.taken, s.queue);
    if Done() !in s.requests {
      FifoPutBack(s.requests, Enqueued(s), s.taken, s.queue);
    }
  }

  /** The queue keeps its meaning in every step. */
  lemma QueueKept(s: State, step: Step)
    requires Mutex(s) && Threads(s) && Conserved(s) && Ordered(s) && Next(s, step).Some?
    ensures var s' := Next(s, step).value; Threads(s') && Conserved(s') && Ordered(s')
  {
    hide Done;
    hide Flow;
    hide Fifo;
    hide Kept;
    hide Items;
    hide Mutex;
    hide NextWorker;
    hide SomeDone;
    hide HoldsDone;
    ThreadsKept(s, step);
    hide Threads;
    var s' := Next(s, step).value;
    if Quiet(s, step) {
      QuietStep(s, step);
      hide Next;
    } else if step.BossStep? {
      if s.pc == BossEnqueue {
        EnqueueKeeps(s, step.wake);
      } else {
        assert SomeDone(s') ==> SomeDone(s) by {
          SameDone(s, s');
        }
      }
    } else {
      HandlingKeeps(s, step.w);
    }
  }

  lemma SameDone(s: State, s': State)
    requires s'.workers == s.workers && s'.owner == s.owner
    ensures SomeDone(s') == SomeDone(s)
  {
  }

  lemma HandlingKeeps(s: State, w: nat)
    requires Mutex(s) && Threads(s) && Conserved(s) && Ordered(s)
    requires w < |s.workers| && s.workers[w].pc in {Pop, PutBack} && NextWorker(s, w).Some?
    ensures var s' := NextWorker(s, w).value; Threads(s') && Conserved(s') && Ordered(s')
  {
    hide Done;
    hide Conserved;
    hide Ordered;
    hide Mutex;
    hide Handles;
    hide SomeDone;
    if s.workers[w].pc == PutBack {
      PutBackHandles(s, w);
      PutBackKeeps(s, NextWorker(s, w).value);
    } else if s.queue[0] == Done() {
      PopDoneHandles(s, w);
      PopDoneKeeps(s, NextWorker(s, w).value);
    } else {
      PopHandles(s, w);
      PopKeeps(s, NextWorker(s, w).value);
    }
  }

  lemma ReadyKept(s: State, step: Step)
    requires Mutex(s) && Threads(s) && Ready(s) && Next(s, step).Some?
    ensures Ready(Next(s, step).value)
  {
    hide Items;
    hide Done;
    var s' := Next(s, step).value;
    forall w: nat | w < |s'.workers| && s'.workers[w].pc == Pop ensures s'.queue != [] {
      assert InSection(s.workers[w].pc) <==> s.owner == ByThread(w);
      if step.WorkerStep? {
        assert InSection(s.workers[step.w].pc) <==> s.owner == ByThread(step.w);
      }
    }
  }

  lemma WakeUpKept(s: State, step: Step)
    requires Mutex(s) && Threads(s) && WakeUp(s) && Next(s, step).Some?
    ensures WakeUp(Next(s, step).value)
  {
    hide Items;
    hide Done;
    var s' := Next(s, step).value;
    if step.WorkerStep? {
      WorkerWakeUp(s, step.w);
    } else if step.BossStep? && s.pc == BossSignal {
      if SomeAsleep(s.workers) {
        assert Awake(s'.workers[step.wake].pc);
      }
    } else if step.BossStep? {
      assert s'.workers == s.workers;
    } else {
      assert Awake(s'.workers[step.w].pc);
    }
  }

  lemma WorkerWakeUp(s: State, w: nat)
    requires Mutex(s) && WakeUp(s) && w < |s.workers| && NextWorker(s, w).Some?
    ensures WakeUp(NextWorker(s, w).value)
  {
    hide Items;
    hide Done;
    assert InSection(s.workers[w].pc) <==> s.owner == ByThread(w);
    var y, s' := s.workers[w], NextWorker(s, w).value;
    if y.pc == Broadcast {
      assert !SomeAsleep(s'.workers);
    } else if y.pc == Test && s.queue == [] {
      assert s'.queue == [];
    } else {
      assert Awake(s'.workers[w].pc);
    }
  }

  lemma {:induction false} InHandUpdate(ys: seq<Worker>, w: nat, y: Worker, x: Path)
    requires w < |ys|
    ensures InHand(ys[w := y], x) == InHand(ys, x) - Load(ys[w], x) + Load(y, x)
    decreases w
  {
    hide Load;
    if w == 0 {
      assert ys[w := y][1..] == ys[1..];
    } else {
      InHandUpdate(ys[1..], w - 1, y, x);
      assert ys[w := y][1..] == ys[1..][w - 1 := y];
    }
  }

  lemma {:induction false} InHandWoken(ys: seq<Worker>, x: Path)
    ensures InHand(WakeAll(ys), x) == InHand(ys, x)
    decreases |ys|
  {
    if ys != [] {
      InHandWoken(ys[1..], x);
      assert WakeAll(ys)[1..] == WakeAll(ys[1..]);
    }
  }

  lemma DownloadsKept(s: State, step: Step)
    requires Threads(s) && Downloads(s) && Next(s, step).Some?
    ensures Downloads(Next(s, step).value)
  {
    hide Items;
    hide Done;
    hide Threads;
    hide InHand;
    var s' := Next(s, step).value;
    forall x ensures Count(s'.performed, x) + InHand(s'.workers, x) == Count(s'.taken, x) {
      match step
      case BossStep(wake) =>
        if s.pc == BossSignal && SomeAsleep(s.workers) {
          InHandUpdate(s.workers, wake, Woken(s.workers[wake]), x);
        }
      case WorkerStep(w) =>
        WorkerDownloads(s, w, x);
      case Spurious(w) =>
        InHandUpdate(s.workers, w, Woken(s.workers[w]), x);
    }
  }

  lemma WorkerDownloads(s: State, w: nat, x: Path)
    requires Threads(s) && Downloads(s) && w < |s.workers| && NextWorker(s, w).Some?
    ensures var s' := NextWorker(s, w).value;
            Count(s'.performed, x) + InHand(s'.workers, x) == Count(s'.taken, x)
  {
    hide Items;
    hide Done;
    hide InHand;
    hide Count;
    var y, s' := s.workers[w], NextWorker(s, w).value;
    assert WorkerOk(y);
    if y.pc == Broadcast {
      InHandWoken(s.workers, x);
      InHandUpdate(WakeAll(s.workers), w, s'.workers[w], x);
    } else {
      InHandUpdate(s.workers, w, s'.workers[w], x);
      if y.pc == Pop {
        CountAppend(s.taken, s.queue[0], x);
      } else if y.pc == Download {
        CountAppend(s.performed, y.item, x);
      }
    }
  }

  /** Every step of every thread keeps the invariant. */
  lemma NextKeepsInv(s: State, step: Step)
    requires Inv(s) && Next(s, step).Some?
    ensures Inv(Next(s, step).value)
  {
    hide Next;
    hide Mutex;
    hide Threads;
    hide Conserved;
    hide Ordered;
    hide WakeUp;
    hide Downloads;
    hide Ready;
    ReadyKept(s, step);
    MutexKept(s, step);
    QueueKept(s, step);
    WakeUpKept(s, step);
    DownloadsKept(s, step);
  }

  lemma {:induction false} NothingInHand(ys: seq<Worker>, x: Path)
    requires forall w :: 0 <= w < |ys| ==> !Carries(ys[w])
    ensures InHand(ys, x) == 0
    decreases |ys|
  {
    if ys != [] {
      NothingInHand(ys[1..], x);
    }
  }

  lemma InitInv(s: State)
    requires Init(s)
    ensures Inv(s)
  {
    hide Done;
    assert Items(s.requests)[..0] == [];
    forall x ensures InHand(s.workers, x) == 0 {
      NothingInHand(s.workers, x);
    }
  }
}
