/** What the channel guarantees over whole runs: delivery, exclusive access, the pool, and progress. */
module ChannelTheorems {
  import opened Collections
  import opened ChannelSession
  import opened CacheChannel

  /** The state after a run; None if some step of it cannot be taken. */
  ghost function Run(s: State, steps: seq<Step>): (r: Option<State>)
    decreases |steps|
  {
    if steps == [] then Some(s)
    else if !Typed(s) || Next(s, steps[0]).None? then None
    else Run(Next(s, steps[0]).value, steps[1..])
  }

  lemma {:induction false} RunKeepsInv(s: State, steps: seq<Step>)
    requires Inv(s) && Run(s, steps).Some?
    ensures Inv(Run(s, steps).value)
    decreases |steps|
  {
    hide Inv;
    if steps != [] {
      InvTyped(s);
      NextKeepsInv(s, steps[0]);
      RunKeepsInv(Next(s, steps[0]).value, steps[1..]);
    }
  }

  lemma InvTyped(s: State)
    requires Inv(s)
    ensures Typed(s)
  {
  }

  /** Every state of every run satisfies the invariant. */
  lemma RunsAreSafe(s: State, steps: seq<Step>)
    requires Init(s) && Run(s, steps).Some?
    ensures Inv(Run(s, steps).value)
  {
    InitInv(s);
    RunKeepsInv(s, steps);
  }

  /* ---------------------------------------------------------------- delivery */

  /** At every moment what a thread passed to `gfs_send` is a prefix of the file it was asked for. */
  lemma SentIsPrefix(s: State, p: nat)
    requires Inv(s) && p < |s.proxies|
    ensures var x := s.proxies[p]; x.sent <= (if x.path in s.files then s.files[x.path] else [])
  {
    hide AtRest;
    hide Active;
    var x := s.proxies[p];
    assert ProxyOk(s, p);
    if Holding(x.pc) {
      SegmentAt(s, x.id);
      SessionPrefix(s.files, s.segments[x.id], x, ServerOf(s, s.place[x.id].stage));
    }
  }

  lemma SessionPrefix(files: Files, g: Segment, x: Proxy, v: Server)
    requires Session(files, g, x, v)
    ensures x.sent <= (if x.path in files then files[x.path] else [])
  {
  }

  /** Whenever a thread finishes, it has sent the whole file under its true length, or reported it missing. */
  lemma Delivery(s: State, p: nat)
    requires Inv(s) && p < |s.proxies| && NextProxy(s, p).Some? && NextProxy(s, p).value.proxies[p].pc == Idle
    ensures var x, x' := s.proxies[p], NextProxy(s, p).value.proxies[p];
            && x'.path == x.path
            && if x.path in s.files then x'.header == Found(|s.files[x.path]|) && x'.sent == s.files[x.path]
               else x'.header == NotFound && x'.sent == []
  {
    hide Session;
    hide AtRest;
    hide Active;
    var x := s.proxies[p];
    assert ProxyOk(s, p);
    if x.pc == ReturnSegment {
      SegmentAt(s, x.id);
      ReturnedAtRest(s.files, s.segments[x.id], x, ServerOf(s, s.place[x.id].stage));
    } else if x.pc != SendMissing {
      StaysBusy(s.segments[x.id], x);
    }
  }

  lemma StaysBusy(g: Segment, x: Proxy)
    requires ProxyStep(g, x).Some?
    ensures ProxyStep(g, x).value.1.pc != Idle
  {
  }

  /** The path thread p was asked for last. */
  function Asked(steps: seq<Step>, p: nat, before: Option<Path>): (path: Option<Path>)
    decreases |steps|
  {
    if steps == [] then before
    else Asked(steps[1..], p, if steps[0].Begin? && steps[0].p == p then Some(steps[0].path) else before)
  }

  /** The thread works for this path, or is done with it and has answered. */
  predicate WorksFor(s: State, p: nat, path: Option<Path>) {
    path.Some? && p < |s.proxies| ==>
      s.proxies[p].path == path.value && (s.proxies[p].pc == Idle ==> s.proxies[p].header != NoHeader)
  }

  lemma StepWorksFor(s: State, step: Step, p: nat, path: Option<Path>)
    requires Inv(s) && Typed(s) && Next(s, step).Some? && p < |s.proxies| && WorksFor(s, p, path)
    ensures var s' := Next(s, step).value;
            && s'.files == s.files && |s'.proxies| == |s.proxies|
            && WorksFor(s', p, if step.Begin? && step.p == p then Some(step.path) else path)
  {
    hide Inv;
    if step.ByProxy? && step.p == p {
      SamePath(s, p);
      if NextProxy(s, p).value.proxies[p].pc == Idle {
        Delivery(s, p);
      }
      hide NextProxy;
    } else if step.ByWorker? {
      OnlyWorker(s, step.w);
      hide NextWorker;
    } else if step.ByProxy? {
      SamePath(s, step.p);
      hide NextProxy;
    }
  }

  lemma SamePath(s: State, p: nat)
    requires Typed(s) && p < |s.proxies| && NextProxy(s, p).Some?
    ensures var s' := NextProxy(s, p).value;
            && s'.files == s.files && |s'.proxies| == |s.proxies| && s'.proxies[p].path == s.proxies[p].path
            && forall q :: 0 <= q < |s.proxies| && q != p ==> s'.proxies[q] == s.proxies[q]
  {
  }

  lemma OnlyWorker(s: State, w: nat)
    requires Typed(s) && w < |s.workers| && NextWorker(s, w).Some?
    ensures NextWorker(s, w).value.proxies == s.proxies && NextWorker(s, w).value.files == s.files
  {
    hide WorkerStep;
  }

  lemma {:induction false} RunWorksFor(s: State, steps: seq<Step>, p: nat, path: Option<Path>)
    requires Inv(s) && Run(s, steps).Some? && p < |s.proxies| && WorksFor(s, p, path)
    ensures var t := Run(s, steps).value;
            t.files == s.files && |t.proxies| == |s.proxies| && WorksFor(t, p, Asked(steps, p, path))
    decreases |steps|
  {
    hide Inv;
    hide Next;
    hide WorksFor;
    if steps != [] {
      InvTyped(s);
      NextKeepsInv(s, steps[0]);
      StepWorksFor(s, steps[0], p, path);
      RunWorksFor(Next(s, steps[0]).value, steps[1..], p,
                  if steps[0].Begin? && steps[0].p == p then Some(steps[0].path) else path);
    }
  }

  /** In every interleaving from the start of the program, what a thread sent is a prefix of the file it was asked for last,
  and once it is idle again it has sent all of it under its true length, or reported it missing. */
  lemma DeliveryOverRuns(s: State, steps: seq<Step>, p: nat, path: Path)
    requires Init(s) && Run(s, steps).Some? && p < |s.proxies| && Asked(steps, p, None) == Some(path)
    ensures |Run(s, steps).value.proxies| == |s.proxies|
    ensures var x := Run(s, steps).value.proxies[p];
            && x.sent <= (if path in s.files then s.files[path] else [])
            && (x.pc == Idle && path in s.files ==> x.header == Found(|s.files[path]|) && x.sent == s.files[path])
            && (x.pc == Idle && path !in s.files ==> x.header == NotFound && x.sent == [])
  {
    hide Session;
    hide AtRest;
    hide Active;
    InitInv(s);
    RunsAreSafe(s, steps);
    RunWorksFor(s, steps, p, None);
    var t := Run(s, steps).value;
    hide Run;
    SentIsPrefix(t, p);
    assert ProxyOk(t, p);
  }

  /* ---------------------------------------------------------------- exclusive access */

  predicate ReadsHeader(pc: ProxyPc) {
    pc in {ReadKind, SendHeader, TestDone}
  }

  predicate Clears(pc: ProxyPc) {
    pc in {ClearMissing, ClearSegment}
  }

  predicate WritesHeader(pc: WorkerPc) {
    pc in {MarkMissing, MarkFound, WriteLength}
  }

  lemma SessionNoRace(files: Files, g: Segment, x: Proxy, y: Worker)
    requires Session(files, g, x, Serving(y))
    ensures Reading(x.pc) || Clears(x.pc) ==> !Writing(y.pc)
    ensures ReadsHeader(x.pc) || Clears(x.pc) ==> !WritesHeader(y.pc)
  {
  }

  /** No proxy thread reads or clears a part of a segment that any worker is about to write. */
  lemma NoRace(s: State, p: nat, w: nat)
    requires Inv(s) && p < |s.proxies| && w < |s.workers| && s.proxies[p].id == s.workers[w].id
    ensures Reading(s.proxies[p].pc) || Clears(s.proxies[p].pc) ==> !Writing(s.workers[w].pc)
    ensures ReadsHeader(s.proxies[p].pc) || Clears(s.proxies[p].pc) ==> !WritesHeader(s.workers[w].pc)
  {
    hide Session;
    hide AtRest;
    var x, y := s.proxies[p], s.workers[w];
    assert ProxyOk(s, p) && WorkerOk(s, w);
    if Holding(x.pc) && Active(s.files, y) {
      SegmentAt(s, x.id);
      SessionNoRace(s.files, s.segments[x.id], x, y);
    }
  }

  /** Apart from the semaphores it does not matter which of two threads on one segment goes first: a statement of a proxy
  thread and one of any worker give the same segment and the same locals in both orders. */
  lemma StepsCommute(s: State, p: nat, w: nat)
    requires Inv(s) && p < |s.proxies| && w < |s.workers| && s.proxies[p].id == s.workers[w].id
    requires var g, x, y := s.segments[s.proxies[p].id], s.proxies[p], s.workers[w];
             && x.pc !in {WaitHeader, WaitChunk, PostChunk} && ProxyStep(g, x).Some? && WorkerStep(s.files, g, y).Some?
    ensures var g, x, y := s.segments[s.proxies[p].id], s.proxies[p], s.workers[w];
            var (g1, x') := ProxyStep(g, x).value;
            var (g2, y') := WorkerStep(s.files, g, y).value;
            exists both :: ProxyStep(g2, x) == Some((both, x')) && WorkerStep(s.files, g1, y) == Some((both, y'))
  {
    hide AtRest;
    hide Outcome;
    var x, y := s.proxies[p], s.workers[w];
    assert ProxyOk(s, p) && WorkerOk(s, w);
    OnlyOnSegment(s.segments[x.id], x);
    if Active(s.files, y) {
      SegmentAt(s, x.id);
      SessionCommutes(s.files, s.segments[x.id], x, y);
    } else {
      LeavingCommutes(s.files, s.segments[x.id], x, y);
    }
    hide Session;
  }

  lemma SessionCommutes(files: Files, g: Segment, x: Proxy, y: Worker)
    requires Session(files, g, x, Serving(y)) && x.pc !in {WaitHeader, WaitChunk, PostChunk}
    requires ProxyStep(g, x).Some? && WorkerStep(files, g, y).Some?
    ensures var (g1, x') := ProxyStep(g, x).value;
            var (g2, y') := WorkerStep(files, g, y).value;
            exists both :: ProxyStep(g2, x) == Some((both, x')) && WorkerStep(files, g1, y) == Some((both, y'))
  {
    var g1, g2 := ProxyStep(g, x).value.0, WorkerStep(files, g, y).value.0;
    assert ProxyStep(g2, x).Some? && WorkerStep(files, g1, y).Some?;
  }

  lemma LeavingCommutes(files: Files, g: Segment, x: Proxy, y: Worker)
    requires !Active(files, y) && ProxyStep(g, x).Some? && WorkerStep(files, g, y).Some?
    ensures var (g1, x') := ProxyStep(g, x).value;
            var (g2, y') := WorkerStep(files, g, y).value;
            exists both :: ProxyStep(g2, x) == Some((both, x')) && WorkerStep(files, g1, y) == Some((both, y'))
  {
    var g1 := ProxyStep(g, x).value.0;
    assert WorkerStep(files, g1, y).value.0 == g1;
  }

  /** While a proxy thread reads a chunk, the segment holds the next chunk of its file, whole and in place. */
  lemma ReadsNextChunk(s: State, p: nat)
    requires Inv(s) && p < |s.proxies| && Reading(s.proxies[p].pc)
    ensures var x := s.proxies[p];
            && x.path in s.files
            && var file := s.files[x.path];
               var end := if x.transferred + 824 < |file| then x.transferred + 824 else |file|;
               Loaded(s.segments[x.id], file, x.transferred, end)
  {
    hide Session;
    hide AtRest;
    hide Active;
    hide Outcome;
    var x := s.proxies[p];
    assert ProxyOk(s, p);
    SegmentAt(s, x.id);
    ChunkIsSafe(s.files, s.segments[x.id], x, ServerOf(s, s.place[x.id].stage));
  }

  /** Two threads of the same kind never use one segment at the same time. */
  lemma OneProxyOneWorker(s: State, i: nat)
    requires Inv(s)
    ensures forall p: nat, q: nat :: p < |s.proxies| && q < |s.proxies| && Holds(s, p, i) && Holds(s, q, i) ==> p == q
    ensures forall v: nat, w: nat :: v < |s.workers| && w < |s.workers| && Serves(s, v, i) && Serves(s, w, i) ==> v == w
  {
    hide Session;
    hide AtRest;
    hide Active;
    hide Outcome;
    forall p: nat, q: nat | p < |s.proxies| && q < |s.proxies| && Holds(s, p, i) && Holds(s, q, i) ensures p == q {
      assert ProxyOk(s, p) && ProxyOk(s, q);
    }
    forall v: nat, w: nat | v < |s.workers| && w < |s.workers| && Serves(s, v, i) && Serves(s, w, i) ensures v == w {
      assert WorkerOk(s, v) && WorkerOk(s, w);
    }
  }

  predicate Holds(s: State, p: nat, i: nat)
    requires p < |s.proxies|
  {
    Holding(s.proxies[p].pc) && s.proxies[p].id == i
  }

  predicate Serves(s: State, w: nat, i: nat)
    requires w < |s.workers|
  {
    Active(s.files, s.workers[w]) && s.workers[w].id == i
  }

  /* ---------------------------------------------------------------- the pool */

  /** A segment is in the pool, once, exactly when no proxy thread holds it. */
  lemma ExactlyOnePlace(s: State, i: nat)
    requires Inv(s) && i < |s.segments|
    ensures i in s.free <==> !exists p: nat :: p < |s.proxies| && Holds(s, p, i)
    ensures forall j, k :: 0 <= j < |s.free| && 0 <= k < |s.free| && s.free[j] == i == s.free[k] ==> j == k
  {
    hide Session;
    hide AtRest;
    hide Outcome;
    SegmentAt(s, i);
    if i in s.free {
      forall p: nat | p < |s.proxies| ensures !Holds(s, p, i) {
        assert ProxyOk(s, p);
      }
    } else {
      assert s.place[i].Held?;
      assert Holds(s, s.place[i].proxy, i);
    }
  }

  /** A segment in the pool has its semaphores at 0 and 1, no request is under way for it and no worker will
  write to it, whatever its last request was. */
  lemma HandedBack(s: State, i: nat)
    requires Inv(s) && i in s.free
    ensures i < |s.segments| && AtRest(s.segments[i])
    ensures forall k :: 0 <= k < |s.mq| ==> s.mq[k].id != i
    ensures forall w: nat :: w < |s.workers| ==> !Serves(s, w, i)
  {
    hide Session;
    hide AtRest;
    hide Outcome;
    hide Active;
    var k :| 0 <= k < |s.free| && s.free[k] == i;
    assert s.place[s.free[k]] == Free;
    SegmentAt(s, i);
    forall j | 0 <= j < |s.mq| ensures s.mq[j].id != i {
      assert RequestOk(s, s.mq[j]);
    }
    forall w: nat | w < |s.workers| ensures !Serves(s, w, i) {
      assert WorkerOk(s, w);
    }
  }

  /* ---------------------------------------------------------------- no deadlock */

  /** A proxy thread looking at the empty pool. */
  predicate Polling(s: State, step: Step) {
    && step.ByProxy? && step.p < |s.proxies| && s.free == []
    && s.proxies[step.p].pc in {WaitPool, TestPool, PollPost}
  }

  ghost predicate Working(s: State, step: Step)
    requires Typed(s)
  {
    !step.Begin? && !Polling(s, step) && Next(s, step).Some?
  }

  /** While a worker is at work on a segment, it or the proxy it serves can move. */
  lemma WorkerProgress(s: State, w: nat) returns (step: Step)
    requires Inv(s) && w < |s.workers| && s.workers[w].pc != Receive
    ensures Working(s, step)
  {
    hide Session;
    hide AtRest;
    hide Outcome;
    hide WorkerStep;
    hide ProxyStep;
    var y := s.workers[w];
    assert WorkerOk(s, w);
    SegmentAt(s, y.id);
    if !Active(s.files, y) {
      Leaves(s.files, s.segments[y.id], y);
      return ByWorker(w);
    }
    hide Active;
    var p := s.place[y.id].proxy;
    SessionNeverStuck(s.files, s.segments[y.id], s.proxies[p], y);
    if WorkerStep(s.files, s.segments[y.id], y).Some? {
      return ByWorker(w);
    }
    OnlyOnSegment(s.segments[y.id], s.proxies[p]);
    return ByProxy(p);
  }

  lemma OnlyOnSegment(g: Segment, x: Proxy)
    requires ProxyStep(g, x).Some?
    ensures OnSegment(x.pc)
  {
  }

  /** A request in the message queue is received, or its receivers are busy and can move. */
  lemma QueueProgress(s: State) returns (step: Step)
    requires Inv(s) && s.mq != [] && s.workers != []
    ensures Working(s, step)
  {
    if s.workers[0].pc == Receive {
      return ByWorker(0);
    }
    step := WorkerProgress(s, 0);
  }

  /** A segment outside the pool is on its way back. */
  lemma SegmentProgress(s: State, i: nat) returns (step: Step)
    requires Inv(s) && i < |s.place| && s.place[i].Held? && s.workers != []
    ensures Working(s, step)
  {
    hide AtRest;
    hide Outcome;
    hide WorkerStep;
    SegmentAt(s, i);
    var p, stage := s.place[i].proxy, s.place[i].stage;
    match stage
    case NotSent =>
      if s.proxies[p].pc == SendRequest && |s.mq| >= s.capacity {
        step := QueueProgress(s);
      } else {
        step := ByProxy(p);
      }
    case InQueue =>
      step := QueueProgress(s);
    case With(w) =>
      step := WorkerProgress(s, w);
    case Answered =>
      hide Session;
      ServedNeverStuck(s.files, s.segments[i], s.proxies[p]);
      step := ByProxy(p);
  }

  /** With at least one worker (and one segment) the channel cannot deadlock: while any request is unfinished some
  thread can take a step that is not a look at the empty pool. */
  lemma NoDeadlock(s: State, p: nat)
    requires Inv(s) && s.workers != [] && p < |s.proxies| && s.proxies[p].pc != Idle
    ensures exists step :: Working(s, step)
  {
    hide Session;
    hide AtRest;
    hide Outcome;
    var step: Step;
    var x := s.proxies[p];
    assert ProxyOk(s, p);
    if s.free == [] {
      assert s.place[0].Held?;
      step := SegmentProgress(s, 0);
    } else if Holding(x.pc) {
      step := SegmentProgress(s, x.id);
    } else if x.pc == WaitPool && s.semQueue == 0 {
      var q :| 0 <= q < |s.proxies| && InPool(s.proxies[q].pc);
      step := ByProxy(q);
    } else {
      step := ByProxy(p);
    }
    assert Working(s, step);
  }
}
