/** How much work the channel still has, and that every useful step uses some of it up. */
module ChannelProgress {
  import opened Collections
  import opened ChannelSession
  import opened CacheChannel
  import opened ChannelTheorems

  function Size(files: Files, path: Path): (n: nat) {
    if path in files then |files[path]| else 0
  }

  function Left(n: nat, k: int): (r: nat) {
    if 0 <= k <= n then n - k else 0
  }

  /** A bound on the steps a proxy thread still takes for its request and hands on to a worker. */
  function ProxyRank(files: Files, x: Proxy): (r: nat) {
    var n := Size(files, x.path);
    var left := Left(n, x.transferred);
    match x.pc
    case Idle => 0
    case WaitPool | TestPool | PollPost => 15 * n + 24
    case PopPool => 15 * n + 23
    case PostPool => 15 * n + 22
    case SendRequest => 15 * n + 21
    case WaitHeader => 8 * n + 9
    case ReadKind => 8 * n + 8
    case SendHeader => 8 * n + 7
    case PostChunk => 8 * left + 7
    case TestDone => 8 * left + 6
    case WaitChunk => 8 * left + 5
    case CopyChunk => 8 * left + 4
    case SendChunk => 8 * left + 3
    case AddChunk => 8 * left + 2
    case ClearSegment => 2
    case ReturnSegment => 1
    case ClearMissing => 3
    case ReturnMissing => 2
    case SendMissing => 1
  }

  function WorkerRank(files: Files, y: Worker): (r: nat) {
    var n := Size(files, y.path);
    var left := Left(n, y.offset);
    match y.pc
    case Receive => 0
    case Lookup => 7 * n + 10
    case MarkFound => 7 * n + 9
    case WriteLength => 7 * n + 8
    case PostHeader => 7 * n + 7
    case PostSlot => 7 * left + 7
    case ReadFile => 7 * left + 6
    case WaitSlot => 7 * left + 5
    case ZeroContent => 7 * left + 4
    case WriteContent => 7 * left + 3
    case WriteContentLength => 7 * left + 2
    case MarkMissing => 2
    case PostMissing => 1
  }

  function MessageRank(files: Files, m: Message): (r: nat) {
    7 * Size(files, m.path) + 11
  }

  function Proxies(files: Files, xs: seq<Proxy>): (r: nat) {
    if xs == [] then 0 else ProxyRank(files, xs[0]) + Proxies(files, xs[1..])
  }

  function Workers(files: Files, ys: seq<Worker>): (r: nat) {
    if ys == [] then 0 else WorkerRank(files, ys[0]) + Workers(files, ys[1..])
  }

  function Messages(files: Files, ms: seq<Message>): (r: nat) {
    if ms == [] then 0 else MessageRank(files, ms[0]) + Messages(files, ms[1..])
  }

  /** The work left for all requests that have begun. */
  function Work(s: State): (r: nat) {
    Proxies(s.files, s.proxies) + Workers(s.files, s.workers) + Messages(s.files, s.mq)
  }

  lemma {:induction false} ProxiesUpdate(files: Files, xs: seq<Proxy>, p: nat, x: Proxy)
    requires p < |xs|
    ensures Proxies(files, xs[p := x]) == Proxies(files, xs) - ProxyRank(files, xs[p]) + ProxyRank(files, x)
    decreases p
  {
    hide ProxyRank;
    if p == 0 {
      assert xs[p := x][1..] == xs[1..];
    } else {
      ProxiesUpdate(files, xs[1..], p - 1, x);
      assert xs[p := x][1..] == xs[1..][p - 1 := x];
    }
  }

  lemma {:induction false} WorkersUpdate(files: Files, ys: seq<Worker>, w: nat, y: Worker)
    requires w < |ys|
    ensures Workers(files, ys[w := y]) == Workers(files, ys) - WorkerRank(files, ys[w]) + WorkerRank(files, y)
    decreases w
  {
    hide WorkerRank;
    if w == 0 {
      assert ys[w := y][1..] == ys[1..];
    } else {
      WorkersUpdate(files, ys[1..], w - 1, y);
      assert ys[w := y][1..] == ys[1..][w - 1 := y];
    }
  }

  lemma {:induction false} MessagesAppend(files: Files, ms: seq<Message>, m: Message)
    ensures Messages(files, ms + [m]) == Messages(files, ms) + MessageRank(files, m)
    decreases |ms|
  {
    hide MessageRank;
    if ms == [] {
      assert ms + [m] == [m];
    } else {
      MessagesAppend(files, ms[1..], m);
      assert (ms + [m])[1..] == ms[1..] + [m];
    }
  }

  /* ---------------------------------------------------------------- looking at the pool */

  predicate AtPool(pc: ProxyPc) {
    pc in {WaitPool, TestPool, PollPost}
  }

  /** A proxy thread on its way to the pool. */
  predicate Searching(s: State, step: Step) {
    step.ByProxy? && step.p < |s.proxies| && AtPool(s.proxies[step.p].pc)
  }

  function SearchRank(x: Proxy): (r: nat) {
    match x.pc
    case PollPost => 2
    case WaitPool => 1
    case _ => 0
  }

  function Search(xs: seq<Proxy>): (r: nat) {
    if xs == [] then 0 else SearchRank(xs[0]) + Search(xs[1..])
  }

  lemma {:induction false} SearchUpdate(xs: seq<Proxy>, p: nat, x: Proxy)
    requires p < |xs|
    ensures Search(xs[p := x]) == Search(xs) - SearchRank(xs[p]) + SearchRank(x)
    decreases p
  {
    if p == 0 {
      assert xs[p := x][1..] == xs[1..];
    } else {
      SearchUpdate(xs[1..], p - 1, x);
      assert xs[p := x][1..] == xs[1..][p - 1 := x];
    }
  }

  /* ---------------------------------------------------------------- every step */

  lemma ProxyRankDrops(files: Files, g: Segment, x: Proxy, v: Server)
    requires FilesFit(files) && Session(files, g, x, v) && ProxyStep(g, x).Some?
    ensures ProxyRank(files, ProxyStep(g, x).value.1) < ProxyRank(files, x)
  {
    if v.Serving? && !BeforeHeader(v.worker.pc) {
      var y := v.worker;
      TransferRankDrops(files, g, x, if y.pc == PostSlot then y.offset - |y.buffer| else y.offset, Writing(y.pc));
    } else if v == Served && x.path in files {
      TransferRankDrops(files, g, x, |files[x.path]|, false);
    }
  }

  lemma TransferRankDrops(files: Files, g: Segment, x: Proxy, posted: int, writing: bool)
    requires FilesFit(files) && x.path in files && Transfer(g, x, files[x.path], posted, writing)
    requires ProxyStep(g, x).Some?
    ensures ProxyRank(files, ProxyStep(g, x).value.1) < ProxyRank(files, x)
  {
    SmallSize(|files[x.path]|);
    hide ToSize;
    hide ToInt;
  }

  lemma WorkerRankDrops(files: Files, g: Segment, x: Proxy, y: Worker)
    requires FilesFit(files) && Session(files, g, x, Serving(y)) && WorkerStep(files, g, y).Some?
    ensures WorkerRank(files, WorkerStep(files, g, y).value.1) < WorkerRank(files, y)
  {
  }

  lemma ProxyUsesWork(s: State, p: nat)
    requires Inv(s) && p < |s.proxies| && NextProxy(s, p).Some? && !AtPool(s.proxies[p].pc)
    ensures Work(NextProxy(s, p).value) < Work(s)
  {
    if OnSegment(s.proxies[p].pc) {
      OnSegmentUsesWork(s, p);
    } else {
      AroundUsesWork(s, p);
    }
  }

  lemma OnSegmentUsesWork(s: State, p: nat)
    requires Inv(s) && p < |s.proxies| && NextProxy(s, p).Some? && OnSegment(s.proxies[p].pc)
    ensures Work(NextProxy(s, p).value) < Work(s)
  {
    hide Session;
    hide AtRest;
    hide Active;
    hide Outcome;
    hide Pool;
    hide PoolLock;
    hide Requests;
    hide Segments;
    hide ProxyRank;
    hide ProxyStep;
    var x, s' := s.proxies[p], NextProxy(s, p).value;
    ProxiesUpdate(s.files, s.proxies, p, s'.proxies[p]);
    assert ProxyOk(s, p);
    SegmentAt(s, x.id);
    ProxyRankDrops(s.files, s.segments[x.id], x, ServerOf(s, s.place[x.id].stage));
  }

  lemma AroundUsesWork(s: State, p: nat)
    requires Typed(s) && p < |s.proxies| && NextProxy(s, p).Some?
    requires !AtPool(s.proxies[p].pc) && !OnSegment(s.proxies[p].pc)
    ensures Work(NextProxy(s, p).value) < Work(s)
  {
    hide ProxyStep;
    var x, s' := s.proxies[p], NextProxy(s, p).value;
    ProxiesUpdate(s.files, s.proxies, p, s'.proxies[p]);
    if x.pc == SendRequest {
      MessagesAppend(s.files, s.mq, Message(x.id, x.path));
    }
  }

  lemma WorkerUsesWork(s: State, w: nat)
    requires Inv(s) && w < |s.workers| && NextWorker(s, w).Some?
    ensures Work(NextWorker(s, w).value) < Work(s)
  {
    hide Session;
    hide AtRest;
    hide Active;
    hide Outcome;
    hide Pool;
    hide PoolLock;
    hide Requests;
    hide Segments;
    hide WorkerStep;
    var y, s' := s.workers[w], NextWorker(s, w).value;
    WorkersUpdate(s.files, s.workers, w, s'.workers[w]);
    if y.pc != Receive {
      assert WorkerOk(s, w);
      SegmentAt(s, y.id);
      if Active(s.files, y) {
        WorkerRankDrops(s.files, s.segments[y.id], s.proxies[s.place[y.id].proxy], y);
      } else {
        Leaves(s.files, s.segments[y.id], y);
        LeavingRank(s.files, y);
      }
    }
  }

  lemma LeavingRank(files: Files, y: Worker)
    requires y.pc != Receive && !Active(files, y)
    ensures WorkerRank(files, y) > 0
  {
  }

  lemma SearchUsesNone(s: State, p: nat)
    requires Typed(s) && p < |s.proxies| && NextProxy(s, p).Some? && AtPool(s.proxies[p].pc)
    ensures var s' := NextProxy(s, p).value;
            || Work(s') < Work(s)
            || (Work(s') == Work(s) && (s.free == [] || Search(s'.proxies) < Search(s.proxies)))
  {
    var x' := NextProxy(s, p).value.proxies[p];
    ProxiesUpdate(s.files, s.proxies, p, x');
    SearchUpdate(s.proxies, p, x');
  }

  /** Every step uses up work, except a look at the pool, which uses none; and looks at a pool that is not empty
  come to an end too. */
  lemma StepUsesWork(s: State, step: Step)
    requires Inv(s) && !step.Begin? && Next(s, step).Some?
    ensures var s' := Next(s, step).value;
            || Work(s') < Work(s)
            || (Searching(s, step) && Work(s') == Work(s)
                && (Polling(s, step) || Search(s'.proxies) < Search(s.proxies)))
  {
    hide NextProxy;
    hide NextWorker;
    hide Work;
    InvTyped(s);
    hide Inv;
    if step.ByWorker? {
      WorkerUsesWork(s, step.w);
    } else if Searching(s, step) {
      SearchUsesNone(s, step.p);
    } else {
      ProxyUsesWork(s, step.p);
    }
  }

  /** What a new request adds. */
  function Cost(files: Files, path: Path): (c: nat) {
    15 * Size(files, path) + 24
  }

  lemma BeginAddsWork(s: State, p: nat, path: Path)
    requires p < |s.proxies| && s.proxies[p].pc == Idle
    ensures NextBegin(s, p, path).Some? && Work(NextBegin(s, p, path).value) == Work(s) + Cost(s.files, path)
  {
    ProxiesUpdate(s.files, s.proxies, p, NextBegin(s, p, path).value.proxies[p]);
  }

  /** The steps of a run that are neither a new request nor a look at the pool. */
  ghost function UsefulSteps(s: State, steps: seq<Step>): (n: nat)
    decreases |steps|
  {
    if steps == [] || !Typed(s) || Next(s, steps[0]).None? then 0
    else (if steps[0].Begin? || Searching(s, steps[0]) then 0 else 1) + UsefulSteps(Next(s, steps[0]).value, steps[1..])
  }

  function Budget(files: Files, steps: seq<Step>): (n: nat) {
    if steps == [] then 0
    else (if steps[0].Begin? then Cost(files, steps[0].path) else 0) + Budget(files, steps[1..])
  }

  /** However the threads are scheduled, a run takes no more useful steps than its requests pay for. */
  lemma {:induction false} WorkIsBounded(s: State, steps: seq<Step>)
    requires Inv(s) && Run(s, steps).Some?
    ensures UsefulSteps(s, steps) + Work(Run(s, steps).value) <= Work(s) + Budget(s.files, steps)
    decreases |steps|
  {
    hide Inv;
    hide Work;
    hide Cost;
    if steps != [] {
      InvTyped(s);
      var s' := Next(s, steps[0]).value;
      NextKeepsInv(s, steps[0]);
      SameFiles(s, steps[0]);
      WorkIsBounded(s', steps[1..]);
      if steps[0].Begin? {
        BeginAddsWork(s, steps[0].p, steps[0].path);
      } else {
        StepUsesWork(s, steps[0]);
      }
    }
  }

  lemma SameFiles(s: State, step: Step)
    requires Typed(s) && Next(s, step).Some?
    ensures Next(s, step).value.files == s.files
  {
  }

  lemma {:induction false} IdleNoWork(files: Files, xs: seq<Proxy>)
    requires Proxies(files, xs) == 0
    ensures forall p :: 0 <= p < |xs| ==> xs[p].pc == Idle
    decreases |xs|
  {
    if xs != [] {
      IdleNoWork(files, xs[1..]);
      forall p | 0 <= p < |xs| ensures xs[p].pc == Idle {
        if p > 0 {
          assert xs[p] == xs[1..][p - 1];
        }
      }
    }
  }

  /** When the work is used up every request is finished. */
  lemma NoWorkLeft(s: State)
    requires Inv(s) && Work(s) == 0
    ensures forall p :: 0 <= p < |s.proxies| ==> s.proxies[p].pc == Idle
  {
    IdleNoWork(s.files, s.proxies);
  }
}
