/** The whole channel: many proxy threads, many cache workers, a pool of segments and one message queue. */
module CacheChannel {
  import opened Collections
  import opened ChannelSession

  datatype Message = Message(id: nat, path: Path)

  /** Where a segment is. An auxiliary record of what happened; no step looks at it to decide anything. */
  datatype Place = Free | Held(proxy: nat, stage: Stage)
  datatype Stage = NotSent | InQueue | With(worker: nat) | Answered

  /** `free` is shm_stq, `semQueue` is /sem_queue, `mq` is /message_channel with room for `capacity` messages. */
  datatype State = State(files: Files, capacity: nat, free: seq<nat>, semQueue: nat, mq: seq<Message>,
                         segments: seq<Segment>, place: seq<Place>, proxies: seq<Proxy>, workers: seq<Worker>)

  datatype Step = Begin(p: nat, path: Path) | ByProxy(p: nat) | ByWorker(w: nat)

  ghost predicate Typed(s: State) {
    && 0 < |s.segments| == |s.place|
    && (forall k :: 0 <= k < |s.free| ==> s.free[k] < |s.segments|)
    && (forall k :: 0 <= k < |s.mq| ==> s.mq[k].id < |s.segments|)
    && (forall p :: 0 <= p < |s.proxies| ==> s.proxies[p].id < |s.segments|)
    && (forall w :: 0 <= w < |s.workers| ==> s.workers[w].id < |s.segments|)
  }

  /* ---------------------------------------------------------------- initial state */

  /** The loop of `main` that creates the segments. */
  method CreatePool(n: nat) returns (free: seq<nat>, segments: seq<Segment>)
    ensures free == seq(n, i => i)
    ensures |segments| == n && forall i :: 0 <= i < n ==> AtRest(segments[i])
  {
    free, segments := [], [];
    var i := 0;
    while i < n
      invariant i <= n && free == seq(i, j => j)
      invariant |segments| == i && forall j :: 0 <= j < i ==> AtRest(segments[j])
    {
      segments := segments + [Segment(0, 0, 0, Zeroed(CHUNK), 0, 1)];
      free := free + [i];
      i := i + 1;
    }
  }

  ghost predicate Init(s: State) {
    && 0 < |s.segments| == |s.place| && 0 < s.capacity && s.semQueue == 1 && s.mq == []
    && s.free == seq(|s.segments|, i => i)
    && (forall i :: 0 <= i < |s.segments| ==> AtRest(s.segments[i]) && s.place[i] == Free)
    && (forall p :: 0 <= p < |s.proxies| ==> s.proxies[p] == Proxy(Idle, "", 0, 0, [], NoHeader, []))
    && (forall w :: 0 <= w < |s.workers| ==> s.workers[w] == Worker(Receive, "", 0, 0, []))
    && FilesFit(s.files)
  }

  /* ---------------------------------------------------------------- steps */

  function SetProxy(s: State, p: nat, x: Proxy): State
    requires p < |s.proxies|
  {
    s.(proxies := s.proxies[p := x])
  }

  function SetStage(place: Place, stage: Stage): Place {
    if place.Held? then place.(stage := stage) else place
  }

  /** One statement of `handle_with_cache`; None while the thread has to wait. */
  ghost function NextProxy(s: State, p: nat): (r: Option<State>)
    requires Typed(s) && p < |s.proxies|
  {
    var x := s.proxies[p];
    match x.pc
    case Idle => None
    case WaitPool =>
      if s.semQueue == 0 then None else Some(SetProxy(s, p, x.(pc := TestPool)).(semQueue := s.semQueue - 1))
    case TestPool => Some(SetProxy(s, p, x.(pc := if s.free == [] then PollPost else PopPool)))
    case PollPost => Some(SetProxy(s, p, x.(pc := WaitPool)).(semQueue := s.semQueue + 1))
    case PopPool =>
      if s.free == [] then None
      else Some(SetProxy(s, p, x.(pc := PostPool, id := s.free[0]))
                .(free := s.free[1..], place := s.place[s.free[0] := Held(p, NotSent)]))
    case PostPool => Some(SetProxy(s, p, x.(pc := SendRequest)).(semQueue := s.semQueue + 1))
    case SendRequest =>
      if |s.mq| >= s.capacity then None
      else Some(SetProxy(s, p, x.(pc := WaitHeader))
                .(mq := s.mq + [Message(x.id, x.path)], place := s.place[x.id := SetStage(s.place[x.id], InQueue)]))
    case ReturnMissing =>
      Some(SetProxy(s, p, x.(pc := SendMissing)).(free := s.free + [x.id], place := s.place[x.id := Free]))
    case SendMissing => Some(SetProxy(s, p, x.(pc := Idle, header := NotFound)))
    case ReturnSegment =>
      Some(SetProxy(s, p, x.(pc := Idle)).(free := s.free + [x.id], place := s.place[x.id := Free]))
    case _ =>
      match ProxyStep(s.segments[x.id], x)
      case None => None
      case Some((g', x')) => Some(SetProxy(s, p, x').(segments := s.segments[x.id := g']))
  }

  /** One statement of `worker_thread`. */
  ghost function NextWorker(s: State, w: nat): (r: Option<State>)
    requires Typed(s) && w < |s.workers|
  {
    var y := s.workers[w];
    if y.pc == Receive then
      if s.mq == [] then None
      else
        var m := s.mq[0];
        Some(s.(workers := s.workers[w := Worker(Lookup, m.path, m.id, 0, [])], mq := s.mq[1..],
                place := s.place[m.id := SetStage(s.place[m.id], With(w))]))
    else
      match WorkerStep(s.files, s.segments[y.id], y)
      case None => None
      case Some((g', y')) =>
        var s' := s.(workers := s.workers[w := y'], segments := s.segments[y.id := g']);
        if Active(s.files, y) && !Active(s.files, y')
        then Some(s'.(place := s.place[y.id := SetStage(s.place[y.id], Answered)]))
        else Some(s')
  }

  /** A new request reaches an idle proxy thread. */
  function NextBegin(s: State, p: nat, path: Path): (r: Option<State>)
    requires p < |s.proxies|
  {
    if s.proxies[p].pc != Idle then None
    else Some(SetProxy(s, p, Proxy(WaitPool, path, s.proxies[p].id, 0, [], NoHeader, [])))
  }

  ghost function Next(s: State, step: Step): (r: Option<State>)
    requires Typed(s)
  {
    match step
    case Begin(p, path) => if p < |s.proxies| then NextBegin(s, p, path) else None
    case ByProxy(p) => if p < |s.proxies| then NextProxy(s, p) else None
    case ByWorker(w) => if w < |s.workers| then NextWorker(s, w) else None
  }

  /* ---------------------------------------------------------------- the invariant */

  ghost function ServerOf(s: State, stage: Stage): (v: Server)
    requires stage.With? ==> stage.worker < |s.workers|
  {
    match stage
    case NotSent => Unsent
    case InQueue => Queued
    case With(w) => Serving(s.workers[w])
    case Answered => Served
  }

  ghost predicate SegmentOk(s: State, i: nat)
    requires i < |s.segments| == |s.place|
  {
    match s.place[i]
    case Free => AtRest(s.segments[i])
    case Held(p, stage) =>
      && p < |s.proxies| && Holding(s.proxies[p].pc) && s.proxies[p].id == i
      && (stage.With? ==> stage.worker < |s.workers| && s.workers[stage.worker].id == i
                          && Active(s.files, s.workers[stage.worker]))
      && Session(s.files, s.segments[i], s.proxies[p], ServerOf(s, stage))
  }

  ghost predicate Segments(s: State)
    requires |s.segments| == |s.place|
  {
    forall i: nat :: i < |s.segments| ==> SegmentOk(s, i)
  }

  /** The pool lists exactly the free segments, each once. */
  ghost predicate Pool(s: State)
    requires Typed(s)
  {
    && (forall j, k :: 0 <= j < k < |s.free| ==> s.free[j] != s.free[k])
    && (forall k :: 0 <= k < |s.free| ==> s.place[s.free[k]] == Free)
    && (forall i: nat :: i < |s.place| && s.place[i] == Free ==> i in s.free)
  }

  predicate InPool(pc: ProxyPc) {
    pc in {TestPool, PollPost, PopPool, PostPool}
  }

  /** /sem_queue is a mutex. */
  ghost predicate PoolLock(s: State) {
    && s.semQueue <= 1
    && (s.semQueue == 1 ==> forall p :: 0 <= p < |s.proxies| ==> !InPool(s.proxies[p].pc))
    && (s.semQueue == 0 ==> exists p :: 0 <= p < |s.proxies| && InPool(s.proxies[p].pc))
    && (forall p, q | 0 <= p < |s.proxies| && 0 <= q < |s.proxies| && InPool(s.proxies[p].pc)
          :: InPool(s.proxies[q].pc) ==> p == q)
    && (forall p :: 0 <= p < |s.proxies| && s.proxies[p].pc == PopPool ==> s.free != [])
  }

  /** The message queue holds exactly the requests that are sent and not yet received, each once. */
  ghost predicate Requests(s: State)
    requires Typed(s)
  {
    && (forall j, k :: 0 <= j < k < |s.mq| ==> s.mq[j].id != s.mq[k].id)
    && (forall k :: 0 <= k < |s.mq| ==> RequestOk(s, s.mq[k]))
    && (forall i: nat :: i < |s.place| && s.place[i].Held? && s.place[i].stage == InQueue ==>
          exists k :: 0 <= k < |s.mq| && s.mq[k].id == i)
  }

  ghost predicate RequestOk(s: State, m: Message)
    requires m.id < |s.place|
  {
    var l := s.place[m.id];
    l.Held? && l.stage == InQueue && l.proxy < |s.proxies| && s.proxies[l.proxy].path == m.path
  }

  /** The outcome of the last request of a thread that is done with it. */
  ghost predicate Outcome(files: Files, x: Proxy) {
    match x.header
    case NoHeader => x.sent == []
    case NotFound => x.path !in files && x.sent == []
    case Found(n) => x.path in files && n == |files[x.path]| && x.sent == files[x.path]
  }

  ghost predicate ProxyOk(s: State, p: nat)
    requires Typed(s) && p < |s.proxies|
  {
    var x := s.proxies[p];
    if Holding(x.pc) then s.place[x.id].Held? && s.place[x.id].proxy == p
    else if x.pc == Idle then Outcome(s.files, x)
    else x.sent == [] && x.header == NoHeader && x.transferred == 0 && (x.pc == SendMissing ==> x.path !in s.files)
  }

  ghost predicate WorkerOk(s: State, w: nat)
    requires Typed(s) && w < |s.workers|
  {
    var y := s.workers[w];
    Active(s.files, y) ==> s.place[y.id].Held? && s.place[y.id].stage == With(w)
  }

  ghost predicate Inv(s: State) {
    && Typed(s) && FilesFit(s.files) && 0 < s.capacity && |s.mq| <= s.capacity
    && Segments(s) && Pool(s) && PoolLock(s) && Requests(s)
    && (forall p: nat :: p < |s.proxies| ==> ProxyOk(s, p))
    && (forall w: nat :: w < |s.workers| ==> WorkerOk(s, w))
  }

  /* ---------------------------------------------------------------- every step keeps it */

  lemma SegmentFrame(s: State, s': State, i: nat)
    requires i < |s.segments| == |s.place| && |s'.segments| == |s'.place| == |s.segments|
    requires SegmentOk(s, i) && s'.files == s.files
    requires s'.segments[i] == s.segments[i] && s'.place[i] == s.place[i]
    requires |s'.proxies| == |s.proxies| && |s'.workers| == |s.workers|
    requires s.place[i].Held? ==> s'.proxies[s.place[i].proxy] == s.proxies[s.place[i].proxy]
    requires s.place[i].Held? && s.place[i].stage.With? ==>
               s'.workers[s.place[i].stage.worker] == s.workers[s.place[i].stage.worker]
    ensures SegmentOk(s', i)
  {
  }

  /** What a step that only changes proxy p, its segment and the pool semaphore has to show. */
  ghost predicate ProxyLocal(s: State, s': State, p: nat)
    requires Typed(s) && p < |s.proxies|
  {
    var x := s.proxies[p];
    && |s'.proxies| == |s.proxies| && |s'.segments| == |s.segments|
    && var x', g' := s'.proxies[p], s'.segments[x.id];
       && s' == s.(proxies := s.proxies[p := x'], segments := s.segments[x.id := g'], semQueue := s'.semQueue)
       && x'.id == x.id && Holding(x'.pc) == Holding(x.pc)
       && (if Holding(x.pc) then x'.path == x.path
           else g' == s.segments[x.id] && ProxyOk(s', p))
  }

  lemma ProxyLocalKeeps(s: State, s': State, p: nat)
    requires Inv(s) && p < |s.proxies| && ProxyLocal(s, s', p) && PoolLock(s')
    requires Holding(s.proxies[p].pc) ==> SegmentOk(s', s.proxies[p].id)
    ensures Inv(s')
  {
    hide Session;
    hide AtRest;
    hide Outcome;
    var x := s.proxies[p];
    assert ProxyOk(s, p);
    forall i: nat | i < |s.segments| ensures SegmentOk(s', i) {
      assert SegmentOk(s, i);
      if !(Holding(x.pc) && i == x.id) {
        SegmentFrame(s, s', i);
      }
    }
    forall k | 0 <= k < |s.mq| ensures RequestOk(s', s'.mq[k]) {
      assert RequestOk(s, s.mq[k]) && SegmentOk(s, s.mq[k].id);
    }
    forall q: nat | q < |s.proxies| ensures ProxyOk(s', q) {
      assert ProxyOk(s, q);
    }
    forall w: nat | w < |s.workers| ensures WorkerOk(s', w) {
      assert WorkerOk(s, w);
    }
  }

  /** The pool mutex is kept by a step of p that takes it, gives it back or does not touch it. */
  lemma PoolLockKeeps(s: State, s': State, p: nat)
    requires PoolLock(s) && p < |s.proxies| == |s'.proxies|
    requires forall q :: 0 <= q < |s.proxies| && q != p ==> s'.proxies[q] == s.proxies[q]
    requires s'.semQueue == s.semQueue - (if InPool(s'.proxies[p].pc) then 1 else 0)
                            + (if InPool(s.proxies[p].pc) then 1 else 0)
    requires s'.free != [] || s'.free == s.free || InPool(s.proxies[p].pc)
    requires s'.proxies[p].pc == PopPool ==> s'.free != []
    ensures PoolLock(s')
  {
    if InPool(s'.proxies[p].pc) {
      assert InPool(s.proxies[p].pc) || s.semQueue == 1;
    } else if !InPool(s.proxies[p].pc) && s.semQueue == 0 {
      var q :| 0 <= q < |s.proxies| && InPool(s.proxies[q].pc);
      assert InPool(s'.proxies[q].pc);
    }
  }

  lemma BeginKeeps(s: State, p: nat, path: Path)
    requires Inv(s) && p < |s.proxies| && NextBegin(s, p, path).Some?
    ensures Inv(NextBegin(s, p, path).value)
  {
    var s' := NextBegin(s, p, path).value;
    PoolLockKeeps(s, s', p);
    ProxyLocalKeeps(s, s', p);
  }

  /** The statements before the pop and after the last use of the segment. */
  lemma OutsideKeeps(s: State, p: nat)
    requires Inv(s) && p < |s.proxies| && NextProxy(s, p).Some?
    requires s.proxies[p].pc in {WaitPool, TestPool, PollPost, SendMissing}
    ensures Inv(NextProxy(s, p).value)
  {
    hide ProxyStep;
    hide Session;
    hide AtRest;
    hide Segments;
    hide Requests;
    hide Pool;
    var s' := NextProxy(s, p).value;
    assert ProxyOk(s, p);
    PoolLockKeeps(s, s', p);
    hide PoolLock;
    ProxyLocalKeeps(s, s', p);
  }

  predicate OnSegment(pc: ProxyPc) {
    Holding(pc) && pc !in {PostPool, SendRequest, ReturnMissing, ReturnSegment}
  }

  lemma OnSegmentKeeps(s: State, p: nat)
    requires Inv(s) && p < |s.proxies| && NextProxy(s, p).Some? && OnSegment(s.proxies[p].pc)
    ensures Inv(NextProxy(s, p).value)
  {
    hide Session;
    hide AtRest;
    hide Outcome;
    hide ProxyStep;
    var x, s' := s.proxies[p], NextProxy(s, p).value;
    assert ProxyOk(s, p) && SegmentOk(s, x.id);
    ProxyKeeps(s.files, s.segments[x.id], x, ServerOf(s, s.place[x.id].stage));
    NotInPool(s.segments[x.id], x);
    PoolLockKeeps(s, s', p);
    ProxyLocalKeeps(s, s', p);
  }

  lemma NotInPool(g: Segment, x: Proxy)
    requires ProxyStep(g, x).Some?
    ensures !InPool(x.pc) && !InPool(ProxyStep(g, x).value.1.pc)
  {
  }

  lemma PostPoolKeeps(s: State, p: nat)
    requires Inv(s) && p < |s.proxies| && s.proxies[p].pc == PostPool
    ensures Inv(NextProxy(s, p).value)
  {
    hide ProxyStep;
    var x, s' := s.proxies[p], NextProxy(s, p).value;
    assert ProxyOk(s, p) && SegmentOk(s, x.id);
    PoolLockKeeps(s, s', p);
    ProxyLocalKeeps(s, s', p);
  }

  /** s' differs from s only around segment i. */
  ghost predicate Elsewhere(s: State, s': State, i: nat) {
    && s'.files == s.files && s'.capacity == s.capacity
    && |s'.segments| == |s.segments| && |s'.place| == |s.place|
    && |s'.proxies| == |s.proxies| && |s'.workers| == |s.workers|
    && (forall j :: 0 <= j < |s.segments| && j != i ==> s'.segments[j] == s.segments[j])
    && (forall j :: 0 <= j < |s.place| && j != i ==> s'.place[j] == s.place[j])
    && (forall q :: 0 <= q < |s.proxies| && Holding(s.proxies[q].pc) && s.proxies[q].id != i ==>
                      s'.proxies[q] == s.proxies[q])
    && (forall v :: 0 <= v < |s.workers| && Active(s.files, s.workers[v]) && s.workers[v].id != i ==>
                      s'.workers[v] == s.workers[v])
  }

  lemma ElsewhereSegments(s: State, s': State, i: nat)
    requires Inv(s) && Elsewhere(s, s', i) && i < |s.segments| && SegmentOk(s', i)
    ensures Segments(s')
  {
    hide Session;
    hide AtRest;
    hide Active;
    forall j: nat | j < |s.segments| ensures SegmentOk(s', j) {
      assert SegmentOk(s, j);
      if j != i {
        SegmentFrame(s, s', j);
      }
    }
  }

  lemma ElsewhereRequests(s: State, s': State, i: nat)
    requires Inv(s) && Elsewhere(s, s', i) && i < |s.segments| && Typed(s')
    requires forall j, k :: 0 <= j < k < |s'.mq| ==> s'.mq[j].id != s'.mq[k].id
    requires forall k :: 0 <= k < |s'.mq| ==> s'.mq[k] in s.mq || s'.mq[k].id == i
    requires forall k :: 0 <= k < |s'.mq| && s'.mq[k].id == i ==> RequestOk(s', s'.mq[k])
    requires forall k :: 0 <= k < |s.mq| && s.mq[k].id != i ==> s.mq[k] in s'.mq
    requires s'.place[i].Held? && s'.place[i].stage == InQueue ==> exists k :: 0 <= k < |s'.mq| && s'.mq[k].id == i
    ensures Requests(s')
  {
    hide Session;
    hide AtRest;
    hide Active;
    forall k | 0 <= k < |s'.mq| ensures RequestOk(s', s'.mq[k]) {
      var m := s'.mq[k];
      if m.id != i {
        var j :| 0 <= j < |s.mq| && s.mq[j] == m;
        assert RequestOk(s, s.mq[j]) && SegmentOk(s, m.id);
      }
    }
    forall j: nat | j < |s'.place| && s'.place[j].Held? && s'.place[j].stage == InQueue
      ensures exists k :: 0 <= k < |s'.mq| && s'.mq[k].id == j
    {
      if j != i {
        assert s.place[j].Held? && s.place[j].stage == InQueue;
        var k :| 0 <= k < |s.mq| && s.mq[k].id == j;
        assert s.mq[k] in s'.mq;
      }
    }
  }

  lemma ElsewhereThreads(s: State, s': State, i: nat)
    requires Inv(s) && Elsewhere(s, s', i) && i < |s.segments| && Typed(s')
    requires forall q: nat | q < |s.proxies| ::
               s'.proxies[q] != s.proxies[q] || (Holding(s.proxies[q].pc) && s.proxies[q].id == i) ==> ProxyOk(s', q)
    requires forall v: nat | v < |s.workers| ::
               s'.workers[v] != s.workers[v] || (Active(s.files, s.workers[v]) && s.workers[v].id == i) ==>
                 WorkerOk(s', v)
    ensures forall q: nat :: q < |s'.proxies| ==> ProxyOk(s', q)
    ensures forall v: nat :: v < |s'.workers| ==> WorkerOk(s', v)
  {
    hide Outcome;
    hide Active;
    forall q: nat | q < |s'.proxies| ensures ProxyOk(s', q) {
      assert ProxyOk(s, q);
    }
    forall v: nat | v < |s'.workers| ensures WorkerOk(s', v) {
      assert WorkerOk(s, v);
    }
  }

  lemma PopInv(s: State, s': State, p: nat)
    requires Inv(s) && p < |s.proxies| && s.proxies[p].pc == PopPool && s.free != []
    requires s' == SetProxy(s, p, s.proxies[p].(pc := PostPool, id := s.free[0]))
                   .(free := s.free[1..], place := s.place[s.free[0] := Held(p, NotSent)])
    ensures Inv(s')
  {
    hide Session;
    hide Outcome;
    hide Active;
    hide Segments;
    hide Requests;
    var id := s.free[0];
    SegmentAt(s, id);
    assert ProxyOk(s, p) && s.place[id] == Free;
    SessionBegins(s.files, s.segments[id], s'.proxies[p]);
    PoolLockKeeps(s, s', p);
    PopPoolOk(s, s', id);
    hide AtRest;
    hide Pool;
    hide PoolLock;
    ElsewhereSegments(s, s', id);
    SameRequests(s, s', id);
    forall q: nat | q < |s.proxies| ensures !(Holding(s.proxies[q].pc) && s.proxies[q].id == id) {
      assert ProxyOk(s, q);
    }
    forall v: nat | v < |s.workers| ensures !(Active(s.files, s.workers[v]) && s.workers[v].id == id) {
      assert WorkerOk(s, v);
    }
    ElsewhereThreads(s, s', id);
  }

  lemma PopKeeps(s: State, p: nat)
    requires Inv(s) && p < |s.proxies| && s.proxies[p].pc == PopPool
    ensures NextProxy(s, p).Some? && Inv(NextProxy(s, p).value)
  {
    hide ProxyStep;
    var s' := NextProxy(s, p).value;
    PopInv(s, s', p);
  }

  lemma PopPoolOk(s: State, s': State, id: nat)
    requires Typed(s) && Typed(s') && Pool(s) && s.free != [] && id == s.free[0]
    requires s'.free == s.free[1..] && |s'.place| == |s.place| && s'.place[id].Held?
    requires forall j :: 0 <= j < |s.place| && j != id ==> s'.place[j] == s.place[j]
    ensures Pool(s')
  {
    forall i: nat | i < |s'.place| && s'.place[i] == Free ensures i in s'.free {
      assert i in s.free && s.free == [id] + s'.free;
    }
  }

  lemma SendingSession(files: Files, g: Segment, x: Proxy, v: Server)
    requires Session(files, g, x, v) && x.pc == SendRequest
    ensures v == Unsent && Session(files, g, x.(pc := WaitHeader), Queued)
  {
  }

  lemma QueuedSession(files: Files, g: Segment, x: Proxy)
    requires Session(files, g, x, Queued)
    ensures Session(files, g, x, Serving(Worker(Lookup, x.path, x.id, 0, [])))
  {
  }

  /** Nobody but its holder and its server is concerned with segment i. */
  lemma Alone(s: State, i: nat)
    requires Inv(s) && i < |s.place| && s.place[i].Held?
    ensures forall q: nat :: q < |s.proxies| && Holding(s.proxies[q].pc) && s.proxies[q].id == i ==> q == s.place[i].proxy
    ensures forall v: nat :: v < |s.workers| && Active(s.files, s.workers[v]) && s.workers[v].id == i ==>
              s.place[i].stage == With(v)
    ensures s.place[i].stage != InQueue ==> forall k :: 0 <= k < |s.mq| ==> s.mq[k].id != i
  {
    hide Outcome;
    hide Active;
    forall q: nat | q < |s.proxies| && Holding(s.proxies[q].pc) && s.proxies[q].id == i ensures q == s.place[i].proxy {
      assert ProxyOk(s, q);
    }
    forall v: nat | v < |s.workers| && Active(s.files, s.workers[v]) && s.workers[v].id == i
      ensures s.place[i].stage == With(v)
    {
      assert WorkerOk(s, v);
    }
    if s.place[i].stage != InQueue {
      forall k | 0 <= k < |s.mq| ensures s.mq[k].id != i {
        assert RequestOk(s, s.mq[k]);
      }
    }
  }

  lemma PoolFrame(s: State, s': State, i: nat)
    requires Typed(s) && Typed(s') && Pool(s) && i < |s.place| == |s'.place| && s'.free == s.free
    requires s.place[i].Held? && s'.place[i].Held?
    requires forall j :: 0 <= j < |s.place| && j != i ==> s'.place[j] == s.place[j]
    ensures Pool(s')
  {
  }

  lemma SendInv(s: State, s': State, p: nat)
    requires Inv(s) && p < |s.proxies| && s.proxies[p].pc == SendRequest && |s.mq| < s.capacity
    requires var x := s.proxies[p];
             s' == SetProxy(s, p, x.(pc := WaitHeader))
                   .(mq := s.mq + [Message(x.id, x.path)], place := s.place[x.id := SetStage(s.place[x.id], InQueue)])
    ensures Inv(s')
  {
    hide Session;
    hide Outcome;
    hide AtRest;
    hide Active;
    hide Segments;
    hide Pool;
    hide PoolLock;
    var x := s.proxies[p];
    assert ProxyOk(s, p);
    SegmentAt(s, x.id);
    SendingSession(s.files, s.segments[x.id], x, ServerOf(s, s.place[x.id].stage));
    Alone(s, x.id);
    PoolLockKeeps(s, s', p);
    assert s'.place[x.id] == Held(p, InQueue);
    PoolFrame(s, s', x.id);
    ElsewhereSegments(s, s', x.id);
    assert Requests(s') by {
      assert s'.mq[|s.mq|].id == x.id;
      forall k | 0 <= k < |s.mq| ensures s.mq[k] in s'.mq {
        assert s'.mq[k] == s.mq[k];
      }
      ElsewhereRequests(s, s', x.id);
    }
    hide Requests;
    ElsewhereThreads(s, s', x.id);
  }

  lemma SendKeeps(s: State, p: nat)
    requires Inv(s) && p < |s.proxies| && s.proxies[p].pc == SendRequest && NextProxy(s, p).Some?
    ensures Inv(NextProxy(s, p).value)
  {
    hide ProxyStep;
    var s' := NextProxy(s, p).value;
    SendInv(s, s', p);
  }

  lemma SegmentAt(s: State, i: nat)
    requires Inv(s) && i < |s.segments|
    ensures SegmentOk(s, i)
  {
  }

  lemma ReturnInv(s: State, s': State, p: nat)
    requires Inv(s) && p < |s.proxies| && s.proxies[p].pc in {ReturnMissing, ReturnSegment}
    requires var x := s.proxies[p];
             s' == SetProxy(s, p, x.(pc := if x.pc == ReturnMissing then SendMissing else Idle))
                   .(free := s.free + [x.id], place := s.place[x.id := Free])
    ensures Inv(s')
  {
    hide Session;
    hide Active;
    hide AtRest;
    hide Segments;
    hide Pool;
    hide PoolLock;
    hide Requests;
    var x := s.proxies[p];
    assert ProxyOk(s, p);
    SegmentAt(s, x.id);
    ReturnedAtRest(s.files, s.segments[x.id], x, ServerOf(s, s.place[x.id].stage));
    Alone(s, x.id);
    PoolLockKeeps(s, s', p);
    ReturnPoolOk(s, s', x.id);
    ElsewhereSegments(s, s', x.id);
    SameRequests(s, s', x.id);
    ElsewhereThreads(s, s', x.id);
  }

  lemma ReturnKeeps(s: State, p: nat)
    requires Inv(s) && p < |s.proxies| && s.proxies[p].pc in {ReturnMissing, ReturnSegment}
    ensures Inv(NextProxy(s, p).value)
  {
    hide ProxyStep;
    var s' := NextProxy(s, p).value;
    ReturnInv(s, s', p);
  }

  lemma ReturnPoolOk(s: State, s': State, id: nat)
    requires Typed(s) && Typed(s') && Pool(s) && id < |s.place| && s.place[id].Held?
    requires s'.free == s.free + [id] && |s'.place| == |s.place| && s'.place[id] == Free
    requires forall j :: 0 <= j < |s.place| && j != id ==> s'.place[j] == s.place[j]
    ensures Pool(s')
  {
    forall i: nat | i < |s'.place| && s'.place[i] == Free ensures i in s'.free {
      assert s'.free[|s.free|] == id;
    }
  }

  lemma ReceiveKeeps(s: State, w: nat)
    requires Inv(s) && w < |s.workers| && s.workers[w].pc == Receive && s.mq != []
    ensures Inv(NextWorker(s, w).value)
  {
    hide Session;
    hide Outcome;
    hide AtRest;
    hide Segments;
    hide Pool;
    hide PoolLock;
    var m, s' := s.mq[0], NextWorker(s, w).value;
    assert RequestOk(s, m);
    SegmentAt(s, m.id);
    QueuedSession(s.files, s.segments[m.id], s.proxies[s.place[m.id].proxy]);
    Alone(s, m.id);
    SamePoolLock(s, s');
    PoolFrame(s, s', m.id);
    ElsewhereSegments(s, s', m.id);
    ReceiveRequests(s, s', m.id);
    hide Requests;
    assert WorkerOk(s', w);
    ElsewhereThreads(s, s', m.id);
  }

  lemma ReceiveRequests(s: State, s': State, i: nat)
    requires Inv(s) && Elsewhere(s, s', i) && i < |s.segments| && Typed(s')
    requires s.mq != [] && s.mq[0].id == i && s'.mq == s.mq[1..]
    requires s'.place[i].Held? && s'.place[i].stage != InQueue
    ensures Requests(s')
  {
    hide Session;
    hide AtRest;
    hide Active;
    hide Segments;
    hide Pool;
    hide PoolLock;
    assert s.mq == [s.mq[0]] + s'.mq;
    ElsewhereRequests(s, s', i);
  }

  lemma SamePoolLock(s: State, s': State)
    requires PoolLock(s) && s'.proxies == s.proxies && s'.semQueue == s.semQueue && s'.free == s.free
    ensures PoolLock(s')
  {
  }

  lemma ServingStays(files: Files, g: Segment, x: Proxy, y: Worker)
    requires Session(files, g, x, Serving(y))
    ensures Active(files, y) && y.pc != Receive
  {
  }

  /** A worker that still has work on its segment. */
  lemma ServingKeeps(s: State, w: nat)
    requires Inv(s) && w < |s.workers| && Active(s.files, s.workers[w]) && NextWorker(s, w).Some?
    ensures Inv(NextWorker(s, w).value)
  {
    hide Session;
    hide Outcome;
    hide AtRest;
    hide WorkerStep;
    hide Active;
    hide Segments;
    hide Pool;
    hide PoolLock;
    hide Requests;
    var y, s' := s.workers[w], NextWorker(s, w).value;
    assert WorkerOk(s, w);
    SegmentAt(s, y.id);
    var x := s.proxies[s.place[y.id].proxy];
    ServingStays(s.files, s.segments[y.id], x, y);
    WorkerKeeps(s.files, s.segments[y.id], x, y);
    Alone(s, y.id);
    SamePoolLock(s, s');
    PoolFrame(s, s', y.id);
    ElsewhereSegments(s, s', y.id);
    SameRequests(s, s', y.id);
    ElsewhereThreads(s, s', y.id);
  }

  predicate Waiting(place: Place) {
    place.Held? && place.stage == InQueue
  }

  lemma SameRequests(s: State, s': State, i: nat)
    requires Inv(s) && Elsewhere(s, s', i) && i < |s.segments| && Typed(s') && s'.mq == s.mq
    requires s'.place[i] == s.place[i] || (!Waiting(s.place[i]) && !Waiting(s'.place[i]))
    requires s'.place[i] == s.place[i] && s.place[i].Held? ==> s'.proxies == s.proxies
    ensures Requests(s')
  {
    hide Session;
    hide AtRest;
    hide Active;
    forall k | 0 <= k < |s.mq| ensures RequestOk(s', s'.mq[k]) {
      assert RequestOk(s, s.mq[k]);
      SegmentAt(s, s.mq[k].id);
    }
  }

  /** A worker that finds nothing more to read leaves its old segment alone. */
  lemma LeavingKeeps(s: State, w: nat)
    requires Inv(s) && w < |s.workers| && s.workers[w].pc != Receive && !Active(s.files, s.workers[w])
    ensures NextWorker(s, w).Some? && Inv(NextWorker(s, w).value)
    ensures NextWorker(s, w).value.workers[w].pc == Receive && NextWorker(s, w).value.segments == s.segments
  {
    hide Session;
    hide Outcome;
    hide AtRest;
    hide Segments;
    hide Pool;
    hide PoolLock;
    hide Requests;
    var y, s' := s.workers[w], NextWorker(s, w).value;
    Leaves(s.files, s.segments[y.id], y);
    hide WorkerStep;
    assert s' == s.(workers := s.workers[w := s'.workers[w]]);
    SegmentAt(s, y.id);
    SegmentFrame(s, s', y.id);
    SamePoolLock(s, s');
    SamePool(s, s');
    ElsewhereSegments(s, s', y.id);
    SameRequests(s, s', y.id);
    forall q: nat | q < |s.proxies| ensures ProxyOk(s', q) {
      assert ProxyOk(s, q);
    }
    forall v: nat | v < |s.workers| ensures WorkerOk(s', v) {
      assert WorkerOk(s, v);
    }
  }

  lemma SamePool(s: State, s': State)
    requires Typed(s) && Typed(s') && Pool(s) && s'.free == s.free && s'.place == s.place
    ensures Pool(s')
  {
  }

  lemma Leaves(files: Files, g: Segment, y: Worker)
    requires y.pc != Receive && !Active(files, y)
    ensures WorkerStep(files, g, y).Some? && WorkerStep(files, g, y).value.0 == g
    ensures var y' := WorkerStep(files, g, y).value.1; y'.pc == Receive && y'.id == y.id && !Active(files, y')
  {
  }

  /** Every step of every thread keeps the invariant. */
  lemma NextKeepsInv(s: State, step: Step)
    requires Inv(s) && Next(s, step).Some?
    ensures Inv(Next(s, step).value)
  {
    match step
    case Begin(p, path) => BeginKeeps(s, p, path);
    case ByProxy(p) =>
      var pc := s.proxies[p].pc;
      if pc in {WaitPool, TestPool, PollPost, SendMissing} {
        OutsideKeeps(s, p);
      } else if pc == PopPool {
        PopKeeps(s, p);
      } else if pc == PostPool {
        PostPoolKeeps(s, p);
      } else if pc == SendRequest {
        SendKeeps(s, p);
      } else if pc in {ReturnMissing, ReturnSegment} {
        ReturnKeeps(s, p);
      } else {
        OnSegmentKeeps(s, p);
      }
    case ByWorker(w) =>
      if s.workers[w].pc == Receive {
        ReceiveKeeps(s, w);
      } else if Active(s.files, s.workers[w]) {
        ServingKeeps(s, w);
      } else {
        LeavingKeeps(s, w);
      }
  }

  lemma InitInv(s: State)
    requires Init(s)
    ensures Inv(s)
  {
    forall i: nat | i < |s.segments| ensures i in s.free {
      assert s.free[i] == i;
    }
  }
}
